/** A directory tree as the file browser and the downloader see it through
    `readdirSync` and `statSync`, and the recursive size of a folder. */
module FsTree {

  /** What `statSync` reports for a path, with the errors the size walk meets:
      a directory that cannot be listed, and an entry that cannot be stat'ed
      (a dangling link, say). */
  datatype Node =
    | File(size: nat)
    | Dir(readable: bool, entries: seq<(string, Node)>)
    | Other
    | Unstatable

  /** The sum of every file size in the tree, errors ignored: what a folder
      would weigh if every read succeeded. */
  function FileSum(n: Node): nat
    decreases n, 1
  {
    match n
    case File(s) => s
    case Dir(_, _) => EntriesFileSum(n, 0)
    case Other => 0
    case Unstatable => 0
  }

  /** The file sizes under the entries of directory `d` from the `i`-th on. */
  function EntriesFileSum(d: Node, i: nat): nat
    requires d.Dir? && i <= |d.entries|
    decreases d, 0, |d.entries| - i
  {
    if i == |d.entries| then 0 else FileSum(d.entries[i].1) + EntriesFileSum(d, i + 1)
  }

  /** A tree in which every directory can be listed and every entry stat'ed. */
  predicate Healthy(n: Node)
    decreases n
  {
    match n
    case File(_) => true
    case Dir(r, es) => r && forall k :: 0 <= k < |es| ==> Healthy(es[k].1)
    case Other => true
    case Unstatable => false
  }

  /** The value `getDirSize` computes: a path that cannot be listed (an
      unreadable directory, or not a directory) weighs 0, and inside a listing
      the first entry that cannot be stat'ed ends the walk with the total so far. */
  function DirSize(n: Node): nat
    decreases n, 1
  {
    if n.Dir? && n.readable then EntriesSize(n, 0) else 0
  }

  /** What the walk adds up over the entries of directory `d` from the `i`-th on. */
  function EntriesSize(d: Node, i: nat): nat
    requires d.Dir? && i <= |d.entries|
    decreases d, 0, |d.entries| - i
  {
    if i == |d.entries| then 0
    else
      var child := d.entries[i].1;
      match child
      case Unstatable => 0
      case File(s) => s + EntriesSize(d, i + 1)
      case Dir(_, _) => DirSize(child) + EntriesSize(d, i + 1)
      case Other => EntriesSize(d, i + 1)
  }

  /** `getDirSize` (the same function appears in the downloader and in the
      folder listing). */
  method GetDirSize(n: Node) returns (total: nat)
    ensures total == DirSize(n)
    decreases n
  {
    total := 0;
    if !n.Dir? || !n.readable {
      return;
    }
    var i := 0;
    while i < |n.entries|
      invariant 0 <= i <= |n.entries|
      invariant total + EntriesSize(n, i) == EntriesSize(n, 0)
      decreases |n.entries| - i
    {
      var child := n.entries[i].1;
      match child {
        case Unstatable =>
          return;
        case File(s) =>
          total := total + s;
        case Dir(_, _) =>
          var sub := GetDirSize(child);
          total := total + sub;
        case Other =>
      }
      i := i + 1;
    }
  }

  /** The walk never reports more than the files weigh, and for a directory whose
      every read succeeds it reports exactly their weight. */
  lemma {:induction false} DirSizeBound(n: Node)
    ensures DirSize(n) <= FileSum(n)
    ensures n.Dir? && Healthy(n) ==> DirSize(n) == FileSum(n)
    decreases n, 1
  {
    if n.Dir? && n.readable {
      EntriesSizeBound(n, 0);
    }
  }

  lemma {:induction false} EntriesSizeBound(d: Node, i: nat)
    requires d.Dir? && i <= |d.entries|
    ensures EntriesSize(d, i) <= EntriesFileSum(d, i)
    ensures (forall k :: i <= k < |d.entries| ==> Healthy(d.entries[k].1)) ==>
      EntriesSize(d, i) == EntriesFileSum(d, i)
    decreases d, 0, |d.entries| - i
  {
    if i < |d.entries| {
      EntriesSizeBound(d, i + 1);
      var child := d.entries[i].1;
      DirSizeBound(child);
      if child.Dir? {
        assert EntriesSize(d, i) == DirSize(child) + EntriesSize(d, i + 1);
      }
    }
  }

  /** A folder that cannot be listed contributes 0 to its parent's size, and the
      walk goes on past it. */
  lemma UnreadableWeighsNothing(d: Node, i: nat)
    requires d.Dir? && i < |d.entries| && d.entries[i].1.Dir? && !d.entries[i].1.readable
    ensures EntriesSize(d, i) == EntriesSize(d, i + 1)
  {
  }
}

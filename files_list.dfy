/** The folder-list endpoint of the file browser: one entry per download
    folder, with a title taken from `info.json` or from the folder name, the
    mode guessed from the file names, the video id read off the name, the
    recursive size, a search filter and newest-first order. */
module FilesList {
  import opened Wrappers
  import opened Strings
  import opened Paths
  import opened Sorting
  import FsTree

  const DumpDir: string := "/Volumes/ME Backup02/_Dump"

  // ---- detectMode ----

  predicate AnyEndsWith(files: seq<string>, suffixes: set<string>) {
    exists k, x :: 0 <= k < |files| && x in suffixes && EndsWith(files[k], x)
  }

  const VideoSuffixes: set<string> := {".mp4", ".mkv", ".webm"}

  /** `detectMode`: 'wav' for audio without video, 'text' for subtitles without
      video, 'full' otherwise. The suffix tests are case-sensitive. */
  function DetectMode(files: seq<string>): (m: string)
    ensures m == "wav" <==> AnyEndsWith(files, {".wav"}) && !AnyEndsWith(files, VideoSuffixes)
    ensures m == "text" <==>
      !AnyEndsWith(files, {".wav"}) && !AnyEndsWith(files, VideoSuffixes) && AnyEndsWith(files, {".srt"})
    ensures m == "full" <==> AnyEndsWith(files, VideoSuffixes) || (!AnyEndsWith(files, {".wav"}) && !AnyEndsWith(files, {".srt"}))
  {
    var hasVideo := exists k :: 0 <= k < |files| && (EndsWith(files[k], ".mp4") || EndsWith(files[k], ".mkv") || EndsWith(files[k], ".webm"));
    var hasWav := exists k :: 0 <= k < |files| && EndsWith(files[k], ".wav");
    var hasSrt := exists k :: 0 <= k < |files| && EndsWith(files[k], ".srt");
    assert hasVideo <==> AnyEndsWith(files, VideoSuffixes) by {
      if hasVideo {
        var k :| 0 <= k < |files| && (EndsWith(files[k], ".mp4") || EndsWith(files[k], ".mkv") || EndsWith(files[k], ".webm"));
        if EndsWith(files[k], ".mp4") { assert ".mp4" in VideoSuffixes; }
        else if EndsWith(files[k], ".mkv") { assert ".mkv" in VideoSuffixes; }
        else { assert ".webm" in VideoSuffixes; }
      }
    }
    assert hasWav <==> AnyEndsWith(files, {".wav"}) by {
      if hasWav {
        var k :| 0 <= k < |files| && EndsWith(files[k], ".wav");
        assert ".wav" in {".wav"};
      }
    }
    assert hasSrt <==> AnyEndsWith(files, {".srt"}) by {
      if hasSrt {
        var k :| 0 <= k < |files| && EndsWith(files[k], ".srt");
        assert ".srt" in {".srt"};
      }
    }
    if hasWav && !hasVideo then "wav"
    else if !hasVideo && hasSrt then "text"
    else "full"
  }

  // ---- extractVideoId ----

  /** The class `[a-zA-Z0-9_-]`. */
  predicate IdChar(c: char) {
    'a' <= c <= 'z' || 'A' <= c <= 'Z' || '0' <= c <= '9' || c == '_' || c == '-'
  }

  predicate IsVideoId(id: string) {
    id != [] && forall i :: 0 <= i < |id| ==> IdChar(id[i])
  }

  /** The index of the last `c` in `s`, or -1. */
  function LastIndexOf(s: string, c: char): (k: int)
    ensures -1 <= k < |s|
    ensures k >= 0 ==> s[k] == c
    ensures forall i :: k < i < |s| ==> s[i] != c
  {
    if s == [] then -1
    else if s[|s| - 1] == c then |s| - 1
    else LastIndexOf(s[..|s| - 1], c)
  }

  /** `extractVideoId`: the id in a trailing "[id]" (the regex
      `/\[([a-zA-Z0-9_-]+)\]$/`). An id cannot hold '[', so the bracket is the
      name's last '['. */
  function VideoId(name: string): (r: Option<string>)
    ensures r.Some? ==> IsVideoId(r.value) && EndsWith(name, "[" + r.value + "]")
  {
    if |name| < 3 || name[|name| - 1] != ']' then None
    else
      var k := LastIndexOf(name[..|name| - 1], '[');
      var id := name[k + 1..|name| - 1];
      if k < 0 || !IsVideoId(id) then None
      else
        assert name[|name| - (|id| + 2)..] == "[" + id + "]";
        Some(id)
  }

  /** Every name ending in a bracketed id yields that id. */
  lemma VideoIdOf(prefix: string, id: string)
    requires IsVideoId(id)
    ensures VideoId(prefix + "[" + id + "]") == Some(id)
  {
    var name := prefix + "[" + id + "]";
    var body := name[..|name| - 1];
    assert body == prefix + "[" + id;
    assert body[|prefix|] == '[';
    forall i | |prefix| < i < |body| ensures body[i] != '[' {
      assert body[i] == id[i - |prefix| - 1];
    }
    assert LastIndexOf(body, '[') == |prefix|;
    assert name[|prefix| + 1..|name| - 1] == id;
  }

  // ---- the title from the folder name ----

  /** A place where `\[[^\]]+\]$` matches: '[' at `q`, then a non-empty run
      without ']', then the final ']'. */
  predicate BracketAt(s: string, q: nat) {
    q + 3 <= |s| && s[q] == '[' && s[|s| - 1] == ']' && forall i :: q < i < |s| - 1 ==> s[i] != ']'
  }

  /** The first place at or after `from` where the bracket suffix matches, or -1. */
  function FirstBracket(s: string, from: nat): (q: int)
    ensures q == -1 || (from <= q && BracketAt(s, q))
    ensures forall i :: from <= i && (q == -1 || i < q) ==> !BracketAt(s, i)
    decreases |s| - from
  {
    if from + 3 > |s| then -1
    else if BracketAt(s, from) then from
    else FirstBracket(s, from + 1)
  }

  /** `name.replace(/\s*\[[^\]]+\]$/, '')`. The leftmost match starts at the
      white space run before the first place the bracket suffix matches (`\s*`
      cannot pass over a '['), so the result is what precedes that bracket with
      its trailing white space dropped. */
  function StripIdSuffix(name: string): string {
    var q := FirstBracket(name, 0);
    if q < 0 then name else TrimEnd(name[..q])
  }

  /** A yt-dlp style folder name "title [id]" gives back its title, for a title
      with no '[' and no trailing white space. */
  lemma StripIdSuffixOf(title: string, sep: string, id: string)
    requires '[' !in title && (title == [] || !IsSpace(title[|title| - 1]))
    requires forall i :: 0 <= i < |sep| ==> IsSpace(sep[i])
    requires id != [] && ']' !in id
    ensures StripIdSuffix(title + sep + "[" + id + "]") == title
  {
    var s := title + sep + "[" + id + "]";
    var q := |title| + |sep|;
    assert s[q] == '[';
    forall i | q < i < |s| - 1 ensures s[i] != ']' {
      assert s[i] == id[i - q - 1];
    }
    assert BracketAt(s, q);
    forall i | 0 <= i < q ensures !BracketAt(s, i) {
      if i < |title| { assert s[i] == title[i]; } else { assert s[i] == sep[i - |title|]; assert !IsSpace('['); }
    }
    assert FirstBracket(s, 0) == q;
    assert s[..q] == title + sep;
    TrimSpaceRun(title, sep);
  }

  lemma {:induction false} TrimSpaceRun(title: string, sep: string)
    requires title == [] || !IsSpace(title[|title| - 1])
    requires forall i :: 0 <= i < |sep| ==> IsSpace(sep[i])
    ensures TrimEnd(title + sep) == title
    decreases |sep|
  {
    if sep == [] {
      assert title + sep == title;
    } else {
      var s := title + sep;
      assert s[..|s| - 1] == title + sep[..|sep| - 1];
      TrimSpaceRun(title, sep[..|sep| - 1]);
    }
  }

  // ---- one folder ----

  /** The `info.json` fields as parsed; a missing or falsy field is "" or 0. */
  datatype Meta = Meta(title: string, channel: string, duration: int)

  /** A top-level entry of the dump folder and what reading it gives: `node` is
      what `statSync` and `readdirSync` see, `parsed` the result of parsing its
      `info.json` when there is one (None when `JSON.parse` throws). `stat` is
      None when `statSync` throws. */
  datatype Folder = Folder(name: string, stat: Option<FolderStat>)
  datatype FolderStat = FolderStat(mtime: int, node: FsTree.Node, parsed: Option<Meta>)

  datatype FolderEntry = FolderEntry(
    name: string, path: string, title: string, channel: string, mode: string, fileCount: nat,
    totalSize: nat, thumbnailFile: Option<string>, modifiedAt: int, duration: int, videoId: Option<string>)

  predicate Hidden(name: string) {
    StartsWith(name, ".")
  }

  function Names(es: seq<(string, FsTree.Node)>): (ns: seq<string>)
    ensures |ns| == |es| && forall k :: 0 <= k < |es| ==> ns[k] == es[k].0
  {
    seq(|es|, k requires 0 <= k < |es| => es[k].0)
  }

  /** `readdirSync(...).filter(f => !f.startsWith('.'))`. */
  function VisibleNames(ns: seq<string>): (vs: seq<string>)
    ensures forall n :: n in vs <==> n in ns && !Hidden(n)
  {
    if ns == [] then []
    else (if Hidden(ns[0]) then [] else [ns[0]]) + VisibleNames(ns[1..])
  }

  /** How many names are not `info.json`. */
  function CountOthers(ns: seq<string>): (n: nat)
    ensures n <= |ns|
    ensures n == |ns| <==> "info.json" !in ns
    ensures n + multiset(ns)["info.json"] == |ns|
  {
    if ns == [] then 0
    else
      assert ns == [ns[0]] + ns[1..];
      (if ns[0] == "info.json" then 0 else 1) + CountOthers(ns[1..])
  }

  predicate IsThumbnailName(f: string) {
    EndsWith(f, ".webp") || EndsWith(f, ".jpg") || EndsWith(f, ".png")
  }

  /** `files.find(...) || null`: the first image name. */
  function FirstThumbnail(files: seq<string>): (r: Option<string>)
    ensures r.None? <==> forall k :: 0 <= k < |files| ==> !IsThumbnailName(files[k])
    ensures r.Some? ==> exists k :: (0 <= k < |files| && files[k] == r.value && IsThumbnailName(files[k]) &&
      forall j :: 0 <= j < k ==> !IsThumbnailName(files[j]))
  {
    if files == [] then None
    else if IsThumbnailName(files[0]) then Some(files[0])
    else
      var r := FirstThumbnail(files[1..]);
      assert forall i :: 1 <= i < |files| ==> files[i] == files[1..][i - 1];
      r
  }

  /** Title, channel and duration: from `info.json` when it exists (each falling
      back to the folder name, '' and 0, and all three when it does not parse),
      otherwise the folder name without its "[id]" suffix. */
  function Describe(name: string, hasInfo: bool, parsed: Option<Meta>): (d: Meta)
    ensures hasInfo && parsed.Some? ==> (d.channel == parsed.value.channel && d.duration == parsed.value.duration &&
      d.title == (if parsed.value.title != "" then parsed.value.title else name))
    ensures hasInfo && parsed.None? ==> d == Meta(name, "", 0)
    ensures !hasInfo ==> d == Meta(StripIdSuffix(name), "", 0)
  {
    if hasInfo then
      if parsed.Some? then
        Meta(if parsed.value.title != "" then parsed.value.title else name, parsed.value.channel, parsed.value.duration)
      else Meta(name, "", 0)
    else Meta(StripIdSuffix(name), "", 0)
  }

  /** The entry the `map` callback builds, or None where it returns null (not a
      directory, or a read that throws). */
  function EntryOf(f: Folder): (r: Option<FolderEntry>)
    ensures r.Some? <==> f.stat.Some? && f.stat.value.node.Dir? && f.stat.value.node.readable
    ensures r.Some? ==> var st := f.stat.value;
      var files := VisibleNames(Names(st.node.entries));
      && r.value.name == f.name && r.value.modifiedAt == st.mtime
      && r.value.totalSize == FsTree.DirSize(st.node)
      && r.value.fileCount == CountOthers(files)
      && r.value.mode == DetectMode(files)
      && r.value.thumbnailFile == FirstThumbnail(files)
      && r.value.videoId == VideoId(f.name)
  {
    if f.stat.None? then None
    else
      var st := f.stat.value;
      if !st.node.Dir? || !st.node.readable then None
      else
        var names := Names(st.node.entries);
        var files := VisibleNames(names);
        var meta := Describe(f.name, "info.json" in names, st.parsed);
        Some(FolderEntry(f.name, JoinPath(DumpDir, f.name), meta.title, meta.channel, DetectMode(files),
                         CountOthers(files), FsTree.DirSize(st.node), FirstThumbnail(files), st.mtime,
                         meta.duration, VideoId(f.name)))
  }

  /** The search filter: an empty query keeps everything; otherwise the lowercased
      query must occur in the lowercased title or channel. */
  predicate Matches(e: FolderEntry, search: string) {
    search == "" || Contains(Lower(e.title), search) || Contains(Lower(e.channel), search)
  }

  /** The entries kept, in directory order. */
  function Kept(fs: seq<Folder>, search: string): (es: seq<FolderEntry>)
    ensures forall e :: e in es <==> exists f :: f in fs && !Hidden(f.name) && EntryOf(f) == Some(e) && Matches(e, search)
  {
    if fs == [] then []
    else
      var e := EntryOf(fs[0]);
      (if !Hidden(fs[0].name) && e.Some? && Matches(e.value, search) then [e.value] else []) + Kept(fs[1..], search)
  }

  /** The comparator `b.modifiedAt - a.modifiedAt`: newest first. */
  function NewestFirst(e: FolderEntry): seq<int> {
    [-e.modifiedAt]
  }

  function TotalSize(es: seq<FolderEntry>): nat {
    if es == [] then 0 else TotalSize(es[..|es| - 1]) + es[|es| - 1].totalSize
  }

  /** The sum does not depend on the order it is taken in. */
  lemma {:induction false} TotalSizeOfPermutation(a: seq<FolderEntry>, b: seq<FolderEntry>)
    requires multiset(a) == multiset(b)
    ensures TotalSize(a) == TotalSize(b)
    decreases |a|
  {
    if a != [] {
      var x := a[|a| - 1];
      assert x in multiset(b);
      var k :| 0 <= k < |b| && b[k] == x;
      var b' := b[..k] + b[k + 1..];
      assert b == b[..k] + [x] + b[k + 1..];
      assert a == a[..|a| - 1] + [x];
      assert multiset(a[..|a| - 1]) == multiset(a) - multiset{x};
      assert multiset(b') == multiset(b) - multiset{x} by {
        assert multiset(b) == multiset(b[..k]) + multiset{x} + multiset(b[k + 1..]);
        assert multiset(b') == multiset(b[..k]) + multiset(b[k + 1..]);
      }
      TotalSizeOfPermutation(a[..|a| - 1], b');
      TotalSizeSplit(b[..k], x, b[k + 1..]);
    }
  }

  lemma {:induction false} TotalSizeSplit(p: seq<FolderEntry>, x: FolderEntry, q: seq<FolderEntry>)
    ensures TotalSize(p + [x] + q) == TotalSize(p + q) + x.totalSize
    decreases |q|
  {
    if q == [] {
      assert p + [x] + q == p + [x];
      assert p + q == p;
    } else {
      var q' := q[..|q| - 1];
      assert p + [x] + q == (p + [x] + q') + [q[|q| - 1]];
      assert p + q == (p + q') + [q[|q| - 1]];
      TotalSizeSplit(p, x, q');
    }
  }

  /** What reading the dump folder itself gives. */
  datatype Root = Missing | Unlistable | Listed(folders: seq<Folder>)

  datatype ListReply =
    | Listing(folders: seq<FolderEntry>, totalSize: nat, totalFolders: nat)
    | Failed(status: nat, error: string)

  /** `GET /api/files/list?q=...`. */
  function Get(q: Option<string>, root: Root): (r: ListReply)
    ensures root.Missing? ==> r == Listing([], 0, 0)
    ensures root.Unlistable? ==> r == Failed(500, "Failed to list files")
    ensures root.Listed? ==> r.Listing?
    ensures root.Listed? ==>
      var search := if q.Some? then Lower(q.value) else "";
      var kept := Kept(root.folders, search);
      && SortedBy(r.folders, NewestFirst) && multiset(r.folders) == multiset(kept)
      && (forall k :: WithKey(r.folders, NewestFirst, k) == WithKey(kept, NewestFirst, k))
      && r.totalSize == TotalSize(kept) && r.totalFolders == |kept|
  {
    match root
    case Missing => Listing([], 0, 0)
    case Unlistable => Failed(500, "Failed to list files")
    case Listed(fs) =>
      var search := if q.Some? then Lower(q.value) else "";
      var kept := Kept(fs, search);
      var es := SortBy(kept, NewestFirst);
      SortedPermutation(kept, NewestFirst);
      assert forall k :: WithKey(es, NewestFirst, k) == WithKey(kept, NewestFirst, k) by {
        forall k { SortStable(kept, NewestFirst, k); }
      }
      TotalSizeOfPermutation(es, kept);
      Listing(es, TotalSize(es), |es|)
  }
}

/** The downloads table: one row per download job, keyed by id, with partial
    updates and the four query shapes the scheduler and the pages use. The
    table is held in memory; `created_at` is the position of the id in the
    insertion order, and times are clock values supplied by the caller. */
module Db {
  import opened Wrappers

  /** The `status` column. Only these six values are ever written. */
  datatype Status = Queued | Downloading | Processing | Completed | Error | Cancelled

  /** Queued, downloading or processing: the rows the queue view shows. */
  const OpenStatuses: set<Status> := {Queued, Downloading, Processing}

  /** Completed, error or cancelled: the rows the history view shows. */
  const TerminalStatuses: set<Status> := {Completed, Error, Cancelled}

  /** A `progress_percent` value: a finite number, or the non-finite value a
      division by zero produces. */
  datatype Percent = Finite(value: real) | NotFinite

  /** One row of the table (every column but `created_at`). */
  datatype Job = Job(
    id: string,
    url: string,
    title: Option<string>,
    channel: Option<string>,
    duration: Option<int>,
    mode: string,
    status: Status,
    progress: Percent,
    speed: Option<string>,
    eta: Option<string>,
    error: Option<string>,
    pid: Option<int>,
    outputDir: Option<string>,
    fileSize: Option<int>,
    thumbnailUrl: Option<string>,
    startedAt: Option<nat>,
    completedAt: Option<nat>)

  /** JavaScript's `x || null` for an optional string: undefined and "" become null. */
  function OrNullText(x: Option<string>): (r: Option<string>)
    ensures r.Some? <==> x.Some? && x.value != ""
    ensures r.Some? ==> r == x
  {
    if x.Some? && x.value != "" then x else None
  }

  /** JavaScript's `x || null` for an optional number: undefined and 0 become null. */
  function OrNullNumber(x: Option<int>): (r: Option<int>)
    ensures r.Some? <==> x.Some? && x.value != 0
    ensures r.Some? ==> r == x
  {
    if x.Some? && x.value != 0 then x else None
  }

  /** The row `insertDownload` creates: status 'queued', falsy optional values
      stored as null, and the column defaults for the rest. */
  function NewJob(id: string, url: string, title: Option<string>, channel: Option<string>,
                  duration: Option<int>, mode: string, thumbnailUrl: Option<string>): Job
  {
    Job(id, url, OrNullText(title), OrNullText(channel), OrNullNumber(duration), mode,
        Queued, Finite(0.0), None, None, None, None, None, None, OrNullText(thumbnailUrl), None, None)
  }

  // ---- Partial updates ----

  /** A column name, as a key of the object given to `updateDownload`. */
  datatype Column =
    | IdCol | UrlCol | TitleCol | ChannelCol | DurationCol | ModeCol | StatusCol | ProgressCol
    | SpeedCol | EtaCol | ErrorCol | PidCol | OutputDirCol | FileSizeCol | ThumbnailCol
    | StartedAtCol | CompletedAtCol

  /** One key and value of the object given to `updateDownload`. */
  datatype Field =
    | SetId(id: string)
    | SetUrl(url: string)
    | SetTitle(title: Option<string>)
    | SetChannel(channel: Option<string>)
    | SetDuration(duration: Option<int>)
    | SetMode(mode: string)
    | SetStatus(status: Status)
    | SetProgress(progress: Percent)
    | SetSpeed(speed: Option<string>)
    | SetEta(eta: Option<string>)
    | SetError(error: Option<string>)
    | SetPid(pid: Option<int>)
    | SetOutputDir(outputDir: Option<string>)
    | SetFileSize(fileSize: Option<int>)
    | SetThumbnail(thumbnailUrl: Option<string>)
    | SetStartedAt(startedAt: Option<nat>)
    | SetCompletedAt(completedAt: Option<nat>)
  {
    function Col(): Column {
      match this
      case SetId(_) => IdCol
      case SetUrl(_) => UrlCol
      case SetTitle(_) => TitleCol
      case SetChannel(_) => ChannelCol
      case SetDuration(_) => DurationCol
      case SetMode(_) => ModeCol
      case SetStatus(_) => StatusCol
      case SetProgress(_) => ProgressCol
      case SetSpeed(_) => SpeedCol
      case SetEta(_) => EtaCol
      case SetError(_) => ErrorCol
      case SetPid(_) => PidCol
      case SetOutputDir(_) => OutputDirCol
      case SetFileSize(_) => FileSizeCol
      case SetThumbnail(_) => ThumbnailCol
      case SetStartedAt(_) => StartedAtCol
      case SetCompletedAt(_) => CompletedAtCol
    }
  }

  /** Two rows hold the same value in column `c`. */
  predicate Agree(a: Job, b: Job, c: Column) {
    match c
    case IdCol => a.id == b.id
    case UrlCol => a.url == b.url
    case TitleCol => a.title == b.title
    case ChannelCol => a.channel == b.channel
    case DurationCol => a.duration == b.duration
    case ModeCol => a.mode == b.mode
    case StatusCol => a.status == b.status
    case ProgressCol => a.progress == b.progress
    case SpeedCol => a.speed == b.speed
    case EtaCol => a.eta == b.eta
    case ErrorCol => a.error == b.error
    case PidCol => a.pid == b.pid
    case OutputDirCol => a.outputDir == b.outputDir
    case FileSizeCol => a.fileSize == b.fileSize
    case ThumbnailCol => a.thumbnailUrl == b.thumbnailUrl
    case StartedAtCol => a.startedAt == b.startedAt
    case CompletedAtCol => a.completedAt == b.completedAt
  }

  /** The row after the assignment of one `SET col = value`. */
  function Assign(j: Job, f: Field): Job {
    match f
    case SetId(_) => j
    case SetUrl(v) => j.(url := v)
    case SetTitle(v) => j.(title := v)
    case SetChannel(v) => j.(channel := v)
    case SetDuration(v) => j.(duration := v)
    case SetMode(v) => j.(mode := v)
    case SetStatus(v) => j.(status := v)
    case SetProgress(v) => j.(progress := v)
    case SetSpeed(v) => j.(speed := v)
    case SetEta(v) => j.(eta := v)
    case SetError(v) => j.(error := v)
    case SetPid(v) => j.(pid := v)
    case SetOutputDir(v) => j.(outputDir := v)
    case SetFileSize(v) => j.(fileSize := v)
    case SetThumbnail(v) => j.(thumbnailUrl := v)
    case SetStartedAt(v) => j.(startedAt := v)
    case SetCompletedAt(v) => j.(completedAt := v)
  }

  /** The columns an update object names, the 'id' key excepted. */
  function Named(fs: seq<Field>): set<Column> {
    set k | 0 <= k < |fs| && fs[k].Col() != IdCol :: fs[k].Col()
  }

  /** The row after `UPDATE ... SET` with the given keys, the rightmost of two
      assignments to one column winning, as in SQLite. */
  function Apply(j: Job, fs: seq<Field>): (r: Job)
    ensures r.id == j.id
    ensures forall c :: c !in Named(fs) ==> Agree(j, r, c)
    decreases |fs|
  {
    if fs == [] then j
    else
      var r := Apply(Assign(j, fs[0]), fs[1..]);
      assert forall c :: c in Named(fs[1..]) ==> c in Named(fs) by {
        forall c | c in Named(fs[1..]) ensures c in Named(fs) {
          var k :| 0 <= k < |fs[1..]| && fs[1..][k].Col() != IdCol && fs[1..][k].Col() == c;
          assert fs[k + 1].Col() == c;
        }
      }
      assert fs[0].Col() != IdCol ==> fs[0].Col() in Named(fs);
      r
  }

  /** The value assigned last to a column is the one the row ends with. */
  lemma {:induction false} ApplyLast(j: Job, fs: seq<Field>, k: nat)
    requires k < |fs|
    requires forall m :: k < m < |fs| ==> fs[m].Col() != fs[k].Col()
    ensures Agree(Apply(j, fs), Assign(j, fs[k]), fs[k].Col())
    decreases |fs|
  {
    var rest := fs[1..];
    if k == 0 {
      forall m | 0 <= m < |rest| ensures rest[m].Col() != fs[0].Col() {
        assert rest[m] == fs[m + 1];
      }
      ApplyUnnamed(Assign(j, fs[0]), rest, fs[0].Col());
      AgreeSym(Assign(j, fs[0]), Apply(j, fs), fs[0].Col());
    } else {
      forall m | k - 1 < m < |rest| ensures rest[m].Col() != rest[k - 1].Col() {
        assert rest[m] == fs[m + 1];
      }
      ApplyLast(Assign(j, fs[0]), rest, k - 1);
      assert rest[k - 1] == fs[k];
      AssignOverwrites(j, fs[0], fs[k]);
      AgreeTrans(Apply(j, fs), Assign(Assign(j, fs[0]), fs[k]), Assign(j, fs[k]), fs[k].Col());
    }
  }

  /** A column no key of `fs` names, 'id' included, keeps its value. */
  lemma {:induction false} ApplyUnnamed(j: Job, fs: seq<Field>, c: Column)
    requires forall m :: 0 <= m < |fs| ==> fs[m].Col() != c
    ensures Agree(j, Apply(j, fs), c)
    decreases |fs|
  {
    if fs != [] {
      forall m | 0 <= m < |fs[1..]| ensures fs[1..][m].Col() != c {
        assert fs[1..][m] == fs[m + 1];
      }
      ApplyUnnamed(Assign(j, fs[0]), fs[1..], c);
      AssignOther(j, fs[0], c);
      AgreeTrans(j, Assign(j, fs[0]), Apply(j, fs), c);
    }
  }

  lemma AgreeSym(a: Job, b: Job, c: Column)
    requires Agree(a, b, c)
    ensures Agree(b, a, c)
  {
  }

  lemma AgreeTrans(a: Job, b: Job, d: Job, c: Column)
    requires Agree(a, b, c) && Agree(b, d, c)
    ensures Agree(a, d, c)
  {
  }

  /** Assigning a column leaves every other column as it was. */
  lemma AssignOther(j: Job, f: Field, c: Column)
    requires f.Col() != c
    ensures Agree(j, Assign(j, f), c)
  {
  }

  /** A later assignment to a column overrides an earlier one. */
  lemma AssignOverwrites(j: Job, f: Field, g: Field)
    ensures Agree(Assign(Assign(j, f), g), Assign(j, g), g.Col())
  {
    AssignDecides(Assign(j, f), j, g);
  }

  /** The column an assignment names holds the assigned value, whatever else the
      row of that id holds. */
  lemma AssignDecides(a: Job, b: Job, g: Field)
    requires a.id == b.id
    ensures Agree(Assign(a, g), Assign(b, g), g.Col())
  {
  }

  // ---- The table and its queries ----

  /** The table: rows by id, and the ids in insertion order, whose positions
      stand for `created_at` (insertion order breaks second-resolution ties). */
  datatype Table = Table(rows: map<string, Job>, order: seq<string>) {
    /** `id` is the primary key: each id appears once in the order, the order
        lists exactly the stored ids, and each row is stored under its own id. */
    ghost predicate Valid() {
      (forall a, b :: 0 <= a < b < |order| ==> order[a] != order[b]) &&
      (forall id :: id in rows <==> id in order) &&
      (forall id :: id in rows ==> rows[id].id == id)
    }
  }

  /** The row at creation position `k`. */
  function At(t: Table, k: nat): Job
    requires t.Valid() && k < |t.order|
  {
    t.rows[t.order[k]]
  }

  /** The creation position of a stored id. */
  function Position(order: seq<string>, id: string): (k: nat)
    requires id in order
    ensures k < |order| && order[k] == id
    ensures forall m :: 0 <= m < k ==> order[m] != id
  {
    if order[0] == id then 0 else 1 + Position(order[1..], id)
  }

  /** The creation positions below `n` whose row's status is in `keep`, in
      ascending order: the rows of a `WHERE status ...` query, `ORDER BY created_at`. */
  function Select(t: Table, keep: set<Status>, n: nat): (ks: seq<nat>)
    requires t.Valid() && n <= |t.order|
    ensures forall a, b :: 0 <= a < b < |ks| ==> ks[a] < ks[b]
    ensures forall a :: 0 <= a < |ks| ==> ks[a] < n && (At(t, ks[a]).status in keep)
  {
    if n == 0 then []
    else if (At(t, n - 1).status in keep) then Select(t, keep, n - 1) + [n - 1]
    else Select(t, keep, n - 1)
  }

  /** The rows at the given positions. */
  function RowsAt(t: Table, ks: seq<nat>): (r: seq<Job>)
    requires t.Valid() && forall a :: 0 <= a < |ks| ==> ks[a] < |t.order|
    ensures |r| == |ks| && forall a :: 0 <= a < |ks| ==> r[a] == At(t, ks[a])
  {
    seq(|ks|, a requires 0 <= a < |ks| => At(t, ks[a]))
  }

  /** `getQueue`. */
  function Queue(t: Table): seq<Job>
    requires t.Valid()
  {
    RowsAt(t, Select(t, OpenStatuses, |t.order|))
  }

  /** `getQueue` returns exactly the queued, downloading and processing rows,
      oldest first. */
  lemma QueueExact(t: Table)
    requires t.Valid()
    ensures forall a :: 0 <= a < |Queue(t)| ==>
      Queue(t)[a].id in t.rows && t.rows[Queue(t)[a].id] == Queue(t)[a] && Queue(t)[a].status in OpenStatuses
    ensures forall id :: id in t.rows && t.rows[id].status in OpenStatuses ==> t.rows[id] in Queue(t)
    ensures forall a, b :: 0 <= a < b < |Queue(t)| ==>
      Position(t.order, Queue(t)[a].id) < Position(t.order, Queue(t)[b].id)
  {
    var ks := Select(t, OpenStatuses, |t.order|);
    SelectAll(t, OpenStatuses, |t.order|);
    forall id | id in t.rows && t.rows[id].status in OpenStatuses
      ensures t.rows[id] in Queue(t)
    {
      var k := Position(t.order, id);
      assert k in ks;
      var a :| 0 <= a < |ks| && ks[a] == k;
      assert Queue(t)[a] == t.rows[id];
    }
    forall a | 0 <= a < |ks|
      ensures Position(t.order, Queue(t)[a].id) == ks[a]
    {
      PositionAt(t, ks[a]);
    }
  }

  /** In a valid table the row at position `k` has position `k`. */
  lemma PositionAt(t: Table, k: nat)
    requires t.Valid() && k < |t.order|
    ensures At(t, k).id == t.order[k] && Position(t.order, t.order[k]) == k
  {
  }

  /** SQLite's `ORDER BY completed_at DESC`: a later completion time first,
      and a null time (the smallest value) last. */
  predicate LaterTime(x: Option<nat>, y: Option<nat>) {
    match (x, y)
    case (Some(u), Some(v)) => u > v
    case (Some(_), None) => true
    case (None, _) => false
  }

  /** A history sort key: the completion time and the creation position. */
  datatype Stamp = Stamp(time: Option<nat>, pos: nat)

  /** `x` comes before `y` in the history:
      `ORDER BY completed_at DESC, created_at DESC`. */
  predicate Before(x: Stamp, y: Stamp) {
    LaterTime(x.time, y.time) || (x.time == y.time && x.pos > y.pos)
  }

  /** No key comes after one it should precede. */
  predicate SortedBy(xs: seq<Stamp>) {
    forall a, b :: 0 <= a < b < |xs| ==> !Before(xs[b], xs[a])
  }

  /** Inserts a key into a sorted list of keys. */
  function InsertBy(x: Stamp, xs: seq<Stamp>): (r: seq<Stamp>)
    requires SortedBy(xs)
    ensures multiset(r) == multiset(xs) + multiset{x}
    ensures SortedBy(r)
  {
    if xs == [] then [x]
    else if Before(x, xs[0]) then
      BeforeSorted(x, xs);
      [x] + xs
    else
      var rest := InsertBy(x, xs[1..]);
      assert xs == [xs[0]] + xs[1..];
      InsertAfterHead(xs[0], x, xs[1..], rest);
      [xs[0]] + rest
  }

  /** A key that precedes the head of a sorted list precedes all of it. */
  lemma BeforeSorted(x: Stamp, xs: seq<Stamp>)
    requires SortedBy(xs) && xs != [] && Before(x, xs[0])
    ensures SortedBy([x] + xs)
  {
    var r := [x] + xs;
    forall a, b | 0 <= a < b < |r| ensures !Before(r[b], r[a]) {
      if a == 0 {
        assert r[b] == xs[b - 1];
        if b > 1 {
          assert !Before(xs[b - 1], xs[0]);
        }
      } else {
        assert r[a] == xs[a - 1] && r[b] == xs[b - 1];
      }
    }
  }

  /** Putting the old head in front of the insertion into the tail keeps the
      list sorted, since the inserted key does not precede the head. */
  lemma InsertAfterHead(h: Stamp, x: Stamp, tail: seq<Stamp>, rest: seq<Stamp>)
    requires SortedBy([h] + tail) && SortedBy(rest) && !Before(x, h)
    requires multiset(rest) == multiset(tail) + multiset{x}
    ensures SortedBy([h] + rest)
  {
    var r := [h] + rest;
    forall a, b | 0 <= a < b < |r| ensures !Before(r[b], r[a]) {
      if a == 0 {
        var y := r[b];
        assert y == rest[b - 1];
        assert y in multiset(rest);
        if y != x {
          assert y in multiset(tail);
          var i :| 0 <= i < |tail| && tail[i] == y;
          assert ([h] + tail)[i + 1] == y && ([h] + tail)[0] == h;
          assert !Before(([h] + tail)[i + 1], ([h] + tail)[0]);
        }
      } else {
        assert r[a] == rest[a - 1] && r[b] == rest[b - 1];
      }
    }
  }

  /** Sorts keys for the history. */
  function SortBy(xs: seq<Stamp>): (r: seq<Stamp>)
    ensures multiset(r) == multiset(xs)
    ensures SortedBy(r)
  {
    if xs == [] then []
    else
      assert xs == [xs[0]] + xs[1..];
      InsertBy(xs[0], SortBy(xs[1..]))
  }

  /** `LIMIT limit OFFSET offset` as SQLite reads them: a negative limit means
      no limit, a negative offset means none. */
  function Page<T>(xs: seq<T>, limit: int, offset: int): (r: seq<T>)
    ensures var lo := if offset < 0 then 0 else if offset > |xs| then |xs| else offset;
      var hi := if limit < 0 || lo + limit > |xs| then |xs| else lo + limit;
      r == xs[lo..hi]
  {
    var rest := if offset < 0 then xs else if offset > |xs| then [] else xs[offset..];
    if limit < 0 || limit > |rest| then rest else rest[..limit]
  }

  /** Consecutive pages cover the rows without gap or overlap. */
  lemma PagesCover<T>(xs: seq<T>, limit: nat, offset: nat)
    ensures Page(xs, limit, offset) + Page(xs, -1, offset + limit) == Page(xs, -1, offset)
  {
  }

  /** The keys of the rows at the given positions. */
  function Stamps(t: Table, ks: seq<nat>): (r: seq<Stamp>)
    requires t.Valid() && forall a :: 0 <= a < |ks| ==> ks[a] < |t.order|
    ensures |r| == |ks| && forall a :: 0 <= a < |ks| ==> r[a] == Stamp(At(t, ks[a]).completedAt, ks[a])
  {
    seq(|ks|, a requires 0 <= a < |ks| => Stamp(At(t, ks[a]).completedAt, ks[a]))
  }

  /** The keys of the terminal rows, in history order. */
  function HistoryOrder(t: Table): seq<Stamp>
    requires t.Valid()
  {
    SortBy(Stamps(t, Select(t, TerminalStatuses, |t.order|)))
  }

  /** `getHistory(limit, offset)`. */
  function History(t: Table, limit: int, offset: int): (r: seq<Job>)
    requires t.Valid()
  {
    var page := Page(HistoryOrder(t), limit, offset);
    HistoryKeys(t);
    seq(|page|, a requires 0 <= a < |page| => At(t, page[a].pos))
  }

  /** `getHistoryCount`. */
  function HistoryCount(t: Table): nat
    requires t.Valid()
  {
    |Select(t, TerminalStatuses, |t.order|)|
  }

  /** The history keys are exactly the keys of the completed, error and
      cancelled rows, each once. */
  lemma HistoryKeys(t: Table)
    requires t.Valid()
    ensures forall x :: x in HistoryOrder(t) <==>
      x.pos < |t.order| && At(t, x.pos).status in TerminalStatuses && x.time == At(t, x.pos).completedAt
    ensures forall x :: multiset(HistoryOrder(t))[x] <= 1
  {
    var st := Stamps(t, Select(t, TerminalStatuses, |t.order|));
    var h := HistoryOrder(t);
    StampsExact(t);
    forall x: Stamp ensures x in h <==> x in st {
      assert x in h <==> x in multiset(h);
      assert x in st <==> x in multiset(st);
    }
    DistinctCounts(st);
  }

  /** The keys of the terminal rows, in creation order: each terminal row's key
      once, and nothing else. */
  lemma StampsExact(t: Table)
    requires t.Valid()
    ensures var st := Stamps(t, Select(t, TerminalStatuses, |t.order|));
      && (forall x :: x in st <==>
            x.pos < |t.order| && At(t, x.pos).status in TerminalStatuses && x.time == At(t, x.pos).completedAt)
      && (forall a, b :: 0 <= a < b < |st| ==> st[a].pos < st[b].pos)
  {
    var ks := Select(t, TerminalStatuses, |t.order|);
    SelectAll(t, TerminalStatuses, |t.order|);
    var st := Stamps(t, ks);
    forall x: Stamp | x.pos < |t.order| && At(t, x.pos).status in TerminalStatuses && x.time == At(t, x.pos).completedAt
      ensures x in st
    {
      assert x.pos in ks;
      var a :| 0 <= a < |ks| && ks[a] == x.pos;
      assert st[a] == x;
    }
  }


  /** The history is strictly ordered: latest completion first and, among equal
      times, newest first. */
  lemma HistoryStrict(t: Table)
    requires t.Valid()
    ensures var h := HistoryOrder(t);
      forall a, b :: 0 <= a < b < |h| ==> Before(h[a], h[b])
  {
    HistoryKeys(t);
    SortedStrict(HistoryOrder(t));
  }

  /** A sorted list holding no key twice is strictly ordered, `Before` being total
      on distinct keys. */
  lemma SortedStrict(h: seq<Stamp>)
    requires SortedBy(h) && forall x :: multiset(h)[x] <= 1
    ensures forall a, b :: 0 <= a < b < |h| ==> Before(h[a], h[b])
  {
    forall a, b | 0 <= a < b < |h| ensures Before(h[a], h[b]) {
      if h[a] == h[b] {
        TwiceCounted(h, a, b);
      }
    }
  }

  /** The count is the length of the unpaged history, whatever the paging, and a
      page never holds more rows than that. */
  lemma HistoryCountPaged(t: Table, limit: int, offset: int)
    requires t.Valid()
    ensures HistoryCount(t) == |History(t, -1, 0)|
    ensures |History(t, limit, offset)| <= HistoryCount(t)
  {
    var ks := Select(t, TerminalStatuses, |t.order|);
    var h := HistoryOrder(t);
    assert |h| == |multiset(h)| == |multiset(Stamps(t, ks))| == |ks|;
  }

  /** Keys with strictly increasing positions are each held at most once. */
  lemma {:induction false} DistinctCounts(xs: seq<Stamp>)
    requires forall a, b :: 0 <= a < b < |xs| ==> xs[a].pos < xs[b].pos
    ensures forall x :: multiset(xs)[x] <= 1
  {
    if xs != [] {
      var rest := xs[..|xs| - 1];
      assert xs == rest + [xs[|xs| - 1]];
      DistinctCounts(rest);
      assert xs[|xs| - 1] !in rest;
    }
  }

  /** A value at two indices is counted twice. */
  lemma TwiceCounted<T>(h: seq<T>, a: nat, b: nat)
    requires 0 <= a < b < |h| && h[a] == h[b]
    ensures multiset(h)[h[a]] >= 2
  {
    assert h == h[..b] + [h[b]] + h[b + 1..];
    assert h[a] in h[..b];
  }

  /** `getActiveCount`: the number of rows in 'downloading'. */
  function ActiveCount(t: Table): nat
    requires t.Valid()
  {
    |Select(t, {Downloading}, |t.order|)|
  }

  /** `getNextQueued`: the oldest queued row, if any. */
  function NextQueued(t: Table): (r: Option<Job>)
    requires t.Valid()
    ensures r.None? <==> forall id :: id in t.rows ==> t.rows[id].status != Queued
    ensures r.Some? ==> r.value.id in t.rows && t.rows[r.value.id] == r.value && r.value.status == Queued
    ensures r.Some? ==> forall k :: 0 <= k < Position(t.order, r.value.id) ==> At(t, k).status != Queued
  {
    var ks := Select(t, {Queued}, |t.order|);
    if ks == [] then
      SelectAll(t, {Queued}, |t.order|);
      assert forall id :: id in t.rows ==> At(t, Position(t.order, id)) == t.rows[id];
      None
    else
      PositionAt(t, ks[0]);
      SelectFirstIsFirst(t, {Queued}, |t.order|);
      Some(At(t, ks[0]))
  }

  /** Two tables that agree on which of the first `n` rows `keep` selects give the
      same selection. */
  lemma {:induction false} SelectSame(t: Table, u: Table, keep: set<Status>, n: nat)
    requires t.Valid() && u.Valid() && n <= |t.order| && n <= |u.order|
    requires forall k :: 0 <= k < n ==> (At(t, k).status in keep) == (At(u, k).status in keep)
    ensures Select(t, keep, n) == Select(u, keep, n)
  {
    if n > 0 {
      SelectSame(t, u, keep, n - 1);
    }
  }

  /** The table with one stored row replaced. */
  function Replace(t: Table, j: Job): (u: Table)
    requires t.Valid() && j.id in t.rows
    ensures u.Valid()
  {
    Table(t.rows[j.id := j], t.order)
  }

  /** Replacing one row changes a selection's size by that row alone: it leaves
      the selection if it no longer qualifies and joins it if it now does. */
  lemma SelectReplace(t: Table, j: Job, keep: set<Status>, n: nat)
    requires t.Valid() && j.id in t.rows && n <= |t.order|
    ensures var here := Position(t.order, j.id) < n;
      |Select(Replace(t, j), keep, n)| ==
        |Select(t, keep, n)|
        - (if here && (t.rows[j.id].status in keep) then 1 else 0)
        + (if here && (j.status in keep) then 1 else 0)
  {
    var u := Replace(t, j);
    var p := Position(t.order, j.id);
    var was, now := (t.rows[j.id].status in keep), (j.status in keep);
    forall k | 0 <= k < |t.order| && k != p ensures (At(t, k).status in keep) == (At(u, k).status in keep) {
      assert t.order[k] != j.id;
    }
    assert At(t, p) == t.rows[j.id] && At(u, p) == j;
    SelectCount(t, u, keep, n, p, was, now);
  }

  /** The counting argument behind SelectReplace, over positions alone. */
  lemma {:induction false} SelectCount(t: Table, u: Table, keep: set<Status>, n: nat, p: nat, was: bool, now: bool)
    requires t.Valid() && u.Valid() && n <= |t.order| && |u.order| == |t.order| && p < |t.order|
    requires forall k :: 0 <= k < |t.order| && k != p ==> (At(t, k).status in keep) == (At(u, k).status in keep)
    requires (At(t, p).status in keep) == was && (At(u, p).status in keep) == now
    ensures |Select(u, keep, n)| ==
      |Select(t, keep, n)| - (if p < n && was then 1 else 0) + (if p < n && now then 1 else 0)
  {
    if n > 0 {
      SelectCount(t, u, keep, n - 1, p, was, now);
    }
  }

  /** The 'downloading' count after one row is replaced: processing and other
      non-downloading statuses are not counted. */
  lemma ActiveCountReplace(t: Table, j: Job)
    requires t.Valid() && j.id in t.rows
    ensures ActiveCount(Replace(t, j)) ==
      ActiveCount(t)
      - (if t.rows[j.id].status == Downloading then 1 else 0)
      + (if j.status == Downloading then 1 else 0)
  {
    SelectReplace(t, j, {Downloading}, |t.order|);
    assert Replace(t, j).order == t.order;
    assert Position(t.order, j.id) < |t.order|;
    assert (t.rows[j.id].status in {Downloading}) == (t.rows[j.id].status == Downloading);
    assert (j.status in {Downloading}) == (j.status == Downloading);
  }

  /** Replacing a row by one with the same status changes no selection. */
  lemma SelectSameStatus(t: Table, j: Job, keep: set<Status>)
    requires t.Valid() && j.id in t.rows && j.status == t.rows[j.id].status
    ensures Select(Replace(t, j), keep, |t.order|) == Select(t, keep, |t.order|)
  {
    var u := Replace(t, j);
    forall k | 0 <= k < |t.order| ensures (At(t, k).status in keep) == (At(u, k).status in keep) {
      if t.order[k] != j.id {
        assert At(u, k) == At(t, k);
      }
    }
    SelectSame(t, u, keep, |t.order|);
  }

  /** The ids of the queued rows, oldest first: the order in which `getNextQueued`
      hands them out. */
  function QueuedIds(t: Table): (r: seq<string>)
    requires t.Valid()
  {
    var ks := Select(t, {Queued}, |t.order|);
    seq(|ks|, a requires 0 <= a < |ks| => t.order[ks[a]])
  }

  /** `getNextQueued` returns the head of the queued ids, and nothing exactly when
      there are none; the queued ids are distinct stored queued rows. */
  lemma NextQueuedFirst(t: Table)
    requires t.Valid()
    ensures NextQueued(t).None? <==> QueuedIds(t) == []
    ensures NextQueued(t).Some? ==> NextQueued(t).value.id == QueuedIds(t)[0]
    ensures forall a :: 0 <= a < |QueuedIds(t)| ==>
      QueuedIds(t)[a] in t.rows && t.rows[QueuedIds(t)[a]].status == Queued
    ensures forall a, b :: 0 <= a < b < |QueuedIds(t)| ==> QueuedIds(t)[a] != QueuedIds(t)[b]
  {
    var ks := Select(t, {Queued}, |t.order|);
    if ks != [] {
      PositionAt(t, ks[0]);
    }
    forall a | 0 <= a < |ks| ensures t.order[ks[a]] in t.rows && t.rows[t.order[ks[a]]].status == Queued {
      PositionAt(t, ks[a]);
    }
  }

  /** Every qualifying position below `n` is selected. */
  lemma SelectAll(t: Table, keep: set<Status>, n: nat)
    requires t.Valid() && n <= |t.order|
    ensures forall k :: 0 <= k < n && (At(t, k).status in keep) ==> k in Select(t, keep, n)
  {
    forall k | 0 <= k < n && (At(t, k).status in keep) ensures k in Select(t, keep, n) {
      SelectComplete(t, keep, n, k);
    }
  }

  lemma {:induction false} SelectComplete(t: Table, keep: set<Status>, n: nat, k: nat)
    requires t.Valid() && k < n <= |t.order| && (At(t, k).status in keep)
    ensures k in Select(t, keep, n)
  {
    if k < n - 1 {
      SelectComplete(t, keep, n - 1, k);
    }
  }

  /** No position before the first selected one qualifies. */
  lemma SelectFirstIsFirst(t: Table, keep: set<Status>, n: nat)
    requires t.Valid() && n <= |t.order| && Select(t, keep, n) != []
    ensures forall k :: 0 <= k < Select(t, keep, n)[0] ==> (At(t, k).status !in keep)
  {
    var ks := Select(t, keep, n);
    SelectAll(t, keep, n);
    assert forall a :: 0 <= a < |ks| ==> ks[0] <= ks[a];
    forall k | 0 <= k < ks[0] ensures (At(t, k).status !in keep) {
      assert k !in ks;
    }
  }

  /** No row below `n` qualifies: the selection is empty. */
  lemma {:induction false} SelectNone(t: Table, keep: set<Status>, n: nat)
    requires t.Valid() && n <= |t.order|
    requires forall k :: 0 <= k < n ==> (At(t, k).status !in keep)
    ensures Select(t, keep, n) == []
  {
    if n > 0 {
      SelectNone(t, keep, n - 1);
    }
  }

  /** A row update that keeps the status changes neither the 'downloading' count
      nor the queued ids. */
  lemma SameStatusKeepsQueue(t: Table, j: Job)
    requires t.Valid() && j.id in t.rows && j.status == t.rows[j.id].status
    ensures ActiveCount(Replace(t, j)) == ActiveCount(t)
    ensures QueuedIds(Replace(t, j)) == QueuedIds(t)
  {
    SelectSameStatus(t, j, {Downloading});
    SelectSameStatus(t, j, {Queued});
  }

  /** Taking the oldest queued row out of 'queued' shortens the queued ids by their
      head. */
  lemma QueuedIdsTakeFirst(t: Table, j: Job)
    requires t.Valid() && QueuedIds(t) != [] && j.id == QueuedIds(t)[0] && j.status != Queued
    ensures QueuedIds(Replace(t, j)) == QueuedIds(t)[1..]
  {
    SelectTakeFirst(t, j);
    var u := Replace(t, j);
    assert u.order == t.order;
    IdsDropFirst(t.order, Select(t, {Queued}, |t.order|), Select(u, {Queued}, |u.order|), QueuedIds(t), QueuedIds(u));
  }

  /** Ids read at positions `ks[1..]` are the ids read at `ks`, less the first. */
  lemma IdsDropFirst(order: seq<string>, ks: seq<nat>, ks2: seq<nat>, q: seq<string>, r: seq<string>)
    requires ks != [] && ks2 == ks[1..]
    requires forall a :: 0 <= a < |ks| ==> ks[a] < |order|
    requires q == seq(|ks|, a requires 0 <= a < |ks| => order[ks[a]])
    requires r == seq(|ks2|, a requires 0 <= a < |ks2| => order[ks2[a]])
    ensures r == q[1..]
  {
    forall a | 0 <= a < |r| ensures r[a] == q[1..][a] {
      var b := a + 1;
      assert ks2[a] == ks[b];
    }
  }

  /** The positions behind QueuedIdsTakeFirst: the oldest queued row leaves the
      selection of queued positions, and only it. */
  lemma SelectTakeFirst(t: Table, j: Job)
    requires t.Valid() && Select(t, {Queued}, |t.order|) != []
    requires j.id == t.order[Select(t, {Queued}, |t.order|)[0]] && j.status != Queued
    ensures j.id in t.rows
    ensures Select(Replace(t, j), {Queued}, |t.order|) == Select(t, {Queued}, |t.order|)[1..]
  {
    var ks := Select(t, {Queued}, |t.order|);
    var p := ks[0];
    PositionAt(t, p);
    SelectFirstIsFirst(t, {Queued}, |t.order|);
    var u := Replace(t, j);
    ReplaceOthers(t, j, p);
    SelectDropFirst(t, u, {Queued}, |t.order|, p);
  }

  /** Replacing the row at position `p` changes no other position. */
  lemma ReplaceOthers(t: Table, j: Job, p: nat)
    requires t.Valid() && p < |t.order| && j.id == t.order[p]
    ensures j.id in t.rows && At(Replace(t, j), p) == j
    ensures forall k :: 0 <= k < |t.order| && k != p ==> At(Replace(t, j), k) == At(t, k)
  {
    forall k | 0 <= k < |t.order| && k != p ensures At(Replace(t, j), k) == At(t, k) {
      assert t.order[k] != t.order[p];
    }
  }

  /** The selection argument behind QueuedIdsTakeFirst, over positions alone. */
  lemma {:induction false} SelectDropFirst(t: Table, u: Table, keep: set<Status>, n: nat, p: nat)
    requires t.Valid()
    requires u.Valid()
    requires |u.order| == |t.order|
    requires p < n <= |t.order|
    requires forall k :: 0 <= k < |t.order| && k != p ==> (At(t, k).status in keep) == (At(u, k).status in keep)
    requires (At(t, p).status in keep) && (At(u, p).status !in keep)
    requires forall k :: 0 <= k < p ==> (At(t, k).status !in keep)
    ensures DropsFirst(Select(t, keep, n), Select(u, keep, n))
  {
    if n - 1 == p {
      SelectFirstAt(t, u, keep, n);
    } else {
      SelectDropFirst(t, u, keep, n - 1, p);
      SelectStepDropFirst(t, u, keep, n, p);
    }
  }

  /** Up to and including the first qualifying position, which stops qualifying:
      the selection is that position alone, and the other selection is empty. */
  lemma SelectFirstAt(t: Table, u: Table, keep: set<Status>, n: nat)
    requires t.Valid() && u.Valid() && |u.order| == |t.order| && 0 < n <= |t.order|
    requires forall k :: 0 <= k < n - 1 ==> (At(t, k).status in keep) == (At(u, k).status in keep)
    requires (At(t, n - 1).status in keep) && (At(u, n - 1).status !in keep)
    requires forall k :: 0 <= k < n - 1 ==> (At(t, k).status !in keep)
    ensures Select(t, keep, n) == [n - 1] && Select(u, keep, n) == []
  {
    SelectSame(t, u, keep, n - 1);
    SelectNone(t, keep, n - 1);
    var a := Select(t, keep, n - 1);
    assert a == [] && Select(u, keep, n - 1) == [];
    assert a + [n - 1] == [n - 1];
  }

  /** One more position that both tables treat alike keeps one selection the
      other's less its first element. */
  lemma SelectStepDropFirst(t: Table, u: Table, keep: set<Status>, n: nat, p: nat)
    requires t.Valid() && u.Valid() && |u.order| == |t.order| && 0 < n <= |t.order| && n - 1 != p
    requires forall k :: 0 <= k < |t.order| && k != p ==> (At(t, k).status in keep) == (At(u, k).status in keep)
    requires DropsFirst(Select(t, keep, n - 1), Select(u, keep, n - 1))
    ensures DropsFirst(Select(t, keep, n), Select(u, keep, n))
  {
    assert (At(t, n - 1).status in keep) == (At(u, n - 1).status in keep);
    if (At(t, n - 1).status in keep) {
      DropFirstSnoc(Select(t, keep, n - 1), Select(u, keep, n - 1), n - 1);
    }
  }

  /** `b` is `a` less its first element. */
  predicate DropsFirst(a: seq<nat>, b: seq<nat>) {
    a != [] && b == a[1..]
  }

  /** Appending after dropping the first element is dropping it after appending. */
  lemma DropFirstSnoc(a: seq<nat>, b: seq<nat>, x: nat)
    requires a != [] && b == a[1..]
    ensures a + [x] != [] && b + [x] == (a + [x])[1..]
  {
  }

  /** The table after `insertDownload` of a new row. */
  function Added(t: Table, j: Job): (u: Table)
    requires t.Valid() && j.id !in t.rows
    ensures u.Valid()
  {
    Table(t.rows[j.id := j], t.order + [j.id])
  }

  /** A new row is the newest: every earlier selection is kept, and the new row
      joins it when it qualifies. */
  lemma SelectAdded(t: Table, j: Job, keep: set<Status>)
    requires t.Valid() && j.id !in t.rows
    ensures Select(Added(t, j), keep, |t.order| + 1) ==
      Select(t, keep, |t.order|) + (if (j.status in keep) then [|t.order|] else [])
  {
    var u := Added(t, j);
    forall k | 0 <= k < |t.order| ensures At(u, k) == At(t, k) {
      assert u.order[k] == t.order[k] != j.id;
    }
    SelectSame(t, u, keep, |t.order|);
    assert u.order[|t.order|] == j.id;
  }

  /** The table after `deleteDownload`: the row and its id are gone, and the
      other ids keep their relative order. */
  function Removed(t: Table, id: string): (u: Table)
    requires t.Valid()
    ensures u.Valid()
    ensures u.rows == t.rows - {id}
  {
    if id in t.rows then
      var p := Position(t.order, id);
      RemoveAtFacts(t.order, p);
      Table(t.rows - {id}, t.order[..p] + t.order[p + 1..])
    else
      t
  }

  /** Cutting one entry out of a sequence without repeats leaves a sequence
      without repeats holding every other entry. */
  lemma RemoveAtFacts(s: seq<string>, p: nat)
    requires p < |s|
    requires forall a, b :: 0 <= a < b < |s| ==> s[a] != s[b]
    ensures var o := s[..p] + s[p + 1..];
      && (forall a, b :: 0 <= a < b < |o| ==> o[a] != o[b])
      && (forall x :: x in o <==> x in s && x != s[p])
  {
    var o := s[..p] + s[p + 1..];
    assert forall a :: 0 <= a < |o| ==> o[a] == s[if a < p then a else a + 1];
    forall x | x in s && x != s[p] ensures x in o {
      var k :| 0 <= k < |s| && s[k] == x;
      assert o[if k < p then k else k - 1] == x;
    }
  }

  // ---- The store ----

  /** The downloads table as a mutable object: `rows` by id and the ids in
      insertion order. */
  class JobStore {
    var rows: map<string, Job>
    var order: seq<string>

    function Snapshot(): Table
      reads this
    {
      Table(rows, order)
    }

    ghost predicate Valid()
      reads this
    {
      Snapshot().Valid()
    }

    /** An empty table. */
    constructor()
      ensures Valid() && rows == map[] && order == []
    {
      rows := map[];
      order := [];
    }

    /** `getDownload`. */
    function Get(id: string): (r: Option<Job>)
      reads this
      ensures r.Some? <==> id in rows
      ensures r.Some? ==> r.value == rows[id]
    {
      if id in rows then Some(rows[id]) else None
    }

    /** `insertDownload`: a new queued row, newest in the order. An id already
        present violates the primary key; the insert fails and nothing changes. */
    method Insert(id: string, url: string, title: Option<string>, channel: Option<string>,
                  duration: Option<int>, mode: string, thumbnailUrl: Option<string>) returns (ok: bool)
      requires Valid()
      modifies this
      ensures Valid()
      ensures ok <==> id !in old(rows)
      ensures ok ==> Snapshot() == Added(old(Snapshot()), NewJob(id, url, title, channel, duration, mode, thumbnailUrl))
      ensures !ok ==> Snapshot() == old(Snapshot())
    {
      if id in rows {
        return false;
      }
      var j := NewJob(id, url, title, channel, duration, mode, thumbnailUrl);
      rows := rows[id := j];
      order := order + [id];
      ok := true;
    }

    /** `updateDownload`: the named columns of that row, and nothing else. With no
        key other than 'id', or no such row, nothing changes. */
    method Update(id: string, fields: seq<Field>)
      requires Valid()
      modifies this
      ensures Valid() && order == old(order)
      ensures id in old(rows) && Named(fields) != {} ==>
        rows == old(rows)[id := Apply(old(rows)[id], fields)]
      ensures !(id in old(rows) && Named(fields) != {}) ==> rows == old(rows)
    {
      if Named(fields) == {} {
        return;
      }
      if id in rows {
        rows := rows[id := Apply(rows[id], fields)];
      }
    }

    /** `deleteDownload`: removes the row with that id and no other. */
    method Delete(id: string)
      requires Valid()
      modifies this
      ensures Valid()
      ensures Snapshot() == Removed(old(Snapshot()), id)
    {
      var u := Removed(Snapshot(), id);
      rows, order := u.rows, u.order;
    }
  }
}

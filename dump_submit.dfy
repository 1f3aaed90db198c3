/** The submit endpoint of the dump queue: it validates the request, then either
    previews what a URL holds (the default action) or queues one job per video. */
module DumpSubmit {
  import opened Wrappers
  import opened Strings
  import opened Db
  import opened Downloader

  /** A key of the JSON body: absent (so a destructuring default applies), a
      string, or any other value (null included, which takes no default). */
  datatype Arg = Absent | Text(s: string) | NonText

  datatype Request = Request(url: Arg, mode: Arg, action: Arg, noPlaylist: bool)

  /** The keys the route reads from one object of `yt-dlp --dump-json`. */
  datatype Raw = Raw(title: Option<string>, fulltitle: Option<string>, channel: Option<string>,
                     uploader: Option<string>, creator: Option<string>, duration: Option<int>,
                     thumbnail: Option<string>, webpageUrl: Option<string>, url: Option<string>,
                     originalUrl: Option<string>)

  /** `VideoInfo`. */
  datatype Info = Info(title: string, channel: string, duration: int, thumbnailUrl: string)

  /** What one run of `yt-dlp --dump-json` gave: one object per non-empty output
      line, or an exception (the command failed or timed out, or a line did not
      parse). */
  datatype Fetch = Listed(raws: seq<Raw>) | Threw

  datatype CheckReply = Playlist(count: nat, items: seq<Info>, totalDuration: int) | Single(info: Info)

  datatype Reply =
    | Checked(check: CheckReply)
    | Enqueued(count: nat, ids: seq<string>)
    | BadRequest(message: string)
    | ServerError(message: string)

  predicate Truthy(x: Option<string>) {
    x.Some? && x.value != ""
  }

  /** `a || b || ... || fallback` over optional strings: the first truthy one. */
  function FirstTruthy(xs: seq<Option<string>>, fallback: string): (r: string)
    ensures forall k :: 0 <= k < |xs| && Truthy(xs[k]) && (forall i :: 0 <= i < k ==> !Truthy(xs[i])) ==>
      r == xs[k].value
    ensures (forall k :: 0 <= k < |xs| ==> !Truthy(xs[k])) ==> r == fallback
  {
    if xs == [] then fallback
    else if Truthy(xs[0]) then xs[0].value
    else
      var r := FirstTruthy(xs[1..], fallback);
      assert forall k :: 1 <= k < |xs| ==> xs[k] == xs[1..][k - 1];
      r
  }

  /** `x || 0` for a number. */
  function NumberOrZero(x: Option<int>): (r: int)
    ensures r == 0 <==> x.None? || x.value == 0
  {
    if x.Some? then x.value else 0
  }

  /** The `VideoInfo` of one object, with the route's fallbacks. */
  function InfoOf(raw: Raw): Info {
    Info(FirstTruthy([raw.title, raw.fulltitle], "Unknown Title"),
         FirstTruthy([raw.channel, raw.uploader, raw.creator], ""),
         NumberOrZero(raw.duration),
         FirstTruthy([raw.thumbnail], ""))
  }

  /** An object with none of the metadata keys gets the defaults. */
  lemma InfoDefaults(raw: Raw)
    requires !Truthy(raw.title) && !Truthy(raw.fulltitle)
    requires !Truthy(raw.channel) && !Truthy(raw.uploader) && !Truthy(raw.creator)
    requires raw.duration.None? && !Truthy(raw.thumbnail)
    ensures InfoOf(raw) == Info("Unknown Title", "", 0, "")
  {
    var ts := [raw.title, raw.fulltitle];
    var cs := [raw.channel, raw.uploader, raw.creator];
    assert forall k :: 0 <= k < |ts| ==> !Truthy(ts[k]);
    assert forall k :: 0 <= k < |cs| ==> !Truthy(cs[k]);
    assert forall k :: 0 <= k < |[raw.thumbnail]| ==> !Truthy([raw.thumbnail][k]);
  }

  /** The page url `fetchPlaylistUrls` keeps for an entry. */
  function ItemUrl(raw: Raw): string {
    FirstTruthy([raw.webpageUrl, raw.url, raw.originalUrl], "")
  }

  function Infos(raws: seq<Raw>): (r: seq<Info>)
    ensures |r| == |raws| && forall k :: 0 <= k < |raws| ==> r[k] == InfoOf(raws[k])
  {
    seq(|raws|, k requires 0 <= k < |raws| => InfoOf(raws[k]))
  }

  /** `items.reduce((sum, i) => sum + i.duration, 0)`. */
  function TotalDuration(items: seq<Info>): int {
    if items == [] then 0 else TotalDuration(items[..|items| - 1]) + items[|items| - 1].duration
  }

  /** The stand-in the route answers when it knows nothing about the url. */
  const Unknown: Info := Info("Unknown", "", 0, "")

  /** The answer of the 'check' action to what `fetchInfo(url, false)` gave. */
  function CheckOf(f: Fetch): (c: CheckReply)
    ensures f.Threw? || |f.raws| == 0 ==> c == Single(Unknown)
    ensures f.Listed? && |f.raws| == 1 ==> c == Single(InfoOf(f.raws[0]))
    ensures f.Listed? && |f.raws| > 1 ==>
      && c.Playlist? && c.count == |f.raws| && c.totalDuration == TotalDuration(Infos(f.raws))
      && |c.items| == (if |f.raws| < 10 then |f.raws| else 10)
      && forall k :: 0 <= k < |c.items| ==> c.items[k] == InfoOf(f.raws[k])
  {
    match f
    case Threw => Single(Unknown)
    case Listed(raws) =>
      var items := Infos(raws);
      if |items| > 1 then
        Playlist(|items|, if |items| < 10 then items else items[..10], TotalDuration(items))
      else if |items| == 1 then Single(items[0])
      else Single(Unknown)
  }

  /** The mode of a valid request: 'full' when absent. */
  function ModeOf(req: Request): Option<string> {
    match req.mode
    case Absent => Some("full")
    case Text(s) => if s in ["full", "text", "wav"] then Some(s) else None
    case NonText => None
  }

  /** The action of a request: 'check' when absent. */
  function ActionOf(req: Request): Option<string> {
    match req.action
    case Absent => Some("check")
    case Text(s) => Some(s)
    case NonText => None
  }

  /** The validation in front of both actions: a url that is missing, empty or
      not a string, then a mode outside full/text/wav. */
  function Rejection(req: Request): (r: Option<Reply>)
    ensures r == Some(BadRequest("URL is required")) <==> !(req.url.Text? && req.url.s != "")
    ensures r.None? <==> req.url.Text? && req.url.s != "" && ModeOf(req).Some?
    ensures r.Some? ==> r.value.BadRequest?
  {
    if !(req.url.Text? && req.url.s != "") then Some(BadRequest("URL is required"))
    else if ModeOf(req).None? then Some(BadRequest("Invalid mode"))
    else None
  }

  /** The row `insertDownload` makes for an entry under a fresh id. */
  function EntryJob(id: string, url: string, info: Info, mode: string): Job {
    NewJob(id, url, Some(info.title), Some(info.channel), Some(info.duration), mode, Some(info.thumbnailUrl))
  }

  /** The ids of the first `n` jobs: the first 8 characters of a random UUID each. */
  function ShortIds(uuids: seq<string>, n: nat): (ids: seq<string>)
    requires n <= |uuids| && forall k :: 0 <= k < |uuids| ==> |uuids[k]| >= 8
    ensures |ids| == n && forall k :: 0 <= k < n ==> |ids[k]| == 8 && ids[k] == uuids[k][..8]
  {
    seq(n, k requires 0 <= k < n => uuids[k][..8])
  }

  /** The rows of a playlist, one per entry in listing order. */
  function PlaylistJobs(ids: seq<string>, raws: seq<Raw>, mode: string): (js: seq<Job>)
    requires |ids| == |raws|
    ensures |js| == |raws|
  {
    seq(|raws|, k requires 0 <= k < |raws| => EntryJob(ids[k], ItemUrl(raws[k]), InfoOf(raws[k]), mode))
  }

  /** `insertDownload` of each job in turn, stopping at the first whose id is
      taken (SQLite rejects it and the route's `catch` ends the request); the flag
      says whether every insert went through. */
  function InsertAll(t: Table, js: seq<Job>): (r: (Table, bool))
    requires t.Valid()
    ensures r.0.Valid()
  {
    if js == [] then (t, true)
    else
      var before := InsertAll(t, js[..|js| - 1]);
      var j := js[|js| - 1];
      if !before.1 || j.id in before.0.rows then (before.0, false)
      else (Added(before.0, j), true)
  }

  /** The ids of `js`, in order. */
  function IdsOf(js: seq<Job>): (ids: seq<string>)
    ensures |ids| == |js| && forall k :: 0 <= k < |js| ==> ids[k] == js[k].id
  {
    seq(|js|, k requires 0 <= k < |js| => js[k].id)
  }

  /** Every insert goes through exactly when the ids are new and pairwise
      distinct, and then they follow the existing rows in creation order. */
  lemma {:induction false} InsertAllSucceeds(t: Table, js: seq<Job>)
    requires t.Valid()
    ensures InsertAll(t, js).1 <==> Distinct(IdsOf(js)) && forall x :: x in IdsOf(js) ==> x !in t.rows
    ensures InsertAll(t, js).1 ==> InsertAll(t, js).0.order == t.order + IdsOf(js)
  {
    if js != [] {
      var init := js[..|js| - 1];
      var j := js[|js| - 1];
      InsertAllSucceeds(t, init);
      var before := InsertAll(t, init);
      assert IdsOf(js) == IdsOf(init) + [j.id];
      DistinctSnoc(IdsOf(init), j.id);
      if before.1 {
        assert j.id in before.0.rows <==> j.id in t.order + IdsOf(init);
      }
    }
  }

  /** After a successful run every job sits under its id. */
  lemma {:induction false} InsertAllRows(t: Table, js: seq<Job>)
    requires t.Valid() && InsertAll(t, js).1
    ensures forall k :: 0 <= k < |js| ==> js[k].id in InsertAll(t, js).0.rows && InsertAll(t, js).0.rows[js[k].id] == js[k]
  {
    if js != [] {
      var init := js[..|js| - 1];
      var j := js[|js| - 1];
      InsertAllRows(t, init);
      var before := InsertAll(t, init);
      forall k | 0 <= k < |js| ensures js[k].id in InsertAll(t, js).0.rows && InsertAll(t, js).0.rows[js[k].id] == js[k] {
        if k < |init| {
          assert js[k] == init[k];
          assert init[k].id in before.0.rows;
        }
      }
    }
  }

  /** One more job: the run over the first `k + 1` jobs extends the run over the first `k`. */
  lemma InsertAllStep(t: Table, js: seq<Job>, k: nat)
    requires t.Valid() && k < |js|
    ensures var before := InsertAll(t, js[..k]);
      InsertAll(t, js[..k + 1]) ==
        if !before.1 || js[k].id in before.0.rows then (before.0, false) else (Added(before.0, js[k]), true)
  {
    assert js[..k + 1][..k] == js[..k];
  }

  /** Once an insert is refused the rest are not tried. */
  lemma {:induction false} InsertAllStops(t: Table, js: seq<Job>, n: nat)
    requires t.Valid() && n <= |js| && !InsertAll(t, js[..n]).1
    ensures InsertAll(t, js) == InsertAll(t, js[..n])
    decreases |js| - n
  {
    if n < |js| {
      assert js[..n + 1][..n] == js[..n];
      InsertAllStops(t, js, n + 1);
    } else {
      assert js[..n] == js;
    }
  }

  /** The playlist branch's insert loop: one row per entry, in listing order,
      each under the first 8 characters of its own UUID. */
  method InsertEntries(store: JobStore, uuids: seq<string>, entries: seq<Raw>, mode: string) returns (ok: bool)
    requires store.Valid() && |entries| <= |uuids| && forall k :: 0 <= k < |uuids| ==> |uuids[k]| >= 8
    modifies store
    ensures (store.Snapshot(), ok) == InsertAll(old(store.Snapshot()), PlaylistJobs(ShortIds(uuids, |entries|), entries, mode))
  {
    ghost var t0 := store.Snapshot();
    ghost var js := PlaylistJobs(ShortIds(uuids, |entries|), entries, mode);
    var k := 0;
    while k < |entries|
      invariant 0 <= k <= |entries| && store.Valid()
      invariant InsertAll(t0, js[..k]) == (store.Snapshot(), true)
    {
      var id := uuids[k][..8];
      var entry := entries[k];
      var info := InfoOf(entry);
      assert js[k] == EntryJob(id, ItemUrl(entry), info, mode);
      InsertAllStep(t0, js, k);
      ok := store.Insert(id, ItemUrl(entry), Some(info.title), Some(info.channel), Some(info.duration), mode,
                         Some(info.thumbnailUrl));
      if !ok {
        InsertAllStops(t0, js, k + 1);
        return;
      }
      k := k + 1;
    }
    assert js[..|entries|] == js;
    ok := true;
  }

  /** `POST /api/dump/submit`. `fetched` is what `fetchInfo` returns for this
      request (with `--yes-playlist` for a check, and per `noPlaylist` for a
      submit), `listed` what `fetchPlaylistUrls` returns, and `uuids` the values
      `randomUUID` produces, in order. A check changes nothing; a submit inserts
      one job, or one per playlist entry in order, and then runs the queue once. */
  method Post(r: Runner, req: Request, fetched: Fetch, listed: Fetch, uuids: seq<string>, now: nat)
    returns (reply: Reply, started: seq<string>)
    requires r.Valid()
    requires |uuids| >= 1 && (listed.Listed? ==> |uuids| >= |listed.raws|)
    requires forall k :: 0 <= k < |uuids| ==> |uuids[k]| >= 8
    modifies r, r.store
    ensures r.Valid() && r.pending == old(r.pending) && r.signals == old(r.signals)
    ensures Rejection(req).Some? ==> reply == Rejection(req).value
    ensures Rejection(req).None? && ActionOf(req) == Some("check") ==> reply == Checked(CheckOf(fetched))
    ensures Rejection(req).None? && ActionOf(req) !in {Some("check"), Some("submit")} ==>
      reply == BadRequest("Invalid action")
    ensures !(Rejection(req).None? && ActionOf(req) == Some("submit")) ==>
      r.store.Snapshot() == old(r.store.Snapshot()) && started == [] && r.active == old(r.active)
    ensures Rejection(req).None? && ActionOf(req) == Some("submit") && fetched.Threw? ==>
      reply == ServerError("Failed to queue download") && r.store.Snapshot() == old(r.store.Snapshot()) && started == []
    ensures Rejection(req).None? && ActionOf(req) == Some("submit") && fetched.Listed? &&
            (req.noPlaylist || |fetched.raws| <= 1) ==>
      var info := if |fetched.raws| > 0 then InfoOf(fetched.raws[0]) else Unknown;
      var j := EntryJob(uuids[0][..8], req.url.s, info, ModeOf(req).value);
      if j.id in old(r.store.rows) then
        reply == ServerError("Failed to queue download") && r.store.Snapshot() == old(r.store.Snapshot()) && started == []
      else
        && reply == Enqueued(1, [j.id])
        && r.store.order == old(r.store.order) + [j.id]
        && r.store.rows == LaunchAll(old(r.store.rows)[j.id := j], started, now, old(r.nextHandle))
        && QueueRan(Table(old(r.store.rows)[j.id := j], old(r.store.order) + [j.id]), started, r.store.Snapshot())
    ensures Rejection(req).None? && ActionOf(req) == Some("submit") && fetched.Listed? &&
            !req.noPlaylist && |fetched.raws| > 1 ==>
      if listed.Threw? then
        reply == ServerError("Failed to queue download") && r.store.Snapshot() == old(r.store.Snapshot()) && started == []
      else
        var js := PlaylistJobs(ShortIds(uuids, |listed.raws|), listed.raws, ModeOf(req).value);
        var ins := InsertAll(old(r.store.Snapshot()), js);
        if ins.1 then
          && reply == Enqueued(|js|, IdsOf(js))
          && r.store.order == ins.0.order
          && r.store.rows == LaunchAll(ins.0.rows, started, now, old(r.nextHandle))
          && QueueRan(ins.0, started, r.store.Snapshot())
        else
          reply == ServerError("Failed to queue download") && r.store.Snapshot() == ins.0 && started == []
  {
    started := [];
    var rejected := Rejection(req);
    if rejected.Some? {
      return rejected.value, [];
    }
    var url := req.url.s;
    var mode := ModeOf(req).value;
    var action := ActionOf(req);
    if action == Some("check") {
      return Checked(CheckOf(fetched)), [];
    }
    if action != Some("submit") {
      return BadRequest("Invalid action"), [];
    }
    if fetched.Threw? {
      return ServerError("Failed to queue download"), [];
    }
    var items := fetched.raws;
    if req.noPlaylist || |items| <= 1 {
      var info := if |items| > 0 then InfoOf(items[0]) else Unknown;
      var id := uuids[0][..8];
      var ok := r.store.Insert(id, url, Some(info.title), Some(info.channel), Some(info.duration), mode, Some(info.thumbnailUrl));
      if !ok {
        return ServerError("Failed to queue download"), [];
      }
      started := r.ProcessQueue(now);
      reply := Enqueued(1, [id]);
      return;
    }
    if listed.Threw? {
      return ServerError("Failed to queue download"), [];
    }
    var entries := listed.raws;
    var ok := InsertEntries(r.store, uuids, entries, mode);
    if !ok {
      return ServerError("Failed to queue download"), [];
    }
    var ids := ShortIds(uuids, |entries|);
    assert ids == IdsOf(PlaylistJobs(ids, entries, mode));
    started := r.ProcessQueue(now);
    reply := Enqueued(|ids|, ids);
  }
}

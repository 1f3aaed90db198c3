/** The cancel endpoint of the dump queue: a job that has not started is marked
    cancelled in place, a running one goes through the downloader's
    cancellation, and a finished one is refused. */
module DumpCancel {
  import opened Wrappers
  import opened Db
  import opened Downloader

  datatype Reply = Success | BadRequest(message: string) | NotFound(message: string)

  /** The branch a request takes, read off the row as it was when the request came. */
  datatype Branch = NoId | Unknown | CancelQueued | CancelActive | NotActive

  /** `POST`'s decision. `id` is the body's `id` when it is a string; "" is falsy
      and counts as missing. */
  function Route(rows: map<string, Job>, id: Option<string>): (b: Branch)
    ensures b == NoId <==> id.None? || id.value == ""
    ensures b == Unknown <==> id.Some? && id.value != "" && id.value !in rows
    ensures b == CancelQueued <==> id.Some? && id.value != "" && id.value in rows && rows[id.value].status == Queued
    ensures b == CancelActive <==>
      id.Some? && id.value != "" && id.value in rows && rows[id.value].status in {Downloading, Processing}
    ensures b == NotActive <==>
      id.Some? && id.value != "" && id.value in rows && rows[id.value].status in TerminalStatuses
  {
    if id.None? || id.value == "" then NoId
    else if id.value !in rows then Unknown
    else
      match rows[id.value].status
      case Queued => CancelQueued
      case Downloading => CancelActive
      case Processing => CancelActive
      case _ => NotActive
  }

  function ReplyOf(b: Branch): (r: Reply)
    ensures r.Success? <==> b in {CancelQueued, CancelActive}
  {
    match b
    case NoId => BadRequest("ID is required")
    case Unknown => NotFound("Download not found")
    case NotActive => BadRequest("Download is not active")
    case CancelQueued => Success
    case CancelActive => Success
  }

  /** `POST /api/dump/cancel`. A queued job becomes 'cancelled' with the time,
      without the process registry or the queue; a downloading or processing job
      goes through `cancelDownload`; every other request changes nothing. */
  method Cancel(r: Runner, id: Option<string>, now: nat) returns (reply: Reply, started: seq<string>)
    requires r.Valid()
    modifies r, r.store
    ensures r.Valid() && r.store.order == old(r.store.order) && r.pending == old(r.pending)
    ensures reply == ReplyOf(Route(old(r.store.rows), id))
    ensures Route(old(r.store.rows), id) == CancelQueued ==>
      && r.store.rows == CancelRows(old(r.store.rows), id.value, now) && started == []
      && r.active == old(r.active) && r.signals == old(r.signals)
    ensures Route(old(r.store.rows), id) == CancelActive ==>
      && r.store.rows == LaunchAll(CancelRows(old(r.store.rows), id.value, now), started, now, old(r.nextHandle))
      && QueueRan(Table(CancelRows(old(r.store.rows), id.value, now), old(r.store.order)), started, r.store.Snapshot())
      && r.active == Registrations(old(r.active) - {id.value}, started, old(r.nextHandle))
      && r.signals == old(r.signals) + (if id.value in old(r.active) then [old(r.active[id.value])] else [])
    ensures Route(old(r.store.rows), id) !in {CancelQueued, CancelActive} ==>
      && r.store.rows == old(r.store.rows) && started == []
      && r.active == old(r.active) && r.signals == old(r.signals)
  {
    started := [];
    var b := Route(r.store.rows, id);
    reply := ReplyOf(b);
    if b == CancelQueued {
      CancelSteps(r.store.rows[id.value], now);
      r.store.Update(id.value, CancelFields(now));
    } else if b == CancelActive {
      var ok;
      ok, started := r.CancelDownload(id.value, now);
    }
  }
}

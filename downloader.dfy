/** The job runner of lib/downloader.ts: the scheduler that admits queued jobs up
    to the concurrency cap, the handlers of each yt-dlp process (output lines,
    exit, spawn error), cancellation, and the post-processing that finishes a
    job. Spawning, signals, ffmpeg and the file system are events and oracle
    values: a process is a handle number, a SIGTERM an entry in a log, and the
    outcome of `findOutputDir` and the finished folder are parameters. */
module Downloader {
  import opened Wrappers
  import opened Strings
  import opened Db
  import opened Ytdlp
  import FsTree

  datatype Stream = Stdout | Stderr

  /** What the closures of one spawned yt-dlp process hold: the row it serves,
      with the url and mode read when it started, the last output folder it
      announced, and the unfinished line of each stream. */
  datatype Run = Run(id: string, url: string, mode: string, lastOutputDir: string, outCarry: string, errCarry: string)
  {
    function Carry(st: Stream): string {
      if st == Stdout then outCarry else errCarry
    }

    function WithCarry(st: Stream, c: string): (r: Run)
      ensures r.Carry(st) == c && r.id == id && r.url == url && r.mode == mode
      ensures r.lastOutputDir == lastOutputDir
      ensures st == Stdout ==> r.errCarry == errCarry
      ensures st == Stderr ==> r.outCarry == outCarry
    {
      if st == Stdout then this.(outCarry := c) else this.(errCarry := c)
    }
  }

  // ---- The rows the runner writes ----

  /** One `updateDownload` call as the store performs it. */
  function Step(j: Job, fs: seq<Field>): Job {
    if Named(fs) == {} then j else Apply(j, fs)
  }

  /** A sequence of `updateDownload` calls on one row, in order. */
  function ApplyEach(j: Job, us: seq<seq<Field>>): (r: Job)
    ensures r.id == j.id
  {
    if us == [] then j else Step(ApplyEach(j, us[..|us| - 1]), us[|us| - 1])
  }

  /** One more update applies after the earlier ones. */
  lemma ApplyEachSnoc(j: Job, us: seq<seq<Field>>, u: seq<Field>)
    ensures ApplyEach(j, us + [u]) == Step(ApplyEach(j, us), u)
  {
    assert (us + [u])[..|us|] == us;
  }

  lemma {:induction false} ApplyEachAppend(j: Job, a: seq<seq<Field>>, b: seq<seq<Field>>)
    ensures ApplyEach(j, a + b) == ApplyEach(ApplyEach(j, a), b)
    decreases |b|
  {
    if b == [] {
      assert a + b == a;
    } else {
      assert (a + b)[..|a + b| - 1] == a + b[..|b| - 1];
      ApplyEachAppend(j, a, b[..|b| - 1]);
    }
  }

  /** Updates that never name column `c` leave it as it was. */
  lemma {:induction false} ApplyEachKeeps(j: Job, us: seq<seq<Field>>, c: Column)
    requires forall a, b :: 0 <= a < |us| && 0 <= b < |us[a]| ==> us[a][b].Col() != c
    ensures Agree(j, ApplyEach(j, us), c)
  {
    if us != [] {
      var init := us[..|us| - 1];
      ApplyEachKeeps(j, init, c);
      var before := ApplyEach(j, init);
      var fs := us[|us| - 1];
      if Named(fs) != {} {
        assert forall k :: 0 <= k < |fs| ==> fs[k].Col() != c;
        assert c !in Named(fs);
        AgreeTrans(j, before, Apply(before, fs), c);
      }
    }
  }

  /** An update whose first key is not the id names at least one column. */
  lemma NamedFirst(f: Field, fs: seq<Field>)
    requires f.Col() != IdCol
    ensures Named([f] + fs) != {}
  {
    assert ([f] + fs)[0] == f;
    assert f.Col() in Named([f] + fs);
  }

  lemma Apply1(j: Job, f: Field)
    ensures Apply(j, [f]) == Assign(j, f)
  {
    assert [f][1..] == [];
  }

  lemma Apply2(j: Job, f: Field, g: Field)
    ensures Apply(j, [f, g]) == Assign(Assign(j, f), g)
  {
    assert [f, g][1..] == [g];
    assert [g][1..] == [];
    assert Apply(j, [f, g]) == Apply(Assign(j, f), [g]);
    assert Apply(Assign(j, f), [g]) == Apply(Assign(Assign(j, f), g), []);
  }

  lemma Apply3(j: Job, f: Field, g: Field, h: Field)
    ensures Apply(j, [f, g, h]) == Assign(Assign(Assign(j, f), g), h)
  {
    assert [f, g, h][1..] == [g, h];
    assert Apply(j, [f, g, h]) == Apply(Assign(j, f), [g, h]);
    Apply2(Assign(j, f), g, h);
  }

  lemma Apply4(j: Job, f: Field, g: Field, h: Field, k: Field)
    ensures Apply(j, [f, g, h, k]) == Assign(Assign(Assign(Assign(j, f), g), h), k)
  {
    assert [f, g, h, k][1..] == [g, h, k];
    assert Apply(j, [f, g, h, k]) == Apply(Assign(j, f), [g, h, k]);
    Apply3(Assign(j, f), g, h, k);
  }

  /** The row once `startDownload` has spawned its process with handle `h`. */
  function Launched(j: Job, now: nat, h: nat): Job {
    j.(status := Downloading, startedAt := Some(now), progress := Finite(0.0), pid := Some(h))
  }

  /** The two updates of `startDownload` leave the row launched, on any table. */
  lemma LaunchedRows(r: map<string, Job>, id: string, now: nat, h: nat)
    requires id in r
    ensures var r1 := r[id := Apply(r[id], LaunchFields(now))];
      r1[id := Apply(r1[id], [SetPid(Some(h))])] == r[id := Launched(r[id], now, h)]
  {
    LaunchedSteps(r[id], now, h);
  }

  /** The fields `startDownload` sets before spawning. */
  function LaunchFields(now: nat): seq<Field> {
    [SetStatus(Downloading), SetStartedAt(Some(now)), SetProgress(Finite(0.0))]
  }

  /** `startDownload`'s two updates of the row. */
  function LaunchSteps(j: Job, now: nat, h: nat): Job {
    Apply(Apply(j, LaunchFields(now)), [SetPid(Some(h))])
  }

  /** The two updates make the row 'downloading', started now, at 0 %, with the
      process handle as its pid, and touch nothing else. */
  lemma LaunchedSteps(j: Job, now: nat, h: nat)
    ensures LaunchSteps(j, now, h) == Launched(j, now, h)
  {
    Apply3(j, SetStatus(Downloading), SetStartedAt(Some(now)), SetProgress(Finite(0.0)));
    Apply1(Apply(j, LaunchFields(now)), SetPid(Some(h)));
  }

  /** The row after a non-zero exit or a spawn error. */
  function Failed(j: Job, message: string, now: nat): Job {
    j.(status := Error, error := Some(message), completedAt := Some(now))
  }

  /** The row after a cancellation. */
  function CancelledRow(j: Job, now: nat): Job {
    j.(status := Cancelled, completedAt := Some(now))
  }

  /** The row while post-processing runs. */
  function ProcessingRow(j: Job): Job {
    j.(status := Processing, progress := Finite(100.0))
  }

  /** The row at the end of post-processing, with the folder's size when there is a
      folder. */
  function CompletedRow(j: Job, now: nat, folder: Option<(string, nat)>): Job {
    match folder
    case Some((dir, size)) => j.(status := Completed, completedAt := Some(now), fileSize := Some(size), outputDir := Some(dir))
    case None => j.(status := Completed, completedAt := Some(now))
  }

  /** The text of a process exit code in a template literal; a process killed by a
      signal has code null. */
  function CodeText(code: Option<int>): string {
    match code
    case Some(c) => IntToString(c)
    case None => "null"
  }

  /** The updates of a run of output lines, given what was read off each, and the
      run's remembered folder after them. */
  function LinesEffect(ps: seq<LineParts>, last: string): LineEffect {
    if ps == [] then LineEffect([], last)
    else
      var before := LinesEffect(ps[..|ps| - 1], last);
      var step := ps[|ps| - 1].Effect(before.lastOutputDir);
      LineEffect(before.updates + step.updates, step.lastOutputDir)
  }

  /** A run of output lines writes only the output folder and the progress
      columns, never names the download root as the output folder, and leaves the
      remembered folder as it was or at the last folder written. */
  lemma {:induction false} LinesTame(ps: seq<LineParts>, last: string)
    ensures Tame(LinesEffect(ps, last), last)
  {
    if ps != [] {
      var init := ps[..|ps| - 1];
      var p := ps[|ps| - 1];
      LinesTame(init, last);
      var before := LinesEffect(init, last);
      EffectOfTame(p.dest, p.merge, p.prog, before.lastOutputDir);
      TameAppend(before, p.Effect(before.lastOutputDir), last);
    }
  }

  lemma TameAppend(e: LineEffect, f: LineEffect, last: string)
    requires Tame(e, last) && Tame(f, e.lastOutputDir)
    ensures Tame(LineEffect(e.updates + f.updates, f.lastOutputDir), last)
  {
    TameUpdatesConcat(e.updates, f.updates);
  }

  /** Output lines never change a row's status. */
  lemma TameKeepsStatus(j: Job, e: LineEffect, last: string)
    requires Tame(e, last)
    ensures ApplyEach(j, e.updates).status == j.status
  {
    ApplyEachKeeps(j, e.updates, StatusCol);
  }

  // ---- Admission ----

  /** Starting the oldest queued job takes it off the front of the queued ids. */
  lemma StartTakesHead(t: Table, now: nat, h: nat)
    requires t.Valid() && NextQueued(t).Some?
    ensures var j := NextQueued(t).value;
      QueuedIds(t) == [j.id] + QueuedIds(Replace(t, Launched(j, now, h)))
  {
    var j := NextQueued(t).value;
    var l := Launched(j, now, h);
    NextQueuedFirst(t);
    QueuedIdsTakeFirst(t, l);
  }

  /** Starting a queued job adds one 'downloading' row. */
  lemma StartAddsActive(t: Table, now: nat, h: nat)
    requires t.Valid() && NextQueued(t).Some?
    ensures var j := NextQueued(t).value;
      ActiveCount(Replace(t, Launched(j, now, h))) == ActiveCount(t) + 1
  {
    ActiveCountReplace(t, Launched(NextQueued(t).value, now, h));
  }

  /** The free slots under the concurrency cap. */
  function FreeSlots(active: nat): (r: nat)
    ensures active + r <= MaxConcurrent || r == 0
  {
    if active >= MaxConcurrent then 0 else MaxConcurrent - active
  }

  /** `s` was taken from the front of queue `q`, leaving queue `qr`, stopping at
      `slots` starts or at an empty queue. */
  predicate TakenFront(q: seq<string>, s: seq<string>, qr: seq<string>, slots: nat) {
    && |s| <= slots && s + qr == q
    && (|s| == slots || qr == [])
  }

  /** `processQueue` run on table `t` started exactly `started`: the oldest
      queued jobs, one per slot left free under MaxConcurrent, until the slots or
      the queued jobs run out; `t2` is the table it leaves, whose queue is the rest
      and whose 'downloading' count grew by one per start. */
  ghost predicate QueueRan(t: Table, started: seq<string>, t2: Table) {
    && t.Valid() && t2.Valid()
    && TakenFront(QueuedIds(t), started, QueuedIds(t2), FreeSlots(ActiveCount(t)))
    && ActiveCount(t2) == ActiveCount(t) + |started|
  }

  /** The rows after `startDownload` of the jobs `s` in order, the a-th getting
      handle `h + a`; an id with no row starts nothing. */
  function LaunchAll(r: map<string, Job>, s: seq<string>, now: nat, h: nat): (m: map<string, Job>)
    ensures m.Keys == r.Keys
  {
    if s == [] then r
    else
      var m := LaunchAll(r, s[..|s| - 1], now, h);
      var id := s[|s| - 1];
      if id in m then m[id := Launched(m[id], now, h + |s| - 1)] else m
  }

  /** `activeProcesses` after `startDownload` of the stored jobs `s` in order, the
      a-th registered under handle `h + a`. */
  function Registrations(active: map<string, nat>, s: seq<string>, h: nat): map<string, nat> {
    if s == [] then active
    else Registrations(active, s[..|s| - 1], h)[s[|s| - 1] := h + |s| - 1]
  }

  /** One more start registers its job under the next handle. */
  lemma RegistrationsSnoc(active: map<string, nat>, s: seq<string>, x: string, h: nat)
    ensures Registrations(active, s + [x], h) == Registrations(active, s, h)[x := h + |s|]
  {
    assert (s + [x])[..|s|] == s;
  }

  /** Launching distinct jobs launches each stored one from its original row, with
      its own handle, and leaves every other row as it was. */
  lemma {:induction false} LaunchAllRows(r: map<string, Job>, s: seq<string>, now: nat, h: nat)
    requires forall a, b :: 0 <= a < b < |s| ==> s[a] != s[b]
    ensures forall id :: id in r && id !in s ==> LaunchAll(r, s, now, h)[id] == r[id]
    ensures forall a :: 0 <= a < |s| && s[a] in r ==> LaunchAll(r, s, now, h)[s[a]] == Launched(r[s[a]], now, h + a)
  {
    if s != [] {
      var init := s[..|s| - 1];
      var id := s[|s| - 1];
      LaunchAllRows(r, init, now, h);
      var m := LaunchAll(r, init, now, h);
      assert LaunchAll(r, s, now, h) == if id in m then m[id := Launched(m[id], now, h + |s| - 1)] else m;
      forall a | 0 <= a < |s| && s[a] in r ensures LaunchAll(r, s, now, h)[s[a]] == Launched(r[s[a]], now, h + a) {
        if a < |s| - 1 {
          assert s[a] == init[a] && s[a] != id;
        } else {
          assert id !in init by {
            forall b | 0 <= b < |init| ensures init[b] != id {
              assert init[b] == s[b];
            }
          }
          assert m[id] == r[id];
        }
      }
      forall x | x in r && x !in s ensures LaunchAll(r, s, now, h)[x] == r[x] {
        assert x !in init && x != id;
      }
    }
  }

  /** One more launch on top of earlier ones, of a job launched by none of them. */
  lemma LaunchAllStep(r: map<string, Job>, s: seq<string>, id: string, now: nat, h0: nat, h: nat)
    requires id in r && id !in s && h == h0 + |s|
    ensures var m := LaunchAll(r, s, now, h0);
      LaunchAll(r, s + [id], now, h0) == m[id := Launched(m[id], now, h)] && m[id] == r[id]
  {
    assert (s + [id])[..|s|] == s;
    LaunchAllKeeps(r, s, id, now, h0);
  }

  /** A job none of the launches names keeps its row. */
  lemma {:induction false} LaunchAllKeeps(r: map<string, Job>, s: seq<string>, id: string, now: nat, h: nat)
    requires id in r && id !in s
    ensures LaunchAll(r, s, now, h)[id] == r[id]
  {
    if s != [] {
      assert id !in s[..|s| - 1];
      LaunchAllKeeps(r, s[..|s| - 1], id, now, h);
    }
  }

  /** Moving the head of the remainder onto the taken part. */
  lemma PushHead(s: seq<string>, x: string, qr: seq<string>, q: seq<string>)
    requires s + ([x] + qr) == q
    ensures (s + [x]) + qr == q
  {
    assert s + ([x] + qr) == (s + [x]) + qr;
  }

  /** The head of what is left of a queue of distinct ids was not taken before. */
  lemma HeadNotTaken(q: seq<string>, s: seq<string>, qr: seq<string>)
    requires s + qr == q && qr != []
    requires forall a, b :: 0 <= a < b < |q| ==> q[a] != q[b]
    ensures qr[0] !in s && qr[0] == q[|s|]
  {
    forall a | 0 <= a < |s| ensures s[a] != qr[0] {
      assert s[a] == q[a] && qr[0] == q[|s|];
    }
  }

  /** One start takes the head of what is left of the queue. */
  lemma StartStepQueue(t: Table, j: Job, q0: seq<string>, s: seq<string>, now: nat, h: nat)
    requires t.Valid() && NextQueued(t) == Some(j) && Splits(s, QueuedIds(t), q0)
    ensures Splits(s + [j.id], QueuedIds(Replace(t, Launched(j, now, h))), q0)
  {
    StartTakesHead(t, now, h);
    PushHead(s, j.id, QueuedIds(Replace(t, Launched(j, now, h))), q0);
  }

  /** One start launches exactly the row it takes, with the next handle. */
  lemma StartStepRows(t: Table, j: Job, q0: seq<string>, rows0: map<string, Job>, s: seq<string>,
                      now: nat, h0: nat, h: nat)
    requires t.Valid() && NextQueued(t) == Some(j) && h == h0 + |s|
    requires Splits(s, QueuedIds(t), q0) && t.rows == LaunchAll(rows0, s, now, h0)
    requires rows0.Keys == t.rows.Keys
    requires forall a, b :: 0 <= a < b < |q0| ==> q0[a] != q0[b]
    ensures Replace(t, Launched(j, now, h)).rows == LaunchAll(rows0, s + [j.id], now, h0)
  {
    NextQueuedFirst(t);
    HeadNotTaken(q0, s, QueuedIds(t));
    LaunchAllStep(rows0, s, j.id, now, h0, h);
  }

  /** Queue `q` is `s` followed by `r`. */
  predicate Splits(s: seq<string>, r: seq<string>, q: seq<string>) {
    s + r == q
  }

  /** Jobs `s` have been started, in order, from queue `q0` over rows `rows0`,
      with handles from `h0` on, and `t` is the result: the started jobs are the
      front of `q0`, the rest of `q0` is still queued, and each started row is
      its original row launched. */
  ghost predicate Admitted(t: Table, q0: seq<string>, rows0: map<string, Job>, s: seq<string>, now: nat, h0: nat)
  {
    && t.Valid()
    && Splits(s, QueuedIds(t), q0)
    && t.rows == LaunchAll(rows0, s, now, h0)
  }

  /** One start, with the next handle `h`, keeps `Admitted` one job further. */
  lemma StartProgress(t: Table, j: Job, q0: seq<string>, rows0: map<string, Job>, s: seq<string>,
                      now: nat, h0: nat, h: nat)
    requires t.Valid() && NextQueued(t) == Some(j) && Admitted(t, q0, rows0, s, now, h0) && h == h0 + |s|
    requires rows0.Keys == t.rows.Keys
    requires forall a, b :: 0 <= a < b < |q0| ==> q0[a] != q0[b]
    ensures var u := Replace(t, Launched(j, now, h));
      Admitted(u, q0, rows0, s + [j.id], now, h0) && u.rows.Keys == rows0.Keys
  {
    StartStepQueue(t, j, q0, s, now, h);
    StartStepRows(t, j, q0, rows0, s, now, h0, h);
  }

  // ---- What the process events do to the rows ----

  /** The job a process serves is still wanted: its row exists and is not
      cancelled. The line, close and post-processing handlers check this first. */
  predicate Live(rows: map<string, Job>, id: string) {
    id in rows && rows[id].status != Cancelled
  }

  /** `n` SIGTERMs to process `h`, one per line that found its job gone. */
  function Kills(h: nat, n: nat): (r: seq<nat>)
    ensures |r| == n
    ensures forall k :: 0 <= k < n ==> r[k] == h
  {
    if n == 0 then [] else Kills(h, n - 1) + [h]
  }

  /** One more line asks for the updates of the earlier ones and then its own,
      and leaves the folder it leaves. */
  lemma LinesSnoc(done: seq<LineParts>, p: LineParts, last: string)
    ensures var e := LinesEffect(done, last);
      var f := p.Effect(e.lastOutputDir);
      LinesEffect(done + [p], last) == LineEffect(e.updates + f.updates, f.lastOutputDir)
  {
    assert (done + [p])[..|done|] == done;
  }

  /** The error text of a non-zero exit, or of an exit by signal (code null). */
  function ExitMessage(code: Option<int>): string {
    "yt-dlp exited with code " + CodeText(code)
  }

  /** The folder the close handler settles on after exit 0: the one the output
      lines announced, else what `findOutputDir` found, else none (""). */
  function ExitFolder(last: string, found: Option<string>): string {
    if last != "" then last else if found.Some? then found.value else ""
  }

  /** `row.output_dir || findOutputDir(url)`: the stored folder when it is
      non-empty, else a non-empty folder found, else none. */
  function PostFolder(stored: Option<string>, found: Option<string>): Option<string> {
    if stored.Some? && stored.value != "" then stored
    else if found.Some? && found.value != "" then found
    else None
  }

  /** What an event leaves behind: the rows, the jobs whose post-processing waits
      on its mode step (with the folder it works in), and whether `processQueue`
      runs next. */
  datatype Outcome = Outcome(rows: map<string, Job>, pending: map<string, string>, requeue: bool)

  /** `postProcess` up to its mode step. A missing or cancelled row is left
      alone. Otherwise the row turns 'processing' at 100 %; with no folder to work
      in it is 'completed' at once, and with one it waits for its mode step. The
      queue runs next unless the row waits. */
  function PostStart(rows: map<string, Job>, pending: map<string, string>, id: string,
                     found: Option<string>, now: nat): Outcome
  {
    if !Live(rows, id) then Outcome(rows, pending, true)
    else
      var j := ProcessingRow(rows[id]);
      match PostFolder(rows[id].outputDir, found)
      case None => Outcome(rows[id := CompletedRow(j, now, None)], pending, true)
      case Some(dir) => Outcome(rows[id := j], pending[id := dir], false)
  }

  /** The close handler of a process serving job `id` that remembered folder
      `last`, once its registry entry is gone; `found` and `again` are what the
      two `findOutputDir` calls return. */
  function Closed(rows: map<string, Job>, pending: map<string, string>, id: string, code: Option<int>,
                  last: string, found: Option<string>, again: Option<string>, now: nat): Outcome
  {
    if !Live(rows, id) then Outcome(rows, pending, false)
    else if code == Some(0) then
      var dir := ExitFolder(last, found);
      var r := if dir != "" then rows[id := rows[id].(outputDir := Some(dir))] else rows;
      PostStart(r, pending, id, again, now)
    else
      Outcome(rows[id := Failed(rows[id], ExitMessage(code), now)], pending, true)
  }

  /** A second write to the same key hides the first. */
  lemma Overwritten(rows: map<string, Job>, id: string, a: Job, b: Job)
    ensures rows[id := a][id := b] == rows[id := b]
  {
  }

  /** The rows outside job `id` are those of `rows`. */
  predicate OthersKept(rows: map<string, Job>, after: map<string, Job>, id: string) {
    && after.Keys == rows.Keys
    && forall x :: x in rows && x != id ==> after[x] == rows[x]
  }

  /** The close handler: a missing or cancelled job is left untouched and the
      queue does not run. Exit 0 leads into post-processing: the row ends
      'processing' at 100 % waiting for its mode step in a non-empty folder (the
      one the output lines announced, when they announced one), or 'completed'
      at once with the queue run next. Any other exit marks the row 'error' with
      the exit code in its message and its completion time, and runs the queue.
      No other row changes. */
  lemma ClosedCases(rows: map<string, Job>, pending: map<string, string>, id: string, code: Option<int>,
                    last: string, found: Option<string>, again: Option<string>, now: nat)
    ensures var o := Closed(rows, pending, id, code, last, found, again, now);
      && OthersKept(rows, o.rows, id)
      && (!Live(rows, id) ==> o == Outcome(rows, pending, false))
      && (Live(rows, id) && code != Some(0) ==>
            && o.requeue && o.pending == pending
            && o.rows[id] == rows[id].(status := Error, error := Some(ExitMessage(code)), completedAt := Some(now)))
      && (Live(rows, id) && code == Some(0) ==>
            && o.rows[id].progress == Finite(100.0)
            && (o.requeue ==> o.pending == pending && o.rows[id].status == Completed && o.rows[id].completedAt == Some(now))
            && (!o.requeue ==>
                  && o.rows[id].status == Processing && o.pending == pending[id := o.pending[id]]
                  && o.pending[id] != "" && (last != "" ==> o.pending[id] == last)))
  {
    var o := Closed(rows, pending, id, code, last, found, again, now);
    if Live(rows, id) && code == Some(0) {
      var dir := ExitFolder(last, found);
      var r := if dir != "" then rows[id := rows[id].(outputDir := Some(dir))] else rows;
      assert Live(r, id);
      if !o.requeue {
        assert o.pending == pending[id := PostFolder(r[id].outputDir, again).value];
      }
    }
  }

  /** A change to row `id` alone that takes it out of 'downloading' (or leaves it
      as it was) never raises the count of 'downloading' rows. */
  lemma LeavingKeepsCap(t: Table, rows: map<string, Job>, id: string)
    requires t.Valid() && OthersKept(t.rows, rows, id)
    requires id in t.rows ==> rows[id].id == id && (rows[id].status != Downloading || rows[id] == t.rows[id])
    ensures Table(rows, t.order).Valid() && ActiveCount(Table(rows, t.order)) <= ActiveCount(t)
  {
    if id in t.rows {
      assert rows == t.rows[id := rows[id]];
      ActiveCountReplace(t, rows[id]);
    } else {
      assert rows == t.rows;
    }
  }

  /** The close handler never raises the count of 'downloading' rows. */
  lemma ClosedKeepsCap(t: Table, pending: map<string, string>, id: string, code: Option<int>,
                       last: string, found: Option<string>, again: Option<string>, now: nat)
    requires t.Valid()
    ensures var o := Closed(t.rows, pending, id, code, last, found, again, now);
      Table(o.rows, t.order).Valid() && ActiveCount(Table(o.rows, t.order)) <= ActiveCount(t)
  {
    var o := Closed(t.rows, pending, id, code, last, found, again, now);
    ClosedCases(t.rows, pending, id, code, last, found, again, now);
    if Live(t.rows, id) && code == Some(0) {
      var dir := ExitFolder(last, found);
      var r := if dir != "" then t.rows[id := t.rows[id].(outputDir := Some(dir))] else t.rows;
      assert r[id].id == id;
    }
    LeavingKeepsCap(t, o.rows, id);
  }

  /** The end of `postProcess`, after its mode step succeeded or failed: the row,
      whatever its status now, is 'completed' with the folder and its size. A
      deleted row stays deleted. */
  function Finished(rows: map<string, Job>, id: string, dir: string, size: nat, now: nat): map<string, Job> {
    if id in rows then rows[id := CompletedRow(rows[id], now, Some((dir, size)))] else rows
  }

  /** `cancelDownload`'s update: 'cancelled' with the completion time. */
  function CancelRows(rows: map<string, Job>, id: string, now: nat): map<string, Job> {
    if id in rows then rows[id := CancelledRow(rows[id], now)] else rows
  }

  /** The spawn 'error' handler's update, which does not look at the status. */
  function ErrorRows(rows: map<string, Job>, id: string, message: string, now: nat): map<string, Job> {
    if id in rows then rows[id := Failed(rows[id], message, now)] else rows
  }

  /** A cancel that arrives while post-processing waits on its mode step is
      overwritten: the row still ends 'completed', with the folder and its size. */
  lemma CancelOverwritten(rows: map<string, Job>, pending: map<string, string>, id: string, found: Option<string>,
                          now: nat, cancelAt: nat, size: nat, doneAt: nat)
    requires !PostStart(rows, pending, id, found, now).requeue
    ensures var o := PostStart(rows, pending, id, found, now);
      && id in o.pending && o.rows[id].status == Processing
      && var r := Finished(CancelRows(o.rows, id, cancelAt), id, o.pending[id], size, doneAt);
         r[id].status == Completed && r[id].outputDir == Some(o.pending[id]) && r[id].fileSize == Some(size)
  {
  }

  /** A spawn error marks even a cancelled row 'error'. */
  lemma ErrorIgnoresCancel(rows: map<string, Job>, id: string, message: string, now: nat)
    requires id in rows && rows[id].status == Cancelled
    ensures ErrorRows(rows, id, message, now)[id].status == Error
    ensures ErrorRows(rows, id, message, now)[id].error == Some(message)
  {
  }

  /** The updates behind the rows above, as `updateDownload` receives them. */
  /** Cancelling a row never raises the count of 'downloading' rows. */
  lemma CancelKeepsCap(t: Table, id: string, now: nat)
    requires t.Valid()
    ensures Table(CancelRows(t.rows, id, now), t.order).Valid()
    ensures ActiveCount(Table(CancelRows(t.rows, id, now), t.order)) <= ActiveCount(t)
  {
    LeavingKeepsCap(t, CancelRows(t.rows, id, now), id);
  }

  /** Failing a row never raises the count of 'downloading' rows. */
  lemma ErrorKeepsCap(t: Table, id: string, message: string, now: nat)
    requires t.Valid()
    ensures Table(ErrorRows(t.rows, id, message, now), t.order).Valid()
    ensures ActiveCount(Table(ErrorRows(t.rows, id, message, now), t.order)) <= ActiveCount(t)
  {
    LeavingKeepsCap(t, ErrorRows(t.rows, id, message, now), id);
  }

  /** Finishing a row never raises the count of 'downloading' rows. */
  lemma FinishKeepsCap(t: Table, id: string, dir: string, size: nat, now: nat)
    requires t.Valid()
    ensures Table(Finished(t.rows, id, dir, size, now), t.order).Valid()
    ensures ActiveCount(Table(Finished(t.rows, id, dir, size, now), t.order)) <= ActiveCount(t)
  {
    LeavingKeepsCap(t, Finished(t.rows, id, dir, size, now), id);
  }

  function FailFields(message: string, now: nat): seq<Field> {
    [SetStatus(Error), SetError(Some(message)), SetCompletedAt(Some(now))]
  }

  function CancelFields(now: nat): seq<Field> {
    [SetStatus(Cancelled), SetCompletedAt(Some(now))]
  }

  function ProcessingFields(): seq<Field> {
    [SetStatus(Processing), SetProgress(Finite(100.0))]
  }

  function DoneFields(now: nat, folder: Option<(string, nat)>): seq<Field> {
    match folder
    case Some((dir, size)) => [SetStatus(Completed), SetCompletedAt(Some(now)), SetFileSize(Some(size)), SetOutputDir(Some(dir))]
    case None => [SetStatus(Completed), SetCompletedAt(Some(now))]
  }

  /** Each update names a column and makes the row the one its function gives. */
  lemma FailSteps(j: Job, message: string, now: nat)
    ensures Named(FailFields(message, now)) != {} && Apply(j, FailFields(message, now)) == Failed(j, message, now)
  {
    var fs := FailFields(message, now);
    NamedFirst(fs[0], fs[1..]);
    assert [fs[0]] + fs[1..] == fs;
    Apply3(j, fs[0], fs[1], fs[2]);
  }

  lemma CancelSteps(j: Job, now: nat)
    ensures Named(CancelFields(now)) != {} && Apply(j, CancelFields(now)) == CancelledRow(j, now)
  {
    var fs := CancelFields(now);
    NamedFirst(fs[0], fs[1..]);
    assert [fs[0]] + fs[1..] == fs;
    Apply2(j, fs[0], fs[1]);
  }

  lemma ProcessingSteps(j: Job)
    ensures Named(ProcessingFields()) != {} && Apply(j, ProcessingFields()) == ProcessingRow(j)
  {
    var fs := ProcessingFields();
    NamedFirst(fs[0], fs[1..]);
    assert [fs[0]] + fs[1..] == fs;
    Apply2(j, fs[0], fs[1]);
  }

  lemma DoneSteps(j: Job, now: nat, folder: Option<(string, nat)>)
    ensures Named(DoneFields(now, folder)) != {} && Apply(j, DoneFields(now, folder)) == CompletedRow(j, now, folder)
  {
    var fs := DoneFields(now, folder);
    NamedFirst(fs[0], fs[1..]);
    assert [fs[0]] + fs[1..] == fs;
    if folder.Some? {
      Apply4(j, fs[0], fs[1], fs[2], fs[3]);
    } else {
      Apply2(j, fs[0], fs[1]);
    }
  }

  lemma FolderStep(j: Job, dir: string)
    ensures Named([SetOutputDir(Some(dir))]) != {} && Apply(j, [SetOutputDir(Some(dir))]) == j.(outputDir := Some(dir))
  {
    NamedFirst(SetOutputDir(Some(dir)), []);
    assert [SetOutputDir(Some(dir))] + [] == [SetOutputDir(Some(dir))];
    Apply1(j, SetOutputDir(Some(dir)));
  }

  // ---- The runner ----

  /** One spawn of yt-dlp: the handle the process got, and the url and mode its
      argument list is built from. */
  /** Every registered process is a known run serving the job it is registered
      under, and every run has a handle below the next one and logs. */
  ghost predicate Tracked(active: map<string, nat>, runs: map<nat, Run>, logs: map<nat, Logs>, next: nat) {
    && next >= 1
    && (forall id :: id in active ==> active[id] in runs && runs[active[id]].id == id)
    && (forall h :: h in runs ==> 1 <= h < next && h in logs)
  }

  /** The logs of every run agree with its unfinished lines. */
  ghost predicate Transcribed(runs: map<nat, Run>, logs: map<nat, Logs>) {
    forall h :: h in runs && h in logs ==> Heard(runs[h], logs[h])
  }

  /** The registry: tracked runs whose logs agree with them. */
  ghost predicate Registered(active: map<string, nat>, runs: map<nat, Run>, logs: map<nat, Logs>, next: nat) {
    Tracked(active, runs, logs, next) && Transcribed(runs, logs)
  }

  /** A spawn under the next handle keeps the registry consistent. */
  lemma SpawnRegistered(active: map<string, nat>, runs: map<nat, Run>, logs: map<nat, Logs>, next: nat,
                        id: string, url: string, mode: string)
    requires Registered(active, runs, logs, next)
    ensures Registered(active[id := next], runs[next := Run(id, url, mode, "", "", "")],
                       logs[next := Logs("", [], "", [])], next + 1)
  {
    assert [] + [""] == [""];
    assert Heard(Run(id, url, mode, "", "", ""), Logs("", [], "", []));
  }

  datatype Spawned = Spawned(handle: nat, url: string, mode: string)
  {
    /** The command line after `yt-dlp`. */
    function Args(): seq<string> {
      YtdlpArgs(url, mode)
    }
  }

  /** What each stream of one process has delivered: all its text, and the lines
      handed to `handleLine` so far. */
  datatype Logs = Logs(outHeard: string, outLines: seq<string>, errHeard: string, errLines: seq<string>)
  {
    /** The logs once a chunk arrived on `st` and its complete lines were dispatched. */
    function Hear(st: Stream, chunk: string, lines: seq<string>): Logs {
      if st == Stdout then this.(outHeard := outHeard + chunk, outLines := outLines + lines)
      else this.(errHeard := errHeard + chunk, errLines := errLines + lines)
    }
  }

  /** The lines dispatched, with the unfinished line after them, rebuild all the
      text heard, on each stream. */
  ghost predicate Heard(r: Run, l: Logs) {
    && Join(l.outLines + [r.outCarry], "\n") == l.outHeard
    && Join(l.errLines + [r.errCarry], "\n") == l.errHeard
  }

  /** Remembering another output folder keeps the logs in agreement. */
  lemma FolderTranscribed(runs: map<nat, Run>, logs: map<nat, Logs>, h: nat, dir: string)
    requires Transcribed(runs, logs) && h in runs
    ensures Transcribed(runs[h := runs[h].(lastOutputDir := dir)], logs)
  {
    if h in logs {
      assert Heard(runs[h].(lastOutputDir := dir), logs[h]);
    }
  }

  /** A chunk on one stream, split into lines and a new carry, keeps each stream's
      text rebuilt by its dispatched lines followed by its carry. */
  lemma HearRegistered(active: map<string, nat>, runs: map<nat, Run>, logs: map<nat, Logs>, next: nat,
                       h: nat, st: Stream, chunk: string)
    requires Registered(active, runs, logs, next) && h in runs
    ensures var r := Feed(runs[h].Carry(st), chunk);
      Registered(active, runs[h := runs[h].WithCarry(st, r.1)], logs[h := logs[h].Hear(st, chunk, r.0)], next)
  {
    var run := runs[h];
    var l := logs[h];
    var r := Feed(run.Carry(st), chunk);
    FeedRebuilds(run.Carry(st), chunk);
    if st == Stdout {
      FeedStep(l.outLines, run.outCarry, r.0, r.1, chunk);
    } else {
      FeedStep(l.errLines, run.errCarry, r.0, r.1, chunk);
    }
    assert Heard(run.WithCarry(st, r.1), l.Hear(st, chunk, r.0));
  }

  /** Adding one line's updates to the earlier ones, on a row: the earlier lines
      leave the status alone, and the new line continues from them. */
  lemma LinesStepRow(j: Job, ps: seq<LineParts>, p: LineParts, last: string)
    ensures var e := LinesEffect(ps, last);
      var f := p.Effect(e.lastOutputDir);
      && ApplyEach(j, e.updates).status == j.status
      && LinesEffect(ps + [p], last).lastOutputDir == f.lastOutputDir
      && ApplyEach(j, LinesEffect(ps + [p], last).updates) == ApplyEach(ApplyEach(j, e.updates), f.updates)
  {
    var e := LinesEffect(ps, last);
    LinesTame(ps, last);
    TameKeepsStatus(j, e, last);
    LinesSnoc(ps, p, last);
    ApplyEachAppend(j, e.updates, p.Effect(e.lastOutputDir).updates);
  }

  /** The matches `handleLine` tries, on each line of a chunk in turn. */
  function ScanAll(lines: seq<string>): (ps: seq<LineParts>)
    ensures |ps| == |lines|
  {
    seq(|lines|, k requires 0 <= k < |lines| => Scan(lines[k]))
  }

  /** What `handleLine` does with one line, read as `p`, in the closure of process
      `h`: the row is read first; a missing or cancelled job gets a SIGTERM and
      nothing else, otherwise the destination, merger and progress updates the
      line asks for are made, in that order, and the process remembers the folder
      they leave. */
  ghost predicate Handled(rows0: map<string, Job>, runs0: map<nat, Run>, sig0: seq<nat>, h: nat, p: LineParts,
                          rows: map<string, Job>, runs: map<nat, Run>, sig: seq<nat>)
    requires h in runs0
  {
    var run := runs0[h];
    var e := p.Effect(run.lastOutputDir);
    if Live(rows0, run.id) then
      && rows == rows0[run.id := ApplyEach(rows0[run.id], e.updates)]
      && runs == runs0[h := run.(lastOutputDir := e.lastOutputDir)]
      && sig == sig0
    else
      rows == rows0 && runs == runs0 && sig == sig0 + [h]
  }

  /** What `handleLine` does for each of the lines `ps` in turn: output lines
      never change the status, so either every line finds its job live and the
      row takes all their updates in order while the process remembers the
      folder they leave, or every line finds it gone and sends a SIGTERM. */
  ghost predicate Dispatched(rows0: map<string, Job>, runs0: map<nat, Run>, sig0: seq<nat>, h: nat, ps: seq<LineParts>,
                             rows: map<string, Job>, runs: map<nat, Run>, sig: seq<nat>)
    requires h in runs0
  {
    var run := runs0[h];
    var e := LinesEffect(ps, run.lastOutputDir);
    if Live(rows0, run.id) then
      && rows == rows0[run.id := ApplyEach(rows0[run.id], e.updates)]
      && runs == runs0[h := run.(lastOutputDir := e.lastOutputDir)]
      && sig == sig0
    else
      rows == rows0 && runs == runs0 && sig == sig0 + Kills(h, |ps|)
  }

  /** No line dispatched leaves nothing changed. */
  lemma DispatchedNone(rows0: map<string, Job>, runs0: map<nat, Run>, sig0: seq<nat>, h: nat)
    requires h in runs0
    ensures Dispatched(rows0, runs0, sig0, h, [], rows0, runs0, sig0)
  {
    var run := runs0[h];
    if Live(rows0, run.id) {
      assert rows0[run.id := ApplyEach(rows0[run.id], [])] == rows0;
      assert runs0[h := run.(lastOutputDir := run.lastOutputDir)] == runs0;
    }
  }

  /** Handling one more line after the earlier ones is dispatching all of them. */
  lemma DispatchedSnoc(rows0: map<string, Job>, runs0: map<nat, Run>, sig0: seq<nat>, h: nat, done: seq<LineParts>,
                       p: LineParts, rows1: map<string, Job>, runs1: map<nat, Run>, sig1: seq<nat>,
                       rows2: map<string, Job>, runs2: map<nat, Run>, sig2: seq<nat>)
    requires h in runs0 && Dispatched(rows0, runs0, sig0, h, done, rows1, runs1, sig1)
    requires h in runs1 && Handled(rows1, runs1, sig1, h, p, rows2, runs2, sig2)
    ensures Dispatched(rows0, runs0, sig0, h, done + [p], rows2, runs2, sig2)
  {
    var run := runs0[h];
    var id := run.id;
    var e := LinesEffect(done, run.lastOutputDir);
    if Live(rows0, id) {
      LinesStepRow(rows0[id], done, p, run.lastOutputDir);
      assert rows1[id] == ApplyEach(rows0[id], e.updates);
      assert Live(rows1, id);
      var f := p.Effect(e.lastOutputDir);
      assert rows2 == rows0[id := ApplyEach(ApplyEach(rows0[id], e.updates), f.updates)];
    } else {
      assert Kills(h, |done + [p]|) == Kills(h, |done|) + [h];
    }
  }

  /** Handling lines changes no unfinished line, so the logs keep agreeing. */
  lemma DispatchedTranscribed(rows0: map<string, Job>, runs0: map<nat, Run>, sig0: seq<nat>, h: nat, ps: seq<LineParts>,
                              rows: map<string, Job>, runs: map<nat, Run>, sig: seq<nat>, logs: map<nat, Logs>)
    requires h in runs0 && Transcribed(runs0, logs)
    requires Dispatched(rows0, runs0, sig0, h, ps, rows, runs, sig)
    ensures Transcribed(runs, logs)
  {
    if Live(rows0, runs0[h].id) {
      FolderTranscribed(runs0, logs, h, LinesEffect(ps, runs0[h].lastOutputDir).lastOutputDir);
    }
  }

  class Runner {
    /** The downloads table. */
    const store: JobStore
    /** `activeProcesses`: the process handle of each job with a live yt-dlp. */
    var active: map<string, nat>
    /** The closure state of every process spawned so far. */
    var runs: map<nat, Run>
    /** The handle the next spawn gets (handles stand in for OS pids). */
    var nextHandle: nat
    /** Every yt-dlp spawn, in order. */
    var launched: seq<Spawned>
    /** Every SIGTERM sent, by handle. */
    var signals: seq<nat>
    /** Jobs whose post-processing awaits its ffmpeg step, with their output folder. */
    var pending: map<string, string>
    /** All text received on each process's streams, and the lines dispatched. */
    ghost var logs: map<nat, Logs>

    ghost predicate Registry()
      reads this
    {
      Registered(active, runs, logs, nextHandle)
    }

    ghost predicate Valid()
      reads this, store
    {
      store.Valid() && Registry()
    }

    /** The table and the registry, leaving aside what the logs say: all that
        handling a line needs. */
    ghost predicate Working()
      reads this, store
    {
      store.Valid() && Tracked(active, runs, logs, nextHandle)
    }

    /** At most MaxConcurrent rows are 'downloading'. */
    ghost predicate Capped()
      reads this, store
      requires store.Valid()
    {
      ActiveCount(store.Snapshot()) <= MaxConcurrent
    }

    /** A runner over a given table, with no process yet. */
    constructor(s: JobStore)
      requires s.Valid()
      ensures Valid() && store == s && active == map[] && runs == map[] && pending == map[]
      ensures launched == [] && signals == []
    {
      store := s;
      active := map[];
      runs := map[];
      nextHandle := 1;
      launched := [];
      signals := [];
      pending := map[];
      logs := map[];
    }

    /** The spawn in `startDownload`: yt-dlp is launched with the arguments for the
        job's url and mode, gets the next handle, and is registered under the job's
        id with fresh closure state and nothing heard yet. */
    method Spawn(id: string, url: string, mode: string) returns (h: nat)
      requires Registry()
      modifies this
      ensures Registry()
      ensures h == old(nextHandle) && nextHandle == h + 1
      ensures active == old(active)[id := h]
      ensures runs == old(runs)[h := Run(id, url, mode, "", "", "")]
      ensures launched == old(launched) + [Spawned(h, url, mode)]
      ensures signals == old(signals) && pending == old(pending)
    {
      h := nextHandle;
      SpawnRegistered(active, runs, logs, h, id, url, mode);
      nextHandle := nextHandle + 1;
      launched := launched + [Spawned(h, url, mode)];
      active := active[id := h];
      runs := runs[h := Run(id, url, mode, "", "", "")];
      logs := logs[h := Logs("", [], "", [])];
    }

    /** `startDownload`: a missing row starts nothing. Otherwise the row turns
        'downloading' with its start time and 0 %, yt-dlp is spawned with the
        arguments for the row's url and mode, the process is registered under the
        job's id, and its handle is stored as the row's pid. */
    method StartDownload(id: string, now: nat)
      requires Valid()
      modifies this, store
      ensures Valid()
      ensures store.order == old(store.order) && signals == old(signals) && pending == old(pending)
      ensures id !in old(store.rows) ==>
        && store.rows == old(store.rows) && runs == old(runs) && active == old(active)
        && launched == old(launched) && nextHandle == old(nextHandle)
      ensures id in old(store.rows) ==>
        var row := old(store.rows[id]);
        var h := old(nextHandle);
        && store.rows == old(store.rows)[id := Launched(row, now, h)]
        && active == old(active)[id := h]
        && runs == old(runs)[h := Run(id, row.url, row.mode, "", "", "")]
        && launched == old(launched) + [Spawned(h, row.url, row.mode)]
        && nextHandle == h + 1
    {
      var row := store.Get(id);
      if row.None? {
        return;
      }
      var j := row.value;
      LaunchedRows(store.rows, id, now, nextHandle);
      var fields := LaunchFields(now);
      NamedFirst(SetStatus(Downloading), fields[1..]);
      store.Update(id, fields);
      var h := Spawn(id, j.url, j.mode);
      var pidField := [SetPid(Some(h))];
      NamedFirst(SetPid(Some(h)), []);
      store.Update(id, pidField);
    }

    /** The loop state of `processQueue` once the jobs `s` have been started
        from the queued ids `q0` over the rows `rows0`, with handles from `h0` on,
        when `count` rows were 'downloading' before. */
    ghost predicate Filling(q0: seq<string>, rows0: map<string, Job>, s: seq<string>, now: nat, h0: nat,
                            active0: map<string, nat>, count: nat)
      reads this, store
    {
      && Valid()
      && Admitted(store.Snapshot(), q0, rows0, s, now, h0)
      && nextHandle == h0 + |s|
      && active == Registrations(active0, s, h0)
      && ActiveCount(store.Snapshot()) == count + |s|
    }

    /** One round of `processQueue`: `startDownload` of the oldest queued job,
        if there is one. */
    method StartNext(now: nat, ghost q0: seq<string>, ghost rows0: map<string, Job>, ghost s: seq<string>, ghost h0: nat,
                     ghost active0: map<string, nat>, ghost count: nat)
      returns (id: Option<string>)
      requires Filling(q0, rows0, s, now, h0, active0, count)
      requires forall a, b :: 0 <= a < b < |q0| ==> q0[a] != q0[b]
      modifies this, store
      ensures store.order == old(store.order) && signals == old(signals) && pending == old(pending)
      ensures id.None? ==>
        && Filling(q0, rows0, s, now, h0, active0, count) && QueuedIds(store.Snapshot()) == []
        && store.rows == old(store.rows) && nextHandle == old(nextHandle) && launched == old(launched)
        && active == old(active)
      ensures id.Some? ==> Filling(q0, rows0, s + [id.value], now, h0, active0, count)
    {
      var t := store.Snapshot();
      var next := NextQueued(t);
      NextQueuedFirst(t);
      if next.None? {
        return None;
      }
      var x := next.value.id;
      id := Some(x);
      assert rows0.Keys == t.rows.Keys;
      ghost var u := Replace(t, Launched(next.value, now, nextHandle));
      StartProgress(t, next.value, q0, rows0, s, now, h0, nextHandle);
      StartAddsActive(t, now, nextHandle);
      StartDownload(x, now);
      assert store.Snapshot() == u;
      RegistrationsSnoc(active0, s, x, h0);
    }

    /** `processQueue`: with fewer than MaxConcurrent rows 'downloading', start the
        oldest queued jobs, one per free slot, until the slots or the queued jobs
        run out; each start is a full `startDownload`, so the next choice already
        sees the started row as 'downloading'. */
    method ProcessQueue(now: nat) returns (started: seq<string>)
      requires Valid()
      modifies this, store
      ensures Valid()
      ensures store.order == old(store.order) && signals == old(signals) && pending == old(pending)
      ensures nextHandle == old(nextHandle) + |started|
      ensures QueueRan(old(store.Snapshot()), started, store.Snapshot())
      ensures store.rows == LaunchAll(old(store.rows), started, now, old(nextHandle))
      ensures active == Registrations(old(active), started, old(nextHandle))
      ensures old(Capped()) ==> Capped()
    {
      ghost var q0 := QueuedIds(store.Snapshot());
      var count := ActiveCount(store.Snapshot());
      var slots := FreeSlots(count);
      started := StartUpTo(slots, now);
      assert TakenFront(q0, started, QueuedIds(store.Snapshot()), slots);
    }

    /** The loop of `processQueue`: starts the next queued job `slots` times,
        or until no job is queued. */
    method StartUpTo(slots: nat, now: nat) returns (started: seq<string>)
      requires Valid()
      modifies this, store
      ensures store.order == old(store.order) && signals == old(signals) && pending == old(pending)
      ensures Filling(old(QueuedIds(store.Snapshot())), old(store.rows), started, now, old(nextHandle), old(active),
                      old(ActiveCount(store.Snapshot())))
      ensures |started| <= slots && (|started| == slots || QueuedIds(store.Snapshot()) == [])
    {
      started := [];
      ghost var q0 := QueuedIds(store.Snapshot());
      ghost var rows0 := store.rows;
      ghost var count := ActiveCount(store.Snapshot());
      assert forall a, b :: 0 <= a < b < |q0| ==> q0[a] != q0[b] by {
        NextQueuedFirst(store.Snapshot());
      }
      var i := 0;
      var drained := false;
      while i < slots && !drained
        invariant 0 <= i <= slots && |started| == i
        invariant store.order == old(store.order) && signals == old(signals) && pending == old(pending)
        invariant Filling(q0, rows0, started, now, old(nextHandle), old(active), count)
        invariant drained ==> QueuedIds(store.Snapshot()) == []
        decreases slots - i, !drained
      {
        var next := StartNext(now, q0, rows0, started, old(nextHandle), old(active), count);
        if next.None? {
          drained := true;
        } else {
          started := started + [next.value];
          i := i + 1;
        }
      }
    }

    /** Several `updateDownload` calls on stored row `id`, in order. */
    method ApplyUpdates(id: string, us: seq<seq<Field>>)
      requires store.Valid() && id in store.rows
      modifies store
      ensures store.Valid() && store.order == old(store.order)
      ensures store.rows == old(store.rows)[id := ApplyEach(old(store.rows[id]), us)]
    {
      ghost var rows0 := store.rows;
      ghost var done: seq<seq<Field>> := [];
      var rest := us;
      while rest != []
        invariant done + rest == us
        invariant store.Valid() && store.order == old(store.order)
        invariant store.rows == rows0[id := ApplyEach(rows0[id], done)]
      {
        assert done + [rest[0]] + rest[1..] == us;
        ghost var before := ApplyEach(rows0[id], done);
        store.Update(id, rest[0]);
        assert store.rows == rows0[id := Step(before, rest[0])] by {
          Overwritten(rows0, id, before, Step(before, rest[0]));
        }
        ApplyEachSnoc(rows0[id], done, rest[0]);
        done := done + [rest[0]];
        rest := rest[1..];
      }
      assert done == done + rest;
    }

    /** `handleLine` in the closure of process `h`, given what the line reads as. */
    method HandleLine(h: nat, p: LineParts)
      requires Working() && h in runs
      modifies this, store
      ensures Working() && h in runs
      ensures store.order == old(store.order) && active == old(active) && launched == old(launched)
      ensures nextHandle == old(nextHandle) && pending == old(pending) && logs == old(logs)
      ensures runs[h].outCarry == old(runs[h].outCarry) && runs[h].errCarry == old(runs[h].errCarry)
      ensures Handled(old(store.rows), old(runs), old(signals), h, p, store.rows, runs, signals)
    {
      var run := runs[h];
      var current := store.Get(run.id);
      if current.None? || current.value.status == Cancelled {
        signals := signals + [h];
        return;
      }
      var e := p.Effect(run.lastOutputDir);
      ApplyUpdates(run.id, e.updates);
      runs := runs[h := run.(lastOutputDir := e.lastOutputDir)];
    }

    /** What handling lines of process `h` leaves alone: the registry, the queue
        bookkeeping, the logs and the unfinished lines of `h`. */
    ghost predicate Steady(h: nat, order0: seq<string>, active0: map<string, nat>, launched0: seq<Spawned>,
                           next0: nat, pending0: map<string, string>, logs0: map<nat, Logs>, out0: string, err0: string)
      reads this, store
    {
      && Working() && h in runs
      && store.order == order0 && active == active0 && launched == launched0
      && nextHandle == next0 && pending == pending0 && logs == logs0
      && runs[h].outCarry == out0 && runs[h].errCarry == err0
    }

    /** One more line after `done`: the lines handled so far compose with it. */
    method HandleNext(h: nat, p: LineParts, ghost rows0: map<string, Job>, ghost runs0: map<nat, Run>,
                      ghost sig0: seq<nat>, ghost done: seq<LineParts>)
      requires Working() && h in runs && h in runs0
      requires Dispatched(rows0, runs0, sig0, h, done, store.rows, runs, signals)
      modifies this, store
      ensures Steady(h, old(store.order), old(active), old(launched), old(nextHandle), old(pending), old(logs),
                     old(runs[h].outCarry), old(runs[h].errCarry))
      ensures Dispatched(rows0, runs0, sig0, h, done + [p], store.rows, runs, signals)
    {
      ghost var rows1, runs1, sig1 := store.rows, runs, signals;
      HandleLine(h, p);
      DispatchedSnoc(rows0, runs0, sig0, h, done, p, rows1, runs1, sig1, store.rows, runs, signals);
    }

    /** `for (const line of lines) handleLine(line)`, given what each line reads as. */
    method HandleLines(h: nat, ps: seq<LineParts>)
      requires Working() && h in runs
      modifies this, store
      ensures Working() && h in runs
      ensures store.order == old(store.order) && active == old(active) && launched == old(launched)
      ensures nextHandle == old(nextHandle) && pending == old(pending) && logs == old(logs)
      ensures runs[h].outCarry == old(runs[h].outCarry) && runs[h].errCarry == old(runs[h].errCarry)
      ensures Dispatched(old(store.rows), old(runs), old(signals), h, ps, store.rows, runs, signals)
    {
      ghost var rows0, runs0, sig0 := store.rows, runs, signals;
      DispatchedNone(rows0, runs0, sig0, h);
      ghost var done: seq<LineParts> := [];
      var rest := ps;
      while rest != []
        invariant done + rest == ps
        invariant Steady(h, old(store.order), old(active), old(launched), old(nextHandle), old(pending), old(logs),
                         old(runs[h].outCarry), old(runs[h].errCarry))
        invariant Dispatched(rows0, runs0, sig0, h, done, store.rows, runs, signals)
      {
        HandleNext(h, rest[0], rows0, runs0, sig0, done);
        assert done + [rest[0]] + rest[1..] == ps;
        done := done + [rest[0]];
        rest := rest[1..];
      }
      assert done == done + rest;
    }

    /** A 'data' event on stream `st` of process `h`: the chunk is added to the
        stream's unfinished line and split at '\n'; the last piece becomes the new
        unfinished line and every complete line goes to `handleLine`, in order.
        The registry keeps, for each stream, everything heard equal to the
        dispatched lines joined by '\n' followed by the unfinished line. */
    method OnData(h: nat, st: Stream, chunk: string) returns (lines: seq<string>, ps: seq<LineParts>)
      requires Valid() && h in runs
      modifies this, store
      ensures Valid() && h in runs
      ensures (lines, runs[h].Carry(st)) == Feed(old(runs[h].Carry(st)), chunk)
      ensures logs == old(logs)[h := old(logs[h]).Hear(st, chunk, lines)]
      ensures ps == ScanAll(lines)
      ensures store.order == old(store.order) && active == old(active) && launched == old(launched)
      ensures nextHandle == old(nextHandle) && pending == old(pending)
      ensures Dispatched(old(store.rows), old(runs)[h := old(runs[h]).WithCarry(st, runs[h].Carry(st))], old(signals), h, ps,
                         store.rows, runs, signals)
    {
      var run := runs[h];
      var r := Feed(run.Carry(st), chunk);
      lines := r.0;
      HearRegistered(active, runs, logs, nextHandle, h, st, chunk);
      logs := logs[h := logs[h].Hear(st, chunk, lines)];
      var carried := run.WithCarry(st, r.1);
      runs := runs[h := carried];
      ps := ScanAll(lines);
      ghost var rows1, runs1, sig1 := store.rows, runs, signals;
      HandleLines(h, ps);
      DispatchedTranscribed(rows1, runs1, sig1, h, ps, store.rows, runs, signals, logs);
    }

    /** `activeProcesses.delete(id)`: whatever process is registered under the id
        is forgotten. */
    method Unregister(id: string)
      requires Registry()
      modifies this
      ensures Registry() && active == old(active) - {id}
      ensures runs == old(runs) && nextHandle == old(nextHandle) && launched == old(launched)
      ensures signals == old(signals) && pending == old(pending) && logs == old(logs)
    {
      active := active - {id};
    }

    /** `postProcess` up to its mode step, as `PostStart` describes it; the result
        says whether the queue runs next (the promise settles at once). */
    method PostBegin(id: string, found: Option<string>, now: nat) returns (requeue: bool)
      requires Valid()
      modifies this, store
      ensures Valid() && store.order == old(store.order)
      ensures active == old(active) && runs == old(runs) && nextHandle == old(nextHandle)
      ensures launched == old(launched) && signals == old(signals) && logs == old(logs)
      ensures Outcome(store.rows, pending, requeue) == PostStart(old(store.rows), old(pending), id, found, now)
    {
      var row := store.Get(id);
      requeue := true;
      if row.Some? && row.value.status != Cancelled {
        var j := row.value;
        ghost var rows0 := store.rows;
        ProcessingSteps(j);
        store.Update(id, ProcessingFields());
        ghost var rows1 := store.rows;
        var dir := PostFolder(j.outputDir, found);
        if dir.None? {
          DoneSteps(ProcessingRow(j), now, None);
          store.Update(id, DoneFields(now, None));
          Overwritten(rows0, id, ProcessingRow(j), CompletedRow(ProcessingRow(j), now, None));
        } else {
          pending := pending[id := dir.value];
          requeue := false;
        }
      }
    }

    /** The 'close' handler of process `h`, before the queue runs: the job's
        registry entry goes, then `Closed` describes the rows and the waiting
        post-processing. `found` and `again` stand for what `findOutputDir`
        returns when the handler and then `postProcess` call it. */
    method Close(h: nat, code: Option<int>, found: Option<string>, again: Option<string>, now: nat) returns (requeue: bool)
      requires Valid() && h in runs
      modifies this, store
      ensures Valid() && store.order == old(store.order)
      ensures active == old(active) - {old(runs[h].id)}
      ensures runs == old(runs) && nextHandle == old(nextHandle)
      ensures launched == old(launched) && signals == old(signals) && logs == old(logs)
      ensures Outcome(store.rows, pending, requeue) ==
        Closed(old(store.rows), old(pending), old(runs[h].id), code, old(runs[h].lastOutputDir), found, again, now)
    {
      var run := runs[h];
      var id := run.id;
      Unregister(id);
      var current := store.Get(id);
      if current.None? || current.value.status == Cancelled {
        return false;
      }
      var j := current.value;
      if code == Some(0) {
        var dir := ExitFolder(run.lastOutputDir, found);
        if dir != "" {
          FolderStep(j, dir);
          store.Update(id, [SetOutputDir(Some(dir))]);
        }
        requeue := PostBegin(id, again, now);
      } else {
        FailSteps(j, ExitMessage(code), now);
        store.Update(id, FailFields(ExitMessage(code), now));
        requeue := true;
      }
    }

    /** The whole 'close' handler: `Close`, then `processQueue` unless the job's
        post-processing still waits on its mode step. */
    method OnClose(h: nat, code: Option<int>, found: Option<string>, again: Option<string>, now: nat)
      returns (started: seq<string>)
      requires Valid() && h in runs
      modifies this, store
      ensures Valid() && store.order == old(store.order)
      ensures signals == old(signals)
      ensures active == Registrations(old(active) - {old(runs[h].id)}, started, old(nextHandle))
      ensures var o := Closed(old(store.rows), old(pending), old(runs[h].id), code, old(runs[h].lastOutputDir), found, again, now);
        && pending == o.pending
        && (o.requeue || started == [])
        && (o.requeue ==> QueueRan(Table(o.rows, old(store.order)), started, store.Snapshot()))
        && store.rows == LaunchAll(o.rows, started, now, old(nextHandle))
      ensures nextHandle == old(nextHandle) + |started|
      ensures old(Capped()) ==> Capped()
    {
      ClosedKeepsCap(store.Snapshot(), pending, runs[h].id, code, runs[h].lastOutputDir, found, again, now);
      var requeue := Close(h, code, found, again, now);
      if requeue {
        started := ProcessQueue(now);
      } else {
        started := [];
      }
    }

    /** The 'error' handler of process `h` (yt-dlp could not be spawned): the
        registry entry goes, the row is marked 'error' with the message whatever
        its status, and the queue runs. */
    method OnError(h: nat, message: string, now: nat) returns (started: seq<string>)
      requires Valid() && h in runs
      modifies this, store
      ensures Valid() && store.order == old(store.order)
      ensures signals == old(signals) && pending == old(pending)
      ensures active == Registrations(old(active) - {old(runs[h].id)}, started, old(nextHandle))
      ensures store.rows == LaunchAll(ErrorRows(old(store.rows), old(runs[h].id), message, now), started, now, old(nextHandle))
      ensures QueueRan(Table(ErrorRows(old(store.rows), old(runs[h].id), message, now), old(store.order)), started, store.Snapshot())
      ensures nextHandle == old(nextHandle) + |started|
      ensures old(Capped()) ==> Capped()
    {
      var id := runs[h].id;
      ghost var t0 := store.Snapshot();
      Unregister(id);
      if id in store.rows {
        FailSteps(store.rows[id], message, now);
      }
      store.Update(id, FailFields(message, now));
      assert store.rows == ErrorRows(t0.rows, id, message, now);
      ErrorKeepsCap(t0, id, message, now);
      started := ProcessQueue(now);
    }

    /** The end of `postProcess` for a job waiting on its mode step, once that step
        is over (its errors are caught): the folder's size is walked in `tree`, the
        row becomes 'completed' with the folder and the size, and the queue runs. */
    method PostFinish(id: string, tree: FsTree.Node, now: nat) returns (size: nat, started: seq<string>)
      requires Valid() && id in pending
      modifies this, store
      ensures Valid() && store.order == old(store.order)
      ensures size == FsTree.DirSize(tree)
      ensures signals == old(signals) && pending == old(pending) - {id}
      ensures active == Registrations(old(active), started, old(nextHandle))
      ensures store.rows == LaunchAll(Finished(old(store.rows), id, old(pending[id]), size, now), started, now, old(nextHandle))
      ensures QueueRan(Table(Finished(old(store.rows), id, old(pending[id]), size, now), old(store.order)), started, store.Snapshot())
      ensures nextHandle == old(nextHandle) + |started|
      ensures old(Capped()) ==> Capped()
    {
      var dir := pending[id];
      size := FsTree.GetDirSize(tree);
      ghost var t0 := store.Snapshot();
      if id in store.rows {
        DoneSteps(store.rows[id], now, Some((dir, size)));
      }
      store.Update(id, DoneFields(now, Some((dir, size))));
      assert store.rows == Finished(t0.rows, id, dir, size, now);
      FinishKeepsCap(t0, id, dir, size, now);
      pending := pending - {id};
      started := ProcessQueue(now);
    }

    /** `cancelDownload`: a registered process gets a SIGTERM and leaves the
        registry; the row, whatever its status, turns 'cancelled' with the time;
        the queue runs; the answer is always true. */
    method CancelDownload(id: string, now: nat) returns (ok: bool, started: seq<string>)
      requires Valid()
      modifies this, store
      ensures Valid() && store.order == old(store.order) && ok
      ensures pending == old(pending)
      ensures active == Registrations(old(active) - {id}, started, old(nextHandle))
      ensures signals == old(signals) + (if id in old(active) then [old(active[id])] else [])
      ensures store.rows == LaunchAll(CancelRows(old(store.rows), id, now), started, now, old(nextHandle))
      ensures QueueRan(Table(CancelRows(old(store.rows), id, now), old(store.order)), started, store.Snapshot())
      ensures nextHandle == old(nextHandle) + |started|
      ensures old(Capped()) ==> Capped()
    {
      Stop(id);
      MarkCancelled(id, now);
      started := ProcessQueue(now);
      ok := true;
    }

    /** The process registered under `id`, if any, gets a SIGTERM and leaves the
        registry. */
    method Stop(id: string)
      requires Registry()
      modifies this
      ensures Registry() && active == old(active) - {id}
      ensures signals == old(signals) + (if id in old(active) then [old(active[id])] else [])
      ensures runs == old(runs) && nextHandle == old(nextHandle) && launched == old(launched)
      ensures pending == old(pending) && logs == old(logs)
    {
      if id in active {
        signals := signals + [active[id]];
        Unregister(id);
      }
    }

    /** The `updateDownload` of `cancelDownload`: the row, if any, turns
        'cancelled' at `now`, which never raises the count of live downloads. */
    method MarkCancelled(id: string, now: nat)
      requires store.Valid()
      modifies store
      ensures store.Valid() && store.order == old(store.order)
      ensures store.rows == CancelRows(old(store.rows), id, now)
      ensures ActiveCount(store.Snapshot()) <= old(ActiveCount(store.Snapshot()))
    {
      ghost var t0 := store.Snapshot();
      if id in store.rows {
        CancelSteps(store.rows[id], now);
      }
      store.Update(id, CancelFields(now));
      assert store.rows == CancelRows(t0.rows, id, now);
      CancelKeepsCap(t0, id, now);
    }
  }
}

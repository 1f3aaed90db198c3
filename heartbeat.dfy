/** The network heartbeat: a module-level buffer of the last 120 transfer-rate
    samples, computed from the cumulative byte counters of the primary
    interface each time a reading is taken, plus a "fast mode" that keeps
    sampling on a timer for 90 seconds. */
module Heartbeat {
  import opened Wrappers
  import opened Strings

  const BufferSize: nat := 120

  /** How long fast mode lasts after it was last requested, in milliseconds. */
  const FastWindow: int := 90000

  /** The cumulative received and transmitted byte counters. */
  datatype Reading = Reading(rx: int, tx: int)

  /** A reading and the clock time it was taken at, in milliseconds. */
  datatype Last = Last(ts: int, rx: int, tx: int)

  /** A sample: when, and the rates in bytes per second since the previous reading. */
  datatype Sample = Sample(ts: int, rxRate: real, txRate: real)

  /** `parseInt(p) || 0`: NaN counts as 0. */
  function Counter(p: string): (n: int)
    ensures ParseInt(p).None? ==> n == 0
    ensures ParseInt(p).Some? ==> n == ParseInt(p).value
  {
    ParseInt(p).GetOr(0)
  }

  /** `sampleNetwork`, given the trimmed output of the counter command (empty
      when the command fails): the first two white-space separated fields. */
  function SampleNetwork(raw: string): (r: Option<Reading>)
    ensures r.None? <==> raw == "" || |SplitWs(raw)| < 2
  {
    if raw == "" then None
    else
      var parts := SplitWs(raw);
      if |parts| < 2 then None else Some(Reading(Counter(parts[0]), Counter(parts[1])))
  }

  /** Two counters printed by the command are read back as they were printed. */
  lemma SampleNetworkReads(rx: nat, tx: nat)
    ensures SampleNetwork(NatToString(rx) + " " + NatToString(tx)) == Some(Reading(rx, tx))
  {
    var a := NatToString(rx);
    var b := NatToString(tx);
    NatToStringValue(rx);
    NatToStringValue(tx);
    assert NoSpace(a) && NoSpace(b);
    assert !IsSpace(b[0]);
    SplitWsField(a, ' ', b);
    SplitWsWhole(b);
    assert a + " " + b == a + [' '] + b;
    ParseIntToString(rx);
    ParseIntToString(tx);
  }

  /** The rate since the previous reading; a counter that went down (a reset)
      gives 0 rather than a negative rate. */
  function Rate(current: int, previous: int, elapsed: real): (r: real)
    requires elapsed > 0.0
    ensures r >= 0.0
    ensures current >= previous ==> r * elapsed == (current - previous) as real
    ensures current < previous ==> r == 0.0
  {
    var delta := (current - previous) as real / elapsed;
    if delta > 0.0 then delta else 0.0
  }

  /** Appends `x`, dropping the oldest sample once there are more than 120. */
  function Push(b: seq<Sample>, x: Sample): seq<Sample> {
    var c := b + [x];
    if |c| > BufferSize then c[1..] else c
  }

  /** The last `n` elements, or all when there are fewer. */
  function Window<T>(s: seq<T>, n: nat): (r: seq<T>)
    ensures |r| <= n && |r| <= |s|
  {
    if |s| <= n then s else s[|s| - n..]
  }

  /** Pushing `xs` one at a time. */
  function PushAll(b: seq<Sample>, xs: seq<Sample>): seq<Sample>
    decreases |xs|
  {
    if xs == [] then b else PushAll(Push(b, xs[0]), xs[1..])
  }

  /** From a buffer within its bound, any series of pushes leaves exactly the
      most recent 120 samples, oldest first: a first-in first-out window. */
  lemma {:induction false} PushAllWindow(b: seq<Sample>, xs: seq<Sample>)
    requires |b| <= BufferSize
    ensures PushAll(b, xs) == Window(b + xs, BufferSize)
    decreases |xs|
  {
    if xs != [] {
      var b1 := Push(b, xs[0]);
      assert b1 == Window(b + [xs[0]], BufferSize);
      PushAllWindow(b1, xs[1..]);
      WindowAppend(b + [xs[0]], xs[1..], BufferSize);
      assert b + [xs[0]] + xs[1..] == b + xs;
    }
  }

  /** Cutting to the window before or after appending gives the same window. */
  lemma WindowAppend<T>(s: seq<T>, t: seq<T>, n: nat)
    ensures Window(Window(s, n) + t, n) == Window(s + t, n)
  {
    var w := Window(s, n);
    if |s| > n {
      assert s + t == s[..|s| - n] + (w + t);
      var u := s + t;
      var v := w + t;
      if |v| > n {
        assert u[|u| - n..] == v[|v| - n..];
      } else {
        assert |v| == n;
        assert u[|u| - n..] == v;
      }
    }
  }

  /** The `current` part of the reply: rounded rates of the newest sample. */
  datatype Current = Current(down: int, up: int)

  datatype Point = Point(ts: int, down: int, up: int)

  datatype Reply = Reply(samples: seq<Point>, current: Option<Current>, bufferSize: nat)

  function PointOf(s: Sample): Point {
    Point(s.ts, Round(s.rxRate), Round(s.txRate))
  }

  /** `takeSample` at clock time `now`, given the counter command's output, took
      buffer `b0` and previous reading `l0` to `b` and `l`. A sample is added
      only when there was a previous reading more than 0.2 s earlier; every
      successful reading becomes the new previous reading; a failed one changes
      nothing. */
  ghost predicate SampleTaken(b0: seq<Sample>, l0: Option<Last>, now: int, raw: string, b: seq<Sample>, l: Option<Last>) {
    if SampleNetwork(raw).None? then b == b0 && l == l0
    else
      var cur := SampleNetwork(raw).value;
      && l == Some(Last(now, cur.rx, cur.tx))
      && if l0.Some? && (now - l0.value.ts) as real / 1000.0 > 0.2 then
           var elapsed := (now - l0.value.ts) as real / 1000.0;
           b == Push(b0, Sample(now, Rate(cur.rx, l0.value.rx, elapsed), Rate(cur.tx, l0.value.tx, elapsed)))
         else b == b0
  }

  /** The route's module-level state. `fastRunning` is whether the fast-mode
      interval exists. */
  class Monitor {
    var buffer: seq<Sample>
    var lastSample: Option<Last>
    var fastRunning: bool
    var fastExpiry: int

    /** The buffer is within its bound and holds no negative rate. */
    predicate Valid()
      reads this
    {
      |buffer| <= BufferSize && forall i :: 0 <= i < |buffer| ==> buffer[i].rxRate >= 0.0 && buffer[i].txRate >= 0.0
    }

    constructor()
      ensures Valid() && buffer == [] && lastSample.None? && !fastRunning && fastExpiry == 0
    {
      buffer := [];
      lastSample := None;
      fastRunning := false;
      fastExpiry := 0;
    }

    /** `takeSample` at clock time `now`, given the counter command's output. */
    method TakeSample(now: int, raw: string)
      requires Valid()
      modifies this
      ensures Valid()
      ensures fastRunning == old(fastRunning) && fastExpiry == old(fastExpiry)
      ensures SampleTaken(old(buffer), old(lastSample), now, raw, buffer, lastSample)
    {
      var current := SampleNetwork(raw);
      if current.None? {
        return;
      }
      var cur := current.value;
      if lastSample.Some? {
        var prev := lastSample.value;
        var elapsed := (now - prev.ts) as real / 1000.0;
        if elapsed > 0.2 {
          var rxRate := Rate(cur.rx, prev.rx, elapsed);
          var txRate := Rate(cur.tx, prev.tx, elapsed);
          buffer := buffer + [Sample(now, rxRate, txRate)];
          if |buffer| > BufferSize {
            buffer := buffer[1..];
          }
        }
      }
      lastSample := Some(Last(now, cur.rx, cur.tx));
    }

    /** `startFastSampling`: the expiry always moves to 90 s from now; an
        interval is created only when none is running. */
    method StartFastSampling(now: int) returns (created: bool)
      modifies this
      ensures fastExpiry == now + FastWindow && fastRunning
      ensures created <==> !old(fastRunning)
      ensures buffer == old(buffer) && lastSample == old(lastSample)
    {
      fastExpiry := now + FastWindow;
      if fastRunning {
        return false;
      }
      fastRunning := true;
      created := true;
    }

    /** One tick of the fast-mode interval: past the expiry it clears itself,
        otherwise it takes a sample. */
    method FastTick(now: int, raw: string)
      requires Valid() && fastRunning
      modifies this
      ensures Valid()
      ensures now > old(fastExpiry) ==> !fastRunning && buffer == old(buffer) && lastSample == old(lastSample)
      ensures now <= old(fastExpiry) ==>
        fastRunning && SampleTaken(old(buffer), old(lastSample), now, raw, buffer, lastSample)
    {
      if now > fastExpiry {
        fastRunning := false;
        return;
      }
      TakeSample(now, raw);
    }

    /** `GET /api/services/heartbeat`: optionally enters fast mode, takes a
        sample, and reports the buffer and its newest sample. */
    method Get(fast: bool, now: int, raw: string) returns (reply: Reply)
      requires Valid()
      modifies this
      ensures Valid()
      ensures fast ==> fastExpiry == now + FastWindow && fastRunning
      ensures !fast ==> fastExpiry == old(fastExpiry) && fastRunning == old(fastRunning)
      ensures SampleTaken(old(buffer), old(lastSample), now, raw, buffer, lastSample)
      ensures |reply.samples| == |buffer| && forall i :: 0 <= i < |buffer| ==> reply.samples[i] == PointOf(buffer[i])
      ensures reply.current.None? <==> buffer == []
      ensures buffer != [] ==>
        reply.current == Some(Current(Round(buffer[|buffer| - 1].rxRate), Round(buffer[|buffer| - 1].txRate)))
      ensures reply.bufferSize == BufferSize
    {
      if fast {
        var _ := StartFastSampling(now);
      }
      TakeSample(now, raw);
      var latest: Option<Sample> := if |buffer| > 0 then Some(buffer[|buffer| - 1]) else None;
      var samples := seq(|buffer|, i requires 0 <= i < |buffer| reads this => PointOf(buffer[i]));
      var current := if latest.Some? then Some(Current(Round(latest.value.rxRate), Round(latest.value.txRate))) else None;
      reply := Reply(samples, current, BufferSize);
    }
  }

  /** One push keeps the buffer within 120 samples and puts the new sample
      last; on a full buffer it is the oldest sample that goes. */
  lemma PushBound(b: seq<Sample>, x: Sample)
    requires |b| <= BufferSize
    ensures |Push(b, x)| <= BufferSize
    ensures Push(b, x)[|Push(b, x)| - 1] == x
    ensures |b| == BufferSize ==> Push(b, x) == b[1..] + [x]
  {
  }
}

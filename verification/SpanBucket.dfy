/**
  The sampling bucket of trace/spanbucket.go: a circular buffer that accepts a span only when
  the previous accepted one ended at least one sample period earlier. `Ring` is the plain
  "keep the newest" list it stands for.
*/
module SpanBuckets {
  import opened Wrappers

  /** Instants are nanoseconds since Go's zero Time. */
  type Instant = int

  type Duration = int

  const SAMPLE_PERIOD: Duration := 1_000_000_000
  const MAX_DURATION: Duration := 0x7FFF_FFFF_FFFF_FFFF
  const MIN_DURATION: Duration := -0x8000_0000_0000_0000

  datatype SpanData = SpanData(id: nat, start: Instant, end: Instant, code: int)

  /** Time.Sub saturates at the ends of the 64-bit range. */
  function Sub(a: Instant, b: Instant): (d: Duration)
    ensures MIN_DURATION <= d <= MAX_DURATION
    ensures MIN_DURATION <= a - b <= MAX_DURATION ==> d == a - b
    ensures a - b > MAX_DURATION ==> d == MAX_DURATION
    ensures a - b < MIN_DURATION ==> d == MIN_DURATION
  {
    if a - b > MAX_DURATION then MAX_DURATION
    else if a - b < MIN_DURATION then MIN_DURATION
    else a - b
  }

  // ---- the list a bucket stands for ----

  datatype Ring = Ring(contents: seq<SpanData>, capacity: nat, nextTime: Instant)

  function Newest<T>(s: seq<T>, n: nat): (out: seq<T>)
    ensures |out| == if |s| < n then |s| else n
  {
    if |s| <= n then s else s[|s| - n..]
  }

  predicate Accepts(r: Ring, s: SpanData) {
    r.nextTime <= s.end && r.capacity > 0
  }

  function AddStep(r: Ring, s: SpanData): Ring {
    if Accepts(r, s) then Ring(Newest(r.contents + [s], r.capacity), r.capacity, s.end + SAMPLE_PERIOD) else r
  }

  function ResizeStep(r: Ring, n: nat): Ring {
    Ring(Newest(r.contents, n), n, r.nextTime)
  }

  function NewRing(n: nat): Ring {
    Ring([], n, 0)
  }

  datatype Op = Add(s: SpanData) | Resize(n: nat)

  function Step(r: Ring, op: Op): Ring {
    match op
    case Add(s) => AddStep(r, s)
    case Resize(n) => ResizeStep(r, n)
  }

  function RunOps(r: Ring, ops: seq<Op>): Ring {
    if ops == [] then r else Step(RunOps(r, ops[..|ops| - 1]), ops[|ops| - 1])
  }

  /** Every span the bucket ever let in, oldest first. */
  function Accepted(r: Ring, ops: seq<Op>): seq<SpanData> {
    if ops == [] then []
    else
      var op, before := ops[|ops| - 1], ops[..|ops| - 1];
      Accepted(r, before) + if op.Add? && Accepts(RunOps(r, before), op.s) then [op.s] else []
  }

  /** Any two spans end at least one sample period apart, in order, and the next span must too. */
  ghost predicate Spaced(s: seq<SpanData>, nextTime: Instant) {
    && (forall i, j :: 0 <= i < j < |s| ==> s[i].end + SAMPLE_PERIOD <= s[j].end)
    && (forall i :: 0 <= i < |s| ==> s[i].end + SAMPLE_PERIOD <= nextTime)
  }

  ghost predicate KeepsNewest(r: Ring, all: seq<SpanData>) {
    && |r.contents| <= r.capacity && |r.contents| <= |all|
    && r.contents == all[|all| - |r.contents|..]
    && Spaced(all, r.nextTime)
  }

  lemma AddKeepsNewest(r: Ring, all: seq<SpanData>, s: SpanData)
    requires KeepsNewest(r, all) && Accepts(r, s)
    ensures KeepsNewest(AddStep(r, s), all + [s])
  {
  }

  lemma ResizeKeepsNewest(r: Ring, all: seq<SpanData>, n: nat)
    requires KeepsNewest(r, all)
    ensures KeepsNewest(ResizeStep(r, n), all)
  {
  }

  /** Over every run of adds and resizes the bucket holds the newest accepted spans, in the order
      of acceptance, never more than its capacity, and any two end a sample period apart. */
  lemma {:induction false} BucketKeepsNewestAccepted(n: nat, ops: seq<Op>)
    ensures KeepsNewest(RunOps(NewRing(n), ops), Accepted(NewRing(n), ops))
    decreases |ops|
  {
    if ops == [] {
    } else {
      var op, before := ops[|ops| - 1], ops[..|ops| - 1];
      BucketKeepsNewestAccepted(n, before);
      var r, all := RunOps(NewRing(n), before), Accepted(NewRing(n), before);
      assert all + [] == all;
      match op
      case Add(s) => if Accepts(r, s) { AddKeepsNewest(r, all, s); }
      case Resize(m) => ResizeKeepsNewest(r, all, m);
    }
  }

  /** The size that the last resize set, or the first one. */
  function LastSize(n: nat, ops: seq<Op>): nat {
    if ops == [] then n
    else if ops[|ops| - 1].Resize? then ops[|ops| - 1].n else LastSize(n, ops[..|ops| - 1])
  }

  function Min(x: nat, y: nat): (m: nat)
    ensures m <= x && m <= y && (m == x || m == y)
  {
    if x < y then x else y
  }

  /** How many spans are held: one more for each accepted one, as many as fit. */
  function Held(n: nat, ops: seq<Op>): nat {
    if ops == [] then 0
    else
      var op, before := ops[|ops| - 1], ops[..|ops| - 1];
      match op
      case Resize(m) => Min(Held(n, before), m)
      case Add(s) =>
        if |Accepted(NewRing(n), ops)| > |Accepted(NewRing(n), before)| then Min(Held(n, before) + 1, LastSize(n, before))
        else Held(n, before)
  }

  lemma {:induction false} HeldIsLength(n: nat, ops: seq<Op>)
    ensures var r := RunOps(NewRing(n), ops); r.capacity == LastSize(n, ops) && |r.contents| == Held(n, ops)
    decreases |ops|
  {
    if ops == [] {
    } else {
      HeldIsLength(n, ops[..|ops| - 1]);
    }
  }

  /** Over every run the bucket holds exactly the newest accepted spans, as many as its sizes allowed. */
  lemma BucketHoldsAllThatFit(n: nat, ops: seq<Op>)
    ensures Held(n, ops) <= |Accepted(NewRing(n), ops)|
    ensures RunOps(NewRing(n), ops).contents == Newest(Accepted(NewRing(n), ops), Held(n, ops))
  {
    HeldIsLength(n, ops);
    BucketKeepsNewestAccepted(n, ops);
  }

  /** When the next span may end, by the sampling rule. */
  function EarliestEnd(all: seq<SpanData>): Instant {
    if all == [] then 0 else all[|all| - 1].end + SAMPLE_PERIOD
  }

  lemma {:induction false} NextTimeIsEarliestEnd(n: nat, ops: seq<Op>)
    ensures RunOps(NewRing(n), ops).nextTime == EarliestEnd(Accepted(NewRing(n), ops))
    ensures RunOps(NewRing(n), ops).capacity == LastSize(n, ops)
    decreases |ops|
  {
    if ops == [] {
    } else {
      NextTimeIsEarliestEnd(n, ops[..|ops| - 1]);
    }
  }

  /** A span is accepted exactly when there is room for any and it ends at least a sample period after
      the last accepted one. */
  lemma AcceptedIff(n: nat, ops: seq<Op>, s: SpanData)
    ensures Accepted(NewRing(n), ops + [Add(s)])
            == Accepted(NewRing(n), ops)
               + if LastSize(n, ops) > 0 && s.end >= EarliestEnd(Accepted(NewRing(n), ops)) then [s] else []
  {
    NextTimeIsEarliestEnd(n, ops);
    assert (ops + [Add(s)])[..|ops|] == ops;
  }

  /** Between two resizes only the capacity evicts. */
  lemma {:induction false} AddsEvictOnlyByCapacity(r: Ring, ops: seq<Op>)
    requires |r.contents| <= r.capacity
    requires forall op :: op in ops ==> op.Add?
    ensures RunOps(r, ops).capacity == r.capacity
    ensures RunOps(r, ops).contents == Newest(r.contents + Accepted(r, ops), r.capacity)
    decreases |ops|
  {
    if ops == [] {
      assert r.contents + [] == r.contents;
    } else {
      var op, before := ops[|ops| - 1], ops[..|ops| - 1];
      AddsEvictOnlyByCapacity(r, before);
      assert op in ops;
      var all := r.contents + Accepted(r, before);
      if Accepts(RunOps(r, before), op.s) {
        assert r.contents + Accepted(r, ops) == all + [op.s];
      } else {
        assert r.contents + Accepted(r, ops) == all;
      }
    }
  }

  // ---- the circular buffer ----

  function Values(s: seq<Option<SpanData>>): (out: seq<SpanData>)
    requires forall i :: 0 <= i < |s| ==> s[i].Some?
    ensures |out| == |s| && forall i :: 0 <= i < |s| ==> out[i] == s[i].value
  {
    seq(|s|, i requires 0 <= i < |s| => s[i].value)
  }

  /** The slots from the oldest span to the newest. */
  function Ordered(slots: seq<Option<SpanData>>, nextIndex: nat, overflow: bool): seq<Option<SpanData>>
    requires nextIndex <= |slots|
  {
    if overflow then slots[nextIndex..] + slots[..nextIndex] else slots[..nextIndex]
  }

  ghost predicate WellFormed(slots: seq<Option<SpanData>>, nextIndex: nat, overflow: bool) {
    && (nextIndex < |slots| || |slots| == nextIndex == 0)
    && forall i :: 0 <= i < |slots| ==> (slots[i].Some? <==> overflow || i < nextIndex)
  }

  /** The stored spans, oldest first. */
  function Stored(slots: seq<Option<SpanData>>, nextIndex: nat, overflow: bool): seq<SpanData>
    requires WellFormed(slots, nextIndex, overflow)
  {
    Values(Ordered(slots, nextIndex, overflow))
  }

  lemma WriteStores(slots: seq<Option<SpanData>>, nextIndex: nat, overflow: bool, s: SpanData)
    requires WellFormed(slots, nextIndex, overflow) && nextIndex < |slots|
    ensures var wraps := nextIndex + 1 == |slots|; var at := if wraps then 0 else nextIndex + 1;
            && WellFormed(slots[nextIndex := Some(s)], at, overflow || wraps)
            && Stored(slots[nextIndex := Some(s)], at, overflow || wraps)
               == Newest(Stored(slots, nextIndex, overflow) + [s], |slots|)
  {
  }

  lemma StoredFull(slots: seq<Option<SpanData>>, kept: seq<SpanData>)
    requires |kept| == |slots|
    requires forall i :: 0 <= i < |slots| ==> slots[i] == Some(kept[i])
    ensures WellFormed(slots, 0, true) && Stored(slots, 0, true) == kept
  {
  }

  class Bucket {
    var nextTime: Instant
    var buffer: array<Option<SpanData>>
    var nextIndex: nat
    var overflow: bool
    /** The list this bucket stands for. */
    ghost var ring: Ring

    ghost predicate Valid()
      reads this, buffer
    {
      && WellFormed(buffer[..], nextIndex, overflow)
      && ring == Ring(Stored(buffer[..], nextIndex, overflow), buffer.Length, nextTime)
    }

    constructor (bufferSize: nat)
      ensures Valid() && fresh(buffer) && ring == NewRing(bufferSize)
    {
      ring := NewRing(bufferSize);
      nextTime, nextIndex, overflow := 0, 0, false;
      buffer := new Option<SpanData>[bufferSize](_ => None);
    }

    method Add(s: SpanData)
      requires Valid()
      modifies this, buffer
      ensures Valid() && buffer == old(buffer)
      ensures ring == AddStep(old(ring), s)
    {
      if s.end < nextTime {
        return;
      }
      if buffer.Length == 0 {
        return;
      }
      ghost var slots := buffer[..];
      ring := AddStep(ring, s);
      WriteStores(slots, nextIndex, overflow, s);
      nextTime := s.end + SAMPLE_PERIOD;
      buffer[nextIndex] := Some(s);
      assert buffer[..] == slots[nextIndex := Some(s)];
      nextIndex := nextIndex + 1;
      if nextIndex == buffer.Length {
        nextIndex := 0;
        overflow := true;
      }
    }

    function Size(): (n: nat)
      requires Valid()
      reads this, buffer
      ensures n == |ring.contents|
    {
      if overflow then buffer.Length else nextIndex
    }

    function Span(i: nat): (s: SpanData)
      requires Valid() && i < Size()
      reads this, buffer
      ensures s == ring.contents[i]
    {
      if !overflow then buffer[i].value
      else if i < buffer.Length - nextIndex then buffer[nextIndex + i].value
      else buffer[nextIndex + i - buffer.Length].value
    }

    method Resize(n: nat)
      requires Valid()
      modifies this
      ensures Valid() && fresh(buffer)
      ensures ring == ResizeStep(old(ring), n)
    {
      if Size() < n {
        Enlarge(n);
      } else {
        Shrink(n);
      }
    }

    /** The spans move to the front of a buffer with room for more. */
    method Enlarge(n: nat)
      requires Valid() && Size() < n
      modifies this
      ensures Valid() && fresh(buffer)
      ensures ring == ResizeStep(old(ring), n)
    {
      var cur := Size();
      ghost var kept := ring.contents;
      var newBuffer := new Option<SpanData>[n](_ => None);
      var i := 0;
      while i < cur
        modifies newBuffer
        invariant i <= cur
        invariant forall j :: 0 <= j < n ==> newBuffer[j] == if j < i then Some(kept[j]) else None
      {
        newBuffer[i] := Some(Span(i));
        i := i + 1;
      }
      ring := ResizeStep(ring, n);
      buffer := newBuffer;
      nextIndex := cur;
      overflow := false;
    }

    /** The newest spans fill the buffer. */
    method Shrink(n: nat)
      requires Valid() && n <= Size()
      modifies this
      ensures Valid() && fresh(buffer)
      ensures ring == ResizeStep(old(ring), n)
    {
      var cur := Size();
      ghost var kept := Newest(ring.contents, n);
      var newBuffer := new Option<SpanData>[n](_ => None);
      var i := 0;
      while i < n
        modifies newBuffer
        invariant i <= n
        invariant forall j :: 0 <= j < i ==> newBuffer[j] == Some(kept[j])
      {
        newBuffer[i] := Some(Span(i + cur - n));
        i := i + 1;
      }
      StoredFull(newBuffer[..], kept);
      ring := ResizeStep(ring, n);
      buffer := newBuffer;
      nextIndex := 0;
      overflow := true;
    }
  }

  // ---- latency ranges ----

  const LATENCIES: seq<Duration> :=
    [10_000, 100_000, 1_000_000, 10_000_000, 100_000_000, 1_000_000_000, 10_000_000_000, 60_000_000_000]

  /** latencyBucketBounds, for the indexes of the store's buckets. */
  function Bounds(index: nat): (b: (Duration, Duration))
    requires index <= |LATENCIES|
    ensures b.0 < b.1
  {
    if index == 0 then (0, LATENCIES[index])
    else if index == |LATENCIES| then (LATENCIES[index - 1], MAX_DURATION)
    else (LATENCIES[index - 1], LATENCIES[index])
  }

  /** In range: the lower bound is inclusive, the upper one exclusive except for the last bucket. */
  predicate InBucket(latency: Duration, index: nat)
    requires index <= |LATENCIES|
  {
    Bounds(index).0 <= latency && (latency < Bounds(index).1 || index == |LATENCIES|)
  }

  /** The buckets partition the non-negative latencies. */
  lemma BucketsPartition(latency: Duration, i: nat, j: nat)
    requires i <= |LATENCIES| && j <= |LATENCIES|
    requires InBucket(latency, i) && InBucket(latency, j)
    ensures i == j
  {
  }

  method LatencyBucket(latency: Duration) returns (i: nat)
    requires 0 <= latency
    ensures i <= |LATENCIES| && InBucket(latency, i)
  {
    i := 0;
    while i < |LATENCIES| && latency >= LATENCIES[i]
      invariant i <= |LATENCIES|
      invariant i > 0 ==> LATENCIES[i - 1] <= latency
    {
      i := i + 1;
    }
  }

  function Clamped(s: SpanData): Duration {
    var d := Sub(s.end, s.start);
    if d < 0 then 0 else d
  }
}
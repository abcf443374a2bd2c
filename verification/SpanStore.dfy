/**
  The span store of trace/spanstore.go: one sampling bucket for each latency range of successful
  spans and one for each error code. `Store` is its value; the class updates the buckets in place.
*/
module SpanStores {
  import opened Wrappers
  import opened SpanBuckets

  const MAX_BUCKET_SIZE: nat := 100_000

  datatype Store = Store(active: set<nat>, latency: seq<Ring>, errors: map<int, Ring>, errorCapacity: nat)

  /** One more than the number of latency bounds. */
  const BUCKETS: nat := 9

  // ---- what each operation does to the value ----

  function Locate(d: Duration, i: nat): (index: nat)
    requires i <= |LATENCIES| && Bounds(i).0 <= d
    ensures index <= |LATENCIES| && InBucket(d, index)
    decreases |LATENCIES| - i
  {
    if i < |LATENCIES| && d >= LATENCIES[i] then Locate(d, i + 1) else i
  }

  function BucketOf(s: SpanData): (index: nat)
    ensures index < BUCKETS && InBucket(Clamped(s), index)
  {
    Locate(Clamped(s), 0)
  }

  function NewStore(latencySize: nat, errorSize: nat): Store {
    Store({}, seq(BUCKETS, _ => NewRing(latencySize)), map[], errorSize)
  }

  function FinishedStep(st: Store, span: nat, s: SpanData): Store
    requires |st.latency| == BUCKETS
  {
    var i := BucketOf(s);
    if s.code == 0 then
      st.(active := st.active - {span}, latency := st.latency[i := AddStep(st.latency[i], s)])
    else
      st.(active := st.active - {span}, errors := st.errors[s.code := AddStep(ErrorRing(st, s.code), s)])
  }

  /** The ring of an error code, which is made when it is first needed. */
  function ErrorRing(st: Store, code: int): Ring {
    if code in st.errors then st.errors[code] else NewRing(st.errorCapacity)
  }

  function ResizedLatencies(st: Store, n: nat): (out: seq<Ring>)
    ensures |out| == |st.latency| && forall i :: 0 <= i < |out| ==> out[i] == ResizeStep(st.latency[i], n)
  {
    seq(|st.latency|, i requires 0 <= i < |st.latency| => ResizeStep(st.latency[i], n))
  }

  /** The buckets after the first `k` of them were resized. */
  function ResizedUpTo(latency: seq<Ring>, n: nat, k: nat): (out: seq<Ring>)
    requires k <= |latency|
    ensures |out| == |latency|
  {
    if k == 0 then latency
    else var before := ResizedUpTo(latency, n, k - 1); before[k - 1 := ResizeStep(before[k - 1], n)]
  }

  lemma {:induction false} ResizedUpToIs(latency: seq<Ring>, n: nat, k: nat)
    requires k <= |latency|
    ensures forall i :: 0 <= i < |latency| ==>
                          ResizedUpTo(latency, n, k)[i] == if i < k then ResizeStep(latency[i], n) else latency[i]
  {
    if k == 0 {
    } else {
      ResizedUpToIs(latency, n, k - 1);
    }
  }

  function ResizedErrors(st: Store, n: nat): (out: map<int, Ring>)
    ensures out.Keys == st.errors.Keys && forall c :: c in out ==> out[c] == ResizeStep(st.errors[c], n)
  {
    map c | c in st.errors :: ResizeStep(st.errors[c], n)
  }

  function ResizedExcept(errors: map<int, Ring>, n: nat, todo: set<int>): map<int, Ring> {
    map c | c in errors :: if c in todo then errors[c] else ResizeStep(errors[c], n)
  }

  /** The store while the loop over the error buckets still has `todo` to do. */
  function ErrorsExcept(st: Store, n: nat, todo: set<int>): Store {
    st.(errors := ResizedExcept(st.errors, n, todo))
  }

  lemma ErrorsExceptOneLess(was: Store, st: Store, n: nat, todo: set<int>, c: int)
    requires st == ErrorsExcept(was, n, todo) && c in todo && c in was.errors
    ensures c in st.errors
    ensures st.(errors := st.errors[c := ResizeStep(st.errors[c], n)]) == ErrorsExcept(was, n, todo - {c})
  {
  }

  lemma ResizedExceptEnds(was: Store, n: nat)
    ensures was == ErrorsExcept(was, n, was.errors.Keys)
    ensures ErrorsExcept(was, n, {}) == was.(errors := ResizedErrors(was, n))
  {
  }

  /** The store while the loop over the latency buckets has done the first k. */
  function LatenciesUpTo(st: Store, n: nat, k: nat): (out: Store)
    requires k <= |st.latency|
    ensures |out.latency| == |st.latency|
  {
    st.(latency := ResizedUpTo(st.latency, n, k))
  }

  lemma LatenciesOneMore(st: Store, n: nat, k: nat)
    requires k < |st.latency|
    ensures var before := LatenciesUpTo(st, n, k);
            LatenciesUpTo(st, n, k + 1) == before.(latency := before.latency[k := ResizeStep(before.latency[k], n)])
  {
  }

  lemma LatenciesEnd(st: Store, n: nat)
    ensures LatenciesUpTo(st, n, |st.latency|) == st.(latency := ResizedLatencies(st, n))
  {
    ResizedUpToIs(st.latency, n, |st.latency|);
    assert ResizedUpTo(st.latency, n, |st.latency|) == ResizedLatencies(st, n);
  }

  function StoreResizeStep(st: Store, latencySize: nat, errorSize: nat): Store {
    Store(st.active, ResizedLatencies(st, latencySize), ResizedErrors(st, errorSize), errorSize)
  }

  /** ConfigureBucketSizes brings every size into [0, MAX_BUCKET_SIZE]. */
  function ClampSize(n: int): (m: nat)
    ensures m <= MAX_BUCKET_SIZE && (0 <= n <= MAX_BUCKET_SIZE ==> m == n)
    ensures n < 0 ==> m == 0
    ensures n > MAX_BUCKET_SIZE ==> m == MAX_BUCKET_SIZE
  {
    if n < 0 then 0 else if n > MAX_BUCKET_SIZE then MAX_BUCKET_SIZE else n
  }

  // ---- reachable stores ----

  datatype StoreOp = Started(span: nat) | Finished(span: nat, s: SpanData) | Configured(latencySize: nat, errorSize: nat)

  /** A span ends at its start plus the elapsed monotonic time, so never before it started. */
  predicate EndsAfterStart(s: SpanData) {
    s.start <= s.end
  }

  predicate Possible(op: StoreOp) {
    op.Finished? ==> EndsAfterStart(op.s)
  }

  function StoreStep(st: Store, op: StoreOp): Store
    requires |st.latency| == BUCKETS
  {
    match op
    case Started(span) => st.(active := st.active + {span})
    case Finished(span, s) => FinishedStep(st, span, s)
    case Configured(l, e) => StoreResizeStep(st, l, e)
  }

  function RunStore(latencySize: nat, errorSize: nat, ops: seq<StoreOp>): (st: Store)
    ensures |st.latency| == BUCKETS
  {
    if ops == [] then NewStore(latencySize, errorSize)
    else StoreStep(RunStore(latencySize, errorSize, ops[..|ops| - 1]), ops[|ops| - 1])
  }

  /** Every latency bucket holds only successful spans of its range, which ended after they
      started, every error bucket only spans of its code. */
  ghost predicate Sorted(st: Store) {
    && |st.latency| == BUCKETS
    && (forall i, s :: 0 <= i < BUCKETS && s in st.latency[i].contents ==>
                         s.code == 0 && EndsAfterStart(s) && InBucket(Clamped(s), i))
    && (forall c, s :: c in st.errors && s in st.errors[c].contents ==> s.code == c)
    && 0 !in st.errors
  }

  lemma NewestIsPart<T>(s: seq<T>, n: nat)
    ensures forall x :: x in Newest(s, n) ==> x in s
  {
  }

  lemma FinishedKeepsSorted(st: Store, span: nat, s: SpanData)
    requires Sorted(st) && EndsAfterStart(s)
    ensures Sorted(FinishedStep(st, span, s))
  {
    if s.code == 0 {
      var i := BucketOf(s);
      NewestIsPart(st.latency[i].contents + [s], st.latency[i].capacity);
    } else {
      var r := ErrorRing(st, s.code);
      NewestIsPart(r.contents + [s], r.capacity);
    }
  }

  lemma ResizeKeepsSorted(st: Store, l: nat, e: nat)
    requires Sorted(st)
    ensures Sorted(StoreResizeStep(st, l, e))
  {
    forall i | 0 <= i < BUCKETS ensures forall x :: x in Newest(st.latency[i].contents, l) ==> x in st.latency[i].contents {
      NewestIsPart(st.latency[i].contents, l);
    }
    forall c | c in st.errors ensures forall x :: x in Newest(st.errors[c].contents, e) ==> x in st.errors[c].contents {
      NewestIsPart(st.errors[c].contents, e);
    }
  }

  lemma StepKeepsSorted(st: Store, op: StoreOp)
    requires Sorted(st) && Possible(op)
    ensures Sorted(StoreStep(st, op))
  {
    match op
    case Started(_) =>
    case Finished(span, s) => FinishedKeepsSorted(st, span, s);
    case Configured(l, e) => ResizeKeepsSorted(st, l, e);
  }

  lemma {:induction false} RunsAreSorted(latencySize: nat, errorSize: nat, ops: seq<StoreOp>)
    requires forall op :: op in ops ==> Possible(op)
    ensures Sorted(RunStore(latencySize, errorSize, ops))
    decreases |ops|
  {
    if ops == [] {
    } else {
      assert ops[|ops| - 1] in ops;
      RunsAreSorted(latencySize, errorSize, ops[..|ops| - 1]);
      StepKeepsSorted(RunStore(latencySize, errorSize, ops[..|ops| - 1]), ops[|ops| - 1]);
    }
  }

  // ---- what a run leaves in each bucket ----

  /** What an operation means for the i-th latency bucket: a successful span of its range, a new size,
      or nothing. */
  function OpFor(i: nat, op: StoreOp): Option<Op>
    requires i < BUCKETS
  {
    match op
    case Started(_) => None
    case Finished(_, s) => if s.code == 0 && InBucket(Clamped(s), i) then Some(Op.Add(s)) else None
    case Configured(l, _) => Some(Op.Resize(l))
  }

  function OpsOf(i: nat, ops: seq<StoreOp>): seq<Op>
    requires i < BUCKETS
  {
    if ops == [] then [] else OpsOf(i, ops[..|ops| - 1]) + ToSeq(OpFor(i, ops[|ops| - 1]))
  }

  lemma RunOneMore(r: Ring, ops: seq<Op>, op: Option<Op>)
    ensures RunOps(r, ops + ToSeq(op)) == if op.Some? then Step(RunOps(r, ops), op.value) else RunOps(r, ops)
  {
    if op.Some? {
      assert (ops + [op.value])[..|ops|] == ops;
    } else {
      assert ops + [] == ops;
    }
  }

  lemma LatencyStep(st: Store, op: StoreOp, i: nat)
    requires |st.latency| == BUCKETS && i < BUCKETS
    ensures StoreStep(st, op).latency[i]
            == if OpFor(i, op).Some? then Step(st.latency[i], OpFor(i, op).value) else st.latency[i]
  {
    if op.Finished? && InBucket(Clamped(op.s), i) {
      BucketsPartition(Clamped(op.s), i, BucketOf(op.s));
    }
  }

  /** Every successful span goes through the bucket of its latency, and through no other. */
  lemma {:induction false} LatencyBucketsFollowTheRun(l: nat, e: nat, ops: seq<StoreOp>, i: nat)
    requires i < BUCKETS
    ensures RunStore(l, e, ops).latency[i] == RunOps(NewRing(l), OpsOf(i, ops))
    decreases |ops|
  {
    if ops == [] {
    } else {
      var before, op := ops[..|ops| - 1], ops[|ops| - 1];
      LatencyBucketsFollowTheRun(l, e, before, i);
      LatencyStep(RunStore(l, e, before), op, i);
      RunOneMore(NewRing(l), OpsOf(i, before), OpFor(i, op));
    }
  }

  /** The size for error buckets that the last configuration set, or the first one. */
  function LastErrorSize(e: nat, ops: seq<StoreOp>): nat {
    if ops == [] then e
    else if ops[|ops| - 1].Configured? then ops[|ops| - 1].errorSize else LastErrorSize(e, ops[..|ops| - 1])
  }

  /** A bucket of one error code: the size it was made with and what happened to it since. */
  datatype History = History(size: nat, ops: seq<Op>)

  /** None before the first span with the code. */
  function HistoryOf(c: int, e: nat, ops: seq<StoreOp>): Option<History> {
    if ops == [] then None
    else
      var before := HistoryOf(c, e, ops[..|ops| - 1]);
      match ops[|ops| - 1]
      case Started(_) => before
      case Finished(_, s) =>
        if s.code != c then before
        else
          var h := if before.Some? then before.value else History(LastErrorSize(e, ops[..|ops| - 1]), []);
          Some(History(h.size, h.ops + [Op.Add(s)]))
      case Configured(_, n) => if before.None? then None else Some(History(before.value.size, before.value.ops + [Op.Resize(n)]))
  }

  /** Every span with an error goes through the bucket of its code, which is made for the first one. */
  lemma {:induction false} ErrorBucketsFollowTheRun(l: nat, e: nat, ops: seq<StoreOp>, c: int)
    requires c != 0
    ensures var st, h := RunStore(l, e, ops), HistoryOf(c, e, ops);
            && st.errorCapacity == LastErrorSize(e, ops)
            && (c in st.errors <==> h.Some?)
            && (h.Some? ==> st.errors[c] == RunOps(NewRing(h.value.size), h.value.ops))
    decreases |ops|
  {
    if ops == [] {
    } else {
      var before, op := ops[..|ops| - 1], ops[|ops| - 1];
      ErrorBucketsFollowTheRun(l, e, before, c);
      var h := HistoryOf(c, e, before);
      var was := if h.Some? then h.value.ops else [];
      match op
      case Started(_) =>
      case Finished(_, s) => assert (was + [Op.Add(s)])[..|was|] == was;
      case Configured(_, n) => assert (was + [Op.Resize(n)])[..|was|] == was;
    }
  }

  /** Whether the last thing that happened to a span is that it started. */
  predicate IsRunning(span: nat, ops: seq<StoreOp>) {
    ops != [] &&
    match ops[|ops| - 1]
    case Started(x) => x == span || IsRunning(span, ops[..|ops| - 1])
    case Finished(x, _) => x != span && IsRunning(span, ops[..|ops| - 1])
    case Configured(_, _) => IsRunning(span, ops[..|ops| - 1])
  }

  /** The active spans are those that started and did not finish since. */
  lemma {:induction false} ActiveSpansAreRunning(l: nat, e: nat, ops: seq<StoreOp>, span: nat)
    ensures span in RunStore(l, e, ops).active <==> IsRunning(span, ops)
    decreases |ops|
  {
    if ops == [] {
    } else {
      ActiveSpansAreRunning(l, e, ops[..|ops| - 1], span);
    }
  }

  // ---- the latency report ----

  /** Whether the report wants a span; a zero maximum means no maximum. */
  predicate Wanted(s: SpanData, min: Duration, max: Duration) {
    var d := Sub(s.end, s.start);
    (min == 0 && max == 0) || (min <= d && (max == 0 || d <= max))
  }

  function Filter(s: seq<SpanData>, min: Duration, max: Duration): seq<SpanData> {
    if s == [] then []
    else Filter(s[..|s| - 1], min, max) + if Wanted(s[|s| - 1], min, max) then [s[|s| - 1]] else []
  }

  /** The bucket test with which the report skips whole buckets. */
  predicate Skips(i: nat, min: Duration, max: Duration)
    requires i < BUCKETS
  {
    var (lower, upper) := Bounds(i);
    (i + 1 != BUCKETS && upper <= min) || (max != 0 && max < lower)
  }

  /** What the report visits: the first `n` buckets, with the skipping. */
  function SkippingScan(latency: seq<Ring>, n: nat, min: Duration, max: Duration): seq<SpanData>
    requires n <= |latency| == BUCKETS
  {
    if n == 0 then []
    else SkippingScan(latency, n - 1, min, max)
         + if Skips(n - 1, min, max) then [] else Filter(latency[n - 1].contents, min, max)
  }

  /** All stored successful spans. */
  function AllStored(latency: seq<Ring>): seq<SpanData> {
    if latency == [] then [] else AllStored(latency[..|latency| - 1]) + latency[|latency| - 1].contents
  }

  lemma {:induction false} FilterConcat(a: seq<SpanData>, b: seq<SpanData>, min: Duration, max: Duration)
    ensures Filter(a + b, min, max) == Filter(a, min, max) + Filter(b, min, max)
    decreases |b|
  {
    if b == [] {
      assert a + b == a;
    } else {
      FilterConcat(a, b[..|b| - 1], min, max);
      assert (a + b)[..|a + b| - 1] == a + b[..|b| - 1];
    }
  }

  /** The filter keeps exactly what the report wants, as often as it is there. */
  lemma {:induction false} FilterCount(s: seq<SpanData>, x: SpanData, min: Duration, max: Duration)
    ensures multiset(Filter(s, min, max))[x] == if Wanted(x, min, max) then multiset(s)[x] else 0
  {
    if s == [] {
    } else {
      FilterCount(s[..|s| - 1], x, min, max);
      assert s == s[..|s| - 1] + [s[|s| - 1]];
    }
  }

  lemma {:induction false} FilterNothing(s: seq<SpanData>, min: Duration, max: Duration)
    requires forall x :: x in s ==> !Wanted(x, min, max)
    ensures Filter(s, min, max) == []
  {
    if s == [] {
    } else {
      assert s[|s| - 1] in s;
      FilterNothing(s[..|s| - 1], min, max);
    }
  }

  /** Skipping a bucket loses nothing, whatever the bounds. The clamp of the latency, which would
      set a span that ended before its start apart from its bucket, does nothing to these spans. */
  lemma SkippedHoldNothingWanted(s: SpanData, i: nat, min: Duration, max: Duration)
    requires i < BUCKETS && EndsAfterStart(s) && InBucket(Clamped(s), i) && Skips(i, min, max)
    ensures !Wanted(s, min, max)
  {
  }

  ghost predicate OfBucket(contents: seq<SpanData>, i: nat)
    requires i < BUCKETS
  {
    forall s :: s in contents ==> EndsAfterStart(s) && InBucket(Clamped(s), i)
  }

  lemma SkippedFiltersToNothing(contents: seq<SpanData>, i: nat, min: Duration, max: Duration)
    requires i < BUCKETS && OfBucket(contents, i)
    ensures (if Skips(i, min, max) then [] else Filter(contents, min, max)) == Filter(contents, min, max)
  {
    if Skips(i, min, max) {
      forall s | s in contents ensures !Wanted(s, min, max) {
        SkippedHoldNothingWanted(s, i, min, max);
      }
      FilterNothing(contents, min, max);
    }
  }

  lemma {:induction false} SkippingEqualsFullScan(latency: seq<Ring>, n: nat, min: Duration, max: Duration)
    requires n <= |latency| == BUCKETS
    requires forall i :: 0 <= i < n ==> OfBucket(latency[i].contents, i)
    ensures SkippingScan(latency, n, min, max) == Filter(AllStored(latency[..n]), min, max)
    decreases n
  {
    if n == 0 {
    } else {
      SkippingEqualsFullScan(latency, n - 1, min, max);
      var last := latency[n - 1].contents;
      assert latency[..n][..n - 1] == latency[..n - 1];
      FilterConcat(AllStored(latency[..n - 1]), last, min, max);
      SkippedFiltersToNothing(last, n - 1, min, max);
    }
  }

  function Report(st: Store, min: Duration, max: Duration): seq<SpanData>
    requires |st.latency| == BUCKETS
  {
    SkippingScan(st.latency, BUCKETS, min, max)
  }

  function FullScan(st: Store, min: Duration, max: Duration): seq<SpanData> {
    Filter(AllStored(st.latency), min, max)
  }

  lemma SortedReport(st: Store, min: Duration, max: Duration)
    requires Sorted(st)
    ensures Report(st, min, max) == FullScan(st, min, max)
  {
    SkippingEqualsFullScan(st.latency, BUCKETS, min, max);
    assert st.latency[..BUCKETS] == st.latency;
  }

  /** On every reachable store and for all bounds the report is the filtered scan of all stored
      spans. */
  lemma ReportIsFullScan(latencySize: nat, errorSize: nat, ops: seq<StoreOp>, min: Duration, max: Duration)
    requires forall op :: op in ops ==> Possible(op)
    ensures var st := RunStore(latencySize, errorSize, ops); Report(st, min, max) == FullScan(st, min, max)
  {
    RunsAreSorted(latencySize, errorSize, ops);
    SortedReport(RunStore(latencySize, errorSize, ops), min, max);
  }

  /** The bounds as they are documented: at least the minimum and, unless the maximum is zero, at most
      the maximum. */
  predicate Documented(x: SpanData, min: Duration, max: Duration) {
    min <= x.end - x.start && (max == 0 || x.end - x.start <= max)
  }

  lemma WantedIsDocumented(x: SpanData, min: Duration, max: Duration)
    requires EndsAfterStart(x) && x.end - x.start <= MAX_DURATION
    ensures Wanted(x, min, max) <==> Documented(x, min, max)
  {
  }

  lemma AbsentElsewhere(contents: seq<SpanData>, j: nat, x: SpanData, i: nat)
    requires j < BUCKETS && OfBucket(contents, j) && i < BUCKETS && InBucket(Clamped(x), i) && i != j
    ensures multiset(contents)[x] == 0
  {
    if x in contents {
      BucketsPartition(Clamped(x), i, j);
    }
  }

  lemma {:induction false} StoredOnlyInItsBucket(latency: seq<Ring>, n: nat, x: SpanData, i: nat)
    requires n <= |latency| == BUCKETS && i < BUCKETS && InBucket(Clamped(x), i)
    requires forall j :: 0 <= j < BUCKETS ==> OfBucket(latency[j].contents, j)
    ensures multiset(AllStored(latency[..n]))[x] == if i < n then multiset(latency[i].contents)[x] else 0
    decreases n
  {
    if n == 0 {
    } else {
      StoredOnlyInItsBucket(latency, n - 1, x, i);
      assert latency[..n][..n - 1] == latency[..n - 1];
      if n - 1 != i {
        AbsentElsewhere(latency[n - 1].contents, n - 1, x, i);
      }
    }
  }

  /** The report lists every stored successful span within the documented bounds, as often as the
      bucket of its latency holds it, and nothing else. */
  lemma ReportIsDocumented(st: Store, min: Duration, max: Duration, x: SpanData, i: nat)
    requires Sorted(st) && i < BUCKETS && InBucket(Clamped(x), i) && x.end - x.start <= MAX_DURATION
    ensures multiset(Report(st, min, max))[x] == if Documented(x, min, max) then multiset(st.latency[i].contents)[x] else 0
  {
    SortedReport(st, min, max);
    FilterCount(AllStored(st.latency), x, min, max);
    StoredOnlyInItsBucket(st.latency, BUCKETS, x, i);
    assert st.latency[..BUCKETS] == st.latency;
    if x in st.latency[i].contents {
      WantedIsDocumented(x, min, max);
    }
  }

  /** When `i` is the bucket of its latency, the span is listed as often as that bucket holds it if it
      is within the documented bounds, and not at all otherwise. */
  ghost predicate ListedRight(st: Store, out: seq<SpanData>, min: Duration, max: Duration, x: SpanData, i: nat)
    requires |st.latency| == BUCKETS
  {
    i < BUCKETS && InBucket(Clamped(x), i) && x.end - x.start <= MAX_DURATION ==>
      multiset(out)[x] == if Documented(x, min, max) then multiset(st.latency[i].contents)[x] else 0
  }

  ghost predicate AsDocumented(st: Store, out: seq<SpanData>, min: Duration, max: Duration)
    requires |st.latency| == BUCKETS
  {
    forall x, i: nat :: ListedRight(st, out, min, max, x, i)
  }

  lemma ReportsAsDocumented(st: Store, out: seq<SpanData>, min: Duration, max: Duration)
    requires Sorted(st) && multiset(out) == multiset(Report(st, min, max))
    ensures AsDocumented(st, out, min, max)
  {
    forall x, i: nat
      ensures ListedRight(st, out, min, max, x, i)
    {
      if i < BUCKETS && InBucket(Clamped(x), i) && x.end - x.start <= MAX_DURATION {
        ReportIsDocumented(st, min, max, x, i);
      }
    }
  }

  // ---- the error report ----

  /** The spans of the error buckets visited in the order `codes`. */
  function Gather(errors: map<int, Ring>, codes: seq<int>): seq<SpanData>
    requires forall c :: c in codes ==> c in errors
  {
    if codes == [] then []
    else
      var c := codes[|codes| - 1];
      assert c in codes;
      Gather(errors, codes[..|codes| - 1]) + errors[c].contents
  }

  ghost predicate Enumerates<V>(order: seq<int>, errors: map<int, V>) {
    && (forall c :: c in order <==> c in errors)
    && (forall i, j :: 0 <= i < j < |order| ==> order[i] != order[j])
  }

  function OnlyCode(s: seq<SpanData>, code: int): seq<SpanData> {
    if s == [] then []
    else OnlyCode(s[..|s| - 1], code) + if code == 0 || s[|s| - 1].code == code then [s[|s| - 1]] else []
  }

  lemma {:induction false} OnlyCodeConcat(a: seq<SpanData>, b: seq<SpanData>, code: int)
    ensures OnlyCode(a + b, code) == OnlyCode(a, code) + OnlyCode(b, code)
    decreases |b|
  {
    if b == [] {
      assert a + b == a;
    } else {
      OnlyCodeConcat(a, b[..|b| - 1], code);
      assert (a + b)[..|a + b| - 1] == a + b[..|b| - 1];
    }
  }

  lemma {:induction false} OnlyCodeUniform(s: seq<SpanData>, code: int, c: int)
    requires forall x :: x in s ==> x.code == c
    ensures OnlyCode(s, code) == if code == 0 || code == c then s else []
  {
    if s == [] {
    } else {
      assert s[|s| - 1] in s;
      OnlyCodeUniform(s[..|s| - 1], code, c);
      assert s == s[..|s| - 1] + [s[|s| - 1]];
    }
  }

  /** Looking only into the bucket of the wanted code finds what filtering every error span, in
      any iteration order of the map, finds. */
  lemma {:induction false} ErrorReportIsFullScan(st: Store, order: seq<int>, code: int)
    requires Sorted(st)
    requires forall c :: c in order ==> c in st.errors
    requires forall i, j :: 0 <= i < j < |order| ==> order[i] != order[j]
    ensures OnlyCode(Gather(st.errors, order), code)
            == Gather(st.errors, if code == 0 then order else if code in order then [code] else [])
    decreases |order|
  {
    if order == [] {
    } else {
      var c, before := order[|order| - 1], order[..|order| - 1];
      assert c in order && order == before + [c];
      ErrorReportIsFullScan(st, before, code);
      OnlyCodeConcat(Gather(st.errors, before), st.errors[c].contents, code);
      OnlyCodeUniform(st.errors[c].contents, code, c);
      assert [c][..0] == [] && Gather(st.errors, [c]) == [] + st.errors[c].contents;
    }
  }

  /** How often the error report lists a span, from the bucket of its code alone. */
  function Reported(st: Store, code: int, x: SpanData): nat {
    if x.code in st.errors && (code == 0 || x.code == code) then multiset(st.errors[x.code].contents)[x] else 0
  }

  lemma {:induction false} GatherCount(st: Store, codes: seq<int>, x: SpanData)
    requires Sorted(st) && forall c :: c in codes ==> c in st.errors
    requires forall i, j :: 0 <= i < j < |codes| ==> codes[i] != codes[j]
    ensures multiset(Gather(st.errors, codes))[x] == if x.code in codes then multiset(st.errors[x.code].contents)[x] else 0
    decreases |codes|
  {
    if codes == [] {
    } else {
      var c, before := codes[|codes| - 1], codes[..|codes| - 1];
      assert c in codes && codes == before + [c];
      GatherCount(st, before, x);
      assert x in st.errors[c].contents ==> x.code == c;
      assert x.code == c ==> x.code !in before;
    }
  }

  /** A visit of the wanted buckets reports every stored span as often as it is stored. */
  lemma VisitReports(st: Store, codes: seq<int>, code: int, out: seq<SpanData>)
    requires (forall c :: c in codes ==> c in st.errors) && multiset(out) == multiset(Gather(st.errors, codes))
    requires code == 0 ==> Enumerates(codes, st.errors)
    requires code != 0 ==> codes == if code in st.errors then [code] else []
    ensures Sorted(st) ==> forall x :: multiset(out)[x] == Reported(st, code, x)
  {
    if Sorted(st) {
      forall x ensures multiset(out)[x] == Reported(st, code, x) {
        GatherCount(st, codes, x);
      }
    }
  }

  lemma NonEmpty(s: set<int>)
    ensures s == {} || exists c :: c in s
  {
    if forall c :: c !in s {
      assert s == {};
    }
  }

  // ---- the object ----

  /** Which field of the store a bucket hangs from. */
  datatype Slot = ByLatency(i: nat) | ByCode(c: int)

  class SpanStore {
    var active: set<nat>
    var latency: seq<Bucket>
    var errors: map<int, Bucket>
    var maxSpansPerErrorBucket: nat

    /** The value of the store, and the slot that owns each bucket and each buffer. */
    ghost var state: Store
    ghost var owner: map<object, Slot>

    ghost predicate Owned(b: Bucket, slot: Slot, r: Ring)
      reads this, owner.Keys
    {
      b in owner && owner[b] == slot && b.buffer in owner && owner[b.buffer] == slot && b.Valid() && b.ring == r
    }

    /** The buckets stand for the rings of the value, and no two slots share anything. */
    ghost predicate Shape()
      reads this, owner.Keys
    {
      && state.active == active && state.errorCapacity == maxSpansPerErrorBucket
      && |latency| == |state.latency| == BUCKETS && errors.Keys == state.errors.Keys
      && (forall i :: 0 <= i < BUCKETS ==> Owned(latency[i], ByLatency(i), state.latency[i]))
      && (forall c :: c in errors ==> Owned(errors[c], ByCode(c), state.errors[c]))
    }

    ghost predicate Valid()
      reads this, owner.Keys
    {
      Shape() && Sorted(state)
    }

    constructor (latencyBucketSize: nat, errorBucketSize: nat)
      ensures Valid() && fresh(owner.Keys) && state == NewStore(latencyBucketSize, errorBucketSize)
    {
      active, latency, errors, maxSpansPerErrorBucket := {}, [], map[], errorBucketSize;
      state, owner := NewStore(latencyBucketSize, errorBucketSize), map[];
      new;
      while |latency| < BUCKETS
        invariant |latency| <= BUCKETS && fresh(owner.Keys)
        invariant errors == map[] && active == {} && maxSpansPerErrorBucket == errorBucketSize
        invariant state == NewStore(latencyBucketSize, errorBucketSize)
        invariant forall i :: 0 <= i < |latency| ==> Owned(latency[i], ByLatency(i), NewRing(latencyBucketSize))
      {
        var b := new Bucket(latencyBucketSize);
        owner := owner[b := ByLatency(|latency|)][b.buffer := ByLatency(|latency|)];
        latency := latency + [b];
        assert Owned(latency[|latency| - 1], ByLatency(|latency| - 1), NewRing(latencyBucketSize));
      }
    }

    method Add(span: nat)
      requires Valid()
      modifies `active, `state
      ensures Valid() && state == StoreStep(old(state), Started(span))
    {
      StepKeepsSorted(state, Started(span));
      Activate(span);
    }

    method Activate(span: nat)
      requires Shape()
      modifies `active, `state
      ensures Shape() && state == old(state).(active := old(state).active + {span})
    {
      active := active + {span};
      state := state.(active := active);
    }

    method Forget(span: nat)
      requires Shape()
      modifies `active, `state
      ensures Shape() && state == old(state).(active := old(state).active - {span})
    {
      active := active - {span};
      state := state.(active := active);
    }

    method AddToLatency(i: nat, s: SpanData)
      requires Shape() && i < BUCKETS
      modifies `state, owner.Keys
      ensures Shape() && owner == old(owner)
      ensures state == old(state).(latency := old(state).latency[i := AddStep(old(state).latency[i], s)])
    {
      latency[i].Add(s);
      state := state.(latency := state.latency[i := latency[i].ring]);
      forall k | k in errors ensures Owned(errors[k], ByCode(k), state.errors[k]) {
        assert old(Owned(errors[k], ByCode(k), state.errors[k]));
      }
      forall j | 0 <= j < BUCKETS && j != i ensures Owned(latency[j], ByLatency(j), state.latency[j]) {
        assert old(Owned(latency[j], ByLatency(j), state.latency[j]));
      }
    }

    method AddToError(c: int, s: SpanData)
      requires Shape() && c in errors
      modifies `state, owner.Keys
      ensures Shape() && owner == old(owner)
      ensures state == old(state).(errors := old(state).errors[c := AddStep(old(state).errors[c], s)])
    {
      errors[c].Add(s);
      state := state.(errors := state.errors[c := errors[c].ring]);
      forall k | k in errors && k != c ensures Owned(errors[k], ByCode(k), state.errors[k]) {
        assert old(Owned(errors[k], ByCode(k), state.errors[k]));
      }
      forall j | 0 <= j < BUCKETS ensures Owned(latency[j], ByLatency(j), state.latency[j]) {
        assert old(Owned(latency[j], ByLatency(j), state.latency[j]));
      }
    }

    method Adopt(c: int, b: Bucket)
      requires Shape() && c !in errors
      requires b.Valid() && b !in owner && b.buffer !in owner && b.ring == NewRing(maxSpansPerErrorBucket)
      modifies `state, `owner, `errors
      ensures Shape() && errors == old(errors)[c := b] && owner.Keys == old(owner.Keys) + {b, b.buffer}
      ensures state == old(state).(errors := old(state).errors[c := NewRing(old(state).errorCapacity)])
    {
      owner, errors := owner[b := ByCode(c)][b.buffer := ByCode(c)], errors[c := b];
      state := state.(errors := state.errors[c := b.ring]);
      forall k | k in errors && k != c ensures Owned(errors[k], ByCode(k), state.errors[k]) {
        assert old(Owned(errors[k], ByCode(k), state.errors[k]));
      }
      forall j | 0 <= j < BUCKETS ensures Owned(latency[j], ByLatency(j), state.latency[j]) {
        assert old(Owned(latency[j], ByLatency(j), state.latency[j]));
      }
    }

    method MakeError(c: int)
      requires Shape() && c !in errors
      modifies `state, `owner, `errors
      ensures Shape() && c in errors && (forall o :: o in owner && o !in old(owner) ==> fresh(o))
      ensures state == old(state).(errors := old(state).errors[c := NewRing(old(state).errorCapacity)])
    {
      var b := new Bucket(maxSpansPerErrorBucket);
      Adopt(c, b);
    }

    /** The rest of finished for a span without an error. */
    method Succeeded(s: SpanData)
      requires Shape() && s.code == 0
      modifies `state, owner.Keys
      ensures Shape() && owner == old(owner)
      ensures state == old(state).(latency := old(state).latency[BucketOf(s) := AddStep(old(state).latency[BucketOf(s)], s)])
    {
      var i := LatencyBucket(Clamped(s));
      BucketsPartition(Clamped(s), i, BucketOf(s));
      AddToLatency(i, s);
    }

    /** And for a span with one. */
    method FailedWith(s: SpanData)
      requires Shape() && s.code != 0
      modifies `state, `owner, `errors, owner.Keys
      ensures Shape() && (forall o :: o in owner && o !in old(owner) ==> fresh(o))
      ensures state == old(state).(errors := old(state).errors[s.code := AddStep(ErrorRing(old(state), s.code), s)])
    {
      if s.code !in errors {
        MakeError(s.code);
      }
      AddToError(s.code, s);
    }

    method Finished(span: nat, s: SpanData)
      requires Valid() && EndsAfterStart(s)
      modifies this, owner.Keys
      ensures Valid() && (forall o :: o in owner && o !in old(owner) ==> fresh(o))
      ensures state == StoreStep(old(state), StoreOp.Finished(span, s))
    {
      StepKeepsSorted(state, StoreOp.Finished(span, s));
      Forget(span);
      if s.code == 0 {
        Succeeded(s);
      } else {
        FailedWith(s);
      }
    }

    method ResizeLatency(i: nat, n: nat)
      requires Shape() && i < BUCKETS
      modifies `state, `owner, owner.Keys
      ensures Shape() && (forall o :: o in owner && o !in old(owner) ==> fresh(o))
      ensures state == old(state).(latency := old(state).latency[i := ResizeStep(old(state).latency[i], n)])
    {
      latency[i].Resize(n);
      owner, state := owner[latency[i].buffer := ByLatency(i)], state.(latency := state.latency[i := ResizeStep(state.latency[i], n)]);
      forall k | k in errors ensures Owned(errors[k], ByCode(k), state.errors[k]) {
        assert old(Owned(errors[k], ByCode(k), state.errors[k]));
      }
      forall j | 0 <= j < BUCKETS && j != i ensures Owned(latency[j], ByLatency(j), state.latency[j]) {
        assert old(Owned(latency[j], ByLatency(j), state.latency[j]));
      }
    }

    method ResizeError(c: int, n: nat)
      requires Shape() && c in errors
      modifies `state, `owner, owner.Keys
      ensures Shape() && (forall o :: o in owner && o !in old(owner) ==> fresh(o))
      ensures state == old(state).(errors := old(state).errors[c := ResizeStep(old(state).errors[c], n)])
    {
      errors[c].Resize(n);
      owner, state := owner[errors[c].buffer := ByCode(c)], state.(errors := state.errors[c := ResizeStep(state.errors[c], n)]);
      forall k | k in errors && k != c ensures Owned(errors[k], ByCode(k), state.errors[k]) {
        assert old(Owned(errors[k], ByCode(k), state.errors[k]));
      }
      forall j | 0 <= j < BUCKETS ensures Owned(latency[j], ByLatency(j), state.latency[j]) {
        assert old(Owned(latency[j], ByLatency(j), state.latency[j]));
      }
    }

    method ResizeLatencies(n: nat)
      requires Shape()
      modifies `state, `owner, owner.Keys
      ensures Shape() && (forall o :: o in owner && o !in old(owner) ==> fresh(o))
      ensures state == old(state).(latency := ResizedLatencies(old(state), n))
    {
      ghost var was := state;
      var i := 0;
      while i < BUCKETS
        invariant i <= BUCKETS && Shape() && (forall o :: o in owner && o !in old(owner) ==> fresh(o))
        invariant state == LatenciesUpTo(was, n, i)
      {
        LatenciesOneMore(was, n, i);
        ResizeLatency(i, n);
        i := i + 1;
      }
      LatenciesEnd(was, n);
    }

    method ResizeErrors(n: nat)
      requires Shape()
      modifies `state, `owner, owner.Keys
      ensures Shape() && (forall o :: o in owner && o !in old(owner) ==> fresh(o))
      ensures state == old(state).(errors := ResizedErrors(old(state), n))
    {
      ghost var was := state;
      var todo := errors.Keys;
      ResizedExceptEnds(was, n);
      while todo != {}
        invariant Shape() && (forall o :: o in owner && o !in old(owner) ==> fresh(o)) && todo <= errors.Keys
        invariant state == ErrorsExcept(was, n, todo)
        decreases |todo|
      {
        todo := ResizeOneError(n, was, todo);
      }
    }

    method ResizeOneError(n: nat, ghost was: Store, todo: set<int>) returns (rest: set<int>)
      requires Shape() && todo != {} && todo <= errors.Keys && state == ErrorsExcept(was, n, todo)
      modifies `state, `owner, owner.Keys
      ensures Shape() && (forall o :: o in owner && o !in old(owner) ==> fresh(o))
      ensures rest <= todo && |rest| < |todo| && state == ErrorsExcept(was, n, rest)
    {
      NonEmpty(todo);
      var c :| c in todo;
      ErrorsExceptOneLess(was, state, n, todo, c);
      ResizeError(c, n);
      rest := todo - {c};
    }

    method Resize(latencyBucketSize: nat, errorBucketSize: nat)
      requires Valid()
      modifies this, owner.Keys
      ensures Valid() && (forall o :: o in owner && o !in old(owner) ==> fresh(o))
      ensures state == StoreStep(old(state), Configured(latencyBucketSize, errorBucketSize))
    {
      StepKeepsSorted(state, Configured(latencyBucketSize, errorBucketSize));
      ResizeLatencies(latencyBucketSize);
      ResizeErrors(errorBucketSize);
      SetErrorCapacity(errorBucketSize);
    }

    method SetErrorCapacity(n: nat)
      requires Shape()
      modifies `maxSpansPerErrorBucket, `state
      ensures Shape() && state == old(state).(errorCapacity := n)
    {
      maxSpansPerErrorBucket := n;
      state := state.(errorCapacity := n);
    }

    /** The entry that ConfigureBucketSizes makes for one store. */
    method Configure(maxRequestsSucceeded: int, maxRequestsErrors: int)
      requires Valid()
      modifies this, owner.Keys
      ensures Valid() && (forall o :: o in owner && o !in old(owner) ==> fresh(o))
      ensures state == StoreStep(old(state), Configured(ClampSize(maxRequestsSucceeded), ClampSize(maxRequestsErrors)))
    {
      var l, e := maxRequestsSucceeded, maxRequestsErrors;
      if l < 0 {
        l := 0;
      }
      if l > MAX_BUCKET_SIZE {
        l := MAX_BUCKET_SIZE;
      }
      if e < 0 {
        e := 0;
      }
      if e > MAX_BUCKET_SIZE {
        e := MAX_BUCKET_SIZE;
      }
      Resize(l, e);
    }

    /** ReportSpansByLatency: skips whole buckets and leaves a buffer at its first empty slot. */
    method ReportSpansByLatency(min: Duration, max: Duration) returns (out: seq<SpanData>)
      requires Valid()
      ensures multiset(out) == multiset(Report(state, min, max)) == multiset(FullScan(state, min, max))
      ensures AsDocumented(state, out, min, max)
    {
      SortedReport(state, min, max);
      out := ScanBuckets(min, max);
      ReportsAsDocumented(state, out, min, max);
    }

    method ScanBuckets(min: Duration, max: Duration) returns (out: seq<SpanData>)
      requires Shape()
      ensures multiset(out) == multiset(Report(state, min, max))
    {
      out := [];
      var i := 0;
      while i < BUCKETS
        invariant i <= BUCKETS
        invariant multiset(out) == multiset(SkippingScan(state.latency, i, min, max))
      {
        var (lower, upper) := Bounds(i);
        if !((i + 1 != BUCKETS && upper <= min) || (max != 0 && max < lower)) {
          var found := ScanBuffer(latency[i].buffer, min, max);
          FilterStored(latency[i].buffer[..], latency[i].nextIndex, latency[i].overflow, min, max);
          out := out + found;
        }
        i := i + 1;
      }
    }

    /** The filled part of one error bucket. */
    method ReadError(c: int) returns (out: seq<SpanData>)
      requires Shape() && c in errors
      ensures multiset(out) == multiset(state.errors[c].contents)
    {
      out := ScanBuffer(errors[c].buffer, 0, 0);
      FilterStored(errors[c].buffer[..], errors[c].nextIndex, errors[c].overflow, 0, 0);
      NoBoundsWantAll(state.errors[c].contents);
    }

    /** ReportSpansByError: with code 0 it reports the spans of every code. */
    method ReportSpansByError(code: int) returns (out: seq<SpanData>)
      requires Valid()
      ensures forall x :: multiset(out)[x] == Reported(state, code, x)
    {
      ghost var codes;
      out, codes := VisitErrors(code);
      VisitReports(state, codes, code, out);
    }

    /** `codes` is the order in which the buckets are visited. */
    method VisitErrors(code: int) returns (out: seq<SpanData>, ghost codes: seq<int>)
      requires Shape()
      ensures code == 0 ==> Enumerates(codes, errors)
      ensures code != 0 ==> codes == if code in errors then [code] else []
      ensures (forall c :: c in codes ==> c in errors) && multiset(out) == multiset(Gather(state.errors, codes))
    {
      out, codes := [], [];
      if code != 0 {
        if code in errors {
          out := ReadError(code);
          codes := [code];
          assert codes[..0] == [] && Gather(state.errors, codes) == [] + state.errors[code].contents;
        }
        return;
      }
      var todo := errors.Keys;
      while todo != {}
        invariant todo <= errors.Keys
        invariant forall c :: c in codes <==> c in errors && c !in todo
        invariant forall i, j :: 0 <= i < j < |codes| ==> codes[i] != codes[j]
        invariant multiset(out) == multiset(Gather(state.errors, codes))
        decreases |todo|
      {
        NonEmpty(todo);
        var c :| c in todo;
        var found := ReadError(c);
        assert (codes + [c])[..|codes|] == codes;
        out, codes, todo := out + found, codes + [c], todo - {c};
      }
    }
  }

  lemma {:induction false} NoBoundsWantAll(s: seq<SpanData>)
    ensures Filter(s, 0, 0) == s
  {
    if s == [] {
    } else {
      NoBoundsWantAll(s[..|s| - 1]);
      assert s == s[..|s| - 1] + [s[|s| - 1]];
    }
  }

  /** The filled slots before the first empty one. */
  function FilledPrefix(slots: seq<Option<SpanData>>): (out: seq<SpanData>)
    ensures |out| <= |slots|
  {
    if slots == [] || slots[0].None? then [] else [slots[0].value] + FilledPrefix(slots[1..])
  }

  lemma {:induction false} FilledPrefixIs(slots: seq<Option<SpanData>>, kept: seq<SpanData>)
    requires |kept| <= |slots| && (|kept| < |slots| ==> slots[|kept|].None?)
    requires forall i :: 0 <= i < |kept| ==> slots[i] == Some(kept[i])
    ensures FilledPrefix(slots) == kept
    decreases |slots|
  {
    if kept == [] {
    } else {
      FilledPrefixIs(slots[1..], kept[1..]);
    }
  }

  /** In a well-formed bucket stopping at the first empty slot misses nothing, and the order in
      the buffer is a rotation of the order of the spans. */
  lemma FilterStored(slots: seq<Option<SpanData>>, nextIndex: nat, overflow: bool, min: Duration, max: Duration)
    requires WellFormed(slots, nextIndex, overflow)
    ensures multiset(Filter(FilledPrefix(slots), min, max)) == multiset(Filter(Stored(slots, nextIndex, overflow), min, max))
  {
    if overflow {
      var hi, lo := Values(slots[nextIndex..]), Values(slots[..nextIndex]);
      FilledPrefixIs(slots, lo + hi);
      assert Stored(slots, nextIndex, overflow) == hi + lo;
      FilterConcat(lo, hi, min, max);
      FilterConcat(hi, lo, min, max);
    } else {
      FilledPrefixIs(slots, Stored(slots, nextIndex, overflow));
    }
  }

  method ScanBuffer(buffer: array<Option<SpanData>>, min: Duration, max: Duration) returns (out: seq<SpanData>)
    ensures out == Filter(FilledPrefix(buffer[..]), min, max)
  {
    out := [];
    var i := 0;
    ghost var slots := buffer[..];
    ghost var all := FilledPrefix(slots);
    FilledPrefixSlots(slots);
    while i < buffer.Length
      invariant i <= |all|
      invariant out == Filter(all[..i], min, max)
    {
      if buffer[i].None? {
        assert all[..i] == all;
        return;
      }
      assert i < |all| && buffer[i] == Some(all[i]);
      var s := buffer[i].value;
      assert all[..i + 1][..i] == all[..i];
      i := i + 1;
      if min != 0 || max != 0 {
        var d := Sub(s.end, s.start);
        if d < min {
          continue;
        }
        if max != 0 && d > max {
          continue;
        }
      }
      out := out + [s];
    }
    assert all[..i] == all;
  }

  lemma {:induction false} FilledPrefixSlots(slots: seq<Option<SpanData>>)
    ensures forall i :: 0 <= i < |FilledPrefix(slots)| ==> slots[i] == Some(FilledPrefix(slots)[i])
    ensures |FilledPrefix(slots)| < |slots| ==> slots[|FilledPrefix(slots)|].None?
  {
    if slots != [] && slots[0].Some? {
      FilledPrefixSlots(slots[1..]);
    }
  }
}
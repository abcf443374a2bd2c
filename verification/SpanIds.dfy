/**
  The span identifier generator of trace/trace.go: a 64-bit counter that is advanced by an
  increment whose lowest bit was forced to one, skipping the value zero.
*/
module SpanIds {
  import opened Powers

  const M: nat := 0x1_0000_0000_0000_0000

  type U64 = x: int | 0 <= x < M

  /** atomic.AddUint64: addition that wraps around. */
  function Add64(x: U64, y: U64): U64 {
    (x + y) % M
  }

  /** `gen.spanIDInc |= 1` */
  function ForceOdd(x: U64): (inc: U64)
    ensures inc % 2 == 1 && inc / 2 == x / 2
  {
    if x % 2 == 1 then x else x + 1
  }

  /** The counter after n additions. */
  function Counter(start: U64, inc: U64, n: nat): U64 {
    (start + n * inc) % M
  }

  lemma CounterStep(start: U64, inc: U64, n: nat)
    ensures Counter(start, inc, n + 1) == Add64(Counter(start, inc, n), inc)
  {
    assert (n + 1) * inc == n * inc + inc;
  }

  // ---- powers of two and odd factors ----

  lemma Pow2Is64()
    ensures Pow(2, 64) == M
  {
    assert Pow(2, 8) == 0x100;
    assert Pow(2, 16) == 0x1_0000;
    assert Pow(2, 24) == 0x100_0000;
    assert Pow(2, 32) == 0x1_0000_0000;
    assert Pow(2, 40) == 0x100_0000_0000;
    assert Pow(2, 48) == 0x1_0000_0000_0000;
    assert Pow(2, 56) == 0x100_0000_0000_0000;
  }

  ghost predicate Divides(m: int, x: int)
    requires m > 0
  {
    exists q :: x == q * m
  }

  lemma OddProduct(a: int, b: int)
    ensures ((2 * a + 1) * (2 * b + 1)) % 2 == 1
  {
    assert (2 * a + 1) * (2 * b + 1) == 2 * (2 * a * b + a + b) + 1;
  }

  lemma OddTimes(d: int, inc: int)
    requires inc % 2 == 1 && (d * inc) % 2 == 0
    ensures d % 2 == 0
  {
    if d % 2 == 1 {
      OddProduct(d / 2, inc / 2);
    }
  }

  lemma HalveBoth(h: int, inc: int, q: int, p: int)
    requires (2 * h) * inc == q * (2 * p)
    ensures h * inc == q * p
  {
    assert (2 * h) * inc == 2 * (h * inc);
    assert q * (2 * p) == 2 * (q * p);
  }

  lemma IsEvenProduct(x: int, q: int, p: int)
    requires x == q * (2 * p)
    ensures x % 2 == 0
  {
    assert q * (2 * p) == 2 * (q * p);
  }

  lemma TwiceProduct(h: int, r: int, p: int)
    requires h == r * p
    ensures 2 * h == r * (2 * p)
  {
    assert r * (2 * p) == 2 * (r * p);
  }

  /** A power of two that divides a product with an odd factor divides the other factor. */
  lemma {:induction false} OddFactorCancels(k: nat, d: int, inc: int, q: int) returns (r: int)
    requires inc % 2 == 1 && d * inc == q * Pow(2, k)
    ensures d == r * Pow(2, k)
    decreases k
  {
    if k == 0 {
      r := d;
    } else {
      var h, p := d / 2, Pow(2, k - 1);
      IsEvenProduct(d * inc, q, p);
      OddTimes(d, inc);
      HalveBoth(h, inc, q, p);
      r := OddFactorCancels(k - 1, h, inc, q);
      TwiceProduct(h, r, p);
    }
  }

  lemma AddMultiple(n: int, inc: int, target: int, q: int, p: int)
    requires n * inc - target == q * p
    ensures (n + p) * inc - target == (q + inc) * p
  {
    assert (n + p) * inc == n * inc + p * inc;
    assert (q + inc) * p == q * p + inc * p;
  }

  /** Every residue is a multiple of an odd increment. */
  lemma {:induction false} OddReachesAll(k: nat, inc: int, target: int) returns (n: nat, q: int)
    requires inc % 2 == 1
    ensures n < Pow(2, k) && n * inc - target == q * Pow(2, k)
    decreases k
  {
    if k == 0 {
      n, q := 0, -target;
    } else {
      n, q := OddReachesAll(k - 1, inc, target);
      var p := Pow(2, k - 1);
      if q % 2 == 1 {
        AddMultiple(n, inc, target, q, p);
        n, q := n + p, q + inc;
      }
      TwiceProduct2(q, p);
      q := q / 2;
    }
  }

  lemma TwiceProduct2(q: int, p: int)
    requires q % 2 == 0
    ensures q * p == (q / 2) * (2 * p)
  {
    var h := q / 2;
    assert q == 2 * h;
    assert (2 * h) * p == h * (2 * p);
  }

  lemma DividesIsMod(x: int, y: int)
    ensures Divides(M, x - y) <==> x % M == y % M
  {
    if x % M == y % M {
      assert x - y == (x / M - y / M) * M;
    }
    if Divides(M, x - y) {
      var q :| x - y == q * M;
      assert x == y + q * M;
      ModShift(y, q);
    }
  }

  lemma ModShift(y: int, q: int)
    ensures (y + q * M) % M == y % M
  {
  }

  /** With an odd increment two counters agree exactly when their distance is a multiple of 2^64. */
  lemma CounterRepeats(start: U64, inc: U64, i: nat, j: nat)
    requires inc % 2 == 1 && i <= j
    ensures Counter(start, inc, i) == Counter(start, inc, j) <==> Divides(M, j - i)
  {
    var x, y := start + j * inc, start + i * inc;
    assert x - y == (j - i) * inc;
    DividesIsMod(x, y);
    OddFactorIsFree(j - i, inc);
  }

  lemma OddFactorIsFree(d: int, inc: int)
    requires inc % 2 == 1
    ensures Divides(M, d * inc) <==> Divides(M, d)
  {
    if Divides(M, d * inc) {
      var q :| d * inc == q * M;
      Pow2Is64();
      var r := OddFactorCancels(64, d, inc, q);
      assert d == r * M;
    }
    if Divides(M, d) {
      var q :| d == q * M;
      assert d * inc == (q * inc) * M;
    }
  }

  lemma MultipleIsFar(q: int)
    requires q != 0
    ensures q * M + M <= 0 || q * M >= M
  {
  }

  lemma NoSmallMultiple(d: nat)
    requires Divides(M, d) && d < M
    ensures d == 0
  {
    var q :| d == q * M;
    if q != 0 {
      MultipleIsFar(q);
    }
  }

  /** Any 2^64 consecutive additions produce every 64-bit value exactly once, whichever goroutines
      perform them. */
  lemma FullPeriod(start: U64, inc: U64, from: nat, v: U64)
    requires inc % 2 == 1
    ensures exists n :: from < n <= from + M && Counter(start, inc, n) == v
    ensures forall i, j :: from < i < j <= from + M ==> Counter(start, inc, i) != Counter(start, inc, j)
  {
    var n := CounterReaches(start, inc, from, v);
    forall i, j | from < i < j <= from + M
      ensures Counter(start, inc, i) != Counter(start, inc, j)
    {
      CounterRepeats(start, inc, i, j);
      if Divides(M, j - i) {
        NoSmallMultiple(j - i);
      }
    }
  }

  lemma CounterReaches(start: U64, inc: U64, from: nat, v: U64) returns (n: nat)
    requires inc % 2 == 1
    ensures from < n <= from + M && Counter(start, inc, n) == v
  {
    var base := start + (from + 1) * inc;
    var k, q := MultipleReaches(inc, (v - base % M) % M);
    n := from + 1 + k;
    ProductOfSum(from + 1, k, inc);
    ReachesFrom(base, k * inc, q, v);
  }

  lemma MultipleReaches(inc: U64, target: U64) returns (k: nat, q: int)
    requires inc % 2 == 1
    ensures k < M && k * inc - target == q * M
  {
    Pow2Is64();
    k, q := OddReachesAll(64, inc, target);
  }

  lemma ProductOfSum(a: nat, b: nat, inc: nat)
    ensures (a + b) * inc == a * inc + b * inc
  {
  }

  lemma ReachesFrom(base: nat, step: nat, q: int, v: U64)
    requires step - (v - base % M) % M == q * M
    ensures (base + step) % M == v
  {
    DividesIsMod(step, (v - base % M) % M);
    assert Divides(M, step - (v - base % M) % M);
    SumMod(base, step, v);
  }

  lemma SumMod(a: nat, b: nat, v: U64)
    requires b % M == (v - a % M) % M
    ensures (a + b) % M == v
  {
    var x := (v - a % M);
    assert b == b / M * M + x % M && x == x / M * M + x % M;
    assert a + b == v + (a / M + b / M - x / M) * M;
    ModShift(v, a / M + b / M - x / M);
  }

  // ---- the eight bytes of an identifier ----

  /** binary.LittleEndian.PutUint64 */
  function LittleEndian(x: nat, n: nat): (b: seq<nat>)
    ensures |b| == n
  {
    if n == 0 then [] else [x % 256] + LittleEndian(x / 256, n - 1)
  }

  /** The number that bytes stand for when the least significant one comes first. */
  function FromLittleEndian(b: seq<nat>): nat {
    if b == [] then 0 else FromLittleEndian(b[..|b| - 1]) + b[|b| - 1] * Pow(256, |b| - 1)
  }

  /** The bytes stand for the identifier, and each is a byte. */
  lemma {:induction false} BytesStandForTheId(x: nat, n: nat)
    requires x < Pow(256, n)
    ensures FromLittleEndian(LittleEndian(x, n)) == x
    ensures forall i :: 0 <= i < n ==> LittleEndian(x, n)[i] < 256
  {
    if n == 0 {
    } else {
      assert x / 256 < Pow(256, n - 1);
      BytesStandForTheId(x / 256, n - 1);
      FirstByte(x % 256, LittleEndian(x / 256, n - 1));
    }
  }

  lemma {:induction false} FirstByte(low: nat, rest: seq<nat>)
    ensures FromLittleEndian([low] + rest) == low + 256 * FromLittleEndian(rest)
    decreases |rest|
  {
    if rest == [] {
      assert [low][..0] == [] && FromLittleEndian([low] + rest) == FromLittleEndian([]) + low * Pow(256, 0);
    } else {
      var n := |rest| - 1;
      FirstByte(low, rest[..n]);
      assert ([low] + rest)[..n + 1] == [low] + rest[..n];
      TimesNext(rest[n], Pow(256, n));
    }
  }

  lemma TimesNext(b: nat, p: nat)
    ensures b * (256 * p) == 256 * (b * p)
  {
  }

  /** Distinct identifiers have distinct bytes. */
  lemma {:induction false} BytesTellIdsApart(x: nat, y: nat, n: nat)
    requires x < Pow(2, 8 * n) && y < Pow(2, 8 * n)
    requires LittleEndian(x, n) == LittleEndian(y, n)
    ensures x == y
    decreases n
  {
    if n == 0 {
    } else {
      assert LittleEndian(x, n)[0] == LittleEndian(y, n)[0];
      assert LittleEndian(x, n)[1..] == LittleEndian(x / 256, n - 1);
      assert LittleEndian(y, n)[1..] == LittleEndian(y / 256, n - 1);
      Pow2By8(n);
      BytesTellIdsApart(x / 256, y / 256, n - 1);
    }
  }

  lemma {:induction false} Pow2Sum(a: nat, b: nat)
    ensures Pow(2, a + b) == Pow(2, a) * Pow(2, b)
  {
    if a == 0 {
    } else {
      Pow2Sum(a - 1, b);
      assert Pow(2, a + b) == 2 * Pow(2, a - 1 + b);
    }
  }

  lemma Pow2By8(n: nat)
    requires n > 0
    ensures Pow(2, 8 * n) == 256 * Pow(2, 8 * (n - 1))
  {
    assert Pow(2, 8) == 256;
    Pow2Sum(8, 8 * (n - 1));
  }

  // ---- NewSpanID ----

  /** The counter when a call returns; the identifier is that same value. */
  function NextId(state: U64, inc: U64): U64 {
    var id := Add64(state, inc);
    if id == 0 then Add64(0, inc) else id
  }

  class IdGenerator {
    var nextSpanID: U64
    var spanIDInc: U64

    ghost predicate Valid()
      reads this
    {
      spanIDInc % 2 == 1
    }

    constructor (seed: U64, increment: U64)
      ensures Valid() && nextSpanID == seed && spanIDInc == ForceOdd(increment)
    {
      nextSpanID := seed;
      spanIDInc := ForceOdd(increment);
    }

    /** `rounds` counts the additions of this call, with no other call in between. */
    method NewSpanID() returns (id: U64, ghost rounds: nat)
      requires Valid()
      modifies `nextSpanID
      ensures id != 0 && id == nextSpanID == NextId(old(nextSpanID), spanIDInc)
      ensures 1 <= rounds <= 2 && nextSpanID == Counter(old(nextSpanID), spanIDInc, rounds)
      ensures rounds == 2 <==> Add64(old(nextSpanID), spanIDInc) == 0
    {
      id, rounds := 0, 0;
      while id == 0
        invariant rounds <= 2 && nextSpanID == Counter(old(nextSpanID), spanIDInc, rounds)
        invariant rounds == 0 ==> id == 0
        invariant rounds == 1 ==> id == nextSpanID == Add64(old(nextSpanID), spanIDInc)
        invariant rounds == 2 ==> Add64(old(nextSpanID), spanIDInc) == 0 && id == nextSpanID == spanIDInc
        decreases 2 - rounds
      {
        CounterStep(old(nextSpanID), spanIDInc, rounds);
        nextSpanID := Add64(nextSpanID, spanIDInc);
        id := nextSpanID;
        rounds := rounds + 1;
      }
    }
  }

  /** The n-th identifier of a run, and how many additions it took to get there. */
  function IdAt(start: U64, inc: U64, n: nat): U64 {
    if n == 0 then start else NextId(IdAt(start, inc, n - 1), inc)
  }

  function Additions(start: U64, inc: U64, n: nat): nat {
    if n == 0 then 0
    else Additions(start, inc, n - 1) + if Add64(IdAt(start, inc, n - 1), inc) == 0 then 2 else 1
  }

  lemma {:induction false} IdIsCounter(start: U64, inc: U64, n: nat)
    ensures IdAt(start, inc, n) == Counter(start, inc, Additions(start, inc, n))
    ensures n <= Additions(start, inc, n)
  {
    if n == 0 {
    } else {
      IdIsCounter(start, inc, n - 1);
      CounterStep(start, inc, Additions(start, inc, n - 1));
      CounterStep(start, inc, Additions(start, inc, n - 1) + 1);
    }
  }

  /** Where a zero was skipped, the counter stood at zero one addition earlier. */
  lemma {:induction false} OneSkip(start: U64, inc: U64, n: nat)
    requires inc % 2 == 1 && n < M
    ensures Additions(start, inc, n) <= n + 1
    ensures Additions(start, inc, n) == n + 1 ==>
              exists z :: 0 < z < Additions(start, inc, n) && Counter(start, inc, z) == 0
    decreases n
  {
    if n == 0 {
    } else {
      OneSkip(start, inc, n - 1);
      IdIsCounter(start, inc, n - 1);
      var a := Additions(start, inc, n - 1);
      CounterStep(start, inc, a);
      if Add64(IdAt(start, inc, n - 1), inc) == 0 {
        assert Counter(start, inc, a + 1) == 0;
        if a == n {
          var z :| 0 < z < a && Counter(start, inc, z) == 0;
          CounterRepeats(start, inc, z, a + 1);
          NoSmallMultiple(a + 1 - z);
        }
      }
    }
  }

  lemma {:induction false} AdditionsGrow(start: U64, inc: U64, i: nat, j: nat)
    requires i < j
    ensures Additions(start, inc, i) < Additions(start, inc, j)
    decreases j
  {
    if i < j - 1 {
      AdditionsGrow(start, inc, i, j - 1);
    }
  }

  /** Any 2^64 - 1 consecutive identifiers are non-zero and pairwise distinct, as numbers and as
      the eight bytes NewSpanID returns. */
  lemma IdsAreDistinct(start: U64, inc: U64, i: nat, j: nat)
    requires inc % 2 == 1 && 0 < i < j < M
    ensures IdAt(start, inc, i) != 0
    ensures IdAt(start, inc, i) != IdAt(start, inc, j)
    ensures LittleEndian(IdAt(start, inc, i), 8) != LittleEndian(IdAt(start, inc, j), 8)
  {
    Pow2Is64();
    IdIsCounter(start, inc, i);
    IdIsCounter(start, inc, j);
    AdditionsGrow(start, inc, i, j);
    OneSkip(start, inc, j);
    if IdAt(start, inc, i) == IdAt(start, inc, j) {
      var d := Additions(start, inc, j) - Additions(start, inc, i);
      CounterRepeats(start, inc, Additions(start, inc, i), Additions(start, inc, j));
      NoSmallMultiple(d);
    }
    if LittleEndian(IdAt(start, inc, i), 8) == LittleEndian(IdAt(start, inc, j), 8) {
      BytesTellIdsApart(IdAt(start, inc, i), IdAt(start, inc, j), 8);
    }
  }

  // ---- calls of several goroutines ----

  /** A call of NewSpanID: how many additions all goroutines had made when it began, and how many
      rounds of its loop it has finished. */
  datatype Pending = Pending(since: nat, rounds: nat)

  /** The counter, the calls that are running, the identifiers in the order of the additions that
      produced them, the calls that returned them, at their end, and the number of additions. */
  datatype Generator = Generator(next: U64, calls: map<nat, Pending>, ids: seq<U64>, log: seq<Finished>, adds: nat)

  /** How many rounds a call took and how many additions all goroutines made while it ran. */
  datatype Finished = Finished(rounds: nat, during: nat)

  datatype Step = Call(tid: nat) | Add(tid: nat)

  predicate Enabled(g: Generator, s: Step) {
    if s.Call? then s.tid !in g.calls else s.tid in g.calls
  }

  /** An addition is atomic; a goroutine that gets zero stays in its loop. */
  function Apply(g: Generator, inc: U64, s: Step): Generator
    requires Enabled(g, s)
  {
    match s
    case Call(tid) => g.(calls := g.calls[tid := Pending(g.adds, 0)])
    case Add(tid) =>
      var x := Add64(g.next, inc);
      var c := g.calls[tid];
      if x == 0 then g.(next := x, calls := g.calls[tid := Pending(c.since, c.rounds + 1)], adds := g.adds + 1)
      else
        var rounds, during := c.rounds + 1, Distance(c.since, g.adds + 1);
        Generator(x, g.calls - {tid}, g.ids + [x], g.log + [Finished(rounds, during)], g.adds + 1)
  }

  function Distance(from: nat, to: nat): nat {
    if from <= to then to - from else 0
  }

  ghost predicate Run(start: Generator, inc: U64, steps: seq<Step>, end: Generator)
    decreases |steps|
  {
    if steps == [] then start == end
    else Enabled(start, steps[0]) && Run(Apply(start, inc, steps[0]), inc, steps[1..], end)
  }

  function New(seed: U64): Generator {
    Generator(seed, map[], [], [], 0)
  }

  /** The counter stands at the last identifier, or at the zero that follows it. */
  ghost predicate Inv(g: Generator, seed: U64, inc: U64) {
    && g.next == Counter(seed, inc, g.adds)
    && |g.log| == |g.ids| && (forall i :: 0 <= i < |g.ids| ==> g.ids[i] == IdAt(seed, inc, i + 1))
    && (g.next == IdAt(seed, inc, |g.ids|) || (g.next == 0 && Add64(IdAt(seed, inc, |g.ids|), inc) == 0))
  }

  ghost predicate ZeroBetween(seed: U64, inc: U64, since: nat, adds: nat) {
    exists z :: since < z <= adds && Counter(seed, inc, z) == 0
  }

  /** Every finished round of a running call met a zero, and there is one such round at most while
      no more than 2^64 additions were made since the call began. */
  ghost predicate Patient(c: Pending, seed: U64, inc: U64, adds: nat) {
    && c.since <= adds
    && (c.rounds > 0 ==> ZeroBetween(seed, inc, c.since, adds))
    && (adds - c.since <= M ==> c.rounds <= 1)
  }

  ghost predicate FewRounds(g: Generator, seed: U64, inc: U64) {
    && (forall t :: t in g.calls ==> Patient(g.calls[t], seed, inc, g.adds))
    && (forall i :: 0 <= i < |g.log| && g.log[i].during <= M ==> g.log[i].rounds <= 2)
  }

  lemma StepKeepsInv(g: Generator, seed: U64, inc: U64, s: Step)
    requires inc % 2 == 1 && Inv(g, seed, inc) && Enabled(g, s)
    ensures Inv(Apply(g, inc, s), seed, inc)
  {
    CounterStep(seed, inc, g.adds);
    assert IdAt(seed, inc, |g.ids| + 1) == NextId(IdAt(seed, inc, |g.ids|), inc);
  }

  /** Additions of other goroutines do not hurt, and a second zero is 2^64 additions away. */
  lemma StaysPatient(c: Pending, seed: U64, inc: U64, adds: nat)
    requires inc % 2 == 1 && Patient(c, seed, inc, adds)
    ensures Patient(c, seed, inc, adds + 1)
    ensures Counter(seed, inc, adds + 1) == 0 ==> Patient(Pending(c.since, c.rounds + 1), seed, inc, adds + 1)
  {
    if c.rounds > 0 {
      var z :| c.since < z <= adds && Counter(seed, inc, z) == 0;
      assert z <= adds + 1;
      CounterRepeats(seed, inc, z, adds + 1);
      if adds + 1 - z < M && Divides(M, adds + 1 - z) {
        NoSmallMultiple(adds + 1 - z);
      }
    }
    assert Counter(seed, inc, adds + 1) == 0 ==> ZeroBetween(seed, inc, c.since, adds + 1);
  }

  lemma StepKeepsFewRounds(g: Generator, seed: U64, inc: U64, s: Step)
    requires inc % 2 == 1 && Inv(g, seed, inc) && FewRounds(g, seed, inc) && Enabled(g, s)
    ensures FewRounds(Apply(g, inc, s), seed, inc)
  {
    if s.Add? {
      StepKeepsInv(g, seed, inc, s);
      forall t | t in g.calls
        ensures Patient(g.calls[t], seed, inc, g.adds + 1)
        ensures Counter(seed, inc, g.adds + 1) == 0 ==>
                  Patient(Pending(g.calls[t].since, g.calls[t].rounds + 1), seed, inc, g.adds + 1)
      {
        StaysPatient(g.calls[t], seed, inc, g.adds);
      }
    }
  }

  lemma {:induction false} RunKeepsInv(g: Generator, seed: U64, inc: U64, steps: seq<Step>, end: Generator)
    requires inc % 2 == 1 && Inv(g, seed, inc) && FewRounds(g, seed, inc) && Run(g, inc, steps, end)
    ensures Inv(end, seed, inc) && FewRounds(end, seed, inc)
    decreases |steps|
  {
    if steps == [] {
      assert g == end;
    } else {
      StepKeepsInv(g, seed, inc, steps[0]);
      StepKeepsFewRounds(g, seed, inc, steps[0]);
      RunKeepsInv(Apply(g, inc, steps[0]), seed, inc, steps[1..], end);
    }
  }

  lemma {:induction false} IdAtShift(seed: U64, inc: U64, w: nat, n: nat)
    ensures IdAt(IdAt(seed, inc, w), inc, n) == IdAt(seed, inc, w + n)
  {
    if n == 0 {
      assert IdAt(IdAt(seed, inc, w), inc, 0) == IdAt(seed, inc, w);
    } else {
      IdAtShift(seed, inc, w, n - 1);
    }
  }

  /** However the goroutines interleave, the identifiers are the same sequence, any 2^64 - 1
      consecutive ones are non-zero and pairwise distinct, and no call, returned or running, goes
      round its loop more than twice while at most 2^64 additions are made. */
  lemma InterleavedIds(seed: U64, inc: U64, steps: seq<Step>, end: Generator)
    requires inc % 2 == 1 && Run(New(seed), inc, steps, end)
    ensures forall i :: 0 <= i < |end.ids| ==> end.ids[i] == IdAt(seed, inc, i + 1)
    ensures forall i :: 0 <= i < |end.ids| ==> end.ids[i] != 0
    ensures forall i, j :: 0 <= i < j < |end.ids| && j - i < M - 1 ==> end.ids[i] != end.ids[j]
    ensures |end.log| == |end.ids| && forall i :: 0 <= i < |end.log| && end.log[i].during <= M ==> end.log[i].rounds <= 2
    ensures forall t :: t in end.calls && end.adds - end.calls[t].since <= M ==> end.calls[t].rounds <= 1
  {
    assert Counter(seed, inc, 0) == seed;
    RunKeepsInv(New(seed), seed, inc, steps, end);
    forall i | 0 <= i < |end.ids|
      ensures end.ids[i] != 0
    {
      AnyWindow(seed, inc, i, 1);
    }
    forall i, j | 0 <= i < j < |end.ids| && j - i < M - 1
      ensures end.ids[i] != end.ids[j]
    {
      AnyWindow(seed, inc, i, j - i);
    }
  }

  /** The additions of a run, and those of one goroutine. */
  function Adds(steps: seq<Step>): nat {
    if steps == [] then 0 else (if steps[0].Add? then 1 else 0) + Adds(steps[1..])
  }

  function AddsOf(tid: nat, steps: seq<Step>): nat {
    if steps == [] then 0 else (if steps[0] == Add(tid) then 1 else 0) + AddsOf(tid, steps[1..])
  }

  /** Every step of a goroutine is one addition, which yields an identifier unless it meets zero. */
  lemma {:induction false} AddsAreCounted(g: Generator, inc: U64, steps: seq<Step>, end: Generator)
    requires Run(g, inc, steps, end)
    ensures end.adds == g.adds + Adds(steps)
    decreases |steps|
  {
    if steps == [] {
    } else {
      AddsAreCounted(Apply(g, inc, steps[0]), inc, steps[1..], end);
    }
  }

  lemma {:induction false} CallGoesOn(g: Generator, inc: U64, steps: seq<Step>, end: Generator, tid: nat)
    requires Run(g, inc, steps, end) && tid in end.calls && Call(tid) !in steps
    ensures tid in g.calls && end.calls[tid] == Pending(g.calls[tid].since, g.calls[tid].rounds + AddsOf(tid, steps))
    decreases |steps|
  {
    if steps == [] {
    } else {
      CallGoesOn(Apply(g, inc, steps[0]), inc, steps[1..], end, tid);
    }
  }

  /** A goroutine that runs no call may begin one. It then adds, and returns the sum unless that is zero;
      the rounds are its own additions, and the call lasts for those of all goroutines. */
  lemma CallIsCounted(g: Generator, inc: U64, tid: nat, steps: seq<Step>, end: Generator)
    requires tid !in g.calls
    ensures Enabled(g, Call(tid))
    ensures Run(Apply(g, inc, Call(tid)), inc, steps, end) && Call(tid) !in steps && tid in end.calls ==>
              && Enabled(end, Add(tid))
              && var x, after := Add64(end.next, inc), Apply(end, inc, Add(tid));
                 && (tid in after.calls <==> x == 0)
                 && (x != 0 ==> after.ids == end.ids + [x]
                                && after.log == end.log + [Finished(AddsOf(tid, steps) + 1, Adds(steps) + 1)])
  {
    var called := Apply(g, inc, Call(tid));
    if Run(called, inc, steps, end) && Call(tid) !in steps && tid in end.calls {
      CallGoesOn(called, inc, steps, end, tid);
      AddsAreCounted(called, inc, steps, end);
    }
  }

  lemma AnyWindow(seed: U64, inc: U64, i: nat, d: nat)
    requires inc % 2 == 1 && 0 < d < M - 1
    ensures IdAt(seed, inc, i + 1) != 0
    ensures IdAt(seed, inc, i + 1) != IdAt(seed, inc, i + d + 1)
  {
    IdAtShift(seed, inc, i, 1);
    IdAtShift(seed, inc, i, d + 1);
    IdsAreDistinct(IdAt(seed, inc, i), inc, 1, d + 1);
  }

  /** Forcing the lowest bit is what buys the period: an even increment repeats after 2^63. */
  lemma EvenIncrementRepeats(start: U64, inc: U64, n: nat)
    requires inc % 2 == 0
    ensures Counter(start, inc, n + 0x8000_0000_0000_0000) == Counter(start, inc, n)
  {
    var h := inc / 2;
    assert (n + 0x8000_0000_0000_0000) * inc == n * inc + h * M by {
      assert 0x8000_0000_0000_0000 * inc == h * M;
    }
    ModShift(start + n * inc, h);
  }
}

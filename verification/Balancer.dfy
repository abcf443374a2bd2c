/**
  The round-robin balancer of grpc/balancer.go. Every section that runs under the mutex is one
  atomic step. `Balancer` is the value of the fields, the class `RoundRobin` updates them in
  place and is proved to take the steps the functions on `Balancer` describe, and `Protocol`
  adds the goroutines that sleep inside Get.
*/
module RoundRobinBalancer {
  import opened Wrappers
  import opened Search

  datatype Address = Address(addr: string, metadata: string)

  datatype AddrInfo = AddrInfo(addr: Address, connected: bool)

  datatype Update = Add(addr: Address) | Delete(addr: Address) | Unknown(addr: Address)

  /** Channels are numbered in the order in which they are made. */
  type ChanId = nat

  /** `addrCh` is the one-slot notification channel: None when it was never made. */
  datatype Balancer = Balancer(
    addrs: seq<AddrInfo>,
    next: nat,
    waitCh: Option<ChanId>,
    done: bool,
    addrCh: Option<Option<seq<Address>>>,
    made: nat,
    closed: set<ChanId>)

  datatype Resolver = NoResolver | Working | Failing

  datatype Outcome = Got(addr: Address) | Closing | Unavailable | Sleep(ch: ChanId)

  const EMPTY := Balancer([], 0, None, false, None, 0, {})

  // ---- connected addresses in list order and in cyclic order ----

  /** The connected positions in [lo, hi), ascending. */
  function UpIn(addrs: seq<AddrInfo>, lo: nat, hi: nat): seq<nat>
    requires lo <= hi <= |addrs|
    decreases hi - lo
  {
    if lo == hi then []
    else if addrs[lo].connected then [lo] + UpIn(addrs, lo + 1, hi)
    else UpIn(addrs, lo + 1, hi)
  }

  /** The connected positions in the order in which a scan starting at `start` meets them. */
  function Cycle(addrs: seq<AddrInfo>, start: nat): seq<nat>
    requires start <= |addrs|
  {
    UpIn(addrs, start, |addrs|) + UpIn(addrs, 0, start)
  }

  lemma {:induction false} UpInMembers(addrs: seq<AddrInfo>, lo: nat, hi: nat)
    requires lo <= hi <= |addrs|
    ensures forall u :: u in UpIn(addrs, lo, hi) <==> lo <= u < hi && addrs[u].connected
    decreases hi - lo
  {
    if lo == hi {
    } else {
      UpInMembers(addrs, lo + 1, hi);
    }
  }

  lemma CycleMembers(addrs: seq<AddrInfo>, start: nat)
    requires start <= |addrs|
    ensures forall u :: u in Cycle(addrs, start) <==> 0 <= u < |addrs| && addrs[u].connected
  {
    UpInMembers(addrs, start, |addrs|);
    UpInMembers(addrs, 0, start);
  }

  lemma {:induction false} UpInSplit(addrs: seq<AddrInfo>, lo: nat, mid: nat, hi: nat)
    requires lo <= mid <= hi <= |addrs|
    ensures UpIn(addrs, lo, hi) == UpIn(addrs, lo, mid) + UpIn(addrs, mid, hi)
    decreases mid - lo
  {
    if lo == mid {
    } else {
      UpInSplit(addrs, lo + 1, mid, hi);
    }
  }

  /** Ascending order, hence no position twice. */
  lemma {:induction false} UpInAscends(addrs: seq<AddrInfo>, lo: nat, hi: nat, x: nat, y: nat)
    requires lo <= hi <= |addrs| && x < y < |UpIn(addrs, lo, hi)|
    ensures UpIn(addrs, lo, hi)[x] < UpIn(addrs, lo, hi)[y]
    decreases hi - lo
  {
    var rest := UpIn(addrs, lo + 1, hi);
    if !addrs[lo].connected {
      UpInAscends(addrs, lo + 1, hi, x, y);
    } else if x == 0 {
      UpInMembers(addrs, lo + 1, hi);
      assert rest[y - 1] in rest;
    } else {
      UpInAscends(addrs, lo + 1, hi, x - 1, y - 1);
    }
  }

  lemma {:induction false} HeadOfUpIn(addrs: seq<AddrInfo>, lo: nat, hi: nat) returns (i: nat)
    requires lo <= hi <= |addrs| && UpIn(addrs, lo, hi) != []
    ensures lo <= i < hi && addrs[i].connected
    ensures UpIn(addrs, lo, hi) == [i] + UpIn(addrs, i + 1, hi)
    ensures UpIn(addrs, lo, i + 1) == [i]
    decreases hi - lo
  {
    if addrs[lo].connected {
      i := lo;
      assert UpIn(addrs, lo + 1, lo + 1) == [];
    } else {
      i := HeadOfUpIn(addrs, lo + 1, hi);
    }
  }

  lemma HeadToTail<T>(x: T, after: seq<T>, before: seq<T>)
    ensures ([x] + after + before)[1..] + [x] == after + (before + [x])
  {
  }

  lemma NextModulo(i: nat, n: nat)
    requires i < n
    ensures (i + 1) % n == if i + 1 == n then 0 else i + 1
  {
  }

  /** The position at the head of the cycle goes to its tail when the cursor moves past it. */
  lemma CycleRotates(addrs: seq<AddrInfo>, start: nat) returns (i: nat)
    requires start <= |addrs| && Cycle(addrs, start) != []
    ensures i < |addrs| && addrs[i].connected && i == Cycle(addrs, start)[0]
    ensures Cycle(addrs, (i + 1) % |addrs|) == Cycle(addrs, start)[1..] + [i]
  {
    var n := |addrs|;
    var high, low := UpIn(addrs, start, n), UpIn(addrs, 0, start);
    if high != [] {
      i := HeadOfUpIn(addrs, start, n);
      assert UpIn(addrs, 0, i + 1) == low + [i] by { UpInSplit(addrs, 0, start, i + 1); }
      HeadToTail(i, UpIn(addrs, i + 1, n), low);
    } else {
      i := HeadOfUpIn(addrs, 0, start);
      assert UpIn(addrs, i + 1, n) == UpIn(addrs, i + 1, start) by { UpInSplit(addrs, i + 1, start, n); }
      HeadToTail(i, UpIn(addrs, i + 1, n), []);
      assert Cycle(addrs, start) == [i] + UpIn(addrs, i + 1, n) + [];
    }
    NextModulo(i, n);
    assert Cycle(addrs, n) == Cycle(addrs, 0);
  }

  // ---- what each locked section does to the fields ----

  function AddrsOf(addrs: seq<AddrInfo>): (out: seq<Address>)
    ensures |out| == |addrs| && forall i :: 0 <= i < |addrs| ==> out[i] == addrs[i].addr
  {
    seq(|addrs|, i requires 0 <= i < |addrs| => addrs[i].addr)
  }

  /** The position of the first entry for `a`, or the length when there is none. */
  function Find(addrs: seq<AddrInfo>, a: Address): (i: nat)
    ensures i <= |addrs| && (i < |addrs| ==> addrs[i].addr == a)
    ensures forall j :: 0 <= j < i ==> addrs[j].addr != a
  {
    IndexOf(addrs, (x: AddrInfo) => x.addr == a)
  }

  function UpdateOne(addrs: seq<AddrInfo>, u: Update): seq<AddrInfo> {
    var i := Find(addrs, u.addr);
    match u
    case Add(a) => if i < |addrs| then addrs else addrs + [AddrInfo(a, false)]
    case Delete(_) => if i < |addrs| then addrs[..i] + addrs[i + 1..] else addrs
    case Unknown(_) => addrs
  }

  function UpdateAll(addrs: seq<AddrInfo>, us: seq<Update>): seq<AddrInfo> {
    if us == [] then addrs else UpdateOne(UpdateAll(addrs, us[..|us| - 1]), us[|us| - 1])
  }

  function UpdatesStep(b: Balancer, us: seq<Update>): Balancer {
    var addrs := UpdateAll(b.addrs, us);
    if b.done || b.addrCh.None? then b.(addrs := addrs)
    else b.(addrs := addrs, addrCh := Some(Some(AddrsOf(addrs))))
  }

  /** Start with a resolver makes the notification channel, without one it adds the target. */
  function StartStep(b: Balancer, target: Address, resolver: Resolver): Balancer {
    if b.done || resolver.Failing? then b
    else if resolver.Working? then b.(addrCh := Some(None))
    else b.(addrs := b.addrs + [AddrInfo(target, false)])
  }

  /** The first entry for `a` that is already connected, where Up gives up. */
  function FindUp(addrs: seq<AddrInfo>, a: Address): (i: nat)
    ensures i <= |addrs| && (i < |addrs| ==> addrs[i] == AddrInfo(a, true))
    ensures forall j :: 0 <= j < i ==> addrs[j] != AddrInfo(a, true)
  {
    IndexOf(addrs, (x: AddrInfo) => x == AddrInfo(a, true))
  }

  /** The list after Up connected the entries for `a` among the first `k`. */
  function Mark(addrs: seq<AddrInfo>, a: Address, k: nat): (out: seq<AddrInfo>)
    requires k <= |addrs|
    ensures |out| == |addrs|
    ensures forall i :: 0 <= i < |addrs| ==>
                          out[i] == if i < k && addrs[i].addr == a then AddrInfo(a, true) else addrs[i]
  {
    seq(|addrs|, i requires 0 <= i < |addrs| =>
      if i < k && addrs[i].addr == a then AddrInfo(a, true) else addrs[i])
  }

  function Wake(b: Balancer): Balancer {
    match b.waitCh
    case None => b
    case Some(ch) => b.(waitCh := None, closed := b.closed + {ch})
  }

  function UpStep(b: Balancer, a: Address): Balancer {
    var stop := FindUp(b.addrs, a);
    var b' := b.(addrs := Mark(b.addrs, a, stop));
    if stop == |b.addrs| && |UpIn(b'.addrs, 0, |b'.addrs|)| == 1 then Wake(b') else b'
  }

  function DownStep(b: Balancer, a: Address): Balancer {
    var i := Find(b.addrs, a);
    if i < |b.addrs| then b.(addrs := b.addrs[i := AddrInfo(a, false)]) else b
  }

  /** Where a scan begins: a cursor left past the end goes back to the first address. */
  function StartOf(b: Balancer): (start: nat)
    ensures start <= |b.addrs| && (b.addrs != [] ==> start < |b.addrs|)
  {
    if b.next >= |b.addrs| then 0 else b.next
  }

  function CycleOf(b: Balancer): (c: seq<nat>)
    ensures forall u :: u in c <==> 0 <= u < |b.addrs| && b.addrs[u].connected
  {
    CycleMembers(b.addrs, StartOf(b));
    Cycle(b.addrs, StartOf(b))
  }

  /** The scan at the heart of Get: the cursor is brought back into range and moved past the
      first connected address it meets. */
  function ScanStep(b: Balancer): (Balancer, Option<Address>) {
    var c := CycleOf(b);
    if b.addrs == [] then (b, None)
    else if c == [] then (b.(next := StartOf(b)), None)
    else
      assert c[0] in c;
      (b.(next := (c[0] + 1) % |b.addrs|), Some(b.addrs[c[0]].addr))
  }

  function SleepStep(b: Balancer): (Balancer, Outcome) {
    match b.waitCh
    case Some(ch) => (b, Sleep(ch))
    case None => (b.(waitCh := Some(b.made), made := b.made + 1), Sleep(b.made))
  }

  /** The first locked section of Get. */
  function GetStep(b: Balancer, blocking: bool): (Balancer, Outcome) {
    if b.done then (b, Closing) else
    var (b', found) := ScanStep(b);
    if found.Some? then (b', Got(found.value))
    else if blocking then SleepStep(b')
    else if b'.addrs == [] then (b', Unavailable)
    else (b'.(next := b'.next + 1), Got(b'.addrs[b'.next].addr))
  }

  /** The locked section that runs after the wait channel was found closed. */
  function WakeStep(b: Balancer): (Balancer, Outcome) {
    if b.done then (b, Closing) else
    var (b', found) := ScanStep(b);
    if found.Some? then (b', Got(found.value)) else SleepStep(b')
  }

  function CloseStep(b: Balancer): Balancer {
    if b.done then b else Wake(b.(done := true))
  }

  // ---- rotation fairness ----

  /** The outcomes of consecutive Get calls, one for each BlockingWait flag. */
  function Gets(b: Balancer, flags: seq<bool>): (outs: seq<Outcome>)
    ensures |outs| == |flags|
    decreases |flags|
  {
    if flags == [] then []
    else
      var (b', out) := GetStep(b, flags[0]);
      [out] + Gets(b', flags[1..])
  }

  lemma GetAdvances(b: Balancer, blocking: bool)
    requires !b.done && CycleOf(b) != []
    ensures var c := CycleOf(b); var (b', out) := GetStep(b, blocking);
            && c[0] in c && out == Got(b.addrs[c[0]].addr)
            && b' == b.(next := b'.next) && CycleOf(b') == c[1..] + [c[0]]
  {
    var i := CycleRotates(b.addrs, StartOf(b));
  }

  /** The j-th of consecutive Gets answers the j-th address of the cycle that starts at the
      cursor, whatever the cursor and the flags. */
  lemma {:induction false} GetsFollowTheCycle(b: Balancer, flags: seq<bool>, j: nat)
    requires !b.done && j < |flags| && j < |CycleOf(b)|
    ensures var c := CycleOf(b);
            c[j] in c && Gets(b, flags)[j] == Got(b.addrs[c[j]].addr)
    decreases j
  {
    GetAdvances(b, flags[0]);
    if j > 0 {
      GetsFollowTheCycle(GetStep(b, flags[0]).0, flags[1..], j - 1);
    }
  }

  ghost predicate Distinct(addrs: seq<AddrInfo>) {
    forall i, j :: 0 <= i < j < |addrs| ==> addrs[i].addr != addrs[j].addr
  }

  function Connected(addrs: seq<AddrInfo>): nat {
    |UpIn(addrs, 0, |addrs|)|
  }

  lemma CycleOnce(b: Balancer, x: nat, y: nat)
    requires x < y < |CycleOf(b)|
    ensures CycleOf(b)[x] != CycleOf(b)[y]
  {
    var n, start := |b.addrs|, StartOf(b);
    var hi, lo := UpIn(b.addrs, start, n), UpIn(b.addrs, 0, start);
    if y < |hi| {
      UpInAscends(b.addrs, start, n, x, y);
    } else if x >= |hi| {
      UpInAscends(b.addrs, 0, start, x - |hi|, y - |hi|);
    } else {
      UpInMembers(b.addrs, start, n);
      UpInMembers(b.addrs, 0, start);
      assert hi[x] in hi && lo[y - |hi|] in lo;
    }
  }

  /** Any k consecutive Gets serve each of the k connected addresses exactly once. */
  lemma RotationIsFair(b: Balancer, flags: seq<bool>)
    requires !b.done && Distinct(b.addrs)
    requires |flags| == Connected(b.addrs)
    ensures forall i :: 0 <= i < |b.addrs| && b.addrs[i].connected ==> Got(b.addrs[i].addr) in Gets(b, flags)
    ensures forall j, j' :: 0 <= j < j' < |flags| ==> Gets(b, flags)[j] != Gets(b, flags)[j']
  {
    var c := CycleOf(b);
    UpInSplit(b.addrs, 0, StartOf(b), |b.addrs|);
    forall j | 0 <= j < |flags|
      ensures c[j] in c && Gets(b, flags)[j] == Got(b.addrs[c[j]].addr)
    {
      GetsFollowTheCycle(b, flags, j);
    }
    forall i | 0 <= i < |b.addrs| && b.addrs[i].connected
      ensures Got(b.addrs[i].addr) in Gets(b, flags)
    {
      assert i in c;
      var j :| 0 <= j < |c| && c[j] == i;
      assert Gets(b, flags)[j] == Got(b.addrs[i].addr);
    }
    forall j, j' | 0 <= j < j' < |flags|
      ensures Gets(b, flags)[j] != Gets(b, flags)[j']
    {
      CycleOnce(b, j, j');
    }
  }

  // ---- what the steps mean for the addresses ----

  ghost predicate IsUp(addrs: seq<AddrInfo>, x: Address) {
    AddrInfo(x, true) in addrs
  }

  ghost predicate AllDown(b: Balancer) {
    forall i :: 0 <= i < |b.addrs| ==> !b.addrs[i].connected
  }

  /** Exactly one address is connected. */
  ghost predicate OneUp(addrs: seq<AddrInfo>) {
    (exists x :: IsUp(addrs, x)) && forall x, y :: IsUp(addrs, x) && IsUp(addrs, y) ==> x == y
  }

  /** Down disconnects its address and nothing else. */
  lemma DownDisconnects(b: Balancer, a: Address)
    requires Distinct(b.addrs)
    ensures var d := DownStep(b, a);
            && d == b.(addrs := d.addrs) && AddrsOf(d.addrs) == AddrsOf(b.addrs)
            && forall x :: IsUp(d.addrs, x) <==> IsUp(b.addrs, x) && x != a
  {
    var i := Find(b.addrs, a);
    var d := DownStep(b, a);
    if i < |b.addrs| {
      assert forall k :: 0 <= k < |b.addrs| && k != i ==> d.addrs[k] == b.addrs[k] && b.addrs[k].addr != a;
      forall x | IsUp(b.addrs, x) && x != a ensures IsUp(d.addrs, x) {
        var k :| 0 <= k < |b.addrs| && b.addrs[k] == AddrInfo(x, true);
        assert d.addrs[k] == AddrInfo(x, true);
      }
    }
  }

  /** Up connects its address when it is listed, and nothing else. */
  lemma UpConnects(b: Balancer, a: Address)
    requires Distinct(b.addrs)
    ensures var u := UpStep(b, a);
            && u == b.(addrs := u.addrs, waitCh := u.waitCh, closed := u.closed) && AddrsOf(u.addrs) == AddrsOf(b.addrs)
            && forall x :: IsUp(u.addrs, x) <==> IsUp(b.addrs, x) || (x == a && a in AddrsOf(b.addrs))
  {
    var stop, u := FindUp(b.addrs, a), UpStep(b, a);
  }

  /** It closes the wait channel exactly when there is one, the address was not connected before, and
      one address is connected afterwards. */
  lemma UpWakesIff(b: Balancer, a: Address)
    requires Distinct(b.addrs)
    ensures var u := UpStep(b, a);
            if b.waitCh.Some? && !IsUp(b.addrs, a) && OneUp(u.addrs)
            then u.waitCh == None && u.closed == b.closed + {b.waitCh.value}
            else u.waitCh == b.waitCh && u.closed == b.closed
  {
    UpConnects(b, a);
    OneUpIff(UpStep(b, a).addrs);
    SameAddressesDistinct(b.addrs, UpStep(b, a).addrs);
    assert IsUp(b.addrs, a) <==> FindUp(b.addrs, a) < |b.addrs|;
  }

  lemma SameAddressesDistinct(x: seq<AddrInfo>, y: seq<AddrInfo>)
    requires Distinct(x) && AddrsOf(x) == AddrsOf(y)
    ensures Distinct(y)
  {
    assert forall i :: 0 <= i < |y| ==> AddrsOf(y)[i] == y[i].addr && AddrsOf(x)[i] == x[i].addr;
  }

  lemma OneUpIff(addrs: seq<AddrInfo>)
    ensures Distinct(addrs) ==> (|UpIn(addrs, 0, |addrs|)| == 1 <==> OneUp(addrs))
  {
    if Distinct(addrs) {
      var up := UpIn(addrs, 0, |addrs|);
      UpInMembers(addrs, 0, |addrs|);
      if |up| == 1 {
        OneConnected(addrs, up[0]);
      } else if |up| >= 2 {
        assert up[0] in up && up[1] in up;
        UpInAscends(addrs, 0, |addrs|, 0, 1);
        assert IsUp(addrs, addrs[up[0]].addr) && IsUp(addrs, addrs[up[1]].addr);
      } else {
        NoneConnected(addrs);
      }
    }
  }

  lemma OneConnected(addrs: seq<AddrInfo>, u: nat)
    requires UpIn(addrs, 0, |addrs|) == [u]
    ensures OneUp(addrs)
  {
    UpInMembers(addrs, 0, |addrs|);
    assert u in UpIn(addrs, 0, |addrs|);
    assert IsUp(addrs, addrs[u].addr);
    forall x | IsUp(addrs, x) ensures x == addrs[u].addr {
      var k :| 0 <= k < |addrs| && addrs[k] == AddrInfo(x, true);
      assert k in UpIn(addrs, 0, |addrs|);
    }
  }

  lemma NoneConnected(addrs: seq<AddrInfo>)
    requires UpIn(addrs, 0, |addrs|) == []
    ensures forall x :: !IsUp(addrs, x)
  {
    UpInMembers(addrs, 0, |addrs|);
    forall x ensures !IsUp(addrs, x) {
      assert forall k :: 0 <= k < |addrs| && addrs[k].connected ==> k in UpIn(addrs, 0, |addrs|);
    }
  }

  /** Close ends the balancer and opens the wait channel to everybody who sleeps on it. */
  lemma CloseCloses(b: Balancer)
    ensures var c := CloseStep(b);
            && c.done && c == b.(done := true, waitCh := c.waitCh, closed := c.closed)
            && (b.done ==> c == b)
            && (!b.done ==> c.waitCh == None && c.closed == b.closed + (set ch | ch in ToSeq(b.waitCh)))
  {
  }

  /** A Start without a resolver lists its target, not connected; one that works makes the
      notification channel; and there are no other effects. */
  lemma StartLists(b: Balancer, target: Address, resolver: Resolver)
    ensures var s := StartStep(b, target, resolver); var adds := !b.done && resolver.NoResolver?;
            && s == b.(addrs := s.addrs, addrCh := s.addrCh)
            && (s.addrs != b.addrs <==> adds) && (adds ==> AddrsOf(s.addrs) == AddrsOf(b.addrs) + [target])
            && (forall x :: IsUp(s.addrs, x) <==> IsUp(b.addrs, x))
            && s.addrCh == (if !b.done && resolver.Working? then Some(None) else b.addrCh)
  {
  }

  /** A batch replaces what is waiting in the notification channel by the new list, unless closed. */
  lemma UpdatesNotify(b: Balancer, us: seq<Update>)
    requires b.addrCh.Some?
    ensures var u := UpdatesStep(b, us);
            && u == b.(addrs := u.addrs, addrCh := u.addrCh)
            && u.addrCh == (if b.done then b.addrCh else Some(Some(AddrsOf(u.addrs))))
  {
  }

  /** What Get answers: the closing error, a connected address, for a fail-fast call without one any
      address or the error for an empty list, and otherwise it sleeps. */
  lemma GetAnswers(b: Balancer, blocking: bool)
    ensures var (b', out) := GetStep(b, blocking);
            && b'.addrs == b.addrs && b'.done == b.done && b'.closed == b.closed && b'.addrCh == b.addrCh
            && (out == Closing <==> b.done)
            && (out == Unavailable <==> !b.done && b.addrs == [] && !blocking)
            && (out.Got? <==> !b.done && (!AllDown(b) || (!blocking && b.addrs != [])))
            && (out.Got? && !AllDown(b) ==> IsUp(b.addrs, out.addr))
            && (out.Sleep? ==> b'.waitCh == Some(out.ch) && (b.waitCh.Some? ==> b'.waitCh == b.waitCh))
            && (!out.Sleep? ==> b'.waitCh == b.waitCh)
  {
    if !b.done {
      ScanFindsConnected(b);
      if AllDown(b) {
        GetWithoutConnection(b, blocking);
      }
    }
  }

  lemma GetWithoutConnection(b: Balancer, blocking: bool)
    requires !b.done && AllDown(b)
    ensures var (b', out) := GetStep(b, blocking);
            && b' == b.(next := b'.next, waitCh := b'.waitCh, made := b'.made)
            && (if blocking then out.Sleep? && b'.waitCh == Some(out.ch) && (b.waitCh.Some? ==> b'.waitCh == b.waitCh)
                else b'.waitCh == b.waitCh && out == if b.addrs == [] then Unavailable else Got(b.addrs[StartOf(b)].addr))
  {
    ScanFindsConnected(b);
  }

  lemma ScanFindsConnected(b: Balancer)
    ensures ScanStep(b).1.Some? <==> !AllDown(b)
    ensures ScanStep(b).1.Some? ==> AddrInfo(ScanStep(b).1.value, true) in b.addrs
  {
    var c := CycleOf(b);
    if c != [] {
      assert c[0] in c;
    }
    assert forall i :: 0 <= i < |b.addrs| && b.addrs[i].connected ==> i in c;
  }

  /** The position j places after `start` in a list of n that is gone round. */
  function InTurn(start: nat, n: nat, j: nat): (k: nat)
    requires start < n
    ensures k < n
  {
    if j == 0 then start else
    var k := InTurn(start, n, j - 1);
    if k + 1 == n then 0 else k + 1
  }

  lemma {:induction false} InTurnShift(start: nat, n: nat, j: nat)
    requires start < n
    ensures InTurn(if start + 1 == n then 0 else start + 1, n, j) == InTurn(start, n, j + 1)
  {
    if j == 0 {
      assert InTurn(start, n, 0) == start;
    } else {
      InTurnShift(start, n, j - 1);
    }
  }

  /** While nothing is connected, fail-fast Gets answer the addresses in turn, from the cursor on. */
  lemma {:induction false} FailFastRotates(b: Balancer, flags: seq<bool>, j: nat)
    requires !b.done && AllDown(b) && b.addrs != [] && j < |flags| && forall i :: 0 <= i < |flags| ==> !flags[i]
    ensures Gets(b, flags)[j] == Got(b.addrs[InTurn(StartOf(b), |b.addrs|, j)].addr)
    decreases j
  {
    FailFastGets(b, flags);
    if j > 0 {
      FailFastRotates(b.(next := StartOf(b) + 1), flags[1..], j - 1);
      InTurnShift(StartOf(b), |b.addrs|, j - 1);
    }
  }

  lemma FailFastGets(b: Balancer, flags: seq<bool>)
    requires !b.done && AllDown(b) && b.addrs != [] && flags != [] && !flags[0]
    ensures Gets(b, flags) == [Got(b.addrs[StartOf(b)].addr)] + Gets(b.(next := StartOf(b) + 1), flags[1..])
  {
    FailFastStep(b);
  }

  lemma FailFastStep(b: Balancer)
    requires !b.done && AllDown(b) && b.addrs != []
    ensures GetStep(b, false) == (b.(next := StartOf(b) + 1), Got(b.addrs[StartOf(b)].addr))
  {
    ScanFindsConnected(b);
  }

  // ---- the object ----

  class RoundRobin {
    var addrs: seq<AddrInfo>
    var next: nat
    var waitCh: Option<ChanId>
    var done: bool
    var addrCh: Option<Option<seq<Address>>>
    var made: nat
    var closed: set<ChanId>

    ghost function View(): Balancer
      reads this
    {
      Balancer(addrs, next, waitCh, done, addrCh, made, closed)
    }

    constructor ()
      ensures View() == EMPTY
    {
      addrs, next, waitCh, done, addrCh, made, closed := [], 0, None, false, None, 0, {};
    }

    method Start(target: Address, resolver: Resolver) returns (ok: bool)
      modifies this
      ensures View() == StartStep(old(View()), target, resolver)
      ensures ok == (!old(done) && resolver != Failing)
    {
      if done || resolver.Failing? {
        return false;
      }
      if resolver.NoResolver? {
        addrs := addrs + [AddrInfo(target, false)];
      } else {
        addrCh := Some(None);
      }
      ok := true;
    }

    /** watchAddrUpdates after the watcher answered. The watcher runs only when Start made the
        notification channel. */
    method ApplyUpdates(us: seq<Update>) returns (ok: bool)
      requires addrCh.Some?
      modifies this
      ensures View() == UpdatesStep(old(View()), us) && ok == !done
    {
      var n := 0;
      while n < |us|
        invariant n <= |us|
        invariant View() == old(View()).(addrs := UpdateAll(old(addrs), us[..n]))
      {
        assert us[..n + 1][..n] == us[..n];
        ApplyUpdate(us[n]);
        n := n + 1;
      }
      assert us[..n] == us;
      var open := AddrsOf(addrs);
      if done {
        return false;
      }
      addrCh := Some(Some(open));
      ok := true;
    }

    method ApplyUpdate(u: Update)
      modifies `addrs
      ensures addrs == UpdateOne(old(addrs), u)
    {
      if u.Unknown? {
        return;
      }
      var i := 0;
      while i < |addrs| && addrs[i].addr != u.addr
        invariant i <= |addrs|
        invariant forall j :: 0 <= j < i ==> addrs[j].addr != u.addr
      {
        i := i + 1;
      }
      assert Find(addrs, u.addr) == i;
      if u.Add? && i == |addrs| {
        addrs := addrs + [AddrInfo(u.addr, false)];
      } else if u.Delete? && i < |addrs| {
        addrs := addrs[..i] + addrs[i + 1..];
      }
    }

    /** Answers whether the caller gets a down function. */
    method Up(a: Address) returns (down: bool)
      modifies this
      ensures View() == UpStep(old(View()), a)
      ensures down == (AddrInfo(a, true) !in old(addrs))
      ensures Distinct(old(addrs)) ==>
                AddrsOf(addrs) == AddrsOf(old(addrs))
                && forall x :: AddrInfo(x, true) in addrs <==> AddrInfo(x, true) in old(addrs) || (x == a && a in AddrsOf(old(addrs)))
    {
      if Distinct(addrs) {
        UpConnects(View(), a);
      }
      var stop, cnt := Connect(a);
      if stop < |addrs| {
        return false;
      }
      if cnt == 1 && waitCh.Some? {
        closed, waitCh := closed + {waitCh.value}, None;
      }
      down := true;
    }

    /** The loop of Up: it marks and counts up to an entry that is already connected. */
    method Connect(a: Address) returns (stop: nat, cnt: nat)
      modifies `addrs
      ensures stop == FindUp(old(addrs), a) && addrs == Mark(old(addrs), a, stop)
      ensures stop == |addrs| ==> cnt == |UpIn(addrs, 0, |addrs|)|
    {
      ghost var was := addrs;
      stop, cnt := 0, 0;
      while stop < |addrs|
        invariant stop <= |addrs| == |was|
        invariant forall j :: 0 <= j < stop ==> was[j] != AddrInfo(a, true)
        invariant addrs == Mark(was, a, stop) && cnt == |UpIn(addrs, 0, stop)|
      {
        if addrs[stop] == AddrInfo(a, true) {
          assert FindUp(was, a) == stop;
          return;
        }
        MarkOneMore(was, a, stop);
        if addrs[stop].addr == a {
          addrs := addrs[stop := AddrInfo(a, true)];
        }
        if addrs[stop].connected {
          cnt := cnt + 1;
        }
        stop := stop + 1;
      }
      assert FindUp(was, a) == stop;
    }

    method Down(a: Address)
      modifies this
      ensures View() == DownStep(old(View()), a)
      ensures Distinct(old(addrs)) ==>
                View() == old(View()).(addrs := addrs) && AddrsOf(addrs) == AddrsOf(old(addrs))
                && forall x :: AddrInfo(x, true) in addrs <==> AddrInfo(x, true) in old(addrs) && x != a
    {
      if Distinct(addrs) {
        DownDisconnects(View(), a);
      }
      var i := 0;
      while i < |addrs|
        invariant i <= |addrs|
        invariant forall j :: 0 <= j < i ==> addrs[j].addr != a
        invariant View() == old(View())
      {
        if addrs[i].addr == a {
          assert Find(addrs, a) == i;
          addrs := addrs[i := AddrInfo(a, false)];
          return;
        }
        i := i + 1;
      }
      assert Find(addrs, a) == i;
    }

    /** The scan that both locked sections of Get perform. */
    method Scan() returns (found: Option<Address>)
      modifies this
      ensures (View(), found) == ScanStep(old(View()))
    {
      if addrs == [] {
        return None;
      }
      if next >= |addrs| {
        next := 0;
      }
      var at, seen := next, 0;
      ghost var start := next;
      while true
        invariant next == start < |addrs| && at < |addrs| && seen < |addrs|
        invariant View() == old(View()).(next := start)
        invariant at == if start + seen < |addrs| then start + seen else start + seen - |addrs|
        invariant at >= start ==> UpIn(addrs, start, at) == []
        invariant at < start ==> UpIn(addrs, start, |addrs|) == [] && UpIn(addrs, 0, at) == []
        decreases |addrs| - seen
      {
        var a := addrs[at];
        ghost var i := at;
        ScanOneMore(addrs, start, at);
        NextModulo(at, |addrs|);
        at := (at + 1) % |addrs|;
        if a.connected {
          assert CycleOf(old(View()))[0] == i;
          next := at;
          return Some(a.addr);
        }
        if at == next {
          return None;
        }
        seen := seen + 1;
      }
    }

    method Sleeper() returns (out: Outcome)
      modifies this
      ensures (View(), out) == SleepStep(old(View()))
    {
      if waitCh.None? {
        waitCh, made := Some(made), made + 1;
      }
      out := Sleep(waitCh.value);
    }

    /** Get up to the point where it answers or sleeps on a channel. */
    method Get(blocking: bool) returns (out: Outcome)
      modifies this
      ensures (View(), out) == GetStep(old(View()), blocking)
    {
      if done {
        return Closing;
      }
      var found := Scan();
      if found.Some? {
        return Got(found.value);
      }
      if !blocking {
        if addrs == [] {
          return Unavailable;
        }
        out := Got(addrs[next].addr);
        next := next + 1;
        return;
      }
      out := Sleeper();
    }

    /** Get from the receive on its wait channel up to its answer or its next sleep. */
    method Woken() returns (out: Outcome)
      modifies this
      ensures (View(), out) == WakeStep(old(View()))
    {
      if done {
        return Closing;
      }
      var found := Scan();
      if found.Some? {
        return Got(found.value);
      }
      out := Sleeper();
    }

    method Close() returns (ok: bool)
      modifies this
      ensures View() == CloseStep(old(View())) && ok == !old(done)
      ensures done && waitCh == (if ok then None else old(waitCh)) && (ok && old(waitCh).Some? ==> old(waitCh).value in closed)
    {
      if done {
        return false;
      }
      done := true;
      if waitCh.Some? {
        closed, waitCh := closed + {waitCh.value}, None;
      }
      ok := true;
    }
  }

  /** What the scan has seen when it comes to `at`: the next connected position is the head of the
      cycle, and an unconnected one leaves nothing seen. */
  lemma ScanOneMore(addrs: seq<AddrInfo>, start: nat, at: nat)
    requires start < |addrs| && at < |addrs|
    requires at >= start ==> UpIn(addrs, start, at) == []
    requires at < start ==> UpIn(addrs, start, |addrs|) == [] && UpIn(addrs, 0, at) == []
    ensures addrs[at].connected ==> Cycle(addrs, start) != [] && Cycle(addrs, start)[0] == at
    ensures !addrs[at].connected && at >= start ==> UpIn(addrs, start, at + 1) == []
    ensures !addrs[at].connected && at < start ==> UpIn(addrs, 0, at + 1) == []
  {
    if at >= start {
      UpInSplit(addrs, start, at, |addrs|);
      UpInSplit(addrs, start, at, at + 1);
    } else {
      UpInSplit(addrs, 0, at, start);
      UpInSplit(addrs, 0, at, at + 1);
    }
  }

  lemma MarkOneMore(addrs: seq<AddrInfo>, a: Address, i: nat)
    requires i < |addrs|
    ensures var before, after := Mark(addrs, a, i), Mark(addrs, a, i + 1);
            && after == (if before[i].addr == a then before[i := AddrInfo(a, true)] else before)
            && |UpIn(after, 0, i + 1)| == |UpIn(before, 0, i)| + if after[i].connected then 1 else 0
  {
    var before, after := Mark(addrs, a, i), Mark(addrs, a, i + 1);
    UpInLocal(before, after, 0, i);
    UpInSplit(after, 0, i, i + 1);
  }

  /** The connected positions below `hi` depend only on the entries below `hi`. */
  lemma {:induction false} UpInLocal(x: seq<AddrInfo>, y: seq<AddrInfo>, lo: nat, hi: nat)
    requires lo <= hi <= |x| && hi <= |y|
    requires forall i :: lo <= i < hi ==> x[i].connected == y[i].connected
    ensures UpIn(x, lo, hi) == UpIn(y, lo, hi)
    decreases hi - lo
  {
    if lo == hi {
    } else {
      UpInLocal(x, y, lo + 1, hi);
    }
  }

  // ---- goroutines asleep inside Get ----

  /** `waiters` says on which channel each goroutine that is inside Get sleeps; `installed` is
      whether the balancer was made with a name resolver. */
  datatype Protocol = Protocol(b: Balancer, waiters: map<nat, ChanId>, installed: bool)

  datatype Step =
    | StepStart(target: Address, resolver: Resolver)
    | StepUp(a: Address)
    | StepDown(a: Address)
    | StepUpdates(us: seq<Update>)
    | StepGet(tid: nat, blocking: bool)
    | StepWoken(tid: nat)
    | StepCancel(tid: nat)
    | StepNotified
    | StepClose

  predicate Enabled(p: Protocol, s: Step) {
    match s
    case StepStart(_, resolver) => resolver.NoResolver? <==> !p.installed
    case StepUpdates(_) => p.b.addrCh.Some?
    case StepGet(tid, _) => tid !in p.waiters
    case StepWoken(tid) => tid in p.waiters && p.waiters[tid] in p.b.closed
    case StepCancel(tid) => tid in p.waiters
    case StepNotified => p.b.addrCh.Some? && p.b.addrCh.value.Some?
    case _ => true
  }

  function Settle(p: Protocol, b: Balancer, tid: nat, out: Outcome): Protocol {
    p.(b := b, waiters := if out.Sleep? then p.waiters[tid := out.ch] else p.waiters - {tid})
  }

  function Apply(p: Protocol, s: Step): Protocol
    requires Enabled(p, s)
  {
    match s
    case StepStart(target, resolver) => p.(b := StartStep(p.b, target, resolver))
    case StepUp(a) => p.(b := UpStep(p.b, a))
    case StepDown(a) => p.(b := DownStep(p.b, a))
    case StepUpdates(us) => p.(b := UpdatesStep(p.b, us))
    case StepGet(tid, blocking) => var (b, out) := GetStep(p.b, blocking); Settle(p, b, tid, out)
    case StepWoken(tid) => var (b, out) := WakeStep(p.b); Settle(p, b, tid, out)
    case StepCancel(tid) => p.(waiters := p.waiters - {tid})
    case StepNotified => p.(b := p.b.(addrCh := Some(None)))
    case StepClose => p.(b := CloseStep(p.b))
  }

  /** A goroutine calls Get or sleeps in it; a sleeper leaves on its closed channel or when its call is
      cancelled, which touches nothing else. */
  lemma SleepersCanLeave(p: Protocol, tid: nat, blocking: bool)
    ensures Enabled(p, StepCancel(tid)) <==> !Enabled(p, StepGet(tid, blocking))
    ensures Enabled(p, StepCancel(tid)) ==> Apply(p, StepCancel(tid)) == p.(waiters := p.waiters - {tid})
    ensures Enabled(p, StepWoken(tid)) <==> exists ch :: ch in p.b.closed && tid in p.waiters && p.waiters[tid] == ch
    ensures tid in p.waiters ==> Enabled(p, StepCancel(tid))
  {
  }

  /** The states some interleaving of the steps leads to. */
  ghost predicate Run(start: Protocol, steps: seq<Step>, end: Protocol)
    decreases |steps|
  {
    if steps == [] then start == end
    else Enabled(start, steps[0]) && Run(Apply(start, steps[0]), steps[1..], end)
  }

  ghost predicate BalancerInv(b: Balancer) {
    && Distinct(b.addrs)
    && (forall ch :: ch in b.closed ==> ch < b.made)
    && (b.waitCh.Some? ==> b.waitCh.value < b.made && b.waitCh.value !in b.closed && !b.done && AllDown(b))
    && (b.addrCh.Some? && b.addrCh.value.Some? && !b.done ==> b.addrCh.value.value == AddrsOf(b.addrs))
  }

  /** A sleeper's channel is closed or is the one the next Up or Close will close. */
  ghost predicate Inv(p: Protocol) {
    && BalancerInv(p.b)
    && (!p.installed ==> p.b.addrCh.None?)
    && forall t :: t in p.waiters ==> p.waiters[t] in p.b.closed || p.b.waitCh == Some(p.waiters[t])
  }

  lemma {:induction false} UpdateAllKeepsDistinct(addrs: seq<AddrInfo>, us: seq<Update>)
    requires Distinct(addrs)
    ensures Distinct(UpdateAll(addrs, us))
    ensures (forall i :: 0 <= i < |addrs| ==> !addrs[i].connected)
            ==> forall i :: 0 <= i < |UpdateAll(addrs, us)| ==> !UpdateAll(addrs, us)[i].connected
    decreases |us|
  {
    if us == [] {
    } else {
      UpdateAllKeepsDistinct(addrs, us[..|us| - 1]);
      UpdateOneKeepsDistinct(UpdateAll(addrs, us[..|us| - 1]), us[|us| - 1]);
    }
  }

  lemma UpdateOneKeepsDistinct(addrs: seq<AddrInfo>, u: Update)
    requires Distinct(addrs)
    ensures Distinct(UpdateOne(addrs, u))
    ensures (forall i :: 0 <= i < |addrs| ==> !addrs[i].connected)
            ==> forall i :: 0 <= i < |UpdateOne(addrs, u)| ==> !UpdateOne(addrs, u)[i].connected
  {
  }

  predicate Lists(addrs: seq<AddrInfo>, a: Address) {
    Find(addrs, a) < |addrs|
  }

  /** What the last update about `a` says: present or absent, None when there is none. */
  function LastWord(us: seq<Update>, a: Address): Option<bool> {
    if us == [] then None
    else match us[|us| - 1]
         case Add(x) => if x == a then Some(true) else LastWord(us[..|us| - 1], a)
         case Delete(x) => if x == a then Some(false) else LastWord(us[..|us| - 1], a)
         case Unknown(_) => LastWord(us[..|us| - 1], a)
  }

  lemma UpdateOneDecides(addrs: seq<AddrInfo>, u: Update, a: Address)
    requires Distinct(addrs)
    ensures Lists(UpdateOne(addrs, u), a) <==> u == Add(a) || (Lists(addrs, a) && u != Delete(a))
    ensures AddrInfo(a, true) in UpdateOne(addrs, u) <==> AddrInfo(a, true) in addrs && u != Delete(a)
  {
    var i, out := Find(addrs, u.addr), UpdateOne(addrs, u);
    if u.Delete? && i < |addrs| {
      assert forall x :: x in out <==> x in addrs && x != addrs[i];
      ListsIff(addrs, a);
      ListsIff(out, a);
    } else if u.Add? && i == |addrs| {
      assert out[|addrs|] == AddrInfo(u.addr, false);
      ListsIff(addrs, a);
      ListsIff(out, a);
    }
  }

  lemma ListsIff(addrs: seq<AddrInfo>, a: Address)
    ensures Lists(addrs, a) <==> exists x :: x in addrs && x.addr == a
  {
    if x :| x in addrs && x.addr == a {
      var i :| 0 <= i < |addrs| && addrs[i] == x;
    }
  }

  /** After a batch an address is listed as its last update says, or as before when there is none. */
  lemma {:induction false} LastUpdateDecides(addrs: seq<AddrInfo>, us: seq<Update>, a: Address)
    requires Distinct(addrs)
    ensures Lists(UpdateAll(addrs, us), a) <==>
              if LastWord(us, a).Some? then LastWord(us, a).value else Lists(addrs, a)
    decreases |us|
  {
    if us == [] {
      assert UpdateAll(addrs, us) == addrs;
    } else {
      var before, u := us[..|us| - 1], us[|us| - 1];
      LastUpdateDecides(addrs, before, a);
      UpdateAllKeepsDistinct(addrs, before);
      UpdateOneDecides(UpdateAll(addrs, before), u, a);
    }
  }

  /** It is connected exactly when it was and no update deleted it in between. */
  lemma {:induction false} OnlyDeletesDisconnect(addrs: seq<AddrInfo>, us: seq<Update>, a: Address)
    requires Distinct(addrs)
    ensures AddrInfo(a, true) in UpdateAll(addrs, us) <==> AddrInfo(a, true) in addrs && Delete(a) !in us
    decreases |us|
  {
    if us == [] {
      assert UpdateAll(addrs, us) == addrs;
    } else {
      var before, u := us[..|us| - 1], us[|us| - 1];
      OnlyDeletesDisconnect(addrs, before, a);
      UpdateAllKeepsDistinct(addrs, before);
      UpdateOneDecides(UpdateAll(addrs, before), u, a);
      assert us == before + [u];
    }
  }

  /** How many entries the list holds for `a`. */
  function Entries(addrs: seq<AddrInfo>, a: Address, lo: nat): nat
    requires lo <= |addrs|
    decreases |addrs| - lo
  {
    if lo == |addrs| then 0 else (if addrs[lo].addr == a then 1 else 0) + Entries(addrs, a, lo + 1)
  }

  lemma {:induction false} EntriesConnect(b: Balancer, a: Address, lo: nat)
    requires AllDown(b) && lo <= |b.addrs|
    ensures |UpIn(Mark(b.addrs, a, |b.addrs|), lo, |b.addrs|)| == Entries(b.addrs, a, lo)
    decreases |b.addrs| - lo
  {
    if lo < |b.addrs| {
      EntriesConnect(b, a, lo + 1);
    }
  }

  lemma {:induction false} EntriesOfDistinct(addrs: seq<AddrInfo>, a: Address, lo: nat)
    requires Distinct(addrs) && lo <= |addrs|
    ensures Entries(addrs, a, lo) <= 1
    ensures Entries(addrs, a, lo) == 0 <==> forall i :: lo <= i < |addrs| ==> addrs[i].addr != a
    decreases |addrs| - lo
  {
    if lo == |addrs| {
    } else {
      EntriesOfDistinct(addrs, a, lo + 1);
      if addrs[lo].addr == a {
        assert forall i :: lo + 1 <= i < |addrs| ==> addrs[i].addr != a;
      }
    }
  }

  /** While no address is connected and a goroutine sleeps, Up(a) wakes it exactly when the list
      holds one entry for `a`: none leaves it asleep rightly, two leave it asleep wrongly. */
  lemma UpWakesForOneEntry(b: Balancer, a: Address)
    requires b.waitCh.Some? && AllDown(b)
    ensures UpStep(b, a).addrs == Mark(b.addrs, a, |b.addrs|)
    ensures UpStep(b, a).waitCh.None? <==> Entries(b.addrs, a, 0) == 1
    ensures UpStep(b, a).waitCh.None? ==> UpStep(b, a).closed == b.closed + {b.waitCh.value}
  {
    EntriesConnect(b, a, 0);
  }

  lemma UpKeepsInv(b: Balancer, a: Address)
    requires BalancerInv(b)
    ensures BalancerInv(UpStep(b, a))
    ensures b.closed <= UpStep(b, a).closed
    ensures b.waitCh.Some? ==> UpStep(b, a).waitCh == b.waitCh || b.waitCh.value in UpStep(b, a).closed
  {
    assert AddrsOf(UpStep(b, a).addrs) == AddrsOf(b.addrs);
    if b.waitCh.Some? {
      UpWakesForOneEntry(b, a);
      EntriesOfDistinct(b.addrs, a, 0);
    }
  }

  lemma UpdatesKeepInv(b: Balancer, us: seq<Update>)
    requires BalancerInv(b) && b.addrCh.Some?
    ensures BalancerInv(UpdatesStep(b, us))
  {
    UpdateAllKeepsDistinct(b.addrs, us);
  }

  lemma DownKeepsInv(b: Balancer, a: Address)
    requires BalancerInv(b)
    ensures BalancerInv(DownStep(b, a))
  {
    assert AddrsOf(DownStep(b, a).addrs) == AddrsOf(b.addrs);
  }

  /** What both locked sections of Get keep; a goroutine goes to sleep only when nothing is connected. */
  lemma ScanAndSleepKeepInv(b: Balancer)
    requires BalancerInv(b) && !b.done
    ensures var (b', found) := ScanStep(b); BalancerInv(b') && b'.waitCh == b.waitCh && b'.closed == b.closed
    ensures var (b', found) := ScanStep(b);
            found.None? ==> AllDown(b') && BalancerInv(SleepStep(b').0)
                            && SleepStep(b').0.waitCh == Some(SleepStep(b').1.ch)
                            && (b.waitCh.Some? ==> SleepStep(b').0.waitCh == b.waitCh)
  {
    var c := CycleOf(b);
    assert forall i :: 0 <= i < |b.addrs| && b.addrs[i].connected ==> i in c;
  }

  /** The target is listed at most once afterwards: always with a resolver, and without one when it
      is not listed yet. */
  predicate SoundStart(p: Protocol, s: Step) {
    s.StepStart? && s.resolver.NoResolver? ==> !Lists(p.b.addrs, s.target)
  }

  lemma StartKeepsProtocolInv(p: Protocol, s: Step)
    requires Inv(p) && Enabled(p, s) && SoundStart(p, s) && s.StepStart?
    ensures Inv(Apply(p, s))
  {
  }

  lemma UpKeepsProtocolInv(p: Protocol, s: Step)
    requires Inv(p) && Enabled(p, s) && s.StepUp?
    ensures Inv(Apply(p, s))
  {
    UpKeepsInv(p.b, s.a);
  }

  lemma GetKeepsProtocolInv(p: Protocol, s: Step)
    requires Inv(p) && Enabled(p, s) && s.StepGet?
    ensures Inv(Apply(p, s))
  {
    if !p.b.done {
      ScanAndSleepKeepInv(p.b);
    }
  }

  lemma WokenKeepsProtocolInv(p: Protocol, s: Step)
    requires Inv(p) && Enabled(p, s) && s.StepWoken?
    ensures Inv(Apply(p, s))
  {
    if !p.b.done {
      ScanAndSleepKeepInv(p.b);
    }
  }

  lemma CloseKeepsProtocolInv(p: Protocol, s: Step)
    requires Inv(p) && Enabled(p, s) && s.StepClose?
    ensures Inv(Apply(p, s))
  {
  }

  lemma StepKeepsInv(p: Protocol, s: Step)
    requires Inv(p) && Enabled(p, s) && SoundStart(p, s)
    ensures Inv(Apply(p, s))
  {
    match s
    case StepStart(_, _) => StartKeepsProtocolInv(p, s);
    case StepUp(_) => UpKeepsProtocolInv(p, s);
    case StepDown(a) => DownKeepsInv(p.b, a);
    case StepUpdates(us) => UpdatesKeepInv(p.b, us);
    case StepGet(_, _) => GetKeepsProtocolInv(p, s);
    case StepWoken(_) => WokenKeepsProtocolInv(p, s);
    case StepCancel(tid) =>
    case StepNotified =>
    case StepClose => CloseKeepsProtocolInv(p, s);
  }

  function New(installed: bool): Protocol {
    Protocol(EMPTY, map[], installed)
  }

  /** The targets of the Starts without a resolver. */
  function Targets(steps: seq<Step>): seq<Address> {
    if steps == [] then []
    else (if steps[0].StepStart? && steps[0].resolver.NoResolver? then [steps[0].target] else []) + Targets(steps[1..])
  }

  ghost predicate NoneTwice(ts: seq<Address>) {
    forall i, j :: 0 <= i < j < |ts| ==> ts[i] != ts[j]
  }

  /** Without a resolver only a Start makes an address listed that was not. */
  lemma StepListsOnlyTargets(p: Protocol, s: Step, a: Address)
    requires Inv(p) && Enabled(p, s) && !p.installed
    requires Lists(Apply(p, s).b.addrs, a)
    ensures Lists(p.b.addrs, a) || (s.StepStart? && a == s.target)
  {
    var x, y := p.b.addrs, Apply(p, s).b.addrs;
    if s.StepStart? {
      ListsIff(x, a);
      ListsIff(y, a);
    }
  }

  /** Every run in which the targets of the Starts without a resolver are distinct keeps the
      invariant; with a resolver there may be any number of Starts. */
  lemma {:induction false} RunKeepsInv(start: Protocol, steps: seq<Step>, end: Protocol)
    requires Inv(start) && Run(start, steps, end)
    requires NoneTwice(Targets(steps)) && forall a :: a in Targets(steps) ==> !Lists(start.b.addrs, a)
    ensures Inv(end)
    decreases |steps|
  {
    if steps == [] {
      assert start == end;
    } else {
      var s, rest := steps[0], steps[1..];
      var next := Apply(start, s);
      TargetsFirst(steps);
      StepKeepsInv(start, s);
      forall a | a in Targets(rest)
        ensures !Lists(next.b.addrs, a)
      {
        if start.installed {
          InstalledHasNoTargets(next, rest, end);
        } else if Lists(next.b.addrs, a) {
          StepListsOnlyTargets(start, s, a);
        }
      }
      RunKeepsInv(next, rest, end);
    }
  }

  lemma TargetsFirst(steps: seq<Step>)
    requires steps != [] && NoneTwice(Targets(steps))
    ensures NoneTwice(Targets(steps[1..])) && forall a :: a in Targets(steps[1..]) ==> a in Targets(steps)
    ensures steps[0].StepStart? && steps[0].resolver.NoResolver? ==>
              steps[0].target in Targets(steps) && steps[0].target !in Targets(steps[1..])
  {
    var rest := Targets(steps[1..]);
    if steps[0].StepStart? && steps[0].resolver.NoResolver? {
      NoneTwiceFirst(steps[0].target, rest);
    } else {
      assert [] + rest == rest;
    }
  }

  lemma NoneTwiceFirst(a: Address, rest: seq<Address>)
    requires NoneTwice([a] + rest)
    ensures NoneTwice(rest) && a !in rest && a in [a] + rest && forall x :: x in rest ==> x in [a] + rest
  {
    var all := [a] + rest;
    assert all[0] == a;
    forall i, j | 0 <= i < j < |rest| ensures rest[i] != rest[j] {
      assert all[i + 1] == rest[i] && all[j + 1] == rest[j];
    }
    forall i | 0 <= i < |rest| ensures rest[i] != a {
      assert all[i + 1] == rest[i];
    }
  }

  lemma {:induction false} InstalledHasNoTargets(start: Protocol, steps: seq<Step>, end: Protocol)
    requires start.installed && Run(start, steps, end)
    ensures Targets(steps) == []
    decreases |steps|
  {
    if steps == [] {
      assert Targets(steps) == [];
    } else {
      InstalledHasNoTargets(Apply(start, steps[0]), steps[1..], end);
    }
  }

  /** What no run may reach: a goroutine asleep on an open channel while an address is connected or
      the balancer is closed. */
  ghost predicate LosesWakeup(p: Protocol, tid: nat) {
    tid in p.waiters && p.waiters[tid] !in p.b.closed && (p.b.done || !AllDown(p.b))
  }

  /** No interleaving loses a wakeup as long as the targets of the Starts without a resolver are
      distinct; in particular after a single Start. */
  lemma NoLostWakeup(installed: bool, steps: seq<Step>, end: Protocol, tid: nat)
    requires Run(New(installed), steps, end) && NoneTwice(Targets(steps))
    ensures Distinct(end.b.addrs)
    ensures !LosesWakeup(end, tid)
  {
    RunKeepsInv(New(installed), steps, end);
  }

  /** A goroutine whose channel was closed leaves Get with a connected address or with the
      closing error, and goes back to sleep, on an open channel, only when nothing is connected. */
  lemma WokenIsServed(installed: bool, steps: seq<Step>, p: Protocol, tid: nat)
    requires Run(New(installed), steps, p) && NoneTwice(Targets(steps)) && Enabled(p, StepWoken(tid))
    ensures var out := WakeStep(p.b).1; var p' := Apply(p, StepWoken(tid));
            && (out == Closing <==> p.b.done)
            && (out.Got? <==> !p.b.done && !AllDown(p.b))
            && (out.Got? ==> AddrInfo(out.addr, true) in p.b.addrs)
            && (tid in p'.waiters <==> !p.b.done && AllDown(p.b))
            && (tid in p'.waiters ==> p'.waiters[tid] !in p'.b.closed)
  {
    RunKeepsInv(New(installed), steps, p);
    ScanFindsConnected(p.b);
    if !p.b.done && AllDown(p.b) {
      ScanAndSleepKeepInv(p.b);
    }
  }

  lemma {:induction false} UpdatesConnectNothing(addrs: seq<AddrInfo>, us: seq<Update>, a: Address)
    requires !IsUp(addrs, a)
    ensures !IsUp(UpdateAll(addrs, us), a)
    decreases |us|
  {
    if us == [] {
    } else {
      UpdatesConnectNothing(addrs, us[..|us| - 1], a);
    }
  }

  lemma GetKeepsAddrs(b: Balancer, blocking: bool)
    ensures GetStep(b, blocking).0.addrs == b.addrs && WakeStep(b).0.addrs == b.addrs
  {
  }

  lemma OnlyUpConnects(p: Protocol, s: Step, a: Address)
    requires Enabled(p, s) && s != StepUp(a) && !IsUp(p.b.addrs, a)
    ensures !IsUp(Apply(p, s).b.addrs, a)
  {
    match s
    case StepUpdates(us) => UpdatesConnectNothing(p.b.addrs, us, a);
    case StepGet(_, blocking) => GetKeepsAddrs(p.b, blocking);
    case StepWoken(_) => GetKeepsAddrs(p.b, true);
    case _ =>
  }

  lemma {:induction false} StaysDown(p: Protocol, steps: seq<Step>, end: Protocol, a: Address)
    requires Run(p, steps, end) && StepUp(a) !in steps && !IsUp(p.b.addrs, a)
    ensures !IsUp(end.b.addrs, a)
    decreases |steps|
  {
    if steps == [] {
      assert p == end;
    } else {
      assert steps[0] in steps && forall s :: s in steps[1..] ==> s in steps;
      OnlyUpConnects(p, steps[0], a);
      StaysDown(Apply(p, steps[0]), steps[1..], end, a);
    }
  }

  /** After Down(a) no blocking Get and no woken goroutine is answered a before an Up(a). */
  lemma DownIsNotServed(installed: bool, before: seq<Step>, p: Protocol, a: Address, after: seq<Step>, end: Protocol)
    requires Run(New(installed), before, p) && NoneTwice(Targets(before))
    requires Run(Apply(p, StepDown(a)), after, end) && StepUp(a) !in after
    ensures GetStep(end.b, true).1 != Got(a) && WakeStep(end.b).1 != Got(a)
  {
    RunKeepsInv(New(installed), before, p);
    DownDisconnects(p.b, a);
    StaysDown(Apply(p, StepDown(a)), after, end, a);
    OnlyConnectedIsServed(end.b, a);
  }

  lemma OnlyConnectedIsServed(b: Balancer, a: Address)
    requires !IsUp(b.addrs, a)
    ensures GetStep(b, true).1 != Got(a) && WakeStep(b).1 != Got(a)
  {
    ScanFindsConnected(b);
  }

  /** The list after Starts without a resolver. */
  function Listed(ts: seq<Address>): (out: seq<AddrInfo>)
    ensures |out| == |ts| && forall i :: 0 <= i < |ts| ==> out[i] == AddrInfo(ts[i], false)
  {
    seq(|ts|, i requires 0 <= i < |ts| => AddrInfo(ts[i], false))
  }

  /** One Start for each target, then the given steps. */
  function StartsThen(ts: seq<Address>, more: seq<Step>): seq<Step> {
    if ts == [] then more else [StepStart(ts[0], NoResolver)] + StartsThen(ts[1..], more)
  }

  lemma {:induction false} TargetsOfStarts(ts: seq<Address>, more: seq<Step>)
    requires Targets(more) == []
    ensures Targets(StartsThen(ts, more)) == ts
  {
    if ts == [] {
      assert StartsThen(ts, more) == more;
    } else {
      TargetsOfStarts(ts[1..], more);
      assert StartsThen(ts, more)[1..] == StartsThen(ts[1..], more);
    }
  }

  lemma {:induction false} RunOfStarts(done: seq<Address>, ts: seq<Address>, more: seq<Step>, end: Protocol)
    requires Run(Protocol(EMPTY.(addrs := Listed(done + ts)), map[], false), more, end)
    ensures Run(Protocol(EMPTY.(addrs := Listed(done)), map[], false), StartsThen(ts, more), end)
    decreases |ts|
  {
    if ts == [] {
      assert done + ts == done;
    } else {
      var p := Protocol(EMPTY.(addrs := Listed(done)), map[], false);
      var steps := StartsThen(ts, more);
      assert done + ts == done + [ts[0]] + ts[1..];
      RunOfStarts(done + [ts[0]], ts[1..], more, end);
      assert Listed(done + [ts[0]]) == Listed(done) + [AddrInfo(ts[0], false)];
      assert Apply(p, steps[0]) == p.(b := EMPTY.(addrs := Listed(done + [ts[0]])));
      assert steps[1..] == StartsThen(ts[1..], more);
    }
  }

  lemma {:induction false} EntriesOfRepeated(addrs: seq<AddrInfo>, a: Address, lo: nat, i: nat, j: nat)
    requires lo <= i < j < |addrs| && addrs[i].addr == a == addrs[j].addr
    ensures Entries(addrs, a, lo) >= 2
    decreases |addrs| - lo
  {
    if lo < i {
      EntriesOfRepeated(addrs, a, lo + 1, i, j);
    } else {
      EntriesOfListed(addrs, a, lo + 1, j);
    }
  }

  lemma {:induction false} EntriesOfListed(addrs: seq<AddrInfo>, a: Address, lo: nat, j: nat)
    requires lo <= j < |addrs| && addrs[j].addr == a
    ensures Entries(addrs, a, lo) >= 1
    decreases |addrs| - lo
  {
    if lo == j {
    } else {
      EntriesOfListed(addrs, a, lo + 1, j);
    }
  }

  function Waiting(ts: seq<Address>): Protocol {
    Protocol(EMPTY.(addrs := Listed(ts), waitCh := Some(0), made := 1), map[0 := 0], false)
  }

  lemma FirstGetSleeps(ts: seq<Address>)
    ensures Apply(Protocol(EMPTY.(addrs := Listed(ts)), map[], false), StepGet(0, true)) == Waiting(ts)
  {
    ScanFindsConnected(EMPTY.(addrs := Listed(ts)));
  }

  /** Up counts two connections and wakes nobody. */
  lemma RepeatedTargetStaysAsleep(ts: seq<Address>, i: nat, j: nat)
    requires i < j < |ts| && ts[i] == ts[j]
    ensures LosesWakeup(Apply(Waiting(ts), StepUp(ts[i])), 0)
  {
    EntriesOfRepeated(Listed(ts), ts[i], 0, i, j);
    UpWakesForOneEntry(Waiting(ts).b, ts[i]);
    assert UpStep(Waiting(ts).b, ts[i]).addrs[i].connected;
  }

  lemma RepeatedTargetLoses(ts: seq<Address>, i: nat, j: nat) returns (end: Protocol)
    requires i < j < |ts| && ts[i] == ts[j]
    ensures Run(New(false), StartsThen(ts, [StepGet(0, true), StepUp(ts[i])]), end) && LosesWakeup(end, 0)
  {
    FirstGetSleeps(ts);
    RepeatedTargetStaysAsleep(ts, i, j);
    var get, up := StepGet(0, true), StepUp(ts[i]);
    var p := Protocol(EMPTY.(addrs := Listed(ts)), map[], false);
    end := Apply(Waiting(ts), up);
    RunOfTwo(p, get, up, Waiting(ts), end);
    RunFromNew(ts, [get, up], end);
  }

  lemma RunFromNew(ts: seq<Address>, more: seq<Step>, end: Protocol)
    requires Run(Protocol(EMPTY.(addrs := Listed(ts)), map[], false), more, end)
    ensures Run(New(false), StartsThen(ts, more), end)
  {
    assert Listed([]) == [] && [] + ts == ts;
    RunOfStarts([], ts, more, end);
  }

  lemma RunOfTwo(p: Protocol, s: Step, t: Step, q: Protocol, end: Protocol)
    requires Enabled(p, s) && Apply(p, s) == q && Enabled(q, t) && Apply(q, t) == end
    ensures Run(p, [s, t], end)
  {
    assert [s, t][1..] == [t] && [t][1..] == [];
    assert Run(q, [t], end);
  }

  /** Over all runs without a resolver whose Starts have the given targets: no wakeup is lost exactly
      when no target is started twice. */
  lemma StartsAreSafeIff(ts: seq<Address>)
    ensures (forall steps, end, tid :: Run(New(false), steps, end) && Targets(steps) == ts ==> !LosesWakeup(end, tid))
            <==> NoneTwice(ts)
  {
    if NoneTwice(ts) {
      forall steps, end, tid | Run(New(false), steps, end) && Targets(steps) == ts
        ensures !LosesWakeup(end, tid)
      {
        NoLostWakeup(false, steps, end, tid);
      }
    } else {
      var i, j :| 0 <= i < j < |ts| && ts[i] == ts[j];
      var end := RepeatedTargetLoses(ts, i, j);
      var more := [StepGet(0, true), StepUp(ts[i])];
      assert more[1..] == [StepUp(ts[i])] && Targets(more[1..]) == [];
      TargetsOfStarts(ts, more);
    }
  }
}

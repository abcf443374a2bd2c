/**
  The unbounded queue of grpc/balancer_conn_wrappers.go: a one-slot channel plus a backlog. The
  class takes the two locked sections; `Queue` adds the watcher goroutine, which receives from
  the channel without the lock and then calls load.
*/
module UpdateQueue {
  import opened Wrappers

  class StateUpdateBuffer<T> {
    var c: Option<T>
    var backlog: seq<T>

    /** Everything put and not yet received, oldest first. */
    ghost function Pending(): seq<T>
      reads this
    {
      ToSeq(c) + backlog
    }

    constructor ()
      ensures c == None && backlog == []
    {
      c, backlog := None, [];
    }

    method Put(t: T)
      modifies this
      ensures (c, backlog) == PutStep(old(c), old(backlog), t)
      ensures (old(c).None? ==> old(backlog) == []) ==> Pending() == old(Pending()) + [t]
    {
      if |backlog| == 0 && c.None? {
        c := Some(t);
        return;
      }
      backlog := backlog + [t];
    }

    method Load()
      modifies this
      ensures (c, backlog) == LoadStep(old(c), old(backlog))
      ensures Pending() == old(Pending())
      ensures c.None? ==> backlog == []
    {
      if |backlog| > 0 && c.None? {
        c := Some(backlog[0]);
        backlog := backlog[1..];
      }
    }
  }

  function PutStep<T>(c: Option<T>, backlog: seq<T>, t: T): (Option<T>, seq<T>) {
    if |backlog| == 0 && c.None? then (Some(t), backlog) else (c, backlog + [t])
  }

  function LoadStep<T>(c: Option<T>, backlog: seq<T>): (Option<T>, seq<T>) {
    if |backlog| > 0 && c.None? then (Some(backlog[0]), backlog[1..]) else (c, backlog)
  }

  // ---- the queue with its producers and its one consumer ----

  /** `loading` holds between the watcher's receive and its load; `puts` and `delivered` are
      the histories of the two ends. */
  datatype Queue<T> = Queue(c: Option<T>, backlog: seq<T>, loading: bool, puts: seq<T>, delivered: seq<T>)

  datatype Step<T> = Put(t: T) | Receive | Load

  predicate Enabled<T>(q: Queue<T>, s: Step<T>) {
    match s
    case Put(_) => true
    case Receive => q.c.Some? && !q.loading
    case Load => q.loading
  }

  function Apply<T>(q: Queue<T>, s: Step<T>): Queue<T>
    requires Enabled(q, s)
  {
    match s
    case Put(t) => var (c, backlog) := PutStep(q.c, q.backlog, t); q.(c := c, backlog := backlog, puts := q.puts + [t])
    case Receive => q.(c := None, loading := true, delivered := q.delivered + [q.c.value])
    case Load => var (c, backlog) := LoadStep(q.c, q.backlog); q.(c := c, backlog := backlog, loading := false)
  }

  ghost predicate Run<T>(start: Queue<T>, steps: seq<Step<T>>, end: Queue<T>)
    decreases |steps|
  {
    if steps == [] then start == end
    else Enabled(start, steps[0]) && Run(Apply(start, steps[0]), steps[1..], end)
  }

  function New<T>(): Queue<T> {
    Queue(None, [], false, [], [])
  }

  ghost predicate Inv<T>(q: Queue<T>) {
    && q.delivered + ToSeq(q.c) + q.backlog == q.puts
    && (q.backlog != [] ==> q.c.Some? || q.loading)
  }

  lemma StepKeepsInv<T>(q: Queue<T>, s: Step<T>)
    requires Inv(q) && Enabled(q, s)
    ensures Inv(Apply(q, s))
  {
    var q' := Apply(q, s);
    match s
    case Put(t) =>
      assert q.delivered + ToSeq(q.c) + (q.backlog + [t]) == q.puts + [t];
      assert q.c.None? && q.backlog == [] ==> q.delivered + [t] + [] == q.puts + [t];
    case Receive =>
      assert q'.delivered + [] + q'.backlog == q.puts;
    case Load =>
      if q.backlog != [] && q.c.None? {
        assert q.delivered + [q.backlog[0]] + q.backlog[1..] == q.delivered + [] + q.backlog;
      }
  }

  /** In every interleaving the queue is first in, first out, and nothing waits in the backlog
      unless the channel is full or the watcher is about to call load. */
  lemma {:induction false} FifoOverRuns<T>(start: Queue<T>, steps: seq<Step<T>>, end: Queue<T>)
    requires Inv(start) && Run(start, steps, end)
    ensures end.delivered + ToSeq(end.c) + end.backlog == end.puts
    ensures end.backlog != [] ==> end.c.Some? || end.loading
    decreases |steps|
  {
    if steps == [] {
    } else {
      StepKeepsInv(start, steps[0]);
      FifoOverRuns(Apply(start, steps[0]), steps[1..], end);
    }
  }

  /** The updates that a run puts. */
  function PutsOf<T>(steps: seq<Step<T>>): seq<T> {
    if steps == [] then [] else (if steps[0].Put? then [steps[0].t] else []) + PutsOf(steps[1..])
  }

  function Receives<T>(steps: seq<Step<T>>): nat {
    if steps == [] then 0 else (if steps[0].Receive? then 1 else 0) + Receives(steps[1..])
  }

  lemma {:induction false} HistoriesFollowTheRun<T>(start: Queue<T>, steps: seq<Step<T>>, end: Queue<T>)
    requires Run(start, steps, end)
    ensures end.puts == start.puts + PutsOf(steps) && |end.delivered| == |start.delivered| + Receives(steps)
    decreases |steps|
  {
    if steps == [] {
    } else {
      var next := Apply(start, steps[0]);
      HistoriesFollowTheRun(next, steps[1..], end);
      var first := if steps[0].Put? then [steps[0].t] else [];
      assert next.puts == start.puts + first;
      assert start.puts + first + PutsOf(steps[1..]) == start.puts + (first + PutsOf(steps[1..]));
    }
  }

  /** Over every run from the empty queue, what was received, as many updates as there were receives, and
      what waits is exactly what was put, in order. */
  lemma NothingIsLost<T>(steps: seq<Step<T>>, end: Queue<T>)
    requires Run(New(), steps, end)
    ensures end.delivered + ToSeq(end.c) + end.backlog == PutsOf(steps) && |end.delivered| == Receives(steps)
  {
    FifoOverRuns(New(), steps, end);
    HistoriesFollowTheRun(New(), steps, end);
  }

  /** A put never waits; a receive waits for a full channel. */
  lemma PutNeverWaits<T>(q: Queue<T>, t: T)
    ensures Enabled(q, Put(t)) && Apply(q, Put(t)).delivered == q.delivered && Apply(q, Put(t)).c.Some? == (q.c.Some? || q.backlog == [])
    ensures Enabled(q, Receive) <==> q.c.Some? && !q.loading
  {
  }

  /** What the watcher does when no more updates arrive: finish its load, then receive and load
      as long as the channel is full. */
  function DrainSteps<T>(q: Queue<T>): seq<Step<T>>
    decreases |q.backlog| + |ToSeq(q.c)|, if q.loading then 1 else 0
  {
    if q.loading then [Load] + DrainSteps(Apply(q, Load))
    else if q.c.Some? then [Receive] + DrainSteps(Apply(q, Receive))
    else []
  }

  /** Nothing is stranded: left alone, the watcher delivers every update in the order of the puts,
      with one receive and one load for each pending update. */
  lemma {:induction false} WatcherDrains<T>(q: Queue<T>)
    requires Inv(q)
    ensures exists end :: Run(q, DrainSteps(q), end) && end.delivered == q.puts && end.puts == q.puts
    ensures |DrainSteps(q)| == 2 * (|ToSeq(q.c)| + |q.backlog|) + if q.loading then 1 else 0
    decreases |q.backlog| + |ToSeq(q.c)|, if q.loading then 1 else 0
  {
    if q.loading || q.c.Some? {
      var s: Step<T> := if q.loading then Load else Receive;
      var q' := Apply(q, s);
      StepKeepsInv(q, s);
      WatcherDrains(q');
      var end :| Run(q', DrainSteps(q'), end) && end.delivered == q'.puts && end.puts == q'.puts;
      assert DrainSteps(q)[1..] == DrainSteps(q');
      assert Run(q, DrainSteps(q), end);
    } else {
      assert Run(q, DrainSteps(q), q);
    }
  }

  // ---- the address filter of updateClientConnState ----

  datatype AddressType = Backend | GRPCLB

  datatype ResolvedAddress = ResolvedAddress(addr: string, kind: AddressType)

  function Backends(s: seq<ResolvedAddress>): (out: seq<ResolvedAddress>)
    ensures |out| <= |s|
  {
    if s == [] then []
    else if s[|s| - 1].kind.GRPCLB? then Backends(s[..|s| - 1])
    else Backends(s[..|s| - 1]) + [s[|s| - 1]]
  }

  /** Order and multiplicity of the kept addresses are those of the input. */
  lemma {:induction false} BackendsKeepsOrder(s: seq<ResolvedAddress>, t: seq<ResolvedAddress>)
    ensures Backends(s + t) == Backends(s) + Backends(t)
    decreases |t|
  {
    if t == [] {
      assert s + t == s;
    } else {
      BackendsKeepsOrder(s, t[..|t| - 1]);
      assert (s + t)[..|s + t| - 1] == s + t[..|t| - 1];
    }
  }

  lemma {:induction false} BackendsCount(s: seq<ResolvedAddress>, a: ResolvedAddress)
    ensures multiset(Backends(s))[a] == if a.kind.GRPCLB? then 0 else multiset(s)[a]
  {
    if s == [] {
    } else {
      BackendsCount(s[..|s| - 1], a);
      assert s == s[..|s| - 1] + [s[|s| - 1]];
    }
  }

  /** The in-place loop: every load-balancer entry is overwritten by shifting its successors left
      and the slice shrinks. The filter is skipped when the grpclb balancer is in charge. */
  method FilterAddresses(a: array<ResolvedAddress>, grpclb: bool) returns (len: nat)
    modifies a
    ensures len <= a.Length
    ensures a[..len] == if grpclb then old(a[..]) else Backends(old(a[..]))
  {
    len := a.Length;
    if grpclb {
      return;
    }
    var i := 0;
    ghost var was, read := a[..], 0;
    while i < len
      invariant i <= len <= a.Length && read <= |was|
      invariant a[..i] == Backends(was[..read]) && a[i..len] == was[read..]
      decreases len - i
    {
      BackendsOneMore(was, read);
      TailOneMore(was, read, a[i..len]);
      if a[i].kind.GRPCLB? {
        DropAt(a, i, len);
        len := len - 1;
      } else {
        assert a[..i + 1] == a[..i] + [a[i]];
        assert a[i + 1..len] == a[i..len][1..];
        i := i + 1;
      }
      read := read + 1;
    }
    assert was[..read] == was;
  }

  /** The part before `i` stays and the part from there on loses its first element. */
  method DropAt(a: array<ResolvedAddress>, i: nat, len: nat)
    requires i < len <= a.Length
    modifies a
    ensures a[..i] == old(a[..i])
    ensures a[i..len - 1] == old(a[i..len])[1..]
  {
    ghost var tail := a[i + 1..len];
    assert tail == a[i..len][1..];
    ShiftLeft(a, i, len);
  }

  lemma BackendsOneMore(s: seq<ResolvedAddress>, k: nat)
    requires k < |s|
    ensures Backends(s[..k + 1]) == if s[k].kind.GRPCLB? then Backends(s[..k]) else Backends(s[..k]) + [s[k]]
  {
    assert s[..k + 1][..k] == s[..k];
  }

  lemma TailOneMore<T>(s: seq<T>, k: nat, tail: seq<T>)
    requires k < |s| && tail == s[k..]
    ensures tail[0] == s[k] && tail[1..] == s[k + 1..]
  {
  }

  /** Go's `copy(s[i:], s[i+1:])` on the first `len` elements. */
  method ShiftLeft(a: array<ResolvedAddress>, i: nat, len: nat)
    requires i < len <= a.Length
    modifies a
    ensures forall k :: 0 <= k < i ==> a[k] == old(a[k])
    ensures forall k :: i <= k < len - 1 ==> a[k] == old(a[k + 1])
  {
    var j := i;
    while j < len - 1
      invariant i <= j <= len - 1
      invariant forall k :: 0 <= k < i ==> a[k] == old(a[k])
      invariant forall k :: i <= k < j ==> a[k] == old(a[k + 1])
      invariant forall k :: j < k < len ==> a[k] == old(a[k])
    {
      a[j] := a[j + 1];
      j := j + 1;
    }
  }
}

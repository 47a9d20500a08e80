/** kern/sched.c: per-CPU priority run queues, work stealing and the idle threads.

    The big kernel lock makes each scheduler entry atomic, so the kernel is a state
    machine over whole entries: a thread that goes to sleep is replaced on its CPU
    before any other CPU can run scheduler code. */
module Sched {
  import opened Base

  datatype TState = Running | Paused | Waiting | Stopped | Zombie

  /** cur, idle and runq are indexed by CPU, everything else by thread.  `arrival` and
      `clock` number the insertions into run queues; the C code has no such fields,
      they only say in which order threads were queued. */
  datatype Kernel = Kernel(
    idle: seq<Tid>, cur: seq<Tid>, runq: seq<seq<Tid>>,
    pri: seq<nat>, affinity: seq<set<nat>>, state: seq<TState>, runqOf: seq<Option<nat>>,
    nest: seq<nat>, waitCpu: seq<nat>, arrival: seq<nat>, clock: nat)

  ghost predicate Threads(n: nat, q: seq<Tid>)
  {
    forall i :: 0 <= i < |q| ==> q[i] < n
  }

  ghost predicate Shape(k: Kernel)
  {
    && |k.idle| == |k.cur| == |k.runq|
    && |k.pri| == |k.affinity| == |k.state| == |k.runqOf| == |k.nest| == |k.waitCpu| == |k.arrival|
    && Threads(|k.pri|, k.idle) && Threads(|k.pri|, k.cur)
    && (forall c :: 0 <= c < |k.runq| ==> Threads(|k.pri|, k.runq[c]))
    && (forall t :: 0 <= t < |k.pri| && k.runqOf[t].Some? ==> k.runqOf[t].value < |k.runq|)
    && (forall t :: 0 <= t < |k.pri| ==> k.waitCpu[t] < |k.runq|)
  }

  ghost predicate IsCpu(k: Kernel, c: nat) { Shape(k) && c < |k.runq| }

  ghost predicate IsThread(k: Kernel, t: Tid) { Shape(k) && t < |k.pri| }

  // ----- run queue lists -----

  /** Where runq_enqueue stops: before the first thread of strictly greater priority value. */
  ghost function Slot(pri: seq<nat>, q: seq<Tid>, t: Tid): (k: nat)
    requires Threads(|pri|, q) && t < |pri|
    ensures k <= |q|
    ensures forall i :: 0 <= i < k ==> pri[q[i]] <= pri[t]
    ensures k < |q| ==> pri[t] < pri[q[k]]
  {
    if q == [] || pri[t] < pri[q[0]] then 0 else 1 + Slot(pri, q[1..], t)
  }

  ghost function Insert(pri: seq<nat>, q: seq<Tid>, t: Tid): (r: seq<Tid>)
    requires Threads(|pri|, q) && t < |pri|
    ensures |r| == |q| + 1 && Threads(|pri|, r)
    ensures forall x :: x in r <==> x == t || x in q
  {
    var k := Slot(pri, q, t);
    var r := q[..k] + [t] + q[k..];
    assert forall x :: x in q <==> x in q[..k] || x in q[k..] by { assert q == q[..k] + q[k..]; }
    r
  }

  /** Better priority first, first come first served among equals. */
  ghost predicate Before(pri: seq<nat>, arrival: seq<nat>, a: Tid, b: Tid)
    requires a < |pri| == |arrival| && b < |pri|
  {
    pri[a] < pri[b] || (pri[a] == pri[b] && arrival[a] < arrival[b])
  }

  ghost predicate Sorted(pri: seq<nat>, arrival: seq<nat>, q: seq<Tid>)
    requires |pri| == |arrival| && Threads(|pri|, q)
  {
    forall i, j :: 0 <= i < j < |q| ==> Before(pri, arrival, q[i], q[j])
  }

  lemma InsertKeepsSorted(pri: seq<nat>, arrival: seq<nat>, now: nat, q: seq<Tid>, t: Tid)
    requires t < |pri| == |arrival| && Threads(|pri|, q) && Sorted(pri, arrival, q)
    requires t !in q && forall i :: 0 <= i < |q| ==> arrival[q[i]] < now
    ensures Sorted(pri, arrival[t := now], Insert(pri, q, t))
  {
    var k, r := Slot(pri, q, t), Insert(pri, q, t);
    forall i, j | 0 <= i < j < |r| ensures Before(pri, arrival[t := now], r[i], r[j]) {
      var i0 := if i < k then i else i - 1;
      var j0 := if j < k then j else j - 1;
      if i == k {
        assert r[j] == q[j0] && j0 >= k;
        if j0 > k { assert Before(pri, arrival, q[k], q[j0]); }
      } else if j == k {
        assert r[i] == q[i0];
      } else {
        assert r[i] == q[i0] && r[j] == q[j0];
        assert Before(pri, arrival, q[i0], q[j0]);
      }
    }
  }

  lemma CutSorted(pri: seq<nat>, arrival: seq<nat>, q: seq<Tid>, i: nat)
    requires |pri| == |arrival| && Threads(|pri|, q) && Sorted(pri, arrival, q) && i < |q|
    ensures Threads(|pri|, q[..i] + q[i + 1..]) && Sorted(pri, arrival, q[..i] + q[i + 1..])
  {
    var r := q[..i] + q[i + 1..];
    forall a, b | 0 <= a < b < |r| ensures r[a] < |pri| && r[b] < |pri| && Before(pri, arrival, r[a], r[b]) {
      var a0, b0 := if a < i then a else a + 1, if b < i then b else b + 1;
      assert r[a] == q[a0] && r[b] == q[b0];
    }
  }

  /** Removing a thread leaves the others in the order they had. */
  lemma RemoveKeepsSorted(pri: seq<nat>, arrival: seq<nat>, q: seq<Tid>, t: Tid)
    requires t < |pri| == |arrival| && Threads(|pri|, q) && Sorted(pri, arrival, q) && t in q
    ensures Threads(|pri|, Remove(q, t)) && Sorted(pri, arrival, Remove(q, t))
    ensures forall x :: x in Remove(q, t) <==> x in q && x != t
  {
    var i :| 0 <= i < |q| && q[i] == t;
    assert forall j :: 0 <= j < i ==> Before(pri, arrival, q[j], q[i]);
    assert forall j :: i < j < |q| ==> Before(pri, arrival, q[i], q[j]);
    RemoveAt(q, i);
    CutMembers(q, i);
    CutSorted(pri, arrival, q, i);
  }

  // ----- queue operations on the kernel -----

  ghost function Enqueue(k: Kernel, c: nat, t: Tid): (r: Kernel)
    requires IsCpu(k, c) && IsThread(k, t)
    ensures Shape(r)
  {
    k.(runq := k.runq[c := Insert(k.pri, k.runq[c], t)], runqOf := k.runqOf[t := Some(c)],
       arrival := k.arrival[t := k.clock], clock := k.clock + 1)
  }

  lemma RemoveThreads(n: nat, q: seq<Tid>, t: Tid)
    requires Threads(n, q)
    ensures Threads(n, Remove(q, t))
  {
    var r := Remove(q, t);
    forall i | 0 <= i < |r| ensures r[i] < n {
      RemoveSubset(q, t, i);
      assert r[i] in q;
    }
  }

  ghost function Dequeue(k: Kernel, t: Tid): (r: Kernel)
    requires IsThread(k, t)
    ensures Shape(r)
  {
    match k.runqOf[t]
    case None => k
    case Some(c) =>
      RemoveThreads(|k.pri|, k.runq[c], t);
      k.(runq := k.runq[c := Remove(k.runq[c], t)], runqOf := k.runqOf[t := None])
  }

  // ----- the invariant -----

  ghost predicate Queues(k: Kernel)
    requires Shape(k)
  {
    && (forall c :: 0 <= c < |k.runq| ==> Sorted(k.pri, k.arrival, k.runq[c]))
    && (forall t :: 0 <= t < |k.pri| ==> k.arrival[t] < k.clock)
  }

  /** thread->runq names exactly the queue the thread is on. */
  ghost predicate Placed(k: Kernel)
    requires Shape(k)
  {
    forall c, t :: 0 <= c < |k.runq| && 0 <= t < |k.pri| ==> (t in k.runq[c] <==> k.runqOf[t] == Some(c))
  }

  /** A thread is paused exactly when it is queued, or (inside the scheduler) taken off to be run. */
  ghost predicate States(k: Kernel, float: set<Tid>)
    requires Shape(k)
  {
    forall t :: 0 <= t < |k.pri| ==>
      (k.state[t] == Paused <==> k.runqOf[t].Some? || t in float) && (k.runqOf[t].Some? ==> t !in float)
  }

  /** Each CPU runs one thread, inside its affinity; only CPU `hole` may hold a thread that stopped running. */
  ghost predicate Currents(k: Kernel, hole: Option<nat>)
    requires Shape(k)
  {
    && (forall c :: 0 <= c < |k.cur| ==> (k.state[k.cur[c]] == Running <==> hole != Some(c)))
    && (forall c :: 0 <= c < |k.cur| ==> c in k.affinity[k.cur[c]])
    && (forall c, d :: 0 <= c < d < |k.cur| ==> k.cur[c] != k.cur[d])
    && (forall t :: 0 <= t < |k.pri| && k.state[t] == Running ==> t in k.cur)
  }

  ghost predicate Idles(k: Kernel, float: set<Tid>)
    requires Shape(k)
  {
    forall c :: 0 <= c < |k.idle| ==>
      && k.affinity[k.idle[c]] == {c}
      && (|| k.state[k.idle[c]] == Running
          || (k.state[k.idle[c]] == Paused && (k.runqOf[k.idle[c]] == Some(c) || k.idle[c] in float)))
  }

  ghost predicate Inv(k: Kernel, hole: Option<nat>, float: set<Tid>)
  {
    Shape(k) && Queues(k) && Placed(k) && States(k, float) && Currents(k, hole) && Idles(k, float)
  }

  lemma DequeueKeepsInv(k: Kernel, t: Tid, hole: Option<nat>, float: set<Tid>)
    requires Inv(k, hole, float) && IsThread(k, t) && k.runqOf[t].Some?
    ensures Inv(Dequeue(k, t), hole, float + {t})
  {
    var c := k.runqOf[t].value;
    RemoveKeepsSorted(k.pri, k.arrival, k.runq[c], t);
  }

  lemma EnqueueKeepsQueues(k: Kernel, c: nat, t: Tid)
    requires IsCpu(k, c) && IsThread(k, t) && Queues(k) && Placed(k) && k.runqOf[t].None?
    ensures Queues(Enqueue(k, c, t))
  {
    var k' := Enqueue(k, c, t);
    forall d | 0 <= d < |k.runq| ensures Sorted(k'.pri, k'.arrival, k'.runq[d]) {
      assert Sorted(k.pri, k.arrival, k.runq[d]) && t !in k.runq[d];
      if d == c {
        InsertKeepsSorted(k.pri, k.arrival, k.clock, k.runq[c], t);
      } else {
        forall i, j | 0 <= i < j < |k.runq[d]| ensures Before(k'.pri, k'.arrival, k.runq[d][i], k.runq[d][j]) {
          assert Before(k.pri, k.arrival, k.runq[d][i], k.runq[d][j]);
        }
      }
    }
  }

  lemma EnqueueKeepsInv(k: Kernel, c: nat, t: Tid, hole: Option<nat>, float: set<Tid>)
    requires Inv(k, hole, float) && IsCpu(k, c) && t in float && IsThread(k, t)
    requires forall d :: 0 <= d < |k.idle| && k.idle[d] == t ==> c == d
    ensures Inv(Enqueue(k, c, t), hole, float - {t})
  {
    EnqueueKeepsQueues(k, c, t);
  }

  // ----- choosing the next thread -----

  /** The tests of find_runq_thread, made by CPU me on the queue of CPU c. */
  ghost predicate Eligible(k: Kernel, me: nat, c: nat, ignoreIdle: bool, t: Tid)
    requires IsCpu(k, c) && IsThread(k, t)
  {
    && k.state[t] == Paused
    && !(k.nest[t] > 1 && c != me)
    && !(ignoreIdle && t == k.idle[c])
    && me in k.affinity[t]
  }

  ghost function Pick(k: Kernel, me: nat, c: nat, ignoreIdle: bool, q: seq<Tid>): (r: Option<Tid>)
    requires IsCpu(k, c) && Threads(|k.pri|, q)
    ensures r.Some? ==> r.value in q && r.value < |k.pri| && Eligible(k, me, c, ignoreIdle, r.value)
    ensures r.None? ==> forall t :: t in q ==> t < |k.pri| && !Eligible(k, me, c, ignoreIdle, t)
  {
    if q == [] then None
    else if Eligible(k, me, c, ignoreIdle, q[0]) then Some(q[0])
    else
      assert q == [q[0]] + q[1..];
      Pick(k, me, c, ignoreIdle, q[1..])
  }

  /** The scan of find_better_runq_thread: it gives up at the first thread that would run on
      this CPU's terms but has worse priority than `rel`. */
  ghost function PickBetter(k: Kernel, me: nat, c: nat, rel: Tid, ignoreIdle: bool, q: seq<Tid>): (r: Option<Tid>)
    requires IsCpu(k, c) && IsThread(k, rel) && Threads(|k.pri|, q)
    ensures r.Some? ==> r.value in q && r.value != rel && r.value < |k.pri|
                        && Eligible(k, me, c, ignoreIdle, r.value) && k.pri[r.value] <= k.pri[rel]
  {
    if q == [] then None
    else if q[0] == rel || k.state[q[0]] != Paused || (k.nest[q[0]] > 1 && c != me)
            || (ignoreIdle && q[0] == k.idle[c]) then PickBetter(k, me, c, rel, ignoreIdle, q[1..])
    else if k.pri[q[0]] > k.pri[rel] then None
    else if me !in k.affinity[q[0]] then PickBetter(k, me, c, rel, ignoreIdle, q[1..])
    else Some(q[0])
  }

  /** On a sorted queue giving up early loses nothing: the choice is the best eligible thread. */
  lemma {:induction false} PickBetterIsBest(k: Kernel, me: nat, c: nat, rel: Tid, ignoreIdle: bool, q: seq<Tid>, u: Tid)
    requires IsCpu(k, c) && IsThread(k, rel) && Threads(|k.pri|, q) && Sorted(k.pri, k.arrival, q)
    requires u in q && u != rel && u < |k.pri| && Eligible(k, me, c, ignoreIdle, u)
    ensures match PickBetter(k, me, c, rel, ignoreIdle, q)
            case Some(t) => k.pri[t] <= k.pri[u]
            case None => k.pri[rel] < k.pri[u]
  {
    var i :| 0 <= i < |q| && q[i] == u;
    if i == 0 {
    } else {
      assert Before(k.pri, k.arrival, q[0], q[i]);
      assert q[1..][i - 1] == u;
      PickBetterIsBest(k, me, c, rel, ignoreIdle, q[1..], u);
    }
  }

  /** The search of the other CPUs' queues, from CPU i on. */
  ghost function Steal(k: Kernel, me: nat, i: nat): (r: Option<Tid>)
    requires Shape(k) && i <= |k.runq|
    ensures r.Some? ==> r.value < |k.pri| && exists c :: i <= c < |k.runq| && c != me && r.value in k.runq[c]
                                                         && Eligible(k, me, c, true, r.value)
    decreases |k.runq| - i
  {
    if i == |k.runq| then None
    else if i != me && Pick(k, me, i, true, k.runq[i]).Some? then Pick(k, me, i, true, k.runq[i])
    else Steal(k, me, i + 1)
  }

  ghost function StealBetter(k: Kernel, me: nat, rel: Tid, i: nat): (r: Option<Tid>)
    requires Shape(k) && i <= |k.runq| && IsThread(k, rel)
    ensures r.Some? ==> r.value != rel && r.value < |k.pri| && k.pri[r.value] <= k.pri[rel]
    ensures r.Some? ==> exists c :: i <= c < |k.runq| && c != me && r.value in k.runq[c]
                                    && Eligible(k, me, c, true, r.value)
    decreases |k.runq| - i
  {
    if i == |k.runq| then None
    else if i != me && PickBetter(k, me, i, rel, true, k.runq[i]).Some? then
      PickBetter(k, me, i, rel, true, k.runq[i])
    else StealBetter(k, me, rel, i + 1)
  }

  /** find_thread either finds a thread and takes it off its queue, finds none, or (with an
      empty-handed own queue and a thread to steal) enqueues a null pointer. */
  datatype Found = Thread(k: Kernel, t: Tid) | Nothing | NullEnqueue

  ghost function NextThread(k: Kernel, me: nat): (r: Found)
    requires IsCpu(k, me)
  {
    var own := Pick(k, me, me, false, k.runq[me]);
    var k1 := if own.Some? then Dequeue(k, own.value) else k;
    if own.Some? && own.value != k.idle[me] then Thread(k1, own.value)
    else
      var other := Steal(k1, me, 0);
      if other.None? then (if own.Some? then Thread(k1, own.value) else Nothing)
      else if own.None? then NullEnqueue
      else Thread(Enqueue(Dequeue(k1, other.value), me, own.value), other.value)
  }

  ghost function FindBetter(k: Kernel, me: nat): (r: Option<Tid>)
    requires IsCpu(k, me)
  {
    var own := PickBetter(k, me, me, k.cur[me], true, k.runq[me]);
    if own.Some? then own else StealBetter(k, me, k.cur[me], 0)
  }

  // ----- switching -----

  ghost function Switch(k: Kernel, me: nat, t: Tid): (r: Kernel)
    requires IsCpu(k, me) && IsThread(k, t)
  {
    var u := k.cur[me];
    if t == u then k
    else
      var k1 := if k.state[u] == Running then Enqueue(k.(state := k.state[u := Paused]), me, u) else k;
      k1.(cur := k1.cur[me := t], state := k1.state[t := Running])
  }

  ghost function TestBetter(k: Kernel, me: nat): (r: Kernel)
    requires IsCpu(k, me)
  {
    var b := FindBetter(k, me);
    if b.Some? then Switch(Dequeue(k, b.value), me, b.value) else k
  }

  /** What test_paused_thread does with a thread that stopped running; None is the panic. */
  ghost function TestPaused(k: Kernel, me: nat): (r: Option<Kernel>)
    requires IsCpu(k, me)
  {
    if k.state[k.cur[me]] == Running then Some(k)
    else
      match NextThread(k, me)
      case Thread(k', t) => if IsCpu(k', me) && IsThread(k', t) then Some(Switch(k', me, t)) else None
      case Nothing => None
      case NullEnqueue => None
  }

  /** sched_run, called on CPU me. */
  ghost function SchedRun(k: Kernel, me: nat, t: Tid): (r: Kernel)
    requires IsCpu(k, me) && IsThread(k, t)
  {
    var k1 := Enqueue(k, k.waitCpu[t], t);
    if k1.cur[me] == k1.idle[me] then TestBetter(k1, me) else k1
  }

  // ----- preservation -----

  ghost function Install(k: Kernel, me: nat, t: Tid): Kernel
    requires IsCpu(k, me) && IsThread(k, t)
  {
    k.(cur := k.cur[me := t], state := k.state[t := Running])
  }

  lemma InstallKeepsCurrents(k: Kernel, me: nat, t: Tid)
    requires IsCpu(k, me) && IsThread(k, t) && Currents(k, Some(me)) && me in k.affinity[t] && k.state[t] == Paused
    ensures Shape(Install(k, me, t)) && Currents(Install(k, me, t), None)
  {
    var k' := Install(k, me, t);
    assert k'.cur[me] == t;
    forall x | 0 <= x < |k.pri| && k'.state[x] == Running ensures x in k'.cur {
      if x != t {
        var c :| 0 <= c < |k.cur| && k.cur[c] == x;
        assert k'.cur[c] == x;
      }
    }
  }

  lemma InstallKeepsInv(k: Kernel, me: nat, t: Tid)
    requires IsCpu(k, me) && IsThread(k, t) && Inv(k, Some(me), {t}) && me in k.affinity[t]
    ensures Inv(Install(k, me, t), None, {})
  {
    InstallKeepsCurrents(k, me, t);
  }

  lemma ParkKeepsInv(k: Kernel, me: nat, float: set<Tid>)
    requires IsCpu(k, me) && Inv(k, None, float)
    ensures Inv(k.(state := k.state[k.cur[me] := Paused]), Some(me), float + {k.cur[me]})
  {
    var u := k.cur[me];
    assert forall c :: 0 <= c < |k.cur| && c != me ==> k.cur[c] != u;
    IdleElsewhere(k, me, None, float);
  }

  lemma SwitchKeepsInv(k: Kernel, me: nat, t: Tid, hole: Option<nat>)
    requires IsCpu(k, me) && IsThread(k, t) && Inv(k, hole, {t}) && (hole == None || hole == Some(me))
    requires me in k.affinity[t] && t != k.cur[me]
    ensures Inv(Switch(k, me, t), None, {})
  {
    var u := k.cur[me];
    if hole == None {
      ParkKeepsInv(k, me, {t});
      var k0 := k.(state := k.state[u := Paused]);
      IdleElsewhere(k, me, hole, {t});
      EnqueueKeepsInv(k0, me, u, Some(me), {t, u});
      assert {t, u} - {u} == {t};
      InstallKeepsInv(Enqueue(k0, me, u), me, t);
    } else {
      InstallKeepsInv(k, me, t);
    }
  }

  lemma TestBetterKeepsInv(k: Kernel, me: nat)
    requires IsCpu(k, me) && Inv(k, None, {})
    ensures Inv(TestBetter(k, me), None, {})
  {
    var b := FindBetter(k, me);
    if b.Some? {
      DequeueKeepsInv(k, b.value, None, {});
      assert {} + {b.value} == {b.value};
      SwitchKeepsInv(Dequeue(k, b.value), me, b.value, None);
    }
  }

  lemma OneIdleEach(k: Kernel, c: nat)
    requires IsCpu(k, c) && forall d :: 0 <= d < |k.idle| ==> k.affinity[k.idle[d]] == {d}
    ensures forall d :: 0 <= d < |k.idle| && k.idle[d] == k.idle[c] ==> d == c
  {
    assert c in k.affinity[k.idle[c]];
  }

  /** find_thread stealing o while it holds its own idle thread. */
  lemma SwapKeepsInv(k: Kernel, me: nat, o: Tid)
    requires IsCpu(k, me) && Inv(k, Some(me), {k.idle[me]}) && IsThread(k, o)
    requires o != k.idle[me] && k.runqOf[o].Some?
    ensures Inv(Enqueue(Dequeue(k, o), me, k.idle[me]), Some(me), {o})
  {
    var id := k.idle[me];
    DequeueKeepsInv(k, o, Some(me), {id});
    assert {id} + {o} == {id, o};
    OneIdleEach(k, me);
    EnqueueKeepsInv(Dequeue(k, o), me, id, Some(me), {id, o});
    assert {id, o} - {id} == {o};
  }

  /** A stolen thread comes from another CPU's queue, and is not in the middle of kernel code. */
  lemma StolenIsQueued(k: Kernel, me: nat)
    requires IsCpu(k, me) && Placed(k) && Steal(k, me, 0).Some?
    ensures var o := Steal(k, me, 0).value;
            IsThread(k, o) && k.runqOf[o].Some? && k.runqOf[o] != Some(me) && me in k.affinity[o] && k.nest[o] <= 1
  {
    var o := Steal(k, me, 0).value;
    var c :| 0 <= c < |k.runq| && c != me && o in k.runq[c] && Eligible(k, me, c, true, o);
  }

  /** A running idle thread runs on its own CPU. */
  lemma IdleRunsAtHome(k: Kernel, c: nat, hole: Option<nat>, float: set<Tid>)
    requires IsCpu(k, c) && Inv(k, hole, float)
    ensures k.state[k.idle[c]] == Running ==> k.cur[c] == k.idle[c]
  {
    var id := k.idle[c];
    if k.state[id] == Running {
      var d :| 0 <= d < |k.cur| && k.cur[d] == id;
      assert d in k.affinity[id];
    }
  }

  lemma IdleElsewhere(k: Kernel, c: nat, hole: Option<nat>, float: set<Tid>)
    requires IsCpu(k, c) && Inv(k, hole, float)
    ensures forall d :: 0 <= d < |k.idle| && k.idle[d] == k.cur[c] ==> d == c
  {
    assert c in k.affinity[k.cur[c]];
  }

  /** The idle thread of a CPU that runs nothing is on that CPU's queue and may be picked. */
  lemma IdleIsReady(k: Kernel, me: nat)
    requires IsCpu(k, me) && Inv(k, Some(me), {})
    ensures k.runqOf[k.idle[me]] == Some(me)
    ensures Pick(k, me, me, false, k.runq[me]).Some?
  {
    IdleRunsAtHome(k, me, Some(me), {});
    assert k.idle[me] in k.runq[me] && Eligible(k, me, me, false, k.idle[me]);
  }

  ghost predicate Ready(k: Kernel, me: nat, f: Found)
    requires Shape(k)
  {
    && f.Thread? && IsCpu(f.k, me) && IsThread(f.k, f.t) && Inv(f.k, Some(me), {f.t})
    && me in f.k.affinity[f.t] && f.t != f.k.cur[me]
  }

  /** A CPU whose thread stopped running always finds another one. */
  lemma FindThreadFinds(k: Kernel, me: nat)
    requires IsCpu(k, me) && Inv(k, Some(me), {}) && k.state[k.cur[me]] != Paused
    ensures Ready(k, me, NextThread(k, me))
  {
    IdleIsReady(k, me);
    var own := Pick(k, me, me, false, k.runq[me]).value;
    DequeueKeepsInv(k, own, Some(me), {});
    assert {} + {own} == {own};
    var k1 := Dequeue(k, own);
    if own == k.idle[me] && Steal(k1, me, 0).Some? {
      StolenIsQueued(k1, me);
      SwapKeepsInv(k1, me, Steal(k1, me, 0).value);
    }
  }

  lemma TestPausedKeepsInv(k: Kernel, me: nat)
    requires IsCpu(k, me) && Inv(k, Some(me), {}) && k.state[k.cur[me]] != Paused
    ensures TestPaused(k, me).Some? && Inv(TestPaused(k, me).value, None, {})
  {
    FindThreadFinds(k, me);
    var f := NextThread(k, me);
    SwitchKeepsInv(f.k, me, f.t, Some(me));
  }

  // ----- every run -----

  datatype Event =
    | Sleep(c: nat)                  // the current thread of c waits, and c picks another one
    | Exit(c: nat)                   // the current thread of c ends, and c picks another one
    | Wake(c: nat, t: Tid)           // code on c wakes t
    | WakeStopped(t: Tid)            // t is woken while its process is stopped
    | Spawn(c: nat)                  // the current thread of c clones itself
    | Resched(c: nat)                // timer tick or reschedule request on c
    | Nest(c: nat, level: nat)       // c enters or leaves a trap
    | Renice(c: nat, pri: nat)       // the current thread of c sets its priority
    | Stop(t: Tid)                   // a queued thread is stopped
    | Continue(c: nat, t: Tid)       // code on c continues a stopped thread

  ghost predicate Enabled(k: Kernel, e: Event)
    requires Shape(k)
  {
    match e
    case Sleep(c) => c < |k.runq| && k.cur[c] != k.idle[c]
    case Exit(c) => c < |k.runq| && k.cur[c] != k.idle[c]
    case Wake(c, t) => c < |k.runq| && t < |k.pri| && k.state[t] == Waiting
    case WakeStopped(t) => t < |k.pri| && k.state[t] == Waiting
    case Spawn(c) => c < |k.runq| && k.cur[c] != k.idle[c]
    case Resched(c) => c < |k.runq|
    case Nest(c, level) => c < |k.runq|
    case Renice(c, pri) => c < |k.runq|
    case Stop(t) => t < |k.pri| && k.state[t] == Paused && t !in k.idle
    case Continue(c, t) => c < |k.runq| && t < |k.pri| && k.state[t] == Stopped
  }

  /** The clone before sched_run sees it: paused, on no queue, bound for CPU 0. */
  ghost function Clone(k: Kernel, u: Tid): (r: Kernel)
    requires IsThread(k, u) && |k.runq| > 0
    ensures Shape(r)
  {
    k.(pri := k.pri + [k.pri[u]], affinity := k.affinity + [k.affinity[u]], state := k.state + [Paused],
       runqOf := k.runqOf + [None], nest := k.nest + [k.nest[u]], waitCpu := k.waitCpu + [0],
       arrival := k.arrival + [0])
  }

  /** None is a kernel panic. */
  ghost function Step(k: Kernel, e: Event): (r: Option<Kernel>)
    requires Shape(k) && Enabled(k, e)
  {
    match e
    case Sleep(c) =>
      var u := k.cur[c];
      TestPaused(k.(state := k.state[u := Waiting], waitCpu := k.waitCpu[u := c]), c)
    case Exit(c) => TestPaused(k.(state := k.state[k.cur[c] := Zombie]), c)
    case Wake(c, t) => Some(SchedRun(k.(state := k.state[t := Paused]), c, t))
    case WakeStopped(t) => Some(k.(state := k.state[t := Stopped]))
    case Spawn(c) => Some(SchedRun(Clone(k, k.cur[c]), c, |k.pri|))
    case Resched(c) => if k.state[k.cur[c]] != Running then TestPaused(k, c) else Some(TestBetter(k, c))
    case Nest(c, level) => Some(k.(nest := k.nest[k.cur[c] := level]))
    case Renice(c, pri) => Some(k.(pri := k.pri[k.cur[c] := pri]))
    case Stop(t) => Some(Dequeue(k.(state := k.state[t := Stopped]), t))
    case Continue(c, t) => Some(SchedRun(k.(state := k.state[t := Paused]), c, t))
  }

  lemma SchedRunKeepsInv(k: Kernel, me: nat, t: Tid)
    requires IsCpu(k, me) && IsThread(k, t) && Inv(k, None, {t}) && t !in k.idle
    ensures Inv(SchedRun(k, me, t), None, {})
  {
    EnqueueKeepsInv(k, k.waitCpu[t], t, None, {t});
    assert {t} - {t} == {};
    var k1 := Enqueue(k, k.waitCpu[t], t);
    if k1.cur[me] == k1.idle[me] { TestBetterKeepsInv(k1, me); }
  }

  lemma SleepOpensHole(k: Kernel, c: nat)
    requires IsCpu(k, c) && Inv(k, None, {}) && k.cur[c] != k.idle[c]
    ensures Inv(k.(state := k.state[k.cur[c] := Waiting], waitCpu := k.waitCpu[k.cur[c] := c]), Some(c), {})
  {
    var u := k.cur[c];
    assert forall d :: 0 <= d < |k.cur| && d != c ==> k.cur[d] != u;
    IdleElsewhere(k, c, None, {});
  }

  lemma ExitOpensHole(k: Kernel, c: nat)
    requires IsCpu(k, c) && Inv(k, None, {}) && k.cur[c] != k.idle[c]
    ensures Inv(k.(state := k.state[k.cur[c] := Zombie]), Some(c), {})
  {
    var u := k.cur[c];
    assert forall d :: 0 <= d < |k.cur| && d != c ==> k.cur[d] != u;
    IdleElsewhere(k, c, None, {});
  }

  lemma WakeFloats(k: Kernel, t: Tid)
    requires Inv(k, None, {}) && IsThread(k, t) && (k.state[t] == Waiting || k.state[t] == Stopped)
    ensures Inv(k.(state := k.state[t := Paused]), None, {t}) && t !in k.idle
  {
  }

  lemma CloneFloats(k: Kernel, u: Tid)
    requires Inv(k, None, {}) && IsThread(k, u) && |k.runq| > 0
    ensures Inv(Clone(k, u), None, {|k.pri|}) && |k.pri| !in k.idle
  {
    var k' := Clone(k, u);
    assert k.arrival[u] < k.clock;
    forall c | 0 <= c < |k.runq| ensures Sorted(k'.pri, k'.arrival, k'.runq[c]) && |k.pri| !in k.runq[c] {
      var q := k.runq[c];
      assert Sorted(k.pri, k.arrival, q);
      forall i, j | 0 <= i < j < |q| ensures Before(k'.pri, k'.arrival, q[i], q[j]) {
        assert Before(k.pri, k.arrival, q[i], q[j]);
      }
    }
  }

  lemma ReniceKeepsInv(k: Kernel, c: nat, p: nat)
    requires IsCpu(k, c) && Inv(k, None, {})
    ensures Inv(k.(pri := k.pri[k.cur[c] := p]), None, {})
  {
    var k' := k.(pri := k.pri[k.cur[c] := p]);
    forall d | 0 <= d < |k.runq| ensures Sorted(k'.pri, k'.arrival, k'.runq[d]) {
      var q := k.runq[d];
      assert Sorted(k.pri, k.arrival, q) && k.cur[c] !in q;
      forall i, j | 0 <= i < j < |q| ensures Before(k'.pri, k'.arrival, q[i], q[j]) {
        assert Before(k.pri, k.arrival, q[i], q[j]);
      }
    }
  }

  lemma FloatStops(k: Kernel, t: Tid)
    requires Inv(k, None, {t}) && IsThread(k, t) && t !in k.idle
    ensures Inv(k.(state := k.state[t := Stopped]), None, {})
  {
  }

  lemma StopKeepsInv(k: Kernel, t: Tid)
    requires Inv(k, None, {}) && IsThread(k, t) && k.state[t] == Paused && t !in k.idle
    ensures Inv(Dequeue(k.(state := k.state[t := Stopped]), t), None, {})
  {
    DequeueKeepsInv(k, t, None, {});
    assert {} + {t} == {t};
    FloatStops(Dequeue(k, t), t);
  }

  lemma SleepIsSafe(k: Kernel, c: nat)
    requires Inv(k, None, {}) && Enabled(k, Sleep(c))
    ensures Step(k, Sleep(c)).Some? && Inv(Step(k, Sleep(c)).value, None, {})
  {
    SleepOpensHole(k, c);
    TestPausedKeepsInv(k.(state := k.state[k.cur[c] := Waiting], waitCpu := k.waitCpu[k.cur[c] := c]), c);
  }

  lemma ExitIsSafe(k: Kernel, c: nat)
    requires Inv(k, None, {}) && Enabled(k, Exit(c))
    ensures Step(k, Exit(c)).Some? && Inv(Step(k, Exit(c)).value, None, {})
  {
    ExitOpensHole(k, c);
    TestPausedKeepsInv(k.(state := k.state[k.cur[c] := Zombie]), c);
  }

  /** No step panics, and every step keeps the invariant. */
  lemma StepIsSafe(k: Kernel, e: Event)
    requires Inv(k, None, {}) && Enabled(k, e)
    ensures Step(k, e).Some? && Inv(Step(k, e).value, None, {})
  {
    match e {
      case Sleep(c) => SleepIsSafe(k, c);
      case Exit(c) => ExitIsSafe(k, c);
      case Wake(c, t) => WakeFloats(k, t); SchedRunKeepsInv(k.(state := k.state[t := Paused]), c, t);
      case WakeStopped(t) =>
      case Spawn(c) => CloneFloats(k, k.cur[c]); SchedRunKeepsInv(Clone(k, k.cur[c]), c, |k.pri|);
      case Resched(c) => TestBetterKeepsInv(k, c);
      case Nest(c, level) =>
      case Renice(c, p) => ReniceKeepsInv(k, c, p);
      case Stop(t) => StopKeepsInv(k, t);
      case Continue(c, t) => WakeFloats(k, t); SchedRunKeepsInv(k.(state := k.state[t := Paused]), c, t);
    }
  }

  const PRI_USER: nat := 100
  const PRI_IDLE: nat := 255

  ghost function AllCpus(n: nat): (r: set<nat>)
    ensures forall c :: c in r <==> 0 <= c < n
  {
    if n == 0 then {} else AllCpus(n - 1) + {n - 1}
  }

  /** n CPUs after boot, each running its idle thread: thread c is the idle thread of CPU c, and
      thread n, the init thread, may run anywhere and waits on the queue of CPU 0. */
  ghost function Booted(n: nat): (k: Kernel)
    requires n > 0
  {
    Kernel(seq(n, c => c), seq(n, c => c), seq(n, c => if c == 0 then [n] else []),
           seq(n, _ => PRI_IDLE) + [PRI_USER], seq(n, c => {c}) + [AllCpus(n)],
           seq(n, _ => Running) + [Paused], seq(n, _ => None) + [Some(0)], seq(n, _ => 0) + [1],
           seq(n, c => c) + [0], seq(n + 1, _ => 0), 1)
  }

  lemma BootedInv(n: nat)
    requires n > 0
    ensures Inv(Booted(n), None, {})
  {
    var k := Booted(n);
    forall t | 0 <= t < n ensures t in k.cur { assert k.cur[t] == t; }
    BootedPlaced(n);
  }

  lemma BootedPlaced(n: nat)
    requires n > 0
    ensures Shape(Booted(n)) && Queues(Booted(n)) && Placed(Booted(n)) && States(Booted(n), {})
  {
    assert Booted(n).runq[0] == [n];
  }

  ghost predicate IsRun(k: Kernel, es: seq<Event>)
    decreases |es|
  {
    es == [] || (Shape(k) && Enabled(k, es[0]) && (Step(k, es[0]).Some? ==> IsRun(Step(k, es[0]).value, es[1..])))
  }

  ghost function Run(k: Kernel, es: seq<Event>): Option<Kernel>
    requires IsRun(k, es)
    decreases |es|
  {
    if es == [] then Some(k)
    else if Step(k, es[0]).None? then None
    else Run(Step(k, es[0]).value, es[1..])
  }

  /** Through every run from boot the scheduler never panics, and: a thread is current on one CPU
      at most and never queued at the same time; thread->runq names its queue; queues are in
      priority order, first come first served; threads run inside their affinity; and an idle
      thread is current on its CPU or queued there. */
  lemma {:induction false} RunsAreSafe(k: Kernel, es: seq<Event>)
    requires Inv(k, None, {}) && IsRun(k, es)
    ensures Run(k, es).Some? && Inv(Run(k, es).value, None, {})
    decreases |es|
  {
    if es == [] {
    } else {
      StepIsSafe(k, es[0]);
      RunsAreSafe(Step(k, es[0]).value, es[1..]);
    }
  }

  ghost predicate Reachable(k: Kernel)
  {
    exists n: nat, es :: n > 0 && IsRun(Booted(n), es) && Run(Booted(n), es) == Some(k)
  }

  lemma ReachableInv(k: Kernel)
    requires Reachable(k)
    ensures Inv(k, None, {})
  {
    var n: nat, es :| n > 0 && IsRun(Booted(n), es) && Run(Booted(n), es) == Some(k);
    BootedInv(n);
    RunsAreSafe(Booted(n), es);
  }

  /** A run from boot on two CPUs that gets somewhere: init runs on CPU 0 and clones itself twice,
      CPU 1 steals the first clone, the second one waits, and both idle threads are queued. */
  lemma BusyRun()
    ensures var es := [Resched(0), Spawn(0), Spawn(0), Resched(1)];
            IsRun(Booted(2), es) && Run(Booted(2), es) == Some(Busy4())
    ensures Reachable(Busy4()) && Inv(Busy4(), None, {})
    ensures Busy4().idle == [0, 1] && Busy4().cur == [2, 3] && Busy4().runq == [[4, 0], [1]]
  {
    BootedTwo();
    InitStarts();
    InitClones();
    InitClonesAgain();
    CloneIsStolen();
    RunFour(Busy0(), Resched(0), Busy1(), Spawn(0), Busy2(), Spawn(0), Busy3(), Resched(1), Busy4());
    IsReached(2, [Resched(0), Spawn(0), Spawn(0), Resched(1)], Busy4());
    ReachableInv(Busy4());
  }

  lemma IsReached(n: nat, es: seq<Event>, k: Kernel)
    requires n > 0 && IsRun(Booted(n), es) && Run(Booted(n), es) == Some(k)
    ensures Reachable(k)
  {
  }

  lemma RunCons(k: Kernel, e: Event, es: seq<Event>)
    requires Shape(k) && Enabled(k, e) && Step(k, e).Some? && IsRun(Step(k, e).value, es)
    ensures IsRun(k, [e] + es) && Run(k, [e] + es) == Run(Step(k, e).value, es)
  {
    assert ([e] + es)[1..] == es;
  }

  ghost predicate Goes(k: Kernel, e: Event, k': Kernel) {
    Shape(k) && Enabled(k, e) && Step(k, e) == Some(k')
  }

  lemma RunFour(k: Kernel, e: Event, k1: Kernel, e1: Event, k2: Kernel, e2: Event, k3: Kernel, e3: Event, k4: Kernel)
    requires Goes(k, e, k1) && Goes(k1, e1, k2) && Goes(k2, e2, k3) && Goes(k3, e3, k4)
    ensures IsRun(k, [e, e1, e2, e3]) && Run(k, [e, e1, e2, e3]) == Some(k4)
  {
    RunCons(k3, e3, []);
    RunCons(k2, e2, [e3]);
    RunCons(k1, e1, [e2, e3]);
    RunCons(k, e, [e1, e2, e3]);
    assert [e3] + [] == [e3] && [e2] + [e3] == [e2, e3];
    assert [e1] + [e2, e3] == [e1, e2, e3] && [e] + [e1, e2, e3] == [e, e1, e2, e3];
  }

  ghost function Busy0(): Kernel {
    Kernel([0, 1], [0, 1], [[2], []], [PRI_IDLE, PRI_IDLE, PRI_USER], [{0}, {1}, AllCpus(2)],
           [Running, Running, Paused], [None, None, Some(0)], [0, 0, 1], [0, 1, 0], [0, 0, 0], 1)
  }

  lemma BootedTwo()
    ensures Booted(2) == Busy0()
  {
  }

  ghost function Busy1(): Kernel {
    Kernel([0, 1], [2, 1], [[0], []], [PRI_IDLE, PRI_IDLE, PRI_USER], [{0}, {1}, AllCpus(2)],
           [Paused, Running, Running], [Some(0), None, None], [0, 0, 1], [0, 1, 0], [1, 0, 0], 2)
  }

  ghost function Busy2(): Kernel {
    Kernel([0, 1], [2, 1], [[3, 0], []], [PRI_IDLE, PRI_IDLE, PRI_USER, PRI_USER],
           [{0}, {1}, AllCpus(2), AllCpus(2)], [Paused, Running, Running, Paused],
           [Some(0), None, None, Some(0)], [0, 0, 1, 1], [0, 1, 0, 0], [1, 0, 0, 2], 3)
  }

  ghost function Busy3(): Kernel {
    Kernel([0, 1], [2, 1], [[3, 4, 0], []], [PRI_IDLE, PRI_IDLE, PRI_USER, PRI_USER, PRI_USER],
           [{0}, {1}, AllCpus(2), AllCpus(2), AllCpus(2)], [Paused, Running, Running, Paused, Paused],
           [Some(0), None, None, Some(0), Some(0)], [0, 0, 1, 1, 1], [0, 1, 0, 0, 0], [1, 0, 0, 2, 3], 4)
  }

  ghost function Busy4(): Kernel {
    Kernel([0, 1], [2, 3], [[4, 0], [1]], [PRI_IDLE, PRI_IDLE, PRI_USER, PRI_USER, PRI_USER],
           [{0}, {1}, AllCpus(2), AllCpus(2), AllCpus(2)], [Paused, Paused, Running, Running, Paused],
           [Some(0), Some(1), None, None, Some(0)], [0, 0, 1, 1, 1], [0, 1, 0, 0, 0], [1, 4, 0, 2, 3], 5)
  }

  lemma InitStarts()
    ensures Goes(Busy0(), Resched(0), Busy1())
  {
    var k := Busy0();
    assert PickBetter(k, 0, 0, 0, true, [2]) == Some(2);
    assert Remove([2], 2) == [];
    TakesOver(k, 0, 2, [0], Busy1());
  }

  lemma InitClones()
    ensures Goes(Busy1(), Spawn(0), Busy2())
  {
    var k := Clone(Busy1(), 2);
    assert Slot(k.pri, [0], 3) == 0;
    assert Insert(k.pri, [0], 3) == [3, 0];
    assert Enqueue(k, 0, 3) == Busy2();
  }

  lemma InitClonesAgain()
    ensures Goes(Busy2(), Spawn(0), Busy3())
  {
    var k := Clone(Busy2(), 2);
    assert [3, 0][1..] == [0];
    assert Slot(k.pri, [0], 4) == 0;
    assert Slot(k.pri, [3, 0], 4) == 1;
    assert Insert(k.pri, [3, 0], 4) == [3, 4, 0];
    assert Enqueue(k, 0, 4) == Busy3();
  }

  /** A reschedule on a CPU with nothing else on its queue, seen as one change. */
  lemma TakesOver(k: Kernel, me: nat, t: Tid, q: seq<Tid>, k': Kernel)
    requires IsCpu(k, me) && IsThread(k, t) && k.runqOf[t].Some? && t != k.cur[me] && FindBetter(k, me) == Some(t)
    requires k.state[k.cur[me]] == Running && Dequeue(k, t).runq[me] == [] && q == [k.cur[me]]
    requires k' == k.(
      runq := Dequeue(k, t).runq[me := q], runqOf := k.runqOf[t := None][k.cur[me] := Some(me)],
      state := k.state[k.cur[me] := Paused][t := Running], cur := k.cur[me := t],
      arrival := k.arrival[k.cur[me] := k.clock], clock := k.clock + 1)
    ensures Goes(k, Resched(me), k')
  {
    var k1, u := Dequeue(k, t), k.cur[me];
    var k2 := k1.(state := k1.state[u := Paused]);
    assert Slot(k2.pri, [], u) == 0;
    assert Insert(k2.pri, [], u) == [u];
    assert Switch(k1, me, t) == k';
  }

  lemma CloneIsStolen()
    ensures Goes(Busy3(), Resched(1), Busy4())
  {
    CloneIsFound();
    assert Remove([3, 4, 0], 3) == [4, 0];
    TakesOver(Busy3(), 1, 3, [1], Busy4());
  }

  lemma CloneIsFound()
    ensures Shape(Busy3()) && FindBetter(Busy3(), 1) == Some(3)
  {
    var k := Busy3();
    assert PickBetter(k, 1, 1, 1, true, []) == None;
    assert PickBetter(k, 1, 0, 1, true, [3, 4, 0]) == Some(3);
    assert StealBetter(k, 1, 1, 0) == Some(3);
  }

  // ----- what every state of every run satisfies -----

  lemma OneCpuPerThread(k: Kernel, c: nat, d: nat)
    requires Inv(k, None, {}) && IsCpu(k, c) && IsCpu(k, d)
    ensures k.cur[c] !in k.runq[d]
    ensures c != d ==> k.cur[c] != k.cur[d]
  {
  }

  lemma IdleIsCurrentOrQueued(k: Kernel, c: nat)
    requires Inv(k, None, {}) && IsCpu(k, c)
    ensures k.cur[c] == k.idle[c] || (k.state[k.idle[c]] == Paused && k.idle[c] in k.runq[c])
  {
    IdleRunsAtHome(k, c, None, {});
  }

  /** After a reschedule nothing on the CPU's own queue that may run there is strictly better
      than what runs. */
  lemma ReschedRunsTheBest(k: Kernel, me: nat, u: Tid)
    requires Inv(k, None, {}) && IsCpu(k, me)
    ensures var k' := TestBetter(k, me);
            IsCpu(k', me) && IsThread(k', u) && u in k'.runq[me] && Eligible(k', me, me, true, u)
            ==> k'.pri[k'.cur[me]] <= k'.pri[u]
  {
    var k', rel, b := TestBetter(k, me), k.cur[me], FindBetter(k, me);
    if IsCpu(k', me) && IsThread(k', u) && u in k'.runq[me] && Eligible(k', me, me, true, u) {
      if b.Some? {
        DequeueKeepsInv(k, b.value, None, {});
        RemoveSubsetAll(k, b.value, me);
      }
      if u != rel {
        PickBetterIsBest(k, me, me, rel, true, k.runq[me], u);
      }
    }
  }

  lemma RemoveSubsetAll(k: Kernel, t: Tid, c: nat)
    requires IsThread(k, t) && IsCpu(k, c) && k.runqOf[t].Some? && Queues(k) && Placed(k)
    ensures forall x :: x in Dequeue(k, t).runq[c] ==> x in k.runq[c]
  {
    RemoveKeepsSorted(k.pri, k.arrival, k.runq[k.runqOf[t].value], t);
  }

  /** The CPU a thread that can be picked belongs to: that of its queue, or the one it slept on. */
  ghost predicate AtHome(k: Kernel, t: Tid, c: nat)
    requires IsThread(k, t)
  {
    k.runqOf[t] == Some(c) || (k.runqOf[t] == None && k.waitCpu[t] == c)
  }

  /** A reschedule makes a thread nested in the kernel current only on the CPU whose queue it is on. */
  lemma BetterIsAtHome(k: Kernel, me: nat, t: Tid)
    requires IsCpu(k, me) && Placed(k) && IsThread(k, t) && k.nest[t] > 1 && k.cur[me] != t
    ensures TestBetter(k, me).cur[me] == t ==> k.runqOf[t] == Some(me)
  {
  }

  lemma BetterIsLocal(k: Kernel, me: nat, c: nat)
    requires IsCpu(k, me) && IsCpu(k, c) && c != me
    ensures IsCpu(TestBetter(k, me), c) && TestBetter(k, me).cur[c] == k.cur[c]
  {
  }

  /** The same when the current thread stops running. */
  lemma SleeperGivesWayTo(k: Kernel, me: nat)
    requires IsCpu(k, me) && Inv(k, Some(me), {}) && k.state[k.cur[me]] != Paused
    ensures var f := NextThread(k, me);
            f.Thread? && IsThread(k, f.t) && (k.nest[f.t] > 1 ==> k.runqOf[f.t] == Some(me))
  {
    FindThreadFinds(k, me);
    var own := Pick(k, me, me, false, k.runq[me]).value;
    var k1 := Dequeue(k, own);
    if own == k.idle[me] && Steal(k1, me, 0).Some? {
      DequeueKeepsInv(k, own, Some(me), {});
      StolenIsQueued(k1, me);
    }
  }

  /** A CPU that lost its thread leaves the others alone and keeps nested threads at home. */
  lemma PausedIsAtHome(k: Kernel, me: nat, c: nat, t: Tid)
    requires IsCpu(k, me) && Inv(k, Some(me), {}) && k.state[k.cur[me]] != Paused
    requires IsCpu(k, c) && IsThread(k, t) && k.nest[t] > 1 && k.cur[c] != t
    ensures TestPaused(k, me).Some? && IsCpu(TestPaused(k, me).value, c)
    ensures TestPaused(k, me).value.cur[c] == t ==> k.runqOf[t] == Some(c)
  {
    TestPausedKeepsInv(k, me);
    SleeperGivesWayTo(k, me);
    FindThreadFinds(k, me);
    NextKeepsCurrents(k, me);
  }

  lemma NextKeepsCurrents(k: Kernel, me: nat)
    requires IsCpu(k, me) && NextThread(k, me).Thread?
    ensures NextThread(k, me).k.cur == k.cur && NextThread(k, me).k.nest == k.nest
  {
  }

  /** Thread t was not made current on c, or it belongs there. */
  ghost predicate Stays(k: Kernel, r: Option<Kernel>, c: nat, t: Tid)
    requires IsThread(k, t)
  {
    r.Some? && IsCpu(r.value, c) && (r.value.cur[c] == t ==> AtHome(k, t, c))
  }

  ghost predicate NestedElsewhere(k: Kernel, c: nat, t: Tid) {
    IsCpu(k, c) && IsThread(k, t) && k.nest[t] > 1 && k.cur[c] != t
  }

  lemma BetterStays(k: Kernel, me: nat, c: nat, t: Tid)
    requires IsCpu(k, me) && Placed(k) && NestedElsewhere(k, c, t)
    ensures IsCpu(TestBetter(k, me), c) && (TestBetter(k, me).cur[c] == t ==> k.runqOf[t] == Some(c))
  {
    if me == c {
      BetterIsAtHome(k, me, t);
      BetterKeepsShape(k, me);
    } else {
      BetterIsLocal(k, me, c);
    }
  }

  lemma BetterKeepsShape(k: Kernel, me: nat)
    requires IsCpu(k, me)
    ensures IsCpu(TestBetter(k, me), me)
  {
  }

  lemma RunIsAtHome(k: Kernel, me: nat, w: Tid, c: nat, t: Tid)
    requires IsCpu(k, me) && IsThread(k, w) && Inv(k, None, {w}) && NestedElsewhere(k, c, t) && w !in k.idle
    ensures Stays(k, Some(SchedRun(k, me, w)), c, t)
  {
    EnqueueKeepsInv(k, k.waitCpu[w], w, None, {w});
    var k1 := Enqueue(k, k.waitCpu[w], w);
    if k1.cur[me] == k1.idle[me] { BetterStays(k1, me, c, t); }
  }

  /** Work stealing leaves threads nested in the kernel alone: whatever the step, such a thread
      becomes current only on the CPU whose queue it was on, or on the one it slept on. */
  lemma NestedThreadsStay(k: Kernel, e: Event, c: nat, t: Tid)
    requires Inv(k, None, {}) && Enabled(k, e) && NestedElsewhere(k, c, t)
    ensures Stays(k, Step(k, e), c, t)
  {
    match e {
      case Sleep(d) => SleepIsAtHome(k, d, c, t);
      case Exit(d) => ExitIsAtHome(k, d, c, t);
      case Wake(d, w) => WakeIsAtHome(k, d, w, c, t);
      case Continue(d, w) => WakeIsAtHome(k, d, w, c, t);
      case Spawn(d) => SpawnIsAtHome(k, d, c, t);
      case Resched(d) => ReschedIsAtHome(k, d, c, t);
      case Stop(u) => StopIsAtHome(k, u, c, t);
      case _ =>
    }
  }

  lemma SleepIsAtHome(k: Kernel, d: nat, c: nat, t: Tid)
    requires Inv(k, None, {}) && Enabled(k, Sleep(d)) && NestedElsewhere(k, c, t)
    ensures Stays(k, Step(k, Sleep(d)), c, t)
  {
    SleepOpensHole(k, d);
    PausedIsAtHome(k.(state := k.state[k.cur[d] := Waiting], waitCpu := k.waitCpu[k.cur[d] := d]), d, c, t);
  }

  lemma ExitIsAtHome(k: Kernel, d: nat, c: nat, t: Tid)
    requires Inv(k, None, {}) && Enabled(k, Exit(d)) && NestedElsewhere(k, c, t)
    ensures Stays(k, Step(k, Exit(d)), c, t)
  {
    ExitOpensHole(k, d);
    PausedIsAtHome(k.(state := k.state[k.cur[d] := Zombie]), d, c, t);
  }

  lemma WakeIsAtHome(k: Kernel, d: nat, w: Tid, c: nat, t: Tid)
    requires Inv(k, None, {}) && IsCpu(k, d) && IsThread(k, w) && (k.state[w] == Waiting || k.state[w] == Stopped)
    requires NestedElsewhere(k, c, t)
    ensures Stays(k, Some(SchedRun(k.(state := k.state[w := Paused]), d, w)), c, t)
  {
    WakeFloats(k, w);
    RunIsAtHome(k.(state := k.state[w := Paused]), d, w, c, t);
  }

  lemma SpawnIsAtHome(k: Kernel, d: nat, c: nat, t: Tid)
    requires Inv(k, None, {}) && IsCpu(k, d) && NestedElsewhere(k, c, t)
    ensures Stays(k, Some(SchedRun(Clone(k, k.cur[d]), d, |k.pri|)), c, t)
  {
    CloneFloats(k, k.cur[d]);
    RunIsAtHome(Clone(k, k.cur[d]), d, |k.pri|, c, t);
  }

  lemma ReschedIsAtHome(k: Kernel, d: nat, c: nat, t: Tid)
    requires Inv(k, None, {}) && IsCpu(k, d) && NestedElsewhere(k, c, t)
    ensures Stays(k, Step(k, Resched(d)), c, t)
  {
    BetterStays(k, d, c, t);
  }

  lemma StopIsAtHome(k: Kernel, u: Tid, c: nat, t: Tid)
    requires Inv(k, None, {}) && Enabled(k, Stop(u)) && NestedElsewhere(k, c, t)
    ensures Stays(k, Step(k, Stop(u)), c, t)
  {
  }

  lemma {:induction false} PickIsFirst(k: Kernel, me: nat, c: nat, ignoreIdle: bool, q: seq<Tid>, u: Tid)
    requires IsCpu(k, c) && Threads(|k.pri|, q) && Sorted(k.pri, k.arrival, q)
    requires u in q && u < |k.pri| && Eligible(k, me, c, ignoreIdle, u)
    ensures var r := Pick(k, me, c, ignoreIdle, q);
            r.Some? && (r.value == u || Before(k.pri, k.arrival, r.value, u))
  {
    var i :| 0 <= i < |q| && q[i] == u;
    if i == 0 {
    } else {
      assert Before(k.pri, k.arrival, q[0], q[i]);
      assert q[1..][i - 1] == u;
      PickIsFirst(k, me, c, ignoreIdle, q[1..], u);
    }
  }

  /** A CPU that lost its thread serves its own queue first: the best and longest waiting thread
      there that may run, before it looks at other CPUs. */
  lemma OwnQueueFirst(k: Kernel, me: nat, u: Tid)
    requires IsCpu(k, me) && Inv(k, Some(me), {}) && k.state[k.cur[me]] != Paused
    requires u in k.runq[me] && IsThread(k, u) && Eligible(k, me, me, true, u) && k.pri[u] < k.pri[k.idle[me]]
    ensures var f := NextThread(k, me);
            f.Thread? && f.t in k.runq[me] && f.t < |k.pri|
            && (f.t == u || Before(k.pri, k.arrival, f.t, u))
  {
    PickIsFirst(k, me, me, false, k.runq[me], u);
  }

  // ----- the C code, in place -----

  lemma DequeueAt(k: Kernel, c: nat, i: nat)
    requires IsCpu(k, c) && Placed(k) && i < |k.runq[c]| && k.runq[c][i] !in k.runq[c][..i]
    ensures var q, t := k.runq[c], k.runq[c][i];
            Dequeue(k, t) == k.(runq := k.runq[c := q[..i] + q[i + 1..]], runqOf := k.runqOf[t := None])
  {
    RemoveAt(k.runq[c], i);
  }

  class Scheduler {
    var idle: seq<Tid>
    var cur: seq<Tid>
    var runq: seq<seq<Tid>>
    var pri: seq<nat>
    var affinity: seq<set<nat>>
    var state: seq<TState>
    var runqOf: seq<Option<nat>>
    var nest: seq<nat>
    var waitCpu: seq<nat>
    ghost var arrival: seq<nat>
    ghost var clock: nat

    ghost function K(): Kernel
      reads this
    {
      Kernel(idle, cur, runq, pri, affinity, state, runqOf, nest, waitCpu, arrival, clock)
    }

    method RunqEnqueue(c: nat, t: Tid)
      requires IsCpu(K(), c) && IsThread(K(), t)
      modifies this
      ensures K() == Enqueue(old(K()), c, t)
    {
      var q, i := runq[c], 0;
      while i < |q| && pri[t] >= pri[q[i]]
        invariant 0 <= i <= |q|
        invariant forall j :: 0 <= j < i ==> pri[q[j]] <= pri[t]
      {
        i := i + 1;
      }
      assert i == Slot(pri, q, t);
      runqOf := runqOf[t := Some(c)];
      runq := runq[c := q[..i] + [t] + q[i..]];
      arrival, clock := arrival[t := clock], clock + 1;
    }

    method SchedDequeue(t: Tid)
      requires IsThread(K(), t)
      modifies this
      ensures K() == Dequeue(old(K()), t)
    {
      if runqOf[t].None? { return; }
      var c := runqOf[t].value;
      runqOf := runqOf[t := None];
      runq := runq[c := Remove(runq[c], t)];
    }

    /** find_runq_thread run by CPU me on the queue of CPU c. */
    method FindRunqThread(me: nat, c: nat, ignoreIdle: bool) returns (r: Option<Tid>)
      requires IsCpu(K(), c) && Placed(K())
      modifies this
      ensures r == Pick(old(K()), me, c, ignoreIdle, old(runq[c]))
      ensures K() == if r.Some? then Dequeue(old(K()), r.value) else old(K())
    {
      ghost var k := K();
      var q, i := runq[c], 0;
      while i < |q|
        invariant 0 <= i <= |q| && K() == k
        invariant Pick(k, me, c, ignoreIdle, q[i..]) == Pick(k, me, c, ignoreIdle, q)
        invariant forall j :: 0 <= j < i ==> !Eligible(k, me, c, ignoreIdle, q[j])
      {
        var t := q[i];
        assert q[i..][0] == t && q[i..][1..] == q[i + 1..];
        if state[t] != Paused || (nest[t] > 1 && c != me) || (ignoreIdle && t == idle[c]) || me !in affinity[t] {
          i := i + 1;
          continue;
        }
        DequeueAt(k, c, i);
        runqOf := runqOf[t := None];
        runq := runq[c := q[..i] + q[i + 1..]];
        return Some(t);
      }
      return None;
    }

    /** The scan of find_better_runq_thread: where its choice stands on the queue. */
    method ScanBetter(me: nat, c: nat, rel: Tid, ignoreIdle: bool) returns (r: Option<nat>)
      requires IsCpu(K(), c) && IsThread(K(), rel)
      ensures r.None? ==> PickBetter(K(), me, c, rel, ignoreIdle, runq[c]) == None
      ensures r.Some? ==> r.value < |runq[c]| && runq[c][r.value] !in runq[c][..r.value]
      ensures r.Some? ==> PickBetter(K(), me, c, rel, ignoreIdle, runq[c]) == Some(runq[c][r.value])
    {
      var q, i := runq[c], 0;
      assert q[0..] == q;
      while i < |q|
        invariant 0 <= i <= |q|
        invariant PickBetter(K(), me, c, rel, ignoreIdle, q[i..]) == PickBetter(K(), me, c, rel, ignoreIdle, q)
        invariant forall j :: 0 <= j < i ==> q[j] == rel || !Eligible(K(), me, c, ignoreIdle, q[j])
      {
        var t := q[i];
        assert q[i..][0] == t && q[i..][1..] == q[i + 1..];
        if t == rel || state[t] != Paused || (nest[t] > 1 && c != me) || (ignoreIdle && t == idle[c]) {
          i := i + 1;
          continue;
        }
        if pri[t] > pri[rel] { return None; }
        if me !in affinity[t] {
          i := i + 1;
          continue;
        }
        return Some(i);
      }
      return None;
    }

    method FindBetterRunqThread(me: nat, c: nat, rel: Tid, ignoreIdle: bool) returns (r: Option<Tid>)
      requires IsCpu(K(), c) && IsThread(K(), rel) && Placed(K())
      modifies this
      ensures r == PickBetter(old(K()), me, c, rel, ignoreIdle, old(runq[c]))
      ensures K() == if r.Some? then Dequeue(old(K()), r.value) else old(K())
    {
      var at := ScanBetter(me, c, rel, ignoreIdle);
      if at.None? { return None; }
      var q, i := runq[c], at.value;
      DequeueAt(K(), c, i);
      runqOf := runqOf[q[i] := None];
      runq := runq[c := q[..i] + q[i + 1..]];
      return Some(q[i]);
    }

    /** The loop of find_thread over the other CPUs. */
    method StealThread(me: nat) returns (r: Option<Tid>)
      requires IsCpu(K(), me) && Placed(K())
      modifies this
      ensures r == Steal(old(K()), me, 0)
      ensures K() == if r.Some? then Dequeue(old(K()), r.value) else old(K())
    {
      ghost var k := K();
      var i := 0;
      while i < |runq|
        invariant 0 <= i <= |runq| && K() == k
        invariant Steal(k, me, i) == Steal(k, me, 0)
      {
        if i == me {
          i := i + 1;
          continue;
        }
        r := FindRunqThread(me, i, true);
        if r.Some? { return; }
        i := i + 1;
      }
      return None;
    }

    /** find_thread(0) on a CPU whose thread stopped running; the null cases do not arise. */
    method FindThread(me: nat) returns (t: Tid)
      requires IsCpu(K(), me) && Inv(K(), Some(me), {})
      modifies this
      ensures NextThread(old(K()), me) == Thread(K(), t)
    {
      IdleIsReady(K(), me);
      DequeueKeepsInv(K(), Pick(K(), me, me, false, runq[me]).value, Some(me), {});
      var own := FindRunqThread(me, me, false);
      t := own.value;
      if t != idle[me] { return; }
      var other := StealThread(me);
      if other.None? { return; }
      RunqEnqueue(me, t);
      t := other.value;
    }

    method FindBetterThread(me: nat) returns (r: Option<Tid>)
      requires IsCpu(K(), me) && Placed(K())
      modifies this
      ensures r == FindBetter(old(K()), me)
      ensures K() == if r.Some? then Dequeue(old(K()), r.value) else old(K())
    {
      ghost var k := K();
      r := FindBetterRunqThread(me, me, cur[me], true);
      if r.Some? { return; }
      var i := 0;
      while i < |runq|
        invariant 0 <= i <= |runq| && K() == k
        invariant StealBetter(k, me, k.cur[me], i) == StealBetter(k, me, k.cur[me], 0)
      {
        if i == me {
          i := i + 1;
          continue;
        }
        r := FindBetterRunqThread(me, i, cur[me], true);
        if r.Some? { return; }
        i := i + 1;
      }
      return None;
    }

    method SchedSwitch(me: nat, t: Tid)
      requires IsCpu(K(), me) && IsThread(K(), t)
      modifies this
      ensures K() == Switch(old(K()), me, t)
    {
      var u := cur[me];
      if t == u { return; }
      if state[u] == Running {
        state := state[u := Paused];
        RunqEnqueue(me, u);
      }
      cur := cur[me := t];
      state := state[t := Running];
    }

    method TestBetterThread(me: nat)
      requires IsCpu(K(), me) && Inv(K(), None, {})
      modifies this
      ensures K() == TestBetter(old(K()), me)
      ensures Inv(K(), None, {})
    {
      TestBetterKeepsInv(K(), me);
      var better := FindBetterThread(me);
      if better.Some? { SchedSwitch(me, better.value); }
    }

    /** test_paused_thread after the current thread stopped running: the panic is never reached. */
    method TestPausedThread(me: nat)
      requires IsCpu(K(), me) && Inv(K(), Some(me), {}) && state[cur[me]] != Paused
      modifies this
      ensures Some(K()) == TestPaused(old(K()), me)
      ensures Inv(K(), None, {})
    {
      TestPausedKeepsInv(K(), me);
      FindThreadFinds(K(), me);
      var t := FindThread(me);
      SchedSwitch(me, t);
    }

    method Run(me: nat, t: Tid)
      requires IsCpu(K(), me) && IsThread(K(), t) && Inv(K(), None, {t}) && t !in idle
      modifies this
      ensures K() == SchedRun(old(K()), me, t)
      ensures Inv(K(), None, {})
    {
      SchedRunKeepsInv(K(), me, t);
      EnqueueKeepsInv(K(), waitCpu[t], t, None, {t});
      assert {t} - {t} == {};
      RunqEnqueue(waitCpu[t], t);
      if cur[me] == idle[me] { TestBetterThread(me); }
    }
  }
}

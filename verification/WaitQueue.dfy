/** kern/waitq.c: wait queues and the global list of sleepers with a deadline. */
module WaitQueue {
  import opened Base

  // ----- time (net/include/time.h) -----

  datatype Timespec = Timespec(sec: int, nsec: int)

  const NSEC: nat := 1_000_000_000

  function TimespecCmp(a: Timespec, b: Timespec): int
  {
    if a.sec < b.sec then -1
    else if a.sec > b.sec then 1
    else if a.nsec < b.nsec then -1
    else if a.nsec > b.nsec then 1
    else 0
  }

  function TimespecAdd(d: Timespec, a: Timespec): Timespec
  {
    var n := d.nsec + a.nsec;
    if n >= NSEC then Timespec(d.sec + a.sec + 1, n - NSEC) else Timespec(d.sec + a.sec, n)
  }

  predicate Normal(a: Timespec) { 0 <= a.nsec < NSEC }

  ghost function Nanos(a: Timespec): int { a.sec * NSEC + a.nsec }

  /** Comparing and adding normalised times is comparing and adding nanoseconds. */
  lemma TimespecIsNanos(a: Timespec, b: Timespec)
    requires Normal(a) && Normal(b)
    ensures TimespecCmp(a, b) < 0 <==> Nanos(a) < Nanos(b)
    ensures TimespecCmp(a, b) == 0 <==> a == b
    ensures Normal(TimespecAdd(a, b)) && Nanos(TimespecAdd(a, b)) == Nanos(a) + Nanos(b)
  {
  }

  predicate IsZero(a: Timespec) { a.sec == 0 && a.nsec == 0 }

  /** The deadline is not the zero that stands for "no deadline". */
  predicate Timely(timeout: Option<Timespec>, now: Timespec) {
    timeout.None? || !IsZero(TimespecAdd(now, timeout.value))
  }

  // ----- state -----

  datatype TState = Running | Paused | Waiting | Stopped

  const EWOULDBLOCK: int := 11

  /** watchers is indexed by wait queue; state, on (thread->waitq), deadline (thread->wait_timeout),
      ret and procStopped by thread; timeouts is g_timeout_threads. */
  datatype Waits = Waits(
    watchers: seq<seq<Tid>>, timeouts: seq<Tid>,
    state: seq<TState>, on: seq<Option<nat>>, deadline: seq<Timespec>, ret: seq<int>, procStopped: seq<bool>)

  ghost predicate Threads(n: nat, q: seq<Tid>)
  {
    forall i :: 0 <= i < |q| ==> q[i] < n
  }

  ghost predicate Shape(w: Waits)
  {
    && |w.state| == |w.on| == |w.deadline| == |w.ret| == |w.procStopped|
    && Threads(|w.state|, w.timeouts)
    && (forall q :: 0 <= q < |w.watchers| ==> Threads(|w.state|, w.watchers[q]))
    && (forall t :: 0 <= t < |w.on| && w.on[t].Some? ==> w.on[t].value < |w.watchers|)
  }

  /** A thread waits exactly when it is, once, on the list that its waitq field names. */
  ghost predicate Watched(w: Waits)
    requires Shape(w)
  {
    && (forall q :: 0 <= q < |w.watchers| ==> NoDup(w.watchers[q]))
    && (forall t :: 0 <= t < |w.state| ==> (w.state[t] == Waiting <==> w.on[t].Some?))
    && (forall q, t :: 0 <= q < |w.watchers| && 0 <= t < |w.state| ==> (t in w.watchers[q] <==> w.on[t] == Some(q)))
  }

  ghost predicate Sorted(deadline: seq<Timespec>, ts: seq<Tid>)
    requires Threads(|deadline|, ts)
  {
    forall i, j :: 0 <= i < j < |ts| ==> TimespecCmp(deadline[ts[i]], deadline[ts[j]]) <= 0
  }

  /** The timeout list: once each, in deadline order, exactly the sleepers with a deadline. */
  ghost predicate Timed(w: Waits)
    requires Shape(w)
  {
    && NoDup(w.timeouts) && Sorted(w.deadline, w.timeouts)
    && (forall t :: 0 <= t < |w.state| ==> (t in w.timeouts <==> w.state[t] == Waiting && !IsZero(w.deadline[t])))
  }

  ghost predicate Inv(w: Waits) { Shape(w) && Watched(w) && Timed(w) }

  // ----- sleeping -----

  /** Where add_waiting_thread stops: before the first strictly later deadline. */
  ghost function Slot(deadline: seq<Timespec>, ts: seq<Tid>, d: Timespec): (k: nat)
    requires Threads(|deadline|, ts)
    ensures k <= |ts|
    ensures forall i :: 0 <= i < k ==> TimespecCmp(d, deadline[ts[i]]) >= 0
    ensures k < |ts| ==> TimespecCmp(d, deadline[ts[k]]) < 0
  {
    if ts == [] || TimespecCmp(d, deadline[ts[0]]) < 0 then 0 else 1 + Slot(deadline, ts[1..], d)
  }

  ghost function Inserted(deadline: seq<Timespec>, ts: seq<Tid>, t: Tid): (r: seq<Tid>)
    requires Threads(|deadline|, ts) && t < |deadline|
    ensures Threads(|deadline|, r)
  {
    var k := Slot(deadline, ts, deadline[t]);
    ts[..k] + [t] + ts[k..]
  }

  /** prepare_sleep, with `now` the monotonic clock. */
  ghost function Prepare(w: Waits, q: nat, t: Tid, timeout: Option<Timespec>, now: Timespec): (r: Waits)
    requires Shape(w) && q < |w.watchers| && t < |w.state|
    ensures Shape(r)
  {
    var d := if timeout.None? then Timespec(0, 0) else TimespecAdd(now, timeout.value);
    var w1 := w.(state := w.state[t := Waiting], on := w.on[t := Some(q)], deadline := w.deadline[t := d]);
    if timeout.None? then w1 else w1.(timeouts := Inserted(w1.deadline, w1.timeouts, t))
  }

  /** waitq_wait_tail and waitq_wait_head, up to the moment the thread stops running. */
  ghost function Wait(w: Waits, q: nat, t: Tid, head: bool, timeout: Option<Timespec>, now: Timespec): (r: Waits)
    requires Shape(w) && q < |w.watchers| && t < |w.state|
    ensures Shape(r)
  {
    var l := w.watchers[q];
    Prepare(w.(watchers := w.watchers[q := if head then [t] + l else l + [t]]), q, t, timeout, now)
  }

  // ----- waking -----

  /** wakeup_thread. */
  ghost function Wakeup(w: Waits, t: Tid, reason: int): (r: Waits)
    requires Shape(w) && t < |w.state| && w.on[t].Some?
    ensures Shape(r)
  {
    var q := w.on[t].value;
    RemoveThreads(|w.state|, w.watchers[q], t);
    w.(watchers := w.watchers[q := Remove(w.watchers[q], t)],
       state := w.state[t := if w.procStopped[t] then Stopped else Paused],
       on := w.on[t := None], ret := w.ret[t := reason])
  }

  lemma RemoveThreads(n: nat, q: seq<Tid>, t: Tid)
    requires Threads(n, q)
    ensures Threads(n, Remove(q, t))
  {
    var r := Remove(q, t);
    forall i | 0 <= i < |r| ensures r[i] < n {
      RemoveSubset(q, t, i);
      assert r[i] in q;
    }
  }

  ghost function Untimed(w: Waits, t: Tid): (r: Waits)
    requires Shape(w)
    ensures Shape(r)
  {
    RemoveThreads(|w.state|, w.timeouts, t);
    w.(timeouts := Remove(w.timeouts, t))
  }

  /** waitq_wakeup_thread. */
  ghost function WakeupThread(w: Waits, t: Tid, reason: int): (r: Waits)
    requires Shape(w) && t < |w.state| && w.on[t].Some?
    ensures Shape(r)
  {
    Wakeup(if IsZero(w.deadline[t]) then w else Untimed(w, t), t, reason)
  }

  // ----- what each operation keeps -----

  lemma InsertedSorted(deadline: seq<Timespec>, ts: seq<Tid>, t: Tid)
    requires Threads(|deadline|, ts) && t < |deadline| && Sorted(deadline, ts)
    ensures Sorted(deadline, Inserted(deadline, ts, t))
  {
    var k, r := Slot(deadline, ts, deadline[t]), Inserted(deadline, ts, t);
    forall i, j | 0 <= i < j < |r| ensures TimespecCmp(deadline[r[i]], deadline[r[j]]) <= 0 {
      var i0, j0 := if i < k then i else i - 1, if j < k then j else j - 1;
      if i == k {
        assert r[j] == ts[j0];
        if j0 > k { assert TimespecCmp(deadline[ts[k]], deadline[ts[j0]]) <= 0; }
      } else if j == k {
        assert r[i] == ts[i0];
      } else {
        assert r[i] == ts[i0] && r[j] == ts[j0];
      }
    }
  }

  lemma WaitKeepsWatched(w: Waits, q: nat, t: Tid, head: bool, timeout: Option<Timespec>, now: Timespec)
    requires Inv(w) && q < |w.watchers| && t < |w.state| && w.state[t] == Running
    ensures Watched(Wait(w, q, t, head, timeout, now))
  {
    var l := w.watchers[q];
    InsertNoDup(l, 0, t);
    InsertNoDup(l, |l|, t);
    assert l[..0] + [t] + l[0..] == [t] + l && l[..|l|] + [t] + l[|l|..] == l + [t];
  }

  lemma WaitKeepsTimed(w: Waits, q: nat, t: Tid, head: bool, timeout: Option<Timespec>, now: Timespec)
    requires Inv(w) && q < |w.watchers| && t < |w.state| && w.state[t] == Running
    requires Timely(timeout, now)
    ensures Timed(Wait(w, q, t, head, timeout, now))
  {
    if timeout.Some? {
      var d := w.deadline[t := TimespecAdd(now, timeout.value)];
      InsertedSorted(d, w.timeouts, t);
      InsertNoDup(w.timeouts, Slot(d, w.timeouts, d[t]), t);
    }
  }

  /** Going to sleep keeps the invariant exactly when the deadline is not the zero that stands for
      "no deadline": a zero deadline would be listed and then never unlisted by a wake-up. */
  lemma WaitKeepsInv(w: Waits, q: nat, t: Tid, head: bool, timeout: Option<Timespec>, now: Timespec)
    requires Inv(w) && q < |w.watchers| && t < |w.state| && w.state[t] == Running
    ensures Inv(Wait(w, q, t, head, timeout, now)) <==> Timely(timeout, now)
  {
    WaitKeepsWatched(w, q, t, head, timeout, now);
    if !Timely(timeout, now) {
      var d := w.deadline[t := TimespecAdd(now, timeout.value)];
      var k := Slot(d, w.timeouts, d[t]);
      assert Inserted(d, w.timeouts, t)[k] == t;
    } else {
      WaitKeepsTimed(w, q, t, head, timeout, now);
    }
  }

  /** What goes wrong then: the sleeper is woken and stays on the timeout list. */
  lemma UntimelyStaysListed(w: Waits, q: nat, t: Tid, head: bool, timeout: Option<Timespec>, now: Timespec, reason: int)
    requires Inv(w) && q < |w.watchers| && t < |w.state| && w.state[t] == Running && !Timely(timeout, now)
    ensures var r := WakeupThread(Wait(w, q, t, head, timeout, now), t, reason);
            t in r.timeouts && r.state[t] != Waiting && !Inv(r)
  {
    var d := w.deadline[t := TimespecAdd(now, timeout.value)];
    var k := Slot(d, w.timeouts, d[t]);
    assert Inserted(d, w.timeouts, t)[k] == t;
  }

  /** Neither the clock nor the timeout need be zero: a negative timeout is not refused. */
  lemma NegativeTimeouts(now: Timespec)
    ensures !Timely(Some(Timespec(-now.sec, -now.nsec)), now)
    ensures !Timely(Some(Timespec(-5, 0)), Timespec(5, 0))
  {
  }

  lemma WakeupKeepsWatched(w: Waits, t: Tid, reason: int)
    requires Shape(w) && Watched(w) && t < |w.state| && w.on[t].Some?
    ensures Watched(Wakeup(w, t, reason))
  {
    var l := w.watchers[w.on[t].value];
    var i :| 0 <= i < |l| && l[i] == t;
    RemoveNoDup(l, i);
  }

  lemma CutSorted(deadline: seq<Timespec>, ts: seq<Tid>, i: nat)
    requires Threads(|deadline|, ts) && Sorted(deadline, ts) && i < |ts|
    ensures Threads(|deadline|, ts[..i] + ts[i + 1..]) && Sorted(deadline, ts[..i] + ts[i + 1..])
  {
    var r := ts[..i] + ts[i + 1..];
    forall a, b | 0 <= a < b < |r| ensures TimespecCmp(deadline[r[a]], deadline[r[b]]) <= 0 {
      var a0, b0 := if a < i then a else a + 1, if b < i then b else b + 1;
      assert r[a] == ts[a0] && r[b] == ts[b0];
    }
  }

  lemma UntimedKeepsOrder(w: Waits, t: Tid)
    requires Shape(w) && NoDup(w.timeouts) && Sorted(w.deadline, w.timeouts) && t in w.timeouts
    ensures var r := Untimed(w, t).timeouts;
            NoDup(r) && Sorted(w.deadline, r) && forall x :: x in r <==> x in w.timeouts && x != t
  {
    var ts := w.timeouts;
    var i :| 0 <= i < |ts| && ts[i] == t;
    RemoveNoDup(ts, i);
    CutSorted(w.deadline, ts, i);
  }

  /** Waking any sleeper keeps the invariant, wakes that thread and no other. */
  lemma WakeupThreadKeepsInv(w: Waits, t: Tid, reason: int)
    requires Inv(w) && t < |w.state| && w.state[t] == Waiting
    ensures Inv(WakeupThread(w, t, reason))
  {
    if !IsZero(w.deadline[t]) {
      UntimedKeepsOrder(w, t);
    }
    WakeupKeepsWatched(if IsZero(w.deadline[t]) then w else Untimed(w, t), t, reason);
  }

  // ----- who is woken -----

  /** The members of s that are not in gone, in the order of s. */
  ghost function Without(s: seq<Tid>, gone: seq<Tid>): (r: seq<Tid>)
    ensures forall x :: x in r <==> x in s && x !in gone
  {
    if s == [] then []
    else
      assert s == [s[0]] + s[1..];
      if s[0] in gone then Without(s[1..], gone) else [s[0]] + Without(s[1..], gone)
  }

  lemma {:induction false} WithoutNone(s: seq<Tid>, gone: seq<Tid>)
    requires forall x :: x in s ==> x !in gone
    ensures Without(s, gone) == s
  {
    if s == [] {
    } else {
      assert s == [s[0]] + s[1..];
      WithoutNone(s[1..], gone);
    }
  }

  lemma {:induction false} WithoutAll(s: seq<Tid>, gone: seq<Tid>)
    requires forall x :: x in s ==> x in gone
    ensures Without(s, gone) == []
  {
    if s == [] {
    } else {
      WithoutAll(s[1..], gone);
    }
  }

  lemma {:induction false} WithoutOne(s: seq<Tid>, x: Tid)
    requires NoDup(s)
    ensures Without(s, [x]) == Remove(s, x)
  {
    if s == [] {
    } else {
      if s[0] == x {
        assert x !in s[1..];
        WithoutNone(s[1..], [x]);
      } else {
        WithoutOne(s[1..], x);
      }
    }
  }

  lemma {:induction false} WithoutTwice(s: seq<Tid>, a: seq<Tid>, b: seq<Tid>)
    ensures Without(Without(s, a), b) == Without(s, a + b)
  {
    if s == [] {
    } else {
      WithoutTwice(s[1..], a, b);
    }
  }

  lemma {:induction false} WithoutPrefix(s: seq<Tid>, n: nat)
    requires n <= |s| && NoDup(s)
    ensures Without(s, s[..n]) == s[n..]
    decreases n
  {
    if n == 0 {
      WithoutNone(s, []);
    } else {
      assert s[..n] == [s[0]] + s[1..][..n - 1];
      WithoutTwice(s, [s[0]], s[1..][..n - 1]);
      WithoutOne(s, s[0]);
      assert Without(s, [s[0]]) == s[1..];
      WithoutPrefix(s[1..], n - 1);
    }
  }

  /** w' is w after the threads of `gone` were woken with `reason`, and nothing else: the lists
      lose exactly these threads and keep the order of the others. */
  ghost predicate Woken(w: Waits, w': Waits, gone: seq<Tid>, reason: int)
    requires Shape(w) && Shape(w')
  {
    && |w'.state| == |w.state| && |w'.watchers| == |w.watchers|
    && w'.deadline == w.deadline && w'.procStopped == w.procStopped
    && (forall t :: 0 <= t < |w.state| ==>
          && w'.state[t] == (if t !in gone then w.state[t] else if w.procStopped[t] then Stopped else Paused)
          && w'.on[t] == (if t in gone then None else w.on[t])
          && w'.ret[t] == (if t in gone then reason else w.ret[t]))
    && w'.timeouts == Without(w.timeouts, gone)
    && (forall q :: 0 <= q < |w.watchers| ==> w'.watchers[q] == Without(w.watchers[q], gone))
  }

  lemma WakeupThreadWakesOne(w: Waits, t: Tid, reason: int)
    requires Inv(w) && t < |w.state| && w.state[t] == Waiting
    ensures Woken(w, WakeupThread(w, t, reason), [t], reason)
  {
    var w' := WakeupThread(w, t, reason);
    assert w'.timeouts == Without(w.timeouts, [t]) by {
      if t in w.timeouts { WithoutOne(w.timeouts, t); } else { WithoutNone(w.timeouts, [t]); }
    }
    forall q | 0 <= q < |w.watchers| ensures w'.watchers[q] == Without(w.watchers[q], [t]) {
      if w.on[t] == Some(q) { WithoutOne(w.watchers[q], t); } else { WithoutNone(w.watchers[q], [t]); }
    }
  }

  lemma WokenTogether(w: Waits, w1: Waits, w2: Waits, a: seq<Tid>, b: seq<Tid>, reason: int)
    requires Shape(w) && Shape(w1) && Shape(w2) && Woken(w, w1, a, reason) && Woken(w1, w2, b, reason)
    ensures Woken(w, w2, a + b, reason)
  {
    WithoutTwice(w.timeouts, a, b);
    forall q | 0 <= q < |w.watchers| ensures w2.watchers[q] == Without(w.watchers[q], a + b) {
      WithoutTwice(w.watchers[q], a, b);
    }
  }

  /** waitq_signal wakes the head of the queue. */
  ghost function Signalled(w: Waits, q: nat, reason: int): (r: Waits)
    requires Inv(w) && q < |w.watchers|
    ensures Inv(r)
  {
    if w.watchers[q] == [] then w
    else
      assert w.watchers[q][0] in w.watchers[q];
      WakeupThreadKeepsInv(w, w.watchers[q][0], reason);
      WakeupThread(w, w.watchers[q][0], reason)
  }

  lemma SignalWakesHead(w: Waits, q: nat, reason: int)
    requires Inv(w) && q < |w.watchers|
    ensures Woken(w, Signalled(w, q, reason), if w.watchers[q] == [] then [] else [w.watchers[q][0]], reason)
  {
    if w.watchers[q] == [] {
      NobodyWoken(w, reason);
    } else {
      assert w.watchers[q][0] in w.watchers[q];
      WakeupThreadWakesOne(w, w.watchers[q][0], reason);
    }
  }

  lemma NobodyWoken(w: Waits, reason: int)
    requires Shape(w)
    ensures Woken(w, w, [], reason)
  {
    WithoutNone(w.timeouts, []);
    forall q | 0 <= q < |w.watchers| ensures w.watchers[q] == Without(w.watchers[q], []) {
      WithoutNone(w.watchers[q], []);
    }
  }

  lemma SignalShortens(w: Waits, q: nat, reason: int)
    requires Inv(w) && q < |w.watchers| && w.watchers[q] != []
    ensures |Signalled(w, q, reason).watchers| == |w.watchers|
    ensures Signalled(w, q, reason).watchers[q] == w.watchers[q][1..]
  {
    assert w.watchers[q][0] in w.watchers[q];
  }

  /** waitq_broadcast: signal until the queue is empty. */
  ghost function Broadcasted(w: Waits, q: nat, reason: int): (r: Waits)
    requires Inv(w) && q < |w.watchers|
    ensures Inv(r)
    decreases |w.watchers[q]|
  {
    if w.watchers[q] == [] then w
    else
      SignalShortens(w, q, reason);
      Broadcasted(Signalled(w, q, reason), q, reason)
  }

  /** A broadcast wakes all the watchers of the queue, in queue order, and nobody else. */
  lemma {:induction false} BroadcastWakesAll(w: Waits, q: nat, reason: int)
    requires Inv(w) && q < |w.watchers|
    ensures Woken(w, Broadcasted(w, q, reason), w.watchers[q], reason)
    decreases |w.watchers[q]|
  {
    var l := w.watchers[q];
    if l == [] {
      NobodyWoken(w, reason);
    } else {
      var w1 := Signalled(w, q, reason);
      SignalShortens(w, q, reason);
      SignalWakesHead(w, q, reason);
      BroadcastWakesAll(w1, q, reason);
      assert [l[0]] + l[1..] == l;
      WokenTogether(w, w1, Broadcasted(w, q, reason), [l[0]], l[1..], reason);
    }
  }

  // ----- timeouts -----

  /** One round of waitq_check_timeout. */
  ghost function ExpireHead(w: Waits): (r: Waits)
    requires Inv(w) && w.timeouts != []
    ensures Inv(r) && |r.timeouts| < |w.timeouts|
  {
    var t := w.timeouts[0];
    assert t in w.timeouts;
    var r := Wakeup(w.(timeouts := w.timeouts[1..]), t, -EWOULDBLOCK);
    assert r == WakeupThread(w, t, -EWOULDBLOCK);
    WakeupThreadKeepsInv(w, t, -EWOULDBLOCK);
    r
  }

  ghost predicate HeadDue(w: Waits, cur: Timespec)
    requires Shape(w)
  {
    w.timeouts != [] && TimespecCmp(cur, w.deadline[w.timeouts[0]]) > 0
  }

  ghost function Expired(w: Waits, cur: Timespec): (r: Waits)
    requires Inv(w)
    ensures Inv(r) && !HeadDue(r, cur)
    decreases |w.timeouts|
  {
    if HeadDue(w, cur) then Expired(ExpireHead(w), cur) else w
  }

  /** waitq_check_timeout comes to a thread that is on no queue, and wakes it all the same. */
  ghost predicate HitsNull(w: Waits, cur: Timespec)
    requires Shape(w)
    decreases |w.timeouts|
  {
    && HeadDue(w, cur)
    && var t := w.timeouts[0];
       w.on[t].None? || HitsNull(Wakeup(w.(timeouts := w.timeouts[1..]), t, -EWOULDBLOCK), cur)
  }

  /** While the lists are true to who waits it never does. */
  lemma {:induction false} NeverHitsNull(w: Waits, cur: Timespec)
    requires Inv(w)
    ensures !HitsNull(w, cur)
    decreases |w.timeouts|
  {
    if HeadDue(w, cur) {
      assert w.timeouts[0] in w.timeouts;
      NeverHitsNull(ExpireHead(w), cur);
    }
  }

  lemma {:induction false} DueUpToHits(w: Waits, k: nat, cur: Timespec)
    requires Shape(w) && k < |w.timeouts| && w.on[w.timeouts[k]].None?
    requires forall i :: 0 <= i <= k ==> TimespecCmp(cur, w.deadline[w.timeouts[i]]) > 0
    ensures HitsNull(w, cur)
    decreases k
  {
    var t := w.timeouts[0];
    if w.on[t].None? {
    } else {
      DueUpToHits(Wakeup(w.(timeouts := w.timeouts[1..]), t, -EWOULDBLOCK), k - 1, cur);
    }
  }

  /** After a wake-up of a sleeper whose deadline is zero it does, as soon as the clock is past zero. */
  lemma UntimelyHitsNull(w: Waits, q: nat, t: Tid, head: bool, timeout: Option<Timespec>, now: Timespec, reason: int,
                         cur: Timespec)
    requires Inv(w) && q < |w.watchers| && t < |w.state| && w.state[t] == Running && !Timely(timeout, now)
    requires TimespecCmp(cur, Timespec(0, 0)) > 0
    ensures HitsNull(WakeupThread(Wait(w, q, t, head, timeout, now), t, reason), cur)
  {
    var r := WakeupThread(Wait(w, q, t, head, timeout, now), t, reason);
    var d := w.deadline[t := TimespecAdd(now, timeout.value)];
    var k := Slot(d, w.timeouts, d[t]);
    assert r.timeouts == Inserted(d, w.timeouts, t) && r.deadline == d && r.timeouts[k] == t;
    forall i | 0 <= i <= k ensures TimespecCmp(cur, d[r.timeouts[i]]) > 0 {
      assert i < k ==> r.timeouts[i] == w.timeouts[i];
    }
    DueUpToHits(r, k, cur);
  }

  /** How many threads of a deadline-ordered list are due. */
  ghost function Due(deadline: seq<Timespec>, ts: seq<Tid>, cur: Timespec): (n: nat)
    requires Threads(|deadline|, ts)
    ensures n <= |ts|
  {
    if ts != [] && TimespecCmp(cur, deadline[ts[0]]) > 0 then 1 + Due(deadline, ts[1..], cur) else 0
  }

  /** The due threads are exactly those whose deadline is strictly in the past. */
  lemma {:induction false} DueIsPast(deadline: seq<Timespec>, ts: seq<Tid>, cur: Timespec, i: nat)
    requires Threads(|deadline|, ts) && Sorted(deadline, ts) && i < |ts|
    ensures i < Due(deadline, ts, cur) <==> TimespecCmp(deadline[ts[i]], cur) < 0
  {
    if i == 0 {
    } else {
      assert TimespecCmp(deadline[ts[0]], deadline[ts[i]]) <= 0;
      if TimespecCmp(cur, deadline[ts[0]]) > 0 {
        DueIsPast(deadline, ts[1..], cur, i - 1);
      }
    }
  }

  lemma ExpireHeadWakes(w: Waits)
    requires Inv(w) && w.timeouts != []
    ensures Woken(w, ExpireHead(w), [w.timeouts[0]], -EWOULDBLOCK)
    ensures ExpireHead(w).timeouts == w.timeouts[1..]
  {
    var t := w.timeouts[0];
    assert t in w.timeouts;
    WakeupThreadWakesOne(w, t, -EWOULDBLOCK);
    assert ExpireHead(w) == WakeupThread(w, t, -EWOULDBLOCK);
  }

  lemma DueSplits(deadline: seq<Timespec>, ts: seq<Tid>, cur: Timespec)
    requires Threads(|deadline|, ts) && ts != [] && TimespecCmp(cur, deadline[ts[0]]) > 0
    ensures ts[..Due(deadline, ts, cur)] == [ts[0]] + ts[1..][..Due(deadline, ts[1..], cur)]
  {
  }

  /** waitq_check_timeout ends, having woken with -EWOULDBLOCK the due prefix of the timeout list,
      hence in deadline order, and nobody else. */
  lemma {:induction false} CheckTimeoutWakesDue(w: Waits, cur: Timespec)
    requires Inv(w)
    ensures Woken(w, Expired(w, cur), w.timeouts[..Due(w.deadline, w.timeouts, cur)], -EWOULDBLOCK)
    decreases |w.timeouts|
  {
    if HeadDue(w, cur) {
      var w1 := ExpireHead(w);
      ExpireHeadWakes(w);
      CheckTimeoutWakesDue(w1, cur);
      DueSplits(w.deadline, w.timeouts, cur);
      WokenTogether(w, w1, Expired(w1, cur), [w.timeouts[0]], w1.timeouts[..Due(w.deadline, w1.timeouts, cur)],
                    -EWOULDBLOCK);
    } else {
      assert w.timeouts[..0] == [];
      NobodyWoken(w, -EWOULDBLOCK);
    }
  }

  /** In terms of threads: a sleeper is woken exactly when it has a deadline before `cur`. */
  lemma CheckTimeoutIsExact(w: Waits, cur: Timespec, t: Tid)
    requires Inv(w) && t < |w.state| && w.state[t] == Waiting
    ensures var w' := Expired(w, cur);
            |w'.state| == |w.state| &&
            (w'.state[t] != Waiting <==> !IsZero(w.deadline[t]) && TimespecCmp(w.deadline[t], cur) < 0)
  {
    CheckTimeoutWakesDue(w, cur);
    var ts := w.timeouts;
    var n := Due(w.deadline, ts, cur);
    if t in ts {
      var i :| 0 <= i < |ts| && ts[i] == t;
      DueIsPast(w.deadline, ts, cur, i);
      assert t in ts[..n] <==> i < n;
    }
  }

  // ----- every run -----

  datatype Event =
    | Sleep(q: nat, t: Tid, head: bool, timeout: Option<Timespec>, now: Timespec)
    | Signal(q: nat, reason: int)
    | Broadcast(q: nat, reason: int)
    | Interrupt(t: Tid, reason: int)
    | CheckTimeout(now: Timespec)
    | Scheduled(t: Tid)                  // a woken thread runs again
    | ProcState(t: Tid, stopped: bool)   // its process is stopped or continued

  ghost predicate Enabled(w: Waits, e: Event)
    requires Shape(w)
  {
    match e
    case Sleep(q, t, head, timeout, now) =>
      && q < |w.watchers| && t < |w.state| && w.state[t] == Running
      && Timely(timeout, now)
    case Signal(q, reason) => q < |w.watchers|
    case Broadcast(q, reason) => q < |w.watchers|
    case Interrupt(t, reason) => t < |w.state| && w.state[t] == Waiting
    case CheckTimeout(now) => true
    case Scheduled(t) => t < |w.state| && w.state[t] != Waiting
    case ProcState(t, stopped) => t < |w.state|
  }

  ghost function Step(w: Waits, e: Event): (r: Waits)
    requires Inv(w) && Enabled(w, e)
    ensures Inv(r)
  {
    match e
    case Sleep(q, t, head, timeout, now) =>
      WaitKeepsInv(w, q, t, head, timeout, now);
      Wait(w, q, t, head, timeout, now)
    case Signal(q, reason) => Signalled(w, q, reason)
    case Broadcast(q, reason) => Broadcasted(w, q, reason)
    case Interrupt(t, reason) =>
      WakeupThreadKeepsInv(w, t, reason);
      WakeupThread(w, t, reason)
    case CheckTimeout(now) => Expired(w, now)
    case Scheduled(t) => w.(state := w.state[t := Running])
    case ProcState(t, stopped) => w.(procStopped := w.procStopped[t := stopped])
  }

  ghost predicate IsRun(w: Waits, es: seq<Event>)
    requires Inv(w)
    decreases |es|
  {
    es == [] || (Enabled(w, es[0]) && IsRun(Step(w, es[0]), es[1..]))
  }

  /** Every run keeps the invariant: the watcher lists and the timeout list say exactly who waits. */
  ghost function Run(w: Waits, es: seq<Event>): (r: Waits)
    requires Inv(w) && IsRun(w, es)
    ensures Inv(r)
    decreases |es|
  {
    if es == [] then w else Run(Step(w, es[0]), es[1..])
  }

  /** n threads, m wait queues, nobody waiting. */
  ghost function Initial(n: nat, m: nat): (w: Waits)
  {
    Waits(seq(m, _ => []), [], seq(n, _ => Running), seq(n, _ => None), seq(n, _ => Timespec(0, 0)),
          seq(n, _ => 0), seq(n, _ => false))
  }

  lemma InitialInv(n: nat, m: nat)
    ensures Inv(Initial(n, m))
  {
  }

  // ----- the C code, in place -----

  class WaitQueues {
    var watchers: seq<seq<Tid>>
    var timeouts: seq<Tid>
    var state: seq<TState>
    var on: seq<Option<nat>>
    var deadline: seq<Timespec>
    var ret: seq<int>
    var procStopped: seq<bool>

    ghost function W(): Waits
      reads this
    {
      Waits(watchers, timeouts, state, on, deadline, ret, procStopped)
    }

    method AddWaitingThread(t: Tid)
      requires Shape(W()) && t < |state|
      modifies this
      ensures W() == old(W()).(timeouts := Inserted(old(deadline), old(timeouts), t))
    {
      var i := 0;
      while i < |timeouts| && TimespecCmp(deadline[t], deadline[timeouts[i]]) >= 0
        invariant 0 <= i <= |timeouts|
        invariant forall j :: 0 <= j < i ==> TimespecCmp(deadline[t], deadline[timeouts[j]]) >= 0
      {
        i := i + 1;
      }
      SlotIsUnique(deadline, timeouts, deadline[t], i);
      timeouts := timeouts[..i] + [t] + timeouts[i..];
    }

    method WaitOn(q: nat, t: Tid, head: bool, timeout: Option<Timespec>, now: Timespec)
      requires Inv(W()) && q < |watchers| && t < |state| && state[t] == Running
      modifies this
      ensures W() == Wait(old(W()), q, t, head, timeout, now)
      ensures Inv(W()) <==> Timely(timeout, now)
    {
      WaitKeepsInv(W(), q, t, head, timeout, now);
      watchers := watchers[q := if head then [t] + watchers[q] else watchers[q] + [t]];
      state := state[t := Waiting];
      on := on[t := Some(q)];
      if timeout.None? {
        deadline := deadline[t := Timespec(0, 0)];
      } else {
        deadline := deadline[t := TimespecAdd(now, timeout.value)];
        AddWaitingThread(t);
      }
    }

    method DoWakeup(t: Tid, reason: int)
      requires Shape(W()) && t < |state| && on[t].Some?
      modifies this
      ensures W() == Wakeup(old(W()), t, reason)
    {
      var q := on[t].value;
      watchers := watchers[q := Remove(watchers[q], t)];
      state := state[t := if procStopped[t] then Stopped else Paused];
      on := on[t := None];
      ret := ret[t := reason];
    }

    method DoWakeupThread(t: Tid, reason: int)
      requires Inv(W()) && t < |state| && on[t].Some?
      modifies this
      ensures W() == WakeupThread(old(W()), t, reason)
      ensures Inv(W())
    {
      WakeupThreadKeepsInv(W(), t, reason);
      if deadline[t].sec != 0 || deadline[t].nsec != 0 {
        RemoveThreads(|state|, timeouts, t);
        timeouts := Remove(timeouts, t);
      }
      DoWakeup(t, reason);
    }

    method CheckTimeouts(cur: Timespec)
      requires Inv(W())
      modifies this
      ensures W() == Expired(old(W()), cur)
      ensures Inv(W())
    {
      ghost var goal := Expired(W(), cur);
      while true
        invariant Inv(W()) && Expired(W(), cur) == goal
        decreases |timeouts|
      {
        if timeouts == [] { break; }
        var t := timeouts[0];
        if TimespecCmp(cur, deadline[t]) <= 0 { break; }
        ghost var w := W();
        assert t in timeouts;
        timeouts := timeouts[1..];
        DoWakeup(t, -EWOULDBLOCK);
        assert W() == ExpireHead(w);
      }
    }

    /** waitq_signal: the tests that would skip a watcher never fire. */
    method SignalOne(q: nat, reason: int) returns (res: nat)
      requires Inv(W()) && q < |watchers|
      modifies this
      ensures W() == Signalled(old(W()), q, reason)
      ensures res == if old(watchers[q]) == [] then 0 else 1
      ensures Inv(W())
    {
      if watchers[q] == [] { return 0; }
      var t := watchers[q][0];
      assert t in watchers[q];
      assert state[t] == Waiting && on[t] == Some(q);
      DoWakeupThread(t, reason);
      return 1;
    }

    method BroadcastAll(q: nat, reason: int) returns (res: nat)
      requires Inv(W()) && q < |watchers|
      modifies this
      ensures W() == Broadcasted(old(W()), q, reason)
      ensures res == |old(watchers[q])|
      ensures Inv(W())
    {
      ghost var goal := Broadcasted(W(), q, reason);
      res := 0;
      while watchers[q] != []
        invariant Inv(W()) && q < |watchers| && Broadcasted(W(), q, reason) == goal
        invariant res + |watchers[q]| == |old(watchers[q])|
        decreases |watchers[q]|
      {
        SignalShortens(W(), q, reason);
        var one := SignalOne(q, reason);
        res := res + one;
      }
    }
  }

  lemma {:induction false} SlotIsUnique(deadline: seq<Timespec>, ts: seq<Tid>, d: Timespec, k: nat)
    requires Threads(|deadline|, ts) && k <= |ts|
    requires forall i :: 0 <= i < k ==> TimespecCmp(d, deadline[ts[i]]) >= 0
    requires k < |ts| ==> TimespecCmp(d, deadline[ts[k]]) < 0
    ensures k == Slot(deadline, ts, d)
  {
    if k == 0 {
    } else {
      SlotIsUnique(deadline, ts[1..], d, k - 1);
    }
  }
}

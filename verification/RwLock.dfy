/** kern/rwlock.c: a writer-preferring read/write lock built on two wait queues.

    `Lock` is the C structure.  Each function on `Lock` is the code a thread runs
    while it holds the spinlock: from the entry of a call, or from a wake-up, up to
    the point where it returns or goes back to sleep.  `System` adds what the
    threads know: who holds the lock and who was woken but has not yet looked at
    the lock again. */
module RwLock {
  import opened Base

  const SIZE_MAX: nat := 0xFFFF_FFFF_FFFF_FFFF

  datatype Lock = Lock(wowner: Option<Tid>, rlockNb: nat, rwaitq: seq<Tid>, wwaitq: seq<Tid>)

  datatype Outcome = Acquired | Asleep

  // ----- the C code, on values -----

  function RdAttempt(l: Lock, t: Tid): (Lock, Outcome)
  {
    if l.wowner.Some? || l.wwaitq != [] then (l.(rwaitq := l.rwaitq + [t]), Asleep)
    else (l.(rlockNb := l.rlockNb + 1), Acquired)
  }

  function WrAttempt(l: Lock, t: Tid): (Lock, Outcome)
  {
    if l.wowner.Some? || l.rlockNb != 0 then (l.(wwaitq := l.wwaitq + [t]), Asleep)
    else (l.(wowner := Some(t)), Acquired)
  }

  function TryRd(l: Lock): (Lock, bool)
  {
    if l.wowner.Some? || l.wwaitq != [] then (l, false) else (l.(rlockNb := l.rlockNb + 1), true)
  }

  function TryWr(l: Lock, t: Tid): (Lock, bool)
  {
    if l.wowner.None? && l.rlockNb == 0 then (l.(wowner := Some(t)), true) else (l, false)
  }

  /** waitq_signal on a list of sleepers: wakes the first one. */
  function Signal(q: seq<Tid>): (seq<Tid>, seq<Tid>)
  {
    if q == [] then ([], []) else (q[1..], [q[0]])
  }

  datatype Released = Released(lock: Lock, wokenW: seq<Tid>, wokenR: seq<Tid>)

  /** rlock_nb is a size_t: decrementing zero wraps. */
  function Dec(n: nat): nat { if n == 0 then SIZE_MAX else n - 1 }

  function Unlock(l: Lock, t: Tid): Released
  {
    if l.wowner == Some(t) then
      var (q, w) := Signal(l.wwaitq);
      if w != [] then Released(l.(wowner := None, wwaitq := q), w, [])
      else Released(l.(wowner := None, rwaitq := []), [], l.rwaitq)
    else
      var n := Dec(l.rlockNb);
      if n == 0 then
        var (q, w) := Signal(l.wwaitq);
        Released(l.(rlockNb := n, wwaitq := q), w, [])
      else Released(l.(rlockNb := n), [], [])
  }

  // ----- the C code, in place -----

  class RwLock {
    var wowner: Option<Tid>
    var rlockNb: nat
    var rwaitq: seq<Tid>
    var wwaitq: seq<Tid>

    ghost function Abs(): Lock
      reads this
    {
      Lock(wowner, rlockNb, rwaitq, wwaitq)
    }

    constructor ()
      ensures Abs() == Lock(None, 0, [], [])
    {
      wowner, rlockNb, rwaitq, wwaitq := None, 0, [], [];
    }

    /** One turn of the loop of rwlock_rdlock, up to the sleep or the return. */
    method RdLock(t: Tid) returns (r: Outcome)
      modifies this
      ensures (Abs(), r) == RdAttempt(old(Abs()), t)
    {
      if wowner.Some? {
        rwaitq := rwaitq + [t];
        return Asleep;
      }
      if wwaitq != [] {
        rwaitq := rwaitq + [t];
        return Asleep;
      }
      rlockNb := rlockNb + 1;
      return Acquired;
    }

    method TryRdLock() returns (ok: bool)
      modifies this
      ensures (Abs(), ok) == TryRd(old(Abs()))
    {
      if wowner.Some? { return false; }
      if wwaitq != [] { return false; }
      rlockNb := rlockNb + 1;
      return true;
    }

    method WrLock(t: Tid) returns (r: Outcome)
      modifies this
      ensures (Abs(), r) == WrAttempt(old(Abs()), t)
    {
      if wowner.Some? || rlockNb != 0 {
        wwaitq := wwaitq + [t];
        return Asleep;
      }
      wowner := Some(t);
      return Acquired;
    }

    method TryWrLock(t: Tid) returns (ok: bool)
      modifies this
      ensures (Abs(), ok) == TryWr(old(Abs()), t)
    {
      if wowner.None? && rlockNb == 0 {
        wowner := Some(t);
        return true;
      }
      return false;
    }

    method SignalWriter() returns (woken: seq<Tid>)
      modifies this`wwaitq
      ensures (wwaitq, woken) == Signal(old(wwaitq))
    {
      if wwaitq == [] { return []; }
      woken := [wwaitq[0]];
      wwaitq := wwaitq[1..];
    }

    method Release(t: Tid) returns (wokenW: seq<Tid>, wokenR: seq<Tid>)
      modifies this
      ensures Released(Abs(), wokenW, wokenR) == Unlock(old(Abs()), t)
    {
      wokenW, wokenR := [], [];
      if wowner.Some? && wowner.value == t {
        wowner := None;
        wokenW := SignalWriter();
        if wokenW == [] {
          wokenR := rwaitq;
          rwaitq := [];
        }
      } else {
        rlockNb := Dec(rlockNb);
        if rlockNb == 0 {
          wokenW := SignalWriter();
        }
      }
    }
  }

  // ----- every interleaving -----

  /** readers lists the read holds; wokenR and wokenW are threads taken off a queue that
      have not yet re-tested the lock. */
  datatype System = System(lock: Lock, readers: seq<Tid>, wokenR: seq<Tid>, wokenW: seq<Tid>)

  datatype Event =
    | RdLock(t: Tid) | WrLock(t: Tid) | TryRdLock(t: Tid) | TryWrLock(t: Tid)
    | ResumeReader(t: Tid) | ResumeWriter(t: Tid)
    | Interrupt(t: Tid)      // a signal takes a sleeper off its queue
    | UnlockBy(t: Tid)

  /** How often t is inside a lock call that has not returned. */
  ghost function Blocked(s: System, t: Tid): nat
  {
    Count(s.lock.rwaitq, t) + Count(s.lock.wwaitq, t) + Count(s.wokenR, t) + Count(s.wokenW, t)
  }

  /** How often t holds the lock. */
  ghost function Holds(s: System, t: Tid): nat
  {
    Count(s.readers, t) + (if s.lock.wowner == Some(t) then 1 else 0)
  }

  /** What a thread can do next; unlocking is left to holders. */
  ghost predicate Enabled(s: System, e: Event)
  {
    match e
    case ResumeReader(t) => t in s.wokenR
    case ResumeWriter(t) => t in s.wokenW
    case Interrupt(t) => t in s.lock.rwaitq || t in s.lock.wwaitq
    case UnlockBy(t) => Blocked(s, t) == 0 && Holds(s, t) > 0
    case _ => Blocked(s, e.t) == 0
  }

  function TakeRead(s: System, t: Tid): System
  {
    var (l, r) := RdAttempt(s.lock, t);
    s.(lock := l, readers := if r == Acquired then s.readers + [t] else s.readers)
  }

  function Step(s: System, e: Event): System
  {
    match e
    case RdLock(t) => TakeRead(s, t)
    case ResumeReader(t) => TakeRead(s.(wokenR := Remove(s.wokenR, t)), t)
    case WrLock(t) => s.(lock := WrAttempt(s.lock, t).0)
    case ResumeWriter(t) => s.(lock := WrAttempt(s.lock, t).0, wokenW := Remove(s.wokenW, t))
    case TryRdLock(t) =>
      var (l, ok) := TryRd(s.lock);
      s.(lock := l, readers := if ok then s.readers + [t] else s.readers)
    case TryWrLock(t) => s.(lock := TryWr(s.lock, t).0)
    case Interrupt(t) =>
      if t in s.lock.wwaitq then
        s.(lock := s.lock.(wwaitq := Remove(s.lock.wwaitq, t)), wokenW := s.wokenW + [t])
      else
        s.(lock := s.lock.(rwaitq := Remove(s.lock.rwaitq, t)), wokenR := s.wokenR + [t])
    case UnlockBy(t) =>
      var u := Unlock(s.lock, t);
      System(u.lock,
             if s.lock.wowner == Some(t) then s.readers else Remove(s.readers, t),
             s.wokenR + u.wokenR, s.wokenW + u.wokenW)
  }

  function Initial(): System { System(Lock(None, 0, [], []), [], [], []) }

  ghost predicate IsRun(s: System, es: seq<Event>)
    decreases |es|
  {
    es == [] || (Enabled(s, es[0]) && IsRun(Step(s, es[0]), es[1..]))
  }

  ghost function Run(s: System, es: seq<Event>): System
    decreases |es|
  {
    if es == [] then s else Run(Step(s, es[0]), es[1..])
  }

  /** The lock word agrees with the holders, and a writer excludes everybody else. */
  ghost predicate Exclusive(s: System)
  {
    && s.lock.rlockNb == |s.readers|
    && (s.lock.wowner.Some? ==> s.lock.rlockNb == 0)
  }

  /** Whoever sleeps waits for somebody who is going to call unlock or to look at the lock. */
  ghost predicate NoLostWakeup(s: System)
  {
    && (s.lock.rwaitq != [] ==> s.lock.wowner.Some? || s.lock.wwaitq != [] || s.wokenW != [])
    && (s.lock.wwaitq != [] ==> s.lock.wowner.Some? || s.lock.rlockNb != 0 || s.wokenW != [])
  }

  ghost predicate Inv(s: System)
  {
    Exclusive(s) && NoLostWakeup(s)
  }

  lemma TakeReadKeepsInv(s: System, t: Tid)
    requires Inv(s)
    ensures Inv(TakeRead(s, t))
  {
  }

  lemma UnlockKeepsInv(s: System, t: Tid)
    requires Inv(s) && Holds(s, t) > 0
    ensures Inv(Step(s, UnlockBy(t)))
  {
  }

  lemma StepKeepsInv(s: System, e: Event)
    requires Inv(s) && Enabled(s, e)
    ensures Inv(Step(s, e))
  {
    match e {
      case RdLock(t) => TakeReadKeepsInv(s, t);
      case ResumeReader(t) => TakeReadKeepsInv(s.(wokenR := Remove(s.wokenR, t)), t);
      case UnlockBy(t) => UnlockKeepsInv(s, t);
      case _ =>
    }
  }

  /** Every reachable state of every interleaving satisfies the invariant. */
  lemma {:induction false} RunsKeepInv(s: System, es: seq<Event>)
    requires Inv(s) && IsRun(s, es)
    ensures Inv(Run(s, es))
    decreases |es|
  {
    if es == [] {
    } else {
      StepKeepsInv(s, es[0]);
      RunsKeepInv(Step(s, es[0]), es[1..]);
    }
  }

  ghost predicate Reachable(s: System)
  {
    exists es :: IsRun(Initial(), es) && Run(Initial(), es) == s
  }

  /** Safety: a writer is the only holder, and holds the lock once. */
  lemma MutualExclusion(s: System, t: Tid, u: Tid)
    requires Reachable(s) && s.lock.wowner == Some(t)
    ensures Holds(s, u) == if u == t then 1 else 0
  {
    var es :| IsRun(Initial(), es) && Run(Initial(), es) == s;
    RunsKeepInv(Initial(), es);
  }

  ghost predicate Free(s: System) { forall t :: Holds(s, t) == 0 }

  lemma FreeMeansUnlocked(s: System)
    requires Inv(s)
    ensures Free(s) <==> s.lock.wowner.None? && s.lock.rlockNb == 0
  {
    if Free(s) {
      assert s.lock.wowner.Some? ==> Holds(s, s.lock.wowner.value) > 0;
      assert s.readers != [] ==> Holds(s, s.readers[0]) > 0;
    }
  }

  /** Once the lock is free and no woken writer is on its way, nobody is left asleep. */
  lemma FreeLockHasNoSleepers(s: System)
    requires Reachable(s) && Free(s) && s.wokenW == []
    ensures s.lock.rwaitq == [] && s.lock.wwaitq == []
  {
    var es :| IsRun(Initial(), es) && Run(Initial(), es) == s;
    RunsKeepInv(Initial(), es);
    FreeMeansUnlocked(s);
  }

  /** Writer preference: a reader is admitted exactly when no writer owns the lock or is queued for it. */
  lemma ReadersYieldToWriters(s: System, e: Event)
    requires Enabled(s, e) && (e.RdLock? || e.ResumeReader? || e.TryRdLock?)
    ensures Holds(Step(s, e), e.t) > Holds(s, e.t) <==> s.lock.wowner.None? && s.lock.wwaitq == []
  {
    CountConcat(s.readers, [e.t], e.t);
  }

  /** A writer is admitted exactly when the lock has no holder at all. */
  lemma WritersNeedAFreeLock(s: System, e: Event)
    requires Reachable(s) && Enabled(s, e)
    requires e.WrLock? || e.ResumeWriter? || e.TryWrLock?
    ensures Holds(Step(s, e), e.t) > Holds(s, e.t) <==> Free(s)
  {
    var es :| IsRun(Initial(), es) && Run(Initial(), es) == s;
    RunsKeepInv(Initial(), es);
    FreeMeansUnlocked(s);
  }

  /** Unlocking keeps the lock word true exactly when the caller holds the lock:
      the code takes every caller that is not the writer for a reader. */
  lemma UnlockIsForHolders(s: System, t: Tid)
    requires Inv(s) && |s.readers| < SIZE_MAX
    ensures Exclusive(Step(s, UnlockBy(t))) <==> Holds(s, t) > 0
  {
  }

  // ----- progress -----

  /** The steps left to threads that are already inside: no new call, no signal. */
  predicate Draining(e: Event) { e.ResumeReader? || e.ResumeWriter? || e.UnlockBy? }

  ghost predicate IsDrain(s: System, es: seq<Event>)
    decreases |es|
  {
    es == [] || (Draining(es[0]) && Enabled(s, es[0]) && IsDrain(Step(s, es[0]), es[1..]))
  }

  /** Two for a thread that still has to get the lock, one for a hold still to be released. */
  ghost function Weight(s: System): nat
  {
    2 * (|s.lock.rwaitq| + |s.lock.wwaitq| + |s.wokenR| + |s.wokenW|) +
    s.lock.rlockNb + (if s.lock.wowner.Some? then 1 else 0)
  }

  ghost function Pending(s: System): nat { |s.wokenR| + |s.wokenW| }

  ghost predicate Lighter(s': System, s: System)
  {
    Weight(s') < Weight(s) || (Weight(s') == Weight(s) && Pending(s') < Pending(s))
  }

  lemma DrainStepIsLighter(s: System, e: Event)
    requires Inv(s) && Enabled(s, e) && Draining(e)
    ensures Lighter(Step(s, e), s)
  {
  }

  ghost function Bound(s: System): nat { Weight(s) * (Weight(s) + 1) + Pending(s) }

  /** Nobody asks for the lock while holding it. */
  ghost predicate Apart(s: System)
  {
    forall t :: Blocked(s, t) + Holds(s, t) <= 1
  }

  lemma SignalMoves(q: seq<Tid>, woken: seq<Tid>, u: Tid)
    ensures Count(woken + Signal(q).1, u) + Count(Signal(q).0, u) == Count(woken, u) + Count(q, u)
  {
    if q == [] {
      assert woken + [] == woken;
    } else {
      HeadMoves(q, woken, u);
    }
  }

  lemma UnlockKeepsBlocked(s: System, t: Tid, u: Tid)
    ensures Blocked(Step(s, UnlockBy(t)), u) == Blocked(s, u)
  {
    var l, s' := s.lock, Step(s, UnlockBy(t));
    if l.wowner == Some(t) && l.wwaitq == [] {
      assert s'.wokenW == s.wokenW;
      CountConcat(s.wokenR, l.rwaitq, u);
    } else if l.wowner == Some(t) || Dec(l.rlockNb) == 0 {
      assert s'.wokenR == s.wokenR;
      SignalMoves(l.wwaitq, s.wokenW, u);
    } else {
      assert s'.wokenR == s.wokenR && s'.wokenW == s.wokenW;
    }
  }

  lemma UnlockFrees(s: System, t: Tid, u: Tid)
    ensures Holds(Step(s, UnlockBy(t)), u) <= Holds(s, u)
  {
    CountRemove(s.readers, t, u);
  }

  lemma ResumeReaderMoves(s: System, t: Tid, u: Tid)
    requires t in s.wokenR
    ensures var s' := Step(s, ResumeReader(t)); Blocked(s', u) + Holds(s', u) == Blocked(s, u) + Holds(s, u)
  {
    CountRemove(s.wokenR, t, u);
    if RdAttempt(s.lock, t).1 == Acquired {
      CountConcat(s.readers, [t], u);
    } else {
      CountConcat(s.lock.rwaitq, [t], u);
    }
  }

  lemma ResumeWriterMoves(s: System, t: Tid, u: Tid)
    requires t in s.wokenW
    ensures var s' := Step(s, ResumeWriter(t)); Blocked(s', u) + Holds(s', u) == Blocked(s, u) + Holds(s, u)
  {
    CountRemove(s.wokenW, t, u);
    if WrAttempt(s.lock, t).1 == Asleep {
      CountConcat(s.lock.wwaitq, [t], u);
    }
  }

  lemma DrainStepKeepsApart(s: System, e: Event)
    requires Inv(s) && Apart(s) && Enabled(s, e) && Draining(e)
    ensures Apart(Step(s, e))
  {
    var s' := Step(s, e);
    forall u ensures Blocked(s', u) + Holds(s', u) <= 1 {
      assert Blocked(s, u) + Holds(s, u) <= 1;
      match e {
        case UnlockBy(t) => UnlockKeepsBlocked(s, t, u); UnlockFrees(s, t, u);
        case ResumeReader(t) => ResumeReaderMoves(s, t, u);
        case ResumeWriter(t) => ResumeWriterMoves(s, t, u);
      }
    }
  }

  lemma LighterDropsBound(s': System, s: System)
    requires Lighter(s', s)
    ensures Bound(s') < Bound(s)
  {
    BoundDrops(Weight(s), Pending(s), Weight(s'), Pending(s'));
  }

  lemma DrainStep(s: System, e: Event)
    requires Inv(s) && Apart(s) && Enabled(s, e) && Draining(e)
    ensures Inv(Step(s, e)) && Apart(Step(s, e)) && Bound(Step(s, e)) < Bound(s)
  {
    StepKeepsInv(s, e);
    DrainStepKeepsApart(s, e);
    DrainStepIsLighter(s, e);
    LighterDropsBound(Step(s, e), s);
  }

  /** A drain keeps the invariants and cannot go on for ever, whatever the interleaving. */
  lemma {:induction false} DrainIsBounded(s: System, es: seq<Event>)
    requires Inv(s) && Apart(s) && IsDrain(s, es)
    ensures |es| <= Bound(s)
    ensures Inv(Run(s, es)) && Apart(Run(s, es))
    decreases |es|
  {
    if es == [] {
    } else {
      DrainStep(s, es[0]);
      DrainIsBounded(Step(s, es[0]), es[1..]);
    }
  }

  lemma StuckMeansServed(z: System)
    requires Inv(z) && Apart(z)
    requires forall e :: Draining(e) ==> !Enabled(z, e)
    ensures Free(z) && forall t :: Blocked(z, t) == 0
  {
    forall t ensures Holds(z, t) == 0 && t !in z.wokenR && t !in z.wokenW {
      assert !Enabled(z, UnlockBy(t)) && !Enabled(z, ResumeReader(t)) && !Enabled(z, ResumeWriter(t));
      assert Blocked(z, t) + Holds(z, t) <= 1;
    }
    HasMember(z.wokenR);
    HasMember(z.wokenW);
    FreeMeansUnlocked(z);
  }

  /** Progress: let the threads inside finish in any order.  The drain is bounded, and where it
      cannot go on, everyone has been served and has released the lock. */
  lemma EveryoneIsServed(s: System, es: seq<Event>)
    requires Reachable(s) && Apart(s) && IsDrain(s, es)
    ensures |es| <= Bound(s)
    ensures (forall e :: Draining(e) ==> !Enabled(Run(s, es), e)) ==>
              Free(Run(s, es)) && forall t :: Blocked(Run(s, es), t) == 0
  {
    var es0 :| IsRun(Initial(), es0) && Run(Initial(), es0) == s;
    RunsKeepInv(Initial(), es0);
    DrainIsBounded(s, es);
    if forall e :: Draining(e) ==> !Enabled(Run(s, es), e) {
      StuckMeansServed(Run(s, es));
    }
  }
}

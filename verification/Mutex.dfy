/** kern/mutex.c: the sleeping mutex, with its spinning entry and its recursive flavour. */
module Mutex {
  import opened Base

  datatype Mutex = Mutex(recursive: bool, owner: Option<Tid>, recursiveNb: nat, waitq: seq<Tid>)

  datatype Outcome = Acquired | Asleep | Spinning | Panicked

  // ----- the C code, on values -----

  function Acquire(m: Mutex, t: Tid): Mutex
  {
    m.(owner := Some(t), recursiveNb := if m.recursive then 1 else m.recursiveNb)
  }

  /** mutex_lock from its entry, or from a wake-up, to its return or to the sleep. */
  function LockAttempt(m: Mutex, t: Tid): (Mutex, Outcome)
  {
    if m.owner.None? then (Acquire(m, t), Acquired)
    else if m.owner == Some(t) then
      if m.recursive then (m.(recursiveNb := m.recursiveNb + 1), Acquired) else (m, Panicked)
    else (m.(waitq := m.waitq + [t]), Asleep)
  }

  /** One round of mutex_spinlock. */
  function SpinAttempt(m: Mutex, t: Tid): (Mutex, Outcome)
  {
    if m.owner.Some? && m.owner != Some(t) then (m, Spinning) else LockAttempt(m, t)
  }

  datatype Released = Released(mutex: Mutex, woken: seq<Tid>, panicked: bool)

  function Signal(m: Mutex): Released
  {
    var m' := m.(owner := None);
    if m.waitq == [] then Released(m', [], false)
    else Released(m'.(waitq := m.waitq[1..]), [m.waitq[0]], false)
  }

  /** mutex_unlock, called by a thread; the code never looks at who the caller is. */
  function Unlock(m: Mutex): Released
  {
    if m.owner.None? then Released(m, [], true)
    else if !m.recursive then Signal(m)
    else if m.recursiveNb == 0 then Released(m, [], true)
    else if m.recursiveNb == 1 then Signal(m.(recursiveNb := 0))
    else Released(m.(recursiveNb := m.recursiveNb - 1), [], false)
  }

  // ----- the C code, in place -----

  class KMutex {
    const recursive: bool
    var owner: Option<Tid>
    var recursiveNb: nat
    var waitq: seq<Tid>

    ghost function Abs(): Mutex
      reads this
    {
      Mutex(recursive, owner, recursiveNb, waitq)
    }

    constructor (recursive: bool)
      ensures Abs() == Mutex(recursive, None, 0, [])
    {
      this.recursive := recursive;
      owner, recursiveNb, waitq := None, 0, [];
    }

    method Lock(t: Tid) returns (r: Outcome)
      modifies this
      ensures (Abs(), r) == LockAttempt(old(Abs()), t)
    {
      if owner.None? {
        owner := Some(t);
        if recursive { recursiveNb := 1; }
        return Acquired;
      }
      if owner.value == t {
        if !recursive { return Panicked; }
        recursiveNb := recursiveNb + 1;
        return Acquired;
      }
      waitq := waitq + [t];
      return Asleep;
    }

    method SpinLock(t: Tid) returns (r: Outcome)
      modifies this
      ensures (Abs(), r) == SpinAttempt(old(Abs()), t)
    {
      if owner.None? {
        owner := Some(t);
        if recursive { recursiveNb := 1; }
        return Acquired;
      }
      if owner.value == t {
        if !recursive { return Panicked; }
        recursiveNb := recursiveNb + 1;
        return Acquired;
      }
      return Spinning;
    }

    method Release() returns (woken: seq<Tid>, panicked: bool)
      modifies this
      ensures Released(Abs(), woken, panicked) == Unlock(old(Abs()))
    {
      if owner.None? { return [], true; }
      if recursive {
        if recursiveNb == 0 { return [], true; }
        recursiveNb := recursiveNb - 1;
        if recursiveNb != 0 { return [], false; }
      }
      owner := None;
      if waitq == [] { return [], false; }
      woken, panicked := [waitq[0]], false;
      waitq := waitq[1..];
    }
  }

  // ----- every interleaving -----

  /** held has one entry for every lock call that returned and was not yet undone;
      woken are threads taken off the queue that have not yet re-tested the mutex. */
  datatype System = System(m: Mutex, held: seq<Tid>, woken: seq<Tid>)

  datatype Event = Lock(t: Tid) | Spin(t: Tid) | Resume(t: Tid) | Interrupt(t: Tid) | UnlockBy(t: Tid)

  ghost predicate Enabled(s: System, e: Event)
  {
    match e
    case Lock(t) => t !in s.m.waitq && t !in s.woken
    case Spin(t) => t !in s.m.waitq && t !in s.woken
    case Resume(t) => t in s.woken
    case Interrupt(t) => t in s.m.waitq
    case UnlockBy(t) => t in s.held && t !in s.m.waitq && t !in s.woken
  }

  function Attempted(s: System, t: Tid, r: (Mutex, Outcome)): System
  {
    s.(m := r.0, held := if r.1 == Acquired then s.held + [t] else s.held)
  }

  function Step(s: System, e: Event): System
  {
    match e
    case Lock(t) => Attempted(s, t, LockAttempt(s.m, t))
    case Spin(t) => Attempted(s, t, SpinAttempt(s.m, t))
    case Resume(t) => Attempted(s.(woken := Remove(s.woken, t)), t, LockAttempt(s.m, t))
    case Interrupt(t) => s.(m := s.m.(waitq := Remove(s.m.waitq, t)), woken := s.woken + [t])
    case UnlockBy(t) => var u := Unlock(s.m); System(u.mutex, Remove(s.held, t), s.woken + u.woken)
  }

  predicate Panics(s: System, e: Event)
  {
    match e
    case Lock(t) => LockAttempt(s.m, t).1 == Panicked
    case Spin(t) => SpinAttempt(s.m, t).1 == Panicked
    case Resume(t) => LockAttempt(s.m, t).1 == Panicked
    case Interrupt(t) => false
    case UnlockBy(t) => Unlock(s.m).panicked
  }

  /** Runs of the living kernel: a panic ends the run. */
  ghost predicate IsRun(s: System, es: seq<Event>)
    decreases |es|
  {
    es == [] || (Enabled(s, es[0]) && !Panics(s, es[0]) && IsRun(Step(s, es[0]), es[1..]))
  }

  ghost function Run(s: System, es: seq<Event>): System
    decreases |es|
  {
    if es == [] then s else Run(Step(s, es[0]), es[1..])
  }

  /** held repeats the owner, as often as the recursion counter says. */
  ghost predicate Owned(s: System)
  {
    && (s.m.owner.None? <==> s.held == [])
    && (forall t :: t in s.held ==> s.m.owner == Some(t))
    && |s.held| == (if s.m.recursive then s.m.recursiveNb else if s.m.owner.Some? then 1 else 0)
  }

  ghost predicate Inv(s: System)
  {
    && Owned(s)
    // sleepers wait for the owner, or for a thread that was woken in their place
    && (s.m.waitq != [] && s.m.owner.None? ==> s.woken != [])
    // the owner is not waiting for itself
    && (forall t :: s.m.owner == Some(t) ==> t !in s.m.waitq && t !in s.woken)
  }

  /** A blocked thread is blocked once. */
  ghost predicate OnePlace(s: System)
  {
    forall t :: Count(s.m.waitq, t) + Count(s.woken, t) <= 1
  }

  lemma MembersOfConcat(a: seq<Tid>, b: seq<Tid>)
    ensures forall t :: t in a + b <==> t in a || t in b
  {
  }

  lemma RemoveMembers(s: seq<Tid>, x: Tid)
    ensures forall t :: t in Remove(s, x) ==> t in s
    ensures Count(s, x) <= 1 ==> x !in Remove(s, x)
  {
    forall t ensures t in Remove(s, x) ==> t in s { CountRemove(s, x, t); }
    CountRemove(s, x, x);
  }

  lemma AttemptKeepsInv(s: System, t: Tid)
    requires Inv(s) && t !in s.m.waitq && t !in s.woken && LockAttempt(s.m, t).1 != Panicked
    ensures Inv(Attempted(s, t, LockAttempt(s.m, t)))
  {
    MembersOfConcat(s.held, [t]);
    MembersOfConcat(s.m.waitq, [t]);
    HasMember(s.held);
  }

  lemma ResumeKeepsInv(s: System, t: Tid)
    requires Inv(s) && OnePlace(s) && t in s.woken && LockAttempt(s.m, t).1 != Panicked
    ensures Inv(Step(s, Resume(t)))
  {
    RemoveMembers(s.woken, t);
    assert Count(s.m.waitq, t) + Count(s.woken, t) <= 1;
    MembersOfConcat(s.held, [t]);
    MembersOfConcat(s.m.waitq, [t]);
    HasMember(s.held);
  }

  lemma InterruptKeepsInv(s: System, t: Tid)
    requires Inv(s) && t in s.m.waitq
    ensures Inv(Step(s, Interrupt(t)))
  {
    RemoveMembers(s.m.waitq, t);
    MembersOfConcat(s.woken, [t]);
  }

  lemma UnlockKeepsInv(s: System, t: Tid)
    requires Inv(s) && t in s.held
    ensures Inv(Step(s, UnlockBy(t))) && !Panics(s, UnlockBy(t))
  {
    RemoveMembers(s.held, t);
    MembersOfConcat(s.woken, Unlock(s.m).woken);
    HasMember(Remove(s.held, t));
  }

  lemma StepKeepsOnePlace(s: System, e: Event)
    requires OnePlace(s) && Enabled(s, e) && !Panics(s, e)
    ensures OnePlace(Step(s, e))
  {
    var s' := Step(s, e);
    forall u ensures Count(s'.m.waitq, u) + Count(s'.woken, u) <= 1 {
      assert Count(s.m.waitq, u) + Count(s.woken, u) <= 1;
      match e {
        case Lock(t) => CountConcat(s.m.waitq, [t], u);
        case Spin(t) =>
        case Resume(t) => CountConcat(s.m.waitq, [t], u); CountRemove(s.woken, t, u);
        case Interrupt(t) => CountRemove(s.m.waitq, t, u); CountConcat(s.woken, [t], u);
        case UnlockBy(t) => UnlockMoves(s, u);
      }
    }
  }

  lemma UnlockMoves(s: System, u: Tid)
    ensures Count(Unlock(s.m).mutex.waitq, u) + Count(s.woken + Unlock(s.m).woken, u)
            == Count(s.m.waitq, u) + Count(s.woken, u)
  {
    var q := s.m.waitq;
    assert s.woken + [] == s.woken;
    if q != [] {
      HeadMoves(q, s.woken, u);
    }
  }

  lemma StepKeepsInv(s: System, e: Event)
    requires Inv(s) && OnePlace(s) && Enabled(s, e) && !Panics(s, e)
    ensures Inv(Step(s, e)) && OnePlace(Step(s, e))
  {
    StepKeepsOnePlace(s, e);
    match e {
      case Lock(t) => AttemptKeepsInv(s, t);
      case Spin(t) => if SpinAttempt(s.m, t).1 != Spinning { AttemptKeepsInv(s, t); }
      case Resume(t) => ResumeKeepsInv(s, t);
      case Interrupt(t) => InterruptKeepsInv(s, t);
      case UnlockBy(t) => UnlockKeepsInv(s, t);
    }
  }

  function Initial(recursive: bool): System { System(Mutex(recursive, None, 0, []), [], []) }

  lemma {:induction false} RunsKeepInv(s: System, es: seq<Event>)
    requires Inv(s) && OnePlace(s) && IsRun(s, es)
    ensures Inv(Run(s, es)) && OnePlace(Run(s, es))
    decreases |es|
  {
    if es == [] {
    } else {
      StepKeepsInv(s, es[0]);
      RunsKeepInv(Step(s, es[0]), es[1..]);
    }
  }

  ghost predicate Reachable(s: System)
  {
    exists r, es :: IsRun(Initial(r), es) && Run(Initial(r), es) == s
  }

  lemma ReachableInv(s: System)
    requires Reachable(s)
    ensures Inv(s) && OnePlace(s)
  {
    var r, es :| IsRun(Initial(r), es) && Run(Initial(r), es) == s;
    RunsKeepInv(Initial(r), es);
  }

  /** Mutual exclusion with depth: one thread holds the mutex at most, and it has to unlock
      exactly as often as it locked before anybody else can get in. */
  lemma OneHolder(s: System, t: Tid, u: Tid)
    requires Reachable(s) && t in s.held && u in s.held
    ensures t == u
    ensures s.m.recursive ==> s.m.recursiveNb == |s.held|
    ensures !s.m.recursive ==> s.held == [t]
  {
    ReachableInv(s);
  }

  /** An unowned mutex has no sleepers unless a woken contender is about to look at it. */
  lemma NoLostWakeup(s: System)
    requires Reachable(s) && s.m.owner.None? && s.woken == []
    ensures s.m.waitq == []
  {
    ReachableInv(s);
  }

  /** The panics: a holder's unlock never panics, and the lock paths panic exactly when the
      holder of a mutex without the recursive flag asks for it again. */
  lemma PanicsExactly(s: System, e: Event)
    requires Reachable(s) && Enabled(s, e)
    ensures Panics(s, e) <==> (e.Lock? || e.Spin?) && !s.m.recursive && e.t in s.held
  {
    ReachableInv(s);
    HasMember(s.held);
    if e.UnlockBy? { UnlockKeepsInv(s, e.t); }
  }

  /** An unlock goes through and leaves owner and depth true exactly when its caller holds the mutex:
      the code does not look at who calls. */
  lemma UnlockIsForHolders(s: System, t: Tid)
    requires Inv(s)
    ensures !Panics(s, UnlockBy(t)) && Owned(Step(s, UnlockBy(t))) <==> t in s.held
  {
    if t in s.held {
      UnlockKeepsInv(s, t);
    } else {
      RemoveAbsent(s.held, t);
    }
  }

  // ----- progress -----

  /** The steps left to threads that are already inside: no new call, no signal. */
  predicate Draining(e: Event) { e.Resume? || e.UnlockBy? }

  ghost predicate IsDrain(s: System, es: seq<Event>)
    decreases |es|
  {
    es == [] || (Draining(es[0]) && Enabled(s, es[0]) && IsDrain(Step(s, es[0]), es[1..]))
  }

  /** Two for a thread that still has to get the mutex, one for a level still to be released. */
  ghost function Weight(s: System): nat { 2 * (|s.m.waitq| + |s.woken|) + |s.held| }

  ghost function Bound(s: System): nat { Weight(s) * (Weight(s) + 1) + |s.woken| }

  lemma DrainStepIsLighter(s: System, e: Event)
    requires Inv(s) && Enabled(s, e) && Draining(e)
    ensures !Panics(s, e)
    ensures var s' := Step(s, e);
            Weight(s') < Weight(s) || (Weight(s') == Weight(s) && |s'.woken| < |s.woken|)
  {
    if e.UnlockBy? { UnlockKeepsInv(s, e.t); }
  }

  lemma DrainStep(s: System, e: Event)
    requires Inv(s) && OnePlace(s) && Enabled(s, e) && Draining(e)
    ensures Inv(Step(s, e)) && OnePlace(Step(s, e)) && Bound(Step(s, e)) < Bound(s)
  {
    DrainStepIsLighter(s, e);
    StepKeepsInv(s, e);
    BoundDrops(Weight(s), |s.woken|, Weight(Step(s, e)), |Step(s, e).woken|);
  }

  lemma {:induction false} DrainIsBounded(s: System, es: seq<Event>)
    requires Inv(s) && OnePlace(s) && IsDrain(s, es)
    ensures |es| <= Bound(s)
    ensures Inv(Run(s, es)) && OnePlace(Run(s, es))
    decreases |es|
  {
    if es == [] {
    } else {
      DrainStep(s, es[0]);
      DrainIsBounded(Step(s, es[0]), es[1..]);
    }
  }

  lemma StuckMeansServed(z: System)
    requires Inv(z) && forall e :: Draining(e) ==> !Enabled(z, e)
    ensures z.m.owner.None? && z.held == [] && z.m.waitq == [] && z.woken == []
  {
    forall t ensures t !in z.woken && t !in z.held {
      assert !Enabled(z, Resume(t)) && !Enabled(z, UnlockBy(t));
    }
    HasMember(z.woken);
    HasMember(z.held);
  }

  /** Progress: let the threads inside finish in any order.  The drain is bounded, never panics, and
      where it cannot go on, everyone has been served and the mutex is free. */
  lemma EveryoneIsServed(s: System, es: seq<Event>)
    requires Reachable(s) && IsDrain(s, es)
    ensures |es| <= Bound(s)
    ensures (forall e :: Draining(e) ==> !Enabled(Run(s, es), e)) ==>
              var z := Run(s, es); z.m.owner.None? && z.held == [] && z.m.waitq == [] && z.woken == []
  {
    ReachableInv(s);
    DrainIsBounded(s, es);
    if forall e :: Draining(e) ==> !Enabled(Run(s, es), e) { StuckMeansServed(Run(s, es)); }
  }
}

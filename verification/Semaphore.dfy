/** kern/ipc.c: System V semaphore sets.  semop applies an array of operations atomically, or
    blocks; semctl writes values directly or removes the set. */
module Semaphore {
  import opened Base

  const SEMVMX: int := 32767      // INT16_MAX
  const U16: int := 65536         // semval.value is a uint16_t

  /** One struct sembuf: semaphore number, operation, IPC_NOWAIT. */
  datatype Sop = Sop(num: nat, op: int, nowait: bool)

  ghost predicate Values(v: seq<int>) { forall n :: 0 <= n < |v| ==> 0 <= v[n] < U16 }

  /** The limit the header gives for a value. */
  ghost predicate Bounded(v: seq<int>) { forall n :: 0 <= n < |v| ==> v[n] <= SEMVMX }

  /** sem_op is a short, and sem_num was checked against the size of the set. */
  ghost predicate Sops(n: nat, s: seq<Sop>)
  {
    forall i :: 0 <= i < |s| ==> s[i].num < n && -32768 <= s[i].op <= 32767
  }

  datatype Verdict = Pass | Again | Range

  /** What process_sops decides about one operation at the current value. */
  function Judge(value: int, op: int): Verdict
  {
    if op == 0 then (if value != 0 then Again else Pass)
    else if op < 0 then (if value < -op then Again else Pass)
    else if op > SEMVMX - value then Range else Pass
  }

  datatype Processed = Processed(v: seq<int>, done: nat, verdict: Verdict)

  /** process_sops from operation i on. */
  ghost function Process(v: seq<int>, s: seq<Sop>, i: nat): (r: Processed)
    requires Sops(|v|, s) && i <= |s|
    ensures |r.v| == |v| && i <= r.done <= |s|
    ensures r.verdict == Pass <==> r.done == |s|
    decreases |s| - i
  {
    if i == |s| then Processed(v, i, Pass)
    else
      var x := Judge(v[s[i].num], s[i].op);
      if x != Pass then Processed(v, i, x)
      else Process(v[s[i].num := v[s[i].num] + s[i].op], s, i + 1)
  }

  /** rollback_sops on the first n operations, last one first; the subtraction is 16 bits wide. */
  ghost function Rollback(v: seq<int>, s: seq<Sop>, n: nat): (r: seq<int>)
    requires Sops(|v|, s) && n <= |s|
    ensures |r| == |v|
    decreases n
  {
    if n == 0 then v
    else Rollback(v[s[n - 1].num := (v[s[n - 1].num] - s[n - 1].op) % U16], s, n - 1)
  }

  /** No operation makes a value negative, or takes one past SEMVMX that was not past it. */
  lemma {:induction false} ProcessInRange(v: seq<int>, s: seq<Sop>, i: nat)
    requires Values(v) && Sops(|v|, s) && i <= |s|
    ensures Values(Process(v, s, i).v)
    ensures Bounded(v) ==> Bounded(Process(v, s, i).v)
    decreases |s| - i
  {
    if i < |s| && Judge(v[s[i].num], s[i].op) == Pass {
      ProcessInRange(v[s[i].num := v[s[i].num] + s[i].op], s, i + 1);
    }
  }

  /** All or nothing: rolling back what was processed restores every value, also when the
      same semaphore occurs several times in the array. */
  lemma {:induction false} RollbackUndoes(v: seq<int>, s: seq<Sop>, i: nat)
    requires Values(v) && Sops(|v|, s) && i <= |s|
    ensures var p := Process(v, s, i); Rollback(p.v, s, p.done) == Rollback(v, s, i)
    decreases |s| - i
  {
    if i < |s| && Judge(v[s[i].num], s[i].op) == Pass {
      var n, x := s[i].num, v[s[i].num] + s[i].op;
      var v1 := v[n := x];
      RollbackUndoes(v1, s, i + 1);
      assert (x - s[i].op) % U16 == v[n];
      assert v1[n := v[n]] == v;
    }
  }

  // ----- an independent account of semop -----

  /** What the first i operations add to semaphore n. */
  ghost function Net(s: seq<Sop>, i: nat, n: nat): int
    requires i <= |s|
  {
    if i == 0 then 0 else Net(s, i - 1, n) + (if s[i - 1].num == n then s[i - 1].op else 0)
  }

  /** Operation i passes when the operations before it have been applied. */
  ghost predicate Passes(v: seq<int>, s: seq<Sop>, i: nat)
    requires Sops(|v|, s) && i < |s|
  {
    Judge(v[s[i].num] + Net(s, i, s[i].num), s[i].op) == Pass
  }

  ghost function After(v: seq<int>, s: seq<Sop>, i: nat): (r: seq<int>)
    requires i <= |s|
    ensures |r| == |v|
  {
    seq(|v|, n requires 0 <= n < |v| => v[n] + Net(s, i, n))
  }

  lemma {:induction false} ProcessIsNet(v: seq<int>, s: seq<Sop>, i: nat)
    requires Sops(|v|, s) && i <= |s|
    ensures var p := Process(After(v, s, i), s, i);
            && p.v == After(v, s, p.done)
            && (forall j :: i <= j < p.done ==> Passes(v, s, j))
            && (p.done < |s| ==> !Passes(v, s, p.done))
    decreases |s| - i
  {
    if i < |s| && Passes(v, s, i) {
      var a, n := After(v, s, i), s[i].num;
      assert a[n := a[n] + s[i].op] == After(v, s, i + 1);
      ProcessIsNet(v, s, i + 1);
    }
  }

  /** semop goes through exactly when every operation passes in turn, and then each semaphore
      has moved by the sum of its operations. */
  lemma SemopMeaning(v: seq<int>, s: seq<Sop>)
    requires Sops(|v|, s)
    ensures var p := Process(v, s, 0);
            && (p.verdict == Pass <==> forall i :: 0 <= i < |s| ==> Passes(v, s, i))
            && (p.verdict == Pass ==> forall n :: 0 <= n < |v| ==> p.v[n] == v[n] + Net(s, |s|, n))
  {
    assert After(v, s, 0) == v;
    ProcessIsNet(v, s, 0);
  }

  // ----- the C code, in place -----

  class SemSet {
    const value: array<int>
    const ncnt: array<int>
    const zcnt: array<int>
    var removed: bool

    ghost predicate Valid()
      reads this, value
    {
      && value.Length == ncnt.Length == zcnt.Length
      && value != ncnt && value != zcnt && ncnt != zcnt
      && Values(value[..])
    }

    method ProcessSops(s: seq<Sop>) returns (processed: nat, verdict: Verdict)
      requires Valid() && Sops(value.Length, s)
      modifies value
      ensures Processed(value[..], processed, verdict) == Process(old(value[..]), s, 0)
    {
      ghost var goal := Process(value[..], s, 0);
      var i := 0;
      while i < |s|
        invariant 0 <= i <= |s| && Process(value[..], s, i) == goal
      {
        var n, op := s[i].num, s[i].op;
        if op == 0 {
          if value[n] != 0 { return i, Again; }
        } else if op < 0 {
          if value[n] < -op { return i, Again; }
        } else if op > SEMVMX - value[n] {
          return i, Range;
        }
        ghost var v := value[..];
        value[n] := value[n] + op;
        assert value[..] == v[n := v[n] + op];
        i := i + 1;
      }
      return |s|, Pass;
    }

    method RollbackSops(s: seq<Sop>, nsops: nat)
      requires Sops(value.Length, s) && nsops <= |s|
      modifies value
      ensures value[..] == Rollback(old(value[..]), s, nsops)
    {
      ghost var goal := Rollback(value[..], s, nsops);
      var i := nsops;
      while i > 0
        invariant 0 <= i <= nsops && Rollback(value[..], s, i) == goal
      {
        ghost var v := value[..];
        var n := s[i - 1].num;
        value[n] := (value[n] - s[i - 1].op) % U16;
        assert value[..] == v[n := (v[n] - s[i - 1].op) % U16];
        i := i - 1;
      }
    }

    /** One round of the loop of sys_semtimedop: either everything is applied, or nothing. */
    method Attempt(s: seq<Sop>) returns (processed: nat, verdict: Verdict)
      requires Valid() && Sops(value.Length, s)
      modifies value
      ensures Valid()
      ensures processed == Process(old(value[..]), s, 0).done && verdict == Process(old(value[..]), s, 0).verdict
      ensures value[..] == if verdict == Pass then Process(old(value[..]), s, 0).v else old(value[..])
    {
      ghost var v := value[..];
      ProcessInRange(v, s, 0);
      processed, verdict := ProcessSops(s);
      if verdict != Pass {
        RollbackUndoes(v, s, 0);
        RollbackSops(s, processed);
      }
    }

    /** The counter a thread keeps raised while it waits: zcnt for a wait-for-zero, else ncnt. */
    method Waiting(b: Sop, delta: int)
      requires Valid() && b.num < ncnt.Length
      modifies ncnt, zcnt
      ensures (ncnt[..], zcnt[..]) == Counted(old(ncnt[..]), old(zcnt[..]), b, delta)
      ensures value[..] == old(value[..])
    {
      if b.op != 0 {
        ncnt[b.num] := ncnt[b.num] + delta;
      } else {
        zcnt[b.num] := zcnt[b.num] + delta;
      }
    }

    /** The SETALL loop. */
    method SetAll(vals: seq<int>) returns (changed: bool)
      requires Valid() && |vals| == value.Length && Values(vals)
      modifies value
      ensures Valid() && value[..] == vals
      ensures changed <==> old(value[..]) != vals
    {
      ghost var was := value[..];
      changed := false;
      var i := 0;
      while i < value.Length
        invariant 0 <= i <= value.Length
        invariant forall j :: 0 <= j < i ==> value[j] == vals[j]
        invariant forall j :: i <= j < value.Length ==> value[j] == was[j]
        invariant changed <==> exists j :: 0 <= j < i && was[j] != vals[j]
      {
        if value[i] != vals[i] {
          value[i] := vals[i];
          changed := true;
        }
        i := i + 1;
      }
      assert value[..] == vals;
    }
  }

  ghost function Counted(ncnt: seq<int>, zcnt: seq<int>, b: Sop, delta: int): (seq<int>, seq<int>)
    requires b.num < |ncnt| == |zcnt|
  {
    if b.op != 0 then (ncnt[b.num := ncnt[b.num] + delta], zcnt) else (ncnt, zcnt[b.num := zcnt[b.num] + delta])
  }

  // ----- every interleaving -----

  /** A thread inside the wait of sys_semtimedop.  wake is None while it sleeps, and otherwise
      the value its wait returns once it gets the mutex back. */
  datatype Waiter = Waiter(t: Tid, s: seq<Sop>, blocked: nat, wake: Option<int>)

  datatype System = System(v: seq<int>, ncnt: seq<int>, zcnt: seq<int>, removed: bool, waiters: seq<Waiter>)

  const EIDRM: int := 43

  datatype Event =
    | Semop(t: Tid, s: seq<Sop>)
    | Resume(i: nat)                // a woken waiter goes on
    | Interrupt(i: nat, ret: int)   // a signal or a timeout ends a sleep
    | SetVal(n: nat, val: int)
    | SetAll(vals: seq<int>)
    | RmId

  ghost predicate Enabled(y: System, e: Event)
  {
    match e
    case Semop(t, s) => s != [] && Sops(|y.v|, s)
    case Resume(i) => i < |y.waiters| && y.waiters[i].wake.Some?
    case Interrupt(i, ret) => i < |y.waiters| && y.waiters[i].wake.None? && ret != 0
    case SetVal(n, val) => n < |y.v|
    case SetAll(vals) => |vals| == |y.v| && Values(vals)
    case RmId => true
  }

  /** waitq_broadcast. */
  ghost function Broadcast(ws: seq<Waiter>, ret: int): (r: seq<Waiter>)
    ensures |r| == |ws|
    ensures forall i :: 0 <= i < |ws| ==>
              r[i] == if ws[i].wake.None? then ws[i].(wake := Some(ret)) else ws[i]
  {
    seq(|ws|, i requires 0 <= i < |ws| => if ws[i].wake.None? then ws[i].(wake := Some(ret)) else ws[i])
  }

  /** A round of the loop of sys_semtimedop, up to the sleep or the return. */
  ghost function Try(y: System, t: Tid, s: seq<Sop>): System
    requires Sops(|y.v|, s) && |y.ncnt| == |y.zcnt| == |y.v|
  {
    var p := Process(y.v, s, 0);
    if p.verdict == Pass then y.(v := p.v, waiters := Broadcast(y.waiters, 0))
    else if p.verdict == Range || s[p.done].nowait then y
    else
      var c := Counted(y.ncnt, y.zcnt, s[p.done], 1);
      y.(ncnt := c.0, zcnt := c.1, waiters := y.waiters + [Waiter(t, s, p.done, None)])
  }

  ghost predicate WellFormed(y: System)
  {
    && |y.ncnt| == |y.zcnt| == |y.v| && Values(y.v)
    && forall i :: 0 <= i < |y.waiters| ==>
         Sops(|y.v|, y.waiters[i].s) && y.waiters[i].blocked < |y.waiters[i].s|
  }

  ghost function Leave(y: System, i: nat): (r: System)
    requires WellFormed(y) && i < |y.waiters|
    ensures |r.ncnt| == |r.zcnt| == |r.v| && r.v == y.v
  {
    var w := y.waiters[i];
    var c := Counted(y.ncnt, y.zcnt, w.s[w.blocked], -1);
    y.(ncnt := c.0, zcnt := c.1, waiters := y.waiters[..i] + y.waiters[i + 1..])
  }

  ghost function Step(y: System, e: Event): System
    requires WellFormed(y) && Enabled(y, e)
  {
    match e
    case Semop(t, s) => if y.removed then y else Try(y, t, s)
    case Resume(i) =>
      var w := y.waiters[i];
      if w.wake.value != 0 then Leave(y, i) else Try(Leave(y, i), w.t, w.s)
    case Interrupt(i, ret) => y.(waiters := y.waiters[i := y.waiters[i].(wake := Some(ret))])
    case SetVal(n, val) =>
      if y.removed || val < 0 || val > SEMVMX || y.v[n] == val then y
      else y.(v := y.v[n := val], waiters := Broadcast(y.waiters, 0))
    case SetAll(vals) =>
      if y.removed || y.v == vals then y else y.(v := vals, waiters := Broadcast(y.waiters, 0))
    case RmId => if y.removed then y else y.(removed := true, waiters := Broadcast(y.waiters, -EIDRM))
  }

  /** Whoever sleeps could still not proceed if it looked again now. */
  ghost predicate SleepersBlocked(y: System)
    requires WellFormed(y)
  {
    forall i :: 0 <= i < |y.waiters| && y.waiters[i].wake.None? ==>
      var w := y.waiters[i];
      var p := Process(y.v, w.s, 0);
      p.verdict == Again && p.done == w.blocked
  }

  /** How many waiters are blocked on semaphore n, waiting for zero or for an increase. */
  ghost function Tally(ws: seq<Waiter>, n: nat, zero: bool): int
    requires forall i :: 0 <= i < |ws| ==> ws[i].blocked < |ws[i].s|
  {
    if ws == [] then 0 else Tally(ws[1..], n, zero) + One(ws[0], n, zero)
  }

  ghost function One(w: Waiter, n: nat, zero: bool): int
    requires w.blocked < |w.s|
  {
    if w.s[w.blocked].num == n && (w.s[w.blocked].op == 0) == zero then 1 else 0
  }

  ghost predicate Tallied(y: System)
    requires WellFormed(y)
  {
    forall n :: 0 <= n < |y.v| ==>
      y.ncnt[n] == Tally(y.waiters, n, false) && y.zcnt[n] == Tally(y.waiters, n, true)
  }

  ghost predicate Inv(y: System) { WellFormed(y) && SleepersBlocked(y) && Tallied(y) }

  lemma {:induction false} TallyConcat(a: seq<Waiter>, b: seq<Waiter>, n: nat, zero: bool)
    requires forall i :: 0 <= i < |a| ==> a[i].blocked < |a[i].s|
    requires forall i :: 0 <= i < |b| ==> b[i].blocked < |b[i].s|
    ensures Tally(a + b, n, zero) == Tally(a, n, zero) + Tally(b, n, zero)
  {
    if a == [] {
      assert a + b == b;
    } else {
      assert (a + b)[1..] == a[1..] + b;
      TallyConcat(a[1..], b, n, zero);
    }
  }

  /** Waking does not change who counts as blocked where. */
  lemma {:induction false} TallyAlike(a: seq<Waiter>, b: seq<Waiter>, n: nat, zero: bool)
    requires |a| == |b|
    requires forall i :: 0 <= i < |a| ==> a[i].blocked < |a[i].s| && a[i].s == b[i].s && a[i].blocked == b[i].blocked
    ensures Tally(a, n, zero) == Tally(b, n, zero)
  {
    if a == [] {
    } else {
      TallyAlike(a[1..], b[1..], n, zero);
    }
  }

  lemma TryKeepsInv(y: System, t: Tid, s: seq<Sop>)
    requires Inv(y) && Sops(|y.v|, s)
    ensures Inv(Try(y, t, s))
  {
    var p := Process(y.v, s, 0);
    ProcessInRange(y.v, s, 0);
    if p.verdict == Pass {
      BroadcastKeepsInv(y, p.v, y.removed, 0);
    } else if p.verdict == Again && !s[p.done].nowait {
      SleepKeepsInv(y, Waiter(t, s, p.done, None));
    }
  }

  /** A thread that cannot proceed goes to sleep, counted. */
  lemma SleepKeepsInv(y: System, w: Waiter)
    requires Inv(y) && Sops(|y.v|, w.s) && w.blocked < |w.s| && w.wake.None?
    requires Process(y.v, w.s, 0).verdict == Again && Process(y.v, w.s, 0).done == w.blocked
    ensures var c := Counted(y.ncnt, y.zcnt, w.s[w.blocked], 1);
            Inv(y.(ncnt := c.0, zcnt := c.1, waiters := y.waiters + [w]))
  {
    forall n, zero: bool | 0 <= n < |y.v|
      ensures Tally(y.waiters + [w], n, zero) == Tally(y.waiters, n, zero) + One(w, n, zero)
    {
      TallyConcat(y.waiters, [w], n, zero);
      assert [w][1..] == [];
    }
  }

  lemma LeaveKeepsInv(y: System, i: nat)
    requires Inv(y) && i < |y.waiters|
    ensures Inv(Leave(y, i))
  {
    var ws, y' := y.waiters, Leave(y, i);
    forall n, zero: bool | 0 <= n < |y.v|
      ensures Tally(ws, n, zero) == Tally(y'.waiters, n, zero) + One(ws[i], n, zero)
    {
      assert ws == ws[..i] + ([ws[i]] + ws[i + 1..]);
      TallyConcat(ws[..i], [ws[i]] + ws[i + 1..], n, zero);
      TallyConcat(ws[..i], ws[i + 1..], n, zero);
    }
  }

  lemma BroadcastKeepsInv(y: System, v: seq<int>, removed: bool, ret: int)
    requires Inv(y) && |v| == |y.v| && Values(v)
    ensures Inv(y.(v := v, removed := removed, waiters := Broadcast(y.waiters, ret)))
  {
    forall n, zero: bool | 0 <= n < |y.v|
      ensures Tally(Broadcast(y.waiters, ret), n, zero) == Tally(y.waiters, n, zero)
    {
      TallyAlike(y.waiters, Broadcast(y.waiters, ret), n, zero);
    }
  }

  lemma InterruptKeepsInv(y: System, i: nat, ret: int)
    requires Inv(y) && Enabled(y, Interrupt(i, ret))
    ensures Inv(Step(y, Interrupt(i, ret)))
  {
    var ws := Step(y, Interrupt(i, ret)).waiters;
    forall n, zero: bool | 0 <= n < |y.v| ensures Tally(ws, n, zero) == Tally(y.waiters, n, zero) {
      TallyAlike(y.waiters, ws, n, zero);
    }
  }

  /** Every step keeps: sleepers are blocked at the current values, and ncnt and zcnt count them. */
  lemma StepKeepsInv(y: System, e: Event)
    requires Inv(y) && Enabled(y, e)
    ensures Inv(Step(y, e))
  {
    match e {
      case Semop(t, s) => TryKeepsInv(y, t, s);
      case Resume(i) =>
        LeaveKeepsInv(y, i);
        TryKeepsInv(Leave(y, i), y.waiters[i].t, y.waiters[i].s);
      case Interrupt(i, ret) => InterruptKeepsInv(y, i, ret);
      case SetVal(n, val) => if 0 <= val <= SEMVMX { BroadcastKeepsInv(y, y.v[n := val], y.removed, 0); }
      case SetAll(vals) => BroadcastKeepsInv(y, vals, y.removed, 0);
      case RmId => BroadcastKeepsInv(y, y.v, true, -EIDRM);
    }
  }

  ghost predicate IsRun(y: System, es: seq<Event>)
    decreases |es|
  {
    es == [] || (WellFormed(y) && Enabled(y, es[0]) && IsRun(Step(y, es[0]), es[1..]))
  }

  ghost function Run(y: System, es: seq<Event>): System
    requires IsRun(y, es)
    decreases |es|
  {
    if es == [] then y else Run(Step(y, es[0]), es[1..])
  }

  /** In every interleaving no thread sleeps on operations that could go through. */
  lemma {:induction false} RunsKeepInv(y: System, es: seq<Event>)
    requires Inv(y) && IsRun(y, es)
    ensures Inv(Run(y, es))
    decreases |es|
  {
    if es == [] {
    } else {
      StepKeepsInv(y, es[0]);
      RunsKeepInv(Step(y, es[0]), es[1..]);
    }
  }

  ghost function Created(n: nat): System
  {
    System(seq(n, _ => 0), seq(n, _ => 0), seq(n, _ => 0), false, [])
  }

  lemma CreatedInv(n: nat)
    ensures Inv(Created(n))
  {
  }

  // ----- the limit -----

  /** SETALL on a set that is still there, with a value that SETVAL would refuse. */
  ghost predicate Oversize(y: System, e: Event) {
    e.SetAll? && !y.removed && !Bounded(e.vals)
  }

  /** SETALL, which does not look at what it stores, is the one way past SEMVMX. */
  lemma LimitHoldsExactly(y: System, e: Event)
    requires WellFormed(y) && Enabled(y, e) && Bounded(y.v)
    ensures Bounded(Step(y, e).v) <==> !Oversize(y, e)
  {
    match e {
      case Semop(t, s) => ProcessInRange(y.v, s, 0);
      case Resume(i) => ProcessInRange(y.v, y.waiters[i].s, 0);
      case Interrupt(i, ret) =>
      case SetVal(n, val) =>
      case SetAll(vals) =>
      case RmId =>
    }
  }

  /** Every value at every moment of a run. */
  ghost predicate AlwaysBounded(y: System, es: seq<Event>)
    requires IsRun(y, es)
    decreases |es|
  {
    Bounded(y.v) && (es == [] || AlwaysBounded(Step(y, es[0]), es[1..]))
  }

  ghost predicate EverOversize(y: System, es: seq<Event>)
    requires IsRun(y, es)
    decreases |es|
  {
    es != [] && (Oversize(y, es[0]) || EverOversize(Step(y, es[0]), es[1..]))
  }

  lemma {:induction false} RunsKeepLimitExactly(y: System, es: seq<Event>)
    requires IsRun(y, es) && Bounded(y.v)
    ensures AlwaysBounded(y, es) <==> !EverOversize(y, es)
    decreases |es|
  {
    if es == [] {
    } else {
      LimitHoldsExactly(y, es[0]);
      var z := Step(y, es[0]);
      if Bounded(z.v) {
        RunsKeepLimitExactly(z, es[1..]);
      }
    }
  }

  // ----- removal -----

  /** Everybody inside is on the way out. */
  ghost predicate AllLeaving(y: System)
  {
    forall i :: 0 <= i < |y.waiters| ==> y.waiters[i].wake.Some? && y.waiters[i].wake.value != 0
  }

  /** The wait loop does not look at `removed` again, so removing a set sends everybody away
      exactly when no waiter had been woken to retry and not yet run. */
  lemma RemovalEmptiesExactly(y: System)
    requires WellFormed(y) && !y.removed
    ensures AllLeaving(Step(y, RmId)) <==>
            forall i :: 0 <= i < |y.waiters| ==> y.waiters[i].wake != Some(0)
  {
    var ws := Step(y, RmId).waiters;
    if AllLeaving(Step(y, RmId)) {
      forall i | 0 <= i < |y.waiters| ensures y.waiters[i].wake != Some(0) {
        assert ws[i].wake.Some? && ws[i].wake.value != 0;
      }
    }
  }

  /** A removed set that everybody is leaving stays so, and its values never change again. */
  lemma {:induction false} RemovalIsFinal(y: System, es: seq<Event>)
    requires Inv(y) && y.removed && AllLeaving(y) && IsRun(y, es)
    ensures var z := Run(y, es); z.removed && AllLeaving(z) && z.v == y.v && |z.waiters| <= |y.waiters|
    decreases |es|
  {
    if es == [] {
    } else {
      StepKeepsInv(y, es[0]);
      RemovalIsFinal(Step(y, es[0]), es[1..]);
    }
  }

  /** No waiter is on its way to try again. */
  ghost predicate NobodyRetries(y: System)
  {
    forall i :: 0 <= i < |y.waiters| ==> y.waiters[i].wake != Some(0)
  }

  /** What removing the set and letting waiter i go on leaves. */
  lemma StrandedAlone(y: System, i: nat)
    requires Inv(y) && !y.removed && i < |y.waiters| && y.waiters[i].wake == Some(0)
    requires forall j :: 0 <= j < |y.waiters| && j != i ==> y.waiters[j].wake != Some(0)
    requires var p := Process(y.v, y.waiters[i].s, 0); p.verdict == Again && !y.waiters[i].s[p.done].nowait
    ensures var y1 := Step(y, RmId); WellFormed(y1) && Enabled(y1, Resume(i)) && NobodyRetries(Step(y1, Resume(i)))
  {
    var y1 := Step(y, RmId);
    StepKeepsInv(y, RmId);
    var ws, us := y1.waiters, Step(y1, Resume(i)).waiters;
    assert forall j :: 0 <= j < |ws| && j != i ==> ws[j].wake != Some(0);
    assert forall j :: 0 <= j < |us| - 1 ==> us[j] == ws[if j < i then j else j + 1];
  }

  /** Otherwise a waiter that retries after the removal and still cannot proceed goes to sleep
      on the removed set; and if it was the only one to retry, RemovedIsStuck says that it stays there. */
  lemma RemovalStrands(y: System, i: nat)
    requires Inv(y) && !y.removed && i < |y.waiters| && y.waiters[i].wake == Some(0)
    requires var p := Process(y.v, y.waiters[i].s, 0); p.verdict == Again && !y.waiters[i].s[p.done].nowait
    ensures var es := [RmId, Resume(i)];
            && IsRun(y, es)
            && Run(y, es).removed
            && |Run(y, es).waiters| == |y.waiters|
            && Run(y, es).waiters[|y.waiters| - 1].wake.None?
            && Run(y, es).waiters[|y.waiters| - 1].t == y.waiters[i].t
            && ((forall j :: 0 <= j < |y.waiters| && j != i ==> y.waiters[j].wake != Some(0)) ==>
                NobodyRetries(Run(y, es)))
  {
    var es, y1 := [RmId, Resume(i)], Step(y, RmId);
    StepKeepsInv(y, RmId);
    assert es[1..] == [Resume(i)];
    var y2 := Step(y1, Resume(i));
    assert Run(y1, es[1..]) == y2;
    if forall j :: 0 <= j < |y.waiters| && j != i ==> y.waiters[j].wake != Some(0) { StrandedAlone(y, i); }
  }

  ghost function Sleepers(ws: seq<Waiter>): seq<Waiter>
  {
    if ws == [] then [] else (if ws[0].wake.None? then [ws[0]] else []) + Sleepers(ws[1..])
  }

  lemma {:induction false} SleepersCut(ws: seq<Waiter>, i: nat)
    requires i < |ws| && ws[i].wake.Some?
    ensures Sleepers(ws[..i] + ws[i + 1..]) == Sleepers(ws)
    decreases i
  {
    var cut := ws[..i] + ws[i + 1..];
    if i == 0 {
      assert cut == ws[1..];
    } else {
      SleepersCut(ws[1..], i - 1);
      assert cut[1..] == ws[1..][..i - 1] + ws[1..][i..];
    }
  }

  /** Once a set is removed and nobody retries any more, its values are final, and whoever sleeps on it
      goes on sleeping until it is interrupted. */
  lemma {:induction false} RemovedIsStuck(y: System, es: seq<Event>)
    requires Inv(y) && y.removed && NobodyRetries(y) && IsRun(y, es)
    ensures var z := Run(y, es); z.removed && NobodyRetries(z) && z.v == y.v
    ensures (forall k :: 0 <= k < |es| ==> !es[k].Interrupt?) ==>
      Sleepers(Run(y, es).waiters) == Sleepers(y.waiters)
    decreases |es|
  {
    if es == [] {
    } else {
      StepKeepsInv(y, es[0]);
      if es[0].Resume? { SleepersCut(y.waiters, es[0].i); }
      RemovedIsStuck(Step(y, es[0]), es[1..]);
    }
  }

  /** Such a waiter exists: thread 1 wants two units, thread 2 adds one and wakes it in vain. */
  lemma StrandingIsReachable()
    ensures var es := [Semop(1, [Sop(0, -2, false)]), Semop(2, [Sop(0, 1, false)])];
            && IsRun(Created(1), es)
            && Run(Created(1), es).v == [1]
            && Run(Created(1), es).waiters == [Waiter(1, [Sop(0, -2, false)], 0, Some(0))]
            && Process([1], [Sop(0, -2, false)], 0).verdict == Again
  {
    var take2, put1 := [Sop(0, -2, false)], [Sop(0, 1, false)];
    var y0 := Created(1);
    assert y0.v == [0];
    var y1 := Step(y0, Semop(1, take2));
    assert y1.v == [0] && y1.waiters == [Waiter(1, take2, 0, None)];
    assert [0][0 := 1] == [1];
    assert Process([0], put1, 0) == Process([1], put1, 1);
    var y2 := Step(y1, Semop(2, put1));
    assert y2.v == [1] && y2.waiters == [Waiter(1, take2, 0, Some(0))];
    var es := [Semop(1, take2), Semop(2, put1)];
    assert es[1..] == [Semop(2, put1)];
    assert es[1..][1..] == [];
    assert Run(y1, es[1..]) == Run(y2, []);
  }
}

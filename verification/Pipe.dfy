/** kern/ringbuf.c, kern/pipebuf.c and kern/pipe.c: a blocking byte pipe over a ring buffer. */
module Pipe {
  import opened Base

  // ----- the ring -----

  /** The bytes between the two positions of a ring. */
  ghost function Held(d: seq<Byte>, r: nat, w: nat): (h: seq<Byte>)
    requires r < |d| && w < |d|
    ensures |h| == ReadSize(|d|, r, w)
  {
    if r <= w then d[r..w] else d[r..] + d[..w]
  }

  function ReadSize(size: nat, r: nat, w: nat): nat
    requires r < size && w < size
  {
    if r <= w then w - r else size - r + w
  }

  function WriteSize(size: nat, r: nat, w: nat): nat
    requires r < size && w < size
  {
    if w < r then r - w - 1 else size - 1 - w + r
  }

  function ContiguousReadSize(size: nat, r: nat, w: nat): nat
    requires r < size && w < size
  {
    if r <= w then w - r else size - r
  }

  function ContiguousWriteSize(size: nat, r: nat, w: nat): nat
    requires r < size && w < size
  {
    if w < r then r - w - 1 else if r == 0 then size - w - 1 else size - w
  }

  /** The four sizes agree: together they fill the ring but for one byte, and a contiguous size is
      zero only where there is nothing at all. */
  lemma SizesAgree(size: nat, r: nat, w: nat)
    requires r < size && w < size
    ensures ReadSize(size, r, w) + WriteSize(size, r, w) == size - 1
    ensures ContiguousReadSize(size, r, w) <= ReadSize(size, r, w)
    ensures ContiguousWriteSize(size, r, w) <= WriteSize(size, r, w)
    ensures ContiguousReadSize(size, r, w) == 0 <==> ReadSize(size, r, w) == 0
    ensures ContiguousWriteSize(size, r, w) == 0 <==> WriteSize(size, r, w) == 0
    ensures r + ContiguousReadSize(size, r, w) <= size && w + ContiguousWriteSize(size, r, w) <= size
  {
  }

  /** Copying a chunk to the write position and advancing appends it. */
  lemma ChunkAppends(d: seq<Byte>, d': seq<Byte>, r: nat, w: nat, chunk: seq<Byte>)
    requires r < |d| == |d'| && w < |d| && |chunk| <= ContiguousWriteSize(|d|, r, w)
    requires d' == d[..w] + chunk + d[w + |chunk|..]
    ensures (w + |chunk|) % |d| == (if w + |chunk| == |d| then 0 else w + |chunk|)
    ensures Held(d', r, (w + |chunk|) % |d|) == Held(d, r, w) + chunk
  {
    if w + |chunk| < |d| { ModSmall(w + |chunk|, |d|); }
  }

  lemma ModSmall(x: nat, n: nat)
    requires x < n
    ensures x % n == x
  {
  }

  /** Reading a chunk from the read position and advancing drops it. */
  lemma ChunkDrops(d: seq<Byte>, r: nat, w: nat, n: nat)
    requires r < |d| && w < |d| && n <= ContiguousReadSize(|d|, r, w)
    ensures (r + n) % |d| == (if r + n == |d| then 0 else r + n)
    ensures d[r..r + n] == Held(d, r, w)[..n]
    ensures Held(d, (r + n) % |d|, w) == Held(d, r, w)[n..]
  {
    if r + n < |d| { ModSmall(r + n, |d|); }
  }

  class Ring {
    const data: array<Byte>
    var readPos: nat
    var writePos: nat

    ghost predicate Valid()
      reads this
    {
      readPos < data.Length && writePos < data.Length
    }

    ghost function Contents(): (s: seq<Byte>)
      requires Valid()
      reads this, data
    {
      Held(data[..], readPos, writePos)
    }

    ghost function Capacity(): nat
      requires Valid()
      reads this
    {
      data.Length - 1
    }

    constructor (size: nat)
      requires size > 0
      ensures Valid() && fresh(data) && data.Length == size && Contents() == []
    {
      data := new Byte[size];
      readPos, writePos := 0, 0;
    }

    /** ringbuf_write: as much of src as fits is appended. */
    method Write(src: seq<Byte>) returns (wr: nat)
      requires Valid()
      modifies this`writePos, data
      ensures Valid() && wr <= |src|
      ensures wr == if |src| <= old(Capacity() - |Contents()|) then |src| else old(Capacity() - |Contents()|)
      ensures Contents() == old(Contents()) + src[..wr]
    {
      ghost var c := Contents();
      wr := 0;
      var size := |src|;
      while size > 0
        invariant Valid() && 0 <= size && wr + size == |src|
        invariant Contents() == c + src[..wr]
        decreases size
      {
        SizesAgree(data.Length, readPos, writePos);
        var available := ContiguousWriteSize(data.Length, readPos, writePos);
        if available == 0 { break; }
        if size < available { available := size; }
        var chunk := src[wr..wr + available];
        Store(chunk);
        assert (c + src[..wr]) + chunk == c + src[..wr + available];
        wr := wr + available;
        size := size - available;
      }
    }

    /** The copy to the write position, and the advance. */
    method Store(chunk: seq<Byte>)
      requires Valid() && |chunk| <= ContiguousWriteSize(data.Length, readPos, writePos)
      modifies this`writePos, data
      ensures Valid() && Contents() == old(Contents()) + chunk
    {
      ghost var d := data[..];
      var w, i := writePos, 0;
      while i < |chunk|
        invariant 0 <= i <= |chunk|
        invariant forall k :: 0 <= k < data.Length ==> data[k] == if w <= k < w + i then chunk[k - w] else d[k]
      {
        data[w + i] := chunk[i];
        i := i + 1;
      }
      assert data[..] == d[..w] + chunk + d[w + |chunk|..];
      ChunkAppends(d, data[..], readPos, w, chunk);
      writePos := (w + |chunk|) % data.Length;
    }

    /** The copy from the read position, and the advance. */
    method Fetch(n: nat) returns (chunk: seq<Byte>)
      requires Valid() && n <= ContiguousReadSize(data.Length, readPos, writePos)
      modifies this`readPos
      ensures Valid() && |chunk| == n && chunk + Contents() == old(Contents())
    {
      ChunkDrops(data[..], readPos, writePos, n);
      ghost var c := Contents();
      chunk := data[readPos..readPos + n];
      assert chunk == data[..][readPos..readPos + n];
      readPos := (readPos + n) % data.Length;
      assert c[..n] + c[n..] == c;
    }

    /** ringbuf_read: the oldest bytes, in order, and they leave the ring. */
    method Read(size: nat) returns (out: seq<Byte>)
      requires Valid()
      modifies this`readPos
      ensures Valid()
      ensures out + Contents() == old(Contents())
      ensures |out| == if size <= |old(Contents())| then size else |old(Contents())|
    {
      out := [];
      var left := size;
      while left > 0
        invariant Valid() && 0 <= left && |out| + left == size
        invariant out + Contents() == old(Contents())
        decreases left
      {
        SizesAgree(data.Length, readPos, writePos);
        var available := ContiguousReadSize(data.Length, readPos, writePos);
        if available == 0 { break; }
        if left < available { available := left; }
        ghost var c := Contents();
        var chunk := Fetch(available);
        assert (out + chunk) + Contents() == out + c;
        out := out + chunk;
        left := left - available;
      }
    }

    /** ringbuf_peek: the same bytes, and the ring is as before. */
    method Peek(size: nat) returns (out: seq<Byte>)
      requires Valid()
      modifies this`readPos
      ensures Valid() && Contents() == old(Contents()) && readPos == old(readPos)
      ensures out <= Contents() && |out| == if size <= |Contents()| then size else |Contents()|
    {
      var current := readPos;
      out := Read(size);
      readPos := current;
    }
  }

  // ----- the pipe -----

  /** PIPE_BUF: the most one pass of either loop moves. */
  const PIPE_BUF: nat := 4096

  datatype Errno = EAGAIN | EPIPE | EINTR | EFAULT | ETIMEDOUT

  datatype Outcome = Done(n: nat) | Failed(errno: Errno) | Sleeps

  /** A read in progress: it has taken nothing yet, or it would not sleep. */
  datatype Reader = Reader(t: Tid, want: nat, min: nat)

  /** A write in progress: what is left to write and how much has been written. */
  datatype Writer = Writer(t: Tid, left: seq<Byte>, wr: nat, min: nat)

  /** A thread woken and not yet running again, with the code its wait returns. */
  datatype Woken<T> = Woken(who: T, code: Option<Errno>)

  datatype Pipe = Pipe(
    cap: nat,
    ring: seq<Byte>,
    nreaders: nat,
    nwriters: nat,
    rq: seq<Reader>,
    wq: seq<Writer>,
    rwoken: seq<Woken<Reader>>,
    wwoken: seq<Woken<Writer>>)

  /** What one atomic step does: the new pipe, the bytes it accepts, the bytes it delivers. */
  datatype Effect = Effect(p: Pipe, accepted: seq<Byte>, delivered: seq<Byte>, outcome: Outcome)

  function Wake<T>(q: seq<T>): (w: seq<Woken<T>>)
    ensures |w| == |q|
  {
    seq(|q|, i requires 0 <= i < |q| => Woken(q[i], None))
  }

  function WakeReaders(p: Pipe): Pipe {
    p.(rq := [], rwoken := p.rwoken + Wake(p.rq))
  }

  function WakeWriters(p: Pipe): Pipe {
    p.(wq := [], wwoken := p.wwoken + Wake(p.wq))
  }

  function Min(a: nat, b: nat): nat {
    if a <= b then a else b
  }

  /** k bytes leave the ring and every sleeping writer is woken. */
  function Take(p: Pipe, k: nat): Pipe
    requires k <= |p.ring|
  {
    if k == 0 then p else WakeWriters(p).(ring := p.ring[k..])
  }

  /** Some bytes enter the ring and every sleeping reader is woken. */
  function Put(p: Pipe, bytes: seq<Byte>): Pipe {
    if bytes == [] then p else WakeReaders(p).(ring := p.ring + bytes)
  }

  /** pipebuf_read_locked up to its return or its wait. */
  function ReadStep(p: Pipe, r: Reader): Effect {
    if r.want == 0 then
      Effect(p, [], [], Done(0))
    else if p.ring != [] then
      var k := Min(r.want, |p.ring|);
      Effect(Take(p, k), [], p.ring[..k], Done(k))
    else if p.nwriters == 0 then
      Effect(p, [], [], Done(0))
    else if r.min == 0 then
      Effect(p, [], [], Failed(EAGAIN))
    else
      Effect(p.(rq := p.rq + [r]), [], [], Sleeps)
  }

  /** The write loop at a full ring, with bytes left to write. */
  function WriteFull(p: Pipe, w: Writer, accepted: seq<Byte>): Effect {
    if p.nreaders == 0 then
      Effect(p, accepted, [], Done(w.wr))
    else if w.wr >= w.min then
      Effect(p, accepted, [], if w.wr > 0 then Done(w.wr) else Failed(EAGAIN))
    else
      Effect(p.(wq := if w.wr > 0 then [w] + p.wq else p.wq + [w]), accepted, [], Sleeps)
  }

  /** pipebuf_write_locked after its first test, up to its return or its wait. */
  function WriteStep(p: Pipe, w: Writer): Effect {
    var k := Min(|w.left|, if |p.ring| < p.cap then p.cap - |p.ring| else 0);
    var w' := w.(left := w.left[k..], wr := w.wr + k);
    if w'.left == [] then
      Effect(Put(p, w.left[..k]), w.left[..k], [], Done(w'.wr))
    else
      WriteFull(Put(p, w.left[..k]), w', w.left[..k])
  }

  /** pipe_release's two counts. */
  function DropReader(p: Pipe): Pipe
    requires p.nreaders > 0
  {
    var q := p.(nreaders := p.nreaders - 1);
    if q.nreaders == 0 then WakeWriters(q) else q
  }

  function DropWriter(p: Pipe): Pipe
    requires p.nwriters > 0
  {
    var q := p.(nwriters := p.nwriters - 1);
    if q.nwriters == 0 then WakeReaders(q) else q
  }

  datatype Mode = RdOnly | WrOnly | RdWr

  predicate Reads(m: Mode) { m != WrOnly }

  predicate Writes(m: Mode) { m != RdOnly }

  datatype Event =
    | Open(mode: Mode)
    | Release(mode: Mode)
    | Read(r: Reader)
    | Write(w: Writer)
    | ReadFault(k: nat)                        // a copy to the reader fails after k bytes
    | WriteFault(bytes: seq<Byte>)             // a copy from the writer fails after these bytes
    | InterruptReader(i: nat, code: Errno)     // a sleeper is woken with an error code
    | InterruptWriter(i: nat, code: Errno)
    | ResumeReader(i: nat)                     // a woken thread runs again
    | ResumeWriter(i: nat)

  /** A release closes an open end; a call starts from nothing; indices name a thread. */
  ghost predicate Enabled(p: Pipe, e: Event) {
    match e
    case Open(_) => true
    case Release(m) => (Reads(m) ==> p.nreaders > 0) && (Writes(m) ==> p.nwriters > 0)
    case Read(r) => true
    case Write(w) => w.wr == 0
    case ReadFault(k) => k <= |p.ring|
    case WriteFault(bytes) => |p.ring| + |bytes| <= p.cap
    case InterruptReader(i, _) => i < |p.rq|
    case InterruptWriter(i, _) => i < |p.wq|
    case ResumeReader(i) => i < |p.rwoken|
    case ResumeWriter(i) => i < |p.wwoken|
  }

  function ReleaseStep(p: Pipe, m: Mode): Pipe
    requires (Reads(m) ==> p.nreaders > 0) && (Writes(m) ==> p.nwriters > 0)
  {
    match m
    case RdOnly => DropReader(p)
    case WrOnly => DropWriter(p)
    case RdWr => DropWriter(DropReader(p))
  }

  function Cut<T>(q: seq<T>, i: nat): seq<T>
    requires i < |q|
  {
    q[..i] + q[i + 1..]
  }

  function Still(p: Pipe, outcome: Outcome): Effect {
    Effect(p, [], [], outcome)
  }

  function ResumeRead(p: Pipe, i: nat): Effect
    requires i < |p.rwoken|
  {
    var r := p.rwoken[i];
    var q := p.(rwoken := Cut(p.rwoken, i));
    if r.code.Some? then Still(q, Failed(r.code.value)) else ReadStep(q, r.who)
  }

  function ResumeWrite(p: Pipe, i: nat): Effect
    requires i < |p.wwoken|
  {
    var w := p.wwoken[i];
    var q := p.(wwoken := Cut(p.wwoken, i));
    if w.code.None? then WriteStep(q, w.who)
    else if w.code.value != EINTR || w.who.wr == 0 then Still(q, Failed(w.code.value))
    else Still(q, Done(w.who.wr))
  }

  ghost function Step(p: Pipe, e: Event): Effect
    requires Enabled(p, e)
  {
    match e
    case Open(m) =>
      Still(p.(nreaders := p.nreaders + (if Reads(m) then 1 else 0),
               nwriters := p.nwriters + (if Writes(m) then 1 else 0)), Done(0))
    case Release(m) => Still(ReleaseStep(p, m), Done(0))
    case Read(r) => ReadStep(p, r)
    case Write(w) => if p.nreaders == 0 then Still(p, Failed(EPIPE)) else WriteStep(p, w)
    case ReadFault(k) => Effect(WakeWriters(p).(ring := p.ring[k..]), [], p.ring[..k], Failed(EFAULT))
    case WriteFault(bytes) => Effect(WakeReaders(p).(ring := p.ring + bytes), bytes, [], Failed(EFAULT))
    case InterruptReader(i, code) =>
      Still(p.(rq := Cut(p.rq, i), rwoken := p.rwoken + [Woken(p.rq[i], Some(code))]), Done(0))
    case InterruptWriter(i, code) =>
      Still(p.(wq := Cut(p.wq, i), wwoken := p.wwoken + [Woken(p.wq[i], Some(code))]), Done(0))
    case ResumeReader(i) => ResumeRead(p, i)
    case ResumeWriter(i) => ResumeWrite(p, i)
  }

  // ----- what every step keeps -----

  /** A sleeping reader has nothing to read and someone to wait for; a sleeping writer likewise. */
  ghost predicate Inv(p: Pipe) {
    && 0 < p.cap
    && |p.ring| <= p.cap
    && (p.rq != [] ==> p.ring == [] && p.nwriters > 0)
    && (p.wq != [] ==> |p.ring| == p.cap && p.nreaders > 0)
  }

  /** Nothing is lost, duplicated or reordered by one step. */
  ghost predicate Conserves(p: Pipe, f: Effect) {
    p.ring + f.accepted == f.delivered + f.p.ring
  }

  lemma NeverBothAsleep(p: Pipe)
    requires Inv(p)
    ensures p.rq == [] || p.wq == []
  {
  }

  lemma ReadStepKeeps(p: Pipe, r: Reader)
    requires Inv(p)
    ensures Inv(ReadStep(p, r).p) && Conserves(p, ReadStep(p, r))
  {
    var k := Min(r.want, |p.ring|);
    assert p.ring == p.ring[..k] + p.ring[k..];
  }

  lemma WriteStepKeeps(p: Pipe, w: Writer)
    requires Inv(p)
    ensures Inv(WriteStep(p, w).p) && Conserves(p, WriteStep(p, w))
  {
  }

  lemma ReleaseStepKeeps(p: Pipe, m: Mode)
    requires Inv(p) && Enabled(p, Release(m))
    ensures Inv(ReleaseStep(p, m)) && ReleaseStep(p, m).ring == p.ring
  {
  }

  lemma ResumeReadKeeps(p: Pipe, i: nat)
    requires Inv(p) && i < |p.rwoken|
    ensures Inv(ResumeRead(p, i).p) && Conserves(p, ResumeRead(p, i))
  {
    ReadStepKeeps(p.(rwoken := Cut(p.rwoken, i)), p.rwoken[i].who);
  }

  lemma ResumeWriteKeeps(p: Pipe, i: nat)
    requires Inv(p) && i < |p.wwoken|
    ensures Inv(ResumeWrite(p, i).p) && Conserves(p, ResumeWrite(p, i))
  {
    WriteStepKeeps(p.(wwoken := Cut(p.wwoken, i)), p.wwoken[i].who);
  }

  lemma InterruptsKeep(p: Pipe, i: nat, code: Errno)
    requires Inv(p)
    ensures i < |p.rq| ==> Inv(Step(p, InterruptReader(i, code)).p)
    ensures i < |p.wq| ==> Inv(Step(p, InterruptWriter(i, code)).p)
  {
  }

  lemma StepKeepsInv(p: Pipe, e: Event)
    requires Inv(p) && Enabled(p, e)
    ensures Inv(Step(p, e).p) && Conserves(p, Step(p, e))
  {
    match e
    case Read(r) => ReadStepKeeps(p, r);
    case Write(w) => if p.nreaders > 0 { WriteStepKeeps(p, w); }
    case Release(m) => ReleaseStepKeeps(p, m);
    case ReadFault(k) => assert p.ring == p.ring[..k] + p.ring[k..];
    case InterruptReader(i, code) => InterruptsKeep(p, i, code);
    case InterruptWriter(i, code) => InterruptsKeep(p, i, code);
    case ResumeReader(i) => ResumeReadKeeps(p, i);
    case ResumeWriter(i) => ResumeWriteKeeps(p, i);
    case _ =>
  }

  // ----- whole runs -----

  ghost predicate CanRun(p: Pipe, es: seq<Event>)
    decreases |es|
  {
    es == [] || (Enabled(p, es[0]) && CanRun(Step(p, es[0]).p, es[1..]))
  }

  /** All the steps as one: the last pipe, all bytes accepted, all bytes delivered. */
  ghost function Run(p: Pipe, es: seq<Event>): Effect
    requires CanRun(p, es)
    decreases |es|
  {
    if es == [] then Still(p, Done(0)) else
      var f := Step(p, es[0]);
      var g := Run(f.p, es[1..]);
      Effect(g.p, f.accepted + g.accepted, f.delivered + g.delivered, g.outcome)
  }

  lemma Chain(r0: seq<Byte>, a: seq<Byte>, d: seq<Byte>, r1: seq<Byte>, b: seq<Byte>, e: seq<Byte>, r2: seq<Byte>)
    requires r0 + a == d + r1 && r1 + b == e + r2
    ensures r0 + (a + b) == (d + e) + r2
  {
    assert r0 + (a + b) == (r0 + a) + b == d + (r1 + b) == (d + e) + r2;
  }

  /** In every run the bytes delivered followed by the bytes held are the bytes held at the start
      followed by the bytes accepted, and the sleepers are as Inv says. */
  lemma {:induction false} RunsKeepInv(p: Pipe, es: seq<Event>)
    requires Inv(p) && CanRun(p, es)
    ensures Inv(Run(p, es).p) && Conserves(p, Run(p, es))
    decreases |es|
  {
    if es == [] {
    } else {
      var f := Step(p, es[0]);
      StepKeepsInv(p, es[0]);
      RunsKeepInv(f.p, es[1..]);
      var g := Run(f.p, es[1..]);
      Chain(p.ring, f.accepted, f.delivered, f.p.ring, g.accepted, g.delivered, g.p.ring);
    }
  }

  /** So from a new pipe on, what readers have got is always a prefix of what writers have put in, and
      the ring holds the rest. */
  lemma StreamIsFaithful(cap: nat, es: seq<Event>)
    requires cap > 0 && CanRun(Pipe(cap, [], 0, 0, [], [], [], []), es)
    ensures var f := Run(Pipe(cap, [], 0, 0, [], [], [], []), es);
      f.accepted == f.delivered + f.p.ring && f.delivered <= f.accepted
  {
    var p := Pipe(cap, [], 0, 0, [], [], [], []);
    RunsKeepInv(p, es);
    assert p.ring + Run(p, es).accepted == Run(p, es).accepted;
  }

  /** And whoever is asleep after any run has something to wait for: a reader an empty ring and an
      open writing end, a writer a full ring and an open reading end, and never both at once. */
  lemma NobodySleepsInVain(cap: nat, es: seq<Event>)
    requires cap > 0 && CanRun(Pipe(cap, [], 0, 0, [], [], [], []), es)
    ensures var p := Run(Pipe(cap, [], 0, 0, [], [], [], []), es).p;
      && (p.rq != [] ==> p.ring == [] && p.nwriters > 0 && p.wq == [])
      && (p.wq != [] ==> |p.ring| == p.cap && p.nreaders > 0 && p.rq == [])
  {
    var p := Pipe(cap, [], 0, 0, [], [], [], []);
    RunsKeepInv(p, es);
    NeverBothAsleep(Run(p, es).p);
  }

  // ----- what one call returns -----

  /** A read of at least one byte ends with nothing exactly at end of file, waits exactly when it
      must, and otherwise delivers the oldest bytes there are. */
  lemma ReadExact(p: Pipe, r: Reader)
    requires Inv(p) && r.want > 0
    ensures ReadStep(p, r).outcome == Done(0) <==> p.ring == [] && p.nwriters == 0
    ensures ReadStep(p, r).outcome == Failed(EAGAIN) <==> p.ring == [] && p.nwriters > 0 && r.min == 0
    ensures ReadStep(p, r).outcome == Sleeps <==> p.ring == [] && p.nwriters > 0 && r.min > 0
    ensures ReadStep(p, r).outcome.Done? ==> |ReadStep(p, r).delivered| == ReadStep(p, r).outcome.n
    ensures p.ring != [] ==> ReadStep(p, r).delivered != [] && ReadStep(p, r).p.wq == []
  {
  }

  /** What a write has accepted is always a prefix of what it was given, the count it returns is the
      count accepted, and a writer goes to sleep with exactly the rest. */
  lemma WriteAccounts(p: Pipe, w: Writer)
    requires Inv(p)
    ensures WriteStep(p, w).accepted <= w.left
    ensures WriteStep(p, w).outcome.Done? ==> WriteStep(p, w).outcome.n == w.wr + |WriteStep(p, w).accepted|
    ensures WriteStep(p, w).outcome == Sleeps ==>
      var k := |WriteStep(p, w).accepted|;
      Writer(w.t, w.left[k..], w.wr + k, w.min) in WriteStep(p, w).p.wq
    ensures WriteStep(p, w).accepted != [] ==> WriteStep(p, w).p.rq == []
  {
    var k := Min(|w.left|, p.cap - |p.ring|);
    var w' := w.(left := w.left[k..], wr := w.wr + k);
    var q := Put(p, w.left[..k]).wq;
    assert ([w'] + q)[0] == w' && (q + [w'])[|q|] == w';
  }

  /** A blocking write (one whose minimum is all of it) returns short only for want of readers. */
  lemma BlockingWriteIsWhole(p: Pipe, w: Writer)
    requires Inv(p) && w.min >= w.wr + |w.left| && WriteStep(p, w).outcome != Sleeps
    ensures WriteStep(p, w).accepted == w.left || p.nreaders == 0
    ensures WriteStep(p, w).outcome.Done?
  {
  }

  // ----- the pipe in memory -----

  /** Chunk by chunk is the same as all at once. */
  lemma TakeTwice(p: Pipe, j: nat, k: nat)
    requires j + k <= |p.ring|
    ensures Take(Take(p, j), k) == Take(p, j + k)
    ensures p.ring[..j] + Take(p, j).ring[..k] == p.ring[..j + k]
  {
    assert Take(p, j).ring == p.ring[j..];
    assert p.ring[j..][k..] == p.ring[j + k..];
    if j > 0 { assert p.wwoken + Wake(p.wq) + Wake([]) == p.wwoken + Wake(p.wq); }
  }

  lemma PutTwice(p: Pipe, a: seq<Byte>, b: seq<Byte>)
    ensures Put(Put(p, a), b) == Put(p, a + b)
  {
    if a == [] {
      assert a + b == b;
    } else if b == [] {
      assert a + b == a;
    } else {
      assert (p.ring + a) + b == p.ring + (a + b);
      assert p.rwoken + Wake(p.rq) + Wake([]) == p.rwoken + Wake(p.rq);
    }
  }

  lemma PutMore(p: Pipe, left: seq<Byte>, n: nat, chunk: seq<Byte>, k: nat)
    requires k <= |chunk| && n + |chunk| <= |left| && chunk == left[n..n + |chunk|]
    ensures Put(Put(p, left[..n]), chunk[..k]) == Put(p, left[..n + k])
  {
    PutTwice(p, left[..n], chunk[..k]);
    assert left[..n] + chunk[..k] == left[..n + k];
  }

  lemma PutLength(p: Pipe, bytes: seq<Byte>)
    ensures |Put(p, bytes).ring| == |p.ring| + |bytes|
    ensures Put(p, bytes).cap == p.cap && Put(p, bytes).nreaders == p.nreaders
  {
  }

  lemma StepAtFull(p: Pipe, w: Writer, n: nat)
    requires n < |w.left| && |p.ring| + n == p.cap
    ensures WriteStep(p, w) ==
      WriteFull(Put(p, w.left[..n]), w.(left := w.left[n..], wr := w.wr + n), w.left[..n])
  {
  }

  lemma StepAtEnd(p: Pipe, w: Writer)
    requires |p.ring| + |w.left| <= p.cap
    ensures WriteStep(p, w) == Effect(Put(p, w.left[..|w.left|]), w.left[..|w.left|], [], Done(w.wr + |w.left|))
  {
  }

  class PipeBuf {
    const ring: Ring
    var nreaders: nat
    var nwriters: nat
    var rq: seq<Reader>
    var wq: seq<Writer>
    var rwoken: seq<Woken<Reader>>
    var wwoken: seq<Woken<Writer>>

    ghost predicate Valid()
      reads this, ring, ring.data
    {
      ring.Valid() && ring.data.Length > 1
    }

    ghost function P(): Pipe
      requires Valid()
      reads this, ring, ring.data
    {
      Pipe(ring.Capacity(), ring.Contents(), nreaders, nwriters, rq, wq, rwoken, wwoken)
    }

    constructor (size: nat)
      requires size > 1
      ensures Valid() && fresh(ring) && fresh(ring.data)
      ensures P() == Pipe(size - 1, [], 0, 0, [], [], [], [])
    {
      ring := new Ring(size);
      nreaders, nwriters, rq, wq, rwoken, wwoken := 0, 0, [], [], [], [];
    }

    method BroadcastReaders()
      requires Valid()
      modifies this
      ensures Valid() && P() == WakeReaders(old(P()))
    {
      rwoken := rwoken + Wake(rq);
      rq := [];
    }

    method BroadcastWriters()
      requires Valid()
      modifies this
      ensures Valid() && P() == WakeWriters(old(P()))
    {
      wwoken := wwoken + Wake(wq);
      wq := [];
    }

    /** One pass of the read loop: a chunk and a broadcast. */
    method ReadChunk(k: nat) returns (chunk: seq<Byte>)
      requires Valid() && 0 < k <= |P().ring|
      modifies this, ring, ring.data
      ensures Valid() && P() == Take(old(P()), k) && chunk == old(P().ring)[..k]
    {
      ghost var c := P().ring;
      chunk := ring.Read(k);
      assert c == chunk + ring.Contents();
      assert chunk == c[..k] && ring.Contents() == c[k..];
      BroadcastWriters();
    }

    /** The read loop at an empty ring with a writer open: fail or sleep. */
    method ReadAtEmpty(r: Reader) returns (outcome: Outcome)
      requires Valid() && r.want > 0 && P().ring == [] && nwriters > 0
      modifies this
      ensures Valid() && var f := ReadStep(old(P()), r); P() == f.p && outcome == f.outcome && f.delivered == []
    {
      if r.min == 0 { return Failed(EAGAIN); }
      rq := rq + [r];
      outcome := Sleeps;
    }

    /** pipebuf_read_locked: the loop over chunks of at most PIPE_BUF bytes is one ReadStep. */
    method ReadLocked(r: Reader) returns (outcome: Outcome, out: seq<Byte>)
      requires Valid()
      modifies this, ring, ring.data
      ensures Valid() && var f := ReadStep(old(P()), r);
        P() == f.p && outcome == f.outcome && out == f.delivered
    {
      ghost var p := P();
      out := [];
      while |out| < r.want
        invariant Valid() && |out| <= r.want && |out| <= |p.ring|
        invariant P() == Take(p, |out|) && out == p.ring[..|out|]
        decreases r.want - |out|
      {
        var available := ReadSize(ring.data.Length, ring.readPos, ring.writePos);
        assert available == |P().ring| == |p.ring| - |out|;
        if available == 0 {
          if nwriters == 0 || |out| > 0 { break; }
          outcome := ReadAtEmpty(r);
          return;
        }
        var readSz := r.want - |out|;
        if readSz > PIPE_BUF { readSz := PIPE_BUF; }
        if available < readSz { readSz := available; }
        var chunk := ReadChunk(readSz);
        TakeTwice(p, |out|, readSz);
        out := out + chunk;
      }
      outcome := Done(|out|);
    }

    /** One pass of the write loop: as much of a chunk as fits, and a broadcast. */
    method WriteChunk(left: seq<Byte>, taken: nat, ghost p: Pipe) returns (taken': nat)
      requires Valid() && taken < |left| && |p.ring| + taken < p.cap && P() == Put(p, left[..taken])
      modifies this, ring, ring.data
      ensures Valid() && taken < taken' <= |left| && |p.ring| + taken' <= p.cap
      ensures taken' == Min(taken + Min(|left| - taken, PIPE_BUF), p.cap - |p.ring|)
      ensures P() == Put(p, left[..taken'])
    {
      PutLength(p, left[..taken]);
      var writeSz := |left| - taken;
      if writeSz > PIPE_BUF { writeSz := PIPE_BUF; }
      var chunk := left[taken..taken + writeSz];
      var k := ring.Write(chunk);
      BroadcastReaders();
      PutMore(p, left, taken, chunk, k);
      taken' := taken + k;
    }

    /** The write loop at a full ring: return, fail or sleep, at the head once something is written. */
    method WriteAtFull(w: Writer) returns (outcome: Outcome)
      requires Valid()
      modifies this
      ensures Valid() && var f := WriteFull(old(P()), w, []); P() == f.p && outcome == f.outcome
    {
      if nreaders == 0 { return Done(w.wr); }
      if w.wr >= w.min { return if w.wr > 0 then Done(w.wr) else Failed(EAGAIN); }
      wq := if w.wr > 0 then [w] + wq else wq + [w];
      outcome := Sleeps;
    }

    /** pipebuf_write_locked after its first test: the loop over chunks is one WriteStep. */
    method WriteLoop(w: Writer) returns (outcome: Outcome, taken: nat)
      requires Valid() && |P().ring| <= P().cap
      modifies this, ring, ring.data
      ensures Valid() && taken <= |w.left| && var f := WriteStep(old(P()), w);
        P() == f.p && outcome == f.outcome && w.left[..taken] == f.accepted
    {
      ghost var p := P();
      taken := 0;
      while taken < |w.left|
        invariant Valid() && taken <= |w.left| && |p.ring| + taken <= p.cap
        invariant P() == Put(p, w.left[..taken])
        decreases |w.left| - taken
      {
        PutLength(p, w.left[..taken]);
        SizesAgree(ring.data.Length, ring.readPos, ring.writePos);
        var available := WriteSize(ring.data.Length, ring.readPos, ring.writePos);
        if available == 0 {
          StepAtFull(p, w, taken);
          outcome := WriteAtFull(w.(left := w.left[taken..], wr := w.wr + taken));
          return;
        }
        taken := WriteChunk(w.left, taken, p);
      }
      StepAtEnd(p, w);
      outcome := Done(w.wr + taken);
    }

    /** pipe_release. */
    method Close(m: Mode)
      requires Valid() && (Reads(m) ==> nreaders > 0) && (Writes(m) ==> nwriters > 0)
      modifies this
      ensures Valid() && P() == ReleaseStep(old(P()), m)
    {
      if Reads(m) {
        nreaders := nreaders - 1;
        if nreaders == 0 { BroadcastWriters(); }
      }
      if Writes(m) {
        nwriters := nwriters - 1;
        if nwriters == 0 { BroadcastReaders(); }
      }
    }
  }
}

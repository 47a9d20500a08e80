/** net/tcp.c: the sequence bookkeeping of a connection over an ordered, lossless channel. */
module Tcp {
  import opened Base

  /** Sequence numbers are 32 bits wide. */
  const WRAP: nat := 0x1_0000_0000

  /** The most payload one segment carries. */
  const SEGMENT: nat := 1000

  function Add32(x: nat, n: nat): nat
    requires x < WRAP && n < WRAP
  {
    if x + n < WRAP then x + n else x + n - WRAP
  }

  datatype State = Idle | Listening | Connecting | Connected | Closed

  datatype Seg = Seg(
    syn: bool, ack: bool, fin: bool, rst: bool,
    seqno: nat, ackno: nat,
    payload: seq<Byte>)

  /** One socket. taken, consumed and refused record history: the bytes moved from outbuf to
      segments, the bytes the application has read, the payload refused for its sequence number. */
  datatype End = End(
    st: State,
    lisn: nat, risn: nat, lseq: nat, rseq: nat, rack: nat,
    cap: nat, inbuf: seq<Byte>, outbuf: seq<Byte>,
    taken: seq<Byte>, consumed: seq<Byte>, refused: seq<Byte>)

  /** The outcome of one call: the socket, the segments it sends, and whether it succeeds. */
  datatype Reply = Reply(e: End, sent: seq<Seg>, ok: bool)

  ghost predicate Words(e: End) {
    e.lisn < WRAP && e.risn < WRAP && e.lseq < WRAP && e.rseq < WRAP && e.rack < WRAP
  }

  ghost predicate SegWords(s: Seg) {
    s.seqno < WRAP && s.ackno < WRAP && |s.payload| < WRAP
  }

  // ----- the segments forge_* make -----

  function SynSeg(e: End): Seg {
    Seg(true, false, false, false, e.lisn, 0, [])
  }

  /** The SYN-ACK carries lseq, which is already past the initial sequence number. */
  function SynAckSeg(e: End): Seg {
    Seg(true, true, false, false, e.lseq, e.rseq, [])
  }

  function DataSeg(e: End, payload: seq<Byte>): Seg {
    Seg(false, true, false, false, e.lseq, e.rseq, payload)
  }

  function AckSeg(e: End): Seg {
    DataSeg(e, [])
  }

  // ----- the calls -----

  function Connect(e: End, lisn: nat): Reply {
    var e' := e.(st := Connecting, lisn := lisn);
    Reply(e', [SynSeg(e')], true)
  }

  /** handle_syn; the socket returned is the child. */
  function HandleSyn(e: End, s: Seg, lisn: nat): Reply
    requires lisn < WRAP && SegWords(s)
  {
    if s.ackno != 0 || !s.syn || s.ack || s.fin || s.rst || s.payload != [] then
      Reply(e, [], false)
    else
      var e' := e.(st := Connected, lisn := lisn, risn := s.seqno, lseq := Add32(lisn, 1),
                   rseq := Add32(s.seqno, 1), rack := 0);
      Reply(e', [SynAckSeg(e')], true)
  }

  function HandleSynAck(e: End, s: Seg): Reply
    requires Words(e) && SegWords(s)
  {
    if s.rst then
      Reply(e.(st := Idle), [], false)
    else if !s.syn || !s.ack || s.fin || s.ackno != Add32(e.lisn, 1) then
      Reply(e, [], false)
    else
      var e' := e.(st := Connected, lseq := Add32(e.lisn, 1), rack := s.ackno,
                   risn := s.seqno, rseq := Add32(s.seqno, 1));
      Reply(e', [AckSeg(e')], true)
  }

  /** The FIN part of handle_pkt. */
  function HandleFin(r: Reply, s: Seg): Reply
    requires Words(r.e)
  {
    if !s.fin then r else
      var e' := r.e.(rseq := Add32(r.e.rseq, 1), st := Closed);
      Reply(e', r.sent + [AckSeg(e')], true)
  }

  function Room(e: End): nat {
    if |e.inbuf| <= e.cap then e.cap - |e.inbuf| else 0
  }

  function HandlePkt(e: End, s: Seg): Reply
    requires Words(e) && SegWords(s)
  {
    if s.ack && s.ackno < e.rack then Reply(e, [], false) else
      var e0 := if s.ack then e.(rack := s.ackno) else e;
      if s.seqno < e0.rseq then
        Reply(e0.(refused := e0.refused + s.payload), [], false)
      else if s.payload == [] then
        HandleFin(Reply(e0, [], true), s)
      else if Room(e0) < |s.payload| then
        Reply(e0, [], false)
      else
        var e1 := e0.(inbuf := e0.inbuf + s.payload, rseq := Add32(e0.rseq, |s.payload|));
        HandleFin(Reply(e1, [AckSeg(e1)], true), s)
  }

  /** tcp_input's choice by socket state. */
  function Input(e: End, s: Seg, lisn: nat): Reply
    requires Words(e) && SegWords(s) && lisn < WRAP
  {
    match e.st
    case Connecting => HandleSynAck(e, s)
    case Listening => HandleSyn(e, s, lisn)
    case Idle => Reply(e, [], false)
    case _ => HandlePkt(e, s)
  }

  function Min(a: nat, b: nat): nat {
    if a <= b then a else b
  }

  /** One pass of send_data: a segment of at most SEGMENT bytes from the front of outbuf. */
  function SendOne(e: End): End
    requires Words(e) && e.outbuf != []
  {
    var n := Min(SEGMENT, |e.outbuf|);
    e.(outbuf := e.outbuf[n..], lseq := Add32(e.lseq, n), taken := e.taken + e.outbuf[..n])
  }

  function SentOne(e: End): Seg
    requires e.outbuf != []
  {
    DataSeg(e, e.outbuf[..Min(SEGMENT, |e.outbuf|)])
  }

  /** send_data: until outbuf is empty. */
  function SendData(e: End): Reply
    requires Words(e)
    decreases |e.outbuf|
  {
    if e.outbuf == [] then Reply(e, [], true) else
      var r := SendData(SendOne(e));
      Reply(r.e, [SentOne(e)] + r.sent, r.ok)
  }

  // ----- what is in flight -----

  ghost function Flight(c: seq<Seg>): seq<Byte> {
    if c == [] then [] else c[0].payload + Flight(c[1..])
  }

  /** Each segment begins where the one before it ended. */
  ghost predicate Chained(c: seq<Seg>, at: nat)
    decreases |c|
  {
    c == [] || (c[0].seqno == at && Chained(c[1..], at + |c[0].payload|))
  }

  /** Acknowledgements climb from lo to at most hi. */
  ghost predicate Climbing(c: seq<Seg>, lo: nat, hi: nat)
    decreases |c|
  {
    if c == [] then lo <= hi else lo <= c[0].ackno && Climbing(c[1..], c[0].ackno, hi)
  }

  ghost predicate Plain(s: Seg) {
    !s.syn && s.ack && !s.fin && !s.rst
  }

  ghost predicate AllPlain(c: seq<Seg>) {
    forall i :: 0 <= i < |c| ==> Plain(c[i])
  }

  lemma {:induction false} FlightAppend(c: seq<Seg>, s: Seg)
    ensures Flight(c + [s]) == Flight(c) + s.payload
  {
    if c == [] {
      assert c + [s] == [s] && Flight([s][1..]) == [];
    } else {
      FlightAppend(c[1..], s);
      assert (c + [s])[1..] == c[1..] + [s];
    }
  }

  lemma {:induction false} ChainedAppend(c: seq<Seg>, at: nat, s: Seg)
    requires Chained(c, at) && s.seqno == at + |Flight(c)|
    ensures Chained(c + [s], at)
    decreases |c|
  {
    if c == [] {
      assert (c + [s])[1..] == [];
    } else {
      ChainedAppend(c[1..], at + |c[0].payload|, s);
      assert (c + [s])[1..] == c[1..] + [s];
    }
  }

  lemma {:induction false} ClimbingAppend(c: seq<Seg>, lo: nat, hi: nat, s: Seg, hi': nat)
    requires Climbing(c, lo, hi) && hi <= s.ackno <= hi'
    ensures Climbing(c + [s], lo, hi') && Climbing(c, lo, hi')
    decreases |c|
  {
    if c == [] {
      assert (c + [s])[1..] == [];
    } else {
      ClimbingAppend(c[1..], c[0].ackno, hi, s, hi');
      assert (c + [s])[1..] == c[1..] + [s];
    }
  }

  lemma {:induction false} ClimbingBounds(c: seq<Seg>, lo: nat, hi: nat)
    requires Climbing(c, lo, hi)
    ensures lo <= hi && forall i :: 0 <= i < |c| ==> lo <= c[i].ackno <= hi
    decreases |c|
  {
    if c == [] {
    } else {
      ClimbingBounds(c[1..], c[0].ackno, hi);
      forall i | 0 < i < |c| ensures lo <= c[i].ackno <= hi { assert c[i] == c[1..][i - 1]; }
    }
  }

  // ----- one direction of a connection -----

  /** The bytes that have reached e's inbuf. */
  ghost function Arrived(e: End): seq<Byte> {
    e.consumed + e.inbuf
  }

  /** The direction from x to y with c in flight. skew is how far y's expectation starts ahead of
      x's first byte: 0 when they agree, 1 when the SYN-ACK of this code opened the direction. */
  ghost predicate Stream(x: End, y: End, c: seq<Seg>, skew: nat) {
    && skew <= 1
    && x.lseq == x.lisn + 1 + |x.taken| && x.lseq + 1 < WRAP
    && |Flight(c)| <= |x.taken|
    && Chained(c, x.lseq - |Flight(c)|)
    && Climbing(c, y.rack, x.rseq)
    && AllPlain(c)
    && x.taken == y.refused + Arrived(y) + Flight(c)
    && y.rseq == x.lisn + 1 + skew + |Arrived(y)|
    && (skew == 0 ==> y.refused == [])
    && (skew == 1 && y.refused == [] ==> Arrived(y) == [])
  }

  /** In step: the peer expects the next byte in flight, and nothing is lost or reordered. */
  ghost predicate InStep(x: End, y: End, c: seq<Seg>) {
    && x.lseq == y.rseq + |Flight(c)|
    && x.taken == Arrived(y) + Flight(c)
  }

  lemma StreamIsInStep(x: End, y: End, c: seq<Seg>)
    requires Stream(x, y, c, 0)
    ensures InStep(x, y, c)
  {
    assert y.refused + Arrived(y) == Arrived(y);
  }

  // ----- what each call does to both directions -----

  lemma LastAdds(x: End, y: End, c: seq<Seg>, skew: nat, x': End, s: Seg)
    requires Stream(x, y, c, skew) && Plain(s)
    requires s.seqno == x.lseq && x.rseq <= s.ackno <= x'.rseq
    requires x'.lisn == x.lisn && x'.taken == x.taken + s.payload && x'.lseq == x.lseq + |s.payload| < WRAP - 1
    ensures Stream(x', y, c + [s], skew)
  {
    FlightAppend(c, s);
    ChainedAppend(c, x.lseq - |Flight(c)|, s);
    ClimbingAppend(c, y.rack, x.rseq, s, x'.rseq);
    assert x'.taken == y.refused + Arrived(y) + (Flight(c) + s.payload);
  }

  /** A sender whose expectation rises without a segment being sent. */
  lemma SenderHears(x: End, y: End, c: seq<Seg>, skew: nat, x': End)
    requires Stream(x, y, c, skew) && x.rseq <= x'.rseq
    requires x'.lisn == x.lisn && x'.taken == x.taken && x'.lseq == x.lseq
    ensures Stream(x', y, c, skew)
  {
    ClimbingAppend(c, y.rack, x.rseq, AckSeg(x'), x'.rseq);
  }

  /** The head of the channel reaches y. */
  lemma HeadArrives(x: End, y: End, c: seq<Seg>, skew: nat, y': End)
    requires Stream(x, y, c, skew) && c != [] && y'.rack == c[0].ackno
    requires y'.refused + Arrived(y') == y.refused + Arrived(y) + c[0].payload
    requires y'.rseq == x.lisn + 1 + skew + |Arrived(y')|
    requires (skew == 0 ==> y'.refused == []) && (skew == 1 && y'.refused == [] ==> Arrived(y') == [])
    ensures Stream(x, y', c[1..], skew)
  {
    var p := c[0].payload;
    assert Flight(c) == p + Flight(c[1..]);
    assert x.taken == (y.refused + Arrived(y) + p) + Flight(c[1..]);
  }

  lemma StreamWords(x: End, y: End, c: seq<Seg>, d: seq<Seg>, kx: nat, ky: nat)
    requires Stream(x, y, c, kx) && Stream(y, x, d, ky)
    ensures x.lisn < WRAP && x.lseq < WRAP && x.rseq < WRAP && x.rack < WRAP
    ensures forall i :: 0 <= i < |c| ==> c[i].seqno < WRAP && c[i].ackno < WRAP && |c[i].payload| < WRAP
  {
    ClimbingBounds(c, y.rack, x.rseq);
    ClimbingBounds(d, x.rack, y.rseq);
    ChainedBounds(c, x.lseq - |Flight(c)|);
  }

  lemma {:induction false} ChainedBounds(c: seq<Seg>, at: nat)
    requires Chained(c, at)
    ensures forall i :: 0 <= i < |c| ==> c[i].seqno + |c[i].payload| <= at + |Flight(c)|
    decreases |c|
  {
    if c == [] {
    } else {
      ChainedBounds(c[1..], at + |c[0].payload|);
      forall i | 0 < i < |c| ensures c[i].seqno + |c[i].payload| <= at + |Flight(c)| {
        assert c[i] == c[1..][i - 1];
      }
    }
  }

  /** Only what y has heard matters to the direction towards y. */
  lemma ReceiverActs(x: End, y: End, c: seq<Seg>, skew: nat, y': End)
    requires Stream(x, y, c, skew) && y'.rack == y.rack && y'.rseq == y.rseq
    requires y'.refused == y.refused && Arrived(y') == Arrived(y)
    ensures Stream(x, y', c, skew)
  {
  }

  ghost predicate Hearing(e: End) {
    e.st == Connected && e.risn < WRAP && |e.inbuf| <= e.cap
  }

  /** Where a segment in flight stands against what y expects. */
  lemma HeadPosition(x: End, y: End, c: seq<Seg>, skew: nat)
    requires Stream(x, y, c, skew) && c != []
    ensures y.rack <= c[0].ackno && Plain(c[0])
    ensures c[0].seqno < y.rseq <==> skew == 1 && y.refused == []
    ensures y.rseq + |c[0].payload| < WRAP
    ensures skew == 0 ==> c[0].seqno == y.rseq
  {
    assert Flight(c) == c[0].payload + Flight(c[1..]);
    assert |x.taken| == |y.refused| + |Arrived(y)| + |Flight(c)|;
  }

  /** The head is refused: only for its sequence number, and only ahead of the first data. */
  lemma RefusalKeeps(x: End, y: End, c: seq<Seg>, d: seq<Seg>, ky: nat, y': End)
    requires Stream(x, y, c, 1) && Stream(y, x, d, ky) && c != [] && y.refused == []
    requires y' == y.(rack := c[0].ackno, refused := y.refused + c[0].payload)
    ensures Stream(x, y', c[1..], 1) && Stream(y', x, d, ky)
  {
    assert Arrived(y') == Arrived(y) == [];
    HeadArrives(x, y, c, 1, y');
    SenderHears(y, x, d, ky, y');
  }

  lemma AcceptanceKeeps(x: End, y: End, c: seq<Seg>, d: seq<Seg>, kx: nat, ky: nat, y': End)
    requires Stream(x, y, c, kx) && Stream(y, x, d, ky) && c != [] && !(kx == 1 && y.refused == [])
    requires y' == y.(rack := c[0].ackno, inbuf := y.inbuf + c[0].payload, rseq := y.rseq + |c[0].payload|)
    ensures Stream(x, y', c[1..], kx)
    ensures Stream(y', x, d, ky) && Stream(y', x, d + [AckSeg(y')], ky)
  {
    var p := c[0].payload;
    assert Arrived(y') == Arrived(y) + p;
    assert y.refused + Arrived(y') == y.refused + Arrived(y) + p;
    HeadArrives(x, y, c, kx, y');
    SenderHears(y, x, d, ky, y');
    LastAdds(y', x, d, ky, y', AckSeg(y'));
  }

  lemma DeliverKeeps(x: End, y: End, c: seq<Seg>, d: seq<Seg>, kx: nat, ky: nat)
    requires Stream(x, y, c, kx) && Stream(y, x, d, ky) && c != []
    requires Hearing(y) && |c[0].payload| <= Room(y)
    ensures Words(y) && SegWords(c[0])
    ensures var r := HandlePkt(y, c[0]);
      Stream(x, r.e, c[1..], kx) && Stream(r.e, x, d + r.sent, ky) && Hearing(r.e)
  {
    StreamWords(x, y, c, d, kx, ky);
    StreamWords(y, x, d, c, ky, kx);
    HeadPosition(x, y, c, kx);
    var s, r := c[0], HandlePkt(y, c[0]);
    if kx == 1 && y.refused == [] {
      RefusalKeeps(x, y, c, d, ky, r.e);
      assert d + r.sent == d;
    } else {
      assert y.inbuf + [] == y.inbuf;
      AcceptanceKeeps(x, y, c, d, kx, ky, r.e);
      if s.payload == [] { assert d + r.sent == d; }
    }
  }

  lemma SendOneKeeps(x: End, y: End, c: seq<Seg>, d: seq<Seg>, kx: nat, ky: nat)
    requires Stream(x, y, c, kx) && Stream(y, x, d, ky) && x.lseq + |x.outbuf| + 1 < WRAP && Words(x)
    requires x.outbuf != []
    ensures Stream(SendOne(x), y, c + [SentOne(x)], kx) && Stream(y, SendOne(x), d, ky)
    ensures SendOne(x).lseq + |SendOne(x).outbuf| == x.lseq + |x.outbuf|
  {
    LastAdds(x, y, c, kx, SendOne(x), SentOne(x));
    ReceiverActs(y, x, d, ky, SendOne(x));
  }

  /** send_data leaves both directions as they should be, with all of outbuf in flight. */
  lemma {:induction false} FlushKeeps(x: End, y: End, c: seq<Seg>, d: seq<Seg>, kx: nat, ky: nat)
    requires Stream(x, y, c, kx) && Stream(y, x, d, ky) && x.lseq + |x.outbuf| + 1 < WRAP && Words(x)
    ensures Stream(SendData(x).e, y, c + SendData(x).sent, kx) && Stream(y, SendData(x).e, d, ky)
    ensures SendData(x).e == x.(lseq := SendData(x).e.lseq, outbuf := [], taken := SendData(x).e.taken)
    decreases |x.outbuf|
  {
    if x.outbuf == [] {
      assert c + [] == c;
    } else {
      SendOneKeeps(x, y, c, d, kx, ky);
      FlushKeeps(SendOne(x), y, c + [SentOne(x)], d, kx, ky);
      SendDataUnfolds(x, c);
    }
  }

  lemma SendDataUnfolds(x: End, c: seq<Seg>)
    requires Words(x) && x.outbuf != []
    ensures SendData(x).e == SendData(SendOne(x)).e
    ensures c + SendData(x).sent == (c + [SentOne(x)]) + SendData(SendOne(x)).sent
  {
  }

  // ----- a connection -----

  /** A client a, a server b (the listener and then its child), and what is in flight. */
  datatype Net = Net(a: End, b: End, ab: seq<Seg>, ba: seq<Seg>)

  datatype Event =
    | Dial(lisn: nat)
    | ToClient                                      // the head of ba arrives
    | ToServer(lisn: nat)                           // the head of ab arrives; lisn for a new child
    | Give(client: bool, bytes: seq<Byte>)          // the application fills outbuf
    | Flush(client: bool)                           // send_data
    | Recv(client: bool, k: nat)                    // the application drains inbuf

  function GiveBytes(e: End, bytes: seq<Byte>): End {
    e.(outbuf := e.outbuf + bytes)
  }

  function RecvBytes(e: End, k: nat): End
    requires k <= |e.inbuf|
  {
    e.(inbuf := e.inbuf[k..], consumed := e.consumed + e.inbuf[..k])
  }

  /** A socket nothing has happened to. */
  ghost predicate Unused(e: End) {
    Words(e) && e.taken == e.consumed == e.refused == e.inbuf == e.outbuf == []
  }

  /** No sequence number wraps, and no segment is refused for room. */
  ghost predicate Enabled(n: Net, e: Event) {
    match e
    case Dial(lisn) => n.a.st == Idle && lisn + 2 < WRAP
    case ToClient => n.ba != [] && |n.ba[0].payload| <= Room(n.a)
    case ToServer(lisn) => n.ab != [] && |n.ab[0].payload| <= Room(n.b) && lisn + 2 < WRAP
    case Give(client, bytes) => (if client then n.a else n.b).st == Connected
    case Flush(client) =>
      var x := if client then n.a else n.b;
      x.st == Connected && x.lseq + |x.outbuf| + 1 < WRAP
    case Recv(client, k) =>
      var y := if client then n.a else n.b;
      y.st == Connected && k <= |y.inbuf|
  }

  ghost predicate NetWords(n: Net) {
    && Words(n.a) && Words(n.b)
    && (n.ab != [] ==> SegWords(n.ab[0])) && (n.ba != [] ==> SegWords(n.ba[0]))
  }

  ghost function Step(n: Net, e: Event): Net
    requires Enabled(n, e) && NetWords(n)
  {
    match e
    case Dial(lisn) => var r := Connect(n.a, lisn); n.(a := r.e, ab := n.ab + r.sent)
    case ToClient => var r := Input(n.a, n.ba[0], 0); n.(a := r.e, ba := n.ba[1..], ab := n.ab + r.sent)
    case ToServer(lisn) => var r := Input(n.b, n.ab[0], lisn); n.(b := r.e, ab := n.ab[1..], ba := n.ba + r.sent)
    case Give(client, bytes) =>
      if client then n.(a := GiveBytes(n.a, bytes)) else n.(b := GiveBytes(n.b, bytes))
    case Flush(client) =>
      if client then var r := SendData(n.a); n.(a := r.e, ab := n.ab + r.sent)
      else var r := SendData(n.b); n.(b := r.e, ba := n.ba + r.sent)
    case Recv(client, k) =>
      if client then n.(a := RecvBytes(n.a, k)) else n.(b := RecvBytes(n.b, k))
  }

  // ----- the connection's invariant, phase by phase -----

  ghost predicate Quiet(n: Net) {
    && n.a.st == Idle && n.b.st == Listening && n.ab == [] && n.ba == []
    && Unused(n.a) && Unused(n.b)
  }

  ghost predicate Dialed(n: Net) {
    && n.a.st == Connecting && n.b.st == Listening && n.ab == [SynSeg(n.a)] && n.ba == []
    && Unused(n.a) && Unused(n.b) && n.a.lisn + 2 < WRAP
  }

  /** The SYN-ACK is on its way, perhaps with data behind it; skew is what it adds to b's number. */
  ghost predicate Answered(n: Net, skew: nat) {
    && n.a.st == Connecting && Hearing(n.b) && n.ab == [] && n.ba != []
    && Unused(n.a) && n.a.lisn + 2 < WRAP
    && n.ba[0] == Seg(true, true, false, false, n.b.lisn + skew, n.a.lisn + 1, []) && n.b.lisn + 2 < WRAP
    && skew <= 1
    && Stream(n.b, HandleSynAck(n.a, n.ba[0]).e, n.ba[1..], skew)
    && Stream(HandleSynAck(n.a, n.ba[0]).e, n.b, [], 0)
  }

  ghost predicate Open(n: Net, skew: nat) {
    && Hearing(n.a) && Hearing(n.b)
    && Stream(n.a, n.b, n.ab, 0) && Stream(n.b, n.a, n.ba, skew)
  }

  /** skew is 1 for the server of this code, and 0 for one whose SYN-ACK carries its initial
      sequence number, as section 3.5 of RFC 9293 has it. */
  ghost predicate Inv(n: Net, skew: nat) {
    || (skew == 1 && (Quiet(n) || Dialed(n)))
    || Answered(n, skew)
    || Open(n, skew)
  }

  lemma InvWords(n: Net, skew: nat)
    requires Inv(n, skew)
    ensures NetWords(n)
  {
    if Answered(n, skew) {
      StreamWords(n.b, HandleSynAck(n.a, n.ba[0]).e, n.ba[1..], [], skew, 0);
    } else if Open(n, skew) {
      StreamWords(n.a, n.b, n.ab, n.ba, 0, skew);
      StreamWords(n.b, n.a, n.ba, n.ab, skew, 0);
    }
  }

  lemma DialKeeps(n: Net, lisn: nat)
    requires Quiet(n) && Enabled(n, Dial(lisn)) && NetWords(n)
    ensures Dialed(Step(n, Dial(lisn)))
  {
  }

  /** handle_syn's child starts in step with the client, and one ahead of itself the other way. */
  lemma SynKeeps(n: Net, lisn: nat)
    requires Dialed(n) && Enabled(n, ToServer(lisn)) && NetWords(n)
    ensures Answered(Step(n, ToServer(lisn)), 1)
  {
    var m := Step(n, ToServer(lisn));
    assert m.b == HandleSyn(n.b, n.ab[0], lisn).e;
    assert m.ba == [SynAckSeg(m.b)] && m.ba[1..] == [];
    var a' := HandleSynAck(n.a, m.ba[0]).e;
    assert a'.st == Connected && Arrived(a') == [] && Arrived(m.b) == [];
  }

  lemma SynAckKeeps(n: Net, skew: nat)
    requires Answered(n, skew) && Enabled(n, ToClient) && NetWords(n)
    ensures Open(Step(n, ToClient), skew)
  {
    var a' := HandleSynAck(n.a, n.ba[0]).e;
    LastAdds(a', n.b, [], 0, a', AckSeg(a'));
    assert Step(n, ToClient).ab == [] + [AckSeg(a')];
  }

  lemma OpenDeliverKeeps(n: Net, skew: nat, e: Event)
    requires Open(n, skew) && Enabled(n, e) && NetWords(n) && (e.ToClient? || e.ToServer?)
    ensures Open(Step(n, e), skew)
  {
    if e.ToClient? {
      DeliverKeeps(n.b, n.a, n.ba, n.ab, skew, 0);
    } else {
      DeliverKeeps(n.a, n.b, n.ab, n.ba, 0, skew);
    }
  }

  lemma RecvSame(e: End, k: nat)
    requires k <= |e.inbuf|
    ensures Arrived(RecvBytes(e, k)) == Arrived(e)
  {
    assert e.inbuf == e.inbuf[..k] + e.inbuf[k..];
  }

  lemma LocalKeeps(x: End, y: End, c: seq<Seg>, d: seq<Seg>, kx: nat, ky: nat, x': End)
    requires Stream(x, y, c, kx) && Stream(y, x, d, ky)
    requires x' == x.(outbuf := x'.outbuf, inbuf := x'.inbuf, consumed := x'.consumed) && Arrived(x') == Arrived(x)
    ensures Stream(x', y, c, kx) && Stream(y, x', d, ky)
  {
    SenderHears(x, y, c, kx, x');
    ReceiverActs(y, x, d, ky, x');
  }

  lemma OpenLocalKeeps(n: Net, skew: nat, e: Event)
    requires Open(n, skew) && Enabled(n, e) && NetWords(n) && (e.Give? || e.Recv?)
    ensures Open(Step(n, e), skew)
  {
    var m := Step(n, e);
    if e.Recv? { RecvSame(if e.client then n.a else n.b, e.k); }
    if e.client {
      LocalKeeps(n.a, n.b, n.ab, n.ba, 0, skew, m.a);
    } else {
      LocalKeeps(n.b, n.a, n.ba, n.ab, skew, 0, m.b);
    }
  }

  lemma OpenFlushKeeps(n: Net, skew: nat, client: bool)
    requires Open(n, skew) && Enabled(n, Flush(client)) && NetWords(n)
    ensures Open(Step(n, Flush(client)), skew)
  {
    if client {
      FlushKeeps(n.a, n.b, n.ab, n.ba, 0, skew);
    } else {
      FlushKeeps(n.b, n.a, n.ba, n.ab, skew, 0);
    }
  }

  /** Before the SYN-ACK arrives only the server can act; its segments queue behind it. */
  lemma AnsweredLocalKeeps(n: Net, skew: nat, e: Event)
    requires Answered(n, skew) && Enabled(n, e) && NetWords(n) && (e.Give? || e.Recv?)
    ensures Answered(Step(n, e), skew)
  {
    var a' := HandleSynAck(n.a, n.ba[0]).e;
    var m := Step(n, e);
    if e.Recv? { RecvSame(n.b, e.k); }
    LocalKeeps(n.b, a', n.ba[1..], [], skew, 0, m.b);
  }

  lemma AnsweredFlushKeeps(n: Net, skew: nat, client: bool)
    requires Answered(n, skew) && Enabled(n, Flush(client)) && NetWords(n)
    ensures Answered(Step(n, Flush(client)), skew)
  {
    var a' := HandleSynAck(n.a, n.ba[0]).e;
    FlushKeeps(n.b, a', n.ba[1..], [], skew, 0);
    var r := SendData(n.b);
    assert (n.ba + r.sent)[1..] == n.ba[1..] + r.sent;
  }

  lemma StepKeepsInv(n: Net, skew: nat, e: Event)
    requires Inv(n, skew) && Enabled(n, e)
    ensures NetWords(n) && Inv(Step(n, e), skew)
  {
    InvWords(n, skew);
    if Open(n, skew) {
      match e
      case Flush(client) => OpenFlushKeeps(n, skew, client);
      case ToClient => OpenDeliverKeeps(n, skew, e);
      case ToServer(_) => OpenDeliverKeeps(n, skew, e);
      case Dial(_) =>
      case _ => OpenLocalKeeps(n, skew, e);
    } else if Answered(n, skew) {
      match e
      case Flush(client) => AnsweredFlushKeeps(n, skew, client);
      case ToClient => SynAckKeeps(n, skew);
      case Give(_, _) => AnsweredLocalKeeps(n, skew, e);
      case Recv(_, _) => AnsweredLocalKeeps(n, skew, e);
      case _ =>
    } else if Dialed(n) {
      match e
      case ToServer(lisn) => SynKeeps(n, lisn);
      case _ =>
    } else {
      match e
      case Dial(lisn) => DialKeeps(n, lisn);
      case _ =>
    }
  }

  ghost predicate CanRun(n: Net, es: seq<Event>)
    decreases |es|
  {
    es == [] || (Enabled(n, es[0]) && NetWords(n) && CanRun(Step(n, es[0]), es[1..]))
  }

  ghost function Run(n: Net, es: seq<Event>): Net
    requires CanRun(n, es)
    decreases |es|
  {
    if es == [] then n else Run(Step(n, es[0]), es[1..])
  }

  lemma {:induction false} RunsKeepInv(n: Net, skew: nat, es: seq<Event>)
    requires Inv(n, skew) && CanRun(n, es)
    ensures Inv(Run(n, es), skew)
    decreases |es|
  {
    if es == [] {
    } else {
      StepKeepsInv(n, skew, es[0]);
      RunsKeepInv(Step(n, es[0]), skew, es[1..]);
    }
  }

  /** The three-way handshake: three steps take a fresh pair of sockets to an open connection. */
  lemma HandshakeOpens(n: Net, la: nat, lb: nat)
    requires Quiet(n) && la + 2 < WRAP && lb + 2 < WRAP
    ensures CanRun(n, [Dial(la), ToServer(lb), ToClient])
    ensures Open(Run(n, [Dial(la), ToServer(lb), ToClient]), 1)
  {
    InvWords(n, 1);
    DialKeeps(n, la);
    var n1 := Step(n, Dial(la));
    AnswerOpens(n1, lb);
    RunCons(n, Dial(la), [ToServer(lb), ToClient]);
    assert [Dial(la)] + [ToServer(lb), ToClient] == [Dial(la), ToServer(lb), ToClient];
  }

  lemma AnswerOpens(n: Net, lb: nat)
    requires Dialed(n) && lb + 2 < WRAP
    ensures CanRun(n, [ToServer(lb), ToClient])
    ensures Open(Run(n, [ToServer(lb), ToClient]), 1)
  {
    InvWords(n, 1);
    SynKeeps(n, lb);
    var n1 := Step(n, ToServer(lb));
    InvWords(n1, 1);
    SynAckKeeps(n1, 1);
    RunTwo(n, ToServer(lb), ToClient);
  }

  lemma RunTwo(n: Net, e: Event, f: Event)
    requires Enabled(n, e) && NetWords(n) && Enabled(Step(n, e), f) && NetWords(Step(n, e))
    ensures CanRun(n, [e, f]) && Run(n, [e, f]) == Step(Step(n, e), f)
  {
    RunCons(Step(n, e), f, []);
    RunCons(n, e, [f]);
    assert [e] + [f] == [e, f] && [f] + [] == [f];
  }

  lemma RunCons(n: Net, e: Event, es: seq<Event>)
    requires Enabled(n, e) && NetWords(n) && CanRun(Step(n, e), es)
    ensures CanRun(n, [e] + es) && Run(n, [e] + es) == Run(Step(n, e), es)
  {
    assert ([e] + es)[1..] == es;
  }

  // ----- what the runs give -----

  /** Once open, the client's stream is in step: lseq is the server's rseq plus what is in flight,
      and the bytes taken are the bytes arrived followed by the bytes in flight. */
  lemma ClientIsInStep(n: Net, skew: nat)
    requires Inv(n, skew) && n.a.st == Connected && n.b.st == Connected
    ensures InStep(n.a, n.b, n.ab) && n.b.consumed <= n.a.taken
    ensures skew == 0 ==> InStep(n.b, n.a, n.ba) && n.a.consumed <= n.b.taken
  {
    StreamIsInStep(n.a, n.b, n.ab);
    if skew == 0 { StreamIsInStep(n.b, n.a, n.ba); }
  }

  /** No acknowledgement of the client's stream, in flight or received, covers a byte that is not in
      the server's inbuf; of the server's stream, they claim skew bytes too many. */
  lemma AcksAreHonest(n: Net, skew: nat, i: nat)
    requires Inv(n, skew) && n.a.st == Connected && n.b.st == Connected
    ensures n.a.rack <= n.a.lisn + 1 + |Arrived(n.b)|
    ensures i < |n.ba| ==> n.a.rack <= n.ba[i].ackno <= n.a.lisn + 1 + |Arrived(n.b)|
    ensures n.b.rack <= n.b.lisn + 1 + skew + |Arrived(n.a)|
    ensures i < |n.ab| ==> n.b.rack <= n.ab[i].ackno <= n.b.lisn + 1 + skew + |Arrived(n.a)|
  {
    ClimbingBounds(n.ba, n.a.rack, n.b.rseq);
    ClimbingBounds(n.ab, n.b.rack, n.a.rseq);
  }

  lemma RackStep(n: Net, skew: nat, e: Event)
    requires Open(n, skew) && Enabled(n, e) && NetWords(n)
    ensures n.a.rack <= Step(n, e).a.rack && n.b.rack <= Step(n, e).b.rack
  {
    if e.Flush? {
      if e.client {
        FlushKeeps(n.a, n.b, n.ab, n.ba, 0, skew);
      } else {
        FlushKeeps(n.b, n.a, n.ba, n.ab, skew, 0);
      }
    }
  }

  lemma OpenStaysOpen(n: Net, skew: nat, e: Event)
    requires Open(n, skew) && Enabled(n, e)
    ensures NetWords(n) && Open(Step(n, e), skew)
  {
    InvWords(n, skew);
    match e
    case Flush(client) => OpenFlushKeeps(n, skew, client);
    case ToClient => OpenDeliverKeeps(n, skew, e);
    case ToServer(_) => OpenDeliverKeeps(n, skew, e);
    case Dial(_) =>
    case _ => OpenLocalKeeps(n, skew, e);
  }

  /** Over every run of an open connection rack never falls. */
  lemma {:induction false} RackNeverFalls(n: Net, skew: nat, es: seq<Event>)
    requires Open(n, skew) && CanRun(n, es)
    ensures Open(Run(n, es), skew)
    ensures n.a.rack <= Run(n, es).a.rack && n.b.rack <= Run(n, es).b.rack
    decreases |es|
  {
    if es == [] {
    } else {
      OpenStaysOpen(n, skew, es[0]);
      RackStep(n, skew, es[0]);
      RackNeverFalls(Step(n, es[0]), skew, es[1..]);
    }
  }

  // ----- where the handshake and the guards matter -----

  /** The client expects the server's next byte exactly when the SYN-ACK carries the server's
      initial sequence number. */
  lemma SynAckExact(a: End, b: End, s: Seg)
    requires Words(a) && Words(b) && SegWords(s) && b.lseq == Add32(b.lisn, 1) && HandleSynAck(a, s).ok
    ensures HandleSynAck(a, s).e.rseq == b.lseq <==> s.seqno == b.lisn
  {
  }

  /** The SYN-ACK of this code does not, so its two ends disagree by one. */
  lemma OwnSynAckIsAhead(a: End, b: End)
    requires Words(a) && Words(b) && b.rseq == Add32(a.lisn, 1)
    ensures HandleSynAck(a, SynAckSeg(b)).ok
    ensures HandleSynAck(a, SynAckSeg(b)).e.rseq == Add32(b.lseq, 1) != b.lseq
  {
  }

  /** So with its own server the other direction is never in step: what is missing at the client is
      exactly the payload it refused, which is the front of the stream. */
  lemma ServerIsNeverInStep(n: Net)
    requires Inv(n, 1) && n.a.st == Connected && n.b.st == Connected
    ensures !InStep(n.b, n.a, n.ba)
    ensures n.b.taken == n.a.refused + (Arrived(n.a) + Flight(n.ba))
    ensures Arrived(n.a) != [] ==> n.a.refused != []
  {
    assert n.a.refused + (Arrived(n.a) + Flight(n.ba)) == n.a.refused + Arrived(n.a) + Flight(n.ba);
    assert |n.b.taken| == |n.a.refused| + |Arrived(n.a)| + |Flight(n.ba)|;
  }

  /** A segment from that server is refused exactly until the first one with data has been. */
  lemma RefusedExactly(n: Net)
    requires Open(n, 1) && n.ba != [] && |n.ba[0].payload| <= Room(n.a)
    ensures NetWords(n)
    ensures HandlePkt(n.a, n.ba[0]).ok <==> n.a.refused != []
    ensures HandlePkt(n.a, n.ba[0]).e.refused ==
      if n.a.refused == [] then n.ba[0].payload else n.a.refused
  {
    InvWords(n, 1);
    HeadPosition(n.b, n.a, n.ba, 1);
    assert n.a.refused == [] ==> n.a.refused + n.ba[0].payload == n.ba[0].payload;
  }

  /** A direction in step stays so on delivery exactly when the segment fits. */
  lemma RoomExact(x: End, y: End, c: seq<Seg>)
    requires Stream(x, y, c, 0) && c != [] && Words(y) && SegWords(c[0])
    ensures InStep(x, HandlePkt(y, c[0]).e, c[1..]) <==> |c[0].payload| <= Room(y)
  {
    HeadPosition(x, y, c, 0);
    StreamIsInStep(x, y, c);
    var p, y' := c[0].payload, HandlePkt(y, c[0]).e;
    assert Flight(c) == p + Flight(c[1..]);
    if |p| <= Room(y) {
      if p == [] { assert y.inbuf + p == y.inbuf; }
      assert Arrived(y') == Arrived(y) + p;
      assert Arrived(y) + (p + Flight(c[1..])) == (Arrived(y) + p) + Flight(c[1..]);
    } else {
      assert y'.rseq == y.rseq;
    }
  }

  /** An in-order segment is accepted exactly when its acknowledgement does not wrap past zero. */
  lemma WrapExact(e: End, s: Seg, n: nat)
    requires Words(e) && SegWords(s) && n < WRAP && |s.payload| <= Room(e)
    requires s.ack && s.ackno == Add32(e.rack, n) && s.seqno == e.rseq
    ensures HandlePkt(e, s).ok <==> e.rack + n < WRAP
  {
  }

  /** send_data's segments are outbuf cut into pieces of 1 to SEGMENT bytes. */
  lemma {:induction false} FlushIsOutbuf(e: End)
    requires Words(e)
    ensures Flight(SendData(e).sent) == e.outbuf
    ensures forall s :: s in SendData(e).sent ==> 1 <= |s.payload| <= SEGMENT && s.ackno == e.rseq
    decreases |e.outbuf|
  {
    if e.outbuf == [] {
    } else {
      var r := SendData(SendOne(e));
      FlushIsOutbuf(SendOne(e));
      assert ([SentOne(e)] + r.sent)[1..] == r.sent;
      var n := Min(SEGMENT, |e.outbuf|);
      assert e.outbuf[..n] + e.outbuf[n..] == e.outbuf;
    }
  }

  // ----- the socket in memory -----

  class Socket {
    var st: State
    var lisn: nat
    var risn: nat
    var lseq: nat
    var rseq: nat
    var rack: nat
    const cap: nat
    var inbuf: seq<Byte>
    var outbuf: seq<Byte>
    var sent: seq<Seg>
    ghost var taken: seq<Byte>
    ghost var consumed: seq<Byte>
    ghost var refused: seq<Byte>

    ghost function E(): End
      reads this
    {
      End(st, lisn, risn, lseq, rseq, rack, cap, inbuf, outbuf, taken, consumed, refused)
    }

    constructor (cap: nat)
      ensures E() == End(Idle, 0, 0, 0, 0, 0, cap, [], [], [], [], []) && sent == []
    {
      st, lisn, risn, lseq, rseq, rack := Idle, 0, 0, 0, 0, 0;
      this.cap, inbuf, outbuf, sent := cap, [], [], [];
      taken, consumed, refused := [], [], [];
    }

    /** forge_ack and send_pkt. */
    method SendAck()
      modifies this`sent
      ensures sent == old(sent) + [AckSeg(E())]
    {
      sent := sent + [Seg(false, true, false, false, lseq, rseq, [])];
    }

    method OnSynAck(s: Seg) returns (ok: bool)
      requires Words(E()) && SegWords(s)
      modifies this
      ensures var r := HandleSynAck(old(E()), s); E() == r.e && ok == r.ok && sent == old(sent) + r.sent
    {
      if s.rst {
        st := Idle;
        return false;
      }
      if !s.syn || !s.ack || s.fin { return false; }
      if s.ackno != Add32(lisn, 1) { return false; }
      lseq := Add32(lisn, 1);
      rack := s.ackno;
      risn := s.seqno;
      rseq := Add32(risn, 1);
      st := Connected;
      SendAck();
      ok := true;
    }

    method OnSyn(s: Seg, isn: nat) returns (ok: bool)
      requires Words(E()) && SegWords(s) && isn < WRAP
      modifies this
      ensures var r := HandleSyn(old(E()), s, isn); E() == r.e && ok == r.ok && sent == old(sent) + r.sent
    {
      if s.ackno != 0 { return false; }
      if !s.syn || s.ack || s.fin || s.rst { return false; }
      if s.payload != [] { return false; }
      lisn := isn;
      risn := s.seqno;
      lseq := Add32(lisn, 1);
      rseq := Add32(risn, 1);
      rack := 0;
      sent := sent + [Seg(true, true, false, false, lseq, rseq, [])];
      st := Connected;
      ok := true;
    }

    method OnPkt(s: Seg) returns (ok: bool)
      requires Words(E()) && SegWords(s)
      modifies this
      ensures var r := HandlePkt(old(E()), s); E() == r.e && ok == r.ok && sent == old(sent) + r.sent
    {
      if s.ack {
        if s.ackno < rack { return false; }
        rack := s.ackno;
      }
      if s.seqno < rseq {
        refused := refused + s.payload;
        return false;
      }
      if s.payload != [] {
        var avail := if |inbuf| <= cap then cap - |inbuf| else 0;
        if avail < |s.payload| { return false; }
        inbuf := inbuf + s.payload;
        rseq := Add32(rseq, |s.payload|);
        SendAck();
      }
      if s.fin {
        rseq := Add32(rseq, 1);
        st := Closed;
        SendAck();
      }
      ok := true;
    }

    /** send_data's loop. */
    method FlushOut()
      requires Words(E())
      modifies this
      ensures var r := SendData(old(E())); E() == r.e && sent == old(sent) + r.sent
    {
      ghost var r := SendData(E());
      var bytes := |outbuf|;
      while bytes > 0
        invariant bytes == |outbuf| && Words(E())
        invariant SendData(E()).e == r.e && sent + SendData(E()).sent == old(sent) + r.sent
        decreases bytes
      {
        ghost var e, out := E(), sent;
        if bytes > SEGMENT { bytes := SEGMENT; }
        var seg := Seg(false, true, false, false, lseq, rseq, outbuf[..bytes]);
        taken := taken + outbuf[..bytes];
        outbuf := outbuf[bytes..];
        lseq := Add32(lseq, bytes);
        sent := sent + [seg];
        assert E() == SendOne(e) && seg == SentOne(e);
        SendDataUnfolds(e, out);
        bytes := |outbuf|;
      }
      assert sent + [] == sent;
    }
  }
}
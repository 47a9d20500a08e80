/** kern/sma.c: the slab allocator.

    Slabs are numbered; each belongs to one meta page, whose three lists hold the numbers of
    its slabs by state.  A bitmap is the sequence of its bits; word i is bits 32 * i to
    32 * i + 31, the masks of the C code being int-wide. */
module Slab {
  import opened Base

  const BPW: nat := 32
  const NO_FREE: nat := 0xFFFF_FFFF   // first_free of a full slab: (size_t)-1

  datatype SlabState = Empty | Partial | Full

  /** addr is None while the slab has no memory. */
  datatype Slab = Slab(meta: nat, addr: Option<nat>, state: SlabState, firstFree: nat, bits: seq<bool>)

  /** Sizes fixed by sma_init: count blocks of dataSize bytes in slabSize bytes, words words of bitmap,
      perMeta slabs in a meta page. */
  datatype Params = Params(count: nat, words: nat, dataSize: nat, slabSize: nat, perMeta: nat)

  predicate ValidParams(p: Params)
  {
    && 8 <= p.count < NO_FREE && p.words == (p.count + BPW - 1) / BPW
    && p.dataSize > 0 && p.dataSize * p.count <= p.slabSize && p.perMeta > 0
  }

  /** empty, partial and full are indexed by meta page; order lists the meta pages. */
  datatype Sma = Sma(slabs: seq<Slab>, empty: seq<seq<nat>>, partial: seq<seq<nat>>, full: seq<seq<nat>>,
                     order: seq<nat>, ncurrent: int)

  // ----- bitmaps -----

  ghost predicate AllSet(b: seq<bool>, lo: nat, hi: nat)
    requires hi <= |b|
  {
    forall k :: lo <= k < hi ==> b[k]
  }

  ghost predicate AllClear(b: seq<bool>, lo: nat, hi: nat)
    requires hi <= |b|
  {
    forall k :: lo <= k < hi ==> !b[k]
  }

  ghost function CountSet(b: seq<bool>): (n: nat)
    ensures n <= |b|
  {
    if b == [] then 0 else CountSet(b[..|b| - 1]) + (if b[|b| - 1] then 1 else 0)
  }

  lemma {:induction false} CountSetUpdate(b: seq<bool>, k: nat, v: bool)
    requires k < |b|
    ensures CountSet(b[k := v]) == CountSet(b) - (if b[k] then 1 else 0) + (if v then 1 else 0)
  {
    var n := |b| - 1;
    if k < n {
      CountSetUpdate(b[..n], k, v);
      assert b[k := v][..n] == b[..n][k := v];
    } else {
      assert b[k := v][..n] == b[..n];
    }
  }

  lemma {:induction false} CountSetZero(b: seq<bool>)
    ensures CountSet(b) == 0 <==> AllClear(b, 0, |b|)
  {
    if b == [] {
    } else {
      CountSetZero(b[..|b| - 1]);
    }
  }

  // ----- one slab -----

  ghost predicate SlabOk(p: Params, s: Slab)
  {
    && |s.bits| == p.words * BPW && p.count <= |s.bits|
    && (s.state == Empty && s.addr.Some? ==> AllClear(s.bits, 0, |s.bits|))
    && (s.state != Empty ==> s.addr.Some? && AllClear(s.bits, p.count, |s.bits|))
    && (s.state == Partial ==>
          && s.firstFree < p.count && !s.bits[s.firstFree] && AllSet(s.bits, 0, s.firstFree)
          && !AllClear(s.bits, 0, p.count))
    && (s.state == Full ==> s.firstFree == NO_FREE && AllSet(s.bits, 0, p.count))
  }

  /** The least clear bit, or |b|. */
  ghost function FirstClear(b: seq<bool>): (k: nat)
    ensures k <= |b| && AllSet(b, 0, k) && (k < |b| ==> !b[k])
  {
    if b == [] || !b[0] then 0 else
      assert forall i :: 1 <= i < |b| ==> b[i] == b[1..][i - 1];
      1 + FirstClear(b[1..])
  }

  /** bitmap_set and update_first_free. */
  ghost function TakeBit(p: Params, s: Slab, k: nat): (r: Slab)
    requires k < |s.bits|
  {
    var b := s.bits[k := true];
    var f := FirstClear(b);
    if f >= p.count then s.(bits := b, firstFree := NO_FREE, state := Full)
    else s.(bits := b, firstFree := f, state := Partial)
  }

  lemma TakeFirstFree(p: Params, s: Slab)
    requires ValidParams(p) && SlabOk(p, s) && s.state == Partial
    ensures var r := TakeBit(p, s, s.firstFree); SlabOk(p, r) && r.state != Empty
  {
    var r := TakeBit(p, s, s.firstFree);
    assert r.bits[s.firstFree];
  }

  /** bitmap_clr, the new first_free, and the state check_free_slab leaves. */
  ghost function DropBit(p: Params, s: Slab, k: nat): (r: Slab)
    requires k < |s.bits|
  {
    var b := s.bits[k := false];
    var f := if k < s.firstFree then k else s.firstFree;
    s.(bits := b, firstFree := f,
       state := if s.state == Full then Partial else if AllClear(b, 0, |b|) then Empty else s.state)
  }

  lemma DropKeepsOk(p: Params, s: Slab, k: nat)
    requires ValidParams(p) && SlabOk(p, s) && s.state != Empty && k < p.count && s.bits[k]
    ensures SlabOk(p, DropBit(p, s, k))
    ensures s.state == Full ==> DropBit(p, s, k).state == Partial
  {
    var r := DropBit(p, s, k);
    if s.state == Full {
      var j := if k == 0 then 1 else 0;
      assert r.bits[j];
    }
  }

  // ----- the lists -----

  /** l holds, once each, the slabs of meta m that are in state st. */
  ghost predicate ListIs(l: seq<nat>, slabs: seq<Slab>, m: nat, st: SlabState)
  {
    NoDup(l) && forall id :: id in l <==> 0 <= id < |slabs| && slabs[id].meta == m && slabs[id].state == st
  }

  ghost predicate Lists(y: Sma)
  {
    && |y.empty| == |y.partial| == |y.full|
    && (forall id :: 0 <= id < |y.slabs| ==> y.slabs[id].meta < |y.empty|)
    && (forall m :: 0 <= m < |y.empty| ==> ListIs(y.empty[m], y.slabs, m, Empty))
    && (forall m :: 0 <= m < |y.partial| ==> ListIs(y.partial[m], y.slabs, m, Partial))
    && (forall m :: 0 <= m < |y.full| ==> ListIs(y.full[m], y.slabs, m, Full))
    && NoDup(y.order) && (forall m :: m in y.order <==> 0 <= m < |y.empty|)
  }

  /** Only the head of an empty list may keep its memory. */
  ghost predicate Heads(y: Sma)
    requires Lists(y)
  {
    forall m, j :: 0 <= m < |y.empty| && 0 < j < |y.empty[m]| ==>
      y.empty[m][j] < |y.slabs| && y.slabs[y.empty[m][j]].addr.None?
  }

  lemma ListLoses(l: seq<nat>, slabs: seq<Slab>, m: nat, st: SlabState, id: nat, s: Slab)
    requires ListIs(l, slabs, m, st) && id < |slabs| && slabs[id].meta == m == s.meta
    requires slabs[id].state == st && s.state != st
    ensures ListIs(Remove(l, id), slabs[id := s], m, st)
  {
    var i :| 0 <= i < |l| && l[i] == id;
    RemoveNoDup(l, i);
    var r := Remove(l, id);
    assert forall x :: x in r <==> x in l && x != id;
  }

  lemma ListGains(l: seq<nat>, slabs: seq<Slab>, m: nat, st: SlabState, id: nat, s: Slab)
    requires ListIs(l, slabs, m, st) && id < |slabs| && slabs[id].meta == m == s.meta
    requires slabs[id].state != st && s.state == st
    ensures ListIs([id] + l, slabs[id := s], m, st) && ListIs(l + [id], slabs[id := s], m, st)
  {
  }

  lemma ListStays(l: seq<nat>, slabs: seq<Slab>, m: nat, st: SlabState, id: nat, s: Slab)
    requires ListIs(l, slabs, m, st) && id < |slabs| && slabs[id].meta == s.meta
    requires slabs[id].meta == m ==> (slabs[id].state == st <==> s.state == st)
    ensures ListIs(l, slabs[id := s], m, st)
  {
  }

  // ----- totals and memory -----

  ghost function Used(s: Slab): nat { if s.state == Empty then 0 else CountSet(s.bits) }

  ghost function Total(slabs: seq<Slab>): nat
  {
    if slabs == [] then 0 else Total(slabs[..|slabs| - 1]) + Used(slabs[|slabs| - 1])
  }

  lemma {:induction false} TotalUpdate(slabs: seq<Slab>, id: nat, s: Slab)
    requires id < |slabs|
    ensures Total(slabs[id := s]) == Total(slabs) - Used(slabs[id]) + Used(s)
  {
    var n := |slabs| - 1;
    if id < n {
      TotalUpdate(slabs[..n], id, s);
      assert slabs[id := s][..n] == slabs[..n][id := s];
    } else {
      assert slabs[id := s][..n] == slabs[..n];
    }
  }

  lemma {:induction false} TotalAppend(slabs: seq<Slab>, more: seq<Slab>)
    requires forall i :: 0 <= i < |more| ==> more[i].state == Empty
    ensures Total(slabs + more) == Total(slabs)
  {
    if more == [] {
      assert slabs + more == slabs;
    } else {
      var n := |more| - 1;
      assert (slabs + more)[..|slabs + more| - 1] == slabs + more[..n];
      TotalAppend(slabs, more[..n]);
    }
  }

  /** Memory [a, a + size) meets no slab. */
  ghost predicate FreshMem(p: Params, slabs: seq<Slab>, a: nat)
  {
    a > 0 && forall i :: 0 <= i < |slabs| && slabs[i].addr.Some? ==>
               a + p.slabSize <= slabs[i].addr.value || slabs[i].addr.value + p.slabSize <= a
  }

  ghost predicate Disjoint(p: Params, slabs: seq<Slab>)
  {
    forall i, j :: 0 <= i < j < |slabs| && slabs[i].addr.Some? && slabs[j].addr.Some? ==>
      slabs[i].addr.value + p.slabSize <= slabs[j].addr.value || slabs[j].addr.value + p.slabSize <= slabs[i].addr.value
  }

  ghost predicate Inv(p: Params, y: Sma)
  {
    && ValidParams(p)
    && (forall id :: 0 <= id < |y.slabs| ==> SlabOk(p, y.slabs[id]))
    && Lists(y) && Heads(y) && Disjoint(p, y.slabs)
    && (forall id :: 0 <= id < |y.slabs| && y.slabs[id].addr.Some? ==> y.slabs[id].addr.value > 0)
    && y.ncurrent == Total(y.slabs)
  }

  // ----- live blocks -----

  ghost predicate LiveAt(p: Params, y: Sma, id: nat, k: nat)
  {
    && id < |y.slabs| && y.slabs[id].state != Empty && y.slabs[id].addr.Some?
    && k < p.count && k < |y.slabs[id].bits| && y.slabs[id].bits[k]
  }

  ghost function BlockAddr(p: Params, s: Slab, k: nat): nat
    requires s.addr.Some?
  {
    s.addr.value + k * p.dataSize
  }

  ghost predicate Live(p: Params, y: Sma, a: nat)
  {
    exists id: nat, k: nat :: LiveAt(p, y, id, k) && a == BlockAddr(p, y.slabs[id], k)
  }

  lemma MulMono(a: nat, b: nat, d: nat)
    requires a < b
    ensures a * d + d <= b * d
  {
    assert (a + 1) * d <= b * d;
  }

  lemma BlockInside(p: Params, s: Slab, k: nat)
    requires ValidParams(p) && s.addr.Some? && k < p.count
    ensures s.addr.value <= BlockAddr(p, s, k) && BlockAddr(p, s, k) + p.dataSize <= s.addr.value + p.slabSize
  {
    MulMono(k, p.count, p.dataSize);
  }

  /** Different places hold blocks that do not overlap. */
  lemma PlacesApart(p: Params, y: Sma, i: nat, k: nat, j: nat, l: nat)
    requires Inv(p, y) && i < |y.slabs| && j < |y.slabs| && k < p.count && l < p.count && (i, k) != (j, l)
    requires y.slabs[i].addr.Some? && y.slabs[j].addr.Some?
    ensures var a, b := BlockAddr(p, y.slabs[i], k), BlockAddr(p, y.slabs[j], l);
            a + p.dataSize <= b || b + p.dataSize <= a
  {
    BlockInside(p, y.slabs[i], k);
    BlockInside(p, y.slabs[j], l);
    if i == j {
      if k < l { MulMono(k, l, p.dataSize); } else { MulMono(l, k, p.dataSize); }
    }
  }

  lemma PlaceIsUnique(p: Params, y: Sma, i: nat, k: nat, j: nat, l: nat)
    requires Inv(p, y) && i < |y.slabs| && j < |y.slabs| && k < p.count && l < p.count
    requires y.slabs[i].addr.Some? && y.slabs[j].addr.Some?
    requires BlockAddr(p, y.slabs[i], k) == BlockAddr(p, y.slabs[j], l)
    ensures i == j && k == l
  {
    if (i, k) != (j, l) {
      PlacesApart(p, y, i, k, j, l);
    }
  }

  /** Distinct live blocks never overlap. */
  lemma LiveBlocksDisjoint(p: Params, y: Sma, a: nat, b: nat)
    requires Inv(p, y) && Live(p, y, a) && Live(p, y, b) && a != b
    ensures a + p.dataSize <= b || b + p.dataSize <= a
  {
    var i: nat, k: nat :| LiveAt(p, y, i, k) && a == BlockAddr(p, y.slabs[i], k);
    var j: nat, l: nat :| LiveAt(p, y, j, l) && b == BlockAddr(p, y.slabs[j], l);
    PlacesApart(p, y, i, k, j, l);
  }

  // ----- the operations on values -----

  /** get_free_block on a partial slab: the first free block is taken. */
  ghost function TakePartial(p: Params, y: Sma, id: nat): (r: Sma)
    requires Inv(p, y) && id < |y.slabs| && y.slabs[id].state == Partial
  {
    var s := y.slabs[id];
    var s' := TakeBit(p, s, s.firstFree);
    var y1 := y.(slabs := y.slabs[id := s'], ncurrent := y.ncurrent + 1);
    if s'.state != Full then y1
    else y1.(partial := y.partial[s.meta := Remove(y.partial[s.meta], id)],
             full := y.full[s.meta := y.full[s.meta] + [id]])
  }

  /** The first block of an empty slab, whose memory is at a. */
  ghost function TakeEmpty(p: Params, y: Sma, id: nat, a: nat): (r: Sma)
    requires id < |y.slabs| && y.slabs[id].meta < |y.empty| == |y.partial| && |y.slabs[id].bits| > 0
  {
    var s := y.slabs[id];
    var b := seq(|s.bits|, k => k == 0);
    y.(slabs := y.slabs[id := s.(addr := Some(a), state := Partial, firstFree := 1, bits := b)],
       empty := y.empty[s.meta := Remove(y.empty[s.meta], id)],
       partial := y.partial[s.meta := [id] + y.partial[s.meta]],
       ncurrent := y.ncurrent + 1)
  }

  ghost function NewSlabs(n: nat, m: nat, junk: seq<bool>): (r: seq<Slab>)
    ensures |r| == n && forall i :: 0 <= i < n ==> r[i] == Slab(m, None, Empty, 0, junk)
  {
    seq(n, i => Slab(m, None, Empty, 0, junk))
  }

  ghost function NewIds(from: nat, n: nat): (r: seq<nat>)
    ensures |r| == n && forall i :: 0 <= i < n ==> r[i] == from + i
  {
    seq(n, i => from + i)
  }

  /** sma_meta_new: perMeta slabs without memory, their bitmaps holding anything. */
  ghost function AddMeta(p: Params, y: Sma, junk: seq<bool>): (r: Sma)
  {
    var m := |y.empty|;
    Sma(y.slabs + NewSlabs(p.perMeta, m, junk),
        y.empty + [NewIds(|y.slabs|, p.perMeta)], y.partial + [[]], y.full + [[]],
        [m] + y.order, y.ncurrent)
  }

  /** sma_free once the slab and the block are known. */
  ghost function GiveBack(p: Params, y: Sma, id: nat, k: nat): (r: Sma)
    requires Inv(p, y) && id < |y.slabs| && y.slabs[id].state != Empty && k < p.count
  {
    var s := y.slabs[id];
    var m := s.meta;
    var s' := DropBit(p, s, k);
    var y1 := y.(ncurrent := y.ncurrent - 1);
    if s.state == Full then
      y1.(slabs := y.slabs[id := s'], full := y.full[m := Remove(y.full[m], id)],
          partial := y.partial[m := [id] + y.partial[m]])
    else if s'.state == Partial then y1.(slabs := y.slabs[id := s'])
    else
      var y2 := y1.(partial := y.partial[m := Remove(y.partial[m], id)]);
      assert y.empty[m] != [] ==> y.empty[m][0] in y.empty[m];
      if y.empty[m] != [] && y.slabs[y.empty[m][0]].addr.Some? then
        y2.(slabs := y.slabs[id := s'.(addr := None)], empty := y.empty[m := y.empty[m] + [id]])
      else y2.(slabs := y.slabs[id := s'], empty := y.empty[m := [id] + y.empty[m]])
  }

  // ----- what they keep -----

  /** All three lists of every meta after slab id became s. */
  lemma ListsAfter(y: Sma, y': Sma, id: nat, s: Slab)
    requires Lists(y) && id < |y.slabs| && s.meta == y.slabs[id].meta
    requires y'.slabs == y.slabs[id := s] && y'.order == y.order
    requires var m := s.meta;
             && (exists l :: y'.empty == y.empty[m := l] && ListIs(l, y'.slabs, m, Empty))
             && (exists l :: y'.partial == y.partial[m := l] && ListIs(l, y'.slabs, m, Partial))
             && (exists l :: y'.full == y.full[m := l] && ListIs(l, y'.slabs, m, Full))
    ensures Lists(y')
  {
    forall n | 0 <= n < |y.empty|
      ensures ListIs(y'.empty[n], y'.slabs, n, Empty)
      ensures ListIs(y'.partial[n], y'.slabs, n, Partial)
      ensures ListIs(y'.full[n], y'.slabs, n, Full)
    {
      if n != s.meta {
        ListStays(y.empty[n], y.slabs, n, Empty, id, s);
        ListStays(y.partial[n], y.slabs, n, Partial, id, s);
        ListStays(y.full[n], y.slabs, n, Full, id, s);
      }
    }
  }

  lemma TakePartialKeepsLists(p: Params, y: Sma, id: nat)
    requires Inv(p, y) && id < |y.slabs| && y.slabs[id].state == Partial
    ensures Lists(TakePartial(p, y, id))
  {
    var s := y.slabs[id];
    var m, s' := s.meta, TakeBit(p, s, s.firstFree);
    ListStays(y.empty[m], y.slabs, m, Empty, id, s');
    assert y.empty == y.empty[m := y.empty[m]];
    if s'.state == Full {
      ListLoses(y.partial[m], y.slabs, m, Partial, id, s');
      ListGains(y.full[m], y.slabs, m, Full, id, s');
    } else {
      ListStays(y.partial[m], y.slabs, m, Partial, id, s');
      ListStays(y.full[m], y.slabs, m, Full, id, s');
      assert y.partial == y.partial[m := y.partial[m]] && y.full == y.full[m := y.full[m]];
    }
    ListsAfter(y, TakePartial(p, y, id), id, s');
  }

  /** A change of one slab that leaves its memory where it was, or takes it away. */
  lemma MemoryAfter(p: Params, slabs: seq<Slab>, id: nat, s: Slab)
    requires Disjoint(p, slabs) && id < |slabs| && (s.addr == slabs[id].addr || s.addr == None)
    ensures Disjoint(p, slabs[id := s])
  {
  }

  lemma TakePartialKeepsInv(p: Params, y: Sma, id: nat)
    requires Inv(p, y) && id < |y.slabs| && y.slabs[id].state == Partial
    ensures Inv(p, TakePartial(p, y, id))
  {
    var s := y.slabs[id];
    var s' := TakeBit(p, s, s.firstFree);
    TakeFirstFree(p, s);
    TakePartialKeepsLists(p, y, id);
    MemoryAfter(p, y.slabs, id, s');
    TotalUpdate(y.slabs, id, s');
    CountSetUpdate(s.bits, s.firstFree, true);
    HeadsAfter(y, TakePartial(p, y, id), id, s');
  }

  /** The empty lists did not change and the slab that changed is not on them. */
  lemma HeadsAfter(y: Sma, y': Sma, id: nat, s: Slab)
    requires Lists(y) && Heads(y) && Lists(y') && y'.empty == y.empty
    requires id < |y.slabs| && y.slabs[id].state != Empty && y'.slabs == y.slabs[id := s]
    ensures Heads(y')
  {
    forall m, j | 0 <= m < |y'.empty| && 0 < j < |y'.empty[m]|
      ensures y'.empty[m][j] < |y'.slabs| && y'.slabs[y'.empty[m][j]].addr.None?
    {
      var x := y.empty[m][j];
      assert x in y.empty[m];
    }
  }

  // ----- taking from an empty slab -----

  lemma FreshSlabOk(p: Params, s: Slab, a: nat)
    requires ValidParams(p) && SlabOk(p, s)
    ensures var b := seq(|s.bits|, k => k == 0);
            && SlabOk(p, s.(addr := Some(a), state := Partial, firstFree := 1, bits := b))
            && CountSet(b) == 1
  {
    var b := seq(|s.bits|, k => k == 0);
    assert b[0];
    var z := b[0 := false];
    CountSetZero(z);
    CountSetUpdate(z, 0, true);
    assert z[0 := true] == b;
  }

  lemma TakeEmptyKeepsLists(p: Params, y: Sma, id: nat, a: nat)
    requires Inv(p, y) && id < |y.slabs| && y.slabs[id].state == Empty
    ensures Lists(TakeEmpty(p, y, id, a))
  {
    var s := y.slabs[id];
    var m, s' := s.meta, TakeEmpty(p, y, id, a).slabs[id];
    ListLoses(y.empty[m], y.slabs, m, Empty, id, s');
    ListGains(y.partial[m], y.slabs, m, Partial, id, s');
    ListStays(y.full[m], y.slabs, m, Full, id, s');
    assert y.full == y.full[m := y.full[m]];
    ListsAfter(y, TakeEmpty(p, y, id, a), id, s');
  }

  /** Taking the head away leaves an empty list without memory. */
  lemma TakeEmptyKeepsHeads(p: Params, y: Sma, id: nat, a: nat)
    requires Inv(p, y) && id < |y.slabs| && y.slabs[id].state == Empty
    requires y.empty[y.slabs[id].meta] != [] && y.empty[y.slabs[id].meta][0] == id
    ensures Lists(TakeEmpty(p, y, id, a)) && Heads(TakeEmpty(p, y, id, a))
  {
    TakeEmptyKeepsLists(p, y, id, a);
    var y' := TakeEmpty(p, y, id, a);
    var h := y.slabs[id].meta;
    assert y'.empty[h] == y.empty[h][1..];
    forall m, j | 0 <= m < |y'.empty| && 0 < j < |y'.empty[m]|
      ensures y'.empty[m][j] < |y'.slabs| && y'.slabs[y'.empty[m][j]].addr.None?
    {
      var x := y'.empty[m][j];
      assert x in y'.empty[m];
      assert x == y.empty[m][if m == h then j + 1 else j];
    }
  }

  lemma TakeEmptyKeepsInv(p: Params, y: Sma, id: nat, a: nat)
    requires Inv(p, y) && id < |y.slabs| && y.slabs[id].state == Empty
    requires y.empty[y.slabs[id].meta] != [] && y.empty[y.slabs[id].meta][0] == id
    requires y.slabs[id].addr == Some(a) || (y.slabs[id].addr == None && FreshMem(p, y.slabs, a))
    ensures Inv(p, TakeEmpty(p, y, id, a))
  {
    var s := y.slabs[id];
    var s' := TakeEmpty(p, y, id, a).slabs[id];
    FreshSlabOk(p, s, a);
    TakeEmptyKeepsHeads(p, y, id, a);
    TotalUpdate(y.slabs, id, s');
  }

  // ----- a new meta page -----

  /** A new meta's slabs are none of the old metas' business. */
  lemma ListKept(l: seq<nat>, slabs: seq<Slab>, more: seq<Slab>, k: nat, st: SlabState)
    requires ListIs(l, slabs, k, st) && forall i :: 0 <= i < |more| ==> more[i].meta != k
    ensures ListIs(l, slabs + more, k, st)
  {
    var all := slabs + more;
    forall id ensures id in l <==> 0 <= id < |all| && all[id].meta == k && all[id].state == st {
      if |slabs| <= id < |all| { assert all[id] == more[id - |slabs|]; }
    }
  }

  lemma NewLists(slabs: seq<Slab>, n: nat, m: nat, junk: seq<bool>)
    requires forall i :: 0 <= i < |slabs| ==> slabs[i].meta != m
    ensures var all := slabs + NewSlabs(n, m, junk);
            && ListIs(NewIds(|slabs|, n), all, m, Empty) && ListIs([], all, m, Partial) && ListIs([], all, m, Full)
  {
    var all, l := slabs + NewSlabs(n, m, junk), NewIds(|slabs|, n);
    forall id ensures id in l <==> 0 <= id < |all| && all[id].meta == m && all[id].state == Empty {
      if |slabs| <= id < |all| { assert l[id - |slabs|] == id; }
    }
  }

  lemma AddMetaKeepsLists(p: Params, y: Sma, junk: seq<bool>)
    requires Inv(p, y)
    ensures Lists(AddMeta(p, y, junk))
  {
    var y', m := AddMeta(p, y, junk), |y.empty|;
    var more := NewSlabs(p.perMeta, m, junk);
    NewLists(y.slabs, p.perMeta, m, junk);
    InsertNoDup(y.order, 0, m);
    assert y.order[..0] + [m] + y.order[0..] == [m] + y.order;
    forall k | 0 <= k < |y'.empty|
      ensures ListIs(y'.empty[k], y'.slabs, k, Empty)
      ensures ListIs(y'.partial[k], y'.slabs, k, Partial)
      ensures ListIs(y'.full[k], y'.slabs, k, Full)
    {
      if k < m {
        ListKept(y.empty[k], y.slabs, more, k, Empty);
        ListKept(y.partial[k], y.slabs, more, k, Partial);
        ListKept(y.full[k], y.slabs, more, k, Full);
      }
    }
  }

  lemma AddMetaKeepsInv(p: Params, y: Sma, junk: seq<bool>)
    requires Inv(p, y) && |junk| == p.words * BPW
    ensures Inv(p, AddMeta(p, y, junk))
  {
    AddMetaKeepsLists(p, y, junk);
    var y' := AddMeta(p, y, junk);
    TotalAppend(y.slabs, NewSlabs(p.perMeta, |y.empty|, junk));
    forall m, j | 0 <= m < |y'.empty| && 0 < j < |y'.empty[m]|
      ensures y'.empty[m][j] < |y'.slabs| && y'.slabs[y'.empty[m][j]].addr.None?
    {
      var x := y'.empty[m][j];
      assert x in y'.empty[m];
      if m < |y.empty| { assert x == y.empty[m][j] && x in y.empty[m]; }
    }
  }

  // ----- giving back -----

  /** The slab as GiveBack leaves it. */
  ghost function Returned(p: Params, y: Sma, id: nat, k: nat): (s: Slab)
    requires Inv(p, y) && id < |y.slabs| && y.slabs[id].state != Empty && k < p.count
    ensures GiveBack(p, y, id, k).slabs == y.slabs[id := s]
  {
    GiveBack(p, y, id, k).slabs[id]
  }

  lemma GiveBackKeepsLists(p: Params, y: Sma, id: nat, k: nat)
    requires Inv(p, y) && id < |y.slabs| && y.slabs[id].state != Empty && k < p.count && y.slabs[id].bits[k]
    ensures Lists(GiveBack(p, y, id, k))
  {
    var s, r := y.slabs[id], Returned(p, y, id, k);
    var m := s.meta;
    DropKeepsOk(p, s, k);
    if s.state == Full {
      ListLoses(y.full[m], y.slabs, m, Full, id, r);
      ListGains(y.partial[m], y.slabs, m, Partial, id, r);
      ListStays(y.empty[m], y.slabs, m, Empty, id, r);
      assert y.empty == y.empty[m := y.empty[m]];
    } else if r.state == Partial {
      ListStays(y.empty[m], y.slabs, m, Empty, id, r);
      ListStays(y.partial[m], y.slabs, m, Partial, id, r);
      ListStays(y.full[m], y.slabs, m, Full, id, r);
      assert y.empty == y.empty[m := y.empty[m]] && y.partial == y.partial[m := y.partial[m]];
      assert y.full == y.full[m := y.full[m]];
    } else {
      ListLoses(y.partial[m], y.slabs, m, Partial, id, r);
      ListGains(y.empty[m], y.slabs, m, Empty, id, r);
      ListStays(y.full[m], y.slabs, m, Full, id, r);
      assert y.full == y.full[m := y.full[m]];
    }
    ListsAfter(y, GiveBack(p, y, id, k), id, r);
  }

  lemma GiveBackKeepsHeads(p: Params, y: Sma, id: nat, k: nat)
    requires Inv(p, y) && id < |y.slabs| && y.slabs[id].state != Empty && k < p.count && y.slabs[id].bits[k]
    ensures Lists(GiveBack(p, y, id, k)) && Heads(GiveBack(p, y, id, k))
  {
    GiveBackKeepsLists(p, y, id, k);
    var y', r := GiveBack(p, y, id, k), Returned(p, y, id, k);
    var h := r.meta;
    forall m, j | 0 <= m < |y'.empty| && 0 < j < |y'.empty[m]|
      ensures y'.empty[m][j] < |y'.slabs| && y'.slabs[y'.empty[m][j]].addr.None?
    {
      var x := y'.empty[m][j];
      assert x in y'.empty[m];
      if m == h && r.state == Empty && x != id {
        var i := if y.empty[h] != [] && y.slabs[y.empty[h][0]].addr.Some? then j else j - 1;
        assert x == y.empty[h][i] && x in y.empty[h];
      }
    }
  }

  lemma GiveBackKeepsInv(p: Params, y: Sma, id: nat, k: nat)
    requires Inv(p, y) && id < |y.slabs| && y.slabs[id].state != Empty && k < p.count && y.slabs[id].bits[k]
    ensures Inv(p, GiveBack(p, y, id, k))
  {
    var s, r := y.slabs[id], Returned(p, y, id, k);
    DropKeepsOk(p, s, k);
    GiveBackKeepsHeads(p, y, id, k);
    MemoryAfter(p, y.slabs, id, r);
    TotalUpdate(y.slabs, id, r);
    CountSetUpdate(s.bits, k, false);
    CountSetZero(r.bits);
  }

  // ----- which blocks are live -----

  /** Only slab id changed, and of its places only k, which is now live exactly if on. */
  ghost predicate Changed(p: Params, y: Sma, y': Sma, id: nat, k: nat, on: bool)
  {
    && Inv(p, y) && Inv(p, y') && id < |y.slabs| == |y'.slabs| && k < p.count
    && (forall i :: 0 <= i < |y.slabs| && i != id ==> y'.slabs[i] == y.slabs[i])
    && (forall l :: 0 <= l < p.count ==> (LiveAt(p, y', id, l) <==> if l == k then on else LiveAt(p, y, id, l)))
    && (on ==> y'.slabs[id].addr.Some? && (y.slabs[id].addr == y'.slabs[id].addr || y.slabs[id].state == Empty))
    && (!on ==> y.slabs[id].addr.Some? && (y'.slabs[id].addr == y.slabs[id].addr || y'.slabs[id].state == Empty))
  }

  lemma LiveWas(p: Params, y: Sma, y': Sma, id: nat, k: nat, on: bool, b: nat)
    requires Changed(p, y, y', id, k, on) && Live(p, y', b)
    ensures if b == BlockAddr(p, if on then y'.slabs[id] else y.slabs[id], k) then on else Live(p, y, b)
  {
    var i: nat, l: nat :| LiveAt(p, y', i, l) && b == BlockAddr(p, y'.slabs[i], l);
    if (i, l) != (id, k) {
      assert LiveAt(p, y, i, l) && y.slabs[i].addr == y'.slabs[i].addr;
      if on { PlacesApart(p, y', i, l, id, k); } else { PlacesApart(p, y, i, l, id, k); }
    }
  }

  lemma LiveStays(p: Params, y: Sma, y': Sma, id: nat, k: nat, on: bool, b: nat)
    requires Changed(p, y, y', id, k, on) && Live(p, y, b)
    requires b != BlockAddr(p, if on then y'.slabs[id] else y.slabs[id], k)
    ensures Live(p, y', b)
  {
    var i: nat, l: nat :| LiveAt(p, y, i, l) && b == BlockAddr(p, y.slabs[i], l);
    assert LiveAt(p, y', i, l) && y'.slabs[i].addr == y.slabs[i].addr;
  }

  /** After one slab changed, the live places are the old ones except as its bits say. */
  lemma LiveAfter(p: Params, y: Sma, y': Sma, id: nat, k: nat, on: bool)
    requires Changed(p, y, y', id, k, on)
    ensures forall b :: Live(p, y', b) <==>
              if b == BlockAddr(p, if on then y'.slabs[id] else y.slabs[id], k) then on else Live(p, y, b)
  {
    var a := BlockAddr(p, if on then y'.slabs[id] else y.slabs[id], k);
    assert on ==> LiveAt(p, y', id, k);
    forall b
      ensures Live(p, y', b) <==> if b == a then on else Live(p, y, b)
    {
      if Live(p, y', b) { LiveWas(p, y, y', id, k, on, b); }
      if Live(p, y, b) && b != a { LiveStays(p, y, y', id, k, on, b); }
    }
  }

  // ----- sma_alloc -----

  /** The first meta of the list, from position i, whose lists l are not empty. */
  ghost function FirstWith(order: seq<nat>, l: seq<seq<nat>>, i: nat): (r: Option<nat>)
    requires i <= |order| && forall j :: 0 <= j < |order| ==> order[j] < |l|
    ensures r.Some? ==> r.value in order && r.value < |l| && l[r.value] != []
    ensures r.None? ==> forall j :: i <= j < |order| ==> l[order[j]] == []
    decreases |order| - i
  {
    if i == |order| then None
    else if l[order[i]] != [] then Some(order[i])
    else FirstWith(order, l, i + 1)
  }

  datatype Allocated =
    | Block(y: Sma, a: nat)
    | OutOfMemory
    | DanglingMeta     // a meta page was freed while still on the list

  /** get_free_block; mem is what vmalloc answers if the slab needs memory. */
  ghost function GetFreeBlock(p: Params, y: Sma, mem: Option<nat>): (r: Option<(Sma, nat)>)
    requires Inv(p, y)
  {
    assert forall j :: 0 <= j < |y.order| ==> y.order[j] in y.order;
    match FirstWith(y.order, y.partial, 0)
    case Some(m) =>
      var id := y.partial[m][0];
      assert id in y.partial[m];
      Some((TakePartial(p, y, id), BlockAddr(p, y.slabs[id], y.slabs[id].firstFree)))
    case None =>
      match FirstWith(y.order, y.empty, 0)
      case None => None
      case Some(m) =>
        var id := y.empty[m][0];
        assert id in y.empty[m];
        if y.slabs[id].addr.Some? then Some((TakeEmpty(p, y, id, y.slabs[id].addr.value), y.slabs[id].addr.value))
        else if mem.None? then None
        else Some((TakeEmpty(p, y, id, mem.value), mem.value))
  }

  /** sma_alloc; mem, page and mem2 are what vmalloc answers for a slab, for a meta page and for
      the first slab of that page. */
  ghost function Alloc(p: Params, y: Sma, mem: Option<nat>, page: bool, mem2: Option<nat>, junk: seq<bool>)
    : (r: Allocated)
    requires Inv(p, y) && |junk| == p.words * BPW
  {
    match GetFreeBlock(p, y, mem)
    case Some(g) => Block(g.0, g.1)
    case None =>
      if !page then OutOfMemory
      else if mem2.None? then DanglingMeta
      else Block(TakeEmpty(p, AddMeta(p, y, junk), |y.slabs|, mem2.value), mem2.value)
  }

  ghost predicate Fresh(p: Params, y: Sma, mem: Option<nat>)
  {
    mem.Some? ==> FreshMem(p, y.slabs, mem.value)
  }

  /** What the caller of sma_alloc gets: a block that was not live, and nothing else changes. */
  ghost predicate Grants(p: Params, y: Sma, y': Sma, a: nat)
  {
    && Inv(p, y') && a > 0
    && !Live(p, y, a) && forall b :: Live(p, y', b) <==> b == a || Live(p, y, b)
  }

  lemma TakePartialGrants(p: Params, y: Sma, id: nat)
    requires Inv(p, y) && id < |y.slabs| && y.slabs[id].state == Partial
    ensures Grants(p, y, TakePartial(p, y, id), BlockAddr(p, y.slabs[id], y.slabs[id].firstFree))
  {
    var y', k := TakePartial(p, y, id), y.slabs[id].firstFree;
    TakePartialKeepsInv(p, y, id);
    LiveAfter(p, y, y', id, k, true);
    NotLiveAt(p, y, id, k);
  }

  /** A clear bit of a slab with memory is not a live block under any name. */
  lemma NotLiveAt(p: Params, y: Sma, id: nat, k: nat)
    requires Inv(p, y) && id < |y.slabs| && y.slabs[id].addr.Some? && k < p.count && !LiveAt(p, y, id, k)
    ensures !Live(p, y, BlockAddr(p, y.slabs[id], k))
  {
    forall i: nat, l: nat | LiveAt(p, y, i, l)
      ensures BlockAddr(p, y.slabs[i], l) != BlockAddr(p, y.slabs[id], k)
    {
      PlacesApart(p, y, i, l, id, k);
    }
  }

  /** Fresh memory holds no live block. */
  lemma NotLiveFresh(p: Params, y: Sma, a: nat)
    requires Inv(p, y) && FreshMem(p, y.slabs, a)
    ensures !Live(p, y, a)
  {
    forall i: nat, l: nat | LiveAt(p, y, i, l) ensures BlockAddr(p, y.slabs[i], l) != a {
      BlockInside(p, y.slabs[i], l);
    }
  }

  lemma TakeEmptyGrants(p: Params, y: Sma, id: nat, a: nat)
    requires Inv(p, y) && id < |y.slabs| && y.slabs[id].state == Empty
    requires y.empty[y.slabs[id].meta] != [] && y.empty[y.slabs[id].meta][0] == id
    requires y.slabs[id].addr == Some(a) || (y.slabs[id].addr == None && FreshMem(p, y.slabs, a))
    ensures Grants(p, y, TakeEmpty(p, y, id, a), a)
  {
    var y' := TakeEmpty(p, y, id, a);
    TakeEmptyKeepsInv(p, y, id, a);
    LiveAfter(p, y, y', id, 0, true);
    if y.slabs[id].addr == Some(a) { NotLiveAt(p, y, id, 0); } else { NotLiveFresh(p, y, a); }
  }

  lemma AddMetaKeepsLive(p: Params, y: Sma, junk: seq<bool>, b: nat)
    requires Inv(p, y)
    ensures Live(p, AddMeta(p, y, junk), b) <==> Live(p, y, b)
  {
    var y' := AddMeta(p, y, junk);
    if Live(p, y', b) {
      var i: nat, k: nat :| LiveAt(p, y', i, k) && b == BlockAddr(p, y'.slabs[i], k);
      assert LiveAt(p, y, i, k);
    }
    if Live(p, y, b) {
      var i: nat, k: nat :| LiveAt(p, y, i, k) && b == BlockAddr(p, y.slabs[i], k);
      assert LiveAt(p, y', i, k);
    }
  }

  lemma NewMetaGrants(p: Params, y: Sma, a: nat, junk: seq<bool>)
    requires Inv(p, y) && |junk| == p.words * BPW && FreshMem(p, y.slabs, a)
    ensures Grants(p, y, TakeEmpty(p, AddMeta(p, y, junk), |y.slabs|, a), a)
  {
    var y1 := AddMeta(p, y, junk);
    AddMetaKeepsInv(p, y, junk);
    TakeEmptyGrants(p, y1, |y.slabs|, a);
    forall b ensures Live(p, y1, b) <==> Live(p, y, b) { AddMetaKeepsLive(p, y, junk, b); }
  }

  /** sma_alloc returns a block that was not live and overlaps no live block, and keeps every
      bookkeeping invariant. */
  lemma AllocGrants(p: Params, y: Sma, mem: Option<nat>, page: bool, mem2: Option<nat>, junk: seq<bool>)
    requires Inv(p, y) && |junk| == p.words * BPW && Fresh(p, y, mem) && Fresh(p, y, mem2)
    ensures var r := Alloc(p, y, mem, page, mem2, junk); r.Block? ==> Grants(p, y, r.y, r.a)
  {
    assert forall j :: 0 <= j < |y.order| ==> y.order[j] in y.order;
    var pm, em := FirstWith(y.order, y.partial, 0), FirstWith(y.order, y.empty, 0);
    if pm.Some? {
      assert y.partial[pm.value][0] in y.partial[pm.value];
      TakePartialGrants(p, y, y.partial[pm.value][0]);
    } else if GetFreeBlock(p, y, mem).Some? {
      var id := y.empty[em.value][0];
      assert id in y.empty[em.value];
      TakeEmptyGrants(p, y, id, if y.slabs[id].addr.Some? then y.slabs[id].addr.value else mem.value);
    } else if page && mem2.Some? {
      NewMetaGrants(p, y, mem2.value, junk);
    }
  }

  /** The empty slab get_free_block would use has no memory. */
  ghost predicate BareEmpty(p: Params, y: Sma)
    requires Inv(p, y)
  {
    assert forall j :: 0 <= j < |y.order| ==> y.order[j] in y.order;
    match FirstWith(y.order, y.empty, 0)
    case None => false
    case Some(m) =>
      assert y.empty[m][0] in y.empty[m];
      y.slabs[y.empty[m][0]].addr.None?
  }

  /** Nothing can be had without a new meta page: every slab is full, or none is partial, the empty one
      at hand has no memory, and memory for it cannot be had. */
  ghost predicate Exhausted(p: Params, y: Sma, mem: Option<nat>)
    requires Inv(p, y)
  {
    || (forall id :: 0 <= id < |y.slabs| ==> y.slabs[id].state == Full)
    || ((forall id :: 0 <= id < |y.slabs| ==> y.slabs[id].state != Partial) && mem.None? && BareEmpty(p, y))
  }

  /** A list that no meta page has anything on holds no slab. */
  lemma ListsAreEmpty(p: Params, y: Sma, id: nat)
    requires Inv(p, y) && id < |y.slabs|
    ensures forall j :: 0 <= j < |y.order| ==> y.order[j] < |y.partial| && y.order[j] < |y.empty|
    ensures FirstWith(y.order, y.partial, 0).None? ==> y.slabs[id].state != Partial
    ensures FirstWith(y.order, y.empty, 0).None? ==> y.slabs[id].state != Empty
  {
    assert forall j :: 0 <= j < |y.order| ==> y.order[j] in y.order;
    var m := y.slabs[id].meta;
    assert m in y.order;
    var j :| 0 <= j < |y.order| && y.order[j] == m;
    assert FirstWith(y.order, y.partial, 0).None? ==> y.partial[m] == [] && id !in y.partial[m];
    assert FirstWith(y.order, y.empty, 0).None? ==> y.empty[m] == [] && id !in y.empty[m];
  }

  /** get_free_block comes back empty-handed exactly when nothing can be had. */
  lemma NullExactly(p: Params, y: Sma, mem: Option<nat>)
    requires Inv(p, y)
    ensures GetFreeBlock(p, y, mem).None? <==> Exhausted(p, y, mem)
  {
    assert forall j :: 0 <= j < |y.order| ==> y.order[j] in y.order;
    var pm, em := FirstWith(y.order, y.partial, 0), FirstWith(y.order, y.empty, 0);
    if pm.Some? { assert y.partial[pm.value][0] in y.partial[pm.value]; }
    if em.Some? { assert y.empty[em.value][0] in y.empty[em.value]; }
    forall id | 0 <= id < |y.slabs|
      ensures (pm.None? ==> y.slabs[id].state != Partial) && (em.None? ==> y.slabs[id].state != Empty)
    {
      ListsAreEmpty(p, y, id);
    }
  }

  /** The error path that frees a meta page without unlinking it is taken exactly when nothing can be
      had, a meta page can, and memory for its first slab cannot. */
  lemma DanglesExactly(p: Params, y: Sma, mem: Option<nat>, page: bool, mem2: Option<nat>, junk: seq<bool>)
    requires Inv(p, y) && |junk| == p.words * BPW
    ensures Alloc(p, y, mem, page, mem2, junk).DanglingMeta? <==> page && mem2.None? && Exhausted(p, y, mem)
  {
    NullExactly(p, y, mem);
  }

  /** It needs no full slab: it is enough that memory for slabs cannot be had. */
  lemma DanglesWithNothingFull(p: Params, junk: seq<bool>)
    requires ValidParams(p) && |junk| == p.words * BPW
    ensures var y := AddMeta(p, Sma([], [], [], [], [], 0), junk);
            Inv(p, y) && y.slabs[0].state == Empty && Alloc(p, y, None, true, None, junk).DanglingMeta?
  {
    var none := Sma([], [], [], [], [], 0);
    InitialInv(p);
    AddMetaKeepsInv(p, none, junk);
    var y := AddMeta(p, none, junk);
    assert y.order == [0] && y.empty[0][0] == 0;
    assert FirstWith(y.order, y.empty, 0) == Some(0);
    assert BareEmpty(p, y);
    DanglesExactly(p, y, None, true, None, junk);
  }

  // ----- sma_free -----

  /** slab_contains, and the block it computes. */
  ghost predicate Contains(p: Params, s: Slab, ptr: nat)
    requires p.dataSize > 0
  {
    && s.addr.Some? && s.addr.value <= ptr < s.addr.value + p.dataSize * p.count
    && s.addr.value + p.dataSize * ((ptr - s.addr.value) / p.dataSize) == ptr
  }

  ghost function Item(p: Params, s: Slab, ptr: nat): nat
    requires p.dataSize > 0 && s.addr.Some? && s.addr.value <= ptr
  {
    (ptr - s.addr.value) / p.dataSize
  }

  lemma DivMul(k: nat, d: nat)
    requires d > 0
    ensures (k * d) / d == k
  {
    var q := (k * d) / d;
    assert q * d <= k * d < q * d + d;
    if q < k { MulMono(q, k, d); }
    if k < q { MulMono(k, q, d); }
  }

  lemma ContainsIsBlock(p: Params, s: Slab, ptr: nat, k: nat)
    requires p.dataSize > 0 && s.addr.Some? && k < p.count
    ensures ptr == BlockAddr(p, s, k) <==> Contains(p, s, ptr) && Item(p, s, ptr) == k
  {
    if ptr == BlockAddr(p, s, k) {
      DivMul(k, p.dataSize);
      MulMono(k, p.count, p.dataSize);
    }
  }

  lemma ItemInRange(p: Params, s: Slab, ptr: nat)
    requires p.dataSize > 0 && Contains(p, s, ptr)
    ensures Item(p, s, ptr) < p.count && ptr == BlockAddr(p, s, Item(p, s, ptr))
  {
    var k := Item(p, s, ptr);
    if k >= p.count { MulLe(p.count, k, p.dataSize); }
  }

  lemma MulLe(a: nat, b: nat, d: nat)
    requires a <= b
    ensures a * d <= b * d
  {
  }

  /** The first slab of list l that contains ptr. */
  ghost function FindIn(p: Params, slabs: seq<Slab>, l: seq<nat>, ptr: nat): (r: Option<nat>)
    requires p.dataSize > 0 && forall i :: 0 <= i < |l| ==> l[i] < |slabs|
    ensures r.Some? ==> r.value in l && r.value < |slabs| && Contains(p, slabs[r.value], ptr)
    ensures r.None? ==> forall i :: 0 <= i < |l| ==> !Contains(p, slabs[l[i]], ptr)
  {
    if l == [] then None
    else if Contains(p, slabs[l[0]], ptr) then Some(l[0])
    else
      assert forall i :: 1 <= i < |l| ==> l[i] == l[1..][i - 1];
      FindIn(p, slabs, l[1..], ptr)
  }

  /** The lists find_ptr_slab searches, one after the other. */
  ghost function Candidates(y: Sma, i: nat): (l: seq<nat>)
    requires Lists(y) && i <= |y.order|
    ensures forall j :: 0 <= j < |l| ==> l[j] < |y.slabs|
    decreases |y.order| - i
  {
    if i == |y.order| then []
    else
      assert y.order[i] in y.order;
      var m := y.order[i];
      assert forall j :: 0 <= j < |y.partial[m]| ==> y.partial[m][j] in y.partial[m];
      assert forall j :: 0 <= j < |y.full[m]| ==> y.full[m][j] in y.full[m];
      y.partial[m] + y.full[m] + Candidates(y, i + 1)
  }

  datatype Freed = Done(y: Sma) | Einval | DoubleFree

  ghost function Free(p: Params, y: Sma, ptr: nat): (r: Freed)
    requires Inv(p, y)
  {
    if ptr == 0 then Einval
    else
      match FindIn(p, y.slabs, Candidates(y, 0), ptr)
      case None => Einval
      case Some(id) =>
        var s := y.slabs[id];
        var k := Item(p, s, ptr);
        ItemInRange(p, s, ptr);
        if k >= |s.bits| || s.state == Empty || !s.bits[k] then DoubleFree else Done(GiveBack(p, y, id, k))
  }

  lemma {:induction false} CandidatesHave(y: Sma, i: nat, j: nat, id: nat)
    requires Lists(y) && i <= j < |y.order| && id < |y.slabs|
    requires y.slabs[id].meta == y.order[j] && y.slabs[id].state != Empty
    ensures id in Candidates(y, i)
    decreases j - i
  {
    if i == j {
      assert y.order[i] in y.order;
      assert id in y.partial[y.order[i]] || id in y.full[y.order[i]];
    } else {
      CandidatesHave(y, i + 1, j, id);
    }
  }

  lemma {:induction false} CandidatesInUse(y: Sma, i: nat)
    requires Lists(y) && i <= |y.order|
    ensures forall id :: id in Candidates(y, i) ==> id < |y.slabs| && y.slabs[id].state != Empty
    decreases |y.order| - i
  {
    if i < |y.order| {
      assert y.order[i] in y.order;
      CandidatesInUse(y, i + 1);
    }
  }

  /** The search finds the slab whose block ptr is, if there is one among the slabs in use. */
  lemma FindsTheSlab(p: Params, y: Sma, ptr: nat, id: nat, k: nat)
    requires Inv(p, y) && id < |y.slabs| && y.slabs[id].state != Empty && k < p.count
    requires ptr == BlockAddr(p, y.slabs[id], k)
    ensures FindIn(p, y.slabs, Candidates(y, 0), ptr) == Some(id) && Item(p, y.slabs[id], ptr) == k
  {
    ContainsIsBlock(p, y.slabs[id], ptr, k);
    assert y.slabs[id].meta in y.order;
    var j :| 0 <= j < |y.order| && y.order[j] == y.slabs[id].meta;
    CandidatesHave(y, 0, j, id);
    CandidatesInUse(y, 0);
    var r := FindIn(p, y.slabs, Candidates(y, 0), ptr);
    ItemInRange(p, y.slabs[r.value], ptr);
    PlaceIsUnique(p, y, r.value, Item(p, y.slabs[r.value], ptr), id, k);
  }

  /** sma_free frees exactly the live blocks: the block it is given stops being live and every
      other block stays as it was. */
  lemma FreeExact(p: Params, y: Sma, ptr: nat)
    requires Inv(p, y)
    ensures Free(p, y, ptr).Done? <==> Live(p, y, ptr)
    ensures Free(p, y, ptr).Done? ==>
              && Inv(p, Free(p, y, ptr).y)
              && forall b :: Live(p, Free(p, y, ptr).y, b) <==> b != ptr && Live(p, y, b)
  {
    if Live(p, y, ptr) {
      var id: nat, k: nat :| LiveAt(p, y, id, k) && ptr == BlockAddr(p, y.slabs[id], k);
      FindsTheSlab(p, y, ptr, id, k);
    }
    if Free(p, y, ptr).Done? {
      var id := FindIn(p, y.slabs, Candidates(y, 0), ptr).value;
      var k := Item(p, y.slabs[id], ptr);
      ItemInRange(p, y.slabs[id], ptr);
      assert LiveAt(p, y, id, k);
      GiveBackKeepsInv(p, y, id, k);
      GiveBackDrops(p, y, id, k);
    }
  }

  lemma GiveBackDrops(p: Params, y: Sma, id: nat, k: nat)
    requires Inv(p, y) && LiveAt(p, y, id, k) && Inv(p, GiveBack(p, y, id, k))
    ensures forall b :: Live(p, GiveBack(p, y, id, k), b) <==> b != BlockAddr(p, y.slabs[id], k) && Live(p, y, b)
  {
    var y', s, r := GiveBack(p, y, id, k), y.slabs[id], Returned(p, y, id, k);
    assert y'.slabs == y.slabs[id := r] && r.bits == s.bits[k := false];
    forall l | 0 <= l < p.count ensures LiveAt(p, y', id, l) <==> l != k && LiveAt(p, y, id, l) {
      assert r.state == Empty ==> !s.bits[k := false][l];
    }
    LiveAfter(p, y, y', id, k, false);
  }

  /** Freeing a block of a slab in use that is not live is the double free the kernel panics on. */
  lemma DoubleFreeExact(p: Params, y: Sma, ptr: nat)
    requires Inv(p, y)
    ensures Free(p, y, ptr).DoubleFree? <==>
            && !Live(p, y, ptr)
            && exists id, k :: 0 <= id < |y.slabs| && y.slabs[id].state != Empty && 0 <= k < p.count
                               && ptr == BlockAddr(p, y.slabs[id], k)
  {
    FreeExact(p, y, ptr);
    if exists id, k :: 0 <= id < |y.slabs| && y.slabs[id].state != Empty && 0 <= k < p.count
                       && ptr == BlockAddr(p, y.slabs[id], k)
    {
      var id, k :| 0 <= id < |y.slabs| && y.slabs[id].state != Empty && 0 <= k < p.count
                   && ptr == BlockAddr(p, y.slabs[id], k);
      FindsTheSlab(p, y, ptr, id, k);
    }
    if Free(p, y, ptr).DoubleFree? {
      var id := FindIn(p, y.slabs, Candidates(y, 0), ptr).value;
      CandidatesInUse(y, 0);
      ItemInRange(p, y.slabs[id], ptr);
    }
  }

  // ----- every run -----

  datatype Event =
    | AllocEvent(mem: Option<nat>, page: bool, mem2: Option<nat>, junk: seq<bool>)
    | FreeEvent(ptr: nat)

  /** What the environment may do: vmalloc hands out memory that is not in use. */
  ghost predicate Enabled(p: Params, y: Sma, e: Event)
  {
    match e
    case AllocEvent(mem, page, mem2, junk) => |junk| == p.words * BPW && Fresh(p, y, mem) && Fresh(p, y, mem2)
    case FreeEvent(ptr) => true
  }

  /** The state after the event; None where the kernel panics or is left with a freed meta page. */
  ghost function Step(p: Params, y: Sma, e: Event): (r: Option<Sma>)
    requires Inv(p, y) && Enabled(p, y, e)
    ensures r.Some? ==> Inv(p, r.value)
  {
    match e
    case AllocEvent(mem, page, mem2, junk) =>
      AllocGrants(p, y, mem, page, mem2, junk);
      (match Alloc(p, y, mem, page, mem2, junk)
       case Block(y', a) => Some(y')
       case OutOfMemory => Some(y)
       case DanglingMeta => None)
    case FreeEvent(ptr) =>
      FreeExact(p, y, ptr);
      (match Free(p, y, ptr)
       case Done(y') => Some(y')
       case Einval => Some(y)
       case DoubleFree => None)
  }

  /** After any run: each slab is on exactly the list its state names and its state is what its
      bitmap says, first_free is the least clear bit of a partial slab, only the head of an empty
      list keeps memory, and ncurrent is the number of set bits. */
  ghost function Run(p: Params, y: Sma, es: seq<Event>): (r: Option<Sma>)
    requires Inv(p, y)
    ensures r.Some? ==> Inv(p, r.value)
    decreases |es|
  {
    if es == [] then Some(y)
    else if !Enabled(p, y, es[0]) || Step(p, y, es[0]).None? then None
    else Run(p, Step(p, y, es[0]).value, es[1..])
  }

  lemma InitialInv(p: Params)
    requires ValidParams(p)
    ensures Inv(p, Sma([], [], [], [], [], 0))
  {
  }

  /** A block handed out by sma_alloc can be freed, and freeing it restores the set of live blocks. */
  lemma AllocFreeRoundTrip(p: Params, y: Sma, mem: Option<nat>, page: bool, mem2: Option<nat>, junk: seq<bool>)
    requires Inv(p, y) && Enabled(p, y, AllocEvent(mem, page, mem2, junk))
    requires Alloc(p, y, mem, page, mem2, junk).Block?
    ensures var r := Alloc(p, y, mem, page, mem2, junk);
            && Inv(p, r.y) && Free(p, r.y, r.a).Done?
            && forall b :: Live(p, Free(p, r.y, r.a).y, b) <==> Live(p, y, b)
  {
    AllocGrants(p, y, mem, page, mem2, junk);
    var r := Alloc(p, y, mem, page, mem2, junk);
    FreeExact(p, r.y, r.a);
  }

  // ----- the C code, in place -----

  /** The word and bit loops of update_first_free. */
  method ScanFirstFree(bits: seq<bool>, words: nat) returns (k: nat)
    requires |bits| == words * BPW
    ensures k == FirstClear(bits)
  {
    var i := 0;
    while i < words
      invariant 0 <= i <= words && AllSet(bits, 0, i * BPW)
    {
      var lo := i * BPW;
      if forall b :: lo <= b < lo + BPW ==> bits[b] {
        i := i + 1;
        continue;
      }
      if forall b :: lo <= b < lo + BPW ==> !bits[b] {
        FirstClearIs(bits, lo);
        return lo;
      }
      var j := 0;
      while j < BPW && bits[lo + j]
        invariant 0 <= j <= BPW && AllSet(bits, 0, lo + j)
      {
        j := j + 1;
      }
      FirstClearIs(bits, lo + j);
      return lo + j;
    }
    FirstClearIs(bits, |bits|);
    return |bits|;
  }

  lemma FirstClearIs(b: seq<bool>, k: nat)
    requires k <= |b| && AllSet(b, 0, k) && (k < |b| ==> !b[k])
    ensures FirstClear(b) == k
  {
  }

  class SlabCache {
    const p: Params
    var slabs: seq<Slab>
    var empty: seq<seq<nat>>
    var partial: seq<seq<nat>>
    var full: seq<seq<nat>>
    var order: seq<nat>
    var ncurrent: int

    ghost function S(): Sma
      reads this
    {
      Sma(slabs, empty, partial, full, order, ncurrent)
    }

    constructor (p: Params)
      requires ValidParams(p)
      ensures this.p == p && S() == Sma([], [], [], [], [], 0) && Inv(p, S())
    {
      this.p := p;
      slabs, empty, partial, full, order, ncurrent := [], [], [], [], [], 0;
      new;
      InitialInv(p);
    }

    /** The part of get_free_block that takes from a partial slab. */
    method TakeFromPartial(id: nat) returns (a: nat)
      requires Inv(p, S()) && id < |slabs| && slabs[id].state == Partial
      modifies this
      ensures S() == TakePartial(p, old(S()), id) && a == BlockAddr(p, old(slabs)[id], old(slabs)[id].firstFree)
    {
      var s := slabs[id];
      var k := s.firstFree;
      a := s.addr.value + k * p.dataSize;
      s := s.(bits := s.bits[k := true]);
      var f := ScanFirstFree(s.bits, p.words);
      if f >= p.count {
        partial := partial[s.meta := Remove(partial[s.meta], id)];
        s := s.(firstFree := NO_FREE, state := Full);
        full := full[s.meta := full[s.meta] + [id]];
      } else {
        s := s.(firstFree := f);
      }
      slabs := slabs[id := s];
      ncurrent := ncurrent + 1;
    }

    method TakeFromEmpty(id: nat, a: nat)
      requires id < |slabs| && slabs[id].meta < |empty| == |partial| && |slabs[id].bits| > 0
      requires slabs[id].addr.Some? ==> forall k :: 0 <= k < |slabs[id].bits| ==> !slabs[id].bits[k]
      modifies this
      ensures S() == TakeEmpty(p, old(S()), id, a)
    {
      var s := slabs[id];
      if s.addr.None? {
        s := s.(addr := Some(a), bits := seq(|s.bits|, _ => false));
      }
      empty := empty[s.meta := Remove(empty[s.meta], id)];
      s := s.(state := Partial, bits := s.bits[0 := true], firstFree := 1, addr := Some(a));
      assert s.bits == seq(|s.bits|, k => k == 0);
      partial := partial[s.meta := [id] + partial[s.meta]];
      slabs := slabs[id := s];
      ncurrent := ncurrent + 1;
    }

    method GetBlock(mem: Option<nat>) returns (a: Option<nat>)
      requires Inv(p, S())
      modifies this
      ensures match GetFreeBlock(p, old(S()), mem)
              case Some(g) => S() == g.0 && a == Some(g.1)
              case None => S() == old(S()) && a == None
    {
      ghost var y := S();
      assert forall j :: 0 <= j < |order| ==> order[j] in order;
      var i, found := 0, None;
      while i < |order|
        invariant 0 <= i <= |order| && S() == y
        invariant FirstWith(order, partial, i) == FirstWith(order, partial, 0)
        invariant found.None? ==> FirstWith(order, empty, i) == FirstWith(order, empty, 0)
        invariant found.Some? ==> found == FirstWith(order, empty, 0)
      {
        var m := order[i];
        if partial[m] != [] {
          assert partial[m][0] in partial[m];
          var b := TakeFromPartial(partial[m][0]);
          return Some(b);
        }
        if found.None? && empty[m] != [] { found := Some(m); }
        i := i + 1;
      }
      if found.None? { return None; }
      var id := empty[found.value][0];
      assert id in empty[found.value];
      if slabs[id].addr.None? && mem.None? { return None; }
      var addr := if slabs[id].addr.Some? then slabs[id].addr.value else mem.value;
      TakeFromEmpty(id, addr);
      return Some(addr);
    }

    method FindInList(l: seq<nat>, ptr: nat) returns (r: Option<nat>)
      requires p.dataSize > 0
      requires forall j :: 0 <= j < |l| ==> l[j] < |slabs| && slabs[l[j]].addr.Some?
      ensures r == FindIn(p, slabs, l, ptr)
    {
      var j := 0;
      while j < |l|
        invariant 0 <= j <= |l| && FindIn(p, slabs, l[j..], ptr) == FindIn(p, slabs, l, ptr)
      {
        assert l[j..][0] == l[j] && l[j..][1..] == l[j + 1..];
        var s := slabs[l[j]];
        if s.addr.value <= ptr < s.addr.value + p.dataSize * p.count
           && s.addr.value + p.dataSize * ((ptr - s.addr.value) / p.dataSize) == ptr {
          return Some(l[j]);
        }
        j := j + 1;
      }
      return None;
    }

    /** The two lists of one meta page. */
    method FindInMeta(m: nat, ptr: nat) returns (r: Option<nat>)
      requires p.dataSize > 0 && m < |partial| && m < |full|
      requires forall j :: 0 <= j < |partial[m]| ==> partial[m][j] < |slabs| && slabs[partial[m][j]].addr.Some?
      requires forall j :: 0 <= j < |full[m]| ==> full[m][j] < |slabs| && slabs[full[m][j]].addr.Some?
      ensures r == FindIn(p, slabs, partial[m] + full[m], ptr)
    {
      FindInConcat(p, slabs, partial[m], full[m], ptr);
      r := FindInList(partial[m], ptr);
      if r.None? { r := FindInList(full[m], ptr); }
    }

    /** The search of find_ptr_slab. */
    method FindPtrSlab(ptr: nat) returns (r: Option<nat>)
      requires Inv(p, S())
      ensures r == FindIn(p, slabs, Candidates(S(), 0), ptr)
    {
      ghost var goal := FindIn(p, slabs, Candidates(S(), 0), ptr);
      var i := 0;
      while i < |order|
        invariant 0 <= i <= |order| && FindIn(p, slabs, Candidates(S(), i), ptr) == goal
      {
        ListedHaveMemory(p, S(), i);
        var m := order[i];
        FindInConcat(p, slabs, partial[m] + full[m], Candidates(S(), i + 1), ptr);
        r := FindInMeta(m, ptr);
        if r.Some? { return; }
        i := i + 1;
      }
      return None;
    }

    /** sma_meta_new: a meta page with its empty slabs, linked in front. */
    method AddMetaPage(junk: seq<bool>)
      modifies this
      ensures S() == AddMeta(p, old(S()), junk)
    {
      var m, n := |empty|, |slabs|;
      slabs := slabs + seq(p.perMeta, i => Slab(m, None, Empty, 0, junk));
      empty := empty + [seq(p.perMeta, i => n + i)];
      partial := partial + [[]];
      full := full + [[]];
      order := [m] + order;
      assert S() == AddMeta(p, old(S()), junk);
    }

    /** sma_alloc. On the path that frees the new meta page without unlinking it, dangling is set and
        the lists still hold the page. */
    method AllocBlock(mem: Option<nat>, page: bool, mem2: Option<nat>, junk: seq<bool>)
      returns (a: Option<nat>, dangling: bool)
      requires Inv(p, S()) && |junk| == p.words * BPW && Fresh(p, S(), mem) && Fresh(p, S(), mem2)
      modifies this
      ensures !dangling ==> Inv(p, S())
      ensures match Alloc(p, old(S()), mem, page, mem2, junk)
              case Block(y, b) => S() == y && a == Some(b) && !dangling
              case OutOfMemory => S() == old(S()) && a == None && !dangling
              case DanglingMeta => S() == AddMeta(p, old(S()), junk) && a == None && dangling
    {
      AllocGrants(p, S(), mem, page, mem2, junk);
      AddMetaKeepsInv(p, S(), junk);
      a := GetBlock(mem);
      if a.Some? || !page { return a, false; }
      var n := |slabs|;
      AddMetaPage(junk);
      if mem2.None? { return None, true; }
      TakeFromEmpty(n, mem2.value);
      return mem2, false;
    }

    method IsClear(bits: seq<bool>) returns (r: bool)
      requires |bits| == p.words * BPW
      ensures r <==> AllClear(bits, 0, |bits|)
    {
      var i := 0;
      while i < p.words
        invariant 0 <= i <= p.words && AllClear(bits, 0, i * BPW)
      {
        var lo := i * BPW;
        if exists b :: lo <= b < lo + BPW && bits[b] { return false; }
        i := i + 1;
      }
      return true;
    }

    /** sma_free; panicked is the double free. */
    method FreeBlock(ptr: nat) returns (ok: bool, panicked: bool)
      requires Inv(p, S())
      modifies this
      ensures Inv(p, S())
      ensures match Free(p, old(S()), ptr)
              case Done(y) => S() == y && ok && !panicked
              case Einval => S() == old(S()) && !ok && !panicked
              case DoubleFree => S() == old(S()) && !ok && panicked
    {
      if ptr == 0 { return false, false; }
      var r := FindPtrSlab(ptr);
      if r.None? { return false, false; }
      var id := r.value;
      CandidatesInUse(S(), 0);
      ItemInRange(p, slabs[id], ptr);
      var k := (ptr - slabs[id].addr.value) / p.dataSize;
      if !slabs[id].bits[k] { return false, true; }
      Return(id, k);
      return true, false;
    }

    /** The end of sma_free and check_free_slab. */
    method Return(id: nat, k: nat)
      requires Inv(p, S()) && id < |slabs| && slabs[id].state != Empty && k < p.count && slabs[id].bits[k]
      modifies this
      ensures S() == GiveBack(p, old(S()), id, k)
      ensures Inv(p, S())
    {
      GiveBackKeepsInv(p, S(), id, k);
      var s := slabs[id];
      var m := s.meta;
      s := s.(bits := s.bits[k := false]);
      if k < s.firstFree { s := s.(firstFree := k); }
      ncurrent := ncurrent - 1;
      if s.state == Full {
        full := full[m := Remove(full[m], id)];
        s := s.(state := Partial);
        partial := partial[m := [id] + partial[m]];
      } else {
        var clear := IsClear(s.bits);
        if clear {
          partial := partial[m := Remove(partial[m], id)];
          s := s.(state := Empty);
          assert empty[m] != [] ==> empty[m][0] in empty[m];
          if empty[m] != [] && slabs[empty[m][0]].addr.Some? {
            s := s.(addr := None);
            empty := empty[m := empty[m] + [id]];
          } else {
            empty := empty[m := [id] + empty[m]];
          }
        }
      }
      slabs := slabs[id := s];
    }
  }

  lemma {:induction false} FindInConcat(p: Params, slabs: seq<Slab>, a: seq<nat>, b: seq<nat>, ptr: nat)
    requires p.dataSize > 0
    requires forall i :: 0 <= i < |a| ==> a[i] < |slabs|
    requires forall i :: 0 <= i < |b| ==> b[i] < |slabs|
    ensures FindIn(p, slabs, a + b, ptr) ==
            if FindIn(p, slabs, a, ptr).Some? then FindIn(p, slabs, a, ptr) else FindIn(p, slabs, b, ptr)
  {
    if a == [] {
      assert a + b == b;
    } else {
      assert (a + b)[1..] == a[1..] + b;
      FindInConcat(p, slabs, a[1..], b, ptr);
    }
  }

  lemma ListedHaveMemory(p: Params, y: Sma, i: nat)
    requires Inv(p, y) && i < |y.order|
    ensures var m := y.order[i];
            && m < |y.partial| && m < |y.full|
            && (forall j :: 0 <= j < |y.partial[m]| ==>
                  y.partial[m][j] < |y.slabs| && y.slabs[y.partial[m][j]].addr.Some?)
            && (forall j :: 0 <= j < |y.full[m]| ==> y.full[m][j] < |y.slabs| && y.slabs[y.full[m][j]].addr.Some?)
  {
    var m := y.order[i];
    assert m in y.order;
    assert forall j :: 0 <= j < |y.partial[m]| ==> y.partial[m][j] in y.partial[m];
    assert forall j :: 0 <= j < |y.full[m]| ==> y.full[m][j] in y.full[m];
  }
}

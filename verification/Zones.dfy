/** mem/space.c: changing the protection of a range of a process's memory zones. */
module Zones {
  import opened Base

  const PAGE: nat := 4096
  const ADDR_LIMIT: nat := 0x1_0000_0000_0000_0000

  /** backing stands for the operations, flags, file and user data a split copies. */
  datatype Zone = Zone(addr: nat, size: nat, prot: nat, off: int, backing: nat)

  function End(z: Zone): nat { z.addr + z.size }

  /** The zones after some work, how many allocations and page-table calls may still succeed, and
      whether none has failed. */
  datatype Outcome = Outcome(zones: seq<Zone>, left: nat, ok: bool)

  // ----- one zone that meets [a, e) -----

  function ProtectFull(z: Zone, p: nat, calls: nat): Outcome {
    if calls == 0 then Outcome([z], 0, false) else Outcome([z.(prot := p)], calls - 1, true)
  }

  function ProtectHead(z: Zone, e: nat, p: nat, calls: nat): Outcome
    requires z.addr < e < End(z)
  {
    var delta := e - z.addr;
    var newz := z.(addr := z.addr + delta, size := z.size - delta, off := z.off + delta);
    var z' := z.(size := delta);
    if calls == 0 then Outcome([z], 0, false)
    else if calls == 1 then Outcome([z', newz], 0, false)
    else Outcome([z'.(prot := p), newz], calls - 2, true)
  }

  function ProtectTail(z: Zone, a: nat, p: nat, calls: nat): Outcome
    requires z.addr < a < End(z)
  {
    var delta := End(z) - a;
    var newz := z.(addr := a, size := delta, off := z.off + a - z.addr);
    var z' := z.(size := z.size - delta);
    if calls == 0 then Outcome([z], 0, false)
    else if calls == 1 then Outcome([z', newz], 0, false)
    else Outcome([z', newz.(prot := p)], calls - 2, true)
  }

  /** The middle piece keeps the zone's own offset. */
  function ProtectMiddle(z: Zone, a: nat, e: nat, p: nat, calls: nat): Outcome
    requires z.addr < a <= e < End(z)
  {
    var deltal, deltah := a - z.addr, End(z) - e;
    var newl := z.(size := deltal);
    var newh := z.(addr := e, size := deltah, off := z.off + z.size - deltah);
    var z' := z.(addr := z.addr + deltal, size := z.size - deltal - deltah);
    if calls <= 1 then Outcome([z], 0, false)
    else if calls == 2 then Outcome([newl, z', newh], 0, false)
    else Outcome([newl, z'.(prot := p), newh], calls - 3, true)
  }

  function ProtectZone(z: Zone, a: nat, e: nat, p: nat, calls: nat): Outcome
    requires a <= e && z.addr < e && a < End(z)
  {
    if p == z.prot then Outcome([z], calls, true)
    else if a <= z.addr then
      if e >= End(z) then ProtectFull(z, p, calls) else ProtectHead(z, e, p, calls)
    else
      if e >= End(z) then ProtectTail(z, a, p, calls) else ProtectMiddle(z, a, e, p, calls)
  }

  // ----- the whole list -----

  function Over(front: seq<Zone>, r: Outcome): Outcome {
    r.(zones := front + r.zones)
  }

  /** The traversal of vm_space_protect. */
  function Protect(zs: seq<Zone>, a: nat, e: nat, p: nat, calls: nat): Outcome
    requires a <= e
    decreases |zs|
  {
    if zs == [] || e <= zs[0].addr then Outcome(zs, calls, true)
    else if a >= End(zs[0]) then Over([zs[0]], Protect(zs[1..], a, e, p, calls))
    else
      var r := ProtectZone(zs[0], a, e, p, calls);
      if !r.ok then r.(zones := r.zones + zs[1..])
      else Over(r.zones, Protect(zs[1..], a, e, p, r.left))
  }

  // ----- what a list of zones means -----

  predicate Covers(z: Zone, x: nat) {
    z.addr <= x < End(z)
  }

  /** What the list says about one address: its protection, file offset and backing. */
  datatype View = View(prot: nat, off: int, backing: nat)

  function ViewIn(z: Zone, x: nat): View {
    View(z.prot, z.off + x - z.addr, z.backing)
  }

  function ViewAt(zs: seq<Zone>, x: nat): Option<View> {
    if zs == [] then None
    else if Covers(zs[0], x) then Some(ViewIn(zs[0], x))
    else ViewAt(zs[1..], x)
  }

  /** Sorted, disjoint, and none empty. */
  ghost predicate Sorted(zs: seq<Zone>, lo: nat) {
    zs == [] || (lo <= zs[0].addr && zs[0].size > 0 && Sorted(zs[1..], End(zs[0])))
  }

  lemma {:induction false} SortedAbove(zs: seq<Zone>, lo: nat, x: nat)
    requires Sorted(zs, lo) && x < lo
    ensures ViewAt(zs, x) == None
    decreases |zs|
  {
    if zs == [] {
    } else {
      SortedAbove(zs[1..], End(zs[0]), x);
    }
  }

  lemma {:induction false} ViewConcat(xs: seq<Zone>, ys: seq<Zone>, x: nat)
    ensures ViewAt(xs + ys, x) == if ViewAt(xs, x).Some? then ViewAt(xs, x) else ViewAt(ys, x)
    decreases |xs|
  {
    if xs == [] {
      assert xs + ys == ys;
    } else {
      assert (xs + ys)[1..] == xs[1..] + ys;
      ViewConcat(xs[1..], ys, x);
    }
  }

  /** xs is sorted from lo and stays at or below hi. */
  ghost predicate Within(xs: seq<Zone>, lo: nat, hi: nat) {
    if xs == [] then lo <= hi
    else lo <= xs[0].addr && xs[0].size > 0 && Within(xs[1..], End(xs[0]), hi)
  }

  lemma {:induction false} SortedConcat(xs: seq<Zone>, ys: seq<Zone>, lo: nat, hi: nat)
    requires Within(xs, lo, hi) && Sorted(ys, hi)
    ensures Sorted(xs + ys, lo)
    decreases |xs|
  {
    if xs == [] {
      assert xs + ys == ys;
    } else {
      assert (xs + ys)[1..] == xs[1..] + ys;
      SortedConcat(xs[1..], ys, End(xs[0]), hi);
    }
  }

  // ----- one zone -----

  /** before and after agree but for the protection, which is p inside the range when all is well. */
  ghost predicate Reprotected(before: Option<View>, after: Option<View>, inside: bool, p: nat, ok: bool) {
    && (before.Some? <==> after.Some?)
    && (before.Some? ==>
         && after.value.backing == before.value.backing
         && (!inside ==> after.value.prot == before.value.prot)
         && (inside && ok ==> after.value.prot == p)
         && (after.value.prot == before.value.prot || after.value.prot == p))
  }

  lemma ViewOne(z: Zone, x: nat)
    ensures ViewAt([z], x) == if Covers(z, x) then Some(ViewIn(z, x)) else None
  {
  }

  lemma ViewTwo(z: Zone, y: Zone, x: nat)
    ensures ViewAt([z, y], x) == if Covers(z, x) then Some(ViewIn(z, x)) else ViewAt([y], x)
  {
    assert [z, y][1..] == [y];
  }

  lemma ViewThree(z: Zone, y: Zone, w: Zone, x: nat)
    ensures ViewAt([z, y, w], x) == if Covers(z, x) then Some(ViewIn(z, x)) else ViewAt([y, w], x)
  {
    assert [z, y, w][1..] == [y, w];
  }

  lemma ViewPieces(r: seq<Zone>, x: nat)
    requires 1 <= |r| <= 3
    ensures ViewAt(r, x) ==
      if Covers(r[0], x) then Some(ViewIn(r[0], x))
      else if |r| > 1 && Covers(r[1], x) then Some(ViewIn(r[1], x))
      else if |r| > 2 && Covers(r[2], x) then Some(ViewIn(r[2], x))
      else None
  {
    if |r| == 1 {
      assert r == [r[0]];
    } else if |r| == 2 {
      assert r == [r[0], r[1]];
      ViewTwo(r[0], r[1], x);
    } else {
      assert r == [r[0], r[1], r[2]];
      ViewThree(r[0], r[1], r[2], x);
      ViewTwo(r[1], r[2], x);
    }
  }

  lemma ZoneMeaning(z: Zone, a: nat, e: nat, p: nat, calls: nat, x: nat)
    requires a <= e && z.addr < e && a < End(z)
    ensures var r := ProtectZone(z, a, e, p, calls);
      Reprotected(ViewAt([z], x), ViewAt(r.zones, x), a <= x < e, p, r.ok)
  {
    ViewOne(z, x);
    ViewPieces(ProtectZone(z, a, e, p, calls).zones, x);
  }

  lemma ZoneWithin(z: Zone, a: nat, e: nat, p: nat, calls: nat)
    requires a < e && z.addr < e && a < End(z) && z.size > 0
    ensures Within(ProtectZone(z, a, e, p, calls).zones, z.addr, End(z))
  {
    var r := ProtectZone(z, a, e, p, calls).zones;
    WithinPieces(r, z.addr, End(z));
  }

  lemma WithinPieces(r: seq<Zone>, lo: nat, hi: nat)
    requires 1 <= |r| <= 3 && r[0].addr == lo && End(r[|r| - 1]) == hi
    ensures Within(r, lo, hi) <==>
      r[0].size > 0 && (|r| > 1 ==> End(r[0]) <= r[1].addr && r[1].size > 0) &&
      (|r| > 2 ==> End(r[1]) <= r[2].addr && r[2].size > 0)
  {
    if |r| == 1 {
      assert r[1..] == [];
    } else if |r| == 2 {
      assert r[1..] == [r[1]];
      WithinOne(r[1], End(r[0]), hi);
    } else {
      assert r[1..] == [r[1], r[2]] && [r[1], r[2]][1..] == [r[2]];
      WithinOne(r[2], End(r[1]), hi);
    }
  }

  lemma WithinOne(z: Zone, lo: nat, hi: nat)
    requires End(z) <= hi
    ensures Within([z], lo, hi) <==> lo <= z.addr && z.size > 0
  {
    assert [z][1..] == [];
  }

  // ----- the whole list -----

  lemma UncoveredBeyond(zs: seq<Zone>, e: nat, x: nat)
    requires zs != [] && Sorted(zs, 0) && e <= zs[0].addr && x < e
    ensures ViewAt(zs, x) == None
  {
    SortedAbove(zs, zs[0].addr, x);
  }

  lemma HeadSplits(zs: seq<Zone>, x: nat)
    requires zs != []
    ensures ViewAt(zs, x) == if ViewAt([zs[0]], x).Some? then ViewAt([zs[0]], x) else ViewAt(zs[1..], x)
  {
    ViewOne(zs[0], x);
  }

  lemma SortedTail(zs: seq<Zone>, lo: nat)
    requires zs != [] && Sorted(zs, lo)
    ensures Sorted(zs, 0) && Sorted(zs[1..], 0) && Sorted(zs[1..], End(zs[0]))
  {
  }

  /** For every address: covered before exactly when covered after, with the same backing; the new
      protection inside the range, the old one outside; and if some call failed on the way, still
      nothing but the old or the new protection, and nothing changed outside. */
  lemma {:induction false} ProtectMeaning(zs: seq<Zone>, a: nat, e: nat, p: nat, calls: nat, x: nat)
    requires Sorted(zs, 0) && a <= e
    ensures var r := Protect(zs, a, e, p, calls);
      Reprotected(ViewAt(zs, x), ViewAt(r.zones, x), a <= x < e, p, r.ok)
    decreases |zs|
  {
    if zs == [] {
    } else if e <= zs[0].addr {
      if x < e { UncoveredBeyond(zs, e, x); }
    } else if a >= End(zs[0]) {
      SortedTail(zs, 0);
      ProtectMeaning(zs[1..], a, e, p, calls, x);
      HeadSplits(zs, x);
      ViewConcat([zs[0]], Protect(zs[1..], a, e, p, calls).zones, x);
      ViewOne(zs[0], x);
    } else {
      SortedTail(zs, 0);
      HeadSplits(zs, x);
      var r := ProtectZone(zs[0], a, e, p, calls);
      ZoneMeaning(zs[0], a, e, p, calls, x);
      if r.ok {
        ProtectMeaning(zs[1..], a, e, p, r.left, x);
        ViewConcat(r.zones, Protect(zs[1..], a, e, p, r.left).zones, x);
      } else {
        ViewConcat(r.zones, zs[1..], x);
      }
    }
  }

  /** A range that is not empty leaves the list sorted, disjoint and free of empty zones. */
  lemma {:induction false} ProtectSorted(zs: seq<Zone>, lo: nat, a: nat, e: nat, p: nat, calls: nat)
    requires Sorted(zs, lo) && a < e
    ensures Sorted(Protect(zs, a, e, p, calls).zones, lo)
    decreases |zs|
  {
    if zs == [] || e <= zs[0].addr {
    } else if a >= End(zs[0]) {
      ProtectSorted(zs[1..], End(zs[0]), a, e, p, calls);
      var t := Protect(zs[1..], a, e, p, calls).zones;
      assert ([zs[0]] + t)[1..] == t;
    } else {
      var r := ProtectZone(zs[0], a, e, p, calls);
      ZoneWithin(zs[0], a, e, p, calls);
      WithinLower(r.zones, zs[0].addr, End(zs[0]), lo);
      if r.ok {
        ProtectSorted(zs[1..], End(zs[0]), a, e, p, r.left);
        SortedConcat(r.zones, Protect(zs[1..], a, e, p, r.left).zones, lo, End(zs[0]));
      } else {
        SortedConcat(r.zones, zs[1..], lo, End(zs[0]));
      }
    }
  }

  lemma WithinLower(xs: seq<Zone>, lo: nat, hi: nat, lo': nat)
    requires Within(xs, lo, hi) && lo' <= lo <= hi
    ensures Within(xs, lo', hi)
  {
  }

  // ----- the empty range -----

  /** Some zone has x strictly inside it and another protection. */
  predicate Splits(zs: seq<Zone>, x: nat, p: nat) {
    zs != [] && ((zs[0].addr < x < End(zs[0]) && zs[0].prot != p) || Splits(zs[1..], x, p))
  }

  lemma {:induction false} NoSplitAbove(zs: seq<Zone>, lo: nat, x: nat, p: nat)
    requires Sorted(zs, lo) && x <= lo
    ensures !Splits(zs, x, p)
    decreases |zs|
  {
    if zs == [] {
    } else {
      NoSplitAbove(zs[1..], End(zs[0]), x, p);
    }
  }

  lemma {:induction false} EmptySizeUnsorted(xs: seq<Zone>, lo: nat, i: nat)
    requires i < |xs| && xs[i].size == 0
    ensures !Sorted(xs, lo)
    decreases i
  {
    if i == 0 {
    } else {
      EmptySizeUnsorted(xs[1..], End(xs[0]), i - 1);
    }
  }

  /** Asked to protect no bytes at all, the list stays free of empty zones exactly when the address
      is not strictly inside a zone with another protection, or the two pieces cannot be allocated. */
  lemma {:induction false} EmptyRangeExact(zs: seq<Zone>, lo: nat, a: nat, p: nat, calls: nat)
    requires Sorted(zs, lo)
    ensures Sorted(Protect(zs, a, a, p, calls).zones, lo) <==> !(Splits(zs, a, p) && calls >= 2)
    decreases |zs|
  {
    if zs == [] {
    } else if a <= zs[0].addr {
      NoSplitAbove(zs, zs[0].addr, a, p);
    } else if a >= End(zs[0]) {
      EmptyRangeExact(zs[1..], End(zs[0]), a, p, calls);
      var t := Protect(zs[1..], a, a, p, calls).zones;
      assert ([zs[0]] + t)[1..] == t;
    } else {
      NoSplitAbove(zs[1..], End(zs[0]), a, p);
      var r := ProtectZone(zs[0], a, a, p, calls);
      if zs[0].prot == p {
        EmptyRangeExact(zs[1..], End(zs[0]), a, p, calls);
        var t := Protect(zs[1..], a, a, p, calls).zones;
        assert ([zs[0]] + t)[1..] == t;
      } else if calls >= 2 {
        assert r.zones[1].size == 0;
        EmptySizeUnsorted(Protect(zs, a, a, p, calls).zones, lo, 1);
      } else {
        assert [zs[0]] + zs[1..] == zs;
      }
    }
  }

  // ----- file offsets -----

  /** Some zone holds the whole range strictly inside it and has another protection. */
  predicate SplitsMiddle(zs: seq<Zone>, a: nat, e: nat, p: nat) {
    zs != [] && ((zs[0].addr < a && e < End(zs[0]) && zs[0].prot != p) || SplitsMiddle(zs[1..], a, e, p))
  }

  lemma ZoneOffsets(z: Zone, a: nat, e: nat, p: nat, calls: nat, x: nat)
    requires a < e && z.addr < e && a < End(z) && Covers(z, x)
    ensures ViewAt(ProtectZone(z, a, e, p, calls).zones, x).Some?
    ensures ViewAt(ProtectZone(z, a, e, p, calls).zones, x).value.off == ViewIn(z, x).off <==>
      !(z.addr < a <= x < e < End(z) && z.prot != p && calls >= 2)
  {
    ViewPieces(ProtectZone(z, a, e, p, calls).zones, x);
  }

  lemma {:induction false} NoMiddleAbove(zs: seq<Zone>, lo: nat, a: nat, e: nat, p: nat)
    requires Sorted(zs, lo) && a <= lo
    ensures !SplitsMiddle(zs, a, e, p)
    decreases |zs|
  {
    if zs == [] {
    } else {
      NoMiddleAbove(zs[1..], End(zs[0]), a, e, p);
    }
  }

  /** A zone of no bytes appears whenever the address is strictly inside a zone with another protection,
      and nothing stops a process from asking for a length of zero. */
  lemma EmptyRangeLeavesEmptyZone(z: Zone, x: nat, p: nat, calls: nat)
    requires z.addr < x < End(z) && z.prot != p && calls >= 3
    ensures var zs := Protect([z], x, x, p, calls).zones;
      |zs| == 3 && zs[1].addr == x && zs[1].size == 0 && zs[1].prot == p && !Sorted(zs, z.addr)
  {
    var zs := Protect([z], x, x, p, calls).zones;
    var t := ProtectZone(z, x, x, p, calls);
    assert Protect([z][1..], x, x, p, t.left).zones == [];
    assert zs == t.zones + [] == t.zones;
    assert zs[1..][0] == zs[1];
  }

  /** A covered address keeps its file offset exactly unless it lies in a range cut from the middle of a
      zone: the middle piece keeps the offset of the zone's start. The cut is made as soon as its two
      new pieces are allocated, whether or not the call after it succeeds. */
  lemma {:induction false} OffsetsExact(zs: seq<Zone>, a: nat, e: nat, p: nat, calls: nat, x: nat)
    requires Sorted(zs, 0) && a < e && ViewAt(zs, x).Some?
    ensures ViewAt(Protect(zs, a, e, p, calls).zones, x).Some?
    ensures ViewAt(Protect(zs, a, e, p, calls).zones, x).value.off == ViewAt(zs, x).value.off <==>
      !(a <= x < e && SplitsMiddle(zs, a, e, p) && calls >= 2)
    decreases |zs|, 1
  {
    ProtectMeaning(zs, a, e, p, calls, x);
    SortedTail(zs, 0);
    HeadSplits(zs, x);
    ViewOne(zs[0], x);
    if e <= zs[0].addr {
      NoMiddleAbove(zs, zs[0].addr, a, e, p);
    } else if a >= End(zs[0]) {
      ViewConcat([zs[0]], Protect(zs[1..], a, e, p, calls).zones, x);
      if ViewAt(zs[1..], x).Some? && !Covers(zs[0], x) { OffsetsExact(zs[1..], a, e, p, calls, x); }
    } else {
      OffsetsHere(zs, a, e, p, calls, x);
    }
  }

  /** So the offset is lost even where the whole call fails. */
  lemma OffsetLostOnFailure(z: Zone, a: nat, e: nat, p: nat, x: nat)
    requires z.addr < a <= x < e < End(z) && z.prot != p
    ensures var r := Protect([z], a, e, p, 2);
      && !r.ok && ViewAt([z], x).Some? && ViewAt(r.zones, x).Some?
      && ViewAt(r.zones, x).value.off != ViewAt([z], x).value.off
  {
    ViewOne(z, x);
    ViewPieces(ProtectZone(z, a, e, p, 2).zones, x);
    assert ProtectZone(z, a, e, p, 2).zones + [] == ProtectZone(z, a, e, p, 2).zones;
  }

  lemma {:induction false} OffsetsHere(zs: seq<Zone>, a: nat, e: nat, p: nat, calls: nat, x: nat)
    requires Sorted(zs, 0) && a < e && ViewAt(zs, x).Some?
    requires zs[0].addr < e && a < End(zs[0])
    ensures ViewAt(Protect(zs, a, e, p, calls).zones, x).Some?
    ensures ViewAt(Protect(zs, a, e, p, calls).zones, x).value.off == ViewAt(zs, x).value.off <==>
      !(a <= x < e && SplitsMiddle(zs, a, e, p) && calls >= 2)
    decreases |zs|, 0
  {
    ProtectMeaning(zs, a, e, p, calls, x);
    SortedTail(zs, 0);
    NoMiddleAbove(zs[1..], End(zs[0]), a, e, p);
    var r := ProtectZone(zs[0], a, e, p, calls);
    ViewConcat(r.zones, if r.ok then Protect(zs[1..], a, e, p, r.left).zones else zs[1..], x);
    HeadSplits(zs, x);
    if Covers(zs[0], x) {
      ZoneOffsets(zs[0], a, e, p, calls, x);
    } else {
      ZoneMeaning(zs[0], a, e, p, calls, x);
      ViewOne(zs[0], x);
      if x < End(zs[0]) { SortedAbove(zs[1..], End(zs[0]), x); }
      if r.ok { OffsetsExact(zs[1..], a, e, p, r.left, x); }
    }
  }

  // ----- the space as it is changed -----

  datatype Errno = EINVAL | EOVERFLOW | EFAILED

  /** Putting pieces in the place of one element. */
  function Replace(zs: seq<Zone>, i: nat, pieces: seq<Zone>): seq<Zone>
    requires i < |zs|
  {
    zs[..i] + pieces + zs[i + 1..]
  }

  lemma ReplaceParts(zs: seq<Zone>, i: nat, pieces: seq<Zone>)
    requires i < |zs|
    ensures var ys, n := Replace(zs, i, pieces), i + |pieces|;
      n <= |ys| && ys[..n] == zs[..i] + pieces && ys[n..] == zs[i + 1..]
    ensures Replace(zs, i, pieces) == zs[..i] + (pieces + zs[i + 1..])
  {
  }

  lemma OverOver(f: seq<Zone>, g: seq<Zone>, r: Outcome)
    ensures Over(f, Over(g, r)) == Over(f + g, r)
  {
    assert f + (g + r.zones) == (f + g) + r.zones;
  }

  lemma HeadAt(zs: seq<Zone>, i: nat)
    requires i < |zs|
    ensures zs[i..] == [zs[i]] + zs[i + 1..] && zs[i..][1..] == zs[i + 1..] && zs[..i + 1] == zs[..i] + [zs[i]]
  {
  }

  /** The walk has the zones before i behind it, and s is what the whole of it comes to. */
  ghost predicate Awaits(zs: seq<Zone>, i: nat, a: nat, e: nat, p: nat, calls: nat, s: Outcome)
    requires i <= |zs| && a <= e
  {
    s == Over(zs[..i], Protect(zs[i..], a, e, p, calls))
  }

  lemma WalkEnds(zs: seq<Zone>, i: nat, a: nat, e: nat, p: nat, calls: nat, s: Outcome)
    requires i <= |zs| && a <= e && Awaits(zs, i, a, e, p, calls, s) && (i < |zs| ==> e <= zs[i].addr)
    ensures s == Outcome(zs, calls, true)
  {
    assert zs[..i] + zs[i..] == zs;
  }

  lemma WalkSkips(zs: seq<Zone>, i: nat, a: nat, e: nat, p: nat, calls: nat, s: Outcome)
    requires i < |zs| && a <= e && Awaits(zs, i, a, e, p, calls, s) && zs[i].addr < e && End(zs[i]) <= a
    ensures Awaits(zs, i + 1, a, e, p, calls, s)
  {
    HeadAt(zs, i);
    OverOver(zs[..i], [zs[i]], Protect(zs[i + 1..], a, e, p, calls));
  }

  lemma WalkProtects(zs: seq<Zone>, i: nat, a: nat, e: nat, p: nat, calls: nat, s: Outcome)
    requires i < |zs| && a <= e && Awaits(zs, i, a, e, p, calls, s) && zs[i].addr < e && a < End(zs[i])
    ensures var t := ProtectZone(zs[i], a, e, p, calls);
      var ys := Replace(zs, i, t.zones);
      if t.ok then i + |t.zones| <= |ys| && Awaits(ys, i + |t.zones|, a, e, p, t.left, s)
      else s == Outcome(ys, t.left, false)
  {
    var t := ProtectZone(zs[i], a, e, p, calls);
    HeadAt(zs, i);
    ReplaceParts(zs, i, t.zones);
    OverOver(zs[..i], t.zones, Protect(zs[i + 1..], a, e, p, t.left));
  }

  class Space {
    var zones: seq<Zone>
    var calls: nat    // how many allocations and page-table calls will succeed

    /** One call that may fail. */
    method Attempt() returns (ok: bool)
      modifies this`calls
      ensures ok == (old(calls) > 0) && calls == if ok then old(calls) - 1 else 0
    {
      ok := calls > 0;
      if ok { calls := calls - 1; }
    }

    method Head(i: nat, e: nat, p: nat) returns (ok: bool, n: nat)
      requires i < |zones| && zones[i].addr < e < End(zones[i])
      modifies this
      ensures var r := ProtectHead(old(zones[i]), e, p, old(calls));
        zones == Replace(old(zones), i, r.zones) && n == |r.zones| && ok == r.ok && calls == r.left
    {
      var z := zones[i];
      ghost var zs := zones;
      var delta := e - z.addr;
      ok := Attempt();
      if !ok {
        assert zones == Replace(zs, i, [z]);
        return false, 1;
      }
      var newz := z.(addr := z.addr + delta, size := z.size - delta, off := z.off + delta);
      zones := zones[i := z.(size := delta)];
      zones := zones[..i + 1] + [newz] + zones[i + 1..];
      assert zones == Replace(zs, i, [z.(size := delta), newz]);
      ok := Attempt();
      if !ok { return false, 2; }
      zones := zones[i := zones[i].(prot := p)];
      assert zones == Replace(zs, i, [z.(size := delta, prot := p), newz]);
      n := 2;
    }

    method Tail(i: nat, a: nat, p: nat) returns (ok: bool, n: nat)
      requires i < |zones| && zones[i].addr < a < End(zones[i])
      modifies this
      ensures var r := ProtectTail(old(zones[i]), a, p, old(calls));
        zones == Replace(old(zones), i, r.zones) && n == |r.zones| && ok == r.ok && calls == r.left
    {
      var z := zones[i];
      ghost var zs := zones;
      var delta := End(z) - a;
      ok := Attempt();
      if !ok {
        assert zones == Replace(zs, i, [z]);
        return false, 1;
      }
      var newz := z.(addr := a, size := delta, off := z.off + a - z.addr);
      zones := zones[i := z.(size := z.size - delta)];
      zones := zones[..i + 1] + [newz] + zones[i + 1..];
      assert zones == Replace(zs, i, [z.(size := z.size - delta), newz]);
      ok := Attempt();
      if !ok { return false, 2; }
      zones := zones[i + 1 := newz.(prot := p)];
      assert zones == Replace(zs, i, [z.(size := z.size - delta), newz.(prot := p)]);
      n := 2;
    }

    method Middle(i: nat, a: nat, e: nat, p: nat) returns (ok: bool, n: nat)
      requires i < |zones| && zones[i].addr < a <= e < End(zones[i])
      modifies this
      ensures var r := ProtectMiddle(old(zones[i]), a, e, p, old(calls));
        zones == Replace(old(zones), i, r.zones) && n == |r.zones| && ok == r.ok && calls == r.left
    {
      var z := zones[i];
      ghost var zs := zones;
      var deltal, deltah := a - z.addr, End(z) - e;
      assert zones == Replace(zs, i, [z]);
      ok := Attempt();
      if !ok { return false, 1; }
      var newl := z.(size := deltal);
      ok := Attempt();
      if !ok { return false, 1; }
      var newh := z.(addr := e, size := deltah, off := z.off + z.size - deltah);
      var z' := z.(addr := z.addr + deltal, size := z.size - deltal - deltah);
      zones := zones[..i] + [newl, z', newh] + zones[i + 1..];
      ok := Attempt();
      if !ok { return false, 3; }
      zones := zones[i + 1 := z'.(prot := p)];
      assert zones == Replace(zs, i, [newl, z'.(prot := p), newh]);
      n := 3;
    }

    /** The four cases for a zone that meets the range. */
    method One(i: nat, a: nat, e: nat, p: nat) returns (ok: bool, n: nat)
      requires i < |zones| && a <= e && zones[i].addr < e && a < End(zones[i])
      modifies this
      ensures var r := ProtectZone(old(zones[i]), a, e, p, old(calls));
        zones == Replace(old(zones), i, r.zones) && n == |r.zones| && ok == r.ok && calls == r.left
    {
      var z := zones[i];
      ghost var zs := zones;
      assert zs == Replace(zs, i, [z]);
      if p == z.prot {
        ok, n := true, 1;
      } else if a <= z.addr {
        if e >= End(z) {
          n := 1;
          ok := Attempt();
          if ok {
            zones := zones[i := z.(prot := p)];
            assert zones == Replace(zs, i, [z.(prot := p)]);
          }
        } else {
          ok, n := Head(i, e, p);
        }
      } else if e >= End(z) {
        ok, n := Tail(i, a, p);
      } else {
        ok, n := Middle(i, a, e, p);
      }
    }

    /** The walk that splits zones in place has the effect of Protect. */
    method Walk(a: nat, e: nat, p: nat) returns (ok: bool)
      requires a <= e
      modifies this
      ensures var s := Protect(old(zones), a, e, p, old(calls));
        zones == s.zones && calls == s.left && ok == s.ok
    {
      ghost var s := Protect(zones, a, e, p, calls);
      var i: nat := 0;
      assert zones[0..] == zones && zones[..0] == [];
      while i < |zones|
        invariant i <= |zones| && Awaits(zones, i, a, e, p, calls, s)
        decreases |zones| - i
      {
        if e <= zones[i].addr { break; }
        if a >= End(zones[i]) {
          WalkSkips(zones, i, a, e, p, calls, s);
          i := i + 1;
        } else {
          WalkProtects(zones, i, a, e, p, calls, s);
          var n;
          ok, n := One(i, a, e, p);
          if !ok { return; }
          i := i + n;
        }
      }
      WalkEnds(zones, i, a, e, p, calls, s);
      ok := true;
    }

    /** vm_space_protect. */
    method ProtectRange(addr: nat, size: nat, prot: nat) returns (r: Option<Errno>)
      modifies this
      ensures addr % PAGE != 0 || size % PAGE != 0 ==> r == Some(EINVAL) && zones == old(zones)
      ensures addr % PAGE == 0 && size % PAGE == 0 && addr + size >= ADDR_LIMIT ==>
        r == Some(EOVERFLOW) && zones == old(zones)
      ensures addr % PAGE == 0 && size % PAGE == 0 && addr + size < ADDR_LIMIT ==>
        var s := Protect(old(zones), addr, addr + size, prot, old(calls));
        zones == s.zones && r == if s.ok && s.left > 0 then None else Some(EFAILED)
    {
      if addr % PAGE != 0 || size % PAGE != 0 { return Some(EINVAL); }
      if addr + size >= ADDR_LIMIT { return Some(EOVERFLOW); }
      var ok := Walk(addr, addr + size, prot);
      if !ok { return Some(EFAILED); }
      ok := Attempt();
      r := if ok then None else Some(EFAILED);
    }

    /** vm_space_find. */
    method Find(x: nat) returns (found: Option<Zone>)
      requires Sorted(zones, 0)
      ensures found.Some? <==> ViewAt(zones, x).Some?
      ensures found.Some? ==> found.value in zones && Covers(found.value, x)
      ensures found.Some? ==> ViewAt(zones, x) == Some(ViewIn(found.value, x))
    {
      var i := 0;
      while i < |zones|
        invariant i <= |zones| && ViewAt(zones, x) == ViewAt(zones[i..], x) && Sorted(zones[i..], 0)
      {
        var z := zones[i];
        SortedTail(zones[i..], 0);
        assert zones[i..][1..] == zones[i + 1..];
        if x < z.addr {
          UncoveredBeyond(zones[i..], z.addr, x);
          return None;
        }
        if x < End(z) { return Some(z); }
        i := i + 1;
      }
      found := None;
    }
  }

}
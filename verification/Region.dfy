/** mem/region.c: the free ranges of an address region, kept as a list. */
module Region {
  import opened Base

  const WORD: nat := 0x1_0000_0000_0000_0000   // uintptr_t and size_t are 64 bits wide
  const PAGE: nat := 4096

  datatype Range = Range(addr: nat, size: nat) {
    function End(): nat { addr + size }
  }

  datatype Region = Region(base: nat, size: nat, ranges: seq<Range>) {
    function End(): nat { base + size }
  }

  datatype Error = EINVAL | EOVERFLOW | ENOMEM

  // ----- what a list means -----

  ghost predicate Covers(rs: seq<Range>, x: int)
  {
    exists i :: 0 <= i < |rs| && rs[i].addr <= x < rs[i].End()
  }

  ghost predicate Apart(rs: seq<Range>)
  {
    forall i, j :: 0 <= i < j < |rs| ==> rs[i].End() < rs[j].addr
  }

  /** Sorted, not empty, and with a gap between any two: the maximal intervals of a set. */
  ghost predicate Canonical(rs: seq<Range>)
  {
    (forall i :: 0 <= i < |rs| ==> rs[i].size > 0) && Apart(rs)
  }

  ghost predicate Inside(lo: nat, hi: nat, rs: seq<Range>)
  {
    forall i :: 0 <= i < |rs| ==> lo <= rs[i].addr && rs[i].End() <= hi
  }

  ghost predicate Aligned(rs: seq<Range>)
  {
    forall i :: 0 <= i < |rs| ==> rs[i].addr % PAGE == 0 && rs[i].size % PAGE == 0
  }

  ghost predicate Fine(r: Region)
  {
    r.End() < WORD && Canonical(r.ranges) && Aligned(r.ranges) && Inside(r.base, r.End(), r.ranges)
  }

  /** An empty list is not good: vm_region_alloc reads it as "all free". */
  ghost predicate Good(r: Region) { Fine(r) && r.ranges != [] }

  /** a before b with a gap. */
  ghost predicate Gap(a: seq<Range>, b: seq<Range>)
  {
    forall i, j :: 0 <= i < |a| && 0 <= j < |b| ==> a[i].End() < b[j].addr
  }

  lemma CanonicalConcat(a: seq<Range>, b: seq<Range>)
    ensures Canonical(a + b) <==> Canonical(a) && Canonical(b) && Gap(a, b)
  {
    var s := a + b;
    assert forall i :: 0 <= i < |a| ==> s[i] == a[i];
    assert forall i :: 0 <= i < |b| ==> b[i] == s[|a| + i];
  }

  lemma CoversConcat(a: seq<Range>, b: seq<Range>, x: int)
    ensures Covers(a + b, x) <==> Covers(a, x) || Covers(b, x)
  {
    var s := a + b;
    if Covers(a, x) {
      var i :| 0 <= i < |a| && a[i].addr <= x < a[i].End();
      assert s[i] == a[i];
    }
    if Covers(b, x) {
      var i :| 0 <= i < |b| && b[i].addr <= x < b[i].End();
      assert s[|a| + i] == b[i];
    }
  }

  lemma CoversOne(r: Range, x: int)
    ensures Covers([r], x) <==> r.addr <= x < r.End()
  {
    assert [r][0] == r;
  }

  lemma {:induction false} CanonicalUnique(a: seq<Range>, b: seq<Range>)
    requires Canonical(a) && Canonical(b) && forall x :: Covers(a, x) <==> Covers(b, x)
    ensures a == b
    decreases |a|
  {
    if a == [] || b == [] {
      if a != [] { assert a[0].addr <= a[0].addr < a[0].End(); assert Covers(a, a[0].addr); }
      if b != [] { assert b[0].addr <= b[0].addr < b[0].End(); assert Covers(b, b[0].addr); }
    } else {
      HeadsAgree(a, b);
      var a', b' := a[1..], b[1..];
      assert a == [a[0]] + a' && b == [b[0]] + b';
      CanonicalConcat([a[0]], a');
      CanonicalConcat([b[0]], b');
      forall x ensures Covers(a', x) <==> Covers(b', x) {
        CoversConcat([a[0]], a', x);
        CoversConcat([b[0]], b', x);
        CoversOne(a[0], x);
      }
      CanonicalUnique(a', b');
    }
  }

  lemma EndIsNotFree(rs: seq<Range>, i: nat)
    requires Canonical(rs) && i < |rs|
    ensures !Covers(rs, rs[i].End())
  {
  }

  lemma HeadReaches(a: seq<Range>, b: seq<Range>)
    requires Canonical(a) && Canonical(b) && a != [] && b != [] && a[0].addr == b[0].addr
    requires forall x :: Covers(a, x) <==> Covers(b, x)
    ensures b[0].End() <= a[0].End()
  {
    EndIsNotFree(a, 0);
    var e, h := a[0].End(), b[0];
    assert h.addr <= e < h.End() ==> Covers(b, e);
  }

  lemma HeadsAgree(a: seq<Range>, b: seq<Range>)
    requires Canonical(a) && Canonical(b) && a != [] && b != []
    requires forall x :: Covers(a, x) <==> Covers(b, x)
    ensures a[0] == b[0]
  {
    assert Covers(a, a[0].addr) && Covers(b, b[0].addr);
    HeadReaches(a, b);
    HeadReaches(b, a);
  }

  // ----- editing a list -----

  /** Replacing one range by ranges inside it. */
  lemma Splice(pre: seq<Range>, item: Range, post: seq<Range>, repl: seq<Range>)
    requires Canonical(pre + [item] + post) && Canonical(repl) && Inside(item.addr, item.End(), repl)
    ensures Canonical(pre + repl + post)
    ensures forall x :: Covers(pre + repl + post, x) <==>
                        Covers(pre + [item] + post, x) && (item.addr <= x < item.End() ==> Covers(repl, x))
  {
    CanonicalConcat(pre, [item]);
    CanonicalConcat(pre + [item], post);
    assert [item][0] == item;
    assert Gap([item], post) && Gap(pre, post) by {
      var a := pre + [item];
      assert forall i :: 0 <= i < |pre| ==> a[i] == pre[i];
      assert a[|pre|] == item;
    }
    CanonicalConcat(pre, repl);
    CanonicalConcat(pre + repl, post);
    forall x
      ensures Covers(pre + repl + post, x) <==>
              Covers(pre + [item] + post, x) && (item.addr <= x < item.End() ==> Covers(repl, x))
    {
      CoversConcat(pre + repl, post, x);
      CoversConcat(pre, repl, x);
      CoversConcat(pre + [item], post, x);
      CoversConcat(pre, [item], x);
      CoversOne(item, x);
    }
  }

  /** Replacing a stretch of the list by one range that fits its place. */
  lemma Grow(pre: seq<Range>, seg: seq<Range>, post: seq<Range>, g: Range)
    requires Canonical(pre + seg + post) && g.size > 0 && Gap(pre, [g]) && Gap([g], post) && Gap(pre, post)
    ensures Canonical(pre + [g] + post)
    ensures forall x :: Covers(pre + [g] + post, x) <==> Covers(pre, x) || g.addr <= x < g.End() || Covers(post, x)
    ensures forall x :: Covers(pre + seg + post, x) <==> Covers(pre, x) || Covers(seg, x) || Covers(post, x)
  {
    CanonicalConcat(pre, seg);
    CanonicalConcat(pre + seg, post);
    CanonicalConcat(pre, [g]);
    CanonicalConcat(pre + [g], post);
    forall x
      ensures Covers(pre + [g] + post, x) <==> Covers(pre, x) || g.addr <= x < g.End() || Covers(post, x)
      ensures Covers(pre + seg + post, x) <==> Covers(pre, x) || Covers(seg, x) || Covers(post, x)
    {
      CoversConcat(pre + [g], post, x);
      CoversConcat(pre, [g], x);
      CoversOne(g, x);
      CoversConcat(pre + seg, post, x);
      CoversConcat(pre, seg, x);
    }
  }

  // ----- vm_region_alloc -----

  datatype Allocated = Ok(region: Region, ret: nat) | Err(error: Error)

  /** The first range that is large enough, or |rs|. */
  ghost function FirstFit(rs: seq<Range>, size: nat): (i: nat)
    ensures i <= |rs|
    ensures forall j :: 0 <= j < i ==> rs[j].size < size
    ensures i < |rs| ==> rs[i].size >= size
  {
    if rs == [] || rs[0].size >= size then 0 else 1 + FirstFit(rs[1..], size)
  }

  /** The scan for a requested address, from range i on: the range it settles on, or None. */
  ghost function HintFit(rs: seq<Range>, i: nat, addr: nat, size: nat): (r: Option<nat>)
    requires i <= |rs|
    ensures r.Some? ==> i <= r.value < |rs|
    ensures r.Some? ==>
      var it := rs[r.value];
      it.addr <= addr < it.End() && size <= it.size && (it.size == size ==> it.addr == addr)
    decreases |rs| - i
  {
    if i == |rs| || addr < rs[i].addr then None
    else if addr >= rs[i].End() || size > rs[i].size || (rs[i].size == size && rs[i].addr != addr) then
      HintFit(rs, i + 1, addr, size)
    else Some(i)
  }

  /** Subtraction of size_t values. */
  function Sub(a: nat, b: nat): nat
  {
    if b <= a then a - b else (a - b) % WORD
  }

  /** What replaces the range the block is taken from. */
  function Rest(it: Range, addr: nat, size: nat): seq<Range>
    requires it.addr <= addr
  {
    var end := addr + size;
    if it.size == size then []
    else if addr == it.addr then [Range(end, Sub(it.size, size))]
    else if end == it.End() then [Range(it.addr, Sub(it.size, size))]
    else [Range(it.addr, addr - it.addr), Range(end, Sub(it.size, end - it.addr))]
  }

  /** A block strictly inside the range needs a second list node. */
  predicate NeedsNode(it: Range, addr: nat, size: nat)
  {
    it.size != size && addr != it.addr && addr + size != it.End()
  }

  ghost function Alloc(r: Region, addr: nat, size: nat, mem: bool): (a: Allocated)
    requires r.ranges != []
  {
    var rs := r.ranges;
    if addr % PAGE != 0 || size % PAGE != 0 || size == 0 then Err(EINVAL)
    else if addr + size >= WORD then Err(EOVERFLOW)
    else if addr != 0 && (addr < r.base || addr + size > r.End()) then Err(ENOMEM)
    else if addr == 0 then
      var i := FirstFit(rs, size);
      if i == |rs| then Err(ENOMEM)
      else Ok(r.(ranges := rs[..i] + Rest(rs[i], rs[i].addr, size) + rs[i + 1..]), rs[i].addr)
    else
      match HintFit(rs, 0, addr, size)
      case None => Err(ENOMEM)
      case Some(i) =>
        if NeedsNode(rs[i], addr, size) && !mem then Err(ENOMEM)
        else Ok(r.(ranges := rs[..i] + Rest(rs[i], addr, size) + rs[i + 1..]), addr)
  }

  /** The block was free, and exactly the block leaves the free set. */
  ghost predicate Removes(rs: seq<Range>, rs': seq<Range>, addr: nat, size: nat)
  {
    && (forall x :: addr <= x < addr + size ==> Covers(rs, x))
    && (forall x :: Covers(rs', x) <==> Covers(rs, x) && !(addr <= x < addr + size))
  }

  lemma TakeRemoves(r: Region, i: nat, addr: nat, size: nat)
    requires Good(r) && i < |r.ranges| && size > 0 && addr % PAGE == 0 && size % PAGE == 0
    requires r.ranges[i].addr <= addr && addr + size <= r.ranges[i].End()
    ensures var rs' := r.ranges[..i] + Rest(r.ranges[i], addr, size) + r.ranges[i + 1..];
            Canonical(rs') && Aligned(rs') && Inside(r.base, r.End(), rs') && Removes(r.ranges, rs', addr, size)
  {
    var rs, it := r.ranges, r.ranges[i];
    var repl := Rest(it, addr, size);
    var rs' := rs[..i] + repl + rs[i + 1..];
    assert rs == rs[..i] + [it] + rs[i + 1..];
    RestIsDifference(it, addr, size);
    RestAligned(it, addr, size);
    Splice(rs[..i], it, rs[i + 1..], repl);
    forall x | addr <= x < addr + size ensures Covers(rs, x) { assert rs[i].addr <= x < rs[i].End(); }
    forall x ensures Covers(rs', x) <==> Covers(rs, x) && !(addr <= x < addr + size) {
      if it.addr <= x < it.End() { assert Covers(rs, x); }
    }
    forall k | 0 <= k < |rs'|
      ensures r.base <= rs'[k].addr && rs'[k].End() <= r.End() && rs'[k].addr % PAGE == 0 && rs'[k].size % PAGE == 0
    {
      if k < i { assert rs'[k] == rs[k]; }
      else if k < i + |repl| { assert rs'[k] == repl[k - i]; }
      else { assert rs'[k] == rs[k - |repl| + 1]; }
    }
  }

  lemma PageSums(a: nat, b: nat)
    requires a % PAGE == 0 && b % PAGE == 0
    ensures (a + b) % PAGE == 0 && (b <= a ==> (a - b) % PAGE == 0)
  {
  }

  lemma RestAligned(it: Range, addr: nat, size: nat)
    requires size > 0 && it.addr <= addr && addr + size <= it.End() < WORD
    requires it.addr % PAGE == 0 && it.size % PAGE == 0 && addr % PAGE == 0 && size % PAGE == 0
    ensures Aligned(Rest(it, addr, size))
  {
    PageSums(addr, size);
    PageSums(addr, it.addr);
    PageSums(it.size, size);
    PageSums(it.addr, it.size);
    PageSums(it.End(), addr + size);
  }

  lemma RestIsDifference(it: Range, addr: nat, size: nat)
    requires size > 0 && it.addr <= addr && addr + size <= it.End() < WORD
    ensures Canonical(Rest(it, addr, size)) && Inside(it.addr, it.End(), Rest(it, addr, size))
    ensures forall x :: Covers(Rest(it, addr, size), x) <==> it.addr <= x < it.End() && !(addr <= x < addr + size)
  {
    var repl := Rest(it, addr, size);
    forall x ensures Covers(repl, x) <==> it.addr <= x < it.End() && !(addr <= x < addr + size) {
      if |repl| == 1 { CoversOne(repl[0], x); }
      else if |repl| == 2 {
        assert repl == [repl[0]] + [repl[1]];
        CoversConcat([repl[0]], [repl[1]], x);
        CoversOne(repl[0], x);
        CoversOne(repl[1], x);
      }
    }
  }

  /** A requested address whose range is longer than the request but ends before it does. */
  ghost predicate Overruns(rs: seq<Range>, addr: nat, size: nat)
  {
    addr != 0 && exists i :: 0 <= i < |rs| && rs[i].addr <= addr < rs[i].End() < addr + size && size < rs[i].size
  }

  /** The request takes the whole of the only range left. */
  ghost predicate Consumes(rs: seq<Range>, addr: nat, size: nat)
  {
    |rs| == 1 && rs[0].size == size && (addr == 0 || addr == rs[0].addr)
  }

  lemma OneRangeOverruns(rs: seq<Range>, i: nat, addr: nat, size: nat)
    requires Canonical(rs) && i < |rs| && rs[i].addr <= addr < rs[i].End() && addr != 0
    ensures Overruns(rs, addr, size) <==> rs[i].End() < addr + size && size < rs[i].size
  {
    if Overruns(rs, addr, size) {
      var j :| 0 <= j < |rs| && rs[j].addr <= addr < rs[j].End() < addr + size && size < rs[j].size;
      assert i == j;
    }
  }

  /** The range a granted request is taken from. */
  ghost function Source(rs: seq<Range>, addr: nat, size: nat): (i: nat)
    requires addr == 0 ==> FirstFit(rs, size) < |rs|
    requires addr != 0 ==> HintFit(rs, 0, addr, size).Some?
    ensures i < |rs| && size <= rs[i].size && (addr != 0 ==> rs[i].addr <= addr < rs[i].End())
    ensures addr != 0 && rs[i].size == size ==> rs[i].addr == addr
  {
    if addr == 0 then FirstFit(rs, size) else HintFit(rs, 0, addr, size).value
  }

  /** A granted request is exact, and leaves a good list, except in two cases: the code does not
      check the end of a requested block, and an emptied list would read as "all free". */
  lemma AllocExact(r: Region, addr: nat, size: nat, mem: bool)
    requires Good(r) && Alloc(r, addr, size, mem).Ok?
    ensures var a := Alloc(r, addr, size, mem);
            Good(a.region) && Removes(r.ranges, a.region.ranges, a.ret, size)
            <==> !Overruns(r.ranges, addr, size) && !Consumes(r.ranges, addr, size)
  {
    var rs, a := r.ranges, Alloc(r, addr, size, mem);
    var i := Source(rs, addr, size);
    assert a.region.ranges == rs[..i] + Rest(rs[i], a.ret, size) + rs[i + 1..];
    if addr != 0 { OneRangeOverruns(rs, i, addr, size); }
    if Overruns(rs, addr, size) {
      EndIsNotFree(rs, i);
      assert a.ret <= rs[i].End() < a.ret + size;
    } else {
      TakeRemoves(r, i, a.ret, size);
    }
  }

  /** The first of the two cases alone decides whether exactly the block is taken. */
  lemma AllocTakes(r: Region, addr: nat, size: nat, mem: bool)
    requires Good(r) && Alloc(r, addr, size, mem).Ok?
    ensures var a := Alloc(r, addr, size, mem);
            Fine(a.region) && Removes(r.ranges, a.region.ranges, a.ret, size) <==> !Overruns(r.ranges, addr, size)
    ensures Alloc(r, addr, size, mem).ret % PAGE == 0
  {
    var rs, a := r.ranges, Alloc(r, addr, size, mem);
    var i := Source(rs, addr, size);
    assert a.region.ranges == rs[..i] + Rest(rs[i], a.ret, size) + rs[i + 1..];
    if addr != 0 { OneRangeOverruns(rs, i, addr, size); }
    if Overruns(rs, addr, size) {
      EndIsNotFree(rs, i);
      assert a.ret <= rs[i].End() < a.ret + size;
    } else {
      TakeRemoves(r, i, a.ret, size);
    }
  }

  lemma {:induction false} HintFitFinds(rs: seq<Range>, i: nat, addr: nat, size: nat, k: nat)
    requires Canonical(rs) && i <= k < |rs| && rs[k].addr <= addr && addr + size <= rs[k].End() && size > 0
    ensures HintFit(rs, i, addr, size).Some?
    decreases k - i
  {
    if i < k {
      HintFitFinds(rs, i + 1, addr, size, k);
    }
  }

  /** A free block lies inside one range. */
  lemma FreeBlockInOneRange(rs: seq<Range>, addr: nat, size: nat) returns (k: nat)
    requires Canonical(rs) && size > 0 && forall x :: addr <= x < addr + size ==> Covers(rs, x)
    ensures k < |rs| && rs[k].addr <= addr && addr + size <= rs[k].End()
  {
    assert Covers(rs, addr);
    k :| 0 <= k < |rs| && rs[k].addr <= addr < rs[k].End();
    EndIsNotFree(rs, k);
  }

  /** With memory for list nodes, a well-formed request is refused only when it cannot be met. */
  lemma AllocComplete(r: Region, addr: nat, size: nat)
    requires Good(r) && Alloc(r, addr, size, true).Err?
    requires addr % PAGE == 0 && size % PAGE == 0 && size > 0
    ensures addr == 0 ==> forall i :: 0 <= i < |r.ranges| ==> r.ranges[i].size < size
    ensures addr != 0 ==> exists x :: addr <= x < addr + size && !Covers(r.ranges, x)
  {
    if addr != 0 && forall x :: addr <= x < addr + size ==> Covers(r.ranges, x) {
      var k := FreeBlockInOneRange(r.ranges, addr, size);
      HintFitFinds(r.ranges, 0, addr, size, k);
      assert false;
    }
    if addr == 0 && size >= WORD {
      assert forall i :: 0 <= i < |r.ranges| ==> r.ranges[i].size <= r.ranges[i].End() < WORD;
    }
  }

  // ----- the first allocation -----

  /** vm_region_alloc on a list that is still empty. */
  function AllocFresh(r: Region, addr: nat, size: nat, mem: bool): (a: Allocated)
  {
    var end := addr + size;
    if addr % PAGE != 0 || size % PAGE != 0 || size == 0 then Err(EINVAL)
    else if end >= WORD then Err(EOVERFLOW)
    else if addr != 0 && (addr < r.base || end > r.End()) then Err(ENOMEM)
    else if addr == 0 || addr == r.base then
      Ok(r.(ranges := [Range(r.base + size, Sub(r.size, size))]), r.base)
    else if end == r.End() then Ok(r.(ranges := [Range(r.base, Sub(r.size, size))]), addr)
    else if !mem then Err(ENOMEM)
    else Ok(r.(ranges := [Range(end, r.End() - end), Range(r.base, addr - r.base)]), addr)
  }

  /** The first allocation leaves the good list of what is left exactly when the block is smaller
      than the region and lies at one of its ends: a block in the middle leaves the two remaining
      ranges in the wrong order. */
  lemma FreshExact(r: Region, addr: nat, size: nat, mem: bool)
    requires r.End() < WORD && r.base % PAGE == 0 && r.size % PAGE == 0 && AllocFresh(r, addr, size, mem).Ok?
    ensures var a := AllocFresh(r, addr, size, mem);
            (Good(a.region) && forall x :: Covers(a.region.ranges, x) <==>
                                           r.base <= x < r.End() && !(a.ret <= x < a.ret + size))
            <==> size < r.size && (addr == 0 || addr == r.base || addr + size == r.End())
  {
    var a := AllocFresh(r, addr, size, mem);
    var rs := a.region.ranges;
    PageSums(r.base, size);
    PageSums(r.size, size);
    if size < r.size && (addr == 0 || addr == r.base || addr + size == r.End()) {
      assert |rs| == 1;
      forall x ensures Covers(rs, x) <==> r.base <= x < r.End() && !(a.ret <= x < a.ret + size) {
        CoversOne(rs[0], x);
      }
    } else if |rs| == 2 {
      assert !(rs[0].End() < rs[1].addr);
    } else if size == r.size {
      assert rs[0].size == 0;
    } else {
      assert rs[0].End() > r.End();
    }
  }

  // ----- vm_region_free -----

  datatype Spot = JoinRight(i: nat) | JoinLeft(i: nat) | Before(i: nat) | Tail

  /** Where the scan for a freed block stops, from range i on. */
  ghost function Scan(rs: seq<Range>, i: nat, addr: nat, size: nat): (p: Spot)
    requires i <= |rs|
    ensures p.Tail? || i <= p.i < |rs|
    ensures p.JoinRight? ==> rs[p.i].addr == addr + size
    decreases |rs| - i
  {
    if i == |rs| then Tail
    else if rs[i].addr == addr + size then JoinRight(i)
    else if rs[i].End() == addr then JoinLeft(i)
    else if addr < rs[i].addr then Before(i)
    else Scan(rs, i + 1, addr, size)
  }

  /** The list edit at that spot. */
  ghost function Edit(rs: seq<Range>, p: Spot, addr: nat, size: nat): (r: seq<Range>)
    requires p.Tail? || p.i < |rs|
    requires p.JoinRight? ==> rs[p.i].addr >= size
  {
    match p
    case JoinRight(i) =>
      var it := Range(rs[i].addr - size, rs[i].size + size);
      if i > 0 && rs[i - 1].End() == addr then
        rs[..i - 1] + [Range(rs[i - 1].addr, rs[i - 1].size + it.size)] + rs[i + 1..]
      else rs[..i] + [it] + rs[i + 1..]
    case JoinLeft(i) =>
      var it := Range(rs[i].addr, rs[i].size + size);
      if i + 1 < |rs| && rs[i + 1].addr == it.End() then
        rs[..i] + [Range(it.addr, it.size + rs[i + 1].size)] + rs[i + 2..]
      else rs[..i] + [it] + rs[i + 1..]
    case Before(i) => rs[..i] + [Range(addr, size)] + rs[i..]
    case Tail => rs + [Range(addr, size)]
  }

  datatype Freed = Done(region: Region) | Failed(error: Error)

  /** The block is not next to a range, so the list needs another node. */
  ghost predicate Detached(rs: seq<Range>, addr: nat, size: nat)
  {
    rs != [] && (Scan(rs, 0, addr, size).Before? || Scan(rs, 0, addr, size).Tail?)
  }

  /** vm_region_free.  Getting a list node may itself take memory from the region; `mid` is the list
      found after that, which is scanned again when the block goes before a range. */
  ghost function Free(r: Region, addr: nat, size: nat, mem: bool, mid: seq<Range>): (f: Freed)
  {
    var p := Scan(r.ranges, 0, addr, size);
    if addr % PAGE != 0 || size % PAGE != 0 then Failed(EINVAL)
    else if addr + size >= WORD then Failed(EOVERFLOW)
    else if r.ranges == [] then Done(r.(ranges := [Range(addr, size)]))
    else if (p.Before? || p.Tail?) && !mem then Failed(ENOMEM)
    else if p.Before? then Done(r.(ranges := Edit(mid, Scan(mid, 0, addr, size), addr, size)))
    else if p.Tail? then Done(r.(ranges := Edit(mid, Tail, addr, size)))
    else Done(r.(ranges := Edit(r.ranges, p, addr, size)))
  }

  /** A block that is in use: no part of it is free. */
  ghost predicate InUse(rs: seq<Range>, addr: nat, size: nat)
  {
    size > 0 && forall x :: addr <= x < addr + size ==> !Covers(rs, x)
  }

  lemma InUseAvoids(rs: seq<Range>, addr: nat, size: nat, i: nat)
    requires Canonical(rs) && InUse(rs, addr, size) && i < |rs|
    ensures addr + size <= rs[i].addr || rs[i].End() <= addr
  {
    if rs[i].addr < addr + size && addr < rs[i].End() {
      var x := if addr < rs[i].addr then rs[i].addr else addr;
      assert rs[i].addr <= x < rs[i].End();
      assert Covers(rs, x);
    }
  }

  /** The scan passes over the ranges that end before the block. */
  lemma {:induction false} ScanStops(rs: seq<Range>, i: nat, addr: nat, size: nat)
    requires Canonical(rs) && InUse(rs, addr, size) && i <= |rs|
    requires forall j :: 0 <= j < i ==> rs[j].End() < addr
    ensures var p := Scan(rs, i, addr, size);
            var k := if p.Tail? then |rs| else p.i;
            && (forall j :: 0 <= j < k ==> rs[j].End() < addr)
            && (p.JoinLeft? ==> rs[k].End() == addr)
            && (p.JoinRight? ==> rs[k].addr == addr + size)
            && (p.Before? ==> rs[k].addr > addr + size)
    decreases |rs| - i
  {
    if i < |rs| {
      InUseAvoids(rs, addr, size, i);
      if Scan(rs, i, addr, size) == Scan(rs, i + 1, addr, size) && rs[i].End() < addr {
        ScanStops(rs, i + 1, addr, size);
      }
    }
  }

  ghost predicate Adds(rs: seq<Range>, rs': seq<Range>, addr: nat, size: nat)
  {
    forall x :: Covers(rs', x) <==> Covers(rs, x) || addr <= x < addr + size
  }

  /** rs' is a good list for the set of rs and the block. */
  ghost predicate Improves(rs: seq<Range>, rs': seq<Range>, addr: nat, size: nat)
  {
    rs' != [] && Canonical(rs') && Aligned(rs') && Adds(rs, rs', addr, size)
  }

  lemma GapBefore(rs: seq<Range>, k: nat, g: Range)
    requires Canonical(rs) && k <= |rs| && forall j :: 0 <= j < k ==> rs[j].End() < g.addr
    ensures Gap(rs[..k], [g])
  {
  }

  lemma GapAfter(rs: seq<Range>, k: nat, g: Range)
    requires Canonical(rs) && k <= |rs| && (k < |rs| ==> g.End() < rs[k].addr)
    ensures Gap([g], rs[k..])
  {
    forall j | 0 <= j < |rs[k..]| ensures g.End() < rs[k..][j].addr {
      if j > 0 { assert rs[k].End() < rs[k + j].addr; }
    }
  }

  /** Range g is the stretch seg together with the block. */
  ghost predicate Fills(g: Range, seg: seq<Range>, addr: nat, size: nat)
  {
    g.size > 0 && forall x :: g.addr <= x < g.End() <==> Covers(seg, x) || addr <= x < addr + size
  }

  /** One stretch rs[lo..hi] of the list replaced by one range g. */
  lemma EditAdds(rs: seq<Range>, lo: nat, hi: nat, seg: seq<Range>, g: Range, addr: nat, size: nat)
    requires Canonical(rs) && Aligned(rs) && lo <= hi <= |rs| && seg == rs[lo..hi] && Fills(g, seg, addr, size)
    requires g.addr % PAGE == 0 && g.size % PAGE == 0
    requires forall j :: 0 <= j < lo ==> rs[j].End() < g.addr
    requires hi < |rs| ==> g.End() < rs[hi].addr
    ensures Improves(rs, rs[..lo] + [g] + rs[hi..], addr, size)
  {
    assert rs == rs[..lo] + rs[lo..hi] + rs[hi..];
    GapBefore(rs, lo, g);
    GapAfter(rs, hi, g);
    assert Gap(rs[..lo], rs[hi..]) by {
      forall i, j | 0 <= i < lo && 0 <= j < |rs[hi..]| ensures rs[..lo][i].End() < rs[hi..][j].addr {
        assert rs[hi..][j] == rs[hi + j];
      }
    }
    Grow(rs[..lo], rs[lo..hi], rs[hi..], g);
  }

  lemma FillsOne(g: Range, it: Range, addr: nat, size: nat)
    requires size > 0 && g.size == it.size + size
    requires (it.addr == addr + size && g.addr == addr) || (it.End() == addr && g.addr == it.addr)
    ensures Fills(g, [it], addr, size)
  {
    forall x ensures g.addr <= x < g.End() <==> Covers([it], x) || addr <= x < addr + size {
      CoversOne(it, x);
    }
  }

  lemma FillsTwo(g: Range, a: Range, b: Range, addr: nat, size: nat)
    requires size > 0 && a.End() == addr && addr + size == b.addr
    requires g.addr == a.addr && g.size == a.size + size + b.size
    ensures Fills(g, [a] + [b], addr, size)
  {
    forall x ensures g.addr <= x < g.End() <==> Covers([a] + [b], x) || addr <= x < addr + size {
      CoversConcat([a], [b], x);
      CoversOne(a, x);
      CoversOne(b, x);
    }
  }

  lemma FillsNone(addr: nat, size: nat)
    requires size > 0
    ensures Fills(Range(addr, size), [], addr, size)
  {
  }

  lemma ExtendAdds(rs: seq<Range>, i: nat, g: Range, addr: nat, size: nat)
    requires Canonical(rs) && Aligned(rs) && i < |rs| && Fills(g, [rs[i]], addr, size)
    requires g.addr % PAGE == 0 && g.size % PAGE == 0
    requires forall j :: 0 <= j < i ==> rs[j].End() < g.addr
    requires i + 1 < |rs| ==> g.End() < rs[i + 1].addr
    ensures Improves(rs, rs[..i] + [g] + rs[i + 1..], addr, size)
  {
    EditAdds(rs, i, i + 1, [rs[i]], g, addr, size);
  }

  /** The block closes the gap between ranges i and i + 1. */
  lemma BridgeAdds(rs: seq<Range>, i: nat, g: Range, addr: nat, size: nat)
    requires Canonical(rs) && Aligned(rs) && i + 1 < |rs| && Fills(g, [rs[i]] + [rs[i + 1]], addr, size)
    requires g.addr == rs[i].addr && g.End() == rs[i + 1].End() && g.size % PAGE == 0
    ensures Improves(rs, rs[..i] + [g] + rs[i + 2..], addr, size)
  {
    EditAdds(rs, i, i + 2, [rs[i]] + [rs[i + 1]], g, addr, size);
  }

  /** The block touches nothing. */
  lemma PlaceAdds(rs: seq<Range>, i: nat, addr: nat, size: nat)
    requires Canonical(rs) && Aligned(rs) && i <= |rs| && size > 0 && addr % PAGE == 0 && size % PAGE == 0
    requires forall j :: 0 <= j < i ==> rs[j].End() < addr
    requires i < |rs| ==> addr + size < rs[i].addr
    ensures Improves(rs, rs[..i] + [Range(addr, size)] + rs[i..], addr, size)
  {
    FillsNone(addr, size);
    EditAdds(rs, i, i, [], Range(addr, size), addr, size);
  }

  lemma JoinRightAdds(rs: seq<Range>, i: nat, addr: nat, size: nat)
    requires Canonical(rs) && Aligned(rs) && i < |rs| && size > 0 && rs[i].addr == addr + size
    requires addr % PAGE == 0 && size % PAGE == 0
    requires forall j :: 0 <= j < i ==> rs[j].End() < addr
    ensures Improves(rs, Edit(rs, JoinRight(i), addr, size), addr, size)
  {
    var g := Range(addr, rs[i].size + size);
    PageSums(rs[i].size, size);
    FillsOne(g, rs[i], addr, size);
    ExtendAdds(rs, i, g, addr, size);
    assert Edit(rs, JoinRight(i), addr, size) == rs[..i] + [g] + rs[i + 1..];
  }

  lemma JoinLeftAdds(rs: seq<Range>, i: nat, addr: nat, size: nat)
    requires Canonical(rs) && Aligned(rs) && i < |rs| && size > 0 && rs[i].End() == addr
    requires addr % PAGE == 0 && size % PAGE == 0
    requires i + 1 < |rs| ==> addr + size <= rs[i + 1].addr
    ensures Improves(rs, Edit(rs, JoinLeft(i), addr, size), addr, size)
  {
    PageSums(rs[i].size, size);
    if i + 1 < |rs| && rs[i + 1].addr == addr + size {
      PageSums(rs[i].size + size, rs[i + 1].size);
      var g := Range(rs[i].addr, rs[i].size + size + rs[i + 1].size);
      FillsTwo(g, rs[i], rs[i + 1], addr, size);
      BridgeAdds(rs, i, g, addr, size);
      assert Edit(rs, JoinLeft(i), addr, size) == rs[..i] + [g] + rs[i + 2..];
    } else {
      var g := Range(rs[i].addr, rs[i].size + size);
      FillsOne(g, rs[i], addr, size);
      ExtendAdds(rs, i, g, addr, size);
      assert Edit(rs, JoinLeft(i), addr, size) == rs[..i] + [g] + rs[i + 1..];
    }
  }

  /** Whatever spot the scan finds, the edit adds exactly the block and keeps the list canonical. */
  lemma MergeAdds(rs: seq<Range>, addr: nat, size: nat)
    requires Canonical(rs) && Aligned(rs) && InUse(rs, addr, size) && addr % PAGE == 0 && size % PAGE == 0
    ensures Improves(rs, Edit(rs, Scan(rs, 0, addr, size), addr, size), addr, size)
  {
    ScanStops(rs, 0, addr, size);
    match Scan(rs, 0, addr, size) {
      case JoinRight(i) => JoinRightAdds(rs, i, addr, size);
      case JoinLeft(i) =>
        if i + 1 < |rs| { InUseAvoids(rs, addr, size, i + 1); }
        JoinLeftAdds(rs, i, addr, size);
      case Before(i) => PlaceAdds(rs, i, addr, size);
      case Tail =>
        assert rs[..|rs|] + [Range(addr, size)] + rs[|rs|..] == rs + [Range(addr, size)];
        PlaceAdds(rs, |rs|, addr, size);
    }
  }

  lemma InsideFromCovers(lo: nat, hi: nat, rs: seq<Range>)
    requires Canonical(rs) && forall x :: Covers(rs, x) ==> lo <= x < hi
    ensures Inside(lo, hi, rs)
  {
    forall k | 0 <= k < |rs| ensures lo <= rs[k].addr && rs[k].End() <= hi {
      assert Covers(rs, rs[k].addr);
      assert Covers(rs, rs[k].End() - 1);
    }
  }

  /** A block after the last range is after the last one of any smaller set too. */
  lemma {:induction false} TailScan(rs: seq<Range>, i: nat, addr: nat, size: nat)
    requires i <= |rs| && size > 0 && forall k :: i <= k < |rs| ==> rs[k].End() < addr
    ensures Scan(rs, i, addr, size) == Tail
    decreases |rs| - i
  {
    if i < |rs| { TailScan(rs, i + 1, addr, size); }
  }

  lemma {:induction false} TailIsLast(rs: seq<Range>, i: nat, addr: nat, size: nat)
    requires i <= |rs| && Canonical(rs) && InUse(rs, addr, size) && Scan(rs, i, addr, size) == Tail
    ensures forall k :: i <= k < |rs| ==> rs[k].End() < addr
    decreases |rs| - i
  {
    if i < |rs| {
      InUseAvoids(rs, addr, size, i);
      TailIsLast(rs, i + 1, addr, size);
    }
  }

  lemma SmallerTail(rs: seq<Range>, mid: seq<Range>, addr: nat, size: nat)
    requires Canonical(rs) && Canonical(mid) && InUse(rs, addr, size) && Scan(rs, 0, addr, size) == Tail
    requires forall x :: Covers(mid, x) ==> Covers(rs, x)
    ensures Scan(mid, 0, addr, size) == Tail
  {
    TailIsLast(rs, 0, addr, size);
    forall k | 0 <= k < |mid| ensures mid[k].End() < addr {
      assert Covers(mid, mid[k].End() - 1);
      assert Covers(rs, mid[k].End() - 1);
    }
    TailScan(mid, 0, addr, size);
  }

  /** Freeing a block that is in use adds exactly the block and leaves a good list; to the list after
      getting a node, if it needed one. */
  lemma FreeExact(r: Region, addr: nat, size: nat, mid: seq<Range>)
    requires Fine(r) && InUse(r.ranges, addr, size) && r.base <= addr && addr + size <= r.End()
    requires addr % PAGE == 0 && size % PAGE == 0
    requires Canonical(mid) && Aligned(mid) && forall x :: Covers(mid, x) ==> Covers(r.ranges, x)
    ensures var f := Free(r, addr, size, true, mid);
            && f.Done? && Good(f.region)
            && Adds(if Detached(r.ranges, addr, size) then mid else r.ranges, f.region.ranges, addr, size)
  {
    var rs := if Detached(r.ranges, addr, size) then mid else r.ranges;
    FreeIsEdit(r, addr, size, mid);
    MergeAdds(rs, addr, size);
    FreedCovers(r, rs, addr, size);
    InsideFromCovers(r.base, r.End(), Edit(rs, Scan(rs, 0, addr, size), addr, size));
  }

  /** Whichever branch is taken, the block goes where a scan of the list at hand says. */
  lemma FreeIsEdit(r: Region, addr: nat, size: nat, mid: seq<Range>)
    requires Fine(r) && InUse(r.ranges, addr, size) && addr + size <= r.End()
    requires addr % PAGE == 0 && size % PAGE == 0 && Canonical(mid)
    requires forall x :: Covers(mid, x) ==> Covers(r.ranges, x)
    ensures var rs := if Detached(r.ranges, addr, size) then mid else r.ranges;
            Free(r, addr, size, true, mid) == Done(r.(ranges := Edit(rs, Scan(rs, 0, addr, size), addr, size)))
  {
    if r.ranges == [] {
      assert [] + [Range(addr, size)] == [Range(addr, size)];
    } else if Scan(r.ranges, 0, addr, size).Tail? {
      SmallerTail(r.ranges, mid, addr, size);
    }
  }

  lemma FreedCovers(r: Region, rs: seq<Range>, addr: nat, size: nat)
    requires Fine(r) && forall x :: Covers(rs, x) ==> Covers(r.ranges, x)
    requires r.base <= addr && addr + size <= r.End() && size > 0
    requires Improves(rs, Edit(rs, Scan(rs, 0, addr, size), addr, size), addr, size)
    ensures forall x :: Covers(Edit(rs, Scan(rs, 0, addr, size), addr, size), x) ==> r.base <= x < r.End()
  {
  }

  /** Allocating and freeing again gives back the very same list, also when nothing was left. */
  lemma AllocFreeRoundTrip(r: Region, addr: nat, size: nat, mem: bool)
    requires Good(r) && Alloc(r, addr, size, mem).Ok? && !Overruns(r.ranges, addr, size)
    ensures var a := Alloc(r, addr, size, mem); Free(a.region, a.ret, size, true, a.region.ranges) == Done(r)
  {
    var a := Alloc(r, addr, size, mem);
    AllocTakes(r, addr, size, mem);
    assert forall x :: a.ret <= x < a.ret + size ==> Covers(r.ranges, x) && !Covers(a.region.ranges, x);
    var k := FreeBlockInOneRange(r.ranges, a.ret, size);
    FreeExact(a.region, a.ret, size, a.region.ranges);
    CanonicalUnique(Free(a.region, a.ret, size, true, a.region.ranges).region.ranges, r.ranges);
  }

  // ----- every run -----

  /** A region and the blocks taken from it. */
  datatype Heap = Heap(r: Region, used: seq<Range>)

  datatype Event =
    | Take(addr: nat, size: nat, mem: bool)
    | Give(i: nat, mem: bool, grab: nat)    // frees block i; getting a node takes grab bytes of the region first

  ghost predicate Enabled(h: Heap, e: Event)
  {
    e.Give? ==> e.i < |h.used|
  }

  /** vm_region_alloc. */
  ghost function Grant(r: Region, addr: nat, size: nat, mem: bool): Allocated
  {
    if r.ranges == [] then AllocFresh(r, addr, size, mem) else Alloc(r, addr, size, mem)
  }

  ghost function TakeStep(h: Heap, addr: nat, size: nat, mem: bool): (r: Heap)
    ensures h.used <= r.used
  {
    match Grant(h.r, addr, size, mem)
    case Ok(r, a) => Heap(r, h.used + [Range(a, size)])
    case Err(_) => h
  }

  function Cut(used: seq<Range>, i: nat): seq<Range>
    requires i < |used|
  {
    used[..i] + used[i + 1..]
  }

  /** The region once the node for freeing block i has been got. */
  ghost function WithNode(h: Heap, i: nat, mem: bool, grab: nat): (r: Heap)
    requires i < |h.used|
    ensures h.used <= r.used
  {
    if Detached(h.r.ranges, h.used[i].addr, h.used[i].size) && mem && grab > 0 then TakeStep(h, 0, grab, true) else h
  }

  ghost function GiveStep(h: Heap, i: nat, mem: bool, grab: nat): Heap
    requires i < |h.used|
  {
    var b, h1 := h.used[i], WithNode(h, i, mem, grab);
    match Free(h.r, b.addr, b.size, mem, h1.r.ranges)
    case Done(r) => Heap(r, Cut(h1.used, i))
    case Failed(_) => h
  }

  ghost function Step(h: Heap, e: Event): Heap
    requires Enabled(h, e)
  {
    match e
    case Take(addr, size, mem) => TakeStep(h, addr, size, mem)
    case Give(i, mem, grab) => GiveStep(h, i, mem, grab)
  }

  /** Blocks apart from each other, inside the region, of whole pages. */
  ghost predicate Blocks(r: Region, used: seq<Range>)
  {
    && Aligned(used) && Inside(r.base, r.End(), used)
    && (forall i :: 0 <= i < |used| ==> used[i].size > 0)
    && (forall i, j :: 0 <= i < j < |used| ==> used[i].End() <= used[j].addr || used[j].End() <= used[i].addr)
  }

  /** What was free at first is now free or in use, and never both. */
  ghost predicate Shares(all: seq<Range>, h: Heap)
  {
    && (forall x :: Covers(all, x) <==> Covers(h.r.ranges, x) || Covers(h.used, x))
    && (forall x :: !(Covers(h.r.ranges, x) && Covers(h.used, x)))
  }

  ghost predicate Inv(all: seq<Range>, h: Heap) { Fine(h.r) && Blocks(h.r, h.used) && Shares(all, h) }

  lemma UsedApart(h: Heap, b: Range, i: nat)
    requires Fine(h.r) && b.size > 0 && i < |h.used| && h.used[i].size > 0
    requires forall x :: b.addr <= x < b.End() ==> Covers(h.r.ranges, x)
    requires forall x :: !(Covers(h.r.ranges, x) && Covers(h.used, x))
    ensures h.used[i].End() <= b.addr || b.End() <= h.used[i].addr
  {
    var u := h.used[i];
    var x := if b.addr < u.addr then u.addr else b.addr;
    assert u.addr <= x < u.End() ==> Covers(h.used, x);
    assert b.addr <= x < b.End() ==> Covers(h.r.ranges, x);
  }

  lemma TakeKeepsBlocks(h: Heap, b: Range)
    requires Fine(h.r) && Blocks(h.r, h.used) && b.size > 0 && b.addr % PAGE == 0 && b.size % PAGE == 0
    requires forall x :: b.addr <= x < b.End() ==> Covers(h.r.ranges, x)
    requires forall x :: !(Covers(h.r.ranges, x) && Covers(h.used, x))
    ensures Blocks(h.r, h.used + [b])
  {
    assert Covers(h.r.ranges, b.addr) && Covers(h.r.ranges, b.End() - 1);
    forall i | 0 <= i < |h.used| ensures h.used[i].End() <= b.addr || b.End() <= h.used[i].addr {
      UsedApart(h, b, i);
    }
  }

  lemma TakeKeepsInv(all: seq<Range>, h: Heap, addr: nat, size: nat, mem: bool)
    requires Inv(all, h) && h.r.ranges != [] && !Overruns(h.r.ranges, addr, size)
    ensures Inv(all, TakeStep(h, addr, size, mem))
  {
    if Alloc(h.r, addr, size, mem).Ok? {
      var a := Alloc(h.r, addr, size, mem);
      var b := Range(a.ret, size);
      AllocTakes(h.r, addr, size, mem);
      TakeKeepsBlocks(h, b);
      forall x ensures Covers(h.used + [b], x) <==> Covers(h.used, x) || b.addr <= x < b.End() {
        CoversConcat(h.used, [b], x);
        CoversOne(b, x);
      }
    }
  }

  lemma CutCovers(used: seq<Range>, i: nat, x: int)
    requires i < |used|
    ensures Covers(used, x) <==> Covers(Cut(used, i), x) || used[i].addr <= x < used[i].End()
  {
    assert used == used[..i] + ([used[i]] + used[i + 1..]);
    CoversConcat(used[..i], [used[i]] + used[i + 1..], x);
    CoversConcat([used[i]], used[i + 1..], x);
    CoversConcat(used[..i], used[i + 1..], x);
    CoversOne(used[i], x);
  }

  lemma CutKeepsBlocks(r: Region, used: seq<Range>, i: nat)
    requires i < |used| && Blocks(r, used)
    ensures Blocks(r, Cut(used, i))
    ensures forall x :: used[i].addr <= x < used[i].End() ==> !Covers(Cut(used, i), x)
  {
    var c := Cut(used, i);
    assert forall k :: 0 <= k < |c| ==> c[k] == used[if k < i then k else k + 1];
  }

  /** A block in use, given back to the list after getting a node. */
  lemma FreedKeepsInv(all: seq<Range>, h: Heap, i: nat, rs: seq<Range>)
    requires Inv(all, h) && i < |h.used| && Fine(h.r.(ranges := rs))
    requires Adds(h.r.ranges, rs, h.used[i].addr, h.used[i].size)
    ensures Inv(all, Heap(h.r.(ranges := rs), Cut(h.used, i)))
  {
    CutKeepsBlocks(h.r, h.used, i);
    forall x ensures Covers(h.used, x) <==> Covers(Cut(h.used, i), x) || h.used[i].addr <= x < h.used[i].End() {
      CutCovers(h.used, i, x);
    }
  }

  lemma WithNodeKeepsInv(all: seq<Range>, h: Heap, i: nat, mem: bool, grab: nat)
    requires Inv(all, h) && i < |h.used|
    ensures var h1 := WithNode(h, i, mem, grab);
            && Inv(all, h1) && i < |h1.used| && h1.used[i] == h.used[i]
            && h1.r.(ranges := h.r.ranges) == h.r
            && forall x :: Covers(h1.r.ranges, x) ==> Covers(h.r.ranges, x)
  {
    if h.r.ranges != [] {
      TakeKeepsInv(all, h, 0, grab, true);
      if Alloc(h.r, 0, grab, true).Ok? { AllocTakes(h.r, 0, grab, true); }
    }
  }

  lemma GiveKeepsInv(all: seq<Range>, h: Heap, i: nat, mem: bool, grab: nat)
    requires Inv(all, h) && i < |h.used|
    ensures Inv(all, GiveStep(h, i, mem, grab))
  {
    var b, h1 := h.used[i], WithNode(h, i, mem, grab);
    var f := Free(h.r, b.addr, b.size, mem, h1.r.ranges);
    WithNodeKeepsInv(all, h, i, mem, grab);
    if f.Done? {
      assert forall x :: b.addr <= x < b.End() ==> Covers(h.used, x);
      FreeExact(h.r, b.addr, b.size, h1.r.ranges);
      assert f == Free(h.r, b.addr, b.size, true, h1.r.ranges);
      assert f.region == h1.r.(ranges := f.region.ranges);
      FreedKeepsInv(all, h1, i, f.region.ranges);
    }
  }

  /** A request that is refused, or met from its range: an empty list would be read as "all free". */
  ghost predicate Kept(h: Heap, e: Event)
  {
    e.Take? ==>
      Grant(h.r, e.addr, e.size, e.mem).Err? || (h.r.ranges != [] && !Overruns(h.r.ranges, e.addr, e.size))
  }

  /** A list that shares with one more block has lost exactly the block. */
  lemma SharesRemoves(all: seq<Range>, h: Heap, rs: seq<Range>, b: Range)
    requires Shares(all, h) && b.size > 0 && Blocks(h.r, h.used + [b])
    requires Shares(all, Heap(h.r.(ranges := rs), h.used + [b]))
    ensures Removes(h.r.ranges, rs, b.addr, b.size)
  {
    forall x ensures Covers(h.used + [b], x) <==> Covers(h.used, x) || b.addr <= x < b.End() {
      CoversConcat(h.used, [b], x);
      CoversOne(b, x);
    }
    forall x | b.addr <= x < b.End() ensures Covers(h.r.ranges, x) {
      NewBlockApart(h.r, h.used, b, x);
    }
  }

  lemma NewBlockApart(r: Region, used: seq<Range>, b: Range, x: int)
    requires Blocks(r, used + [b]) && b.addr <= x < b.End()
    ensures !Covers(used, x)
  {
    var us := used + [b];
    assert us[|used|] == b && forall i :: 0 <= i < |used| ==> us[i] == used[i];
  }

  /** A grant from the list keeps the invariant exactly when it does not overrun. */
  lemma GrantKeepsExactly(all: seq<Range>, h: Heap, addr: nat, size: nat, mem: bool)
    requires Inv(all, h) && h.r.ranges != [] && Grant(h.r, addr, size, mem).Ok?
    ensures Inv(all, TakeStep(h, addr, size, mem)) <==> !Overruns(h.r.ranges, addr, size)
  {
    var a := Alloc(h.r, addr, size, mem);
    if !Overruns(h.r.ranges, addr, size) {
      TakeKeepsInv(all, h, addr, size, mem);
    } else {
      AllocTakes(h.r, addr, size, mem);
      if Inv(all, TakeStep(h, addr, size, mem)) {
        SharesRemoves(all, h, a.region.ranges, Range(a.ret, size));
      }
    }
  }

  lemma FreshRanges(r: Region, addr: nat, size: nat, mem: bool)
    requires AllocFresh(r, addr, size, mem).Ok?
    ensures AllocFresh(r, addr, size, mem).region.ranges != []
  {
  }

  /** A grant from an emptied list never does: the list it leaves would have to be in use already. */
  lemma EmptiedBreaks(all: seq<Range>, h: Heap, addr: nat, size: nat, mem: bool)
    requires Inv(all, h) && h.r.ranges == [] && Grant(h.r, addr, size, mem).Ok?
    ensures !Inv(all, TakeStep(h, addr, size, mem))
  {
    var h' := TakeStep(h, addr, size, mem);
    FreshRanges(h.r, addr, size, mem);
    var x, b := h'.r.ranges[0].addr, h'.used[|h.used|];
    assert h'.used == h.used + [b];
    CoversConcat(h.used, [b], x);
    assert Canonical(h'.r.ranges) ==> Covers(h'.r.ranges, x);
  }

  lemma StepKeepsInv(all: seq<Range>, h: Heap, e: Event)
    requires Inv(all, h) && Enabled(h, e)
    ensures Inv(all, Step(h, e)) <==> Kept(h, e)
  {
    match e
    case Take(addr, size, mem) =>
      if Grant(h.r, addr, size, mem).Ok? {
        if h.r.ranges == [] {
          EmptiedBreaks(all, h, addr, size, mem);
        } else {
          GrantKeepsExactly(all, h, addr, size, mem);
        }
      }
    case Give(i, mem, grab) => GiveKeepsInv(all, h, i, mem, grab);
  }

  ghost predicate IsRun(h: Heap, es: seq<Event>)
    decreases |es|
  {
    es == [] || (Enabled(h, es[0]) && IsRun(Step(h, es[0]), es[1..]))
  }

  ghost function Run(h: Heap, es: seq<Event>): Heap
    requires IsRun(h, es)
    decreases |es|
  {
    if es == [] then h else Run(Step(h, es[0]), es[1..])
  }

  /** Every state of a run. */
  ghost predicate Always(all: seq<Range>, h: Heap, es: seq<Event>)
    requires IsRun(h, es)
    decreases |es|
  {
    Inv(all, h) && (es == [] || Always(all, Step(h, es[0]), es[1..]))
  }

  ghost predicate AllKept(h: Heap, es: seq<Event>)
    requires IsRun(h, es)
    decreases |es|
  {
    es == [] || (Kept(h, es[0]) && AllKept(Step(h, es[0]), es[1..]))
  }

  /** Over a run of allocations and frees the list stays canonical, and what it covers is what was free
      at first less the blocks in use, which are apart from each other: exactly when no request is met
      past its range or from an emptied list. */
  lemma {:induction false} RunsKeepInv(all: seq<Range>, h: Heap, es: seq<Event>)
    requires Inv(all, h) && IsRun(h, es)
    ensures Always(all, h, es) <==> AllKept(h, es)
    ensures AllKept(h, es) ==> Inv(all, Run(h, es))
    decreases |es|
  {
    if es == [] {
    } else {
      StepKeepsInv(all, h, es[0]);
      if Kept(h, es[0]) { RunsKeepInv(all, Step(h, es[0]), es[1..]); }
    }
  }

  /** So once every block has been given back, however the run went, the list is the first one again. */
  lemma BackToStart(r: Region, es: seq<Event>)
    requires Fine(r) && IsRun(Heap(r, []), es) && AllKept(Heap(r, []), es) && Run(Heap(r, []), es).used == []
    ensures Run(Heap(r, []), es).r.ranges == r.ranges
  {
    RunsKeepInv(r.ranges, Heap(r, []), es);
    CanonicalUnique(Run(Heap(r, []), es).r.ranges, r.ranges);
  }

  // ----- runs from vm_region_init on -----

  /** The region as vm_region_init leaves it: the empty list stands for everything. */
  ghost predicate Fresh(h: Heap) { h.r.ranges == [] && h.used == [] }

  ghost predicate Whole(r: Region)
  {
    r.End() < WORD && r.base % PAGE == 0 && r.size % PAGE == 0
  }

  /** Still as vm_region_init left it, or a list that shares the region r with the blocks in use. */
  ghost predicate Sound(r: Region, h: Heap)
  {
    h.r.base == r.base && h.r.size == r.size && (Fresh(h) || Inv([Range(r.base, r.size)], h))
  }

  /** The first block leaves something, and lies at an end of the region. */
  ghost predicate FirstFits(r: Region, addr: nat, size: nat)
  {
    size < r.size && (addr == 0 || addr == r.base || addr + size == r.End())
  }

  ghost predicate Safe(h: Heap, e: Event)
  {
    if Fresh(h) && e.Take? then Grant(h.r, e.addr, e.size, e.mem).Err? || FirstFits(h.r, e.addr, e.size)
    else Kept(h, e)
  }

  ghost predicate Leaves(r: Region, rs: seq<Range>, b: Range)
  {
    forall x :: Covers(rs, x) <==> r.base <= x < r.End() && !(b.addr <= x < b.End())
  }

  /** A first block and a list share the region exactly when the list is the rest of it. */
  lemma FirstShares(r: Region, rs: seq<Range>, b: Range)
    requires b.size > 0
    ensures Shares([Range(r.base, r.size)], Heap(r.(ranges := rs), [b])) <==>
      r.base <= b.addr && b.End() <= r.End() && Leaves(r, rs, b)
  {
    var all := [Range(r.base, r.size)];
    forall x ensures Covers([b], x) <==> b.addr <= x < b.End() { CoversOne(b, x); }
    forall x ensures Covers(all, x) <==> r.base <= x < r.End() { CoversOne(all[0], x); }
    if Shares(all, Heap(r.(ranges := rs), [b])) {
      assert Covers([b], b.addr) && Covers([b], b.End() - 1);
      assert Covers(all, b.addr) && Covers(all, b.End() - 1);
    }
  }

  lemma FirstIsInside(r: Region, addr: nat, size: nat, mem: bool)
    requires Whole(r) && AllocFresh(r, addr, size, mem).Ok?
    ensures var a := AllocFresh(r, addr, size, mem); a.ret % PAGE == 0 && r.base <= a.ret
    ensures FirstFits(r, addr, size) ==> AllocFresh(r, addr, size, mem).ret + size <= r.End()
  {
  }

  lemma FirstTakeExactly(h: Heap, addr: nat, size: nat, mem: bool)
    requires Whole(h.r) && Fresh(h) && Grant(h.r, addr, size, mem).Ok?
    ensures Inv([Range(h.r.base, h.r.size)], TakeStep(h, addr, size, mem)) <==> FirstFits(h.r, addr, size)
  {
    var a := AllocFresh(h.r, addr, size, mem);
    var b := Range(a.ret, size);
    assert h.used + [b] == [b];
    FreshExact(h.r, addr, size, mem);
    FreshRanges(h.r, addr, size, mem);
    FirstIsInside(h.r, addr, size, mem);
    FirstShares(h.r, a.region.ranges, b);
    assert FirstFits(h.r, addr, size) <==> Good(a.region) && Leaves(h.r, a.region.ranges, b);
  }

  /** From vm_region_init on, a step is sound exactly when it is safe. */
  lemma StepIsSound(r: Region, h: Heap, e: Event)
    requires Whole(r) && Sound(r, h) && Enabled(h, e)
    ensures Sound(r, Step(h, e)) <==> Safe(h, e)
  {
    var all := [Range(r.base, r.size)];
    if Fresh(h) {
      if Grant(h.r, e.addr, e.size, e.mem).Ok? { FirstTakeExactly(h, e.addr, e.size, e.mem); }
    } else {
      StepKeepsInv(all, h, e);
    }
  }

  ghost predicate AlwaysSound(r: Region, h: Heap, es: seq<Event>)
    requires IsRun(h, es)
    decreases |es|
  {
    Sound(r, h) && (es == [] || AlwaysSound(r, Step(h, es[0]), es[1..]))
  }

  ghost predicate AllSafe(h: Heap, es: seq<Event>)
    requires IsRun(h, es)
    decreases |es|
  {
    es == [] || (Safe(h, es[0]) && AllSafe(Step(h, es[0]), es[1..]))
  }

  lemma {:induction false} RunsAreSound(r: Region, h: Heap, es: seq<Event>)
    requires Whole(r) && Sound(r, h) && IsRun(h, es)
    ensures AlwaysSound(r, h, es) <==> AllSafe(h, es)
    ensures AllSafe(h, es) ==> Sound(r, Run(h, es))
    decreases |es|
  {
    if es == [] {
    } else {
      StepIsSound(r, h, es[0]);
      if Safe(h, es[0]) { RunsAreSound(r, Step(h, es[0]), es[1..]); }
    }
  }

  /** A run from vm_region_init on whose blocks have all been given back ends with the whole region as
      one range, or as it began if every request was refused. */
  lemma BackToWhole(r: Region, es: seq<Event>)
    requires Whole(r) && r.ranges == [] && IsRun(Heap(r, []), es) && AllSafe(Heap(r, []), es)
    requires Run(Heap(r, []), es).used == [] && r.size > 0
    ensures var z := Run(Heap(r, []), es); z.r.ranges == [Range(r.base, r.size)] || z == Heap(r, [])
  {
    var z := Run(Heap(r, []), es);
    RunsAreSound(r, Heap(r, []), es);
    if !Fresh(z) { CanonicalUnique(z.r.ranges, [Range(r.base, r.size)]); }
  }

  // ----- runs that are not -----

  /** With nothing left, the first half of a region of two pages is handed out a second time. */
  lemma EmptiedGrantsTwice(base: nat)
    requires Whole(Region(base, 8192, []))
    ensures var h := Heap(Region(base, 8192, []), []);
      var es := [Take(0, 4096, true), Give(0, true, 0), Take(0, 8192, true), Take(0, 4096, true)];
      IsRun(h, es) && Run(h, es).used == [Range(base, 8192), Range(base, 4096)]
  {
    var h0 := Heap(Region(base, 8192, []), []);
    var h1 := Heap(Region(base, 8192, [Range(base + 4096, 4096)]), [Range(base, 4096)]);
    var h2 := Heap(Region(base, 8192, [Range(base, 8192)]), []);
    var h3 := Heap(Region(base, 8192, []), [Range(base, 8192)]);
    assert Step(h0, Take(0, 4096, true)) == h1;
    assert Step(h1, Give(0, true, 0)) == h2 by { GivesFirstBack(base); }
    assert Step(h2, Take(0, 8192, true)) == h3;
    var h4 := Step(h3, Take(0, 4096, true));
    assert h4.used == [Range(base, 8192), Range(base, 4096)];
    RunsFour(h0, Take(0, 4096, true), Give(0, true, 0), Take(0, 8192, true), Take(0, 4096, true));
  }

  lemma GivesFirstBack(base: nat)
    requires Whole(Region(base, 8192, []))
    ensures Step(Heap(Region(base, 8192, [Range(base + 4096, 4096)]), [Range(base, 4096)]), Give(0, true, 0))
      == Heap(Region(base, 8192, [Range(base, 8192)]), [])
  {
    var rs := [Range(base + 4096, 4096)];
    assert Scan(rs, 0, base, 4096) == JoinRight(0);
    assert Edit(rs, JoinRight(0), base, 4096) == [Range(base, 8192)];
  }

  lemma RunsTwo(h: Heap, a: Event, b: Event)
    requires Enabled(h, a) && Enabled(Step(h, a), b)
    ensures IsRun(h, [a, b]) && Run(h, [a, b]) == Step(Step(h, a), b)
  {
    var h1, es := Step(h, a), [a, b];
    assert es[1..] == [b] && es[1..][1..] == [];
    assert IsRun(h1, es[1..]) && Run(h1, es[1..]) == Run(Step(h1, b), es[1..][1..]);
  }

  lemma RunsFour(h: Heap, a: Event, b: Event, c: Event, d: Event)
    requires Enabled(h, a) && Enabled(Step(h, a), b) && Enabled(Step(Step(h, a), b), c)
    requires Enabled(Step(Step(Step(h, a), b), c), d)
    ensures IsRun(h, [a, b, c, d]) && Run(h, [a, b, c, d]) == Step(Step(Step(Step(h, a), b), c), d)
  {
    var h1, es := Step(h, a), [a, b, c, d];
    RunsTwo(Step(h1, b), c, d);
    assert es[1..] == [b, c, d] && es[1..][0] == b && es[1..][1..] == [c, d];
    assert IsRun(h1, es[1..]) && Run(h1, es[1..]) == Run(Step(h1, b), [c, d]);
    assert es[0] == a && IsRun(h, es) && Run(h, es) == Run(h1, es[1..]);
  }

  /** A request that begins in the last free page and runs on is granted over the block behind it. */
  lemma OverrunIsGranted(base: nat)
    requires Whole(Region(base, 0x8000, []))
    ensures var h, es := Heap(Region(base, 0x8000, []), []),
              [Take(base + 0x4000, 0x4000, true), Take(base + 0x3000, 0x2000, true)];
      IsRun(h, es) && Run(h, es).used == [Range(base + 0x4000, 0x4000), Range(base + 0x3000, 0x2000)]
  {
    var h := Heap(Region(base, 0x8000, []), []);
    var h1 := Heap(Region(base, 0x8000, [Range(base, 0x4000)]), [Range(base + 0x4000, 0x4000)]);
    assert Step(h, Take(base + 0x4000, 0x4000, true)) == h1;
    assert HintFit(h1.r.ranges, 0, base + 0x3000, 0x2000) == Some(0);
    RunsTwo(h, Take(base + 0x4000, 0x4000, true), Take(base + 0x3000, 0x2000, true));
  }

  /** A first block in the middle leaves the two ranges in the wrong order, and the free page in front
      is refused to whoever asks for it. */
  lemma MiddleFirstHides(base: nat)
    requires Whole(Region(base, 0x3000, [])) && base > 0
    ensures var r := Region(base, 0x3000, [Range(base + 0x2000, 0x1000), Range(base, 0x1000)]);
      && Grant(Region(base, 0x3000, []), base + 0x1000, 0x1000, true) == Ok(r, base + 0x1000)
      && !Canonical(r.ranges) && Covers(r.ranges, base) && Grant(r, base, 0x1000, true) == Err(ENOMEM)
  {
    var rs := [Range(base + 0x2000, 0x1000), Range(base, 0x1000)];
    assert rs[1].addr <= base < rs[1].End() && !(rs[0].End() < rs[1].addr);
  }

  // ----- the C code, in place -----

  class VmRegion {
    const base: nat
    const size: nat
    var ranges: seq<Range>

    ghost function R(): Region
      reads this
    {
      Region(base, size, ranges)
    }

    /** Replaces range i by what is left of it. */
    method TakeFrom(i: nat, addr: nat, sz: nat)
      requires i < |ranges| && ranges[i].addr <= addr
      modifies this
      ensures ranges == old(ranges)[..i] + Rest(old(ranges)[i], addr, sz) + old(ranges)[i + 1..]
    {
      var it, end := ranges[i], addr + sz;
      ghost var rs := ranges;
      if it.size == sz {
        ranges := ranges[..i] + ranges[i + 1..];
        assert rs[..i] + [] + rs[i + 1..] == rs[..i] + rs[i + 1..];
      } else if addr == it.addr {
        ranges := ranges[i := Range(end, Sub(it.size, sz))];
      } else if end == it.addr + it.size {
        ranges := ranges[i := Range(it.addr, Sub(it.size, sz))];
      } else {
        var newr := Range(end, Sub(it.size, end - it.addr));
        ranges := ranges[..i + 1] + [newr] + ranges[i + 1..];
        ranges := ranges[i := Range(it.addr, addr - it.addr)];
      }
    }

    /** The scan for a requested address. */
    method AllocAt(addr: nat, sz: nat, mem: bool) returns (ok: bool)
      modifies this
      ensures match HintFit(old(ranges), 0, addr, sz)
              case None => !ok && ranges == old(ranges)
              case Some(i) =>
                var rs := old(ranges);
                && (ok <==> mem || !NeedsNode(rs[i], addr, sz))
                && ranges == if ok then rs[..i] + Rest(rs[i], addr, sz) + rs[i + 1..] else rs
    {
      var i := 0;
      while i < |ranges|
        invariant 0 <= i <= |ranges| && ranges == old(ranges)
        invariant HintFit(ranges, i, addr, sz) == HintFit(ranges, 0, addr, sz)
      {
        var it := ranges[i];
        if addr < it.addr { return false; }
        if addr >= it.addr + it.size || sz > it.size || (it.size == sz && it.addr != addr) {
          i := i + 1;
          continue;
        }
        if it.size != sz && addr != it.addr && addr + sz != it.addr + it.size && !mem { return false; }
        TakeFrom(i, addr, sz);
        return true;
      }
      return false;
    }

    /** The first fit. */
    method AllocAnywhere(sz: nat) returns (ret: Option<nat>)
      modifies this
      ensures var rs := old(ranges);
              var i := FirstFit(rs, sz);
              if i == |rs| then ret == None && ranges == rs
              else ret == Some(rs[i].addr) && ranges == rs[..i] + Rest(rs[i], rs[i].addr, sz) + rs[i + 1..]
    {
      var i := 0;
      while i < |ranges|
        invariant 0 <= i <= |ranges| && ranges == old(ranges)
        invariant forall j :: 0 <= j < i ==> ranges[j].size < sz
      {
        if ranges[i].size >= sz {
          ret := Some(ranges[i].addr);
          TakeFrom(i, ranges[i].addr, sz);
          return;
        }
        i := i + 1;
      }
      return None;
    }

    /** The first allocation, on a list that is still empty. */
    method AllocFirst(addr: nat, sz: nat, mem: bool) returns (ret: Option<nat>)
      requires ranges == [] && addr % PAGE == 0 && sz % PAGE == 0 && sz > 0 && addr + sz < WORD
      requires addr == 0 || (base <= addr && addr + sz <= base + size)
      modifies this
      ensures match AllocFresh(old(R()), addr, sz, mem)
              case Ok(r, a) => R() == r && ret == Some(a)
              case Err(_) => R() == old(R()) && ret == None
    {
      var end := addr + sz;
      if addr == 0 || addr == base {
        ranges := [Range(base + sz, Sub(size, sz))];
        return Some(base);
      }
      if end == base + size {
        ranges := [Range(base, Sub(size, sz))];
        return Some(addr);
      }
      if !mem { return None; }
      ranges := [Range(base, addr - base)];
      ranges := [Range(end, base + size - end)] + ranges;
      ret := Some(addr);
    }

    /** vm_region_alloc; mem says whether a list node can be had. */
    method AllocBlock(addr: nat, sz: nat, mem: bool) returns (ret: Option<nat>)
      modifies this
      ensures match Grant(old(R()), addr, sz, mem)
              case Ok(r, a) => R() == r && ret == Some(a)
              case Err(_) => R() == old(R()) && ret == None
    {
      if addr % PAGE != 0 || sz % PAGE != 0 || sz == 0 { return None; }
      if addr + sz >= WORD { return None; }
      if addr != 0 && (addr < base || addr + sz > base + size) { return None; }
      if ranges == [] {
        ret := AllocFirst(addr, sz, mem);
        return;
      }
      if addr != 0 {
        var ok := AllocAt(addr, sz, mem);
        return if ok then Some(addr) else None;
      }
      ret := AllocAnywhere(sz);
    }

    /** The scan and the edit of vm_region_free at the spot it finds, once a node is at hand. */
    method Merge(addr: nat, sz: nat)
      modifies this
      ensures ranges == Edit(old(ranges), Scan(old(ranges), 0, addr, sz), addr, sz)
    {
      ghost var rs := ranges;
      var i := 0;
      while i < |ranges|
        invariant 0 <= i <= |ranges| && ranges == rs
        invariant Scan(rs, i, addr, sz) == Scan(rs, 0, addr, sz)
      {
        var it := ranges[i];
        if it.addr == addr + sz {
          it := Range(it.addr - sz, it.size + sz);
          if i > 0 && ranges[i - 1].addr + ranges[i - 1].size == addr {
            var prev := ranges[i - 1];
            ranges := ranges[..i - 1] + [Range(prev.addr, prev.size + it.size)] + ranges[i + 1..];
          } else {
            ranges := ranges[..i] + [it] + ranges[i + 1..];
          }
          return;
        }
        if it.addr + it.size == addr {
          it := Range(it.addr, it.size + sz);
          if i + 1 < |ranges| && ranges[i + 1].addr == it.addr + it.size {
            ranges := ranges[..i] + [Range(it.addr, it.size + ranges[i + 1].size)] + ranges[i + 2..];
          } else {
            ranges := ranges[..i] + [it] + ranges[i + 1..];
          }
          return;
        }
        if addr < it.addr {
          ranges := ranges[..i] + [Range(addr, sz)] + ranges[i..];
          return;
        }
        i := i + 1;
      }
      ranges := ranges + [Range(addr, sz)];
    }

    /** vm_region_free.  mid is the list after getting a node. */
    method FreeBlock(addr: nat, sz: nat, mem: bool, mid: seq<Range>) returns (ok: bool)
      modifies this
      ensures match Free(old(R()), addr, sz, mem, mid)
              case Done(r) => ok && R() == r
              case Failed(_) => !ok && R() == old(R())
    {
      if addr % PAGE != 0 || sz % PAGE != 0 { return false; }
      if addr + sz >= WORD { return false; }
      if ranges == [] {
        ranges := [Range(addr, sz)];
        return true;
      }
      var i := 0;
      while i < |ranges|
        invariant 0 <= i <= |ranges| && ranges == old(ranges)
        invariant Scan(ranges, i, addr, sz) == Scan(ranges, 0, addr, sz)
      {
        var it := ranges[i];
        if it.addr == addr + sz || it.addr + it.size == addr {
          Merge(addr, sz);
          return true;
        }
        if addr < it.addr {
          if !mem { return false; }
          ranges := mid;
          Merge(addr, sz);
          return true;
        }
        i := i + 1;
      }
      if !mem { return false; }
      ranges := mid;
      ranges := ranges + [Range(addr, sz)];
      return true;
    }

    /** vm_region_test.  The caller has checked that the block does not wrap around. */
    method Test(addr: nat, sz: nat) returns (used: bool)
      requires Canonical(ranges) && addr + sz < WORD
      ensures sz > 0 ==> (used <==> forall x :: addr <= x < addr + sz ==> !Covers(ranges, x))
      ensures sz == 0 ==> (used <==> !exists i :: 0 <= i < |ranges| && ranges[i].addr < addr < ranges[i].End())
    {
      var i := 0;
      while i < |ranges| && addr + sz > ranges[i].addr
        invariant 0 <= i <= |ranges|
        invariant forall j :: 0 <= j < i ==> ranges[j].End() <= addr
      {
        if addr < ranges[i].addr + ranges[i].size {
          ghost var x := if addr < ranges[i].addr then ranges[i].addr else addr;
          assert ranges[i].addr <= x < ranges[i].End() && Covers(ranges, x);
          return false;
        }
        i := i + 1;
      }
      return true;
    }
  }
}

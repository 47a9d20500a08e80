/** kern/ramfile.c: the pages of a file in memory, behind up to five levels of indirect blocks. */
module PageTree {
  import opened Base

  const PTR_PER_BLK: nat := 512      // PAGE_SIZE / sizeof(void*)
  const DIRECT: nat := 11            // slots 0 to 10 hold pages, slots 11 to 15 trees of level 1 to 5

  const U64: nat := 0x1_0000_0000_0000_0000

  /** What a slot holds: nothing, a page, or an indirect block at its address. */
  datatype Node = Null | Page(id: nat) | Blk(addr: nat, kids: seq<Node>)

  // ----- trees -----

  /** Pages below one node of this level: 1, PTR_PER_BLK, PTR_PER_BLK squared, ... */
  function Span(level: nat): (s: nat)
    ensures s > 0
  {
    if level == 0 then 1 else PTR_PER_BLK * Span(level - 1)
  }

  ghost predicate Tree(n: Node, level: nat)
    decreases level
  {
    match n
    case Null => true
    case Page(_) => level == 0
    case Blk(_, kids) => level > 0 && |kids| == PTR_PER_BLK && forall i :: 0 <= i < |kids| ==> Tree(kids[i], level - 1)
  }

  /** Every slot index the recursion computes is in bounds, and the pair of quotient and
      remainder determines the offset. */
  lemma SlotInBounds(off: nat, d: nat)
    requires d > 0 && off < PTR_PER_BLK * d
    ensures off / d < PTR_PER_BLK && off % d < d && off == off / d * d + off % d
  {
    var q := off / d;
    assert off == q * d + off % d;
    if q >= PTR_PER_BLK {
      MulLe(PTR_PER_BLK, q, d);
    }
  }

  lemma MulLe(a: nat, b: nat, d: nat)
    requires a <= b
    ensures a * d <= b * d
  {
  }

  lemma SlotBound(off: nat, d: nat)
    requires d > 0 && off < PTR_PER_BLK * d
    ensures off / d < PTR_PER_BLK && off % d < d
  {
    SlotInBounds(off, d);
  }

  ghost function Lookup(n: Node, level: nat, off: nat): (r: Option<nat>)
    requires Tree(n, level) && off < Span(level)
    decreases level
  {
    match n
    case Null => None
    case Page(id) => Some(id)
    case Blk(_, kids) =>
      var d := Span(level - 1);
      SlotBound(off, d);
      Lookup(kids[off / d], level - 1, off % d)
  }

  // ----- get_page -----

  /** What the allocators answer: the levels at which they fail, whether mapping the new page to
      clear it fails, the page they hand out and the block they hand out for each level. */
  datatype Env = Env(bad: set<nat>, mapFails: bool, newPage: nat, newBlk: nat -> nat)

  /** The slot afterwards, the page returned, the blocks and the number of pages added. */
  datatype Got = Got(node: Node, page: Option<nat>, blks: seq<nat>, data: nat)

  function EmptyBlk(addr: nat): (n: Node)
    ensures n.Blk? && n.addr == addr && |n.kids| == PTR_PER_BLK
    ensures forall i :: 0 <= i < PTR_PER_BLK ==> n.kids[i] == Null
  {
    Blk(addr, seq(PTR_PER_BLK, _ => Null))
  }

  /** A failed clearing leaves the slot pointing to the page that was just freed. */
  predicate Dangles(alloc: bool, zero: bool, e: Env) { alloc && zero && e.mapFails && 0 !in e.bad }

  ghost function Get(n: Node, level: nat, off: nat, alloc: bool, zero: bool, e: Env): (r: Got)
    requires Tree(n, level) && off < Span(level)
    ensures Tree(r.node, level)
    decreases level
  {
    if n.Null? && (!alloc || level in e.bad) then Got(n, None, [], 0)
    else if level == 0 then
      if n.Page? then Got(n, Some(n.id), [], 0)
      else if zero && e.mapFails then Got(Page(e.newPage), None, [], 0)
      else Got(Page(e.newPage), Some(e.newPage), [], 1)
    else
      var b := if n.Null? then EmptyBlk(e.newBlk(level)) else n;
      var d := Span(level - 1);
      SlotBound(off, d);
      var g := Get(b.kids[off / d], level - 1, off % d, alloc, zero, e);
      Got(Blk(b.addr, b.kids[off / d := g.node]), g.page, g.blks + (if n.Null? then [b.addr] else []), g.data)
  }

  /** What is found at x after one child of a block changed. */
  lemma LookupUpdated(addr: nat, kids: seq<Node>, level: nat, off: nat, kid: Node, x: nat)
    requires level > 0 && Tree(Blk(addr, kids), level) && off < Span(level) && x < Span(level) && Tree(kid, level - 1)
    ensures var d := Span(level - 1);
            && off / d < |kids| && x % d < d && Tree(Blk(addr, kids[off / d := kid]), level)
            && Lookup(Blk(addr, kids[off / d := kid]), level, x) ==
               (if x / d == off / d then Lookup(kid, level - 1, x % d) else Lookup(Blk(addr, kids), level, x))
            && (x == off <==> x / d == off / d && x % d == off % d)
  {
    SlotInBounds(off, Span(level - 1));
    SlotInBounds(x, Span(level - 1));
  }

  lemma EmptyBlkIsEmpty(addr: nat, level: nat, x: nat)
    requires level > 0 && x < Span(level)
    ensures Tree(EmptyBlk(addr), level) && Lookup(EmptyBlk(addr), level, x) == None
  {
    SlotBound(x, Span(level - 1));
  }

  /** Getting a page changes what is found at its own offset only, and there it finds the page
      that was returned. */
  lemma {:induction false} GetIsUpdate(n: Node, level: nat, off: nat, alloc: bool, zero: bool, e: Env, x: nat)
    requires Tree(n, level) && off < Span(level) && x < Span(level) && !Dangles(alloc, zero, e)
    ensures Lookup(Get(n, level, off, alloc, zero, e).node, level, x) ==
            if x == off then Get(n, level, off, alloc, zero, e).page else Lookup(n, level, x)
    decreases level, n.Null?
  {
    if n.Null? && (!alloc || level in e.bad) {
    } else if level == 0 {
    } else if n.Null? {
      EmptyBlkIsEmpty(e.newBlk(level), level, x);
      GetIsUpdate(EmptyBlk(e.newBlk(level)), level, off, alloc, zero, e, x);
    } else {
      var kids, d := n.kids, Span(level - 1);
      SlotBound(off, d);
      var g := Get(kids[off / d], level - 1, off % d, alloc, zero, e);
      LookupUpdated(n.addr, kids, level, off, g.node, x);
      GetIsUpdate(kids[off / d], level - 1, off % d, alloc, zero, e, x % d);
      assert Get(n, level, off, alloc, zero, e).node == Blk(n.addr, kids[off / d := g.node]);
    }
  }

  // ----- rm_page -----

  ghost function Rm(n: Node, level: nat, off: nat): (r: Node)
    requires Tree(n, level) && off < Span(level)
    ensures Tree(r, level)
    decreases level
  {
    match n
    case Null => Null
    case Page(_) => Null
    case Blk(addr, kids) =>
      var d := Span(level - 1);
      SlotBound(off, d);
      Blk(addr, kids[off / d := Rm(kids[off / d], level - 1, off % d)])
  }

  lemma {:induction false} RmIsRemoval(n: Node, level: nat, off: nat, x: nat)
    requires Tree(n, level) && off < Span(level) && x < Span(level)
    ensures Lookup(Rm(n, level, off), level, x) == if x == off then None else Lookup(n, level, x)
    decreases level
  {
    if n.Blk? {
      var d := Span(level - 1);
      SlotBound(off, d);
      LookupUpdated(n.addr, n.kids, level, off, Rm(n.kids[off / d], level - 1, off % d), x);
      RmIsRemoval(n.kids[off / d], level - 1, off % d, x % d);
    }
  }

  // ----- counting -----

  /** The indirect blocks of a tree, each after those below it. */
  ghost function Blocks(n: Node): seq<nat>
  {
    match n
    case Blk(addr, kids) => BlocksOf(kids) + [addr]
    case _ => []
  }

  ghost function BlocksOf(kids: seq<Node>): seq<nat>
  {
    if kids == [] then [] else Blocks(kids[0]) + BlocksOf(kids[1..])
  }

  /** The pages of a tree, in file order. */
  ghost function Pages(n: Node): seq<nat>
  {
    match n
    case Null => []
    case Page(id) => [id]
    case Blk(_, kids) => PagesOf(kids)
  }

  ghost function PagesOf(kids: seq<Node>): seq<nat>
  {
    if kids == [] then [] else Pages(kids[0]) + PagesOf(kids[1..])
  }

  ghost predicate Once(s: seq<nat>) { forall x :: Count(s, x) <= 1 }

  lemma {:induction false} BlocksOfUpdate(kids: seq<Node>, i: nat, n: Node, x: nat)
    requires i < |kids|
    ensures |BlocksOf(kids[i := n])| == |BlocksOf(kids)| - |Blocks(kids[i])| + |Blocks(n)|
    ensures Count(BlocksOf(kids[i := n]), x) ==
            Count(BlocksOf(kids), x) - Count(Blocks(kids[i]), x) + Count(Blocks(n), x)
  {
    var k' := kids[i := n];
    CountConcat(Blocks(kids[0]), BlocksOf(kids[1..]), x);
    CountConcat(Blocks(k'[0]), BlocksOf(k'[1..]), x);
    if i == 0 {
      assert k'[1..] == kids[1..];
    } else {
      BlocksOfUpdate(kids[1..], i - 1, n, x);
      assert k'[1..] == kids[1..][i - 1 := n];
    }
  }

  lemma {:induction false} BlocksOfSame(kids: seq<Node>, i: nat, n: Node)
    requires i < |kids| && Blocks(n) == Blocks(kids[i])
    ensures BlocksOf(kids[i := n]) == BlocksOf(kids)
  {
    if i == 0 {
      assert kids[i := n][1..] == kids[1..];
    } else {
      BlocksOfSame(kids[1..], i - 1, n);
      assert kids[i := n][1..] == kids[1..][i - 1 := n];
    }
  }

  lemma {:induction false} PagesOfUpdate(kids: seq<Node>, i: nat, n: Node, x: nat)
    requires i < |kids|
    ensures |PagesOf(kids[i := n])| == |PagesOf(kids)| - |Pages(kids[i])| + |Pages(n)|
    ensures Count(PagesOf(kids[i := n]), x) == Count(PagesOf(kids), x) - Count(Pages(kids[i]), x) + Count(Pages(n), x)
  {
    var k' := kids[i := n];
    CountConcat(Pages(kids[0]), PagesOf(kids[1..]), x);
    CountConcat(Pages(k'[0]), PagesOf(k'[1..]), x);
    if i == 0 {
      assert k'[1..] == kids[1..];
    } else {
      PagesOfUpdate(kids[1..], i - 1, n, x);
      assert k'[1..] == kids[1..][i - 1 := n];
    }
  }

  lemma {:induction false} NullsAreEmpty(kids: seq<Node>)
    requires forall i :: 0 <= i < |kids| ==> kids[i] == Null
    ensures BlocksOf(kids) == [] && PagesOf(kids) == []
  {
    if kids == [] {
    } else {
      NullsAreEmpty(kids[1..]);
    }
  }

  lemma GetFromNull(level: nat, off: nat, zero: bool, e: Env)
    requires level > 0 && off < Span(level) && level !in e.bad
    ensures Tree(EmptyBlk(e.newBlk(level)), level) && Pages(EmptyBlk(e.newBlk(level))) == []
    ensures Blocks(EmptyBlk(e.newBlk(level))) == [e.newBlk(level)]
    ensures var g, h := Get(Null, level, off, true, zero, e), Get(EmptyBlk(e.newBlk(level)), level, off, true, zero, e);
            g == Got(h.node, h.page, h.blks + [e.newBlk(level)], h.data)
  {
    NullsAreEmpty(EmptyBlk(e.newBlk(level)).kids);
  }

  /** A page that was there is returned; a new one is counted, and only then. */
  lemma {:induction false} GetFinds(n: Node, level: nat, off: nat, alloc: bool, zero: bool, e: Env)
    requires Tree(n, level) && off < Span(level) && !Dangles(alloc, zero, e)
    ensures var g, was := Get(n, level, off, alloc, zero, e), Lookup(n, level, off);
            && (was.Some? ==> g.page == was && g.blks == [])
            && (was.None? ==> g.page == None || g.page == Some(e.newPage))
            && g.data == (if was.None? && g.page.Some? then 1 else 0)
            && (!alloc ==> g.node == n && g.page == was)
    decreases level, n.Null?
  {
    if n.Null? && (!alloc || level in e.bad) {
    } else if level == 0 {
    } else if n.Null? {
      GetFromNull(level, off, zero, e);
      EmptyBlkIsEmpty(e.newBlk(level), level, off);
      GetFinds(EmptyBlk(e.newBlk(level)), level, off, alloc, zero, e);
    } else {
      var kids, d := n.kids, Span(level - 1);
      SlotBound(off, d);
      GetFinds(kids[off / d], level - 1, off % d, alloc, zero, e);
      var g := Get(kids[off / d], level - 1, off % d, alloc, zero, e);
      assert Get(n, level, off, alloc, zero, e) == Got(Blk(n.addr, kids[off / d := g.node]), g.page, g.blks, g.data);
      assert kids[off / d := kids[off / d]] == kids;
    }
  }

  /** add is what b has more than a. */
  ghost predicate More(a: seq<nat>, b: seq<nat>, add: seq<nat>, x: nat)
  {
    |b| == |a| + |add| && Count(b, x) == Count(a, x) + Count(add, x)
  }

  lemma KidMore(addr: nat, kids: seq<Node>, i: nat, kid: Node, add: seq<nat>, x: nat)
    requires i < |kids| && More(Blocks(kids[i]), Blocks(kid), add, x)
    ensures More(Blocks(Blk(addr, kids)), Blocks(Blk(addr, kids[i := kid])), add, x)
  {
    BlocksOfUpdate(kids, i, kid, x);
    CountConcat(BlocksOf(kids), [addr], x);
    CountConcat(BlocksOf(kids[i := kid]), [addr], x);
  }

  lemma FirstMore(b: seq<nat>, add: seq<nat>, addr: nat, x: nat)
    requires More([addr], b, add, x)
    ensures More([], b, add + [addr], x)
  {
    CountConcat(add, [addr], x);
  }

  lemma NullMore(level: nat, off: nat, zero: bool, e: Env, x: nat)
    requires level > 0 && off < Span(level) && level !in e.bad
    requires var b := EmptyBlk(e.newBlk(level));
      && Tree(b, level)
      && var h := Get(b, level, off, true, zero, e); More(Blocks(b), Blocks(h.node), h.blks, x)
    ensures var g := Get(Null, level, off, true, zero, e); More([], Blocks(g.node), g.blks, x)
  {
    var h := Get(EmptyBlk(e.newBlk(level)), level, off, true, zero, e);
    GetFromNull(level, off, zero, e);
    FirstMore(Blocks(h.node), h.blks, e.newBlk(level), x);
  }

  /** Exactly the blocks that were added are in the tree besides the old ones. */
  lemma {:induction false} GetAddsBlocks(n: Node, level: nat, off: nat, alloc: bool, zero: bool, e: Env, x: nat)
    requires Tree(n, level) && off < Span(level) && !Dangles(alloc, zero, e)
    ensures var g := Get(n, level, off, alloc, zero, e); More(Blocks(n), Blocks(g.node), g.blks, x)
    decreases level, n.Null?
  {
    if n.Null? && (!alloc || level in e.bad) {
    } else if level == 0 {
    } else if n.Null? {
      EmptyBlkIsEmpty(e.newBlk(level), level, off);
      GetAddsBlocks(EmptyBlk(e.newBlk(level)), level, off, alloc, zero, e, x);
      NullMore(level, off, zero, e, x);
    } else {
      var kids, d := n.kids, Span(level - 1);
      SlotBound(off, d);
      GetAddsBlocks(kids[off / d], level - 1, off % d, alloc, zero, e, x);
      var g := Get(kids[off / d], level - 1, off % d, alloc, zero, e);
      KidMore(n.addr, kids, off / d, g.node, g.blks, x);
      assert Get(n, level, off, alloc, zero, e) == Got(Blk(n.addr, kids[off / d := g.node]), g.page, g.blks, g.data);
    }
  }

  /** A block that is handed out for some level up to this one. */
  ghost predicate Supplied(e: Env, level: nat, x: nat)
  {
    exists l :: 0 < l <= level && e.newBlk(l) == x
  }

  /** vmalloc does not hand out the same block for two levels. */
  ghost predicate Distinct(e: Env, level: nat)
  {
    forall l, m :: 0 < l < m <= level ==> e.newBlk(l) != e.newBlk(m)
  }

  ghost predicate OnceSupplied(e: Env, level: nat, blks: seq<nat>, x: nat)
  {
    Count(blks, x) <= if Supplied(e, level, x) then 1 else 0
  }

  lemma OneMoreSupplied(e: Env, level: nat, blks: seq<nat>, x: nat)
    requires level > 0 && Distinct(e, level) && OnceSupplied(e, level - 1, blks, x)
    ensures OnceSupplied(e, level, blks, x) && OnceSupplied(e, level, blks + [e.newBlk(level)], x)
  {
    CountConcat(blks, [e.newBlk(level)], x);
    assert Supplied(e, level - 1, x) ==> Supplied(e, level, x);
  }

  /** No block is added twice, and none that was not handed out. */
  lemma {:induction false} AddedOnce(n: Node, level: nat, off: nat, alloc: bool, zero: bool, e: Env, x: nat)
    requires Tree(n, level) && off < Span(level) && Distinct(e, level)
    ensures OnceSupplied(e, level, Get(n, level, off, alloc, zero, e).blks, x)
    decreases level
  {
    if (n.Null? && (!alloc || level in e.bad)) || level == 0 {
    } else {
      var b := if n.Null? then EmptyBlk(e.newBlk(level)) else n;
      var d := Span(level - 1);
      SlotBound(off, d);
      var g := Get(b.kids[off / d], level - 1, off % d, alloc, zero, e);
      AddedOnce(b.kids[off / d], level - 1, off % d, alloc, zero, e, x);
      OneMoreSupplied(e, level, g.blks, x);
      assert g.blks + [] == g.blks;
    }
  }

  /** And so does the page counter. */
  lemma {:induction false} GetCountsPages(n: Node, level: nat, off: nat, alloc: bool, zero: bool, e: Env)
    requires Tree(n, level) && off < Span(level) && !Dangles(alloc, zero, e)
    ensures |Pages(Get(n, level, off, alloc, zero, e).node)| == |Pages(n)| + Get(n, level, off, alloc, zero, e).data
    decreases level, n.Null?
  {
    if n.Null? && (!alloc || level in e.bad) {
    } else if level == 0 {
    } else if n.Null? {
      GetFromNull(level, off, zero, e);
      GetCountsPages(EmptyBlk(e.newBlk(level)), level, off, alloc, zero, e);
    } else {
      var kids, d := n.kids, Span(level - 1);
      SlotBound(off, d);
      GetCountsPages(kids[off / d], level - 1, off % d, alloc, zero, e);
      var g := Get(kids[off / d], level - 1, off % d, alloc, zero, e);
      PagesOfUpdate(kids, off / d, g.node, 0);
      assert Get(n, level, off, alloc, zero, e) == Got(Blk(n.addr, kids[off / d := g.node]), g.page, g.blks, g.data);
    }
  }

  /** Only the new page is added to the pages of the tree. */
  lemma {:induction false} GetAddsPage(n: Node, level: nat, off: nat, alloc: bool, zero: bool, e: Env, x: nat)
    requires Tree(n, level) && off < Span(level) && !Dangles(alloc, zero, e)
    ensures var g := Get(n, level, off, alloc, zero, e);
            Count(Pages(g.node), x) == Count(Pages(n), x) + (if x == e.newPage then g.data else 0)
    decreases level, n.Null?
  {
    if n.Null? && (!alloc || level in e.bad) {
    } else if level == 0 {
    } else if n.Null? {
      GetFromNull(level, off, zero, e);
      GetAddsPage(EmptyBlk(e.newBlk(level)), level, off, alloc, zero, e, x);
    } else {
      var kids, d := n.kids, Span(level - 1);
      SlotBound(off, d);
      GetAddsPage(kids[off / d], level - 1, off % d, alloc, zero, e, x);
      var g := Get(kids[off / d], level - 1, off % d, alloc, zero, e);
      PagesOfUpdate(kids, off / d, g.node, x);
      assert Get(n, level, off, alloc, zero, e).node == Blk(n.addr, kids[off / d := g.node]);
    }
  }

  lemma {:induction false} RmCounts(n: Node, level: nat, off: nat, x: nat)
    requires Tree(n, level) && off < Span(level)
    ensures var r, was := Rm(n, level, off), Lookup(n, level, off);
            && Blocks(r) == Blocks(n)
            && |Pages(r)| == |Pages(n)| - (if was.Some? then 1 else 0)
            && Count(Pages(r), x) == Count(Pages(n), x) - (if was == Some(x) then 1 else 0)
    decreases level
  {
    if n.Blk? {
      var d := Span(level - 1);
      SlotBound(off, d);
      RmCounts(n.kids[off / d], level - 1, off % d, x);
      BlocksOfSame(n.kids, off / d, Rm(n.kids[off / d], level - 1, off % d));
      PagesOfUpdate(n.kids, off / d, Rm(n.kids[off / d], level - 1, off % d), x);
    }
  }

  // ----- the failed clearing -----

  /** Every missing block on the way down can be allocated. */
  ghost predicate Reaches(n: Node, level: nat, off: nat, e: Env)
    requires Tree(n, level) && off < Span(level)
    decreases level
  {
    match n
    case Null => forall l :: 0 < l <= level ==> l !in e.bad
    case Page(_) => true
    case Blk(_, kids) =>
      var d := Span(level - 1);
      SlotBound(off, d);
      Reaches(kids[off / d], level - 1, off % d, e)
  }

  lemma ReachesFromEmpty(level: nat, off: nat, e: Env)
    requires level > 0 && off < Span(level) && level !in e.bad
    ensures Tree(EmptyBlk(e.newBlk(level)), level)
    ensures Reaches(EmptyBlk(e.newBlk(level)), level, off, e) <==> Reaches(Null, level, off, e)
  {
    var d := Span(level - 1);
    SlotBound(off, d);
    assert EmptyBlk(e.newBlk(level)).kids[off / d] == Null;
    assert Reaches(EmptyBlk(e.newBlk(level)), level, off, e) == Reaches(Null, level - 1, off % d, e);
  }

  /** get_page leaves in the tree a page other than the one it returns exactly when clearing a
      newly allocated page fails: the page is freed but stays in its slot. */
  lemma {:induction false} DanglesExactly(n: Node, level: nat, off: nat, alloc: bool, zero: bool, e: Env)
    requires Tree(n, level) && off < Span(level)
    ensures var g := Get(n, level, off, alloc, zero, e);
            Lookup(g.node, level, off) != g.page <==>
            Dangles(alloc, zero, e) && Lookup(n, level, off) == None && Reaches(n, level, off, e)
    decreases level, n.Null?
  {
    if n.Null? && (!alloc || level in e.bad) {
    } else if level == 0 {
    } else if n.Null? {
      EmptyBlkIsEmpty(e.newBlk(level), level, off);
      ReachesFromEmpty(level, off, e);
      DanglesExactly(EmptyBlk(e.newBlk(level)), level, off, alloc, zero, e);
    } else {
      var kids, d := n.kids, Span(level - 1);
      SlotBound(off, d);
      var g := Get(kids[off / d], level - 1, off % d, alloc, zero, e);
      LookupUpdated(n.addr, kids, level, off, g.node, off);
      DanglesExactly(kids[off / d], level - 1, off % d, alloc, zero, e);
      assert Get(n, level, off, alloc, zero, e) == Got(Blk(n.addr, kids[off / d := g.node]), g.page, g.blks, g.data);
    }
  }

  // ----- the file -----

  datatype File = File(blk: seq<Node>, metaPages: int, dataPages: int, pages: int, size: nat)

  function Level(slot: nat): nat { if slot < DIRECT then 0 else slot - DIRECT + 1 }

  ghost predicate Shape(f: File)
  {
    |f.blk| == 16 && forall i :: 0 <= i < 16 ==> Tree(f.blk[i], Level(i))
  }

  /** The first index behind the tree of each level. */
  const IND1_OFF: nat := 11
  const IND2_OFF: nat := IND1_OFF + 512
  const IND3_OFF: nat := IND2_OFF + 512 * 512
  const IND4_OFF: nat := IND3_OFF + 512 * 512 * 512
  const IND5_OFF: nat := IND4_OFF + 512 * 512 * 512 * 512
  const IND6_OFF: nat := IND5_OFF + 512 * 512 * 512 * 512 * 512

  datatype Place = Place(slot: nat, off: nat)

  /** The slot that serves an index, and the offset within its tree. */
  function PlaceOf(idx: nat): (p: Option<Place>)
  {
    if idx < DIRECT then Some(Place(idx, 0))
    else if idx < IND2_OFF then Some(Place(11, idx - IND1_OFF))
    else if idx < IND3_OFF then Some(Place(12, idx - IND2_OFF))
    else if idx < IND4_OFF then Some(Place(13, idx - IND3_OFF))
    else if idx < IND5_OFF then Some(Place(14, idx - IND4_OFF))
    else if idx < IND6_OFF then Some(Place(15, idx - IND5_OFF))
    else None
  }

  /** Every index below the maximum has its own place, inside its tree; nothing else has one. */
  lemma PlacesAreDistinct(i: nat, j: nat)
    ensures PlaceOf(i).Some? <==> i < IND6_OFF
    ensures PlaceOf(i).Some? ==> PlaceOf(i).value.slot < 16 && PlaceOf(i).value.off < Span(Level(PlaceOf(i).value.slot))
    ensures PlaceOf(i).Some? && PlaceOf(i) == PlaceOf(j) ==> i == j
  {
    assert Span(1) == 512;
    assert Span(2) == 512 * Span(1);
    assert Span(3) == 512 * Span(2);
    assert Span(4) == 512 * Span(3);
    assert Span(5) == 512 * Span(4);
  }

  /** What the file holds at an index, wherever its size stands. */
  ghost function Find(f: File, idx: nat): (r: Option<nat>)
    requires Shape(f)
  {
    PlacesAreDistinct(idx, idx);
    match PlaceOf(idx)
    case None => None
    case Some(p) => Lookup(f.blk[p.slot], Level(p.slot), p.off)
  }

  /** idx + 1 in 64 bits. */
  function Next(idx: nat): nat { if idx + 1 == U64 then 0 else idx + 1 }

  ghost function GetPage(f: File, idx: nat, alloc: bool, zero: bool, e: Env): (r: (File, Option<nat>))
    requires Shape(f)
    ensures Shape(r.0)
  {
    if idx > f.size && !alloc then (f, None)
    else
      var f1 := if idx > f.size then f.(size := Next(idx)) else f;
      PlacesAreDistinct(idx, idx);
      match PlaceOf(idx)
      case None => (f1, None)
      case Some(p) =>
        var g := Get(f.blk[p.slot], Level(p.slot), p.off, alloc, zero, e);
        (f1.(blk := f.blk[p.slot := g.node], metaPages := f.metaPages + |g.blks|,
             dataPages := f.dataPages + g.data, pages := f.pages + |g.blks| + g.data), g.page)
  }

  ghost function RmPage(f: File, idx: nat): (r: File)
    requires Shape(f)
    ensures Shape(r)
  {
    PlacesAreDistinct(idx, idx);
    if idx > f.size || PlaceOf(idx).None? then f
    else
      var p := PlaceOf(idx).value;
      f.(blk := f.blk[p.slot := Rm(f.blk[p.slot], Level(p.slot), p.off)])
  }

  /** removed counts the pages taken out by ramfile_rmpage, which leaves the counters alone. */
  ghost predicate Inv(f: File, removed: nat)
  {
    && Shape(f)
    && f.metaPages == |BlocksOf(f.blk)|
    && f.dataPages == |PagesOf(f.blk)| + removed
    && f.pages == f.metaPages + f.dataPages
    && Once(PagesOf(f.blk))
    && Once(BlocksOf(f.blk))
    && SizeGate(f)
  }

  /** The size test never hides a page: what is beyond the size is not there. */
  ghost predicate SizeGate(f: File)
    requires Shape(f)
  {
    forall idx: nat :: Find(f, idx).Some? ==> idx <= f.size
  }

  /** ramfile_getpage is an update of the map from indices to pages at one index. */
  lemma GetPageIsUpdate(f: File, idx: nat, alloc: bool, zero: bool, e: Env, x: nat)
    requires Shape(f) && SizeGate(f) && !Dangles(alloc, zero, e)
    ensures var (f', page) := GetPage(f, idx, alloc, zero, e);
            && Find(f', x) == (if x == idx then page else Find(f, x))
            && (Find(f, idx).Some? ==> page == Find(f, idx))
            && (!alloc ==> page == Find(f, idx) && f'.blk == f.blk)
  {
    PlacesAreDistinct(x, idx);
    PlacesAreDistinct(idx, idx);
    if PlaceOf(idx).Some? {
      var p := PlaceOf(idx).value;
      GetFinds(f.blk[p.slot], Level(p.slot), p.off, alloc, zero, e);
      if PlaceOf(x).Some? && PlaceOf(x).value.slot == p.slot {
        GetIsUpdate(f.blk[p.slot], Level(p.slot), p.off, alloc, zero, e, PlaceOf(x).value.off);
      }
    }
  }

  lemma RmPageIsRemoval(f: File, idx: nat, x: nat)
    requires Shape(f) && SizeGate(f)
    ensures Find(RmPage(f, idx), x) == if x == idx then None else Find(f, x)
  {
    PlacesAreDistinct(x, idx);
    PlacesAreDistinct(idx, idx);
    if idx <= f.size && PlaceOf(idx).Some? {
      var p := PlaceOf(idx).value;
      if PlaceOf(x).Some? && PlaceOf(x).value.slot == p.slot {
        RmIsRemoval(f.blk[p.slot], Level(p.slot), p.off, PlaceOf(x).value.off);
      }
    }
  }

  /** The size wraps to zero, and there is a page that it then hides. */
  ghost predicate Hides(f: File, idx: nat, alloc: bool)
    requires Shape(f)
  {
    alloc && f.size < idx && idx + 1 == U64 && exists x: nat :: Find(f, x).Some? && x > 0
  }

  /** Making a page keeps the gate exactly unless the last index of 64 bits is asked for. */
  lemma GateExact(f: File, idx: nat, alloc: bool, zero: bool, e: Env)
    requires Shape(f) && SizeGate(f) && !Dangles(alloc, zero, e)
    ensures SizeGate(GetPage(f, idx, alloc, zero, e).0) <==> !Hides(f, idx, alloc)
  {
    var f' := GetPage(f, idx, alloc, zero, e).0;
    PlacesAreDistinct(idx, idx);
    forall x: nat ensures Find(f', x).Some? ==> Find(f, x).Some? || x == idx {
      GetPageIsUpdate(f, idx, alloc, zero, e, x);
    }
    if Hides(f, idx, alloc) {
      var x: nat :| Find(f, x).Some? && x > 0;
      GetPageIsUpdate(f, idx, alloc, zero, e, x);
      assert Find(f', x).Some? && f'.size == 0;
    } else if alloc && f.size < idx && idx + 1 == U64 {
      forall x: nat | Find(f', x).Some? ensures x <= f'.size { GetPageIsUpdate(f, idx, alloc, zero, e, x); }
    }
  }

  /** Whatever is in a file, asking for the last index hides it all, but for the first page. */
  lemma LastIndexHides(f: File, zero: bool, e: Env, x: nat)
    requires Shape(f) && SizeGate(f) && !Dangles(true, zero, e) && f.size < U64 - 1 && x > 0 && Find(f, x).Some?
    ensures var f' := GetPage(f, U64 - 1, true, zero, e).0;
            Find(f', x) == Find(f, x) && GetPage(f', x, false, zero, e).1 == None
  {
    GetPageIsUpdate(f, U64 - 1, true, zero, e, x);
    PlacesAreDistinct(U64 - 1, x);
  }

  /** The pages and blocks handed out are not in the file, and clearing a new page succeeds. */
  ghost predicate Supplies(f: File, alloc: bool, zero: bool, e: Env)
  {
    && !Dangles(alloc, zero, e) && Count(PagesOf(f.blk), e.newPage) == 0
    && Distinct(e, 5) && forall x :: Supplied(e, 5, x) ==> Count(BlocksOf(f.blk), x) == 0
  }

  lemma GetKeepsPages(f: File, p: Place, alloc: bool, zero: bool, e: Env)
    requires Shape(f) && Supplies(f, alloc, zero, e) && p.slot < 16 && p.off < Span(Level(p.slot))
    requires Once(PagesOf(f.blk))
    ensures var g := Get(f.blk[p.slot], Level(p.slot), p.off, alloc, zero, e);
            var ks := f.blk[p.slot := g.node];
            |PagesOf(ks)| == |PagesOf(f.blk)| + g.data && Once(PagesOf(ks))
  {
    var n, level := f.blk[p.slot], Level(p.slot);
    var g := Get(n, level, p.off, alloc, zero, e);
    GetFinds(n, level, p.off, alloc, zero, e);
    GetCountsPages(n, level, p.off, alloc, zero, e);
    PagesOfUpdate(f.blk, p.slot, g.node, 0);
    var ks := f.blk[p.slot := g.node];
    forall x ensures Count(PagesOf(ks), x) <= 1 {
      GetAddsPage(n, level, p.off, alloc, zero, e, x);
      PagesOfUpdate(f.blk, p.slot, g.node, x);
    }
  }

  lemma GetKeepsBlocks(f: File, p: Place, alloc: bool, zero: bool, e: Env)
    requires Shape(f) && Supplies(f, alloc, zero, e) && p.slot < 16 && p.off < Span(Level(p.slot))
    requires Once(BlocksOf(f.blk))
    ensures var g := Get(f.blk[p.slot], Level(p.slot), p.off, alloc, zero, e);
            var ks := f.blk[p.slot := g.node];
            |BlocksOf(ks)| == |BlocksOf(f.blk)| + |g.blks| && Once(BlocksOf(ks))
  {
    var n, level := f.blk[p.slot], Level(p.slot);
    var g := Get(n, level, p.off, alloc, zero, e);
    GetAddsBlocks(n, level, p.off, alloc, zero, e, 0);
    BlocksOfUpdate(f.blk, p.slot, g.node, 0);
    var ks := f.blk[p.slot := g.node];
    forall x ensures Count(BlocksOf(ks), x) <= 1 {
      GetAddsBlocks(n, level, p.off, alloc, zero, e, x);
      AddedOnce(n, level, p.off, alloc, zero, e, x);
      assert Supplied(e, level, x) ==> Supplied(e, 5, x);
      BlocksOfUpdate(f.blk, p.slot, g.node, x);
    }
  }

  lemma GetPageKeepsInv(f: File, removed: nat, idx: nat, alloc: bool, zero: bool, e: Env)
    requires Inv(f, removed) && Supplies(f, alloc, zero, e)
    ensures Inv(GetPage(f, idx, alloc, zero, e).0, removed) <==> !Hides(f, idx, alloc)
  {
    GateExact(f, idx, alloc, zero, e);
    PlacesAreDistinct(idx, idx);
    if (idx <= f.size || alloc) && PlaceOf(idx).Some? {
      GetKeepsPages(f, PlaceOf(idx).value, alloc, zero, e);
      GetKeepsBlocks(f, PlaceOf(idx).value, alloc, zero, e);
    }
  }

  lemma RmPageKeepsInv(f: File, removed: nat, idx: nat)
    requires Inv(f, removed)
    ensures Inv(RmPage(f, idx), removed + if Find(f, idx).Some? then 1 else 0)
  {
    var f' := RmPage(f, idx);
    forall x: nat | Find(f', x).Some? ensures x <= f'.size { RmPageIsRemoval(f, idx, x); }
    PlacesAreDistinct(idx, idx);
    if idx <= f.size && PlaceOf(idx).Some? {
      var p := PlaceOf(idx).value;
      var n := f.blk[p.slot];
      RmCounts(n, Level(p.slot), p.off, 0);
      BlocksOfSame(f.blk, p.slot, Rm(n, Level(p.slot), p.off));
      forall x ensures Count(PagesOf(f'.blk), x) <= 1 {
        RmCounts(n, Level(p.slot), p.off, x);
        PagesOfUpdate(f.blk, p.slot, Rm(n, Level(p.slot), p.off), x);
      }
      PagesOfUpdate(f.blk, p.slot, Rm(n, Level(p.slot), p.off), 0);
    }
  }

  // ----- every run -----

  datatype Event = GetEvent(idx: nat, alloc: bool, zero: bool, e: Env) | RmEvent(idx: nat)

  ghost predicate Enabled(f: File, ev: Event)
    requires Shape(f)
  {
    ev.GetEvent? ==> Supplies(f, ev.alloc, ev.zero, ev.e) && !Hides(f, ev.idx, ev.alloc)
  }

  ghost function Step(f: File, ev: Event): (r: File)
    requires Shape(f)
    ensures Shape(r)
  {
    match ev
    case GetEvent(idx, alloc, zero, e) => GetPage(f, idx, alloc, zero, e).0
    case RmEvent(idx) => RmPage(f, idx)
  }

  ghost predicate IsRun(f: File, es: seq<Event>)
    requires Shape(f)
    decreases |es|
  {
    es == [] || (Enabled(f, es[0]) && IsRun(Step(f, es[0]), es[1..]))
  }

  ghost function Run(f: File, es: seq<Event>): (r: File)
    requires Shape(f)
    ensures Shape(r)
    decreases |es|
  {
    if es == [] then f else Run(Step(f, es[0]), es[1..])
  }

  /** The pages that ramfile_rmpage really takes out along a run. */
  ghost function Removals(f: File, es: seq<Event>): nat
    requires Shape(f)
    decreases |es|
  {
    if es == [] then 0
    else (if es[0].RmEvent? && Find(f, es[0].idx).Some? then 1 else 0) + Removals(Step(f, es[0]), es[1..])
  }

  lemma {:induction false} RunsKeepInv(f: File, removed: nat, es: seq<Event>)
    requires Inv(f, removed) && IsRun(f, es)
    ensures Inv(Run(f, es), removed + Removals(f, es))
    decreases |es|
  {
    if es == [] {
    } else {
      match es[0] {
        case GetEvent(idx, alloc, zero, e) =>
          GetPageKeepsInv(f, removed, idx, alloc, zero, e);
          RunsKeepInv(Step(f, es[0]), removed, es[1..]);
        case RmEvent(idx) =>
          RmPageKeepsInv(f, removed, idx);
          RunsKeepInv(Step(f, es[0]), removed + (if Find(f, idx).Some? then 1 else 0), es[1..]);
      }
    }
  }

  ghost function EmptyFile(): File { File(seq(16, _ => Null), 0, 0, 0, 0) }

  lemma NothingFound(f: File, idx: nat)
    requires Shape(f) && forall i :: 0 <= i < 16 ==> f.blk[i] == Null
    ensures Find(f, idx) == None
  {
    PlacesAreDistinct(idx, idx);
  }

  lemma EmptyFileInv()
    ensures Inv(EmptyFile(), 0)
  {
    var f := EmptyFile();
    assert forall i :: 0 <= i < 16 ==> f.blk[i] == Null;
    NullsAreEmpty(f.blk);
    forall idx: nat ensures Find(f, idx) == None { NothingFound(f, idx); }
  }

  /** What destroying frees is what the counters say, after any run from an empty file: both run
      down together, no page and no block is listed twice, and whatever rmpage took out before stays on the
      data and total counters. */
  lemma DestroyBalance(f: File, es: seq<Event>)
    requires Inv(f, 0) && IsRun(f, es)
    ensures var z := Run(f, es);
            && z.metaPages - |BlocksOf(z.blk)| == 0
            && z.dataPages - |PagesOf(z.blk)| == Removals(f, es)
            && z.pages - |BlocksOf(z.blk)| - |PagesOf(z.blk)| == Removals(f, es)
            && Once(PagesOf(z.blk)) && Once(BlocksOf(z.blk))
  {
    RunsKeepInv(f, 0, es);
  }

  // ----- the C code, in place -----

  lemma NextKid(kids: seq<Node>, i: nat, freed: seq<nat>, blocks: seq<nat>)
    requires i < |kids|
    ensures |BlocksOf(kids[i..])| == |Blocks(kids[i])| + |BlocksOf(kids[i + 1..])|
    ensures blocks + BlocksOf(kids[i..]) == blocks + Blocks(kids[i]) + BlocksOf(kids[i + 1..])
    ensures |PagesOf(kids[i..])| == |Pages(kids[i])| + |PagesOf(kids[i + 1..])|
    ensures freed + PagesOf(kids[i..]) == freed + Pages(kids[i]) + PagesOf(kids[i + 1..])
  {
    assert kids[i..][0] == kids[i] && kids[i..][1..] == kids[i + 1..];
  }

  class RamFile {
    var blk: seq<Node>
    var metaPages: int
    var dataPages: int
    var pages: int
    var size: nat

    ghost function F(): File
      reads this
    {
      File(blk, metaPages, dataPages, pages, size)
    }

    /** get_page; n stands for the slot the C code writes through. */
    method GetNode(n: Node, level: nat, off: nat, alloc: bool, zero: bool, e: Env) returns (n': Node, page: Option<nat>)
      requires Tree(n, level) && off < Span(level)
      modifies this`metaPages, this`dataPages, this`pages
      ensures var g := Get(n, level, off, alloc, zero, e);
              && n' == g.node && page == g.page
              && metaPages == old(metaPages) + |g.blks| && dataPages == old(dataPages) + g.data
              && pages == old(pages) + |g.blks| + g.data
      decreases level
    {
      n' := n;
      if n'.Null? {
        if !alloc { return n', None; }
        if level > 0 {
          if level in e.bad { return n', None; }
          n' := EmptyBlk(e.newBlk(level));
          metaPages := metaPages + 1;
        } else {
          if 0 in e.bad { return n', None; }
          n' := Page(e.newPage);
          if zero && e.mapFails { return n', None; }
          dataPages := dataPages + 1;
        }
        pages := pages + 1;
      }
      if level == 0 { return n', Some(n'.id); }
      var d := Span(level - 1);
      SlotBound(off, d);
      var i := off / d;
      var kid: Node;
      kid, page := GetNode(n'.kids[i], level - 1, off % d, alloc, zero, e);
      n' := Blk(n'.addr, n'.kids[i := kid]);
    }

    /** free_blocks at offset 0: every page and every block below n is freed, once. */
    method FreeBlocks(n: Node, level: nat) returns (freed: seq<nat>, blocks: seq<nat>)
      requires Tree(n, level)
      modifies this`metaPages, this`dataPages, this`pages
      ensures freed == Pages(n) && blocks == Blocks(n)
      ensures metaPages == old(metaPages) - |Blocks(n)| && dataPages == old(dataPages) - |Pages(n)|
      ensures pages == old(pages) - |Blocks(n)| - |Pages(n)|
      decreases level
    {
      freed, blocks := [], [];
      if n.Null? { return; }
      if level > 0 {
        var i := 0;
        while i < PTR_PER_BLK
          invariant 0 <= i <= PTR_PER_BLK
          invariant PagesOf(n.kids) == freed + PagesOf(n.kids[i..])
          invariant BlocksOf(n.kids) == blocks + BlocksOf(n.kids[i..])
          invariant metaPages == old(metaPages) - |blocks|
          invariant dataPages == old(dataPages) - |freed|
          invariant pages == old(pages) - |blocks| - |freed|
        {
          NextKid(n.kids, i, freed, blocks);
          var more, moreBlocks := FreeBlocks(n.kids[i], level - 1);
          freed, blocks := freed + more, blocks + moreBlocks;
          i := i + 1;
        }
        assert n.kids[PTR_PER_BLK..] == [];
      }
      pages := pages - 1;
      if level > 0 {
        metaPages := metaPages - 1;
        blocks := blocks + [n.addr];
      } else {
        freed := [n.id];
        dataPages := dataPages - 1;
      }
    }

    method FetchPage(idx: nat, alloc: bool, zero: bool, e: Env) returns (page: Option<nat>)
      requires Shape(F())
      modifies this
      ensures (F(), page) == GetPage(old(F()), idx, alloc, zero, e)
    {
      if idx > size {
        if !alloc { return None; }
        size := Next(idx);
      }
      PlacesAreDistinct(idx, idx);
      var p := PlaceOf(idx);
      if p.None? { return None; }
      var n: Node;
      n, page := GetNode(blk[p.value.slot], Level(p.value.slot), p.value.off, alloc, zero, e);
      blk := blk[p.value.slot := n];
    }

    /** rm_page. */
    method RmNode(n: Node, level: nat, off: nat) returns (n': Node)
      requires Tree(n, level) && off < Span(level)
      ensures n' == Rm(n, level, off)
      decreases level
    {
      if n.Null? { return n; }
      if level == 0 { return Null; }
      var d := Span(level - 1);
      SlotBound(off, d);
      var kid := RmNode(n.kids[off / d], level - 1, off % d);
      n' := Blk(n.addr, n.kids[off / d := kid]);
    }

    method DropPage(idx: nat)
      requires Shape(F())
      modifies this
      ensures F() == RmPage(old(F()), idx)
    {
      if idx > size { return; }
      PlacesAreDistinct(idx, idx);
      var p := PlaceOf(idx);
      if p.None? { return; }
      var n := RmNode(blk[p.value.slot], Level(p.value.slot), p.value.off);
      blk := blk[p.value.slot := n];
    }

    /** ramfile_destroy: each page and each block is freed once, and the three counters are back to
        zero, but for the `removed` pages that rmpage took out before, which stay on two of them. */
    method Destroy(ghost removed: nat) returns (freed: seq<nat>, blocks: seq<nat>)
      requires Inv(F(), removed)
      modifies this
      ensures freed == PagesOf(old(blk)) && Once(freed)
      ensures blocks == BlocksOf(old(blk)) && Once(blocks)
      ensures |blk| == 16 && forall i :: 0 <= i < 16 ==> blk[i] == Null
      ensures metaPages == 0 && dataPages == removed && pages == removed
    {
      ghost var was := blk;
      freed, blocks := [], [];
      var i := 0;
      while i < 16
        invariant 0 <= i <= 16 && |blk| == 16
        invariant forall j :: i <= j < 16 ==> blk[j] == was[j]
        invariant forall j :: 0 <= j < i ==> blk[j] == Null
        invariant PagesOf(was) == freed + PagesOf(was[i..])
        invariant BlocksOf(was) == blocks + BlocksOf(was[i..])
        invariant metaPages == |BlocksOf(was[i..])|
        invariant dataPages == removed + |PagesOf(was[i..])|
        invariant pages == metaPages + dataPages
      {
        NextKid(was, i, freed, blocks);
        var more, moreBlocks := FreeBlocks(blk[i], Level(i));
        freed, blocks := freed + more, blocks + moreBlocks;
        blk := blk[i := Null];
        i := i + 1;
      }
      assert was[16..] == [];
    }
  }
}

/** kern/fdt.c: the parser of the flattened device tree structure block. */
module DeviceTree {
  import opened Base

  const BEGIN_NODE: nat := 1
  const END_NODE: nat := 2
  const PROP: nat := 3
  const NOP: nat := 4
  const END: nat := 9

  const U32_LIMIT: nat := 0x1_0000_0000

  datatype Prop = Prop(nameoff: nat, data: seq<Byte>)

  datatype Node = Node(name: seq<Byte>, props: seq<Prop>, children: seq<Node>)

  datatype Errno = EOVERFLOW | EINVAL

  /** The value read and the position after it. */
  datatype Parsed<+T> = Ok(value: T, pos: nat) | Err(errno: Errno)

  // ----- reading -----

  /** parser_getu8. */
  function GetU8(d: seq<Byte>, end: nat, pos: nat): (r: Parsed<Byte>)
    requires pos <= end <= |d|
    ensures r.Ok? ==> pos < r.pos <= end
  {
    if pos + 1 > end then Err(EOVERFLOW) else Ok(d[pos], pos + 1)
  }

  function Push(hi: nat, lo: Byte): nat {
    hi * 256 + lo
  }

  /** Four bytes, most significant first. */
  function Be32(b: seq<Byte>): nat
    requires |b| == 4
  {
    Push(Push(Push(b[0], b[1]), b[2]), b[3])
  }

  /** parser_getu32. */
  function GetU32(d: seq<Byte>, end: nat, pos: nat): (r: Parsed<nat>)
    requires pos <= end <= |d|
    ensures r.Ok? ==> r.pos == pos + 4 <= end
  {
    if pos + 4 > end then Err(EOVERFLOW) else Ok(Be32(d[pos..pos + 4]), pos + 4)
  }

  /** How many bytes bring n to a multiple of four. */
  function PadLength(n: nat): (k: nat)
    ensures k < 4
  {
    if n == 0 then 0 else if n < 4 then 4 - n else PadLength(n - 4)
  }

  /** n is a multiple of four. */
  predicate Aligned(n: nat) {
    PadLength(n) == 0
  }

  lemma {:induction false} PadIsMod(n: nat)
    ensures PadLength(n) == if n % 4 == 0 then 0 else 4 - n % 4
  {
    if n >= 4 { PadIsMod(n - 4); }
  }

  /** Alignment only sees the distance from an aligned position. */
  lemma {:induction false} PadSame(a: nat, n: nat)
    requires Aligned(a)
    ensures PadLength(a + n) == PadLength(n)
    decreases a
  {
    if a >= 4 { PadSame(a - 4, n); }
  }

  lemma {:induction false} PadAligns(n: nat)
    ensures Aligned(n + PadLength(n))
  {
    if n >= 4 { PadAligns(n - 4); }
  }

  /** parser_align. */
  function Align(d: seq<Byte>, end: nat, pos: nat): (r: Parsed<()>)
    requires pos <= end <= |d|
    ensures r.Ok? ==> pos <= r.pos <= end && Aligned(r.pos)
  {
    PadAligns(pos);
    if pos + PadLength(pos) > end then Err(EOVERFLOW) else Ok((), pos + PadLength(pos))
  }

  /** The node's name: the bytes up to a NUL, which is passed over. */
  function GetName(d: seq<Byte>, end: nat, pos: nat): (r: Parsed<seq<Byte>>)
    requires pos <= end <= |d|
    ensures r.Ok? ==> r.pos == pos + |r.value| + 1 <= end
    decreases end - pos
  {
    if pos >= end then Err(EOVERFLOW)
    else if d[pos] == 0 then Ok([], pos + 1)
    else
      var r := GetName(d, end, pos + 1);
      if r.Err? then r else Ok([d[pos]] + r.value, r.pos)
  }

  /** The rest of a property after its token. */
  function GetProp(d: seq<Byte>, end: nat, pos: nat): (r: Parsed<Prop>)
    requires pos <= end <= |d|
    ensures r.Ok? ==> pos + 8 <= r.pos <= end && Aligned(r.pos)
  {
    var len := GetU32(d, end, pos);
    if len.Err? then Err(len.errno) else
      var nameoff := GetU32(d, end, len.pos);
      if nameoff.Err? then Err(nameoff.errno)
      else if nameoff.pos + len.value > end then Err(EOVERFLOW)
      else
        var after := nameoff.pos + len.value;
        var a := Align(d, end, after);
        if a.Err? then Err(a.errno) else Ok(Prop(nameoff.value, d[nameoff.pos..after]), a.pos)
  }

  /** What a node's token loop collects. */
  datatype Contents = Contents(props: seq<Prop>, children: seq<Node>)

  /** What one token other than END_NODE brings. */
  datatype Found = Nothing | FoundProp(prop: Prop) | FoundChild(node: Node)

  function With(r: Parsed<Contents>, f: Found): Parsed<Contents> {
    if r.Err? then r else
      match f
      case Nothing => r
      case FoundProp(p) => Ok(Contents([p] + r.value.props, r.value.children), r.pos)
      case FoundChild(n) => Ok(Contents(r.value.props, [n] + r.value.children), r.pos)
  }

  /** The switch of parse_node's token loop. */
  function GetFound(d: seq<Byte>, end: nat, token: nat, pos: nat): (r: Parsed<Found>)
    requires pos <= end <= |d|
    ensures r.Ok? ==> pos <= r.pos <= end
    decreases end - pos, 1
  {
    if token == NOP then Ok(Nothing, pos)
    else if token == PROP then
      var p := GetProp(d, end, pos);
      if p.Err? then Err(p.errno) else Ok(FoundProp(p.value), p.pos)
    else if token == BEGIN_NODE then
      var n := ParseNode(d, end, pos);
      if n.Err? then Err(n.errno) else Ok(FoundChild(n.value), n.pos)
    else Err(EINVAL)
  }

  /** The token loop of parse_node, up to and over END_NODE. */
  function GetBody(d: seq<Byte>, end: nat, pos: nat): (r: Parsed<Contents>)
    requires pos <= end <= |d|
    ensures r.Ok? ==> pos < r.pos <= end
    decreases end - pos, 2
  {
    var t := GetU32(d, end, pos);
    if t.Err? then Err(t.errno)
    else if t.value == END_NODE then Ok(Contents([], []), t.pos)
    else
      var f := GetFound(d, end, t.value, t.pos);
      if f.Err? then Err(f.errno) else With(GetBody(d, end, f.pos), f.value)
  }

  /** parse_node, which starts after BEGIN_NODE. */
  function ParseNode(d: seq<Byte>, end: nat, pos: nat): (r: Parsed<Node>)
    requires pos <= end <= |d|
    ensures r.Ok? ==> pos < r.pos <= end
    decreases end - pos, 0
  {
    var name := GetName(d, end, pos);
    if name.Err? then Err(name.errno) else
      var a := Align(d, end, name.pos);
      if a.Err? then Err(a.errno) else
        var b := GetBody(d, end, a.pos);
        if b.Err? then Err(b.errno) else Ok(Node(name.value, b.value.props, b.value.children), b.pos)
  }

  // ----- writing -----

  /** A node as it may lie in a blob: NOPs anywhere between its items, properties and children in
      any order, any bytes as padding. */
  datatype Layout = Layout(name: seq<Byte>, pad: seq<Byte>, items: Items)

  datatype Items = Last | Then(item: Item, rest: Items)

  datatype Item = Skip | Property(prop: Prop, pad: seq<Byte>) | Child(layout: Layout)

  /** The four bytes of a word. */
  ghost function U32(x: nat): (b: seq<Byte>)
    requires x < U32_LIMIT
    ensures |b| == 4 && Be32(b) == x
  {
    WordExists(x);
    var b: seq<Byte> :| |b| == 4 && Be32(b) == x;
    b
  }

  lemma WordExists(x: nat)
    requires x < U32_LIMIT
    ensures exists b: seq<Byte> :: |b| == 4 && Be32(b) == x
  {
    var b: seq<Byte> := [x / 256 / 256 / 256, x / 256 / 256 % 256, x / 256 % 256, x % 256];
    assert |b| == 4 && Be32(b) == x;
  }

  ghost predicate ValidProp(p: Prop) {
    p.nameoff < U32_LIMIT && |p.data| < U32_LIMIT
  }

  ghost predicate ValidItem(i: Item) {
    match i
    case Skip => true
    case Property(p, pad) => ValidProp(p) && |pad| == PadLength(|p.data|)
    case Child(l) => ValidLayout(l)
  }

  ghost predicate ValidItems(xs: Items) {
    xs.Last? || (ValidItem(xs.item) && ValidItems(xs.rest))
  }

  ghost predicate ValidLayout(l: Layout) {
    0 !in l.name && |l.pad| == PadLength(|l.name| + 1) && ValidItems(l.items)
  }

  ghost function EncodeItem(i: Item): seq<Byte>
    requires ValidItem(i)
  {
    match i
    case Skip => U32(NOP)
    case Property(p, pad) => U32(PROP) + (U32(|p.data|) + (U32(p.nameoff) + (p.data + pad)))
    case Child(l) => U32(BEGIN_NODE) + Encode(l)
  }

  ghost function EncodeItems(xs: Items): seq<Byte>
    requires ValidItems(xs)
  {
    if xs.Last? then U32(END_NODE) else EncodeItem(xs.item) + EncodeItems(xs.rest)
  }

  /** The bytes of a node after its BEGIN_NODE. */
  ghost function Encode(l: Layout): seq<Byte>
    requires ValidLayout(l)
  {
    l.name + ([0] + (l.pad + EncodeItems(l.items)))
  }

  ghost function PropsOf(xs: Items): seq<Prop> {
    if xs.Last? then []
    else if xs.item.Property? then [xs.item.prop] + PropsOf(xs.rest)
    else PropsOf(xs.rest)
  }

  ghost function ChildrenOf(xs: Items): seq<Node> {
    if xs.Last? then []
    else if xs.item.Child? then [Tree(xs.item.layout)] + ChildrenOf(xs.rest)
    else ChildrenOf(xs.rest)
  }

  /** The tree a layout stands for. */
  ghost function Tree(l: Layout): Node {
    Node(l.name, PropsOf(l.items), ChildrenOf(l.items))
  }

  // ----- bytes in place -----

  /** b lies at pos, before end. */
  ghost predicate At(d: seq<Byte>, end: nat, pos: nat, b: seq<Byte>) {
    pos + |b| <= end <= |d| && d[pos..pos + |b|] == b
  }

  lemma AtSplit(d: seq<Byte>, end: nat, pos: nat, a: seq<Byte>, b: seq<Byte>)
    requires At(d, end, pos, a + b)
    ensures At(d, end, pos, a) && At(d, end, pos + |a|, b)
  {
    var s := d[pos..pos + |a + b|];
    assert s == a + b;
    assert s[..|a|] == a && s[|a|..] == b;
    assert d[pos..pos + |a|] == s[..|a|];
    assert d[pos + |a|..pos + |a| + |b|] == s[|a|..];
  }

  lemma AtJoin(d: seq<Byte>, end: nat, pos: nat, a: seq<Byte>, b: seq<Byte>)
    requires At(d, end, pos, a) && At(d, end, pos + |a|, b)
    ensures At(d, end, pos, a + b)
  {
    assert d[pos..pos + |a| + |b|] == d[pos..pos + |a|] + d[pos + |a|..pos + |a| + |b|];
  }

  /** A word has one spelling. */
  lemma U32OfBe32(b: seq<Byte>)
    requires |b| == 4
    ensures Be32(b) < U32_LIMIT && U32(Be32(b)) == b
  {
    Be32Injective(b, U32(Be32(b)));
  }

  lemma Be32Injective(b: seq<Byte>, c: seq<Byte>)
    requires |b| == |c| == 4 && Be32(b) == Be32(c)
    ensures b == c
  {
    var b1, c1 := Push(b[0], b[1]), Push(c[0], c[1]);
    var b2, c2 := Push(b1, b[2]), Push(c1, c[2]);
    PushInjective(b2, b[3], c2, c[3]);
    PushInjective(b1, b[2], c1, c[2]);
    PushInjective(b[0], b[1], c[0], c[1]);
    assert b == [b[0], b[1], b[2], b[3]] && c == [c[0], c[1], c[2], c[3]];
  }

  lemma PushInjective(h: nat, l: Byte, h': nat, l': Byte)
    requires Push(h, l) == Push(h', l')
    ensures h == h' && l == l'
  {
  }

  lemma ReadU32(d: seq<Byte>, end: nat, pos: nat, x: nat)
    requires x < U32_LIMIT && At(d, end, pos, U32(x))
    ensures GetU32(d, end, pos) == Ok(x, pos + 4)
  {
  }

  // ----- the parser reads every layout back -----

  lemma {:induction false} NameReads(d: seq<Byte>, end: nat, pos: nat, name: seq<Byte>)
    requires 0 !in name && At(d, end, pos, name + [0])
    ensures GetName(d, end, pos) == Ok(name, pos + |name| + 1)
    decreases |name|
  {
    AtSplit(d, end, pos, name, [0]);
    assert d[pos..pos + |name|] == name && d[pos + |name|..pos + |name| + 1] == [0];
    if name == [] {
      assert d[pos] == d[pos..pos + 1][0] == 0;
    } else {
      assert d[pos] == d[pos..pos + |name|][0] == name[0];
      AtSplit(d, end, pos, [name[0]], name[1..] + [0]) by {
        assert name + [0] == [name[0]] + (name[1..] + [0]);
      }
      NameReads(d, end, pos + 1, name[1..]);
      assert [name[0]] + name[1..] == name;
    }
  }

  lemma PropReads(d: seq<Byte>, end: nat, pos: nat, p: Prop, pad: seq<Byte>)
    requires ValidProp(p) && |pad| == PadLength(|p.data|) && Aligned(pos)
    requires At(d, end, pos, U32(|p.data|) + (U32(p.nameoff) + (p.data + pad)))
    ensures GetProp(d, end, pos) == Ok(p, pos + 8 + |p.data| + |pad|)
  {
    AtSplit(d, end, pos, U32(|p.data|), U32(p.nameoff) + (p.data + pad));
    AtSplit(d, end, pos + 4, U32(p.nameoff), p.data + pad);
    AtSplit(d, end, pos + 8, p.data, pad);
    ReadU32(d, end, pos, |p.data|);
    ReadU32(d, end, pos + 4, p.nameoff);
    SumAligned(pos, 8);
    PadSame(pos + 8, |p.data|);
    PropHere(d, end, pos, p, pos + 8 + |p.data| + |pad|);
  }

  lemma PropHere(d: seq<Byte>, end: nat, pos: nat, p: Prop, next: nat)
    requires pos <= end <= |d| && GetU32(d, end, pos) == Ok(|p.data|, pos + 4)
    requires pos + 4 <= end && GetU32(d, end, pos + 4) == Ok(p.nameoff, pos + 8)
    requires At(d, end, pos + 8, p.data) && next == pos + 8 + |p.data| + PadLength(pos + 8 + |p.data|) <= end
    ensures GetProp(d, end, pos) == Ok(p, next)
  {
  }

  lemma {:induction false} EncodeAligned(l: Layout)
    requires ValidLayout(l)
    ensures Aligned(|Encode(l)|)
    decreases l, 0
  {
    ItemsAligned(l.items);
    PadAligns(|l.name| + 1);
    SumAligned(|l.name| + 1 + |l.pad|, |EncodeItems(l.items)|);
  }

  lemma SumAligned(a: nat, b: nat)
    requires Aligned(a) && Aligned(b)
    ensures Aligned(a + b)
  {
    PadSame(a, b);
  }

  lemma {:induction false} ItemAligned(i: Item)
    requires ValidItem(i)
    ensures Aligned(|EncodeItem(i)|)
    decreases i, 1
  {
    match i
    case Skip =>
    case Property(p, pad) =>
      PadAligns(|p.data|);
      SumAligned(12, |p.data| + |pad|);
    case Child(l) =>
      EncodeAligned(l);
      SumAligned(4, |Encode(l)|);
  }

  lemma {:induction false} ItemsAligned(xs: Items)
    requires ValidItems(xs)
    ensures Aligned(|EncodeItems(xs)|)
    decreases xs, 2
  {
    if xs.Then? {
      ItemAligned(xs.item);
      ItemsAligned(xs.rest);
      SumAligned(|EncodeItem(xs.item)|, |EncodeItems(xs.rest)|);
    }
  }

  ghost function ContentsOf(xs: Items): Contents {
    Contents(PropsOf(xs), ChildrenOf(xs))
  }

  ghost function FoundOf(i: Item): Found {
    match i
    case Skip => Nothing
    case Property(p, _) => FoundProp(p)
    case Child(l) => FoundChild(Tree(l))
  }

  ghost function TokenOf(i: Item): nat {
    match i
    case Skip => NOP
    case Property(_, _) => PROP
    case Child(_) => BEGIN_NODE
  }

  /** An item's bytes after its token. */
  ghost function TailOf(i: Item): seq<Byte>
    requires ValidItem(i)
  {
    match i
    case Skip => []
    case Property(p, pad) => U32(|p.data|) + (U32(p.nameoff) + (p.data + pad))
    case Child(l) => Encode(l)
  }

  lemma ItemIsTokenAndTail(i: Item)
    requires ValidItem(i)
    ensures EncodeItem(i) == U32(TokenOf(i)) + TailOf(i)
  {
  }

  /** Reading one item: its token, then the rest of it. */
  lemma ItemHere(d: seq<Byte>, end: nat, pos: nat, i: Item, next: nat)
    requires ValidItem(i) && At(d, end, pos, EncodeItem(i)) && pos + 4 <= next <= end
    requires GetFound(d, end, TokenOf(i), pos + 4) == Ok(FoundOf(i), next)
    ensures GetBody(d, end, pos) == With(GetBody(d, end, next), FoundOf(i))
  {
    TailAt(d, end, pos, i);
    ReadU32(d, end, pos, TokenOf(i));
  }

  lemma TailReads(d: seq<Byte>, end: nat, pos: nat, p: Prop, pad: seq<Byte>)
    requires ValidItem(Property(p, pad)) && Aligned(pos) && At(d, end, pos, TailOf(Property(p, pad)))
    ensures GetFound(d, end, PROP, pos) == Ok(FoundProp(p), pos + |TailOf(Property(p, pad))|)
  {
    PropReads(d, end, pos, p, pad);
  }

  lemma ChildReads(d: seq<Byte>, end: nat, pos: nat, l: Layout)
    requires ValidLayout(l) && At(d, end, pos, Encode(l)) && ParseNode(d, end, pos) == Ok(Tree(l), pos + |Encode(l)|)
    ensures GetFound(d, end, BEGIN_NODE, pos) == Ok(FoundChild(Tree(l)), pos + |TailOf(Child(l))|)
  {
  }

  lemma TailAt(d: seq<Byte>, end: nat, pos: nat, i: Item)
    requires ValidItem(i) && At(d, end, pos, EncodeItem(i))
    ensures At(d, end, pos, U32(TokenOf(i))) && At(d, end, pos + 4, TailOf(i))
    ensures |EncodeItem(i)| == 4 + |TailOf(i)|
  {
    ItemIsTokenAndTail(i);
    AtSplit(d, end, pos, U32(TokenOf(i)), TailOf(i));
  }

  lemma {:induction false} ItemReads(d: seq<Byte>, end: nat, pos: nat, i: Item)
    requires ValidItem(i) && Aligned(pos) && At(d, end, pos, EncodeItem(i))
    ensures pos + 4 <= end && GetFound(d, end, TokenOf(i), pos + 4) == Ok(FoundOf(i), pos + |EncodeItem(i)|)
    decreases i, 1
  {
    TailAt(d, end, pos, i);
    SumAligned(pos, 4);
    match i
    case Skip =>
    case Property(p, pad) => TailReads(d, end, pos + 4, p, pad);
    case Child(l) =>
      LayoutReads(d, end, pos + 4, l);
      ChildReads(d, end, pos + 4, l);
  }

  lemma {:induction false} ItemsRead(d: seq<Byte>, end: nat, pos: nat, xs: Items)
    requires ValidItems(xs) && Aligned(pos) && At(d, end, pos, EncodeItems(xs))
    ensures GetBody(d, end, pos) == Ok(ContentsOf(xs), pos + |EncodeItems(xs)|)
    decreases xs, 2
  {
    match xs
    case Last => ReadU32(d, end, pos, END_NODE);
    case Then(i, rest) =>
      var next := pos + |EncodeItem(i)|;
      AtSplit(d, end, pos, EncodeItem(i), EncodeItems(rest));
      ItemAligned(i);
      SumAligned(pos, |EncodeItem(i)|);
      ItemReads(d, end, pos, i);
      ItemsRead(d, end, next, rest);
      ItemHere(d, end, pos, i, next);
  }

  /** A layout is its name, a NUL and padding, and then its items. */
  lemma LayoutAt(d: seq<Byte>, end: nat, pos: nat, l: Layout)
    requires ValidLayout(l) && At(d, end, pos, Encode(l))
    ensures At(d, end, pos, l.name + [0]) && At(d, end, pos + |l.name| + 1 + |l.pad|, EncodeItems(l.items))
  {
    var body := EncodeItems(l.items);
    Regroup(l.name, [0], l.pad + body);
    AtSplit(d, end, pos, l.name + [0], l.pad + body);
    AtSplit(d, end, pos + |l.name| + 1, l.pad, body);
  }

  lemma BodyAligned(pos: nat, l: Layout)
    requires ValidLayout(l) && Aligned(pos)
    ensures Aligned(pos + |l.name| + 1 + |l.pad|)
  {
    PadAligns(|l.name| + 1);
    SumAligned(pos, |l.name| + 1 + |l.pad|);
  }

  lemma NodeHere(d: seq<Byte>, end: nat, pos: nat, name: seq<Byte>, pad: nat, c: Contents, next: nat)
    requires At(d, end, pos, name + [0]) && 0 !in name && Aligned(pos) && pad == PadLength(|name| + 1)
    requires pos + |name| + 1 + pad <= end && GetBody(d, end, pos + |name| + 1 + pad) == Ok(c, next)
    ensures ParseNode(d, end, pos) == Ok(Node(name, c.props, c.children), next)
  {
    NameReads(d, end, pos, name);
    PadSame(pos, |name| + 1);
  }

  /** However a tree is laid out at an aligned place, with whatever NOPs and padding, parse_node
      returns that tree and stops just after its END_NODE. */
  lemma {:induction false} LayoutReads(d: seq<Byte>, end: nat, pos: nat, l: Layout)
    requires ValidLayout(l) && Aligned(pos) && At(d, end, pos, Encode(l))
    ensures ParseNode(d, end, pos) == Ok(Tree(l), pos + |Encode(l)|)
    decreases l, 0
  {
    var body, after := EncodeItems(l.items), pos + |l.name| + 1 + |l.pad|;
    LayoutAt(d, end, pos, l);
    BodyAligned(pos, l);
    ItemsRead(d, end, after, l.items);
    NodeHere(d, end, pos, l.name, |l.pad|, ContentsOf(l.items), after + |body|);
  }

  lemma LayoutJoin(d: seq<Byte>, end: nat, pos: nat, l: Layout)
    requires ValidLayout(l) && At(d, end, pos, l.name + [0]) && At(d, end, pos + |l.name| + 1, l.pad)
    requires At(d, end, pos + |l.name| + 1 + |l.pad|, EncodeItems(l.items))
    ensures At(d, end, pos, Encode(l)) && |Encode(l)| == |l.name| + 1 + |l.pad| + |EncodeItems(l.items)|
  {
    var body := EncodeItems(l.items);
    AtJoin(d, end, pos + |l.name| + 1, l.pad, body);
    AtJoin(d, end, pos, l.name + [0], l.pad + body);
    Regroup(l.name, [0], l.pad + body);
  }

  lemma Regroup(a: seq<Byte>, b: seq<Byte>, c: seq<Byte>)
    ensures a + (b + c) == (a + b) + c
  {
  }

  /** Two layouts of one tree, differing in NOPs, padding or interleaving, parse alike. */
  lemma NopsDoNotMatter(d: seq<Byte>, d': seq<Byte>, pos: nat, l: Layout, l': Layout)
    requires ValidLayout(l) && ValidLayout(l') && Tree(l) == Tree(l') && Aligned(pos)
    requires At(d, |d|, pos, Encode(l)) && At(d', |d'|, pos, Encode(l'))
    ensures ParseNode(d, |d|, pos).Ok? && ParseNode(d', |d'|, pos).Ok?
    ensures ParseNode(d, |d|, pos).value == ParseNode(d', |d'|, pos).value
  {
    LayoutReads(d, |d|, pos, l);
    LayoutReads(d', |d'|, pos, l');
  }

  // ----- the standard layout of a tree -----

  ghost predicate ValidNode(n: Node) {
    && 0 !in n.name
    && (forall p :: p in n.props ==> ValidProp(p))
    && (forall c :: c in n.children ==> ValidNode(c))
  }

  ghost function Zeros(n: nat): (z: seq<Byte>)
    ensures |z| == n
  {
    seq(n, _ => 0)
  }

  /** Properties first, then children, no NOPs, zeros as padding. */
  ghost function Standard(n: Node): Layout
    decreases n
  {
    Layout(n.name, Zeros(PadLength(|n.name| + 1)), StandardProps(n.props, StandardChildren(n.children)))
  }

  ghost function StandardProps(ps: seq<Prop>, rest: Items): Items {
    if ps == [] then rest
    else Then(Property(ps[0], Zeros(PadLength(|ps[0].data|))), StandardProps(ps[1..], rest))
  }

  ghost function StandardChildren(cs: seq<Node>): Items
    decreases cs
  {
    if cs == [] then Last else Then(Child(Standard(cs[0])), StandardChildren(cs[1..]))
  }

  lemma {:induction false} StandardPropsAre(ps: seq<Prop>, rest: Items)
    requires ValidItems(rest) && PropsOf(rest) == [] && forall p :: p in ps ==> ValidProp(p)
    ensures ValidItems(StandardProps(ps, rest))
    ensures PropsOf(StandardProps(ps, rest)) == ps && ChildrenOf(StandardProps(ps, rest)) == ChildrenOf(rest)
    decreases |ps|
  {
    if ps == [] {
    } else {
      assert ps[0] in ps && ps == [ps[0]] + ps[1..];
      StandardPropsAre(ps[1..], rest);
    }
  }

  lemma {:induction false} StandardChildrenAre(cs: seq<Node>)
    requires forall c :: c in cs ==> ValidNode(c)
    ensures ValidItems(StandardChildren(cs))
    ensures PropsOf(StandardChildren(cs)) == [] && ChildrenOf(StandardChildren(cs)) == cs
    decreases cs
  {
    if cs == [] {
    } else {
      assert cs[0] in cs && cs == [cs[0]] + cs[1..];
      StandardIs(cs[0]);
      StandardChildrenAre(cs[1..]);
    }
  }

  lemma {:induction false} StandardIs(n: Node)
    requires ValidNode(n)
    ensures ValidLayout(Standard(n)) && Tree(Standard(n)) == n
    decreases n
  {
    StandardChildrenAre(n.children);
    StandardPropsAre(n.props, StandardChildren(n.children));
  }

  /** Every device tree, written the standard way at an aligned place, is read back as itself. */
  lemma RoundTrip(n: Node, before: seq<Byte>, after: seq<Byte>)
    requires ValidNode(n) && |before| % 4 == 0
    ensures ValidLayout(Standard(n))
    ensures var bytes := Encode(Standard(n));
      ParseNode(before + bytes + after, |before + bytes + after|, |before|) == Ok(n, |before| + |bytes|)
  {
    StandardIs(n);
    var bytes := Encode(Standard(n));
    var d := before + bytes + after;
    assert d[|before|..|before| + |bytes|] == bytes;
    PadIsMod(|before|);
    LayoutReads(d, |d|, |before|, Standard(n));
  }

  // ----- and accepts nothing else -----

  lemma {:induction false} NameWritten(d: seq<Byte>, end: nat, pos: nat)
    requires pos <= end <= |d| && GetName(d, end, pos).Ok?
    ensures 0 !in GetName(d, end, pos).value && At(d, end, pos, GetName(d, end, pos).value + [0])
    decreases end - pos
  {
    if d[pos] == 0 {
      assert d[pos..pos + 1] == [0];
      assert [] + [0] == [0 as Byte];
    } else {
      NameWritten(d, end, pos + 1);
      var rest := GetName(d, end, pos + 1).value;
      assert At(d, end, pos, [d[pos]]);
      AtJoin(d, end, pos, [d[pos]], rest + [0]);
      assert [d[pos]] + (rest + [0]) == ([d[pos]] + rest) + [0];
    }
  }

  lemma U32Written(d: seq<Byte>, end: nat, pos: nat)
    requires pos <= end <= |d| && GetU32(d, end, pos).Ok?
    ensures GetU32(d, end, pos).value < U32_LIMIT
    ensures At(d, end, pos, U32(GetU32(d, end, pos).value))
  {
    U32OfBe32(d[pos..pos + 4]);
  }

  lemma PropWritten(d: seq<Byte>, end: nat, pos: nat) returns (pad: seq<Byte>)
    requires pos <= end <= |d| && Aligned(pos) && GetProp(d, end, pos).Ok?
    ensures var p := GetProp(d, end, pos).value;
      ValidProp(p) && |pad| == PadLength(|p.data|) && GetProp(d, end, pos).pos == pos + 8 + |p.data| + |pad| &&
      At(d, end, pos, U32(|p.data|) + (U32(p.nameoff) + (p.data + pad)))
  {
    U32Written(d, end, pos);
    U32Written(d, end, pos + 4);
    var r := GetProp(d, end, pos);
    var p := r.value;
    SumAligned(pos, 8);
    PadSame(pos + 8, |p.data|);
    pad := d[pos + 8 + |p.data|..r.pos];
    AtJoin(d, end, pos + 8, p.data, pad);
    AtJoin(d, end, pos + 4, U32(p.nameoff), p.data + pad);
    AtJoin(d, end, pos, U32(|p.data|), U32(p.nameoff) + (p.data + pad));
  }

  /** An item in front of a body that is written out. */
  lemma ItemWritten(d: seq<Byte>, end: nat, pos: nat, xs: Items, i: Item, next: nat)
    requires ValidItem(i) && ValidItems(xs) && next == pos + |EncodeItem(i)|
    requires At(d, end, pos, EncodeItem(i)) && At(d, end, next, EncodeItems(xs))
    ensures ValidItems(Then(i, xs)) && At(d, end, pos, EncodeItems(Then(i, xs)))
    ensures pos + |EncodeItems(Then(i, xs))| == next + |EncodeItems(xs)|
  {
    AtJoin(d, end, pos, EncodeItem(i), EncodeItems(xs));
  }

  /** The item a token starts, when what follows parses. */
  lemma {:induction false} FoundWritten(d: seq<Byte>, end: nat, pos: nat) returns (i: Item)
    requires pos <= end <= |d| && Aligned(pos) && GetU32(d, end, pos).Ok?
    requires GetFound(d, end, GetU32(d, end, pos).value, pos + 4).Ok?
    ensures ValidItem(i) && At(d, end, pos, EncodeItem(i))
    ensures GetFound(d, end, GetU32(d, end, pos).value, pos + 4) == Ok(FoundOf(i), pos + |EncodeItem(i)|)
    decreases end - pos, 0
  {
    U32Written(d, end, pos);
    SumAligned(pos, 4);
    var t := GetU32(d, end, pos).value;
    if t == NOP {
      i := Skip;
      assert U32(NOP) + [] == U32(NOP);
    } else if t == PROP {
      var pad := PropWritten(d, end, pos + 4);
      i := Property(GetProp(d, end, pos + 4).value, pad);
    } else {
      var l := NodeWritten(d, end, pos + 4);
      i := Child(l);
    }
    AtJoin(d, end, pos, U32(TokenOf(i)), TailOf(i));
    ItemIsTokenAndTail(i);
  }

  lemma {:induction false} FirstPass(d: seq<Byte>, end: nat, pos: nat) returns (i: Item, next: nat)
    requires pos <= end <= |d| && Aligned(pos) && GetBody(d, end, pos).Ok?
    requires GetU32(d, end, pos).Ok? && GetU32(d, end, pos).value != END_NODE
    ensures ValidItem(i) && At(d, end, pos, EncodeItem(i)) && pos < next == pos + |EncodeItem(i)| <= end
    ensures Aligned(next) && GetBody(d, end, pos) == With(GetBody(d, end, next), FoundOf(i))
    decreases end - pos, 1
  {
    i := FoundWritten(d, end, pos);
    next := pos + |EncodeItem(i)|;
    ItemAligned(i);
    SumAligned(pos, |EncodeItem(i)|);
  }

  lemma {:induction false} BodyWritten(d: seq<Byte>, end: nat, pos: nat) returns (xs: Items)
    requires pos <= end <= |d| && Aligned(pos) && GetBody(d, end, pos).Ok?
    ensures ValidItems(xs) && At(d, end, pos, EncodeItems(xs))
    ensures GetBody(d, end, pos) == Ok(ContentsOf(xs), pos + |EncodeItems(xs)|)
    decreases end - pos, 2
  {
    U32Written(d, end, pos);
    if GetU32(d, end, pos).value == END_NODE {
      xs := Last;
    } else {
      var i, next := FirstPass(d, end, pos);
      var rest := BodyWritten(d, end, next);
      ItemWritten(d, end, pos, rest, i, next);
      xs := Then(i, rest);
    }
  }

  /** Whenever parse_node succeeds, the bytes it passed over are a layout of the tree it returns. */
  lemma {:induction false} NodeWritten(d: seq<Byte>, end: nat, pos: nat) returns (l: Layout)
    requires pos <= end <= |d| && Aligned(pos) && ParseNode(d, end, pos).Ok?
    ensures ValidLayout(l) && At(d, end, pos, Encode(l))
    ensures ParseNode(d, end, pos) == Ok(Tree(l), pos + |Encode(l)|)
    decreases end - pos, 0
  {
    NameWritten(d, end, pos);
    var name := GetName(d, end, pos).value;
    var after := pos + |name| + 1;
    PadSame(pos, |name| + 1);
    var next := after + PadLength(|name| + 1);
    var xs := BodyWritten(d, end, next);
    l := Layout(name, d[after..next], xs);
    LayoutJoin(d, end, pos, l);
  }

  // ----- the whole structure block -----

  /** fdt_init's loop over root tokens. */
  function GetRoots(d: seq<Byte>, end: nat, pos: nat): Option<seq<Node>>
    requires pos <= end <= |d|
    decreases end - pos
  {
    if pos >= end then Some([]) else
      var t := GetU32(d, end, pos);
      if t.Err? then None
      else if t.value == NOP then GetRoots(d, end, t.pos)
      else if t.value == END then Some([])
      else if t.value != BEGIN_NODE then None
      else
        var n := ParseNode(d, end, t.pos);
        if n.Err? then None else
          var rest := GetRoots(d, end, n.pos);
          if rest.None? then None else Some([n.value] + rest.value)
  }

  /** Items at the root: no properties there, and END after them. */
  ghost predicate ValidRoots(xs: Items) {
    xs.Last? || (ValidItem(xs.item) && !xs.item.Property? && ValidRoots(xs.rest))
  }

  ghost function EncodeRoots(xs: Items, closed: bool): seq<Byte>
    requires ValidRoots(xs)
  {
    if xs.Then? then EncodeItem(xs.item) + EncodeRoots(xs.rest, closed)
    else if closed then U32(END)
    else []
  }

  /** A forest at pos, laid out with any NOPs, and closed by END or by the end of the block. */
  ghost predicate Forest(d: seq<Byte>, end: nat, pos: nat, xs: Items, closed: bool) {
    && ValidRoots(xs) && At(d, end, pos, EncodeRoots(xs, closed))
    && (closed || pos + |EncodeRoots(xs, closed)| == end)
  }

  ghost function WithRoot(r: Option<seq<Node>>, f: Found): Option<seq<Node>> {
    if r.Some? && f.FoundChild? then Some([f.node] + r.value) else r
  }

  lemma RootHere(d: seq<Byte>, end: nat, pos: nat, i: Item, next: nat)
    requires ValidItem(i) && !i.Property? && At(d, end, pos, EncodeItem(i)) && pos + 4 <= next <= end
    requires GetFound(d, end, TokenOf(i), pos + 4) == Ok(FoundOf(i), next)
    ensures GetRoots(d, end, pos) == WithRoot(GetRoots(d, end, next), FoundOf(i))
  {
    TailAt(d, end, pos, i);
    ReadU32(d, end, pos, TokenOf(i));
  }

  /** Any forest is read back whole. */
  lemma {:induction false} RootsRead(d: seq<Byte>, end: nat, pos: nat, xs: Items, closed: bool)
    requires Aligned(pos) && Forest(d, end, pos, xs, closed)
    ensures GetRoots(d, end, pos) == Some(ChildrenOf(xs))
    decreases xs
  {
    match xs
    case Last => if closed { ReadU32(d, end, pos, END); }
    case Then(i, rest) =>
      AtSplit(d, end, pos, EncodeItem(i), EncodeRoots(rest, closed));
      ItemAligned(i);
      SumAligned(pos, |EncodeItem(i)|);
      RootsRead(d, end, pos + |EncodeItem(i)|, rest, closed);
      ItemReads(d, end, pos, i);
      RootHere(d, end, pos, i, pos + |EncodeItem(i)|);
  }

  /** A root item in front of a forest. */
  lemma RootWritten(d: seq<Byte>, end: nat, pos: nat, i: Item, xs: Items, closed: bool)
    requires ValidItem(i) && !i.Property? && At(d, end, pos, EncodeItem(i))
    requires Forest(d, end, pos + |EncodeItem(i)|, xs, closed)
    ensures Forest(d, end, pos, Then(i, xs), closed)
  {
    AtJoin(d, end, pos, EncodeItem(i), EncodeRoots(xs, closed));
  }

  /** The first item, whenever the loop goes on past it. */
  lemma FirstRoot(d: seq<Byte>, end: nat, pos: nat) returns (i: Item, next: nat)
    requires pos < end <= |d| && Aligned(pos) && GetRoots(d, end, pos).Some? && GetU32(d, end, pos).value != END
    ensures ValidItem(i) && !i.Property? && At(d, end, pos, EncodeItem(i))
    ensures pos < next == pos + |EncodeItem(i)| <= end && Aligned(next)
    ensures GetRoots(d, end, next).Some? && GetRoots(d, end, pos) == WithRoot(GetRoots(d, end, next), FoundOf(i))
  {
    i := FoundWritten(d, end, pos);
    next := pos + |EncodeItem(i)|;
    ItemAligned(i);
    SumAligned(pos, |EncodeItem(i)|);
  }

  /** Conversely, whenever the loop of fdt_init succeeds, the block is a forest of the nodes it lists. */
  lemma {:induction false} RootsWritten(d: seq<Byte>, end: nat, pos: nat) returns (xs: Items, closed: bool)
    requires pos <= end <= |d| && Aligned(pos) && GetRoots(d, end, pos).Some?
    ensures Forest(d, end, pos, xs, closed) && GetRoots(d, end, pos) == Some(ChildrenOf(xs))
    decreases end - pos
  {
    if pos == end {
      xs, closed := Last, false;
    } else if GetU32(d, end, pos).value == END {
      U32Written(d, end, pos);
      xs, closed := Last, true;
    } else {
      var i, next := FirstRoot(d, end, pos);
      xs, closed := RootsWritten(d, end, next);
      RootWritten(d, end, pos, i, xs, closed);
      xs := Then(i, xs);
    }
  }

  // ----- the parser as it runs -----

  /** The name that starts at start, seen from pos on. */
  ghost predicate NameFrom(d: seq<Byte>, end: nat, start: nat, pos: nat, g: Parsed<seq<Byte>>)
    requires start <= pos <= end <= |d|
  {
    var h := GetName(d, end, pos);
    if g.Err? then h.Err? else h.Ok? && h.pos == g.pos && g.value == d[start..pos] + h.value
  }

  lemma NameOn(d: seq<Byte>, end: nat, start: nat, pos: nat, g: Parsed<seq<Byte>>)
    requires start <= pos < end <= |d| && d[pos] != 0 && NameFrom(d, end, start, pos, g)
    ensures NameFrom(d, end, start, pos + 1, g)
  {
    var h := GetName(d, end, pos + 1);
    if h.Ok? {
      assert d[start..pos] + ([d[pos]] + h.value) == (d[start..pos] + [d[pos]]) + h.value;
      assert d[start..pos + 1] == d[start..pos] + [d[pos]];
    }
  }

  class Parser {
    const data: seq<Byte>
    const end: nat
    var pos: nat

    ghost predicate Valid()
      reads this
    {
      pos <= end <= |data|
    }

    constructor (data: seq<Byte>, begin: nat, end: nat)
      requires begin <= end <= |data|
      ensures Valid() && this.data == data && this.end == end && pos == begin
    {
      this.data, this.end, pos := data, end, begin;
    }

    method ReadByte() returns (r: Option<Byte>)
      requires Valid()
      modifies this
      ensures Valid() && var g := GetU8(data, end, old(pos));
        if g.Err? then r == None && pos == old(pos) else r == Some(g.value) && pos == g.pos
    {
      if pos + 1 > end { return None; }
      r := Some(data[pos]);
      pos := pos + 1;
    }

    method ReadWord() returns (r: Option<nat>)
      requires Valid()
      modifies this
      ensures Valid() && var g := GetU32(data, end, old(pos));
        if g.Err? then r == None && pos == old(pos) else r == Some(g.value) && pos == g.pos
    {
      if pos + 4 > end { return None; }
      r := Some(Be32(data[pos..pos + 4]));
      pos := pos + 4;
    }

    /** The loop of parser_align. */
    method SkipPad() returns (ok: bool)
      requires Valid()
      modifies this
      ensures Valid() && old(pos) <= pos && var g := Align(data, end, old(pos)); ok == g.Ok? && (ok ==> pos == g.pos)
    {
      while pos % 4 != 0
        invariant Valid() && old(pos) <= pos && pos + PadLength(pos) == old(pos) + PadLength(old(pos))
        decreases end - pos
      {
        PadIsMod(pos);
        PadIsMod(pos + 1);
        var c := ReadByte();
        if c.None? { return false; }
      }
      PadIsMod(pos);
      ok := true;
    }

    /** The loop over the name's bytes. */
    method ReadName() returns (r: Option<seq<Byte>>)
      requires Valid()
      modifies this
      ensures Valid() && old(pos) <= pos && var g := GetName(data, end, old(pos));
        if g.Err? then r == None else r == Some(g.value) && pos == g.pos
    {
      ghost var g := GetName(data, end, pos);
      var start := pos;
      while pos < end && data[pos] != 0
        invariant Valid() && start <= pos && start == old(pos)
        invariant NameFrom(data, end, start, pos, g)
        decreases end - pos
      {
        NameOn(data, end, start, pos, g);
        pos := pos + 1;
      }
      assert data[start..pos] + [] == data[start..pos];
      var c := ReadByte();
      if c.None? { return None; }
      r := Some(data[start..pos - 1]);
    }

    /** A property after its token; the loop over its bytes. */
    method ReadProp() returns (r: Option<Prop>)
      requires Valid()
      modifies this
      ensures Valid() && old(pos) <= pos && var g := GetProp(data, end, old(pos));
        if g.Err? then r == None else r == Some(g.value) && pos == g.pos
    {
      var len := ReadWord();
      if len.None? { return None; }
      var nameoff := ReadWord();
      if nameoff.None? { return None; }
      var start := pos;
      var bytes: seq<Byte> := [];
      while |bytes| < len.value
        invariant Valid() && |bytes| <= len.value && pos == start + |bytes| && bytes == data[start..pos]
        decreases len.value - |bytes|
      {
        var c := ReadByte();
        if c.None? { return None; }
        bytes := bytes + [c.value];
      }
      var ok := SkipPad();
      if !ok { return None; }
      r := Some(Prop(nameoff.value, bytes));
    }

    /** The switch on a token. */
    method ReadFound(token: nat) returns (r: Option<Found>)
      requires Valid()
      modifies this
      ensures Valid() && old(pos) <= pos && var g := GetFound(data, end, token, old(pos));
        if g.Err? then r == None else r == Some(g.value) && pos == g.pos
      decreases end - pos, 2
    {
      if token == NOP {
        r := Some(Nothing);
      } else if token == PROP {
        var prop := ReadProp();
        r := if prop.None? then None else Some(FoundProp(prop.value));
      } else if token == BEGIN_NODE {
        var child := ReadNode();
        r := if child.None? then None else Some(FoundChild(child.value));
      } else {
        r := None;
      }
    }

    /** parse_node's token loop, which collects in place what GetBody describes. */
    method ReadBody() returns (r: Option<Contents>)
      requires Valid()
      modifies this
      ensures Valid() && old(pos) <= pos && var g := GetBody(data, end, old(pos));
        if g.Err? then r == None else r == Some(g.value) && pos == g.pos
      decreases end - pos, 0
    {
      ghost var g := GetBody(data, end, pos);
      var c := Contents([], []);
      AroundNone(g);
      while true
        invariant Valid() && old(pos) <= pos
        invariant g == Around(c, GetBody(data, end, pos))
        decreases end - pos
      {
        var token := ReadWord();
        if token.None? { return None; }
        if token.value == END_NODE { break; }
        var f := ReadFound(token.value);
        if f.None? { return None; }
        AroundMore(c, f.value, GetBody(data, end, pos));
        c := Append(c, f.value);
      }
      AroundEnd(c, pos);
      r := Some(c);
    }

    /** parse_node. */
    method ReadNode() returns (r: Option<Node>)
      requires Valid()
      modifies this
      ensures Valid() && old(pos) <= pos && var g := ParseNode(data, end, old(pos));
        if g.Err? then r == None else r == Some(g.value) && pos == g.pos
      decreases end - pos, 1
    {
      var name := ReadName();
      if name.None? { return None; }
      var ok := SkipPad();
      if !ok { return None; }
      var body := ReadBody();
      if body.None? { return None; }
      r := Some(Node(name.value, body.value.props, body.value.children));
    }

    /** fdt_init's loop. */
    method ReadRoots() returns (r: Option<seq<Node>>)
      requires Valid()
      modifies this
      ensures Valid() && r == GetRoots(data, end, old(pos))
    {
      ghost var g := GetRoots(data, end, pos);
      var nodes: seq<Node> := [];
      assert g.Some? ==> [] + g.value == g.value;
      while pos < end
        invariant Valid() && Gathered(g, nodes, GetRoots(data, end, pos))
        decreases end - pos
      {
        var token := ReadWord();
        if token.None? { return None; }
        if token.value == NOP { continue; }
        if token.value == END { break; }
        if token.value != BEGIN_NODE { return None; }
        var node := ReadNode();
        if node.None? { return None; }
        GatherMore(g, nodes, node.value, GetRoots(data, end, pos));
        nodes := nodes + [node.value];
      }
      assert nodes + [] == nodes;
      r := Some(nodes);
    }
  }

  /** The roots g are those in nodes followed by h. */
  ghost predicate Gathered(g: Option<seq<Node>>, nodes: seq<Node>, h: Option<seq<Node>>) {
    if g.None? then h.None? else h.Some? && g.value == nodes + h.value
  }

  lemma GatherMore(g: Option<seq<Node>>, nodes: seq<Node>, n: Node, h: Option<seq<Node>>)
    requires Gathered(g, nodes, WithRoot(h, FoundChild(n)))
    ensures Gathered(g, nodes + [n], h)
  {
    if h.Some? { assert nodes + ([n] + h.value) == (nodes + [n]) + h.value; }
  }

  /** The list insertions of one token. */
  function Append(c: Contents, f: Found): Contents {
    match f
    case Nothing => c
    case FoundProp(p) => Contents(c.props + [p], c.children)
    case FoundChild(n) => Contents(c.props, c.children + [n])
  }

  /** What is already collected, followed by what the rest of the body gives. */
  ghost function Around(c: Contents, r: Parsed<Contents>): Parsed<Contents> {
    if r.Err? then r else Ok(Contents(c.props + r.value.props, c.children + r.value.children), r.pos)
  }

  lemma AroundNone(r: Parsed<Contents>)
    ensures Around(Contents([], []), r) == r
  {
    if r.Ok? { assert [] + r.value.props == r.value.props && [] + r.value.children == r.value.children; }
  }

  lemma AroundEnd(c: Contents, pos: nat)
    ensures Around(c, Ok(Contents([], []), pos)) == Ok(c, pos)
  {
    assert c.props + [] == c.props && c.children + [] == c.children;
  }

  lemma AroundMore(c: Contents, f: Found, r: Parsed<Contents>)
    ensures Around(c, With(r, f)) == Around(Append(c, f), r)
  {
    if r.Ok? && f.FoundProp? { assert c.props + ([f.prop] + r.value.props) == (c.props + [f.prop]) + r.value.props; }
    if r.Ok? && f.FoundChild? {
      assert c.children + ([f.node] + r.value.children) == (c.children + [f.node]) + r.value.children;
    }
  }

  // ----- looking up a compatible string -----

  /** str is one of the NUL-separated strings of data. */
  ghost predicate Lists(data: seq<Byte>, str: seq<Byte>, i: nat) {
    && i < |data| && i + |str| <= |data|
    && (i == 0 || data[i - 1] == 0)
    && (forall m :: 0 <= m < |str| ==> data[i + m] == str[m])
    && (i + |str| == |data| || data[i + |str|] == 0)
  }

  /** The loop of fdt_check_compatible over the property's bytes. */
  method CheckCompatible(data: seq<Byte>, str: seq<Byte>) returns (found: bool)
    requires 0 !in str
    ensures found <==> exists i :: Lists(data, str, i)
  {
    var i := 0;
    while i < |data|
      invariant 0 <= i <= |data| + 1 && (i == 0 || i == |data| + 1 || data[i - 1] == 0)
      invariant forall j :: 0 <= j < i && j < |data| ==> !Lists(data, str, j)
      decreases |data| - i
    {
      var len := 0;
      while i + len < |data| && data[i + len] != 0
        invariant i + len <= |data| && forall k :: i <= k < i + len ==> data[k] != 0
        decreases |data| - i - len
      {
        len := len + 1;
      }
      if len == |str| && data[i..i + len] == str {
        assert Lists(data, str, i);
        return true;
      }
      forall j | i <= j < i + len + 1 && j < |data| ensures !Lists(data, str, j) {
        ListedWhole(data, str, i, len, j);
      }
      i := i + len + 1;
    }
    found := false;
  }

  /** A string listed in a stretch without NULs is that stretch. */
  lemma ListedWhole(data: seq<Byte>, str: seq<Byte>, i: nat, len: nat, j: nat)
    requires 0 !in str && i < |data| && i + len <= |data| && (i + len == |data| || data[i + len] == 0)
    requires forall k :: i <= k < i + len ==> data[k] != 0
    requires i <= j < i + len + 1
    ensures Lists(data, str, j) ==> j == i && |str| == len
  {
    assert len < |str| ==> str[len] != 0;
  }
}
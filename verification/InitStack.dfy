/** kern/proc.c: the first user stack, with its arguments, environment and auxiliary vector. */
module InitStack {
  import opened Base

  type Bytes = seq<Byte>

  /** What differs between machines: the sizes of a word and of an int, the stack alignment, how many
      parameters go in registers, and whether a return address is on the stack. */
  datatype Arch = Arch(word: nat, int_: nat, align: nat, regs: nat, ret: bool)

  ghost predicate ValidArch(a: Arch) {
    0 < a.int_ && 0 < a.word && 0 < a.align
  }

  const I386 := Arch(4, 4, 1, 0, true)
  const AMD64 := Arch(8, 4, 16, 6, true)
  const ARM := Arch(4, 4, 16, 4, false)
  const AARCH64 := Arch(8, 4, 16, 8, false)
  const RISCV32 := Arch(4, 4, 16, 8, false)
  const RISCV64 := Arch(8, 4, 16, 8, false)

  datatype Args = Args(pre: seq<Bytes>, argv: seq<Bytes>, envp: seq<Bytes>, auxv: seq<(nat, nat)>)

  // ----- words in memory -----

  /** n bytes of a number, least significant first. */
  function Enc(x: nat, n: nat): (b: Bytes)
    ensures |b| == n
    decreases n
  {
    if n == 0 then [] else [x % 256] + Enc(x / 256, n - 1)
  }

  function Dec(b: Bytes): nat {
    if b == [] then 0 else b[0] as nat + 256 * Dec(b[1..])
  }

  function Pow(n: nat): nat {
    if n == 0 then 1 else 256 * Pow(n - 1)
  }

  lemma {:induction false} DecEnc(x: nat, n: nat)
    requires x < Pow(n)
    ensures Dec(Enc(x, n)) == x
    decreases n
  {
    if n == 0 {
    } else {
      DecEnc(x / 256, n - 1);
      assert Enc(x, n)[1..] == Enc(x / 256, n - 1);
    }
  }

  // ----- the pieces of the stack -----

  /** Strings one after another, each with its NUL. */
  function Strings(xs: seq<Bytes>): Bytes {
    if xs == [] then [] else xs[0] + [0] + Strings(xs[1..])
  }

  lemma OneString(x: Bytes)
    ensures |Strings([x])| == |x| + 1
  {
    assert [x][1..] == [];
  }

  /** One pointer for each string, for strings that end just below top. */
  function Pointers(a: Arch, xs: seq<Bytes>, top: nat): Bytes
    requires |Strings(xs)| <= top
    decreases |xs|
  {
    if xs == [] then [] else
      Enc(top - |Strings(xs)|, a.word) + Pointers(a, xs[1..], top)
  }

  /** One entry of the auxiliary vector: its type and its value. */
  function Pair(a: Arch, p: (nat, nat)): (b: Bytes)
    ensures |b| == 2 * a.word
  {
    Enc(p.0, a.word) + Enc(p.1, a.word)
  }

  function Aux(a: Arch, ps: seq<(nat, nat)>): Bytes {
    if ps == [] then [] else Pair(a, ps[0]) + Aux(a, ps[1..])
  }

  lemma {:induction false} StringsConcat(xs: seq<Bytes>, ys: seq<Bytes>)
    ensures Strings(xs + ys) == Strings(xs) + Strings(ys)
    decreases |xs|
  {
    if xs == [] {
      assert xs + ys == ys;
    } else {
      assert (xs + ys)[1..] == xs[1..] + ys;
      StringsConcat(xs[1..], ys);
      assert xs[0] + [0] + (Strings(xs[1..]) + Strings(ys)) == (xs[0] + [0] + Strings(xs[1..])) + Strings(ys);
    }
  }

  lemma {:induction false} PointersConcat(a: Arch, xs: seq<Bytes>, ys: seq<Bytes>, top: nat)
    requires |Strings(xs)| + |Strings(ys)| <= top
    ensures |Strings(xs + ys)| <= top
    ensures Pointers(a, xs + ys, top) == Pointers(a, xs, top - |Strings(ys)|) + Pointers(a, ys, top)
    decreases |xs|
  {
    StringsConcat(xs, ys);
    if xs == [] {
      assert xs + ys == ys;
    } else {
      assert (xs + ys)[1..] == xs[1..] + ys;
      StringsConcat(xs[1..], ys);
      PointersConcat(a, xs[1..], ys, top);
      assert top - |Strings(xs + ys)| == top - |Strings(ys)| - |Strings(xs)|;
    }
  }

  /** The size of n words. */
  function Words(a: Arch, n: nat): nat {
    if n == 0 then 0 else Words(a, n - 1) + a.word
  }

  lemma {:induction false} WordsIsProduct(a: Arch, n: nat)
    ensures Words(a, n) == n * a.word
  {
    if n == 0 {
    } else {
      WordsIsProduct(a, n - 1);
    }
  }

  lemma {:induction false} WordsSum(a: Arch, m: nat, n: nat)
    ensures Words(a, m + n) == Words(a, m) + Words(a, n)
    decreases n
  {
    if n == 0 {
    } else {
      WordsSum(a, m, n - 1);
    }
  }

  lemma {:induction false} PointersSize(a: Arch, xs: seq<Bytes>, top: nat)
    requires |Strings(xs)| <= top
    ensures |Pointers(a, xs, top)| == Words(a, |xs|)
    decreases |xs|
  {
    if xs == [] {
    } else {
      PointersSize(a, xs[1..], top);
    }
  }

  lemma {:induction false} AuxSize(a: Arch, ps: seq<(nat, nat)>)
    ensures |Aux(a, ps)| == 2 * Words(a, |ps|)
    decreases |ps|
  {
    if ps == [] {
    } else {
      AuxSize(a, ps[1..]);
    }
  }

  // ----- the image -----

  /** The strings, as they lie at the top of the stack. */
  function Texts(g: Args): Bytes {
    Strings(g.envp) + (Strings(g.pre) + Strings(g.argv))
  }

  /** The argument pointers with their NULL, for a stack whose top is at the address top. */
  function ArgvArray(a: Arch, g: Args, top: nat): Bytes
    requires |Texts(g)| <= top
  {
    Pointers(a, g.pre, top - |Strings(g.argv)|) + (Pointers(a, g.argv, top) + Enc(0, a.word))
  }

  function EnvpArray(a: Arch, g: Args, top: nat): Bytes
    requires |Texts(g)| <= top
  {
    Pointers(a, g.envp, top - |Strings(g.argv)| - |Strings(g.pre)|) + Enc(0, a.word)
  }

  /** Down to and including the auxiliary vector. */
  function Arrays(a: Arch, g: Args, top: nat): Bytes
    requires |Texts(g)| <= top
  {
    Aux(a, g.auxv) + (EnvpArray(a, g, top) + (ArgvArray(a, g, top) + Texts(g)))
  }

  /** Where the three arrays begin. */
  function ArgvAt(a: Arch, g: Args, top: nat): int
    requires |Texts(g)| <= top
  {
    top - |ArgvArray(a, g, top) + Texts(g)|
  }

  function EnvpAt(a: Arch, g: Args, top: nat): int
    requires |Texts(g)| <= top
  {
    top - |EnvpArray(a, g, top) + (ArgvArray(a, g, top) + Texts(g))|
  }

  function AuxvAt(a: Arch, g: Args, top: nat): int
    requires |Texts(g)| <= top
  {
    top - |Arrays(a, g, top)|
  }

  /** A parameter on the stack, if it goes there. No address of an image that fits is negative. */
  function Slot(on: bool, v: int, n: nat): Bytes {
    if on then Enc(if v >= 0 then v else 0, n) else []
  }

  /** The parameters that do not go in registers, but for the argument count. */
  function Slots(a: Arch, g: Args, top: nat): Bytes
    requires |Texts(g)| <= top
  {
    Slot(a.regs < 3, ArgvAt(a, g, top), a.word) +
    (Slot(a.regs < 2, EnvpAt(a, g, top), a.word) +
     (Slot(a.regs < 1, AuxvAt(a, g, top), a.word) + Arrays(a, g, top)))
  }

  function Params(a: Arch, g: Args, top: nat): Bytes
    requires |Texts(g)| <= top
  {
    Slot(a.regs < 4, |g.argv| + |g.pre|, a.int_) + Slots(a, g, top)
  }

  /** How far down the next multiple of align is. */
  function PadTo(n: nat, align: nat): nat
    requires align > 0
  {
    if n % align == 0 then 0 else align - n % align
  }

  /** All that forge_init_args leaves on the stack, whatever was under the padding. */
  function Image(a: Arch, g: Args, top: nat, pad: Bytes): Bytes
    requires |Texts(g)| <= top
  {
    Slot(a.ret, 0, a.word) + (pad + Params(a, g, top))
  }

  // ----- the size -----

  function CountSize(a: Arch, g: Args): nat {
    |Texts(g)| + Words(a, |g.pre| + |g.argv| + 1 + |g.envp| + 1) + 2 * Words(a, |g.auxv|)
      + (if a.regs < 1 then a.word else 0)
      + (if a.regs < 2 then a.word else 0)
      + (if a.regs < 3 then a.word else 0)
  }

  /** get_init_args_size once n bytes have been counted without the argument count. */
  function Total(a: Arch, n: nat): nat
    requires a.align > 0
  {
    var m := n + (if a.regs < 4 then a.word else 0);
    m + PadTo(m, a.align) + (if a.ret then a.word else 0)
  }

  /** get_init_args_size, which allows a whole word for the argument count. */
  function InitArgsSize(a: Arch, g: Args): nat
    requires a.align > 0
  {
    Total(a, CountSize(a, g))
  }

  lemma ArraysSize(a: Arch, g: Args, top: nat)
    requires |Texts(g)| <= top
    ensures |Arrays(a, g, top)| ==
      |Texts(g)| + Words(a, |g.pre| + |g.argv| + 1 + |g.envp| + 1) + 2 * Words(a, |g.auxv|)
  {
    AuxSize(a, g.auxv);
    PointersSize(a, g.envp, top - |Strings(g.argv)| - |Strings(g.pre)|);
    PointersSize(a, g.pre, top - |Strings(g.argv)|);
    PointersSize(a, g.argv, top);
    WordsSum(a, |g.pre|, |g.argv|);
    WordsSum(a, |g.pre| + |g.argv| + 1, |g.envp|);
  }

  lemma SlotsSize(a: Arch, g: Args, top: nat)
    requires |Texts(g)| <= top
    ensures |Slots(a, g, top)| == CountSize(a, g)
  {
    ArraysSize(a, g, top);
  }

  lemma ParamsSize(a: Arch, g: Args, top: nat)
    requires |Texts(g)| <= top
    ensures |Params(a, g, top)| == CountSize(a, g) + (if a.regs < 4 then a.int_ else 0)
  {
    SlotsSize(a, g, top);
  }

  lemma DivIs(n: nat, d: nat, q: nat, r: nat)
    requires d > 0 && n == d * q + r && r < d
    ensures n % d == r
  {
    var e := n / d - q;
    assert d * e == r - n % d;
    MulBound(d, e);
  }

  lemma MulBound(d: nat, e: int)
    ensures e >= 1 ==> d * e >= d
    ensures e <= -1 ==> d * e + d <= 0
  {
  }

  lemma PadAligns(n: nat, align: nat)
    requires align > 0
    ensures (n + PadTo(n, align)) % align == 0
  {
    var q, r := n / align, n % align;
    if r != 0 {
      assert n + (align - r) == align * (q + 1) + 0;
      DivIs(n + (align - r), align, q + 1, 0);
    }
  }

  lemma MultiplesApart(x: nat, y: nat, align: nat)
    requires align > 0 && x % align == 0 && y % align == 0
    ensures (x - y) % align == 0
  {
    var p, q := x / align, y / align;
    assert x - y == align * (p - q);
    MultipleOf(align, p - q);
  }

  lemma MultipleOf(d: nat, e: int)
    requires d > 0
    ensures (d * e) % d == 0
  {
    var n := d * e;
    var f := e - n / d;
    assert d * f == n % d;
    MulBound(d, f);
  }

  /** Rounding up goes to the end of the unit the last byte is in. */
  lemma RoundUp(n: nat, align: nat)
    requires n > 0 && align > 0
    ensures n + PadTo(n, align) == align * ((n - 1) / align + 1)
  {
    var q, r := (n - 1) / align, (n - 1) % align;
    assert n == align * q + (r + 1);
    if r + 1 < align {
      DivIs(n, align, q, r + 1);
    } else {
      DivIs(n, align, q + 1, 0);
    }
  }

  /** The last byte of n more bytes on top of x lies in the same unit as that of m more. */
  ghost predicate SameUnit(x: nat, n: nat, m: nat, align: nat)
    requires n > 0 && m > 0 && align > 0
  {
    (x + n - 1) / align == (x + m - 1) / align
  }

  lemma RoundUpExact(x: nat, n: nat, m: nat, align: nat)
    requires n > 0 && m > 0 && align > 0
    ensures x + n + PadTo(x + n, align) == x + m + PadTo(x + m, align) <==> SameUnit(x, n, m, align)
  {
    var p, q := (x + n - 1) / align, (x + m - 1) / align;
    RoundUp(x + n, align);
    RoundUp(x + m, align);
    assert align * (p + 1) - align * (q + 1) == align * (p - q);
    MulBound(align, p - q);
  }

  /** The argument count is in a register, or an int for it ends in the same unit of the alignment as
      the word that was counted. */
  ghost predicate CountFits(a: Arch, g: Args)
    requires ValidArch(a)
  {
    a.regs >= 4 || SameUnit(CountSize(a, g), a.int_, a.word, a.align)
  }

  lemma SizesAgree(a: Arch, n: nat, used: nat)
    requires ValidArch(a) && used == n + (if a.regs < 4 then a.int_ else 0)
    ensures used + PadTo(used, a.align) + (if a.ret then a.word else 0) == Total(a, n) <==>
      a.regs >= 4 || SameUnit(n, a.int_, a.word, a.align)
  {
    if a.regs < 4 { RoundUpExact(n, a.int_, a.word, a.align); }
  }

  lemma ImageSize(a: Arch, g: Args, top: nat, pad: Bytes)
    requires |Texts(g)| <= top
    ensures |Image(a, g, top, pad)| == |Params(a, g, top)| + |pad| + (if a.ret then a.word else 0)
  {
  }

  /** The bytes used are the bytes predicted exactly when the argument count fits. */
  lemma SizeExact(a: Arch, g: Args, top: nat, pad: Bytes)
    requires ValidArch(a) && |Texts(g)| <= top && |pad| == PadTo(|Params(a, g, top)|, a.align)
    ensures |Image(a, g, top, pad)| == InitArgsSize(a, g) <==> CountFits(a, g)
  {
    ParamsSize(a, g, top);
    ImageSize(a, g, top, pad);
    SizesAgree(a, CountSize(a, g), |Params(a, g, top)|);
  }

  // ----- which machines the assertion holds on -----

  /** Wherever the stack is and whatever is in the padding, g takes the bytes that were counted. */
  ghost predicate Counted(a: Arch, g: Args)
    requires ValidArch(a)
  {
    forall top: nat, pad: Bytes :: |Texts(g)| <= top && |pad| == PadTo(|Params(a, g, top)|, a.align) ==>
      |Image(a, g, top, pad)| == InitArgsSize(a, g)
  }

  /** A single argument of n bytes. */
  function OneArg(n: nat): Args {
    Args([], [Ones(n)], [], [])
  }

  function Ones(n: nat): (b: Bytes)
    ensures |b| == n
  {
    seq(n, _ => 1)
  }

  lemma OneArgSize(a: Arch, n: nat)
    ensures |Texts(OneArg(n))| == n + 1 && CountSize(a, OneArg(n)) == n + CountSize(a, OneArg(0))
  {
    OneString(Ones(n));
    OneString(Ones(0));
  }

  /** A multiple of the alignment between two sizes parts them. */
  lemma BoundaryParts(x: nat, n: nat, m: nat, align: nat)
    requires 0 < n < m && align > 0 && (x + n) % align == 0
    ensures !SameUnit(x, n, m, align) && !SameUnit(x, m, n, align)
  {
    var q := (x + n) / align;
    var p := (x + n - 1) / align;
    var r := (x + m - 1) / align;
    assert align * q == x + n;
    MulBound(align, p - q);
    MulBound(align, r - q);
    assert align * (p - q) == align * p - align * q && align * (r - q) == align * r - align * q;
  }

  lemma BreaksHere(a: Arch, g: Args)
    requires ValidArch(a) && a.regs < 4 && !SameUnit(CountSize(a, g), a.int_, a.word, a.align)
    ensures !Counted(a, g)
  {
    var top := |Texts(g)|;
    var pad := Ones(PadTo(|Params(a, g, top)|, a.align));
    SizeExact(a, g, top, pad);
    assert |Image(a, g, top, pad)| != InitArgsSize(a, g);
  }

  /** On a machine where an int is not a word and the count goes on the stack, some argument breaks
      the assertion. */
  lemma SomeArgumentBreaks(a: Arch) returns (n: nat)
    requires ValidArch(a) && a.regs < 4 && a.int_ != a.word
    ensures !Counted(a, OneArg(n))
  {
    var base, small := CountSize(a, OneArg(0)), if a.int_ < a.word then a.int_ else a.word;
    n := PadTo(base + small, a.align);
    PadAligns(base + small, a.align);
    OneArgSize(a, n);
    BoundaryParts(base + n, small, if a.int_ < a.word then a.word else a.int_, a.align);
    BreaksHere(a, OneArg(n));
  }

  /** What a port must meet for the assertion to hold of all arguments. */
  lemma PortIsSoundExactly(a: Arch)
    requires ValidArch(a)
    ensures (forall g :: Counted(a, g)) <==> a.regs >= 4 || a.int_ == a.word
  {
    if a.regs >= 4 || a.int_ == a.word {
      forall g ensures Counted(a, g) { WordCountIsExact(a, g); }
    } else {
      var n := SomeArgumentBreaks(a);
    }
  }

  lemma WordCountIsExact(a: Arch, g: Args)
    requires ValidArch(a) && (a.regs >= 4 || a.int_ == a.word)
    ensures Counted(a, g)
  {
    forall top: nat, pad: Bytes | |Texts(g)| <= top && |pad| == PadTo(|Params(a, g, top)|, a.align)
      ensures |Image(a, g, top, pad)| == InitArgsSize(a, g)
    {
      SizeExact(a, g, top, pad);
    }
  }

  /** Every machine of the kernel meets it: i386 has the count on the stack and ints of a word, the
      others have it in a register. */
  lemma EveryPortIsSound(a: Arch, g: Args)
    requires a in {I386, AMD64, ARM, AARCH64, RISCV32, RISCV64}
    ensures ValidArch(a) && Counted(a, g)
  {
    WordCountIsExact(a, g);
  }

  /** A machine of 64-bit words with three registers for parameters would not: not even a program with
      a single empty argument could start on it. */
  lemma SomePortIsNot()
    ensures var a := Arch(8, 4, 16, 3, false); ValidArch(a) && !Counted(a, OneArg(0))
  {
    var a, g := Arch(8, 4, 16, 3, false), OneArg(0);
    OneArgSize(a, 0);
    assert Words(a, 3) == Words(a, 2) + 8 == Words(a, 1) + 16 == 24;
    assert CountSize(a, g) == 25;
    BreaksHere(a, g);
  }

  // ----- reading the image -----

  /** b lies at the address addr of memory that ends just below top. */
  ghost predicate At(mem: Bytes, top: nat, addr: int, b: Bytes) {
    var o := |mem| - (top - addr);
    0 <= o && o + |b| <= |mem| && mem[o..o + |b|] == b
  }

  lemma AtPrepend(front: Bytes, mem: Bytes, top: nat, addr: int, b: Bytes)
    requires At(mem, top, addr, b)
    ensures At(front + mem, top, addr, b)
  {
    var o := |mem| - (top - addr);
    assert (front + mem)[|front| + o..|front| + o + |b|] == mem[o..o + |b|];
  }

  /** Something lying at an offset in a piece at the front. */
  lemma AtOffset(front: Bytes, mem: Bytes, top: nat, o: nat, b: Bytes)
    requires o + |b| <= |front| && front[o..o + |b|] == b
    ensures At(front + mem, top, top - |front + mem| + o, b)
  {
    assert (front + mem)[o..o + |b|] == front[o..o + |b|];
  }

  lemma AtInside(front: Bytes, piece: Bytes, under: Bytes, top: nat, o: nat, b: Bytes)
    requires o + |b| <= |piece| && piece[o..o + |b|] == b
    ensures At(front + (piece + under), top, top - |piece + under| + o, b)
  {
    AtOffset(piece, under, top, o, b);
    AtPrepend(front, piece + under, top, top - |piece + under| + o, b);
  }

  lemma {:induction false} PointerAt(a: Arch, xs: seq<Bytes>, top: nat, k: nat)
    requires k < |xs| && |Strings(xs)| <= top
    ensures |Strings(xs[k..])| <= top && Words(a, k) + a.word <= |Pointers(a, xs, top)|
    ensures Pointers(a, xs, top)[Words(a, k)..Words(a, k) + a.word] == Enc(top - |Strings(xs[k..])|, a.word)
    decreases k
  {
    if k == 0 {
      assert xs[0..] == xs;
    } else {
      PointerAt(a, xs[1..], top, k - 1);
      assert xs[1..][k - 1..] == xs[k..];
      var first, p := Enc(top - |Strings(xs)|, a.word), Pointers(a, xs[1..], top);
      WordsNext(a, k - 1);
      SliceAfter(first, p, Words(a, k - 1), a.word);
    }
  }

  lemma WordsNext(a: Arch, k: nat)
    ensures Words(a, k + 1) == Words(a, k) + a.word
  {
  }

  lemma SliceAfter(f: Bytes, p: Bytes, o: nat, n: nat)
    requires o + n <= |p|
    ensures (f + p)[|f| + o..|f| + o + n] == p[o..o + n]
  {
  }

  /** The k-th string lies where the strings from it on begin. */
  lemma {:induction false} StringAt(xs: seq<Bytes>, front: Bytes, rest: Bytes, top: nat, k: nat)
    requires k < |xs| && |Strings(xs)| + |rest| <= top
    ensures |Strings(xs[k..])| + |rest| <= top
    ensures At(front + (Strings(xs) + rest), top, top - |rest| - |Strings(xs[k..])|, xs[k] + [0])
    decreases k
  {
    StringsConcat(xs[..k], xs[k..]);
    assert xs[..k] + xs[k..] == xs;
    var s := xs[k..];
    assert Strings(s) == s[0] + [0] + Strings(s[1..]);
    var tail := Strings(s) + rest;
    AtOffset(Strings(s), rest, top, 0, xs[k] + [0]);
    AtPrepend(front + Strings(xs[..k]), tail, top, top - |tail|, xs[k] + [0]);
    assert (front + Strings(xs[..k])) + tail == front + (Strings(xs) + rest);
  }

  /** One array of pointers, NULL at its end, found at its place and pointing at its strings: the
      strings end just below end, and what lies under top is mem. */
  ghost predicate ArrayOf(a: Arch, mem: Bytes, top: nat, at: int, xs: seq<Bytes>, end: nat) {
    && |Strings(xs)| <= end
    && (forall k :: 0 <= k < |xs| ==> Entry(a, mem, top, at, xs, end, k))
    && At(mem, top, at + Words(a, |xs|), Enc(0, a.word))
  }

  /** The k-th pointer is the address of the k-th string, which lies there with its NUL. */
  ghost predicate Entry(a: Arch, mem: Bytes, top: nat, at: int, xs: seq<Bytes>, end: nat, k: nat)
    requires k < |xs|
  {
    var p := end - |Strings(xs[k..])|;
    p >= 0 && At(mem, top, at + Words(a, k), Enc(p, a.word)) && At(mem, top, p, xs[k] + [0])
  }

  lemma PointerEntry(a: Arch, front: Bytes, ptrs: Bytes, under: Bytes, top: nat, xs: seq<Bytes>, end: nat, k: nat)
    requires k < |xs| && |Strings(xs)| <= end && ptrs == Pointers(a, xs, end) + Enc(0, a.word)
    ensures |Strings(xs[k..])| <= end
    ensures At(front + (ptrs + under), top, top - |ptrs + under| + Words(a, k), Enc(end - |Strings(xs[k..])|, a.word))
  {
    PointerAt(a, xs, end, k);
    var ps, zero, p := Pointers(a, xs, end), Enc(0, a.word), Enc(end - |Strings(xs[k..])|, a.word);
    SliceInside(front, ps, zero, under, top, Words(a, k), p);
  }

  lemma SliceInside(front: Bytes, p: Bytes, z: Bytes, under: Bytes, top: nat, o: nat, b: Bytes)
    requires o + |b| <= |p| && p[o..o + |b|] == b
    ensures At(front + ((p + z) + under), top, top - |(p + z) + under| + o, b)
  {
    assert (p + z)[o..o + |b|] == p[o..o + |b|];
    AtInside(front, p + z, under, top, o, b);
  }

  lemma NullEntry(a: Arch, front: Bytes, ptrs: Bytes, under: Bytes, top: nat, xs: seq<Bytes>, end: nat)
    requires |Strings(xs)| <= end && ptrs == Pointers(a, xs, end) + Enc(0, a.word)
    ensures At(front + (ptrs + under), top, top - |ptrs + under| + Words(a, |xs|), Enc(0, a.word))
  {
    var o, zero := |Pointers(a, xs, end)|, Enc(0, a.word);
    PointersSize(a, xs, end);
    AtInside(front, ptrs, under, top, o, zero);
  }

  lemma StringEntry(front: Bytes, ptrs: Bytes, under: Bytes, middle: Bytes, rest: Bytes, top: nat,
                    xs: seq<Bytes>, k: nat)
    requires k < |xs| && |Strings(xs)| + |rest| <= top && under == middle + (Strings(xs) + rest)
    ensures At(front + (ptrs + under), top, top - |rest| - |Strings(xs[k..])|, xs[k] + [0])
  {
    StringAt(xs, front + ptrs + middle, rest, top, k);
    Regroup4(front, ptrs, middle, Strings(xs) + rest);
  }

  lemma ArrayHolds(a: Arch, front: Bytes, ptrs: Bytes, under: Bytes, middle: Bytes, rest: Bytes, top: nat,
                   xs: seq<Bytes>)
    requires |Strings(xs)| + |rest| <= top && under == middle + (Strings(xs) + rest)
    requires ptrs == Pointers(a, xs, top - |rest|) + Enc(0, a.word)
    ensures ArrayOf(a, front + (ptrs + under), top, top - |ptrs + under|, xs, top - |rest|)
  {
    var mem, at, end := front + (ptrs + under), top - |ptrs + under|, top - |rest|;
    forall k | 0 <= k < |xs| ensures Entry(a, mem, top, at, xs, end, k) {
      EntryHolds(a, front, ptrs, under, middle, rest, top, xs, k);
    }
    NullEntry(a, front, ptrs, under, top, xs, end);
  }

  lemma EntryHolds(a: Arch, front: Bytes, ptrs: Bytes, under: Bytes, middle: Bytes, rest: Bytes, top: nat,
                   xs: seq<Bytes>, k: nat)
    requires k < |xs| && |Strings(xs)| + |rest| <= top && under == middle + (Strings(xs) + rest)
    requires ptrs == Pointers(a, xs, top - |rest|) + Enc(0, a.word)
    ensures Entry(a, front + (ptrs + under), top, top - |ptrs + under|, xs, top - |rest|, k)
  {
    PointerEntry(a, front, ptrs, under, top, xs, top - |rest|, k);
    StringEntry(front, ptrs, under, middle, rest, top, xs, k);
  }

  /** The user's argv array is the leading arguments followed by the arguments. */
  lemma ArgvHolds(a: Arch, g: Args, top: nat, front: Bytes)
    requires |Texts(g)| <= top
    ensures ArrayOf(a, front + (ArgvArray(a, g, top) + Texts(g)), top, ArgvAt(a, g, top), g.pre + g.argv, top)
  {
    var xs := g.pre + g.argv;
    StringsConcat(g.pre, g.argv);
    PointersConcat(a, g.pre, g.argv, top);
    assert Strings(xs) + [] == Strings(xs);
    Regroup3(Pointers(a, g.pre, top - |Strings(g.argv)|), Pointers(a, g.argv, top), Enc(0, a.word));
    ArrayHolds(a, front, ArgvArray(a, g, top), Texts(g), Strings(g.envp), [], top, xs);
  }

  lemma EnvpHolds(a: Arch, g: Args, top: nat, front: Bytes)
    requires |Texts(g)| <= top
    ensures ArrayOf(a, front + (EnvpArray(a, g, top) + (ArgvArray(a, g, top) + Texts(g))), top, EnvpAt(a, g, top),
      g.envp, top - |Strings(g.pre) + Strings(g.argv)|)
  {
    var rest := Strings(g.pre) + Strings(g.argv);
    var under := ArgvArray(a, g, top) + Texts(g);
    ArrayHolds(a, front, EnvpArray(a, g, top), under, ArgvArray(a, g, top), rest, top, g.envp);
  }

  lemma {:induction false} AuxHolds(a: Arch, ps: seq<(nat, nat)>, under: Bytes, top: nat, k: nat)
    requires k < |ps|
    ensures At(Aux(a, ps) + under, top, top - |Aux(a, ps) + under| + 2 * Words(a, k), Pair(a, ps[k]))
    decreases k
  {
    var pair, rest := Pair(a, ps[0]), Aux(a, ps[1..]);
    Regroup3(pair, rest, under);
    if k == 0 {
      AtOffset(pair, rest + under, top, 0, pair);
    } else {
      AuxHolds(a, ps[1..], under, top, k - 1);
      WordsNext(a, k - 1);
      AtPrepend(pair, rest + under, top, top - |rest + under| + 2 * Words(a, k - 1), Pair(a, ps[k]));
    }
  }

  /** What stands in front of the arrays in an image. */
  function Front(a: Arch, g: Args, top: nat, pad: Bytes): Bytes
    requires |Texts(g)| <= top
  {
    Slot(a.ret, 0, a.word) + pad + Slot(a.regs < 4, |g.argv| + |g.pre|, a.int_) +
    Slot(a.regs < 3, ArgvAt(a, g, top), a.word) + Slot(a.regs < 2, EnvpAt(a, g, top), a.word) +
    Slot(a.regs < 1, AuxvAt(a, g, top), a.word)
  }

  lemma ImageParts(a: Arch, g: Args, top: nat, pad: Bytes)
    requires |Texts(g)| <= top
    ensures Image(a, g, top, pad) == Front(a, g, top, pad) + Arrays(a, g, top)
  {
    Regroup7(Slot(a.ret, 0, a.word), pad, Slot(a.regs < 4, |g.argv| + |g.pre|, a.int_),
             Slot(a.regs < 3, ArgvAt(a, g, top), a.word), Slot(a.regs < 2, EnvpAt(a, g, top), a.word),
             Slot(a.regs < 1, AuxvAt(a, g, top), a.word), Arrays(a, g, top));
  }

  lemma Regroup7(x: Bytes, y: Bytes, z: Bytes, w: Bytes, v: Bytes, u: Bytes, t: Bytes)
    ensures x + (y + (z + (w + (v + (u + t))))) == (x + y + z + w + v + u) + t
  {
  }

  /** The new program finds, at the three addresses it is given: argv as the leading arguments and
      then the arguments, envp as the environment, each pointer the address of exactly its own
      NUL-terminated string and each array ended by NULL, and every auxiliary pair in order. */
  lemma StackHolds(a: Arch, g: Args, top: nat, pad: Bytes)
    requires |Texts(g)| <= top
    ensures ArrayOf(a, Image(a, g, top, pad), top, ArgvAt(a, g, top), g.pre + g.argv, top)
    ensures ArrayOf(a, Image(a, g, top, pad), top, EnvpAt(a, g, top), g.envp,
      top - |Strings(g.pre) + Strings(g.argv)|)
    ensures AuxOf(a, Image(a, g, top, pad), top, AuxvAt(a, g, top), g.auxv)
  {
    var mem, front := Image(a, g, top, pad), Front(a, g, top, pad);
    var aux, env := Aux(a, g.auxv), EnvpArray(a, g, top);
    var under := ArgvArray(a, g, top) + Texts(g);
    ImageParts(a, g, top, pad);
    assert mem == (front + aux + env) + under by { Regroup4(front, aux, env, under); }
    assert mem == (front + aux) + (env + under) by { Regroup3(front, aux, env + under); }
    ArgvHolds(a, g, top, front + aux + env);
    EnvpHolds(a, g, top, front + aux);
    AuxInside(a, g.auxv, front, env + under, top);
  }

  /** n bytes at an address. */
  ghost predicate Mapped(mem: Bytes, top: nat, addr: int, n: nat) {
    0 <= |mem| - (top - addr) <= |mem| - n
  }

  /** The number in the n bytes at an address. */
  ghost function Load(mem: Bytes, top: nat, addr: int, n: nat): nat
    requires Mapped(mem, top, addr, n)
  {
    var o := |mem| - (top - addr);
    Dec(mem[o..o + n])
  }

  /** What a program sees that follows the k-th pointer of an array: a string with its NUL. */
  ghost predicate PointsTo(a: Arch, mem: Bytes, top: nat, at: int, xs: seq<Bytes>, k: nat)
    requires k < |xs|
  {
    var addr := at + Words(a, k);
    Mapped(mem, top, addr, a.word) && At(mem, top, Load(mem, top, addr, a.word), xs[k] + [0])
  }

  /** What a program sees that goes through an array of strings, up to its NULL. */
  ghost predicate Lists(a: Arch, mem: Bytes, top: nat, at: int, xs: seq<Bytes>) {
    && (forall k :: 0 <= k < |xs| ==> PointsTo(a, mem, top, at, xs, k))
    && Mapped(mem, top, at + Words(a, |xs|), a.word) && Load(mem, top, at + Words(a, |xs|), a.word) == 0
  }

  /** What a program sees that reads the k-th type and the value behind it. */
  ghost predicate PairAt(a: Arch, mem: Bytes, top: nat, at: int, ps: seq<(nat, nat)>, k: nat)
    requires k < |ps|
  {
    var addr := at + 2 * Words(a, k);
    && Mapped(mem, top, addr, a.word) && Load(mem, top, addr, a.word) == ps[k].0
    && Mapped(mem, top, addr + a.word, a.word) && Load(mem, top, addr + a.word, a.word) == ps[k].1
  }

  /** What a program finds that is handed the addresses of its three arrays. */
  ghost predicate Finds(a: Arch, g: Args, mem: Bytes, top: nat, argvAt: int, envpAt: int, auxvAt: int) {
    && Lists(a, mem, top, argvAt, g.pre + g.argv)
    && Lists(a, mem, top, envpAt, g.envp)
    && forall k :: 0 <= k < |g.auxv| ==> PairAt(a, mem, top, auxvAt, g.auxv, k)
  }

  lemma LoadAt(mem: Bytes, top: nat, addr: int, x: nat, n: nat)
    requires At(mem, top, addr, Enc(x, n)) && x < Pow(n)
    ensures Mapped(mem, top, addr, n) && Load(mem, top, addr, n) == x
  {
    DecEnc(x, n);
  }

  lemma PowPositive(n: nat)
    ensures Pow(n) > 0
  {
    if n == 0 {
    } else {
      PowPositive(n - 1);
    }
  }

  lemma EntryReads(a: Arch, mem: Bytes, top: nat, at: int, xs: seq<Bytes>, end: nat, k: nat)
    requires k < |xs| && Entry(a, mem, top, at, xs, end, k) && end < Pow(a.word)
    ensures PointsTo(a, mem, top, at, xs, k)
  {
    LoadAt(mem, top, at + Words(a, k), end - |Strings(xs[k..])|, a.word);
  }

  /** Where every address fits in a word, the pointers can be read back and followed. */
  lemma ArrayReads(a: Arch, mem: Bytes, top: nat, at: int, xs: seq<Bytes>, end: nat)
    requires ArrayOf(a, mem, top, at, xs, end) && end < Pow(a.word)
    ensures Lists(a, mem, top, at, xs)
  {
    forall k | 0 <= k < |xs| ensures PointsTo(a, mem, top, at, xs, k) {
      EntryReads(a, mem, top, at, xs, end, k);
    }
    PowPositive(a.word);
    LoadAt(mem, top, at + Words(a, |xs|), 0, a.word);
  }

  /** The pairs of the auxiliary vector read back, for values that fit in a word. */
  lemma AuxReads(a: Arch, mem: Bytes, top: nat, at: int, ps: seq<(nat, nat)>, k: nat)
    requires AuxOf(a, mem, top, at, ps) && k < |ps| && ps[k].0 < Pow(a.word) && ps[k].1 < Pow(a.word)
    ensures PairAt(a, mem, top, at, ps, k)
  {
    assert AuxEntry(a, mem, top, at, ps, k);
    var addr, t, v := at + 2 * Words(a, k), Enc(ps[k].0, a.word), Enc(ps[k].1, a.word);
    var o := |mem| - (top - addr);
    assert mem[o..o + a.word] == (t + v)[..a.word] == t;
    assert mem[o + a.word..o + 2 * a.word] == (t + v)[a.word..] == v;
    LoadAt(mem, top, addr, ps[k].0, a.word);
    LoadAt(mem, top, addr + a.word, ps[k].1, a.word);
  }

  ghost predicate Fits(a: Arch, ps: seq<(nat, nat)>) {
    forall k :: 0 <= k < |ps| ==> ps[k].0 < Pow(a.word) && ps[k].1 < Pow(a.word)
  }

  lemma FindsAll(a: Arch, g: Args, mem: Bytes, top: nat, argvAt: int, envpAt: int, auxvAt: int, end: nat)
    requires top < Pow(a.word) && end < Pow(a.word) && Fits(a, g.auxv)
    requires ArrayOf(a, mem, top, argvAt, g.pre + g.argv, top) && ArrayOf(a, mem, top, envpAt, g.envp, end)
    requires AuxOf(a, mem, top, auxvAt, g.auxv)
    ensures Finds(a, g, mem, top, argvAt, envpAt, auxvAt)
  {
    ArrayReads(a, mem, top, argvAt, g.pre + g.argv, top);
    ArrayReads(a, mem, top, envpAt, g.envp, end);
    forall k | 0 <= k < |g.auxv| ensures PairAt(a, mem, top, auxvAt, g.auxv, k) {
      AuxReads(a, mem, top, auxvAt, g.auxv, k);
    }
  }

  /** StackHolds in the terms of the program that reads the stack. */
  lemma StackReads(a: Arch, g: Args, top: nat, pad: Bytes)
    requires |Texts(g)| <= top < Pow(a.word) && Fits(a, g.auxv)
    ensures Finds(a, g, Image(a, g, top, pad), top, ArgvAt(a, g, top), EnvpAt(a, g, top), AuxvAt(a, g, top))
  {
    StackHolds(a, g, top, pad);
    FindsAll(a, g, Image(a, g, top, pad), top, ArgvAt(a, g, top), EnvpAt(a, g, top), AuxvAt(a, g, top),
             top - |Strings(g.pre) + Strings(g.argv)|);
  }

  /** Every pair of the auxiliary vector, in order. */
  ghost predicate AuxOf(a: Arch, mem: Bytes, top: nat, at: int, ps: seq<(nat, nat)>) {
    forall k :: 0 <= k < |ps| ==> AuxEntry(a, mem, top, at, ps, k)
  }

  ghost predicate AuxEntry(a: Arch, mem: Bytes, top: nat, at: int, ps: seq<(nat, nat)>, k: nat)
    requires k < |ps|
  {
    At(mem, top, at + 2 * Words(a, k), Pair(a, ps[k]))
  }

  lemma AuxEntryHolds(a: Arch, ps: seq<(nat, nat)>, front: Bytes, under: Bytes, top: nat, k: nat)
    requires k < |ps|
    ensures AuxEntry(a, front + (Aux(a, ps) + under), top, top - |Aux(a, ps) + under|, ps, k)
  {
    AuxHolds(a, ps, under, top, k);
    AtPrepend(front, Aux(a, ps) + under, top, top - |Aux(a, ps) + under| + 2 * Words(a, k), Pair(a, ps[k]));
  }

  lemma AuxInside(a: Arch, ps: seq<(nat, nat)>, front: Bytes, under: Bytes, top: nat)
    ensures AuxOf(a, front + (Aux(a, ps) + under), top, top - |Aux(a, ps) + under|, ps)
  {
    var mem, at := front + (Aux(a, ps) + under), top - |Aux(a, ps) + under|;
    forall k | 0 <= k < |ps| ensures AuxEntry(a, mem, top, at, ps, k) {
      AuxEntryHolds(a, ps, front, under, top, k);
    }
  }

  lemma Regroup3(x: Bytes, y: Bytes, z: Bytes)
    ensures x + (y + z) == (x + y) + z
  {
  }

  lemma Regroup4(x: Bytes, y: Bytes, z: Bytes, w: Bytes)
    ensures x + (y + (z + w)) == (x + y + z) + w
  {
  }

  /** Before the return slot the stack pointer is aligned. */
  lemma StackAligned(a: Arch, g: Args, top: nat, pad: Bytes)
    requires ValidArch(a) && |Texts(g)| <= top && |pad| == PadTo(|Params(a, g, top)|, a.align)
    ensures |pad + Params(a, g, top)| % a.align == 0
    ensures top % a.align == 0 ==> (top - |pad + Params(a, g, top)|) % a.align == 0
  {
    var n := |pad + Params(a, g, top)|;
    PadAligns(|Params(a, g, top)|, a.align);
    if top % a.align == 0 { MultiplesApart(top, n, a.align); }
  }

  // ----- the stack as it is built -----

  /** stack_array_size. */
  method ArraySize(xs: seq<Bytes>) returns (total: nat)
    ensures total == |Strings(xs)|
  {
    total := 0;
    var i: nat := 0;
    while i < |xs|
      invariant i <= |xs| && total == |Strings(xs[..i])|
    {
      StringsConcat(xs[..i], [xs[i]]);
      assert xs[..i + 1] == xs[..i] + [xs[i]];
      OneString(xs[i]);
      total := total + |xs[i]| + 1;
      i := i + 1;
    }
    assert xs[..i] == xs;
  }

  /** get_init_args_size. */
  method CountArgs(a: Arch, g: Args) returns (total: nat)
    requires ValidArch(a)
    ensures total == InitArgsSize(a, g)
  {
    var preSize := ArraySize(g.pre);
    var argSize := ArraySize(g.argv);
    var envSize := ArraySize(g.envp);
    total := preSize + argSize + envSize + Words(a, |g.pre| + |g.argv| + 1 + |g.envp| + 1) + 2 * Words(a, |g.auxv|);
    if a.regs < 1 { total := total + a.word; }
    if a.regs < 2 { total := total + a.word; }
    if a.regs < 3 { total := total + a.word; }
    if a.regs < 4 { total := total + a.word; }
    total := total + PadTo(total, a.align);
    if a.ret { total := total + a.word; }
  }

  /** The stack under construction: mem is what lies from the stack pointer up to its top, so pushing
      puts bytes in front; org runs down over the strings again as their pointers are pushed. */
  class Builder {
    const a: Arch
    const top: nat
    var mem: Bytes
    var org: nat

    constructor (a: Arch, top: nat)
      ensures this.a == a && this.top == top && mem == [] && org == top
    {
      this.a, this.top, mem, org := a, top, [], top;
    }

    method Push(b: Bytes)
      modifies this`mem
      ensures mem == b + old(mem)
    {
      mem := b + mem;
    }

    /** stack_push_array: from the last string down to the first. */
    method PushArray(xs: seq<Bytes>)
      modifies this`mem
      ensures mem == Strings(xs) + old(mem)
    {
      ghost var was := mem;
      var i: nat := |xs|;
      assert xs[i..] == [] && [] + was == was;
      while i > 0
        invariant i <= |xs| && mem == Strings(xs[i..]) + was
      {
        i := i - 1;
        Push(xs[i] + [0]);
        assert xs[i..][0] == xs[i] && xs[i..][1..] == xs[i + 1..];
        Regroup3(xs[i] + [0], Strings(xs[i + 1..]), was);
      }
      assert xs[0..] == xs;
    }

    /** stack_push_pointers: org steps over the same strings in the same order. */
    method PushPointers(xs: seq<Bytes>)
      requires |Strings(xs)| <= org
      modifies this
      ensures org == old(org) - |Strings(xs)| && mem == Pointers(a, xs, old(org)) + old(mem)
    {
      ghost var was, end := mem, org;
      var i: nat := |xs|;
      assert xs[i..] == [] && [] + was == was;
      while i > 0
        invariant i <= |xs| && |Strings(xs[i..])| <= end && org == end - |Strings(xs[i..])|
        invariant mem == Pointers(a, xs[i..], end) + was
      {
        StringsFrom(xs, i - 1);
        i := i - 1;
        assert xs[i..][0] == xs[i] && xs[i..][1..] == xs[i + 1..];
        org := org - (|xs[i]| + 1);
        Push(Enc(org, a.word));
        Regroup3(Enc(org, a.word), Pointers(a, xs[i + 1..], end), was);
      }
      assert xs[0..] == xs;
    }

    method PushAuxv(ps: seq<(nat, nat)>)
      modifies this`mem
      ensures mem == Aux(a, ps) + old(mem)
    {
      ghost var was := mem;
      var i: nat := |ps|;
      assert ps[i..] == [] && [] + was == was;
      while i > 0
        invariant i <= |ps| && mem == Aux(a, ps[i..]) + was
      {
        i := i - 1;
        Push(Enc(ps[i].0, a.word) + Enc(ps[i].1, a.word));
        assert ps[i..][0] == ps[i] && ps[i..][1..] == ps[i + 1..];
        Regroup3(Pair(a, ps[i]), Aux(a, ps[i + 1..]), was);
      }
      assert ps[0..] == ps;
    }

    method PushTexts(g: Args)
      requires mem == []
      modifies this`mem
      ensures mem == Texts(g)
    {
      PushArray(g.argv);
      assert Strings(g.argv) + [] == Strings(g.argv);
      PushArray(g.pre);
      PushArray(g.envp);
    }

    method PushArgv(g: Args)
      requires mem == Texts(g) && org == top && |Texts(g)| <= top
      modifies this
      ensures mem == ArgvArray(a, g, top) + Texts(g) && org == top - |Strings(g.argv)| - |Strings(g.pre)|
    {
      Push(Enc(0, a.word));
      PushPointers(g.argv);
      PushPointers(g.pre);
      RegroupArray(Pointers(a, g.pre, top - |Strings(g.argv)|), Pointers(a, g.argv, top), Enc(0, a.word), Texts(g));
    }

    /** The strings and the three arrays. */
    method PushArrays(g: Args) returns (argvAt: int, envpAt: int, auxvAt: int)
      requires mem == [] && org == top && |Texts(g)| <= top
      modifies this
      ensures mem == Arrays(a, g, top)
      ensures argvAt == ArgvAt(a, g, top) && envpAt == EnvpAt(a, g, top) && auxvAt == AuxvAt(a, g, top)
    {
      PushTexts(g);
      PushArgv(g);
      argvAt := top - |mem|;
      ghost var under := mem;
      Push(Enc(0, a.word));
      PushPointers(g.envp);
      Regroup3(Pointers(a, g.envp, top - |Strings(g.argv)| - |Strings(g.pre)|), Enc(0, a.word), under);
      envpAt := top - |mem|;
      PushAuxv(g.auxv);
      auxvAt := top - |mem|;
    }

    /** forge_init_args; junk is what the memory held under the padding. */
    method Forge(g: Args, junk: Bytes)
      returns (bytes: nat, argvAt: int, envpAt: int, auxvAt: int, ghost pad: Bytes)
      requires mem == [] && org == top && |Texts(g)| <= top && ValidArch(a) && a.align <= |junk|
      modifies this
      ensures |pad| == PadTo(|Params(a, g, top)|, a.align)
      ensures mem == Image(a, g, top, pad) && bytes == |mem|
      ensures argvAt == ArgvAt(a, g, top) && envpAt == EnvpAt(a, g, top) && auxvAt == AuxvAt(a, g, top)
    {
      argvAt, envpAt, auxvAt := PushArrays(g);
      Push(Slot(a.regs < 1, auxvAt, a.word));
      Push(Slot(a.regs < 2, envpAt, a.word));
      Push(Slot(a.regs < 3, argvAt, a.word));
      Push(Slot(a.regs < 4, |g.argv| + |g.pre|, a.int_));
      var n := PadTo(|mem|, a.align);
      pad := junk[..n];
      Push(junk[..n]);
      Push(Slot(a.ret, 0, a.word));
      bytes := |mem|;
    }
  }

  lemma StringsFrom(xs: seq<Bytes>, i: nat)
    requires i < |xs|
    ensures |Strings(xs[i..])| == |xs[i]| + 1 + |Strings(xs[i + 1..])| <= |Strings(xs)|
  {
    assert xs[i..][0] == xs[i] && xs[i..][1..] == xs[i + 1..];
    StringsConcat(xs[..i], xs[i..]);
    assert xs[..i] + xs[i..] == xs;
  }

  lemma RegroupArray(x: Bytes, y: Bytes, z: Bytes, t: Bytes)
    ensures x + (y + (z + t)) == (x + (y + z)) + t
  {
  }

  lemma TextsFit(a: Arch, g: Args)
    requires ValidArch(a)
    ensures |Texts(g)| <= InitArgsSize(a, g)
  {
  }

  /** What StackHolds finds in an image. */
  ghost predicate Stacked(a: Arch, g: Args, mem: Bytes, top: nat, argvAt: int, envpAt: int, auxvAt: int) {
    && ArrayOf(a, mem, top, argvAt, g.pre + g.argv, top)
    && (exists end :: ArrayOf(a, mem, top, envpAt, g.envp, end))
    && AuxOf(a, mem, top, auxvAt, g.auxv)
  }

  /** The call to forge_init_args and what it leaves. */
  method Lay(a: Arch, g: Args, top: nat, junk: Bytes) returns (mem: Bytes, argvAt: int, envpAt: int, auxvAt: int)
    requires ValidArch(a) && |Texts(g)| <= top && a.align <= |junk|
    ensures Stacked(a, g, mem, top, argvAt, envpAt, auxvAt)
    ensures top < Pow(a.word) && Fits(a, g.auxv) ==> Finds(a, g, mem, top, argvAt, envpAt, auxvAt)
    ensures |mem| == InitArgsSize(a, g) <==> CountFits(a, g)
  {
    var b := new Builder(a, top);
    var bytes: nat;
    ghost var pad: Bytes;
    bytes, argvAt, envpAt, auxvAt, pad := b.Forge(g, junk);
    mem := b.mem;
    SizeExact(a, g, top, pad);
    StackHolds(a, g, top, pad);
    if top < Pow(a.word) && Fits(a, g.auxv) { StackReads(a, g, top, pad); }
  }

  /** mem_push_init_args: too big an image is refused. For one that fits, a program that is handed the
      argument count and the three addresses finds all it was given, on a machine whose addresses and
      auxiliary values fit in a word, and the assertion that as many
      bytes were used as were counted holds exactly where SizeExact says, in which case the stack
      pointer is at the lowest byte of the image. */
  method PushInitArgs(a: Arch, g: Args, top: nat, stackSize: nat, junk: Bytes)
    returns (ok: bool, mem: Bytes, argc: nat, argvAt: int, envpAt: int, auxvAt: int, sp: int, asserted: bool)
    requires ValidArch(a) && stackSize <= top && a.align <= |junk|
    ensures ok == (InitArgsSize(a, g) < stackSize)
    ensures ok ==> argc == |g.pre + g.argv| && Stacked(a, g, mem, top, argvAt, envpAt, auxvAt)
    ensures ok && top < Pow(a.word) && Fits(a, g.auxv) ==> Finds(a, g, mem, top, argvAt, envpAt, auxvAt)
    ensures ok ==> sp == top - InitArgsSize(a, g)
    ensures ok ==> asserted == (sp == top - |mem|) == CountFits(a, g)
    ensures ok && (a.regs >= 4 || a.int_ == a.word) ==> asserted
  {
    var total := CountArgs(a, g);
    if total >= stackSize { return false, [], 0, 0, 0, 0, 0, false; }
    TextsFit(a, g);
    mem, argvAt, envpAt, auxvAt := Lay(a, g, top, junk);
    asserted := |mem| == total;
    ok, argc, sp := true, |g.argv| + |g.pre|, top - total;
  }
}

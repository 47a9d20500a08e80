/** kern/ksym.c: finding a symbol by name through the two ELF hash tables, or by address. */
module SymbolHash {
  import opened Base

  type Name = seq<Byte>

  datatype Symbol = Symbol(name: Name, undef: bool, global: bool, kind: nat, value: nat)

  // ----- hashing -----

  const WRAP: nat := 0x1_0000_0000
  const NIBBLE: nat := 0x1000_0000    // the weight of the top four bits of a 32-bit word

  /** How a char enters 32-bit arithmetic: it is signed on some of the machines the kernel runs on. */
  function CharWord(b: Byte, signed: bool): nat {
    if signed && b >= 128 then WRAP - 256 + b else b
  }

  /** Bitwise exclusive or of the low n bits. */
  function Xor(x: nat, y: nat, n: nat): (r: nat) {
    if n == 0 then 0 else (if x % 2 == y % 2 then 0 else 1) + 2 * Xor(x / 2, y / 2, n - 1)
  }

  /** The top four bits of a word are folded into its bits 4 to 7 and cleared. */
  function Mix(h: nat): (r: nat) {
    (h / 256 * 256 + Xor(h / 16 % 16, h / NIBBLE, 4) * 16 + h % 16) % NIBBLE
  }

  /** One round of elf_hash. */
  function ElfStep(h: nat, c: nat): nat {
    Mix((h * 16 + c) % WRAP)
  }

  function ElfFold(h: nat, name: Name, signed: bool): nat
    decreases |name|
  {
    if name == [] then h else ElfFold(ElfStep(h, CharWord(name[0], signed)), name[1..], signed)
  }

  /** The hash of the System V ABI reads bytes as unsigned. */
  function AbiHash(name: Name): nat {
    ElfFold(0, name, false)
  }

  function GnuStep(h: nat, b: Byte): nat {
    (h * 32 + h + b) % WRAP
  }

  function GnuFold(h: nat, name: Name): nat
    decreases |name|
  {
    if name == [] then h else GnuFold(GnuStep(h, name[0]), name[1..])
  }

  function GnuHash(name: Name): nat {
    GnuFold(5381, name)
  }

  /** An ELF hash has 28 bits. */
  lemma {:induction false} HashTop(h: nat, name: Name, signed: bool)
    requires h < NIBBLE
    ensures ElfFold(h, name, signed) < NIBBLE
    decreases |name|
  {
    if name == [] {
    } else {
      StepTop(h, CharWord(name[0], signed));
      HashTop(ElfStep(h, CharWord(name[0], signed)), name[1..], signed);
    }
  }

  lemma StepTop(h: nat, c: nat)
    ensures ElfStep(h, c) < NIBBLE
  {
  }

  predicate Ascii(name: Name) {
    forall b :: b in name ==> b < 128
  }

  /** On ASCII names the signedness of char does not matter. */
  lemma {:induction false} AsciiHash(h: nat, name: Name)
    requires Ascii(name)
    ensures ElfFold(h, name, true) == ElfFold(h, name, false)
    decreases |name|
  {
    if name == [] {
    } else {
      assert name[0] in name;
      assert forall b :: b in name[1..] ==> b in name;
      AsciiHash(ElfStep(h, CharWord(name[0], false)), name[1..]);
    }
  }

  /** On others it can. */
  lemma SignedHashDiffers()
    ensures ElfFold(0, [128], true) == 0xFFF_FF70 && ElfFold(0, [128], false) == 0x80
  {
    FoldOne(128, true);
    FoldOne(128, false);
    StepZero(0xFFFF_FF80);
    StepZero(0x80);
    MixSigned();
    MixUnsigned();
  }

  lemma StepZero(c: nat)
    requires c < WRAP
    ensures ElfStep(0, c) == Mix(c)
  {
    assert (0 * 16 + c) % WRAP == c;
  }

  lemma MixSigned()
    ensures Mix(0xFFFF_FF80) == 0xFFF_FF70
  {
    XorSamples();
  }

  lemma MixUnsigned()
    ensures Mix(0x80) == 0x80
  {
    XorSamples();
  }

  lemma FoldOne(b: Byte, signed: bool)
    ensures ElfFold(0, [b], signed) == ElfStep(0, CharWord(b, signed))
  {
    assert [b][1..] == [];
  }

  lemma XorSamples()
    ensures Xor(8, 15, 4) == 7 && Xor(8, 0, 4) == 8
  {
    assert Xor(1, 1, 1) == 0 && Xor(1, 0, 1) == 1;
    assert Xor(2, 3, 2) == 1 && Xor(2, 0, 2) == 2;
  }

  method ElfHash(name: Name, signed: bool) returns (h: nat)
    ensures h == ElfFold(0, name, signed)
  {
    h := 0;
    var i := 0;
    assert name[0..] == name;
    while i < |name|
      invariant i <= |name| && ElfFold(h, name[i..], signed) == ElfFold(0, name, signed)
    {
      assert name[i..][1..] == name[i + 1..];
      h := ElfStep(h, CharWord(name[i], signed));
      i := i + 1;
    }
  }

  method GnuHashOf(name: Name) returns (h: nat)
    ensures h == GnuHash(name)
  {
    h := 5381;
    var i := 0;
    assert name[0..] == name;
    while i < |name|
      invariant i <= |name| && GnuFold(h, name[i..]) == GnuHash(name)
    {
      assert name[i..][1..] == name[i + 1..];
      h := GnuStep(h, name[i]);
      i := i + 1;
    }
  }

  // ----- what a lookup should answer -----

  /** test_sym. A kind of 0 accepts any. */
  predicate Matches(s: Symbol, name: Name, kind: nat) {
    !s.undef && s.global && (kind == 0 || s.kind == kind) && s.name == name
  }

  /** A right answer: a matching symbol's value, or none because none matches. */
  ghost predicate Answers(syms: seq<Symbol>, name: Name, kind: nat, r: Option<nat>) {
    match r
    case None => forall i :: 0 <= i < |syms| ==> !Matches(syms[i], name, kind)
    case Some(v) => exists i :: 0 <= i < |syms| && Matches(syms[i], name, kind) && syms[i].value == v
  }

  predicate Wanted(s: Symbol) {
    !s.undef && s.global
  }

  /** No two defined global symbols share a name. */
  ghost predicate Unique(syms: seq<Symbol>) {
    forall i, j :: 0 <= i < j < |syms| && Wanted(syms[i]) && Wanted(syms[j]) ==> syms[i].name != syms[j].name
  }

  /** With unique names there is one right answer, so every correct search gives the same. */
  lemma OneAnswer(syms: seq<Symbol>, name: Name, kind: nat, r: Option<nat>, r': Option<nat>)
    requires Unique(syms) && Answers(syms, name, kind, r) && Answers(syms, name, kind, r')
    ensures r == r'
  {
  }

  /** The plain search: every symbol in turn. */
  method Scan(syms: seq<Symbol>, name: Name, kind: nat) returns (r: Option<nat>)
    ensures Answers(syms, name, kind, r)
  {
    var i := 0;
    while i < |syms|
      invariant i <= |syms| && forall j :: 0 <= j < i ==> !Matches(syms[j], name, kind)
    {
      if Matches(syms[i], name, kind) { return Some(syms[i].value); }
      i := i + 1;
    }
    r := None;
  }

  // ----- the System V table -----

  datatype SysvTable = SysvTable(buckets: seq<nat>, chain: seq<nat>)

  function Bucket(hash: nat, n: nat): (b: nat)
    requires n > 0
    ensures b < n
  {
    hash % n
  }

  /** The chain from symbol i is exactly the list xs, ended by 0. */
  ghost predicate Chains(t: SysvTable, i: nat, xs: seq<nat>)
    decreases |xs|
  {
    if xs == [] then i == 0
    else i == xs[0] && 0 < i < |t.chain| && Chains(t, t.chain[i], xs[1..])
  }

  /** lists[b] is the chain of bucket b, and the symbols a search may want are each on the chain of
      the bucket their name hashes to, and on no other. */
  ghost predicate SysvTableFor(t: SysvTable, syms: seq<Symbol>, lists: seq<seq<nat>>, hash: Name -> nat) {
    && 0 < |t.buckets| == |lists|
    && |t.chain| == |syms|
    && (forall b :: 0 <= b < |lists| ==> Chains(t, t.buckets[b], lists[b]))
    && (forall b, i :: 0 <= b < |lists| && 0 <= i < |syms| && Wanted(syms[i]) ==>
          (i in lists[b] <==> b == Bucket(hash(syms[i].name), |lists|)))
  }

  /** The walk of one chain finds what its list holds. */
  method WalkChain(t: SysvTable, syms: seq<Symbol>, start: nat, name: Name, kind: nat, ghost list: seq<nat>)
    returns (r: Option<nat>)
    requires |t.chain| == |syms| && Chains(t, start, list)
    ensures r.None? ==> forall i :: i in list && i < |syms| ==> !Matches(syms[i], name, kind)
    ensures r.Some? ==> exists i :: i in list && i < |syms| && Matches(syms[i], name, kind) && syms[i].value == r.value
  {
    var i: nat := start;
    ghost var k: nat := 0;
    assert list[0..] == list;
    while i != 0 && i < |t.chain|
      invariant k <= |list| && Chains(t, i, list[k..])
      invariant forall j :: 0 <= j < k && list[j] < |syms| ==> !Matches(syms[list[j]], name, kind)
      decreases |list| - k
    {
      assert list[k..] != [];
      assert list[k..][0] == list[k] && list[k..][1..] == list[k + 1..];
      if Matches(syms[i], name, kind) {
        assert list[k] in list;
        return Some(syms[i].value);
      }
      i := t.chain[i];
      k := k + 1;
    }
    assert list[k..] == [];
    r := None;
  }

  lemma SysvAnswers(t: SysvTable, syms: seq<Symbol>, lists: seq<seq<nat>>, hash: Name -> nat, name: Name, kind: nat,
                    b: nat, r: Option<nat>)
    requires SysvTableFor(t, syms, lists, hash) && b < |lists|
    requires r.None? ==> forall i :: i in lists[b] && i < |syms| ==> !Matches(syms[i], name, kind)
    requires r.Some? ==>
      exists i :: i in lists[b] && i < |syms| && Matches(syms[i], name, kind) && syms[i].value == r.value
    ensures b == Bucket(hash(name), |lists|) ==> Answers(syms, name, kind, r)
    ensures b != Bucket(hash(name), |lists|) ==> r == None
  {
  }

  /** find_elf_sym_hash: right exactly as far as its hash picks the bucket the table was built for;
      with another bucket it finds nothing. */
  method FindSysv(t: SysvTable, syms: seq<Symbol>, name: Name, kind: nat, signed: bool, ghost lists: seq<seq<nat>>)
    returns (r: Option<nat>)
    requires SysvTableFor(t, syms, lists, AbiHash)
    ensures Bucket(ElfFold(0, name, signed), |lists|) == Bucket(AbiHash(name), |lists|) ==> Answers(syms, name, kind, r)
    ensures Bucket(ElfFold(0, name, signed), |lists|) != Bucket(AbiHash(name), |lists|) ==> r == None
  {
    var hash := ElfHash(name, signed);
    var b := Bucket(hash, |t.buckets|);
    r := WalkChain(t, syms, t.buckets[b], name, kind, lists[b]);
    SysvAnswers(t, syms, lists, AbiHash, name, kind, b, r);
  }

  /** The table of one symbol, named by the one byte 128, in three buckets. */
  lemma HighByteTable(kind: nat, value: nat)
    ensures var syms := [Symbol([], true, false, 0, 0), Symbol([128], false, true, kind, value)];
      SysvTableFor(SysvTable([0, 0, 1], [0, 0]), syms, [[], [], [1]], AbiHash) && Matches(syms[1], [128], kind)
    ensures Bucket(ElfFold(0, [128], true), 3) == 1 && Bucket(AbiHash([128]), 3) == 2
  {
    SignedHashDiffers();
    assert [1 as nat][1..] == [];
    assert Chains(SysvTable([0, 0, 1], [0, 0]), 1, [1]);
    assert 0xFFF_FF70 % 3 == 1 && 0x80 % 3 == 2;
  }

  /** Where char is signed, the lookup misses that symbol; where it is not, it finds it. */
  method HighByteLookup(kind: nat, value: nat, signed: bool) returns (r: Option<nat>)
    ensures r == if signed then None else Some(value)
  {
    var syms := [Symbol([], true, false, 0, 0), Symbol([128], false, true, kind, value)];
    HighByteTable(kind, value);
    r := FindSysv(SysvTable([0, 0, 1], [0, 0]), syms, [128], kind, signed, [[], [], [1]]);
    if !signed { assert Matches(syms[1], [128], kind); }
  }

  // ----- the GNU table -----

  /** A machine word as the set of its bits that are set. */
  type Bits = set<nat>

  /** word is the width of a size_t, in bits. */
  datatype GnuTable =
    GnuTable(word: nat, symoffset: nat, shift: nat, bloom: seq<Bits>, buckets: seq<nat>, chain: seq<nat>)

  function ShiftRight(x: nat, n: nat): nat
    decreases n
  {
    if n == 0 then x else ShiftRight(x / 2, n - 1)
  }

  function BloomWord(t: GnuTable, hash: nat): Bits
    requires |t.bloom| > 0 && t.word > 0
  {
    t.bloom[Bucket(hash / t.word, |t.bloom|)]
  }

  /** The filter rejects only when both bits are clear. */
  predicate BloomRejects(t: GnuTable, hash: nat)
    requires |t.bloom| > 0 && t.word > 0
  {
    Bucket(hash, t.word) !in BloomWord(t, hash) && Bucket(ShiftRight(hash, t.shift), t.word) !in BloomWord(t, hash)
  }

  ghost function BucketOf(t: GnuTable, s: Symbol, hash: Name -> nat): nat
    requires |t.buckets| > 0
  {
    Bucket(hash(s.name), |t.buckets|)
  }

  /** The symbols from symoffset on lie bucket by bucket; the low bit of a chain word ends a bucket
      and the other bits are those of the hash. */
  ghost predicate GnuTableFor(t: GnuTable, syms: seq<Symbol>, hash: Name -> nat) {
    && |t.bloom| > 0 && t.word > 0 && |t.buckets| > 0
    && t.symoffset + |t.chain| == |syms|
    && (forall i :: 0 <= i < |syms| && Wanted(syms[i]) ==> t.symoffset <= i)
    && (forall i :: t.symoffset <= i < |syms| ==> Hashed(t, syms, i, hash))
    && (forall b :: 0 <= b < |t.buckets| && t.symoffset <= t.buckets[b] ==>
          t.buckets[b] < |syms| && BucketOf(t, syms[t.buckets[b]], hash) == b)
  }

  /** Symbol i is filed where its name hashes to. */
  ghost predicate Hashed(t: GnuTable, syms: seq<Symbol>, i: nat, hash: Name -> nat)
    requires |t.bloom| > 0 && t.word > 0 && |t.buckets| > 0 && t.symoffset + |t.chain| == |syms|
    requires t.symoffset <= i < |syms|
  {
    var x := hash(syms[i].name);
    var h := t.chain[i - t.symoffset];
    var first := t.buckets[BucketOf(t, syms[i], hash)];
    && Bucket(x, t.word) in BloomWord(t, x) && Bucket(ShiftRight(x, t.shift), t.word) in BloomWord(t, x)
    && h / 2 == x / 2
    && (h % 2 == 1 <==> i + 1 == |syms| || BucketOf(t, syms[i + 1], hash) != BucketOf(t, syms[i], hash))
    && t.symoffset <= first <= i
    && (forall j :: first <= j <= i ==> BucketOf(t, syms[j], hash) == BucketOf(t, syms[i], hash))
  }

  /** The filter never rejects a name that is there, which lies in its bucket, at or after the
      bucket's first symbol, with its hash in the chain word. */
  lemma PresentIsReached(t: GnuTable, syms: seq<Symbol>, hash: Name -> nat, i: nat)
    requires GnuTableFor(t, syms, hash) && i < |syms| && Wanted(syms[i])
    ensures var x := hash(syms[i].name);
      !BloomRejects(t, x) && t.symoffset <= t.buckets[Bucket(x, |t.buckets|)] <= i &&
      t.chain[i - t.symoffset] / 2 == x / 2
  {
    assert Hashed(t, syms, i, hash);
  }

  /** Past the end of a bucket there is no more of it. */
  lemma BucketEnds(t: GnuTable, syms: seq<Symbol>, hash: Name -> nat, i: nat, j: nat)
    requires GnuTableFor(t, syms, hash) && t.symoffset <= i < j < |syms|
    requires t.chain[i - t.symoffset] % 2 == 1
    ensures BucketOf(t, syms[j], hash) != BucketOf(t, syms[i], hash)
  {
    assert Hashed(t, syms, i, hash) && Hashed(t, syms, j, hash);
    assert BucketOf(t, syms[i + 1], hash) != BucketOf(t, syms[i], hash);
  }

  lemma BucketGoesOn(t: GnuTable, syms: seq<Symbol>, hash: Name -> nat, i: nat)
    requires GnuTableFor(t, syms, hash) && t.symoffset <= i < |syms|
    requires t.chain[i - t.symoffset] % 2 != 1
    ensures i + 1 < |syms| && BucketOf(t, syms[i + 1], hash) == BucketOf(t, syms[i], hash)
  {
    assert Hashed(t, syms, i, hash);
  }

  lemma NoneRejected(t: GnuTable, syms: seq<Symbol>, hash: Name -> nat, name: Name, kind: nat)
    requires GnuTableFor(t, syms, hash)
    requires BloomRejects(t, hash(name)) || t.buckets[Bucket(hash(name), |t.buckets|)] < t.symoffset
    ensures forall i :: 0 <= i < |syms| ==> !Matches(syms[i], name, kind)
  {
    forall i | 0 <= i < |syms| ensures Matches(syms[i], name, kind) ==> syms[i].name != name {
      if Wanted(syms[i]) { PresentIsReached(t, syms, hash, i); }
    }
  }

  lemma NoneBefore(t: GnuTable, syms: seq<Symbol>, hash: Name -> nat, name: Name, kind: nat, j: nat)
    requires GnuTableFor(t, syms, hash) && j < |syms| && j < t.buckets[Bucket(hash(name), |t.buckets|)]
    ensures !Matches(syms[j], name, kind)
  {
    if Wanted(syms[j]) { PresentIsReached(t, syms, hash, j); }
  }

  lemma NoneAfter(t: GnuTable, syms: seq<Symbol>, hash: Name -> nat, name: Name, kind: nat, i: nat, j: nat)
    requires GnuTableFor(t, syms, hash) && t.symoffset <= i < j < |syms|
    requires t.chain[i - t.symoffset] % 2 == 1 && BucketOf(t, syms[i], hash) == Bucket(hash(name), |t.buckets|)
    ensures !Matches(syms[j], name, kind)
  {
    BucketEnds(t, syms, hash, i, j);
  }

  /** The walk from a bucket's first symbol to the one whose low bit is set. */
  method WalkBucket(t: GnuTable, syms: seq<Symbol>, hash: nat, start: nat, name: Name, kind: nat, ghost hf: Name -> nat)
    returns (r: Option<nat>)
    requires GnuTableFor(t, syms, hf) && hash == hf(name)
    requires start == t.buckets[Bucket(hash, |t.buckets|)] >= t.symoffset
    ensures Answers(syms, name, kind, r)
  {
    ghost var b := Bucket(hash, |t.buckets|);
    forall j | 0 <= j < start && j < |syms| ensures !Matches(syms[j], name, kind) {
      NoneBefore(t, syms, hf, name, kind, j);
    }
    var i := start;
    while true
      invariant start <= i < |syms| && BucketOf(t, syms[i], hf) == b
      invariant forall j :: 0 <= j < i ==> !Matches(syms[j], name, kind)
      decreases |syms| - i
    {
      if Wanted(syms[i]) { PresentIsReached(t, syms, hf, i); }
      var h := t.chain[i - t.symoffset];
      if hash / 2 == h / 2 {
        if Matches(syms[i], name, kind) { return Some(syms[i].value); }
      }
      if h % 2 == 1 { break; }
      BucketGoesOn(t, syms, hf, i);
      i := i + 1;
    }
    forall j | i < j < |syms| ensures !Matches(syms[j], name, kind) {
      NoneAfter(t, syms, hf, name, kind, i, j);
    }
    r := None;
  }

  /** find_elf_sym_gnuh: the same answers as the plain search. */
  method FindGnu(t: GnuTable, syms: seq<Symbol>, name: Name, kind: nat) returns (r: Option<nat>)
    requires GnuTableFor(t, syms, GnuHash)
    ensures Answers(syms, name, kind, r)
  {
    var hash := GnuHashOf(name);
    if BloomRejects(t, hash) {
      NoneRejected(t, syms, GnuHash, name, kind);
      return None;
    }
    var i := t.buckets[Bucket(hash, |t.buckets|)];
    if i < t.symoffset {
      NoneRejected(t, syms, GnuHash, name, kind);
      return None;
    }
    r := WalkBucket(t, syms, hash, i, name, kind, GnuHash);
  }

  // ----- by name -----

  /** ksym_get: the GNU table if there is one, else the other. The answer is right for every name
      where char is unsigned or the GNU table is used, and for every ASCII name anyway. */
  method Get(gnu: Option<GnuTable>, sysv: Option<SysvTable>, syms: seq<Symbol>, name: Name, kind: nat, signed: bool,
             ghost lists: seq<seq<nat>>)
    returns (r: Option<nat>)
    requires gnu.Some? ==> GnuTableFor(gnu.value, syms, GnuHash)
    requires sysv.Some? ==> SysvTableFor(sysv.value, syms, lists, AbiHash)
    ensures gnu.Some? || (sysv.Some? && (!signed || Ascii(name))) ==> Answers(syms, name, kind, r)
    ensures gnu.None? && sysv.None? ==> r == None
  {
    if gnu.Some? {
      r := FindGnu(gnu.value, syms, name, kind);
    } else if sysv.Some? {
      r := FindSysv(sysv.value, syms, name, kind, signed, lists);
      if Ascii(name) { AsciiHash(0, name); }
    } else {
      r := None;
    }
  }

  /** Such tables exist: here for one symbol, and any hash. */
  lemma OneSymbolSysv(s: Symbol, hash: Name -> nat)
    ensures SysvTableFor(SysvTable([1], [0, 0]), [Symbol([], true, false, 0, 0), s], [[1]], hash)
  {
    assert [1 as nat][1..] == [];
    assert Chains(SysvTable([1], [0, 0]), 1, [1]);
  }

  lemma OneSymbolGnu(s: Symbol, hash: Name -> nat, word: nat)
    requires word > 0
    ensures var x := hash(s.name);
      GnuTableFor(GnuTable(word, 1, 0, [{Bucket(x, word)}], [1], [x / 2 * 2 + 1]),
                  [Symbol([], true, false, 0, 0), s], hash)
  {
    var x := hash(s.name);
    var syms, g := [Symbol([], true, false, 0, 0), s], GnuTable(word, 1, 0, [{Bucket(x, word)}], [1], [x / 2 * 2 + 1]);
    LastWord(x);
    assert ShiftRight(x, 0) == x;
    assert Bucket(x / word, 1) == 0 && BucketOf(g, s, hash) == 0;
    assert Hashed(g, syms, 1, hash);
  }

  lemma LastWord(x: nat)
    ensures (x / 2 * 2 + 1) / 2 == x / 2 && (x / 2 * 2 + 1) % 2 == 1
  {
  }

  // ----- by address -----

  /** ksym_find_by_addr's scan: the nearest defined symbol at or below an address. */
  method Nearest(syms: seq<Symbol>, addr: nat) returns (best: Option<nat>)
    ensures best.None? ==> forall i :: 0 <= i < |syms| ==> syms[i].undef || syms[i].value > addr
    ensures best.Some? ==> best.value < |syms| && !syms[best.value].undef && syms[best.value].value <= addr
    ensures best.Some? ==> forall i :: 0 <= i < |syms| && !syms[i].undef && syms[i].value <= addr ==>
      syms[i].value <= syms[best.value].value && (syms[i].value == syms[best.value].value ==> best.value <= i)
  {
    best := None;
    var i := 0;
    while i < |syms|
      invariant i <= |syms|
      invariant best.None? ==> forall j :: 0 <= j < i ==> syms[j].undef || syms[j].value > addr
      invariant best.Some? ==> best.value < i && !syms[best.value].undef && syms[best.value].value <= addr
      invariant best.Some? ==> forall j :: 0 <= j < i && !syms[j].undef && syms[j].value <= addr ==>
        syms[j].value <= syms[best.value].value && (syms[j].value == syms[best.value].value ==> best.value <= j)
    {
      if !syms[i].undef && syms[i].value <= addr && (best.None? || syms[i].value > syms[best.value].value) {
        best := Some(i);
      }
      i := i + 1;
    }
  }
}

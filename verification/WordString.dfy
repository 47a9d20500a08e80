/** kern/string.c: memory and string routines that step a machine word at a time. */
module WordString {
  import opened Base

  const WORD: nat := 8

  const ONES: bv64 := 0x0101_0101_0101_0101
  const HIGHS: bv64 := 0x8080_8080_8080_8080

  /** haszero. */
  predicate HasZero(x: bv64) {
    (x - ONES) & !x & HIGHS != 0
  }

  /** fillsize: a byte in every place of a word. */
  function Fill(c: bv8): bv64 {
    (c as bv64) * ONES
  }

  /** The word a little-endian machine reads from eight bytes. */
  function Pack(b0: bv8, b1: bv8, b2: bv8, b3: bv8, b4: bv8, b5: bv8, b6: bv8, b7: bv8): bv64 {
    (b0 as bv64) | ((b1 as bv64) << 8) | ((b2 as bv64) << 16) | ((b3 as bv64) << 24) |
    ((b4 as bv64) << 32) | ((b5 as bv64) << 40) | ((b6 as bv64) << 48) | ((b7 as bv64) << 56)
  }

  /** haszero is true exactly when some byte of the word is zero. */
  lemma HasZeroExact(b0: bv8, b1: bv8, b2: bv8, b3: bv8, b4: bv8, b5: bv8, b6: bv8, b7: bv8)
    ensures HasZero(Pack(b0, b1, b2, b3, b4, b5, b6, b7)) <==>
      b0 == 0 || b1 == 0 || b2 == 0 || b3 == 0 || b4 == 0 || b5 == 0 || b6 == 0 || b7 == 0
  {
  }

  lemma XorZero(x: bv64, y: bv64)
    ensures x ^ y == 0 <==> x == y
  {
  }

  lemma XorAnd(x: bv64, y: bv64, m: bv64)
    ensures (x ^ y) & m == (x & m) ^ (y & m)
  {
  }

  /** Where two words agree in a byte, their exclusive or is zero there. */
  lemma XorMask(x: bv64, y: bv64, m: bv64)
    ensures (x ^ y) & m == 0 <==> x & m == y & m
  {
    XorAnd(x, y, m);
    XorZero(x & m, y & m);
  }

  lemma ZeroMasks(x: bv64)
    ensures HasZero(x) <==>
      x & 0xFF == 0 || x & 0xFF00 == 0 || x & 0xFF_0000 == 0 || x & 0xFF00_0000 == 0 ||
      x & 0xFF_0000_0000 == 0 || x & 0xFF00_0000_0000 == 0 || x & 0xFF_0000_0000_0000 == 0 ||
      x & 0xFF00_0000_0000_0000 == 0
  {
  }

  lemma PackMasks(b0: bv8, b1: bv8, b2: bv8, b3: bv8, b4: bv8, b5: bv8, b6: bv8, b7: bv8)
    ensures var w := Pack(b0, b1, b2, b3, b4, b5, b6, b7);
      w & 0xFF == b0 as bv64 && w & 0xFF00 == (b1 as bv64) << 8 &&
      w & 0xFF_0000 == (b2 as bv64) << 16 && w & 0xFF00_0000 == (b3 as bv64) << 24 &&
      w & 0xFF_0000_0000 == (b4 as bv64) << 32 && w & 0xFF00_0000_0000 == (b5 as bv64) << 40 &&
      w & 0xFF_0000_0000_0000 == (b6 as bv64) << 48 && w & 0xFF00_0000_0000_0000 == (b7 as bv64) << 56
  {
  }

  lemma FillPacks(c: bv8)
    ensures Fill(c) == Pack(c, c, c, c, c, c, c, c)
  {
  }

  lemma ShiftSame(b: bv8, c: bv8)
    ensures (b as bv64) == (c as bv64) <==> b == c
    ensures (b as bv64) << 8 == (c as bv64) << 8 <==> b == c
    ensures (b as bv64) << 16 == (c as bv64) << 16 <==> b == c
    ensures (b as bv64) << 24 == (c as bv64) << 24 <==> b == c
    ensures (b as bv64) << 32 == (c as bv64) << 32 <==> b == c
    ensures (b as bv64) << 40 == (c as bv64) << 40 <==> b == c
    ensures (b as bv64) << 48 == (c as bv64) << 48 <==> b == c
    ensures (b as bv64) << 56 == (c as bv64) << 56 <==> b == c
  {
  }

  lemma SomeByteAgrees(w: bv64, f: bv64)
    ensures HasZero(w ^ f) <==>
      w & 0xFF == f & 0xFF || w & 0xFF00 == f & 0xFF00 || w & 0xFF_0000 == f & 0xFF_0000 ||
      w & 0xFF00_0000 == f & 0xFF00_0000 || w & 0xFF_0000_0000 == f & 0xFF_0000_0000 ||
      w & 0xFF00_0000_0000 == f & 0xFF00_0000_0000 || w & 0xFF_0000_0000_0000 == f & 0xFF_0000_0000_0000 ||
      w & 0xFF00_0000_0000_0000 == f & 0xFF00_0000_0000_0000
  {
    ZeroMasks(w ^ f);
    XorMask(w, f, 0xFF);
    XorMask(w, f, 0xFF00);
    XorMask(w, f, 0xFF_0000);
    XorMask(w, f, 0xFF00_0000);
    XorMask(w, f, 0xFF_0000_0000);
    XorMask(w, f, 0xFF00_0000_0000);
    XorMask(w, f, 0xFF_0000_0000_0000);
    XorMask(w, f, 0xFF00_0000_0000_0000);
  }

  /** With a filled word, haszero tells exactly whether some byte equals c. */
  lemma HasByteExact(b0: bv8, b1: bv8, b2: bv8, b3: bv8, b4: bv8, b5: bv8, b6: bv8, b7: bv8, c: bv8)
    ensures HasZero(Pack(b0, b1, b2, b3, b4, b5, b6, b7) ^ Fill(c)) <==>
      b0 == c || b1 == c || b2 == c || b3 == c || b4 == c || b5 == c || b6 == c || b7 == c
  {
    SomeByteAgrees(Pack(b0, b1, b2, b3, b4, b5, b6, b7), Fill(c));
    PackMasks(b0, b1, b2, b3, b4, b5, b6, b7);
    FillPacks(c);
    PackMasks(c, c, c, c, c, c, c, c);
    ShiftSame(b0, c);
    ShiftSame(b1, c);
    ShiftSame(b2, c);
    ShiftSame(b3, c);
    ShiftSame(b4, c);
    ShiftSame(b5, c);
    ShiftSame(b6, c);
    ShiftSame(b7, c);
  }

  // ----- words in memory -----

  function WordAt(m: seq<bv8>, i: nat): bv64
    requires i + WORD <= |m|
  {
    Pack(m[i], m[i + 1], m[i + 2], m[i + 3], m[i + 4], m[i + 5], m[i + 6], m[i + 7])
  }

  /** c is among m's bytes from i up to j. */
  ghost predicate Among(m: seq<bv8>, i: nat, j: nat, c: bv8)
    requires i <= j <= |m|
  {
    exists k :: i <= k < j && m[k] == c
  }

  lemma EightBytes(m: seq<bv8>, i: nat, c: bv8)
    requires i + WORD <= |m|
    ensures Among(m, i, i + WORD, c) <==>
      m[i] == c || m[i + 1] == c || m[i + 2] == c || m[i + 3] == c ||
      m[i + 4] == c || m[i + 5] == c || m[i + 6] == c || m[i + 7] == c
  {
  }

  /** The word tests as the code makes them. */
  method TestByte(b0: bv8, b1: bv8, b2: bv8, b3: bv8, b4: bv8, b5: bv8, b6: bv8, b7: bv8, c: bv8)
    returns (has: bool)
    ensures has <==> b0 == c || b1 == c || b2 == c || b3 == c || b4 == c || b5 == c || b6 == c || b7 == c
  {
    has := HasZero(Pack(b0, b1, b2, b3, b4, b5, b6, b7) ^ Fill(c));
    HasByteExact(b0, b1, b2, b3, b4, b5, b6, b7, c);
  }

  method WordHasByte(m: seq<bv8>, i: nat, c: bv8) returns (has: bool)
    requires i + WORD <= |m|
    ensures has <==> Among(m, i, i + WORD, c)
  {
    has := TestByte(m[i], m[i + 1], m[i + 2], m[i + 3], m[i + 4], m[i + 5], m[i + 6], m[i + 7], c);
    EightBytes(m, i, c);
  }

  method WordHasZero(m: seq<bv8>, i: nat) returns (has: bool)
    requires i + WORD <= |m|
    ensures has <==> Among(m, i, i + WORD, 0)
  {
    has := HasZero(WordAt(m, i));
    HasZeroExact(m[i], m[i + 1], m[i + 2], m[i + 3], m[i + 4], m[i + 5], m[i + 6], m[i + 7]);
    EightBytes(m, i, 0);
  }

  // ----- searching -----

  /** memchr: the first place of c in the first n bytes. */
  method Memchr(m: seq<bv8>, c: bv8, n: nat) returns (r: Option<nat>)
    requires n <= |m|
    ensures r.None? <==> !Among(m, 0, n, c)
    ensures r.Some? ==> r.value < n && m[r.value] == c && !Among(m, 0, r.value, c)
  {
    var i: nat := 0;
    if n >= WORD {
      var end := n - n % WORD;
      while i < end
        invariant i <= end <= n && (end - i) % WORD == 0 && !Among(m, 0, i, c)
        decreases end - i
      {
        var has := WordHasByte(m, i, c);
        if has { break; }
        i := i + WORD;
      }
    }
    while i < n
      invariant i <= n && !Among(m, 0, i, c)
    {
      if m[i] == c { return Some(i); }
      i := i + 1;
    }
    r := None;
  }

  /** memrchr: the last place of c in the first n bytes. */
  method Memrchr(m: seq<bv8>, c: bv8, n: nat) returns (r: Option<nat>)
    requires n <= |m|
    ensures r.None? <==> !Among(m, 0, n, c)
    ensures r.Some? ==> r.value < n && m[r.value] == c && !Among(m, r.value + 1, n, c)
  {
    var k: nat := n;
    while k >= WORD
      invariant k <= n && !Among(m, k, n, c)
    {
      var nxt := k - WORD;
      var has := WordHasByte(m, nxt, c);
      if has { break; }
      k := nxt;
    }
    while k > 0
      invariant k <= n && !Among(m, k, n, c)
    {
      var nxt := k - 1;
      if m[nxt] == c { return Some(nxt); }
      k := nxt;
    }
    r := None;
  }

  /** The string at s in memory ends, and memory goes to the end of the word its NUL is in. */
  ghost predicate StringAt(m: seq<bv8>, s: nat) {
    |m| % WORD == 0 && s <= |m| && Among(m, s, |m|, 0)
  }

  /** n is the length of the string at s. */
  ghost predicate Length(m: seq<bv8>, s: nat, n: nat) {
    s + n < |m| && m[s + n] == 0 && !Among(m, s, s + n, 0)
  }

  /** A NUL still ahead of an aligned place is past a whole word. */
  lemma WordAhead(m: seq<bv8>, s: nat, i: nat)
    requires StringAt(m, s) && s <= i <= |m| && i % WORD == 0 && !Among(m, s, i, 0)
    ensures i + WORD <= |m|
  {
    assert i != |m|;
  }

  lemma NotAmongJoin(m: seq<bv8>, i: nat, j: nat, k: nat, c: bv8)
    requires i <= j <= k <= |m|
    ensures Among(m, i, k, c) <==> Among(m, i, j, c) || Among(m, j, k, c)
  {
  }

  method Strlen(m: seq<bv8>, s: nat) returns (n: nat)
    requires StringAt(m, s)
    ensures Length(m, s, n)
  {
    n := 0;
    while (s + n) % WORD != 0
      invariant s + n <= |m| && !Among(m, s, s + n, 0)
      decreases |m| - n
    {
      if m[s + n] == 0 { return; }
      n := n + 1;
    }
    while true
      invariant s + n <= |m| && (s + n) % WORD == 0 && !Among(m, s, s + n, 0)
      decreases |m| - n
    {
      WordAhead(m, s, s + n);
      var has := WordHasZero(m, s + n);
      if has { break; }
      NotAmongJoin(m, s, s + n, s + n + WORD, 0);
      n := n + WORD;
    }
    while m[s + n] != 0
      invariant s + n < |m| && !Among(m, s, s + n, 0) && Among(m, s + n, |m|, 0)
      decreases |m| - n
    {
      n := n + 1;
    }
  }

  /** Neither the end of the string nor c lies between s and s + i. */
  ghost predicate Passed(m: seq<bv8>, s: nat, i: nat, c: bv8) {
    s + i <= |m| && !Among(m, s, s + i, 0) && !Among(m, s, s + i, c)
  }

  /** The first c before the end of the string, the NUL itself included, or none. */
  ghost predicate FirstIn(m: seq<bv8>, s: nat, c: bv8, r: Option<nat>) {
    match r
    case Some(i) => Passed(m, s, i, c) && s + i < |m| && m[s + i] == c
    case None => c != 0 && exists n :: Length(m, s, n) && Passed(m, s, n, c)
  }

  lemma PassedOne(m: seq<bv8>, s: nat, i: nat, c: bv8)
    requires Passed(m, s, i, c) && s + i < |m| && m[s + i] != 0 && m[s + i] != c
    ensures Passed(m, s, i + 1, c)
  {
  }

  lemma PassedWord(m: seq<bv8>, s: nat, i: nat, c: bv8)
    requires Passed(m, s, i, c) && s + i + WORD <= |m|
    requires !Among(m, s + i, s + i + WORD, 0) && !Among(m, s + i, s + i + WORD, c)
    ensures Passed(m, s, i + WORD, c)
  {
    NotAmongJoin(m, s, s + i, s + i + WORD, 0);
    NotAmongJoin(m, s, s + i, s + i + WORD, c);
  }

  /** The last loop: byte by byte. */
  method StrchrBytes(m: seq<bv8>, s: nat, start: nat, c: bv8) returns (r: Option<nat>)
    requires StringAt(m, s) && Passed(m, s, start, c)
    ensures FirstIn(m, s, c, r)
  {
    var i := start;
    while true
      invariant Passed(m, s, i, c)
      decreases |m| - i
    {
      assert s + i != |m|;
      var v := m[s + i];
      if v == c { return Some(i); }
      if v == 0 { break; }
      PassedOne(m, s, i, c);
      i := i + 1;
    }
    assert Length(m, s, i);
    r := None;
  }

  /** The middle loop: whole words. */
  method StrchrWords(m: seq<bv8>, s: nat, start: nat, c: bv8) returns (i: nat)
    requires StringAt(m, s) && Passed(m, s, start, c) && (s + start) % WORD == 0
    ensures Passed(m, s, i, c)
  {
    i := start;
    while true
      invariant Passed(m, s, i, c) && (s + i) % WORD == 0
      decreases |m| - i
    {
      WordAhead(m, s, s + i);
      var has := WordHasZero(m, s + i);
      if has { break; }
      has := WordHasByte(m, s + i, c);
      if has { break; }
      PassedWord(m, s, i, c);
      i := i + WORD;
    }
  }

  /** strchr; the answer is counted from s. */
  method Strchr(m: seq<bv8>, s: nat, c: bv8) returns (r: Option<nat>)
    requires StringAt(m, s)
    ensures FirstIn(m, s, c, r)
  {
    var i: nat := 0;
    while (s + i) % WORD != 0
      invariant Passed(m, s, i, c)
      decreases |m| - i
    {
      assert s + i != |m|;
      var v := m[s + i];
      if v == c { return Some(i); }
      if v == 0 {
        assert Length(m, s, i);
        return None;
      }
      PassedOne(m, s, i, c);
      i := i + 1;
    }
    i := StrchrWords(m, s, i, c);
    r := StrchrBytes(m, s, i, c);
  }

  // ----- copying -----

  /** What is at k once the bytes from i up to j of a move from s to d are done. */
  ghost function Source(m: seq<bv8>, d: nat, s: nat, i: nat, j: nat, k: nat): bv8
    requires i <= j && d + j <= |m| && s + j <= |m| && k < |m|
  {
    if d + i <= k < d + j then m[s + k - d] else m[k]
  }

  /** Memory after the n bytes at s have been put at d. */
  ghost function Moved(m: seq<bv8>, d: nat, s: nat, n: nat): (r: seq<bv8>)
    requires d + n <= |m| && s + n <= |m|
    ensures |r| == |m|
  {
    m[..d] + m[s..s + n] + m[d + n..]
  }

  lemma MovedAt(m: seq<bv8>, d: nat, s: nat, n: nat, k: nat)
    requires d + n <= |m| && s + n <= |m| && k < |m|
    ensures Moved(m, d, s, n)[k] == Source(m, d, s, 0, n, k)
  {
  }

  /** One word: all of it is read before any of it is written. */
  method CopyWord(a: array<bv8>, d: nat, s: nat)
    requires d + WORD <= a.Length && s + WORD <= a.Length
    modifies a
    ensures a[..] == Moved(old(a[..]), d, s, WORD)
  {
    var w := a[s..s + WORD];
    forall k | 0 <= k < WORD {
      a[d + k] := w[k];
    }
    assert a[..] == Moved(old(a[..]), d, s, WORD);
  }

  /** Memory holds m with the bytes from i up to j of a move done. */
  ghost predicate Doing(now: seq<bv8>, m: seq<bv8>, d: nat, s: nat, i: nat, j: nat) {
    && |now| == |m| && i <= j && d + j <= |m| && s + j <= |m|
    && forall k :: 0 <= k < |m| ==> now[k] == Source(m, d, s, i, j, k)
  }

  lemma DoneIsMoved(now: seq<bv8>, m: seq<bv8>, d: nat, s: nat, n: nat)
    requires Doing(now, m, d, s, 0, n)
    ensures now == Moved(m, d, s, n)
  {
    var r := Moved(m, d, s, n);
    forall k | 0 <= k < |m| ensures now[k] == r[k] { MovedAt(m, d, s, n, k); }
  }

  /** Going up, the bytes still to be read have not been written. */
  lemma UpStep(now: seq<bv8>, m: seq<bv8>, d: nat, s: nat, i: nat, k: nat)
    requires Doing(now, m, d, s, 0, i) && d + i + k <= |m| && s + i + k <= |m| && (d <= s || s + i + k <= d)
    ensures Doing(Moved(now, d + i, s + i, k), m, d, s, 0, i + k)
  {
    var r := Moved(now, d + i, s + i, k);
    forall t | 0 <= t < |m| ensures r[t] == Source(m, d, s, 0, i + k, t) {
      MovedAt(now, d + i, s + i, k, t);
      if d + i <= t < d + i + k { assert now[s + t - d] == Source(m, d, s, 0, i, s + t - d); }
    }
  }

  /** Going down likewise, for a destination at least k above the source. */
  lemma DownStep(now: seq<bv8>, m: seq<bv8>, d: nat, s: nat, i: nat, j: nat, k: nat)
    requires Doing(now, m, d, s, i, j) && k <= i && s + k <= d
    ensures Doing(Moved(now, d + i - k, s + i - k, k), m, d, s, i - k, j)
  {
    var r := Moved(now, d + i - k, s + i - k, k);
    forall t | 0 <= t < |m| ensures r[t] == Source(m, d, s, i - k, j, t) {
      MovedAt(now, d + i - k, s + i - k, k, t);
      if d + i - k <= t < d + i { assert now[s + t - d] == Source(m, d, s, i, j, s + t - d); }
    }
  }

  method UpWord(a: array<bv8>, ghost m: seq<bv8>, d: nat, s: nat, i: nat)
    requires Doing(a[..], m, d, s, 0, i) && d + i + WORD <= a.Length && s + i + WORD <= a.Length
    requires d <= s || s + i + WORD <= d
    modifies a
    ensures Doing(a[..], m, d, s, 0, i + WORD)
  {
    UpStep(a[..], m, d, s, i, WORD);
    CopyWord(a, d + i, s + i);
  }

  method UpByte(a: array<bv8>, ghost m: seq<bv8>, d: nat, s: nat, i: nat)
    requires Doing(a[..], m, d, s, 0, i) && d + i < a.Length && s + i < a.Length && (d <= s || s + i < d)
    modifies a
    ensures Doing(a[..], m, d, s, 0, i + 1)
  {
    UpStep(a[..], m, d, s, i, 1);
    CopyByte(a, d + i, s + i);
  }

  method DownWord(a: array<bv8>, ghost m: seq<bv8>, d: nat, s: nat, k: nat, ghost n: nat)
    requires Doing(a[..], m, d, s, k, n) && WORD <= k && s + WORD <= d && d + k <= a.Length
    modifies a
    ensures Doing(a[..], m, d, s, k - WORD, n)
  {
    DownStep(a[..], m, d, s, k, n, WORD);
    CopyWord(a, d + k - WORD, s + k - WORD);
  }

  method DownByte(a: array<bv8>, ghost m: seq<bv8>, d: nat, s: nat, k: nat, ghost n: nat)
    requires Doing(a[..], m, d, s, k, n) && 1 <= k && s < d && d + k <= a.Length
    modifies a
    ensures Doing(a[..], m, d, s, k - 1, n)
  {
    DownStep(a[..], m, d, s, k, n, 1);
    CopyByte(a, d + k - 1, s + k - 1);
  }

  method CopyByte(a: array<bv8>, d: nat, s: nat)
    requires d < a.Length && s < a.Length
    modifies a
    ensures a[..] == Moved(old(a[..]), d, s, 1)
  {
    a[d] := a[s];
    assert a[..] == Moved(old(a[..]), d, s, 1);
  }

  /** memcpy, for a destination that does not lie above an overlapping source. */
  method Memcpy(a: array<bv8>, d: nat, s: nat, n: nat)
    requires d + n <= a.Length && s + n <= a.Length && (d <= s || s + n <= d)
    modifies a
    ensures a[..] == Moved(old(a[..]), d, s, n)
  {
    ghost var m := a[..];
    var i: nat := 0;
    while n - i >= WORD
      invariant i <= n && Doing(a[..], m, d, s, 0, i)
      decreases n - i
    {
      UpWord(a, m, d, s, i);
      i := i + WORD;
    }
    while i < n
      invariant i <= n && Doing(a[..], m, d, s, 0, i)
    {
      UpByte(a, m, d, s, i);
      i := i + 1;
    }
    DoneIsMoved(a[..], m, d, s, n);
  }

  /** memmove's loops from the end, by words when the ranges are a word or more apart. */
  method MoveDown(a: array<bv8>, d: nat, s: nat, n: nat)
    requires d + n <= a.Length && s < d
    modifies a
    ensures a[..] == Moved(old(a[..]), d, s, n)
  {
    ghost var m := a[..];
    var k: nat := n;
    if d - s >= WORD {
      while k >= WORD
        invariant k <= n && Doing(a[..], m, d, s, k, n)
      {
        DownWord(a, m, d, s, k, n);
        k := k - WORD;
      }
    }
    while k > 0
      invariant k <= n && Doing(a[..], m, d, s, k, n)
    {
      DownByte(a, m, d, s, k, n);
      k := k - 1;
    }
    DoneIsMoved(a[..], m, d, s, n);
  }

  /** memmove: for every pair of ranges, overlapping or not, the destination becomes what the source
      was and nothing else changes. */
  method Memmove(a: array<bv8>, d: nat, s: nat, n: nat)
    requires d + n <= a.Length && s + n <= a.Length
    modifies a
    ensures a[..] == Moved(old(a[..]), d, s, n)
  {
    if n == 0 || d == s {
      DoneIsMoved(a[..], a[..], d, s, n);
      return;
    }
    if d < s {
      Memcpy(a, d, s, n);
    } else {
      MoveDown(a, d, s, n);
    }
  }

  // ----- strlcpy -----

  /** The first i bytes of the string have been copied to d and the rest of d is as before. */
  ghost predicate Copied(now: seq<bv8>, was: seq<bv8>, m: seq<bv8>, s: nat, i: nat) {
    && |now| == |was| && i <= |was| && s + i <= |m| && !Among(m, s, s + i, 0)
    && forall k :: 0 <= k < |was| ==> now[k] == if k < i then m[s + k] else was[k]
  }

  /** strlcpy's promise: the string's length, and as much of it as fits before a NUL. */
  ghost predicate CopiedString(now: seq<bv8>, was: seq<bv8>, m: seq<bv8>, s: nat, n: nat, len: nat) {
    && Length(m, s, len)
    && if n == 0 then now == was else
         var k := if len < n then len else n - 1;
         |now| == |was| && k < |was| &&
         forall j :: 0 <= j < |was| ==> now[j] == if j < k then m[s + j] else if j == k then 0 else was[j]
  }

  lemma StringFrom(m: seq<bv8>, s: nat, i: nat)
    requires StringAt(m, s) && s + i <= |m| && !Among(m, s, s + i, 0)
    ensures StringAt(m, s + i)
  {
    NotAmongJoin(m, s, s + i, |m|, 0);
  }

  lemma LengthFrom(m: seq<bv8>, s: nat, i: nat, n: nat)
    requires s + i <= |m| && !Among(m, s, s + i, 0) && Length(m, s + i, n)
    ensures Length(m, s, i + n)
  {
    NotAmongJoin(m, s, s + i, s + i + n, 0);
  }

  /** The last loop of strlcpy and its end: byte by byte up to n - 1, then a NUL. */
  method StrlcpyBytes(d: array<bv8>, m: seq<bv8>, s: nat, n: nat, start: nat, ghost was: seq<bv8>) returns (len: nat)
    requires StringAt(m, s) && 0 < n <= d.Length && start < n && Copied(d[..], was, m, s, start)
    modifies d
    ensures CopiedString(d[..], was, m, s, n, len)
  {
    var i := start;
    while i < n - 1
      invariant i < n && Copied(d[..], was, m, s, i)
    {
      assert s + i != |m|;
      var v := m[s + i];
      d[i] := v;
      if v == 0 { return i; }
      i := i + 1;
    }
    d[i] := 0;
    StringFrom(m, s, i);
    var rest := Strlen(m, s + i);
    LengthFrom(m, s, i, rest);
    len := i + rest;
  }

  /** The middle loop: whole words without a NUL in them. */
  method StrlcpyWords(d: array<bv8>, m: seq<bv8>, s: nat, n: nat, start: nat, ghost was: seq<bv8>) returns (i: nat)
    requires StringAt(m, s) && 0 < n <= d.Length && start < n && Copied(d[..], was, m, s, start)
    requires (s + start) % WORD == 0
    modifies d
    ensures i < n && Copied(d[..], was, m, s, i)
  {
    i := start;
    while i + WORD < n
      invariant i < n && Copied(d[..], was, m, s, i) && (s + i) % WORD == 0
    {
      WordAhead(m, s, s + i);
      var has := WordHasZero(m, s + i);
      if has { break; }
      NotAmongJoin(m, s, s + i, s + i + WORD, 0);
      var w := m[s + i..s + i + WORD];
      forall k | 0 <= k < WORD {
        d[i + k] := w[k];
      }
      i := i + WORD;
    }
  }

  method Strlcpy(d: array<bv8>, m: seq<bv8>, s: nat, n: nat) returns (len: nat)
    requires StringAt(m, s) && n <= d.Length
    modifies d
    ensures CopiedString(d[..], old(d[..]), m, s, n, len)
  {
    ghost var was := d[..];
    if n == 0 {
      len := Strlen(m, s);
      return;
    }
    var i: nat := 0;
    while i < n - 1 && (s + i) % WORD != 0
      invariant i < n && Copied(d[..], was, m, s, i)
    {
      assert s + i != |m|;
      var v := m[s + i];
      d[i] := v;
      if v == 0 { return i; }
      i := i + 1;
    }
    if i < n - 1 { i := StrlcpyWords(d, m, s, n, i, was); }
    len := StrlcpyBytes(d, m, s, n, i, was);
  }
}
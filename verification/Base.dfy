/** Vocabulary shared by the models: optional values, and lists of threads. */
module Base {

  datatype Option<+T> = None | Some(value: T)

  type Byte = x: int | 0 <= x < 256

  /** Thread identities. */
  type Tid = nat

  ghost predicate NoDup<T>(s: seq<T>)
  {
    forall i, j :: 0 <= i < j < |s| ==> s[i] != s[j]
  }

  /** How often x occurs in s. */
  ghost function Count<T>(s: seq<T>, x: T): (n: nat)
    ensures n == 0 <==> x !in s
    ensures n <= |s|
  {
    if s == [] then 0 else (if s[0] == x then 1 else 0) + Count(s[1..], x)
  }

  lemma {:induction false} CountConcat<T>(a: seq<T>, b: seq<T>, x: T)
    ensures Count(a + b, x) == Count(a, x) + Count(b, x)
  {
    if a == [] {
      assert a + b == b;
    } else {
      assert (a + b)[1..] == a[1..] + b;
      CountConcat(a[1..], b, x);
    }
  }

  /** The list without its first occurrence of x (TAILQ_REMOVE). */
  function Remove<T(==)>(s: seq<T>, x: T): (r: seq<T>)
    ensures |r| == if x in s then |s| - 1 else |s|
  {
    if s == [] then [] else if s[0] == x then s[1..] else [s[0]] + Remove(s[1..], x)
  }

  lemma {:induction false} RemoveAt<T>(s: seq<T>, i: nat)
    requires i < |s| && s[i] !in s[..i]
    ensures Remove(s, s[i]) == s[..i] + s[i + 1..]
  {
    if i == 0 {
    } else {
      assert s[0] in s[..i] && s[1..][..i - 1] == s[..i][1..];
      RemoveAt(s[1..], i - 1);
    }
  }

  lemma CutMembers<T>(s: seq<T>, i: nat)
    requires i < |s| && s[i] !in s[..i] && s[i] !in s[i + 1..]
    ensures forall y :: y in s[..i] + s[i + 1..] <==> y in s && y != s[i]
  {
    assert s == s[..i] + [s[i]] + s[i + 1..];
  }

  lemma CutNoDup<T>(s: seq<T>, i: nat)
    requires NoDup(s) && i < |s|
    ensures NoDup(s[..i] + s[i + 1..]) && s[i] !in s[..i] && s[i] !in s[i + 1..]
  {
    var r := s[..i] + s[i + 1..];
    forall a, b | 0 <= a < b < |r| ensures r[a] != r[b] {
      var a0, b0 := if a < i then a else a + 1, if b < i then b else b + 1;
      assert r[a] == s[a0] && r[b] == s[b0];
    }
  }

  /** Removing from a list without repetition: the element is gone, the others keep their order. */
  lemma RemoveNoDup<T>(s: seq<T>, i: nat)
    requires NoDup(s) && i < |s|
    ensures Remove(s, s[i]) == s[..i] + s[i + 1..] && NoDup(s[..i] + s[i + 1..])
    ensures forall y :: y in s[..i] + s[i + 1..] <==> y in s && y != s[i]
  {
    CutNoDup(s, i);
    RemoveAt(s, i);
    CutMembers(s, i);
  }

  /** Inserting at position k. */
  lemma InsertNoDup<T>(s: seq<T>, k: nat, x: T)
    requires NoDup(s) && k <= |s| && x !in s
    ensures NoDup(s[..k] + [x] + s[k..])
    ensures forall y :: y in s[..k] + [x] + s[k..] <==> y == x || y in s
  {
    var r := s[..k] + [x] + s[k..];
    forall a, b | 0 <= a < b < |r| ensures r[a] != r[b] {
      assert a < k ==> r[a] == s[a];
      assert a > k ==> r[a] == s[a - 1];
      assert b < k ==> r[b] == s[b];
      assert b > k ==> r[b] == s[b - 1];
    }
    assert s == s[..k] + s[k..];
  }

  lemma {:induction false} RemoveSubset<T>(s: seq<T>, x: T, i: nat)
    requires i < |Remove(s, x)|
    ensures Remove(s, x)[i] in s
  {
    if s[0] != x && i > 0 {
      RemoveSubset(s[1..], x, i - 1);
    }
  }

  lemma {:induction false} RemoveAbsent<T>(s: seq<T>, x: T)
    requires x !in s
    ensures Remove(s, x) == s
  {
    if s == [] {
    } else {
      RemoveAbsent(s[1..], x);
    }
  }

  lemma {:induction false} CountRemove<T>(s: seq<T>, x: T, y: T)
    ensures Count(Remove(s, x), y) == if y == x && x in s then Count(s, y) - 1 else Count(s, y)
  {
    if s != [] && s[0] != x {
      CountRemove(s[1..], x, y);
      assert ([s[0]] + Remove(s[1..], x))[1..] == Remove(s[1..], x);
    }
  }

  lemma HasMember<T>(s: seq<T>)
    ensures s == [] || exists x :: x in s
  {
    if s != [] {
      assert s[0] in s;
    }
  }

  /** Moving the head of q to the end of another list loses and duplicates nothing. */
  lemma HeadMoves<T>(q: seq<T>, l: seq<T>, x: T)
    requires q != []
    ensures Count(l + [q[0]], x) + Count(q[1..], x) == Count(l, x) + Count(q, x)
  {
    CountConcat(l, [q[0]], x);
  }

  /** A pair that gets smaller, first part first, lowers a single bound. */
  lemma BoundDrops(w: nat, p: nat, w': nat, p': nat)
    requires p' <= w'
    requires w' < w || (w' == w && p' < p)
    ensures w' * (w' + 1) + p' < w * (w + 1) + p
  {
    if w' < w {
      assert w' * (w' + 1) <= (w - 1) * w;
    }
  }
}

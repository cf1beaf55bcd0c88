/** The two java.util.List mutations the help desk uses on its lists of strings:
    `remove(Object)`, which drops the first equal element only, and
    `removeIf(a -> a.startsWith(p))`, which drops every element with prefix p. */
module Lists {
  import opened Text

  /** `list.indexOf(x)` for a value the list holds: the position of its first occurrence. */
  function FirstIndex<T(==)>(s: seq<T>, x: T): (i: nat)
    requires x in s
    ensures i < |s| && s[i] == x && x !in s[..i]
  {
    if s[0] == x then 0
    else
      var i := 1 + FirstIndex(s[1..], x);
      assert s[..i] == [s[0]] + s[1..][..i - 1];
      i
  }

  /** `list.remove(x)`: the list without its first element equal to x; unchanged when x is absent. */
  function RemoveFirst<T(==)>(s: seq<T>, x: T): (r: seq<T>)
    ensures x in s ==> |r| == |s| - 1
    ensures x !in s ==> r == s
  {
    if x in s then
      var i := FirstIndex(s, x);
      s[..i] + s[i + 1..]
    else s
  }

  /** `remove(x)` takes exactly one copy of x away when there is one, and nothing else;
      so a value held at most once is gone afterwards. */
  lemma RemoveFirstCount<T>(s: seq<T>, x: T)
    ensures multiset(RemoveFirst(s, x)) == multiset(s) - multiset{x}
    ensures multiset(s)[x] <= 1 ==> x !in RemoveFirst(s, x)
  {
    if x in s {
      var i := FirstIndex(s, x);
      assert s == s[..i] + [x] + s[i + 1..];
    }
    assert x in RemoveFirst(s, x) ==> multiset(RemoveFirst(s, x))[x] > 0;
  }

  /** The element removed is the first occurrence: everything before and after it keeps its order. */
  lemma RemoveFirstAt<T>(s: seq<T>, x: T, i: nat)
    requires i < |s| && s[i] == x && x !in s[..i]
    ensures RemoveFirst(s, x) == s[..i] + s[i + 1..]
  {
  }

  /** Removing from a list whose front part does not hold x only touches the back part. */
  lemma RemoveFirstAppend<T>(a: seq<T>, b: seq<T>, x: T)
    requires x !in a
    ensures RemoveFirst(a + b, x) == a + RemoveFirst(b, x)
  {
    if x in b {
      var j := FirstIndex(b, x);
      var ab := a + b;
      assert ab[..|a| + j] == a + b[..j];
      assert ab[|a| + j + 1..] == b[j + 1..];
      RemoveFirstAt(ab, x, |a| + j);
    } else {
      assert x !in a + b;
    }
  }

  /** Removing x keeps every other value and adds none. */
  lemma RemoveFirstMembership<T>(s: seq<T>, x: T, y: T)
    ensures y in RemoveFirst(s, x) ==> y in s
    ensures y != x ==> (y in RemoveFirst(s, x) <==> y in s)
  {
  }

  /** A value held at most once is gone after one removal, so a second removal changes nothing. */
  lemma RemoveFirstTwice<T>(s: seq<T>, x: T)
    requires multiset(s)[x] <= 1
    ensures x !in RemoveFirst(s, x)
    ensures RemoveFirst(RemoveFirst(s, x), x) == RemoveFirst(s, x)
  {
    RemoveFirstCount(s, x);
  }

  /** `list.removeIf(a -> a.startsWith(p))`: the entries that do not start with p, in their order. */
  function RemoveWithPrefix(s: seq<string>, p: string): (r: seq<string>)
    ensures forall e :: e in r <==> e in s && !StartsWith(e, p)
    ensures |r| <= |s|
  {
    if s == [] then []
    else (if StartsWith(s[0], p) then [] else [s[0]]) + RemoveWithPrefix(s[1..], p)
  }

  /** removeIf works element by element: filtering a concatenation filters each part, keeping their order. */
  lemma {:induction false} RemoveWithPrefixAppend(a: seq<string>, b: seq<string>, p: string)
    ensures RemoveWithPrefix(a + b, p) == RemoveWithPrefix(a, p) + RemoveWithPrefix(b, p)
  {
    if a == [] {
      assert a + b == b;
    } else {
      assert (a + b)[0] == a[0];
      assert (a + b)[1..] == a[1..] + b;
      RemoveWithPrefixAppend(a[1..], b, p);
    }
  }

  /** A list with no entry starting with p is left as it is; in particular removeIf is idempotent. */
  lemma {:induction false} RemoveWithPrefixNone(s: seq<string>, p: string)
    requires forall e | e in s :: !StartsWith(e, p)
    ensures RemoveWithPrefix(s, p) == s
  {
    if s != [] {
      assert s[0] in s;
      RemoveWithPrefixNone(s[1..], p);
      assert s == [s[0]] + s[1..];
    }
  }
}

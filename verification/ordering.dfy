/**
  The `ORDER BY ... ASC` of the listing handlers: a selection sort of a
  finite set of rows by a key under a total preorder, and the two orders the
  handlers use (integer positions and names).
 */
module Ordering {
  import opened Sets

  /** `le` relates `a` and `b` one way or the other. */
  ghost predicate Comparable<K>(le: (K, K) -> bool, a: K, b: K)
  {
    le(a, b) || le(b, a)
  }

  /** `le` is transitive on the chain `a`, `b`, `c`. */
  ghost predicate Chains<K>(le: (K, K) -> bool, a: K, b: K, c: K)
  {
    le(a, b) && le(b, c) ==> le(a, c)
  }

  /** `le` compares every pair of keys and is transitive. The quantifiers
      fire only on explicit `Comparable`/`Chains` terms, so that proofs
      choose the instances they need. */
  ghost predicate TotalPreorder<K(!new)>(le: (K, K) -> bool)
  {
    && (forall a, b {:trigger Comparable(le, a, b)} :: Comparable(le, a, b))
    && (forall a, b, c {:trigger Chains(le, a, b, c)} :: Chains(le, a, b, c))
  }

  /** Every element of `r` has a key and the keys ascend along `r`. */
  predicate SortedBy<T(==), K>(r: seq<T>, key: map<T, K>, le: (K, K) -> bool)
  {
    && (forall i :: 0 <= i < |r| ==> r[i] in key)
    && (forall i, j :: 0 <= i < j < |r| ==> le(key[r[i]], key[r[j]]))
  }

  /** A non-empty finite set has an element whose key is least. */
  lemma {:induction false} MinExists<T, K(!new)>(s: set<T>, key: map<T, K>, le: (K, K) -> bool)
    requires s != {} && s <= key.Keys
    requires TotalPreorder(le)
    ensures exists x :: x in s && forall y :: y in s ==> le(key[x], key[y])
    decreases s
  {
    var x := Pick(s);
    var t := s - {x};
    if t == {} {
      assert Comparable(le, key[x], key[x]);
      forall y | y in s
        ensures le(key[x], key[y])
      {
        assert y !in t;
      }
    } else {
      MinExists(t, key, le);
      var m :| m in t && forall y :: y in t ==> le(key[m], key[y]);
      if le(key[x], key[m]) {
        forall y | y in s
          ensures le(key[x], key[y])
        {
          if y == x {
            assert Comparable(le, key[x], key[x]);
          } else {
            assert y in t;
            assert Chains(le, key[x], key[m], key[y]);
          }
        }
      } else {
        assert Comparable(le, key[x], key[m]);
        forall y | y in s
          ensures le(key[m], key[y])
        {
          if y != x {
            assert y in t;
          }
        }
      }
    }
  }

  /** The elements of `items` listed once each, in ascending key order. */
  method SortBy<T(==), K(!new)>(items: set<T>, key: map<T, K>, le: (K, K) -> bool) returns (r: seq<T>)
    requires items <= key.Keys
    requires TotalPreorder(le)
    ensures Distinct(r) && Elems(r) == items
    ensures SortedBy(r, key, le)
  {
    r := [];
    var rest := items;
    while rest != {}
      invariant rest <= items
      invariant Elems(r) + rest == items
      invariant Elems(r) !! rest
      invariant Distinct(r)
      invariant SortedBy(r, key, le)
      invariant forall i, y :: 0 <= i < |r| && y in rest ==> le(key[r[i]], key[y])
      decreases |rest|
    {
      MinExists(rest, key, le);
      var x :| x in rest && forall y :: y in rest ==> le(key[x], key[y]);
      AppendLeast(r, rest, x, key, le);
      assert Elems(r + [x]) + (rest - {x}) == items;
      r := r + [x];
      rest := rest - {x};
    }
  }

  /** One step of the selection sort: appending a least remaining element
      keeps the output sorted, repetition-free and below the rest. */
  lemma AppendLeast<T, K>(r: seq<T>, rest: set<T>, x: T, key: map<T, K>, le: (K, K) -> bool)
    requires rest <= key.Keys && x in rest
    requires Elems(r) !! rest
    requires Distinct(r)
    requires SortedBy(r, key, le)
    requires forall i, y :: 0 <= i < |r| && y in rest ==> le(key[r[i]], key[y])
    requires forall y :: y in rest ==> le(key[x], key[y])
    ensures Elems(r + [x]) == Elems(r) + {x}
    ensures Elems(r + [x]) !! rest - {x}
    ensures Distinct(r + [x])
    ensures SortedBy(r + [x], key, le)
    ensures forall i, y :: 0 <= i < |r + [x]| && y in rest - {x} ==> le(key[(r + [x])[i]], key[y])
  {
    var r' := r + [x];
    assert forall i :: 0 <= i < |r| ==> r'[i] == r[i];
    assert r'[|r|] == x;
    assert x !in Elems(r);
  }

  /** Ascending order of positions. */
  predicate IntLe(a: int, b: int)
  {
    a <= b
  }

  lemma IntLeIsTotalPreorder()
    ensures TotalPreorder(IntLe)
  {
    assert forall a, b :: Comparable(IntLe, a, b);
    assert forall a, b, c :: Chains(IntLe, a, b, c);
  }

  /** Ascending order of names: character by character, a proper prefix
      first. */
  predicate NameLe(a: string, b: string)
    decreases |a|
  {
    |a| == 0 || (|b| != 0 && (a[0] < b[0] || (a[0] == b[0] && NameLe(a[1..], b[1..]))))
  }

  lemma {:induction false} NameLeTotal(a: string, b: string)
    ensures NameLe(a, b) || NameLe(b, a)
    decreases |a|
  {
    if |a| != 0 && |b| != 0 && a[0] == b[0] {
      NameLeTotal(a[1..], b[1..]);
    }
  }

  lemma {:induction false} NameLeTransitive(a: string, b: string, c: string)
    requires NameLe(a, b) && NameLe(b, c)
    ensures NameLe(a, c)
    decreases |a|
  {
    if |a| != 0 && a[0] == b[0] && b[0] == c[0] {
      NameLeTransitive(a[1..], b[1..], c[1..]);
    }
  }

  lemma NameLeIsTotalPreorder()
    ensures TotalPreorder(NameLe)
  {
    forall a, b
      ensures Comparable(NameLe, a, b)
    {
      NameLeTotal(a, b);
    }
    forall a, b, c
      ensures Chains(NameLe, a, b, c)
    {
      if NameLe(a, b) && NameLe(b, c) {
        NameLeTransitive(a, b, c);
      }
    }
  }
}

/** Sequences up to order: how mapping, sorting and rearranging fit together. */
module Rearrange {
  import opened Order

  function Map<A, B>(f: A -> B, s: seq<A>): (r: seq<B>)
    ensures |r| == |s| && forall i :: 0 <= i < |s| ==> r[i] == f(s[i])
  {
    seq(|s|, i requires 0 <= i < |s| => f(s[i]))
  }

  /** `u` lists the elements of `s` in some order. */
  ghost predicate Reorders<T>(u: seq<T>, s: seq<T>) {
    |u| == |s| && multiset(u) == multiset(s)
  }

  lemma ReorderedMember<T>(u: seq<T>, s: seq<T>, i: nat)
    requires Reorders(u, s) && i < |u|
    ensures u[i] in s
  {
    assert u[i] in multiset(u);
  }

  lemma MapCons<A, B>(f: A -> B, s: seq<A>)
    requires s != []
    ensures Map(f, s) == [f(s[0])] + Map(f, s[1..])
  {}

  lemma {:induction false} InsertNatural<A, B>(f: A -> B, le: (A, A) -> bool, ge: (B, B) -> bool, x: A, s: seq<A>)
    requires forall i :: 0 <= i < |s| ==> le(x, s[i]) == ge(f(x), f(s[i]))
    ensures Map(f, Insert(le, x, s)) == Insert(ge, f(x), Map(f, s))
  {
    hide Map;
    if s == [] {
      assert Map(f, [x]) == [f(x)];
    } else {
      MapCons(f, s);
      if le(x, s[0]) {
        assert ([x] + s)[1..] == s;
        MapCons(f, [x] + s);
      } else {
        InsertNatural(f, le, ge, x, s[1..]);
        var t := Insert(le, x, s[1..]);
        assert ([s[0]] + t)[1..] == t;
        MapCons(f, [s[0]] + t);
        assert Map(f, s)[1..] == Map(f, s[1..]);
      }
    }
  }

  /** Sorting by a key and then mapping is mapping and then sorting, if the map keeps the keys. */
  lemma {:induction false} SortNatural<A, B>(f: A -> B, le: (A, A) -> bool, ge: (B, B) -> bool, s: seq<A>)
    requires forall a, b :: a in s && b in s ==> le(a, b) == ge(f(a), f(b))
    ensures Map(f, Sort(le, s)) == Sort(ge, Map(f, s))
  {
    hide Map;
    if s != [] {
      SortNatural(f, le, ge, s[1..]);
      MapCons(f, s);
      assert Map(f, s)[1..] == Map(f, s[1..]);
      var rest := Sort(le, s[1..]);
      forall i | 0 <= i < |rest| ensures le(s[0], rest[i]) == ge(f(s[0]), f(rest[i])) {
        assert rest[i] in multiset(rest);
        assert rest[i] in s[1..];
      }
      InsertNatural(f, le, ge, s[0], rest);
    }
  }

  lemma {:induction false} SortOfSorted<T>(le: (T, T) -> bool, s: seq<T>)
    requires SortedBy(le, s)
    ensures Sort(le, s) == s
  {
    if s != [] {
      SortOfSorted(le, s[1..]);
      if |s| > 1 { assert le(s[0], s[1]); }
      assert s == [s[0]] + s[1..];
    }
  }

  function RemoveAt<T>(t: seq<T>, j: nat): seq<T>
    requires j < |t|
  {
    t[..j] + t[j + 1..]
  }

  lemma RemovedOne<T>(t: seq<T>, j: nat)
    requires j < |t|
    ensures |RemoveAt(t, j)| == |t| - 1
    ensures multiset(t) == multiset(RemoveAt(t, j)) + multiset{t[j]}
    ensures multiset(RemoveAt(t, j)) == multiset(t) - multiset{t[j]}
  {
    assert t == t[..j] + [t[j]] + t[j + 1..];
  }

  lemma RemoveFromMap<A, B>(f: A -> B, t: seq<A>, j: nat)
    requires j < |t|
    ensures Map(f, RemoveAt(t, j)) == RemoveAt(Map(f, t), j)
  {}

  lemma Member<T>(x: T, t: seq<T>) returns (j: nat)
    requires x in multiset(t)
    ensures j < |t| && t[j] == x
  {
    j :| j < |t| && t[j] == x;
  }

  lemma ConsMultiset<T>(x: T, s: seq<T>)
    ensures multiset([x] + s) == multiset(s) + multiset{x}
  {}

  lemma {:induction false} MapMultiset<A, B>(f: A -> B, s: seq<A>, t: seq<A>)
    requires Reorders(s, t)
    ensures Reorders(Map(f, s), Map(f, t))
    decreases |s|
  {
    hide Map, RemoveAt;
    if s != [] {
      assert s[0] in multiset(s);
      var j := Member(s[0], t);
      RemovedOne(t, j);
      MultisetTail(s);
      MapMultiset(f, s[1..], RemoveAt(t, j));
      MapCons(f, s);
      ConsMultiset(f(s[0]), Map(f, s[1..]));
      RemoveFromMap(f, t, j);
      RemovedOne(Map(f, t), j);
    } else {
      assert t == [];
    }
  }

  /** A list can be put in the order in which its images are listed. */
  lemma {:induction false} Align<A, B>(f: A -> B, images: seq<B>, t: seq<A>) returns (u: seq<A>)
    requires Reorders(images, Map(f, t))
    ensures Reorders(u, t) && Map(f, u) == images
    decreases |images|
  {
    hide Map, RemoveAt;
    if images == [] {
      u := [];
      assert t == [];
      assert Map(f, u) == [];
    } else {
      assert images[0] in multiset(images);
      var j := Member(images[0], Map(f, t));
      RemovedOne(t, j);
      RemovedOne(Map(f, t), j);
      MultisetTail(images);
      RemoveFromMap(f, t, j);
      var v := Align(f, images[1..], RemoveAt(t, j));
      u := [t[j]] + v;
      ConsMultiset(t[j], v);
      assert u[1..] == v;
      MapCons(f, u);
    }
  }

  /** No two places of `s` hold the same key. */
  ghost predicate DistinctBy<T, K>(key: T -> K, s: seq<T>) {
    forall i, j :: 0 <= i < j < |s| ==> key(s[i]) != key(s[j])
  }

  lemma Twice<T>(t: seq<T>, i: nat, j: nat)
    requires i < j < |t| && t[i] == t[j]
    ensures multiset(t)[t[i]] >= 2
  {
    var a, b := t[..j], t[j + 1..];
    assert t == a + [t[j]] + b;
    assert a[i] == t[i];
    assert t[i] in multiset(a);
  }

  lemma Once<T, K>(key: T -> K, s: seq<T>, k: nat)
    requires DistinctBy(key, s) && k < |s|
    ensures multiset(s)[s[k]] == 1
  {
    var a, b := s[..k], s[k + 1..];
    assert s == a + [s[k]] + b;
    assert s[k] !in a && s[k] !in b;
  }

  /** Keys stay distinct in any order. */
  lemma DistinctInAnyOrder<T, K>(key: T -> K, s: seq<T>, t: seq<T>)
    requires DistinctBy(key, s) && Reorders(t, s)
    ensures DistinctBy(key, t)
  {
    forall i, j | 0 <= i < j < |t| ensures key(t[i]) != key(t[j]) {
      assert t[i] in multiset(t) && t[j] in multiset(t);
      var k := Member(t[i], s);
      var l := Member(t[j], s);
      if t[i] == t[j] {
        Twice(t, i, j);
        Once(key, s, k);
      }
    }
  }

  lemma SameMembers<T>(t: seq<T>, s: seq<T>)
    requires Reorders(t, s)
    ensures forall x :: x in t <==> x in s
  {
    forall x ensures x in t <==> x in s {
      assert x in t <==> x in multiset(t);
      assert x in s <==> x in multiset(s);
    }
  }
}

/** Python's ordering of strings (code point by code point, a proper prefix
    first) and the two things the plugin does with it: `sorted(...)` of a list
    of version strings and `max(...)` of a non-empty one. Dafny's own `<=` on
    sequences is the prefix order, so the lexicographic order is defined here. */
module Ordering {

  /** `a <= b` on Python strings. */
  predicate StrLe(a: string, b: string) {
    a == [] || (b != [] && (a[0] < b[0] || (a[0] == b[0] && StrLe(a[1..], b[1..]))))
  }

  lemma {:induction false} StrLeRefl(a: string)
    ensures StrLe(a, a)
  {
    if a != [] {
      StrLeRefl(a[1..]);
    }
  }

  lemma {:induction false} StrLeAntisym(a: string, b: string)
    requires StrLe(a, b) && StrLe(b, a)
    ensures a == b
  {
    if a != [] && b != [] {
      StrLeAntisym(a[1..], b[1..]);
      assert a == [a[0]] + a[1..] && b == [b[0]] + b[1..];
    }
  }

  lemma {:induction false} StrLeTrans(a: string, b: string, c: string)
    requires StrLe(a, b) && StrLe(b, c)
    ensures StrLe(a, c)
  {
    if a != [] && b != [] && c != [] && a[0] == b[0] == c[0] {
      StrLeTrans(a[1..], b[1..], c[1..]);
    }
  }

  lemma {:induction false} StrLeTotal(a: string, b: string)
    ensures StrLe(a, b) || StrLe(b, a)
  {
    if a != [] && b != [] && a[0] == b[0] {
      StrLeTotal(a[1..], b[1..]);
    }
  }

  /** Ascending in Python's order. */
  ghost predicate Sorted(s: seq<string>) {
    forall i, j :: 0 <= i < j < |s| ==> StrLe(s[i], s[j])
  }

  /** Insert `x` in front of the first element it does not exceed. */
  function Insert(x: string, s: seq<string>): (r: seq<string>)
    requires Sorted(s)
    ensures Sorted(r)
    ensures multiset(r) == multiset(s) + multiset{x}
  {
    if s == [] then [x]
    else if StrLe(x, s[0]) then
      PrependSorted(x, s);
      [x] + s
    else
      var t := Insert(x, s[1..]);
      assert s == [s[0]] + s[1..];
      StrLeTotal(x, s[0]);
      HeadBelowRest(s, x, t);
      PrependBelow(s[0], t);
      [s[0]] + t
  }

  /** An element not above the head of a sorted sequence can go in front. */
  lemma PrependSorted(x: string, s: seq<string>)
    requires Sorted(s) && s != [] && StrLe(x, s[0])
    ensures Sorted([x] + s)
  {
    forall j | 0 < j < |s| ensures StrLe(x, s[j]) {
      StrLeTrans(x, s[0], s[j]);
    }
  }

  /** An element not above any element of a sorted sequence can go in front. */
  lemma PrependBelow(y: string, t: seq<string>)
    requires Sorted(t) && forall v :: v in multiset(t) ==> StrLe(y, v)
    ensures Sorted([y] + t)
  {
    forall j | 0 <= j < |t| ensures StrLe(y, t[j]) {
      assert t[j] in multiset(t);
    }
  }

  /** The head of a sorted sequence is below every element of its tail and
      below any `x` above it. */
  lemma HeadBelowRest(s: seq<string>, x: string, t: seq<string>)
    requires Sorted(s) && s != [] && StrLe(s[0], x)
    requires multiset(t) == multiset(s[1..]) + multiset{x}
    ensures forall v :: v in multiset(t) ==> StrLe(s[0], v)
  {
    forall v | v in multiset(t) ensures StrLe(s[0], v) {
      if v != x {
        assert v in multiset(s[1..]);
        var j :| 0 <= j < |s[1..]| && s[1..][j] == v;
        assert s[j + 1] == v;
      }
    }
  }

  /** `sorted(xs)`: the same strings, in ascending order. */
  function SortStrings(xs: seq<string>): (r: seq<string>)
    ensures Sorted(r)
    ensures multiset(r) == multiset(xs)
  {
    if xs == [] then []
    else
      assert xs == [xs[0]] + xs[1..];
      Insert(xs[0], SortStrings(xs[1..]))
  }

  /** The last element of a sorted sequence is its greatest. */
  lemma LastIsGreatest(s: seq<string>, v: string)
    requires Sorted(s) && v in s
    ensures StrLe(v, s[|s| - 1])
  {
    var i :| 0 <= i < |s| && s[i] == v;
    if i == |s| - 1 {
      StrLeRefl(v);
    }
  }

  /** `max(vs)` on a non-empty list: an element no other element exceeds. */
  function MaxString(vs: seq<string>): (r: string)
    requires |vs| > 0
    ensures r in vs
    ensures forall v :: v in vs ==> StrLe(v, r)
  {
    if |vs| == 1 then
      StrLeRefl(vs[0]);
      vs[0]
    else
      var m := MaxString(vs[1..]);
      StrLeTotal(vs[0], m);
      assert vs == [vs[0]] + vs[1..];
      if StrLe(m, vs[0]) then
        assert forall v :: v in vs[1..] ==> StrLe(v, vs[0]) by {
          forall v | v in vs[1..] ensures StrLe(v, vs[0]) {
            StrLeTrans(v, m, vs[0]);
          }
        }
        StrLeRefl(vs[0]);
        vs[0]
      else
        m
  }

  /** First index of `x` in `s`. */
  function IndexOf(s: seq<string>, x: string): (i: nat)
    requires x in s
    ensures i < |s| && s[i] == x
    ensures forall k :: 0 <= k < i ==> s[k] != x
  {
    if s[0] == x then 0 else 1 + IndexOf(s[1..], x)
  }

  /** `list.remove(x)`: drops the first occurrence of `x` only. */
  function RemoveFirst(s: seq<string>, x: string): (r: seq<string>)
    requires x in s
    ensures |r| == |s| - 1
    ensures multiset(r) == multiset(s) - multiset{x}
    ensures Sorted(s) ==> Sorted(r)
  {
    var i := IndexOf(s, x);
    assert s == s[..i] + [x] + s[i + 1..];
    SortedDropAt(s, i);
    s[..i] + s[i + 1..]
  }

  /** Leaving out one element keeps a sequence sorted. */
  lemma SortedDropAt(s: seq<string>, i: nat)
    requires i < |s|
    ensures Sorted(s) ==> Sorted(s[..i] + s[i + 1..])
  {
    var r := s[..i] + s[i + 1..];
    forall a, b | Sorted(s) && 0 <= a < b < |r| ensures StrLe(r[a], r[b]) {
      var a' := if a < i then a else a + 1;
      var b' := if b < i then b else b + 1;
      assert r[a] == s[a'] && r[b] == s[b'];
    }
  }
}

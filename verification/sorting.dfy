/** A stable sort, as `list.sort(key=...)` performs it. */
module Sorting {

  ghost predicate TotalPreorder<T(!new)>(leq: (T, T) -> bool) {
    && (forall x, y :: leq(x, y) || leq(y, x))
    && forall x, y, z :: leq(x, y) && leq(y, z) ==> leq(x, z)
  }

  ghost predicate Sorted<T>(s: seq<T>, leq: (T, T) -> bool) {
    forall i, j :: 0 <= i < j < |s| ==> leq(s[i], s[j])
  }

  /** Insert after every element that may precede `x`, counting from the end. */
  function Insert<T>(s: seq<T>, x: T, leq: (T, T) -> bool): (r: seq<T>)
    ensures multiset(r) == multiset(s) + multiset{x}
  {
    if s == [] || leq(s[|s| - 1], x) then s + [x]
    else
      assert s == s[..|s| - 1] + [s[|s| - 1]];
      Insert(s[..|s| - 1], x, leq) + [s[|s| - 1]]
  }

  function SortBy<T>(s: seq<T>, leq: (T, T) -> bool): (r: seq<T>)
    ensures multiset(r) == multiset(s)
  {
    if s == [] then []
    else
      assert s == s[..|s| - 1] + [s[|s| - 1]];
      Insert(SortBy(s[..|s| - 1], leq), s[|s| - 1], leq)
  }

  lemma {:induction false} InsertKeepsSorted<T(!new)>(s: seq<T>, x: T, leq: (T, T) -> bool)
    requires TotalPreorder(leq) && Sorted(s, leq)
    ensures Sorted(Insert(s, x, leq), leq)
  {
    if s != [] && !leq(s[|s| - 1], x) {
      var front, last := s[..|s| - 1], s[|s| - 1];
      InsertKeepsSorted(front, x, leq);
      var r := Insert(front, x, leq);
      forall i | 0 <= i < |r| ensures leq(r[i], last) {
        assert r[i] in multiset(r);
        if r[i] != x { assert r[i] in front; }
      }
    }
  }

  lemma {:induction false} SortIsSorted<T(!new)>(s: seq<T>, leq: (T, T) -> bool)
    requires TotalPreorder(leq)
    ensures Sorted(SortBy(s, leq), leq)
  {
    if s != [] {
      SortIsSorted(s[..|s| - 1], leq);
      InsertKeepsSorted(SortBy(s[..|s| - 1], leq), s[|s| - 1], leq);
    }
  }

  lemma SameElements<T>(s: seq<T>, leq: (T, T) -> bool)
    ensures |SortBy(s, leq)| == |s| && forall x :: x in SortBy(s, leq) <==> x in s
  {
    assert |multiset(SortBy(s, leq))| == |multiset(s)|;
    forall x ensures x in SortBy(s, leq) <==> x in s {
      assert x in SortBy(s, leq) <==> x in multiset(SortBy(s, leq));
    }
  }

  /** The elements that the order does not tell apart from `e`, as they come. */
  function Tied<T>(s: seq<T>, e: T, leq: (T, T) -> bool): seq<T> {
    if s == [] then []
    else
      var n := |s| - 1;
      if leq(s[n], e) && leq(e, s[n]) then Tied(s[..n], e, leq) + [s[n]] else Tied(s[..n], e, leq)
  }

  lemma TiedOneMore<T>(s: seq<T>, x: T, e: T, leq: (T, T) -> bool)
    ensures Tied(s + [x], e, leq) == if leq(x, e) && leq(e, x) then Tied(s, e, leq) + [x] else Tied(s, e, leq)
  {
    assert (s + [x])[..|s|] == s;
  }

  lemma {:induction false} InsertIsStable<T(!new)>(s: seq<T>, x: T, e: T, leq: (T, T) -> bool)
    requires TotalPreorder(leq)
    ensures Tied(Insert(s, x, leq), e, leq) == Tied(s + [x], e, leq)
  {
    if s != [] && !leq(s[|s| - 1], x) {
      var front, last := s[..|s| - 1], s[|s| - 1];
      InsertIsStable(front, x, e, leq);
      TiedOneMore(front, x, e, leq);
      TiedOneMore(Insert(front, x, leq), last, e, leq);
      TiedOneMore(s, x, e, leq);
    }
  }

  /** Elements that the order does not tell apart keep the order they came in. */
  lemma {:induction false} SortIsStable<T(!new)>(s: seq<T>, e: T, leq: (T, T) -> bool)
    requires TotalPreorder(leq)
    ensures Tied(SortBy(s, leq), e, leq) == Tied(s, e, leq)
  {
    if s != [] {
      var front, last := s[..|s| - 1], s[|s| - 1];
      SortIsStable(front, e, leq);
      InsertIsStable(SortBy(front, leq), last, e, leq);
      TiedOneMore(SortBy(front, leq), last, e, leq);
    }
  }

  ghost predicate DistinctBy<T, K>(s: seq<T>, key: T -> K) {
    forall i, j :: 0 <= i < j < |s| ==> key(s[i]) != key(s[j])
  }

  lemma {:induction false} InsertKeepsDistinct<T, K>(s: seq<T>, x: T, leq: (T, T) -> bool, key: T -> K)
    requires DistinctBy(s, key) && forall i :: 0 <= i < |s| ==> key(s[i]) != key(x)
    ensures DistinctBy(Insert(s, x, leq), key)
  {
    if s != [] && !leq(s[|s| - 1], x) {
      var front, last := s[..|s| - 1], s[|s| - 1];
      InsertKeepsDistinct(front, x, leq, key);
      var r := Insert(front, x, leq);
      forall i | 0 <= i < |r| ensures key(r[i]) != key(last) {
        assert r[i] in multiset(r);
        if r[i] != x {
          assert r[i] in front;
        }
      }
    }
  }

  lemma {:induction false} SortKeepsDistinct<T, K>(s: seq<T>, leq: (T, T) -> bool, key: T -> K)
    requires DistinctBy(s, key)
    ensures DistinctBy(SortBy(s, leq), key)
  {
    if s != [] {
      var front, last := s[..|s| - 1], s[|s| - 1];
      SortKeepsDistinct(front, leq, key);
      var r := SortBy(front, leq);
      forall i | 0 <= i < |r| ensures key(r[i]) != key(last) {
        assert r[i] in multiset(r);
        assert r[i] in front;
      }
      InsertKeepsDistinct(r, last, leq, key);
    }
  }

  // ---- text by code points ------------------------------------------------------------

  function TextLeq(a: string, b: string): bool {
    a == "" || (b != "" && (a[0] < b[0] || (a[0] == b[0] && TextLeq(a[1..], b[1..]))))
  }

  /** Text `a` is not after `b` when it begins `b`, or has the smaller character at the first difference. */
  lemma {:induction false} TextLeqIs(a: string, b: string)
    ensures TextLeq(a, b) <==> a <= b || exists i :: 0 <= i < |a| && i < |b| && a[..i] == b[..i] && a[i] < b[i]
  {
    if a != "" && b != "" {
      TextLeqIs(a[1..], b[1..]);
      if a[0] == b[0] {
        if i :| 0 <= i < |a| - 1 && i < |b| - 1 && a[1..][..i] == b[1..][..i] && a[1..][i] < b[1..][i] {
          assert a[..i + 1] == [a[0]] + a[1..][..i] && b[..i + 1] == [b[0]] + b[1..][..i];
          assert a[i + 1] < b[i + 1];
        }
        if i :| 0 <= i < |a| && i < |b| && a[..i] == b[..i] && a[i] < b[i] {
          assert i > 0 && a[1..][..i - 1] == a[..i][1..] && b[1..][..i - 1] == b[..i][1..];
          assert a[1..][i - 1] < b[1..][i - 1];
        }
        assert a[1..] <= b[1..] <==> a <= b by {
          if a[1..] <= b[1..] { assert a == [a[0]] + a[1..] && b == [b[0]] + b[1..]; }
          if a <= b { assert b[..|a|] == a && b[1..][..|a| - 1] == a[1..]; }
        }
      } else if a[0] < b[0] {
        assert a[..0] == b[..0];
      } else {
        forall i | 0 <= i < |a| && i < |b| && a[i] < b[i] ensures a[..i] != b[..i] {
          if i > 0 { assert a[..i][0] != b[..i][0]; }
        }
      }
    }
  }

  lemma {:induction false} TextTotal(a: string, b: string)
    ensures TextLeq(a, b) || TextLeq(b, a)
  {
    if a != "" && b != "" { TextTotal(a[1..], b[1..]); }
  }

  lemma {:induction false} TextTransitive(a: string, b: string, c: string)
    requires TextLeq(a, b) && TextLeq(b, c)
    ensures TextLeq(a, c)
  {
    if a != "" && a[0] == b[0] && b[0] == c[0] { TextTransitive(a[1..], b[1..], c[1..]); }
  }

  /** Comparing by text, or by a number first, is a total preorder. */
  lemma ByTextOrders<T(!new)>(leq: (T, T) -> bool, rank: T -> int, text: T -> string)
    requires forall x, y :: leq(x, y) <==> rank(x) < rank(y) || (rank(x) == rank(y) && TextLeq(text(x), text(y)))
    ensures TotalPreorder(leq)
  {
    forall x, y ensures leq(x, y) || leq(y, x) { TextTotal(text(x), text(y)); }
    forall x, y, z | leq(x, y) && leq(y, z) ensures leq(x, z) {
      if rank(x) == rank(y) == rank(z) { TextTransitive(text(x), text(y), text(z)); }
    }
  }
}

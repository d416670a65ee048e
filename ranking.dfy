/** Order-keeping filters and the stable sort by distance that retrieval
    applies to lists of merged documents (`list.sort(key=...)` and list
    comprehensions). */
module Ranking {
  import opened Docs

  /** `[d for d in s if p(d)]` */
  function Filter(s: seq<ScoredDoc>, p: ScoredDoc -> bool): (r: seq<ScoredDoc>)
    ensures |r| <= |s|
    ensures forall x :: x in r <==> x in s && p(x)
  {
    if s == [] then []
    else
      var init := s[..|s| - 1];
      var last := s[|s| - 1];
      assert s == init + [last];
      var kept := Filter(init, p);
      if p(last) then kept + [last] else kept
  }

  /** One more entry of `s` through the filter. */
  lemma FilterPrefixStep(s: seq<ScoredDoc>, j: nat, p: ScoredDoc -> bool)
    requires j < |s|
    ensures Filter(s[..j + 1], p) == Filter(s[..j], p) + (if p(s[j]) then [s[j]] else [])
  {
    assert s[..j + 1][..j] == s[..j];
  }

  /** No two entries share a document id. */
  predicate NoDupIds(s: seq<ScoredDoc>) {
    forall i, j :: 0 <= i < j < |s| ==> s[i].id != s[j].id
  }

  lemma ConcatNoDupIds(a: seq<ScoredDoc>, b: seq<ScoredDoc>)
    requires NoDupIds(a) && NoDupIds(b)
    requires forall x, y :: x in a && y in b ==> x.id != y.id
    ensures NoDupIds(a + b)
  {
    var f := a + b;
    forall i, j | 0 <= i < j < |f|
      ensures f[i].id != f[j].id
    {
      if j < |a| {
        assert f[i] == a[i] && f[j] == a[j];
      } else if i >= |a| {
        assert f[i] == b[i - |a|] && f[j] == b[j - |a|];
      } else {
        assert f[i] == a[i] && f[j] == b[j - |a|];
        assert f[i] in a && f[j] in b;
      }
    }
  }

  /** Non-decreasing by distance. */
  predicate Sorted(s: seq<ScoredDoc>) {
    forall i, j :: 0 <= i < j < |s| ==> s[i].distance <= s[j].distance
  }

  lemma {:induction false} FilterNoDupIds(s: seq<ScoredDoc>, p: ScoredDoc -> bool)
    requires NoDupIds(s)
    ensures NoDupIds(Filter(s, p))
  {
    if s != [] {
      var init := s[..|s| - 1];
      var last := s[|s| - 1];
      assert s == init + [last];
      FilterNoDupIds(init, p);
      var kept := Filter(init, p);
      forall i | 0 <= i < |kept|
        ensures kept[i].id != last.id
      {
        assert kept[i] in init;
        var j :| 0 <= j < |init| && init[j] == kept[i];
        assert s[j] == kept[i];
      }
    }
  }

  /** Where a stable insertion puts `x`: before the first entry that is at
      least as far as `x`. */
  function InsertPos(x: ScoredDoc, t: seq<ScoredDoc>): (k: nat)
    ensures k <= |t|
    ensures forall i :: 0 <= i < k ==> t[i].distance < x.distance
    ensures k < |t| ==> x.distance <= t[k].distance
  {
    if t == [] || x.distance <= t[0].distance then 0
    else 1 + InsertPos(x, t[1..])
  }

  function Insert(x: ScoredDoc, t: seq<ScoredDoc>): (r: seq<ScoredDoc>)
    requires Sorted(t)
    ensures Sorted(r)
    ensures multiset(r) == multiset(t) + multiset{x}
  {
    var k := InsertPos(x, t);
    SpliceSorted(x, t, k);
    SpliceMultiset(x, t, k);
    t[..k] + ([x] + t[k..])
  }

  /** `x` put at a position where everything before is closer and the
      next entry is no closer keeps the list sorted. */
  lemma SpliceSorted(x: ScoredDoc, t: seq<ScoredDoc>, k: nat)
    requires Sorted(t) && k <= |t|
    requires forall i :: 0 <= i < k ==> t[i].distance < x.distance
    requires k < |t| ==> x.distance <= t[k].distance
    ensures Sorted(t[..k] + ([x] + t[k..]))
  {
    var r := t[..k] + ([x] + t[k..]);
    forall i, j | 0 <= i < j < |r|
      ensures r[i].distance <= r[j].distance
    {
      if j < k {
        assert r[i] == t[i] && r[j] == t[j];
      } else if j == k {
        assert r[i] == t[i];
      } else if i == k {
        assert r[j] == t[j - 1];
      } else if i < k {
        assert r[i] == t[i] && r[j] == t[j - 1];
      } else {
        assert r[i] == t[i - 1] && r[j] == t[j - 1];
      }
    }
  }

  lemma SpliceMultiset(x: ScoredDoc, t: seq<ScoredDoc>, k: nat)
    requires k <= |t|
    ensures multiset(t[..k] + ([x] + t[k..])) == multiset(t) + multiset{x}
  {
    assert t == t[..k] + t[k..];
  }

  /** The stable sort of `s` by distance: `sorted(s, key=distance)`. */
  function SortByDistance(s: seq<ScoredDoc>): (r: seq<ScoredDoc>)
    ensures |r| == |s|
    ensures Sorted(r)
    ensures multiset(r) == multiset(s)
    ensures forall x :: x in r <==> x in s
  {
    if s == [] then []
    else
      assert s == [s[0]] + s[1..];
      var r := Insert(s[0], SortByDistance(s[1..]));
      assert forall x :: x in r <==> x in multiset(r);
      r
  }

  lemma InsertNoDupIds(x: ScoredDoc, t: seq<ScoredDoc>)
    requires Sorted(t) && NoDupIds(t)
    requires forall y :: y in t ==> y.id != x.id
    ensures NoDupIds(Insert(x, t))
  {
    var k := InsertPos(x, t);
    var r := t[..k] + ([x] + t[k..]);
    assert Insert(x, t) == r;
    forall i, j | 0 <= i < j < |r|
      ensures r[i].id != r[j].id
    {
      if j < k {
        assert r[i] == t[i] && r[j] == t[j];
      } else if j == k {
        assert r[i] == t[i];
      } else if i == k {
        assert r[j] == t[j - 1];
      } else if i < k {
        assert r[i] == t[i] && r[j] == t[j - 1];
      } else {
        assert r[i] == t[i - 1] && r[j] == t[j - 1];
      }
    }
  }

  /** Sorting never makes two entries share an id. */
  lemma {:induction false} SortNoDupIds(s: seq<ScoredDoc>)
    requires NoDupIds(s)
    ensures NoDupIds(SortByDistance(s))
  {
    if s != [] {
      var rest := s[1..];
      assert NoDupIds(rest);
      SortNoDupIds(rest);
      forall y | y in SortByDistance(rest)
        ensures y.id != s[0].id
      {
        var j :| 0 <= j < |rest| && rest[j] == y;
        assert s[j + 1] == y;
      }
      InsertNoDupIds(s[0], SortByDistance(rest));
    }
  }

  /** The entries of `s` whose distance is `d`, in order. */
  function AtDistance(s: seq<ScoredDoc>, d: real): seq<ScoredDoc> {
    if s == [] then []
    else (if s[0].distance == d then [s[0]] else []) + AtDistance(s[1..], d)
  }

  lemma {:induction false} AtDistanceAppend(a: seq<ScoredDoc>, b: seq<ScoredDoc>, d: real)
    ensures AtDistance(a + b, d) == AtDistance(a, d) + AtDistance(b, d)
  {
    if a == [] {
      assert a + b == b;
    } else {
      var head := if a[0].distance == d then [a[0]] else [];
      assert (a + b)[0] == a[0];
      assert (a + b)[1..] == a[1..] + b;
      AtDistanceAppend(a[1..], b, d);
      assert AtDistance(a + b, d) == head + (AtDistance(a[1..], d) + AtDistance(b, d));
      assert AtDistance(a, d) == head + AtDistance(a[1..], d);
    }
  }

  lemma {:induction false} AtDistanceNone(s: seq<ScoredDoc>, d: real)
    requires forall i :: 0 <= i < |s| ==> s[i].distance != d
    ensures AtDistance(s, d) == []
  {
    if s != [] {
      AtDistanceNone(s[1..], d);
    }
  }

  lemma AtDistanceCons(x: ScoredDoc, s: seq<ScoredDoc>, d: real)
    ensures AtDistance([x] + s, d) == (if x.distance == d then [x] else []) + AtDistance(s, d)
  {
    assert ([x] + s)[1..] == s;
  }

  /** Inserting `x` into a sorted list adds it to the entries at its own
      distance, in front of them, and changes no other distance's entries. */
  lemma InsertAtDistance(x: ScoredDoc, t: seq<ScoredDoc>, d: real)
    requires Sorted(t)
    ensures AtDistance(Insert(x, t), d) == (if x.distance == d then [x] else []) + AtDistance(t, d)
  {
    var k := InsertPos(x, t);
    var lo, hi := t[..k], t[k..];
    forall i | 0 <= i < |lo|
      ensures lo[i].distance < x.distance
    {
      assert lo[i] == t[i];
    }
    SpliceAtDistance(lo, x, hi, d);
    assert lo + hi == t;
  }

  /** The splice in the middle of `InsertAtDistance`, on plain lists. */
  lemma SpliceAtDistance(lo: seq<ScoredDoc>, x: ScoredDoc, hi: seq<ScoredDoc>, d: real)
    requires forall i :: 0 <= i < |lo| ==> lo[i].distance < x.distance
    ensures AtDistance(lo + ([x] + hi), d) == (if x.distance == d then [x] else []) + AtDistance(lo + hi, d)
  {
    AtDistanceAppend(lo, [x] + hi, d);
    AtDistanceAppend(lo, hi, d);
    AtDistanceCons(x, hi, d);
    if x.distance == d {
      AtDistanceNone(lo, d);
      assert AtDistance(lo, d) + ([x] + AtDistance(hi, d)) == [x] + (AtDistance(lo, d) + AtDistance(hi, d));
    } else {
      assert [] + AtDistance(hi, d) == AtDistance(hi, d);
    }
  }

  /** The sort is stable: entries at equal distance keep their order. */
  lemma {:induction false} SortIsStable(s: seq<ScoredDoc>, d: real)
    ensures AtDistance(SortByDistance(s), d) == AtDistance(s, d)
  {
    if s != [] {
      SortIsStable(s[1..], d);
      InsertAtDistance(s[0], SortByDistance(s[1..]), d);
    }
  }
}

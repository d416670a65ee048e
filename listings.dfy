/** The listing numbers an analysis mentions: every capture of
    `(?:Listing\s+)?(\d{1,2}\.\d{2})` found by a left-to-right scan of
    non-overlapping matches, then made unique and sorted. */
module Listings {
  import opened Text

  /** The length of the match of `\d{1,2}\.\d{2}` at `p`, 0 when there is
      none: two leading digits are tried first, then one. */
  function NumberMatchLen(s: string, p: nat): (n: nat)
    ensures n == 0 || n == 4 || n == 5
    ensures n > 0 ==> p + n <= |s|
  {
    if p + 5 <= |s| && IsDigit(s[p]) && IsDigit(s[p + 1]) && s[p + 2] == '.' && IsDigit(s[p + 3]) && IsDigit(s[p + 4]) then 5
    else if p + 4 <= |s| && IsDigit(s[p]) && s[p + 1] == '.' && IsDigit(s[p + 2]) && IsDigit(s[p + 3]) then 4
    else 0
  }

  /** The optional prefix `Listing\s+` matches at `p` and is followed by a
      number. */
  predicate PrefixedMatch(s: string, p: nat) {
    && StartsAt(s, p, "Listing")
    && SpaceRunEnd(s, p + 7) > p + 7
    && NumberMatchLen(s, SpaceRunEnd(s, p + 7)) > 0
  }

  /** A listing number as the pattern captures it: one or two digits, a
      dot, two digits. */
  predicate IsListingNumber(t: string) {
    || (|t| == 4 && IsDigit(t[0]) && t[1] == '.' && IsDigit(t[2]) && IsDigit(t[3]))
    || (|t| == 5 && IsDigit(t[0]) && IsDigit(t[1]) && t[2] == '.' && IsDigit(t[3]) && IsDigit(t[4]))
  }

  /** `re.findall` from position `from` on. */
  function ScanFrom(s: string, from: nat): (r: seq<string>)
    ensures forall t :: t in r ==> IsListingNumber(t)
    decreases |s| - from
  {
    if from >= |s| then []
    else if PrefixedMatch(s, from) then
      var q := SpaceRunEnd(s, from + 7);
      var n := NumberMatchLen(s, q);
      [s[q..q + n]] + ScanFrom(s, q + n)
    else if NumberMatchLen(s, from) > 0 then
      var n := NumberMatchLen(s, from);
      [s[from..from + n]] + ScanFrom(s, from + n)
    else ScanFrom(s, from + 1)
  }

  /** `re.findall(r"(?:Listing\s+)?(\d{1,2}\.\d{2})", s)` */
  function FindListingNumbers(s: string): seq<string> {
    ScanFrom(s, 0)
  }

  /** The same scan for the bare number pattern, without the prefix. */
  function PlainScanFrom(s: string, from: nat): seq<string>
    decreases |s| - from
  {
    if from >= |s| then []
    else if NumberMatchLen(s, from) > 0 then
      var n := NumberMatchLen(s, from);
      [s[from..from + n]] + PlainScanFrom(s, from + n)
    else PlainScanFrom(s, from + 1)
  }

  /** Positions where no number starts are skipped. */
  lemma {:induction false} PlainScanSkip(s: string, a: nat, b: nat)
    requires a <= b <= |s|
    requires forall k :: a <= k < b ==> NumberMatchLen(s, k) == 0
    ensures PlainScanFrom(s, a) == PlainScanFrom(s, b)
    decreases b - a
  {
    if a < b {
      PlainScanSkip(s, a + 1, b);
    }
  }

  /** The optional `Listing ` prefix never changes what is captured: the
      scan captures exactly what a scan for the bare number captures. */
  /** No number match starts inside the literal prefix or the blanks after it. */
  lemma NoNumberInPrefix(s: string, from: nat)
    requires PrefixedMatch(s, from)
    ensures forall k :: from <= k < SpaceRunEnd(s, from + 7) ==> NumberMatchLen(s, k) == 0
  {
    var q := SpaceRunEnd(s, from + 7);
    assert s[from..from + 7] == "Listing";
    forall k | from <= k < q
      ensures NumberMatchLen(s, k) == 0
    {
      if k < from + 7 {
        assert s[k] == "Listing"[k - from];
      } else {
        assert IsSpace(s[k]);
      }
    }
  }

  /** Where the prefixed alternative matches, the scan takes the number
      after the prefix and continues after it. */
  lemma PrefixedStep(s: string, from: nat)
    requires from < |s| && PrefixedMatch(s, from)
    ensures ScanFrom(s, from) ==
            [s[SpaceRunEnd(s, from + 7)..SpaceRunEnd(s, from + 7) + NumberMatchLen(s, SpaceRunEnd(s, from + 7))]]
            + ScanFrom(s, SpaceRunEnd(s, from + 7) + NumberMatchLen(s, SpaceRunEnd(s, from + 7)))
  {
  }

  /** From the same position, the scan without the prefixed alternative
      skips the prefix and takes the same number. */
  lemma PlainPrefixedStep(s: string, from: nat)
    requires from < |s| && PrefixedMatch(s, from)
    ensures PlainScanFrom(s, from) ==
            [s[SpaceRunEnd(s, from + 7)..SpaceRunEnd(s, from + 7) + NumberMatchLen(s, SpaceRunEnd(s, from + 7))]]
            + PlainScanFrom(s, SpaceRunEnd(s, from + 7) + NumberMatchLen(s, SpaceRunEnd(s, from + 7)))
  {
    PlainSkipsPrefix(s, from);
    assert NumberMatchLen(s, SpaceRunEnd(s, from + 7)) > 0;
  }

  lemma PlainSkipsPrefix(s: string, from: nat)
    requires PrefixedMatch(s, from)
    ensures PlainScanFrom(s, from) == PlainScanFrom(s, SpaceRunEnd(s, from + 7))
  {
    NoNumberInPrefix(s, from);
    PlainScanSkip(s, from, SpaceRunEnd(s, from + 7));
  }

  lemma {:induction false} PrefixIsImmaterial(s: string, from: nat)
    ensures ScanFrom(s, from) == PlainScanFrom(s, from)
    decreases |s| - from
  {
    if from < |s| {
      if PrefixedMatch(s, from) {
        var q := SpaceRunEnd(s, from + 7);
        PrefixedStep(s, from);
        PlainPrefixedStep(s, from);
        PrefixIsImmaterial(s, q + NumberMatchLen(s, q));
      } else if NumberMatchLen(s, from) > 0 {
        PrefixIsImmaterial(s, from + NumberMatchLen(s, from));
      } else {
        PrefixIsImmaterial(s, from + 1);
      }
    }
  }

  // ---------------------------------------------------------------------
  // `sorted(set(tokens))`

  predicate StrictlySorted(r: seq<string>) {
    forall i, j :: 0 <= i < j < |r| ==> LexLess(r[i], r[j])
  }

  /** Adds `x` to a strictly sorted list unless it is already there. */
  function InsertUnique(x: string, r: seq<string>): (r': seq<string>)
    requires StrictlySorted(r)
    ensures StrictlySorted(r')
    ensures forall y :: y in r' <==> y == x || y in r
  {
    if r == [] then [x]
    else if x == r[0] then r
    else if LexLess(x, r[0]) then
      assert forall j :: 0 <= j < |r| ==> LexLess(x, r[j]) by {
        forall j | 0 <= j < |r|
          ensures LexLess(x, r[j])
        {
          if j > 0 {
            LexLessTransitive(x, r[0], r[j]);
          }
        }
      }
      [x] + r
    else
      LexLessTotal(x, r[0]);
      var rest := InsertUnique(x, r[1..]);
      assert forall y :: y in rest ==> LexLess(r[0], y) by {
        forall y | y in rest
          ensures LexLess(r[0], y)
        {
          if y != x {
            var j :| 0 <= j < |r[1..]| && r[1..][j] == y;
            assert r[j + 1] == y;
          }
        }
      }
      [r[0]] + rest
  }

  /** The distinct tokens in increasing order. */
  function SortedUnique(xs: seq<string>): (r: seq<string>)
    ensures StrictlySorted(r)
    ensures forall y :: y in r <==> y in xs
  {
    if xs == [] then []
    else InsertUnique(xs[0], SortedUnique(xs[1..]))
  }

  /** A strictly sorted list is determined by its elements: however the set
      is iterated before sorting, the result is the same. */
  lemma {:induction false} StrictlySortedUnique(a: seq<string>, b: seq<string>)
    requires StrictlySorted(a) && StrictlySorted(b)
    requires forall y :: y in a <==> y in b
    ensures a == b
    decreases |a|
  {
    assert a != [] ==> a[0] in a;
    assert b != [] ==> b[0] in b;
    if a != [] && b != [] {
      if a[0] != b[0] {
        assert b[0] in a;
        var i :| 0 <= i < |a| && a[i] == b[0];
        assert a[0] in b;
        var j :| 0 <= j < |b| && b[j] == a[0];
        assert LexLess(a[0], b[0]);
        assert LexLess(b[0], a[0]);
        LexLessAsymmetric(a[0], b[0]);
      }
      forall y
        ensures y in a[1..] <==> y in b[1..]
      {
        if y in a[1..] {
          var i :| 0 <= i < |a[1..]| && a[1..][i] == y;
          assert a[i + 1] == y && LexLess(a[0], y);
          LexLessIrreflexive(y);
          assert y in b;
          var j :| 0 <= j < |b| && b[j] == y;
          assert j != 0 && b[1..][j - 1] == y;
        }
        if y in b[1..] {
          var j :| 0 <= j < |b[1..]| && b[1..][j] == y;
          assert b[j + 1] == y && LexLess(b[0], y);
          LexLessIrreflexive(y);
          assert y in a;
          var i :| 0 <= i < |a| && a[i] == y;
          assert i != 0 && a[1..][i - 1] == y;
        }
      }
      StrictlySortedUnique(a[1..], b[1..]);
      assert a == [a[0]] + a[1..] && b == [b[0]] + b[1..];
    }
  }

  /** What `matched_listings` is for an analysis text. */
  function MatchedListings(analysis: string): seq<string> {
    SortedUnique(FindListingNumbers(analysis))
  }

  /** The matched listings are distinct, sorted, listing-number shaped, and
      exactly the numbers the scan finds. */
  lemma MatchedListingsSpec(analysis: string)
    ensures StrictlySorted(MatchedListings(analysis))
    ensures forall t :: t in MatchedListings(analysis) <==> t in FindListingNumbers(analysis)
    ensures forall t :: t in MatchedListings(analysis) ==> IsListingNumber(t)
    ensures forall t :: t in MatchedListings(analysis) <==> t in PlainScanFrom(analysis, 0)
  {
    PrefixIsImmaterial(analysis, 0);
  }

  /** "Listing 2.02" yields its number alone; "123.45" yields
      "23.45", the match starting where two digits fit. */
  lemma ScanExamples()
    ensures FindListingNumbers("Listing 2.02") == ["2.02"]
    ensures FindListingNumbers("123.45") == ["23.45"]
  {
    var s := "Listing 2.02";
    assert s[..7] == "Listing";
    assert SpaceRunEnd(s, 7) == 8 by {
      assert IsSpace(s[7]) && !IsSpace(s[8]);
    }
    assert NumberMatchLen(s, 8) == 4;
    assert s[8..12] == "2.02";
    assert ScanFrom(s, 12) == [];
    var t := "123.45";
    assert NumberMatchLen(t, 0) == 0;
    assert !StartsAt(t, 0, "Listing");
    assert NumberMatchLen(t, 1) == 5;
    assert t[1..6] == "23.45";
    assert ScanFrom(t, 6) == [];
  }
}

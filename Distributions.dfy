/** The per-window list of the language model: for each character seen after
    a window, how often it was seen (count), its probability (p) and the
    running sum of probabilities up to and including it (cp). */
module Distributions {

  /** One entry of a window's list. */
  datatype CharData = CharData(chr: char, count: nat, p: real, cp: real)

  /** A window's list, in list order. */
  type Dist = seq<CharData>

  /** The characters that have an entry in the list. */
  function Chars(d: Dist): set<char>
  {
    set i | 0 <= i < |d| :: d[i].chr
  }

  /** Sum of all counts in the list. */
  function Total(d: Dist): nat
  {
    if d == [] then 0 else d[0].count + Total(d[1..])
  }

  /** How often character c has been counted in the list. */
  function CountOf(d: Dist, c: char): nat
  {
    if d == [] then 0 else (if d[0].chr == c then d[0].count else 0) + CountOf(d[1..], c)
  }

  /** Every entry has been counted at least once. */
  predicate Positive(d: Dist)
  {
    forall i :: 0 <= i < |d| ==> d[i].count >= 1
  }

  /** No character has two entries. */
  predicate DistinctChars(d: Dist)
  {
    forall i, j :: 0 <= i < j < |d| ==> d[i].chr != d[j].chr
  }

  /** The shape of a list produced by counting: non-empty, positive counts, one entry per character. */
  predicate Tallied(d: Dist)
  {
    |d| > 0 && Positive(d) && DistinctChars(d)
  }

  /** Two lists with the same characters and counts at every position. */
  predicate SameCounts(a: Dist, b: Dist)
  {
    |a| == |b| && forall i :: 0 <= i < |a| ==> a[i].chr == b[i].chr && a[i].count == b[i].count
  }

  lemma {:induction false} CharsCons(x: CharData, d: Dist)
    ensures Chars([x] + d) == {x.chr} + Chars(d)
  {
    var e := [x] + d;
    forall c | c in Chars(e) ensures c in {x.chr} + Chars(d) {
      var i :| 0 <= i < |e| && e[i].chr == c;
      if i > 0 {
        assert e[i] == d[i - 1];
        assert c in Chars(d);
      }
    }
    forall c | c in Chars(d) ensures c in Chars(e) {
      var i :| 0 <= i < |d| && d[i].chr == c;
      assert e[i + 1] == d[i];
    }
    assert e[0] == x;
  }

  /** Counting character c: its entry's count goes up by one, or, when c has
      no entry, a new entry with count 1 is added (at the end of the list). */
  function Update(d: Dist, c: char): (r: Dist)
    ensures |r| > 0
    ensures Total(r) == Total(d) + 1
    ensures forall x :: CountOf(r, x) == CountOf(d, x) + (if x == c then 1 else 0)
  {
    if d == [] then [CharData(c, 1, 0.0, 0.0)]
    else if d[0].chr == c then
      var r := [d[0].(count := d[0].count + 1)] + d[1..];
      assert r[1..] == d[1..];
      r
    else
      var r := [d[0]] + Update(d[1..], c);
      assert r[1..] == Update(d[1..], c);
      r
  }

  lemma {:induction false} DistinctCons(x: CharData, d: Dist)
    requires DistinctChars(d) && x.chr !in Chars(d)
    ensures DistinctChars([x] + d)
  {
    var e := [x] + d;
    forall i, j | 0 <= i < j < |e| ensures e[i].chr != e[j].chr {
      assert e[j] == d[j - 1];
      if i > 0 {
        assert e[i] == d[i - 1];
      } else {
        assert d[j - 1].chr in Chars(d);
      }
    }
  }

  /** Counting c gives c an entry and keeps the other characters' entries. */
  lemma {:induction false} UpdateChars(d: Dist, c: char)
    ensures Chars(Update(d, c)) == Chars(d) + {c}
  {
    var r := Update(d, c);
    if d == [] {
      CharsCons(r[0], []);
      assert r == [r[0]] + [];
    } else {
      assert d == [d[0]] + d[1..];
      CharsCons(d[0], d[1..]);
      if d[0].chr == c {
        assert r == [r[0]] + d[1..];
        CharsCons(r[0], d[1..]);
      } else {
        var rest := Update(d[1..], c);
        assert r == [d[0]] + rest;
        UpdateChars(d[1..], c);
        CharsCons(d[0], rest);
      }
    }
  }

  /** Counting keeps a list counted: positive counts, one entry per character. */
  lemma {:induction false} UpdateTallied(d: Dist, c: char)
    requires Positive(d) && DistinctChars(d)
    ensures Tallied(Update(d, c))
  {
    var r := Update(d, c);
    if d != [] {
      assert d == [d[0]] + d[1..];
      forall j | 0 <= j < |d[1..]| ensures d[1..][j].chr != d[0].chr && d[1..][j].count >= 1 {
        assert d[1..][j] == d[j + 1];
      }
      if d[0].chr == c {
        assert r == [r[0]] + d[1..];
        CharsCons(d[0], d[1..]);
        DistinctCons(r[0], d[1..]);
      } else {
        var rest := Update(d[1..], c);
        assert r == [d[0]] + rest;
        UpdateTallied(d[1..], c);
        UpdateChars(d[1..], c);
        CharsCons(d[0], d[1..]);
        DistinctCons(d[0], rest);
      }
    }
  }

  /** In a list with positive counts, a character has an entry exactly when it
      has been counted. */
  lemma {:induction false} CharsCountOf(d: Dist, c: char)
    requires Positive(d)
    ensures c in Chars(d) <==> CountOf(d, c) > 0
  {
    if d != [] {
      assert d == [d[0]] + d[1..];
      CharsCons(d[0], d[1..]);
      assert Positive(d[1..]) by {
        forall j | 0 <= j < |d[1..]| ensures d[1..][j].count >= 1 {
          assert d[1..][j] == d[j + 1];
        }
      }
      CharsCountOf(d[1..], c);
    }
  }

  lemma {:induction false} TotalSnoc(d: Dist, x: CharData)
    ensures Total(d + [x]) == Total(d) + x.count
  {
    if d != [] {
      assert (d + [x])[1..] == d[1..] + [x];
      TotalSnoc(d[1..], x);
    }
  }

  /** A counted list has a positive total: at least one per entry. */
  lemma {:induction false} TallyTotal(d: Dist)
    requires Positive(d)
    ensures Total(d) >= |d|
  {
    if d != [] {
      TallyTotal(d[1..]);
    }
  }

  /** Totals, per-character counts and character sets depend only on characters and counts. */
  lemma {:induction false} SameCountsAgree(a: Dist, b: Dist)
    requires SameCounts(a, b)
    ensures Total(a) == Total(b)
    ensures forall c :: CountOf(a, c) == CountOf(b, c)
    ensures Chars(a) == Chars(b)
  {
    if a != [] {
      SameCountsAgree(a[1..], b[1..]);
      CharsCons(a[0], a[1..]);
      CharsCons(b[0], b[1..]);
      assert a == [a[0]] + a[1..];
      assert b == [b[0]] + b[1..];
    }
  }

  /** Running sum of count/total over the first k entries, accumulated in list order. */
  function RunningP(d: Dist, total: nat, k: nat): real
    requires total > 0 && k <= |d|
  {
    if k == 0 then 0.0 else RunningP(d, total, k - 1) + d[k - 1].count as real / total as real
  }

  /** The list with p and cp recomputed from the counts; left as it is when the total is 0. */
  function Normalized(d: Dist): (r: Dist)
    ensures SameCounts(r, d)
  {
    var t := Total(d);
    if t == 0 then d
    else seq(|d|, i requires 0 <= i < |d| =>
               CharData(d[i].chr, d[i].count, d[i].count as real / t as real, RunningP(d, t, i + 1)))
  }

  /** A list as it stands after training: counted, and p and cp consistent with the counts. */
  predicate WellFormed(d: Dist)
  {
    Tallied(d) && Normalized(d) == d
  }

  /** Shares of a common positive total add up like their numerators. */
  lemma AddShares(a: real, b: real, t: real)
    requires t > 0.0
    ensures a / t + b / t == (a + b) / t
  {
  }

  /** The running sum over the first k entries is their share of the total. */
  lemma {:induction false} RunningPShare(d: Dist, t: nat, k: nat)
    requires t > 0 && k <= |d|
    ensures RunningP(d, t, k) == Total(d[..k]) as real / t as real
  {
    if k > 0 {
      RunningPShare(d, t, k - 1);
      assert d[..k] == d[..k - 1] + [d[k - 1]];
      TotalSnoc(d[..k - 1], d[k - 1]);
      AddShares(Total(d[..k - 1]) as real, d[k - 1].count as real, t as real);
    }
  }

  lemma {:induction false} RunningPMonotone(d: Dist, t: nat, i: nat, j: nat)
    requires t > 0 && i <= j <= |d|
    ensures RunningP(d, t, i) <= RunningP(d, t, j)
  {
    if i < j {
      RunningPMonotone(d, t, i, j - 1);
      assert d[j - 1].count as real / t as real >= 0.0;
    }
  }

  lemma {:induction false} RunningPSameCounts(a: Dist, b: Dist, t: nat, k: nat)
    requires SameCounts(a, b) && t > 0 && k <= |a|
    ensures RunningP(a, t, k) == RunningP(b, t, k)
  {
    if k > 0 {
      RunningPSameCounts(a, b, t, k - 1);
    }
  }

  lemma {:induction false} NormalizedAt(d: Dist, i: nat)
    requires Total(d) > 0 && i < |d|
    ensures Normalized(d)[i] ==
      CharData(d[i].chr, d[i].count, d[i].count as real / Total(d) as real, RunningP(d, Total(d), i + 1))
  {
  }

  /** For a list with a positive total, p is count/total and cp is the running
      sum of p in list order: the first cp is its own p, each later cp adds its p
      to the previous one. */
  lemma {:induction false} NormalizedRunningSum(d: Dist)
    requires Total(d) > 0
    ensures forall i :: 0 <= i < |d| ==> Normalized(d)[i].p == d[i].count as real / Total(d) as real
    ensures Normalized(d)[0].cp == Normalized(d)[0].p
    ensures forall i :: 0 < i < |d| ==> Normalized(d)[i].cp == Normalized(d)[i - 1].cp + Normalized(d)[i].p
  {
    var t := Total(d);
    var r := Normalized(d);
    assert d != [];
    forall i | 0 <= i < |d|
      ensures r[i].p == d[i].count as real / t as real
      ensures r[i].cp == RunningP(d, t, i) + r[i].p
    {
      NormalizedAt(d, i);
    }
    forall i | 0 < i < |d| ensures r[i - 1].cp == RunningP(d, t, i) {
      NormalizedAt(d, i - 1);
    }
  }

  /** For a list with a positive total, cp never decreases along the list and the
      last cp is exactly 1. */
  lemma {:induction false} NormalizedCumulative(d: Dist)
    requires Total(d) > 0
    ensures forall i, j :: 0 <= i <= j < |d| ==> Normalized(d)[i].cp <= Normalized(d)[j].cp
    ensures Normalized(d)[|d| - 1].cp == 1.0
  {
    var t := Total(d);
    var r := Normalized(d);
    forall i, j | 0 <= i <= j < |d| ensures r[i].cp <= r[j].cp {
      NormalizedAt(d, i);
      NormalizedAt(d, j);
      RunningPMonotone(d, t, i + 1, j + 1);
    }
    NormalizedLastCp(d);
  }

  /** The running sum over the whole list is exactly 1. */
  lemma {:induction false} RunningPWhole(d: Dist)
    requires Total(d) > 0
    ensures RunningP(d, Total(d), |d|) == 1.0
  {
    var t := Total(d);
    RunningPShare(d, t, |d|);
    assert d[..|d|] == d;
    var tr := t as real;
    assert tr > 0.0;
    assert tr / tr == 1.0;
  }

  lemma {:induction false} NormalizedLastCp(d: Dist)
    requires Total(d) > 0
    ensures |d| > 0 && Normalized(d)[|d| - 1].cp == 1.0
  {
    assert d != [];
    NormalizedAt(d, |d| - 1);
    RunningPWhole(d);
  }

  /** Recomputing probabilities a second time changes nothing. */
  lemma {:induction false} NormalizedIdempotent(d: Dist)
    ensures Normalized(Normalized(d)) == Normalized(d)
  {
    var r := Normalized(d);
    SameCountsAgree(r, d);
    var t := Total(d);
    if t > 0 {
      forall i | 0 <= i < |d| ensures Normalized(r)[i] == r[i] {
        RunningPSameCounts(r, d, t, i + 1);
      }
    }
  }

  /** Sum of the p fields, accumulated in list order. */
  function SumP(d: Dist): real
  {
    if d == [] then 0.0 else SumP(d[..|d| - 1]) + d[|d| - 1].p
  }

  lemma {:induction false} SumPPrefix(d: Dist, k: nat)
    requires Total(d) > 0 && k <= |d|
    ensures SumP(Normalized(d)[..k]) == RunningP(d, Total(d), k)
  {
    var r := Normalized(d);
    if k > 0 {
      assert r[..k][..k - 1] == r[..k - 1];
      SumPPrefix(d, k - 1);
    }
  }

  /** The probabilities of a list with a positive total add up to exactly 1. */
  lemma {:induction false} ProbabilitiesSumToOne(d: Dist)
    requires Total(d) > 0
    ensures SumP(Normalized(d)) == 1.0
  {
    var r := Normalized(d);
    SumPPrefix(d, |d|);
    assert r[..|d|] == r;
    RunningPWhole(d);
  }

  /** Index of the first entry whose cp exceeds r, or |d| when there is none. */
  function SampleIndex(d: Dist, r: real): (k: nat)
    ensures k <= |d|
    ensures forall j :: 0 <= j < k ==> d[j].cp <= r
    ensures k < |d| ==> d[k].cp > r
  {
    if d == [] then 0
    else if d[0].cp > r then 0
    else 1 + SampleIndex(d[1..], r)
  }

  /** The sampling rule: the character of the first entry whose cp exceeds r,
      and ' ' when no entry does. */
  function Sample(d: Dist, r: real): (c: char)
    ensures (forall i :: 0 <= i < |d| ==> d[i].cp <= r) ==> c == ' '
    ensures forall i :: 0 <= i < |d| && d[i].cp > r && (forall j :: 0 <= j < i ==> d[j].cp <= r) ==> c == d[i].chr
  {
    var k := SampleIndex(d, r);
    if k < |d| then d[k].chr else ' '
  }

  /** With a draw below 1, sampling a trained list always lands on an entry:
      the ' ' fallback is unreachable and the result is a character of the list. */
  lemma {:induction false} SampleFromWellFormed(d: Dist, r: real)
    requires WellFormed(d) && r < 1.0
    ensures SampleIndex(d, r) < |d|
    ensures Sample(d, r) in Chars(d)
  {
    TallyTotal(d);
    NormalizedCumulative(d);
    assert d[|d| - 1].cp == 1.0;
  }
}

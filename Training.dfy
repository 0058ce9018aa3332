/** The model's table (window -> list) and what one training pass does to it:
    count every (window, next character) pair of the corpus into the table,
    then recompute the probabilities of every list. */
module Training {
  import opened Distributions

  /** The model's map from windows to their lists. */
  type Table = map<string, Dist>

  /** The list of window w, or the empty list when w has none yet. */
  function Lookup(m: Table, w: string): Dist
  {
    if w in m then m[w] else []
  }

  /** One training step: count character c after window w, creating w's list first if needed. */
  function Tally(m: Table, w: string, c: char): Table
  {
    m[w := Update(Lookup(m, w), c)]
  }

  /** One training step adds window w if it is new, leaves every other window's
      list as it was, and counts c once more in w's list. */
  lemma TallyEffect(m: Table, w: string, c: char)
    ensures Tally(m, w, c).Keys == m.Keys + {w}
    ensures forall v :: v in m && v != w ==> Tally(m, w, c)[v] == m[v]
    ensures forall x :: CountOf(Tally(m, w, c)[w], x) == CountOf(Lookup(m, w), x) + (if x == c then 1 else 0)
  {
  }

  /** Window w of length n stands in s just before position j, and j holds a character. */
  predicate FollowedAt(s: string, n: nat, w: string, j: nat)
  {
    n <= j < |s| && s[j - n..j] == w
  }

  /** The table after counting the characters at positions n .. k-1 of s, each
      after the n characters that precede it, in corpus order. */
  function CountWindows(m: Table, s: string, n: nat, k: nat): Table
    requires n <= k <= |s|
    decreases k
  {
    if k == n then m else Tally(CountWindows(m, s, n, k - 1), s[k - 1 - n..k - 1], s[k - 1])
  }

  /** Dropping the first character of the window before position k and appending
      the character at k gives the window before position k + 1. */
  lemma SlideWindow(s: string, n: nat, k: nat)
    requires 1 <= n <= k < |s|
    ensures s[k - n..k][1..] + [s[k]] == s[k + 1 - n..k + 1]
  {
  }

  /** Counting the character at position k after its window extends the count of positions before it. */
  lemma CountWindowsNext(m: Table, s: string, n: nat, k: nat)
    requires n <= k < |s|
    ensures CountWindows(m, s, n, k + 1) == Tally(CountWindows(m, s, n, k), s[k - n..k], s[k])
  {
  }

  /** How many of the positions n .. k-1 of s hold c right after window w. */
  function Occurrences(s: string, n: nat, w: string, c: char, k: nat): nat
    requires n <= k <= |s|
    decreases k
  {
    if k == n then 0
    else Occurrences(s, n, w, c, k - 1) + (if s[k - 1 - n..k - 1] == w && s[k - 1] == c then 1 else 0)
  }

  /** Every window has length n and a counted list. */
  predicate Counted(m: Table, n: nat)
  {
    forall w :: w in m ==> |w| == n && Tallied(m[w])
  }

  /** Every window has length n and a counted list with consistent probabilities. */
  predicate WellFormedTable(m: Table, n: nat)
  {
    forall w :: w in m ==> |w| == n && WellFormed(m[w])
  }

  /** Every list of the table with its probabilities recomputed. */
  function NormalizeAll(m: Table): (r: Table)
    ensures r.Keys == m.Keys
  {
    map w | w in m :: Normalized(m[w])
  }

  /** The table after a training pass over corpus s with window length n: unchanged
      when s is shorter than n, otherwise counted and then renormalized. */
  function Trained(m: Table, s: string, n: nat): (r: Table)
    ensures m.Keys <= r.Keys
    ensures forall w :: w in r && w !in m ==> |w| == n
  {
    if |s| < n then m
    else
      CountWindowsKeys(m, s, n, |s|);
      NewWindowsLength(s, n, |s|);
      NormalizeAll(CountWindows(m, s, n, |s|))
  }

  /** A table with the same windows whose every list is the renormalized one is NormalizeAll. */
  lemma {:induction false} NormalizeAllUnique(r: Table, m: Table)
    requires r.Keys == m.Keys
    requires forall w :: w in m ==> r[w] == Normalized(m[w])
    ensures r == NormalizeAll(m)
  {
  }

  /** Sum of the totals of all lists of the table. */
  ghost function MapTotal(m: Table): nat
    decreases m.Keys
  {
    if m.Keys == {} then 0
    else
      var w :| w in m;
      Total(m[w]) + MapTotal(m - {w})
  }

  /** MapTotal does not depend on which window is taken out first. */
  lemma {:induction false} MapTotalRemove(m: Table, w: string)
    requires w in m
    ensures MapTotal(m) == Total(m[w]) + MapTotal(m - {w})
    decreases m.Keys
  {
    var v :| v in m && MapTotal(m) == Total(m[v]) + MapTotal(m - {v});
    if v != w {
      var mv, mw := m - {v}, m - {w};
      assert w in mv && v in mw;
      MapTotalRemove(mv, w);
      MapTotalRemove(mw, v);
      assert mv - {w} == mw - {v};
    }
  }

  /** Two tables with the same windows and the same per-window totals have the same MapTotal. */
  lemma {:induction false} MapTotalSameTotals(a: Table, b: Table)
    requires a.Keys == b.Keys
    requires forall w :: w in a ==> Total(a[w]) == Total(b[w])
    ensures MapTotal(a) == MapTotal(b)
    decreases a.Keys
  {
    if a.Keys != {} {
      var w :| w in a;
      MapTotalRemove(a, w);
      MapTotalRemove(b, w);
      MapTotalSameTotals(a - {w}, b - {w});
    }
  }

  /** One training step adds exactly one to the table's grand total. */
  lemma {:induction false} TallyMapTotal(m: Table, w: string, c: char)
    ensures MapTotal(Tally(m, w, c)) == MapTotal(m) + 1
  {
    var m' := Tally(m, w, c);
    MapTotalRemove(m', w);
    if w in m {
      MapTotalRemove(m, w);
      assert m' - {w} == m - {w};
    } else {
      assert m' - {w} == m;
    }
  }

  /** Window w is followed by a character somewhere before position k of s. */
  predicate SeenBefore(s: string, n: nat, w: string, k: nat)
  {
    exists j: nat :: j < k && FollowedAt(s, n, w, j)
  }

  lemma {:induction false} SeenBeforeStep(s: string, n: nat, w: string, k: nat)
    requires n < k <= |s|
    ensures SeenBefore(s, n, w, k) <==> SeenBefore(s, n, w, k - 1) || w == s[k - 1 - n..k - 1]
  {
    if SeenBefore(s, n, w, k) {
      var j: nat :| j < k && FollowedAt(s, n, w, j);
      if j < k - 1 {
        assert SeenBefore(s, n, w, k - 1);
      }
    }
    if w == s[k - 1 - n..k - 1] {
      assert FollowedAt(s, n, w, k - 1);
    }
  }

  /** A window followed by a character in the corpus has length n. */
  lemma NewWindowsLength(s: string, n: nat, k: nat)
    ensures forall w :: SeenBefore(s, n, w, k) ==> |w| == n
  {
    forall w | SeenBefore(s, n, w, k) ensures |w| == n {
      var j: nat :| j < k && FollowedAt(s, n, w, j);
    }
  }

  /** After counting positions n .. k-1, the windows of the table are the old
      ones plus every window that is followed by a character there. */
  lemma {:induction false} CountWindowsKeys(m: Table, s: string, n: nat, k: nat)
    requires n <= k <= |s|
    ensures forall w :: w in CountWindows(m, s, n, k) <==> w in m || SeenBefore(s, n, w, k)
    decreases k
  {
    if k > n {
      CountWindowsKeys(m, s, n, k - 1);
      forall w ensures SeenBefore(s, n, w, k) <==> SeenBefore(s, n, w, k - 1) || w == s[k - 1 - n..k - 1] {
        SeenBeforeStep(s, n, w, k);
      }
    }
  }

  /** One training step on a window of length n keeps the table counted. */
  lemma TallyCounted(m: Table, n: nat, w: string, c: char)
    requires Counted(m, n) && |w| == n
    ensures Counted(Tally(m, w, c), n)
  {
    UpdateTallied(Lookup(m, w), c);
    var r := Tally(m, w, c);
    forall v | v in r ensures |v| == n && Tallied(r[v]) {
      if v != w {
        assert r[v] == m[v];
      }
    }
  }

  /** Counting the character at position k - 1 keeps the table counted. */
  lemma {:induction false} CountWindowsCountedStep(m: Table, s: string, n: nat, k: nat)
    requires n < k <= |s|
    requires Counted(CountWindows(m, s, n, k - 1), n)
    ensures Counted(CountWindows(m, s, n, k), n)
  {
    var v := s[k - 1 - n..k - 1];
    assert CountWindows(m, s, n, k) == Tally(CountWindows(m, s, n, k - 1), v, s[k - 1]);
    TallyCounted(CountWindows(m, s, n, k - 1), n, v, s[k - 1]);
  }

  /** Counting keeps every window at length n and every list counted: non-empty,
      positive counts, one entry per character. */
  lemma {:induction false} CountWindowsCounted(m: Table, s: string, n: nat, k: nat)
    requires n <= k <= |s|
    requires Counted(m, n)
    ensures Counted(CountWindows(m, s, n, k), n)
    decreases k
  {
    if k > n {
      CountWindowsCounted(m, s, n, k - 1);
      CountWindowsCountedStep(m, s, n, k);
    }
  }

  /** Counting accumulates: the count of c after w grows by exactly the number of
      places where the corpus has c right after w. */
  lemma {:induction false} CountWindowsCounts(m: Table, s: string, n: nat, k: nat, w: string, c: char)
    requires n <= k <= |s|
    ensures CountOf(Lookup(CountWindows(m, s, n, k), w), c) == CountOf(Lookup(m, w), c) + Occurrences(s, n, w, c, k)
    decreases k
  {
    if k > n {
      CountWindowsCounts(m, s, n, k - 1, w, c);
    }
  }

  /** Counting positions n .. k-1 adds exactly k - n to the grand total. */
  lemma {:induction false} CountWindowsMapTotal(m: Table, s: string, n: nat, k: nat)
    requires n <= k <= |s|
    ensures MapTotal(CountWindows(m, s, n, k)) == MapTotal(m) + (k - n)
    decreases k
  {
    if k > n {
      CountWindowsMapTotal(m, s, n, k - 1);
      TallyMapTotal(CountWindows(m, s, n, k - 1), s[k - 1 - n..k - 1], s[k - 1]);
    }
  }

  /** Recomputing the probabilities of a counted table makes it well formed. */
  lemma {:induction false} NormalizeAllWellFormed(m: Table, n: nat)
    requires Counted(m, n)
    ensures WellFormedTable(NormalizeAll(m), n)
  {
    var r := NormalizeAll(m);
    forall w | w in r ensures |w| == n && WellFormed(r[w]) {
      assert r[w] == Normalized(m[w]);
      SameCountsAgree(r[w], m[w]);
      NormalizedIdempotent(m[w]);
    }
  }

  /** Recomputing probabilities changes no count and no total. */
  lemma {:induction false} NormalizeAllCounts(m: Table, w: string, c: char)
    ensures CountOf(Lookup(NormalizeAll(m), w), c) == CountOf(Lookup(m, w), c)
    ensures MapTotal(NormalizeAll(m)) == MapTotal(m)
  {
    var r := NormalizeAll(m);
    if w in m {
      SameCountsAgree(r[w], m[w]);
    }
    forall v | v in r ensures Total(r[v]) == Total(m[v]) {
      SameCountsAgree(r[v], m[v]);
    }
    MapTotalSameTotals(r, m);
  }

  /** Training keeps the table well formed: every window has length n and a
      non-empty counted list whose probabilities are consistent with its counts. */
  lemma {:induction false} TrainedWellFormed(m: Table, s: string, n: nat)
    requires WellFormedTable(m, n)
    ensures WellFormedTable(Trained(m, s, n), n)
  {
    if |s| >= n {
      CountWindowsCounted(m, s, n, |s|);
      NormalizeAllWellFormed(CountWindows(m, s, n, |s|), n);
    }
  }

  /** Training adds to every count the corpus' occurrences of that (window,
      character) pair, and adds |s| - n counts in all; a corpus shorter than
      the window leaves the table as it was. */
  lemma {:induction false} TrainedCounts(m: Table, s: string, n: nat, w: string, c: char)
    ensures |s| < n ==> Trained(m, s, n) == m
    ensures |s| >= n ==>
      CountOf(Lookup(Trained(m, s, n), w), c) == CountOf(Lookup(m, w), c) + Occurrences(s, n, w, c, |s|)
    ensures |s| >= n ==> MapTotal(Trained(m, s, n)) == MapTotal(m) + (|s| - n)
  {
    if |s| >= n {
      var counted := CountWindows(m, s, n, |s|);
      CountWindowsCounts(m, s, n, |s|, w, c);
      CountWindowsMapTotal(m, s, n, |s|);
      NormalizeAllCounts(counted, w, c);
    }
  }

  /** The windows of the trained table are the old ones plus every window of the
      corpus that is followed by a character; a corpus shorter than a window
      has no such window. */
  lemma {:induction false} TrainedKeys(m: Table, s: string, n: nat)
    ensures forall w :: w in Trained(m, s, n) <==> w in m || SeenBefore(s, n, w, |s|)
  {
    if |s| >= n {
      CountWindowsKeys(m, s, n, |s|);
    } else {
      forall w ensures !SeenBefore(s, n, w, |s|) {
        forall j: nat | j < |s| ensures !FollowedAt(s, n, w, j) {
        }
      }
    }
  }

  /** After a training pass from a well-formed table, a window's list has an
      entry for c exactly when c was counted after that window before the pass
      or follows it somewhere in the corpus. */
  lemma {:induction false} TrainedChars(m: Table, s: string, n: nat, w: string, c: char)
    requires WellFormedTable(m, n) && w in Trained(m, s, n)
    ensures c in Chars(Trained(m, s, n)[w]) <==>
              CountOf(Lookup(m, w), c) + (if n <= |s| then Occurrences(s, n, w, c, |s|) else 0) > 0
  {
    TrainedWellFormed(m, s, n);
    TrainedCounts(m, s, n, w, c);
    CharsCountOf(Trained(m, s, n)[w], c);
  }

  /** Character c follows window w at least once in corpus s. */
  predicate FollowsInCorpus(s: string, n: nat, w: string, c: char)
  {
    n <= |s| && Occurrences(s, n, w, c, |s|) > 0
  }

  /** A model trained once on s from the empty table has exactly the pairs of s:
      c is in the list of w if and only if c follows w somewhere in s. */
  lemma {:induction false} TrainedFromEmptyChars(s: string, n: nat, w: string, c: char)
    requires w in Trained(map[], s, n)
    ensures c in Chars(Trained(map[], s, n)[w]) <==> FollowsInCorpus(s, n, w, c)
  {
    TrainedChars(map[], s, n, w, c);
  }
}

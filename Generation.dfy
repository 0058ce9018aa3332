/** What text generation produces: the seed, followed by one sampled character
    per draw for as long as the last window of the text has a list. */
module Generation {
  import opened Distributions
  import opened Training

  /** Position j of text (at or after start) follows a window of length n that the
      table knows, and holds the character the sampling rule picks from that
      window's list with the (j - start)-th draw. */
  predicate Appended(m: Table, n: nat, text: string, start: nat, draws: nat -> real, j: nat)
  {
    start <= j < |text| && n <= j && text[j - n..j] in m
    && text[j] == Sample(m[text[j - n..j]], draws(j - start))
  }

  /** text is what generation from seed init with up to len steps and window length n
      produces on table m when the i-th step uses draw draws(i): the seed itself
      when it is shorter than a window; otherwise the seed followed by sampled
      characters, at most len of them, stopping early only at a window the table
      does not know. */
  predicate IsGeneration(m: Table, n: nat, init: string, len: int, draws: nat -> real, text: string)
  {
    if |init| < n then text == init
    else
      && |init| <= |text| <= |init| + (if len > 0 then len else 0)
      && text[..|init|] == init
      && (forall j: nat :: |init| <= j < |text| ==> Appended(m, n, text, |init|, draws, j))
      && (|text| < |init| + len ==> text[|text| - n..] !in m)
  }

  /** Extending the text keeps the positions that were already justified. */
  lemma AppendedKept(m: Table, n: nat, text: string, start: nat, draws: nat -> real, c: char, j: nat)
    requires Appended(m, n, text, start, draws, j)
    ensures Appended(m, n, text + [c], start, draws, j)
  {
    var t := text + [c];
    assert t[j - n..j] == text[j - n..j];
    assert t[j] == text[j];
  }

  /** Appending the character sampled from the list of the text's last window,
      with the next draw, keeps every generated position justified. */
  lemma {:induction false} AppendedExtend(m: Table, n: nat, text: string, start: nat, draws: nat -> real, c: char)
    requires n <= start <= |text|
    requires forall j: nat :: start <= j < |text| ==> Appended(m, n, text, start, draws, j)
    requires text[|text| - n..] in m && c == Sample(m[text[|text| - n..]], draws(|text| - start))
    ensures forall j: nat :: start <= j < |text| + 1 ==> Appended(m, n, text + [c], start, draws, j)
  {
    var t := text + [c];
    forall j: nat | start <= j < |text| ensures Appended(m, n, t, start, draws, j) {
      AppendedKept(m, n, text, start, draws, c, j);
    }
    assert t[|text| - n..|text|] == text[|text| - n..];
    assert Appended(m, n, t, start, draws, |text|);
  }

  /** The facts a generation loop keeps, once it stops, make its text a generation. */
  lemma GenerationStops(m: Table, n: nat, init: string, len: int, draws: nat -> real, text: string, i: int)
    requires n <= |init| && 0 <= i && (i == 0 || i <= len)
    requires |text| == |init| + i && text[..|init|] == init
    requires forall j: nat :: |init| <= j < |text| ==> Appended(m, n, text, |init|, draws, j)
    requires i < len ==> text[|text| - n..] !in m
    ensures IsGeneration(m, n, init, len, draws, text)
  {
  }

  /** Appending to a text keeps its seed as a prefix. */
  lemma SnocPrefix(init: string, text: string, c: char)
    requires |init| <= |text| && text[..|init|] == init
    ensures (text + [c])[..|init|] == init
  {
    assert (text + [c])[..|init|] == text[..|init|];
  }

  /** Two generations from the same table, seed, length and draws agree on
      every position both of them reach. */
  lemma {:induction false} AgreeUpTo(m: Table, n: nat, init: string, len: int, draws: nat -> real,
                                     t1: string, t2: string, k: nat)
    requires IsGeneration(m, n, init, len, draws, t1) && IsGeneration(m, n, init, len, draws, t2)
    requires n <= |init| <= k <= |t1| && k <= |t2|
    ensures t1[..k] == t2[..k]
    decreases k
  {
    if k > |init| {
      AgreeUpTo(m, n, init, len, draws, t1, t2, k - 1);
      forall i | 0 <= i < k - 1 ensures t1[i] == t2[i] {
        assert t1[..k - 1][i] == t2[..k - 1][i];
      }
      assert Appended(m, n, t1, |init|, draws, k - 1);
      assert Appended(m, n, t2, |init|, draws, k - 1);
      assert t1[k - 1 - n..k - 1] == t2[k - 1 - n..k - 1];
      assert t1[k - 1] == t2[k - 1];
    } else {
      assert t1[..k] == init == t2[..k];
    }
  }

  /** A generation that is a prefix of another one is not shorter than it: it
      could only have stopped at a window the other one continued from. */
  lemma {:induction false} PrefixNotShorter(m: Table, n: nat, init: string, len: int, draws: nat -> real,
                                            t1: string, t2: string)
    requires IsGeneration(m, n, init, len, draws, t1) && IsGeneration(m, n, init, len, draws, t2)
    requires n <= |init| && |t1| <= |t2| && t1 == t2[..|t1|]
    ensures |t1| == |t2|
  {
    var k := |t1|;
    assert k < |t2| ==> Appended(m, n, t2, |init|, draws, k);
    assert t1[k - n..] == t2[k - n..k];
  }

  /** Generation is deterministic: the table, the seed, the length and the draws
      determine the text, so a fixed random seed reproduces the same output. */
  lemma {:induction false} GenerationUnique(m: Table, n: nat, init: string, len: int, draws: nat -> real,
                                            t1: string, t2: string)
    requires IsGeneration(m, n, init, len, draws, t1) && IsGeneration(m, n, init, len, draws, t2)
    ensures t1 == t2
  {
    if |init| >= n {
      if |t1| <= |t2| {
        AgreeUpTo(m, n, init, len, draws, t1, t2, |t1|);
        assert t1 == t1[..|t1|];
        PrefixNotShorter(m, n, init, len, draws, t1, t2);
        assert t2 == t2[..|t2|];
      } else {
        AgreeUpTo(m, n, init, len, draws, t1, t2, |t2|);
        assert t2 == t2[..|t2|];
        PrefixNotShorter(m, n, init, len, draws, t2, t1);
      }
    }
  }

  /** Position j of text holds a character that the list of the window before it contains. */
  predicate InWindowList(m: Table, n: nat, text: string, j: int)
  {
    n <= j < |text| && text[j - n..j] in m && text[j] in Chars(m[text[j - n..j]])
  }

  /** On a well-formed table, with draws below 1, every generated character is
      a character of the list of the window before it. */
  lemma {:induction false} GeneratedFromDistribution(m: Table, n: nat, init: string, len: int,
                                                     draws: nat -> real, text: string)
    requires WellFormedTable(m, n)
    requires forall i :: draws(i) < 1.0
    requires IsGeneration(m, n, init, len, draws, text)
    ensures forall j :: |init| <= j < |text| ==> InWindowList(m, n, text, j)
  {
    forall j | |init| <= j < |text| ensures InWindowList(m, n, text, j) {
      assert Appended(m, n, text, |init|, draws, j);
      SampleFromWellFormed(m[text[j - n..j]], draws(j - |init|));
    }
  }

  /** Position j of text holds a character that follows the window before it
      somewhere in corpus s. */
  predicate FromCorpus(s: string, n: nat, text: string, j: int)
  {
    n <= j < |text| && FollowsInCorpus(s, n, text[j - n..j], text[j])
  }

  /** A model trained once on corpus s from an empty table, with draws below 1,
      generates only characters that follow the preceding window somewhere in s. */
  lemma {:induction false} GeneratedFromCorpus(s: string, n: nat, init: string, len: int,
                                               draws: nat -> real, text: string)
    requires forall i :: draws(i) < 1.0
    requires IsGeneration(Trained(map[], s, n), n, init, len, draws, text)
    ensures forall j :: |init| <= j < |text| ==> FromCorpus(s, n, text, j)
  {
    var m := Trained(map[], s, n);
    TrainedWellFormed(map[], s, n);
    GeneratedFromDistribution(m, n, init, len, draws, text);
    forall j | |init| <= j < |text| ensures FromCorpus(s, n, text, j) {
      assert InWindowList(m, n, text, j);
      TrainedFromEmptyChars(s, n, text[j - n..j], text[j]);
    }
  }
}

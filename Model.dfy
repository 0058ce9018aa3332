/** The character-level n-gram language model: a window length, a table from
    windows to lists, training over a corpus and text generation from a seed.
    The random source is replaced by the draws it would return. */
module Model {
  import opened Distributions
  import opened Training
  import opened Generation

  class LanguageModel {
    /** Maps each window to the list of characters seen after it. */
    var charDataMap: Table

    /** Length of the windows of this model. */
    const windowLength: nat

    /** Every window has windowLength characters and a non-empty counted list
        whose p and cp are consistent with its counts. */
    ghost predicate Valid()
      reads this
    {
      windowLength >= 1 && WellFormedTable(charDataMap, windowLength)
    }

    /** A model with an empty table. */
    constructor (windowLength: nat)
      requires windowLength >= 1
      ensures Valid()
      ensures this.windowLength == windowLength && charDataMap == map[]
    {
      this.windowLength := windowLength;
      charDataMap := map[];
    }

    /** One training pass over corpus: count every character that follows a full
        window into that window's list, then recompute the probabilities of every
        list of the table. A corpus shorter than a window leaves the model as it was. */
    method Train(corpus: string)
      requires Valid()
      modifies this
      ensures Valid()
      ensures charDataMap == Trained(old(charDataMap), corpus, windowLength)
    {
      if |corpus| < windowLength {
        return;
      }
      CountCorpus(corpus);
      CalculateAllProbabilities();
      TrainedWellFormed(old(charDataMap), corpus, windowLength);
    }

    /** The counting part of a training pass: the first windowLength characters
        form the first window; each following character is counted into the list
        of the window before it (the list is created empty when the window is new),
        and the window then slides by one character. */
    method CountCorpus(corpus: string)
      requires 1 <= windowLength <= |corpus|
      modifies this
      ensures charDataMap == CountWindows(old(charDataMap), corpus, windowLength, |corpus|)
    {
      var window := corpus[..windowLength];
      var i := windowLength;
      while i < |corpus|
        invariant windowLength <= i <= |corpus|
        invariant window == corpus[i - windowLength..i]
        invariant charDataMap == CountWindows(old(charDataMap), corpus, windowLength, i)
      {
        var nextChar := corpus[i];
        var probs: Dist;
        if window in charDataMap {
          probs := charDataMap[window];
        } else {
          probs := [];
        }
        probs := Update(probs, nextChar);
        CountWindowsNext(old(charDataMap), corpus, windowLength, i);
        charDataMap := charDataMap[window := probs];
        SlideWindow(corpus, windowLength, i);
        window := window[1..] + [nextChar];
        i := i + 1;
      }
    }

    /** Recomputes p and cp of every list of the table, one list at a time, in
        whatever order the table's windows are visited. */
    method CalculateAllProbabilities()
      modifies this
      ensures charDataMap == NormalizeAll(old(charDataMap))
    {
      var pending := charDataMap.Keys;
      while pending != {}
        invariant pending <= old(charDataMap).Keys
        invariant charDataMap.Keys == old(charDataMap).Keys
        invariant forall w :: w in pending ==> charDataMap[w] == old(charDataMap)[w]
        invariant forall w :: w in old(charDataMap) && w !in pending ==> charDataMap[w] == Normalized(old(charDataMap)[w])
        decreases pending
      {
        var w :| w in pending;
        var probs := CalculateProbabilities(charDataMap[w]);
        charDataMap := charDataMap[w := probs];
        pending := pending - {w};
      }
      NormalizeAllUnique(charDataMap, old(charDataMap));
    }

    /** The list with each p set to count/total and each cp to the running sum of
        p in list order; a list whose total count is 0 is returned as it is. */
    method CalculateProbabilities(probs: Dist) returns (r: Dist)
      ensures r == Normalized(probs)
    {
      var totalCount := 0;
      var i := 0;
      while i < |probs|
        invariant 0 <= i <= |probs|
        invariant totalCount == Total(probs[..i])
      {
        assert probs[..i + 1] == probs[..i] + [probs[i]];
        TotalSnoc(probs[..i], probs[i]);
        totalCount := totalCount + probs[i].count;
        i := i + 1;
      }
      assert probs[..|probs|] == probs;

      r := probs;
      if totalCount == 0 {
        return;
      }

      var cumulativeProbability := 0.0;
      i := 0;
      while i < |r|
        invariant 0 <= i <= |r| == |probs|
        invariant cumulativeProbability == RunningP(probs, totalCount, i)
        invariant forall j :: 0 <= j < i ==> r[j] == Normalized(probs)[j]
        invariant forall j :: i <= j < |r| ==> r[j] == probs[j]
      {
        var p := r[i].count as real / totalCount as real;
        cumulativeProbability := cumulativeProbability + p;
        r := r[i := r[i].(p := p, cp := cumulativeProbability)];
        NormalizedAt(probs, i);
        i := i + 1;
      }
    }

    /** The character of the first entry whose cp exceeds the draw r, or ' '
        when there is none. */
    method GetRandomChar(probs: Dist, r: real) returns (c: char)
      ensures c == Sample(probs, r)
    {
      var i := 0;
      while i < |probs|
        invariant 0 <= i <= |probs|
        invariant forall j :: 0 <= j < i ==> probs[j].cp <= r
      {
        if probs[i].cp > r {
          return probs[i].chr;
        }
        i := i + 1;
      }
      return ' ';
    }

    /** Text generated from initialText: up to textLength characters are appended,
        each sampled (with the next draw) from the list of the last windowLength
        characters, stopping early at a window the table does not know. */
    method Generate(initialText: string, textLength: int, draws: nat -> real) returns (text: string)
      ensures IsGeneration(charDataMap, windowLength, initialText, textLength, draws, text)
    {
      if |initialText| < windowLength {
        return initialText;
      }

      text := initialText;
      var currentWindow := text[|text| - windowLength..];
      var i := 0;
      while i < textLength
        invariant 0 <= i && (i == 0 || i <= textLength)
        invariant |text| == |initialText| + i
        invariant text[..|initialText|] == initialText
        invariant currentWindow == text[|text| - windowLength..]
        invariant forall j: nat :: |initialText| <= j < |text| ==>
                    Appended(charDataMap, windowLength, text, |initialText|, draws, j)
      {
        if currentWindow !in charDataMap {
          break;
        }
        var nextChar := GetRandomChar(charDataMap[currentWindow], draws(i));
        AppendedExtend(charDataMap, windowLength, text, |initialText|, draws, nextChar);
        SnocPrefix(initialText, text, nextChar);
        text := text + [nextChar];
        currentWindow := text[|text| - windowLength..];
        i := i + 1;
      }
      GenerationStops(charDataMap, windowLength, initialText, textLength, draws, text, i);
    }
  }
}

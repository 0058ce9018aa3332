# Character n-gram language model

A model of `LanguageModel`: a character-level n-gram language model. A model
has a window length `n` and a table that maps each window (a string of `n`
characters) to a list of `CharData` entries. Each entry holds a character,
how often it followed the window in the training text (`count`), its
probability (`p`) and the running sum of probabilities up to and including it
(`cp`).

- **Training** slides a window over the corpus. It counts every character into
  the list of the `n` characters before it, then recomputes `p` and `cp` of
  every list.
- **Sampling** returns the character of the first entry whose `cp` exceeds a
  draw `r`.
- **Generation** starts from a seed text. It keeps appending a character
  sampled from the list of the text's last window, until it reaches the
  requested length or meets a window the table does not know.

The project has four modules:

- `Distributions`: one list as a value (`seq<CharData>`). It defines counting
  (`Update`), renormalisation (`Normalized`) and the sampling rule (`Sample`),
  with their lemmas.
- `Training`: the table as a `map<string, Dist>`. It defines what a training
  pass produces (`CountWindows`, `NormalizeAll`, `Trained`), with lemmas about
  keys, counts, totals and well-formedness.
- `Generation`: the predicate `IsGeneration`, which says what text
  generation produces. Lemmas prove that generation is deterministic, and
  that a model trained on a corpus generates only characters that follow the
  preceding window somewhere in that corpus.
- `Model`: the class `LanguageModel`. It has the mutable field `charDataMap`
  and the `const windowLength`. Its methods `Train`, `CalculateProbabilities`,
  `GetRandomChar` and `Generate` carry the source's loops, and each is proved
  against the functions above.

Probabilities are exact `real` numbers. The random generator is replaced by
the values it would return. `GetRandomChar` takes the draw `r`. `Generate`
takes `draws: nat -> real`, where `draws(i)` is the draw used for the
`i`-th appended character. The corpus is a `string` instead of a file name.

Two places where the model follows the code rather than a comment, or adds a
requirement the code does not state:

- The comment at `LanguageModel.java:131-134` talks of returning the last
  element's character when the sampling scan finds no entry. The code returns
  `' '` (`LanguageModel.java:135`), and so does the model. With exact
  arithmetic and a draw below 1, this fallback cannot be reached on a trained
  list (`SampleFromWellFormed`).
- The code does not reject a `windowLength` below 1. With such a window length,
  a training pass on any non-empty corpus fails at `window.substring(1)` on an
  empty window (`LanguageModel.java:72`). The model's constructor requires
  `windowLength >= 1`.

## Model

| member | source | states |
|---|---|---|
| Model.LanguageModel.constructor | LanguageModel.java:30-34 | a new model has the given window length and an empty table, and satisfies the invariant `Valid` (every window has `windowLength` characters and a well-formed list) |
| Model.LanguageModel.Train | LanguageModel.java:37-85 | a training pass leaves exactly `Trained(old table, corpus, windowLength)` and keeps `Valid`; a corpus shorter than a window leaves the table unchanged |
| Model.LanguageModel.CountCorpus | LanguageModel.java:45-73 | the counting loop leaves exactly `CountWindows` over all positions of the corpus: each character is counted into the list of the window before it, a new window gets a fresh list, and the window slides by one |
| Model.LanguageModel.CalculateAllProbabilities | LanguageModel.java:81-84 | after visiting every list of the table in any order, the table is `NormalizeAll` of the old one: same windows, each list renormalised |
| Model.LanguageModel.CalculateProbabilities | LanguageModel.java:89-113 | the result is `Normalized(probs)`: p = count/total and cp = running sum of p in list order, or the list unchanged when the total is 0 |
| Model.LanguageModel.GetRandomChar | LanguageModel.java:117-135 | the result is `Sample(probs, r)`: the character of the first entry with cp > r, or `' '` when there is none |
| Model.LanguageModel.Generate | LanguageModel.java:144-166 | the result satisfies `IsGeneration`: the seed alone when it is shorter than a window; otherwise the seed followed by at most `textLength` sampled characters, each drawn with the next draw from the list of the window before it, stopping early only at a window missing from the table |
| Distributions.Update | LanguageModel.java:66-68 | counting c raises the count of c by exactly one and leaves every other character's count unchanged; the total grows by one and the list is non-empty |
| Distributions.UpdateChars | LanguageModel.java:58-68 | after counting c, the list's characters are the old ones plus c |
| Distributions.UpdateTallied | LanguageModel.java:58-68 | counting keeps a list counted: positive counts and one entry per character |
| Distributions.CharsCountOf | LanguageModel.java:58-68 | in a list with positive counts, a character has an entry exactly when its count is positive |
| Distributions.TallyTotal | LanguageModel.java:90-101 | a list with positive counts has a total of at least its length, so the `totalCount == 0` branch is only reached by an empty list |
| Distributions.SameCountsAgree | LanguageModel.java:108-113 | lists that agree on characters and counts have the same total, the same per-character counts and the same characters; rewriting p and cp changes none of them |
| Distributions.Normalized | LanguageModel.java:89-113 | renormalising keeps every entry's character and count, in the same order |
| Distributions.RunningPShare | LanguageModel.java:103-113 | the cumulative probability after k entries is the first k counts' share of the total |
| Distributions.RunningPMonotone | LanguageModel.java:111-112 | the cumulative probability never decreases along the list |
| Distributions.NormalizedRunningSum | LanguageModel.java:108-113 | with a positive total, p = count/total; the first cp equals its p; each later cp is the previous cp plus its own p |
| Distributions.NormalizedCumulative | LanguageModel.java:103-113 | with a positive total, cp is non-decreasing along the list and the last cp is exactly 1 |
| Distributions.RunningPWhole | LanguageModel.java:103-113 | the running sum of count/total over the whole list is exactly 1 |
| Distributions.ProbabilitiesSumToOne | LanguageModel.java:108-113 | with a positive total, the p fields of the renormalised list add up to exactly 1 |
| Distributions.NormalizedIdempotent | LanguageModel.java:89-113 | renormalising an already renormalised list changes nothing, so a second pass over unchanged lists is harmless |
| Distributions.SampleIndex | LanguageModel.java:122-129 | the scan stops at the first entry whose cp exceeds r: every earlier cp is at most r |
| Distributions.Sample | LanguageModel.java:117-135 | the sampled character is that of the first entry with cp > r, and `' '` when every cp is at most r |
| Distributions.SampleFromWellFormed | LanguageModel.java:117-135 | on a trained list and a draw r < 1, the scan always stops inside the list and returns one of its characters: the `' '` fallback is unreachable |
| Training.NormalizeAll | LanguageModel.java:81-84 | renormalising the table keeps its set of windows |
| Training.NormalizeAllUnique | LanguageModel.java:81-84 | any table with the same windows and every list renormalised is `NormalizeAll`, whatever order the lists were visited in |
| Training.Lookup | LanguageModel.java:58-64 | defines the list a step counts into: the window's list, or a fresh empty list when the window is new |
| Training.Tally | LanguageModel.java:58-68 | defines one counting step: `Update` applied to the window's list (or to a fresh one), stored back under the window |
| Training.TallyEffect | LanguageModel.java:58-68 | one counting step adds the window if it is new, leaves every other window's list as it was, and counts c once more in the window's list |
| Training.CountWindows | LanguageModel.java:54-73 | defines the counting loop: positions n .. k-1 of the corpus, in order, each counted by `Tally` into the window of the n characters before it |
| Training.TallyCounted | LanguageModel.java:58-68 | counting one character after a window of length n keeps every list of the table counted |
| Training.CountWindowsKeys | LanguageModel.java:58-64 | after counting, the table's windows are the old windows plus exactly those windows that are followed by a character in the corpus |
| Training.CountWindowsCounted | LanguageModel.java:54-73 | counting keeps every window at length n and every list counted |
| Training.CountWindowsCounts | LanguageModel.java:54-73 | the count of c after w grows by exactly the number of positions where the corpus has c right after w |
| Training.TallyMapTotal | LanguageModel.java:66-68 | one counting step adds exactly one to the sum of all counts in the table |
| Training.CountWindowsMapTotal | LanguageModel.java:54-73 | counting positions n .. k-1 adds exactly k - n to the sum of all counts in the table |
| Training.MapTotalSameTotals | LanguageModel.java:81-84 | tables with the same windows and the same per-window totals have the same sum of counts |
| Training.NormalizeAllWellFormed | LanguageModel.java:81-84 | renormalising a counted table makes every list well formed |
| Training.NormalizeAllCounts | LanguageModel.java:81-84 | renormalising changes no count and no sum of counts |
| Training.TrainedWellFormed | LanguageModel.java:37-85 | a training pass keeps the table well formed: windows of length n, non-empty counted lists, p and cp consistent with the counts |
| Training.TrainedCounts | LanguageModel.java:37-85 | a training pass adds to every (window, character) count that pair's occurrences in the corpus and adds \|corpus\| - n counts in all; a corpus shorter than a window leaves the table unchanged |
| Training.Trained | LanguageModel.java:37-85 | defines a training pass: the table unchanged when the corpus is shorter than a window, otherwise `CountWindows` over the whole corpus followed by `NormalizeAll`; proved to keep every old window and to add only windows of length n |
| Training.TrainedChars | LanguageModel.java:37-85 | after a training pass from a well-formed table, a window's list has an entry for c exactly when c was counted after it before or follows it somewhere in the corpus |
| Training.TrainedFromEmptyChars | LanguageModel.java:21-85 | for a new model trained once on s, c is in the list of w if and only if c follows w somewhere in s |
| Training.TrainedKeys | LanguageModel.java:37-85 | after a training pass, the table's windows are the old ones plus every window of the corpus that is followed by a character; a corpus shorter than a window adds none |
| Generation.Appended | LanguageModel.java:152-163 | defines one generation step at position j: the window before j is in the table, and position j holds the character `Sample` picks from its list with draw number j - start |
| Generation.IsGeneration | LanguageModel.java:144-166 | defines the result of `generate`: the seed alone when it is shorter than a window; otherwise the seed followed by at most max(len, 0) characters, each justified by `Appended`, ending short of len only at a window the table lacks |
| Generation.AppendedExtend | LanguageModel.java:152-163 | appending the character sampled from the last window's list keeps every generated position justified by its window and draw |
| Generation.GenerationStops | LanguageModel.java:152-165 | the facts the generation loop keeps, once it ends by length or by a missing window, make its result a generation |
| Generation.AgreeUpTo | LanguageModel.java:149-163 | two generations from the same table, seed, length and draws agree on every position both of them reach |
| Generation.PrefixNotShorter | LanguageModel.java:153-157 | a generation cannot stop at a window from which another generation continued |
| Generation.GenerationUnique | LanguageModel.java:18-21 | generation is deterministic: the table, the seed text, the length and the draws determine the text, so a fixed random seed reproduces the same output |
| Generation.GeneratedFromDistribution | LanguageModel.java:144-165 | on a well-formed table with draws below 1, every generated character is a character of the list of the window before it |
| Generation.GeneratedFromCorpus | LanguageModel.java:37-165 | a model trained once on corpus s from an empty table generates, with draws below 1, only characters that follow the window before them somewhere in s |

## Left out

- Reading the corpus from a file: `Train` takes the corpus as a `string`. The
  `IOException` path (an error message, then return) is not modelled.
- The random generator and its seeding (`java.util.Random`, both
  constructors' seed handling): draws are parameters.
- Model.LanguageModel.Generate: `draws(i)` is the i-th draw of this call. The
  model does not capture that one generator is shared by successive calls.
- IEEE double arithmetic: `p` and `cp` are exact reals. The rounding that can
  leave the last `cp` just under 1, and so reach the `' '` fallback, is not
  modelled.
- The `List`, `ListIterator` and `CharData` classes are not part of this model.
  A list is a value (`seq<CharData>`). `Update` adds a new character's entry at
  the end of the list. The lemmas about counts, windows, totals and
  well-formedness do not depend on where a new entry goes. The exact table in
  the ensures of `Train` and `CountCorpus` does depend on it, and list order
  decides which character a given draw selects in `GetRandomChar` and
  `Generate`.
- Characters and integer widths. A Java `char` (`LanguageModel.java:49`,
  `:55`) is a UTF-16 code unit, while a Dafny `char` is a Unicode scalar value.
  So a character above U+FFFF takes two window positions in the source and one
  in the model, and the lone surrogate halves the source can learn and append
  cannot be represented. Also, the `int` counts and `totalCount`
  (`LanguageModel.java:90`, `:98`) can overflow in Java; the model's `nat`
  counts cannot.
- Aliasing of `List` objects: `calculateProbabilities` updates the entries of a
  list in place. `CalculateProbabilities` returns the new list, and
  `CalculateAllProbabilities` stores it back into the table.
- The order in which `HashMap.values()` visits the lists: every order gives the
  same table (`NormalizeAllUnique`).
- A window length of 0 or below: the constructor requires `windowLength >= 1`.
- Model.LanguageModel.CountCorpus: the first loop's character-by-character
  read of the first window is a length check followed by `corpus[..windowLength]`.
- `toString` and `main`: output formatting and an empty entry point.

# Beam search of the hierarchical dialogue decoder, in Dafny

This project models the inference branch of `Decoder.forward` in the hred
dialogue model (`modules.py`). This is the beam search that generates a response
token by token:

- The search starts from one live candidate: the start marker `1` with score 0.
- It runs exactly 50 rounds (`gen_len` goes from 1 to 50).
- In each round, every live candidate asks the decoder step for its top-`beam`
  next tokens.
- A choice of the end marker `2` moves the candidate, with that token appended,
  to the finished list. Its score is not changed.
- Every other choice at 0-based rank `i` becomes an extension. Its score is the
  parent's score plus the token's log-probability minus the diversity penalty
  `0.15 * (i + 1)`.
- All extensions of the round are sorted in descending order of a
  length-normalised key. The first `beam` become the next live set, and the
  scratch list is cleared.
- After the last round, the finished and live candidates are merged, sorted by
  the same key, and the first `beam` are returned.

Modules, with the source lines each definition models:

- `Candidates` (`candidates.dfy`) holds tokens, top-k choices, beam candidates,
  the diversity penalty, and the two ways a candidate grows:
  - `START_TOKEN` and `END_TOKEN` are the markers 1 and 2 (modules.py:146, 159).
  - `DIVERSITY_RATE` is `Decoder.diversity_rate` (modules.py:104).
  - `Penalty` is `diversity_rate * (i + 1)` (modules.py:165).
  - `Complete` builds `(seq + [2], score)` (modules.py:162).
  - `Extend` builds `(seq + [ctok], score + cval - penalty)` (modules.py:165).
- `Ranking` (`ranking.dfy`) holds the ranking operations:
  - `Key` is the sort key `score / len ** 0.7`, left abstract as `norm`
    (modules.py:168, 175).
  - `Insert` and `SortDesc` are the stable descending sort
    `list.sort(key=..., reverse=True)` (modules.py:168, 175).
  - `Take` is the slice `xs[:n]` (modules.py:169, 176).
- `Expansion` (`expansion.dfy`) holds what one round produces before pruning:
  - `Finished` and `Extended` give one parent's completions and extensions in
    the order the `for i in range(beam)` loop appends them (modules.py:157-165).
  - `FinishedAll` and `ExtendedAll` give the same for the whole
    `for c in candidates` loop (modules.py:150-165).
- `BeamSearch` (`beam_search.dfy`) holds the round-by-round specification, the
  imperative search, and the search's properties:
  - `MAX_ROUNDS` is 50 (modules.py:148-149).
  - `DEFAULT_BEAM` is the default `beam=5` (modules.py:141).
  - `Initial` is `[([1], 0)]` (modules.py:146-147).
  - `NextLive` is sort, slice and clear (modules.py:168-170).
  - `Advance` is one round (modules.py:150-171).
  - `Rounds` is the `while` loop (modules.py:148-171).
  - `Ranked` is merge, sort and slice (modules.py:174-176).
  - `SearchResult` is the whole inference branch (modules.py:144-176).
  - `Generate`, `ExpandRound` and `ExpandParent` are the same search written
    with loops, one method per loop level of the source.
- `Greedy` (`greedy.dfy`) holds an independent greedy decoder, and the proof
  that a beam of width 1 is exactly greedy decoding.

The neural decoder step (`do_decode`, log-softmax, `topk`) is a parameter
`step: seq<Token> -> seq<Choice>`. The length normalisation
`score / len ** 0.7` is a parameter `norm: (real, nat) -> real`. Scores are
reals.

Some consequences of the code that are easy to miss:

- Live candidates that are returned have 51 tokens: the start token plus one
  per round (modules.py:146-171).
- Finished and live candidates are ranked together, so a live candidate can
  outrank a completed one (modules.py:174-176).
- With `beam = 0` the search returns `[]`.
- The diversity rate is fixed at 0.15. With `beam = 1` the search follows the
  greedy path (`Greedy.BeamOfOneIsGreedy`), and the scores carry the penalty.

## Model

| member | source | states |
|---|---|---|
| `Candidates.PenaltyIncreasesWithRank` | modules.py:157-165 | the diversity penalty `0.15 * (rank + 1)` is positive and grows strictly with the rank |
| `Expansion.FinishedAreCompletions` | modules.py:159-162 | every completion of a parent is the parent with token 2 appended and the parent's score unchanged; a parent has a completion exactly when one of its choices is token 2 |
| `Expansion.ExtendedAreRankedGrowths` | modules.py:157-165 | the extensions of a parent are exactly its non-end choices: the choice of rank `i` gives `tokens + [token]` with score `score + logProb - 0.15 * (i + 1)`, and every non-end choice gives one |
| `Expansion.ChoicesSplit` | modules.py:157-165 | each of a parent's choices produces exactly one candidate, either a completion or an extension |
| `Expansion.CompletesAtMostOnce` | modules.py:156-162 | with the distinct tokens that `topk` returns, a parent completes at most once per round |
| `Expansion.SiblingScoresDecrease` | modules.py:156-165 | for top-k choices in descending log-probability, a higher-ranked extension of the same parent scores strictly more than a lower-ranked one |
| `Expansion.FinishedAllFromParents` | modules.py:150-162 | every completion of a round comes from a candidate that was live in that round |
| `Expansion.ExtendedAllFromParents` | modules.py:150-165 | every extension of a round comes from a candidate that was live in that round |
| `Expansion.RoundCount` | modules.py:150-165 | a round turns `n` live parents into exactly `n * beam` completions and extensions |
| `Expansion.FinishedAllCoversParents` | modules.py:150-162 | every live candidate with token 2 among its choices has its completion among the round's completions |
| `Expansion.ExtendedAllCoversParents` | modules.py:150-165 | every non-end choice of rank `i` of every live candidate gives its extension, with penalty `0.15 * (i + 1)`, among the round's extensions |
| `Ranking.InsertKeepsOrder` | modules.py:168 | inserting into a descending ranking adds exactly that entry and keeps the ranking descending |
| `Ranking.SortDescSorts` | modules.py:168 | the sort returns a permutation of its input, with the same length, in descending key order |
| `Ranking.SortIsStable` | modules.py:175 | the sort is stable: for every key value, the entries with that key keep their original order |
| `Ranking.TakeKeepsBest` | modules.py:169 | the first `n` entries of a descending ranking are still sorted, are drawn from it, and rank no lower than any dropped entry |
| `BeamSearch.PruneKeepsBest` | modules.py:168-170 | the next live set holds `min(beam, #extensions)` of this round's extensions only, sorted, and none ranks below a pruned extension |
| `BeamSearch.PruneRanksEveryExtension` | modules.py:150-170 | every non-end choice of every live candidate gives an extension that is either kept in the next live set or ranks no higher than each kept one |
| `BeamSearch.AdvanceKeepsShape` | modules.py:157-169 | one round turns live candidates of length `r + 1` (start marker first, no end marker) into live candidates of length `r + 2` of the same shape, and adds only completions ending in the end marker |
| `BeamSearch.RoundsShape` | modules.py:146-171 | after `r` rounds every live candidate has `r + 1` tokens, starts with 1 and contains no 2; every finished one starts with 1, ends with its only 2, and has 2 to `r + 1` tokens |
| `BeamSearch.FinishedGrowsByCompletions` | modules.py:159-162 | each round keeps the finished list as it was and appends only completions of the round's live candidates, with the parent's score unchanged; every live candidate with token 2 among its choices has its completion appended |
| `BeamSearch.AdvanceCoversBeam` | modules.py:150-169 | a round that starts with a live candidate, or with `beam` finished ones, ends with at least `beam` candidates in all |
| `BeamSearch.RoundsCoverBeam` | modules.py:146-171 | from round 1 on, finished and live candidates together number at least `beam` |
| `BeamSearch.RankedKeepsBest` | modules.py:174-176 | ranking a state with at least `beam` candidates returns exactly `beam` of them, sorted, drawn from the state, and none outranked by one left out |
| `BeamSearch.RankedShape` | modules.py:174-176 | every returned candidate starts with 1 and either ends in 2 or is a live candidate with no 2 |
| `BeamSearch.ResultProperties` | modules.py:144-176 | the search returns exactly `beam` candidates, sorted by descending key, drawn from the finished list and the final live set, none outranked by one left out; each starts with 1 and either ends in 2 with 2 to 51 tokens, or has 51 tokens and no 2 |
| `BeamSearch.ExpandParent` | modules.py:157-165 | the inner loop over a parent's `beam` choices appends exactly that parent's completions to the finished list and its extensions to the scratch list, in rank order |
| `BeamSearch.ExpandRound` | modules.py:150-165 | the loop over the live candidates, starting from an empty scratch list, appends all of the round's completions and leaves exactly the round's extensions in the scratch list |
| `BeamSearch.Generate` | modules.py:144-176 | the imperative search (50 rounds; the scratch list is empty at the start of each round; sort, slice, clear; then merge, sort, slice) returns exactly the specified result, with `beam` entries, sorted, each starting with 1 and 2 to 51 tokens long |
| `Greedy.AdvanceWithoutLive` | modules.py:150-170 | a round with no live candidate changes nothing |
| `Greedy.AdvanceSingle` | modules.py:150-170 | with width 1, a round on one live candidate either completes it or replaces it by its extension with the top token |
| `Greedy.RoundsFollowGreedy` | modules.py:146-171 | with width 1, the state after `r` rounds holds only the greedy candidate: finished once it has drawn token 2, live before that |
| `Greedy.RankedIsGreedy` | modules.py:174-176 | with width 1, ranking the state after `r` rounds returns the greedy candidate alone |
| `Greedy.BeamOfOneIsGreedy` | modules.py:144-176 | beam search of width 1 returns exactly the greedy decoding of 50 steps |

## Left out

- The neural decoder step is a parameter. This covers `BaseEncoder`,
  `SessionEncoder`, `Decoder.do_decode`, the log-softmax and the `topk` call
  (modules.py:24-139, 152-156). These are GRU, embedding, dropout and
  linear-layer computations in floating point, and foreign PyTorch calls.
- The search only requires that the step returns `beam` choices. That is what
  the loop `for i in range(beam)` indexes.
- `Expansion.SiblingScoresDecrease` needs distinct tokens and descending
  log-probabilities, and takes them as the precondition `Candidates.IsTopK`.
  `Expansion.CompletesAtMostOnce` needs only distinct tokens, and states that
  inline as its precondition.
- `topk` raises an error when `beam` exceeds the vocabulary size. That error
  lies inside the step and is not modelled.
- `topk` also raises an error for a negative `beam` (modules.py:156). The model
  types the width as `nat`, so that case is not modelled.
- The default width `beam=5` (modules.py:141) is `BeamSearch.DEFAULT_BEAM`.
  The search itself takes the width as an argument, as `forward` does.
- The normalisation `score / len ** 0.7` is an abstract parameter. It is a
  floating-point power and division.
- Scores are exact reals. Floating-point rounding, and its effect on ties
  between keys, is not modelled.
- The source's loop nest is written as three methods, one per loop level:
  `Generate` (the `while` loop), `ExpandRound` (`for c in candidates`) and
  `ExpandParent` (`for i in range(beam)`).
- The lists are values that the methods reassign. Python's in-place `append`,
  `sort` and slice clear on aliased lists are not modelled. The source copies
  the slice that becomes the live set (`copy.copy`), so no aliasing is visible.
- The `tqdm` progress bar (I/O), CUDA placement, `max_out` (dead code), the
  teacher-forced training branch and `set_teacher_forcing` are not part of this
  model.

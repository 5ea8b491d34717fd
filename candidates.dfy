/** Beam candidates of the decoder's inference branch and the two ways a
    candidate grows by one token: completion with the end marker, or
    extension with a ranked next token under the diversity penalty. */
module Candidates {

  /** A vocabulary id. */
  type Token = int

  /** The sequence-start marker every generated sequence begins with. */
  const START_TOKEN: Token := 1

  /** The sequence-end marker; a candidate that draws it is completed. */
  const END_TOKEN: Token := 2

  /** `Decoder.diversity_rate`: the per-rank penalty on non-completing extensions. */
  const DIVERSITY_RATE: real := 0.15

  /** One entry of the decoder's top-k list: a next token and its log-probability. */
  datatype Choice = Choice(token: Token, logProb: real)

  /** A beam entry: the tokens generated so far, start marker included, and
      the cumulative score they carry. */
  datatype Candidate = Candidate(tokens: seq<Token>, score: real)

  /** The decoder step as seen by the search: given a sequence so far, the
      top-k next tokens with their log-probabilities. */
  type Step = seq<Token> -> seq<Choice>

  /** What the neural step hands back for beam width `beam`: exactly `beam`
      choices, pairwise distinct tokens, log-probabilities in descending order. */
  predicate IsTopK(top: seq<Choice>, beam: nat)
  {
    && |top| == beam
    && (forall i, j :: 0 <= i < j < |top| ==> top[i].token != top[j].token)
    && (forall i, j :: 0 <= i < j < |top| ==> top[i].logProb >= top[j].logProb)
  }

  /** The penalty charged to the extension built from the choice at 0-based `rank`. */
  function Penalty(rank: nat): real
  {
    DIVERSITY_RATE * (rank + 1) as real
  }

  /** The completed candidate: the end marker appended, the score left as it was. */
  function Complete(c: Candidate): Candidate
  {
    Candidate(c.tokens + [END_TOKEN], c.score)
  }

  /** The extension of `c` by the choice at `rank` of its top-k list. */
  function Extend(c: Candidate, ch: Choice, rank: nat): Candidate
  {
    Candidate(c.tokens + [ch.token], c.score + ch.logProb - Penalty(rank))
  }

  /** The diversity penalty grows strictly with the rank of the choice. */
  lemma PenaltyIncreasesWithRank(i: nat, j: nat)
    requires i < j
    ensures Penalty(i) < Penalty(j)
    ensures Penalty(i) > 0.0
  {
  }
}

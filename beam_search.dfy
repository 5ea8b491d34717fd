/** The inference branch of `Decoder.forward`: a beam search that runs a fixed
    number of rounds, moves candidates that draw the end marker to a finished
    list, prunes the extensions of each round to the `beam` best by
    length-normalised score, and at the end ranks finished and live
    candidates together and returns the first `beam`. */
module BeamSearch {
  import opened Candidates
  import opened Ranking
  import opened Expansion

  /** `while gen_len <= 50` with `gen_len` starting at 1: fifty rounds. */
  const MAX_ROUNDS: nat := 50

  /** The beam width `forward` uses when its caller gives none. */
  const DEFAULT_BEAM: nat := 5

  /** The search between rounds: `final_candids` and `candidates`. */
  datatype SearchState = SearchState(finished: seq<Candidate>, live: seq<Candidate>)

  /** The state before the first round: one live candidate, the start marker with score 0. */
  function Initial(): SearchState
  {
    SearchState([], [Candidate([START_TOKEN], 0.0)])
  }

  /** The next live set: this round's extensions ranked, the first `beam` kept. */
  function NextLive(live: seq<Candidate>, step: Step, norm: Norm, beam: nat): seq<Candidate>
  {
    Take(SortDesc(ExtendedAll(live, step), norm), beam)
  }

  /** One round: completions join the finished list, the pruned extensions
      replace the live set. */
  function Advance(s: SearchState, step: Step, norm: Norm, beam: nat): SearchState
  {
    SearchState(s.finished + FinishedAll(s.live, step), NextLive(s.live, step, norm, beam))
  }

  /** The state after `r` rounds. */
  function Rounds(step: Step, norm: Norm, beam: nat, r: nat): SearchState
  {
    if r == 0 then Initial() else Advance(Rounds(step, norm, beam, r - 1), step, norm, beam)
  }

  /** Finished and live candidates merged, ranked, the first `beam` returned. */
  function Ranked(s: SearchState, norm: Norm, beam: nat): seq<Candidate>
  {
    Take(SortDesc(s.finished + s.live, norm), beam)
  }

  /** What the search returns. */
  function SearchResult(step: Step, norm: Norm, beam: nat): seq<Candidate>
  {
    Ranked(Rounds(step, norm, beam, MAX_ROUNDS), norm, beam)
  }

  /** Live candidates after `r` rounds: `r + 1` tokens, the start marker first,
      no end marker anywhere. */
  ghost predicate LiveShape(live: seq<Candidate>, r: nat)
  {
    forall c :: c in live ==>
      |c.tokens| == r + 1 && c.tokens[0] == START_TOKEN && END_TOKEN !in c.tokens
  }

  /** Finished candidates after `r` rounds: between 2 and `r + 1` tokens, the
      start marker first, the end marker last and nowhere before. */
  ghost predicate FinishedShape(finished: seq<Candidate>, r: nat)
  {
    forall c :: c in finished ==>
      && 2 <= |c.tokens| <= r + 1
      && c.tokens[0] == START_TOKEN
      && c.tokens[|c.tokens| - 1] == END_TOKEN
      && END_TOKEN !in c.tokens[..|c.tokens| - 1]
  }

  /** One round takes well-shaped candidates to well-shaped candidates one token longer. */
  lemma AdvanceKeepsShape(s: SearchState, step: Step, norm: Norm, beam: nat, r: nat)
    requires LiveShape(s.live, r) && FinishedShape(s.finished, r)
    ensures LiveShape(Advance(s, step, norm, beam).live, r + 1)
    ensures FinishedShape(Advance(s, step, norm, beam).finished, r + 1)
  {
    var t := Advance(s, step, norm, beam);
    PruneKeepsBest(s.live, step, norm, beam);
    ExtendedAllFromParents(s.live, step);
    FinishedAllFromParents(s.live, step);
    forall d | d in t.live
      ensures |d.tokens| == r + 2 && d.tokens[0] == START_TOKEN && END_TOKEN !in d.tokens
    {
      var p :| p in s.live && d in Extended(p, step(p.tokens));
      var top := step(p.tokens);
      ExtendedAreRankedGrowths(p, top);
      var i :| 0 <= i < |top| && top[i].token != END_TOKEN && d == Extend(p, top[i], i);
      assert d.tokens == p.tokens + [top[i].token];
    }
    forall d | d in t.finished
      ensures 2 <= |d.tokens| <= r + 2 && d.tokens[0] == START_TOKEN
      ensures d.tokens[|d.tokens| - 1] == END_TOKEN && END_TOKEN !in d.tokens[..|d.tokens| - 1]
    {
      if d !in s.finished {
        var p :| p in s.live && d in Finished(p, step(p.tokens));
        FinishedAreCompletions(p, step(p.tokens));
        assert d.tokens == p.tokens + [END_TOKEN];
        assert d.tokens[..|d.tokens| - 1] == p.tokens;
      }
    }
  }

  /** Every candidate of every round begins with the start marker; live ones
      have exactly `r + 1` tokens and contain no end marker; finished ones end
      in it and have between 2 and `r + 1` tokens. */
  lemma {:induction false} RoundsShape(step: Step, norm: Norm, beam: nat, r: nat)
    ensures LiveShape(Rounds(step, norm, beam, r).live, r)
    ensures FinishedShape(Rounds(step, norm, beam, r).finished, r)
  {
    if r > 0 {
      RoundsShape(step, norm, beam, r - 1);
      AdvanceKeepsShape(Rounds(step, norm, beam, r - 1), step, norm, beam, r - 1);
    }
  }

  /** Pruning keeps `beam` of this round's extensions (all of them when there
      are fewer), ranked, and none of them ranks below an extension that was
      dropped. */
  lemma PruneKeepsBest(live: seq<Candidate>, step: Step, norm: Norm, beam: nat)
    ensures var ext := ExtendedAll(live, step);
            var kept := NextLive(live, step, norm, beam);
            && |kept| == (if |ext| <= beam then |ext| else beam)
            && SortedDesc(kept, norm)
            && multiset(kept) <= multiset(ext)
            && (forall d :: d in kept ==> d in ext)
            && (forall d, e :: d in kept && e in ext && e !in kept ==> Key(d, norm) >= Key(e, norm))
  {
    var ext := ExtendedAll(live, step);
    var ranked := SortDesc(ext, norm);
    var kept := Take(ranked, beam);
    SortDescSorts(ext, norm);
    TakeKeepsBest(ranked, beam, norm);
    forall d | d in kept ensures d in ext {
      assert d in multiset(kept);
    }
    forall d, e | d in kept && e in ext && e !in kept
      ensures Key(d, norm) >= Key(e, norm)
    {
      var i :| 0 <= i < |kept| && kept[i] == d;
      assert e in multiset(ranked);
      var j :| 0 <= j < |ranked| && ranked[j] == e;
    }
  }

  /** No extension of the round escapes the ranking: every non-end choice of
      every live parent is either kept or ranks no higher than each kept one. */
  lemma PruneRanksEveryExtension(live: seq<Candidate>, step: Step, norm: Norm, beam: nat)
    ensures var kept := NextLive(live, step, norm, beam);
            forall p, i, d :: p in live && 0 <= i < |step(p.tokens)| && step(p.tokens)[i].token != END_TOKEN
              && d in kept && Extend(p, step(p.tokens)[i], i) !in kept
              ==> Key(d, norm) >= Key(Extend(p, step(p.tokens)[i], i), norm)
  {
    PruneKeepsBest(live, step, norm, beam);
    ExtendedAllCoversParents(live, step);
  }

  /** Completed candidates are never lost and never changed: after round
      `r + 1` the finished list is the old one followed by the completions of
      the live set of round `r`, each its parent with the end marker appended
      and the parent's score; and every live parent that drew the end marker
      is among them. */
  lemma FinishedGrowsByCompletions(step: Step, norm: Norm, beam: nat, r: nat)
    ensures var before := Rounds(step, norm, beam, r);
            var after := Rounds(step, norm, beam, r + 1);
            && after.finished[..|before.finished|] == before.finished
            && (forall d :: d in after.finished[|before.finished|..] ==>
                  exists p :: p in before.live && d == Complete(p) && d.score == p.score
                    && d.tokens == p.tokens + [END_TOKEN])
            && (forall p, i :: p in before.live && 0 <= i < |step(p.tokens)| && step(p.tokens)[i].token == END_TOKEN
                  ==> Complete(p) in after.finished[|before.finished|..])
  {
    var before := Rounds(step, norm, beam, r);
    var after := Rounds(step, norm, beam, r + 1);
    assert after.finished[|before.finished|..] == FinishedAll(before.live, step);
    FinishedAllFromParents(before.live, step);
    FinishedAllCoversParents(before.live, step);
    forall d | d in FinishedAll(before.live, step)
      ensures exists p :: p in before.live && d == Complete(p) && d.score == p.score && d.tokens == p.tokens + [END_TOKEN]
    {
      var p :| p in before.live && d in Finished(p, step(p.tokens));
      FinishedAreCompletions(p, step(p.tokens));
    }
  }

  /** A round replaces each of its `n` parents by `beam` candidates, finished
      or extended, and pruning keeps `beam` extensions whenever there are that
      many: so a round that starts with a live candidate, or with `beam`
      finished ones, ends with at least `beam` candidates in all. */
  lemma AdvanceCoversBeam(s: SearchState, step: Step, norm: Norm, beam: nat)
    requires forall q :: |step(q)| == beam
    requires |s.live| >= 1 || |s.finished| >= beam
    ensures |Advance(s, step, norm, beam).finished| + |Advance(s, step, norm, beam).live| >= beam
  {
    var t := Advance(s, step, norm, beam);
    var fin := FinishedAll(s.live, step);
    var ext := ExtendedAll(s.live, step);
    RoundCount(s.live, step, beam);
    PruneKeepsBest(s.live, step, norm, beam);
    assert |t.finished| == |s.finished| + |fin|;
    if |t.live| < beam {
      assert |t.live| == |ext|;
      if |s.live| >= 1 {
        MulAtLeast(|s.live|, beam);
      }
    }
  }

  lemma MulAtLeast(n: nat, m: nat)
    requires n >= 1
    ensures n * m >= m
  {
  }

  /** After the first round, finished and live candidates together number at least `beam`. */
  lemma {:induction false} RoundsCoverBeam(step: Step, norm: Norm, beam: nat, r: nat)
    requires forall s :: |step(s)| == beam
    requires r >= 1
    ensures |Rounds(step, norm, beam, r).finished| + |Rounds(step, norm, beam, r).live| >= beam
  {
    if r > 1 {
      RoundsCoverBeam(step, norm, beam, r - 1);
    }
    AdvanceCoversBeam(Rounds(step, norm, beam, r - 1), step, norm, beam);
  }

  /** A returned candidate after `r` rounds: the start marker first, and either
      completed (end marker last, 2 to `r + 1` tokens) or still live
      (`r + 1` tokens, no end marker). */
  ghost predicate ReturnedShape(c: Candidate, r: nat)
  {
    && 2 <= |c.tokens| <= r + 1
    && c.tokens[0] == START_TOKEN
    && (c.tokens[|c.tokens| - 1] == END_TOKEN || (|c.tokens| == r + 1 && END_TOKEN !in c.tokens))
  }

  /** Ranking a state that holds at least `beam` candidates returns exactly
      `beam` of them, sorted, each drawn from the state and none outranked by
      one left out. */
  lemma RankedKeepsBest(s: SearchState, norm: Norm, beam: nat)
    requires |s.finished| + |s.live| >= beam
    ensures var result := Ranked(s, norm, beam);
            && |result| == beam
            && SortedDesc(result, norm)
            && multiset(result) <= multiset(s.finished + s.live)
            && (forall d, e :: d in result && e in s.finished + s.live && e !in result
                  ==> Key(d, norm) >= Key(e, norm))
  {
    var all := s.finished + s.live;
    var ranked := SortDesc(all, norm);
    var result := Take(ranked, beam);
    SortDescSorts(all, norm);
    TakeKeepsBest(ranked, beam, norm);
    forall d, e | d in result && e in all && e !in result
      ensures Key(d, norm) >= Key(e, norm)
    {
      var i :| 0 <= i < |result| && result[i] == d;
      assert e in multiset(ranked);
      var j :| 0 <= j < |ranked| && ranked[j] == e;
    }
  }

  /** Ranking a well-shaped state after `r >= 1` rounds returns well-shaped candidates. */
  lemma RankedShape(s: SearchState, norm: Norm, beam: nat, r: nat)
    requires r >= 1
    requires LiveShape(s.live, r) && FinishedShape(s.finished, r)
    ensures forall c :: c in Ranked(s, norm, beam) ==> ReturnedShape(c, r)
  {
    var all := s.finished + s.live;
    var ranked := SortDesc(all, norm);
    var result := Take(ranked, beam);
    SortDescSorts(all, norm);
    forall c | c in result
      ensures ReturnedShape(c, r)
    {
      assert c in ranked;
      assert c in multiset(ranked);
      assert c in all;
    }
  }

  /** The result holds exactly `beam` candidates, ranked by descending
      length-normalised score, all taken from the finished list and the final
      live set, none outranked by a candidate left out; each starts with the
      start marker and either ends with the end marker (2 to 51 tokens) or is
      a live candidate of 51 tokens with no end marker. */
  lemma ResultProperties(step: Step, norm: Norm, beam: nat)
    requires forall s :: |step(s)| == beam
    ensures var last := Rounds(step, norm, beam, MAX_ROUNDS);
            var result := SearchResult(step, norm, beam);
            && |result| == beam
            && SortedDesc(result, norm)
            && multiset(result) <= multiset(last.finished + last.live)
            && (forall d, e :: d in result && e in last.finished + last.live && e !in result
                  ==> Key(d, norm) >= Key(e, norm))
            && (forall c :: c in result ==> ReturnedShape(c, MAX_ROUNDS))
  {
    RoundsCoverBeam(step, norm, beam, MAX_ROUNDS);
    RoundsShape(step, norm, beam, MAX_ROUNDS);
    RankedKeepsBest(Rounds(step, norm, beam, MAX_ROUNDS), norm, beam);
    RankedShape(Rounds(step, norm, beam, MAX_ROUNDS), norm, beam, MAX_ROUNDS);
  }

  /** The inner `for i in range(beam)` loop for one parent `c`: its choices
      walked in rank order, a completion appended to `finalCandids`, every
      other choice appended as an extension to `nCandidates`. */
  method ExpandParent(c: Candidate, top: seq<Choice>, beam: nat,
                      finishedBefore: seq<Candidate>, extendedBefore: seq<Candidate>)
    returns (finalCandids: seq<Candidate>, nCandidates: seq<Candidate>)
    requires |top| == beam
    ensures finalCandids == finishedBefore + Finished(c, top)
    ensures nCandidates == extendedBefore + Extended(c, top)
  {
    finalCandids, nCandidates := finishedBefore, extendedBefore;
    for i := 0 to beam
      invariant finalCandids == finishedBefore + Finished(c, top[..i])
      invariant nCandidates == extendedBefore + Extended(c, top[..i])
    {
      ExpandOneMoreChoice(c, top, i);
      var ch := top[i];
      if ch.token == END_TOKEN {
        finalCandids := finalCandids + [Complete(c)];
      } else {
        nCandidates := nCandidates + [Extend(c, ch, i)];
      }
    }
    assert top[..beam] == top;
  }

  /** The `for c in candidates` loop of one round: every live parent expanded
      in turn, onto the finished list and the (initially empty) scratch list. */
  method ExpandRound(step: Step, beam: nat, candidates: seq<Candidate>, finishedBefore: seq<Candidate>)
    returns (finalCandids: seq<Candidate>, nCandidates: seq<Candidate>)
    requires forall s :: |step(s)| == beam
    ensures finalCandids == finishedBefore + FinishedAll(candidates, step)
    ensures nCandidates == ExtendedAll(candidates, step)
  {
    finalCandids, nCandidates := finishedBefore, [];
    for j := 0 to |candidates|
      invariant finalCandids == finishedBefore + FinishedAll(candidates[..j], step)
      invariant nCandidates == ExtendedAll(candidates[..j], step)
    {
      var c := candidates[j];
      finalCandids, nCandidates := ExpandParent(c, step(c.tokens), beam, finalCandids, nCandidates);
      ExpandOneMoreParent(candidates, step, j);
    }
    assert candidates[..|candidates|] == candidates;
  }

  /** The search as the source runs it: fifty rounds over mutable lists, each
      expanding every live parent, sorting the scratch list of extensions,
      keeping its first `beam` entries as the new live set and clearing it;
      then finished and live candidates merged, sorted and sliced. */
  method Generate(step: Step, norm: Norm, beam: nat) returns (ranked: seq<Candidate>)
    requires forall s :: |step(s)| == beam
    ensures ranked == SearchResult(step, norm, beam)
    ensures |ranked| == beam
    ensures SortedDesc(ranked, norm)
    ensures forall c :: c in ranked ==> ReturnedShape(c, MAX_ROUNDS)
  {
    var nCandidates: seq<Candidate> := [];
    var finalCandids: seq<Candidate> := [];
    var candidates: seq<Candidate> := [Candidate([START_TOKEN], 0.0)];
    var genLen := 1;
    while genLen <= MAX_ROUNDS
      invariant 1 <= genLen <= MAX_ROUNDS + 1
      invariant SearchState(finalCandids, candidates) == Rounds(step, norm, beam, genLen - 1)
      invariant nCandidates == []
    {
      finalCandids, nCandidates := ExpandRound(step, beam, candidates, finalCandids);
      nCandidates := SortDesc(nCandidates, norm);
      candidates := Take(nCandidates, beam);
      nCandidates := [];
      genLen := genLen + 1;
    }
    assert genLen - 1 == MAX_ROUNDS;
    assert SearchState(finalCandids, candidates) == Rounds(step, norm, beam, MAX_ROUNDS);
    finalCandids := finalCandids + candidates;
    finalCandids := SortDesc(finalCandids, norm);
    ranked := Take(finalCandids, beam);
    ResultProperties(step, norm, beam);
  }
}

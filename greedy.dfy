/** With beam width 1 the search is greedy decoding: each round follows the
    single best next token until it is the end marker. */
module Greedy {
  import opened Candidates
  import opened Ranking
  import opened Expansion
  import opened BeamSearch

  /** A candidate whose last token is the end marker. */
  predicate Ended(c: Candidate)
  {
    |c.tokens| > 0 && c.tokens[|c.tokens| - 1] == END_TOKEN
  }

  /** Greedy decoding for `r` steps, written independently of the beam
      bookkeeping: take the top choice, stop for good at the end marker. */
  function GreedyAfter(step: Step, r: nat): Candidate
    requires forall s :: |step(s)| == 1
  {
    if r == 0 then
      Candidate([START_TOKEN], 0.0)
    else
      var g := GreedyAfter(step, r - 1);
      if Ended(g) then g
      else
        var ch := step(g.tokens)[0];
        if ch.token == END_TOKEN then Complete(g) else Extend(g, ch, 0)
  }

  /** A round with no live candidate changes nothing. */
  lemma AdvanceWithoutLive(finished: seq<Candidate>, step: Step, norm: Norm, beam: nat)
    ensures Advance(SearchState(finished, []), step, norm, beam) == SearchState(finished, [])
  {
    assert finished + [] == finished;
  }

  /** A width-1 round on one live candidate `g`: its single choice completes it
      or extends it. */
  lemma AdvanceSingle(g: Candidate, step: Step, norm: Norm)
    requires |step(g.tokens)| == 1
    ensures var ch := step(g.tokens)[0];
            Advance(SearchState([], [g]), step, norm, 1)
            == if ch.token == END_TOKEN then SearchState([Complete(g)], [])
               else SearchState([], [Extend(g, ch, 0)])
  {
    var top := step(g.tokens);
    assert [g][..0] == [] && top[..0] == [];
    assert FinishedAll([g], step) == Finished(g, top);
    assert ExtendedAll([g], step) == Extended(g, top);
    if top[0].token != END_TOKEN {
      var e := Extend(g, top[0], 0);
      assert Extended(g, top) == [e];
      assert Finished(g, top) == [];
      assert [e][1..] == [];
      assert SortDesc([e], norm) == [e];
      assert NextLive([g], step, norm, 1) == [e];
    } else {
      assert Extended(g, top) == [];
      assert Finished(g, top) == [Complete(g)];
      assert NextLive([g], step, norm, 1) == [];
    }
  }

  /** With beam width 1 the search state after `r` rounds holds exactly the
      greedy candidate: finished once it has drawn the end marker, live before. */
  lemma {:induction false} RoundsFollowGreedy(step: Step, norm: Norm, r: nat)
    requires forall s :: |step(s)| == 1
    ensures var g := GreedyAfter(step, r);
            Rounds(step, norm, 1, r) == if Ended(g) then SearchState([g], []) else SearchState([], [g])
  {
    if r > 0 {
      RoundsFollowGreedy(step, norm, r - 1);
      var g := GreedyAfter(step, r - 1);
      if Ended(g) {
        AdvanceWithoutLive([g], step, norm, 1);
      } else {
        AdvanceSingle(g, step, norm);
        var ch := step(g.tokens)[0];
        assert Extend(g, ch, 0).tokens == g.tokens + [ch.token];
        assert Complete(g).tokens == g.tokens + [END_TOKEN];
      }
    }
  }

  /** After any number of rounds, ranking the width-1 state returns the
      greedy candidate alone. */
  lemma RankedIsGreedy(step: Step, norm: Norm, r: nat)
    requires forall s :: |step(s)| == 1
    ensures Ranked(Rounds(step, norm, 1, r), norm, 1) == [GreedyAfter(step, r)]
  {
    RoundsFollowGreedy(step, norm, r);
    var g := GreedyAfter(step, r);
    assert [g][1..] == [];
    assert [g] + [] == [g] && [] + [g] == [g];
    assert SortDesc([g], norm) == [g];
  }

  /** Beam search of width 1 returns exactly the greedy decoding of fifty steps. */
  lemma BeamOfOneIsGreedy(step: Step, norm: Norm)
    requires forall s :: |step(s)| == 1
    ensures SearchResult(step, norm, 1) == [GreedyAfter(step, MAX_ROUNDS)]
  {
    RankedIsGreedy(step, norm, MAX_ROUNDS);
  }
}

/** One round of candidate growth before pruning: every live parent asks the
    decoder step for its top-k next tokens; a choice of the end marker sends
    the completed parent to the finished list, every other choice becomes an
    extension scored with the diversity penalty of its rank. */
module Expansion {
  import opened Candidates

  /** The completions that the choices `top` of parent `c` produce, in rank order. */
  function Finished(c: Candidate, top: seq<Choice>): seq<Candidate>
  {
    if top == [] then []
    else Finished(c, top[..|top| - 1]) + (if top[|top| - 1].token == END_TOKEN then [Complete(c)] else [])
  }

  /** The extensions that the choices `top` of parent `c` produce, in rank order. */
  function Extended(c: Candidate, top: seq<Choice>): seq<Candidate>
  {
    if top == [] then []
    else Extended(c, top[..|top| - 1])
         + (if top[|top| - 1].token != END_TOKEN then [Extend(c, top[|top| - 1], |top| - 1)] else [])
  }

  /** Every completion of `c` is `c` with the end marker appended and its score
      unchanged, and there is one exactly when some choice is the end marker. */
  lemma {:induction false} FinishedAreCompletions(c: Candidate, top: seq<Choice>)
    ensures forall d :: d in Finished(c, top) ==> d == Complete(c)
    ensures Finished(c, top) == [] <==> forall i :: 0 <= i < |top| ==> top[i].token != END_TOKEN
  {
    if top != [] {
      var init := top[..|top| - 1];
      FinishedAreCompletions(c, init);
      assert forall i :: 0 <= i < |init| ==> init[i] == top[i];
    }
  }

  /** The extensions of `c` are exactly its growths by the non-end choices:
      the choice of rank `i` gives tokens `c.tokens + [token]` and score
      `c.score + logProb - Penalty(i)`. */
  lemma {:induction false} ExtendedAreRankedGrowths(c: Candidate, top: seq<Choice>)
    ensures forall d :: d in Extended(c, top) ==>
      exists i :: 0 <= i < |top| && top[i].token != END_TOKEN && d == Extend(c, top[i], i)
    ensures forall i :: 0 <= i < |top| && top[i].token != END_TOKEN ==> Extend(c, top[i], i) in Extended(c, top)
  {
    if top != [] {
      var init := top[..|top| - 1];
      ExtendedAreRankedGrowths(c, init);
      assert forall i :: 0 <= i < |init| ==> init[i] == top[i];
    }
  }

  /** Each choice goes exactly one way: to a completion or to an extension. */
  lemma {:induction false} ChoicesSplit(c: Candidate, top: seq<Choice>)
    ensures |Finished(c, top)| + |Extended(c, top)| == |top|
  {
    if top != [] {
      ChoicesSplit(c, top[..|top| - 1]);
    }
  }

  /** With pairwise distinct tokens a parent completes at most once. */
  lemma {:induction false} CompletesAtMostOnce(c: Candidate, top: seq<Choice>)
    requires forall i, j :: 0 <= i < j < |top| ==> top[i].token != top[j].token
    ensures |Finished(c, top)| <= 1
  {
    if top != [] {
      var init := top[..|top| - 1];
      CompletesAtMostOnce(c, init);
      FinishedAreCompletions(c, init);
      if top[|top| - 1].token == END_TOKEN {
        assert forall i :: 0 <= i < |init| ==> init[i].token != END_TOKEN by {
          forall i | 0 <= i < |init| ensures init[i].token != END_TOKEN {
            assert init[i] == top[i];
          }
        }
      }
    }
  }

  /** Of two extensions of one parent, the higher-ranked choice scores strictly
      higher: its log-probability is no lower and its penalty is strictly lower. */
  lemma SiblingScoresDecrease(c: Candidate, top: seq<Choice>, beam: nat, i: nat, j: nat)
    requires IsTopK(top, beam)
    requires i < j < |top|
    ensures Extend(c, top[i], i).score > Extend(c, top[j], j).score
  {
    PenaltyIncreasesWithRank(i, j);
  }

  /** The completions of all parents in `live`, in the order the `for c in
      candidates` loop appends them. */
  function FinishedAll(live: seq<Candidate>, step: Step): seq<Candidate>
  {
    if live == [] then []
    else FinishedAll(live[..|live| - 1], step) + Finished(live[|live| - 1], step(live[|live| - 1].tokens))
  }

  /** The extensions of all parents in `live`, in the order the loop appends them. */
  function ExtendedAll(live: seq<Candidate>, step: Step): seq<Candidate>
  {
    if live == [] then []
    else ExtendedAll(live[..|live| - 1], step) + Extended(live[|live| - 1], step(live[|live| - 1].tokens))
  }

  /** Every completion of a round comes from one of the round's live parents. */
  lemma {:induction false} FinishedAllFromParents(live: seq<Candidate>, step: Step)
    ensures forall d :: d in FinishedAll(live, step) ==> exists p :: p in live && d in Finished(p, step(p.tokens))
  {
    if live != [] {
      var init := live[..|live| - 1];
      FinishedAllFromParents(init, step);
      assert forall q :: q in init ==> q in live;
    }
  }

  /** Every extension of a round comes from one of the round's live parents. */
  lemma {:induction false} ExtendedAllFromParents(live: seq<Candidate>, step: Step)
    ensures forall d :: d in ExtendedAll(live, step) ==> exists p :: p in live && d in Extended(p, step(p.tokens))
  {
    if live != [] {
      var init := live[..|live| - 1];
      ExtendedAllFromParents(init, step);
      assert forall q :: q in init ==> q in live;
    }
  }

  /** Every live parent whose choices include the end marker has its completion
      among the round's completions. */
  lemma {:induction false} FinishedAllCoversParents(live: seq<Candidate>, step: Step)
    ensures forall p, i :: p in live && 0 <= i < |step(p.tokens)| && step(p.tokens)[i].token == END_TOKEN
              ==> Complete(p) in FinishedAll(live, step)
  {
    if live != [] {
      var init := live[..|live| - 1];
      var last := live[|live| - 1];
      assert live == init + [last];
      FinishedAllCoversParents(init, step);
      FinishedAreCompletions(last, step(last.tokens));
      forall p, i | p in live && 0 <= i < |step(p.tokens)| && step(p.tokens)[i].token == END_TOKEN
        ensures Complete(p) in FinishedAll(live, step)
      {
        if p == last {
          var f := Finished(last, step(last.tokens));
          assert f[0] in f;
        } else {
          assert p in init;
        }
      }
    }
  }

  /** Every non-end choice of every live parent gives its ranked extension
      among the round's extensions. */
  lemma {:induction false} ExtendedAllCoversParents(live: seq<Candidate>, step: Step)
    ensures forall p, i :: p in live && 0 <= i < |step(p.tokens)| && step(p.tokens)[i].token != END_TOKEN
              ==> Extend(p, step(p.tokens)[i], i) in ExtendedAll(live, step)
  {
    if live != [] {
      var init := live[..|live| - 1];
      var last := live[|live| - 1];
      assert live == init + [last];
      ExtendedAllCoversParents(init, step);
      ExtendedAreRankedGrowths(last, step(last.tokens));
      forall p, i | p in live && 0 <= i < |step(p.tokens)| && step(p.tokens)[i].token != END_TOKEN
        ensures Extend(p, step(p.tokens)[i], i) in ExtendedAll(live, step)
      {
        if p != last {
          assert p in init;
        }
      }
    }
  }

  /** Every parent contributes one candidate per choice, `beam` in all. */
  lemma {:induction false} RoundCount(live: seq<Candidate>, step: Step, beam: nat)
    requires forall s :: |step(s)| == beam
    ensures |FinishedAll(live, step)| + |ExtendedAll(live, step)| == |live| * beam
  {
    if live != [] {
      var p := live[|live| - 1];
      RoundCount(live[..|live| - 1], step, beam);
      ChoicesSplit(p, step(p.tokens));
      assert (|live| - 1) * beam + beam == |live| * beam;
    }
  }

  /** Unfolding steps for loops that walk the choices, or the parents, one at a time. */
  lemma ExpandOneMoreChoice(c: Candidate, top: seq<Choice>, i: nat)
    requires i < |top|
    ensures Finished(c, top[..i + 1])
            == Finished(c, top[..i]) + (if top[i].token == END_TOKEN then [Complete(c)] else [])
    ensures Extended(c, top[..i + 1])
            == Extended(c, top[..i]) + (if top[i].token != END_TOKEN then [Extend(c, top[i], i)] else [])
  {
    assert top[..i + 1][..i] == top[..i];
  }

  lemma ExpandOneMoreParent(live: seq<Candidate>, step: Step, j: nat)
    requires j < |live|
    ensures FinishedAll(live[..j + 1], step)
            == FinishedAll(live[..j], step) + Finished(live[j], step(live[j].tokens))
    ensures ExtendedAll(live[..j + 1], step)
            == ExtendedAll(live[..j], step) + Extended(live[j], step(live[j].tokens))
  {
    assert live[..j + 1][..j] == live[..j];
  }
}

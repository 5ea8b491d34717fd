/** Ranking of candidates by their length-normalised score: a stable sort in
    descending order of the key (Python's `list.sort(key=..., reverse=True)`)
    and the slice that keeps the first `n` entries. */
module Ranking {
  import opened Candidates

  /** Length normalisation of a score; the source divides the score by the
      sequence length raised to 0.7, a floating-point power left abstract here. */
  type Norm = (real, nat) -> real

  /** The sort key of a candidate. */
  function Key(c: Candidate, norm: Norm): real
  {
    norm(c.score, |c.tokens|)
  }

  /** Keys never increase from left to right. */
  predicate SortedDesc(xs: seq<Candidate>, norm: Norm)
  {
    forall i, j :: 0 <= i < j < |xs| ==> Key(xs[i], norm) >= Key(xs[j], norm)
  }

  /** Places `x` in front of the first entry of `ys` whose key is not above its own. */
  function Insert(x: Candidate, ys: seq<Candidate>, norm: Norm): seq<Candidate>
  {
    if ys == [] || Key(ys[0], norm) <= Key(x, norm) then [x] + ys
    else [ys[0]] + Insert(x, ys[1..], norm)
  }

  /** Stable descending sort by key (insertion sort). */
  function SortDesc(xs: seq<Candidate>, norm: Norm): seq<Candidate>
  {
    if xs == [] then [] else Insert(xs[0], SortDesc(xs[1..], norm), norm)
  }

  /** Inserting into a descending ranking adds exactly `x` and keeps the ranking descending. */
  lemma {:induction false} InsertKeepsOrder(x: Candidate, ys: seq<Candidate>, norm: Norm)
    requires SortedDesc(ys, norm)
    ensures multiset(Insert(x, ys, norm)) == multiset(ys) + multiset{x}
    ensures SortedDesc(Insert(x, ys, norm), norm)
  {
    if ys != [] && Key(ys[0], norm) > Key(x, norm) {
      var rest := Insert(x, ys[1..], norm);
      InsertKeepsOrder(x, ys[1..], norm);
      assert ys == [ys[0]] + ys[1..];
      forall k | 0 <= k < |rest| ensures Key(rest[k], norm) <= Key(ys[0], norm) {
        assert rest[k] in multiset(rest);
        if rest[k] != x {
          assert rest[k] in ys[1..];
        }
      }
    }
  }

  /** The sort returns a descending ranking of exactly the entries it was given. */
  lemma {:induction false} SortDescSorts(xs: seq<Candidate>, norm: Norm)
    ensures |SortDesc(xs, norm)| == |xs|
    ensures multiset(SortDesc(xs, norm)) == multiset(xs)
    ensures SortedDesc(SortDesc(xs, norm), norm)
  {
    if xs != [] {
      SortDescSorts(xs[1..], norm);
      InsertKeepsOrder(xs[0], SortDesc(xs[1..], norm), norm);
      assert xs == [xs[0]] + xs[1..];
      assert |SortDesc(xs, norm)| == |multiset(SortDesc(xs, norm))|;
    }
  }

  /** The entries of `xs` whose key is exactly `k`, in their order in `xs`. */
  function WithKey(xs: seq<Candidate>, k: real, norm: Norm): seq<Candidate>
  {
    if xs == [] then []
    else (if Key(xs[0], norm) == k then [xs[0]] else []) + WithKey(xs[1..], k, norm)
  }

  lemma {:induction false} InsertIsStable(x: Candidate, ys: seq<Candidate>, k: real, norm: Norm)
    requires SortedDesc(ys, norm)
    ensures WithKey(Insert(x, ys, norm), k, norm)
            == (if Key(x, norm) == k then [x] else []) + WithKey(ys, k, norm)
  {
    if ys == [] || Key(ys[0], norm) <= Key(x, norm) {
      assert ([x] + ys)[1..] == ys;
    } else {
      var rest := Insert(x, ys[1..], norm);
      InsertIsStable(x, ys[1..], k, norm);
      assert ([ys[0]] + rest)[1..] == rest;
    }
  }

  /** The sort is stable: entries with equal keys keep their relative order. */
  lemma {:induction false} SortIsStable(xs: seq<Candidate>, k: real, norm: Norm)
    ensures WithKey(SortDesc(xs, norm), k, norm) == WithKey(xs, k, norm)
  {
    if xs != [] {
      SortIsStable(xs[1..], k, norm);
      SortDescSorts(xs[1..], norm);
      InsertIsStable(xs[0], SortDesc(xs[1..], norm), k, norm);
    }
  }

  /** Python's slice `xs[:n]`: the first `n` entries, or all of them when fewer. */
  function Take(xs: seq<Candidate>, n: nat): (r: seq<Candidate>)
    ensures |r| == if |xs| <= n then |xs| else n
    ensures r == xs[..|r|]
  {
    if |xs| <= n then xs else xs[..n]
  }

  /** Keeping the first `n` entries of a descending ranking keeps the best:
      no dropped entry ranks above a kept one, and the kept ones are still sorted. */
  lemma TakeKeepsBest(xs: seq<Candidate>, n: nat, norm: Norm)
    requires SortedDesc(xs, norm)
    ensures SortedDesc(Take(xs, n), norm)
    ensures forall i, j :: 0 <= i < |Take(xs, n)| <= j < |xs| ==> Key(xs[i], norm) >= Key(xs[j], norm)
    ensures multiset(Take(xs, n)) <= multiset(xs)
  {
    var r := Take(xs, n);
    assert xs == r + xs[|r|..];
  }
}

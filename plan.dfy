/**
 * The block of trials built by go() in delaydetect.py: N_REPETITIONS passes
 * over DELAYS, each pass an independently shuffled copy, concatenated.
 */
module TrialPlan {

  /** The delays to be presented, in ms. */
  const DELAYS: seq<int> := [0, 25, 50, 75, 100, 125, 150, 175, 200]

  /** How often each delay is presented. */
  const N_REPETITIONS: nat := 10

  predicate Distinct(s: seq<int>) {
    forall i, j :: 0 <= i < j < |s| ==> s[i] != s[j]
  }

  /** The k-th pass (0-based) of a plan whose passes have length n. */
  function Pass(plan: seq<int>, n: nat, k: nat): seq<int>
    requires (k + 1) * n <= |plan|
  {
    plan[k * n..(k + 1) * n]
  }

  /**
   * random.shuffle on a copy of s: some permutation of s. Which one is left
   * open, so every property proved below holds whatever the random source does.
   */
  method Shuffle(s: seq<int>) returns (r: seq<int>)
    ensures multiset(r) == multiset(s)
  {
    r :| multiset(r) == multiset(s);
  }

  /** The first i passes of plan are each a permutation of delays, and nothing follows them. */
  predicate PassesPermute(plan: seq<int>, delays: seq<int>, i: nat) {
    |plan| == i * |delays|
    && (forall k :: 0 <= k < i ==> (k + 1) * |delays| <= |plan| && multiset(Pass(plan, |delays|, k)) == multiset(delays))
  }

  /** The plan-building loop of go(), with range(reps) for the repetition count. */
  method BuildPlan(delays: seq<int>, reps: nat) returns (trials: seq<int>)
    ensures |trials| == |delays| * reps
    ensures forall k :: 0 <= k < reps ==> multiset(Pass(trials, |delays|, k)) == multiset(delays)
    ensures forall x :: multiset(trials)[x] == reps * multiset(delays)[x]
  {
    trials := [];
    var i := 0;
    while i < reps
      invariant 0 <= i <= reps
      invariant PassesPermute(trials, delays, i)
      invariant forall x :: multiset(trials)[x] == i * multiset(delays)[x]
    {
      var block := Shuffle(delays);
      AppendPass(trials, delays, i, block);
      trials := trials + block;
      i := i + 1;
    }
  }

  /** Appending one more shuffled pass keeps every pass a permutation and adds one to every count. */
  lemma AppendPass(plan: seq<int>, delays: seq<int>, i: nat, block: seq<int>)
    requires PassesPermute(plan, delays, i)
    requires forall x :: multiset(plan)[x] == i * multiset(delays)[x]
    requires multiset(block) == multiset(delays)
    ensures PassesPermute(plan + block, delays, i + 1)
    ensures forall x :: multiset(plan + block)[x] == (i + 1) * multiset(delays)[x]
  {
    var n := |delays|;
    assert |block| == n by {
      assert |multiset(block)| == |multiset(delays)|;
    }
    var next := plan + block;
    assert |next| == (i + 1) * n;
    forall k | 0 <= k < i + 1
      ensures (k + 1) * n <= |next| && multiset(Pass(next, n, k)) == multiset(delays)
    {
      if k < i {
        PassBound(k, i, n);
        assert Pass(next, n, k) == Pass(plan, n, k);
      } else {
        assert Pass(next, n, k) == block;
      }
    }
    forall x ensures multiset(next)[x] == (i + 1) * multiset(delays)[x] {
      assert multiset(next)[x] == multiset(plan)[x] + multiset(block)[x];
    }
  }

  lemma PassBound(k: nat, i: nat, n: nat)
    requires k < i
    ensures (k + 1) * n <= i * n
  {
    assert i * n == (k + 1) * n + (i - k - 1) * n;
  }

  /** In a list without repeats, each of its values occurs exactly once. */
  lemma {:induction false} DistinctOccursOnce(s: seq<int>, x: int)
    requires Distinct(s) && x in s
    ensures multiset(s)[x] == 1
  {
    assert s == [s[0]] + s[1..];
    if s[0] == x {
      assert x !in s[1..];
    } else {
      DistinctOccursOnce(s[1..], x);
    }
  }

  /** With distinct delays, counts of reps per delay mean each delay reps times and nothing else. */
  lemma BalancedFromCounts(trials: seq<int>, delays: seq<int>, reps: nat)
    requires Distinct(delays)
    requires forall x :: multiset(trials)[x] == reps * multiset(delays)[x]
    ensures forall d :: d in delays ==> multiset(trials)[d] == reps
    ensures forall x :: x in trials ==> x in delays
  {
    forall d | d in delays ensures multiset(trials)[d] == reps {
      DistinctOccursOnce(delays, d);
    }
    forall x | x in trials ensures x in delays {
      assert multiset(trials)[x] > 0;
    }
  }

  /** Strictly increasing lists have no repeats. */
  lemma IncreasingIsDistinct(s: seq<int>)
    requires forall k :: 0 <= k < |s| - 1 ==> s[k] < s[k + 1]
    ensures Distinct(s)
  {
    forall i, j | 0 <= i < j < |s| ensures s[i] < s[j] {
      var k := i;
      while k < j
        invariant i <= k <= j && s[i] <= s[k]
        invariant k > i ==> s[i] < s[k]
      {
        k := k + 1;
      }
    }
  }

  lemma DelaysDistinct()
    ensures Distinct(DELAYS)
  {
    IncreasingIsDistinct(DELAYS);
  }

  /**
   * Balance of the block go() builds: |DELAYS| x N_REPETITIONS trials, every
   * pass a permutation of DELAYS, every delay exactly N_REPETITIONS times and
   * nothing else.
   */
  method BuildBlock() returns (trials: seq<int>)
    ensures |trials| == |DELAYS| * N_REPETITIONS == 90
    ensures forall k :: 0 <= k < N_REPETITIONS ==> multiset(Pass(trials, |DELAYS|, k)) == multiset(DELAYS)
    ensures forall d :: d in DELAYS ==> multiset(trials)[d] == N_REPETITIONS
    ensures forall x :: x in trials ==> x in DELAYS
  {
    trials := BuildPlan(DELAYS, N_REPETITIONS);
    DelaysDistinct();
    BalancedFromCounts(trials, DELAYS, N_REPETITIONS);
  }
}

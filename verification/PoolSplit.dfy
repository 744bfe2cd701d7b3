/**
 How `runPool` of Examples/Bench.lean splits its connections among worker threads, and
 the number of waves `run` reports for it.
 */
module PoolSplit {
  import opened Common

  /** Lean's `Nat` subtraction and division: no less than zero, and zero by zero. */
  function Minus(a: nat, b: nat): nat { if a < b then 0 else a - b }

  function Div(a: nat, b: nat): nat { if b == 0 then 0 else a / b }

  /** `k` in the source. */
  function Workers(conns: nat, threads: nat): nat {
    Max(1, Min(threads, conns))
  }

  function PerWorker(conns: nat, threads: nat): nat {
    Div(Minus(conns + Workers(conns, threads), 1), Workers(conns, threads))
  }

  function Waves(conns: nat, pool: nat): nat {
    Div(Minus(conns + pool, 1), pool)
  }

  /** The connections `lo` up to `hi`. */
  function Range(lo: nat, hi: nat): seq<nat> {
    if lo < hi then seq(hi - lo, i requires 0 <= i => lo + i) else []
  }

  /** The workers `runPool` starts, each with the connections it takes: all of them, in
      order, none twice; no worker without any or with more than its share. */
  method Split(conns: nat, threads: nat) returns (workers: seq<seq<nat>>)
    ensures Concat(workers) == Range(0, conns)
    ensures |workers| <= Workers(conns, threads) && |workers| <= if threads == 0 then 1 else threads
    ensures forall i | 0 <= i < |workers| :: 0 < |workers[i]| <= PerWorker(conns, threads)
    ensures conns > 0 ==> workers != [] && |workers[0]| == PerWorker(conns, threads)
  {
    var k := Max(1, Min(threads, conns));
    var perWorker := (conns + k - 1) / k;
    CeilingBounds(conns, k);
    workers := [];
    for w := 0 to k
      invariant Concat(workers) == Range(0, Min(conns, w * perWorker))
      invariant |workers| <= w
      invariant forall i | 0 <= i < |workers| :: 0 < |workers[i]| <= perWorker
      invariant conns > 0 && w > 0 ==> workers != [] && |workers[0]| == perWorker
    {
      var lo := w * perWorker;
      var hi := Min(conns, lo + perWorker);
      assert (w + 1) * perWorker == lo + perWorker;
      if lo < hi {
        ConcatSnoc(workers, Range(lo, hi));
        assert Range(0, lo) + Range(lo, hi) == Range(0, hi);
        workers := workers + [Range(lo, hi)];
      }
    }
  }

  /** `(n + k - 1) / k` is the least `p` with `n <= k * p`. */
  lemma CeilingBounds(n: nat, k: nat)
    requires k > 0
    ensures n <= k * ((n + k - 1) / k)
    ensures n > 0 ==> k * ((n + k - 1) / k - 1) < n
    ensures n > 0 ==> 0 < (n + k - 1) / k <= n
    ensures n == 0 ==> (n + k - 1) / k == 0
  {
    Quotient(n + k - 1, k);
    QuotientIsBetween(n, k, (n + k - 1) / k);
  }

  lemma Quotient(x: nat, k: nat)
    requires k > 0
    ensures k * (x / k) <= x < k * (x / k) + k
  {
    assert x == k * (x / k) + x % k;
  }

  lemma QuotientIsBetween(n: nat, k: nat, p: nat)
    requires k > 0 && k * p <= n + k - 1 < k * p + k
    ensures n <= k * p && k * (p - 1) == k * p - k
    ensures n > 0 ==> 0 < p <= n
    ensures n == 0 ==> p == 0
  {
    if p == 0 {
      assert k * p == 0;
    } else if p > n {
      TooMany(n, k, p);
    }
  }

  lemma TooMany(n: nat, k: nat, p: nat)
    requires k > 0 && p > n
    ensures k * p >= n + k
  {
    assert k * p >= k * (n + 1) == k * n + k;
  }

  /** The reported waves are the largest share exactly when there are threads to share
      among, or nothing to share. */
  lemma WavesArePerWorkerIff(conns: nat, pool: nat)
    ensures Waves(conns, pool) == PerWorker(conns, pool) <==> pool > 0 || conns == 0
  {
    if pool > conns > 0 {
      assert Workers(conns, pool) == conns;
      OneEach(conns);
      OneEnough(conns, pool);
    } else if pool > 0 {
      CeilingBounds(conns, if conns == 0 then 1 else pool);
      CeilingBounds(conns, pool);
    } else if conns > 0 {
      CeilingBounds(conns, 1);
    }
  }

  /** `linen_num_cpus`: what the system reports, and at least one. */
  function NumCpus(online: int): nat {
    if online < 1 then 1 else online
  }

  /** `run` takes its pool from there, so what it reports is always the largest share. */
  lemma ReportedWavesAreTheShare(conns: nat, online: int)
    ensures Waves(conns, NumCpus(online)) == PerWorker(conns, NumCpus(online))
  {
    WavesArePerWorkerIff(conns, NumCpus(online));
  }

  lemma OneEach(n: nat)
    requires n > 0
    ensures (n + n - 1) / n == 1
  {
  }

  lemma OneEnough(n: nat, k: nat)
    requires 0 < n <= k
    ensures (n + k - 1) / k == 1
  {
  }

  // ── No other assignment is better ──

  /** How many connections `assignment` gives to worker `w`. */
  function Load(assignment: seq<nat>, w: nat): nat {
    if assignment == [] then 0
    else (if assignment[0] == w then 1 else 0) + Load(assignment[1..], w)
  }

  function TotalLoad(assignment: seq<nat>, k: nat): nat {
    if k == 0 then 0 else Load(assignment, k - 1) + TotalLoad(assignment, k - 1)
  }

  lemma {:induction false} TotalLoadIsLength(assignment: seq<nat>, k: nat)
    requires forall c | 0 <= c < |assignment| :: assignment[c] < k
    ensures TotalLoad(assignment, k) == |assignment|
  {
    if assignment == [] {
      NoLoad(k);
    } else {
      TotalLoadIsLength(assignment[1..], k);
      OneMore(assignment, k);
    }
  }

  lemma {:induction false} NoLoad(k: nat)
    ensures TotalLoad([], k) == 0
  {
    if k > 0 {
      NoLoad(k - 1);
    }
  }

  lemma {:induction false} OneMore(assignment: seq<nat>, k: nat)
    requires assignment != []
    ensures TotalLoad(assignment, k) == TotalLoad(assignment[1..], k) + if assignment[0] < k then 1 else 0
  {
    if k > 0 {
      OneMore(assignment, k - 1);
    }
  }

  lemma {:induction false} TotalLoadBound(assignment: seq<nat>, k: nat, m: nat)
    requires forall w | 0 <= w < k :: Load(assignment, w) <= m
    ensures TotalLoad(assignment, k) <= k * m
  {
    if k > 0 {
      TotalLoadBound(assignment, k - 1, m);
      assert k * m == (k - 1) * m + m;
    }
  }

  /** Any way to give the connections to that many threads loads some thread at least as
      much as the split does. */
  lemma SplitIsOptimal(conns: nat, threads: nat, assignment: seq<nat>)
    requires conns > 0 && threads > 0 && |assignment| == conns
    requires forall c | 0 <= c < conns :: assignment[c] < threads
    ensures exists w | 0 <= w < threads :: Load(assignment, w) >= PerWorker(conns, threads)
  {
    WavesArePerWorkerIff(conns, threads);
    var p := PerWorker(conns, threads);
    CeilingBounds(conns, threads);
    if forall w | 0 <= w < threads :: Load(assignment, w) <= p - 1 {
      TotalLoadBound(assignment, threads, p - 1);
      TotalLoadIsLength(assignment, threads);
      assert false;
    }
  }
}

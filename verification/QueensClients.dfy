/**
 * The two clients that split the board into subproblems and add up the answers: the C++ one
 * by first column (examples/nqueens/client.cc), the Go one by first or by first and second
 * column (examples/nqueens/go/nqueens-client/client.go). Answers arrive in any order.
 */
module QueensClients {
  import opened Arrivals
  import opened Queens
  import opened QueensServer
  import opened Sums

  // ---- One level of shards, answered in any order ------------------------------------

  /** What the server answers for a first column. */
  ghost function Answer(N: nat, col: nat): nat
    requires N > 0
  {
    if N == 1 then 0 else Count(N, [col])
  }

  ghost function WeightedAnswer(N: nat): nat -> int
    requires N > 0
  {
    (col: nat) => Weight(N, col) * Answer(N, col)
  }

  lemma {:induction false} SumOfColumns(N: nat, n: nat)
    requires N > 1 && n <= Half(N)
    ensures Sum(Indices(n), WeightedAnswer(N)) == WeightedSum(N, n)
  {
    if n > 0 {
      SumOfColumns(N, n - 1);
      SumAppend<nat>(Indices(n - 1), n - 1, WeightedAnswer(N));
    }
  }

  /** Any order of the half board's answers, weighted, adds up to every placement. */
  lemma ArrivalTotal(N: nat, arrival: seq<nat>)
    requires N > 0 && Arrival(arrival, Half(N))
    ensures Sum(arrival, WeightedAnswer(N)) == if N == 1 then 0 else Count(N, [])
  {
    SumPermutation(arrival, Indices(Half(N)), WeightedAnswer(N));
    if N > 1 {
      SumOfColumns(N, Half(N));
      WeightedTotal(N);
    } else {
      NothingForOne(Indices(Half(1)));
    }
  }

  lemma {:induction false} NothingForOne(columns: seq<nat>)
    ensures Sum(columns, WeightedAnswer(1)) == 0
  {
    if columns != [] {
      NothingForOne(columns[..|columns| - 1]);
    }
  }

  class QueensClient {
    var got: nat
    var total: nat
    var reports: seq<nat>

    constructor ()
      ensures got == 0 && total == 0 && reports == []
    {
      got, total, reports := 0, 0, [];
    }

    /** The response callback: the total is reported by the last response and no other. */
    method OnResponse(N: nat, col: nat, count: nat)
      modifies this
      ensures got == old(got) + 1
      ensures total == old(total) + Weight(N, col) * count
      ensures reports == old(reports) + if got == Half(N) then [total] else []
    {
      if N % 2 == 1 && col == N / 2 {
        total := total + count;
      } else {
        total := total + 2 * count;
      }
      got := got + 1;
      if got == (N + 1) / 2 {
        reports := reports + [total];
      }
    }

    /**
     * Solves the board from the answers for the columns of the left half, arriving in any
     * order: the one report is the number of placements, except that one queen counts 0.
     */
    method Run(N: nat, arrival: seq<nat>)
      requires 0 < N <= MAX_QUEENS
      requires Arrival(arrival, Half(N))
      requires got == 0 && total == 0 && reports == []
      modifies this
      ensures got == Half(N)
      ensures reports == [total]
      ensures total == if N == 1 then 0 else Count(N, [])
    {
      ArrivalInRange(arrival, Half(N));
      for i := 0 to |arrival|
        invariant got == i
        invariant total == Sum(arrival[..i], WeightedAnswer(N))
        invariant reports == if i == Half(N) then [total] else []
      {
        var count := BacktrackingSub(N, arrival[i], -1);
        SumPrefix(arrival, i, WeightedAnswer(N));
        OnResponse(N, arrival[i], count);
      }
      assert arrival[..|arrival|] == arrival;
      ArrivalTotal(N, arrival);
    }
  }

  // ---- Two levels of shards ----------------------------------------------------------

  datatype Shard = Shard(first: nat, second: int, count: nat)

  type Job = (nat, int)

  /** The subproblems of first column `i`: itself, or one a second column on large boards. */
  function JobsOf(N: nat, threshold: int, i: nat): seq<Job> {
    if N <= threshold then [(i, -1)] else seq(N, j => (i, j))
  }

  function Jobs(N: nat, threshold: int, n: nat): seq<Job> {
    if n == 0 then [] else Jobs(N, threshold, n - 1) + JobsOf(N, threshold, n - 1)
  }

  ghost predicate ValidJob(N: nat, job: Job) {
    job.0 < N && job.1 < N
  }

  ghost function JobAnswer(N: nat, job: Job): nat
    requires N > 0
  {
    if N == 1 then 0 else if job.1 < 0 then Count(N, [job.0]) else Count(N, [job.0, job.1])
  }

  function CountOf(first: nat): Shard -> int {
    (s: Shard) => if s.first == first then s.count else 0
  }

  ghost function AnswerOf(N: nat, first: nat): Job -> int
    requires N > 0
  {
    (job: Job) => if job.0 == first then JobAnswer(N, job) else 0
  }

  /** Fixing two rows and adding over the second column is fixing one row. */
  lemma {:induction false} SecondColumns(N: nat, f: nat, n: nat)
    requires N > 1 && n <= N
    ensures Sum(seq(n, j => (f, j)), AnswerOf(N, f)) == SumColumns(N, [f], n)
  {
    var jobs: seq<Job> := seq(n, j => (f, j));
    if n > 0 {
      SecondColumns(N, f, n - 1);
      var fewer: seq<Job> := seq(n - 1, j => (f, j));
      assert jobs == fewer + [(f, n - 1)];
      SumAppend(fewer, (f, n - 1), AnswerOf(N, f));
      assert [f] + [n - 1] == [f, n - 1];
    }
  }

  lemma {:induction false} OtherColumns(N: nat, jobs: seq<Job>, f: nat)
    requires N > 0 && forall i :: 0 <= i < |jobs| ==> jobs[i].0 != f
    ensures Sum(jobs, AnswerOf(N, f)) == 0
  {
    if jobs != [] {
      OtherColumns(N, jobs[..|jobs| - 1], f);
    }
  }

  lemma {:induction false} JobsTotal(N: nat, threshold: int, n: nat, f: nat)
    requires N > 1
    ensures Sum(Jobs(N, threshold, n), AnswerOf(N, f)) == if f < n then Count(N, [f]) else 0
  {
    if n > 0 {
      JobsTotal(N, threshold, n - 1, f);
      SumConcat(Jobs(N, threshold, n - 1), JobsOf(N, threshold, n - 1), AnswerOf(N, f));
      var row := JobsOf(N, threshold, n - 1);
      if f != n - 1 {
        OtherColumns(N, row, f);
      } else if N <= threshold {
        SumAppend([], (f, -1), AnswerOf(N, f));
        assert [] + [(f, -1)] == row;
      } else {
        SecondColumns(N, f, N);
        CountByColumn(N, [f]);
      }
    }
  }

  /** The jobs a board is split into: first columns only, up to the threshold. */
  predicate IsJob(N: nat, threshold: int, n: nat, job: Job) {
    job.0 < n && if N <= threshold then job.1 == -1 else 0 <= job.1 < N
  }

  function IsThe(job: Job): Job -> int {
    (other: Job) => if other == job then 1 else 0
  }

  /** Each of them is given out exactly once, and nothing else is. */
  lemma {:induction false} JobsExactly(N: nat, threshold: int, n: nat, job: Job)
    ensures Sum(Jobs(N, threshold, n), IsThe(job)) == if IsJob(N, threshold, n, job) then 1 else 0
  {
    if n > 0 {
      JobsExactly(N, threshold, n - 1, job);
      SumConcat(Jobs(N, threshold, n - 1), JobsOf(N, threshold, n - 1), IsThe(job));
      JobsOfColumn(N, threshold, n - 1, job);
    }
  }

  lemma JobsOfColumn(N: nat, threshold: int, i: nat, job: Job)
    ensures Sum(JobsOf(N, threshold, i), IsThe(job))
         == if job.0 == i && IsJob(N, threshold, i + 1, job) then 1 else 0
  {
    if N > threshold {
      RowOfJobs(N, i, job);
    } else {
      SumAppend([], (i, -1), IsThe(job));
      assert [] + [(i, -1)] == JobsOf(N, threshold, i);
    }
  }

  lemma {:induction false} RowOfJobs(n: nat, i: nat, job: Job)
    ensures var row: seq<Job> := seq(n, j => (i, j));
      Sum(row, IsThe(job)) == if job.0 == i && 0 <= job.1 < n then 1 else 0
  {
    if n > 0 {
      RowOfJobs(n - 1, i, job);
      var fewer: seq<Job> := seq(n - 1, j => (i, j));
      var row: seq<Job> := seq(n, j => (i, j));
      assert row == fewer + [(i, n - 1)];
      SumAppend(fewer, (i, n - 1), IsThe(job));
    }
  }

  lemma {:induction false} JobsValid(N: nat, threshold: int, n: nat)
    requires n <= N
    ensures forall job :: job in Jobs(N, threshold, n) ==> ValidJob(N, job)
  {
    if n > 0 {
      JobsValid(N, threshold, n - 1);
    }
  }

  /** Shard `k` is the server's answer to job `k`. */
  ghost predicate Answers(N: nat, shards: seq<Shard>, jobs: seq<Job>)
    requires N > 0
  {
    |shards| == |jobs| && forall k :: 0 <= k < |jobs| ==>
      shards[k] == Shard(jobs[k].0, jobs[k].1, JobAnswer(N, jobs[k]))
  }

  lemma {:induction false} ShardsSum(N: nat, shards: seq<Shard>, jobs: seq<Job>, f: nat)
    requires N > 0 && Answers(N, shards, jobs)
    ensures Sum(shards, CountOf(f)) == Sum(jobs, AnswerOf(N, f))
  {
    if jobs != [] {
      ShardsSum(N, shards[..|jobs| - 1], jobs[..|jobs| - 1], f);
    }
  }

  lemma ArrivalValid(N: nat, threshold: int, arrival: seq<Job>)
    requires N > 0 && multiset(arrival) == multiset(Jobs(N, threshold, Half(N)))
    ensures forall k :: 0 <= k < |arrival| ==> ValidJob(N, arrival[k])
  {
    JobsValid(N, threshold, Half(N));
    forall k | 0 <= k < |arrival| ensures ValidJob(N, arrival[k]) {
      assert arrival[k] in multiset(Jobs(N, threshold, Half(N)));
    }
  }

  /** The server's answer to one job. */
  method Ask(N: nat, job: Job) returns (count: nat)
    requires 0 < N <= MAX_QUEENS && ValidJob(N, job)
    ensures count == JobAnswer(N, job)
  {
    if N > 1 {
      OnBoardAnswer(N, job.0, job.1);
    }
    count := BacktrackingSub(N, job.0, job.1);
  }

  /** Collects one shard a job, in the order `arrival` in which the channel delivers them. */
  method Mapper(N: nat, threshold: int, arrival: seq<Job>) returns (result: seq<Shard>)
    requires 0 < N <= MAX_QUEENS
    requires multiset(arrival) == multiset(Jobs(N, threshold, Half(N)))
    ensures Answers(N, result, arrival)
  {
    ArrivalValid(N, threshold, arrival);
    result := [];
    for k := 0 to |arrival|
      invariant Answers(N, result, arrival[..k])
    {
      var count := Ask(N, arrival[k]);
      result := result + [Shard(arrival[k].0, arrival[k].1, count)];
    }
    assert arrival[..|arrival|] == arrival;
  }

  /** Reading a Go map: a missing key reads as zero. */
  function At(m: map<nat, int>, k: nat): int {
    if k in m then m[k] else 0
  }

  ghost function ReducedTotal(N: nat, shards: seq<Shard>, n: nat): int {
    if n == 0 then 0 else ReducedTotal(N, shards, n - 1) + Weight(N, n - 1) * Sum(shards, CountOf(n - 1))
  }

  method Reducer(N: nat, shards: seq<Shard>) returns (total: int)
    ensures total == ReducedTotal(N, shards, Half(N))
  {
    var results: map<nat, int> := map[];
    for k := 0 to |shards|
      invariant forall f :: At(results, f) == Sum(shards[..k], CountOf(f))
    {
      var shard := shards[k];
      forall f ensures Sum(shards[..k + 1], CountOf(f)) == Sum(shards[..k], CountOf(f)) + CountOf(f)(shard) {
        SumPrefix(shards, k, CountOf(f));
      }
      results := results[shard.first := At(results, shard.first) + shard.count];
    }
    assert shards[..|shards|] == shards;
    total := 0;
    for i := 0 to (N + 1) / 2
      invariant total == ReducedTotal(N, shards, i)
    {
      if N % 2 == 1 && i == N / 2 {
        total := total + At(results, i);
      } else {
        total := total + 2 * At(results, i);
      }
    }
  }

  /** Whatever order the shards arrive in, those of one first column add up to its count. */
  lemma ShardsOfColumn(N: nat, threshold: int, shards: seq<Shard>, arrival: seq<Job>, f: nat)
    requires N > 1 && Answers(N, shards, arrival) && f < Half(N)
    requires multiset(arrival) == multiset(Jobs(N, threshold, Half(N)))
    ensures Sum(shards, CountOf(f)) == Count(N, [f])
  {
    ShardsSum(N, shards, arrival, f);
    SumPermutation(arrival, Jobs(N, threshold, Half(N)), AnswerOf(N, f));
    JobsTotal(N, threshold, Half(N), f);
  }

  lemma {:induction false} ReducedIsWeighted(N: nat, shards: seq<Shard>, n: nat)
    requires n <= Half(N)
    requires forall f :: 0 <= f < n ==> Sum(shards, CountOf(f)) == Count(N, [f])
    ensures ReducedTotal(N, shards, n) == WeightedSum(N, n)
  {
    if n > 0 {
      ReducedIsWeighted(N, shards, n - 1);
    }
  }

  lemma {:induction false} ReducedOne(shards: seq<Shard>, arrival: seq<Job>, f: nat)
    requires Answers(1, shards, arrival)
    ensures Sum(shards, CountOf(f)) == 0
  {
    if shards != [] {
      ReducedOne(shards[..|shards| - 1], arrival[..|shards| - 1], f);
    }
  }

  /**
   * One or two levels of shards, in any order of arrival: the reduced total is the number of
   * placements, except that one queen counts 0.
   */
  method Solve(N: nat, threshold: int, arrival: seq<Job>) returns (solution: int)
    requires 0 < N <= MAX_QUEENS
    requires multiset(arrival) == multiset(Jobs(N, threshold, Half(N)))
    ensures solution == if N == 1 then 0 else Count(N, [])
  {
    var shards := Mapper(N, threshold, arrival);
    solution := Reducer(N, shards);
    if N > 1 {
      forall f | 0 <= f < Half(N) ensures Sum(shards, CountOf(f)) == Count(N, [f]) {
        ShardsOfColumn(N, threshold, shards, arrival, f);
      }
      ReducedIsWeighted(N, shards, Half(N));
      WeightedTotal(N);
    } else {
      ReducedOne(shards, arrival, 0);
      assert ReducedTotal(1, shards, 0) == 0;
    }
  }
}

/** The matchmaking coordinator of experiment/match_making.py: the registry of
    recorded agents and of scheduled benchmarking jobs, the computation of
    the new jobs for each arriving agent with its deduplication rule, the
    coordinator's receive loop and its termination decision.

    Agents, training schemes and their equality are abstract: `S` and `G`
    stand for the scheme and agent objects, and `==` on them stands for
    whatever `__eq__` those objects have.  Spawning a benchmarking process,
    joining it, shutting the pool down and killing the coordinator are
    recorded as values (a `BenchmarkProcess` handle, `ShutdownAction`s). */
module MatchMaking {
  import opened Common

  datatype RecordedAgent<S, G> = RecordedAgent(iteration: int, trainingScheme: S, agent: G)

  /** A benchmarking job. `calculate_new_benchmarking_jobs` builds
      `recorded_agent_vector` as the two-element list
      `[recorded_agent_1, recorded_agent_2]`; here the two entries are fields. */
  datatype BenchmarkingJob<S, G> = BenchmarkingJob(iteration: int, first: RecordedAgent<S, G>, second: RecordedAgent<S, G>)

  /** The label yielded with each job: both participants' scheme and agent
      (`calculate_new_benchmarking_jobs` formats their `.name` into the label
      string) and the iteration. */
  datatype BenchmarkName<S, G> = BenchmarkName(scheme1: S, agent1: G, scheme2: S, agent2: G, iteration: int)

  /** The handle of a spawned benchmarking process, with what it was given. */
  datatype BenchmarkProcess<S, G> = BenchmarkProcess(job: BenchmarkingJob<S, G>, name: BenchmarkName<S, G>)

  /** What `check_for_termination` does, in order, once it fires. */
  datatype ShutdownAction<S, G> = Join(process: BenchmarkProcess<S, G>) | ShutdownPool | KillSelf

  /** The local state of the `match_making_process` loop. */
  datatype Coordinator<S, G> = Coordinator(
    receivedAgents: nat,
    recordedAgents: seq<RecordedAgent<S, G>>,
    recordedBenchmarkingJobs: seq<BenchmarkingJob<S, G>>,
    benchmarkingChildProcesses: seq<BenchmarkProcess<S, G>>)

  // ---------------------------------------------------------------------
  // Job equality and the "already recorded" test
  // ---------------------------------------------------------------------

  /** How often `x` occurs in `recorded_agent_vector`: the value of
      `Counter(recorded_agent_vector)` at `x`. */
  function Count<S(==), G(==)>(job: BenchmarkingJob<S, G>, x: RecordedAgent<S, G>): nat
  {
    (if job.first == x then 1 else 0) + (if job.second == x then 1 else 0)
  }

  /** The `job_equality` lambda: same iteration and equal `Counter`s of the
      participants.  Two counters are equal when they have the same keys
      with the same counts; the keys are the participants of either job. */
  predicate JobEquality<S(==), G(==)>(job1: BenchmarkingJob<S, G>, job2: BenchmarkingJob<S, G>)
  {
    job1.iteration == job2.iteration &&
    Count(job1, job1.first) == Count(job2, job1.first) &&
    Count(job1, job1.second) == Count(job2, job1.second) &&
    Count(job1, job2.first) == Count(job2, job2.first) &&
    Count(job1, job2.second) == Count(job2, job2.second)
  }

  /** The participants of a job as a bag. */
  function Participants<S(==), G(==)>(job: BenchmarkingJob<S, G>): multiset<RecordedAgent<S, G>>
  {
    multiset{job.first, job.second}
  }

  /** Counter equality is bag equality of the participants. */
  lemma JobEqualityIsBagEquality<S, G>(job1: BenchmarkingJob<S, G>, job2: BenchmarkingJob<S, G>)
    ensures JobEquality(job1, job2) <==>
      job1.iteration == job2.iteration && Participants(job1) == Participants(job2)
  {
    var m1 := Participants(job1);
    var m2 := Participants(job2);
    forall x ensures m1[x] == Count(job1, x) && m2[x] == Count(job2, x) {
    }
    if JobEquality(job1, job2) {
      forall x ensures m1[x] == m2[x] {
        if x != job1.first && x != job1.second && x != job2.first && x != job2.second {
          assert m1[x] == 0 == m2[x];
        }
      }
    }
  }

  /** Bag equality of two pairs is equality up to swapping the two entries. */
  lemma JobEqualityOfPairs<S, G>(job1: BenchmarkingJob<S, G>, job2: BenchmarkingJob<S, G>)
    ensures JobEquality(job1, job2) <==>
      job1.iteration == job2.iteration &&
      ((job1.first == job2.first && job1.second == job2.second) ||
       (job1.first == job2.second && job1.second == job2.first))
  {
  }

  /** Two examples: the order of the participants does not matter, but a
      self-match differs from a match against another agent. */
  lemma JobEqualityExamples<S, G>(it: int, a: RecordedAgent<S, G>, b: RecordedAgent<S, G>)
    ensures JobEquality(BenchmarkingJob(it, a, b), BenchmarkingJob(it, b, a))
    ensures a != b ==> !JobEquality(BenchmarkingJob(it, a, b), BenchmarkingJob(it, a, a))
  {
    JobEqualityOfPairs(BenchmarkingJob(it, a, b), BenchmarkingJob(it, b, a));
    JobEqualityOfPairs(BenchmarkingJob(it, a, b), BenchmarkingJob(it, a, a));
  }

  /** `is_benchmarking_job_already_recorded`: `any` over the recorded jobs of
      `job_equality` with the candidate, written as a scan from the back. */
  function IsBenchmarkingJobAlreadyRecorded<S(==), G(==)>(job: BenchmarkingJob<S, G>, recorded: seq<BenchmarkingJob<S, G>>): bool
    decreases |recorded|
  {
    if |recorded| == 0 then false
    else
      IsBenchmarkingJobAlreadyRecorded(job, recorded[..|recorded| - 1]) ||
      JobEquality(job, recorded[|recorded| - 1])
  }

  /** The test succeeds exactly when some recorded job equals the candidate. */
  lemma {:induction false} AlreadyRecordedIffSomeEqual<S, G>(job: BenchmarkingJob<S, G>, recorded: seq<BenchmarkingJob<S, G>>)
    ensures IsBenchmarkingJobAlreadyRecorded(job, recorded) <==>
      exists k :: 0 <= k < |recorded| && JobEquality(job, recorded[k])
    decreases |recorded|
  {
    if |recorded| > 0 {
      var front := recorded[..|recorded| - 1];
      AlreadyRecordedIffSomeEqual(job, front);
      if IsBenchmarkingJobAlreadyRecorded(job, front) {
        var k :| 0 <= k < |front| && JobEquality(job, front[k]);
        assert recorded[k] == front[k];
      }
      if exists k :: 0 <= k < |recorded| && JobEquality(job, recorded[k]) {
        var k :| 0 <= k < |recorded| && JobEquality(job, recorded[k]);
        if k < |front| {
          assert front[k] == recorded[k];
        }
      }
    }
  }

  /** A singleton list records the candidate exactly when its job equals it. */
  lemma AlreadyRecordedInSingleton<S, G>(job: BenchmarkingJob<S, G>, other: BenchmarkingJob<S, G>)
    ensures IsBenchmarkingJobAlreadyRecorded(job, [other]) <==> JobEquality(job, other)
  {
    assert [other][..0] == [];
  }

  /** Scanning a concatenation is scanning both parts. */
  lemma {:induction false} AlreadyRecordedInConcat<S, G>(job: BenchmarkingJob<S, G>, a: seq<BenchmarkingJob<S, G>>, b: seq<BenchmarkingJob<S, G>>)
    ensures IsBenchmarkingJobAlreadyRecorded(job, a + b) <==>
      IsBenchmarkingJobAlreadyRecorded(job, a) || IsBenchmarkingJobAlreadyRecorded(job, b)
    decreases |b|
  {
    if |b| == 0 {
      assert a + b == a;
    } else {
      var front := b[..|b| - 1];
      assert (a + b)[..|a + b| - 1] == a + front;
      assert (a + b)[|a + b| - 1] == b[|b| - 1];
      AlreadyRecordedInConcat(job, a, front);
    }
  }

  /** No two jobs of the registry are equal under `JobEquality`. */
  predicate DuplicateFree<S(==), G(==)>(jobs: seq<BenchmarkingJob<S, G>>)
  {
    forall a, b {:trigger JobEquality(jobs[a], jobs[b])} :: 0 <= a < b < |jobs| ==> !JobEquality(jobs[a], jobs[b])
  }

  // ---------------------------------------------------------------------
  // Filtering the recorded agents (line 85)
  // ---------------------------------------------------------------------

  /** A fresh `RecordedAgent` holding a clone of the agent snapshot. */
  function CloneRecordedAgent<S, G>(r: RecordedAgent<S, G>, clone: G -> G): RecordedAgent<S, G>
  {
    RecordedAgent(r.iteration, r.trainingScheme, clone(r.agent))
  }

  /** The list comprehension building `filtered_recorded_agents`: the recorded
      agents of iteration `iterationFilter`, in registry order, each with its
      agent replaced by a clone. */
  function FilteredRecordedAgents<S, G>(recorded: seq<RecordedAgent<S, G>>, iterationFilter: int, clone: G -> G): (f: seq<RecordedAgent<S, G>>)
    ensures |f| <= |recorded|
    ensures forall k :: 0 <= k < |f| ==> f[k].iteration == iterationFilter
    ensures forall k :: 0 <= k < |recorded| && recorded[k].iteration == iterationFilter ==>
      CloneRecordedAgent(recorded[k], clone) in f
    decreases |recorded|
  {
    if |recorded| == 0 then []
    else
      var last := recorded[|recorded| - 1];
      FilteredRecordedAgents(recorded[..|recorded| - 1], iterationFilter, clone) +
      (if last.iteration == iterationFilter then [CloneRecordedAgent(last, clone)] else [])
  }

  /** Filtering keeps registry order: filtering a concatenation is the
      concatenation of the filtered parts. */
  lemma {:induction false} FilterOfConcat<S, G>(a: seq<RecordedAgent<S, G>>, b: seq<RecordedAgent<S, G>>, iterationFilter: int, clone: G -> G)
    ensures FilteredRecordedAgents(a + b, iterationFilter, clone) ==
      FilteredRecordedAgents(a, iterationFilter, clone) + FilteredRecordedAgents(b, iterationFilter, clone)
    decreases |b|
  {
    if |b| == 0 {
      assert a + b == a;
    } else {
      var b' := b[..|b| - 1];
      assert (a + b)[..|a + b| - 1] == a + b';
      assert (a + b)[|a + b| - 1] == b[|b| - 1];
      FilterOfConcat(a, b', iterationFilter, clone);
    }
  }

  /** The filtered list holds exactly the clones of the recorded agents of
      iteration `iterationFilter`. */
  lemma {:induction false} FilteredMembers<S, G>(recorded: seq<RecordedAgent<S, G>>, iterationFilter: int, clone: G -> G, x: RecordedAgent<S, G>)
    ensures x in FilteredRecordedAgents(recorded, iterationFilter, clone) <==>
      exists k :: 0 <= k < |recorded| && recorded[k].iteration == iterationFilter && x == CloneRecordedAgent(recorded[k], clone)
    decreases |recorded|
  {
    if |recorded| > 0 {
      var front := recorded[..|recorded| - 1];
      FilteredMembers(front, iterationFilter, clone, x);
      if x in FilteredRecordedAgents(front, iterationFilter, clone) {
        var k :| 0 <= k < |front| && front[k].iteration == iterationFilter && x == CloneRecordedAgent(front[k], clone);
        assert recorded[k] == front[k];
      }
      if exists k :: 0 <= k < |recorded| && recorded[k].iteration == iterationFilter && x == CloneRecordedAgent(recorded[k], clone) {
        var k :| 0 <= k < |recorded| && recorded[k].iteration == iterationFilter && x == CloneRecordedAgent(recorded[k], clone);
        if k < |front| {
          assert front[k] == recorded[k];
        }
      }
    }
  }

  // ---------------------------------------------------------------------
  // The candidate pairs and the new jobs (lines 86-96)
  // ---------------------------------------------------------------------

  /** The jobs the generator has kept once the outer loop is at
      `filtered[i]` and the inner loop at `filtered[j]`: every candidate
      `(filtered[a], filtered[b])` before `(i, j)` in lexicographic order has
      been tested against the recorded jobs followed by the jobs kept before
      it, and kept when no job equals it.  The whole generator keeps
      `NewJobsAt(filtered, iterationFilter, recorded, |filtered|, 0)`. */
  function NewJobsAt<S(==), G(==)>(filtered: seq<RecordedAgent<S, G>>, iterationFilter: int,
                                   recorded: seq<BenchmarkingJob<S, G>>, i: nat, j: nat): seq<BenchmarkingJob<S, G>>
    requires i <= |filtered| && j <= |filtered| && (i == |filtered| ==> j == 0)
    decreases i, j
  {
    if j == 0 then
      (if i == 0 then [] else NewJobsAt(filtered, iterationFilter, recorded, i - 1, |filtered|))
    else
      var kept := NewJobsAt(filtered, iterationFilter, recorded, i, j - 1);
      var job := BenchmarkingJob(iterationFilter, filtered[i], filtered[j - 1]);
      if IsBenchmarkingJobAlreadyRecorded(job, recorded + kept) then kept else kept + [job]
  }

  /** A job over the filtered agents at the filter's iteration. */
  predicate JobOver<S(==), G(==)>(filtered: seq<RecordedAgent<S, G>>, iterationFilter: int, job: BenchmarkingJob<S, G>)
  {
    job.iteration == iterationFilter && job.first in filtered && job.second in filtered
  }

  /** Every kept job has the filter's iteration and two filtered participants. */
  lemma {:induction false} NewJobsFromFiltered<S, G>(filtered: seq<RecordedAgent<S, G>>, iterationFilter: int,
                                                   recorded: seq<BenchmarkingJob<S, G>>, i: nat, j: nat)
    requires i <= |filtered| && j <= |filtered| && (i == |filtered| ==> j == 0)
    ensures forall k :: 0 <= k < |NewJobsAt(filtered, iterationFilter, recorded, i, j)| ==>
      JobOver(filtered, iterationFilter, NewJobsAt(filtered, iterationFilter, recorded, i, j)[k])
    decreases i, j
  {
    if j == 0 {
      if i > 0 {
        NewJobsFromFiltered(filtered, iterationFilter, recorded, i - 1, |filtered|);
        assert NewJobsAt(filtered, iterationFilter, recorded, i, j) == NewJobsAt(filtered, iterationFilter, recorded, i - 1, |filtered|);
      }
    } else {
      NewJobsFromFiltered(filtered, iterationFilter, recorded, i, j - 1);
      NewJobsStepFromFiltered(filtered, iterationFilter, recorded, i, j, NewJobsAt(filtered, iterationFilter, recorded, i, j - 1));
    }
  }

  /** Testing one more candidate keeps only jobs over the filtered agents. */
  lemma NewJobsStepFromFiltered<S, G>(filtered: seq<RecordedAgent<S, G>>, iterationFilter: int,
                                      recorded: seq<BenchmarkingJob<S, G>>, i: nat, j: nat, kept: seq<BenchmarkingJob<S, G>>)
    requires i < |filtered| && 0 < j <= |filtered|
    requires kept == NewJobsAt(filtered, iterationFilter, recorded, i, j - 1)
    requires forall k :: 0 <= k < |kept| ==> JobOver(filtered, iterationFilter, kept[k])
    ensures forall k :: 0 <= k < |NewJobsAt(filtered, iterationFilter, recorded, i, j)| ==>
      JobOver(filtered, iterationFilter, NewJobsAt(filtered, iterationFilter, recorded, i, j)[k])
  {
    var job := BenchmarkingJob(iterationFilter, filtered[i], filtered[j - 1]);
    assert filtered[i] in filtered && filtered[j - 1] in filtered;
    var r := NewJobsAt(filtered, iterationFilter, recorded, i, j);
    assert r == kept || r == kept + [job];
    forall k | 0 <= k < |r| ensures JobOver(filtered, iterationFilter, r[k]) {
      if k < |kept| {
        assert r[k] == kept[k];
      } else {
        assert r[k] == job;
      }
    }
  }

  /** Appending a job that is not already recorded keeps a registry
      duplicate-free. */
  lemma AppendKeepsDuplicateFree<S, G>(jobs: seq<BenchmarkingJob<S, G>>, job: BenchmarkingJob<S, G>)
    requires DuplicateFree(jobs)
    requires !IsBenchmarkingJobAlreadyRecorded(job, jobs)
    ensures DuplicateFree(jobs + [job])
  {
    var all := jobs + [job];
    forall a, b | 0 <= a < b < |all| ensures !JobEquality(all[a], all[b]) {
      assert all[a] == jobs[a];
      if b == |jobs| {
        AlreadyRecordedIffSomeEqual(job, jobs);
        assert !JobEquality(job, jobs[a]);
      } else {
        assert all[b] == jobs[b];
      }
    }
  }

  /** Testing one more candidate keeps the registry duplicate-free. */
  lemma NewJobsStepKeepsDuplicateFree<S, G>(filtered: seq<RecordedAgent<S, G>>, iterationFilter: int,
                                            recorded: seq<BenchmarkingJob<S, G>>, i: nat, j: nat)
    requires i < |filtered| && 0 < j <= |filtered|
    requires DuplicateFree(recorded + NewJobsAt(filtered, iterationFilter, recorded, i, j - 1))
    ensures DuplicateFree(recorded + NewJobsAt(filtered, iterationFilter, recorded, i, j))
  {
    var kept := NewJobsAt(filtered, iterationFilter, recorded, i, j - 1);
    var job := BenchmarkingJob(iterationFilter, filtered[i], filtered[j - 1]);
    if !IsBenchmarkingJobAlreadyRecorded(job, recorded + kept) {
      AppendKeepsDuplicateFree(recorded + kept, job);
      assert recorded + (kept + [job]) == recorded + kept + [job];
    }
  }

  /** Moving on to the next row keeps nothing new. */
  lemma NewJobsRowStartKeepsDuplicateFree<S, G>(filtered: seq<RecordedAgent<S, G>>, iterationFilter: int,
                                                recorded: seq<BenchmarkingJob<S, G>>, i: nat)
    requires i <= |filtered|
    requires DuplicateFree(recorded)
    requires i > 0 ==> DuplicateFree(recorded + NewJobsAt(filtered, iterationFilter, recorded, i - 1, |filtered|))
    ensures DuplicateFree(recorded + NewJobsAt(filtered, iterationFilter, recorded, i, 0))
  {
    if i == 0 {
      assert recorded + NewJobsAt(filtered, iterationFilter, recorded, i, 0) == recorded;
    }
  }

  /** Every kept job differs from all recorded jobs and from the jobs kept
      before it, so a duplicate-free registry stays duplicate-free. */
  lemma {:induction false} NewJobsKeepDuplicateFree<S, G>(filtered: seq<RecordedAgent<S, G>>, iterationFilter: int,
                                                        recorded: seq<BenchmarkingJob<S, G>>, i: nat, j: nat)
    requires i <= |filtered| && j <= |filtered| && (i == |filtered| ==> j == 0)
    requires DuplicateFree(recorded)
    ensures DuplicateFree(recorded + NewJobsAt(filtered, iterationFilter, recorded, i, j))
    decreases i, j, 1
  {
    if j == 0 {
      RowStartKeepsDuplicateFree(filtered, iterationFilter, recorded, i);
    } else {
      CandidateKeepsDuplicateFree(filtered, iterationFilter, recorded, i, j);
    }
  }

  /** The case of `NewJobsKeepDuplicateFree` at the start of a row. */
  lemma {:induction false} RowStartKeepsDuplicateFree<S, G>(filtered: seq<RecordedAgent<S, G>>, iterationFilter: int,
                                                          recorded: seq<BenchmarkingJob<S, G>>, i: nat)
    requires i <= |filtered|
    requires DuplicateFree(recorded)
    ensures DuplicateFree(recorded + NewJobsAt(filtered, iterationFilter, recorded, i, 0))
    decreases i, 0, 0
  {
    if i > 0 {
      NewJobsKeepDuplicateFree(filtered, iterationFilter, recorded, i - 1, |filtered|);
    }
    NewJobsRowStartKeepsDuplicateFree(filtered, iterationFilter, recorded, i);
  }

  /** The case of `NewJobsKeepDuplicateFree` after testing a candidate. */
  lemma {:induction false} CandidateKeepsDuplicateFree<S, G>(filtered: seq<RecordedAgent<S, G>>, iterationFilter: int,
                                                           recorded: seq<BenchmarkingJob<S, G>>, i: nat, j: nat)
    requires i < |filtered| && 0 < j <= |filtered|
    requires DuplicateFree(recorded)
    ensures DuplicateFree(recorded + NewJobsAt(filtered, iterationFilter, recorded, i, j))
    decreases i, j, 0
  {
    NewJobsKeepDuplicateFree(filtered, iterationFilter, recorded, i, j - 1);
    NewJobsStepKeepsDuplicateFree(filtered, iterationFilter, recorded, i, j);
  }

  // ---------------------------------------------------------------------
  // Which jobs the generator keeps, for pairwise-distinct agents
  // ---------------------------------------------------------------------

  /** No agent occurs twice in the filtered list. */
  predicate PairwiseDistinct<S(==), G(==)>(filtered: seq<RecordedAgent<S, G>>)
  {
    forall a, b :: 0 <= a < b < |filtered| ==> filtered[a] != filtered[b]
  }

  /** The reference enumeration: the pairs `(filtered[c], filtered[d])` with
      `c <= d` and `d >= p`, in lexicographic order, up to the candidate
      `(i, j)`.  With `p == 0` these are all pairs `c <= d`. */
  function ExpectedJobs<S, G>(filtered: seq<RecordedAgent<S, G>>, iterationFilter: int, p: nat, i: nat, j: nat): seq<BenchmarkingJob<S, G>>
    requires i <= |filtered| && j <= |filtered| && (i == |filtered| ==> j == 0)
    decreases i, j
  {
    if j == 0 then
      (if i == 0 then [] else ExpectedJobs(filtered, iterationFilter, p, i - 1, |filtered|))
    else
      ExpectedJobs(filtered, iterationFilter, p, i, j - 1) +
      (if i <= j - 1 && p <= j - 1 then [BenchmarkingJob(iterationFilter, filtered[i], filtered[j - 1])] else [])
  }

  /** For distinct agents, two jobs over them are equal exactly when they
      have the same indices, possibly swapped. */
  lemma JobEqualityAtIndices<S, G>(filtered: seq<RecordedAgent<S, G>>, it: int, a: nat, b: nat, c: nat, d: nat)
    requires PairwiseDistinct(filtered)
    requires a < |filtered| && b < |filtered| && c < |filtered| && d < |filtered|
    ensures JobEquality(BenchmarkingJob(it, filtered[a], filtered[b]), BenchmarkingJob(it, filtered[c], filtered[d])) <==>
      (a == c && b == d) || (a == d && b == c)
  {
    JobEqualityOfPairs(BenchmarkingJob(it, filtered[a], filtered[b]), BenchmarkingJob(it, filtered[c], filtered[d]));
    forall x: nat, y: nat | x < |filtered| && y < |filtered| && x != y ensures filtered[x] != filtered[y] {
      if x < y { } else { }
    }
  }

  /** A job over `filtered[c]` and `filtered[d]` is among the expected jobs
      up to `(i, j)` exactly when its larger index is at least `p` and its
      smaller, larger index pair comes before `(i, j)`. */
  lemma {:induction false} RecordedInExpectedJobs<S, G>(filtered: seq<RecordedAgent<S, G>>, it: int, p: nat, i: nat, j: nat, c: nat, d: nat)
    requires PairwiseDistinct(filtered)
    requires i <= |filtered| && j <= |filtered| && (i == |filtered| ==> j == 0)
    requires c < |filtered| && d < |filtered|
    ensures IsBenchmarkingJobAlreadyRecorded(BenchmarkingJob(it, filtered[c], filtered[d]), ExpectedJobs(filtered, it, p, i, j)) <==>
      Max(c, d) >= p && (Min(c, d) < i || (Min(c, d) == i && Max(c, d) < j))
    decreases i, j
  {
    if j == 0 {
      if i > 0 {
        RecordedInExpectedJobs(filtered, it, p, i - 1, |filtered|, c, d);
      }
    } else {
      RecordedInExpectedJobs(filtered, it, p, i, j - 1, c, d);
      RecordedInExpectedJobsStep(filtered, it, p, i, j, c, d);
    }
  }

  /** Listing the candidate `(i, j - 1)` adds the job over `filtered[c]`
      and `filtered[d]` exactly when those are its indices, in either order,
      and its larger index is at least `p`. */
  lemma RecordedInExpectedJobsStep<S, G>(filtered: seq<RecordedAgent<S, G>>, it: int, p: nat, i: nat, j: nat, c: nat, d: nat)
    requires PairwiseDistinct(filtered)
    requires i < |filtered| && 0 < j <= |filtered|
    requires c < |filtered| && d < |filtered|
    ensures IsBenchmarkingJobAlreadyRecorded(BenchmarkingJob(it, filtered[c], filtered[d]), ExpectedJobs(filtered, it, p, i, j)) <==>
      IsBenchmarkingJobAlreadyRecorded(BenchmarkingJob(it, filtered[c], filtered[d]), ExpectedJobs(filtered, it, p, i, j - 1)) ||
      (i <= j - 1 && p <= j - 1 && ((c == i && d == j - 1) || (c == j - 1 && d == i)))
  {
    var job := BenchmarkingJob(it, filtered[c], filtered[d]);
    var before := ExpectedJobs(filtered, it, p, i, j - 1);
    var added := if i <= j - 1 && p <= j - 1 then [BenchmarkingJob(it, filtered[i], filtered[j - 1])] else [];
    assert ExpectedJobs(filtered, it, p, i, j) == before + added;
    AlreadyRecordedInConcat(job, before, added);
    JobEqualityAtIndices(filtered, it, c, d, i, j - 1);
    if added != [] {
      AlreadyRecordedInSingleton(job, BenchmarkingJob(it, filtered[i], filtered[j - 1]));
    }
  }

  /** The jobs recorded before the generator runs are exactly those over the
      first `p` filtered agents (up to equality). */
  predicate CoveredUpTo<S(==), G(==)>(filtered: seq<RecordedAgent<S, G>>, it: int, recorded: seq<BenchmarkingJob<S, G>>, p: nat)
  {
    forall c, d :: 0 <= c < |filtered| && 0 <= d < |filtered| ==>
      (IsBenchmarkingJobAlreadyRecorded(BenchmarkingJob(it, filtered[c], filtered[d]), recorded) <==> c < p && d < p)
  }

  /** The candidate `(i, j - 1)` is kept by the generator exactly when the
      reference enumeration lists it. */
  lemma NewJobsStepIsExpected<S, G>(filtered: seq<RecordedAgent<S, G>>, it: int, recorded: seq<BenchmarkingJob<S, G>>,
                                    p: nat, i: nat, j: nat)
    requires PairwiseDistinct(filtered) && CoveredUpTo(filtered, it, recorded, p)
    requires i < |filtered| && 0 < j <= |filtered|
    requires NewJobsAt(filtered, it, recorded, i, j - 1) == ExpectedJobs(filtered, it, p, i, j - 1)
    ensures NewJobsAt(filtered, it, recorded, i, j) == ExpectedJobs(filtered, it, p, i, j)
  {
    var kept := NewJobsAt(filtered, it, recorded, i, j - 1);
    var job := BenchmarkingJob(it, filtered[i], filtered[j - 1]);
    AlreadyRecordedInConcat(job, recorded, kept);
    RecordedInExpectedJobs(filtered, it, p, i, j - 1, i, j - 1);
    var inRecorded := IsBenchmarkingJobAlreadyRecorded(job, recorded);
    var inKept := IsBenchmarkingJobAlreadyRecorded(job, kept);
    assert inRecorded <==> i < p && j - 1 < p;
    assert inKept <==> if j - 1 < i then p <= i else false;
    if i <= j - 1 && p <= j - 1 {
      assert !inRecorded && !inKept;
      assert !IsBenchmarkingJobAlreadyRecorded(job, recorded + kept);
      assert NewJobsAt(filtered, it, recorded, i, j) == kept + [job];
    } else {
      assert IsBenchmarkingJobAlreadyRecorded(job, recorded + kept);
      assert NewJobsAt(filtered, it, recorded, i, j) == kept;
      assert ExpectedJobs(filtered, it, p, i, j) == kept + [];
    }
  }

  /** For pairwise-distinct agents whose recorded jobs cover the first `p` of
      them, the generator keeps exactly the reference enumeration: each
      unordered pair with an agent beyond the first `p` once, as
      `(filtered[c], filtered[d])` with `c <= d`, in lexicographic order. */
  lemma {:induction false} NewJobsAreExpected<S, G>(filtered: seq<RecordedAgent<S, G>>, it: int, recorded: seq<BenchmarkingJob<S, G>>,
                                                  p: nat, i: nat, j: nat)
    requires PairwiseDistinct(filtered) && CoveredUpTo(filtered, it, recorded, p)
    requires i <= |filtered| && j <= |filtered| && (i == |filtered| ==> j == 0)
    ensures NewJobsAt(filtered, it, recorded, i, j) == ExpectedJobs(filtered, it, p, i, j)
    decreases i, j
  {
    if j == 0 {
      if i > 0 {
        NewJobsAreExpected(filtered, it, recorded, p, i - 1, |filtered|);
      }
    } else {
      NewJobsAreExpected(filtered, it, recorded, p, i, j - 1);
      NewJobsStepIsExpected(filtered, it, recorded, p, i, j);
    }
  }

  /** Twice the number of expected jobs in the first `i` rows, in closed form. */
  function DoubledRowsLength(n: int, p: int, i: int): int
  {
    if i <= p then 2 * i * (n - p) else 2 * p * (n - p) + (i - p) * (2 * n - i - p + 1)
  }

  /** Row `i - 1` adds `n - max(i - 1, p)` jobs. */
  lemma DoubledRowsLengthStep(n: int, p: int, i: int)
    requires 0 < i
    ensures DoubledRowsLength(n, p, i) == DoubledRowsLength(n, p, i - 1) + 2 * (n - Max(i - 1, p))
  {
    if i <= p {
      assert 2 * i * (n - p) == 2 * (i - 1) * (n - p) + 2 * (n - p);
    } else {
      var q, m := i - p, 2 * n - i - p + 1;
      assert q * m == (q - 1) * (m + 1) + (m - q + 1);
    }
  }

  lemma DoubledRowsLengthFull(n: int, p: int)
    requires 0 <= p <= n
    ensures DoubledRowsLength(n, p, n) == n * (n + 1) - p * (p + 1)
  {
    if n > p {
      assert (n - p) * (2 * n - n - p + 1) == (n - p) * (n - p + 1);
      assert (n - p) * (n + p + 1) == n * (n + 1) - p * (p + 1);
    }
  }

  lemma {:induction false} ExpectedJobsLength<S, G>(filtered: seq<RecordedAgent<S, G>>, it: int, p: nat, i: nat, j: nat)
    requires p <= |filtered|
    requires i <= |filtered| && j <= |filtered| && (i == |filtered| ==> j == 0)
    ensures 2 * |ExpectedJobs(filtered, it, p, i, j)| == DoubledRowsLength(|filtered|, p, i) + 2 * Max(0, j - Max(i, p))
    decreases i, j
  {
    if j == 0 {
      if i > 0 {
        ExpectedJobsLength(filtered, it, p, i - 1, |filtered|);
        DoubledRowsLengthStep(|filtered|, p, i);
      }
    } else {
      ExpectedJobsLength(filtered, it, p, i, j - 1);
    }
  }

  /** How many of the jobs are self-matches, an agent against itself. */
  function SelfMatches<S(==), G(==)>(jobs: seq<BenchmarkingJob<S, G>>): (r: nat)
    ensures r <= |jobs|
    decreases |jobs|
  {
    if |jobs| == 0 then 0
    else SelfMatches(jobs[..|jobs| - 1]) + (if jobs[|jobs| - 1].first == jobs[|jobs| - 1].second then 1 else 0)
  }

  lemma SelfMatchesSnoc<S, G>(jobs: seq<BenchmarkingJob<S, G>>, extra: seq<BenchmarkingJob<S, G>>)
    requires |extra| <= 1
    ensures SelfMatches(jobs + extra) == SelfMatches(jobs) + SelfMatches(extra)
  {
    if |extra| == 1 {
      assert (jobs + extra)[..|jobs + extra| - 1] == jobs;
      assert extra[..0] == [];
    } else {
      assert jobs + extra == jobs;
    }
  }

  lemma {:induction false} ExpectedSelfMatches<S, G>(filtered: seq<RecordedAgent<S, G>>, it: int, p: nat, i: nat, j: nat)
    requires PairwiseDistinct(filtered)
    requires i <= |filtered| && j <= |filtered| && (i == |filtered| ==> j == 0)
    ensures SelfMatches(ExpectedJobs(filtered, it, p, i, j)) == Max(0, i - p) + (if p <= i < j then 1 else 0)
    decreases i, j
  {
    if j == 0 {
      if i > 0 {
        ExpectedSelfMatches(filtered, it, p, i - 1, |filtered|);
      }
    } else {
      ExpectedSelfMatches(filtered, it, p, i, j - 1);
      ExpectedSelfMatchesStep(filtered, it, p, i, j);
    }
  }

  /** The candidate `(i, j - 1)` adds a self-match exactly when it is listed
      and `i == j - 1`. */
  lemma ExpectedSelfMatchesStep<S, G>(filtered: seq<RecordedAgent<S, G>>, it: int, p: nat, i: nat, j: nat)
    requires PairwiseDistinct(filtered)
    requires i < |filtered| && 0 < j <= |filtered|
    ensures SelfMatches(ExpectedJobs(filtered, it, p, i, j)) ==
      SelfMatches(ExpectedJobs(filtered, it, p, i, j - 1)) + (if p <= i && i == j - 1 then 1 else 0)
  {
    var added := if i <= j - 1 && p <= j - 1 then [BenchmarkingJob(it, filtered[i], filtered[j - 1])] else [];
    assert ExpectedJobs(filtered, it, p, i, j) == ExpectedJobs(filtered, it, p, i, j - 1) + added;
    SelfMatchesSnoc(ExpectedJobs(filtered, it, p, i, j - 1), added);
    if i < j - 1 {
      assert filtered[i] != filtered[j - 1];
    }
    assert SelfMatches(added) == (if p <= i && i == j - 1 then 1 else 0) by {
      if |added| == 1 {
        assert added[..0] == [];
      }
    }
  }

  /** For `n` pairwise-distinct filtered agents and no recorded job over
      them, one call keeps the `n(n+1)/2` pairs `(filtered[c], filtered[d])`
      with `c <= d`, `n` of them self-matches; when the jobs over the first
      `p` agents are already recorded it keeps `(n(n+1) - p(p+1))/2` jobs,
      `n - p` of them self-matches. */
  lemma NewJobsCount<S, G>(filtered: seq<RecordedAgent<S, G>>, it: int, recorded: seq<BenchmarkingJob<S, G>>, p: nat)
    requires PairwiseDistinct(filtered) && p <= |filtered| && CoveredUpTo(filtered, it, recorded, p)
    ensures var r := NewJobsAt(filtered, it, recorded, |filtered|, 0);
      2 * |r| == |filtered| * (|filtered| + 1) - p * (p + 1) && SelfMatches(r) == |filtered| - p
  {
    var n := |filtered|;
    NewJobsAreExpected(filtered, it, recorded, p, n, 0);
    ExpectedJobsLength(filtered, it, p, n, 0);
    ExpectedSelfMatches(filtered, it, p, n, 0);
    DoubledRowsLengthFull(n, p);
  }

  function NameOf<S, G>(job: BenchmarkingJob<S, G>): BenchmarkName<S, G>
  {
    BenchmarkName(job.first.trainingScheme, job.first.agent, job.second.trainingScheme, job.second.agent, job.iteration)
  }

  /** The `(benchmark_name, job)` pairs the generator yields for `jobs`. */
  function Labelled<S, G>(jobs: seq<BenchmarkingJob<S, G>>): (r: seq<(BenchmarkName<S, G>, BenchmarkingJob<S, G>)>)
  {
    seq(|jobs|, k requires 0 <= k < |jobs| => (NameOf(jobs[k]), jobs[k]))
  }

  lemma LabelledSnoc<S, G>(jobs: seq<BenchmarkingJob<S, G>>, job: BenchmarkingJob<S, G>)
    ensures Labelled(jobs + [job]) == Labelled(jobs) + [(NameOf(job), job)]
  {
  }

  /** `calculate_new_benchmarking_jobs`, run to exhaustion: the yielded
      pairs, and the job registry after the generator has appended every
      yielded job to it. */
  method CalculateNewBenchmarkingJobs<S(==), G(==)>(recordedAgents: seq<RecordedAgent<S, G>>,
                                                   recordedBenchmarkingJobs: seq<BenchmarkingJob<S, G>>,
                                                   iterationFilter: int, clone: G -> G)
    returns (yielded: seq<(BenchmarkName<S, G>, BenchmarkingJob<S, G>)>, jobsAfter: seq<BenchmarkingJob<S, G>>)
    ensures var filtered := FilteredRecordedAgents(recordedAgents, iterationFilter, clone);
      var newJobs := NewJobsAt(filtered, iterationFilter, recordedBenchmarkingJobs, |filtered|, 0);
      jobsAfter == recordedBenchmarkingJobs + newJobs && yielded == Labelled(newJobs)
  {
    var filtered := FilteredRecordedAgents(recordedAgents, iterationFilter, clone);
    var n := |filtered|;
    jobsAfter := recordedBenchmarkingJobs;
    yielded := [];
    ghost var kept: seq<BenchmarkingJob<S, G>> := [];  // the jobs yielded so far
    var i := 0;
    while i < n
      invariant 0 <= i <= n
      invariant kept == NewJobsAt(filtered, iterationFilter, recordedBenchmarkingJobs, i, 0)
      invariant jobsAfter == recordedBenchmarkingJobs + kept && yielded == Labelled(kept)
    {
      var j := 0;
      while j < n
        invariant 0 <= j <= n
        invariant kept == NewJobsAt(filtered, iterationFilter, recordedBenchmarkingJobs, i, j)
        invariant jobsAfter == recordedBenchmarkingJobs + kept && yielded == Labelled(kept)
      {
        var job := BenchmarkingJob(iterationFilter, filtered[i], filtered[j]);
        if !IsBenchmarkingJobAlreadyRecorded(job, jobsAfter) {
          LabelledSnoc(kept, job);
          jobsAfter := jobsAfter + [job];
          yielded := yielded + [(NameOf(job), job)];
          kept := kept + [job];
        }
        j := j + 1;
      }
      i := i + 1;
    }
  }

  // ---------------------------------------------------------------------
  // Termination (lines 69-72)
  // ---------------------------------------------------------------------

  /** `check_for_termination`: nothing while agents are still expected;
      otherwise join every tracked child process in order, shut the pool
      down when there is one, and finally send SIGTERM to the coordinator. */
  function CheckForTermination<S, G>(receivedAgents: int, expectedNumberOfAgents: int,
                                     childProcesses: seq<BenchmarkProcess<S, G>>, poolPresent: bool): (r: seq<ShutdownAction<S, G>>)
    ensures r != [] <==> receivedAgents >= expectedNumberOfAgents
    ensures r != [] ==>
      |r| == |childProcesses| + (if poolPresent then 1 else 0) + 1 &&
      (forall k :: 0 <= k < |childProcesses| ==> r[k] == Join(childProcesses[k])) &&
      (poolPresent ==> r[|childProcesses|] == ShutdownPool) &&
      r[|r| - 1] == KillSelf
  {
    if receivedAgents >= expectedNumberOfAgents then
      seq(|childProcesses|, k requires 0 <= k < |childProcesses| => Join(childProcesses[k])) +
      (if poolPresent then [ShutdownPool] else []) + [KillSelf]
    else []
  }

  /** The pool is shut down at most once, only after every join, and the
      kill comes last and only once. */
  lemma TerminationOrder<S, G>(receivedAgents: int, expectedNumberOfAgents: int,
                               childProcesses: seq<BenchmarkProcess<S, G>>, poolPresent: bool)
    ensures var r := CheckForTermination(receivedAgents, expectedNumberOfAgents, childProcesses, poolPresent);
      (forall a, b :: 0 <= a < b < |r| && r[b] == ShutdownPool ==> r[a].Join?) &&
      (forall k :: 0 <= k < |r| && r[k] == KillSelf ==> k == |r| - 1) &&
      (!poolPresent ==> forall k :: 0 <= k < |r| ==> r[k] != ShutdownPool)
  {
  }

  // ---------------------------------------------------------------------
  // The coordinator loop (lines 41-53)
  // ---------------------------------------------------------------------

  /** `create_benchmark_process` for each yielded `(benchmark_name, job)`. */
  function Spawned<S, G>(yielded: seq<(BenchmarkName<S, G>, BenchmarkingJob<S, G>)>): (r: seq<BenchmarkProcess<S, G>>)
  {
    seq(|yielded|, k requires 0 <= k < |yielded| => BenchmarkProcess(yielded[k].1, yielded[k].0))
  }

  /** The coordinator's state before the first agent arrives. */
  function InitialCoordinator<S, G>(): Coordinator<S, G>
  {
    Coordinator(0, [], [], [])
  }

  /** The agent triple carried by a queue item, as recorded. */
  function AsRecorded<S, G>(item: AgentQueueItem<S, G>): RecordedAgent<S, G>
  {
    RecordedAgent(item.iteration, item.trainingScheme, item.agent)
  }

  /** One turn of the `while True` loop, before `check_for_termination`: the
      received agent is counted and recorded, the new jobs for its iteration
      are appended to the job registry by the generator, and one child
      process is spawned per yielded job. */
  function Step<S(==), G(==)>(c: Coordinator<S, G>, item: AgentQueueItem<S, G>, clone: G -> G): Coordinator<S, G>
  {
    var agents := c.recordedAgents + [AsRecorded(item)];
    var filtered := FilteredRecordedAgents(agents, item.iteration, clone);
    var newJobs := NewJobsAt(filtered, item.iteration, c.recordedBenchmarkingJobs, |filtered|, 0);
    Coordinator(c.receivedAgents + 1, agents, c.recordedBenchmarkingJobs + newJobs,
                c.benchmarkingChildProcesses + Spawned(Labelled(newJobs)))
  }

  /** Child process `k` runs job `k` of the registry, under that job's label. */
  predicate ChildrenMatchJobs<S(==), G(==)>(c: Coordinator<S, G>)
  {
    |c.benchmarkingChildProcesses| == |c.recordedBenchmarkingJobs| &&
    forall k :: 0 <= k < |c.benchmarkingChildProcesses| ==>
      c.benchmarkingChildProcesses[k] == BenchmarkProcess(c.recordedBenchmarkingJobs[k], NameOf(c.recordedBenchmarkingJobs[k]))
  }

  /** One step counts the agent once, records exactly that agent, only
      appends to the job registry, keeps it duplicate-free, and keeps one
      child process per job. */
  lemma StepProperties<S, G>(c: Coordinator<S, G>, item: AgentQueueItem<S, G>, clone: G -> G)
    requires ChildrenMatchJobs(c) && DuplicateFree(c.recordedBenchmarkingJobs)
    ensures var next := Step(c, item, clone);
      next.receivedAgents == c.receivedAgents + 1 &&
      next.recordedAgents == c.recordedAgents + [AsRecorded(item)] &&
      c.recordedBenchmarkingJobs <= next.recordedBenchmarkingJobs &&
      c.benchmarkingChildProcesses <= next.benchmarkingChildProcesses &&
      ChildrenMatchJobs(next) && DuplicateFree(next.recordedBenchmarkingJobs)
  {
    var next := Step(c, item, clone);
    var filtered := FilteredRecordedAgents(next.recordedAgents, item.iteration, clone);
    var newJobs := NewJobsAt(filtered, item.iteration, c.recordedBenchmarkingJobs, |filtered|, 0);
    NewJobsKeepDuplicateFree(filtered, item.iteration, c.recordedBenchmarkingJobs, |filtered|, 0);
    var before := c.benchmarkingChildProcesses;
    var added := Spawned(Labelled(newJobs));
    forall k | 0 <= k < |next.benchmarkingChildProcesses|
      ensures next.benchmarkingChildProcesses[k] == BenchmarkProcess(next.recordedBenchmarkingJobs[k], NameOf(next.recordedBenchmarkingJobs[k]))
    {
      if k < |before| {
        assert next.benchmarkingChildProcesses[k] == before[k];
        assert next.recordedBenchmarkingJobs[k] == c.recordedBenchmarkingJobs[k];
      } else {
        assert next.benchmarkingChildProcesses[k] == added[k - |before|];
        assert next.recordedBenchmarkingJobs[k] == newJobs[k - |before|];
      }
    }
  }

  /** The state after the agents `items` have been received, step `t` using
      the clone function `clone(t)` (clones made on different calls are not
      assumed to be equal to each other or to their originals). */
  function Run<S(==), G(==)>(items: seq<AgentQueueItem<S, G>>, clone: nat -> (G -> G)): Coordinator<S, G>
    decreases |items|
  {
    if |items| == 0 then InitialCoordinator()
    else Step(Run(items[..|items| - 1], clone), items[|items| - 1], clone(|items| - 1))
  }

  /** After any number of steps: one count and one recorded agent per item,
      in arrival order, a duplicate-free job registry, one child per job. */
  lemma {:induction false} RunInvariant<S, G>(items: seq<AgentQueueItem<S, G>>, clone: nat -> (G -> G))
    ensures var c := Run(items, clone);
      c.receivedAgents == |items| &&
      |c.recordedAgents| == |items| &&
      (forall k :: 0 <= k < |items| ==> c.recordedAgents[k] == AsRecorded(items[k])) &&
      ChildrenMatchJobs(c) && DuplicateFree(c.recordedBenchmarkingJobs)
    decreases |items|
  {
    if |items| > 0 {
      var front := items[..|items| - 1];
      RunInvariant(front, clone);
      StepProperties(Run(front, clone), items[|items| - 1], clone(|items| - 1));
      var c := Run(items, clone);
      forall k | 0 <= k < |items| ensures c.recordedAgents[k] == AsRecorded(items[k]) {
        if k < |front| {
          assert items[k] == front[k];
        }
      }
    }
  }

  /** The registries only grow: the state after a prefix of the arrivals is
      a prefix of the state after all of them. */
  lemma {:induction false} RunGrows<S, G>(items: seq<AgentQueueItem<S, G>>, n: nat, clone: nat -> (G -> G))
    requires n <= |items|
    ensures var before, after := Run(items[..n], clone), Run(items, clone);
      before.recordedAgents <= after.recordedAgents &&
      before.recordedBenchmarkingJobs <= after.recordedBenchmarkingJobs &&
      before.benchmarkingChildProcesses <= after.benchmarkingChildProcesses
    decreases |items|
  {
    if n < |items| {
      var front := items[..|items| - 1];
      assert items[..n] == front[..n];
      RunGrows(front, n, clone);
      RunInvariant(front, clone);
      StepProperties(Run(front, clone), items[|items| - 1], clone(|items| - 1));
    } else {
      assert items[..n] == items;
    }
  }

  /** One count per received agent. */
  lemma {:induction false} RunCount<S, G>(items: seq<AgentQueueItem<S, G>>, clone: nat -> (G -> G))
    ensures Run(items, clone).receivedAgents == |items|
    decreases |items|
  {
    if |items| > 0 {
      RunCount(items[..|items| - 1], clone);
    }
  }

  /** Receiving item `t` after the first `t` items. */
  lemma RunSnoc<S, G>(items: seq<AgentQueueItem<S, G>>, t: nat, clone: nat -> (G -> G))
    requires t < |items|
    ensures Run(items[..t + 1], clone) == Step(Run(items[..t], clone), items[t], clone(t))
  {
    assert items[..t + 1][..t] == items[..t];
  }

  /** The body of the `while True` loop up to `check_for_termination`,
      updating the coordinator's lists in place. */
  method ReceiveAgent<S(==), G(==)>(c: Coordinator<S, G>, item: AgentQueueItem<S, G>, clone: G -> G)
    returns (next: Coordinator<S, G>)
    ensures next == Step(c, item, clone)
  {
    var receivedAgents := c.receivedAgents + 1;
    var recordedAgents := c.recordedAgents + [AsRecorded(item)];
    var yielded, recordedBenchmarkingJobs := CalculateNewBenchmarkingJobs(recordedAgents, c.recordedBenchmarkingJobs, item.iteration, clone);
    var processes := Spawned(yielded);
    var benchmarkingChildProcesses := c.benchmarkingChildProcesses;
    var k := 0;
    while k < |processes|
      invariant 0 <= k <= |processes|
      invariant benchmarkingChildProcesses == c.benchmarkingChildProcesses + processes[..k]
    {
      benchmarkingChildProcesses := benchmarkingChildProcesses + [processes[k]];
      k := k + 1;
    }
    assert processes[..k] == processes;
    next := Coordinator(receivedAgents, recordedAgents, recordedBenchmarkingJobs, benchmarkingChildProcesses);
  }

  /** `match_making_process` for the agents the queue delivers, in order.
      The loop blocks on `agent_queue.get()`; when the queue holds fewer
      agents than it waits for, the model returns once they are used up,
      with no shutdown action.  Otherwise it stops at the first agent after
      which `check_for_termination` fires and returns that call's actions.
      `poolPresent` says whether `pool` is not None. */
  method MatchMakingProcess<S(==), G(==)>(expectedNumberOfAgents: int, agentQueue: seq<AgentQueueItem<S, G>>,
                                          poolPresent: bool, clone: nat -> (G -> G))
    returns (state: Coordinator<S, G>, actions: seq<ShutdownAction<S, G>>)
    ensures var stop := Max(expectedNumberOfAgents, 1);
      (actions != [] <==> |agentQueue| >= stop) &&
      state.receivedAgents == (if |agentQueue| >= stop then stop else |agentQueue|) &&
      state == Run(agentQueue[..state.receivedAgents], clone) &&
      (state.receivedAgents > 0 ==>
         actions == CheckForTermination(state.receivedAgents, expectedNumberOfAgents, state.benchmarkingChildProcesses, poolPresent))
  {
    state := InitialCoordinator();
    actions := [];
    while actions == [] && state.receivedAgents < |agentQueue|
      invariant 0 <= state.receivedAgents <= |agentQueue|
      invariant state == Run(agentQueue[..state.receivedAgents], clone)
      invariant state.receivedAgents > 0 ==>
        actions == CheckForTermination(state.receivedAgents, expectedNumberOfAgents, state.benchmarkingChildProcesses, poolPresent)
      invariant actions == [] ==> state.receivedAgents == 0 || state.receivedAgents < expectedNumberOfAgents
      invariant actions != [] ==> state.receivedAgents == Max(expectedNumberOfAgents, 1)
      decreases |agentQueue| - state.receivedAgents, if actions == [] then 1 else 0
    {
      var t := state.receivedAgents;
      state := ReceiveAgent(state, agentQueue[t], clone(t));
      RunSnoc(agentQueue, t, clone);
      RunCount(agentQueue[..t + 1], clone);
      actions := CheckForTermination(state.receivedAgents, expectedNumberOfAgents, state.benchmarkingChildProcesses, poolPresent);
    }
  }
}

/** The training worker of experiment/training_process.py: the loop over the
    sorted checkpoints that trains an agent span by span, puts a cloned
    snapshot on the agent queue at every checkpoint and appends the
    episodic rewards of the span to a text file, and the construction of
    one worker per training job.

    The agent (`A`), menagerie entries (`P`), trajectories (`T`), training
    schemes (`S`) and environments (`E`) are abstract.  `self_play_training`,
    `clone`, the agents' `name` and the rendering of a trajectory's average
    reward are parameters of the model: they are deterministic functions
    of what they are given.  What the worker does to the outside world
    (training calls, queue puts, file appends) is returned as a trace. */
module TrainingProcess {
  import opened Common

  /** The arguments of one `self_play_training` call that vary between
      calls (the environment, the scheme and the results path are fixed
      for the worker). */
  datatype TrainingCall<A, P> = TrainingCall(trainingAgent: A, targetEpisodes: int, menagerie: seq<P>, iteration: int)

  /** The triple `(menagerie, trained_agent, trajectories)` it returns. */
  datatype TrainingResult<A, P, T> = TrainingResult(menagerie: seq<P>, trainedAgent: A, trajectories: seq<T>)

  /** Text appended to the file at `path`. */
  datatype FileAppend = FileAppend(path: string, text: string)

  /** What one worker is given: its collaborators, its scheme and names. */
  datatype Worker<!A, !P, S, !T> = Worker(
    selfPlayTraining: TrainingCall<A, P> -> TrainingResult<A, P, T>,
    clone: (A, string) -> A,                 // `agent.clone(path=...)`
    agentName: A -> string,                  // `agent.name`
    formatAverageReward: T -> string,        // `str` of the player-1 average reward
    selfPlayScheme: S,
    schemeName: string,                      // `self_play_scheme.name`
    processName: string,
    resultsPath: string)

  /** The loop variables `completed_iterations`, `menagerie` and
      `training_agent`. */
  datatype WorkerState<A, P> = WorkerState(completedIterations: int, menagerie: seq<P>, trainingAgent: A)

  /** Everything one checkpoint step does: the training call, the snapshot
      path, the queue put, and the appends to the reward file. */
  datatype CheckpointStep<A, P, S> = CheckpointStep(
    call: TrainingCall<A, P>,
    snapshotPath: string,
    put: AgentQueueItem<S, A>,
    rewardAppends: seq<FileAppend>)

  // ---------------------------------------------------------------------
  // Sorting the checkpoints (line 30)
  // ---------------------------------------------------------------------

  predicate IsSorted(s: seq<int>)
  {
    forall a, b :: 0 <= a < b < |s| ==> s[a] <= s[b]
  }

  /** Putting `a` in front of a sorted list that starts at or above `a`
      keeps it sorted. */
  lemma ConsSorted(a: int, r: seq<int>)
    requires IsSorted(r) && (|r| > 0 ==> a <= r[0])
    ensures IsSorted([a] + r)
  {
    var c := [a] + r;
    forall i, j | 0 <= i < j < |c| ensures c[i] <= c[j] {
      if i == 0 {
        assert c[j] == r[j - 1] && r[0] <= r[j - 1];
      } else {
        assert c[i] == r[i - 1] && c[j] == r[j - 1];
      }
    }
  }

  /** Inserting into a sorted list keeps it sorted. */
  function Insert(x: int, s: seq<int>): (r: seq<int>)
    requires IsSorted(s)
    ensures IsSorted(r)
    ensures |r| == |s| + 1
    ensures |s| > 0 ==> r[0] == Min(x, s[0])
  {
    if |s| == 0 then [x]
    else if x <= s[0] then ConsSorted(x, s); [x] + s
    else
      var rest := Insert(x, s[1..]);
      ConsSorted(s[0], rest);
      [s[0]] + rest
  }

  /** Inserting adds exactly `x`. */
  lemma {:induction false} InsertAddsOne(x: int, s: seq<int>)
    requires IsSorted(s)
    ensures multiset(Insert(x, s)) == multiset(s) + multiset{x}
    decreases |s|
  {
    if |s| > 0 {
      assert s == [s[0]] + s[1..];
      if x > s[0] {
        InsertAddsOne(x, s[1..]);
      }
    }
  }

  /** Python's `sorted` on a list of integers, as an insertion sort. */
  function SortedCheckpoints(s: seq<int>): (r: seq<int>)
    ensures IsSorted(r)
    ensures |r| == |s|
  {
    if |s| == 0 then [] else Insert(s[0], SortedCheckpoints(s[1..]))
  }

  /** Sorting permutes: the sorted list holds the same checkpoints. */
  lemma {:induction false} SortedIsPermutation(s: seq<int>)
    ensures multiset(SortedCheckpoints(s)) == multiset(s)
    decreases |s|
  {
    if |s| > 0 {
      SortedIsPermutation(s[1..]);
      InsertAddsOne(s[0], SortedCheckpoints(s[1..]));
      assert s == [s[0]] + s[1..];
    }
  }

  /** The rest of a nonempty list holds its elements but the first. */
  lemma MultisetOfTail(r: seq<int>)
    requires |r| > 0
    ensures multiset(r[1..]) == multiset(r) - multiset{r[0]}
  {
    assert r == [r[0]] + r[1..];
  }

  /** The first element of a sorted list is its least element. */
  lemma SortedHeadIsLeast(r: seq<int>, x: int)
    requires IsSorted(r) && x in multiset(r)
    ensures |r| > 0 && r[0] <= x
  {
    var a :| 0 <= a < |r| && r[a] == x;
  }

  lemma SortedTail(r: seq<int>)
    requires IsSorted(r) && |r| > 0
    ensures IsSorted(r[1..])
  {
    forall i, j | 0 <= i < j < |r| - 1 ensures r[1..][i] <= r[1..][j] {
      assert r[1..][i] == r[i + 1] && r[1..][j] == r[j + 1];
    }
  }

  /** Two sorted lists holding the same elements start alike, and what
      follows holds the same elements again. */
  lemma SortedHeadsAgree(r: seq<int>, s: seq<int>)
    requires IsSorted(r) && IsSorted(s) && multiset(r) == multiset(s) && |r| > 0
    ensures |s| > 0 && r[0] == s[0]
    ensures multiset(r[1..]) == multiset(s[1..])
  {
    assert r[0] in r;
    SortedHeadIsLeast(s, r[0]);
    assert s[0] in s;
    SortedHeadIsLeast(r, s[0]);
    MultisetOfTail(r);
    MultisetOfTail(s);
  }

  /** A sorted permutation is unique. */
  lemma {:induction false} SortedIsUnique(r: seq<int>, s: seq<int>)
    requires IsSorted(r) && IsSorted(s) && multiset(r) == multiset(s)
    ensures r == s
    decreases |r|
  {
    if |r| == 0 {
      assert |multiset(s)| == 0;
    } else {
      SortedHeadsAgree(r, s);
      SortedTail(r);
      SortedTail(s);
      SortedIsUnique(r[1..], s[1..]);
      assert r == [r[0]] + r[1..];
      assert s == [s[0]] + s[1..];
    }
  }

  /** Whatever order the checkpoints are given in, the same sorted list is
      visited. */
  lemma SortingIgnoresInputOrder(a: seq<int>, b: seq<int>)
    requires multiset(a) == multiset(b)
    ensures SortedCheckpoints(a) == SortedCheckpoints(b)
  {
    SortedIsPermutation(a);
    SortedIsPermutation(b);
    SortedIsUnique(SortedCheckpoints(a), SortedCheckpoints(b));
  }

  // ---------------------------------------------------------------------
  // Paths and reward lines (lines 43, 51-53, 60-64)
  // ---------------------------------------------------------------------

  /** `f'{results_path}{process_name}_tp_it{target_iteration}.pt'`. */
  function SnapshotPath<A, P, S, T>(w: Worker<A, P, S, T>, targetIteration: int): string
  {
    w.resultsPath + w.processName + "_tp_it" + IntToString(targetIteration) + ".pt"
  }

  /** `'{}/{}'.format(results_path, '{}-{}.txt'.format(scheme.name, agent.name))`. */
  function RewardFilePath<A, P, S, T>(w: Worker<A, P, S, T>, trainingAgent: A): string
  {
    w.resultsPath + "/" + w.schemeName + "-" + w.agentName(trainingAgent) + ".txt"
  }

  /** `'{}, {}\n'.format(iteration, average_reward)`. */
  function RewardLine(iteration: int, averageReward: string): string
  {
    IntToString(iteration) + ", " + averageReward + "\n"
  }

  /** The text of a line up to its first comma. */
  function FirstField(line: string): (r: string)
    ensures |r| <= |line|
  {
    if |line| == 0 || line[0] == ',' then [] else [line[0]] + FirstField(line[1..])
  }

  lemma {:induction false} FirstFieldOfPrefix(a: string, rest: string)
    requires forall k :: 0 <= k < |a| ==> a[k] != ','
    ensures FirstField(a + [','] + rest) == a
    decreases |a|
  {
    if |a| == 0 {
      assert a + [','] + rest == [','] + rest;
    } else {
      assert (a + [','] + rest)[1..] == a[1..] + [','] + rest;
      FirstFieldOfPrefix(a[1..], rest);
      assert a == [a[0]] + a[1..];
    }
  }

  /** A reward line can be read back: its first field is the iteration. */
  lemma RewardLineIteration(iteration: int, averageReward: string)
    ensures ParseInt(FirstField(RewardLine(iteration, averageReward))) == iteration
  {
    var digits := IntToString(iteration);
    forall k | 0 <= k < |digits| ensures digits[k] != ',' {
      if iteration < 0 {
        if k > 0 {
          assert digits[k] == NatToString(-iteration)[k - 1];
        }
      } else {
        assert digits == NatToString(iteration);
      }
    }
    assert RewardLine(iteration, averageReward) == digits + [','] + (" " + averageReward + "\n");
    FirstFieldOfPrefix(digits, " " + averageReward + "\n");
    ParseIntToString(iteration);
  }

  /** `zip(range(lo, hi), trajectories)`: pairs the consecutive iterations
      from `lo` with the trajectories, as far as the shorter one goes. */
  function Zip<T>(lo: int, hi: int, trajectories: seq<T>): (r: seq<(int, T)>)
    ensures |r| == Min(Max(0, hi - lo), |trajectories|)
    ensures forall k :: 0 <= k < |r| ==> r[k] == (lo + k, trajectories[k])
    decreases |trajectories|
  {
    if hi <= lo || |trajectories| == 0 then []
    else [(lo, trajectories[0])] + Zip(lo + 1, hi, trajectories[1..])
  }

  /** The appends of `write_episodic_reward`, one line per enumerated pair. */
  function EpisodicRewardAppends<T>(enumerated: seq<(int, T)>, targetFilePath: string, formatAverageReward: T -> string): seq<FileAppend>
    decreases |enumerated|
  {
    if |enumerated| == 0 then []
    else
      EpisodicRewardAppends(enumerated[..|enumerated| - 1], targetFilePath, formatAverageReward) +
      [FileAppend(targetFilePath, RewardLine(enumerated[|enumerated| - 1].0, formatAverageReward(enumerated[|enumerated| - 1].1)))]
  }

  /** One append per enumerated pair, to the target file, with the line of
      that pair. */
  lemma {:induction false} EpisodicRewardLines<T>(enumerated: seq<(int, T)>, targetFilePath: string, formatAverageReward: T -> string)
    ensures var r := EpisodicRewardAppends(enumerated, targetFilePath, formatAverageReward);
      |r| == |enumerated| &&
      forall k :: 0 <= k < |r| ==>
        r[k] == FileAppend(targetFilePath, RewardLine(enumerated[k].0, formatAverageReward(enumerated[k].1)))
    decreases |enumerated|
  {
    if |enumerated| > 0 {
      var front := enumerated[..|enumerated| - 1];
      EpisodicRewardLines(front, targetFilePath, formatAverageReward);
      var r := EpisodicRewardAppends(enumerated, targetFilePath, formatAverageReward);
      var rf := EpisodicRewardAppends(front, targetFilePath, formatAverageReward);
      var last := FileAppend(targetFilePath, RewardLine(enumerated[|front|].0, formatAverageReward(enumerated[|front|].1)));
      assert r == rf + [last];
      forall k | 0 <= k < |r| ensures r[k] == FileAppend(targetFilePath, RewardLine(enumerated[k].0, formatAverageReward(enumerated[k].1))) {
        if k < |rf| {
          assert r[k] == rf[k] && enumerated[k] == front[k];
        } else {
          assert r[k] == last;
        }
      }
    }
  }

  /** `write_episodic_reward`: one line per enumerated pair, in order, all
      to the same file. */
  method WriteEpisodicReward<T>(enumerated: seq<(int, T)>, targetFilePath: string, formatAverageReward: T -> string)
    returns (appends: seq<FileAppend>)
    ensures |appends| == |enumerated|
    ensures forall k :: 0 <= k < |appends| ==>
      appends[k].path == targetFilePath &&
      ParseInt(FirstField(appends[k].text)) == enumerated[k].0 &&
      appends[k].text == RewardLine(enumerated[k].0, formatAverageReward(enumerated[k].1))
    ensures appends == EpisodicRewardAppends(enumerated, targetFilePath, formatAverageReward)
  {
    appends := [];
    var k := 0;
    while k < |enumerated|
      invariant 0 <= k <= |enumerated|
      invariant appends == EpisodicRewardAppends(enumerated[..k], targetFilePath, formatAverageReward)
    {
      var (iteration, trajectory) := enumerated[k];
      appends := appends + [FileAppend(targetFilePath, RewardLine(iteration, formatAverageReward(trajectory)))];
      assert enumerated[..k + 1][..k] == enumerated[..k];
      k := k + 1;
    }
    assert enumerated[..k] == enumerated;
    EpisodicRewardsReadBack(enumerated, targetFilePath, formatAverageReward);
  }

  /** Every appended line names the target file and reads back as the
      iteration of its pair. */
  lemma EpisodicRewardsReadBack<T>(enumerated: seq<(int, T)>, targetFilePath: string, formatAverageReward: T -> string)
    ensures var appends := EpisodicRewardAppends(enumerated, targetFilePath, formatAverageReward);
      |appends| == |enumerated| &&
      forall k :: 0 <= k < |appends| ==>
        appends[k].path == targetFilePath &&
        ParseInt(FirstField(appends[k].text)) == enumerated[k].0 &&
        appends[k].text == RewardLine(enumerated[k].0, formatAverageReward(enumerated[k].1))
  {
    var appends := EpisodicRewardAppends(enumerated, targetFilePath, formatAverageReward);
    EpisodicRewardLines(enumerated, targetFilePath, formatAverageReward);
    forall k | 0 <= k < |appends|
      ensures ParseInt(FirstField(appends[k].text)) == enumerated[k].0
    {
      RewardLineIteration(enumerated[k].0, formatAverageReward(enumerated[k].1));
    }
  }

  // ---------------------------------------------------------------------
  // The checkpoint loop (lines 28-56)
  // ---------------------------------------------------------------------

  /** The state before the first checkpoint. */
  function InitialState<A, P>(trainingAgent: A): WorkerState<A, P>
  {
    WorkerState(0, [], trainingAgent)
  }

  /** One pass of the loop body for `targetIteration`: train for
      `target - completed` episodes from the current agent and menagerie,
      put a clone of the trained agent saved at the snapshot path, append
      the rewards of the span to the file named after the agent that
      entered the step, and continue with the trained agent. */
  function Advance<A, P, S, T>(w: Worker<A, P, S, T>, s: WorkerState<A, P>, targetIteration: int): (CheckpointStep<A, P, S>, WorkerState<A, P>)
  {
    var nextTrainingIterations := targetIteration - s.completedIterations;
    var call := TrainingCall(s.trainingAgent, nextTrainingIterations, s.menagerie, s.completedIterations);
    var result := w.selfPlayTraining(call);
    var completedIterations := s.completedIterations + nextTrainingIterations;
    var path := SnapshotPath(w, targetIteration);
    var put := AgentQueueItem(targetIteration, w.selfPlayScheme, w.clone(result.trainedAgent, path));
    var enumerated := Zip(targetIteration - nextTrainingIterations, targetIteration, result.trajectories);
    var appends := EpisodicRewardAppends(enumerated, RewardFilePath(w, s.trainingAgent), w.formatAverageReward);
    (CheckpointStep(call, path, put, appends), WorkerState(completedIterations, result.menagerie, result.trainedAgent))
  }

  /** A loop over `targets` whose body maps a state and a target to an
      event and the next state: the events in order and the last state. */
  function Fold<St, Ev>(body: (St, int) -> (Ev, St), init: St, targets: seq<int>): (seq<Ev>, St)
    decreases |targets|
  {
    if |targets| == 0 then ([], init)
    else
      var (events, s) := Fold(body, init, targets[..|targets| - 1]);
      var (event, s') := body(s, targets[|targets| - 1]);
      (events + [event], s')
  }

  lemma {:induction false} FoldLength<St, Ev>(body: (St, int) -> (Ev, St), init: St, targets: seq<int>)
    ensures |Fold(body, init, targets).0| == |targets|
    decreases |targets|
  {
    if |targets| > 0 {
      FoldLength(body, init, targets[..|targets| - 1]);
    }
  }

  /** Running the body once more extends the fold by one event. */
  lemma FoldStep<St, Ev>(body: (St, int) -> (Ev, St), init: St, targets: seq<int>, i: nat)
    requires i < |targets|
    ensures var (events, s) := Fold(body, init, targets[..i]);
      Fold(body, init, targets[..i + 1]) == (events + [body(s, targets[i]).0], body(s, targets[i]).1)
  {
    assert targets[..i + 1][..i] == targets[..i];
  }

  /** One event per target; event `k` comes from the state after the first
      `k` targets, and that state is the one after `k - 1` advanced once. */
  lemma {:induction false} FoldAt<St, Ev>(body: (St, int) -> (Ev, St), init: St, targets: seq<int>, k: nat)
    requires k < |targets|
    ensures |Fold(body, init, targets).0| == |targets|
    ensures Fold(body, init, targets).0[k] == body(Fold(body, init, targets[..k]).1, targets[k]).0
    ensures Fold(body, init, targets[..k + 1]).1 == body(Fold(body, init, targets[..k]).1, targets[k]).1
    decreases |targets|
  {
    var front := targets[..|targets| - 1];
    FoldLength(body, init, front);
    if k < |front| {
      FoldAt(body, init, front, k);
      assert front[..k] == targets[..k] && front[k] == targets[k] && front[..k + 1] == targets[..k + 1];
    } else {
      assert targets[..k] == front && targets[..k + 1] == targets;
    }
  }

  /** The loop body of `training_process` for worker `w`. */
  function Body<A, P, S, T>(w: Worker<A, P, S, T>): (WorkerState<A, P>, int) -> (CheckpointStep<A, P, S>, WorkerState<A, P>)
  {
    (s: WorkerState<A, P>, targetIteration: int) => Advance(w, s, targetIteration)
  }

  lemma BodyIsAdvance<A, P, S, T>(w: Worker<A, P, S, T>, s: WorkerState<A, P>, targetIteration: int)
    ensures Body(w)(s, targetIteration) == Advance(w, s, targetIteration)
  {
  }

  /** The steps taken and the state reached after the checkpoints `targets`. */
  function Walk<A, P, S, T>(w: Worker<A, P, S, T>, init: WorkerState<A, P>, targets: seq<int>): (seq<CheckpointStep<A, P, S>>, WorkerState<A, P>)
  {
    Fold(Body(w), init, targets)
  }

  /** The parts of `Advance` written out, given the result of its training
      call. */
  lemma AdvanceParts<A, P, S, T>(w: Worker<A, P, S, T>, s: WorkerState<A, P>, targetIteration: int, result: TrainingResult<A, P, T>)
    requires result == w.selfPlayTraining(TrainingCall(s.trainingAgent, targetIteration - s.completedIterations, s.menagerie, s.completedIterations))
    ensures Advance(w, s, targetIteration).0 == CheckpointStep(
      TrainingCall(s.trainingAgent, targetIteration - s.completedIterations, s.menagerie, s.completedIterations),
      SnapshotPath(w, targetIteration),
      AgentQueueItem(targetIteration, w.selfPlayScheme, w.clone(result.trainedAgent, SnapshotPath(w, targetIteration))),
      EpisodicRewardAppends(Zip(s.completedIterations, targetIteration, result.trajectories), RewardFilePath(w, s.trainingAgent), w.formatAverageReward))
    ensures Advance(w, s, targetIteration).1 == WorkerState(targetIteration, result.menagerie, result.trainedAgent)
  {
  }

  /** One pass of the checkpoint loop's body (lines 29-53): train up to
      `targetIteration`, save and publish a clone, and append the rewards. */
  method Checkpoint<A, P, S, T>(w: Worker<A, P, S, T>, completedIterations: int, menagerie: seq<P>, agent: A, targetIteration: int)
    returns (step: CheckpointStep<A, P, S>, completedAfter: int, menagerieAfter: seq<P>, agentAfter: A)
    ensures step == Advance(w, WorkerState(completedIterations, menagerie, agent), targetIteration).0
    ensures WorkerState(completedAfter, menagerieAfter, agentAfter)
      == Advance(w, WorkerState(completedIterations, menagerie, agent), targetIteration).1
  {
    var nextTrainingIterations := targetIteration - completedIterations;
    var call := TrainingCall(agent, nextTrainingIterations, menagerie, completedIterations);
    var result := w.selfPlayTraining(call);
    menagerieAfter := result.menagerie;
    completedAfter := completedIterations + nextTrainingIterations;
    var path := SnapshotPath(w, targetIteration);
    var put := AgentQueueItem(targetIteration, w.selfPlayScheme, w.clone(result.trainedAgent, path));
    var enumerated := Zip(targetIteration - nextTrainingIterations, targetIteration, result.trajectories);
    assert enumerated == Zip(completedIterations, targetIteration, result.trajectories);
    var appends := WriteEpisodicReward(enumerated, RewardFilePath(w, agent), w.formatAverageReward);
    agentAfter := result.trainedAgent;
    step := CheckpointStep(call, path, put, appends);
    ghost var before := WorkerState(completedIterations, menagerie, agent);
    AdvanceParts(w, before, targetIteration, result);
    assert before.trainingAgent == agent && before.completedIterations == completedIterations;
  }

  /** `training_process`: the steps for the sorted checkpoints. */
  method TrainingProcessLoop<A, P, S, T>(w: Worker<A, P, S, T>, trainingAgent: A, checkpointAtIterations: seq<int>)
    returns (steps: seq<CheckpointStep<A, P, S>>)
    ensures steps == Walk(w, InitialState(trainingAgent), SortedCheckpoints(checkpointAtIterations)).0
  {
    var targets := SortedCheckpoints(checkpointAtIterations);
    var completedIterations := 0;
    var menagerie: seq<P> := [];
    var agent := trainingAgent;
    steps := [];
    var i := 0;
    while i < |targets|
      invariant 0 <= i <= |targets|
      invariant (steps, WorkerState(completedIterations, menagerie, agent)) == Walk(w, InitialState(trainingAgent), targets[..i])
    {
      ghost var before := WorkerState(completedIterations, menagerie, agent);
      var step;
      step, completedIterations, menagerie, agent := Checkpoint(w, completedIterations, menagerie, agent, targets[i]);
      FoldStep(Body(w), InitialState(trainingAgent), targets, i);
      BodyIsAdvance(w, before, targets[i]);
      steps := steps + [step];
      i := i + 1;
    }
    assert targets[..i] == targets;
  }

  // ---------------------------------------------------------------------
  // Properties of the checkpoint loop
  // ---------------------------------------------------------------------

  /** Where step `k` starts: 0 for the first, the previous checkpoint after. */
  function Previous(targets: seq<int>, k: int): int
    requires 0 <= k < |targets|
  {
    if k == 0 then 0 else targets[k - 1]
  }

  /** The steps of a worker started on `trainingAgent`, for `targets`. */
  function Steps<A, P, S, T>(w: Worker<A, P, S, T>, trainingAgent: A, targets: seq<int>): seq<CheckpointStep<A, P, S>>
  {
    Walk(w, InitialState(trainingAgent), targets).0
  }

  /** The loop variables when step `k` begins. */
  function StateBefore<A, P, S, T>(w: Worker<A, P, S, T>, trainingAgent: A, targets: seq<int>, k: nat): WorkerState<A, P>
    requires k <= |targets|
  {
    Walk(w, InitialState(trainingAgent), targets[..k]).1
  }

  /** After any prefix of the checkpoints, `completed_iterations` equals
      the last checkpoint of the prefix (0 before the first), because each
      step adds `target - completed`. */
  lemma {:induction false} CompletedIterations<A, P, S, T>(w: Worker<A, P, S, T>, trainingAgent: A, targets: seq<int>, k: nat)
    requires k < |targets|
    ensures StateBefore(w, trainingAgent, targets, k).completedIterations == Previous(targets, k)
    ensures StateBefore(w, trainingAgent, targets, k + 1).completedIterations == targets[k]
    decreases k
  {
    FoldAt(Body(w), InitialState(trainingAgent), targets, k);
    if k == 0 {
      assert targets[..0] == [];
    } else {
      CompletedIterations(w, trainingAgent, targets, k - 1);
    }
  }

  /** Step `k`, as the loop body computes it from the state it begins in. */
  lemma StepAt<A, P, S, T>(w: Worker<A, P, S, T>, trainingAgent: A, targets: seq<int>, k: nat)
    requires k < |targets|
    ensures |Steps(w, trainingAgent, targets)| == |targets|
    ensures Steps(w, trainingAgent, targets)[k] == Advance(w, StateBefore(w, trainingAgent, targets, k), targets[k]).0
    ensures StateBefore(w, trainingAgent, targets, k + 1) == Advance(w, StateBefore(w, trainingAgent, targets, k), targets[k]).1
  {
    FoldAt(Body(w), InitialState(trainingAgent), targets, k);
  }

  /** The training calls: step `k` trains `target - previous` episodes from
      iteration `previous`; the first call gets the initial agent and an
      empty menagerie, each later call the agent and the menagerie returned
      by the call before. */
  lemma TrainingCalls<A, P, S, T>(w: Worker<A, P, S, T>, trainingAgent: A, targets: seq<int>, k: nat)
    requires k < |targets|
    ensures var steps := Steps(w, trainingAgent, targets);
      |steps| == |targets| &&
      steps[k].call.iteration == Previous(targets, k) &&
      steps[k].call.targetEpisodes == targets[k] - Previous(targets, k) &&
      (k == 0 ==> steps[k].call.trainingAgent == trainingAgent && steps[k].call.menagerie == []) &&
      (k + 1 < |targets| ==>
         steps[k + 1].call.trainingAgent == w.selfPlayTraining(steps[k].call).trainedAgent &&
         steps[k + 1].call.menagerie == w.selfPlayTraining(steps[k].call).menagerie)
  {
    StepAt(w, trainingAgent, targets, k);
    CompletedIterations(w, trainingAgent, targets, k);
    if k == 0 {
      assert targets[..0] == [];
    }
    if k + 1 < |targets| {
      StepAt(w, trainingAgent, targets, k + 1);
    }
  }

  /** The queue puts: step `k` puts `[target, scheme, clone]`, the clone of
      the trained agent saved at the snapshot path of `target`. */
  lemma QueuePut<A, P, S, T>(w: Worker<A, P, S, T>, trainingAgent: A, targets: seq<int>, k: nat)
    requires k < |targets|
    ensures var steps := Steps(w, trainingAgent, targets);
      |steps| == |targets| &&
      steps[k].snapshotPath == SnapshotPath(w, targets[k]) &&
      steps[k].put == AgentQueueItem(targets[k], w.selfPlayScheme,
                                     w.clone(w.selfPlayTraining(steps[k].call).trainedAgent, SnapshotPath(w, targets[k])))
  {
    StepAt(w, trainingAgent, targets, k);
  }

  /** The iterations carried by the queue puts, in order. */
  function PutIterations<A, P, S>(steps: seq<CheckpointStep<A, P, S>>): (r: seq<int>)
  {
    seq(|steps|, k requires 0 <= k < |steps| => steps[k].put.iteration)
  }

  /** Exactly one put per checkpoint: the puts carry the sorted checkpoints,
      so they are ascending and a permutation of the checkpoints given. */
  lemma PutsFollowSortedCheckpoints<A, P, S, T>(w: Worker<A, P, S, T>, trainingAgent: A, checkpointAtIterations: seq<int>)
    ensures var puts := PutIterations(Steps(w, trainingAgent, SortedCheckpoints(checkpointAtIterations)));
      puts == SortedCheckpoints(checkpointAtIterations) &&
      IsSorted(puts) && multiset(puts) == multiset(checkpointAtIterations)
  {
    var targets := SortedCheckpoints(checkpointAtIterations);
    SortedIsPermutation(checkpointAtIterations);
    if |targets| > 0 {
      StepAt(w, trainingAgent, targets, 0);
    }
    var puts := PutIterations(Steps(w, trainingAgent, targets));
    forall k | 0 <= k < |targets| ensures puts[k] == targets[k] {
      QueuePut(w, trainingAgent, targets, k);
    }
  }

  /** The reward records of step `k`: they go to the file named after the
      agent that entered the step, one line per iteration from `previous`
      on, as many as the span and the returned trajectories both allow,
      each the reward line of its iteration (which `RewardLineIteration`
      reads back). */
  lemma RewardRecords<A, P, S, T>(w: Worker<A, P, S, T>, trainingAgent: A, targets: seq<int>, k: nat)
    requires k < |targets|
    ensures |Steps(w, trainingAgent, targets)| == |targets|
    ensures var steps := Steps(w, trainingAgent, targets);
      var appends := steps[k].rewardAppends;
      var trajectories := w.selfPlayTraining(steps[k].call).trajectories;
      |appends| == Min(Max(0, targets[k] - Previous(targets, k)), |trajectories|) &&
      forall j :: 0 <= j < |appends| ==>
        appends[j].path == RewardFilePath(w, steps[k].call.trainingAgent) &&
        appends[j].text == RewardLine(Previous(targets, k) + j, w.formatAverageReward(trajectories[j]))
  {
    StepAt(w, trainingAgent, targets, k);
    CompletedIterations(w, trainingAgent, targets, k);
    var before := StateBefore(w, trainingAgent, targets, k);
    AdvanceRewards(w, before, targets[k]);
    assert Steps(w, trainingAgent, targets)[k] == Advance(w, before, targets[k]).0;
    assert before.completedIterations == Previous(targets, k);
  }

  /** The reward records of one step, from the state it begins in. */
  lemma AdvanceRewards<A, P, S, T>(w: Worker<A, P, S, T>, s: WorkerState<A, P>, targetIteration: int)
    ensures var step := Advance(w, s, targetIteration).0;
      var appends := step.rewardAppends;
      var trajectories := w.selfPlayTraining(step.call).trajectories;
      |appends| == Min(Max(0, targetIteration - s.completedIterations), |trajectories|) &&
      forall j :: 0 <= j < |appends| ==>
        appends[j].path == RewardFilePath(w, step.call.trainingAgent) &&
        appends[j].text == RewardLine(s.completedIterations + j, w.formatAverageReward(trajectories[j]))
  {
    var result := w.selfPlayTraining(TrainingCall(s.trainingAgent, targetIteration - s.completedIterations, s.menagerie, s.completedIterations));
    AdvanceParts(w, s, targetIteration, result);
    ZippedRewards(s.completedIterations, targetIteration, result.trajectories, RewardFilePath(w, s.trainingAgent), w.formatAverageReward);
    var step := Advance(w, s, targetIteration).0;
    forall j | 0 <= j < |step.rewardAppends|
      ensures step.rewardAppends[j].path == RewardFilePath(w, step.call.trainingAgent)
      ensures step.rewardAppends[j].text == RewardLine(s.completedIterations + j, w.formatAverageReward(result.trajectories[j]))
    {
      AdvanceRewardAt(w, s, targetIteration, result, j);
    }
  }

  lemma AdvanceRewardAt<A, P, S, T>(w: Worker<A, P, S, T>, s: WorkerState<A, P>, targetIteration: int, result: TrainingResult<A, P, T>, j: nat)
    requires result == w.selfPlayTraining(TrainingCall(s.trainingAgent, targetIteration - s.completedIterations, s.menagerie, s.completedIterations))
    requires j < |Advance(w, s, targetIteration).0.rewardAppends|
    ensures j < |result.trajectories|
    ensures Advance(w, s, targetIteration).0.rewardAppends[j] ==
      FileAppend(RewardFilePath(w, s.trainingAgent), RewardLine(s.completedIterations + j, w.formatAverageReward(result.trajectories[j])))
  {
    AdvanceParts(w, s, targetIteration, result);
    ZippedRewards(s.completedIterations, targetIteration, result.trajectories, RewardFilePath(w, s.trainingAgent), w.formatAverageReward);
  }

  /** The reward lines for the iterations from `lo` paired with the
      trajectories: one per pair, in order, all to the same file. */
  lemma ZippedRewards<T>(lo: int, hi: int, trajectories: seq<T>, targetFilePath: string, formatAverageReward: T -> string)
    ensures var appends := EpisodicRewardAppends(Zip(lo, hi, trajectories), targetFilePath, formatAverageReward);
      |appends| == Min(Max(0, hi - lo), |trajectories|) &&
      forall j :: 0 <= j < |appends| ==>
        appends[j].path == targetFilePath &&
        appends[j].text == RewardLine(lo + j, formatAverageReward(trajectories[j]))
  {
    var enumerated := Zip(lo, hi, trajectories);
    var appends := EpisodicRewardAppends(enumerated, targetFilePath, formatAverageReward);
    EpisodicRewardLines(enumerated, targetFilePath, formatAverageReward);
    forall j | 0 <= j < |appends|
      ensures appends[j] == FileAppend(targetFilePath, RewardLine(lo + j, formatAverageReward(trajectories[j])))
    {
      ZippedRewardAt(enumerated, appends, lo, trajectories, targetFilePath, formatAverageReward, j);
    }
  }

  lemma ZippedRewardAt<T>(enumerated: seq<(int, T)>, appends: seq<FileAppend>, lo: int, trajectories: seq<T>,
                          targetFilePath: string, formatAverageReward: T -> string, j: nat)
    requires j < |enumerated| == |appends| && j < |trajectories|
    requires enumerated[j] == (lo + j, trajectories[j])
    requires appends[j] == FileAppend(targetFilePath, RewardLine(enumerated[j].0, formatAverageReward(enumerated[j].1)))
    ensures appends[j] == FileAppend(targetFilePath, RewardLine(lo + j, formatAverageReward(trajectories[j])))
  {
  }

  /** Iteration `x` is labelled by step `k`. */
  predicate InSpan(targets: seq<int>, k: int, x: int)
    requires 0 <= k < |targets|
  {
    Previous(targets, k) <= x < targets[k]
  }

  /** Some span among the first `n` holds every iteration in `[0, targets[n-1])`. */
  lemma {:induction false} SpanOf(targets: seq<int>, x: int, n: nat)
    requires IsSorted(targets) && 0 < n <= |targets| && 0 <= x < targets[n - 1]
    ensures exists k :: 0 <= k < n && InSpan(targets, k, x)
    decreases n
  {
    if n == 1 || x >= targets[n - 2] {
      assert InSpan(targets, n - 1, x);
    } else {
      SpanOf(targets, x, n - 1);
    }
  }

  /** For sorted checkpoints starting at or above 0 the spans
      `[previous, target)` tile `[0, last checkpoint)`: every iteration in
      it lies in exactly one span, and no other iteration lies in any.
      With `RewardRecords`, when every call returns at least as many
      trajectories as episodes asked for, each of these iterations gets
      exactly one reward line. */
  lemma SpansTile(targets: seq<int>, x: int)
    requires IsSorted(targets) && |targets| > 0 && targets[0] >= 0
    ensures (exists k :: 0 <= k < |targets| && InSpan(targets, k, x)) <==> 0 <= x < targets[|targets| - 1]
    ensures forall k1, k2 :: 0 <= k1 < k2 < |targets| ==> !(InSpan(targets, k1, x) && InSpan(targets, k2, x))
  {
    if 0 <= x < targets[|targets| - 1] {
      SpanOf(targets, x, |targets|);
    }
    forall k | 0 <= k < |targets| && InSpan(targets, k, x) ensures 0 <= x < targets[|targets| - 1] {
      if k > 0 {
        assert targets[0] <= targets[k - 1];
      }
    }
    forall k1, k2 | 0 <= k1 < k2 < |targets| ensures !(InSpan(targets, k1, x) && InSpan(targets, k2, x)) {
      assert targets[k1] <= targets[k2 - 1];
    }
  }

  /** A concrete run: checkpoints `[10, 30, 25]` are visited as 10, 25, 30,
      training 10, 15 and 5 episodes from iterations 0, 10 and 25. */
  lemma CheckpointExample<A, P, S, T>(w: Worker<A, P, S, T>, trainingAgent: A)
    ensures var steps := Steps(w, trainingAgent, SortedCheckpoints([10, 30, 25]));
      |steps| == 3 &&
      steps[0].call.iteration == 0 && steps[0].call.targetEpisodes == 10 && steps[0].put.iteration == 10 &&
      steps[1].call.iteration == 10 && steps[1].call.targetEpisodes == 15 && steps[1].put.iteration == 25 &&
      steps[2].call.iteration == 25 && steps[2].call.targetEpisodes == 5 && steps[2].put.iteration == 30
  {
    var targets: seq<int> := [10, 25, 30];
    assert SortedCheckpoints([10, 30, 25]) == targets;
    TrainingCalls(w, trainingAgent, targets, 0);
    TrainingCalls(w, trainingAgent, targets, 1);
    TrainingCalls(w, trainingAgent, targets, 2);
    QueuePut(w, trainingAgent, targets, 0);
    QueuePut(w, trainingAgent, targets, 1);
    QueuePut(w, trainingAgent, targets, 2);
  }

  // ---------------------------------------------------------------------
  // One worker per training job (lines 67-90)
  // ---------------------------------------------------------------------

  /** A `TrainingJob`: training scheme, algorithm (the agent) and name. */
  datatype TrainingJob<S, A> = TrainingJob(trainingScheme: S, algorithm: A, name: string)

  /** The arguments a worker process is created with. */
  datatype TrainingProcessArgs<E, S, A> = TrainingProcessArgs(
    env: E, trainingAgent: A, selfPlayScheme: S, checkpointAtIterations: seq<int>,
    processName: string, resultsPath: string)

  /** `create_training_processes`: the episodic reward directory and one
      process per job, in job order; `createNewEnvironment(k)` is the
      environment the `k`-th call of `createNewEnvironment()` returns. */
  method CreateTrainingProcesses<E, S, A>(trainingJobs: seq<TrainingJob<S, A>>, createNewEnvironment: nat -> E,
                                          checkpointAtIterations: seq<int>, resultsPath: string)
    returns (episodicRewardDirectory: string, ps: seq<TrainingProcessArgs<E, S, A>>)
    ensures episodicRewardDirectory == resultsPath + "/episodic_rewards"
    ensures |ps| == |trainingJobs|
    ensures forall k :: 0 <= k < |ps| ==>
      ps[k] == TrainingProcessArgs(createNewEnvironment(k), trainingJobs[k].algorithm, trainingJobs[k].trainingScheme,
                                   checkpointAtIterations, trainingJobs[k].name, episodicRewardDirectory)
  {
    episodicRewardDirectory := resultsPath + "/episodic_rewards";
    ps := [];
    var k := 0;
    while k < |trainingJobs|
      invariant 0 <= k <= |trainingJobs|
      invariant |ps| == k
      invariant forall m :: 0 <= m < k ==>
        ps[m] == TrainingProcessArgs(createNewEnvironment(m), trainingJobs[m].algorithm, trainingJobs[m].trainingScheme,
                                     checkpointAtIterations, trainingJobs[m].name, episodicRewardDirectory)
    {
      var job := trainingJobs[k];
      var p := TrainingProcessArgs(createNewEnvironment(k), job.algorithm, job.trainingScheme,
                                   checkpointAtIterations, job.name, episodicRewardDirectory);
      ps := ps + [p];
      k := k + 1;
    }
  }

  /** Where a worker created for `job` writes: its reward files lie inside
      the episodic reward directory, while its snapshot paths join that
      directory's path and the job name with no separator. */
  lemma WorkerPaths<A, P, S, T>(w: Worker<A, P, S, T>, resultsPath: string, jobName: string, targetIteration: int, agent: A)
    requires w.resultsPath == resultsPath + "/episodic_rewards" && w.processName == jobName
    ensures RewardFilePath(w, agent) == resultsPath + "/episodic_rewards/" + w.schemeName + "-" + w.agentName(agent) + ".txt"
    ensures SnapshotPath(w, targetIteration) == resultsPath + "/episodic_rewards" + jobName + "_tp_it" + IntToString(targetIteration) + ".pt"
  {
  }
}

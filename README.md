# Self-play experiment core, modelled in Dafny

This project models three sequential cores of a generalized self-play
reinforcement-learning framework and proves properties of them.

1. **Matchmaking coordinator** (`match_making.dfy`, module `MatchMaking`).
   It keeps two registries that only grow: the agents received from the
   training workers, and the benchmarking jobs scheduled so far. When an
   agent arrives, the coordinator pairs every agent recorded at that
   iteration with every agent of that iteration, itself included. A job is new when no recorded job has the
   same iteration and the same bag of participants. Each new job is
   recorded before the next candidate is tested, and one benchmarking child
   process is spawned for it. Once enough agents have arrived, the
   coordinator joins its children, shuts the pool down if there is one, and ends itself.
2. **Training worker** (`training_process.dfy`, module `TrainingProcess`).
   The worker walks its checkpoints in sorted order. For each one it trains
   `target - completed` episodes through an opaque `self_play_training`
   call, puts a cloned snapshot on the agent queue, and appends one reward
   line per enumerated trajectory. `create_training_processes` builds one
   worker per training job.
3. **Replay memories and greedy choice** (`deep_q_network.dfy`, module `DeepQ`).
   `ReplayBuffer` is a ring buffer over a list. `PrioritizedReplayBuffer` is
   an array-backed sum tree of priorities with a slot array beside it.
   `find_optimal_moves` lists the actions that attain a Q-table row's
   maximum, and `handle_experience` updates the table only while training.

`common.dfy` (module `Common`) holds the shared pieces:
- `Option` and `Result`, and the Python exceptions the code raises;
- the agent-queue message;
- decimal rendering and parsing of integers, used in file names and reward lines.

Agents, schemes, environments and trajectories are type parameters.
Equality on agents is the agents' own `__eq__`, which is not visible, so
nothing is assumed about whether a clone equals its original. Calls into
code outside the core become function parameters:
- `clone`;
- `self_play_training`;
- `agent.name`;
- `createNewEnvironment`;
- the formatting of the average reward;
- `update_q_table`.

Process spawning and shutdown are recorded as values, not performed.
File appends are recorded as a sequence of `(path, text)` records.

Paths:
- The snapshot path is built as `results_path + process_name`, with no
  separator. `create_training_processes` passes the episodic-reward
  directory as `results_path`, so the snapshots land beside that
  directory with its name as a prefix. `TrainingProcess.WorkerPaths`
  states this.
- The reward file path does have a separator, so reward files land inside
  that directory.

## Model

| member | source | states |
|---|---|---|
| MatchMaking.JobEqualityIsBagEquality | experiment/match_making.py:106 | Two jobs are equal exactly when they have the same iteration and equal bags of participants (Counter equality). |
| MatchMaking.JobEqualityOfPairs | experiment/match_making.py:106 | For two-participant jobs, equality means the same iteration and the same pair up to swapping. |
| MatchMaking.JobEqualityExamples | experiment/match_making.py:106 | `[A,B]` equals `[B,A]`, and `[A,B]` differs from `[A,A]` when A differs from B. |
| MatchMaking.AlreadyRecordedIffSomeEqual | experiment/match_making.py:107 | `is_benchmarking_job_already_recorded` is true exactly when some recorded job equals the candidate. |
| MatchMaking.AlreadyRecordedInSingleton | experiment/match_making.py:107 | A one-job registry records the candidate exactly when that job equals it. |
| MatchMaking.AlreadyRecordedInConcat | experiment/match_making.py:107 | A candidate is recorded in a concatenated registry exactly when it is recorded in one of the parts. |
| MatchMaking.FilteredRecordedAgents | experiment/match_making.py:85 | The filtered list is no longer than the registry, holds only agents of the filter's iteration, and holds a fresh clone of every recorded agent of that iteration. |
| MatchMaking.FilterOfConcat | experiment/match_making.py:85 | Filtering preserves registry order: filtering a concatenation concatenates the filtered parts. |
| MatchMaking.FilteredMembers | experiment/match_making.py:85 | An entry is in the filtered list exactly when it is the clone of a recorded agent of the filter's iteration. |
| MatchMaking.NewJobsFromFiltered | experiment/match_making.py:86-93 | Every kept job has the filter's iteration, and both of its participants come from the filtered list. |
| MatchMaking.AppendKeepsDuplicateFree | experiment/match_making.py:94-95 | Appending a job that is not already recorded keeps the registry free of equal jobs. |
| MatchMaking.NewJobsKeepDuplicateFree | experiment/match_making.py:86-96 | A duplicate-free registry stays duplicate-free after the generator appends its kept jobs. |
| MatchMaking.JobEqualityAtIndices | experiment/match_making.py:93-94 | For pairwise-distinct agents, two jobs over them are equal exactly when their index pairs agree, possibly swapped. |
| MatchMaking.RecordedInExpectedJobs | experiment/match_making.py:86-96 | A pair is among the reference enumeration up to `(i, j)` exactly when its larger index is at least `p` and its (smaller, larger) indices come before `(i, j)` in lexicographic order. |
| MatchMaking.NewJobsStepIsExpected | experiment/match_making.py:93-96 | One candidate test extends the kept jobs exactly as the reference enumeration extends. |
| MatchMaking.NewJobsAreExpected | experiment/match_making.py:86-96 | For distinct agents whose pairs among the first `p` are the only ones already recorded, the kept jobs are exactly the pairs `(f[c], f[d])` with `c <= d` and `d >= p`, in lexicographic order. |
| MatchMaking.ExpectedJobsLength | experiment/match_making.py:86-96 | Counts the reference enumeration up to `(i, j)`, row by row. |
| MatchMaking.ExpectedSelfMatches | experiment/match_making.py:86-96 | Counts the self-matches in the reference enumeration up to `(i, j)`. |
| MatchMaking.NewJobsCount | experiment/match_making.py:86-96 | With `p` agents already covered, one call keeps `(n(n+1) - p(p+1))/2` jobs, `n - p` of them self-matches; with `p = 0` that is `n(n+1)/2` jobs and `n` self-matches. |
| MatchMaking.CalculateNewBenchmarkingJobs | experiment/match_making.py:75-96 | The nested loops yield the labelled kept jobs and leave the registry extended by exactly those jobs, in order. |
| MatchMaking.CheckForTermination | experiment/match_making.py:69-72 | Termination fires exactly when `received >= expected`. It then joins every child in order, shuts the pool down only when there is one, and kills the process last. |
| MatchMaking.TerminationOrder | experiment/match_making.py:69-72 | The pool shutdown comes after all joins, the kill comes only at the end, and there is no shutdown without a pool. |
| MatchMaking.StepProperties | experiment/match_making.py:41-53 | One turn adds exactly 1 to `received_agents`, appends exactly the received agent, only extends the job and child lists, keeps the registry duplicate-free, and keeps child `k` running job `k`. |
| MatchMaking.RunInvariant | experiment/match_making.py:40-53 | After any number of turns there is one count and one recorded agent per arrival, in arrival order. The registry is duplicate-free, and there are exactly as many children as recorded jobs. |
| MatchMaking.RunGrows | experiment/match_making.py:40-53 | The state after a prefix of the arrivals is a prefix of the state after all of them, for all three lists. |
| MatchMaking.ReceiveAgent | experiment/match_making.py:41-53 | The loop body, with children appended one by one, computes the step function. |
| MatchMaking.MatchMakingProcess | experiment/match_making.py:35-55 | The loop stops after `max(expected, 1)` arrivals, with that call's shutdown actions. If the queue runs out first it stops with none. Its state is the fold of the step over the arrivals consumed. |
| TrainingProcess.Insert | experiment/training_process.py:30 | Inserting into a sorted list gives a sorted list one longer, whose head is the smaller of the new value and the old head. |
| TrainingProcess.InsertAddsOne | experiment/training_process.py:30 | Insertion adds exactly the new value to the multiset. |
| TrainingProcess.SortedCheckpoints | experiment/training_process.py:30 | `sorted` returns an ascending list of the same length. |
| TrainingProcess.SortedIsPermutation | experiment/training_process.py:30 | `sorted` returns a permutation of the checkpoints. |
| TrainingProcess.SortedIsUnique | experiment/training_process.py:30 | Two ascending lists with the same elements are equal. |
| TrainingProcess.SortingIgnoresInputOrder | experiment/training_process.py:30 | Checkpoint lists with the same elements are visited in the same order, whatever order they are given in. |
| TrainingProcess.RewardLineIteration | experiment/training_process.py:64 | The first comma-separated field of a reward line reads back as its iteration. |
| TrainingProcess.Zip | experiment/training_process.py:52 | `zip(range(lo, hi), trajectories)` has `min(max(0, hi - lo), len(trajectories))` entries, and entry `k` is `(lo + k, trajectories[k])`. |
| TrainingProcess.EpisodicRewardLines | experiment/training_process.py:60-64 | One append per enumerated pair, in order, to the target file, with text `"<iteration>, <average>\n"`. |
| TrainingProcess.EpisodicRewardsReadBack | experiment/training_process.py:60-64 | Every appended line goes to the target file and its first field reads back as its pair's iteration. |
| TrainingProcess.ZippedRewards | experiment/training_process.py:52-53 | Writing the zipped span gives `min(max(0, hi - lo), len(trajectories))` lines, and line `j` is the reward line of iteration `lo + j` and trajectory `j`. |
| TrainingProcess.WriteEpisodicReward | experiment/training_process.py:60-64 | The loop appends one line per enumerated pair, in order, to the target file. Each line reads back as its pair's iteration. |
| TrainingProcess.FoldAt | experiment/training_process.py:30-56 | Event `k` of the checkpoint fold is the body applied to the state reached after the first `k` checkpoints. |
| TrainingProcess.Checkpoint | experiment/training_process.py:31-53 | One pass of the loop body computes the step and the next state of the reference transition. |
| TrainingProcess.TrainingProcessLoop | experiment/training_process.py:28-56 | The loop over `sorted(checkpoints)`, which reassigns `completed_iterations`, `menagerie` and `training_agent`, produces the reference walk's steps. |
| TrainingProcess.CompletedIterations | experiment/training_process.py:31-41 | Step `k` starts at the previous checkpoint (or 0) and ends with `completed_iterations` equal to its target. |
| TrainingProcess.StepAt | experiment/training_process.py:30-56 | There is one step per checkpoint, and state `k + 1` is the transition from state `k`. |
| TrainingProcess.TrainingCalls | experiment/training_process.py:28-56 | Call `k` trains `target - previous` episodes from iteration `previous`. The first call gets the initial agent and `[]`; each later call gets the agent and menagerie returned by the call before. |
| TrainingProcess.QueuePut | experiment/training_process.py:43-46 | Step `k` saves at `'{results_path}{process_name}_tp_it{target}.pt'` and puts `[target, scheme, clone(trained, path)]`. |
| TrainingProcess.PutsFollowSortedCheckpoints | experiment/training_process.py:30-46 | There is exactly one put per checkpoint. The puts carry the sorted checkpoints, so they ascend and permute the input. |
| TrainingProcess.RewardRecords | experiment/training_process.py:51-53 | Step `k` writes `min(max(0, target - previous), len(trajectories))` lines to `'{results_path}/{scheme}-{agent}.txt'`, named after the agent that entered the step. Line `j` is labelled `previous + j`. |
| TrainingProcess.SpanOf | experiment/training_process.py:52 | Every iteration below a sorted checkpoint falls in some earlier or equal span. |
| TrainingProcess.SpansTile | experiment/training_process.py:52 | For sorted non-negative checkpoints, the spans `[previous, target)` cover `[0, last)` with no overlap and nothing outside. |
| TrainingProcess.CheckpointExample | experiment/training_process.py:30-46 | Checkpoints `[10, 30, 25]` train 10, 15 and 5 episodes from 0, 10 and 25, and put 10, 25 and 30. |
| TrainingProcess.CreateTrainingProcesses | experiment/training_process.py:76-90 | The reward directory is `results_path + '/episodic_rewards'`, and there is one worker per job, in job order, with that job's agent, scheme and name. |
| TrainingProcess.WorkerPaths | experiment/training_process.py:43-51 | A created worker writes reward files inside the reward directory, and snapshots to the directory's path joined to the job name with no separator. |
| Common.NatToString | experiment/training_process.py:43 | The decimal rendering of a natural number is a non-empty string of digits, and it has two or more digits exactly when the number is at least 10. |
| Common.IntToString | experiment/training_process.py:64 | The `str` of an integer is non-empty and starts with `-` exactly when the integer is negative. |
| Common.ParseNatToString | experiment/training_process.py:43 | Reading back the decimal rendering of a natural number gives it back. |
| Common.ParseIntToString | experiment/training_process.py:64 | Reading back the `str` of an integer gives it back. |
| DeepQ.ReplayBuffer.constructor | rl_algorithms/deep_q_network.py:90-93 | A buffer of the given capacity starts with empty memory and position 0, which satisfies the ring-buffer invariant for every capacity, zero and negative ones included. |
| DeepQ.ReplayBuffer.Push | rl_algorithms/deep_q_network.py:96-101 | Raises `IndexError` when there is no room. Otherwise the length grows to `min(len + 1, capacity)`, slot `old position` holds the transition, `position` becomes `(old + 1) mod capacity`, and every other slot is unchanged. |
| DeepQ.ReplayBuffer.Len | rl_algorithms/deep_q_network.py:106-107 | The length never exceeds the capacity, and below capacity it equals the write position. |
| DeepQ.RootIsAncestor | rl_algorithms/deep_q_network.py:187-193 | Walking up parents from any non-root node reaches the root. |
| DeepQ.AncestorIsSmaller | rl_algorithms/deep_q_network.py:187-193 | Ancestors have smaller indices, so no node is its own ancestor. |
| DeepQ.AncestorTransitive | rl_algorithms/deep_q_network.py:222-232 | An ancestor of an ancestor is an ancestor. |
| DeepQ.RootIsLeafSum | rl_algorithms/deep_q_network.py:234-235 | In a sum tree, the root holds the sum of all leaves. |
| DeepQ.LevelSum | rl_algorithms/deep_q_network.py:234-235 | Replacing an internal node by its two children in a level slice keeps the slice's sum. |
| DeepQ.FilledMembers | rl_algorithms/deep_q_network.py:218-219 | An experience is listed exactly when some slot holds it. |
| DeepQ.FilledPrefix | rl_algorithms/deep_q_network.py:218-219 | When the first `n` slots are the filled ones, the list holds them one for one, in slot order. |
| DeepQ.PrioritizedReplayBuffer.constructor | rl_algorithms/deep_q_network.py:115-125 | The buffer starts empty, with an all-zero tree of `2 * capacity - 1` nodes and the invariant established. |
| DeepQ.PrioritizedReplayBuffer.Add | rl_algorithms/deep_q_network.py:142-160 | Writes `data[old counter]`, wraps `counter` within `[0, capacity)`, and sets `length = min(length + 1, capacity)`. On success leaf `old counter + capacity - 1` gets the priority, each node above it grows by the change, every other node keeps its value, and the total grows by the change. When the rise exceeds 1000 it raises and the tree is unchanged. The sum-tree invariant is kept in both outcomes. |
| DeepQ.PrioritizedReplayBuffer.Update | rl_algorithms/deep_q_network.py:165-185 | A change above 1000 raises and leaves the tree as it was. Otherwise the leaf gets the priority, every ancestor gets the same change, other nodes are unchanged, the root grows by the change, and the sum-tree invariant holds. |
| DeepQ.PrioritizedReplayBuffer.Propagate | rl_algorithms/deep_q_network.py:187-193 | Adds the change to exactly the strict ancestors of `idx`, up to the root, and restores the invariant that each internal node is the sum of its children. |
| DeepQ.ParentStep | rl_algorithms/deep_q_network.py:187-191 | Adding the change to the parent mends that node and moves the deficit one level up. |
| DeepQ.PrioritizedReplayBuffer.Retrieve | rl_algorithms/deep_q_network.py:222-232 | The descent returns a leaf in `[capacity - 1, 2 * capacity - 2]` below the start node. In a sum tree, a draw `0 < s <= tree[idx]` lands on a leaf of positive priority. |
| DeepQ.PrioritizedReplayBuffer.Get | rl_algorithms/deep_q_network.py:203-213 | Raises `TypeError` exactly when the retrieved leaf's slot is not filled. Otherwise it returns that leaf, its priority and that slot's experience. |
| DeepQ.PrioritizedReplayBuffer.GetBuffer | rl_algorithms/deep_q_network.py:218-219 | Returns exactly the filled slots' experiences, in slot order. |
| DeepQ.PrioritizedReplayBuffer.Total | rl_algorithms/deep_q_network.py:234-235 | In a sum tree, `total()` is the sum of all leaf priorities. |
| DeepQ.PrioritizedReplayBuffer.Len | rl_algorithms/deep_q_network.py:237-238 | The length lies in `[0, capacity]` and equals the number of buffered experiences. |
| DeepQ.RowMaxIsMax | rl_algorithms/deep_q_network.py:35 | `np.amax` of a nonempty row bounds every entry and is attained. |
| DeepQ.ArgWhereMembers | rl_algorithms/deep_q_network.py:35-36 | A position is listed exactly when the row holds the value there. |
| DeepQ.ArgWhereAscending | rl_algorithms/deep_q_network.py:35-36 | The positions are listed in strictly ascending order, all within the row. |
| DeepQ.FindOptimalMoves | rl_algorithms/deep_q_network.py:34-36 | An out-of-range row raises `IndexError`, with negative rows counted from the end; an empty row raises `ValueError`. Otherwise it returns a nonempty, strictly ascending list whose members are exactly the actions attaining the row maximum. |
| DeepQ.DeepQNetwork.constructor | rl_algorithms/deep_q_network.py:8-16 | The table has `state_space_size` rows of `action_space_size` zeros. The learning rate defaults to 0.5 and training defaults to on; the hashing function is kept; and the name is `'TabularQLearning'`. |
| DeepQ.DeepQNetwork.HandleExperience | rl_algorithms/deep_q_network.py:19-22 | While training, the table becomes the update of the old table. Otherwise the table is unchanged. The training flag and learning rate never change. |

## Left out

- I/O and timing: logging, `time.time()` durations, `os.mkdir` of the reward directory, and the file writes themselves. Appends become `(path, text)` records.
- The text of the average reward: `sum(...) / len(trajectory)` is float arithmetic. Its rendering is the parameter `formatAverageReward`, so an empty trajectory's `ZeroDivisionError` is not modelled.
- Process plumbing: starting a `Process` in `create_benchmark_process` and in `create_training_processes`, `p.join()`, `pool.shutdown()`, and `os.kill(..., SIGTERM)`. These become handles and `ShutdownAction` values.
- The blocking `agent_queue.get()`: the coordinator reads a finite list of arrivals and returns when it is used up.
- `benchmark_match_play_process`, `self_play_training`, `agent.clone`, `agent.name`, `scheme.name` and `createNewEnvironment` are visible only as parameters. `createNewEnvironment()` is a function of the call's position.
- The label string `'Benchmark:(...) vs (...). iteration: ...'` is kept as the tuple of values it prints, not as formatted text.
- `update_q_table` (float arithmetic): `HandleExperience` takes the update as a parameter. `anneal_learning_rate` does nothing and is not modelled.
- DeepQ.DeepQNetwork.constructor: the two sizes are `nat`, so a negative size, for which `np.zeros` raises `ValueError`, is not modelled; nor is the `float64` element type beyond the zeros being `0.0` reals.
- `take_action` and `ReplayBuffer.sample`, which are random; `clone` of the tabular agent, which refers to an undefined class; the `DQN`/`DuelingDQN` networks, training loops and environment helpers.
- `PrioritizedReplayBuffer` details:
  - `priority()` exponentiation;
  - the NaN/inf replacement in `add` and `update`;
  - `sumPi_alpha`;
  - `reset`, `__call__` and `get_importance_sampling_weight`;
  - the two `Lock`s (the buffers are used sequentially).
- DeepQ.PrioritizedReplayBuffer.Update: when the rise exceeds 1000, the source raises while holding `update_mutex` (taken at `rl_algorithms/deep_q_network.py:166`, released only at :185), so every later `update` blocks; the model's buffer stays usable after the error.
- DeepQ.PrioritizedReplayBuffer.Add: when the inner `update` raises, `add` also leaves `self.mutex` held (taken at :143, released only at :160), so every later `add` blocks; the model's buffer stays usable after the error.
- DeepQ.FindOptimalMoves: Q-table entries are reals, so a row holding NaN, for which the source returns `[]` (no entry equals a NaN maximum), is not modelled.
- Priorities and draws are integers, not `float64`.
- DeepQ.PrioritizedReplayBuffer.constructor: requires capacity of at least 2. With capacity 1, `_propagate(0, ...)` indexes the tree at `-1` and recurses without end.
- DeepQ.PrioritizedReplayBuffer.Update: requires `idx` to be a leaf. Updating an internal node would break the sum property, and every caller passes a leaf.
- DeepQ.PrioritizedReplayBuffer.Add: every stored experience counts as an `EXP`, so `get` and `get_buffer` test only whether a slot was ever written.
- DeepQ.PrioritizedReplayBuffer.Retrieve: does not state which leaf a draw selects in terms of prefix sums of the priorities; it states only that the leaf is below the start node and, for an in-range draw, has positive priority.
- `Get` returns the experience as one value; the source unpacks its five fields.
- `rl_algorithms/__init__.py` re-exports names and, at lines 6-9, builds four fixed `MixedStrategyAgent` constants (rock, paper, scissors and uniform random). `MixedStrategyAgent` is not part of this model, so neither are these constants.

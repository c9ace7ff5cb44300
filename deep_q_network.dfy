/** The replay memories of the deep Q-learning agent and the greedy action
    choice of the tabular agent: a ring buffer of transitions, an
    array-backed sum tree of priorities with a slot array beside it, and the
    list of actions that attain a Q-table row's maximum. */
module DeepQ {
  import opened Common

  // ---------------------------------------------------------------------
  // ReplayBuffer (lines 90-107)
  // ---------------------------------------------------------------------

  /** A ring buffer of transitions. `memory` grows by one slot per push
      until it holds `capacity` transitions; from then on `position` wraps
      around and the oldest transition is overwritten. A slot is appended
      as `None` and filled in the same push. */
  class ReplayBuffer<T> {
    const capacity: int
    var memory: seq<Option<T>>
    var position: int

    ghost predicate Valid()
      reads this
    {
      && 0 <= position
      && |memory| <= Max(capacity, 0)
      && (|memory| < capacity ==> position == |memory|)
      && (capacity > 0 ==> position < capacity)
      && (capacity <= 0 ==> position == 0)
      && (forall k :: 0 <= k < |memory| ==> memory[k].Some?)
    }

    constructor (capacity: int)
      ensures Valid()
      ensures this.capacity == capacity && memory == [] && position == 0
    {
      this.capacity := capacity;
      memory := [];
      position := 0;
    }

    /** `push`: with no room at all the write raises `IndexError`;
        otherwise the transition goes to slot `position`, which advances
        modulo the capacity. */
    method Push(t: T) returns (r: Result<()>)
      requires Valid()
      modifies this
      ensures Valid()
      ensures capacity <= 0 ==> r == Raised(IndexError) && memory == old(memory) && position == old(position)
      ensures capacity > 0 ==> r == Ok(())
      ensures capacity > 0 ==> |memory| == Min(|old(memory)| + 1, capacity)
      ensures capacity > 0 ==> memory[old(position)] == Some(t)
      ensures capacity > 0 ==> position == (old(position) + 1) % capacity
      ensures forall k :: 0 <= k < |old(memory)| && k != old(position) ==> memory[k] == old(memory)[k]
    {
      if |memory| < capacity {
        memory := memory + [None];
      }
      if position >= |memory| {
        return Raised(IndexError);
      }
      memory := memory[position := Some(t)];
      WrapStep(position, capacity);
      position := (position + 1) % capacity;
      r := Ok(());
    }

    /** `__len__`: the number of stored transitions, never above the
        capacity. */
    function Len(): (n: nat)
      reads this
      requires Valid()
      ensures n <= Max(capacity, 0)
      ensures n < capacity ==> n == position
    {
      |memory|
    }
  }

  /** Advancing a position of a ring of size `capacity` by one. */
  lemma WrapStep(position: int, capacity: int)
    requires 0 <= position < capacity
    ensures (position + 1) % capacity == if position + 1 == capacity then 0 else position + 1
  {
  }

  // ---------------------------------------------------------------------
  // The sum tree of PrioritizedReplayBuffer (lines 114-238)
  // ---------------------------------------------------------------------

  /** The parent of node `i` in the array layout of a binary heap
      (`(idx - 1) // 2`; for `i >= 1` Python's floor division and Dafny's
      division agree). */
  function Parent(i: int): (p: int)
    requires i >= 1
    ensures 0 <= p < i
    ensures i == 2 * p + 1 || i == 2 * p + 2
  {
    (i - 1) / 2
  }

  /** Node `a` lies strictly above node `i` on the path from `i` to the root. */
  predicate StrictAncestor(a: int, i: int)
    decreases if i > 0 then i else 0
  {
    i > 0 && (Parent(i) == a || StrictAncestor(a, Parent(i)))
  }

  /** Every node but the root has the root above it, so a change pushed up
      from any node reaches the root. */
  lemma {:induction false} RootIsAncestor(i: int)
    requires i >= 1
    ensures StrictAncestor(0, i)
    decreases i
  {
    if Parent(i) != 0 {
      RootIsAncestor(Parent(i));
    }
  }

  /** Ancestors have smaller indices; in particular no node is its own
      ancestor. */
  lemma {:induction false} AncestorIsSmaller(a: int, i: int)
    requires StrictAncestor(a, i)
    ensures a < i
    decreases i
  {
    if Parent(i) != a {
      AncestorIsSmaller(a, Parent(i));
    }
  }

  /** An ancestor of an ancestor is an ancestor. */
  lemma {:induction false} AncestorTransitive(a: int, b: int, c: int)
    requires StrictAncestor(a, b) && StrictAncestor(b, c)
    ensures StrictAncestor(a, c)
    decreases c
  {
    if Parent(c) != b {
      AncestorTransitive(a, b, Parent(c));
    }
  }

  /** The internal nodes of `t` hold the sums of their two children, except
      that node `p` falls short of its children's sum by `change`. A tree of
      `capacity` leaves has `2 * capacity - 1` nodes, the leaves last. */
  ghost predicate SumsHoldExcept(t: seq<int>, capacity: int, p: int, change: int)
  {
    && |t| == 2 * capacity - 1
    && forall i :: 0 <= i < capacity - 1 ==> t[i] + (if i == p then change else 0) == t[2 * i + 1] + t[2 * i + 2]
  }

  /** Every internal node holds the sum of its two children. */
  ghost predicate IsSumTree(t: seq<int>, capacity: int)
  {
    SumsHoldExcept(t, capacity, -1, 0)
  }

  function Sum(s: seq<int>): int
  {
    if |s| == 0 then 0 else s[0] + Sum(s[1..])
  }

  lemma {:induction false} SumSnoc(s: seq<int>, x: int)
    ensures Sum(s + [x]) == Sum(s) + x
  {
    if |s| > 0 {
      assert (s + [x])[1..] == s[1..] + [x];
      SumSnoc(s[1..], x);
    }
  }

  /** Replacing node `k - 1` of the level slice `t[k-1 .. 2k-2]` by its
      two children keeps the slice's sum. */
  lemma LevelSum(t: seq<int>, capacity: int, k: int)
    requires IsSumTree(t, capacity) && 1 <= k < capacity
    ensures Sum(t[k - 1..2 * k - 1]) == Sum(t[k..2 * k + 1])
  {
    assert t[k - 1..2 * k - 1][1..] == t[k..2 * k - 1];
    assert t[k..2 * k + 1] == t[k..2 * k - 1] + [t[2 * k - 1]] + [t[2 * k]];
    SumSnoc(t[k..2 * k - 1], t[2 * k - 1]);
    SumSnoc(t[k..2 * k - 1] + [t[2 * k - 1]], t[2 * k]);
  }

  lemma {:induction false} RootIsSliceSum(t: seq<int>, capacity: int, k: int)
    requires IsSumTree(t, capacity) && 1 <= k <= capacity
    ensures t[0] == Sum(t[k - 1..2 * k - 1])
    decreases k
  {
    if k == 1 {
      assert t[0..1] == [t[0]];
    } else {
      RootIsSliceSum(t, capacity, k - 1);
      LevelSum(t, capacity, k - 1);
    }
  }

  /** In a sum tree the root holds the sum of all leaves. */
  lemma RootIsLeafSum(t: seq<int>, capacity: int)
    requires IsSumTree(t, capacity) && capacity >= 1
    ensures t[0] == Sum(t[capacity - 1..])
  {
    RootIsSliceSum(t, capacity, capacity);
    assert t[capacity - 1..2 * capacity - 1] == t[capacity - 1..];
  }

  /** The values of the filled slots, in slot order (`isinstance(..., EXP)`
      is modelled as the slot holding `Some`). */
  function Filled<E>(s: seq<Option<E>>): seq<E>
  {
    if |s| == 0 then [] else (if s[0].Some? then [s[0].value] else []) + Filled(s[1..])
  }

  /** The filled slots are exactly what `Filled` lists. */
  lemma {:induction false} FilledMembers<E>(s: seq<Option<E>>, x: E)
    ensures x in Filled(s) <==> Some(x) in s
  {
    if |s| > 0 {
      FilledMembers(s[1..], x);
      assert s == [s[0]] + s[1..];
    }
  }

  /** When the first `n` slots are the filled ones, `Filled` lists them
      one for one. */
  lemma {:induction false} FilledPrefix<E>(s: seq<Option<E>>, n: int)
    requires 0 <= n <= |s|
    requires forall k :: 0 <= k < |s| ==> (s[k].Some? <==> k < n)
    ensures |Filled(s)| == n
    ensures forall k :: 0 <= k < n ==> s[k] == Some(Filled(s)[k])
  {
    if |s| > 0 {
      FilledPrefix(s[1..], if n > 0 then n - 1 else 0);
    }
  }

  /** `PrioritizedReplayBuffer`: `data` holds the experiences, `tree` a
      sum tree whose leaf `capacity - 1 + k` holds the priority of slot
      `k`; `counter` is the next slot to write, `length` the number of
      filled slots. */
  class PrioritizedReplayBuffer<E> {
    const capacity: int
    const tree: array<int>
    const data: array<Option<E>>
    var counter: int
    var length: int

    ghost predicate Valid()
      reads this, tree, data
    {
      && capacity >= 2
      && tree.Length == 2 * capacity - 1
      && data.Length == capacity
      && 0 <= counter < capacity
      && 0 <= length <= capacity
      && (length < capacity ==> counter == length)
      && (forall k :: 0 <= k < capacity ==> (data[k].Some? <==> k < length))
      && IsSumTree(tree[..], capacity)
    }

    constructor (capacity: int)
      requires capacity >= 2
      ensures Valid()
      ensures this.capacity == capacity && counter == 0 && length == 0
      ensures fresh(tree) && fresh(data)
      ensures forall k :: 0 <= k < tree.Length ==> tree[k] == 0
    {
      this.capacity := capacity;
      tree := new int[2 * capacity - 1](_ => 0);
      data := new Option<E>[capacity](_ => None);
      counter := 0;
      length := 0;
    }

    /** `add`: store `exp` in slot `counter`, advance `counter` with
        wrap-around, count the slot, and give its leaf the priority. */
    method Add(exp: E, priority: int) returns (r: Result<()>)
      requires Valid()
      modifies this, tree, data
      ensures Valid()
      ensures data[old(counter)] == Some(exp)
      ensures forall k :: 0 <= k < capacity && k != old(counter) ==> data[k] == old(data[k])
      ensures counter == (if old(counter) + 1 >= capacity then 0 else old(counter) + 1)
      ensures length == Min(old(length) + 1, capacity)
      ensures r.Raised? <==> priority - old(tree[counter + capacity - 1]) > 1000
      ensures r.Raised? ==> tree[..] == old(tree[..])
      ensures r.Ok? ==> tree[old(counter) + capacity - 1] == priority
      ensures r.Ok? ==> forall k :: 0 <= k < tree.Length && k != old(counter) + capacity - 1 ==>
        tree[k] == old(tree[k]) + (if StrictAncestor(k, old(counter) + capacity - 1)
          then priority - old(tree[counter + capacity - 1]) else 0)
      ensures r.Ok? ==> Total() == old(Total()) + priority - old(tree[counter + capacity - 1])
    {
      var idx := counter + capacity - 1;
      ghost var before := tree[..];
      data[counter] := Some(exp);
      counter := counter + 1;
      length := Min(length + 1, capacity);
      if counter >= capacity {
        counter := 0;
      }
      assert tree[..] == before;
      r := Update(idx, priority);
    }

    /** `update`: a rise of more than 1000 raises before anything changes;
        otherwise the leaf takes the new priority and `Propagate` adds the
        change to each node above it. */
    method Update(idx: int, priority: int) returns (r: Result<()>)
      requires Valid() && capacity - 1 <= idx < tree.Length
      modifies tree
      ensures Valid()
      ensures r.Raised? <==> priority - old(tree[idx]) > 1000
      ensures r.Raised? ==> r.error == GenericException && tree[..] == old(tree[..])
      ensures r.Ok? ==> tree[idx] == priority
      ensures r.Ok? ==> forall k :: 0 <= k < tree.Length && k != idx ==>
        tree[k] == old(tree[k]) + (if StrictAncestor(k, idx) then priority - old(tree[idx]) else 0)
      ensures r.Ok? ==> Total() == old(Total()) + priority - old(tree[idx])
    {
      var change := priority - tree[idx];
      if change > 1000 {
        return Raised(GenericException);
      }
      tree[idx] := priority;
      Propagate(idx, change);
      RootIsAncestor(idx);
      if StrictAncestor(idx, idx) {
        AncestorIsSmaller(idx, idx);
      }
      r := Ok(());
    }

    /** `_propagate`: add `change` to the parent of `idx` and on up to the
        root, restoring the sums that the change at `idx` broke. */
    method Propagate(idx: int, change: int)
      requires capacity >= 1 && 1 <= idx < tree.Length
      requires SumsHoldExcept(tree[..], capacity, Parent(idx), change)
      modifies tree
      ensures IsSumTree(tree[..], capacity)
      ensures forall k :: 0 <= k < tree.Length ==>
        tree[k] == old(tree[k]) + (if StrictAncestor(k, idx) then change else 0)
      decreases idx
    {
      var parentIdx := (idx - 1) / 2;
      tree[parentIdx] := tree[parentIdx] + change;
      if parentIdx != 0 {
        ParentStep(old(tree[..]), tree[..], capacity, parentIdx, change);
        Propagate(parentIdx, change);
        if StrictAncestor(parentIdx, parentIdx) {
          AncestorIsSmaller(parentIdx, parentIdx);
        }
      } else {
        assert SumsHoldExcept(tree[..], capacity, -1, 0);
      }
    }

    /** `_retrieve`: descend from `idx` to a leaf, going left while `s`
        fits in the left subtree and otherwise right with the left sum
        taken off. */
    function Retrieve(idx: int, s: int): (leaf: int)
      reads tree
      requires tree.Length == 2 * capacity - 1 && 0 <= idx < tree.Length
      ensures capacity - 1 <= leaf < tree.Length
      ensures leaf == idx || StrictAncestor(idx, leaf)
      ensures IsSumTree(tree[..], capacity) && 0 < s <= tree[idx] ==> tree[leaf] > 0
      decreases tree.Length - idx
    {
      var leftIdx := 2 * idx + 1;
      var rightIdx := leftIdx + 1;
      if leftIdx >= tree.Length then idx
      else
        var child := if s <= tree[leftIdx] then leftIdx else rightIdx;
        var leaf := Retrieve(child, if s <= tree[leftIdx] then s else s - tree[leftIdx]);
        if leaf == child then leaf
        else
          AncestorTransitive(idx, child, leaf);
          leaf
    }

    /** `get`: the leaf a draw of `s` lands on, its priority and its slot's
        experience; an unfilled slot raises `TypeError`. */
    function Get(s: int): (r: Result<(int, int, E)>)
      reads this, tree, data
      requires Valid()
      ensures r.Raised? ==> r.error == TypeError
      ensures r.Raised? <==> Retrieve(0, s) - capacity + 1 >= length
      ensures r.Ok? ==> r.value.0 == Retrieve(0, s) && r.value.1 == tree[r.value.0]
      ensures r.Ok? ==> data[r.value.0 - capacity + 1] == Some(r.value.2)
    {
      var idx := Retrieve(0, s);
      var dataIdx := idx - capacity + 1;
      match data[dataIdx]
      case None => Raised(TypeError)
      case Some(exp) => Ok((idx, tree[idx], exp))
    }

    /** `get_buffer`: the filled slots' experiences, in slot order. */
    function GetBuffer(): (r: seq<E>)
      reads this, tree, data
      requires Valid()
      ensures |r| == length
      ensures forall k :: 0 <= k < length ==> data[k] == Some(r[k])
    {
      FilledPrefix(data[..], length);
      Filled(data[..])
    }

    /** `total`: the root, which holds the sum of all leaf priorities. */
    function Total(): (r: int)
      reads tree
      requires capacity >= 1 && tree.Length == 2 * capacity - 1
      ensures IsSumTree(tree[..], capacity) ==> r == Sum(tree[capacity - 1..])
    {
      RootIsLeafSumIf(tree[..], capacity);
      tree[0]
    }

    /** `__len__`: the number of filled slots, which `GetBuffer` lists. */
    function Len(): (n: int)
      reads this, tree, data
      requires Valid()
      ensures 0 <= n <= capacity
      ensures n == |GetBuffer()|
    {
      length
    }
  }

  lemma RootIsLeafSumIf(t: seq<int>, capacity: int)
    requires capacity >= 1 && |t| == 2 * capacity - 1
    ensures IsSumTree(t, capacity) ==> t[0] == Sum(t[capacity - 1..])
  {
    if IsSumTree(t, capacity) {
      RootIsLeafSum(t, capacity);
    }
  }

  /** Adding `change` to node `p` (whose sum was short by `change`) mends
      `p` and leaves its parent short by `change` instead. */
  lemma ParentStep(before: seq<int>, after: seq<int>, capacity: int, p: int, change: int)
    requires 1 <= p < |before| && SumsHoldExcept(before, capacity, p, change)
    requires after == before[p := before[p] + change]
    ensures SumsHoldExcept(after, capacity, Parent(p), change)
  {
    var g := Parent(p);
    forall i | 0 <= i < capacity - 1
      ensures after[i] + (if i == g then change else 0) == after[2 * i + 1] + after[2 * i + 2]
    {
      if i != g {
        assert 2 * i + 1 != p && 2 * i + 2 != p;
      }
    }
  }

  // ---------------------------------------------------------------------
  // DeepQNetwork (lines 6-43)
  // ---------------------------------------------------------------------

  /** A Q-table row may be selected with a negative index, counted from
      the end, as NumPy does. */
  function RowIndex(rows: int, state: int): int
  {
    if state < 0 then state + rows else state
  }

  /** Action `k` attains the maximum of `row`. */
  ghost predicate AttainsMax(row: seq<real>, k: int)
  {
    0 <= k < |row| && forall j :: 0 <= j < |row| ==> row[j] <= row[k]
  }

  ghost predicate StrictlyAscending(s: seq<nat>)
  {
    forall i, j :: 0 <= i < j < |s| ==> s[i] < s[j]
  }

  /** `np.amax` of a nonempty row. */
  function RowMax(row: seq<real>): real
    requires |row| > 0
  {
    if |row| == 1 then row[0]
    else
      var m := RowMax(row[..|row| - 1]);
      if row[|row| - 1] > m then row[|row| - 1] else m
  }

  lemma {:induction false} RowMaxIsMax(row: seq<real>)
    requires |row| > 0
    ensures forall j :: 0 <= j < |row| ==> row[j] <= RowMax(row)
    ensures exists k :: 0 <= k < |row| && row[k] == RowMax(row)
  {
    if |row| > 1 {
      RowMaxIsMax(row[..|row| - 1]);
      var k :| 0 <= k < |row| - 1 && row[..|row| - 1][k] == RowMax(row[..|row| - 1]);
      if row[|row| - 1] <= RowMax(row[..|row| - 1]) {
        assert row[k] == RowMax(row);
      } else {
        assert row[|row| - 1] == RowMax(row);
      }
    } else {
      assert row[0] == RowMax(row);
    }
  }

  /** `np.argwhere(row == v)`, flattened: the positions holding `v`. */
  function ArgWhere(row: seq<real>, v: real): seq<nat>
  {
    if |row| == 0 then []
    else ArgWhere(row[..|row| - 1], v) + (if row[|row| - 1] == v then [|row| - 1] else [])
  }

  lemma {:induction false} ArgWhereMembers(row: seq<real>, v: real)
    ensures forall k: nat :: k in ArgWhere(row, v) <==> k < |row| && row[k] == v
  {
    if |row| > 0 {
      ArgWhereMembers(row[..|row| - 1], v);
    }
  }

  lemma {:induction false} ArgWhereAscending(row: seq<real>, v: real)
    ensures StrictlyAscending(ArgWhere(row, v))
    ensures forall i :: 0 <= i < |ArgWhere(row, v)| ==> ArgWhere(row, v)[i] < |row|
  {
    if |row| > 0 {
      ArgWhereAscending(row[..|row| - 1], v);
    }
  }

  /** `find_optimal_moves`: the actions of row `state` that attain the
      row's maximum, in ascending order. A row index outside the table
      raises `IndexError`; `np.amax` of an empty row raises `ValueError`. */
  function FindOptimalMoves(qTable: seq<seq<real>>, state: int): (r: Result<seq<nat>>)
    ensures r.Raised? <==> state < -|qTable| || state >= |qTable| || |qTable[RowIndex(|qTable|, state)]| == 0
    ensures r.Raised? ==> (r.error == IndexError <==> state < -|qTable| || state >= |qTable|)
    ensures r.Raised? ==> r.error == IndexError || r.error == ValueError
    ensures r.Ok? ==> |r.value| > 0 && StrictlyAscending(r.value)
    ensures r.Ok? ==> forall k: nat :: k in r.value <==> AttainsMax(qTable[RowIndex(|qTable|, state)], k)
  {
    if state < -|qTable| || state >= |qTable| then Raised(IndexError)
    else
      var row := qTable[RowIndex(|qTable|, state)];
      if |row| == 0 then Raised(ValueError)
      else
        RowMaxIsMax(row);
        ArgWhereMembers(row, RowMax(row));
        ArgWhereAscending(row, RowMax(row));
        var moves := ArgWhere(row, RowMax(row));
        var k :| 0 <= k < |row| && row[k] == RowMax(row);
        assert k in moves;
        Ok(moves)
  }

  /** The tabular agent: the Q-table, the hashing of environment states to
      rows, and the training switch. */
  class DeepQNetwork<St> {
    var qTable: seq<seq<real>>
    var learningRate: real
    const hashingFunction: St -> int
    var training: bool
    const name: string

    /** `__init__`: a `stateSpaceSize` by `actionSpaceSize` table of zeros,
        learning rate 0.5 and training on unless given. */
    constructor (stateSpaceSize: nat, actionSpaceSize: nat, hashingFunction: St -> int,
                 learningRate: real := 0.5, training: bool := true)
      ensures |qTable| == stateSpaceSize
      ensures forall s :: 0 <= s < stateSpaceSize ==>
        |qTable[s]| == actionSpaceSize && forall a :: 0 <= a < actionSpaceSize ==> qTable[s][a] == 0.0
      ensures this.hashingFunction == hashingFunction
      ensures this.learningRate == learningRate && this.training == training
      ensures name == "TabularQLearning"
    {
      qTable := seq(stateSpaceSize, _ => seq(actionSpaceSize, _ => 0.0));
      this.hashingFunction := hashingFunction;
      this.learningRate := learningRate;
      this.training := training;
      name := "TabularQLearning";
    }

    /** `handle_experience`: only a training agent updates its table;
        `anneal_learning_rate` does nothing. */
    method HandleExperience(s: St, a: int, reward: real, succS: St,
                            updateQTable: (seq<seq<real>>, real, int, int, real, int) -> seq<seq<real>>)
      modifies this
      ensures training == old(training) && learningRate == old(learningRate)
      ensures old(training) ==> qTable == updateQTable(old(qTable), learningRate, hashingFunction(s), a, reward, hashingFunction(succS))
      ensures !old(training) ==> qTable == old(qTable)
    {
      if training {
        qTable := updateQTable(qTable, learningRate, hashingFunction(s), a, reward, hashingFunction(succS));
      }
    }
  }
}

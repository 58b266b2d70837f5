/** A walk on which a repeated operand makes two live temporaries share a buffer. */
module BufferClash {
  import opened Wrappers
  import opened BufferPools
  import opened BufferLiveness
  import opened BufferNaming
  import opened Sequences

  /** Value 0 has two users, the calls 1 and 3; value 1 has one, call 3. */
  function EarlyValues(): seq<Value> {
    [Value(Output, "a", "", 0, 2, false, true), Value(Output, "b", "", 0, 1, false, true)]
  }

  /** All on one mesh: make value 0, read it twice, make value 1, read both. */
  function EarlySteps(): seq<Step> {
    [Call(Some(0), [], [0]), Call(Some(0), [0, 0], []), Call(Some(0), [], [1]), Call(Some(0), [0, 1], [])]
  }

  ghost predicate IsEarlyStep(step: Step, k: nat) {
    && step.Call? && step.devices == Some(0)
    && step.operands == (if k == 1 then [0, 0] else if k == 3 then [0, 1] else [])
    && step.outputs == (if k == 0 then [0] else if k == 2 then [1] else [])
  }

  lemma EarlyStepAt(k: nat)
    requires k < 4
    ensures |EarlySteps()| == 4 && IsEarlyStep(EarlySteps()[k], k)
    ensures 0 in Operands(EarlySteps()[k]) <==> k == 1 || k == 3
    ensures 1 in Operands(EarlySteps()[k]) <==> k == 3
    ensures multiset(Operands(EarlySteps()[k]))[0] == if k == 1 then 2 else if k == 3 then 1 else 0
  {
  }

  lemma EarlyCounts(n: nat)
    requires n <= 4
    ensures Uses(EarlySteps(), 0, n) == if n <= 1 then 0 else if n <= 3 then 1 else 2
    ensures Uses(EarlySteps(), 1, n) == if n <= 3 then 0 else 1
    ensures Occurrences(EarlySteps(), 0, n) == if n <= 1 then 0 else if n <= 3 then 2 else 3
  {
    if n > 0 {
      EarlyCounts(n - 1);
      EarlyStepAt(n - 1);
    }
  }

  lemma EarlyIsWellNamed()
    ensures WellNamed(EarlyValues())
  {
    var values := EarlyValues();
    assert values[0].name == "a" && values[1].name == "b" && "a"[0] != "b"[0];
    forall v | 0 <= v < |values| ensures Foreign(values, values[v].preset) {
      assert |values[v].preset| == 0 && |values[0].name| == 1 && |values[1].name| == 1;
    }
  }

  /** The walk is an ordinary one ... */
  lemma EarlyIsWalk()
    ensures IsWalk(EarlyValues(), EarlySteps())
  {
    var values, steps := EarlyValues(), EarlySteps();
    EarlyIsWellNamed();
    forall k, v | 0 <= k < |steps| && (v in Operands(steps[k]) || v in Outputs(steps[k])) ensures v < |values| {
      EarlyStepAt(k);
    }
    forall k, v | 0 <= k < |steps| && v in Outputs(steps[k]) ensures values[v].kind == Output && Uses(steps, v, k + 1) == 0 {
      EarlyStepAt(k);
      EarlyCounts(k + 1);
    }
    EarlyCounts(4);
  }

  lemma EarlyIsComplete()
    requires IsWalk(EarlyValues(), EarlySteps())
    ensures IsComplete(EarlyValues(), EarlySteps())
  {
    forall k: nat | k < 4 ensures StepIsComplete(EarlyValues(), EarlySteps(), k) {
      EarlyStepAt(k);
      assert 0 in Outputs(EarlySteps()[0]) && 1 in Outputs(EarlySteps()[2]);
    }
  }

  /** ... except that one call reads a value twice while a user is still to come. */
  lemma EarlyIsUntimely()
    ensures !Timely(EarlyValues(), EarlySteps())
  {
    EarlyCounts(2);
    EarlyStepAt(3);
    assert UsedFrom(EarlySteps(), 0, 2);
    assert !TimelyAt(EarlyValues(), EarlySteps(), 2);
  }

  // ---- the run, step by step ----

  lemma OneOutput(values: seq<Value>, a: State, b: State, v: nat, mesh: nat, time: int)
    requires NamesInTurn(values, a, b, [v], mesh, time)
    ensures Sized(values, a) && v < |values| && NamesOutput(values, a, b, v, mesh, time)
  {
    assert [v][..0] == [];
  }

  lemma TwoReads(values: seq<Value>, a: State, b: State, x: nat, time: int)
    requires ReleasesInTurn(values, a, b, [x, x], [], time)
    requires x < |values| && values[x].kind == Output
    ensures Sized(values, a) && exists mid :: Sized(values, mid) && Visits(values, a, mid, x, time) && Visits(values, mid, b, x, time)
  {
    var mid :| ReleasesInTurn(values, a, mid, [x, x][..1], [], time) && Sized(values, mid) && ReleasesOperand(values, mid, b, x, [], time);
    assert [x, x][..1] == [x] && [x][..0] == [];
    assert ReleasesInTurn(values, a, mid, [x], [], time);
    assert Visits(values, a, mid, x, time);
  }

  const SHAPE: ShardedShape := ShardedShape(0, 0)

  ghost predicate IsEarlyState(state: State, named: set<nat>, visits: nat) {
    && Sized(EarlyValues(), state) && state.visits[0] == visits && state.named == named
    && (0 in named ==> state.names[0] == "a" && ShapeOf(state.store, "a") == SHAPE) && (1 !in named ==> state.names[1] == "")
  }

  /** Value 0 gets a new buffer, because none has been released. */
  lemma FirstName(a: State, b: State)
    requires a == Start(EarlyValues()) && NamesInTurn(EarlyValues(), a, b, [0], 0, 0)
    ensures IsEarlyState(b, {0}, 0) && Free(b.store, SHAPE) == multiset{}
  {
    var values := EarlyValues();
    OneOutput(values, a, b, 0, 0, 0);
    assert a.names[0] == "";
    var use :| Names(values, a, b, 0, ShapeOn(values[0], 0), 0, use);
    assert Free(a.store, SHAPE) == multiset{};
    assert use == None;
  }

  lemma ReadBeforeLast(values: seq<Value>, a: State, b: State, x: nat, time: int)
    requires Sized(values, a) && x < |values| && Visits(values, a, b, x, time) && a.visits[x] + 1 != values[x].users
    ensures Sized(values, b) && b.visits[x] == a.visits[x] + 1 && b.names == a.names && b.named == a.named && b.store == a.store
  {
  }

  lemma ReadLast(values: seq<Value>, a: State, b: State, x: nat, time: int)
    requires Sized(values, a) && x < |values| && Visits(values, a, b, x, time) && a.visits[x] + 1 == values[x].users
    ensures Sized(values, b) && b.visits[x] == a.visits[x] + 1 && b.names == a.names && b.named == a.named
    ensures ShapeOf(b.store, a.names[x]) == ShapeOf(a.store, a.names[x])
    ensures var shape := ShapeOf(a.store, a.names[x]); Free(b.store, shape) == Free(a.store, shape) + multiset{BufferUse(a.names[x], time)}
  {
  }

  /** Two reads count as two users, so the buffer is released although call 3 is still to come. */
  lemma EarlyRelease(a: State, b: State)
    requires IsEarlyState(a, {0}, 0) && Free(a.store, SHAPE) == multiset{} && ReleasesInTurn(EarlyValues(), a, b, [0, 0], [], 2)
    ensures IsEarlyState(b, {0}, 2) && Free(b.store, SHAPE) == multiset{BufferUse("a", 2)}
  {
    var values := EarlyValues();
    TwoReads(values, a, b, 0, 2);
    var mid :| Sized(values, mid) && Visits(values, a, mid, 0, 2) && Visits(values, mid, b, 0, 2);
    ReadBeforeLast(values, a, mid, 0, 2);
    ReadLast(values, mid, b, 0, 2);
  }

  /** Value 1 takes the buffer that is waiting. */
  lemma SecondName(a: State, b: State)
    requires IsEarlyState(a, {0}, 2) && Free(a.store, SHAPE) == multiset{BufferUse("a", 2)}
    requires NamesInTurn(EarlyValues(), a, b, [1], 0, 2)
    ensures IsEarlyState(b, {0, 1}, 2) && b.names[1] == "a"
  {
    var values := EarlyValues();
    OneOutput(values, a, b, 1, 0, 2);
    var use :| Names(values, a, b, 1, ShapeOn(values[1], 0), 2, use);
    assert BufferUse("a", 2) in Free(a.store, SHAPE);
    assert use == Some(BufferUse("a", 2));
  }

  lemma StartsAt(available: seq<int>, ready: int, operands: seq<nat>, time: int)
    requires ready == time && forall x :: x in operands ==> AvailableAt(available, x) <= time
    ensures StartTime(available, ready, operands) == time
  {
  }

  lemma CallPasses0(values: seq<Value>, step: Step, before: Progress, after: Progress, a: State, b: State, start: int) returns (named: State)
    requires step.Call? && step.devices == Some(0) && StepRuns(values, step, before, after, a, b)
    requires start == StartTime(before.available, TimeOn(before.timeOnMesh, 0), step.operands)
    ensures b.position == a.position + 1
    ensures NamesInTurn(values, a, named, step.outputs, 0, start)
    ensures ReleasesInTurn(values, named, b.(position := a.position), step.operands, step.outputs, start + 1)
    ensures Stamped(before.available, after.available, step.outputs, start + 1) && TimeOn(after.timeOnMesh, 0) == start + 1
  {
    named :| CallPasses(values, step, 0, start, a, named, b.(position := a.position));
  }

  /**
   * Whatever order equally early buffers are taken in, after three of the four calls the two values,
   * both still to be read, have the same buffer.
   */
  lemma RepeatedOperandClashes(run: seq<Point>)
    requires IsRun(EarlyValues(), EarlySteps(), run) && |run| == 5
    ensures Sized(EarlyValues(), run[3].state) && 0 in LiveTemps(EarlyValues(), EarlySteps(), run[3].state)
    ensures 1 in LiveTemps(EarlyValues(), EarlySteps(), run[3].state)
    ensures run[3].state.names[0] == run[3].state.names[1]
    ensures !NoSharing(EarlyValues(), EarlySteps(), run[3].state)
  {
    var values, steps := EarlyValues(), EarlySteps();
    AfterMaking(run);
    AfterReading(run);
    AfterMakingAgain(run);
    EarlyStepAt(3);
    assert UsedFrom(steps, 0, 3) && UsedFrom(steps, 1, 3);
  }

  lemma AfterMaking(run: seq<Point>)
    requires IsRun(EarlyValues(), EarlySteps(), run) && |run| == 5
    ensures IsEarlyState(run[1].state, {0}, 0) && Free(run[1].state.store, SHAPE) == multiset{} && run[1].state.position == 1
    ensures |run[1].progress.available| == 2 && TimeOn(run[1].progress.timeOnMesh, 0) == 1
    ensures run[1].progress.available[0] == 1 && run[1].progress.available[1] == 0
  {
    EarlyStepAt(0);
    assert RunsAt(EarlyValues(), EarlySteps(), run, 0);
    var named := CallPasses0(EarlyValues(), EarlySteps()[0], run[0].progress, run[1].progress, run[0].state, run[1].state, 0);
    FirstName(run[0].state, named);
  }

  lemma AfterReading(run: seq<Point>)
    requires IsRun(EarlyValues(), EarlySteps(), run) && |run| == 5
    requires IsEarlyState(run[1].state, {0}, 0) && Free(run[1].state.store, SHAPE) == multiset{} && run[1].state.position == 1
    requires |run[1].progress.available| == 2 && TimeOn(run[1].progress.timeOnMesh, 0) == 1
    requires run[1].progress.available[0] == 1 && run[1].progress.available[1] == 0
    ensures IsEarlyState(run[2].state, {0}, 2) && Free(run[2].state.store, SHAPE) == multiset{BufferUse("a", 2)}
    ensures run[2].state.position == 2 && TimeOn(run[2].progress.timeOnMesh, 0) == 2
  {
    EarlyStepAt(1);
    assert RunsAt(EarlyValues(), EarlySteps(), run, 1);
    StartsAt(run[1].progress.available, 1, [0, 0], 1);
    var named := CallPasses0(EarlyValues(), EarlySteps()[1], run[1].progress, run[2].progress, run[1].state, run[2].state, 1);
    EarlyRelease(named, run[2].state.(position := 1));
  }

  lemma AfterMakingAgain(run: seq<Point>)
    requires IsRun(EarlyValues(), EarlySteps(), run) && |run| == 5
    requires IsEarlyState(run[2].state, {0}, 2) && Free(run[2].state.store, SHAPE) == multiset{BufferUse("a", 2)}
    requires run[2].state.position == 2 && TimeOn(run[2].progress.timeOnMesh, 0) == 2
    ensures IsEarlyState(run[3].state, {0, 1}, 2) && run[3].state.names[1] == "a" && run[3].state.position == 3
  {
    EarlyStepAt(2);
    assert RunsAt(EarlyValues(), EarlySteps(), run, 2);
    StartsAt(run[2].progress.available, 2, [], 2);
    var named := CallPasses0(EarlyValues(), EarlySteps()[2], run[2].progress, run[3].progress, run[2].state, run[3].state, 2);
    SecondName(run[2].state, named);
  }

  lemma {:induction false} ReleasingKeepsNames(values: seq<Value>, a: State, b: State, operands: seq<nat>, outputs: seq<nat>, time: int)
    requires ReleasesInTurn(values, a, b, operands, outputs, time)
    ensures b.names == a.names
    decreases |operands|
  {
    if operands != [] {
      var n := |operands| - 1;
      var mid :| ReleasesInTurn(values, a, mid, operands[..n], outputs, time) && Sized(values, mid) && operands[n] < |values|
                 && ReleasesOperand(values, mid, b, operands[n], outputs, time);
      ReleasingKeepsNames(values, a, mid, operands[..n], outputs, time);
    }
  }

  /** The last call only reads. */
  lemma NamesAtEnd(run: seq<Point>)
    requires IsRun(EarlyValues(), EarlySteps(), run) && |run| == 5
    ensures run[4].state.names == run[3].state.names
  {
    EarlyStepAt(3);
    assert RunsAt(EarlyValues(), EarlySteps(), run, 3);
    var step, before := EarlySteps()[3], run[3].progress;
    var start := StartTime(before.available, TimeOn(before.timeOnMesh, 0), step.operands);
    var named := CallPasses0(EarlyValues(), step, before, run[4].progress, run[3].state, run[4].state, start);
    ReleasingKeepsNames(EarlyValues(), named, run[4].state.(position := run[3].state.position), step.operands, step.outputs, start + 1);
  }

  /** The pass accepts this walk and gives both values one name, although both are live before the last call. */
  method NameEarly() returns (names: seq<string>, ghost point: State)
    ensures |names| == 2 && names[0] == names[1]
    ensures Sized(EarlyValues(), point) && point.names == names && !NoSharing(EarlyValues(), EarlySteps(), point)
  {
    EarlyIsWalk();
    EarlyIsComplete();
    ghost var last, history, run;
    var r;
    r, last, history, run := Run(EarlyValues(), EarlySteps());
    names, point := r.value, run[3].state;
    RepeatedOperandClashes(run);
    NamesAtEnd(run);
  }
}

/** The wavefront (1F1B) order of a pipelined microbatch loop. */
module Wavefront {
  import opened Arithmetic
  import opened Sequences

  /** One task of the unrolled loop: the call of pipeline stage `stage` in iteration `microbatch`. */
  datatype Slot = Slot(microbatch: int, stage: int)

  /** The pipeline: `microbatches` iterations of `stages` tasks.  Microbatches enter in minibatches
      of `group`, and minibatch k starts `delay` wavefronts after minibatch k - 1. */
  datatype Pipeline = Pipeline(microbatches: nat, stages: nat, group: nat, delay: nat) {
    ghost predicate Valid() {
      group > 0 && delay > 0
    }

    ghost predicate Contains(slot: Slot) {
      0 <= slot.microbatch < microbatches && 0 <= slot.stage < stages
    }

    function Minibatches(): nat
      requires group > 0
    {
      (microbatches + group - 1) / group
    }
  }

  /** The wavefront in which microbatch `m` runs stage 0. */
  function Tick(p: Pipeline, m: int): int
    requires p.group > 0
  {
    m / p.group * p.delay + m % p.group
  }

  function WavefrontOf(p: Pipeline, slot: Slot): int
    requires p.group > 0
  {
    Tick(p, slot.microbatch) + slot.stage
  }

  /** Microbatches that share a tick range with the next minibatch are never reached by the schedule. */
  ghost predicate Reached(p: Pipeline, m: int)
    requires p.Valid()
  {
    m % p.group < p.delay
  }

  /** Wavefront by wavefront, and inside a wavefront the last stage first. */
  ghost predicate Before(p: Pipeline, a: Slot, b: Slot)
    requires p.Valid()
  {
    WavefrontOf(p, a) < WavefrontOf(p, b) || (WavefrontOf(p, a) == WavefrontOf(p, b) && a.stage > b.stage)
  }

  ghost predicate Ordered(p: Pipeline, order: seq<Slot>)
    requires p.Valid()
  {
    forall i, j :: 0 <= i < j < |order| ==> Before(p, order[i], order[j])
  }

  /** What a wavefront schedule is: exactly the reached slots, in wavefront order. */
  ghost predicate IsWavefrontOrder(p: Pipeline, order: seq<Slot>)
    requires p.Valid()
  {
    && Ordered(p, order)
    && (forall slot :: slot in order <==> p.Contains(slot) && Reached(p, slot.microbatch))
  }

  /** Two slots that any dependency inside the product order puts one after the other. */
  ghost predicate ProductLess(a: Slot, b: Slot) {
    a.microbatch <= b.microbatch && a.stage <= b.stage && a != b
  }

  // ---- arithmetic of ticks ----

  lemma TickMonotone(p: Pipeline, m: int, m': int)
    requires p.Valid() && m < m' && Reached(p, m)
    ensures Tick(p, m) < Tick(p, m')
  {
    DivMonotone(m, m', p.group);
    DivMod(m, p.group);
    DivMod(m', p.group);
    MulLe(m / p.group + 1, m' / p.group, p.delay);
    MulDistributes(m / p.group, 1, p.delay);
  }

  /** The inverse of Tick: a wavefront position is the start of at most one microbatch. */
  lemma MicrobatchOfTick(p: Pipeline, tick: int)
    requires p.Valid() && tick >= 0 && tick % p.delay < p.group
    ensures var m := tick / p.delay * p.group + tick % p.delay;
            m >= 0 && Tick(p, m) == tick && Reached(p, m)
  {
    DivMod(tick, p.delay);
    DivModUnique(tick / p.delay, tick % p.delay, p.group);
    MulLe(0, tick / p.delay, p.group);
  }

  lemma TickBounds(p: Pipeline, m: int)
    requires p.Valid() && 0 <= m < p.microbatches && Reached(p, m)
    ensures 0 <= Tick(p, m) < p.Minibatches() * p.delay
    ensures Tick(p, m) / p.delay == m / p.group && Tick(p, m) % p.delay == m % p.group
  {
    DivMod(m, p.group);
    DivModUnique(m / p.group, m % p.group, p.delay);
    MinibatchInRange(p, m);
    MulLe(m / p.group + 1, p.Minibatches(), p.delay);
    MulDistributes(m / p.group, 1, p.delay);
    MulLe(0, m / p.group, p.delay);
  }

  lemma MinibatchInRange(p: Pipeline, m: int)
    requires p.group > 0 && 0 <= m < p.microbatches
    ensures 0 <= m / p.group < p.Minibatches()
  {
    DivMonotone(m + p.group, p.microbatches + p.group - 1, p.group);
    DivMod(m, p.group);
    MulDistributes(m / p.group, 1, p.group);
    DivModUnique(m / p.group + 1, m % p.group, p.group);
  }

  // ---- the schedule itself ----

  /** C++ integer division and remainder, which truncate toward zero. */
  function TruncDiv(a: int, b: int): int
    requires b > 0
  {
    if a >= 0 then a / b else -((-a) / b)
  }

  function TruncMod(a: int, b: int): int
    requires b > 0
  {
    a - TruncDiv(a, b) * b
  }

  /** The quotient is rounded toward zero: the remainder is smaller than the divisor and has the sign of the dividend. */
  lemma Truncates(a: int, b: int)
    requires b > 0
    ensures TruncDiv(a, b) * b + TruncMod(a, b) == a
    ensures a >= 0 ==> 0 <= TruncMod(a, b) < b
    ensures a <= 0 ==> -b < TruncMod(a, b) <= 0
  {
    DivMod(a, b);
    DivMod(-a, b);
    assert a < 0 ==> TruncDiv(a, b) * b == -((-a) / b * b);
  }

  /** Slots already emitted when wavefront `wf` has been walked down to (and including) stage `stage`. */
  ghost predicate Walked(p: Pipeline, wf: int, stage: int, slot: Slot)
    requires p.Valid()
  {
    && p.Contains(slot) && Reached(p, slot.microbatch)
    && (WavefrontOf(p, slot) < wf || (WavefrontOf(p, slot) == wf && slot.stage >= stage))
  }

  /** `order` lists, in wavefront order, the slots walked so far. */
  ghost predicate WalkedOrder(p: Pipeline, wf: int, stage: int, order: seq<Slot>)
    requires p.Valid()
  {
    Ordered(p, order) && forall slot :: slot in order <==> Walked(p, wf, stage, slot)
  }

  /** The test made at tick `tick` selects exactly the reached microbatch that starts there. */
  lemma SelectedAt(p: Pipeline, tick: int, m: int)
    requires p.Valid()
    ensures 0 <= m < p.microbatches && Reached(p, m) && Tick(p, m) == tick <==>
            && tick >= 0 && TruncMod(tick, p.delay) < p.group
            && m == TruncDiv(tick, p.delay) * p.group + TruncMod(tick, p.delay) && m < p.microbatches
  {
    if tick >= 0 {
      DivMod(tick, p.delay);
      if tick % p.delay < p.group {
        MicrobatchOfTick(p, tick);
      }
    }
    if 0 <= m < p.microbatches && Reached(p, m) && Tick(p, m) == tick {
      TickBounds(p, m);
      DivMod(m, p.group);
    }
  }

  lemma WalkSkips(p: Pipeline, wf: int, stage: int, order: seq<Slot>)
    requires p.Valid() && WalkedOrder(p, wf, stage + 1, order)
    requires forall m :: !(0 <= m < p.microbatches && Reached(p, m) && Tick(p, m) == wf - stage)
    ensures WalkedOrder(p, wf, stage, order)
  {
  }

  lemma WalkSelects(p: Pipeline, wf: int, stage: int, order: seq<Slot>, m: int)
    requires p.Valid() && WalkedOrder(p, wf, stage + 1, order) && 0 <= stage < p.stages
    requires 0 <= m < p.microbatches && Reached(p, m) && Tick(p, m) == wf - stage
    ensures WalkedOrder(p, wf, stage, order + [Slot(m, stage)])
  {
    var order' := order + [Slot(m, stage)];
    forall slot ensures slot in order' <==> Walked(p, wf, stage, slot) {
      if Walked(p, wf, stage, slot) && slot !in order {
        if slot.microbatch < m { TickMonotone(p, slot.microbatch, m); }
        if m < slot.microbatch { TickMonotone(p, m, slot.microbatch); }
      }
    }
    forall i | 0 <= i < |order| ensures Before(p, order[i], Slot(m, stage)) {
      assert order[i] in order;
    }
  }

  /** One step of the walk, given the outcome of the source's test. */
  lemma WalkStep(p: Pipeline, wf: int, stage: int, order: seq<Slot>, m: int, selected: bool)
    requires p.Valid() && WalkedOrder(p, wf, stage + 1, order) && 0 <= stage < p.stages
    requires m == TruncDiv(wf - stage, p.delay) * p.group + TruncMod(wf - stage, p.delay)
    requires selected <==> wf - stage >= 0 && TruncMod(wf - stage, p.delay) < p.group && m < p.microbatches
    ensures selected ==> 0 <= m && WalkedOrder(p, wf, stage, order + [Slot(m, stage)])
    ensures !selected ==> WalkedOrder(p, wf, stage, order)
  {
    if selected {
      SelectedAt(p, wf - stage, m);
      WalkSelects(p, wf, stage, order, m);
    } else {
      forall m { SelectedAt(p, wf - stage, m); }
      WalkSkips(p, wf, stage, order);
    }
  }

  lemma WalkStart(p: Pipeline)
    requires p.Valid()
    ensures WalkedOrder(p, 0, p.stages, [])
  {
    forall slot | p.Contains(slot) && Reached(p, slot.microbatch) ensures WavefrontOf(p, slot) >= 0 {
      TickBounds(p, slot.microbatch);
    }
  }

  lemma WalkEnd(p: Pipeline, order: seq<Slot>)
    requires p.Valid() && WalkedOrder(p, p.stages + p.Minibatches() * p.delay, p.stages, order)
    ensures IsWavefrontOrder(p, order)
  {
    forall slot | p.Contains(slot) && Reached(p, slot.microbatch)
      ensures Walked(p, p.stages + p.Minibatches() * p.delay, p.stages, slot)
    {
      TickBounds(p, slot.microbatch);
    }
  }

  /** `schedule` is `prefix` followed by the tasks of the slots in `order`. */
  ghost predicate Emits<T(!new)>(p: Pipeline, tasks: seq<seq<T>>, prefix: seq<T>, order: seq<Slot>, schedule: seq<T>)
    requires |tasks| == p.microbatches && forall m :: 0 <= m < |tasks| ==> |tasks[m]| == p.stages
  {
    && |schedule| == |prefix| + |order| && schedule[..|prefix|] == prefix
    && (forall i :: 0 <= i < |order| ==> p.Contains(order[i]))
    && (forall i :: 0 <= i < |order| ==> schedule[|prefix| + i] == tasks[order[i].microbatch][order[i].stage])
  }

  /** The doubly nested loop over wavefronts and descending stages, appending each selected task to
      the schedule. The ghost result is the slot behind each appended task. */
  method ScheduleWavefront<T(!new)>(p: Pipeline, tasks: seq<seq<T>>, prefix: seq<T>)
    returns (schedule: seq<T>, ghost order: seq<Slot>)
    requires p.Valid() && |tasks| == p.microbatches
    requires forall m :: 0 <= m < |tasks| ==> |tasks[m]| == p.stages
    ensures IsWavefrontOrder(p, order)
    ensures Emits(p, tasks, prefix, order, schedule)
  {
    schedule, order := prefix, [];
    WalkStart(p);
    var numWavefronts := p.stages + p.Minibatches() * p.delay;
    var wf := 0;
    while wf < numWavefronts
      invariant 0 <= wf <= numWavefronts
      invariant WalkedOrder(p, wf, p.stages, order)
      invariant Emits(p, tasks, prefix, order, schedule)
    {
      var stage := p.stages - 1;
      while stage >= 0
        invariant -1 <= stage < p.stages
        invariant WalkedOrder(p, wf, stage + 1, order)
        invariant Emits(p, tasks, prefix, order, schedule)
      {
        var tick := wf - stage;
        var minibatch := TruncDiv(tick, p.delay);
        var minibatchOffset := TruncMod(tick, p.delay);
        var microbatch := minibatch * p.group + minibatchOffset;
        var selected := tick >= 0 && minibatchOffset < p.group && microbatch < p.microbatches;
        WalkStep(p, wf, stage, order, microbatch, selected);
        if selected {
          schedule, order := schedule + [tasks[microbatch][stage]], order + [Slot(microbatch, stage)];
        }
        stage := stage - 1;
      }
      wf := wf + 1;
    }
    WalkEnd(p, order);
  }
}

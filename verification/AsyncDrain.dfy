/** Without new requests the buckets run dry, whatever the interleaving, the deadlines and the refusals. */
module AsyncDrain {
  import opened Totals
  import opened AsyncBuckets

  function Visible(slot: nat): bool {
    slot < RESERVE
  }

  /** A background entry may still become a visible one, so it weighs more. */
  function EntryWeight(visible: bool): nat {
    if visible then 5 else 13
  }

  const BucketWeight: Bucket -> nat := (b: Bucket) => |b.queue| * EntryWeight(b.visible)

  const ActivityWeight: Activity -> nat := (a: Activity) =>
    match a
    case Idle => 0
    case Enqueue(_, slot) => EntryWeight(Visible(slot)) + 4
    case Schedule(_) => 3
    case Event(_) => 2
    case Batch(slot, pending, consumed, _) => (if consumed then 4 else 1) + |pending| * EntryWeight(Visible(slot))
    case Execute(_) => 1
    case Rollback(_) => 2
    case Rejected(ids) => |ids| + 1

  function Measure(s: State): nat {
    Total(s.buckets, BucketWeight) + Total(s.active, ActivityWeight)
  }

  /** A step of an activity already under way; the slice limit is at least one. */
  predicate Internal(step: Step) {
    !step.Create? && !step.Destroy? && !step.Request? && (step.Start? ==> step.batchLimit >= 1)
  }

  /** A pass has an entry in hand until it has consumed one. */
  predicate Fed(s: State) {
    forall k | 0 <= k < |s.active| :: s.active[k].Batch? && !s.active[k].consumed ==> s.active[k].pending != []
  }

  lemma StartedHasWork(s: State, k: nat)
    requires Inv(s) && k < |s.active| && s.active[k].Event?
    ensures s.buckets[s.active[k].slot].queue != []
  {
    hide MembersOk, HomesOk;
    HoldsOnce(s, k, s.active[k].slot);
  }

  lemma FedStep(s: State, step: Step)
    requires Inv(s) && Fed(s) && Enabled(s, step) && (step.Start? ==> step.batchLimit >= 1)
    ensures Fed(Apply(s, step))
  {
    hide WakeupsOk, MembersOk, HomesOk;
    if step.Start? {
      StartedHasWork(s, step.k);
    }
  }

  lemma MeasureMoves(s: State, s': State, k: nat, a: Activity, extra: seq<Activity>, slot: nat, b: Bucket)
    requires Moves(s, s', k, a, extra, slot, b)
    ensures Measure(s') + ActivityWeight(s.active[k]) + BucketWeight(s.buckets[slot])
         == Measure(s) + ActivityWeight(a) + BucketWeight(b) + Total(extra, ActivityWeight)
  {
    TotalUpdate(s.active, k, a, ActivityWeight);
    TotalConcat(s.active[k := a], extra, ActivityWeight);
    TotalUpdate(s.buckets, slot, b, BucketWeight);
  }

  lemma SpawnedWeighs(s: State, slot: nat, id: Id, visibleNow: bool)
    requires SlotsOk(s) && InRange(s, slot)
    ensures Total(Spawned(s, slot, id, visibleNow), ActivityWeight) <= if Visible(slot) then 1 else 9
  {
    var extra := Spawned(s, slot, id, visibleNow);
    assert extra == [] || (|extra| == 1 && extra[..0] == []);
  }

  lemma ConsumeDrains(s: State, step: Step)
    requires Inv(s) && Fed(s) && Enabled(s, step) && step.Consume?
    ensures Measure(Apply(s, step)) < Measure(s)
  {
    hide WakeupsOk, MembersOk, HomesOk, Spawned, Measure;
    var (k, a, extra, slot, b) := Effect(s, step);
    MeasureMoves(s, Apply(s, step), k, a, extra, slot, b);
    SpawnedWeighs(s, slot, s.active[k].pending[0], step.visibleNow);
  }

  lemma StartDrains(s: State, step: Step)
    requires Inv(s) && Fed(s) && Enabled(s, step) && Internal(step) && step.Start?
    ensures Measure(Apply(s, step)) < Measure(s)
  {
    hide WakeupsOk, MembersOk, HomesOk, Measure;
    var (k, a, extra, slot, b) := Effect(s, step);
    MeasureMoves(s, Apply(s, step), k, a, extra, slot, b);
    StartedHasWork(s, k);
    assert extra == [];
  }

  lemma LockedDrains(s: State, step: Step)
    requires Inv(s) && Fed(s) && Enabled(s, step) && Internal(step)
    requires step.LockEnqueue? || step.Deadline? || step.LockRollback?
    ensures Measure(Apply(s, step)) < Measure(s)
  {
    hide WakeupsOk, MembersOk, HomesOk, Measure;
    var (k, a, extra, slot, b) := Effect(s, step);
    MeasureMoves(s, Apply(s, step), k, a, extra, slot, b);
    assert extra == [];
  }

  /** Main result: every internal step, in every interleaving, lowers the measure. */
  lemma StepDrains(s: State, step: Step)
    requires Inv(s) && Fed(s) && Enabled(s, step) && Internal(step)
    ensures Measure(Apply(s, step)) < Measure(s)
  {
    hide WakeupsOk, MembersOk, HomesOk, Measure;
    if step.Consume? {
      ConsumeDrains(s, step);
    } else if step.Start? {
      StartDrains(s, step);
    } else if step.LockEnqueue? || step.Deadline? || step.LockRollback? {
      LockedDrains(s, step);
    } else {
      var (k, a, extra, slot, b) := Effect(s, step);
      MeasureMoves(s, Apply(s, step), k, a, extra, slot, b);
      assert extra == [];
    }
  }

  predicate Idles(s: State) {
    forall k | 0 <= k < |s.active| :: s.active[k] == Idle
  }

  /** As long as an activity is under way, some internal step is enabled: nothing deadlocks. */
  lemma SomeStepEnabled(s: State) returns (step: Step)
    requires Inv(s) && !Idles(s)
    ensures Enabled(s, step) && Internal(step)
  {
    hide WakeupsOk, MembersOk, HomesOk;
    var k :| 0 <= k < |s.active| && s.active[k] != Idle;
    match s.active[k]
    case Enqueue(_, _) => step := LockEnqueue(k);
    case Schedule(_) => step := Dispatch(k, true);
    case Event(_) => step := Start(k, 1);
    case Batch(_, pending, _, _) => step := if pending == [] then Finish(k) else Consume(k, true);
    case Execute(_) => step := Done(k);
    case Rollback(_) => step := LockRollback(k);
    case Rejected(_) => step := ClearFlag(k);
  }

  /** When all activities are over, all buckets are empty, and every living creature can be queued again. */
  lemma QuietMeansEmpty(s: State)
    requires Inv(s) && Idles(s)
    ensures forall i | 0 <= i < |s.buckets| :: s.buckets[i].queue == [] && !s.buckets[i].scheduled
    ensures forall id | id in s.alive :: id !in s.running
  {
    forall i | 0 <= i < |s.buckets|
      ensures !s.buckets[i].scheduled
    {
      if s.buckets[i].scheduled {
        var k := TotalPositive(s.active, TicketWeight(i));
        assert false;
      }
    }
    forall id | id in s.alive
      ensures id !in s.running
    {
      if id in s.running {
        EmptyLoad(s.buckets, id);
        var k := TotalPositive(s.active, CarriedWeight(id));
        assert false;
      }
    }
  }

  /** Every batch takes at least one entry. */
  predicate PositiveLimits(run: seq<Step>) {
    forall i | 0 <= i < |run| :: run[i].Start? ==> run[i].batchLimit >= 1
  }

  predicate NoRequests(run: seq<Step>) {
    PositiveLimits(run) && forall i | 0 <= i < |run| :: !run[i].Request?
  }

  /** With such limits a pass that has consumed nothing has an entry in hand, in every reachable state. */
  lemma {:induction false} RunKeepsFed(s: State, run: seq<Step>)
    requires Inv(s) && Fed(s) && CanRun(s, run) && PositiveLimits(run)
    ensures Fed(End(s, run))
    decreases |run|
  {
    hide Inv, Fed, Enabled, Apply;
    if run != [] {
      StepKeepsInv(s, run[0]);
      FedStep(s, run[0]);
      RunKeepsFed(Apply(s, run[0]), run[1..]);
    }
  }

  lemma ReachedIsFed(history: seq<Step>)
    requires CanRun(Initial, history) && PositiveLimits(history)
    ensures Fed(End(Initial, history))
  {
    hide Inv, CanRun, End;
    InitialInv();
    RunKeepsFed(Initial, history);
  }

  function InternalSteps(run: seq<Step>): nat
    decreases |run|
  {
    if run == [] then 0 else (if Internal(run[0]) then 1 else 0) + InternalSteps(run[1..])
  }

  /** A run without requests has at most `Measure(s)` internal steps. */
  lemma {:induction false} RunDrains(s: State, run: seq<Step>)
    requires Inv(s) && Fed(s) && CanRun(s, run) && NoRequests(run)
    ensures InternalSteps(run) + Measure(End(s, run)) <= Measure(s)
    decreases |run|
  {
    hide Inv, Fed, Enabled, Apply, Measure;
    if run != [] {
      assert !run[0].Request?;
      if Internal(run[0]) {
        StepDrains(s, run[0]);
      } else {
        OutsideKeepsMeasure(s, run[0]);
      }
      StepKeepsInv(s, run[0]);
      FedStep(s, run[0]);
      assert NoRequests(run[1..]);
      RunDrains(Apply(s, run[0]), run[1..]);
    }
  }

  lemma OutsideKeepsMeasure(s: State, step: Step)
    requires Enabled(s, step) && (step.Create? || step.Destroy?)
    ensures Measure(Apply(s, step)) == Measure(s)
  {
  }

  /**
   Main result: after any history, the steps that can follow without a new request are bounded by the
   measure of the state reached, and where none of them is left the buckets are empty.
   */
  lemma RunsDry(history: seq<Step>, run: seq<Step>)
    requires CanRun(Initial, history) && PositiveLimits(history)
    requires CanRun(End(Initial, history), run) && NoRequests(run)
    ensures var (s, last) := (End(Initial, history), End(End(Initial, history), run));
      && InternalSteps(run) + Measure(last) <= Measure(s)
      && ((exists step :: Enabled(last, step) && Internal(step))
          || forall i | 0 <= i < |last.buckets| :: last.buckets[i].queue == [] && !last.buckets[i].scheduled)
  {
    hide Inv, Fed, Enabled, Internal, CanRun, End, Measure, InternalSteps, Idles;
    var s := End(Initial, history);
    InitialInv();
    RunKeepsInv(Initial, history);
    RunKeepsInv(s, run);
    ReachedIsFed(history);
    RunDrains(s, run);
    if Idles(End(s, run)) {
      QuietMeansEmpty(End(s, run));
    } else {
      var step := SomeStepEnabled(End(s, run));
    }
  }
}

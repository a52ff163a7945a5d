/**
 The creature async-task buckets as a concurrent protocol. A step is one locked section, one
 dispatcher call or one update of a creature's `AsyncTaskRunning` flag; steps of different
 activities interleave freely. A nested call is an activity of its own, so the model allows every
 interleaving of the code and more.
 */
module AsyncBuckets {
  import opened Totals

  type Id = nat

  /** `DISPATCHER_CREATURE_ASYNC_BUCKET_RESERVE`. */
  const RESERVE: nat := 32

  /** A bucket of the player-visible array (the first `RESERVE` slots) or of the background array. */
  datatype Bucket = Bucket(visible: bool, queue: seq<Id>, scheduled: bool)

  function Home(id: Id, visible: bool): nat {
    id % RESERVE + if visible then 0 else RESERVE
  }

  // ----- the locked sections -----

  /** `enqueueAsyncTask`: append, and claim the scheduling of an unscheduled bucket. */
  function PushLocked(b: Bucket, id: Id): (Bucket, bool) {
    (b.(queue := b.queue + [id], scheduled := true), !b.scheduled)
  }

  function Min(a: nat, b: nat): nat {
    if a < b then a else b
  }

  /** First section of `processAsyncTaskBucket`: a bounded batch, and whether anything is left. */
  function TakeLocked(b: Bucket, batchLimit: nat): (Bucket, seq<Id>, bool) {
    var n := Min(|b.queue|, batchLimit);
    var more := n < |b.queue|;
    (b.(queue := b.queue[n..], scheduled := more), b.queue[..n], more)
  }

  /** Its second section, after the deadline: the unconsumed suffix goes back in front. */
  function RequeueLocked(b: Bucket, rest: seq<Id>): (Bucket, bool) {
    (b.(queue := rest + b.queue, scheduled := true), !b.scheduled)
  }

  /** `rollbackAsyncTaskBucket`. */
  function DrainLocked(b: Bucket): (Bucket, seq<Id>) {
    (b.(queue := [], scheduled := false), b.queue)
  }

  // ----- activities and state -----

  datatype Activity =
    | Idle
    | Enqueue(id: Id, slot: nat)                                         // about to lock the bucket
    | Schedule(slot: nat)                                                // decided to call the dispatcher
    | Event(slot: nat)                                                   // accepted, not yet started
    | Batch(slot: nat, pending: seq<Id>, consumed: bool, again: bool)    // between the sections of a pass
    | Execute(id: Id)                                                    // inside executeAsyncTasks
    | Rollback(slot: nat)                                                // refused, about to lock
    | Rejected(ids: seq<Id>)                                             // flags still to be cleared

  datatype State = State(
    buckets: seq<Bucket>, active: seq<Activity>, running: set<Id>, alive: set<Id>, born: set<Id>)

  datatype Step =
    | Create(id: Id)
    | Destroy(id: Id)
    | Request(id: Id, visible: bool)
    | LockEnqueue(k: nat)
    | Dispatch(k: nat, accepted: bool)
    | Start(k: nat, batchLimit: nat)
    | Consume(k: nat, visibleNow: bool)
    | Deadline(k: nat)
    | Finish(k: nat)
    | Done(k: nat)
    | LockRollback(k: nat)
    | ClearFlag(k: nat)

  function EmptyBuckets(): seq<Bucket> {
    seq(2 * RESERVE, i requires 0 <= i < 2 * RESERVE => Bucket(i < RESERVE, [], false))
  }

  const Initial := State(EmptyBuckets(), [], {}, {}, {})

  predicate InRange(s: State, slot: nat) {
    slot < |s.buckets|
  }

  /** A strong pointer keeps a creature alive while its tasks run. */
  predicate Executing(s: State, id: Id) {
    exists k :: 0 <= k < |s.active| && s.active[k] == Execute(id)
  }

  predicate Enabled(s: State, step: Step) {
    match step
    case Create(id) => id !in s.born
    case Destroy(id) => id in s.alive && !Executing(s, id)
    case Request(id, _) => id in s.alive && id !in s.running
    case LockEnqueue(k) => k < |s.active| && s.active[k].Enqueue? && InRange(s, s.active[k].slot)
    case Dispatch(k, _) => k < |s.active| && s.active[k].Schedule?
    case Start(k, _) => k < |s.active| && s.active[k].Event? && InRange(s, s.active[k].slot)
    case Consume(k, _) =>
      k < |s.active| && s.active[k].Batch? && s.active[k].pending != [] && InRange(s, s.active[k].slot)
    case Deadline(k) =>
      k < |s.active| && s.active[k].Batch? && s.active[k].pending != [] && s.active[k].consumed
      && InRange(s, s.active[k].slot)
    case Finish(k) => k < |s.active| && s.active[k].Batch? && s.active[k].pending == []
    case Done(k) => k < |s.active| && s.active[k].Execute?
    case LockRollback(k) => k < |s.active| && s.active[k].Rollback? && InRange(s, s.active[k].slot)
    case ClearFlag(k) => k < |s.active| && s.active[k].Rejected?
  }

  /** What a batch activity does after its last locked section. */
  function After(slot: nat, again: bool): Activity {
    if again then Schedule(slot) else Idle
  }

  /** The call that the consumed entry leads to, if its creature still exists. */
  function Spawned(s: State, slot: nat, id: Id, visibleNow: bool): seq<Activity>
    requires InRange(s, slot)
  {
    if id !in s.alive then []
    else if !s.buckets[slot].visible && visibleNow then [Enqueue(id, Home(id, true))]
    else [Execute(id)]
  }

  function Apply(s: State, step: Step): State
    requires Enabled(s, step)
  {
    match step
    case Create(id) => s.(born := s.born + {id}, alive := s.alive + {id})
    case Destroy(id) => s.(alive := s.alive - {id})
    case Request(id, visible) =>
      s.(running := s.running + {id}, active := s.active + [Enqueue(id, Home(id, visible))])
    case LockEnqueue(k) =>
      var a := s.active[k];
      var (b, schedule) := PushLocked(s.buckets[a.slot], a.id);
      s.(buckets := s.buckets[a.slot := b], active := s.active[k := After(a.slot, schedule)])
    case Dispatch(k, accepted) =>
      var slot := s.active[k].slot;
      s.(active := s.active[k := if accepted then Event(slot) else Rollback(slot)])
    case Start(k, batchLimit) =>
      var slot := s.active[k].slot;
      var (b, pending, more) := TakeLocked(s.buckets[slot], batchLimit);
      s.(buckets := s.buckets[slot := b], active := s.active[k := Batch(slot, pending, false, more)])
    case Consume(k, visibleNow) =>
      var a := s.active[k];
      s.(active := s.active[k := a.(pending := a.pending[1..], consumed := true)]
                   + Spawned(s, a.slot, a.pending[0], visibleNow))
    case Deadline(k) =>
      var a := s.active[k];
      var (b, schedule) := RequeueLocked(s.buckets[a.slot], a.pending);
      s.(buckets := s.buckets[a.slot := b], active := s.active[k := After(a.slot, a.again || schedule)])
    case Finish(k) =>
      s.(active := s.active[k := After(s.active[k].slot, s.active[k].again)])
    case Done(k) =>
      s.(active := s.active[k := Idle], running := s.running - {s.active[k].id})
    case LockRollback(k) =>
      var slot := s.active[k].slot;
      var (b, ids) := DrainLocked(s.buckets[slot]);
      s.(buckets := s.buckets[slot := b], active := s.active[k := Rejected(ids)])
    case ClearFlag(k) =>
      var ids := s.active[k].ids;
      if ids == [] then s.(active := s.active[k := Idle])
      else s.(active := s.active[k := Rejected(ids[1..])],
              running := if ids[0] in s.alive then s.running - {ids[0]} else s.running)
  }

  // ----- what every interleaving keeps -----

  /** The ticket of a bucket is held from the decision to schedule it to the next locked section of that event. */
  predicate Holds(a: Activity, slot: nat) {
    match a
    case Schedule(t) => t == slot
    case Event(t) => t == slot
    case Rollback(t) => t == slot
    case Batch(t, _, _, again) => t == slot && again
    case _ => false
  }

  function TicketWeight(slot: nat): Activity -> nat {
    (a: Activity) => if Holds(a, slot) then 1 else 0
  }

  function Tickets(s: State, slot: nat): nat {
    Total(s.active, TicketWeight(slot))
  }

  /** The creatures an activity still carries: to be queued, unconsumed, executing, or to be cleared. */
  function Carried(a: Activity): seq<Id> {
    match a
    case Enqueue(id, _) => [id]
    case Batch(_, pending, _, _) => pending
    case Execute(id) => [id]
    case Rejected(ids) => ids
    case _ => []
  }

  function Occurrences(ids: seq<Id>, id: Id): nat {
    multiset(ids)[id]
  }

  function QueueWeight(id: Id): Bucket -> nat {
    (b: Bucket) => Occurrences(b.queue, id)
  }

  function CarriedWeight(id: Id): Activity -> nat {
    (a: Activity) => Occurrences(Carried(a), id)
  }

  /** How often a creature occurs in all queues, batches, executions and rejected lists together. */
  function Load(s: State, id: Id): nat {
    Total(s.buckets, QueueWeight(id)) + Total(s.active, CarriedWeight(id))
  }

  predicate SlotsOk(s: State) {
    && |s.buckets| == 2 * RESERVE
    && (forall i | 0 <= i < |s.buckets| :: s.buckets[i].visible == (i < RESERVE))
    && forall k | 0 <= k < |s.active| ::
         var a := s.active[k];
         a.Enqueue? || a.Schedule? || a.Event? || a.Rollback? || a.Batch? ==> InRange(s, a.slot)
  }

  /** No lost wakeup: one ticket exactly while scheduled, and scheduled exactly while work is queued. */
  predicate WakeupsOk(s: State) {
    forall i | 0 <= i < |s.buckets| ::
      && Tickets(s, i) == (if s.buckets[i].scheduled then 1 else 0)
      && (s.buckets[i].scheduled <==> s.buckets[i].queue != [])
  }

  /** Single membership: a living creature occurs once if its flag is up, else never; a dead one at most once. */
  ghost predicate MembersOk(s: State) {
    && s.alive <= s.born && s.running <= s.born
    && forall id: Id ::
         && Load(s, id) <= (if id in s.running then 1 else 0)
         && (id in s.alive && id in s.running ==> Load(s, id) == 1)
  }

  /** A creature is queued under its own index only, in one lane or the other. */
  predicate HomesOk(s: State) {
    && (forall i | 0 <= i < |s.buckets| :: SameHome(s.buckets[i].queue, i))
    && forall k | 0 <= k < |s.active| ::
         && (s.active[k].Enqueue? ==> SameHome([s.active[k].id], s.active[k].slot))
         && (s.active[k].Batch? ==> SameHome(s.active[k].pending, s.active[k].slot))
  }

  predicate SameHome(ids: seq<Id>, slot: nat) {
    forall j | 0 <= j < |ids| :: slot == Home(ids[j], true) || slot == Home(ids[j], false)
  }

  ghost predicate Inv(s: State) {
    SlotsOk(s) && WakeupsOk(s) && MembersOk(s) && HomesOk(s)
  }

  lemma InitialInv()
    ensures Inv(Initial)
  {
    forall i | 0 <= i < |Initial.buckets|
      ensures Tickets(Initial, i) == 0
    {
    }
    forall id: Id
      ensures Load(Initial, id) == 0
    {
      EmptyLoad(Initial.buckets, id);
    }
  }

  lemma {:induction false} EmptyLoad(bs: seq<Bucket>, id: Id)
    requires forall i | 0 <= i < |bs| :: bs[i].queue == []
    ensures Total(bs, QueueWeight(id)) == 0
  {
    if bs != [] {
      EmptyLoad(bs[..|bs| - 1], id);
    }
  }

  /** The step of activity `k`: it becomes `a`, may add `extra`, and may rewrite bucket `slot`. */
  predicate Moves(s: State, s': State, k: nat, a: Activity, extra: seq<Activity>, slot: nat, b: Bucket) {
    && k < |s.active| && slot < |s.buckets|
    && s'.active == s.active[k := a] + extra
    && s'.buckets == s.buckets[slot := b]
  }

  lemma LoadMoves(s: State, s': State, k: nat, a: Activity, extra: seq<Activity>, slot: nat, b: Bucket, id: Id)
    requires Moves(s, s', k, a, extra, slot, b)
    ensures Load(s', id) + Occurrences(Carried(s.active[k]), id) + Occurrences(s.buckets[slot].queue, id)
         == Load(s, id) + Occurrences(Carried(a), id) + Occurrences(b.queue, id) + Total(extra, CarriedWeight(id))
  {
    TotalUpdate(s.active, k, a, CarriedWeight(id));
    TotalConcat(s.active[k := a], extra, CarriedWeight(id));
    TotalUpdate(s.buckets, slot, b, QueueWeight(id));
  }

  lemma TicketsMove(s: State, s': State, k: nat, a: Activity, extra: seq<Activity>, slot: nat, b: Bucket, i: nat)
    requires Moves(s, s', k, a, extra, slot, b)
    ensures Tickets(s', i) + (if Holds(s.active[k], i) then 1 else 0)
         == Tickets(s, i) + (if Holds(a, i) then 1 else 0) + Total(extra, TicketWeight(i))
  {
    TotalUpdate(s.active, k, a, TicketWeight(i));
    TotalConcat(s.active[k := a], extra, TicketWeight(i));
  }

  /** The activity, spawned activities, slot and bucket of a step that belongs to an activity. */
  function Effect(s: State, step: Step): (e: (nat, Activity, seq<Activity>, nat, Bucket))
    requires Inv(s) && Enabled(s, step) && !step.Create? && !step.Destroy? && !step.Request?
    ensures Moves(s, Apply(s, step), e.0, e.1, e.2, e.3, e.4)
  {
    var s' := Apply(s, step);
    var k := step.k;
    var a := s.active[k];
    var slot := if a.Execute? || a.Rejected? then 0 else a.slot;
    (k, s'.active[k], s'.active[|s.active|..], slot, s'.buckets[slot])
  }

  lemma HoldsOnce(s: State, k: nat, slot: nat)
    requires k < |s.active| && Holds(s.active[k], slot)
    ensures Tickets(s, slot) >= 1
  {
    TotalHas(s.active, k, TicketWeight(slot));
  }

  lemma SpawnedWeights(s: State, slot: nat, id: Id, visibleNow: bool, i: nat, j: Id)
    requires InRange(s, slot)
    ensures Total(Spawned(s, slot, id, visibleNow), TicketWeight(i)) == 0
    ensures Total(Spawned(s, slot, id, visibleNow), CarriedWeight(j)) == if id in s.alive && id == j then 1 else 0
  {
    var extra := Spawned(s, slot, id, visibleNow);
    assert extra == [] || (|extra| == 1 && extra[..0] == [] && Carried(extra[0]) == [id]);
  }

  lemma SlotsStep(s: State, step: Step)
    requires Inv(s) && Enabled(s, step)
    ensures SlotsOk(Apply(s, step))
  {
    hide WakeupsOk, MembersOk;
  }

  lemma WakeupConsume(s: State, step: Step, i: nat)
    requires Inv(s) && Enabled(s, step) && step.Consume? && i < |s.buckets|
    ensures Tickets(Apply(s, step), i) == (if Apply(s, step).buckets[i].scheduled then 1 else 0)
  {
    hide MembersOk, HomesOk, Tickets;
    var (k, a, extra, slot, b) := Effect(s, step);
    TicketsMove(s, Apply(s, step), k, a, extra, slot, b, i);
    SpawnedWeights(s, slot, s.active[k].pending[0], step.visibleNow, i, 0);
  }

  lemma WakeupOther(s: State, step: Step, i: nat)
    requires Inv(s) && Enabled(s, step) && !step.Create? && !step.Destroy? && !step.Request? && !step.Consume?
    requires i < |s.buckets|
    ensures Tickets(Apply(s, step), i) == (if Apply(s, step).buckets[i].scheduled then 1 else 0)
  {
    hide MembersOk, HomesOk, Tickets;
    var (k, a, extra, slot, b) := Effect(s, step);
    TicketsMove(s, Apply(s, step), k, a, extra, slot, b, i);
    assert extra == [] && Total(extra, TicketWeight(i)) == 0;
    if Holds(s.active[k], slot) {
      HoldsOnce(s, k, slot);
    }
  }

  lemma QueueAt(s: State, step: Step, i: nat)
    requires Inv(s) && Enabled(s, step) && !step.Create? && !step.Destroy? && !step.Request? && i < |s.buckets|
    ensures Apply(s, step).buckets[i].scheduled <==> Apply(s, step).buckets[i].queue != []
  {
    hide MembersOk, HomesOk, Tickets;
  }

  lemma WakeupAt(s: State, step: Step, i: nat)
    requires Inv(s) && Enabled(s, step) && !step.Create? && !step.Destroy? && !step.Request? && i < |s.buckets|
    ensures Tickets(Apply(s, step), i) == (if Apply(s, step).buckets[i].scheduled then 1 else 0)
    ensures Apply(s, step).buckets[i].scheduled <==> Apply(s, step).buckets[i].queue != []
  {
    hide Inv, Tickets, Enabled, Apply;
    QueueAt(s, step, i);
    if step.Consume? {
      WakeupConsume(s, step, i);
    } else {
      WakeupOther(s, step, i);
    }
  }

  lemma WakeupsRequest(s: State, step: Step)
    requires Inv(s) && Enabled(s, step) && step.Request?
    ensures WakeupsOk(Apply(s, step))
  {
    hide MembersOk, HomesOk;
    var s' := Apply(s, step);
    forall i | 0 <= i < |s.buckets|
      ensures Tickets(s', i) == Tickets(s, i)
    {
      TotalAppend(s.active, Enqueue(step.id, Home(step.id, step.visible)), TicketWeight(i));
    }
  }

  lemma WakeupsStep(s: State, step: Step)
    requires Inv(s) && Enabled(s, step)
    ensures WakeupsOk(Apply(s, step))
  {
    hide MembersOk, HomesOk, Tickets;
    var s' := Apply(s, step);
    if step.Request? {
      WakeupsRequest(s, step);
    } else if step.Create? || step.Destroy? {
      SameTickets(s, s');
    } else {
      WakeupsLater(s, step);
    }
  }

  lemma WakeupsLater(s: State, step: Step)
    requires Inv(s) && Enabled(s, step) && !step.Create? && !step.Destroy? && !step.Request?
    ensures WakeupsOk(Apply(s, step))
  {
    hide Inv, Tickets, Enabled, Apply;
    var s' := Apply(s, step);
    SameCount(s, step);
    forall i | 0 <= i < |s'.buckets|
      ensures Tickets(s', i) == (if s'.buckets[i].scheduled then 1 else 0)
      ensures s'.buckets[i].scheduled <==> s'.buckets[i].queue != []
    {
      WakeupAt(s, step, i);
    }
  }

  lemma SameCount(s: State, step: Step)
    requires Inv(s) && Enabled(s, step)
    ensures |Apply(s, step).buckets| == |s.buckets|
  {
    hide WakeupsOk, MembersOk, HomesOk;
  }

  lemma SameTickets(s: State, s': State)
    requires WakeupsOk(s) && s'.active == s.active && s'.buckets == s.buckets
    ensures WakeupsOk(s')
  {
  }

  lemma MembersStep(s: State, step: Step)
    requires Inv(s) && Enabled(s, step)
    ensures MembersOk(Apply(s, step))
  {
    hide WakeupsOk, Load;
    var s' := Apply(s, step);
    forall id: Id
      ensures Load(s', id) <= (if id in s'.running then 1 else 0)
      ensures id in s'.alive && id in s'.running ==> Load(s', id) == 1
    {
      MemberAt(s, step, id);
    }
  }

  /** The entry a step creates, and the entry it ends: a dead creature's, an executed one, or a refused one. */
  function Requested(step: Step): seq<Id> {
    if step.Request? then [step.id] else []
  }

  function Retired(s: State, step: Step): seq<Id>
    requires Enabled(s, step)
  {
    match step
    case Consume(k, _) =>
      var id := s.active[k].pending[0];
      if id in s.alive then [] else [id]
    case Done(k) => [s.active[k].id]
    case ClearFlag(k) => if s.active[k].ids == [] then [] else s.active[k].ids[..1]
    case _ => []
  }

  lemma OccurrencesConcat(x: seq<Id>, y: seq<Id>, id: Id)
    ensures Occurrences(x + y, id) == Occurrences(x, id) + Occurrences(y, id)
  {
  }

  /** Within a step, entries only move between the activity, its bucket and what it spawns. */
  ghost predicate Flows(s: State, step: Step, id: Id)
    requires Inv(s) && Enabled(s, step) && !step.Create? && !step.Destroy? && !step.Request?
  {
    var (k, a, extra, slot, b) := Effect(s, step);
    Occurrences(Carried(s.active[k]), id) + Occurrences(s.buckets[slot].queue, id)
    == Occurrences(Carried(a), id) + Occurrences(b.queue, id) + Total(extra, CarriedWeight(id))
       + Occurrences(Retired(s, step), id)
  }

  lemma FlowConsume(s: State, step: Step, id: Id)
    requires Inv(s) && Enabled(s, step) && step.Consume?
    ensures Flows(s, step, id)
  {
    hide WakeupsOk, MembersOk, HomesOk, Occurrences;
    var (k, a, extra, slot, b) := Effect(s, step);
    var ids := s.active[k].pending;
    Nowhere(id);
    SpawnedWeights(s, slot, ids[0], step.visibleNow, 0, id);
    OccurrencesConcat([ids[0]], ids[1..], id);
    assert ids == [ids[0]] + ids[1..];
    Single(ids[0], id);
  }

  lemma FlowEnqueue(s: State, step: Step, id: Id)
    requires Inv(s) && Enabled(s, step) && step.LockEnqueue?
    ensures Flows(s, step, id)
  {
    hide WakeupsOk, MembersOk, HomesOk, Occurrences;
    var (k, a, extra, slot, b) := Effect(s, step);
    Nowhere(id);
    OccurrencesConcat(s.buckets[slot].queue, [s.active[k].id], id);
  }

  lemma FlowStart(s: State, step: Step, id: Id)
    requires Inv(s) && Enabled(s, step) && step.Start?
    ensures Flows(s, step, id)
  {
    hide WakeupsOk, MembersOk, HomesOk, Occurrences;
    var (k, a, extra, slot, b) := Effect(s, step);
    Nowhere(id);
    OccurrencesConcat(a.pending, b.queue, id);
    assert s.buckets[slot].queue == a.pending + b.queue;
  }

  lemma FlowDeadline(s: State, step: Step, id: Id)
    requires Inv(s) && Enabled(s, step) && step.Deadline?
    ensures Flows(s, step, id)
  {
    hide WakeupsOk, MembersOk, HomesOk, Occurrences;
    var (k, a, extra, slot, b) := Effect(s, step);
    Nowhere(id);
    OccurrencesConcat(s.active[k].pending, s.buckets[slot].queue, id);
  }

  lemma FlowClear(s: State, step: Step, id: Id)
    requires Inv(s) && Enabled(s, step) && step.ClearFlag?
    ensures Flows(s, step, id)
  {
    hide WakeupsOk, MembersOk, HomesOk, Occurrences;
    var (k, a, extra, slot, b) := Effect(s, step);
    var ids := s.active[k].ids;
    Nowhere(id);
    if ids != [] {
      OccurrencesConcat(ids[..1], ids[1..], id);
      assert ids == ids[..1] + ids[1..];
    }
  }

  /** The other steps leave the queue alone. */
  lemma FlowRest(s: State, step: Step, id: Id)
    requires Inv(s) && Enabled(s, step)
    requires step.Dispatch? || step.Finish? || step.Done? || step.LockRollback?
    ensures Flows(s, step, id)
  {
    hide WakeupsOk, MembersOk, HomesOk, Occurrences;
    Nowhere(id);
  }

  lemma Flow(s: State, step: Step, id: Id)
    requires Inv(s) && Enabled(s, step) && !step.Create? && !step.Destroy? && !step.Request?
    ensures Flows(s, step, id)
  {
    hide Inv, Flows, Enabled;
    match step
    case Consume(_, _) => FlowConsume(s, step, id);
    case LockEnqueue(_) => FlowEnqueue(s, step, id);
    case Start(_, _) => FlowStart(s, step, id);
    case Deadline(_) => FlowDeadline(s, step, id);
    case ClearFlag(_) => FlowClear(s, step, id);
    case _ => FlowRest(s, step, id);
  }

  lemma Single(x: Id, id: Id)
    ensures Occurrences([x], id) == if x == id then 1 else 0
  {
  }

  /** Conservation: what is pending changes by exactly what was requested and what was retired. */
  lemma StepConserves(s: State, step: Step, id: Id)
    requires Inv(s) && Enabled(s, step)
    ensures Load(Apply(s, step), id) + Occurrences(Retired(s, step), id)
         == Load(s, id) + Occurrences(Requested(step), id)
  {
    if step.Request? {
      TotalAppend(s.active, Enqueue(step.id, Home(step.id, step.visible)), CarriedWeight(id));
    } else if !step.Create? && !step.Destroy? {
      hide WakeupsOk, MembersOk, Occurrences, Load;
      var (k, a, extra, slot, b) := Effect(s, step);
      LoadMoves(s, Apply(s, step), k, a, extra, slot, b, id);
      Flow(s, step, id);
    }
  }

  lemma MemberAt(s: State, step: Step, id: Id)
    requires Inv(s) && Enabled(s, step)
    ensures var s' := Apply(s, step);
      && Load(s', id) <= (if id in s'.running then 1 else 0)
      && (id in s'.alive && id in s'.running ==> Load(s', id) == 1)
  {
    hide WakeupsOk, Load, Occurrences;
    StepConserves(s, step, id);
    if step.Request? {
      Single(step.id, id);
    } else {
      NoneRequested(step, id);
    }
    if Retired(s, step) != [] {
      assert Retired(s, step) == [Retired(s, step)[0]];
      Single(Retired(s, step)[0], id);
    } else {
      Nowhere(id);
    }
  }

  lemma NoneRequested(step: Step, id: Id)
    requires !step.Request?
    ensures Occurrences(Requested(step), id) == 0
  {
  }

  lemma Nowhere(id: Id)
    ensures Occurrences([], id) == 0
  {
  }

  lemma HomesStep(s: State, step: Step)
    requires Inv(s) && Enabled(s, step)
    ensures HomesOk(Apply(s, step))
  {
    hide WakeupsOk, MembersOk, Home;
    var s' := Apply(s, step);
    match step
    case LockEnqueue(k) =>
      assert [s.active[k].id][0] == s.active[k].id;
    case _ =>
  }

  /** Every step of every activity keeps the invariant. */
  lemma StepKeepsInv(s: State, step: Step)
    requires Inv(s) && Enabled(s, step)
    ensures Inv(Apply(s, step))
  {
    SlotsStep(s, step);
    WakeupsStep(s, step);
    MembersStep(s, step);
    HomesStep(s, step);
  }

  // ----- whole runs -----

  /** A run is a series of enabled steps. */
  predicate CanRun(s: State, run: seq<Step>)
    decreases |run|
  {
    run == [] || (Enabled(s, run[0]) && CanRun(Apply(s, run[0]), run[1..]))
  }

  function End(s: State, run: seq<Step>): State
    requires CanRun(s, run)
    decreases |run|
  {
    if run == [] then s else End(Apply(s, run[0]), run[1..])
  }

  lemma {:induction false} RunKeepsInv(s: State, run: seq<Step>)
    requires Inv(s) && CanRun(s, run)
    ensures Inv(End(s, run))
    decreases |run|
  {
    if run != [] {
      StepKeepsInv(s, run[0]);
      RunKeepsInv(Apply(s, run[0]), run[1..]);
    }
  }

  /**
   Main result, no lost wakeup: in every reachable state a bucket with work is scheduled, and exactly one
   activity holds its ticket.
   */
  lemma NoLostWakeup(run: seq<Step>, slot: nat) returns (k: nat)
    requires CanRun(Initial, run) && slot < 2 * RESERVE
    ensures var s := End(Initial, run);
      && |s.buckets| == 2 * RESERVE
      && (s.buckets[slot].scheduled <==> s.buckets[slot].queue != [])
      && (s.buckets[slot].scheduled ==> k < |s.active| && Holds(s.active[k], slot))
      && forall j | 0 <= j < |s.active| && Holds(s.active[j], slot) :: s.buckets[slot].scheduled && j == k
  {
    InitialInv();
    RunKeepsInv(Initial, run);
    var s := End(Initial, run);
    k := 0;
    if s.buckets[slot].scheduled {
      k := TotalPositive(s.active, TicketWeight(slot));
    }
    forall j | 0 <= j < |s.active| && Holds(s.active[j], slot)
      ensures s.buckets[slot].scheduled && j == k
    {
      HoldsOnce(s, j, slot);
      if j < k {
        TotalTwo(s.active, j, k, TicketWeight(slot));
      } else if k < j {
        TotalTwo(s.active, k, j, TicketWeight(slot));
      }
    }
  }

  /**
   Main result, single membership: nothing is queued twice, and a living creature's flag is up exactly
   while it is queued.
   */
  lemma SingleMembership(run: seq<Step>, id: Id)
    requires CanRun(Initial, run)
    ensures var s := End(Initial, run);
      && Load(s, id) <= 1
      && (Load(s, id) == 1 ==> id in s.running)
      && (id in s.alive ==> (id in s.running <==> Load(s, id) == 1))
  {
    InitialInv();
    RunKeepsInv(Initial, run);
  }

  function RequestedIn(run: seq<Step>, id: Id): nat
    decreases |run|
  {
    if run == [] then 0 else Occurrences(Requested(run[0]), id) + RequestedIn(run[1..], id)
  }

  function RetiredIn(s: State, run: seq<Step>, id: Id): nat
    requires CanRun(s, run)
    decreases |run|
  {
    if run == [] then 0 else Occurrences(Retired(s, run[0]), id) + RetiredIn(Apply(s, run[0]), run[1..], id)
  }

  /** Main result, conservation: over any run each requested entry is still pending or was retired, once. */
  lemma {:induction false} RunConserves(s: State, run: seq<Step>, id: Id)
    requires Inv(s) && CanRun(s, run)
    ensures Load(End(s, run), id) + RetiredIn(s, run, id) == Load(s, id) + RequestedIn(run, id)
    decreases |run|
  {
    hide Inv, Load, Apply, Enabled;
    if run != [] {
      StepConserves(s, run[0], id);
      StepKeepsInv(s, run[0]);
      RunConserves(Apply(s, run[0]), run[1..], id);
    }
  }
}

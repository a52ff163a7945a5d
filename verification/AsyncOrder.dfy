/** First in, first out: of two creatures waiting in one bucket the one in front is never taken in a later batch. */
module AsyncOrder {
  import opened Totals
  import opened AsyncBuckets

  predicate InOrder(ids: seq<Id>, a: Id, b: Id) {
    exists i, j :: 0 <= i < j < |ids| && ids[i] == a && ids[j] == b
  }

  /** The pass of activity `k` over the bucket has `a` in hand, and has left others behind. */
  predicate InHand(s: State, k: nat, slot: nat, a: Id) {
    k < |s.active| && s.active[k].Batch? && s.active[k].slot == slot && s.active[k].again && a in s.active[k].pending
  }

  /** One batch has both in hand, `a` in front. */
  predicate BothInHand(s: State, k: nat, slot: nat, a: Id, b: Id) {
    && k < |s.active| && s.active[k].Batch? && s.active[k].slot == slot
    && InOrder(s.active[k].pending, a, b)
  }

  /** `b` waits behind `a`: in the queue, in one batch, or in the queue behind the batch that has `a`. */
  ghost predicate Behind(s: State, slot: nat, a: Id, b: Id) {
    && slot < |s.buckets|
    && (|| InOrder(s.buckets[slot].queue, a, b)
        || (exists k: nat :: BothInHand(s, k, slot, a, b))
        || (b in s.buckets[slot].queue && exists k: nat :: InHand(s, k, slot, a)))
  }

  /** The step serves `a`, or drains the queue it waits in because the bucket's event was refused. */
  predicate Serves(s: State, step: Step, slot: nat, a: Id)
    requires Enabled(s, step)
  {
    match step
    case Consume(k, _) => s.active[k].slot == slot && s.active[k].pending[0] == a
    case LockRollback(k) => s.active[k].slot == slot && a in s.buckets[slot].queue
    case _ => false
  }

  lemma InOrderAmong(front: seq<Id>, ids: seq<Id>, back: seq<Id>, a: Id, b: Id)
    requires InOrder(ids, a, b)
    ensures InOrder(front + ids + back, a, b)
  {
    var i, j :| 0 <= i < j < |ids| && ids[i] == a && ids[j] == b;
    var all := front + ids + back;
    assert all[|front| + i] == a && all[|front| + j] == b;
  }

  lemma InOrderAcross(front: seq<Id>, back: seq<Id>, a: Id, b: Id)
    requires a in front && b in back
    ensures InOrder(front + back, a, b)
  {
    var i :| 0 <= i < |front| && front[i] == a;
    var j :| 0 <= j < |back| && back[j] == b;
    assert (front + back)[i] == a && (front + back)[|front| + j] == b;
  }

  /** A queue cut in two keeps the order: both in front, both behind, or one here and one there. */
  lemma InOrderCut(ids: seq<Id>, n: nat, a: Id, b: Id)
    requires n <= |ids| && InOrder(ids, a, b)
    ensures InOrder(ids[..n], a, b) || InOrder(ids[n..], a, b) || (a in ids[..n] && b in ids[n..])
  {
    var i, j :| 0 <= i < j < |ids| && ids[i] == a && ids[j] == b;
    if j < n {
      assert ids[..n][i] == a && ids[..n][j] == b;
    } else if i >= n {
      assert ids[n..][i - n] == a && ids[n..][j - n] == b;
    } else {
      assert ids[..n][i] == a && ids[n..][j - n] == b;
    }
  }

  /** While a pass that left others behind is under way, no event of its bucket starts or is refused. */
  lemma OneTicket(s: State, k: nat, j: nat, slot: nat)
    requires Inv(s) && slot < |s.buckets| && k < |s.active| && j < |s.active| && j != k
    requires Holds(s.active[k], slot)
    ensures !Holds(s.active[j], slot)
  {
    hide MembersOk, HomesOk, SlotsOk;
    var w := TicketWeight(slot);
    assert Total(s.active, w) == Tickets(s, slot) <= 1;
    assert w(s.active[k]) == 1 && (Holds(s.active[j], slot) ==> w(s.active[j]) == 1);
    if j < k {
      TotalTwo(s.active, j, k, w);
    } else {
      TotalTwo(s.active, k, j, w);
    }
  }

  lemma QueueStep(s: State, step: Step, slot: nat, a: Id, b: Id)
    requires Enabled(s, step) && slot < |s.buckets| && InOrder(s.buckets[slot].queue, a, b) && !Serves(s, step, slot, a)
    ensures Behind(Apply(s, step), slot, a, b)
  {
    hide InOrder;
    var q, s' := s.buckets[slot].queue, Apply(s, step);
    FrontIn(q, a, b);
    match step {
      case LockEnqueue(k) =>
        InOrderAmong([], q, [s.active[k].id], a, b);
        assert [] + q + [s.active[k].id] == q + [s.active[k].id];
      case Start(k, batchLimit) =>
        if s.active[k].slot == slot {
          InOrderCut(q, Min(|q|, batchLimit), a, b);
          assert s'.active[k] == Batch(slot, s'.active[k].pending, false, s'.active[k].again);
          if InOrder(s'.active[k].pending, a, b) {
            assert BothInHand(s', k, slot, a, b);
          } else if a in s'.active[k].pending && b in s'.buckets[slot].queue {
            assert InHand(s', k, slot, a);
          }
        }
      case Deadline(k) =>
        InOrderAmong(s.active[k].pending, q, [], a, b);
        assert s.active[k].pending + q + [] == s.active[k].pending + q;
      case _ =>
    }
  }

  lemma FrontIn(ids: seq<Id>, a: Id, b: Id)
    requires InOrder(ids, a, b)
    ensures a in ids && b in ids
  {
  }

  lemma TailInOrder(ids: seq<Id>, a: Id, b: Id)
    requires InOrder(ids, a, b) && ids[0] != a
    ensures InOrder(ids[1..], a, b)
  {
    var i, j :| 0 <= i < j < |ids| && ids[i] == a && ids[j] == b;
    assert ids[1..][i - 1] == a && ids[1..][j - 1] == b;
  }

  lemma BatchStep(s: State, step: Step, k: nat, slot: nat, a: Id, b: Id)
    requires Enabled(s, step) && slot < |s.buckets| && BothInHand(s, k, slot, a, b) && !Serves(s, step, slot, a)
    ensures Behind(Apply(s, step), slot, a, b)
  {
    hide InOrder;
    var s' := Apply(s, step);
    FrontIn(s.active[k].pending, a, b);
    if step.Consume? && step.k == k {
      TailInOrder(s.active[k].pending, a, b);
      assert BothInHand(s', k, slot, a, b);
    } else if step.Deadline? && step.k == k {
      var pending, q := s.active[k].pending, s.buckets[slot].queue;
      InOrderAmong([], pending, q, a, b);
      assert [] + pending + q == pending + q;
    } else {
      assert s'.active[k] == s.active[k];
      assert BothInHand(s', k, slot, a, b);
    }
  }

  lemma HandStep(s: State, step: Step, k: nat, slot: nat, a: Id, b: Id)
    requires Inv(s) && Enabled(s, step) && slot < |s.buckets| && !Serves(s, step, slot, a)
    requires InHand(s, k, slot, a) && b in s.buckets[slot].queue
    ensures Behind(Apply(s, step), slot, a, b)
  {
    hide Inv, InOrder;
    var q, s' := s.buckets[slot].queue, Apply(s, step);
    if step.Deadline? && step.k == k {
      InOrderAcross(s.active[k].pending, q, a, b);
    } else {
      if step.Start? || step.LockRollback? {
        OneTicket(s, k, step.k, slot);
      }
      assert b in s'.buckets[slot].queue;
      assert InHand(s', k, slot, a);
    }
  }

  /** Main step: until `a` is served or drained, `b` stays behind it. */
  lemma StepKeepsBehind(s: State, step: Step, slot: nat, a: Id, b: Id)
    requires Inv(s) && Enabled(s, step) && Behind(s, slot, a, b) && !Serves(s, step, slot, a)
    ensures Behind(Apply(s, step), slot, a, b)
  {
    hide Inv, InOrder, BothInHand, InHand, Apply, Serves;
    if InOrder(s.buckets[slot].queue, a, b) {
      QueueStep(s, step, slot, a, b);
    } else if k: nat :| BothInHand(s, k, slot, a, b) {
      BatchStep(s, step, k, slot, a, b);
    } else {
      var k: nat :| InHand(s, k, slot, a);
      HandStep(s, step, k, slot, a, b);
    }
  }

  lemma CarriedCounts(s: State, k: nat, b: Id)
    requires k < |s.active|
    ensures CarriedWeight(b)(s.active[k]) > 0 <==> b in Carried(s.active[k])
    ensures Occurrences(Carried(s.active[k]), b) == CarriedWeight(b)(s.active[k]) <= Total(s.active, CarriedWeight(b))
  {
    TotalHas(s.active, k, CarriedWeight(b));
  }

  lemma QueuedCounts(s: State, slot: nat, b: Id)
    requires slot < |s.buckets| && b in s.buckets[slot].queue
    ensures Total(s.buckets, QueueWeight(b)) > 0
  {
    TotalHas(s.buckets, slot, QueueWeight(b));
  }

  /** A creature in a batch is nowhere else. */
  lemma InBatchOnce(s: State, k: nat, b: Id, slot: nat)
    requires Inv(s) && k < |s.active| && b in Carried(s.active[k]) && slot < |s.buckets|
    ensures b !in s.buckets[slot].queue
    ensures forall j: nat | j < |s.active| && j != k :: b !in Carried(s.active[j])
  {
    hide WakeupsOk, HomesOk, SlotsOk, Carried, CarriedWeight, QueueWeight;
    var w := CarriedWeight(b);
    assert Total(s.buckets, QueueWeight(b)) + Total(s.active, w) == Load(s, b) <= 1;
    CarriedCounts(s, k, b);
    if b in s.buckets[slot].queue {
      QueuedCounts(s, slot, b);
    }
    forall j: nat | j < |s.active| && j != k
      ensures b !in Carried(s.active[j])
    {
      CarriedCounts(s, j, b);
      if j < k {
        TotalTwo(s.active, j, k, w);
      } else {
        TotalTwo(s.active, k, j, w);
      }
    }
  }

  /** So no batch of the bucket has `b` in hand without `a` in front of it. */
  lemma NoBatchBefore(s: State, k: nat, slot: nat, a: Id, b: Id)
    requires Inv(s) && Behind(s, slot, a, b)
    requires k < |s.active| && s.active[k].Batch? && b in s.active[k].pending
    ensures BothInHand(s, k, slot, a, b)
  {
    hide Inv, InOrder;
    InBatchOnce(s, k, b, slot);
    if InOrder(s.buckets[slot].queue, a, b) {
      FrontIn(s.buckets[slot].queue, a, b);
    } else if j: nat :| BothInHand(s, j, slot, a, b) {
      FrontIn(s.active[j].pending, a, b);
    }
  }

  ghost predicate NotServed(s: State, run: seq<Step>, slot: nat, a: Id)
    requires CanRun(s, run)
    decreases |run|
  {
    run == [] || (!Serves(s, run[0], slot, a) && NotServed(Apply(s, run[0]), run[1..], slot, a))
  }

  lemma {:induction false} RunKeepsBehind(s: State, run: seq<Step>, slot: nat, a: Id, b: Id)
    requires Inv(s) && CanRun(s, run) && Behind(s, slot, a, b) && NotServed(s, run, slot, a)
    ensures Behind(End(s, run), slot, a, b)
    decreases |run|
  {
    hide Inv, Behind, Enabled, Apply, Serves;
    if run != [] {
      StepKeepsInv(s, run[0]);
      StepKeepsBehind(s, run[0], slot, a, b);
      RunKeepsBehind(Apply(s, run[0]), run[1..], slot, a, b);
    }
  }

  /** A creature that is queued waits behind all that are in the queue, or in hand of the pass that left some there. */
  lemma ArrivesLast(s: State, k: nat, slot: nat, a: Id)
    requires Enabled(s, LockEnqueue(k)) && s.active[k].slot == slot
    requires a in s.buckets[slot].queue || exists j: nat :: InHand(s, j, slot, a)
    ensures Behind(Apply(s, LockEnqueue(k)), slot, a, s.active[k].id)
  {
    hide InOrder;
    var q, b, s' := s.buckets[slot].queue, s.active[k].id, Apply(s, LockEnqueue(k));
    assert s'.buckets[slot].queue == q + [b];
    if a in q {
      InOrderAcross(q, [b], a, b);
    } else {
      var j: nat :| InHand(s, j, slot, a);
      assert s'.active[j] == s.active[j] && (q + [b])[|q|] == b;
      assert InHand(s', j, slot, a);
    }
  }

  lemma QueuedStaysBehind(s: State, k: nat, run: seq<Step>, slot: nat, a: Id)
    requires Inv(s) && Enabled(s, LockEnqueue(k)) && s.active[k].slot == slot
    requires a in s.buckets[slot].queue || exists j: nat :: InHand(s, j, slot, a)
    requires CanRun(Apply(s, LockEnqueue(k)), run) && NotServed(Apply(s, LockEnqueue(k)), run, slot, a)
    ensures var (b, e) := (s.active[k].id, End(Apply(s, LockEnqueue(k)), run));
            && Behind(e, slot, a, b)
            && forall j: nat | j < |e.active| && e.active[j].Batch? && b in e.active[j].pending ::
                 BothInHand(e, j, slot, a, b)
  {
    hide Inv, BothInHand, InHand, Apply, Behind, CanRun, End, NotServed;
    var s' := Apply(s, LockEnqueue(k));
    StepKeepsInv(s, LockEnqueue(k));
    ArrivesLast(s, k, slot, a);
    var b, e := s.active[k].id, End(s', run);
    RunKeepsBehind(s', run, slot, a, b);
    RunKeepsInv(s', run);
    forall j: nat | j < |e.active| && e.active[j].Batch? && b in e.active[j].pending
      ensures BothInHand(e, j, slot, a, b)
    {
      NoBatchBefore(e, j, slot, a, b);
    }
  }

  /**
   Main result: in every reachable state, a creature queued while `a` waits in the same bucket stays behind
   it, requeued slices included, in every run in which `a` has not yet been served: no batch takes it before.
   */
  lemma FirstInFirstOut(history: seq<Step>, k: nat, run: seq<Step>, slot: nat, a: Id)
    requires CanRun(Initial, history)
    requires var s := End(Initial, history);
             && Enabled(s, LockEnqueue(k)) && s.active[k].slot == slot
             && (a in s.buckets[slot].queue || exists j: nat :: InHand(s, j, slot, a))
             && CanRun(Apply(s, LockEnqueue(k)), run) && NotServed(Apply(s, LockEnqueue(k)), run, slot, a)
    ensures var s := End(Initial, history);
            var (b, e) := (s.active[k].id, End(Apply(s, LockEnqueue(k)), run));
            && Behind(e, slot, a, b)
            && forall j: nat | j < |e.active| && e.active[j].Batch? && b in e.active[j].pending ::
                 BothInHand(e, j, slot, a, b)
  {
    hide Inv, BothInHand, InHand, Apply, Behind, Enabled, CanRun, End, NotServed;
    InitialInv();
    RunKeepsInv(Initial, history);
    QueuedStaysBehind(End(Initial, history), k, run, slot, a);
  }

  /**
   Only a creature in hand of a pass that emptied its bucket can be overtaken: by one queued meanwhile, when
   another pass takes that one before the first puts its rest back.
   */
  lemma OvertakenInHand(s: State, k: nat, j: nat, limit: nat, slot: nat, a: Id, b: Id)
    requires slot < |s.buckets| && k < |s.active| && j < |s.active| && s.active[j] == Event(slot)
    requires s.active[k].Batch? && s.active[k].slot == slot && s.active[k].consumed && !s.active[k].again
    requires a in s.active[k].pending && b in s.buckets[slot].queue[..Min(limit, |s.buckets[slot].queue|)]
    ensures Enabled(s, Start(j, limit)) && Enabled(Apply(s, Start(j, limit)), Deadline(k))
    ensures var e := Apply(Apply(s, Start(j, limit)), Deadline(k));
            e.active[j].Batch? && b in e.active[j].pending && a in e.buckets[slot].queue
  {
    var s' := Apply(s, Start(j, limit));
    assert s'.active[k] == s.active[k];
    assert a in s.active[k].pending + s'.buckets[slot].queue;
  }

  /**
   The turn of a creature: one that is gone is dropped, one that a player has come to see is sent on from the
   background to its visible bucket without running, any other runs.
   */
  lemma TurnOf(s: State, k: nat, visibleNow: bool)
    requires Inv(s) && Enabled(s, Consume(k, visibleNow))
    ensures var (id, background) := (s.active[k].pending[0], s.active[k].slot >= 32);
            Apply(s, Consume(k, visibleNow)).active[|s.active|..]
            == if id !in s.alive then []
               else if background && visibleNow then [Activity.Enqueue(id, id % 32)]
               else [Execute(id)]
  {
    hide WakeupsOk, MembersOk, HomesOk;
  }
}

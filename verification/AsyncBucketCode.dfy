/** The locked sections of the buckets in place, loops included, against the functions the protocol is built from. */
module AsyncBucketCode {
  import opened AsyncBuckets

  class CreatureAsyncTaskBucket {
    const visible: bool
    var creatures: seq<Id>
    var scheduled: bool

    ghost function Shape(): Bucket
      reads this
    {
      Bucket(visible, creatures, scheduled)
    }

    constructor (playerVisible: bool)
      ensures Shape() == Bucket(playerVisible, [], false)
    {
      visible, creatures, scheduled := playerVisible, [], false;
    }

    method EnqueueSection(self: Id) returns (shouldSchedule: bool)
      modifies this
      ensures (Shape(), shouldSchedule) == PushLocked(old(Shape()), self)
      ensures creatures == old(creatures) + [self] && scheduled && shouldSchedule == !old(scheduled)
    {
      shouldSchedule := false;
      creatures := creatures + [self];
      if !scheduled {
        scheduled := true;
        shouldSchedule := true;
      }
    }

    method BatchSection(batchLimit: nat) returns (pendingCreatures: seq<Id>, shouldReschedule: bool)
      modifies this
      ensures (Shape(), pendingCreatures, shouldReschedule) == TakeLocked(old(Shape()), batchLimit)
      ensures pendingCreatures + creatures == old(creatures)
      ensures |pendingCreatures| <= batchLimit && (creatures != [] ==> |pendingCreatures| == batchLimit)
      ensures scheduled == shouldReschedule == (creatures != [])
    {
      var batchSize := Min(|creatures|, batchLimit);
      pendingCreatures := [];
      for i := 0 to batchSize
        invariant pendingCreatures == old(creatures)[..i] && creatures == old(creatures)[i..]
      {
        pendingCreatures := pendingCreatures + [creatures[0]];
        creatures := creatures[1..];
      }
      shouldReschedule := creatures != [];
      scheduled := shouldReschedule;
    }

    /** `DispatcherPolicy::requeueUnprocessed`: from the back of the slice to the first unconsumed entry. */
    method RequeueUnprocessed(slice: seq<Id>, consumed: nat) returns (unprocessed: nat)
      modifies this`creatures
      ensures creatures == (if consumed < |slice| then slice[consumed..] else []) + old(creatures)
      ensures unprocessed + Min(consumed, |slice|) == |slice|
    {
      if consumed >= |slice| {
        return 0;
      }
      unprocessed := |slice| - consumed;
      var index := |slice|;
      while index > consumed
        invariant consumed <= index <= |slice|
        invariant creatures == slice[index..] + old(creatures)
      {
        assert slice[index - 1..] == [slice[index - 1]] + slice[index..];
        creatures := [slice[index - 1]] + creatures;
        index := index - 1;
      }
    }

    method RequeueSection(slice: seq<Id>, consumed: nat) returns (shouldReschedule: bool)
      requires consumed < |slice|
      modifies this
      ensures (Shape(), shouldReschedule) == RequeueLocked(old(Shape()), slice[consumed..])
      ensures creatures == slice[consumed..] + old(creatures) && scheduled && shouldReschedule == !old(scheduled)
    {
      shouldReschedule := false;
      var requeued := RequeueUnprocessed(slice, consumed);
      if !scheduled {
        scheduled := true;
        shouldReschedule := true;
      }
    }

    method RollbackSection() returns (rejectedCreatures: seq<Id>)
      modifies this
      ensures (Shape(), rejectedCreatures) == DrainLocked(old(Shape()))
      ensures rejectedCreatures == old(creatures) && creatures == [] && !scheduled
    {
      scheduled := false;
      rejectedCreatures, creatures := creatures, [];
    }
  }
}

/** The list of registered creature events and the bit field that answers "is there any of this type". */
module EventIndex {
  import opened Lists
  import opened Options

  /** The types count up from none to the extended opcode. */
  type CreatureEventType = k: bv32 | k < 13

  /** An event object, by identity, and its type. */
  datatype Event = Event(ref: nat, kind: CreatureEventType)

  /** The events by name; after a reload one that is gone stays listed, but not loaded. */
  datatype Entry = Entry(event: Event, loaded: bool)

  function EventByName(entries: map<string, Entry>, name: string): Option<Event> {
    if name in entries && entries[name].loaded then Some(entries[name].event) else None
  }

  predicate Bit(field: bv32, kind: CreatureEventType) {
    0 != (field & ((1 as bv32) << kind))
  }

  function Raised(field: bv32, kind: CreatureEventType): bv32 {
    field | ((1 as bv32) << kind)
  }

  function Lowered(field: bv32, kind: CreatureEventType): bv32 {
    field & !((1 as bv32) << kind)
  }

  lemma BitIs(field: bv32, kind: CreatureEventType)
    ensures Bit(field, kind) <==> 0 != (field & ((1 as bv32) << kind))
  {
  }

  lemma RaisedBits(field: bv32, kind: CreatureEventType, other: CreatureEventType)
    ensures 0 != (Raised(field, kind) & ((1 as bv32) << other))
            <==> other == kind || 0 != (field & ((1 as bv32) << other))
  {
  }

  lemma LoweredBits(field: bv32, kind: CreatureEventType, other: CreatureEventType)
    ensures 0 != (Lowered(field, kind) & ((1 as bv32) << other))
            <==> other != kind && 0 != (field & ((1 as bv32) << other))
  {
  }

  lemma SetBit(field: bv32, kind: CreatureEventType, other: CreatureEventType)
    ensures Bit(Raised(field, kind), other) <==> other == kind || Bit(field, other)
  {
    hide Bit, Raised;
    BitIs(field, other);
    BitIs(Raised(field, kind), other);
    RaisedBits(field, kind, other);
  }

  lemma ClearBit(field: bv32, kind: CreatureEventType, other: CreatureEventType)
    ensures Bit(Lowered(field, kind), other) <==> other != kind && Bit(field, other)
  {
    hide Bit, Lowered;
    BitIs(field, other);
    BitIs(Lowered(field, kind), other);
    LoweredBits(field, kind, other);
  }

  predicate Holds(events: seq<Event>, kind: CreatureEventType) {
    exists e :: e in events && e.kind == kind
  }

  function Without(events: seq<Event>, event: Event): seq<Event> {
    if events == [] then []
    else Without(events[..|events| - 1], event)
         + if events[|events| - 1] == event then [] else [events[|events| - 1]]
  }

  lemma {:induction false} WithoutMembers(events: seq<Event>, event: Event)
    ensures forall e :: e in Without(events, event) <==> e in events && e != event
    ensures NoDuplicates(events) ==> NoDuplicates(Without(events, event))
  {
    if events != [] {
      var front, last := events[..|events| - 1], events[|events| - 1];
      WithoutMembers(front, event);
      assert events == front + [last];
      assert NoDuplicates(events) ==> last !in front;
      if NoDuplicates(events) {
        NoDuplicatesSnoc(Without(front, event), last);
      }
    }
  }

  /** Event by event: the others stay between those before and after them. */
  lemma {:induction false} WithoutInTurn(before: seq<Event>, e: Event, after: seq<Event>, event: Event)
    ensures Without(before + [e] + after, event)
         == Without(before, event) + (if e == event then [] else [e]) + Without(after, event)
    decreases |after|
  {
    var all := before + [e] + after;
    if after == [] {
      assert all[..|all| - 1] == before;
    } else {
      var n := |after| - 1;
      WithoutInTurn(before, e, after[..n], event);
      assert all[..|all| - 1] == before + [e] + after[..n] && all[|all| - 1] == after[n];
    }
  }

  /** Each bit tells whether the list holds an event of that type. */
  ghost predicate Indexes(field: bv32, events: seq<Event>) {
    forall kind: CreatureEventType :: Bit(field, kind) <==> Holds(events, kind)
  }

  lemma IndexesMore(field: bv32, events: seq<Event>, event: Event)
    requires Indexes(field, events)
    ensures Indexes(if Bit(field, event.kind) then field else Raised(field, event.kind), events + [event])
  {
    hide Bit, Raised, Lowered, Holds;
    forall kind: CreatureEventType
      ensures Bit(if Bit(field, event.kind) then field else Raised(field, event.kind), kind)
              <==> Holds(events + [event], kind)
    {
      SetBit(field, event.kind, kind);
      HoldsNext(events, event, kind);
    }
  }

  lemma IndexesLess(field: bv32, events: seq<Event>, event: Event)
    requires Indexes(field, events) && Holds(events, event.kind)
    ensures var left := Without(events, event);
            Indexes(if Holds(left, event.kind) then field else Lowered(field, event.kind), left)
  {
    hide Bit, Raised, Lowered, Holds, Without;
    var left := Without(events, event);
    forall kind: CreatureEventType
      ensures Bit(if Holds(left, event.kind) then field else Lowered(field, event.kind), kind) <==> Holds(left, kind)
    {
      ClearBit(field, event.kind, kind);
      if kind != event.kind {
        OthersStay(events, event, kind);
      }
    }
  }

  lemma OthersStay(events: seq<Event>, event: Event, kind: CreatureEventType)
    requires kind != event.kind
    ensures Holds(Without(events, event), kind) <==> Holds(events, kind)
  {
    hide Without;
    WithoutMembers(events, event);
  }

  function OfKind(events: seq<Event>, kind: CreatureEventType): seq<Event> {
    if events == [] then []
    else OfKind(events[..|events| - 1], kind)
         + if events[|events| - 1].kind == kind then [events[|events| - 1]] else []
  }

  lemma {:induction false} OfKindEmpty(events: seq<Event>, kind: CreatureEventType)
    ensures OfKind(events, kind) == [] <==> !Holds(events, kind)
  {
    if events != [] {
      OfKindEmpty(events[..|events| - 1], kind);
      assert events == events[..|events| - 1] + [events[|events| - 1]];
    }
  }

  /** Event by event: a search finds all events of the type in the order of the list. */
  lemma {:induction false} OfKindInTurn(before: seq<Event>, e: Event, after: seq<Event>, kind: CreatureEventType)
    ensures OfKind(before + [e] + after, kind)
         == OfKind(before, kind) + (if e.kind == kind then [e] else []) + OfKind(after, kind)
    decreases |after|
  {
    var all := before + [e] + after;
    if after == [] {
      assert all[..|all| - 1] == before;
    } else {
      var n := |after| - 1;
      OfKindInTurn(before, e, after[..n], kind);
      assert all[..|all| - 1] == before + [e] + after[..n] && all[|all| - 1] == after[n];
    }
  }

  class Creature {
    var eventsList: seq<Event>
    var scriptEventsBitField: bv32

    ghost predicate Valid()
      reads this
    {
      NoDuplicates(eventsList) && Indexes(scriptEventsBitField, eventsList)
    }

    constructor ()
      ensures Valid() && eventsList == []
    {
      eventsList, scriptEventsBitField := [], 0;
    }

    /** An event is registered once; a second time is refused. */
    method RegisterCreatureEvent(entries: map<string, Entry>, name: string) returns (ok: bool)
      requires Valid()
      modifies this
      ensures Valid()
      ensures ok <==> EventByName(entries, name).Some? && EventByName(entries, name).value !in old(eventsList)
      ensures eventsList == old(eventsList) + if ok then [EventByName(entries, name).value] else []
    {
      hide Bit, Raised, Lowered, NoDuplicates, EventByName;
      var found := EventByName(entries, name);
      if found.None? {
        return false;
      }
      var event := found.value;
      IndexesMore(scriptEventsBitField, eventsList, event);
      if Bit(scriptEventsBitField, event.kind) {
        for i := 0 to |eventsList|
          invariant event !in eventsList[..i]
        {
          if eventsList[i] == event {
            return false;
          }
        }
      } else {
        scriptEventsBitField := Raised(scriptEventsBitField, event.kind);
      }
      assert event !in eventsList;
      NoDuplicatesSnoc(eventsList, event);
      eventsList := eventsList + [event];
      ok := true;
    }

    /** The event leaves the list; the bit falls when it was the last of its type. */
    method UnregisterCreatureEvent(entries: map<string, Entry>, name: string) returns (ok: bool)
      requires Valid()
      modifies this
      ensures Valid()
      ensures var found := EventByName(entries, name);
        && (ok <==> found.Some? && Holds(old(eventsList), found.value.kind))
        && eventsList == if found.Some? then Without(old(eventsList), found.value) else old(eventsList)
    {
      hide Bit, Raised, Lowered, Without, NoDuplicates, Holds, Indexes, EventByName;
      var found := EventByName(entries, name);
      if found.None? {
        return false;
      }
      var event := found.value;
      ghost var all := eventsList;
      assert NoDuplicates(all);
      WithoutMembers(all, event);
      NotHeld(all, scriptEventsBitField, event);
      if !Bit(scriptEventsBitField, event.kind) {
        return false;
      }
      var resetTypeBit := true;
      var i := 0;
      ghost var seen := 0;
      IndexesLess(scriptEventsBitField, all, event);
      NothingWithout(all, event);
      while i < |eventsList|
        invariant seen <= |all| && i == |Without(all[..seen], event)| && i <= |eventsList|
        invariant eventsList == Without(all[..seen], event) + all[seen..]
        invariant resetTypeBit <==> !Holds(Without(all[..seen], event), event.kind)
        invariant scriptEventsBitField == old(scriptEventsBitField)
        decreases |all| - seen
      {
        ghost var kept := Without(all[..seen], event);
        WithoutNext(all, seen, event);
        EraseAt(eventsList, kept, all[seen], all[seen + 1..]);
        var curEvent := eventsList[i];
        HoldsNext(kept, curEvent, event.kind);
        seen := seen + 1;
        if curEvent == event {
          eventsList := eventsList[..i] + eventsList[i + 1..];
          continue;
        }
        if curEvent.kind == event.kind {
          resetTypeBit := false;
        }
        i := i + 1;
      }
      assert all[..seen] == all && all[seen..] == [];
      assert Without(all, event) + [] == Without(all, event);
      if resetTypeBit {
        scriptEventsBitField := Lowered(scriptEventsBitField, event.kind);
      }
      ok := true;
    }

    /** The early exit on the bit answers what a plain search would. */
    method GetCreatureEvents(kind: CreatureEventType) returns (events: seq<Event>)
      requires Valid()
      ensures events == OfKind(eventsList, kind)
    {
      OfKindEmpty(eventsList, kind);
      events := [];
      if !Bit(scriptEventsBitField, kind) {
        return;
      }
      for i := 0 to |eventsList|
        invariant events == OfKind(eventsList[..i], kind)
      {
        assert eventsList[..i + 1][..i] == eventsList[..i];
        if eventsList[i].kind == kind {
          events := events + [eventsList[i]];
        }
      }
      assert eventsList[..|eventsList|] == eventsList;
    }
  }

  lemma {:induction false} WithoutAbsent(events: seq<Event>, event: Event)
    requires event !in events
    ensures Without(events, event) == events
  {
    if events != [] {
      WithoutAbsent(events[..|events| - 1], event);
    }
  }

  lemma NotHeld(events: seq<Event>, field: bv32, event: Event)
    requires Indexes(field, events)
    ensures Bit(field, event.kind) <==> Holds(events, event.kind)
    ensures !Bit(field, event.kind) ==> Without(events, event) == events
  {
    hide Bit;
    if !Bit(field, event.kind) {
      WithoutAbsent(events, event);
    }
  }

  lemma NothingWithout(events: seq<Event>, event: Event)
    ensures Without(events[..0], event) == [] && events[0..] == events
    ensures !Holds([], event.kind)
  {
  }

  lemma WithoutNext(events: seq<Event>, i: nat, event: Event)
    requires i < |events|
    ensures Without(events[..i + 1], event)
         == if events[i] == event then Without(events[..i], event) else Without(events[..i], event) + [events[i]]
    ensures events[i..] == [events[i]] + events[i + 1..]
  {
    assert events[..i + 1][..i] == events[..i];
  }

  lemma HoldsNext(events: seq<Event>, event: Event, kind: CreatureEventType)
    ensures Holds(events + [event], kind) <==> Holds(events, kind) || event.kind == kind
  {
    assert (events + [event])[|events|] == event;
  }
}

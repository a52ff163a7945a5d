/** The list of conditions and the per-type counts that answer "is there none" without a search. */
module ConditionCache {
  import opened Lists
  import opened Options
  import opened Totals

  const CONDITION_HASTE: ConditionType := 5
  const CONDITION_PARALYZE: ConditionType := 6
  const CONDITION_COUNT := 40

  /** Every type has its own counter. */
  type ConditionType = k: nat | k < CONDITION_COUNT

  /** A condition object, by identity; `endTime` and `ticks` as they are at the moment. */
  datatype Condition = Condition(ref: nat, kind: ConditionType, id: int, subId: nat, endTime: int, ticks: int)

  function OfKind(kind: ConditionType): Condition -> nat {
    (c: Condition) => if c.kind == kind then 1 else 0
  }

  function CountOf(cs: seq<Condition>, kind: ConditionType): nat {
    Total(cs, OfKind(kind))
  }

  function Keep(cs: seq<Condition>, p: Condition -> bool): seq<Condition> {
    if cs == [] then []
    else Keep(cs[..|cs| - 1], p) + if p(cs[|cs| - 1]) then [cs[|cs| - 1]] else []
  }

  /** The first condition with `p`, as a search from the front finds it. */
  function First(cs: seq<Condition>, p: Condition -> bool): Option<Condition> {
    if cs == [] then None else if p(cs[0]) then Some(cs[0]) else First(cs[1..], p)
  }

  function IsKind(kind: ConditionType): Condition -> bool {
    (c: Condition) => c.kind == kind
  }

  function NotKind(kind: ConditionType): Condition -> bool {
    (c: Condition) => c.kind != kind
  }

  function HasKey(kind: ConditionType, id: int, subId: nat): Condition -> bool {
    (c: Condition) => c.kind == kind && c.id == id && c.subId == subId
  }

  function NotKindId(kind: ConditionType, id: int): Condition -> bool {
    (c: Condition) => !(c.kind == kind && c.id == id)
  }

  /** Not yet over at `now`, or without end. */
  function Lasting(kind: ConditionType, subId: nat, now: int): Condition -> bool {
    (c: Condition) => c.kind == kind && c.subId == subId && (c.endTime >= now || c.ticks == -1)
  }

  lemma {:induction false} FirstIs(cs: seq<Condition>, p: Condition -> bool)
    ensures First(cs, p) == None <==> forall c | c in cs :: !p(c)
    ensures First(cs, p).Some? ==> p(First(cs, p).value) && First(cs, p).value in cs
  {
    if cs != [] && !p(cs[0]) {
      FirstIs(cs[1..], p);
      assert cs == [cs[0]] + cs[1..];
    }
  }

  lemma {:induction false} FirstSkips(cs: seq<Condition>, i: nat, p: Condition -> bool)
    requires i <= |cs| && forall k | 0 <= k < i :: !p(cs[k])
    ensures First(cs, p) == First(cs[i..], p)
  {
    if i > 0 {
      FirstSkips(cs[1..], i - 1, p);
      assert cs[1..][i - 1..] == cs[i..];
    } else {
      assert cs[0..] == cs;
    }
  }

  lemma {:induction false} CountZero(cs: seq<Condition>, kind: ConditionType)
    ensures CountOf(cs, kind) == 0 <==> forall c | c in cs :: c.kind != kind
  {
    if cs != [] {
      CountZero(cs[..|cs| - 1], kind);
      assert cs == cs[..|cs| - 1] + [cs[|cs| - 1]];
    }
  }

  lemma CountErase(cs: seq<Condition>, i: nat, kind: ConditionType)
    requires i < |cs|
    ensures CountOf(cs, kind) == CountOf(cs[..i] + cs[i + 1..], kind) + OfKind(kind)(cs[i])
  {
    var w := OfKind(kind);
    assert cs == cs[..i] + [cs[i]] + cs[i + 1..];
    TotalConcat(cs[..i] + [cs[i]], cs[i + 1..], w);
    TotalAppend(cs[..i], cs[i], w);
    TotalConcat(cs[..i], cs[i + 1..], w);
  }

  lemma KeepNext(cs: seq<Condition>, i: nat, p: Condition -> bool)
    requires i < |cs|
    ensures Keep(cs[..i + 1], p) == if p(cs[i]) then Keep(cs[..i], p) + [cs[i]] else Keep(cs[..i], p)
    ensures cs[i..] == [cs[i]] + cs[i + 1..]
  {
    assert cs[..i + 1][..i] == cs[..i];
  }

  /** Condition by condition: what is kept stays between what is kept before and after it. */
  lemma {:induction false} KeepInTurn(before: seq<Condition>, c: Condition, after: seq<Condition>, p: Condition -> bool)
    ensures Keep(before + [c] + after, p) == Keep(before, p) + (if p(c) then [c] else []) + Keep(after, p)
    decreases |after|
  {
    hide Keep;
    if after == [] {
      LastOne(before, c);
      KeepLast(before + [c], p);
      KeepStart([c], p);
    } else {
      var n := |after| - 1;
      KeepInTurn(before, c, after[..n], p);
      LastBehind(before, c, after);
      KeepLast(before + [c] + after, p);
      KeepLast(after, p);
      AssocFour(Keep(before, p), if p(c) then [c] else [], Keep(after[..n], p), if p(after[n]) then [after[n]] else []);
    }
  }

  lemma KeepLast(cs: seq<Condition>, p: Condition -> bool)
    requires cs != []
    ensures var n := |cs| - 1;
            Keep(cs, p) == Keep(cs[..n], p) + if p(cs[n]) then [cs[n]] else []
  {
  }

  /** The first condition with that type, id and sub id, none before it. */
  ghost predicate FoundFirst(cs: seq<Condition>, kind: ConditionType, id: int, subId: nat, found: Option<Condition>) {
    if found.None? then forall c | c in cs :: !(c.kind == kind && c.id == id && c.subId == subId) else
      exists i ::
        && 0 <= i < |cs| && cs[i] == found.value && cs[i].kind == kind && cs[i].id == id && cs[i].subId == subId
        && forall k | 0 <= k < i :: !(cs[k].kind == kind && cs[k].id == id && cs[k].subId == subId)
  }

  lemma {:induction false} FirstAt(cs: seq<Condition>, p: Condition -> bool) returns (i: nat)
    requires First(cs, p).Some?
    ensures i < |cs| && cs[i] == First(cs, p).value && p(cs[i]) && forall k | 0 <= k < i :: !p(cs[k])
  {
    if p(cs[0]) {
      i := 0;
    } else {
      i := FirstAt(cs[1..], p);
      forall k | 0 <= k < i + 1
        ensures !p(cs[k])
      {
        assert k > 0 ==> cs[k] == cs[1..][k - 1];
      }
      i := i + 1;
    }
  }

  lemma KeyFoundFirst(cs: seq<Condition>, kind: ConditionType, id: int, subId: nat)
    ensures FoundFirst(cs, kind, id, subId, First(cs, HasKey(kind, id, subId)))
  {
    FirstIs(cs, HasKey(kind, id, subId));
    if First(cs, HasKey(kind, id, subId)).Some? {
      var i := FirstAt(cs, HasKey(kind, id, subId));
    }
  }

  // The two mutations, each with its count, that everything else is made of. Callbacks run between them.

  /** The list and its counters. */
  datatype Tracked = Tracked(conditions: seq<Condition>, counts: seq<nat>)

  datatype Step = Append(c: Condition) | Erase(i: nat)

  const COUNTERS: nat := 0x1_0000

  /** `trackAddedCondition`, in sixteen bits. */
  function Added(counts: seq<nat>, kind: ConditionType): seq<nat>
    requires |counts| == CONDITION_COUNT
  {
    counts[kind := (counts[kind] + 1) % COUNTERS]
  }

  /** `trackRemovedCondition`, which stops at zero. */
  function Removed(counts: seq<nat>, kind: ConditionType): seq<nat>
    requires |counts| == CONDITION_COUNT
  {
    if counts[kind] > 0 then counts[kind := counts[kind] - 1] else counts
  }

  predicate Enabled(t: Tracked, s: Step) {
    |t.counts| == CONDITION_COUNT && (s.Erase? ==> s.i < |t.conditions|)
  }

  function Apply(t: Tracked, s: Step): Tracked
    requires Enabled(t, s)
  {
    match s
    case Append(c) => Tracked(t.conditions + [c], Added(t.counts, c.kind))
    case Erase(i) => Tracked(t.conditions[..i] + t.conditions[i + 1..], Removed(t.counts, t.conditions[i].kind))
  }

  /** The counters are right, except for the types in `lost`. */
  ghost predicate AgreesBut(t: Tracked, lost: set<ConditionType>) {
    && |t.counts| == CONDITION_COUNT
    && forall kind: ConditionType :: kind !in lost ==> t.counts[kind] == CountOf(t.conditions, kind)
  }

  ghost predicate Agrees(t: Tracked) {
    AgreesBut(t, {})
  }

  /** The next condition of the type is the 65536th. */
  predicate Overflows(cs: seq<Condition>, kind: ConditionType) {
    CountOf(cs, kind) + 1 >= COUNTERS
  }

  /** The types whose counters may be wrong after a step: an overflow adds its own. */
  function LostAfter(t: Tracked, lost: set<ConditionType>, s: Step): set<ConditionType> {
    if s.Append? && Overflows(t.conditions, s.c.kind) then lost + {s.c.kind} else lost
  }

  lemma StepAgreesBut(t: Tracked, lost: set<ConditionType>, s: Step)
    requires AgreesBut(t, lost) && Enabled(t, s)
    ensures AgreesBut(Apply(t, s), LostAfter(t, lost, s))
  {
    hide CountOf;
    match s
    case Append(c) =>
      forall kind: ConditionType
        ensures CountOf(t.conditions + [c], kind) == CountOf(t.conditions, kind) + OfKind(kind)(c)
      {
        CountSnoc(t.conditions, c, kind);
      }
    case Erase(i) =>
      var left := t.conditions[..i] + t.conditions[i + 1..];
      forall kind: ConditionType
        ensures CountOf(t.conditions, kind) == CountOf(left, kind) + OfKind(kind)(t.conditions[i])
      {
        CountErase(t.conditions, i, kind);
      }
  }

  /** One step keeps every counter right, unless it adds the 65536th condition of one type. */
  lemma StepAgreesIff(t: Tracked, s: Step)
    requires Agrees(t) && Enabled(t, s)
    ensures Agrees(Apply(t, s)) <==> (s.Append? ==> CountOf(t.conditions, s.c.kind) + 1 < COUNTERS)
  {
    hide CountOf;
    StepAgreesBut(t, {}, s);
    if s.Append? {
      CountSnoc(t.conditions, s.c, s.c.kind);
      assert Apply(t, s).counts[s.c.kind] == (t.counts[s.c.kind] + 1) % COUNTERS;
    }
  }

  /** The list of `n` conditions of one type, with its counters. */
  function Copies(c: Condition, n: nat): seq<Condition> {
    if n == 0 then [] else Copies(c, n - 1) + [c]
  }

  function OneCounter(kind: ConditionType, n: nat): (counts: seq<nat>)
    ensures |counts| == CONDITION_COUNT
    ensures forall k: ConditionType :: counts[k] == if k == kind then n else 0
  {
    seq(CONDITION_COUNT, k => if k == kind then n else 0)
  }

  lemma {:induction false} CopiesCount(c: Condition, n: nat, kind: ConditionType)
    ensures CountOf(Copies(c, n), kind) == if kind == c.kind then n else 0
  {
    hide CountOf;
    if n == 0 {
      CountZero([], kind);
    } else {
      CopiesCount(c, n - 1, kind);
      CountSnoc(Copies(c, n - 1), c, kind);
    }
  }

  /** The failing input: the 65536th condition of a type brings its counter to zero, and none of them is found. */
  lemma FullCounterIsLost(c: Condition)
    ensures var t := Tracked(Copies(c, COUNTERS - 1), OneCounter(c.kind, COUNTERS - 1));
            && Agrees(t)
            && !HasAny(Apply(t, Append(c)), c.kind)
            && First(Apply(t, Append(c)).conditions, IsKind(c.kind)).Some?
  {
    hide Copies, CountOf, First;
    var t := Tracked(Copies(c, COUNTERS - 1), OneCounter(c.kind, COUNTERS - 1));
    forall kind: ConditionType
      ensures t.counts[kind] == CountOf(t.conditions, kind)
    {
      CopiesCount(c, COUNTERS - 1, kind);
    }
    assert c in t.conditions + [c];
    FirstIs(t.conditions + [c], IsKind(c.kind));
  }

  lemma CountSnoc(cs: seq<Condition>, c: Condition, kind: ConditionType)
    ensures CountOf(cs + [c], kind) == CountOf(cs, kind) + OfKind(kind)(c)
  {
    TotalAppend(cs, c, OfKind(kind));
  }

  /** `hasTrackedConditionType`. */
  predicate HasAny(t: Tracked, kind: ConditionType) {
    kind < |t.counts| && t.counts[kind] > 0
  }

  /** No type ever reaches 65536 listed conditions along the run. */
  ghost predicate Run(t: Tracked, steps: seq<Step>)
    decreases |steps|
  {
    steps == [] ||
    (Enabled(t, steps[0])
     && (steps[0].Append? ==> CountOf(t.conditions, steps[0].c.kind) + 1 < COUNTERS)
     && Run(Apply(t, steps[0]), steps[1..]))
  }

  function After(t: Tracked, steps: seq<Step>): Tracked
    requires Run(t, steps)
    decreases |steps|
  {
    if steps == [] then t else After(Apply(t, steps[0]), steps[1..])
  }

  /**
   Whatever a callback does in turn, it does through these steps: at every point of every run the early
   exits answer what a search of the whole list would.
   */
  lemma {:induction false} RunAgrees(t: Tracked, steps: seq<Step>)
    requires Agrees(t) && Run(t, steps)
    ensures Agrees(After(t, steps))
    ensures forall kind: ConditionType ::
              HasAny(After(t, steps), kind) <==> First(After(t, steps).conditions, IsKind(kind)).Some?
    decreases |steps|
  {
    if steps == [] {
      forall kind: ConditionType
        ensures HasAny(t, kind) <==> First(t.conditions, IsKind(kind)).Some?
      {
        CountZero(t.conditions, kind);
        FirstIs(t.conditions, IsKind(kind));
      }
    } else {
      StepAgreesIff(t, steps[0]);
      RunAgrees(Apply(t, steps[0]), steps[1..]);
    }
  }

  class Creature {
    var conditions: seq<Condition>
    const conditionTypeCounts: array<nat>

    ghost var lost: set<ConditionType>    // the types that have once had 65536 conditions listed

    ghost function State(): Tracked
      reads this, conditionTypeCounts
    {
      Tracked(conditions, conditionTypeCounts[..])
    }

    ghost predicate Valid()
      reads this, conditionTypeCounts
    {
      conditionTypeCounts.Length == CONDITION_COUNT && AgreesBut(State(), lost)
    }

    constructor ()
      ensures Valid() && conditions == [] && lost == {} && fresh(conditionTypeCounts)
    {
      conditions := [];
      lost := {};
      conditionTypeCounts := new nat[CONDITION_COUNT](_ => 0);
    }

    /** Where the condition or the script may look at the creature: the counts must be as right as ever. */
    method Callback()
      requires Valid()
    {
    }

    method TrackAddedCondition(kind: ConditionType)
      requires conditionTypeCounts.Length == CONDITION_COUNT
      modifies conditionTypeCounts
      ensures conditionTypeCounts[..] == Added(old(conditionTypeCounts[..]), kind)
    {
      conditionTypeCounts[kind] := (conditionTypeCounts[kind] + 1) % COUNTERS;
    }

    method TrackRemovedCondition(kind: ConditionType)
      requires conditionTypeCounts.Length == CONDITION_COUNT
      modifies conditionTypeCounts
      ensures conditionTypeCounts[..] == Removed(old(conditionTypeCounts[..]), kind)
    {
      if conditionTypeCounts[kind] > 0 {
        conditionTypeCounts[kind] := conditionTypeCounts[kind] - 1;
      }
    }

    /** Erasing and counting happen together; then the callbacks run. */
    method EraseCondition(i: nat)
      requires Valid() && i < |conditions|
      modifies this`conditions, conditionTypeCounts
      ensures Valid() && conditions == old(conditions)[..i] + old(conditions)[i + 1..]
    {
      hide AgreesBut;
      StepAgreesBut(State(), lost, Erase(i));
      var kind := conditions[i].kind;
      conditions := conditions[..i] + conditions[i + 1..];
      TrackRemovedCondition(kind);
      Callback();
    }

    /** The early exit gives what searching the list gives, unless the counter has been lost. */
    method GetCondition(kind: ConditionType) returns (found: Option<Condition>)
      requires Valid()
      ensures kind !in lost ==> found == First(conditions, IsKind(kind))
      ensures found.Some? ==> exists i ::
                && 0 <= i < |conditions| && conditions[i] == found.value && conditions[i].kind == kind
                && forall k | 0 <= k < i :: conditions[k].kind != kind
    {
      CountZero(conditions, kind);
      FirstIs(conditions, IsKind(kind));
      if conditionTypeCounts[kind] == 0 {
        return None;
      }
      found := Search(conditions, IsKind(kind));
      if found.Some? {
        ghost var i := FirstAt(conditions, IsKind(kind));
      }
    }

    method GetConditionByKey(kind: ConditionType, id: int, subId: nat) returns (found: Option<Condition>)
      requires Valid()
      ensures kind !in lost ==> found == First(conditions, HasKey(kind, id, subId))
      ensures kind !in lost ==> FoundFirst(conditions, kind, id, subId, found)
      ensures found.Some? ==> found == First(conditions, HasKey(kind, id, subId))
    {
      hide FoundFirst;
      KeyFoundFirst(conditions, kind, id, subId);
      CountZero(conditions, kind);
      FirstIs(conditions, HasKey(kind, id, subId));
      if conditionTypeCounts[kind] == 0 {
        return None;
      }
      found := Search(conditions, HasKey(kind, id, subId));
    }

    method HasCondition(kind: ConditionType, subId: nat, now: int, suppressed: bool) returns (has: bool)
      requires Valid()
      ensures kind !in lost ==>
        (has <==> !suppressed && exists c :: c in conditions && c.kind == kind && c.subId == subId
                                             && (c.endTime >= now || c.ticks == -1))
    {
      CountZero(conditions, kind);
      FirstIs(conditions, Lasting(kind, subId, now));
      if suppressed || conditionTypeCounts[kind] == 0 {
        return false;
      }
      var found := Search(conditions, Lasting(kind, subId, now));
      has := found.Some?;
    }

    method GetConditionsByType(kind: ConditionType) returns (found: seq<Condition>)
      requires Valid()
      ensures kind !in lost ==> found == Keep(conditions, IsKind(kind))
      ensures kind !in lost ==> forall c :: c in found <==> c in conditions && c.kind == kind
    {
      hide Keep, CountOf;
      CountZero(conditions, kind);
      KeepNone(conditions, IsKind(kind));
      KeepIs(conditions, IsKind(kind));
      KeepStart(conditions, IsKind(kind));
      found := [];
      if conditionTypeCounts[kind] == 0 {
        return;
      }
      for i := 0 to |conditions|
        invariant found == Keep(conditions[..i], IsKind(kind))
      {
        KeepNext(conditions, i, IsKind(kind));
        if conditions[i].kind == kind {
          found := found + [conditions[i]];
        }
      }
      assert conditions[..|conditions|] == conditions;
    }

    /** The loop of the removing functions: what `stays` does not keep is erased, the rest stays in order. */
    method EraseAllBut(stays: Condition -> bool)
      requires Valid()
      modifies this`conditions, conditionTypeCounts
      ensures Valid() && conditions == Keep(old(conditions), stays)
    {
      hide AgreesBut, Keep;
      ghost var all := conditions;
      ghost var seen, kept := 0, [];
      var i := 0;
      KeepStart(all, stays);
      assert conditions == kept + all[seen..];
      while i < |conditions|
        invariant Valid() && seen <= |all|
        invariant kept == Keep(all[..seen], stays) && i == |kept|
        invariant conditions == kept + all[seen..]
        decreases |all| - seen
      {
        KeepNext(all, seen, stays);
        EraseAt(conditions, kept, all[seen], all[seen + 1..]);
        seen := seen + 1;
        if stays(conditions[i]) {
          kept := kept + [conditions[i]];
          i := i + 1;
          continue;
        }
        EraseCondition(i);
      }
      assert seen == |all| && all[..seen] == all;
    }

    method RemoveConditionsOfType(kind: ConditionType)
      requires Valid()
      modifies this`conditions, conditionTypeCounts
      ensures Valid() && (kind !in lost ==> conditions == Keep(old(conditions), NotKind(kind)))
      ensures kind !in lost ==> forall c :: c in conditions <==> c in old(conditions) && c.kind != kind
    {
      CountZero(conditions, kind);
      KeepAll(conditions, NotKind(kind));
      KeepIs(conditions, NotKind(kind));
      if conditionTypeCounts[kind] == 0 {
        return;
      }
      EraseAllBut(NotKind(kind));
    }

    /** A paralysis is not taken off while the creature still has to wait for its step; it is tried again later. */
    method RemoveConditionById(kind: ConditionType, id: int, force: bool, walkDelay: int) returns (postponed: bool)
      requires Valid()
      modifies this`conditions, conditionTypeCounts
      ensures Valid()
      ensures kind !in lost ==> (postponed <==>
        && !force && kind == CONDITION_PARALYZE && walkDelay > 0
        && exists c :: c in old(conditions) && c.kind == kind && c.id == id)
      ensures kind !in lost ==>
        conditions == if postponed then old(conditions) else Keep(old(conditions), NotKindId(kind, id))
      ensures kind !in lost && !postponed ==>
        forall c :: c in conditions <==> c in old(conditions) && !(c.kind == kind && c.id == id)
    {
      CountZero(conditions, kind);
      KeepAll(conditions, NotKindId(kind, id));
      KeepIs(conditions, NotKindId(kind, id));
      postponed := false;
      if conditionTypeCounts[kind] == 0 {
        return;
      }
      if !force && kind == CONDITION_PARALYZE && walkDelay > 0 {
        for i := 0 to |conditions|
          invariant forall k | 0 <= k < i :: NotKindId(kind, id)(conditions[k])
        {
          if conditions[i].kind == kind && conditions[i].id == id {
            return true;
          }
        }
        return;
      }
      EraseAllBut(NotKindId(kind, id));
    }

    method RemoveCondition(condition: Condition)
      requires Valid()
      modifies this`conditions, conditionTypeCounts
      ensures Valid()
      ensures condition !in old(conditions) ==> conditions == old(conditions)
      ensures condition in old(conditions) ==> exists i ::
                && 0 <= i < |old(conditions)| && old(conditions)[i] == condition
                && (forall k | 0 <= k < i :: old(conditions)[k] != condition)
                && conditions == old(conditions)[..i] + old(conditions)[i + 1..]
    {
      for i := 0 to |conditions|
        invariant conditions == old(conditions) && Valid()
        invariant forall k | 0 <= k < i :: conditions[k] != condition
      {
        if conditions[i] == condition {
          EraseCondition(i);
          return;
        }
      }
    }

    /** `runs` says of each condition whether it goes on after this interval. */
    method ExecuteConditions(runs: Condition -> bool)
      requires Valid()
      modifies this`conditions, conditionTypeCounts
      ensures Valid() && conditions == Keep(old(conditions), runs)
    {
      EraseAllBut(runs);
    }

    /**
     A second condition with the same type, id and sub id is merged into the first. A new haste takes
     away every paralysis if one is in effect, and a new paralysis every haste. The 65536th condition of
     one type loses the counter of that type, and no other.
     */
    method AddCondition(condition: Condition, suppressed: bool, starts: bool, now: int, suppressedRival: bool)
      returns (ok: bool)
      requires Valid()
      modifies this`conditions, this`lost, conditionTypeCounts
      ensures Valid()
      ensures condition.kind in old(lost) ==> lost == old(lost)
      ensures condition.kind !in old(lost) ==> (ok <==> !suppressed && (Merged(old(conditions), condition) || starts))
      ensures condition.kind !in old(lost) && (!ok || Merged(old(conditions), condition)) ==>
                conditions == old(conditions) && lost == old(lost)
      ensures condition.kind !in old(lost) && ok && !Merged(old(conditions), condition) ==>
                && lost == old(lost) + (if Overflows(old(conditions), condition.kind) then {condition.kind} else {})
                && ((Rival(condition.kind).Some? ==> Rival(condition.kind).value !in old(lost)) ==>
                      conditions == Settled(old(conditions) + [condition], condition.kind, now, suppressedRival))
    {
      hide AgreesBut, CountOf, Keep, Overflows;
      if suppressed {
        return false;
      }
      var prevCond := GetConditionByKey(condition.kind, condition.id, condition.subId);
      FirstIs(conditions, HasKey(condition.kind, condition.id, condition.subId));
      if prevCond.Some? {
        return true;
      }
      Callback();
      if !starts {
        return false;
      }
      Append(condition);
      Callback();
      OnAddCondition(condition.kind, now, suppressedRival);
      ok := true;
    }

    method Append(condition: Condition)
      requires Valid()
      modifies this`conditions, this`lost, conditionTypeCounts
      ensures Valid() && conditions == old(conditions) + [condition]
      ensures lost == old(lost) + if Overflows(old(conditions), condition.kind) then {condition.kind} else {}
    {
      hide AgreesBut, CountOf, Overflows;
      StepAgreesBut(State(), lost, Step.Append(condition));
      lost := LostAfter(State(), lost, Step.Append(condition));
      conditions := conditions + [condition];
      TrackAddedCondition(condition.kind);
    }

    method OnAddCondition(kind: ConditionType, now: int, suppressedRival: bool)
      requires Valid()
      modifies this`conditions, conditionTypeCounts
      ensures Valid()
      ensures (Rival(kind).Some? ==> Rival(kind).value !in lost) ==>
                conditions == Settled(old(conditions), kind, now, suppressedRival)
    {
      hide AgreesBut;
      var has := false;
      if kind == CONDITION_PARALYZE {
        has := HasCondition(CONDITION_HASTE, 0, now, suppressedRival);
        if has {
          RemoveConditionsOfType(CONDITION_HASTE);
        }
      } else if kind == CONDITION_HASTE {
        has := HasCondition(CONDITION_PARALYZE, 0, now, suppressedRival);
        if has {
          RemoveConditionsOfType(CONDITION_PARALYZE);
        }
      }
    }
  }

  predicate Merged(cs: seq<Condition>, condition: Condition) {
    First(cs, HasKey(condition.kind, condition.id, condition.subId)).Some?
  }

  function Rival(kind: ConditionType): Option<ConditionType> {
    if kind == CONDITION_PARALYZE then Some(CONDITION_HASTE)
    else if kind == CONDITION_HASTE then Some(CONDITION_PARALYZE)
    else None
  }

  /** The list after the rival of a new condition has been taken off. */
  ghost function Settled(cs: seq<Condition>, kind: ConditionType, now: int, suppressedRival: bool): seq<Condition> {
    match Rival(kind)
    case None => cs
    case Some(rival) =>
      if !suppressedRival && exists c :: c in cs && Lasting(rival, 0, now)(c) then Keep(cs, NotKind(rival)) else cs
  }

  method Search(cs: seq<Condition>, p: Condition -> bool) returns (found: Option<Condition>)
    ensures found == First(cs, p)
  {
    for i := 0 to |cs|
      invariant forall k | 0 <= k < i :: !p(cs[k])
    {
      if p(cs[i]) {
        FirstSkips(cs, i, p);
        return Some(cs[i]);
      }
    }
    FirstIs(cs, p);
    found := None;
  }

  lemma {:induction false} KeepAll(cs: seq<Condition>, p: Condition -> bool)
    ensures (forall c | c in cs :: p(c)) ==> Keep(cs, p) == cs
  {
    if cs != [] {
      KeepAll(cs[..|cs| - 1], p);
      assert cs == cs[..|cs| - 1] + [cs[|cs| - 1]];
    }
  }

  lemma {:induction false} KeepNone(cs: seq<Condition>, p: Condition -> bool)
    ensures (forall c | c in cs :: !p(c)) ==> Keep(cs, p) == []
  {
    if cs != [] {
      KeepNone(cs[..|cs| - 1], p);
      assert cs == cs[..|cs| - 1] + [cs[|cs| - 1]];
    }
  }

  lemma KeepStart(cs: seq<Condition>, p: Condition -> bool)
    ensures Keep(cs[..0], p) == []
  {
  }

  /**
   A new haste takes every paralysis off, and a new paralysis every haste, where one of them is in effect
   and not suppressed; nothing else ever goes.
   */
  lemma RivalIsGone(cs: seq<Condition>, kind: ConditionType, now: int, suppressed: bool)
    ensures kind !in {CONDITION_HASTE, CONDITION_PARALYZE} ==> Settled(cs, kind, now, suppressed) == cs
    ensures kind in {CONDITION_HASTE, CONDITION_PARALYZE} ==>
              var rival := if kind == CONDITION_HASTE then CONDITION_PARALYZE else CONDITION_HASTE;
              Settled(cs, kind, now, suppressed)
              == if !suppressed && exists c :: c in cs && c.kind == rival && c.subId == 0
                                               && (c.endTime >= now || c.ticks == -1)
                 then Keep(cs, NotKind(rival)) else cs
    ensures kind in {CONDITION_HASTE, CONDITION_PARALYZE} && !suppressed ==>
              forall c | c in Settled(cs, kind, now, suppressed) ::
                (c.kind == if kind == CONDITION_HASTE then CONDITION_PARALYZE else CONDITION_HASTE) ==>
                !(c.subId == 0 && (c.endTime >= now || c.ticks == -1))
  {
    KeepIs(cs, NotKind(CONDITION_HASTE));
    KeepIs(cs, NotKind(CONDITION_PARALYZE));
  }

  lemma {:induction false} KeepIs(cs: seq<Condition>, p: Condition -> bool)
    ensures forall c :: c in Keep(cs, p) <==> c in cs && p(c)
  {
    if cs != [] {
      KeepIs(cs[..|cs| - 1], p);
      assert cs == cs[..|cs| - 1] + [cs[|cs| - 1]];
    }
  }
}

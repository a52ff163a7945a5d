/** Writing the attributes of an item and reading them back: what comes back, and when it is the same item. */
module ItemSurvival {
  import opened Bytes
  import opened Options
  import opened PropStreams
  import opened ItemAttributes
  import opened ItemFormat

  /** The number of custom attributes fits its field. */
  predicate Storable(s: ItemState) {
    |s.custom| < 0x1_0000_0000_0000_0000
  }

  /** The effect on `st` of reading back what `item` wrote for `tag`, without any bytes. */
  function Apply(env: Env, item: ItemState, st: ItemState, tag: uint8): ItemState {
    if Written(env, item, tag) then Effect(env, item, st, FieldOf(tag)) else st
  }

  function Effect(env: Env, item: ItemState, st: ItemState, field: Field): ItemState {
    match field
    case IntField(a, w, signed) => SetInt(st, a, Trunc(Outgoing(env, item, a), w, signed))
    case TextField(t) => ReadText(st, t, Stored(GetText(item, t)))
    case SubTypeField(w) => SetSubType(env, st, SubTypeWritten(env, item, w))
    case DurationField => SetInt(st, Duration, Max0(Trunc(DurationOf(env, item), 4, true)))
    case DecayField => SetInt(st, DecayState, DECAYING_PENDING)
    case CustomField => st.(custom := AddAll(st.custom, StoredAll(item.custom)))
    case _ => st
  }

  function SubTypeWritten(env: Env, item: ItemState, w: nat): uint16 {
    Limits();
    if w == 1 then Low(GetSubType(env, item), 1) else Low(GetInt(item, Charges), 2)
  }

  function ApplyAll(env: Env, item: ItemState, st: ItemState, tags: seq<uint8>): ItemState
    decreases |tags|
  {
    if tags == [] then st else ApplyAll(env, item, Apply(env, item, st, tags[0]), tags[1..])
  }

  /** The item as it comes back. */
  function Restored(env: Env, item: ItemState): ItemState {
    ApplyAll(env, item, Fresh(env, item.id), Order())
  }

  lemma LowTwice(v: int, w: nat)
    ensures Low(Low(v, w), w) == Low(v, w)
  {
    ModOf(Low(v, w), 0, Limit(w));
  }

  lemma ReadNumber(v: int, w: nat, rest: bytes)
    ensures TakeInt(Le(Low(v, w), w) + rest, w) == Some((Low(v, w), rest))
  {
    TakeIntPut(Low(v, w), w, rest);
  }

  lemma ReadCustom(custom: CustomMap, m: CustomMap, rest: bytes)
    requires |custom| < 0x1_0000_0000_0000_0000
    ensures TakeInt(Le(Low(|custom|, 8), 8) + PutEntries(custom) + rest, 8)
         == Some((|custom|, PutEntries(custom) + rest))
    ensures TakeEntries(|custom|, m, PutEntries(custom) + rest) == Some((AddAll(m, StoredAll(custom)), rest))
  {
    hide Le, TakeEntries, PutEntries, AddAll, StoredAll, TakeInt;
    Limits();
    TruncFits(|custom|, 8, false);
    assert Le(Low(|custom|, 8), 8) + PutEntries(custom) + rest == Le(Low(|custom|, 8), 8) + (PutEntries(custom) + rest);
    ReadNumber(|custom|, 8, PutEntries(custom) + rest);
    EntriesRoundTrip(custom, m, rest);
  }

  lemma DecayWritten(v: int)
    requires v == DECAYING_TRUE || v == DECAYING_PENDING
    ensures Low(v, 1) != DECAYING_FALSE
  {
    Limits();
  }

  lemma SubTypeRead(env: Env, item: ItemState, w: nat)
    requires w == 1 || w == 2
    ensures Sub16(Low(if w == 1 then GetSubType(env, item) else GetInt(item, Charges), w))
         == SubTypeWritten(env, item, w)
  {
    hide GetSubType;
    Limits();
  }

  /** One written attribute, read back in any context, has the effect `Apply` says. */
  lemma ReadRecord(env: Env, container: bool, item: ItemState, st: ItemState, tag: uint8, rest: bytes)
    requires Written(env, item, tag) && Storable(item)
    ensures ReadAttr(env, container, st, tag, Payload(env, item, tag) + rest)
         == Continue(Apply(env, item, st, tag), rest)
  {
    hide Le, TakeInt, TakeString, PutString, TakeEntries, PutEntries, AddAll, StoredAll, Low, SetSubType, GetSubType,
         DurationOf, TierOf, ReadText, ToSigned, Limit, SubTypeWritten, Sub16;
    match FieldOf(tag)
    case TextField(t) =>
      TakeStringPut(GetText(item, t), rest);
    case CustomField =>
      ReadCustom(item.custom, st.custom, rest);
    case IntField(a, w, _) =>
      ReadNumber(Outgoing(env, item, a), w, rest);
      LowTwice(Outgoing(env, item, a), w);
    case SubTypeField(w) =>
      SubTypeRead(env, item, w);
      ReadNumber(if w == 1 then GetSubType(env, item) else GetInt(item, Charges), w, rest);
    case DurationField =>
      ReadNumber(DurationOf(env, item), 4, rest);
      LowTwice(DurationOf(env, item), 4);
    case DecayField =>
      ReadNumber(GetInt(item, DecayState), 1, rest);
      DecayWritten(GetInt(item, DecayState));
  }

  /** The reading loop over the written attributes leaves it standing behind them. */
  lemma {:induction false} UnserializeRecords(env: Env, container: bool, item: ItemState, st: ItemState,
                                              tags: seq<uint8>, tail: bytes)
    requires Storable(item) && 0 !in tags
    ensures Unserialize(env, container, st, Records(env, item, tags) + tail)
         == Unserialize(env, container, ApplyAll(env, item, st, tags), tail)
    decreases |tags|
  {
    hide Record, Unserialize, Apply;
    if tags == [] {
      assert Records(env, item, tags) + tail == tail;
    } else {
      var tag := tags[0];
      var more := Records(env, item, tags[1..]) + tail;
      UnserializeRecords(env, container, item, Apply(env, item, st, tag), tags[1..], tail);
      assert Records(env, item, tags) + tail == Record(env, item, tag) + more;
      UnserializeOne(env, container, item, st, tag, more);
    }
  }

  lemma UnserializeOne(env: Env, container: bool, item: ItemState, st: ItemState, tag: uint8, more: bytes)
    requires Storable(item) && tag != 0
    ensures Unserialize(env, container, st, Record(env, item, tag) + more)
         == Unserialize(env, container, Apply(env, item, st, tag), more)
  {
    hide Written, Payload, ReadAttr, Apply;
    var b := Record(env, item, tag) + more;
    if Written(env, item, tag) {
      assert b[0] == tag && b[1..] == Payload(env, item, tag) + more;
      ReadRecord(env, container, item, st, tag, more);
    } else {
      assert b == more;
      NotWritten(env, item, st, tag);
    }
  }

  lemma NotWritten(env: Env, item: ItemState, st: ItemState, tag: uint8)
    requires !Written(env, item, tag)
    ensures Apply(env, item, st, tag) == st
  {
  }

  lemma NoZeroTag()
    ensures 0 !in Order()
  {
  }

  /** After the attributes of `item`, the reader continues behind them with the restored item. */
  lemma AttributesComeBack(env: Env, container: bool, item: ItemState, tail: bytes)
    requires Storable(item)
    ensures Unserialize(env, container, Fresh(env, item.id), Serialize(env, item) + tail)
         == Unserialize(env, container, Restored(env, item), tail)
  {
    hide Records, ApplyAll, Fresh, Unserialize, Order;
    NoZeroTag();
    UnserializeRecords(env, container, item, Fresh(env, item.id), Order(), tail);
  }

  // What each attribute is after the reading.

  function LookupInt(s: ItemState, a: IntAttribute): Option<int> {
    if a in s.ints then Some(s.ints[a]) else None
  }

  function LookupText(s: ItemState, t: TextAttribute): Option<bytes> {
    if t in s.texts then Some(s.texts[t]) else None
  }

  /** The tag under which a number is saved, zero for those that never are or travel as the subtype. */
  function TagOf(a: IntAttribute): uint8 {
    match a
    case Store => 1
    case ActionId => 4
    case Duration => 16
    case DecayState => 17
    case Date => 18
    case Weight => 27
    case Attack => 28
    case Defense => 29
    case ExtraDefense => 30
    case Armor => 31
    case HitChance => 32
    case ShootRange => 33
    case ImbuementSlot => 35
    case OpenContainer => 36
    case QuickLootContainer => 38
    case Amount => 39
    case Tier => 40
    case Owner => 43
    case ObtainContainer => 44
    case Mantra => 45
    case _ => 0
  }

  function TextTagOf(t: TextAttribute): uint8 {
    match t
    case Text => 6
    case Description => 7
    case Writer => 19
    case Name => 24
    case Article => 25
    case PluralName => 26
    case Special => 34
    case StoreInboxCategory => 42
    case LootMessageSuffix => 0
  }

  predicate Targets(f: Field, a: IntAttribute) {
    match f
    case IntField(b, _, _) => a == b
    case DurationField => a == Duration
    case DecayField => a == DecayState
    case _ => false
  }

  lemma TargetTag(tag: uint8, a: IntAttribute)
    requires Targets(FieldOf(tag), a)
    ensures tag == TagOf(a) != 0
  {
  }

  lemma TagTarget(a: IntAttribute)
    requires TagOf(a) != 0
    ensures Targets(FieldOf(TagOf(a)), a)
  {
  }

  /** The table gives each number one tag. */
  lemma IntTable(tag: uint8, a: IntAttribute)
    ensures Targets(FieldOf(tag), a) <==> tag == TagOf(a) != 0
  {
    hide Targets, TagOf, FieldOf;
    if Targets(FieldOf(tag), a) {
      TargetTag(tag, a);
    }
    if tag == TagOf(a) != 0 {
      TagTarget(a);
    }
  }

  lemma IntTagInOrder(a: IntAttribute)
    ensures TagOf(a) != 0 ==> TagOf(a) in Order()
  {
    InOrder(TagOf(a));
  }

  lemma TextTable(tag: uint8, t: TextAttribute)
    ensures FieldOf(tag) == TextField(t) <==> tag == TextTagOf(t) != 0
  {
  }

  lemma TextTagInOrder(t: TextAttribute)
    ensures TextTagOf(t) != 0 ==> TextTagOf(t) in Order()
  {
    InOrder(TextTagOf(t));
  }

  lemma InOrder(tag: uint8)
    ensures 1 <= tag <= 45 && tag !in {2, 3, 5, 8, 9, 10, 11, 12, 13, 14, 20, 21, 23, 37} ==> tag in Order()
  {
  }

  /** The number that is read back for `a` when it was written. */
  function Incoming(env: Env, item: ItemState, a: IntAttribute): int {
    match FieldOf(TagOf(a))
    case IntField(_, w, signed) => Trunc(Outgoing(env, item, a), w, signed)
    case DurationField => Max0(Trunc(DurationOf(env, item), 4, true))
    case _ => DECAYING_PENDING
  }

  predicate IsSubType(a: IntAttribute) {
    a == Charges || a == FluidType
  }

  lemma SubTypeKeeps(env: Env, s: ItemState, n: uint16, a: IntAttribute)
    requires !IsSubType(a)
    ensures LookupInt(SetSubType(env, s, n), a) == LookupInt(s, a)
    ensures SetSubType(env, s, n).texts == s.texts && SetSubType(env, s, n).custom == s.custom
    ensures SetSubType(env, s, n).id == s.id
  {
  }

  lemma ReadTextKeeps(s: ItemState, t: TextAttribute, v: bytes)
    ensures ReadText(s, t, v).ints == s.ints && ReadText(s, t, v).id == s.id && ReadText(s, t, v).count == s.count
    ensures t != Special ==> ReadText(s, t, v).custom == s.custom
  {
    hide AddCustom, AtoiValue;
  }

  lemma ApplyTarget(env: Env, item: ItemState, st: ItemState, tag: uint8, a: IntAttribute)
    requires Targets(FieldOf(tag), a) && tag == TagOf(a) && Written(env, item, tag)
    ensures LookupInt(Apply(env, item, st, tag), a) == Some(Incoming(env, item, a))
  {
    hide Trunc, Outgoing, DurationOf, SetSubType, Written, TagOf, FieldOf, AddAll, StoredAll, ReadText, Max0;
  }

  lemma EffectElsewhere(env: Env, item: ItemState, st: ItemState, field: Field, a: IntAttribute)
    requires !Targets(field, a) && !IsSubType(a)
    ensures LookupInt(Effect(env, item, st, field), a) == LookupInt(st, a)
  {
    hide Trunc, Outgoing, DurationOf, SetSubType, AddAll, StoredAll, ReadText, GetText, Stored, SubTypeWritten, Max0;
    match field
    case SubTypeField(w) => SubTypeKeeps(env, st, SubTypeWritten(env, item, w), a);
    case TextField(t) => ReadTextKeeps(st, t, Stored(GetText(item, t)));
    case _ =>
  }

  lemma ApplyInt(env: Env, item: ItemState, st: ItemState, tag: uint8, a: IntAttribute)
    requires !IsSubType(a) && tag != 0
    ensures LookupInt(Apply(env, item, st, tag), a)
         == if tag == TagOf(a) && Written(env, item, tag) then Some(Incoming(env, item, a)) else LookupInt(st, a)
  {
    hide Effect, Written, Incoming, TagOf, FieldOf, LookupInt, Targets;
    IntTable(tag, a);
    if !Written(env, item, tag) {
      NotWritten(env, item, st, tag);
    } else if tag == TagOf(a) {
      ApplyTarget(env, item, st, tag, a);
    } else {
      EffectElsewhere(env, item, st, FieldOf(tag), a);
    }
  }

  lemma {:induction false} ApplyAllInt(env: Env, item: ItemState, st: ItemState, tags: seq<uint8>, a: IntAttribute)
    requires !IsSubType(a) && 0 !in tags
    ensures LookupInt(ApplyAll(env, item, st, tags), a)
         == if TagOf(a) in tags && Written(env, item, TagOf(a)) then Some(Incoming(env, item, a)) else LookupInt(st, a)
    decreases |tags|
  {
    hide Apply, Written, Incoming, TagOf;
    if tags != [] {
      ApplyInt(env, item, st, tags[0], a);
      ApplyAllInt(env, item, Apply(env, item, st, tags[0]), tags[1..], a);
    }
  }

  /** What reading the text of `t` makes of the text that was there. */
  function TextAfter(lamp: bool, item: ItemState, t: TextAttribute, before: Option<bytes>): Option<bytes> {
    if lamp && t == Special then None
    else if Stored(GetText(item, t)) == [] then before
    else Some(Stored(GetText(item, t)))
  }

  lemma ApplyText(env: Env, item: ItemState, st: ItemState, tag: uint8, t: TextAttribute)
    requires tag != 0
    ensures Apply(env, item, st, tag).id == st.id
    ensures LookupText(Apply(env, item, st, tag), t)
         == if tag == TextTagOf(t) && Written(env, item, tag)
            then TextAfter(st.id == HIRELING_LAMP, item, t, LookupText(st, t)) else LookupText(st, t)
  {
    hide Trunc, Outgoing, DurationOf, SetSubType, Written, TextTagOf, FieldOf, AddAll, StoredAll, AddCustom;
    TextTable(tag, t);
    match FieldOf(tag)
    case SubTypeField(w) => SubTypeKeeps(env, st, SubTypeWritten(env, item, w), Store);
    case _ =>
  }

  lemma {:induction false} ApplyAllText(env: Env, item: ItemState, st: ItemState, tags: seq<uint8>, t: TextAttribute)
    requires 0 !in tags
    ensures ApplyAll(env, item, st, tags).id == st.id
    ensures LookupText(ApplyAll(env, item, st, tags), t)
         == if TextTagOf(t) in tags && Written(env, item, TextTagOf(t))
            then TextAfter(st.id == HIRELING_LAMP, item, t, LookupText(st, t)) else LookupText(st, t)
    decreases |tags|
  {
    hide Apply, Written, TextTagOf;
    if tags != [] {
      ApplyText(env, item, st, tags[0], t);
      ApplyAllText(env, item, Apply(env, item, st, tags[0]), tags[1..], t);
    }
  }

  /** Stack size, charges and fluid. */
  function SubTypeOf(s: ItemState): (uint8, Option<int>, Option<int>) {
    (s.count, LookupInt(s, Charges), LookupInt(s, FluidType))
  }

  lemma {:induction false} OtherTags(env: Env, item: ItemState, st: ItemState, tags: seq<uint8>)
    requires forall tag | tag in tags :: !FieldOf(tag).SubTypeField?
    ensures SubTypeOf(ApplyAll(env, item, st, tags)) == SubTypeOf(st)
    decreases |tags|
  {
    if tags != [] {
      OtherTag(env, item, st, tags[0]);
      OtherTags(env, item, Apply(env, item, st, tags[0]), tags[1..]);
    }
  }

  lemma OtherTag(env: Env, item: ItemState, st: ItemState, tag: uint8)
    requires !FieldOf(tag).SubTypeField?
    ensures SubTypeOf(Apply(env, item, st, tag)) == SubTypeOf(st)
  {
    hide Trunc, Outgoing, DurationOf, Written, FieldOf, AddAll, StoredAll, ReadText, GetText;
    NumbersAside(tag);
    match FieldOf(tag)
    case TextField(t) => ReadTextKeeps(st, t, Stored(GetText(item, t)));
    case _ =>
  }

  lemma NumbersAside(tag: uint8)
    ensures FieldOf(tag).IntField? ==> !IsSubType(FieldOf(tag).a)
  {
  }

  lemma {:induction false} CustomAside(env: Env, item: ItemState, st: ItemState, tags: seq<uint8>)
    requires ATTR_SPECIAL !in tags && ATTR_CUSTOM !in tags && 0 !in tags
    ensures ApplyAll(env, item, st, tags).custom == st.custom && ApplyAll(env, item, st, tags).id == st.id
    decreases |tags|
  {
    if tags != [] {
      CustomAsideOne(env, item, st, tags[0]);
      CustomAside(env, item, Apply(env, item, st, tags[0]), tags[1..]);
    }
  }

  lemma CustomAsideOne(env: Env, item: ItemState, st: ItemState, tag: uint8)
    requires tag != ATTR_SPECIAL && tag != ATTR_CUSTOM && tag != 0
    ensures Apply(env, item, st, tag).custom == st.custom && Apply(env, item, st, tag).id == st.id
  {
    hide Trunc, Outgoing, DurationOf, Written, SetSubType, FieldOf, AddAll, StoredAll, ReadText, GetText, TextTagOf;
    TextTable(tag, Special);
    OneSpecial();
    OneCustom(tag);
    match FieldOf(tag)
    case TextField(t) => ReadTextKeeps(st, t, Stored(GetText(item, t)));
    case SubTypeField(w) => SubTypeKeeps(env, st, SubTypeWritten(env, item, w), Store);
    case _ =>
  }

  lemma OneSpecial()
    ensures TextTagOf(Special) == ATTR_SPECIAL
  {
  }

  lemma OneCustom(tag: uint8)
    ensures FieldOf(tag) == CustomField <==> tag == ATTR_CUSTOM
  {
  }

  lemma {:induction false} ApplyAllParts(env: Env, item: ItemState, st: ItemState, xs: seq<uint8>, ys: seq<uint8>)
    ensures ApplyAll(env, item, st, xs + ys) == ApplyAll(env, item, ApplyAll(env, item, st, xs), ys)
    decreases |xs|
  {
    hide Apply;
    if xs == [] {
      assert xs + ys == ys;
    } else {
      assert (xs + ys)[0] == xs[0] && (xs + ys)[1..] == xs[1..] + ys;
      ApplyAllParts(env, item, Apply(env, item, st, xs[0]), xs[1..], ys);
    }
  }

  /** Where the custom attributes start from: a hireling lamp's special text has become one. */
  function CustomBase(id: uint16, item: ItemState): CustomMap {
    if id == HIRELING_LAMP && Special in item.texts
    then AddCustom([], HIRELING, IntValue(AtoiValue(Stored(GetText(item, Special)))))
    else []
  }

  lemma OrderParts()
    ensures Order() == Order()[..23] + ([ATTR_SPECIAL] + (Order()[24..29] + ([ATTR_CUSTOM] + Order()[30..])))
    ensures forall part | part in {Order()[..23], Order()[24..29], Order()[30..]} ::
              ATTR_SPECIAL !in part && ATTR_CUSTOM !in part && 0 !in part
  {
  }

  lemma RestoredCustom(env: Env, item: ItemState)
    ensures Restored(env, item).custom == AddAll(CustomBase(Fresh(env, item.id).id, item), StoredAll(item.custom))
  {
    hide ApplyAll, Fresh, CustomBase, AddAll, StoredAll, Apply, TypeOf, TransformedId;
    var s0 := Fresh(env, item.id);
    var xs, ys, zs := Order()[..23], Order()[24..29], Order()[30..];
    OrderParts();
    var s1 := ApplyAll(env, item, s0, xs);
    var s2 := ApplyAll(env, item, s1, [ATTR_SPECIAL]);
    var s3 := ApplyAll(env, item, s2, ys);
    var s4 := ApplyAll(env, item, s3, [ATTR_CUSTOM]);
    ApplyAllParts(env, item, s0, xs, [ATTR_SPECIAL] + (ys + ([ATTR_CUSTOM] + zs)));
    ApplyAllParts(env, item, s1, [ATTR_SPECIAL], ys + ([ATTR_CUSTOM] + zs));
    ApplyAllParts(env, item, s2, ys, [ATTR_CUSTOM] + zs);
    ApplyAllParts(env, item, s3, [ATTR_CUSTOM], zs);
    CustomAside(env, item, s0, xs);
    CustomAside(env, item, s2, ys);
    CustomAside(env, item, s4, zs);
    FreshBlank(env, item.id);
    ApplyOne(env, item, s1, ATTR_SPECIAL);
    ApplyOne(env, item, s3, ATTR_CUSTOM);
    SpecialStep(env, item, s1);
    CustomStep(env, item, s3);
  }

  lemma ApplyOne(env: Env, item: ItemState, st: ItemState, tag: uint8)
    ensures ApplyAll(env, item, st, [tag]) == Apply(env, item, st, tag)
  {
    hide Apply;
    assert [tag][1..] == [];
  }

  lemma SpecialStep(env: Env, item: ItemState, st: ItemState)
    requires st.custom == []
    ensures Apply(env, item, st, ATTR_SPECIAL).custom == CustomBase(st.id, item)
  {
    hide AddCustom, AtoiValue, Stored;
    assert FieldOf(ATTR_SPECIAL) == TextField(Special);
  }

  lemma CustomStep(env: Env, item: ItemState, st: ItemState)
    ensures Apply(env, item, st, ATTR_CUSTOM).custom == AddAll(st.custom, StoredAll(item.custom))
  {
    assert FieldOf(ATTR_CUSTOM) == CustomField;
  }

  lemma FreshBlank(env: Env, id: uint16)
    ensures Fresh(env, id).custom == [] && Fresh(env, id).texts == map[]
    ensures Fresh(env, id).id == if TypeOf(env, id).group.Container? then id else TransformedId(id)
  {
    hide TransformedId;
  }

  // When the item that comes back is the item that was saved.

  /** A number comes back unless its field cannot hold it, it is not saved, or zero means absent. */
  predicate IntSurvives(env: Env, s: ItemState, a: IntAttribute)
    requires a in s.ints
  {
    var v := s.ints[a];
    match a
    case Store => v != 0 && FitsWidth(v, 8, true)
    case Date => v != 0 && FitsWidth(v, 8, true)
    case ActionId => 0 < v < 0x1_0000 && TypeOf(env, s.id).movable
    case Tier => 0 <= v < 0x100 && (v <= env.maxTier || v == 0)
    case Duration => 0 <= v < 0x8000_0000
    case DecayState => v == DECAYING_PENDING
    case Charges => true
    case FluidType => true
    case _ => FieldHolds(FieldOf(TagOf(a)), v)
  }

  predicate FieldHolds(f: Field, v: int) {
    f.IntField? && FitsWidth(v, f.width, f.signed)
  }

  /** A text comes back if its length fits; the loot suffix is never saved, and hireling lamps migrate. */
  predicate TextSurvives(s: ItemState, t: TextAttribute)
    requires t in s.texts
  {
    && 0 < |s.texts[t]| <= MAX_STRING
    && t != LootMessageSuffix
    && (t == Special ==> s.id != HIRELING_LAMP)
  }

  /**
   Stack size, charges and fluid share one number on disk. A fluid keeps one byte; a stack keeps its
   count; charges are kept if the type has any, where none left means the type's own number again.
   */
  predicate SubTypeSurvives(env: Env, s: ItemState) {
    var t := TypeOf(env, s.id);
    if Liquid(t) then
      s.count == 1 && Charges !in s.ints && FluidType in s.ints && 0 <= s.ints[FluidType] < 0x100
    else if t.stackable then
      Charges !in s.ints && FluidType !in s.ints
    else if t.charges != 0 then
      && s.count == 1 && FluidType !in s.ints && Charges in s.ints
      && var v := s.ints[Charges];
         0 < v < 0x1_0000 || (v == t.charges && v % 0x1_0000 == 0)
    else
      s.count == 1 && Charges !in s.ints && FluidType !in s.ints
  }

  predicate Survives(env: Env, s: ItemState) {
    && (TypeOf(env, s.id).group.Container? || TransformedId(s.id) == s.id)
    && (forall a | a in s.ints :: IntSurvives(env, s, a))
    && (DefaultDuration(TypeOf(env, s.id)) != 0 ==> Duration in s.ints)
    && (forall t | t in s.texts :: TextSurvives(s, t))
    && FitsCustom(s.custom)
    && SubTypeSurvives(env, s)
  }

  lemma FreshInts(env: Env, id: uint16, a: IntAttribute)
    requires !IsSubType(a)
    ensures LookupInt(Fresh(env, id), a).Some? <==>
      a == Duration && DefaultDuration(TypeOf(env, Fresh(env, id).id)) != 0
  {
    hide DefaultDuration, TransformedId;
  }

  lemma RestoredInt(env: Env, item: ItemState, a: IntAttribute)
    requires !IsSubType(a)
    ensures LookupInt(Restored(env, item), a)
         == if TagOf(a) != 0 && Written(env, item, TagOf(a)) then Some(Incoming(env, item, a))
            else LookupInt(Fresh(env, item.id), a)
  {
    hide ApplyAll, Fresh, Written, TagOf, Incoming, LookupInt, Order;
    NoZeroTag();
    IntTagInOrder(a);
    ApplyAllInt(env, item, Fresh(env, item.id), Order(), a);
  }

  lemma RestoredText(env: Env, item: ItemState, t: TextAttribute)
    ensures Restored(env, item).id == Fresh(env, item.id).id
    ensures LookupText(Restored(env, item), t)
         == if TextTagOf(t) != 0 && Written(env, item, TextTagOf(t))
            then TextAfter(Fresh(env, item.id).id == HIRELING_LAMP, item, t, None) else None
  {
    hide ApplyAll, Fresh, Written, TextTagOf, TextAfter, Order;
    NoZeroTag();
    TextTagInOrder(t);
    FreshBlank(env, item.id);
    ApplyAllText(env, item, Fresh(env, item.id), Order(), t);
  }

  /** Reading the two subtype tags in their order. */
  function SubTypeSteps(env: Env, item: ItemState): ItemState {
    var s0 := Fresh(env, item.id);
    var s1 := if Counted(TypeOf(env, item.id)) then SetSubType(env, s0, SubTypeWritten(env, item, 1)) else s0;
    if Low(GetInt(item, Charges), 2) != 0 then SetSubType(env, s1, SubTypeWritten(env, item, 2)) else s1
  }

  lemma SetSubTypeOnly(env: Env, s: ItemState, s': ItemState, n: uint16)
    requires SubTypeOf(s) == SubTypeOf(s') && s.id == s'.id
    ensures SubTypeOf(SetSubType(env, s, n)) == SubTypeOf(SetSubType(env, s', n))
  {
  }

  lemma CountStep(env: Env, item: ItemState, st: ItemState)
    ensures Apply(env, item, st, ATTR_COUNT)
         == if Counted(TypeOf(env, item.id)) then SetSubType(env, st, SubTypeWritten(env, item, 1)) else st
    ensures Apply(env, item, st, ATTR_CHARGES)
         == if Low(GetInt(item, Charges), 2) != 0 then SetSubType(env, st, SubTypeWritten(env, item, 2)) else st
  {
    hide SetSubType, SubTypeWritten, Low, Counted;
    assert FieldOf(ATTR_COUNT) == SubTypeField(1) && FieldOf(ATTR_CHARGES) == SubTypeField(2);
  }

  lemma SubTypeTags(i: nat)
    requires i < |Order()|
    ensures FieldOf(Order()[i]).SubTypeField? <==> i == 1 || i == 2
    ensures Order()[0] == 1 && Order()[1] == ATTR_COUNT && Order()[2] == ATTR_CHARGES
  {
  }

  lemma RestoredSubType(env: Env, item: ItemState)
    ensures SubTypeOf(Restored(env, item)) == SubTypeOf(SubTypeSteps(env, item))
  {
    hide ApplyAll, Fresh, Apply, SetSubType, SubTypeWritten, SubTypeOf, Counted, Low, FieldOf;
    forall i | 0 <= i < |Order()|
      ensures FieldOf(Order()[i]).SubTypeField? <==> i == 1 || i == 2
    {
      SubTypeTags(i);
    }
    SubTypeTags(0);
    var s0, xs := Fresh(env, item.id), Order()[3..];
    var s1 := Apply(env, item, s0, 1);
    var s2 := Apply(env, item, s1, ATTR_COUNT);
    var s3 := Apply(env, item, s2, ATTR_CHARGES);
    assert Order() == [1] + ([ATTR_COUNT] + ([ATTR_CHARGES] + xs));
    ApplyAllParts(env, item, s0, [1], [ATTR_COUNT] + ([ATTR_CHARGES] + xs));
    ApplyAllParts(env, item, s1, [ATTR_COUNT], [ATTR_CHARGES] + xs);
    ApplyAllParts(env, item, s2, [ATTR_CHARGES], xs);
    ApplyOne(env, item, s0, 1);
    ApplyOne(env, item, s1, ATTR_COUNT);
    ApplyOne(env, item, s2, ATTR_CHARGES);
    OtherTag(env, item, s0, 1);
    OtherTags(env, item, s3, xs);
    ApplyText(env, item, s0, 1, Text);
    CountStep(env, item, s1);
    CountStep(env, item, s2);
    SubTypeStepsAgree(env, item, s0, s1);
  }

  lemma SubTypeStepsAgree(env: Env, item: ItemState, s0: ItemState, s1: ItemState)
    requires SubTypeOf(s0) == SubTypeOf(s1) && s0.id == s1.id && s0 == Fresh(env, item.id)
    ensures var s2 := if Counted(TypeOf(env, item.id)) then SetSubType(env, s1, SubTypeWritten(env, item, 1)) else s1;
            var s3 := if Low(GetInt(item, Charges), 2) != 0
                      then SetSubType(env, s2, SubTypeWritten(env, item, 2)) else s2;
            SubTypeOf(s3) == SubTypeOf(SubTypeSteps(env, item))
  {
    hide Fresh, SetSubType, SubTypeOf, SubTypeWritten, Low, Counted, LookupInt, GetInt;
    var n1, n2 := SubTypeWritten(env, item, 1), SubTypeWritten(env, item, 2);
    SetSubTypeOnly(env, s0, s1, n1);
    SubTypeKeeps(env, s0, n1, Store);
    SubTypeKeeps(env, s1, n1, Store);
    SetSubTypeOnly(env, SetSubType(env, s0, n1), SetSubType(env, s1, n1), n2);
    SetSubTypeOnly(env, s0, s1, n2);
  }

  lemma Widths(v: int)
    ensures FitsWidth(v, 1, false) <==> 0 <= v < 0x100
    ensures FitsWidth(v, 1, true) <==> -0x80 <= v < 0x80
    ensures FitsWidth(v, 2, false) <==> 0 <= v < 0x1_0000
    ensures FitsWidth(v, 4, false) <==> 0 <= v < 0x1_0000_0000
    ensures FitsWidth(v, 4, true) <==> -0x8000_0000 <= v < 0x8000_0000
  {
    Limits();
  }

  predicate Particular(a: IntAttribute) {
    a == Tier || a == Duration || a == DecayState || OmitsZero(a)
  }

  lemma PlainComesBack(env: Env, item: ItemState, a: IntAttribute)
    requires a in item.ints && !IsSubType(a) && !Particular(a)
    ensures LookupInt(Restored(env, item), a) == Some(item.ints[a]) <==> IntSurvives(env, item, a)
  {
    hide Restored, FitsWidth, TagOf, FieldOf, Trunc, Fresh;
    var v := item.ints[a];
    RestoredInt(env, item, a);
    FreshInts(env, item.id, a);
    IntTable(TagOf(a), a);
    if TagOf(a) != 0 {
      var f := FieldOf(TagOf(a));
      TruncFits(v, f.width, f.signed);
    } else {
      NoField();
    }
  }

  lemma NoField()
    ensures FieldOf(0) == UnknownField
  {
  }

  lemma ZeroIsZero(w: nat, signed: bool)
    ensures Low(0, w) == 0 && Trunc(0, w, signed) == 0
  {
  }

  lemma LowZero(v: int, w: nat, signed: bool)
    requires Low(v, w) == 0 && FitsWidth(v, w, signed)
    ensures v == 0
  {
    TruncFits(v, w, signed);
  }

  lemma OmittedComesBack(env: Env, item: ItemState, a: IntAttribute)
    requires a in item.ints && OmitsZero(a)
    ensures LookupInt(Restored(env, item), a) == Some(item.ints[a]) <==> IntSurvives(env, item, a)
  {
    hide Restored, FitsWidth, Trunc, Low, Fresh;
    var v := item.ints[a];
    RestoredInt(env, item, a);
    FreshInts(env, item.id, a);
    var f := FieldOf(TagOf(a));
    assert f == if a == ActionId then IntField(a, 2, false) else IntField(a, 8, true);
    TruncFits(v, f.width, f.signed);
    Widths(v);
    ZeroIsZero(f.width, f.signed);
    if Low(v, f.width) == 0 && FitsWidth(v, f.width, f.signed) {
      LowZero(v, f.width, f.signed);
    }
  }

  lemma TierComesBack(env: Env, item: ItemState)
    requires Tier in item.ints
    ensures LookupInt(Restored(env, item), Tier) == Some(item.ints[Tier]) <==> IntSurvives(env, item, Tier)
  {
    hide Restored, Low, Fresh, Written;
    var v := item.ints[Tier];
    RestoredInt(env, item, Tier);
    assert FieldOf(TagOf(Tier)) == IntField(Tier, 1, false);
    assert Written(env, item, TagOf(Tier)) by { TierWritten(env, item); }
    TruncFits(v, 1, false);
    Widths(v);
    LowTwice(v, 1);
    ZeroIsZero(1, false);
  }

  lemma TierWritten(env: Env, item: ItemState)
    requires Tier in item.ints
    ensures Written(env, item, 40)
  {
    assert FieldOf(40) == IntField(Tier, 1, false);
  }

  lemma DecayComesBack(env: Env, item: ItemState)
    requires DecayState in item.ints
    ensures LookupInt(Restored(env, item), DecayState) == Some(item.ints[DecayState])
            <==> IntSurvives(env, item, DecayState)
  {
    hide Restored, Fresh;
    RestoredInt(env, item, DecayState);
    FreshInts(env, item.id, DecayState);
    assert FieldOf(TagOf(DecayState)) == DecayField;
  }

  lemma DurationComesBack(env: Env, item: ItemState)
    requires Duration in item.ints && (DecayState in item.ints ==> item.ints[DecayState] == DECAYING_PENDING)
    ensures LookupInt(Restored(env, item), Duration) == Some(item.ints[Duration]) <==> IntSurvives(env, item, Duration)
  {
    hide Restored, Fresh, Trunc;
    var v := item.ints[Duration];
    RestoredInt(env, item, Duration);
    assert FieldOf(TagOf(Duration)) == DurationField;
    TruncFits(v, 4, true);
    TruncFits(DurationOf(env, item), 4, true);
    TruncRange(v);
    Widths(v);
    Widths(DurationOf(env, item));
  }

  lemma TruncRange(v: int)
    ensures -0x8000_0000 <= Trunc(v, 4, true) < 0x8000_0000
  {
    Limits();
  }

  lemma IntComesBack(env: Env, item: ItemState, a: IntAttribute)
    requires a in item.ints && !IsSubType(a)
    requires DecayState in item.ints ==> item.ints[DecayState] == DECAYING_PENDING || a == DecayState
    ensures LookupInt(Restored(env, item), a) == Some(item.ints[a]) <==> IntSurvives(env, item, a)
  {
    hide Restored, IntSurvives, LookupInt;
    if OmitsZero(a) {
      OmittedComesBack(env, item, a);
    } else if a == Tier {
      TierComesBack(env, item);
    } else if a == DecayState {
      DecayComesBack(env, item);
    } else if a == Duration {
      DurationComesBack(env, item);
    } else {
      PlainComesBack(env, item, a);
    }
  }

  /** A number that is not there stays away, the default duration aside. */
  lemma AbsentStaysAway(env: Env, item: ItemState, a: IntAttribute)
    requires a !in item.ints && !IsSubType(a) && Fresh(env, item.id).id == item.id
    ensures LookupInt(Restored(env, item), a) == None
            <==> !(a == Duration && DefaultDuration(TypeOf(env, item.id)) != 0)
  {
    hide Restored, Fresh, Incoming, DefaultDuration, FieldOf;
    RestoredInt(env, item, a);
    FreshInts(env, item.id, a);
    if TagOf(a) != 0 {
      IntTable(TagOf(a), a);
      AbsentNotWritten(env, item, TagOf(a), a);
    }
  }

  lemma AbsentNotWritten(env: Env, item: ItemState, tag: uint8, a: IntAttribute)
    requires a !in item.ints && Targets(FieldOf(tag), a)
    ensures !Written(env, item, tag)
  {
    hide FieldOf;
    match FieldOf(tag)
    case IntField(_, w, signed) => ZeroIsZero(w, signed);
    case _ =>
  }

  lemma TextComesBack(env: Env, item: ItemState, t: TextAttribute)
    requires Fresh(env, item.id).id == item.id
    ensures t in item.texts ==>
      (LookupText(Restored(env, item), t) == Some(item.texts[t]) <==> TextSurvives(item, t))
    ensures t !in item.texts ==> LookupText(Restored(env, item), t) == None
  {
    hide Restored, Fresh, FieldOf;
    RestoredText(env, item, t);
    if TextTagOf(t) != 0 {
      TextTable(TextTagOf(t), t);
    }
  }

  lemma FreshSubType(env: Env, id: uint16)
    requires Fresh(env, id).id == id
    ensures var t := TypeOf(env, id);
            var (count, charges, fluid) := SubTypeOf(Fresh(env, id));
            && (fluid.Some? <==> Liquid(t))
            && charges == (if !Liquid(t) && !t.stackable && t.charges != 0 then Some(t.charges as int) else None)
            && (Liquid(t) || !t.stackable ==> count == 1)
  {
    hide DefaultDuration, TransformedId;
  }

  lemma LiquidComesBack(env: Env, item: ItemState)
    requires Fresh(env, item.id).id == item.id && Liquid(TypeOf(env, item.id))
    ensures SubTypeOf(SubTypeSteps(env, item)) == SubTypeOf(item) <==> SubTypeSurvives(env, item)
  {
    hide Fresh, Liquid;
    FreshSubType(env, item.id);
    Limits();
  }

  lemma OthersComeBack(env: Env, item: ItemState)
    requires Fresh(env, item.id).id == item.id && !Liquid(TypeOf(env, item.id))
    ensures SubTypeOf(SubTypeSteps(env, item)) == SubTypeOf(item) <==> SubTypeSurvives(env, item)
  {
    hide Fresh, Liquid;
    FreshSubType(env, item.id);
    Limits();
  }

  lemma SubTypeComesBack(env: Env, item: ItemState)
    requires Fresh(env, item.id).id == item.id
    ensures SubTypeOf(Restored(env, item)) == SubTypeOf(item) <==> SubTypeSurvives(env, item)
  {
    hide Restored, Fresh, SubTypeOf, SubTypeSteps, SubTypeSurvives;
    RestoredSubType(env, item);
    if Liquid(TypeOf(env, item.id)) {
      LiquidComesBack(env, item);
    } else {
      OthersComeBack(env, item);
    }
  }

  lemma SameState(s: ItemState, t: ItemState)
    requires s.id == t.id && s.custom == t.custom && SubTypeOf(s) == SubTypeOf(t)
    requires forall a | !IsSubType(a) :: LookupInt(s, a) == LookupInt(t, a)
    requires forall x :: LookupText(s, x) == LookupText(t, x)
    ensures s == t
  {
    forall a ensures LookupInt(s, a) == LookupInt(t, a) {
      if a == Charges || a == FluidType {
      }
    }
    assert forall a :: a in s.ints <==> LookupInt(s, a) != None;
    assert forall a :: a in t.ints <==> LookupInt(t, a) != None;
    assert s.ints == t.ints;
    assert forall x :: x in s.texts <==> LookupText(s, x) != None;
    assert forall x :: x in t.texts <==> LookupText(t, x) != None;
    assert s.texts == t.texts;
  }

  lemma SurvivorComesBack(env: Env, item: ItemState)
    requires ValidCustom(item.custom) && Survives(env, item)
    ensures Restored(env, item) == item
  {
    hide Restored, Fresh, IntSurvives, SubTypeSurvives, AddAll, StoredAll, FitsCustom, ValidCustom, LookupInt,
      LookupText, DefaultDuration, TransformedId;
    FreshBlank(env, item.id);
    RestoredText(env, item, Text);
    RestoredCustom(env, item);
    CustomSurvives(item.custom);
    SubTypeComesBack(env, item);
    if DecayState in item.ints {
      DecayIsPending(env, item);
    }
    forall a | !IsSubType(a)
      ensures LookupInt(Restored(env, item), a) == LookupInt(item, a)
    {
      LookupIntIs(item, a);
      if a in item.ints {
        IntComesBack(env, item, a);
      } else {
        AbsentStaysAway(env, item, a);
      }
    }
    forall x
      ensures LookupText(Restored(env, item), x) == LookupText(item, x)
    {
      LookupTextIs(item, x);
      TextComesBack(env, item, x);
    }
    SameState(Restored(env, item), item);
  }

  lemma LookupIntIs(s: ItemState, a: IntAttribute)
    ensures LookupInt(s, a) == if a in s.ints then Some(s.ints[a]) else None
  {
  }

  lemma LookupTextIs(s: ItemState, t: TextAttribute)
    ensures LookupText(s, t) == if t in s.texts then Some(s.texts[t]) else None
  {
  }

  lemma DecayIsPending(env: Env, item: ItemState)
    requires DecayState in item.ints && IntSurvives(env, item, DecayState)
    ensures item.ints[DecayState] == DECAYING_PENDING
  {
  }

  lemma ComesBackSurvives(env: Env, item: ItemState)
    requires ValidCustom(item.custom) && Restored(env, item) == item
    ensures Survives(env, item)
  {
    hide Restored, Fresh, IntSurvives, SubTypeSurvives, AddAll, StoredAll, FitsCustom, ValidCustom, LookupInt,
      LookupText, DefaultDuration, TransformedId, TextSurvives;
    FreshBlank(env, item.id);
    RestoredText(env, item, Text);
    SubTypeComesBack(env, item);
    LookupIntIs(item, DecayState);
    if DecayState in item.ints {
      IntComesBack(env, item, DecayState);
      DecayIsPending(env, item);
    }
    forall a | a in item.ints
      ensures IntSurvives(env, item, a)
    {
      LookupIntIs(item, a);
      if IsSubType(a) {
        SubTypeApart(env, item, a);
      } else {
        IntComesBack(env, item, a);
      }
    }
    LookupIntIs(item, Duration);
    if Duration !in item.ints {
      AbsentStaysAway(env, item, Duration);
    }
    forall x | x in item.texts
      ensures TextSurvives(item, x)
    {
      LookupTextIs(item, x);
      TextComesBack(env, item, x);
    }
    RestoredCustom(env, item);
    NoLampText(item);
    CustomSurvives(item.custom);
  }

  lemma SubTypeApart(env: Env, item: ItemState, a: IntAttribute)
    requires a in item.ints && IsSubType(a)
    ensures IntSurvives(env, item, a)
  {
  }

  lemma NoLampText(item: ItemState)
    requires forall x | x in item.texts :: TextSurvives(item, x)
    ensures CustomBase(item.id, item) == []
  {
    hide AddCustom;
  }

  /** An item comes back unchanged exactly when every one of its attributes survives. */
  lemma ComesBackIff(env: Env, item: ItemState)
    requires ValidCustom(item.custom)
    ensures Restored(env, item) == item <==> Survives(env, item)
  {
    hide Restored, Survives, ValidCustom;
    if Survives(env, item) {
      SurvivorComesBack(env, item);
    }
    if Restored(env, item) == item {
      ComesBackSurvives(env, item);
    }
  }

  // The clock.

  /** The 32-bit signed number that `v` is cast to. */
  predicate CastTo(v: int, x: int) {
    -0x8000_0000 <= x < 0x8000_0000 && (v - x) % 0x1_0000_0000 == 0
  }

  lemma TruncIs(v: int, x: int)
    requires CastTo(v, x)
    ensures Trunc(v, 4, true) == x
  {
    hide ToSigned;
    Limits();
    assert v % 0x1_0000_0000 == x % 0x1_0000_0000;
    TruncFits(x, 4, true);
    Widths(x);
  }

  lemma DurationRead(env: Env, item: ItemState)
    requires Duration in item.ints
    ensures LookupInt(Restored(env, item), Duration) == Some(Max0(Trunc(DurationOf(env, item), 4, true)))
  {
    hide Restored, Fresh, Trunc, DurationOf, Max0;
    RestoredInt(env, item, Duration);
    assert FieldOf(TagOf(Duration)) == DurationField;
  }

  /** While an item decays, what is left on the clock comes back, and nothing once the time has passed. */
  lemma RunningDuration(env: Env, item: ItemState, until: int, now: int)
    requires Duration in item.ints && DecayState in item.ints && item.ints[DecayState] in {1, 3}
    requires CastTo(if DurationTimestamp in item.ints then item.ints[DurationTimestamp] else 0, until)
    requires CastTo(env.now, now) && -0x8000_0000 <= until - now < 0x8000_0000
    ensures LookupInt(Restored(env, item), Duration) == Some(if until > now then until - now else 0)
  {
    hide Restored, LookupInt, Trunc;
    DurationRead(env, item);
    TruncIs(GetInt(item, DurationTimestamp), until);
    TruncIs(env.now, now);
    var left := if until > now then until - now else 0;
    TruncIs(left, left);
  }

  /** In every other state the duration itself comes back, and nothing for a negative one. */
  lemma RestingDuration(env: Env, item: ItemState, left: int)
    requires Duration in item.ints && (DecayState in item.ints ==> item.ints[DecayState] !in {1, 3})
    requires CastTo(item.ints[Duration], left)
    ensures LookupInt(Restored(env, item), Duration) == Some(if left > 0 then left else 0)
  {
    hide Restored, LookupInt, Trunc;
    DurationRead(env, item);
    TruncIs(item.ints[Duration], left);
    TruncIs(left, left);
  }

  // Migrations.

  lemma {:induction false} KeyStays(m: CustomMap, size: nat, b: bytes, key: bytes)
    requires TakeEntries(size, m, b).Some? && Lookup(m, key) != None
    ensures Lookup(TakeEntries(size, m, b).value.0, key) != None
    decreases size
  {
    hide TakeString, TakeCustomValue, Lookup, AddCustom;
    if size > 0 {
      var (k, more) := TakeString(b).value;
      var (v, rest) := TakeCustomValue(more).value;
      StaysAdded(m, k, v, key);
      KeyStays(AddCustom(m, k, v), size - 1, rest, key);
    }
  }

  lemma StaysAdded(m: CustomMap, k: bytes, v: CustomValue, key: bytes)
    requires Lookup(m, key) != None
    ensures Lookup(AddCustom(m, k, v), key) != None
  {
    InsertLookup(m, LowerCase(k), v);
  }

  lemma {:induction false} OldKeyStays(env: Env, size: nat, s: ItemState, b: bytes, key: bytes)
    requires ReadOldEntries(env, size, s, b).Some? && Lookup(s.custom, key) != None
    ensures Lookup(ReadOldEntries(env, size, s, b).value.0.custom, key) != None
    decreases size
  {
    hide TakeEntries, Lookup;
    if size > 0 {
      var (m, rest) := TakeEntries(1, s.custom, b).value;
      KeyStays(s.custom, 1, b, key);
      var s1 := s.(custom := m);
      var s2 := if Lookup(m, UNWRAP_ID) != None && GetInt(s1, Store) == 0 then SetInt(s1, Store, env.now) else s1;
      OldKeyStays(env, size - 1, s2, rest, key);
    }
  }

  /** The old custom list dates a wrapped item that has no store date yet, and changes nothing else. */
  lemma {:induction false} OldListDates(env: Env, size: nat, s: ItemState, b: bytes)
    requires ReadOldEntries(env, size, s, b).Some?
    ensures var r := ReadOldEntries(env, size, s, b).value.0;
            && (r.id, r.count, r.texts) == (s.id, s.count, s.texts)
            && (forall a | a != Store :: LookupInt(r, a) == LookupInt(s, a))
            && GetInt(r, Store) == if size > 0 && GetInt(s, Store) == 0 && Lookup(r.custom, UNWRAP_ID) != None
                                   then env.now else GetInt(s, Store)
    decreases size
  {
    hide TakeEntries, Lookup;
    if size > 0 {
      var (m, rest) := TakeEntries(1, s.custom, b).value;
      var s1 := s.(custom := m);
      var s2 := if Lookup(m, UNWRAP_ID) != None && GetInt(s1, Store) == 0 then SetInt(s1, Store, env.now) else s1;
      OldListDates(env, size - 1, s2, rest);
      if Lookup(m, UNWRAP_ID) != None {
        OldKeyStays(env, size - 1, s2, rest, UNWRAP_ID);
      }
    }
  }

  /** Worn rings and boots, and an arrow, that are created in another form. */
  predicate PlainForm(id: uint16, plain: uint16) {
    || (id == 3094 && plain == 3091) || (id == 3096 && plain == 3093) || (id == 3099 && plain == 3097)
    || (id == 3100 && plain == 3098) || (id == 3086 && plain == 3049) || (id == 3090 && plain == 3053)
    || (id == 3549 && plain == 6529) || (id == 6300 && plain == 6299) || (id == 16264 && plain == 16114)
    || (id == 25757 && plain == 35901)
  }

  lemma FreshForm(env: Env, id: uint16)
    ensures PlainForm(id, Fresh(env, id).id) || Fresh(env, id).id == id
    ensures Fresh(env, id).id == id <==>
      TypeOf(env, id).group.Container? || id !in {3094, 3096, 3099, 3100, 3086, 3090, 3549, 6300, 16264, 25757}
  {
    hide Fresh, TypeOf;
    FreshBlank(env, id);
  }

  /** They come back in that form, every other item and every container as it is. */
  lemma ComesBackPlain(env: Env, item: ItemState)
    ensures PlainForm(item.id, Restored(env, item).id) || Restored(env, item).id == item.id
    ensures Restored(env, item).id == item.id <==>
      TypeOf(env, item.id).group.Container?
      || item.id !in {3094, 3096, 3099, 3100, 3086, 3090, 3549, 6300, 16264, 25757}
  {
    hide Restored, Fresh, PlainForm, TypeOf, Written, TextTagOf, TextAfter, LookupText;
    RestoredText(env, item, Text);
    FreshForm(env, item.id);
  }
}

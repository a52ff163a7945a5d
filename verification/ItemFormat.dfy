/** The stored form of an item: which attributes are written, how each is read back, and what survives. */
module ItemFormat {
  import opened Bytes
  import opened Options
  import opened PropStreams
  import opened ItemAttributes

  const HIRELING_LAMP := 29432
  const HIRELING: bytes := [72, 105, 114, 101, 108, 105, 110, 103]
  const UNWRAP_ID: bytes := [117, 110, 119, 114, 97, 112, 105, 100]

  const DECAYING_FALSE := 0
  const DECAYING_TRUE := 1
  const DECAYING_PENDING := 2
  const DECAYING_STOPPING := 3

  datatype Group = Fluid | Splash | Container | Other

  datatype ItemType = ItemType(registered: bool, group: Group, stackable: bool, movable: bool, charges: uint32,
                               decayTime: uint32)

  const UNREGISTERED := ItemType(false, Other, false, false, 0, 0)

  /** The item table, the highest forge tier and the clock (milliseconds). */
  datatype Env = Env(types: map<uint16, ItemType>, maxTier: int, now: int64)

  function TypeOf(env: Env, id: uint16): ItemType {
    if id in env.types then env.types[id] else UNREGISTERED
  }

  /** An item's own fields. */
  datatype ItemState = ItemState(id: uint16, count: uint8,
                                 ints: map<IntAttribute, int>, texts: map<TextAttribute, bytes>,
                                 custom: CustomMap)

  /** An item with what is inside it, in list order. */
  datatype ItemTree = ItemTree(own: ItemState, children: seq<ItemTree>)

  // Reading attributes of an item in memory.

  function GetInt(s: ItemState, a: IntAttribute): int {
    if a in s.ints then s.ints[a] else 0
  }

  function GetText(s: ItemState, t: TextAttribute): bytes {
    if t in s.texts then s.texts[t] else []
  }

  /** `setAttribute` with a text: an empty text changes nothing. */
  function SetText(s: ItemState, t: TextAttribute, v: bytes): ItemState {
    if v == [] then s else s.(texts := s.texts[t := v])
  }

  function SetInt(s: ItemState, a: IntAttribute, v: int): ItemState {
    s.(ints := s.ints[a := v])
  }

  /** The low `width` bytes of an integer, as a cast to an unsigned type keeps them. */
  function Low(v: int, width: nat): (u: nat)
    ensures u < Limit(width)
  {
    v % Limit(width)
  }

  /** The value a field of `width` bytes gives back for `v`. */
  function Trunc(v: int, width: nat, signed: bool): int {
    if signed then ToSigned(Low(v, width), width) else Low(v, width)
  }

  predicate FitsWidth(v: int, width: nat, signed: bool) {
    if signed then 0 <= 2 * v + Limit(width) < 2 * Limit(width) else 0 <= v < Limit(width)
  }

  lemma TruncFits(v: int, width: nat, signed: bool)
    ensures Trunc(v, width, signed) == v <==> FitsWidth(v, width, signed)
  {
    var m := Limit(width);
    if 0 <= v < m {
      ModOf(v, 0, m);
    } else if -m <= v < 0 {
      ModOf(v + m, -1, m);
    }
  }

  lemma ModOf(r: nat, q: int, m: nat)
    requires r < m
    ensures (r + q * m) % m == r
  {
    var x := r + q * m;
    assert x == m * (x / m) + x % m;
    if x / m < q {
      assert m * (x / m) <= m * (q - 1) by { MulLe(x / m, q - 1, m); }
    } else if x / m > q {
      assert m * (x / m) >= m * (q + 1) by { MulLe(q + 1, x / m, m); }
    }
  }

  lemma MulLe(a: int, b: int, m: nat)
    requires a <= b
    ensures m * a <= m * b
  {
  }

  predicate Liquid(t: ItemType) {
    t.group.Fluid? || t.group.Splash?
  }

  /** Types whose count, fluid or stack size is always written. */
  predicate Counted(t: ItemType) {
    t.stackable || Liquid(t)
  }

  function GetSubType(env: Env, s: ItemState): uint16 {
    Limits();
    var t := TypeOf(env, s.id);
    if Liquid(t) then Low(GetInt(s, FluidType), 2)
    else if t.stackable then s.count
    else if t.charges != 0 then Low(GetInt(s, Charges), 2)
    else s.count
  }

  function SetSubType(env: Env, s: ItemState, n: uint16): ItemState {
    var t := TypeOf(env, s.id);
    if Liquid(t) then SetInt(s, FluidType, n)
    else if t.stackable then s.(count := n % 0x100)
    else if t.charges != 0 then SetInt(s, Charges, n)
    else s.(count := n % 0x100)
  }

  function Max0(v: int): nat {
    if v < 0 then 0 else v
  }

  /** `getDuration`: a running or stopping decay is measured against the clock. */
  function DurationOf(env: Env, s: ItemState): int {
    if GetInt(s, DecayState) == DECAYING_TRUE || GetInt(s, DecayState) == DECAYING_STOPPING
    then Max0(Trunc(GetInt(s, DurationTimestamp), 4, true) - Trunc(env.now, 4, true))
    else Trunc(GetInt(s, Duration), 4, true)
  }

  /** `getTier` answers zero above the highest configured tier. */
  function TierOf(env: Env, s: ItemState): int {
    if Low(GetInt(s, Tier), 1) > env.maxTier then 0 else Low(GetInt(s, Tier), 1)
  }

  /** The number that goes into the field of `a`. */
  function Outgoing(env: Env, s: ItemState, a: IntAttribute): int {
    if a == Tier then TierOf(env, s) else GetInt(s, a)
  }

  /** `std::atoi`: blanks, a sign, digits. */
  function Atoi(s: bytes): int {
    if s == [] then 0
    else if s[0] == 32 || 9 <= s[0] <= 13 then Atoi(s[1..])
    else if s[0] == 45 then -Digits(s[1..], 0)
    else if s[0] == 43 then Digits(s[1..], 0)
    else Digits(s, 0)
  }

  function Digits(s: bytes, acc: int): int {
    if s == [] || !(48 <= s[0] <= 57) then acc else Digits(s[1..], 10 * acc + (s[0] - 48))
  }

  // The switch on the attribute byte.

  datatype Field =
    | IntField(a: IntAttribute, width: nat, signed: bool)
    | TextField(t: TextAttribute)
    | SubTypeField(width: nat)
    | DurationField
    | DecayField
    | CustomField
    | OldCustomField
    | UniqueField
    | SkipField(n: nat)
    | ContainerField
    | UnknownField

  const ATTR_COUNT := 15
  const ATTR_CHARGES := 22
  const ATTR_CONTAINER_ITEMS := 23
  const ATTR_SPECIAL := 34
  const ATTR_CUSTOM := 41

  function FieldOf(tag: uint8): Field {
    match tag
    case 1 => IntField(Store, 8, true)
    case 4 => IntField(ActionId, 2, false)
    case 5 => UniqueField
    case 6 => TextField(Text)
    case 7 => TextField(Description)
    case 8 => SkipField(5)
    case 10 => SkipField(2)
    case 12 => SubTypeField(1)
    case 14 => SkipField(1)
    case 15 => SubTypeField(1)
    case 16 => DurationField
    case 17 => DecayField
    case 18 => IntField(Date, 8, true)
    case 19 => TextField(Writer)
    case 20 => SkipField(4)
    case 21 => SkipField(4)
    case 22 => SubTypeField(2)
    case 23 => ContainerField
    case 24 => TextField(Name)
    case 25 => TextField(Article)
    case 26 => TextField(PluralName)
    case 27 => IntField(Weight, 4, false)
    case 28 => IntField(Attack, 4, true)
    case 29 => IntField(Defense, 4, true)
    case 30 => IntField(ExtraDefense, 4, true)
    case 31 => IntField(Armor, 4, true)
    case 32 => IntField(HitChance, 1, true)
    case 33 => IntField(ShootRange, 1, false)
    case 34 => TextField(Special)
    case 35 => IntField(ImbuementSlot, 4, true)
    case 36 => IntField(OpenContainer, 1, false)
    case 37 => OldCustomField
    case 38 => IntField(QuickLootContainer, 4, false)
    case 39 => IntField(Amount, 2, false)
    case 40 => IntField(Tier, 1, false)
    case 41 => CustomField
    case 42 => TextField(StoreInboxCategory)
    case 43 => IntField(Owner, 4, false)
    case 44 => IntField(ObtainContainer, 4, false)
    case 45 => IntField(Mantra, 4, true)
    case _ => UnknownField
  }

  /** The order in which `serializeAttr` visits the attributes. */
  function Order(): seq<uint8> {
    [1, 15, 22, 4, 6, 18, 19, 7, 16, 17, 24, 25, 26, 27, 28, 29, 30, 45, 35, 36, 31, 32, 33, 34,
     38, 40, 39, 42, 43, 41, 44]
  }

  /** Attributes left out when zero rather than when absent. */
  predicate OmitsZero(a: IntAttribute) {
    a == Store || a == Date || a == ActionId
  }

  /** Texts left out when empty rather than when absent. */
  predicate OmitsEmpty(t: TextAttribute) {
    t == Text || t == Writer || t == Description
  }

  predicate Written(env: Env, s: ItemState, tag: uint8) {
    match FieldOf(tag)
    case IntField(a, w, _) =>
      (if OmitsZero(a) then Low(GetInt(s, a), w) != 0 else a in s.ints) && (a == ActionId ==> TypeOf(env, s.id).movable)
    case TextField(t) => if OmitsEmpty(t) then GetText(s, t) != [] else t in s.texts
    case SubTypeField(w) => if w == 1 then Counted(TypeOf(env, s.id)) else Low(GetInt(s, Charges), 2) != 0
    case DurationField => Duration in s.ints
    case DecayField => GetInt(s, DecayState) == DECAYING_TRUE || GetInt(s, DecayState) == DECAYING_PENDING
    case CustomField => s.custom != []
    case _ => false
  }

  function Payload(env: Env, s: ItemState, tag: uint8): bytes {
    match FieldOf(tag)
    case IntField(a, w, _) => Le(Low(Outgoing(env, s, a), w), w)
    case TextField(t) => PutString(GetText(s, t))
    case SubTypeField(w) => Le(Low(if w == 1 then GetSubType(env, s) else GetInt(s, Charges), w), w)
    case DurationField => Le(Low(DurationOf(env, s), 4), 4)
    case DecayField => Le(Low(GetInt(s, DecayState), 1), 1)
    case CustomField => Le(Low(|s.custom|, 8), 8) + PutEntries(s.custom)
    case _ => []
  }

  function Record(env: Env, s: ItemState, tag: uint8): bytes {
    if Written(env, s, tag) then [tag] + Payload(env, s, tag) else []
  }

  function Records(env: Env, s: ItemState, tags: seq<uint8>): bytes {
    if tags == [] then [] else Record(env, s, tags[0]) + Records(env, s, tags[1..])
  }

  /** What `serializeAttr` appends. */
  function Serialize(env: Env, s: ItemState): bytes {
    Records(env, s, Order())
  }

  // Reading.

  datatype ReadValue = Error | Continue(s: ItemState, rest: bytes) | End(s: ItemState, count: nat, rest: bytes)

  /** The text goes in; on a hireling lamp the special text becomes a custom number instead. */
  function ReadText(s: ItemState, t: TextAttribute, v: bytes): ItemState {
    var s1 := SetText(s, t, v);
    if t == Special && s.id == HIRELING_LAMP then HirelingLamp(s1, v) else s1
  }

  function HirelingLamp(s: ItemState, v: bytes): ItemState {
    s.(texts := s.texts - {Special}, custom := AddCustom(s.custom, HIRELING, IntValue(AtoiValue(v))))
  }

  function AtoiValue(v: bytes): int64 {
    Limits();
    Trunc(Atoi(v), 4, true)
  }

  /** The old custom list also dates wrapped store items. */
  function ReadOldEntries(env: Env, size: nat, s: ItemState, b: bytes): (r: Option<(ItemState, bytes)>)
    ensures r.Some? ==> |r.value.1| <= |b|
  {
    if size == 0 then Some((s, b)) else
      match TakeEntries(1, s.custom, b)
      case None => None
      case Some((m, rest)) =>
        var s1 := s.(custom := m);
        var s2 := if Lookup(m, UNWRAP_ID) != None && GetInt(s1, Store) == 0 then SetInt(s1, Store, env.now) else s1;
        ReadOldEntries(env, size - 1, s2, rest)
  }

  /** The effect of a number read from the field. */
  function Receive(env: Env, s: ItemState, field: Field, n: nat): ItemState {
    match field
    case IntField(a, w, signed) => SetInt(s, a, Trunc(n, w, signed))
    case SubTypeField(w) => SetSubType(env, s, Sub16(n))
    case DurationField => SetInt(s, Duration, Max0(Trunc(n, 4, true)))
    case DecayField => if n != DECAYING_FALSE then SetInt(s, DecayState, DECAYING_PENDING) else s
    case _ => s
  }

  function Sub16(n: nat): uint16 {
    n % 0x1_0000
  }

  function NumberWidth(field: Field): nat {
    match field
    case IntField(_, w, _) => w
    case SubTypeField(w) => w
    case DurationField => 4
    case DecayField => 1
    case UniqueField => 2
    case SkipField(n) => n
    case _ => 0
  }

  /** `readAttr`: of a plain item, or of a container, which adds the case that ends the list. */
  function ReadAttr(env: Env, container: bool, s: ItemState, tag: uint8, b: bytes): (r: ReadValue)
    ensures !r.Error? ==> |r.rest| <= |b|
  {
    var field := FieldOf(tag);
    match field
    case TextField(t) =>
      (match TakeString(b) case None => Error case Some((v, rest)) => Continue(ReadText(s, t, v), rest))
    case CustomField =>
      (match TakeInt(b, 8)
       case None => Error
       case Some((size, more)) =>
         match TakeEntries(size, s.custom, more)
         case None => Error
         case Some((m, rest)) => Continue(s.(custom := m), rest))
    case OldCustomField =>
      (match TakeInt(b, 8)
       case None => Error
       case Some((size, more)) =>
         match ReadOldEntries(env, size, s, more)
         case None => Error
         case Some((s1, rest)) => Continue(s1, rest))
    case ContainerField =>
      if !container then Error else
        (match TakeInt(b, 4) case None => Error case Some((n, rest)) => End(s, n, rest))
    case UnknownField => Error
    case _ =>
      (match TakeInt(b, NumberWidth(field))
       case None => Error
       case Some((n, rest)) => Continue(Receive(env, s, field, n), rest))
  }

  datatype Unserialized = Failed | Loaded(s: ItemState, pending: nat, rest: bytes)

  /** `unserializeAttr`: attributes until a zero byte, the end of the data or a container's child count. */
  function Unserialize(env: Env, container: bool, s: ItemState, b: bytes): (r: Unserialized)
    ensures r.Loaded? ==> |r.rest| <= |b|
    decreases |b|
  {
    if b == [] then Loaded(s, 0, b)
    else if b[0] == 0 then Loaded(s, 0, b[1..])
    else
      match ReadAttr(env, container, s, b[0], b[1..])
      case Error => Failed
      case Continue(s1, rest) => Unserialize(env, container, s1, rest)
      case End(s1, n, rest) => Loaded(s1, n, rest)
  }

  // Creation.

  /** Activated rings and boots, and the old diamond arrow, are created as their plain form. */
  function TransformedId(id: uint16): uint16 {
    match id
    case 3094 => 3091
    case 3096 => 3093
    case 3099 => 3097
    case 3100 => 3098
    case 3086 => 3049
    case 3090 => 3053
    case 3549 => 6529
    case 6300 => 6299
    case 16264 => 16114
    case 25757 => 35901
    case _ => id
  }

  /** The `Item` constructor. A fluid count of one is within the clamp. */
  function Construct(env: Env, id: uint16, itemCount: nat): ItemState
    requires itemCount <= 1
  {
    Limits();
    var t := TypeOf(env, id);
    var blank := ItemState(id, 1, map[], map[], []);
    var s :=
      if Liquid(t) then SetInt(blank, FluidType, itemCount)
      else if t.stackable then
        if itemCount != 0 then blank.(count := itemCount)
        else if t.charges != 0 then blank.(count := t.charges % 0x100)
        else blank
      else if t.charges != 0 then SetInt(blank, Charges, if itemCount != 0 then itemCount else t.charges)
      else blank;
    if DefaultDuration(t) == 0 then s else SetInt(s, Duration, Max0(ToSigned(DefaultDuration(t), 4)))
  }

  function DefaultDuration(t: ItemType): (d: nat)
    ensures d < Limit(4)
  {
    Low(t.decayTime * 1000, 4)
  }

  /** `CreateItem` with the default count. */
  function Fresh(env: Env, id: uint16): ItemState {
    var t := TypeOf(env, id);
    if t.group.Container? then Construct(env, id, 0)
    else Construct(env, TransformedId(id), if t.stackable then 1 else 0)
  }
}

/** The same as the server runs it: an item read in place from a `PropStream`, and written to a `PropWriteStream`. */
module ItemStore {
  import opened Bytes
  import opened Options
  import opened PropStreams
  import opened ItemAttributes
  import opened ItemFormat
  import opened ItemSurvival
  import opened ItemTrees

  datatype AttrReadValue = ATTR_READ_CONTINUE | ATTR_READ_ERROR | ATTR_READ_END

  /** `Item`, and `Container` where `isContainer` is set. What is inside is held by value. */
  class Item {
    const env: Env
    const isContainer: bool
    const id: uint16
    var count: uint8
    var ints: map<IntAttribute, int>
    var texts: map<TextAttribute, bytes>
    var custom: CustomMap
    var serializationCount: nat
    var itemlist: seq<ItemTree>

    function State(): ItemState
      reads this
    {
      ItemState(id, count, ints, texts, custom)
    }

    /** `Item::CreateItem` for a registered type. */
    constructor (env: Env, typeId: uint16)
      ensures this.env == env && isContainer == IsContainer(env, typeId)
      ensures State() == Fresh(env, typeId) && serializationCount == 0 && itemlist == []
    {
      var s := Fresh(env, typeId);
      this.env, isContainer := env, IsContainer(env, typeId);
      id, count, ints, texts, custom := s.id, s.count, s.ints, s.texts, s.custom;
      serializationCount, itemlist := 0, [];
    }

    method SetAttribute(a: IntAttribute, v: int)
      modifies this`ints
      ensures State() == SetInt(old(State()), a, v)
    {
      ints := ints[a := v];
    }

    method SetStringAttribute(t: TextAttribute, v: bytes)
      modifies this`texts
      ensures State() == SetText(old(State()), t, v)
    {
      if v == [] {
        return;
      }
      texts := texts[t := v];
    }

    method SetSubTypeOf(n: uint16)
      modifies this`ints, this`count
      ensures State() == SetSubType(env, old(State()), n)
    {
      var it := TypeOf(env, id);
      if Liquid(it) {
        SetAttribute(FluidType, n);
      } else if it.stackable {
        count := n % 0x100;
      } else if it.charges != 0 {
        SetAttribute(Charges, n);
      } else {
        count := n % 0x100;
      }
    }

    method ReadCustomEntries(size: nat, stream: PropStream) returns (ok: bool)
      requires stream.Valid()
      modifies this`custom, stream
      ensures stream.Valid()
      ensures match TakeEntries(size, old(custom), old(stream.Rest()))
              case None => !ok
              case Some((m, rest)) => ok && custom == m && stream.Rest() == rest
    {
      hide TakeString, TakeCustomValue, AddCustom;
      var i := 0;
      while i < size
        invariant 0 <= i <= size && stream.Valid()
        invariant TakeEntries(size - i, custom, stream.Rest()) == TakeEntries(size, old(custom), old(stream.Rest()))
      {
        var key;
        ok, key := stream.ReadString();
        if !ok {
          return;
        }
        var v;
        ok, v := ReadCustomValue(stream);
        if !ok {
          return;
        }
        custom := AddCustom(custom, key, v);
        i := i + 1;
      }
      ok := true;
    }

    method ReadOldCustomEntries(size: nat, stream: PropStream) returns (ok: bool)
      requires stream.Valid()
      modifies this`custom, this`ints, stream
      ensures stream.Valid()
      ensures match ReadOldEntries(env, size, old(State()), old(stream.Rest()))
              case None => !ok
              case Some((s, rest)) => ok && State() == s && stream.Rest() == rest
    {
      hide TakeEntries, Lookup;
      var i := 0;
      while i < size
        invariant 0 <= i <= size && stream.Valid()
        invariant ReadOldEntries(env, size - i, State(), stream.Rest())
               == ReadOldEntries(env, size, old(State()), old(stream.Rest()))
      {
        ok := ReadCustomEntries(1, stream);
        if !ok {
          return;
        }
        if Lookup(custom, UNWRAP_ID) != None && GetInt(State(), Store) == 0 {
          SetAttribute(Store, env.now);
        }
        i := i + 1;
      }
      ok := true;
    }

    method ReadText(t: TextAttribute, v: bytes)
      modifies this`texts, this`custom
      ensures State() == ItemFormat.ReadText(old(State()), t, v)
    {
      SetStringAttribute(t, v);
      if t == Special && id == HIRELING_LAMP {
        texts := texts - {Special};
        custom := AddCustom(custom, HIRELING, IntValue(AtoiValue(v)));
      }
    }

    /** One case of the switch for each way an attribute is laid out. */
    method ReadAttr(tag: uint8, stream: PropStream) returns (r: AttrReadValue)
      requires stream.Valid()
      modifies this`count, this`ints, this`texts, this`custom, this`serializationCount, stream
      ensures stream.Valid()
      ensures match ItemFormat.ReadAttr(env, isContainer, old(State()), tag, old(stream.Rest()))
              case Error => r == ATTR_READ_ERROR
              case Continue(s, rest) =>
                && r == ATTR_READ_CONTINUE && State() == s
                && stream.Rest() == rest && serializationCount == old(serializationCount)
              case End(s, n, rest) =>
                r == ATTR_READ_END && State() == s && stream.Rest() == rest && serializationCount == n
    {
      hide TakeInt, TakeString, TakeEntries, ReadOldEntries, SetSubType, ItemFormat.ReadText, FieldOf, Trunc, Lookup;
      var ok, n, v;
      var field := FieldOf(tag);
      match field {
        case UnknownField =>
          return ATTR_READ_ERROR;
        case TextField(t) =>
          ok, v := stream.ReadString();
          if !ok {
            return ATTR_READ_ERROR;
          }
          ReadText(t, v);
        case CustomField =>
          ok, n := stream.Read(8);
          if !ok {
            return ATTR_READ_ERROR;
          }
          ok := ReadCustomEntries(n, stream);
          if !ok {
            return ATTR_READ_ERROR;
          }
        case OldCustomField =>
          ok, n := stream.Read(8);
          if !ok {
            return ATTR_READ_ERROR;
          }
          ok := ReadOldCustomEntries(n, stream);
          if !ok {
            return ATTR_READ_ERROR;
          }
        case ContainerField =>
          if !isContainer {
            return ATTR_READ_ERROR;
          }
          ok, n := stream.Read(4);
          if !ok {
            return ATTR_READ_ERROR;
          }
          serializationCount := n;
          return ATTR_READ_END;
        case SkipField(width) =>
          SkipIsRead(stream.Rest(), width);
          ok := stream.Skip(width);
          if !ok {
            return ATTR_READ_ERROR;
          }
        case _ =>
          ok, n := stream.Read(NumberWidth(field));
          if !ok {
            return ATTR_READ_ERROR;
          }
          ReceiveNumber(field, n);
      }
      r := ATTR_READ_CONTINUE;
    }

    method ReceiveNumber(field: Field, n: nat)
      modifies this`count, this`ints
      ensures State() == Receive(env, old(State()), field, n)
    {
      match field {
        case IntField(a, w, signed) =>
          SetAttribute(a, Trunc(n, w, signed));
        case SubTypeField(_) =>
          SetSubTypeOf(Sub16(n));
        case DurationField =>
          SetAttribute(Duration, Max0(Trunc(n, 4, true)));
        case DecayField =>
          if n != DECAYING_FALSE {
            SetAttribute(DecayState, DECAYING_PENDING);
          }
        case _ =>
      }
    }

    method UnserializeAttr(stream: PropStream) returns (ok: bool)
      requires stream.Valid() && serializationCount == 0
      modifies this`count, this`ints, this`texts, this`custom, this`serializationCount, stream
      ensures stream.Valid()
      ensures match Unserialize(env, isContainer, old(State()), old(stream.Rest()))
              case Failed => !ok
              case Loaded(s, n, rest) => ok && State() == s && stream.Rest() == rest && serializationCount == n
    {
      hide ItemFormat.ReadAttr, TakeInt, FieldOf;
      while true
        invariant stream.Valid() && serializationCount == 0
        invariant Unserialize(env, isContainer, State(), stream.Rest())
               == Unserialize(env, isContainer, old(State()), old(stream.Rest()))
        decreases |stream.Rest()|
      {
        ghost var b := stream.Rest();
        NextByte(b);
        var more, tag := stream.Read(1);
        if !more || tag == 0 {
          return true;
        }
        var r := ReadAttr(tag, stream);
        if r == ATTR_READ_ERROR {
          return false;
        } else if r == ATTR_READ_END {
          return true;
        }
      }
    }
  }

  lemma SkipIsRead(b: bytes, n: nat)
    ensures TakeBytes(b, n).None? <==> TakeInt(b, n).None?
    ensures TakeInt(b, n).Some? ==> TakeBytes(b, n).value.1 == TakeInt(b, n).value.1
  {
  }

  lemma NextByte(b: bytes)
    ensures TakeInt(b, 1) == if b == [] then None else Some((b[0] as nat, b[1..]))
  {
    if b != [] {
      assert b == [b[0]] + b[1..];
      OneByte(b[0], b[1..]);
    }
  }

  method ReadCustomValue(stream: PropStream) returns (ok: bool, v: CustomValue)
    requires stream.Valid()
    modifies stream
    ensures stream.Valid()
    ensures match TakeCustomValue(old(stream.Rest()))
            case None => !ok
            case Some((u, rest)) => ok && v == u && stream.Rest() == rest
  {
    hide TakeInt, TakeString;
    Limits();
    NextByte(stream.Rest());
    v := BoolValue(false);
    var kind, n, s;
    ok, kind := stream.Read(1);
    if !ok {
      return;
    }
    if kind == 1 {
      ok, s := stream.ReadString();
      v := TextValue(s);
    } else if kind == 2 {
      ok, n := stream.Read(8);
      if ok {
        v := IntValue(ToSigned(n, 8));
      }
    } else if kind == 3 {
      ok, n := stream.Read(8);
      if ok {
        v := DoubleValue(n);
      }
    } else if kind == 4 {
      ok, n := stream.Read(1);
      v := BoolValue(n != 0);
    } else {
      ok := false;
    }
  }

  /** `loadItem` on a container: the item is complete when it is handed to its parent. */
  method LoadItemFrom(env: Env, stream: PropStream) returns (ok: bool, item: Option<ItemTree>)
    requires stream.Valid()
    modifies stream
    ensures stream.Valid()
    ensures match LoadItem(env, old(stream.Rest()))
            case None => !ok
            case Some((t, rest)) => ok && item == t && stream.Rest() == rest
    decreases |stream.Rest()|, 0
  {
    hide TakeInt, Unserialize, Fresh, TypeOf, LoadContainer;
    Limits();
    item := None;
    var n;
    ok, n := stream.Read(2);
    if !ok {
      return;
    }
    var id: uint16 := n;
    if !TypeOf(env, id).registered {
      return;
    }
    var it := new Item(env, id);
    ok := it.UnserializeAttr(stream);
    if !ok {
      return;
    }
    if it.isContainer {
      ok := LoadContainerFrom(env, stream, it);
      if !ok {
        return;
      }
      item := Some(ItemTree(it.State(), it.itemlist));
    } else {
      item := Some(ItemTree(it.State(), []));
    }
  }

  method LoadContainerFrom(env: Env, stream: PropStream, container: Item) returns (ok: bool)
    requires stream.Valid()
    modifies stream, container`serializationCount, container`itemlist
    ensures stream.Valid()
    ensures match LoadContainer(env, old(container.serializationCount), old(container.itemlist), old(stream.Rest()))
            case None => !ok
            case Some((children, rest)) => ok && container.itemlist == children && stream.Rest() == rest
    decreases |stream.Rest()|, container.serializationCount + 1
  {
    hide LoadItem, TakeInt;
    while container.serializationCount > 0
      invariant stream.Valid() && |stream.Rest()| <= old(|stream.Rest()|)
      invariant LoadContainer(env, container.serializationCount, container.itemlist, stream.Rest())
             == LoadContainer(env, old(container.serializationCount), old(container.itemlist), old(stream.Rest()))
      decreases container.serializationCount
    {
      var item;
      ok, item := LoadItemFrom(env, stream);
      if !ok {
        return;
      }
      if item.Some? {
        container.itemlist := [item.value] + container.itemlist;
      }
      container.serializationCount := container.serializationCount - 1;
    }
    NextByte(stream.Rest());
    var endAttr;
    ok, endAttr := stream.Read(1);
    ok := ok && endAttr == 0;
  }

  // Writing. `at` counts the attributes already visited.

  ghost predicate At(i: nat, tag: uint8) {
    tag != 0 && i < |Order()| && Order()[i] == tag
  }

  /** The buffer and what is still to come make up the whole. */
  ghost predicate Writing(env: Env, s: ItemState, buffer: bytes, at: nat, whole: bytes) {
    at <= |Order()| && buffer + Records(env, s, Order()[at..]) == whole
  }

  lemma Advance(env: Env, s: ItemState, before: bytes, after: bytes, at: nat, tag: uint8, whole: bytes)
    requires At(at, tag) && Writing(env, s, before, at, whole) && after == before + Record(env, s, tag)
    ensures Writing(env, s, after, at + 1, whole)
  {
    hide Order, Record;
    assert Order()[at..][0] == Order()[at] && Order()[at..][1..] == Order()[at + 1..];
  }

  lemma OrderTable0()
    ensures At(0, TagOf(Store)) && At(1, 15) && At(2, 22)
    ensures At(3, TagOf(ActionId)) && At(4, TextTagOf(Text))
  {
  }

  lemma OrderTable1()
    ensures At(5, TagOf(Date)) && At(6, TextTagOf(Writer)) && At(7, TextTagOf(Description))
    ensures At(8, 16) && At(9, 17)
  {
  }

  lemma OrderTable2()
    ensures At(10, TextTagOf(Name)) && At(11, TextTagOf(Article)) && At(12, TextTagOf(PluralName))
    ensures At(13, TagOf(Weight)) && At(14, TagOf(Attack))
  {
  }

  lemma OrderTable3()
    ensures At(15, TagOf(Defense)) && At(16, TagOf(ExtraDefense)) && At(17, TagOf(Mantra))
    ensures At(18, TagOf(ImbuementSlot)) && At(19, TagOf(OpenContainer))
  {
  }

  lemma OrderTable4()
    ensures At(20, TagOf(Armor)) && At(21, TagOf(HitChance)) && At(22, TagOf(ShootRange))
    ensures At(23, TextTagOf(Special)) && At(24, TagOf(QuickLootContainer))
  {
  }

  lemma OrderTable5()
    ensures At(25, TagOf(Tier)) && At(26, TagOf(Amount)) && At(27, TextTagOf(StoreInboxCategory))
    ensures At(28, TagOf(Owner)) && At(29, 41) && At(30, TagOf(ObtainContainer))
    ensures |Order()| == 31
  {
  }

  lemma TagFits(a: IntAttribute, at: nat)
    requires At(at, TagOf(a)) && a != Duration && a != DecayState
    ensures FieldOf(TagOf(a)).IntField? && FieldOf(TagOf(a)).a == a
  {
    hide FieldOf, TagOf, Order;
    IntTable(TagOf(a), a);
  }

  lemma TextTagFits(t: TextAttribute, at: nat)
    requires At(at, TextTagOf(t))
    ensures FieldOf(TextTagOf(t)) == TextField(t)
  {
    hide FieldOf, TextTagOf, Order;
    TextTable(TextTagOf(t), t);
  }

  method WriteInt(env: Env, s: ItemState, out: PropWriteStream, a: IntAttribute, ghost at: nat, ghost whole: bytes)
    requires At(at, TagOf(a)) && a != Duration && a != DecayState
    requires Writing(env, s, out.buffer, at, whole)
    modifies out
    ensures Writing(env, s, out.buffer, at + 1, whole)
  {
    hide Le, Low, FieldOf, TierOf, TagOf, Writing, At, Records;
    ghost var before := out.buffer;
    TagFits(a, at);
    var w := FieldOf(TagOf(a)).width;
    var present := if OmitsZero(a) then Low(GetInt(s, a), w) != 0 else a in s.ints;
    if present && (a == ActionId ==> TypeOf(env, s.id).movable) {
      WriteTag(TagOf(a), out);
      out.Write(Low(Outgoing(env, s, a), w), w);
    }
    Advance(env, s, before, out.buffer, at, TagOf(a), whole);
  }

  method WriteTag(tag: uint8, out: PropWriteStream)
    modifies out
    ensures out.buffer == old(out.buffer) + [tag]
  {
    OneByte(tag, []);
    out.Write(tag, 1);
  }

  method WriteText(env: Env, s: ItemState, out: PropWriteStream, t: TextAttribute, ghost at: nat, ghost whole: bytes)
    requires At(at, TextTagOf(t))
    requires Writing(env, s, out.buffer, at, whole)
    modifies out
    ensures Writing(env, s, out.buffer, at + 1, whole)
  {
    hide PutString, FieldOf, TextTagOf, Writing, At, Records;
    ghost var before := out.buffer;
    TextTagFits(t, at);
    if if OmitsEmpty(t) then GetText(s, t) != [] else t in s.texts {
      WriteTag(TextTagOf(t), out);
      out.WriteString(GetText(s, t));
    }
    Advance(env, s, before, out.buffer, at, TextTagOf(t), whole);
  }

  method WriteCount(env: Env, s: ItemState, out: PropWriteStream, ghost at: nat, ghost whole: bytes)
    requires At(at, 15) && Writing(env, s, out.buffer, at, whole)
    modifies out
    ensures Writing(env, s, out.buffer, at + 1, whole)
  {
    hide Le, Low, GetSubType, Writing, At, Records;
    ghost var before := out.buffer;
    assert FieldOf(15) == SubTypeField(1);
    if Counted(TypeOf(env, s.id)) {
      WriteTag(ATTR_COUNT, out);
      out.Write(Low(GetSubType(env, s), 1), 1);
    }
    Advance(env, s, before, out.buffer, at, ATTR_COUNT, whole);
  }

  method WriteCharges(env: Env, s: ItemState, out: PropWriteStream, ghost at: nat, ghost whole: bytes)
    requires At(at, 22) && Writing(env, s, out.buffer, at, whole)
    modifies out
    ensures Writing(env, s, out.buffer, at + 1, whole)
  {
    hide Le, Low, Writing, At, Records;
    ghost var before := out.buffer;
    assert FieldOf(22) == SubTypeField(2);
    if Low(GetInt(s, Charges), 2) != 0 {
      WriteTag(ATTR_CHARGES, out);
      out.Write(Low(GetInt(s, Charges), 2), 2);
    }
    Advance(env, s, before, out.buffer, at, ATTR_CHARGES, whole);
  }

  method WriteDuration(env: Env, s: ItemState, out: PropWriteStream, ghost at: nat, ghost whole: bytes)
    requires At(at, 16) && Writing(env, s, out.buffer, at, whole)
    modifies out
    ensures Writing(env, s, out.buffer, at + 1, whole)
  {
    hide Le, Low, DurationOf, Writing, At, Records;
    ghost var before := out.buffer;
    assert FieldOf(16) == DurationField;
    if Duration in s.ints {
      WriteTag(16, out);
      out.Write(Low(DurationOf(env, s), 4), 4);
    }
    Advance(env, s, before, out.buffer, at, 16, whole);
  }

  method WriteDecay(env: Env, s: ItemState, out: PropWriteStream, ghost at: nat, ghost whole: bytes)
    requires At(at, 17) && Writing(env, s, out.buffer, at, whole)
    modifies out
    ensures Writing(env, s, out.buffer, at + 1, whole)
  {
    hide Le, Low, Writing, At, Records;
    ghost var before := out.buffer;
    assert FieldOf(17) == DecayField;
    var state := GetInt(s, DecayState);
    if state == DECAYING_TRUE || state == DECAYING_PENDING {
      WriteTag(17, out);
      out.Write(Low(state, 1), 1);
    }
    Advance(env, s, before, out.buffer, at, 17, whole);
  }

  method WriteCustom(env: Env, s: ItemState, out: PropWriteStream, ghost at: nat, ghost whole: bytes)
    requires At(at, 41) && Writing(env, s, out.buffer, at, whole)
    modifies out
    ensures Writing(env, s, out.buffer, at + 1, whole)
  {
    hide Le, Low, PutEntries, Writing, At, Records;
    ghost var before := out.buffer;
    assert FieldOf(41) == CustomField;
    if s.custom != [] {
      WriteTag(ATTR_CUSTOM, out);
      out.Write(Low(|s.custom|, 8), 8);
      WriteEntries(s.custom, out);
    }
    Advance(env, s, before, out.buffer, at, ATTR_CUSTOM, whole);
  }

  method WriteEntries(m: CustomMap, out: PropWriteStream)
    modifies out
    ensures out.buffer == old(out.buffer) + PutEntries(m)
  {
    hide Le, PutString, PutCustomValue;
    ghost var whole := out.buffer + PutEntries(m);
    assert m[0..] == m;
    for i := 0 to |m|
      invariant out.buffer + PutEntries(m[i..]) == whole
    {
      var (key, v) := m[i];
      assert m[i..][0] == (key, v) && m[i..][1..] == m[i + 1..];
      out.WriteString(key);
      WriteCustomValue(v, out);
    }
    assert m[|m|..] == [];
  }

  method WriteCustomValue(v: CustomValue, out: PropWriteStream)
    modifies out
    ensures out.buffer == old(out.buffer) + PutCustomValue(v)
  {
    hide Le, PutString;
    Limits();
    match v
    case TextValue(t) =>
      WriteTag(1, out);
      out.WriteString(t);
    case IntValue(n) =>
      WriteTag(2, out);
      out.Write(ToUnsigned(n, 8), 8);
    case DoubleValue(bits) =>
      WriteTag(3, out);
      out.Write(bits, 8);
    case BoolValue(on) =>
      WriteTag(4, out);
      WriteTag(if on then 1 else 0, out);
  }

  /** `serializeAttr`: the attributes one after another. */
  method SerializeAttr(env: Env, s: ItemState, out: PropWriteStream)
    modifies out
    ensures out.buffer == old(out.buffer) + Serialize(env, s)
  {
    hide Writing, At, Serialize, Records, FieldOf, Order, TagOf, TextTagOf;
    OrderTable0();
    OrderTable1();
    OrderTable2();
    OrderTable3();
    OrderTable4();
    OrderTable5();
    ghost var whole := out.buffer + Serialize(env, s);
    Starting(env, s, out.buffer, whole);
    WriteInt(env, s, out, Store, 0, whole);
    WriteCount(env, s, out, 1, whole);
    WriteCharges(env, s, out, 2, whole);
    WriteInt(env, s, out, ActionId, 3, whole);
    WriteText(env, s, out, Text, 4, whole);
    WriteInt(env, s, out, Date, 5, whole);
    WriteText(env, s, out, Writer, 6, whole);
    WriteText(env, s, out, Description, 7, whole);
    WriteDuration(env, s, out, 8, whole);
    WriteDecay(env, s, out, 9, whole);
    WriteText(env, s, out, Name, 10, whole);
    WriteText(env, s, out, Article, 11, whole);
    WriteText(env, s, out, PluralName, 12, whole);
    WriteInt(env, s, out, Weight, 13, whole);
    WriteInt(env, s, out, Attack, 14, whole);
    WriteInt(env, s, out, Defense, 15, whole);
    WriteInt(env, s, out, ExtraDefense, 16, whole);
    WriteInt(env, s, out, Mantra, 17, whole);
    WriteInt(env, s, out, ImbuementSlot, 18, whole);
    WriteInt(env, s, out, OpenContainer, 19, whole);
    WriteInt(env, s, out, Armor, 20, whole);
    WriteInt(env, s, out, HitChance, 21, whole);
    WriteInt(env, s, out, ShootRange, 22, whole);
    WriteText(env, s, out, Special, 23, whole);
    WriteInt(env, s, out, QuickLootContainer, 24, whole);
    WriteInt(env, s, out, Tier, 25, whole);
    WriteInt(env, s, out, Amount, 26, whole);
    WriteText(env, s, out, StoreInboxCategory, 27, whole);
    WriteInt(env, s, out, Owner, 28, whole);
    WriteCustom(env, s, out, 29, whole);
    WriteInt(env, s, out, ObtainContainer, 30, whole);
    Finished(env, s, out.buffer, whole);
  }

  lemma Starting(env: Env, s: ItemState, buffer: bytes, whole: bytes)
    requires whole == buffer + Serialize(env, s)
    ensures Writing(env, s, buffer, 0, whole)
  {
    hide Order;
    assert Order()[0..] == Order();
  }

  lemma Finished(env: Env, s: ItemState, buffer: bytes, whole: bytes)
    requires Writing(env, s, buffer, |Order()|, whole)
    ensures buffer == whole
  {
    hide Order;
    assert Order()[|Order()|..] == [];
    assert buffer + [] == buffer;
  }

  lemma SavedLast(env: Env, children: seq<ItemTree>, i: nat)
    requires i < |children|
    ensures SaveReversed(env, children[..i + 1]) == SaveItem(env, children[i]) + SaveReversed(env, children[..i])
  {
    hide SaveItem;
    assert children[..i + 1][..i] == children[..i];
  }

  method SaveItemTo(env: Env, t: ItemTree, out: PropWriteStream)
    modifies out
    ensures out.buffer == old(out.buffer) + SaveItem(env, t)
    decreases t
  {
    hide Le, Low, Serialize, TypeOf, SaveReversed;
    out.Write(t.own.id, 2);
    SerializeAttr(env, t.own, out);
    if IsContainer(env, t.own.id) {
      WriteTag(ATTR_CONTAINER_ITEMS, out);
      out.Write(Low(|t.children|, 4), 4);
      ghost var whole := out.buffer + SaveReversed(env, t.children);
      var i := |t.children|;
      assert t.children[..i] == t.children;
      while i > 0
        invariant 0 <= i <= |t.children|
        invariant out.buffer + SaveReversed(env, t.children[..i]) == whole
      {
        i := i - 1;
        SavedLast(env, t.children, i);
        SaveItemTo(env, t.children[i], out);
      }
      SavedNone(env, t.children);
      assert out.buffer == whole;
    }
    WriteTag(0x00, out);
  }

  lemma SavedNone(env: Env, children: seq<ItemTree>)
    ensures SaveReversed(env, children[..0]) == []
  {
  }
}

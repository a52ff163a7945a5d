/** What an item carries: its numbered attributes and the ordered map of custom attributes. */
module ItemAttributes {
  import opened Bytes
  import opened Options
  import opened PropStreams

  datatype IntAttribute =
    | Store | ActionId | UniqueId | Date | Weight | Attack | Mantra | Defense | ExtraDefense | Armor | HitChance
    | ShootRange | Owner | Duration | DecayState | CorpseOwner | Charges | FluidType | DoorId | ImbuementSlot
    | OpenContainer | QuickLootContainer | ObtainContainer | DurationTimestamp | Tier | Amount

  datatype TextAttribute =
    | Description | Text | Writer | Name | Article | PluralName | Special | LootMessageSuffix | StoreInboxCategory

  /** A double is its eight bytes. */
  datatype CustomValue =
    | TextValue(text: bytes)
    | IntValue(value: int64)
    | DoubleValue(bits: uint64)
    | BoolValue(on: bool)

  /** `std::map`: the entries in key order. */
  type CustomMap = seq<(bytes, CustomValue)>

  /** The order of `std::string`: bytewise, a prefix first. */
  predicate Less(a: bytes, b: bytes) {
    b != [] && (a == [] || a[0] < b[0] || (a[0] == b[0] && Less(a[1..], b[1..])))
  }

  lemma {:induction false} LessIsStrict(a: bytes, b: bytes)
    requires Less(a, b)
    ensures !Less(b, a) && a != b
  {
    if a != [] && a[0] == b[0] {
      LessIsStrict(a[1..], b[1..]);
    }
  }

  lemma {:induction false} LessTransitive(a: bytes, b: bytes, c: bytes)
    requires Less(a, b) && Less(b, c)
    ensures Less(a, c)
  {
    if a != [] && a[0] == b[0] == c[0] {
      LessTransitive(a[1..], b[1..], c[1..]);
    }
  }

  lemma {:induction false} LessTotal(a: bytes, b: bytes)
    ensures Less(a, b) || a == b || Less(b, a)
  {
    if a != [] && b != [] && a[0] == b[0] {
      LessTotal(a[1..], b[1..]);
      assert a == [a[0]] + a[1..] && b == [b[0]] + b[1..];
    }
  }

  predicate Sorted(m: CustomMap) {
    forall i, j | 0 <= i < j < |m| :: Less(m[i].0, m[j].0)
  }

  function LowerByte(c: uint8): uint8 {
    if 65 <= c <= 90 then c + 32 else c
  }

  function LowerCase(key: bytes): (k: bytes)
    ensures |k| == |key|
  {
    if key == [] then [] else [LowerByte(key[0])] + LowerCase(key[1..])
  }

  predicate IsLowerCase(key: bytes) {
    LowerCase(key) == key
  }

  lemma {:induction false} LowerCaseTwice(key: bytes)
    ensures IsLowerCase(LowerCase(key))
  {
    if key != [] {
      LowerCaseTwice(key[1..]);
      assert LowerCase(key)[1..] == LowerCase(key[1..]);
    }
  }

  /** The class invariant of the custom attribute map. */
  predicate ValidCustom(m: CustomMap) {
    Sorted(m) && forall i | 0 <= i < |m| :: IsLowerCase(m[i].0)
  }

  function Insert(m: CustomMap, key: bytes, v: CustomValue): CustomMap {
    if m == [] then [(key, v)]
    else if m[0].0 == key then [(key, v)] + m[1..]
    else if Less(key, m[0].0) then [(key, v)] + m
    else [m[0]] + Insert(m[1..], key, v)
  }

  function Lookup(m: CustomMap, key: bytes): Option<CustomValue> {
    if m == [] then None else if m[0].0 == key then Some(m[0].1) else Lookup(m[1..], key)
  }

  function AddCustom(m: CustomMap, key: bytes, v: CustomValue): CustomMap {
    Insert(m, LowerCase(key), v)
  }

  lemma {:induction false} InsertKeys(m: CustomMap, key: bytes, v: CustomValue)
    ensures forall e | e in Insert(m, key, v) :: e == (key, v) || e in m
  {
    if m != [] && m[0].0 != key && !Less(key, m[0].0) {
      InsertKeys(m[1..], key, v);
    }
  }

  lemma {:induction false} InsertValid(m: CustomMap, key: bytes, v: CustomValue)
    requires Sorted(m)
    ensures Sorted(Insert(m, key, v))
  {
    if m == [] || m[0].0 == key {
    } else if Less(key, m[0].0) {
      forall j | 0 < j < |m| ensures Less(key, m[j].0) {
        LessTransitive(key, m[0].0, m[j].0);
      }
    } else {
      LessTotal(key, m[0].0);
      InsertValid(m[1..], key, v);
      InsertKeys(m[1..], key, v);
      var n := Insert(m[1..], key, v);
      forall j | 0 <= j < |n| ensures Less(m[0].0, n[j].0) {
        assert n[j] in n;
      }
    }
  }

  /** Setting a custom attribute keeps the map in order with lower-case keys, and only that key changes. */
  lemma AddCustomValid(m: CustomMap, key: bytes, v: CustomValue)
    requires ValidCustom(m)
    ensures ValidCustom(AddCustom(m, key, v))
    ensures Lookup(AddCustom(m, key, v), LowerCase(key)) == Some(v)
    ensures forall k | k != LowerCase(key) :: Lookup(AddCustom(m, key, v), k) == Lookup(m, k)
  {
    LowerCaseTwice(key);
    InsertValid(m, LowerCase(key), v);
    InsertKeys(m, LowerCase(key), v);
    InsertLookup(m, LowerCase(key), v);
    var n := AddCustom(m, key, v);
    forall i | 0 <= i < |n| ensures IsLowerCase(n[i].0) {
      assert n[i] in n;
    }
  }

  lemma {:induction false} InsertLookup(m: CustomMap, key: bytes, v: CustomValue)
    ensures Lookup(Insert(m, key, v), key) == Some(v)
    ensures forall k | k != key :: Lookup(Insert(m, key, v), k) == Lookup(m, k)
  {
    if m == [] {
    } else if m[0].0 == key || Less(key, m[0].0) {
      assert Insert(m, key, v)[1..] == m[1..] || Insert(m, key, v)[1..] == m;
    } else {
      InsertLookup(m[1..], key, v);
      assert Insert(m, key, v)[1..] == Insert(m[1..], key, v);
    }
  }

  lemma {:induction false} InsertLast(m: CustomMap, key: bytes, v: CustomValue)
    requires forall e | e in m :: Less(e.0, key)
    ensures Insert(m, key, v) == m + [(key, v)]
  {
    if m != [] {
      assert m[0] in m;
      LessIsStrict(m[0].0, key);
      InsertLast(m[1..], key, v);
    }
  }

  /** Adding a list of entries one after another. */
  function AddAll(m: CustomMap, entries: CustomMap): CustomMap
    decreases |entries|
  {
    if entries == [] then m else AddAll(AddCustom(m, entries[0].0, entries[0].1), entries[1..])
  }

  lemma {:induction false} AddAllInOrder(m: CustomMap, entries: CustomMap)
    requires ValidCustom(m + entries)
    ensures AddAll(m, entries) == m + entries
    decreases |entries|
  {
    if entries == [] {
    } else {
      var (key, v) := entries[0];
      assert (m + entries)[|m|] == entries[0];
      forall e | e in m ensures Less(e.0, key) {
        var i :| 0 <= i < |m| && m[i] == e;
        assert (m + entries)[i] == e;
      }
      InsertLast(m, key, v);
      assert (m + [(key, v)]) + entries[1..] == m + entries;
      AddAllInOrder(m + [(key, v)], entries[1..]);
    }
  }

  predicate FitsString(s: bytes) {
    |s| <= MAX_STRING
  }

  predicate FitsEntry(e: (bytes, CustomValue)) {
    FitsString(e.0) && (e.1.TextValue? ==> FitsString(e.1.text))
  }

  predicate FitsCustom(m: CustomMap) {
    forall e | e in m :: FitsEntry(e)
  }

  /** A string as it comes back from `writeString`. */
  function Stored(s: bytes): (t: bytes)
    ensures FitsString(t) && (t == s <==> FitsString(s))
  {
    if FitsString(s) then s else []
  }

  function StoredEntry(e: (bytes, CustomValue)): (r: (bytes, CustomValue))
    ensures FitsEntry(r) && (r == e <==> FitsEntry(e))
  {
    (Stored(e.0), if e.1.TextValue? then TextValue(Stored(e.1.text)) else e.1)
  }

  function StoredAll(m: CustomMap): (r: CustomMap)
    ensures |r| == |m|
    ensures FitsCustom(r)
  {
    if m == [] then [] else [StoredEntry(m[0])] + StoredAll(m[1..])
  }

  lemma {:induction false} AddAllFits(m: CustomMap, entries: CustomMap)
    requires FitsCustom(m) && FitsCustom(entries)
    ensures FitsCustom(AddAll(m, entries))
    decreases |entries|
  {
    if entries != [] {
      assert FitsEntry(entries[0]);
      InsertKeys(m, LowerCase(entries[0].0), entries[0].1);
      AddAllFits(AddCustom(m, entries[0].0, entries[0].1), entries[1..]);
    }
  }

  lemma {:induction false} StoredAllFits(m: CustomMap)
    requires FitsCustom(m)
    ensures StoredAll(m) == m
  {
    if m != [] {
      assert FitsEntry(m[0]);
      StoredAllFits(m[1..]);
    }
  }

  /** The custom map comes back exactly when every key and text fits the length field. */
  lemma CustomSurvives(m: CustomMap)
    requires ValidCustom(m)
    ensures AddAll([], StoredAll(m)) == m <==> FitsCustom(m)
  {
    if FitsCustom(m) {
      StoredAllFits(m);
      assert [] + m == m;
      AddAllInOrder([], m);
    } else {
      AddAllFits([], StoredAll(m));
    }
  }

  // The bytes of one custom attribute.

  function PutCustomValue(v: CustomValue): bytes {
    match v
    case TextValue(t) => [1] + PutString(t)
    case IntValue(n) => [2] + PutInt64(n)
    case DoubleValue(bits) => [3] + Le(bits, 8)
    case BoolValue(on) => [4] + [if on then 1 else 0]
  }

  function PutInt64(n: int64): bytes {
    Limits();
    Le(ToUnsigned(n, 8), 8)
  }

  function TakeCustomValue(b: bytes): (r: Option<(CustomValue, bytes)>)
    ensures r.Some? ==> |r.value.1| < |b|
  {
    Limits();
    if b == [] then None
    else if b[0] == 1 then
      match TakeString(b[1..]) { case None => None case Some((s, rest)) => Some((TextValue(s), rest)) }
    else if b[0] == 2 then
      match TakeInt(b[1..], 8) { case None => None case Some((n, rest)) => Some((IntValue(ToSigned(n, 8)), rest)) }
    else if b[0] == 3 then
      match TakeInt(b[1..], 8) { case None => None case Some((n, rest)) => Some((DoubleValue(n), rest)) }
    else if b[0] == 4 then
      match TakeInt(b[1..], 1) { case None => None case Some((n, rest)) => Some((BoolValue(n != 0), rest)) }
    else None
  }

  lemma CustomValueRoundTrip(key: bytes, v: CustomValue, rest: bytes)
    ensures TakeCustomValue(PutCustomValue(v) + rest) == Some((StoredEntry((key, v)).1, rest))
  {
    hide Le, FromLe, Limit;
    Limits();
    var b := PutCustomValue(v) + rest;
    match v
    case TextValue(t) =>
      assert b[1..] == PutString(t) + rest;
      TakeStringPut(t, rest);
    case IntValue(n) =>
      assert b[1..] == PutInt64(n) + rest;
      TakeIntPut(ToUnsigned(n, 8), 8, rest);
    case DoubleValue(bits) =>
      assert b[1..] == Le(bits, 8) + rest;
      TakeIntPut(bits, 8, rest);
    case BoolValue(on) =>
      assert b[1..] == [if on then 1 else 0] + rest;
      OneByte(if on then 1 else 0, rest);
  }

  lemma OneByte(n: uint8, rest: bytes)
    ensures Le(n, 1) == [n] && TakeInt([n] + rest, 1) == Some((n as nat, rest))
  {
    Limits();
    assert Le(n, 1) == [n % 0x100] + Le(n / 0x100, 0);
    TakeIntPut(n, 1, rest);
  }

  function PutEntry(e: (bytes, CustomValue)): bytes {
    PutString(e.0) + PutCustomValue(e.1)
  }

  function PutEntries(m: CustomMap): bytes {
    if m == [] then [] else PutEntry(m[0]) + PutEntries(m[1..])
  }

  /** The loop that reads `size` entries into the map. */
  function TakeEntries(size: nat, m: CustomMap, b: bytes): (r: Option<(CustomMap, bytes)>)
    ensures r.Some? ==> |r.value.1| <= |b|
  {
    if size == 0 then Some((m, b)) else
      match TakeString(b)
      case None => None
      case Some((key, more)) =>
        match TakeCustomValue(more)
        case None => None
        case Some((v, rest)) => TakeEntries(size - 1, AddCustom(m, key, v), rest)
  }

  lemma {:induction false} EntriesRoundTrip(entries: CustomMap, m: CustomMap, rest: bytes)
    ensures TakeEntries(|entries|, m, PutEntries(entries) + rest) == Some((AddAll(m, StoredAll(entries)), rest))
    decreases |entries|
  {
    hide TakeString, TakeCustomValue, PutString, PutCustomValue, AddCustom;
    if entries == [] {
      assert PutEntries(entries) + rest == rest;
    } else {
      var (key, v) := entries[0];
      var more := PutEntries(entries[1..]) + rest;
      var (key', v') := StoredEntry((key, v));
      assert PutEntries(entries) + rest == PutString(key) + (PutCustomValue(v) + more);
      TakeStringPut(key, PutCustomValue(v) + more);
      CustomValueRoundTrip(key, v, more);
      EntriesRoundTrip(entries[1..], AddCustom(m, key', v'), rest);
      assert StoredAll(entries)[1..] == StoredAll(entries[1..]);
    }
  }
}

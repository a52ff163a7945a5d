/** Items with what is inside them: `saveItem`, `loadItem` and `loadContainer` as functions, and the round trip. */
module ItemTrees {
  import opened Bytes
  import opened Lists
  import opened Options
  import opened PropStreams
  import opened ItemAttributes
  import opened ItemFormat
  import opened ItemSurvival

  predicate IsContainer(env: Env, id: uint16) {
    TypeOf(env, id).group.Container?
  }

  /** What ends the attributes of a container. */
  function CountField(n: nat): bytes {
    [ATTR_CONTAINER_ITEMS as uint8] + Le(Low(n, 4), 4)
  }

  /** The children, last one first. */
  function SaveReversed(env: Env, children: seq<ItemTree>): bytes
    decreases children, 0
  {
    if children == [] then []
    else SaveItem(env, children[|children| - 1]) + SaveReversed(env, children[..|children| - 1])
  }

  /** What is written behind the id of an item. */
  function SaveBody(env: Env, t: ItemTree): bytes
    decreases t, 1
  {
    Serialize(env, t.own)
    + (if IsContainer(env, t.own.id) then CountField(|t.children|) + SaveReversed(env, t.children) else [])
    + [0]
  }

  function SaveItem(env: Env, t: ItemTree): bytes
    decreases t, 2
  {
    Le(t.own.id, 2) + SaveBody(env, t)
  }

  /** An unregistered id makes no item, and its attributes are left unread. */
  function LoadItem(env: Env, b: bytes): (r: Option<(Option<ItemTree>, bytes)>)
    ensures r.Some? ==> |r.value.1| < |b|
    decreases |b|, 0
  {
    match TakeInt(b, 2)
    case None => None
    case Some((n, rest)) =>
      Limits();
      var id: uint16 := n;
      if !TypeOf(env, id).registered then Some((None, rest)) else
        match Unserialize(env, IsContainer(env, id), Fresh(env, id), rest)
        case Failed => None
        case Loaded(s, pending, more) =>
          if !IsContainer(env, id) then Some((Some(ItemTree(s, [])), more)) else
            match LoadContainer(env, pending, [], more)
            case None => None
            case Some((children, left)) => Some((Some(ItemTree(s, children)), left))
  }

  /** `pending` items are read, each added at the front, then a closing zero. */
  function LoadContainer(env: Env, pending: nat, children: seq<ItemTree>, b: bytes): (r: Option<(seq<ItemTree>, bytes)>)
    ensures r.Some? ==> |r.value.1| < |b|
    decreases |b|, pending + 1
  {
    if pending == 0 then
      if b == [] || b[0] != 0 then None else Some((children, b[1..]))
    else
      match LoadItem(env, b)
      case None => None
      case Some((item, rest)) => LoadContainer(env, pending - 1, AddFront(item, children), rest)
  }

  function AddFront(item: Option<ItemTree>, children: seq<ItemTree>): seq<ItemTree> {
    match item
    case None => children
    case Some(t) => [t] + children
  }

  /** Every item has a type, only containers hold items, and the counts fit their fields. */
  predicate WellFormed(env: Env, t: ItemTree) {
    && TypeOf(env, t.own.id).registered
    && Storable(t.own)
    && |t.children| < 0x1_0000_0000
    && (IsContainer(env, t.own.id) || t.children == [])
    && forall c | c in t.children :: WellFormed(env, c)
  }

  function RestoredTree(env: Env, t: ItemTree): ItemTree
    decreases t, 1
  {
    ItemTree(Restored(env, t.own), RestoredAll(env, t.children))
  }

  function RestoredAll(env: Env, children: seq<ItemTree>): seq<ItemTree>
    decreases children, 0
  {
    seq(|children|, i requires 0 <= i < |children| => RestoredTree(env, children[i]))
  }

  lemma ReadChildCount(n: nat, rest: bytes)
    requires n < 0x1_0000_0000
    ensures TakeInt(Le(Low(n, 4), 4) + rest, 4) == Some((n, rest))
  {
    Limits();
    TruncFits(n, 4, false);
    ReadNumber(n, 4, rest);
  }

  /** The attribute list of a container ends with the child count. */
  lemma EndOfContainer(env: Env, s: ItemState, n: nat, rest: bytes)
    requires n < 0x1_0000_0000
    ensures Unserialize(env, true, s, CountField(n) + rest) == Loaded(s, n, rest)
  {
    hide TakeInt, Le;
    var b := CountField(n) + rest;
    assert b[0] == ATTR_CONTAINER_ITEMS && b[1..] == Le(Low(n, 4), 4) + rest;
    assert FieldOf(ATTR_CONTAINER_ITEMS) == ContainerField;
    ReadChildCount(n, rest);
  }

  lemma ReadId(id: uint16, rest: bytes)
    ensures TakeInt(Le(id, 2) + rest, 2) == Some((id as nat, rest))
  {
    Limits();
    TakeIntPut(id, 2, rest);
  }

  lemma {:induction false} LoadSaved(env: Env, t: ItemTree, rest: bytes)
    requires WellFormed(env, t)
    ensures LoadItem(env, SaveItem(env, t) + rest) == Some((Some(RestoredTree(env, t)), rest))
    decreases t, 1
  {
    hide Le, TakeInt, Serialize, Restored, Fresh, Unserialize, LoadContainer, TypeOf, CountField, Storable;
    var id := t.own.id;
    if IsContainer(env, id) {
      var kids := SaveReversed(env, t.children) + [0] + rest;
      var tail := CountField(|t.children|) + kids;
      assert SaveItem(env, t) + rest == Le(id, 2) + (Serialize(env, t.own) + tail);
      ReadId(id, Serialize(env, t.own) + tail);
      AttributesComeBack(env, true, t.own, tail);
      EndOfContainer(env, Restored(env, t.own), |t.children|, kids);
      LoadAll(env, t.children, [], rest);
      assert RestoredAll(env, t.children) + [] == RestoredAll(env, t.children);
    } else {
      var tail := [0] + rest;
      assert SaveItem(env, t) + rest == Le(id, 2) + (Serialize(env, t.own) + tail);
      ReadId(id, Serialize(env, t.own) + tail);
      AttributesComeBack(env, false, t.own, tail);
      EndOfPlain(env, Restored(env, t.own), rest);
    }
  }

  lemma EndOfPlain(env: Env, s: ItemState, rest: bytes)
    ensures Unserialize(env, false, s, [0] + rest) == Loaded(s, 0, rest)
  {
    assert ([0] + rest)[1..] == rest;
  }

  lemma SavedLast(env: Env, children: seq<ItemTree>, tail: bytes)
    requires children != []
    ensures var n := |children| - 1;
            SaveReversed(env, children) + tail
            == SaveItem(env, children[n]) + (SaveReversed(env, children[..n]) + tail)
  {
    hide SaveItem;
  }

  lemma RestoredLast(env: Env, children: seq<ItemTree>, acc: seq<ItemTree>)
    requires children != []
    ensures var n := |children| - 1;
            RestoredAll(env, children[..n]) + ([RestoredTree(env, children[n])] + acc)
            == RestoredAll(env, children) + acc
  {
    hide RestoredTree;
  }

  lemma NoneSaved(env: Env, acc: seq<ItemTree>, tail: bytes)
    ensures SaveReversed(env, []) + tail == tail && RestoredAll(env, []) + acc == acc
  {
    assert RestoredAll(env, []) == [];
  }

  lemma NextLoaded(env: Env, pending: nat, acc: seq<ItemTree>, b: bytes, item: ItemTree, rest: bytes)
    requires pending > 0 && LoadItem(env, b) == Some((Some(item), rest))
    ensures LoadContainer(env, pending, acc, b) == LoadContainer(env, pending - 1, [item] + acc, rest)
  {
    hide LoadItem;
  }

  /** Saved children are loaded back in order, in front of those already loaded; `more` are still to come. */
  lemma {:induction false} LoadMany(env: Env, children: seq<ItemTree>, more: nat, acc: seq<ItemTree>, tail: bytes)
    requires forall c | c in children :: WellFormed(env, c)
    ensures LoadContainer(env, |children| + more, acc, SaveReversed(env, children) + tail)
         == LoadContainer(env, more, RestoredAll(env, children) + acc, tail)
    decreases children, 0
  {
    hide SaveItem, SaveReversed, LoadItem, LoadContainer, WellFormed, RestoredTree, RestoredAll;
    if children == [] {
      NoneSaved(env, acc, tail);
    } else {
      var last, front := children[|children| - 1], children[..|children| - 1];
      var rest := SaveReversed(env, front) + tail;
      SavedLast(env, children, tail);
      LoadSaved(env, last, rest);
      NextLoaded(env, |children| + more, acc, SaveItem(env, last) + rest, RestoredTree(env, last), rest);
      LoadMany(env, front, more, [RestoredTree(env, last)] + acc, tail);
      RestoredLast(env, children, acc);
    }
  }

  lemma LoadAll(env: Env, children: seq<ItemTree>, acc: seq<ItemTree>, rest: bytes)
    requires forall c | c in children :: WellFormed(env, c)
    ensures LoadContainer(env, |children|, acc, SaveReversed(env, children) + [0] + rest)
         == Some((RestoredAll(env, children) + acc, rest))
    decreases children, 1
  {
    hide SaveReversed, RestoredAll, WellFormed;
    var tail := [0] + rest;
    assert SaveReversed(env, children) + [0] + rest == SaveReversed(env, children) + tail;
    LoadMany(env, children, 0, acc, tail);
    assert tail[1..] == rest;
  }

  predicate CustomInOrder(t: ItemTree) {
    ValidCustom(t.own.custom) && forall c | c in t.children :: CustomInOrder(c)
  }

  predicate TreeSurvives(env: Env, t: ItemTree) {
    Survives(env, t.own) && forall c | c in t.children :: TreeSurvives(env, c)
  }

  lemma {:induction false} TreeComesBackIff(env: Env, t: ItemTree)
    requires CustomInOrder(t)
    ensures RestoredTree(env, t) == t <==> TreeSurvives(env, t)
  {
    hide Restored, Survives, ValidCustom;
    ComesBackIff(env, t.own);
    forall c | c in t.children
      ensures RestoredTree(env, c) == c <==> TreeSurvives(env, c)
    {
      TreeComesBackIff(env, c);
    }
    var r := RestoredAll(env, t.children);
    if forall c | c in t.children :: RestoredTree(env, c) == c {
      forall i | 0 <= i < |t.children|
        ensures r[i] == t.children[i]
      {
        assert t.children[i] in t.children;
      }
      assert r == t.children;
    } else {
      var c :| c in t.children && RestoredTree(env, c) != c;
      var i :| 0 <= i < |t.children| && t.children[i] == c;
      assert r[i] != t.children[i];
    }
  }

  /**
   Saving a tree of items and loading it gives the same tree, children in the same order, and leaves
   the stream just behind it: exactly when every attribute in the tree survives.
   */
  lemma ItemRoundTrip(env: Env, t: ItemTree, rest: bytes)
    requires WellFormed(env, t) && CustomInOrder(t)
    ensures LoadItem(env, SaveItem(env, t) + rest) == Some((Some(t), rest)) <==> TreeSurvives(env, t)
  {
    hide LoadItem, SaveItem, RestoredTree, TreeSurvives, WellFormed, CustomInOrder;
    LoadSaved(env, t, rest);
    TreeComesBackIff(env, t);
  }

  /** What is left of a running or stopping decay when the tree is saved is its duration when it is loaded. */
  lemma SavedWhileDecaying(env: Env, t: ItemTree, rest: bytes, until: int, now: int)
    requires WellFormed(env, t) && Duration in t.own.ints
    requires DecayState in t.own.ints && t.own.ints[DecayState] in {1, 3}
    requires CastTo(if DurationTimestamp in t.own.ints then t.own.ints[DurationTimestamp] else 0, until)
    requires CastTo(env.now, now) && -0x8000_0000 <= until - now < 0x8000_0000
    ensures match LoadItem(env, SaveItem(env, t) + rest)
            case Some((Some(r), left)) =>
              left == rest && LookupInt(r.own, Duration) == Some(if until > now then until - now else 0)
            case _ => false
  {
    hide LoadItem, SaveItem, WellFormed, Restored, LookupInt, CastTo;
    LoadSaved(env, t, rest);
    RunningDuration(env, t.own, until, now);
  }

  /** In every other decay state the duration is saved as it is, negative ones as nothing. */
  lemma SavedAtRest(env: Env, t: ItemTree, rest: bytes, duration: int)
    requires WellFormed(env, t) && Duration in t.own.ints
    requires DecayState in t.own.ints ==> t.own.ints[DecayState] !in {1, 3}
    requires CastTo(t.own.ints[Duration], duration)
    ensures match LoadItem(env, SaveItem(env, t) + rest)
            case Some((Some(r), left)) =>
              left == rest && LookupInt(r.own, Duration) == Some(if duration > 0 then duration else 0)
            case _ => false
  {
    hide LoadItem, SaveItem, WellFormed, Restored, LookupInt, CastTo;
    LoadSaved(env, t, rest);
    RestingDuration(env, t.own, duration);
  }

  /** An item whose type is gone is dropped, and the reader stands on its first attribute, not behind it. */
  lemma UnregisteredIsNotSkipped(env: Env, t: ItemTree, rest: bytes)
    requires !TypeOf(env, t.own.id).registered
    ensures LoadItem(env, SaveItem(env, t) + rest) == Some((None, SaveBody(env, t) + rest))
  {
    hide Le, TakeInt, SaveBody, TypeOf;
    assert SaveItem(env, t) + rest == Le(t.own.id, 2) + (SaveBody(env, t) + rest);
    ReadId(t.own.id, SaveBody(env, t) + rest);
  }

  lemma {:induction false} RecordsStart(env: Env, s: ItemState, tags: seq<uint8>)
    requires 0 !in tags
    ensures Records(env, s, tags) == [] || Records(env, s, tags)[0] != 0
  {
    hide Written, Payload;
    if tags != [] {
      assert tags[0] in tags;
      RecordsStart(env, s, tags[1..]);
    }
  }

  /** Behind the id of a saved item a zero follows only if it has no attributes, and then nothing else follows. */
  lemma BodyNotEmpty(env: Env, t: ItemTree)
    ensures SaveBody(env, t) != []
  {
  }

  lemma ZeroBehindId(env: Env, t: ItemTree)
    ensures SaveBody(env, t)[0] == 0 <==> SaveBody(env, t) == [0]
  {
    hide Records, SaveReversed, TypeOf;
    RecordsStart(env, t.own, Order());
  }

  /**
   The damage goes on in the enclosing container: the siblings loaded before the item come back, and the
   ones still to come are looked for in its attributes.
   */
  lemma UnregisteredInside(env: Env, front: seq<ItemTree>, t: ItemTree, back: seq<ItemTree>, tail: bytes)
    requires !TypeOf(env, t.own.id).registered && forall c | c in back :: WellFormed(env, c)
    ensures LoadContainer(env, |front| + 1 + |back|, [], SaveReversed(env, front + [t] + back) + tail)
         == LoadContainer(env, |front|, RestoredAll(env, back),
                          SaveBody(env, t) + (SaveReversed(env, front) + tail))
  {
    hide SaveItem, SaveReversed, LoadItem, LoadContainer, TypeOf, RestoredAll, WellFormed;
    var rest := SaveReversed(env, front) + tail;
    SavedAround(env, front, t, back, tail);
    LoadMany(env, back, |front| + 1, [], SaveItem(env, t) + rest);
    assert RestoredAll(env, back) + [] == RestoredAll(env, back);
    UnregisteredIsNotSkipped(env, t, rest);
    NextDropped(env, |front| + 1, RestoredAll(env, back), SaveItem(env, t) + rest, SaveBody(env, t) + rest);
  }

  lemma NextDropped(env: Env, pending: nat, acc: seq<ItemTree>, b: bytes, rest: bytes)
    requires pending > 0 && LoadItem(env, b) == Some((None, rest))
    ensures LoadContainer(env, pending, acc, b) == LoadContainer(env, pending - 1, acc, rest)
  {
    hide LoadItem;
  }

  lemma SavedAround(env: Env, front: seq<ItemTree>, t: ItemTree, back: seq<ItemTree>, tail: bytes)
    ensures SaveReversed(env, front + [t] + back) + tail
         == SaveReversed(env, back) + (SaveItem(env, t) + (SaveReversed(env, front) + tail))
  {
    hide SaveItem, SaveReversed;
    SavedParts(env, front + [t], back);
    SavedParts(env, front, [t]);
    SavedLast(env, [t], []);
    NoneSaved(env, [], []);
    assert [t][..0] == [] && SaveReversed(env, [t]) + [] == SaveReversed(env, [t]);
    assert SaveReversed(env, [t]) == SaveItem(env, t);
    Assoc(SaveReversed(env, back), SaveItem(env, t) + SaveReversed(env, front), tail);
    Assoc(SaveItem(env, t), SaveReversed(env, front), tail);
  }

  lemma {:induction false} SavedParts(env: Env, front: seq<ItemTree>, back: seq<ItemTree>)
    ensures SaveReversed(env, front + back) == SaveReversed(env, back) + SaveReversed(env, front)
    decreases |back|
  {
    hide SaveItem;
    if back == [] {
      assert front + back == front;
    } else {
      var n := |back| - 1;
      SavedParts(env, front, back[..n]);
      assert (front + back)[..|front| + n] == front + back[..n] && (front + back)[|front| + n] == back[n];
    }
  }

  /**
   Where it is the last one still to come, the load of the container fails exactly when it has any
   attribute; without one its own zero is taken for the container's, whose zero is left in the stream.
   */
  lemma UnregisteredFirstChild(env: Env, t: ItemTree, back: seq<ItemTree>, rest: bytes)
    requires !TypeOf(env, t.own.id).registered && forall c | c in back :: WellFormed(env, c)
    ensures LoadContainer(env, 1 + |back|, [], SaveReversed(env, [t] + back) + ([0] + rest))
         == if SaveBody(env, t) != [0] then None else Some((RestoredAll(env, back), [0] + rest))
  {
    hide SaveItem, SaveBody, RestoredAll, WellFormed, TypeOf, LoadItem;
    var tail := [0] + rest;
    assert [] + [t] + back == [t] + back && SaveReversed(env, []) + tail == tail;
    UnregisteredInside(env, [], t, back, tail);
    ZeroBehindId(env, t);
    BodyNotEmpty(env, t);
    var left := SaveBody(env, t) + tail;
    assert left[0] == SaveBody(env, t)[0];
    if left[0] == 0 {
      assert left[1..] == tail;
    }
  }
}

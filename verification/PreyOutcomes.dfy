/** What a prey request and the end of a hunt achieve, field by field. */
module PreyOutcomes {
  import opened Bytes
  import opened Lists
  import opened Options
  import opened PreySlots

  /** The slot has no hunt under way. */
  predicate Idle(s: Slot) {
    s.selected == 0 || s.timeLeft == 0
  }

  predicate Hunted(cfg: Config, slots: seq<Slot>, race: uint16) {
    cfg.enabled && exists j :: 0 <= j < |slots| && slots[j].selected == race
  }

  predicate SameBonus(s: Slot, r: Slot) {
    (r.bonus, r.rarity, r.percentage) == (s.bonus, s.rarity, s.percentage)
  }

  /** The rolled type, more stars than before up to ten, and the percentage of both. */
  predicate NewBonus(s: Slot, r: Slot, rolls: Rolls) {
    && r.bonus == rolls.bonus
    && r.rarity == (if s.rarity >= 9 then 10 else rolls.rarity)
    && r.percentage == (if r.bonus == Damage then 2 * r.rarity + 5
                        else if r.bonus == Defense then 2 * r.rarity + 10
                        else 3 * r.rarity + 10)
  }

  /** The hunt starts with full time; a bonus the slot already has is kept. */
  predicate HuntStarts(cfg: Config, s: Slot, r: Slot, race: uint16, m: Moment) {
    && r.state == Active && r.selected == race && r.timeLeft == cfg.bonusTime && r.option == s.option
    && if s.bonus == NoBonus then NewBonus(s, r, m.rolls) else SameBonus(s, r)
  }

  /** That creature, if listed, is gone, and the others stay in order. */
  predicate TakenOff(list: seq<uint16>, race: uint16, left: seq<uint16>) {
    || (race !in list && left == list)
    || exists k :: 0 <= k < |list| && list[k] == race && left == list[..k] + list[k + 1..]
  }

  /**
   Nine different creatures that can be hunted, on no list before and on no hunt; of slot `i` itself the
   hunt counts only where `own` says so. None while prey is switched off or the bestiary is too small.
   */
  predicate FreshGrid(cfg: Config, slots: seq<Slot>, i: nat, own: bool, list: seq<uint16>)
    requires i < |slots|
  {
    if !cfg.enabled || |cfg.bestiary| < 36 then list == [] else
      && |list| == 9 && NoDuplicates(list)
      && forall x | x in list :: CanBeHunted(cfg, x) && forall j | 0 <= j < |slots| ::
           && x !in slots[j].list
           && (!Idle(slots[j]) && (own || j != i) ==> x != slots[j].selected)
  }

  predicate CanBeHunted(cfg: Config, race: uint16) {
    && race in cfg.bestiary && cfg.bestiary[race].Some?
    && cfg.bestiary[race].value.experience > 0
    && cfg.bestiary[race].value.preyable && !cfg.bestiary[race].value.exclusive
  }

  /** What slot `i` must be after a request. */
  predicate Answered(cfg: Config, slots: seq<Slot>, i: nat, a: Action, m: Moment, r: Slot)
    requires i < |slots|
  {
    var s := slots[i];
    if s.state == Locked then r == s else
      match a
      case ListReroll =>
        if !m.free && !m.paid then r == s else
          && SameBonus(s, r) && r.state == (if s.bonus == NoBonus then Selection else SelectionChangeMonster)
          && (r.option, r.selected, r.timeLeft) == (NoOption, 0, 0)
          && FreshGrid(cfg, slots, i, false, r.list)
      case BonusReroll =>
        if Idle(s) || !m.paid then r == s else
          && NewBonus(s, r, m.rolls) && r.timeLeft == cfg.bonusTime
          && (r.state, r.option, r.selected, r.list) == (s.state, s.option, s.selected, s.list)
      case MonsterSelection(k) =>
        if && Idle(s) && s.state in {Selection, SelectionChangeMonster, ListSelection, Inactive}
           && 0 <= k < |s.list| && !Hunted(cfg, slots, s.list[k])
        then HuntStarts(cfg, s, r, s.list[k], m) && r.list == s.list[..k] + s.list[k + 1..] else r == s
      case ListAllCards =>
        if !m.paid then r == s else
          && SameBonus(s, r) && (r.option, r.list) == (s.option, s.list)
          && (r.state, r.selected, r.timeLeft) == (ListSelection, 0, 0)
      case ListAllSelection(race) =>
        if && Idle(s) && s.state == ListSelection && !Hunted(cfg, slots, race)
           && (race in cfg.bestiary && cfg.bestiary[race].Some? ==> cfg.bestiary[race].value.preyable)
        then HuntStarts(cfg, s, r, race, m) && TakenOff(s.list, race, r.list) else r == s
      case SetOption(option) =>
        && SameBonus(s, r) && (r.state, r.list, r.selected, r.timeLeft) == (s.state, s.list, s.selected, s.timeLeft)
        && r.option == if option == NoOption || m.paid then option else s.option
  }

  /** What slot `i` must be when `amount` has passed. */
  predicate Ticked(cfg: Config, slots: seq<Slot>, i: nat, amount: uint8, m: Moment, r: Slot)
    requires i < |slots|
  {
    var s := slots[i];
    if Idle(s) then r == s
    else if s.timeLeft > amount || (s.option == LockedOption && m.paid) then
      && SameBonus(s, r) && (r.state, r.option, r.list, r.selected) == (s.state, s.option, s.list, s.selected)
      && r.timeLeft == if s.timeLeft > amount then s.timeLeft - amount else cfg.bonusTime
    else if s.option == AutomaticReroll && m.paid then
      && NewBonus(s, r, m.rolls) && r.timeLeft == cfg.bonusTime
      && (r.state, r.option, r.list, r.selected) == (s.state, s.option, s.list, s.selected)
    else
      && (r.bonus, r.rarity, r.percentage) == (NoBonus, 1, 5)
      && (r.state, r.option, r.selected, r.timeLeft) == (Selection, NoOption, 0, 0)
      && if s.option == NoOption then FreshGrid(cfg, slots, i, true, r.list) else r.list == s.list
  }

  lemma {:induction false} WithoutAt(list: seq<uint16>, k: nat)
    requires k < |list| && NoDuplicates(list)
    ensures Without(list, list[k]) == list[..k] + list[k + 1..]
  {
    if k == 0 {
      WithoutAbsent(list[1..], list[0]);
    } else {
      assert list[1..][k - 1] == list[k];
      WithoutAt(list[1..], k - 1);
    }
  }

  lemma {:induction false} WithoutAbsent(list: seq<uint16>, race: uint16)
    requires race !in list
    ensures Without(list, race) == list
  {
    if list != [] {
      WithoutAbsent(list[1..], race);
    }
  }

  lemma WithoutTakes(list: seq<uint16>, race: uint16)
    requires NoDuplicates(list)
    ensures TakenOff(list, race, Without(list, race))
  {
    if race in list {
      var k :| 0 <= k < |list| && list[k] == race;
      WithoutAt(list, k);
    } else {
      WithoutAbsent(list, race);
    }
  }

  lemma {:induction false} HuntsBlackListed(slots: seq<Slot>, j: nat)
    requires j < |slots| && !Idle(slots[j])
    ensures slots[j].selected in BlackList(slots)
  {
    if j < |slots| - 1 {
      HuntsBlackListed(slots[..|slots| - 1], j);
    }
  }

  /** A grid drawn beside `seen` is fresh beside `slots`, which differ in the hunt of slot `i` at most. */
  lemma ReloadIsFresh(cfg: Config, slots: seq<Slot>, seen: seq<Slot>, i: nat, own: bool, m: Moment)
    requires i < |slots| == |seen| && FromBestiary(cfg, m.draws)
    requires forall j | 0 <= j < |slots| :: seen[j].list == slots[j].list
    requires forall j | 0 <= j < |slots| && (own || j != i) :: seen[j] == slots[j]
    requires Reload(cfg, BlackList(seen), m.level, m.draws).Some?
    ensures FreshGrid(cfg, slots, i, own, Reload(cfg, BlackList(seen), m.level, m.draws).value)
  {
    hide BlackList, DrawAll, StageStart, NoDuplicates, FromBestiary;
    if Plays(cfg) {
      GridIsNine(cfg, BlackList(seen), m.level, m.draws);
      var list := Reload(cfg, BlackList(seen), m.level, m.draws).value;
      forall x, j | x in list && 0 <= j < |slots|
        ensures x !in slots[j].list && (!Idle(slots[j]) && (own || j != i) ==> x != slots[j].selected)
      {
        BlackListHas(seen, j);
        if !Idle(seen[j]) {
          HuntsBlackListed(seen, j);
        }
      }
    }
  }

  lemma HuntIsOnSlot(cfg: Config, slots: seq<Slot>, race: uint16)
    ensures OnSlot(cfg, slots, race) <==> Hunted(cfg, slots, race)
  {
    if s :| s in slots && s.selected == race {
      var j :| 0 <= j < |slots| && slots[j] == s;
    }
  }

  lemma ChooseStarts(cfg: Config, s: Slot, race: uint16, m: Moment)
    ensures HuntStarts(cfg, s, Choose(cfg, s, race, m), race, m)
    ensures Choose(cfg, s, race, m).list == Without(s.list, race)
  {
  }

  /** Main result: every request does what it is meant to, and nothing when it is refused. */
  lemma RequestAnswered(cfg: Config, slots: seq<Slot>, i: nat, a: Action, m: Moment)
    requires i < |slots| && NoDuplicates(slots[i].list) && FromBestiary(cfg, m.draws)
    requires Act(cfg, slots, i, a, m).Some?
    ensures Answered(cfg, slots, i, a, m, Act(cfg, slots, i, a, m).value)
  {
    hide Reload, BlackList, Choose, HuntStarts, TakenOff, FreshGrid, OnSlot, Hunted, NoDuplicates, FromBestiary;
    var s := slots[i];
    if a.ListReroll? && s.state != Locked && (m.free || m.paid) {
      ReloadIsFresh(cfg, slots, slots[i := Reroll(s, s.list)], i, false, m);
    } else if a.ListAllSelection? {
      HuntIsOnSlot(cfg, slots, a.race);
      ChooseStarts(cfg, s, a.race, m);
      WithoutTakes(s.list, a.race);
    } else if a.MonsterSelection? && 0 <= a.index < |s.list| {
      HuntIsOnSlot(cfg, slots, s.list[a.index]);
      ChooseStarts(cfg, s, s.list[a.index], m);
      WithoutAt(s.list, a.index);
    }
  }

  /** Main result for the end of a hunt: renewed, locked or erased, with a new grid only after a plain expiry. */
  lemma TickEnds(cfg: Config, slots: seq<Slot>, i: nat, amount: uint8, m: Moment)
    requires i < |slots| && FromBestiary(cfg, m.draws) && Tick(cfg, slots, i, amount, m).Some?
    ensures Ticked(cfg, slots, i, amount, m, Tick(cfg, slots, i, amount, m).value)
  {
    hide Reload, BlackList, FreshGrid, FromBestiary;
    var s := slots[i];
    if !Idle(s) && s.timeLeft <= amount && s.option == NoOption {
      ReloadIsFresh(cfg, slots, slots, i, true, m);
    }
  }

  /** So it is for all slots in their turn, each seeing the earlier ones as they have become. */
  lemma {:induction false} AllTicked(cfg: Config, slots: seq<Slot>, n: nat, amount: uint8, ms: seq<Moment>)
    requires n <= |slots| == |ms| && forall i | 0 <= i < |ms| :: FromBestiary(cfg, ms[i].draws)
    requires TickAll(cfg, slots, n, amount, ms).Some?
    ensures var r := TickAll(cfg, slots, n, amount, ms).value;
            forall i | 0 <= i < n :: Ticked(cfg, r[..i] + slots[i..], i, amount, ms[i], r[i])
  {
    hide Tick, Ticked, FromBestiary;
    if n > 0 {
      AllTicked(cfg, slots, n - 1, amount, ms);
      var before, r := TickAll(cfg, slots, n - 1, amount, ms).value, TickAll(cfg, slots, n, amount, ms).value;
      TickEnds(cfg, before, n - 1, amount, ms[n - 1]);
      assert before == r[..n - 1] + slots[n - 1..];
      forall i | 0 <= i < n - 1
        ensures Ticked(cfg, r[..i] + slots[i..], i, amount, ms[i], r[i])
      {
        assert r[..i] == before[..i] && r[i] == before[i];
      }
    }
  }

  /** A new slot: inactive, locked for want of a right, or open with a grid apart from those before. */
  predicate OpenedAs(cfg: Config, rights: Rights, before: seq<Slot>, r: Slot) {
    && r.selected == 0 && r.timeLeft == 0 && r.option == NoOption
    && if !cfg.enabled then r.state == Inactive && r.list == []
       else if (|before| == 1 && !rights.premium) || (|before| == 2 && !rights.freeThird)
       then r.state == Locked && r.list == []
       else r.state == Selection && FreshGrid(cfg, before + [r.(list := [])], |before|, true, r.list)
  }

  lemma SlotOpens(cfg: Config, rights: Rights, before: seq<Slot>, m: Moment)
    requires FromBestiary(cfg, m.draws) && Opened(cfg, rights, before, m).Some?
    ensures OpenedAs(cfg, rights, before, Opened(cfg, rights, before, m).value)
  {
    hide BlackList, DrawAll, StageStart, NoDuplicates, FromBestiary;
    if cfg.enabled && !StartsLocked(rights, |before|) && Plays(cfg) {
      GridIsNine(cfg, BlackList(before), m.level, m.draws);
      var list := Reload(cfg, BlackList(before), m.level, m.draws).value;
      forall x, j | x in list && 0 <= j < |before|
        ensures x !in before[j].list && (!Idle(before[j]) ==> x != before[j].selected)
      {
        BlackListHas(before, j);
        if !Idle(before[j]) {
          HuntsBlackListed(before, j);
        }
      }
    }
  }

  // What the grid is made of.

  /** How many of the list have from `low` to `high` stars. */
  function WithStars(cfg: Config, list: seq<uint16>, low: nat, high: nat): nat {
    if list == [] then 0 else
      var last := list[|list| - 1];
      WithStars(cfg, list[..|list| - 1], low, high)
      + if last in cfg.bestiary && cfg.bestiary[last].Some? && low <= cfg.bestiary[last].value.stars <= high
        then 1 else 0
  }

  /** Together, what the list has of each class and what its stage still wants. */
  function Wanted(cfg: Config, g: Grid, most: nat): (nat, nat, nat, nat) {
    (WithStars(cfg, g.list, 0, 1) + g.one, WithStars(cfg, g.list, 2, 2) + g.two,
     WithStars(cfg, g.list, 3, 3) + g.three, WithStars(cfg, g.list, 4, most) + g.four)
  }

  lemma OneMore(cfg: Config, list: seq<uint16>, race: uint16, low: nat, high: nat)
    requires race in cfg.bestiary && cfg.bestiary[race].Some?
    ensures WithStars(cfg, list + [race], low, high)
         == WithStars(cfg, list, low, high) + if low <= cfg.bestiary[race].value.stars <= high then 1 else 0
  {
    assert (list + [race])[..|list|] == list;
  }

  /** No star count goes beyond `most`. */
  predicate StarsUpTo(cfg: Config, most: nat) {
    forall r | r in cfg.bestiary && cfg.bestiary[r].Some? :: cfg.bestiary[r].value.stars <= most
  }

  lemma PlaceWants(cfg: Config, g: Grid, race: uint16, most: nat)
    requires g.tries < 10 && race in cfg.bestiary && cfg.bestiary[race].Some? && cfg.bestiary[race].value.stars <= most
    ensures var g' := Place(g, race, cfg.bestiary[race].value.stars);
            Wanted(cfg, g', most) == Wanted(cfg, g, most)
  {
    hide WithStars;
    OneMore(cfg, g.list, race, 0, 1);
    OneMore(cfg, g.list, race, 2, 2);
    OneMore(cfg, g.list, race, 3, 3);
    OneMore(cfg, g.list, race, 4, most);
  }

  lemma DrawWants(cfg: Config, blackList: seq<uint16>, g: Grid, race: uint16, most: nat)
    requires g.tries < 9 && StarsUpTo(cfg, most)
    ensures var g' := Draw(cfg, blackList, g, race);
            Wanted(cfg, g', most) == Wanted(cfg, g, most) && g'.tries == g.tries + 1
  {
    hide WithStars, Place;
    if race !in blackList + g.drawn && Eligible(cfg, race) {
      var g2 := g.(tries := (g.tries + 1) % 0x100, drawn := g.drawn + [race]);
      PlaceWants(cfg, g2, race, most);
      PlaceTries(g2, race, cfg.bestiary[race].value.stars);
    }
  }

  lemma PlaceTries(g: Grid, race: uint16, stars: nat)
    requires g.tries < 10
    ensures Place(g, race, stars).tries == g.tries
  {
  }

  lemma {:induction false} DrawsWant(cfg: Config, blackList: seq<uint16>, g: Grid, draws: seq<uint16>, most: nat)
    requires g.tries + |draws| <= 9 && StarsUpTo(cfg, most) && DrawAll(cfg, blackList, g, draws).Some?
    ensures Wanted(cfg, DrawAll(cfg, blackList, g, draws).value, most) == Wanted(cfg, g, most)
    decreases |draws|
  {
    hide Draw, Wanted, StarsUpTo;
    if |g.list| < GRID && draws != [] {
      DrawWants(cfg, blackList, g, draws[0], most);
      DrawsWant(cfg, blackList, Draw(cfg, blackList, g, draws[0]), draws[1..], most);
    }
  }

  lemma {:induction false} AllCounted(cfg: Config, list: seq<uint16>, most: nat)
    requires StarsUpTo(cfg, most) && forall r | r in list :: CanBeHunted(cfg, r)
    ensures |list| == WithStars(cfg, list, 0, 1) + WithStars(cfg, list, 2, 2)
                      + WithStars(cfg, list, 3, 3) + WithStars(cfg, list, 4, most)
  {
    if list != [] {
      var n := |list| - 1;
      assert list[n] in list && forall r | r in list[..n] :: r in list;
      AllCounted(cfg, list[..n], most);
    }
  }

  /**
   A grid that takes only nine draws has the mixture of its level: of one star three creatures below level
   100 and one from there on, and so on; only later draws may add creatures beyond their stage.
   */
  lemma NineDraws(cfg: Config, blackList: seq<uint16>, level: nat, draws: seq<uint16>, most: nat)
    requires Plays(cfg) && StarsUpTo(cfg, most) && FromBestiary(cfg, draws) && |draws| <= 9
    requires Reload(cfg, blackList, level, draws).Some?
    ensures var list := Reload(cfg, blackList, level, draws).value;
            && WithStars(cfg, list, 0, 1) == (if level < 100 then 3 else 1)
            && WithStars(cfg, list, 2, 2) == (if level < 300 then 3 else if level < 500 then 2 else 1)
            && WithStars(cfg, list, 3, 3) == (if level < 100 then 2 else 3)
            && WithStars(cfg, list, 4, most) == if level < 100 then 1 else if level < 300 then 2
                                                else if level < 500 then 3 else 4
  {
    hide DrawAll, NoDuplicates, WithStars, StarsUpTo, FromBestiary;
    GridIsNine(cfg, blackList, level, draws);
    DrawsWant(cfg, blackList, StageStart(level), draws, most);
    NothingCounted(cfg, most);
    AllCounted(cfg, Reload(cfg, blackList, level, draws).value, most);
  }

  lemma NothingCounted(cfg: Config, most: nat)
    ensures WithStars(cfg, [], 0, 1) == WithStars(cfg, [], 2, 2) == 0
    ensures WithStars(cfg, [], 3, 3) == WithStars(cfg, [], 4, most) == 0
  {
  }
}

/** `PreySlot` and `IOPrey` as they run: slot objects changed in place. */
module PreySlotCode {
  import opened Bytes
  import opened Lists
  import opened Options
  import opened PreySlots
  import opened PreyOutcomes

  class PreySlot {
    var bonus: Bonus
    var state: State
    var option: Renewal
    var raceIdList: seq<uint16>
    var bonusRarity: nat
    var selectedRaceId: uint16
    var bonusPercentage: nat
    var bonusTimeLeft: uint16

    function View(): Slot
      reads this
    {
      Slot(bonus, state, option, raceIdList, bonusRarity, selectedRaceId, bonusPercentage, bonusTimeLeft)
    }

    constructor (rolls: Rolls)
      requires rolls.bonus != NoBonus && 1 < rolls.rarity <= 10
      ensures View() == NewSlot(rolls) && SlotOk(View())
    {
      bonus, state, option, raceIdList := NoBonus, Locked, NoOption, [];
      bonusRarity, selectedRaceId, bonusPercentage, bonusTimeLeft := 1, 0, 0, 0;
      new;
      EraseBonus(false);
      ReloadBonusValue(rolls);
      ReloadBonusType(rolls);
    }

    method EraseBonus(maintainBonus: bool)
      modifies this
      ensures View() == PreySlots.EraseBonus(old(View()), maintainBonus)
    {
      if !maintainBonus {
        bonus := NoBonus;
        bonusPercentage := 5;
        bonusRarity := 1;
      }
      state := Selection;
      option := NoOption;
      selectedRaceId := 0;
      bonusTimeLeft := 0;
    }

    /** The roll is the last one drawn: at ten stars the drawing goes on until the type is another one. */
    method ReloadBonusType(rolls: Rolls)
      modifies this`bonus
      ensures View() == ReloadType(old(View()), rolls)
    {
      bonus := rolls.bonus;
    }

    method ReloadBonusValue(rolls: Rolls)
      modifies this`bonusRarity, this`bonusPercentage
      ensures View() == ReloadValue(old(View()), rolls)
    {
      if bonusRarity >= 9 {
        bonusRarity := 10;
      } else {
        bonusRarity := rolls.rarity;
      }
      if bonus == Damage {
        bonusPercentage := 2 * bonusRarity + 5;
      } else if bonus == Defense {
        bonusPercentage := 2 * bonusRarity + 10;
      } else {
        bonusPercentage := 3 * bonusRarity + 10;
      }
    }

    method RemoveMonsterType(race: uint16)
      modifies this`raceIdList
      ensures View() == old(View()).(list := Without(old(raceIdList), race))
    {
      var kept, i := [], 0;
      ghost var all := raceIdList;
      while i < |raceIdList|
        invariant i <= |all| && raceIdList == all
        invariant kept + Without(all[i..], race) == Without(all, race)
      {
        WithoutNext(all, i, race);
        if raceIdList[i] != race {
          kept := kept + [raceIdList[i]];
        }
        i := i + 1;
      }
      assert all[i..] == [];
      raceIdList := kept;
    }

    /** The draws stand for the random numbers; `false` when they end before the grid is full. */
    method ReloadMonsterGrid(cfg: Config, given: seq<uint16>, level: nat, draws: seq<uint16>) returns (done: bool)
      requires FromBestiary(cfg, draws)
      modifies this`raceIdList
      ensures done <==> Reload(cfg, given, level, draws).Some?
      ensures done ==> raceIdList == Reload(cfg, given, level, draws).value
    {
      hide StageStart, DrawAll;
      raceIdList := [];
      if !cfg.enabled || |cfg.bestiary| < 36 {
        return true;
      }
      var blackList := given;
      var stageOne, stageTwo, stageThree, stageFour := Stages(level);
      var tries: uint8 := 0;
      ghost var drawn: seq<uint16> := [];
      var k := 0;
      assert draws[0..] == draws;
      while |raceIdList| < GRID
        invariant k <= |draws| && blackList == given + drawn
        invariant DrawAll(cfg, given,
                          Grid(raceIdList, drawn, stageOne, stageTwo, stageThree, stageFour, tries), draws[k..])
               == DrawAll(cfg, given, StageStart(level), draws)
        decreases |draws| - k
      {
        ghost var g := Grid(raceIdList, drawn, stageOne, stageTwo, stageThree, stageFour, tries);
        NextDraw(cfg, given, g, draws, k);
        if k == |draws| {
          return false;
        }
        var raceId := draws[k];
        assert raceId in draws;
        tries := (tries + 1) % 0x100;
        k := k + 1;
        if raceId in blackList {
          continue;
        }
        blackList := blackList + [raceId];
        drawn := drawn + [raceId];
        var mtype := cfg.bestiary[raceId];
        if mtype.None? || mtype.value.experience == 0 || !mtype.value.preyable || mtype.value.exclusive {
          continue;
        }
        var stars := mtype.value.stars;
        if stageOne != 0 && stars <= 1 {
          raceIdList := raceIdList + [raceId];
          stageOne := stageOne - 1;
        } else if stageTwo != 0 && stars == 2 {
          raceIdList := raceIdList + [raceId];
          stageTwo := stageTwo - 1;
        } else if stageThree != 0 && stars == 3 {
          raceIdList := raceIdList + [raceId];
          stageThree := stageThree - 1;
        } else if stageFour != 0 && stars >= 4 {
          raceIdList := raceIdList + [raceId];
          stageFour := stageFour - 1;
        } else if tries >= 10 {
          raceIdList := raceIdList + [raceId];
          tries := 0;
        }
      }
      FullGrid(cfg, given, Grid(raceIdList, drawn, stageOne, stageTwo, stageThree, stageFour, tries), draws[k..]);
      done := true;
    }
  }

  lemma WithoutNext(list: seq<uint16>, i: nat, race: uint16)
    requires i < |list|
    ensures Without(list[i..], race) == (if list[i] == race then [] else [list[i]]) + Without(list[i + 1..], race)
  {
    assert list[i..][0] == list[i] && list[i..][1..] == list[i + 1..];
  }

  lemma NextDraw(cfg: Config, given: seq<uint16>, g: Grid, draws: seq<uint16>, k: nat)
    requires k <= |draws| && |g.list| < GRID
    ensures DrawAll(cfg, given, g, draws[k..])
         == if k == |draws| then None else DrawAll(cfg, given, Draw(cfg, given, g, draws[k]), draws[k + 1..])
  {
    hide Draw;
    if k < |draws| {
      assert draws[k..][0] == draws[k] && draws[k..][1..] == draws[k + 1..];
    }
  }

  lemma FullGrid(cfg: Config, given: seq<uint16>, g: Grid, draws: seq<uint16>)
    requires |g.list| >= GRID
    ensures DrawAll(cfg, given, g, draws) == Some(g)
  {
  }

  method Stages(level: nat) returns (one: nat, two: nat, three: nat, four: nat)
    ensures Grid([], [], one, two, three, four, 0) == StageStart(level)
  {
    var levelStage := level / 100;
    if levelStage == 0 {
      one, two, three, four := 3, 3, 2, 1;
    } else if levelStage <= 2 {
      one, two, three, four := 1, 3, 3, 2;
    } else if levelStage <= 4 {
      one, two, three, four := 1, 2, 3, 3;
    } else {
      one, two, three, four := 1, 1, 3, 4;
    }
  }

  // The slots of one player.

  predicate Separate(preys: seq<PreySlot>) {
    forall i, j | 0 <= i < j < |preys| :: preys[i] != preys[j]
  }

  ghost function Views(preys: seq<PreySlot>): (slots: seq<Slot>)
    reads preys
    ensures |slots| == |preys| && forall i | 0 <= i < |preys| :: slots[i] == preys[i].View()
  {
    if preys == [] then [] else Views(preys[..|preys| - 1]) + [preys[|preys| - 1].View()]
  }

  method GetPreyBlackList(preys: seq<PreySlot>) returns (rt: seq<uint16>)
    ensures rt == BlackList(Views(preys))
  {
    rt := [];
    for i := 0 to |preys|
      invariant rt == BlackList(Views(preys)[..i])
    {
      var slot := preys[i];
      ghost var slots := Views(preys);
      assert slots[..i + 1][..i] == slots[..i] && slots[..i + 1][i] == slot.View();
      if slot.selectedRaceId != 0 && slot.bonusTimeLeft > 0 {
        rt := rt + [slot.selectedRaceId];
      }
      rt := rt + slot.raceIdList;
    }
    assert Views(preys)[..|preys|] == Views(preys);
  }

  lemma ViewsSnoc(preys: seq<PreySlot>, slot: PreySlot)
    ensures Views(preys + [slot]) == Views(preys) + [slot.View()]
  {
    assert (preys + [slot])[..|preys|] == preys;
  }

  lemma InitializeNext(cfg: Config, rights: Rights, ms: seq<Moment>, i: nat)
    requires i < |ms| && Initialize(cfg, rights, ms[..i]).Some?
    ensures var before := Initialize(cfg, rights, ms[..i]).value;
            var s := Opened(cfg, rights, before, ms[i]);
            Initialize(cfg, rights, ms[..i + 1]) == if s.None? then None else Some(before + [s.value])
  {
    assert ms[..i + 1][..i] == ms[..i];
  }

  lemma {:induction false} InitializeStops(cfg: Config, rights: Rights, ms: seq<Moment>, i: nat)
    requires i <= |ms| && Initialize(cfg, rights, ms[..i]).None?
    ensures Initialize(cfg, rights, ms).None?
  {
    if i == |ms| {
      assert ms[..i] == ms;
    } else {
      assert ms[..|ms| - 1][..i] == ms[..i];
      InitializeStops(cfg, rights, ms[..|ms| - 1], i);
    }
  }

  /** The three slots of a new player; `false` while a grid is still being drawn. */
  method InitializePrey(cfg: Config, rights: Rights, ms: seq<Moment>) returns (done: bool, preys: seq<PreySlot>)
    requires |ms| == 3 && forall k | 0 <= k < |ms| :: FreshMoment(cfg, ms[k])
    ensures done <==> Initialize(cfg, rights, ms).Some?
    ensures done ==> fresh(preys) && Separate(preys) && Views(preys) == Initialize(cfg, rights, ms).value
    ensures done ==> Inv(cfg, Views(preys))
  {
    hide Inv, Initialize, Opened, Views, BlackList, Reload, SlotOk, NewSlot, FromBestiary;
    preys := [];
    NothingYet(cfg, rights, ms);
    for slotId := 0 to 3
      invariant fresh(preys) && Separate(preys) && |preys| == slotId
      invariant Initialize(cfg, rights, ms[..slotId]) == Some(Views(preys))
    {
      ghost var before := Views(preys);
      ViewsLength(preys);
      InitializeNext(cfg, rights, ms, slotId);
      assert FreshMoment(cfg, ms[slotId]);
      var slot := new PreySlot(ms[slotId].rolls);
      assert Views(preys) == before;
      done := OpenSlot(cfg, rights, preys, slot, ms[slotId]);
      if !done {
        InitializeStops(cfg, rights, ms, slotId + 1);
        return;
      }
      ViewsSnoc(preys, slot);
      preys := preys + [slot];
    }
    assert ms[..3] == ms;
    InitializeOk(cfg, rights, ms);
    done := true;
  }

  lemma NothingYet(cfg: Config, rights: Rights, ms: seq<Moment>)
    ensures Initialize(cfg, rights, ms[..0]) == Some([]) && Views([]) == []
  {
  }

  lemma ViewsLength(preys: seq<PreySlot>)
    ensures |Views(preys)| == |preys|
  {
  }

  /** A slot just made gets its state, and its grid if it is open. */
  method OpenSlot(cfg: Config, rights: Rights, preys: seq<PreySlot>, slot: PreySlot, m: Moment) returns (done: bool)
    requires slot !in preys && slot.View() == NewSlot(m.rolls) && FreshMoment(cfg, m)
    modifies slot
    ensures Views(preys) == old(Views(preys))
    ensures done <==> Opened(cfg, rights, old(Views(preys)), m).Some?
    ensures done ==> slot.View() == Opened(cfg, rights, old(Views(preys)), m).value
  {
    hide Views, BlackList, Reload, FromBestiary;
    ViewsLength(preys);
    done := true;
    if !cfg.enabled {
      slot.state := Inactive;
    } else if |preys| == 2 && !rights.freeThird {
      slot.state := Locked;
    } else if |preys| == 1 && !rights.premium {
      slot.state := Locked;
    } else {
      slot.state := Selection;
      var blackList := GetPreyBlackList(preys);
      done := slot.ReloadMonsterGrid(cfg, blackList, m.level, m.draws);
    }
  }

  method GetPreyWithMonster(cfg: Config, preys: seq<PreySlot>, race: uint16) returns (found: bool)
    ensures found <==> OnSlot(cfg, Views(preys), race)
  {
    found := false;
    if !cfg.enabled {
      return;
    }
    for i := 0 to |preys|
      invariant forall k | 0 <= k < i :: preys[k].selectedRaceId != race
    {
      if preys[i].selectedRaceId == race {
        assert Views(preys)[i] in Views(preys);
        return true;
      }
    }
    forall s | s in Views(preys) ensures s.selected != race {
      var k :| 0 <= k < |preys| && Views(preys)[k] == s;
    }
  }

  /** Choosing a creature, from the grid or from the whole list. */
  method Select(cfg: Config, slot: PreySlot, race: uint16, m: Moment)
    modifies slot
    ensures slot.View() == Choose(cfg, old(slot.View()), race, m)
  {
    if slot.bonus == NoBonus {
      slot.ReloadBonusType(m.rolls);
      slot.ReloadBonusValue(m.rolls);
    }
    slot.state := Active;
    slot.selectedRaceId := race;
    slot.RemoveMonsterType(race);
    slot.bonusTimeLeft := cfg.bonusTime;
  }

  lemma OneChanged(old_: seq<Slot>, new_: seq<Slot>, i: nat)
    requires |old_| == |new_| && i < |old_| && forall j | 0 <= j < |old_| && j != i :: new_[j] == old_[j]
    ensures new_ == old_[i := new_[i]]
  {
  }

  /** The blacklist is made after the erasure, so the creature just given up may be drawn again. */
  method RerollSlot(cfg: Config, preys: seq<PreySlot>, i: nat, m: Moment) returns (done: bool)
    requires Separate(preys) && i < |preys| && FromBestiary(cfg, m.draws)
    modifies preys[i]
    ensures var s := old(preys[i].View());
            var given := BlackList(old(Views(preys))[i := Reroll(s, s.list)]);
            && (done <==> Reload(cfg, given, m.level, m.draws).Some?)
            && (done ==> preys[i].View() == Reroll(s, Reload(cfg, given, m.level, m.draws).value))
  {
    hide BlackList, Reload, FromBestiary;
    var slot := preys[i];
    ghost var before := Views(preys);
    slot.EraseBonus(true);
    if slot.bonus != NoBonus {
      slot.state := SelectionChangeMonster;
    }
    OneChanged(before, Views(preys), i);
    var blackList := GetPreyBlackList(preys);
    done := slot.ReloadMonsterGrid(cfg, blackList, m.level, m.draws);
  }

  lemma ViewsAt(preys: seq<PreySlot>, i: nat)
    requires i < |preys|
    ensures |Views(preys)| == |preys| && Views(preys)[i] == preys[i].View()
  {
  }

  /** One request for one slot; the others are not touched. `false` only while a grid is still being drawn. */
  method ParsePreyAction(cfg: Config, preys: seq<PreySlot>, i: nat, action: Action, m: Moment) returns (done: bool)
    requires Separate(preys) && i < |preys| && FromBestiary(cfg, m.draws)
    modifies preys[i]
    ensures done <==> Act(cfg, old(Views(preys)), i, action, m).Some?
    ensures done ==> preys[i].View() == Act(cfg, old(Views(preys)), i, action, m).value
    ensures done && old(NoDuplicates(preys[i].raceIdList)) ==>
              Answered(cfg, old(Views(preys)), i, action, m, preys[i].View())
  {
    hide Answered, NoDuplicates, BlackList, Reload, OnSlot, Choose, Without, FromBestiary, Views;
    var slot := preys[i];
    ViewsAt(preys, i);
    if NoDuplicates(slot.raceIdList) && Act(cfg, Views(preys), i, action, m).Some? {
      RequestAnswered(cfg, Views(preys), i, action, m);
    }
    done := true;
    if slot.state != Locked {
      match action {
        case ListReroll =>
          if m.free || m.paid {
            done := RerollSlot(cfg, preys, i, m);
          }
        case ListAllCards =>
          if m.paid {
            slot.bonusTimeLeft := 0;
            slot.selectedRaceId := 0;
            slot.state := ListSelection;
          }
        case ListAllSelection(race) =>
          var taken := GetPreyWithMonster(cfg, preys, race);
          var refused := race in cfg.bestiary && cfg.bestiary[race].Some? && !cfg.bestiary[race].value.preyable;
          if !Occupied(slot.View()) && slot.state == ListSelection && !taken && !refused {
            Select(cfg, slot, race, m);
          }
        case BonusReroll =>
          if Occupied(slot.View()) && m.paid {
            slot.ReloadBonusType(m.rolls);
            slot.ReloadBonusValue(m.rolls);
            slot.bonusTimeLeft := cfg.bonusTime;
          }
        case MonsterSelection(index) =>
          if !Occupied(slot.View()) && CanSelect(slot.View()) && 0 <= index < |slot.raceIdList| {
            var taken := GetPreyWithMonster(cfg, preys, slot.raceIdList[index]);
            if !taken {
              Select(cfg, slot, slot.raceIdList[index], m);
            }
          }
        case SetOption(option) =>
          if option == NoOption || m.paid {
            slot.option := option;
          }
      }
    }
  }

  /** The turn of slot `i` when time passes. */
  method CheckSlot(cfg: Config, preys: seq<PreySlot>, i: nat, amount: uint8, m: Moment) returns (done: bool)
    requires Separate(preys) && i < |preys| && FromBestiary(cfg, m.draws)
    modifies preys[i]
    ensures done <==> Tick(cfg, old(Views(preys)), i, amount, m).Some?
    ensures done ==> preys[i].View() == Tick(cfg, old(Views(preys)), i, amount, m).value
    ensures done ==> Ticked(cfg, old(Views(preys)), i, amount, m, preys[i].View())
  {
    hide Ticked, BlackList, Reload, FromBestiary, Views;
    var slot := preys[i];
    ViewsAt(preys, i);
    if Tick(cfg, Views(preys), i, amount, m).Some? {
      TickEnds(cfg, Views(preys), i, amount, m);
    }
    done := true;
    if Occupied(slot.View()) {
      if slot.bonusTimeLeft <= amount {
        if slot.option == AutomaticReroll && m.paid {
          slot.ReloadBonusType(m.rolls);
          slot.ReloadBonusValue(m.rolls);
          slot.bonusTimeLeft := cfg.bonusTime;
        } else if slot.option == LockedOption && m.paid {
          slot.bonusTimeLeft := cfg.bonusTime;
        } else {
          if slot.option == NoOption {
            var blackList := GetPreyBlackList(preys);
            done := slot.ReloadMonsterGrid(cfg, blackList, m.level, m.draws);
          }
          slot.EraseBonus(false);
        }
      } else {
        slot.bonusTimeLeft := slot.bonusTimeLeft - amount;
      }
    }
  }

  /** The slots one after another, each seeing what the earlier ones became. */
  method CheckPlayerPreys(cfg: Config, preys: seq<PreySlot>, amount: uint8, ms: seq<Moment>) returns (done: bool)
    requires Separate(preys) && |ms| == |preys| && Inv(cfg, Views(preys))
    requires forall i | 0 <= i < |ms| :: FromBestiary(cfg, ms[i].draws)
    requires forall i | 0 <= i < |ms| :: Rolled(preys[i].View(), ms[i].rolls)
    modifies preys
    ensures done <==> TickAll(cfg, old(Views(preys)), |preys|, amount, ms).Some?
    ensures done ==> Views(preys) == TickAll(cfg, old(Views(preys)), |preys|, amount, ms).value
    ensures done ==> Inv(cfg, Views(preys))
    ensures done ==> forall i | 0 <= i < |preys| ::
                       Ticked(cfg, Views(preys)[..i] + old(Views(preys))[i..], i, amount, ms[i], preys[i].View())
    ensures done ==> forall i | 0 <= i < |preys| ::
                       RarityKept(old(preys[i].View()), preys[i].View(), Pass(i, amount, ms[i]))
  {
    hide Inv, Tick, Ticked, FromBestiary, Rolled, RarityKept, Views, TickAll;
    ghost var start := Views(preys);
    TickNone(cfg, start, amount, ms);
    for i := 0 to |preys|
      invariant Inv(cfg, Views(preys))
      invariant TickAll(cfg, start, i, amount, ms) == Some(Views(preys))
      invariant forall k | i <= k < |preys| :: preys[k].View() == old(preys[k].View())
      invariant forall k | 0 <= k < i :: RarityKept(old(preys[k].View()), preys[k].View(), Pass(k, amount, ms[k]))
    {
      ghost var before := Views(preys);
      done := CheckSlot(cfg, preys, i, amount, ms[i]);
      TickNext(cfg, start, i, amount, ms);
      if !done {
        TickAllStops(cfg, start, i + 1, |preys|, amount, ms);
        return;
      }
      OneChanged(before, Views(preys), i);
      PassKeeps(cfg, before, i, amount, ms[i]);
      forall k | 0 <= k < |preys| && k != i ensures preys[k].View() == before[k] {
        assert Views(preys)[k] == before[k];
      }
    }
    AllTicked(cfg, start, |preys|, amount, ms);
    done := true;
  }

  lemma TickNone(cfg: Config, slots: seq<Slot>, amount: uint8, ms: seq<Moment>)
    requires |slots| == |ms|
    ensures TickAll(cfg, slots, 0, amount, ms) == Some(slots)
  {
  }

  lemma TickNext(cfg: Config, slots: seq<Slot>, i: nat, amount: uint8, ms: seq<Moment>)
    requires i < |slots| == |ms| && TickAll(cfg, slots, i, amount, ms).Some?
    ensures var before := TickAll(cfg, slots, i, amount, ms).value;
            var r := Tick(cfg, before, i, amount, ms[i]);
            TickAll(cfg, slots, i + 1, amount, ms) == if r.None? then None else Some(before[i := r.value])
  {
  }

  lemma PassKeeps(cfg: Config, slots: seq<Slot>, i: nat, amount: uint8, m: Moment)
    requires Inv(cfg, slots) && i < |slots| && FromBestiary(cfg, m.draws) && Rolled(slots[i], m.rolls)
    requires Tick(cfg, slots, i, amount, m).Some?
    ensures Inv(cfg, slots[i := Tick(cfg, slots, i, amount, m).value])
    ensures RarityKept(slots[i], Tick(cfg, slots, i, amount, m).value, Pass(i, amount, m))
  {
    hide Inv, Tick, FromBestiary, Rolled, RarityKept;
    StepKeeps(cfg, slots, Pass(i, amount, m));
  }
}

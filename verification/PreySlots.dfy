/** The prey slots of a player: the grid of creatures to choose from, the bonus, and the life of a slot. */
module PreySlots {
  import opened Bytes
  import opened Lists
  import opened Options

  datatype Bonus = Damage | Defense | Experience | Loot | NoBonus

  datatype State = Locked | Inactive | Active | Selection | SelectionChangeMonster | ListSelection | WildcardSelection

  datatype Renewal = NoOption | AutomaticReroll | LockedOption

  datatype Monster = Monster(experience: nat, preyable: bool, exclusive: bool, stars: nat)

  /** The bestiary lists a race even when its monster type is missing. */
  datatype Config = Config(enabled: bool, bestiary: map<uint16, Option<Monster>>, bonusTime: uint16)

  datatype Slot = Slot(bonus: Bonus, state: State, option: Renewal, list: seq<uint16>, rarity: nat,
                       selected: uint16, percentage: nat, timeLeft: uint16)

  const GRID := 9

  predicate Apart(a: seq<uint16>, b: seq<uint16>) {
    forall x | x in a :: x !in b
  }

  // The grid.

  /** The draws that were new so far, and what is left of the four difficulty stages. */
  datatype Grid = Grid(list: seq<uint16>, drawn: seq<uint16>, one: nat, two: nat, three: nat, four: nat, tries: uint8)

  function StageStart(level: nat): Grid {
    var stage := level / 100;
    if stage == 0 then Grid([], [], 3, 3, 2, 1, 0)
    else if stage <= 2 then Grid([], [], 1, 3, 3, 2, 0)
    else if stage <= 4 then Grid([], [], 1, 2, 3, 3, 0)
    else Grid([], [], 1, 1, 3, 4, 0)
  }

  predicate Eligible(cfg: Config, race: uint16) {
    && race in cfg.bestiary && cfg.bestiary[race].Some?
    && var m := cfg.bestiary[race].value;
       m.experience != 0 && m.preyable && !m.exclusive
  }

  /** A new creature joins its stage, or the list at large after ten tries, or is passed over for good. */
  function Place(g: Grid, race: uint16, stars: nat): Grid {
    var longer := g.list + [race];
    if g.one != 0 && stars <= 1 then g.(list := longer, one := g.one - 1)
    else if g.two != 0 && stars == 2 then g.(list := longer, two := g.two - 1)
    else if g.three != 0 && stars == 3 then g.(list := longer, three := g.three - 1)
    else if g.four != 0 && stars >= 4 then g.(list := longer, four := g.four - 1)
    else if g.tries >= 10 then g.(list := longer, tries := 0)
    else g
  }

  function Draw(cfg: Config, blackList: seq<uint16>, g: Grid, race: uint16): Grid {
    var g1 := g.(tries := (g.tries + 1) % 0x100);
    if race in blackList + g.drawn then g1 else
      var g2 := g1.(drawn := g.drawn + [race]);
      if Eligible(cfg, race) then Place(g2, race, cfg.bestiary[race].value.stars) else g2
  }

  /** The draws until the grid is full; `None` if they run out before. */
  function DrawAll(cfg: Config, blackList: seq<uint16>, g: Grid, draws: seq<uint16>): Option<Grid>
    decreases |draws|
  {
    if |g.list| >= GRID then Some(g)
    else if draws == [] then None
    else DrawAll(cfg, blackList, Draw(cfg, blackList, g, draws[0]), draws[1..])
  }

  predicate Plays(cfg: Config) {
    cfg.enabled && |cfg.bestiary| >= 36
  }

  /** `reloadMonsterGrid` on a stream of draws from the bestiary. */
  function Reload(cfg: Config, blackList: seq<uint16>, level: nat, draws: seq<uint16>): Option<seq<uint16>> {
    if !Plays(cfg) then Some([])
    else
      match DrawAll(cfg, blackList, StageStart(level), draws)
      case None => None
      case Some(g) => Some(g.list)
  }

  predicate FromBestiary(cfg: Config, draws: seq<uint16>) {
    forall d | d in draws :: d in cfg.bestiary
  }

  /** Distinct eligible creatures, all new and none blacklisted; the stages count down from nine. */
  predicate GridOk(cfg: Config, blackList: seq<uint16>, g: Grid) {
    && NoDuplicates(g.list) && NoDuplicates(g.drawn)
    && FromBestiary(cfg, g.drawn) && Apart(g.drawn, blackList)
    && (forall r | r in g.list :: r in g.drawn && Eligible(cfg, r))
    && |g.list| <= GRID
    && |g.list| + g.one + g.two + g.three + g.four >= GRID
  }

  lemma PlaceKeeps(cfg: Config, blackList: seq<uint16>, g: Grid, race: uint16, stars: nat)
    requires GridOk(cfg, blackList, g) && Eligible(cfg, race) && race in g.drawn && race !in g.list && |g.list| < GRID
    ensures GridOk(cfg, blackList, Place(g, race, stars))
  {
    NoDuplicatesSnoc(g.list, race);
  }

  lemma DrawKeeps(cfg: Config, blackList: seq<uint16>, g: Grid, race: uint16)
    requires GridOk(cfg, blackList, g) && race in cfg.bestiary && |g.list| < GRID
    ensures GridOk(cfg, blackList, Draw(cfg, blackList, g, race))
  {
    hide Place, NoDuplicates;
    if race !in blackList + g.drawn {
      NoDuplicatesSnoc(g.drawn, race);
      var g2 := g.(tries := (g.tries + 1) % 0x100, drawn := g.drawn + [race]);
      assert GridOk(cfg, blackList, g2);
      if Eligible(cfg, race) {
        PlaceKeeps(cfg, blackList, g2, race, cfg.bestiary[race].value.stars);
      }
    }
  }

  lemma {:induction false} DrawAllKeeps(cfg: Config, blackList: seq<uint16>, g: Grid, draws: seq<uint16>)
    requires GridOk(cfg, blackList, g) && FromBestiary(cfg, draws)
    ensures DrawAll(cfg, blackList, g, draws).Some? ==> GridOk(cfg, blackList, DrawAll(cfg, blackList, g, draws).value)
    ensures DrawAll(cfg, blackList, g, draws).Some? ==> |DrawAll(cfg, blackList, g, draws).value.list| == GRID
    decreases |draws|
  {
    hide Draw;
    if |g.list| < GRID && draws != [] {
      assert draws[0] in draws;
      DrawKeeps(cfg, blackList, g, draws[0]);
      DrawAllKeeps(cfg, blackList, Draw(cfg, blackList, g, draws[0]), draws[1..]);
    }
  }

  /** A completed grid is nine distinct eligible creatures of the bestiary, none of them blacklisted. */
  lemma GridIsNine(cfg: Config, blackList: seq<uint16>, level: nat, draws: seq<uint16>)
    requires Plays(cfg) && FromBestiary(cfg, draws)
    requires Reload(cfg, blackList, level, draws).Some?
    ensures var list := Reload(cfg, blackList, level, draws).value;
            |list| == GRID && NoDuplicates(list) && Apart(list, blackList) && forall r | r in list :: Eligible(cfg, r)
  {
    hide DrawAll, NoDuplicates;
    NoDuplicatesEmpty();
    DrawAllKeeps(cfg, blackList, StageStart(level), draws);
  }

  lemma NoDuplicatesEmpty()
    ensures NoDuplicates<uint16>([])
  {
  }

  /** However long the stream, at most as many draws as the bestiary has races are new. */
  lemma FreshDrawsBounded(cfg: Config, blackList: seq<uint16>, level: nat, draws: seq<uint16>)
    requires FromBestiary(cfg, draws) && DrawAll(cfg, blackList, StageStart(level), draws).Some?
    ensures |DrawAll(cfg, blackList, StageStart(level), draws).value.drawn| <= |cfg.bestiary|
  {
    hide DrawAll, NoDuplicates;
    NoDuplicatesEmpty();
    DrawAllKeeps(cfg, blackList, StageStart(level), draws);
    var g := DrawAll(cfg, blackList, StageStart(level), draws).value;
    DistinctWithin(g.drawn, cfg.bestiary.Keys);
    assert |cfg.bestiary.Keys| == |cfg.bestiary|;
  }

  /** The creatures that could still be taken. */
  function Left(cfg: Config, blackList: seq<uint16>, g: Grid): set<uint16> {
    set r | r in cfg.bestiary && Eligible(cfg, r) && r !in blackList && r !in g.drawn
  }

  lemma DrawSpends(cfg: Config, blackList: seq<uint16>, g: Grid, race: uint16)
    ensures var g' := Draw(cfg, blackList, g, race);
            |g'.list| + |Left(cfg, blackList, g')| <= |g.list| + |Left(cfg, blackList, g)|
  {
    var g' := Draw(cfg, blackList, g, race);
    if race in blackList + g.drawn || !Eligible(cfg, race) {
      assert Left(cfg, blackList, g') == Left(cfg, blackList, g);
    } else {
      assert Left(cfg, blackList, g') == Left(cfg, blackList, g) - {race};
    }
  }

  /** Once too few creatures are left, no draws whatever fill the grid: passed over creatures are lost. */
  lemma {:induction false} TooFewNeverFills(cfg: Config, blackList: seq<uint16>, g: Grid, draws: seq<uint16>)
    requires |g.list| + |Left(cfg, blackList, g)| < GRID
    ensures DrawAll(cfg, blackList, g, draws) == None
    decreases |draws|
  {
    hide Draw, Left;
    if draws != [] {
      DrawSpends(cfg, blackList, g, draws[0]);
      TooFewNeverFills(cfg, blackList, Draw(cfg, blackList, g, draws[0]), draws[1..]);
    }
  }

  /** Repeated draws until ten tries are reached, then one of the creatures left, which is then always taken. */
  lemma {:induction false} Fill(cfg: Config, blackList: seq<uint16>, g: Grid, known: uint16)
    returns (draws: seq<uint16>)
    requires known in cfg.bestiary && known in blackList + g.drawn
    requires |g.list| + |Left(cfg, blackList, g)| >= GRID
    ensures FromBestiary(cfg, draws) && DrawAll(cfg, blackList, g, draws).Some?
    decreases
      if |g.list| < GRID then GRID - |g.list| else 0,
      if g.tries == 255 then 10 else if g.tries < 9 then 9 - g.tries else 0
  {
    hide Left, Eligible;
    if |g.list| >= GRID {
      draws := [];
    } else {
      var next := known;
      if 9 <= g.tries < 255 {
        next := SomeLeft(cfg, blackList, g);
        InLeft(cfg, blackList, g, next);
      }
      var g' := Draw(cfg, blackList, g, next);
      if next == known {
        LeftSame(cfg, blackList, g, g');
      } else {
        LeftLess(cfg, blackList, g, next);
      }
      draws := Fill(cfg, blackList, g', known);
      assert ([next] + draws)[1..] == draws;
      draws := [next] + draws;
    }
  }

  lemma SomeLeft(cfg: Config, blackList: seq<uint16>, g: Grid) returns (race: uint16)
    requires |Left(cfg, blackList, g)| > 0
    ensures race in Left(cfg, blackList, g)
  {
    race :| race in Left(cfg, blackList, g);
  }

  lemma InLeft(cfg: Config, blackList: seq<uint16>, g: Grid, race: uint16)
    requires race in Left(cfg, blackList, g)
    ensures race in cfg.bestiary && Eligible(cfg, race) && race !in blackList + g.drawn
  {
  }

  lemma LeftSame(cfg: Config, blackList: seq<uint16>, g: Grid, g': Grid)
    requires g'.drawn == g.drawn
    ensures Left(cfg, blackList, g') == Left(cfg, blackList, g)
  {
  }

  lemma LeftLess(cfg: Config, blackList: seq<uint16>, g: Grid, race: uint16)
    requires race in cfg.bestiary && Eligible(cfg, race) && race !in blackList + g.drawn
    ensures var g' := Draw(cfg, blackList, g, race);
            Left(cfg, blackList, g') == Left(cfg, blackList, g) - {race} && race in Left(cfg, blackList, g)
  {
    hide Place;
    PlaceDrawn(g.(tries := (g.tries + 1) % 0x100, drawn := g.drawn + [race]), race, cfg.bestiary[race].value.stars);
  }

  lemma PlaceDrawn(g: Grid, race: uint16, stars: nat)
    ensures Place(g, race, stars).drawn == g.drawn
  {
  }

  // One slot.

  predicate Occupied(s: Slot) {
    s.selected != 0 && s.timeLeft > 0
  }

  predicate CanSelect(s: Slot) {
    s.state in {Selection, SelectionChangeMonster, ListSelection, Inactive}
  }

  function EraseBonus(s: Slot, maintainBonus: bool): Slot {
    var s1 := if maintainBonus then s else s.(bonus := NoBonus, percentage := 5, rarity := 1);
    s1.(state := Selection, option := NoOption, selected := 0, timeLeft := 0)
  }

  function Without(list: seq<uint16>, race: uint16): seq<uint16> {
    if list == [] then []
    else if list[0] == race then Without(list[1..], race)
    else [list[0]] + Without(list[1..], race)
  }

  lemma {:induction false} WithoutIs(list: seq<uint16>, race: uint16)
    ensures forall r :: r in Without(list, race) <==> r in list && r != race
    ensures NoDuplicates(list) ==> NoDuplicates(Without(list, race))
  {
    if list != [] {
      WithoutIs(list[1..], race);
      assert list == [list[0]] + list[1..];
      if NoDuplicates(list) && list[0] != race {
        PrependNew(list[0], Without(list[1..], race));
      }
    }
  }

  lemma PrependNew(x: uint16, s: seq<uint16>)
    requires NoDuplicates(s) && x !in s
    ensures NoDuplicates([x] + s)
  {
  }

  function Percent(bonus: Bonus, rarity: nat): nat {
    match bonus
    case Damage => 2 * rarity + 5
    case Defense => 2 * rarity + 10
    case _ => 3 * rarity + 10
  }

  /** The rolls of one renewal: the type drawn last and the rarity drawn. */
  datatype Rolls = Rolls(bonus: Bonus, rarity: nat)

  /** A type other than none, at the highest rarity a new one; a higher rarity up to ten. */
  predicate Rolled(s: Slot, r: Rolls) {
    && r.bonus != NoBonus && (s.rarity == 10 ==> r.bonus != s.bonus)
    && (s.rarity < 9 ==> s.rarity < r.rarity <= 10)
  }

  function ReloadType(s: Slot, r: Rolls): Slot {
    s.(bonus := r.bonus)
  }

  function ReloadValue(s: Slot, r: Rolls): Slot {
    var rarity := if s.rarity >= 9 then 10 else r.rarity;
    s.(rarity := rarity, percentage := Percent(s.bonus, rarity))
  }

  function Renew(s: Slot, r: Rolls): Slot {
    ReloadValue(ReloadType(s, r), r)
  }

  /** A new slot rolls the value before the type. */
  function NewSlot(r: Rolls): Slot {
    var s := EraseBonus(Slot(NoBonus, Locked, NoOption, [], 1, 0, 0, 0), false);
    ReloadType(ReloadValue(s, r), r)
  }

  /** So its percentage belongs to its type exactly for experience and loot. */
  lemma NewSlotPercentIff(r: Rolls)
    requires r.bonus != NoBonus && 1 < r.rarity <= 10
    ensures NewSlot(r).percentage == Percent(NewSlot(r).bonus, NewSlot(r).rarity)
            <==> r.bonus == Experience || r.bonus == Loot
  {
  }

  // The slots of a player.

  datatype Action =
    | ListReroll
    | BonusReroll
    | MonsterSelection(index: int)
    | ListAllCards
    | ListAllSelection(race: uint16)
    | SetOption(option: Renewal)

  /** What the moment gives: is the reroll free, is it paid, the level, the draws and the rolls. */
  datatype Moment = Moment(free: bool, paid: bool, level: nat, draws: seq<uint16>, rolls: Rolls)

  function BlackList(slots: seq<Slot>): seq<uint16> {
    if slots == [] then []
    else BlackList(slots[..|slots| - 1])
         + (if Occupied(slots[|slots| - 1]) then [slots[|slots| - 1].selected] else []) + slots[|slots| - 1].list
  }

  predicate OnSlot(cfg: Config, slots: seq<Slot>, race: uint16) {
    cfg.enabled && exists s :: s in slots && s.selected == race
  }

  function Choose(cfg: Config, s: Slot, race: uint16, m: Moment): Slot {
    var s1 := if s.bonus == NoBonus then Renew(s, m.rolls) else s;
    s1.(state := Active, selected := race, list := Without(s1.list, race), timeLeft := cfg.bonusTime)
  }

  function Reroll(s: Slot, list: seq<uint16>): Slot {
    var s1 := EraseBonus(s, true);
    (if s1.bonus != NoBonus then s1.(state := SelectionChangeMonster) else s1).(list := list)
  }

  /** `parsePreyAction` on slot `i`; `None` while the grid is still being drawn. */
  function Act(cfg: Config, slots: seq<Slot>, i: nat, a: Action, m: Moment): Option<Slot>
    requires i < |slots|
  {
    var s := slots[i];
    if s.state == Locked then Some(s) else
      match a
      case ListReroll =>
        if !m.free && !m.paid then Some(s) else
          (match Reload(cfg, BlackList(slots[i := Reroll(s, s.list)]), m.level, m.draws)
           case None => None
           case Some(list) => Some(Reroll(s, list)))
      case ListAllCards => Some(if m.paid then s.(timeLeft := 0, selected := 0, state := ListSelection) else s)
      case ListAllSelection(race) =>
        var refused := race in cfg.bestiary && cfg.bestiary[race].Some? && !cfg.bestiary[race].value.preyable;
        Some(if Occupied(s) || s.state != ListSelection || OnSlot(cfg, slots, race) || refused then s
             else Choose(cfg, s, race, m))
      case BonusReroll => Some(if Occupied(s) && m.paid then Renew(s, m.rolls).(timeLeft := cfg.bonusTime) else s)
      case MonsterSelection(index) =>
        Some(if Occupied(s) || !CanSelect(s) || !(0 <= index < |s.list|) || OnSlot(cfg, slots, s.list[index]) then s
             else Choose(cfg, s, s.list[index], m))
      case SetOption(option) => Some(if option == NoOption || m.paid then s.(option := option) else s)
  }

  /** What `checkPlayerPreys` does to slot `i` when `amount` has passed. */
  function Tick(cfg: Config, slots: seq<Slot>, i: nat, amount: uint8, m: Moment): Option<Slot>
    requires i < |slots|
  {
    var s := slots[i];
    if !Occupied(s) then Some(s)
    else if s.timeLeft > amount then Some(s.(timeLeft := s.timeLeft - amount))
    else if s.option == AutomaticReroll then
      Some(if m.paid then Renew(s, m.rolls).(timeLeft := cfg.bonusTime) else EraseBonus(s, false))
    else if s.option == LockedOption then
      Some(if m.paid then s.(timeLeft := cfg.bonusTime) else EraseBonus(s, false))
    else
      match Reload(cfg, BlackList(slots), m.level, m.draws)
      case None => None
      case Some(list) => Some(EraseBonus(s.(list := list), false))
  }

  /** The first `n` slots one after another, each seeing what the earlier ones became. */
  function TickAll(cfg: Config, slots: seq<Slot>, n: nat, amount: uint8, ms: seq<Moment>): (r: Option<seq<Slot>>)
    requires n <= |slots| == |ms|
    ensures r.Some? ==> |r.value| == |slots| && forall j | n <= j < |slots| :: r.value[j] == slots[j]
  {
    if n == 0 then Some(slots) else
      match TickAll(cfg, slots, n - 1, amount, ms)
      case None => None
      case Some(before) =>
        match Tick(cfg, before, n - 1, amount, ms[n - 1])
        case None => None
        case Some(s) => Some(before[n - 1 := s])
  }

  lemma {:induction false} TickAllStops(cfg: Config, slots: seq<Slot>, n: nat, m: nat, amount: uint8, ms: seq<Moment>)
    requires n <= m <= |slots| == |ms| && TickAll(cfg, slots, n, amount, ms).None?
    ensures TickAll(cfg, slots, m, amount, ms).None?
  {
    if n < m {
      TickAllStops(cfg, slots, n, m - 1, amount, ms);
    }
  }

  datatype Step = Do(i: nat, a: Action, m: Moment) | Pass(i: nat, amount: uint8, m: Moment)

  function SlotAfter(cfg: Config, slots: seq<Slot>, st: Step): Option<Slot>
    requires st.i < |slots|
  {
    match st
    case Do(i, a, m) => Act(cfg, slots, i, a, m)
    case Pass(i, amount, m) => Tick(cfg, slots, i, amount, m)
  }

  predicate Enabled(cfg: Config, slots: seq<Slot>, st: Step) {
    && st.i < |slots| && Rolled(slots[st.i], st.m.rolls) && FromBestiary(cfg, st.m.draws)
    && SlotAfter(cfg, slots, st).Some?
  }

  function Apply(cfg: Config, slots: seq<Slot>, st: Step): seq<Slot>
    requires Enabled(cfg, slots, st)
  {
    slots[st.i := SlotAfter(cfg, slots, st).value]
  }

  /** An occupied slot is active and its creature is off its own list; one to ten stars; no creature twice. */
  predicate SlotOk(s: Slot) {
    && (Occupied(s) ==> s.state == Active && s.selected !in s.list)
    && 1 <= s.rarity <= 10
    && NoDuplicates(s.list)
  }

  ghost predicate Inv(cfg: Config, slots: seq<Slot>) {
    && (forall i | 0 <= i < |slots| :: SlotOk(slots[i]))
    && (forall i, j | 0 <= i < |slots| && 0 <= j < |slots| && i != j :: Apart(slots[i].list, slots[j].list))
    && (forall i, j | 0 <= i < |slots| && 0 <= j < |slots| && i != j ::
          cfg.enabled && slots[i].selected != 0 ==> slots[i].selected != slots[j].selected)
  }

  /** The hunt runs out and is not renewed by a paid option. */
  predicate HuntEnds(s: Slot, st: Step) {
    st.Pass? && Occupied(s) && s.timeLeft <= st.amount && (s.option == NoOption || !st.m.paid)
  }

  /** The stars only fall when a hunt ends, and then the whole bonus is erased. */
  predicate RarityKept(s: Slot, r: Slot, st: Step) {
    if HuntEnds(s, st) then r == EraseBonus(s.(list := r.list), false) else r.rarity >= s.rarity
  }

  lemma {:induction false} BlackListHas(slots: seq<Slot>, i: nat)
    requires i < |slots|
    ensures forall r | r in slots[i].list :: r in BlackList(slots)
  {
    if i < |slots| - 1 {
      BlackListHas(slots[..|slots| - 1], i);
      assert slots[..|slots| - 1][i] == slots[i];
    }
  }

  /** A new grid repeats no creature and shares none with any list it was drawn beside. */
  lemma ReloadApart(cfg: Config, slots: seq<Slot>, level: nat, draws: seq<uint16>, j: nat)
    requires FromBestiary(cfg, draws) && Reload(cfg, BlackList(slots), level, draws).Some?
    ensures var list := Reload(cfg, BlackList(slots), level, draws).value;
            NoDuplicates(list)
            && (j < |slots| ==> Apart(list, slots[j].list) && Apart(slots[j].list, list))
  {
    hide DrawAll, StageStart, Eligible, BlackList;
    if j < |slots| {
      BlackListHas(slots, j);
    }
    if Plays(cfg) {
      GridIsNine(cfg, BlackList(slots), level, draws);
    }
  }

  /** What a step may do to its slot, seen from the others. */
  predicate Fits(cfg: Config, slots: seq<Slot>, i: nat, r: Slot)
    requires i < |slots|
  {
    && SlotOk(r)
    && (r.selected == 0 || r.selected == slots[i].selected || !OnSlot(cfg, slots, r.selected))
    && ((forall x | x in r.list :: x in slots[i].list)
        || (forall j | 0 <= j < |slots| :: Apart(r.list, slots[j].list) && Apart(slots[j].list, r.list)))
  }

  lemma FitsKeeps(cfg: Config, slots: seq<Slot>, i: nat, r: Slot)
    requires Inv(cfg, slots) && i < |slots| && Fits(cfg, slots, i, r)
    ensures Inv(cfg, slots[i := r])
  {
    hide SlotOk;
    var n := slots[i := r];
    forall j | 0 <= j < |slots| && j != i
      ensures Apart(r.list, slots[j].list) && Apart(slots[j].list, r.list)
      ensures cfg.enabled && r.selected != 0 ==> r.selected != slots[j].selected
      ensures cfg.enabled && slots[j].selected != 0 ==> r.selected != slots[j].selected
    {
      assert slots[j] in slots;
      assert Apart(slots[i].list, slots[j].list) && Apart(slots[j].list, slots[i].list);
    }
  }

  /** `seen` are the slots as they were when the blacklist was made. */
  lemma ReloadFits(cfg: Config, slots: seq<Slot>, seen: seq<Slot>, i: nat, level: nat, draws: seq<uint16>, r: Slot)
    requires Inv(cfg, slots) && i < |slots| && FromBestiary(cfg, draws)
    requires |seen| == |slots| && forall j | 0 <= j < |slots| :: seen[j].list == slots[j].list
    requires Reload(cfg, BlackList(seen), level, draws) == Some(r.list)
    requires r.selected == 0 && 1 <= r.rarity <= 10
    ensures Fits(cfg, slots, i, r)
  {
    hide OnSlot, Reload, BlackList, NoDuplicates, Apart;
    ReloadApart(cfg, seen, level, draws, i);
    forall j | 0 <= j < |slots|
      ensures Apart(r.list, slots[j].list) && Apart(slots[j].list, r.list)
    {
      ReloadApart(cfg, seen, level, draws, j);
    }
  }

  lemma ActFits(cfg: Config, slots: seq<Slot>, i: nat, a: Action, m: Moment)
    requires Inv(cfg, slots) && i < |slots| && Rolled(slots[i], m.rolls) && FromBestiary(cfg, m.draws)
    requires Act(cfg, slots, i, a, m).Some?
    ensures Fits(cfg, slots, i, Act(cfg, slots, i, a, m).value)
    ensures Act(cfg, slots, i, a, m).value.rarity >= slots[i].rarity
  {
    hide OnSlot, Reload, BlackList, NoDuplicates, Apart, FromBestiary;
    match a
    case ListReroll =>
      if slots[i].state != Locked && (m.free || m.paid) {
        var seen := slots[i := Reroll(slots[i], slots[i].list)];
        ReloadFits(cfg, slots, seen, i, m.level, m.draws, Act(cfg, slots, i, a, m).value);
      }
    case ListAllSelection(race) =>
      if !OnSlot(cfg, slots, race) {
        WithoutIs(slots[i].list, race);
      }
    case MonsterSelection(index) =>
      if 0 <= index < |slots[i].list| && !OnSlot(cfg, slots, slots[i].list[index]) {
        WithoutIs(slots[i].list, slots[i].list[index]);
      }
    case _ =>
  }

  lemma TickFits(cfg: Config, slots: seq<Slot>, i: nat, amount: uint8, m: Moment)
    requires Inv(cfg, slots) && i < |slots| && Rolled(slots[i], m.rolls) && FromBestiary(cfg, m.draws)
    requires Tick(cfg, slots, i, amount, m).Some?
    ensures Fits(cfg, slots, i, Tick(cfg, slots, i, amount, m).value)
    ensures RarityKept(slots[i], Tick(cfg, slots, i, amount, m).value, Pass(i, amount, m))
  {
    hide OnSlot, Reload, BlackList, NoDuplicates, Apart, FromBestiary;
    var s := slots[i];
    if Occupied(s) && s.timeLeft <= amount && s.option == NoOption {
      ReloadFits(cfg, slots, slots, i, m.level, m.draws, Tick(cfg, slots, i, amount, m).value);
    }
  }

  /** Every action and every tick keeps the slots consistent, and the stars unless a hunt ends. */
  lemma StepKeeps(cfg: Config, slots: seq<Slot>, st: Step)
    requires Inv(cfg, slots) && Enabled(cfg, slots, st)
    ensures Inv(cfg, Apply(cfg, slots, st))
    ensures RarityKept(slots[st.i], Apply(cfg, slots, st)[st.i], st)
  {
    hide Inv, Fits, Act, Tick, FromBestiary, Rolled;
    match st {
      case Do(i, a, m) =>
        ActFits(cfg, slots, i, a, m);
      case Pass(i, amount, m) =>
        TickFits(cfg, slots, i, amount, m);
    }
    FitsKeeps(cfg, slots, st.i, SlotAfter(cfg, slots, st).value);
  }

  // The first slots of a player.

  datatype Rights = Rights(premium: bool, freeThird: bool)

  predicate StartsLocked(rights: Rights, n: nat) {
    (n == 2 && !rights.freeThird) || (n == 1 && !rights.premium)
  }

  /** The next slot of `initializePrey`, behind the slots `before`. */
  function Opened(cfg: Config, rights: Rights, before: seq<Slot>, m: Moment): Option<Slot> {
    var s := NewSlot(m.rolls);
    if !cfg.enabled then Some(s.(state := Inactive))
    else if StartsLocked(rights, |before|) then Some(s.(state := Locked))
    else
      match Reload(cfg, BlackList(before), m.level, m.draws)
      case None => None
      case Some(list) => Some(s.(state := Selection, list := list))
  }

  function Initialize(cfg: Config, rights: Rights, ms: seq<Moment>): Option<seq<Slot>> {
    if ms == [] then Some([]) else
      match Initialize(cfg, rights, ms[..|ms| - 1])
      case None => None
      case Some(before) =>
        match Opened(cfg, rights, before, ms[|ms| - 1])
        case None => None
        case Some(s) => Some(before + [s])
  }

  /** What the constructor of a slot draws, and draws from the bestiary. */
  predicate FreshMoment(cfg: Config, m: Moment) {
    m.rolls.bonus != NoBonus && 1 < m.rolls.rarity <= 10 && FromBestiary(cfg, m.draws)
  }

  lemma OpenedOk(cfg: Config, rights: Rights, before: seq<Slot>, m: Moment)
    requires FreshMoment(cfg, m) && Opened(cfg, rights, before, m).Some?
    ensures var s := Opened(cfg, rights, before, m).value;
            SlotOk(s) && s.selected == 0
            && forall j | 0 <= j < |before| :: Apart(s.list, before[j].list) && Apart(before[j].list, s.list)
  {
    hide Reload, BlackList, NoDuplicates, FromBestiary;
    NoDuplicatesEmpty();
    var s := Opened(cfg, rights, before, m).value;
    if s.list != [] {
      ReloadApart(cfg, before, m.level, m.draws, 0);
      forall j | 0 <= j < |before|
        ensures Apart(s.list, before[j].list) && Apart(before[j].list, s.list)
      {
        ReloadApart(cfg, before, m.level, m.draws, j);
      }
    }
  }

  /** A new player's slots are consistent, so that every run of them starts well. */
  lemma {:induction false} InitializeOk(cfg: Config, rights: Rights, ms: seq<Moment>)
    requires forall k | 0 <= k < |ms| :: FreshMoment(cfg, ms[k])
    requires Initialize(cfg, rights, ms).Some?
    ensures Inv(cfg, Initialize(cfg, rights, ms).value)
  {
    hide Opened, SlotOk, Apart, FreshMoment;
    if ms != [] {
      var n := |ms| - 1;
      InitializeOk(cfg, rights, ms[..n]);
      var before := Initialize(cfg, rights, ms[..n]).value;
      assert FreshMoment(cfg, ms[n]);
      OpenedOk(cfg, rights, before, ms[n]);
    }
  }

  ghost predicate Run(cfg: Config, slots: seq<Slot>, steps: seq<Step>)
    decreases |steps|
  {
    steps == [] || (Enabled(cfg, slots, steps[0]) && Run(cfg, Apply(cfg, slots, steps[0]), steps[1..]))
  }

  function After(cfg: Config, slots: seq<Slot>, steps: seq<Step>): seq<Slot>
    requires Run(cfg, slots, steps)
    decreases |steps|
  {
    if steps == [] then slots else After(cfg, Apply(cfg, slots, steps[0]), steps[1..])
  }

  /** So it is after every run of actions and ticks. */
  lemma {:induction false} RunKeeps(cfg: Config, slots: seq<Slot>, steps: seq<Step>)
    requires Inv(cfg, slots) && Run(cfg, slots, steps)
    ensures Inv(cfg, After(cfg, slots, steps))
    decreases |steps|
  {
    hide Inv, Enabled, Apply;
    if steps != [] {
      StepKeeps(cfg, slots, steps[0]);
      RunKeeps(cfg, Apply(cfg, slots, steps[0]), steps[1..]);
    }
  }

  /** No hunt of slot `i` ends in the run. */
  ghost predicate NoHuntEnds(cfg: Config, slots: seq<Slot>, steps: seq<Step>, i: nat)
    requires Run(cfg, slots, steps)
    decreases |steps|
  {
    steps == []
    || ((steps[0].i == i ==> !HuntEnds(slots[i], steps[0]))
        && NoHuntEnds(cfg, Apply(cfg, slots, steps[0]), steps[1..], i))
  }

  /** Until a hunt of the slot ends its stars never fall, whatever happens to it and to the others. */
  lemma {:induction false} StarsNeverFall(cfg: Config, slots: seq<Slot>, steps: seq<Step>, i: nat)
    requires Inv(cfg, slots) && i < |slots| && Run(cfg, slots, steps) && NoHuntEnds(cfg, slots, steps, i)
    ensures |After(cfg, slots, steps)| == |slots|
    ensures slots[i].rarity <= After(cfg, slots, steps)[i].rarity
    decreases |steps|
  {
    hide SlotAfter, HuntEnds, Rolled, FromBestiary, NoDuplicates, Apart;
    if steps != [] {
      StepKeeps(cfg, slots, steps[0]);
      StarsNeverFall(cfg, Apply(cfg, slots, steps[0]), steps[1..], i);
    }
  }
}

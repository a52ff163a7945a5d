/** The charm economy: points and echoes, tiers, assigned creatures, and the bestiary awards that feed it. */
module CharmLedger {
  import opened Bytes
  import opened Options
  import opened RuneBits

  const CHARMS := 25
  const MAX_TIER := 3
  const TWO32: nat := 0x1_0000_0000

  type CharmId = k: nat | k < CHARMS

  datatype Category = Major | Minor | Neither

  /** A charm with the price of each tier. */
  datatype Charm = Charm(category: Category, points: seq<uint16>)

  datatype Monster = Monster(firstUnlock: nat, secondUnlock: nat, toUnlock: nat, charmPoints: uint16)

  /** The charm list and the bestiary: a race is known when it has a monster. */
  datatype Env = Env(charms: map<CharmId, Charm>, bestiary: map<uint16, Monster>)

  datatype Ledger = Ledger(points: uint32, maxPoints: uint32, echoes: uint32, maxEchoes: uint32,
                           tiers: seq<nat>, races: seq<uint16>, used: nat, unlocked: nat, kills: map<uint16, nat>)

  /** What the player is at the moment of a request: slots, money, promotion. */
  datatype Standing = Standing(premium: bool, expansion: bool, paid: bool, promoted: bool)

  datatype Action =
    | Buy(id: CharmId)
    | Assign(id: CharmId, race: uint16)
    | Remove(id: CharmId)
    | ResetAll
    | Kill(race: uint16, amount: nat)

  predicate ValidEnv(env: Env) {
    forall id | id in env.charms :: |env.charms[id].points| == MAX_TIER
  }

  // Spending.

  function TierCost(c: Charm, tier: nat): nat
    requires tier <= |c.points|
  {
    if tier == 0 then 0 else TierCost(c, tier - 1) + c.points[tier - 1]
  }

  predicate ValidTiers(tiers: seq<nat>) {
    |tiers| == CHARMS && forall i | 0 <= i < CHARMS :: tiers[i] <= MAX_TIER
  }

  /** What the current tiers of the first `n` charms of a category have cost. */
  function SpentUpTo(env: Env, tiers: seq<nat>, cat: Category, n: nat): nat
    requires ValidEnv(env) && ValidTiers(tiers) && n <= CHARMS
  {
    if n == 0 then 0
    else
      SpentUpTo(env, tiers, cat, n - 1)
      + if n - 1 in env.charms && env.charms[n - 1].category == cat
        then TierCost(env.charms[n - 1], tiers[n - 1]) else 0
  }

  function Spent(env: Env, tiers: seq<nat>, cat: Category): nat
    requires ValidEnv(env) && ValidTiers(tiers)
  {
    SpentUpTo(env, tiers, cat, CHARMS)
  }

  lemma {:induction false} TierBought(env: Env, tiers: seq<nat>, cat: Category, id: CharmId, n: nat)
    requires ValidEnv(env) && ValidTiers(tiers) && n <= CHARMS
    requires id in env.charms && tiers[id] < MAX_TIER
    ensures ValidTiers(tiers[id := tiers[id] + 1])
    ensures SpentUpTo(env, tiers[id := tiers[id] + 1], cat, n)
         == SpentUpTo(env, tiers, cat, n)
            + if id < n && env.charms[id].category == cat then env.charms[id].points[tiers[id]] else 0
  {
    if n > 0 {
      TierBought(env, tiers, cat, id, n - 1);
    }
  }

  function NoTiers(): (t: seq<nat>)
    ensures |t| == CHARMS && forall k | 0 <= k < CHARMS :: t[k] == 0
  {
    seq(CHARMS, _ => 0)
  }

  lemma {:induction false} NothingSpent(env: Env, cat: Category, n: nat)
    requires ValidEnv(env) && n <= CHARMS
    ensures ValidTiers(NoTiers()) && SpentUpTo(env, NoTiers(), cat, n) == 0
  {
    if n > 0 {
      NothingSpent(env, cat, n - 1);
    }
  }

  // The requests.

  function Plus32(a: uint32, b: nat): uint32 {
    (a + b) % TWO32
  }

  function AddPoints(s: Ledger, amount: nat): Ledger {
    s.(points := Plus32(s.points, amount), maxPoints := Plus32(s.maxPoints, amount))
  }

  function AddEchoes(s: Ledger, amount: nat): Ledger {
    s.(echoes := Plus32(s.echoes, amount), maxEchoes := Plus32(s.maxEchoes, amount))
  }

  function EchoReward(tier: nat): nat {
    25 * tier * tier + 25 * tier + 50
  }

  function BuyTier(env: Env, s: Ledger, id: CharmId): Ledger
    requires ValidEnv(env) && ValidTiers(s.tiers)
  {
    if id !in env.charms || env.charms[id].category.Neither? || s.tiers[id] > 2 then s else
      var charm, tier := env.charms[id], s.tiers[id];
      var cost := charm.points[tier];
      if charm.category.Major? then
        if s.points < cost then s else
          AddEchoes(s.(points := s.points - cost), EchoReward(tier))
            .(tiers := s.tiers[id := tier + 1], unlocked := Raised(s.unlocked, id))
      else
        if s.echoes < cost then s else
          s.(echoes := s.echoes - cost, tiers := s.tiers[id := tier + 1], unlocked := Raised(s.unlocked, id))
  }

  function Slots(st: Standing): nat {
    if !st.premium then 2 else if st.expansion then 25 else 6
  }

  /** Another charm of that category, or this one, is already in use on the creature. */
  predicate Taken(env: Env, s: Ledger, race: uint16, cat: Category)
    requires |s.races| == CHARMS
  {
    exists k: CharmId :: Bit(s.used, k) && k in env.charms && env.charms[k].category == cat && s.races[k] == race
  }

  predicate Assignable(env: Env, s: Ledger, st: Standing, id: CharmId, race: uint16)
    requires |s.races| == CHARMS
  {
    && id in env.charms
    && |BitsFrom(s.used, 0)| < Slots(st)
    && (race in env.bestiary ==>
          && (env.charms[id].category.Major? ==> KillsOf(s, race) >= env.bestiary[race].toUnlock)
          && (env.charms[id].category.Neither? || !Taken(env, s, race, env.charms[id].category)))
  }

  function KillsOf(s: Ledger, race: uint16): nat {
    if race in s.kills then s.kills[race] else 0
  }

  /** A kill that reaches a new stage is shown; if the creature is then complete, its points are paid. */
  predicate StageReached(m: Monster, before: nat, after: nat) {
    || before == 0
    || before < m.firstUnlock <= after
    || before < m.secondUnlock <= after
    || before < m.toUnlock <= after
  }

  predicate Pays(m: Monster, before: nat, after: nat) {
    StageReached(m, before, after) && after >= m.toUnlock
  }

  function AddKill(env: Env, s: Ledger, race: uint16, amount: nat): Ledger {
    if race == 0 || race !in env.bestiary then s else
      var m, before := env.bestiary[race], KillsOf(s, race);
      var s1 := s.(kills := s.kills[race := before + amount]);
      if Pays(m, before, before + amount) then AddPoints(s1, m.charmPoints) else s1
  }

  function NoRaces(): (r: seq<uint16>)
    ensures |r| == CHARMS
  {
    seq(CHARMS, _ => 0)
  }

  function Apply(env: Env, s: Ledger, st: Standing, a: Action): Ledger
    requires ValidEnv(env) && ValidTiers(s.tiers) && |s.races| == CHARMS
  {
    match a
    case Buy(id) => BuyTier(env, s, id)
    case Assign(id, race) =>
      if Assignable(env, s, st, id, race) then s.(races := s.races[id := race], used := Raised(s.used, id)) else s
    case Remove(id) =>
      if id in env.charms && st.paid then s.(races := s.races[id := 0], used := Lowered(s.used, id)) else s
    case ResetAll =>
      if !st.paid then s else
        s.(races := NoRaces(), tiers := NoTiers(), points := s.maxPoints, used := 0, unlocked := 0,
           echoes := ResetEchoes(st), maxEchoes := ResetEchoes(st))
    case Kill(race, amount) => AddKill(env, s, race, amount)
  }

  function ResetEchoes(st: Standing): uint32 {
    if st.promoted then 100 else 0
  }

  // What every request keeps.

  ghost predicate MoneyOk(env: Env, s: Ledger)
    requires ValidEnv(env) && ValidTiers(s.tiers)
  {
    && Plus32(s.points, Spent(env, s.tiers, Major)) == s.maxPoints
    && Plus32(s.echoes, Spent(env, s.tiers, Minor)) == s.maxEchoes
  }

  ghost predicate TiersOk(env: Env, s: Ledger)
    requires ValidTiers(s.tiers)
  {
    && (forall k: nat :: Bit(s.unlocked, k) <==> k < CHARMS && s.tiers[k] > 0)
    && (forall k: CharmId :: s.tiers[k] > 0 ==> k in env.charms)
  }

  ghost predicate UseOk(env: Env, s: Ledger)
    requires |s.races| == CHARMS
  {
    && (forall k: nat :: Bit(s.used, k) ==> k < CHARMS && k in env.charms)
    && (forall j: CharmId, k: CharmId | j < k && Bit(s.used, j) && Bit(s.used, k) ::
          s.races[j] == s.races[k] && s.races[j] in env.bestiary ==>
          env.charms[j].category.Neither? || env.charms[j].category != env.charms[k].category)
  }

  ghost predicate Inv(env: Env, s: Ledger) {
    ValidEnv(env) && ValidTiers(s.tiers) && |s.races| == CHARMS && MoneyOk(env, s) && TiersOk(env, s) && UseOk(env, s)
  }

  lemma PlusTwice(a: uint32, b: nat, c: nat)
    ensures Plus32(Plus32(a, b), c) == Plus32(Plus32(a, c), b)
  {
  }

  lemma Paid(points: uint32, cost: nat, spent: nat)
    requires cost <= points
    ensures Plus32(points - cost, spent + cost) == Plus32(points, spent)
  {
  }

  lemma BuyKeepsMoney(env: Env, s: Ledger, id: CharmId)
    requires Inv(env, s)
    ensures var r := BuyTier(env, s, id);
            ValidTiers(r.tiers) && MoneyOk(env, r)
  {
    hide UseOk, TiersOk, Raised, SpentUpTo, Plus32, ValidTiers;
    var r := BuyTier(env, s, id);
    if r != s {
      ValidTier(s.tiers, id);
      TierBought(env, s.tiers, Major, id, CHARMS);
      TierBought(env, s.tiers, Minor, id, CHARMS);
      var tier := s.tiers[id];
      var cost := env.charms[id].points[tier];
      if env.charms[id].category.Major? {
        Paid(s.points, cost, Spent(env, s.tiers, Major));
        PlusTwice(s.echoes, EchoReward(tier), Spent(env, s.tiers, Minor));
      } else {
        Paid(s.echoes, cost, Spent(env, s.tiers, Minor));
      }
    }
  }

  lemma ValidTier(tiers: seq<nat>, id: CharmId)
    requires ValidTiers(tiers)
    ensures |tiers| == CHARMS && tiers[id] <= MAX_TIER
  {
  }

  lemma BuyKeepsTiers(env: Env, s: Ledger, id: CharmId)
    requires ValidEnv(env) && ValidTiers(s.tiers) && TiersOk(env, s)
    requires ValidTiers(BuyTier(env, s, id).tiers)
    ensures TiersOk(env, BuyTier(env, s, id))
    ensures BuyTier(env, s, id).races == s.races && BuyTier(env, s, id).used == s.used
  {
    hide Raised, Bit, Plus32;
    forall k: nat {
      RaisedBit(s.unlocked, id, k);
    }
  }

  lemma SameUse(env: Env, s: Ledger, r: Ledger)
    requires |s.races| == CHARMS && UseOk(env, s) && r.races == s.races && r.used == s.used
    ensures UseOk(env, r)
  {
  }

  lemma AssignKeeps(env: Env, s: Ledger, st: Standing, id: CharmId, race: uint16)
    requires Inv(env, s) && Assignable(env, s, st, id, race)
    ensures UseOk(env, s.(races := s.races[id := race], used := Raised(s.used, id)))
  {
    hide Raised, Bit, MoneyOk, TiersOk, BitsFrom;
    forall k: nat {
      RaisedBit(s.used, id, k);
    }
  }

  lemma RemoveKeeps(env: Env, s: Ledger, id: CharmId)
    requires Inv(env, s)
    ensures UseOk(env, s.(races := s.races[id := 0], used := Lowered(s.used, id)))
  {
    hide Lowered, Bit, MoneyOk, TiersOk;
    forall k: nat {
      LoweredBit(s.used, id, k);
    }
  }

  /** Every request keeps the books balanced, the unlocked bits true and no creature doubly charmed. */
  lemma StepKeeps(env: Env, s: Ledger, st: Standing, a: Action)
    requires Inv(env, s)
    ensures Inv(env, Apply(env, s, st, a))
  {
    hide UseOk, TiersOk, MoneyOk, Raised, Lowered, BuyTier, Assignable;
    match a
    case Buy(id) =>
      BuyKeepsMoney(env, s, id);
      BuyKeepsTiers(env, s, id);
      SameUse(env, s, BuyTier(env, s, id));
    case Assign(id, race) =>
      if Assignable(env, s, st, id, race) {
        AssignKeeps(env, s, st, id, race);
        SameTiers(env, s, Apply(env, s, st, a));
        SameMoney(env, s, Apply(env, s, st, a));
      }
    case Remove(id) =>
      RemoveKeeps(env, s, id);
      SameTiers(env, s, s.(races := s.races[id := 0], used := Lowered(s.used, id)));
      SameMoney(env, s, s.(races := s.races[id := 0], used := Lowered(s.used, id)));
    case ResetAll =>
      ResetOk(env, Apply(env, s, st.(paid := true), a));
    case Kill(race, amount) =>
      KillKeepsMoney(env, s, race, amount);
      SameTiers(env, s, AddKill(env, s, race, amount));
      SameUse(env, s, AddKill(env, s, race, amount));
  }

  lemma SameTiers(env: Env, s: Ledger, r: Ledger)
    requires ValidTiers(s.tiers) && TiersOk(env, s) && r.tiers == s.tiers && r.unlocked == s.unlocked
    ensures TiersOk(env, r)
  {
  }

  lemma SameMoney(env: Env, s: Ledger, r: Ledger)
    requires ValidEnv(env) && ValidTiers(s.tiers) && MoneyOk(env, s) && r.tiers == s.tiers
    requires r.points == s.points && r.maxPoints == s.maxPoints && r.echoes == s.echoes && r.maxEchoes == s.maxEchoes
    ensures MoneyOk(env, r)
  {
  }

  lemma KillKeepsMoney(env: Env, s: Ledger, race: uint16, amount: nat)
    requires ValidEnv(env) && ValidTiers(s.tiers) && MoneyOk(env, s)
    ensures MoneyOk(env, AddKill(env, s, race, amount))
  {
    hide SpentUpTo, Plus32, Pays;
    if race in env.bestiary {
      PlusTwice(s.points, env.bestiary[race].charmPoints, Spent(env, s.tiers, Major));
    }
  }

  lemma ResetOk(env: Env, s: Ledger)
    requires s.tiers == NoTiers() && s.races == NoRaces() && s.used == 0 && s.unlocked == 0
    requires ValidEnv(env) && s.points == s.maxPoints && s.echoes == s.maxEchoes
    ensures ValidTiers(s.tiers) && MoneyOk(env, s) && TiersOk(env, s) && |s.races| == CHARMS && UseOk(env, s)
  {
    NothingSpent(env, Major, CHARMS);
    NothingSpent(env, Minor, CHARMS);
    forall k: nat {
      ZeroBits(k);
    }
  }

  function After(env: Env, s: Ledger, steps: seq<(Standing, Action)>): Ledger
    requires Inv(env, s)
    decreases |steps|
  {
    if steps == [] then s
    else
      StepKeeps(env, s, steps[0].0, steps[0].1);
      After(env, Apply(env, s, steps[0].0, steps[0].1), steps[1..])
  }

  const NEW_PLAYER := Ledger(0, 0, 0, 0, NoTiers(), NoRaces(), 0, 0, map[])

  /** So it holds after every run of purchases, assignments, removals, resets and kills. */
  lemma {:induction false} RunKeeps(env: Env, s: Ledger, steps: seq<(Standing, Action)>)
    requires Inv(env, s)
    ensures Inv(env, After(env, s, steps))
    decreases |steps|
  {
    hide MoneyOk, TiersOk, UseOk, Apply;
    if steps != [] {
      StepKeeps(env, s, steps[0].0, steps[0].1);
      RunKeeps(env, Apply(env, s, steps[0].0, steps[0].1), steps[1..]);
    }
  }

  /** On a known creature there is at most one charm of each category in use. */
  lemma OneCharmEach(env: Env, s: Ledger, j: CharmId, k: CharmId)
    requires Inv(env, s) && Bit(s.used, j) && Bit(s.used, k)
    requires s.races[j] == s.races[k] && s.races[j] in env.bestiary
    requires env.charms[j].category == env.charms[k].category && !env.charms[j].category.Neither?
    ensures j == k
  {
    hide MoneyOk, TiersOk, Bit;
    assert j < k || k < j || j == k;
  }

  /** An assignment never goes over the slots of the player. */
  lemma AssignFits(env: Env, s: Ledger, st: Standing, id: CharmId, race: uint16)
    requires |s.races| == CHARMS && Assignable(env, s, st, id, race)
    ensures |BitsFrom(Raised(s.used, id), 0)| <= Slots(st)
  {
    RaisedCount(s.used, id, 0);
  }

  lemma {:induction false} RaisedCount(n: nat, i: nat, from: nat)
    ensures |BitsFrom(Raised(n, i), from)| <= |BitsFrom(n, from)| + 1
    decreases i
  {
    var r := Raised(n, i);
    if i == 0 {
      assert r / 2 == n / 2;
      assert n == 0 ==> BitsFrom(0, from + 1) == [];
    } else {
      RaisedCount(n / 2, i - 1, from + 1);
      assert r / 2 == Raised(n / 2, i - 1) && r % 2 == n % 2;
      assert n == 0 ==> BitsFrom(n / 2, from + 1) == [];
    }
  }

  // How often a creature pays.

  function Sum(batches: seq<nat>): nat {
    if batches == [] then 0 else batches[0] + Sum(batches[1..])
  }

  function Awards(m: Monster, before: nat, batches: seq<nat>): nat
    decreases |batches|
  {
    if batches == [] then 0
    else (if Pays(m, before, before + batches[0]) then 1 else 0) + Awards(m, before + batches[0], batches[1..])
  }

  predicate Ordered(m: Monster) {
    m.firstUnlock <= m.toUnlock && m.secondUnlock <= m.toUnlock
  }

  lemma {:induction false} OrderedAwards(m: Monster, before: nat, batches: seq<nat>)
    requires Ordered(m) && m.toUnlock > 0
    ensures Awards(m, before, batches) == if before < m.toUnlock <= before + Sum(batches) then 1 else 0
    decreases |batches|
  {
    if batches != [] {
      OrderedAwards(m, before + batches[0], batches[1..]);
    }
  }

  /** One award for any kills that complete the creature, none for fewer. */
  ghost predicate PaysOnce(m: Monster) {
    forall batches | batches != [] :: Awards(m, 0, batches) == if Sum(batches) >= m.toUnlock then 1 else 0
  }

  /** A first stage, or a second, that lies behind the last one pays again. */
  lemma PaysTwice(m: Monster)
    requires m.toUnlock > 0 && !Ordered(m)
    ensures !PaysOnce(m)
  {
    var late := if m.firstUnlock > m.toUnlock then m.firstUnlock else m.secondUnlock;
    var batches := [m.toUnlock, late - m.toUnlock];
    assert batches[1..] == [late - m.toUnlock] && batches[1..][1..] == [];
    assert Sum(batches[1..]) == late - m.toUnlock;
    assert Sum(batches) == late;
    assert Awards(m, 0, batches) >= 2 by {
      assert Awards(m, m.toUnlock, batches[1..]) >= 1;
    }
  }

  /** A creature that is complete without any kill pays for every empty batch. */
  lemma PaysForNothing(m: Monster)
    requires m.toUnlock == 0
    ensures Awards(m, 0, [0, 0]) == 2 && !PaysOnce(m)
  {
    assert [0, 0][1..] == [0] && [0][1..] == [];
    assert Awards(m, 0, [0]) == 1;
    assert Sum([0, 0]) >= 0;
  }

  /**
   However the kills come in, a complete creature pays its points once: exactly when it takes kills to
   complete it and its first two stages do not lie behind the last one.
   */
  lemma PaysOnceIff(m: Monster)
    ensures PaysOnce(m) <==> m.toUnlock > 0 && Ordered(m)
  {
    if m.toUnlock == 0 {
      PaysForNothing(m);
    } else if Ordered(m) {
      forall batches | batches != []
        ensures Awards(m, 0, batches) == if Sum(batches) >= m.toUnlock then 1 else 0
      {
        OrderedAwards(m, 0, batches);
      }
    } else {
      PaysTwice(m);
    }
  }

  function AfterKills(env: Env, s: Ledger, race: uint16, batches: seq<nat>): Ledger
    decreases |batches|
  {
    if batches == [] then s else AfterKills(env, AddKill(env, s, race, batches[0]), race, batches[1..])
  }

  /** Each award raises both the points and their maximum by what the creature is worth. */
  lemma {:induction false} KillsPay(env: Env, s: Ledger, race: uint16, batches: seq<nat>)
    requires race != 0 && race in env.bestiary
    ensures var m := env.bestiary[race];
            var paid := Awards(m, KillsOf(s, race), batches) * m.charmPoints;
            && AfterKills(env, s, race, batches).maxPoints == Plus32(s.maxPoints, paid)
            && AfterKills(env, s, race, batches).points == Plus32(s.points, paid)
    decreases |batches|
  {
    hide Pays;
    var m := env.bestiary[race];
    if batches == [] {
      PlusNothing(s.maxPoints);
      PlusNothing(s.points);
    } else {
      var next := AddKill(env, s, race, batches[0]);
      KillsPay(env, next, race, batches[1..]);
      var more := Awards(m, KillsOf(next, race), batches[1..]) * m.charmPoints;
      PlusMore(s.maxPoints, m.charmPoints, more);
      PlusMore(s.points, m.charmPoints, more);
      assert (1 + Awards(m, KillsOf(next, race), batches[1..])) * m.charmPoints == m.charmPoints + more;
    }
  }

  lemma PlusNothing(a: uint32)
    ensures Plus32(a, 0) == a
  {
  }

  lemma PlusMore(a: uint32, b: nat, c: nat)
    ensures Plus32(Plus32(a, b), c) == Plus32(a, b + c)
  {
  }

  // The same in place.

  class Player {
    const env: Env
    var charmPoints: uint32
    var maxCharmPoints: uint32
    var minorCharmEchoes: uint32
    var maxMinorCharmEchoes: uint32
    var tiers: seq<nat>
    var races: seq<uint16>
    var usedRunesBit: nat
    var unlockedRunesBit: nat
    var kills: map<uint16, nat>

    ghost function State(): Ledger
      reads this
    {
      Ledger(charmPoints, maxCharmPoints, minorCharmEchoes, maxMinorCharmEchoes, tiers, races, usedRunesBit,
             unlockedRunesBit, kills)
    }

    ghost predicate Valid()
      reads this
    {
      Inv(env, State())
    }

    constructor (env: Env)
      requires ValidEnv(env)
      ensures this.env == env && Valid()
    {
      this.env := env;
      charmPoints, maxCharmPoints, minorCharmEchoes, maxMinorCharmEchoes := 0, 0, 0, 0;
      tiers, races, usedRunesBit, unlockedRunesBit, kills := NoTiers(), NoRaces(), 0, 0, map[];
      new;
      ResetOk(env, State());
    }

    method AddCharmPoints(amount: nat, negative: bool)
      requires negative ==> amount <= charmPoints
      modifies this`charmPoints, this`maxCharmPoints
      ensures State() == if negative then old(State()).(points := old(charmPoints) - amount)
                         else AddPoints(old(State()), amount)
    {
      if negative {
        charmPoints := charmPoints - amount;
      } else {
        maxCharmPoints := (maxCharmPoints + amount) % TWO32;
        charmPoints := (charmPoints + amount) % TWO32;
      }
    }

    method AddMinorCharmEchoes(amount: nat, negative: bool)
      requires negative ==> amount <= minorCharmEchoes
      modifies this`minorCharmEchoes, this`maxMinorCharmEchoes
      ensures State() == if negative then old(State()).(echoes := old(minorCharmEchoes) - amount)
                         else AddEchoes(old(State()), amount)
    {
      if negative {
        minorCharmEchoes := minorCharmEchoes - amount;
      } else {
        maxMinorCharmEchoes := (maxMinorCharmEchoes + amount) % TWO32;
        minorCharmEchoes := (minorCharmEchoes + amount) % TWO32;
      }
    }

    /** The charms in use on a creature, by category. */
    method GetCharmFromTarget(race: uint16) returns (major: Option<CharmId>, minor: Option<CharmId>)
      requires Valid()
      ensures major.Some? <==> Taken(env, State(), race, Major)
      ensures minor.Some? <==> Taken(env, State(), race, Minor)
    {
      hide MoneyOk, TiersOk, Bit, BitsFrom;
      major, minor := None, None;
      var usedRunes := BitsOf(usedRunesBit);
      for i := 0 to |usedRunes|
        invariant major.Some? <==> Found(usedRunes[..i], Major, race)
        invariant minor.Some? <==> Found(usedRunes[..i], Minor, race)
      {
        assert usedRunes[i] in usedRunes;
        assert usedRunes[..i + 1] == usedRunes[..i] + [usedRunes[i]];
        var charm := env.charms[usedRunes[i]];
        if race == races[usedRunes[i]] {
          if charm.category.Major? {
            major := Some(usedRunes[i]);
          } else if charm.category.Minor? {
            minor := Some(usedRunes[i]);
          }
        }
      }
      assert usedRunes[..|usedRunes|] == usedRunes;
      TakenIsFound(usedRunes, Major, race);
      TakenIsFound(usedRunes, Minor, race);
    }

    ghost predicate Found(runes: seq<nat>, cat: Category, race: uint16)
      requires |races| == CHARMS
      reads this
    {
      exists k | k in runes :: k < CHARMS && k in env.charms && env.charms[k].category == cat && races[k] == race
    }

    lemma TakenIsFound(runes: seq<nat>, cat: Category, race: uint16)
      requires |races| == CHARMS && forall k: nat :: k in runes <==> Bit(usedRunesBit, k)
      ensures Found(runes, cat, race) <==> Taken(env, State(), race, cat)
    {
      hide Bit;
      if Found(runes, cat, race) {
        var k :| k in runes && k < CHARMS && k in env.charms && env.charms[k].category == cat && races[k] == race;
        assert Bit(usedRunesBit, k);
      }
    }

    /** Action 0. */
    method BuyCharm(id: CharmId)
      requires Valid()
      modifies this
      ensures Valid() && State() == BuyTier(env, old(State()), id)
    {
      hide UseOk, TiersOk, MoneyOk, Raised, SpentUpTo;
      StepKeeps(env, State(), Standing(false, false, false, false), Buy(id));
      if id !in env.charms {
        return;
      }
      var charm, charmTier := env.charms[id], tiers[id];
      if charm.category.Major? {
        if charmTier > 2 || charmPoints < charm.points[charmTier] {
          return;
        }
        AddCharmPoints(charm.points[charmTier], true);
        AddMinorCharmEchoes(25 * charmTier * charmTier + 25 * charmTier + 50, false);
        tiers := tiers[id := charmTier + 1];
      } else if charm.category.Minor? {
        if charmTier > 2 || minorCharmEchoes < charm.points[charmTier] {
          return;
        }
        AddMinorCharmEchoes(charm.points[charmTier], true);
        tiers := tiers[id := charmTier + 1];
      } else {
        return;
      }
      unlockedRunesBit := Raised(unlockedRunesBit, id);
    }

    /** Action 1. */
    method AssignCharm(id: CharmId, race: uint16, st: Standing)
      requires Valid()
      modifies this
      ensures Valid() && State() == Apply(env, old(State()), st, Assign(id, race))
    {
      hide UseOk, TiersOk, MoneyOk, Raised, Bit, Taken;
      StepKeeps(env, State(), st, Assign(id, race));
      if id !in env.charms {
        return;
      }
      var charm := env.charms[id];
      var usedRunes := BitsOf(usedRunesBit);
      var limitRunes := 2;
      if st.premium {
        limitRunes := if st.expansion then 25 else 6;
      }
      if limitRunes <= |usedRunes| {
        return;
      }
      if race in env.bestiary {
        if charm.category.Major? && (if race in kills then kills[race] else 0) < env.bestiary[race].toUnlock {
          return;
        }
        var major, minor := GetCharmFromTarget(race);
        if (charm.category.Major? && major.Some?) || (charm.category.Minor? && minor.Some?) {
          return;
        }
      }
      races := races[id := race];
      usedRunesBit := Raised(usedRunesBit, id);
    }

    /** Action 2, once the fee is paid or refused. */
    method RemoveCharm(id: CharmId, st: Standing)
      requires Valid()
      modifies this
      ensures Valid() && State() == Apply(env, old(State()), st, Remove(id))
    {
      hide UseOk, TiersOk, MoneyOk, Lowered;
      StepKeeps(env, State(), st, Remove(id));
      if id !in env.charms || !st.paid {
        return;
      }
      usedRunesBit := Lowered(usedRunesBit, id);
      races := races[id := 0];
    }

    /** Action 3. Every charm of the list loses its creature and its tier. */
    method ResetCharms(st: Standing)
      requires Valid()
      modifies this
      ensures Valid() && State() == Apply(env, old(State()), st, ResetAll)
    {
      StepKeeps(env, State(), st, ResetAll);
      if !st.paid {
        return;
      }
      tiers, races := NoTiers(), NoRaces();
      charmPoints := maxCharmPoints;
      minorCharmEchoes := if st.promoted then 100 else 0;
      maxMinorCharmEchoes := minorCharmEchoes;
      usedRunesBit, unlockedRunesBit := 0, 0;
    }

    method AddBestiaryKill(race: uint16, amount: nat)
      requires Valid()
      modifies this
      ensures Valid() && State() == AddKill(env, old(State()), race, amount)
    {
      hide UseOk, TiersOk, MoneyOk;
      StepKeeps(env, State(), Standing(false, false, false, false), Kill(race, amount));
      if race == 0 || race !in env.bestiary {
        return;
      }
      var m := env.bestiary[race];
      var curCount := if race in kills then kills[race] else 0;
      kills := kills[race := curCount + amount];
      if || curCount == 0
         || (curCount < m.firstUnlock && curCount + amount >= m.firstUnlock)
         || (curCount < m.secondUnlock && curCount + amount >= m.secondUnlock)
         || (curCount < m.toUnlock && curCount + amount >= m.toUnlock)
      {
        if curCount + amount >= m.toUnlock {
          AddCharmPoints(m.charmPoints, false);
        }
      }
    }
  }
}

/** The charm economy in plain numbers: when what is held and what is spent add up to what was earned. */
module CharmBooks {
  import opened Bytes
  import opened CharmLedger
  import opened RuneBits

  // Minor echoes.

  /** What buying the tiers below `tier` has brought in echoes. */
  function RewardBelow(tier: nat): nat {
    if tier == 0 then 0 else RewardBelow(tier - 1) + EchoReward(tier - 1)
  }

  /** The rewards of the current tiers of the first `n` charms. */
  function RewardUpTo(env: Env, tiers: seq<nat>, n: nat): nat
    requires ValidTiers(tiers) && n <= CHARMS
  {
    if n == 0 then 0
    else
      RewardUpTo(env, tiers, n - 1)
      + if n - 1 in env.charms && env.charms[n - 1].category.Major? then RewardBelow(tiers[n - 1]) else 0
  }

  lemma {:induction false} RewardBound(env: Env, tiers: seq<nat>, n: nat)
    requires ValidTiers(tiers) && n <= CHARMS
    ensures RewardUpTo(env, tiers, n) <= 350 * n
  {
    assert RewardBelow(1) == 50 && RewardBelow(2) == 150 && RewardBelow(3) == 350;
    if n > 0 {
      RewardBound(env, tiers, n - 1);
    }
  }

  lemma {:induction false} RewardBought(env: Env, tiers: seq<nat>, id: CharmId, n: nat)
    requires ValidEnv(env) && ValidTiers(tiers) && n <= CHARMS && id in env.charms && tiers[id] < MAX_TIER
    ensures ValidTiers(tiers[id := tiers[id] + 1])
    ensures RewardUpTo(env, tiers[id := tiers[id] + 1], n)
         == RewardUpTo(env, tiers, n) + if id < n && env.charms[id].category.Major? then EchoReward(tiers[id]) else 0
  {
    if n > 0 {
      RewardBought(env, tiers, id, n - 1);
    }
  }

  lemma {:induction false} NothingRewarded(env: Env, n: nat)
    requires n <= CHARMS
    ensures ValidTiers(NoTiers()) && RewardUpTo(env, NoTiers(), n) == 0
  {
    if n > 0 {
      NothingRewarded(env, n - 1);
    }
  }

  /** Echoes held and echoes spent are exactly those brought in since the last reset. */
  ghost predicate EchoesExact(env: Env, tiers: seq<nat>, echoes: nat, maxEchoes: nat)
    requires ValidEnv(env) && ValidTiers(tiers)
  {
    && echoes + Spent(env, tiers, Minor) == maxEchoes
    && maxEchoes <= 100 + RewardUpTo(env, tiers, CHARMS)
  }

  lemma PlusExact(a: uint32, b: nat)
    ensures a + b < TWO32 ==> Plus32(a, b) == a + b
  {
  }

  lemma BuyKeepsEchoes(env: Env, s: Ledger, id: CharmId)
    requires ValidEnv(env) && ValidTiers(s.tiers) && EchoesExact(env, s.tiers, s.echoes, s.maxEchoes)
    requires ValidTiers(BuyTier(env, s, id).tiers)
    ensures var r := BuyTier(env, s, id);
            EchoesExact(env, r.tiers, r.echoes, r.maxEchoes)
  {
    hide SpentUpTo, RewardUpTo, Plus32, ValidTiers;
    if BuyTier(env, s, id) != s {
      ValidTier(s.tiers, id);
      var tier := s.tiers[id];
      TierBought(env, s.tiers, Minor, id, CHARMS);
      RewardBought(env, s.tiers, id, CHARMS);
      RewardBound(env, s.tiers[id := tier + 1], CHARMS);
      RewardBound(env, s.tiers, CHARMS);
      PlusExact(s.echoes, EchoReward(tier));
      PlusExact(s.maxEchoes, EchoReward(tier));
    }
  }

  lemma ResetEchoesExact(env: Env, r: Ledger)
    requires ValidEnv(env) && r.tiers == NoTiers() && ValidTiers(r.tiers) && r.echoes == r.maxEchoes <= 100
    ensures EchoesExact(env, r.tiers, r.echoes, r.maxEchoes)
  {
    NothingSpent(env, Minor, CHARMS);
    NothingRewarded(env, CHARMS);
  }

  lemma StepKeepsEchoes(env: Env, s: Ledger, st: Standing, a: Action)
    requires Inv(env, s) && EchoesExact(env, s.tiers, s.echoes, s.maxEchoes)
    requires Inv(env, Apply(env, s, st, a))
    ensures var r := Apply(env, s, st, a);
            EchoesExact(env, r.tiers, r.echoes, r.maxEchoes)
  {
    hide EchoesExact, MoneyOk, TiersOk, UseOk, BuyTier, Pays, Assignable, ValidTiers;
    if a.Buy? {
      BuyKeepsEchoes(env, s, a.id);
    } else if a.ResetAll? && st.paid {
      ResetEchoesExact(env, Apply(env, s, st, a));
    }
  }

  lemma {:induction false} RunKeepsEchoes(env: Env, s: Ledger, steps: seq<(Standing, Action)>)
    requires Inv(env, s) && EchoesExact(env, s.tiers, s.echoes, s.maxEchoes)
    requires Inv(env, After(env, s, steps))
    ensures var r := After(env, s, steps);
            EchoesExact(env, r.tiers, r.echoes, r.maxEchoes)
    decreases |steps|
  {
    hide EchoesExact, MoneyOk, TiersOk, UseOk, Apply;
    if steps != [] {
      StepKeeps(env, s, steps[0].0, steps[0].1);
      StepKeepsEchoes(env, s, steps[0].0, steps[0].1);
      RunKeepsEchoes(env, Apply(env, s, steps[0].0, steps[0].1), steps[1..]);
    }
  }

  /** The ledger of a new player after a run of requests. */
  function Reached(env: Env, steps: seq<(Standing, Action)>): (s: Ledger)
    requires ValidEnv(env)
    ensures ValidTiers(s.tiers) && Inv(env, s)
  {
    ResetOk(env, NEW_PLAYER);
    RunKeeps(env, NEW_PLAYER, steps);
    After(env, NEW_PLAYER, steps)
  }

  /** Main result for echoes: in every run of a new player, held plus spent is exactly the maximum. */
  lemma EchoesAlwaysExact(env: Env, steps: seq<(Standing, Action)>)
    requires ValidEnv(env)
    ensures var s := Reached(env, steps);
            s.echoes + Spent(env, s.tiers, Minor) == s.maxEchoes
  {
    hide MoneyOk, TiersOk, UseOk, Apply, After, Spent, RewardUpTo;
    ResetOk(env, NEW_PLAYER);
    ResetEchoesExact(env, NEW_PLAYER);
    RunKeeps(env, NEW_PLAYER, steps);
    RunKeepsEchoes(env, NEW_PLAYER, steps);
    var s := Reached(env, steps);
    assert EchoesExact(env, s.tiers, s.echoes, s.maxEchoes);
  }

  // Charm points.

  ghost predicate PointsExact(env: Env, tiers: seq<nat>, points: nat, maxPoints: nat)
    requires ValidEnv(env) && ValidTiers(tiers)
  {
    points + Spent(env, tiers, Major) == maxPoints
  }

  /** Before a kill: does it pay, and what. */
  function PaidBy(env: Env, s: Ledger, a: Action): nat {
    match a
    case Kill(race, amount) =>
      if race != 0 && race in env.bestiary && Pays(env.bestiary[race], KillsOf(s, race), KillsOf(s, race) + amount)
      then env.bestiary[race].charmPoints else 0
    case _ => 0
  }

  /** Before a request: the maximum does not pass 32 bits, or the points pass them with it. */
  predicate NoSplitWrap(env: Env, s: Ledger, a: Action) {
    s.maxPoints + PaidBy(env, s, a) < TWO32 || s.points + PaidBy(env, s, a) >= TWO32
  }

  lemma WrapsTogether(p: uint32, m: uint32, spent: nat, w: nat)
    requires p + spent == m && w < TWO32
    ensures Plus32(p, w) + spent == Plus32(m, w) <==> m + w < TWO32 || p + w >= TWO32
  {
  }

  lemma BuyKeepsPoints(env: Env, s: Ledger, id: CharmId)
    requires ValidEnv(env) && ValidTiers(s.tiers) && PointsExact(env, s.tiers, s.points, s.maxPoints)
    requires ValidTiers(BuyTier(env, s, id).tiers)
    ensures var r := BuyTier(env, s, id);
            PointsExact(env, r.tiers, r.points, r.maxPoints)
  {
    hide SpentUpTo, Plus32, ValidTiers;
    if BuyTier(env, s, id) != s {
      ValidTier(s.tiers, id);
      TierBought(env, s.tiers, Major, id, CHARMS);
    }
  }

  lemma KillPoints(env: Env, s: Ledger, st: Standing, race: uint16, amount: nat)
    requires Inv(env, s) && PointsExact(env, s.tiers, s.points, s.maxPoints)
    ensures var r := AddKill(env, s, race, amount);
            r.tiers == s.tiers
            && (PointsExact(env, r.tiers, r.points, r.maxPoints) <==> NoSplitWrap(env, s, Kill(race, amount)))
  {
    hide SpentUpTo, Plus32, Pays, MoneyOk, TiersOk, UseOk;
    WrapsTogether(s.points, s.maxPoints, Spent(env, s.tiers, Major), PaidBy(env, s, Kill(race, amount)));
    if PaidBy(env, s, Kill(race, amount)) == 0 {
      PlusNothing(s.points);
      PlusNothing(s.maxPoints);
    }
  }

  lemma ResetPointsExact(env: Env, r: Ledger)
    requires ValidEnv(env) && r.tiers == NoTiers() && ValidTiers(r.tiers) && r.points == r.maxPoints
    ensures PointsExact(env, r.tiers, r.points, r.maxPoints)
  {
    NothingSpent(env, Major, CHARMS);
  }

  /** Exact books stay exact under every request but a kill, and under a kill exactly when the wrap is not split. */
  lemma StepBooksIff(env: Env, s: Ledger, st: Standing, a: Action)
    requires Inv(env, s) && PointsExact(env, s.tiers, s.points, s.maxPoints)
    requires Inv(env, Apply(env, s, st, a))
    ensures var r := Apply(env, s, st, a);
            PointsExact(env, r.tiers, r.points, r.maxPoints) <==> NoSplitWrap(env, s, a)
    ensures var r := Apply(env, s, st, a);
            !a.Kill? ==> PointsExact(env, r.tiers, r.points, r.maxPoints)
  {
    hide PointsExact, MoneyOk, TiersOk, UseOk, BuyTier, AddKill, Assignable, ValidTiers;
    if a.Kill? {
      KillPoints(env, s, st, a.race, a.amount);
    } else if a.Buy? {
      BuyKeepsPoints(env, s, a.id);
    } else if a.ResetAll? && st.paid {
      ResetPointsExact(env, Apply(env, s, st, a));
    }
  }

  /** The books are exact before and after every request of the run. */
  ghost predicate AlwaysExact(env: Env, s: Ledger, steps: seq<(Standing, Action)>)
    requires Inv(env, s)
    decreases |steps|
  {
    PointsExact(env, s.tiers, s.points, s.maxPoints) && (steps == [] || (
      StepKeeps(env, s, steps[0].0, steps[0].1);
      AlwaysExact(env, Apply(env, s, steps[0].0, steps[0].1), steps[1..])))
  }

  /** No kill of the run splits the wrap. */
  ghost predicate NeverSplits(env: Env, s: Ledger, steps: seq<(Standing, Action)>)
    requires Inv(env, s)
    decreases |steps|
  {
    steps == [] || (
      NoSplitWrap(env, s, steps[0].1) && (
        StepKeeps(env, s, steps[0].0, steps[0].1);
        NeverSplits(env, Apply(env, s, steps[0].0, steps[0].1), steps[1..])))
  }

  /** Over a run: the books stay exact throughout if and only if no kill splits the wrap. */
  lemma {:induction false} RunBooksIff(env: Env, s: Ledger, steps: seq<(Standing, Action)>)
    requires Inv(env, s) && PointsExact(env, s.tiers, s.points, s.maxPoints)
    ensures AlwaysExact(env, s, steps) <==> NeverSplits(env, s, steps)
    decreases |steps|
  {
    hide PointsExact, NoSplitWrap, MoneyOk, TiersOk, UseOk, Apply;
    if steps != [] {
      var r := Apply(env, s, steps[0].0, steps[0].1);
      StepKeeps(env, s, steps[0].0, steps[0].1);
      StepBooksIff(env, s, steps[0].0, steps[0].1);
      if PointsExact(env, r.tiers, r.points, r.maxPoints) {
        RunBooksIff(env, r, steps[1..]);
      }
    }
  }

  // What a player has earned.

  /** Every creature takes kills, and its first two stages do not lie behind the last one. */
  predicate OrderedEnv(env: Env) {
    forall race | race in env.bestiary :: Ordered(env.bestiary[race]) && env.bestiary[race].toUnlock > 0
  }

  predicate Complete(env: Env, s: Ledger, race: nat) {
    race in env.bestiary && KillsOf(s, race) >= env.bestiary[race].toUnlock
  }

  /** The worth of the complete creatures among the first `n` races. */
  function EarnedUpTo(env: Env, s: Ledger, n: nat): (e: nat)
    requires n <= 0x1_0000
    ensures e <= 65535 * n
  {
    if n == 0 then 0
    else EarnedUpTo(env, s, n - 1) + if Complete(env, s, n - 1) then env.bestiary[n - 1].charmPoints else 0
  }

  function Earned(env: Env, s: Ledger): (e: nat)
    ensures e < TWO32
  {
    EarnedUpTo(env, s, 0x1_0000)
  }

  /** What is held and what is spent is what was earned, and no sum has passed 32 bits. */
  ghost predicate BooksExact(env: Env, s: Ledger)
    requires ValidEnv(env) && ValidTiers(s.tiers)
  {
    PointsExact(env, s.tiers, s.points, s.maxPoints) && s.maxPoints == Earned(env, s)
  }

  lemma {:induction false} SameEarned(env: Env, s: Ledger, r: Ledger, n: nat)
    requires n <= 0x1_0000 && r.kills == s.kills
    ensures EarnedUpTo(env, r, n) == EarnedUpTo(env, s, n)
  {
    if n > 0 {
      SameEarned(env, s, r, n - 1);
    }
  }

  lemma {:induction false} KillEarns(env: Env, s: Ledger, race: uint16, amount: nat, n: nat)
    requires OrderedEnv(env) && n <= 0x1_0000
    ensures var r := AddKill(env, s, race, amount);
            EarnedUpTo(env, r, n)
            == EarnedUpTo(env, s, n) + if race < n then PaidBy(env, s, Kill(race, amount)) else 0
  {
    if n > 0 {
      KillEarns(env, s, race, amount, n - 1);
    }
  }

  lemma KillKeepsBooks(env: Env, s: Ledger, st: Standing, race: uint16, amount: nat)
    requires OrderedEnv(env) && Inv(env, s) && BooksExact(env, s)
    ensures var r := AddKill(env, s, race, amount);
            r.tiers == s.tiers && BooksExact(env, r)
  {
    hide PointsExact, MoneyOk, TiersOk, UseOk, Pays, EarnedUpTo, OrderedEnv, Plus32;
    var paid := PaidBy(env, s, Kill(race, amount));
    KillEarns(env, s, race, amount, 0x1_0000);
    PlusNothing(s.maxPoints);
    assert s.maxPoints + paid == Earned(env, AddKill(env, s, race, amount));
    PlusExact(s.maxPoints, paid);
    KillPoints(env, s, st, race, amount);
  }

  lemma StepKeepsBooks(env: Env, s: Ledger, st: Standing, a: Action)
    requires OrderedEnv(env) && Inv(env, s) && BooksExact(env, s)
    requires Inv(env, Apply(env, s, st, a))
    ensures BooksExact(env, Apply(env, s, st, a))
  {
    hide Plus32, PointsExact, NoSplitWrap, MoneyOk, TiersOk, UseOk, AddKill, Assignable, EarnedUpTo, OrderedEnv;
    if a.Kill? {
      KillKeepsBooks(env, s, st, a.race, a.amount);
    } else {
      StepBooksIff(env, s, st, a);
      SameEarned(env, s, Apply(env, s, st, a), 0x1_0000);
    }
  }

  lemma {:induction false} RunKeepsBooks(env: Env, s: Ledger, steps: seq<(Standing, Action)>)
    requires OrderedEnv(env) && Inv(env, s) && BooksExact(env, s)
    requires Inv(env, After(env, s, steps))
    ensures BooksExact(env, After(env, s, steps))
    decreases |steps|
  {
    hide BooksExact, MoneyOk, TiersOk, UseOk, Apply, OrderedEnv;
    if steps != [] {
      StepKeeps(env, s, steps[0].0, steps[0].1);
      StepKeepsBooks(env, s, steps[0].0, steps[0].1);
      RunKeepsBooks(env, Apply(env, s, steps[0].0, steps[0].1), steps[1..]);
    }
  }

  lemma {:induction false} NothingEarned(env: Env, n: nat)
    requires OrderedEnv(env) && n <= 0x1_0000
    ensures EarnedUpTo(env, NEW_PLAYER, n) == 0
  {
    if n > 0 {
      NothingEarned(env, n - 1);
    }
  }

  /**
   Main result for points: where every creature takes kills and its stages are in order, in every run of a
   new player held plus spent is exactly the worth of the creatures completed so far.
   */
  lemma PointsAlwaysExact(env: Env, steps: seq<(Standing, Action)>)
    requires ValidEnv(env) && OrderedEnv(env)
    ensures var s := Reached(env, steps);
            s.points + Spent(env, s.tiers, Major) == s.maxPoints == Earned(env, s)
  {
    hide MoneyOk, TiersOk, UseOk, Apply, After, Spent, EarnedUpTo, OrderedEnv;
    ResetOk(env, NEW_PLAYER);
    ResetPointsExact(env, NEW_PLAYER);
    NothingEarned(env, 0x1_0000);
    RunKeeps(env, NEW_PLAYER, steps);
    RunKeepsBooks(env, NEW_PLAYER, steps);
    assert BooksExact(env, Reached(env, steps));
  }

  // A run that loses count.

  /** One charm for two points, a creature that pays 65535 for every batch, and one that pays two points. */
  function SmallEnv(): (env: Env)
    ensures ValidEnv(env)
  {
    Env(map[0 := Charm(Major, [2, 2, 2])], map[1 := Monster(0, 0, 0, 65535), 2 := Monster(1, 1, 1, 2)])
  }

  function Zeros(n: nat): seq<nat> {
    if n == 0 then [] else [0] + Zeros(n - 1)
  }

  lemma {:induction false} ZerosPay(m: Monster, n: nat)
    requires m.toUnlock == 0
    ensures Awards(m, 0, Zeros(n)) == n
  {
    if n > 0 {
      ZerosPay(m, n - 1);
      assert Zeros(n)[1..] == Zeros(n - 1);
    }
  }

  lemma {:induction false} KillsElsewhere(env: Env, s: Ledger, race: uint16, batches: seq<nat>)
    ensures var r := AfterKills(env, s, race, batches);
            r.tiers == s.tiers && forall other | other != race :: KillsOf(r, other) == KillsOf(s, other)
    decreases |batches|
  {
    if batches != [] {
      KillsElsewhere(env, AddKill(env, s, race, batches[0]), race, batches[1..]);
    }
  }

  lemma LastTwo(rich: Ledger)
    requires rich.points == rich.maxPoints == TWO32 - 1
    requires ValidTiers(rich.tiers) && rich.tiers[0] == KillsOf(rich, 2) == 0
    ensures var bought := BuyTier(SmallEnv(), rich, 0);
            var last := AddKill(SmallEnv(), bought, 2, 1);
            (bought.points, bought.maxPoints) == (TWO32 - 3, TWO32 - 1)
            && (last.points, last.maxPoints) == (TWO32 - 1, 1)
  {
    hide Raised;
  }

  /**
   A run of a new player that loses count: the creature that takes no kills pays 65537 times, the charm is
   bought, and the next two points bring the maximum, but not the points, past 32 bits.
   */
  lemma LosesCount()
    ensures var rich := AfterKills(SmallEnv(), NEW_PLAYER, 1, Zeros(65537));
            ValidTiers(rich.tiers)
            && var bought := BuyTier(SmallEnv(), rich, 0);
               var last := AddKill(SmallEnv(), bought, 2, 1);
               (bought.points, bought.maxPoints) == (TWO32 - 3, TWO32 - 1)
               && (last.points, last.maxPoints) == (TWO32 - 1, 1)
  {
    hide AfterKills, Awards, Zeros, BuyTier, AddKill, Pays;
    var rich := AfterKills(SmallEnv(), NEW_PLAYER, 1, Zeros(65537));
    ZerosPay(SmallEnv().bestiary[1], 65537);
    KillsPay(SmallEnv(), NEW_PLAYER, 1, Zeros(65537));
    KillsElsewhere(SmallEnv(), NEW_PLAYER, 1, Zeros(65537));
    LastTwo(rich);
  }
}

/** What each charm request achieves, field by field, and that a refused one changes nothing. */
module CharmOutcomes {
  import opened Bytes
  import opened CharmLedger
  import opened RuneBits

  function BitCount(n: nat): nat {
    if n == 0 then 0 else n % 2 + BitCount(n / 2)
  }

  /** Exactly that bit goes up, or down. */
  ghost predicate OnlyBit(n: nat, m: nat, id: nat, up: bool) {
    forall k: nat :: Bit(m, k) <==> if k == id then up else Bit(n, k)
  }

  /** The slots of a free player, of a premium player, and with the expansion. */
  predicate SlotLeft(s: Ledger, st: Standing) {
    && BitCount(s.used) < 25
    && (!st.expansion || !st.premium ==> BitCount(s.used) < 6)
    && (!st.premium ==> BitCount(s.used) < 2)
  }

  /** Some charm of the category of `id` is in use on the creature. */
  ghost predicate Crowded(env: Env, s: Ledger, id: CharmId, race: uint16)
    requires |s.races| == CHARMS && id in env.charms
  {
    exists k: CharmId :: Bit(s.used, k) && s.races[k] == race && k in env.charms
                         && env.charms[k].category == env.charms[id].category
  }

  /** A tier is bought: the next price is paid, a major charm gives 50, 100 or 200 echoes. */
  ghost predicate Bought(s: Ledger, r: Ledger, id: CharmId, charm: Charm)
    requires |s.tiers| == CHARMS && s.tiers[id] < |charm.points|
  {
    var (tier, price) := (s.tiers[id], charm.points[s.tiers[id]]);
    var gift := if tier == 0 then 50 else if tier == 1 then 100 else 200;
    && r.tiers == s.tiers[id := tier + 1] && OnlyBit(s.unlocked, r.unlocked, id, true)
    && (r.races, r.used, r.kills, r.maxPoints) == (s.races, s.used, s.kills, s.maxPoints)
    && if charm.category.Major?
       then r.points + price == s.points
            && (r.echoes, r.maxEchoes) == ((s.echoes + gift) % TWO32, (s.maxEchoes + gift) % TWO32)
       else r.echoes + price == s.echoes && (r.points, r.maxEchoes) == (s.points, s.maxEchoes)
  }

  ghost predicate Granted(env: Env, s: Ledger, st: Standing, a: Action, r: Ledger)
    requires ValidEnv(env) && ValidTiers(s.tiers) && |s.races| == CHARMS
  {
    match a
    case Buy(id) =>
      if && id in env.charms && !env.charms[id].category.Neither? && s.tiers[id] < MAX_TIER
         && env.charms[id].points[s.tiers[id]] <= (if env.charms[id].category.Major? then s.points else s.echoes)
      then Bought(s, r, id, env.charms[id]) else r == s
    case Assign(id, race) =>
      if && id in env.charms && SlotLeft(s, st)
         && (race in env.bestiary && env.charms[id].category.Major? ==>
               (if race in s.kills then s.kills[race] else 0) >= env.bestiary[race].toUnlock)
         && (race in env.bestiary && !env.charms[id].category.Neither? ==> !Crowded(env, s, id, race))
      then OnlyBit(s.used, r.used, id, true) && r == s.(races := s.races[id := race], used := r.used) else r == s
    case Remove(id) =>
      if id in env.charms && st.paid
      then OnlyBit(s.used, r.used, id, false) && r == s.(races := s.races[id := 0], used := r.used) else r == s
    case ResetAll =>
      if !st.paid then r == s else
        && |r.tiers| == |r.races| == CHARMS && (forall k: CharmId :: r.tiers[k] == r.races[k] == 0)
        && (r.points, r.maxPoints, r.used, r.unlocked, r.kills) == (s.maxPoints, s.maxPoints, 0, 0, s.kills)
        && r.echoes == r.maxEchoes == if st.promoted then 100 else 0
    case Kill(race, amount) =>
      if race == 0 || race !in env.bestiary then r == s else
        var (m, before) := (env.bestiary[race], if race in s.kills then s.kills[race] else 0);
        var after := before + amount;
        var paid := if && after >= m.toUnlock
                       && (before == 0 || before < m.toUnlock
                           || before < m.firstUnlock <= after || before < m.secondUnlock <= after)
                    then m.charmPoints else 0;
        && r == s.(kills := s.kills[race := after], points := r.points, maxPoints := r.maxPoints)
        && (r.points, r.maxPoints) == ((s.points + paid) % TWO32, (s.maxPoints + paid) % TWO32)
  }

  lemma {:induction false} CountedBits(n: nat, i: nat)
    ensures |BitsFrom(n, i)| == BitCount(n)
    decreases n
  {
    if n > 0 {
      CountedBits(n / 2, i + 1);
    }
  }

  lemma OneBit(n: nat, id: nat)
    ensures OnlyBit(n, Raised(n, id), id, true) && OnlyBit(n, Lowered(n, id), id, false)
  {
    hide Raised, Lowered, Bit;
    forall k: nat
      ensures Bit(Raised(n, id), k) <==> k == id || Bit(n, k)
      ensures Bit(Lowered(n, id), k) <==> k != id && Bit(n, k)
    {
      RaisedBit(n, id, k);
      LoweredBit(n, id, k);
    }
  }

  lemma BuyGranted(env: Env, s: Ledger, st: Standing, id: CharmId)
    requires ValidEnv(env) && ValidTiers(s.tiers) && |s.races| == CHARMS
    ensures Granted(env, s, st, Buy(id), BuyTier(env, s, id))
  {
    hide Raised, OnlyBit;
    OneBit(s.unlocked, id);
  }

  lemma AssignGranted(env: Env, s: Ledger, st: Standing, id: CharmId, race: uint16)
    requires ValidEnv(env) && ValidTiers(s.tiers) && |s.races| == CHARMS
    ensures Granted(env, s, st, Assign(id, race), Apply(env, s, st, Assign(id, race)))
  {
    hide Raised, OnlyBit, Bit, BitsFrom, BitCount, ValidTiers;
    OneBit(s.used, id);
    CountedBits(s.used, 0);
    if id in env.charms {
      assert Crowded(env, s, id, race) <==> Taken(env, s, race, env.charms[id].category);
    }
  }

  lemma KillGranted(env: Env, s: Ledger, st: Standing, race: uint16, amount: nat)
    requires ValidEnv(env) && ValidTiers(s.tiers) && |s.races| == CHARMS
    ensures Granted(env, s, st, Kill(race, amount), AddKill(env, s, race, amount))
  {
  }

  /** Main result: every request does what it is meant to when its conditions hold, and nothing otherwise. */
  lemma RequestGranted(env: Env, s: Ledger, st: Standing, a: Action)
    requires ValidEnv(env) && ValidTiers(s.tiers) && |s.races| == CHARMS
    ensures Granted(env, s, st, a, Apply(env, s, st, a))
  {
    match a
    case Buy(id) => BuyGranted(env, s, st, id);
    case Assign(id, race) => AssignGranted(env, s, st, id, race);
    case Remove(id) => OneBit(s.used, id);
    case ResetAll =>
    case Kill(race, amount) => KillGranted(env, s, st, race, amount);
  }
}

/** Who is rewarded and who answers for a death: the experience split and the choice of the responsible players. */
module DeathRewards {
  import opened Bytes
  import opened Lists
  import opened Options
  import opened Totals

  const PVP_MAX_RESPONSAVEIS := 5
  const PVP_JANELA_MORTE := 5 * 60 * 1000
  const TWO32: nat := 0x1_0000_0000

  type Id = nat

  /** One entry of the damage map. */
  datatype Block = Block(id: Id, total: nat, ticks: int)

  datatype Party = Party(leader: Option<Id>, members: set<Id>, sharedActive: bool, sharedEnabled: bool)

  /** The creatures still in the game, the masters of summons, the players and their parties. */
  datatype World = World(present: set<Id>, masters: map<Id, Id>, players: set<Id>, parties: map<Id, Party>)

  datatype Death = Death(world: World, self: Id, now: int, inFightTicks: int, lost: nat, damage: seq<Block>)

  predicate DistinctIds(damage: seq<Block>) {
    forall i, j | 0 <= i < j < |damage| :: damage[i].id != damage[j].id
  }

  // A map with number values, filled by "find, then set or add".

  type Ledger = seq<(Id, nat)>

  function Add(l: Ledger, id: Id, x: nat): Ledger {
    if l == [] then [(id, x)]
    else if l[0].0 == id then [(id, l[0].1 + x)] + l[1..]
    else [l[0]] + Add(l[1..], id, x)
  }

  function Balance(l: Ledger, id: Id): nat {
    if l == [] then 0 else if l[0].0 == id then l[0].1 else Balance(l[1..], id)
  }

  function Worth(l: Ledger): nat {
    if l == [] then 0 else l[0].1 + Worth(l[1..])
  }

  predicate DistinctKeys(l: Ledger) {
    forall i, j | 0 <= i < j < |l| :: l[i].0 != l[j].0
  }

  predicate HasKey(l: Ledger, id: Id) {
    exists i :: 0 <= i < |l| && l[i].0 == id
  }

  lemma {:induction false} AddWorth(l: Ledger, id: Id, x: nat)
    ensures Worth(Add(l, id, x)) == Worth(l) + x
  {
    if l != [] {
      if l[0].0 == id {
        assert Add(l, id, x)[1..] == l[1..];
      } else {
        AddWorth(l[1..], id, x);
        assert Add(l, id, x)[1..] == Add(l[1..], id, x);
      }
    }
  }

  lemma {:induction false} AddBalance(l: Ledger, id: Id, x: nat, k: Id)
    ensures Balance(Add(l, id, x), k) == Balance(l, k) + if k == id then x else 0
  {
    if l != [] {
      if l[0].0 == id {
        assert Add(l, id, x)[1..] == l[1..];
      } else {
        AddBalance(l[1..], id, x, k);
        assert Add(l, id, x)[1..] == Add(l[1..], id, x);
      }
    }
  }

  lemma {:induction false} AddKeys(l: Ledger, id: Id, x: nat)
    ensures forall k :: HasKey(Add(l, id, x), k) <==> k == id || HasKey(l, k)
    ensures DistinctKeys(l) ==> DistinctKeys(Add(l, id, x))
  {
    var n := Add(l, id, x);
    if l == [] {
      assert n[0].0 == id;
    } else if l[0].0 == id {
      forall k ensures HasKey(n, k) <==> HasKey(l, k) {
        if HasKey(l, k) {
          var i :| 0 <= i < |l| && l[i].0 == k;
          assert n[i].0 == k;
        }
      }
      assert HasKey(l, id);
    } else {
      var t := Add(l[1..], id, x);
      AddKeys(l[1..], id, x);
      forall k ensures HasKey(n, k) <==> k == id || HasKey(l, k) {
        SplitKey(n, k);
        SplitKey(l, k);
        assert n[1..] == t;
      }
      if DistinctKeys(l) {
        forall j | 0 < j < |n| ensures n[j].0 != n[0].0 {
          assert n[j] == t[j - 1];
          assert HasKey(t, n[j].0);
          if HasKey(l[1..], n[j].0) {
            var i :| 0 <= i < |l[1..]| && l[1..][i].0 == n[j].0;
            assert l[i + 1].0 == n[j].0;
          }
        }
      }
    }
  }

  lemma SplitKey(l: Ledger, k: Id)
    requires l != []
    ensures HasKey(l, k) <==> l[0].0 == k || HasKey(l[1..], k)
  {
    if HasKey(l[1..], k) {
      var i :| 0 <= i < |l[1..]| && l[1..][i].0 == k;
      assert l[i + 1].0 == k;
    }
    if HasKey(l, k) {
      var i :| 0 <= i < |l| && l[i].0 == k;
      assert i > 0 ==> l[1..][i - 1].0 == k;
    }
  }

  lemma {:induction false} BalanceAt(l: Ledger, i: nat)
    requires DistinctKeys(l) && i < |l|
    ensures Balance(l, l[i].0) == l[i].1
  {
    if i > 0 {
      BalanceAt(l[1..], i - 1);
    }
  }

  // Damage and its 32-bit sum.

  function Dealt(): Block -> nat {
    (b: Block) => if b.id == 0 then 0 else b.total
  }

  /** All damage on record, unbounded. */
  function AllDamage(damage: seq<Block>): nat {
    Total(damage, Dealt())
  }

  function DealtBy(id: Id): Block -> nat {
    (b: Block) => if b.id != 0 && b.id == id then b.total else 0
  }

  function Share(d: Death, id: Id): nat {
    var all := AllDamage(d.damage) % TWO32;
    if all == 0 then 0 else (Total(d.damage, DealtBy(id)) % TWO32) * d.lost / all
  }

  /** `getDamageRatio` as a fraction; both sums wrap at 32 bits. */
  method GetDamageRatio(damage: seq<Block>, attackerId: Id) returns (part: nat, whole: nat)
    ensures part == Total(damage, DealtBy(attackerId)) % TWO32
    ensures whole == AllDamage(damage) % TWO32
  {
    part, whole := 0, 0;
    for i := 0 to |damage|
      invariant part == Total(damage[..i], DealtBy(attackerId)) % TWO32
      invariant whole == Total(damage[..i], Dealt()) % TWO32
    {
      var b := damage[i];
      assert damage[..i + 1] == damage[..i] + [b];
      TotalAppend(damage[..i], b, DealtBy(attackerId));
      TotalAppend(damage[..i], b, Dealt());
      AddWraps(Total(damage[..i], Dealt()), Dealt()(b));
      AddWraps(Total(damage[..i], DealtBy(attackerId)), DealtBy(attackerId)(b));
      if b.id == 0 || b.total == 0 {
        continue;
      }
      whole := (whole + b.total) % TWO32;
      if b.id == attackerId {
        part := (part + b.total) % TWO32;
      }
    }
    assert damage[..|damage|] == damage;
  }

  lemma AddWraps(a: nat, b: nat)
    ensures (a % TWO32 + b) % TWO32 == (a + b) % TWO32
  {
  }

  /** `getGainedExperience`, with the exact quotient. */
  method GetGainedExperience(d: Death, attacker: Id) returns (gain: nat)
    ensures gain == Share(d, attacker)
  {
    hide AllDamage, DealtBy;
    var part, whole := GetDamageRatio(d.damage, attacker);
    gain := if whole == 0 then 0 else part * d.lost / whole;
  }

  // The loop over the damage map.

  predicate Active(d: Death, b: Block) {
    b.id != 0 && b.id in d.world.present && b.total != 0 && b.ticks != 0
  }

  predicate Credited(d: Death, b: Block) {
    Active(d, b) && b.id != d.self
  }

  function MasterOrSelf(w: World, id: Id): Id {
    if id in w.masters then w.masters[id] else id
  }

  /** The player behind an attacker: itself or its master. */
  function PlayerOf(w: World, id: Id): Option<Id> {
    if MasterOrSelf(w, id) in w.players then Some(MasterOrSelf(w, id)) else None
  }

  predicate Shares(w: World, player: Id) {
    player in w.parties
    && var p := w.parties[player];
       p.leader.Some? && p.sharedActive && p.sharedEnabled
  }

  /** Who gets the experience of an attacker. */
  function Receiver(w: World, id: Id): Id {
    match PlayerOf(w, id)
    case None => id
    case Some(player) => if Shares(w, player) then w.parties[player].leader.value else id
  }

  datatype Tally = Tally(experience: Ledger, killers: set<Id>, dano: Ledger,
                         mostDamage: nat, mostDamageCreature: Option<Id>)

  const NOTHING := Tally([], {}, [], 0, None)

  predicate InWindow(d: Death, b: Block) {
    d.now - b.ticks <= PVP_JANELA_MORTE
  }

  function Blame(d: Death, t: Tally, b: Block): Tally {
    match PlayerOf(d.world, b.id)
    case None => t
    case Some(player) =>
      var t1 := t.(killers := t.killers + {player},
                   dano := if InWindow(d, b) then Add(t.dano, player, b.total) else t.dano);
      if !Shares(d.world, player) then t1 else
        var party := d.world.parties[player];
        t1.(killers := t1.killers + {party.leader.value} + party.members,
            mostDamageCreature := Some(party.leader.value))
  }

  function Next(d: Death, t: Tally, b: Block): Tally {
    if !Active(d, b) then t else
      var t1 := if b.total > t.mostDamage && d.now - b.ticks <= d.inFightTicks
                then t.(mostDamage := b.total, mostDamageCreature := Some(b.id)) else t;
      if b.id == d.self then t1 else
        var t2 := Blame(d, t1, b);
        t2.(experience := Add(t2.experience, Receiver(d.world, b.id), Share(d, b.id)))
  }

  function Gather(d: Death, damage: seq<Block>): Tally {
    if damage == [] then NOTHING else Next(d, Gather(d, damage[..|damage| - 1]), damage[|damage| - 1])
  }

  method GatherDamage(d: Death) returns (t: Tally)
    ensures t == Gather(d, d.damage)
  {
    var experience, killers, dano, mostDamage, mostDamageCreature := [], {}, [], 0, None;
    for i := 0 to |d.damage|
      invariant Tally(experience, killers, dano, mostDamage, mostDamageCreature) == Gather(d, d.damage[..i])
    {
      hide Share, Add;
      var b := d.damage[i];
      assert d.damage[..i + 1][..i] == d.damage[..i];
      if b.id == 0 || b.id !in d.world.present || b.total == 0 || b.ticks == 0 {
        continue;
      }
      var attacker := b.id;
      if b.total > mostDamage && d.now - b.ticks <= d.inFightTicks {
        mostDamage := b.total;
        mostDamageCreature := Some(attacker);
      }
      if attacker != d.self {
        var gainExp := GetGainedExperience(d, attacker);
        var attackerMaster := MasterOrSelf(d.world, attacker);
        if attackerMaster in d.world.players {
          killers := killers + {attackerMaster};
          if d.now - b.ticks <= PVP_JANELA_MORTE {
            dano := Add(dano, attackerMaster, b.total);
          }
          if Shares(d.world, attackerMaster) {
            var party := d.world.parties[attackerMaster];
            attacker := party.leader.value;
            killers := killers + {attacker} + party.members;
            mostDamageCreature := Some(attacker);
          }
        }
        experience := Add(experience, attacker, gainExp);
      }
    }
    assert d.damage[..|d.damage|] == d.damage;
    t := Tally(experience, killers, dano, mostDamage, mostDamageCreature);
  }

  // Experience.

  function Gain(d: Death): Block -> nat {
    (b: Block) => if Credited(d, b) then Share(d, b.id) else 0
  }

  /** Merging into the leader moves experience, it does not make any. */
  lemma {:induction false} ExperienceIsGains(d: Death, damage: seq<Block>)
    ensures Worth(Gather(d, damage).experience) == Total(damage, Gain(d))
  {
    if damage != [] {
      hide Share, Blame;
      var b, before := damage[|damage| - 1], Gather(d, damage[..|damage| - 1]);
      ExperienceIsGains(d, damage[..|damage| - 1]);
      AddWorth(before.experience, Receiver(d.world, b.id), Share(d, b.id));
      BlameKeepsExperience(d, before, b);
      BlameKeepsExperience(d, before.(mostDamage := b.total, mostDamageCreature := Some(b.id)), b);
    }
  }

  lemma BlameKeepsExperience(d: Death, t: Tally, b: Block)
    ensures Blame(d, t, b).experience == t.experience
  {
  }

  function CreditedOf(d: Death): Block -> nat {
    (b: Block) => if Credited(d, b) then b.total else 0
  }

  /** What could be credited if every attacker were still in the game. */
  function CreditableOf(self: Id): Block -> nat {
    (b: Block) => if b.id != 0 && b.ticks != 0 && b.id != self then b.total else 0
  }

  /** The damage map as `addDamagePoints` builds it. */
  predicate ValidDamage(damage: seq<Block>) {
    DistinctIds(damage) && forall b | b in damage :: b.total < 0x8000_0000
  }

  lemma {:induction false} OwnDamage(damage: seq<Block>, i: nat)
    requires DistinctIds(damage) && i < |damage| && damage[i].id != 0
    ensures Total(damage, DealtBy(damage[i].id)) == damage[i].total
  {
    var n, w := |damage| - 1, DealtBy(damage[i].id);
    if i == n {
      NotDealt(damage[..n], damage[i].id);
    } else {
      OwnDamage(damage[..n], i);
    }
  }

  lemma {:induction false} NotDealt(damage: seq<Block>, id: Id)
    requires forall b | b in damage :: b.id != id
    ensures Total(damage, DealtBy(id)) == 0
  {
    if damage != [] {
      NotDealt(damage[..|damage| - 1], id);
    }
  }

  lemma ShareIs(d: Death, i: nat)
    requires ValidDamage(d.damage) && i < |d.damage| && d.damage[i].id != 0
    ensures var whole := AllDamage(d.damage) % TWO32;
            Share(d, d.damage[i].id) == if whole == 0 then 0 else d.damage[i].total * d.lost / whole
  {
    OwnDamage(d.damage, i);
    assert d.damage[i] in d.damage;
  }

  lemma FloorTimes(x: nat, whole: nat)
    requires whole > 0
    ensures x / whole * whole <= x
  {
    assert x == whole * (x / whole) + x % whole;
  }

  /** Each share is rounded down, so together they stay below the undivided product. */
  lemma {:induction false} GainsBelow(d: Death, n: nat)
    requires ValidDamage(d.damage) && n <= |d.damage|
    requires AllDamage(d.damage) % TWO32 > 0
    ensures Total(d.damage[..n], Gain(d)) * (AllDamage(d.damage) % TWO32)
         <= Total(d.damage[..n], CreditedOf(d)) * d.lost
  {
    hide Share, AllDamage, Credited;
    var whole := AllDamage(d.damage) % TWO32;
    if n > 0 {
      var b := d.damage[n - 1];
      GainsBelow(d, n - 1);
      assert d.damage[..n] == d.damage[..n - 1] + [b];
      TotalAppend(d.damage[..n - 1], b, Gain(d));
      TotalAppend(d.damage[..n - 1], b, CreditedOf(d));
      var g, c := Total(d.damage[..n - 1], Gain(d)), Total(d.damage[..n - 1], CreditedOf(d));
      if Credited(d, b) {
        CreditedHasId(d, b);
        ShareIs(d, n - 1);
        FloorTimes(b.total * d.lost, whole);
        AddProducts(g, Share(d, b.id), c, b.total, whole, d.lost);
      }
    }
  }

  lemma CreditedHasId(d: Death, b: Block)
    requires Credited(d, b)
    ensures b.id != 0
  {
  }

  lemma {:induction false} CreditedBelow(d: Death, damage: seq<Block>)
    ensures Total(damage, CreditedOf(d)) <= Total(damage, CreditableOf(d.self)) <= AllDamage(damage)
  {
    if damage != [] {
      CreditedBelow(d, damage[..|damage| - 1]);
    }
  }

  lemma TimesLess(a: nat, b: nat, whole: nat)
    requires a < b && whole > 0
    ensures a * whole < b * whole
  {
  }

  lemma TimesLeast(a: nat, b: nat, whole: nat)
    requires a <= b
    ensures a * whole <= b * whole
  {
  }

  lemma Cancel(g: nat, c: nat, lost: nat, whole: nat)
    requires whole > 0 && g * whole <= c * lost && c <= whole
    ensures g <= lost
  {
    TimesLeast(c, whole, lost);
    assert whole * lost == lost * whole;
    if lost < g {
      TimesLess(lost, g, whole);
    }
  }

  lemma AddProducts(g: nat, s: nat, c: nat, x: nat, whole: nat, lost: nat)
    requires g * whole <= c * lost && s * whole <= x * lost
    ensures (g + s) * whole <= (c + x) * lost
  {
    assert (g + s) * whole == g * whole + s * whole;
    assert (c + x) * lost == c * lost + x * lost;
  }

  lemma GainsZero(d: Death, damage: seq<Block>)
    requires AllDamage(d.damage) % TWO32 == 0
    ensures Total(damage, Gain(d)) == 0
  {
    if damage != [] {
      GainsZero(d, damage[..|damage| - 1]);
    }
  }

  /** The experience handed out is at most what the creature lost, while the credited damage fits its own sum. */
  lemma ExperienceBound(d: Death)
    requires ValidDamage(d.damage)
    requires var whole := AllDamage(d.damage) % TWO32;
             whole == 0 || Total(d.damage, CreditableOf(d.self)) <= whole
    ensures Worth(Gather(d, d.damage).experience) <= d.lost
  {
    hide AllDamage, Gain, CreditedOf, CreditableOf;
    var whole := AllDamage(d.damage) % TWO32;
    ExperienceIsGains(d, d.damage);
    if whole == 0 {
      GainsZero(d, d.damage);
    } else {
      var n := |d.damage|;
      assert d.damage[..n] == d.damage;
      GainsBelow(d, n);
      CreditedBelow(d, d.damage);
      var g, c := Total(d.damage, Gain(d)), Total(d.damage, CreditedOf(d));
      Cancel(g, c, d.lost, whole);
    }
  }

  /** Never more experience than was lost, whoever is present, however parties share, whatever is lost. */
  ghost predicate NeverExceeds(damage: seq<Block>, self: Id) {
    forall d: Death | d.damage == damage && d.self == self :: Worth(Gather(d, damage).experience) <= d.lost
  }

  lemma {:induction false} AllPresentGains(d: Death, n: nat)
    requires ValidDamage(d.damage) && n <= |d.damage|
    requires forall b | b in d.damage :: b.id in d.world.present
    requires d.lost == AllDamage(d.damage) % TWO32 > 0
    ensures Total(d.damage[..n], Gain(d)) == Total(d.damage[..n], CreditableOf(d.self))
  {
    hide Share, AllDamage;
    if n > 0 {
      var b := d.damage[n - 1];
      AllPresentGains(d, n - 1);
      assert d.damage[..n] == d.damage[..n - 1] + [b] && b in d.damage;
      TotalAppend(d.damage[..n - 1], b, Gain(d));
      TotalAppend(d.damage[..n - 1], b, CreditableOf(d.self));
      if b.id != 0 {
        ShareIs(d, n - 1);
        Exact(b.total, d.lost);
      }
    }
  }

  lemma Exact(x: nat, whole: nat)
    requires whole > 0
    ensures x * whole / whole == x
  {
    var q := x * whole / whole;
    FloorTimes(x * whole, whole);
    assert x * whole < (q + 1) * whole by {
      assert x * whole == whole * q + x * whole % whole;
    }
    if q > x {
      TimesLess(x, q, whole);
    } else if q < x {
      TimesLeast(q + 1, x, whole);
    }
  }

  /** The bound holds exactly when the 32-bit sum of all damage has not lost any of the credited damage. */
  lemma ExperienceBoundIff(damage: seq<Block>, self: Id)
    requires ValidDamage(damage)
    ensures NeverExceeds(damage, self) <==>
      (AllDamage(damage) % TWO32 == 0 || Total(damage, CreditableOf(self)) <= AllDamage(damage) % TWO32)
  {
    hide AllDamage, CreditableOf, Worth, Gather;
    var whole := AllDamage(damage) % TWO32;
    if whole == 0 || Total(damage, CreditableOf(self)) <= whole {
      forall d: Death | d.damage == damage && d.self == self
        ensures Worth(Gather(d, damage).experience) <= d.lost
      {
        ExperienceBound(d);
      }
    } else {
      var present := set b | b in damage :: b.id;
      var d := Death(World(present, map[], {}, map[]), self, 0, 0, whole, damage);
      ExperienceIsGains(d, damage);
      assert damage[..|damage|] == damage;
      AllPresentGains(d, |damage|);
      assert Worth(Gather(d, damage).experience) > d.lost;
    }
  }

  /** Three attackers with the most damage one entry can hold. */
  function HardHits(): seq<Block> {
    [Block(1, 0x7FFF_FFFF, 1), Block(2, 0x7FFF_FFFF, 1), Block(3, 0x7FFF_FFFF, 1)]
  }

  /** The failing input: their 32-bit sum is under a third of what they did, so over thrice the loss is handed out. */
  lemma HardHitsExceed(self: Id)
    requires self > 3
    ensures var d := Death(World({1, 2, 3}, map[], {}, map[]), self, 0, 0, 0x7FFF_FFFD, HardHits());
            ValidDamage(d.damage) && Worth(Gather(d, d.damage).experience) == 3 * 0x7FFF_FFFF > d.lost
    ensures !NeverExceeds(HardHits(), self)
  {
    hide Worth, Gather, Gain;
    var hits := HardHits();
    var d := Death(World({1, 2, 3}, map[], {}, map[]), self, 0, 0, 0x7FFF_FFFD, hits);
    ThreeHits(hits, Dealt());
    ThreeHits(hits, CreditableOf(self));
    assert hits[..3] == hits;
    AllPresentGains(d, 3);
    ExperienceIsGains(d, hits);
  }

  lemma ThreeHits(hits: seq<Block>, f: Block -> nat)
    requires |hits| == 3
    ensures Total(hits, f) == f(hits[0]) + f(hits[1]) + f(hits[2])
  {
    assert hits[..2][..1] == hits[..1] && hits[..1][..0] == [];
    assert Total(hits[..1], f) == f(hits[0]);
    assert Total(hits[..2], f) == f(hits[0]) + f(hits[1]);
  }

  /** In particular it holds whenever all damage together fits 32 bits. */
  lemma SmallDamageIsSafe(damage: seq<Block>, self: Id)
    requires ValidDamage(damage) && AllDamage(damage) < TWO32
    ensures NeverExceeds(damage, self)
  {
    hide NeverExceeds;
    ExperienceBoundIff(damage, self);
    CreditedBelow(Death(World({}, map[], {}, map[]), self, 0, 0, 0, damage), damage);
  }

  // Who receives it, and whom the damage names.

  /** The player who stands for an attacker: the master of a summon, otherwise the attacker itself. */
  predicate StandsFor(w: World, attacker: Id, p: Id) {
    p in w.players && p == if attacker in w.masters then w.masters[attacker] else attacker
  }

  /** That player's party shares its experience, under `leader`. */
  predicate SharesUnder(w: World, attacker: Id, leader: Id) {
    var p := if attacker in w.masters then w.masters[attacker] else attacker;
    && StandsFor(w, attacker, p) && p in w.parties
    && w.parties[p].leader == Some(leader) && w.parties[p].sharedActive && w.parties[p].sharedEnabled
  }

  /** The leader of a sharing party gets what the attacker earns, without one the attacker itself. */
  predicate Earns(w: World, attacker: Id, c: Id) {
    var p := if attacker in w.masters then w.masters[attacker] else attacker;
    if StandsFor(w, attacker, p) && p in w.parties && w.parties[p].leader.Some? && w.parties[p].sharedActive
       && w.parties[p].sharedEnabled
    then c == w.parties[p].leader.value else c == attacker
  }

  /** What an entry earns `c`: its part of all damage, out of what was lost. */
  function Earning(d: Death, c: Id, b: Block): nat {
    var whole := AllDamage(d.damage) % TWO32;
    if && b.id != 0 && b.id in d.world.present && b.total != 0 && b.ticks != 0 && b.id != d.self
       && Earns(d.world, b.id, c) && whole != 0
    then b.total * d.lost / whole else 0
  }

  function EarnedBy(d: Death, c: Id): Block -> nat {
    (b: Block) => Earning(d, c, b)
  }

  lemma ReceiverEarns(w: World, attacker: Id, c: Id)
    ensures Receiver(w, attacker) == c <==> Earns(w, attacker, c)
  {
  }

  lemma NextExperience(d: Death, t: Tally, b: Block, c: Id)
    ensures Balance(Next(d, t, b).experience, c)
         == Balance(t.experience, c) + if Credited(d, b) && Earns(d.world, b.id, c) then Share(d, b.id) else 0
  {
    hide Share, Blame, Receiver, Earns;
    ReceiverEarns(d.world, b.id, c);
    AddBalance(t.experience, Receiver(d.world, b.id), Share(d, b.id), c);
    BlameKeepsExperience(d, t, b);
    BlameKeepsExperience(d, t.(mostDamage := b.total, mostDamageCreature := Some(b.id)), b);
  }

  lemma EarnedIs(d: Death, n: nat, c: Id)
    requires ValidDamage(d.damage) && n < |d.damage|
    ensures var b := d.damage[n];
            EarnedBy(d, c)(b) == if Credited(d, b) && Earns(d.world, b.id, c) then Share(d, b.id) else 0
  {
    hide Share, AllDamage, Earns;
    if d.damage[n].id != 0 {
      ShareIs(d, n);
    }
  }

  lemma {:induction false} EarnedUpTo(d: Death, n: nat, c: Id)
    requires ValidDamage(d.damage) && n <= |d.damage|
    ensures Balance(Gather(d, d.damage[..n]).experience, c) == Total(d.damage[..n], EarnedBy(d, c))
  {
    hide Next, EarnedBy, Share, Earns, Credited;
    if n > 0 {
      EarnedUpTo(d, n - 1, c);
      assert d.damage[..n] == d.damage[..n - 1] + [d.damage[n - 1]];
      assert d.damage[..n][..n - 1] == d.damage[..n - 1];
      TotalAppend(d.damage[..n - 1], d.damage[n - 1], EarnedBy(d, c));
      NextExperience(d, Gather(d, d.damage[..n - 1]), d.damage[n - 1], c);
      EarnedIs(d, n - 1, c);
    }
  }

  /** Main result: each creature receives exactly what the entries that earn for it are worth. */
  lemma ExperienceGoesTo(d: Death, c: Id)
    requires ValidDamage(d.damage)
    ensures Balance(Gather(d, d.damage).experience, c) == Total(d.damage, EarnedBy(d, c))
  {
    hide Gather, EarnedBy;
    assert d.damage[..|d.damage|] == d.damage;
    EarnedUpTo(d, |d.damage|, c);
  }

  /** The killers are the players who stand for a credited attacker, and the sharing party of each. */
  ghost predicate IsKiller(d: Death, damage: seq<Block>, p: Id) {
    exists b :: b in damage && Credited(d, b) && MakesKiller(d.world, b.id, p)
  }

  predicate MakesKiller(w: World, attacker: Id, p: Id) {
    var q := if attacker in w.masters then w.masters[attacker] else attacker;
    || StandsFor(w, attacker, p)
    || SharesUnder(w, attacker, p)
    || (q in w.parties && w.parties[q].leader.Some? && SharesUnder(w, attacker, w.parties[q].leader.value)
        && p in w.parties[q].members)
  }

  lemma BlameMakes(d: Death, t: Tally, b: Block, p: Id)
    ensures p in Blame(d, t, b).killers <==> p in t.killers || MakesKiller(d.world, b.id, p)
  {
  }

  lemma {:induction false} KillersAre(d: Death, damage: seq<Block>, p: Id)
    ensures p in Gather(d, damage).killers <==> IsKiller(d, damage, p)
  {
    hide Blame, MakesKiller, Share, Receiver;
    if damage != [] {
      var front, b := damage[..|damage| - 1], damage[|damage| - 1];
      var t := Gather(d, front);
      KillersAre(d, front, p);
      assert damage == front + [b];
      BlameMakes(d, t, b, p);
      BlameMakes(d, t.(mostDamage := b.total, mostDamageCreature := Some(b.id)), b, p);
    }
  }

  /** Entry `i` counts for the most damage: it came in time. */
  predicate InFight(d: Death, i: nat)
    requires i < |d.damage|
  {
    Active(d, d.damage[i]) && d.now - d.damage[i].ticks <= d.inFightTicks
  }

  /** It is more than every such entry before it. */
  predicate Leads(d: Death, i: nat)
    requires i < |d.damage|
  {
    InFight(d, i) && forall j | 0 <= j < i && InFight(d, j) :: d.damage[j].total < d.damage[i].total
  }

  /** A sharing party is named by each of its entries, any other attacker when it takes the lead. */
  ghost predicate Names(d: Death, i: nat, c: Id)
    requires i < |d.damage|
  {
    var b := d.damage[i];
    if Credited(d, b) && exists leader: Id :: SharesUnder(d.world, b.id, leader) then SharesUnder(d.world, b.id, c)
    else Leads(d, i) && c == b.id
  }

  lemma BlameNames(d: Death, t: Tally, b: Block)
    ensures Blame(d, t, b).mostDamage == t.mostDamage
    ensures forall c: Id | SharesUnder(d.world, b.id, c) :: Blame(d, t, b).mostDamageCreature == Some(c)
    ensures (forall c: Id :: !SharesUnder(d.world, b.id, c)) ==>
              Blame(d, t, b).mostDamageCreature == t.mostDamageCreature
  {
    var p := MasterOrSelf(d.world, b.id);
    if p in d.world.parties && d.world.parties[p].leader.Some? {
      var leader := d.world.parties[p].leader.value;
      assert SharesUnder(d.world, b.id, leader) <==> Shares(d.world, p) && p in d.world.players;
    }
  }

  lemma {:induction false} TopDamage(d: Death, n: nat)
    requires n <= |d.damage|
    ensures var most := Gather(d, d.damage[..n]).mostDamage;
            && (forall j | 0 <= j < n && InFight(d, j) :: d.damage[j].total <= most)
            && (most == 0 || exists j :: 0 <= j < n && InFight(d, j) && d.damage[j].total == most)
  {
    hide Blame, Share, Receiver, SharesUnder;
    if n > 0 {
      TopDamage(d, n - 1);
      var t := Gather(d, d.damage[..n - 1]);
      assert d.damage[..n][..n - 1] == d.damage[..n - 1];
      BlameNames(d, t, d.damage[n - 1]);
      var b := d.damage[n - 1];
      BlameNames(d, t.(mostDamage := b.total, mostDamageCreature := Some(b.id)), b);
    }
  }

  /** The entry replaces the creature named before only if it names one. */
  lemma NextMost(d: Death, t: Tally, b: Block, c: Id)
    ensures var r := Next(d, t, b).mostDamageCreature;
            && (Credited(d, b) && SharesUnder(d.world, b.id, c) ==> r == Some(c))
            && (!Credited(d, b) || (forall x: Id :: !SharesUnder(d.world, b.id, x)) ==>
                  r == if Active(d, b) && b.total > t.mostDamage && d.now - b.ticks <= d.inFightTicks
                       then Some(b.id) else t.mostDamageCreature)
  {
    hide Blame, Share, Receiver, SharesUnder;
    BlameNames(d, t, b);
    BlameNames(d, t.(mostDamage := b.total, mostDamageCreature := Some(b.id)), b);
  }

  lemma NextNames(d: Death, n: nat, c: Id)
    requires n < |d.damage|
    ensures var t := Gather(d, d.damage[..n]);
            var r := Next(d, t, d.damage[n]).mostDamageCreature;
            r == Some(c) <==> Names(d, n, c) || (t.mostDamageCreature == Some(c) && forall x: Id :: !Names(d, n, x))
  {
    hide Next, SharesUnder, Gather, Credited;
    var t, b := Gather(d, d.damage[..n]), d.damage[n];
    TopDamage(d, n);
    if Credited(d, b) && exists leader: Id :: SharesUnder(d.world, b.id, leader) {
      var leader: Id :| SharesUnder(d.world, b.id, leader);
      NextMost(d, t, b, leader);
      NextMost(d, t, b, c);
      assert Names(d, n, leader);
    } else {
      NextMost(d, t, b, c);
      assert Leads(d, n) <==> InFight(d, n) && b.total > t.mostDamage;
      if Leads(d, n) {
        assert Names(d, n, b.id);
      }
    }
  }

  /** Main result for the most damage: the creature named last. */
  lemma {:induction false} MostDamageIs(d: Death, n: nat, c: Id)
    requires n <= |d.damage|
    ensures Gather(d, d.damage[..n]).mostDamageCreature == Some(c)
            <==> exists i :: 0 <= i < n && Names(d, i, c) && forall j, x: Id | i < j < n :: !Names(d, j, x)
  {
    hide Next, Names;
    if n > 0 {
      MostDamageIs(d, n - 1, c);
      NextNames(d, n - 1, c);
      assert d.damage[..n][..n - 1] == d.damage[..n - 1];
    }
  }

  // Who answers for the death.

  /** Damage in the window that counts against a player: its own and that of its summons. */
  function WindowOf(d: Death, player: Id): Block -> nat {
    (b: Block) => if Credited(d, b) && InWindow(d, b) && PlayerOf(d.world, b.id) == Some(player) then b.total else 0
  }

  lemma NextDano(d: Death, t: Tally, b: Block)
    ensures Next(d, t, b).dano
         == if Credited(d, b) && InWindow(d, b) && PlayerOf(d.world, b.id).Some?
            then Add(t.dano, PlayerOf(d.world, b.id).value, b.total) else t.dano
  {
    hide Share, Add;
  }

  lemma {:induction false} DanoIsWindowed(d: Death, damage: seq<Block>, player: Id)
    ensures Balance(Gather(d, damage).dano, player) == Total(damage, WindowOf(d, player))
  {
    hide Next, Add, PlayerOf, Credited, InWindow;
    if damage != [] {
      var b, before := damage[|damage| - 1], Gather(d, damage[..|damage| - 1]);
      DanoIsWindowed(d, damage[..|damage| - 1], player);
      NextDano(d, before, b);
      if PlayerOf(d.world, b.id).Some? {
        AddBalance(before.dano, PlayerOf(d.world, b.id).value, b.total, player);
      }
    }
  }

  /** Every player with damage in the window is listed once, and is among the killers. */
  lemma {:induction false} DanoKeys(d: Death, damage: seq<Block>)
    ensures var t := Gather(d, damage);
            DistinctKeys(t.dano) && (forall p | HasKey(t.dano, p) :: p in t.killers && Balance(t.dano, p) > 0)
    ensures forall p :: Total(damage, WindowOf(d, p)) > 0 ==> HasKey(Gather(d, damage).dano, p)
  {
    hide Next, Add, Balance, PlayerOf, Credited, InWindow, HasKey, DistinctKeys;
    if damage == [] {
      NoKeys();
    } else {
      var b, before := damage[|damage| - 1], Gather(d, damage[..|damage| - 1]);
      DanoKeys(d, damage[..|damage| - 1]);
      NextDano(d, before, b);
      NextKillers(d, before, b);
      if PlayerOf(d.world, b.id).Some? {
        var q := PlayerOf(d.world, b.id).value;
        AddKeys(before.dano, q, b.total);
        forall p {
          AddBalance(before.dano, q, b.total, p);
        }
      }
    }
  }

  lemma NoKeys()
    ensures DistinctKeys([]) && forall p :: !HasKey([], p)
  {
  }

  lemma NextKillers(d: Death, t: Tally, b: Block)
    ensures t.killers <= Next(d, t, b).killers
    ensures Credited(d, b) && PlayerOf(d.world, b.id).Some? ==> PlayerOf(d.world, b.id).value in Next(d, t, b).killers
    ensures Credited(d, b) ==> b.total > 0
  {
    hide Share, Add;
  }

  /** What `std::sort` with "more damage first" may give: any such order. */
  ghost predicate SortedByDamage(porDano: seq<(Id, nat)>, dano: Ledger) {
    && multiset(porDano) == multiset(dano)
    && forall i, j | 0 <= i < j < |porDano| :: porDano[i].1 >= porDano[j].1
  }

  function Firsts(porDano: seq<(Id, nat)>, n: nat): set<Id>
    requires n <= |porDano|
  {
    set i | 0 <= i < n :: porDano[i].0
  }

  method Responsible(porDano: seq<(Id, nat)>) returns (respondemPelaMorte: set<Id>)
    ensures respondemPelaMorte == Firsts(porDano, Min(PVP_MAX_RESPONSAVEIS, |porDano|))
  {
    respondemPelaMorte := {};
    var limite := Min(PVP_MAX_RESPONSAVEIS, |porDano|);
    for i := 0 to limite
      invariant respondemPelaMorte == Firsts(porDano, i)
    {
      respondemPelaMorte := respondemPelaMorte + {porDano[i].0};
    }
  }

  function Min(a: nat, b: nat): nat {
    if a <= b then a else b
  }

  lemma SortedKeys(porDano: seq<(Id, nat)>, dano: Ledger)
    requires SortedByDamage(porDano, dano) && DistinctKeys(dano)
    ensures |porDano| == |dano| && DistinctKeys(porDano)
    ensures forall e :: e in porDano <==> e in dano
  {
    assert |multiset(porDano)| == |porDano| && |multiset(dano)| == |dano|;
    forall e ensures e in porDano <==> e in dano {
      assert e in multiset(porDano) <==> e in multiset(dano);
    }
    forall i, j | 0 <= i < j < |porDano|
      ensures porDano[i].0 != porDano[j].0
    {
      if porDano[i].0 == porDano[j].0 {
        assert porDano[i] in porDano && porDano[j] in porDano;
        var x :| 0 <= x < |dano| && dano[x] == porDano[i];
        var y :| 0 <= y < |dano| && dano[y] == porDano[j];
        assert x == y;
        TwiceIn(porDano, i, j);
        OnceIn(dano, x);
      }
    }
  }

  lemma TwiceIn(s: seq<(Id, nat)>, i: nat, j: nat)
    requires i < j < |s| && s[i] == s[j]
    ensures multiset(s)[s[i]] >= 2
  {
    assert s == s[..i] + [s[i]] + s[i + 1..j] + [s[j]] + s[j + 1..];
  }

  lemma OnceIn(l: Ledger, x: nat)
    requires DistinctKeys(l) && x < |l|
    ensures multiset(l)[l[x]] == 1
  {
    assert l == l[..x] + [l[x]] + l[x + 1..];
    assert l[x] !in l[..x] && l[x] !in l[x + 1..];
  }

  lemma FirstsSize(porDano: seq<(Id, nat)>, n: nat)
    requires n <= |porDano| && DistinctKeys(porDano)
    ensures |Firsts(porDano, n)| == n
  {
    if n > 0 {
      FirstsSize(porDano, n - 1);
      assert Firsts(porDano, n) == Firsts(porDano, n - 1) + {porDano[n - 1].0};
    } else {
      assert Firsts(porDano, 0) == {};
    }
  }

  /** The rule of five: as many as there are, at most five, and nobody outside dealt more than anybody inside. */
  lemma RuleOfFive(d: Death, porDano: seq<(Id, nat)>)
    requires SortedByDamage(porDano, Gather(d, d.damage).dano)
    ensures var responsible := Firsts(porDano, Min(PVP_MAX_RESPONSAVEIS, |porDano|));
            var blamed := (p: Id) => Total(d.damage, WindowOf(d, p));
            && |responsible| == Min(PVP_MAX_RESPONSAVEIS, |Gather(d, d.damage).dano|)
            && responsible <= Gather(d, d.damage).killers
            && (forall p | p in responsible :: blamed(p) > 0)
            && (forall p, q | p in responsible && q !in responsible :: blamed(q) <= blamed(p))
  {
    hide Gather, SortedByDamage, WindowOf;
    var t := Gather(d, d.damage);
    var n := Min(PVP_MAX_RESPONSAVEIS, |porDano|);
    DanoKeys(d, d.damage);
    SortedKeys(porDano, t.dano);
    FirstsSize(porDano, n);
    forall p {
      DanoIsWindowed(d, d.damage, p);
    }
    forall i | 0 <= i < |porDano|
      ensures HasKey(t.dano, porDano[i].0) && Balance(t.dano, porDano[i].0) == porDano[i].1
    {
      assert porDano[i] in porDano;
      var x :| 0 <= x < |t.dano| && t.dano[x] == porDano[i];
      BalanceAt(t.dano, x);
    }
    forall p, q | p in Firsts(porDano, n) && q !in Firsts(porDano, n)
      ensures Balance(t.dano, q) <= Balance(t.dano, p)
    {
      var i :| 0 <= i < n && porDano[i].0 == p;
      if HasKey(t.dano, q) {
        var x :| 0 <= x < |t.dano| && t.dano[x].0 == q;
        assert t.dano[x] in porDano;
        var j :| 0 <= j < |porDano| && porDano[j] == t.dano[x];
        SortedApart(porDano, t.dano, i, j);
      }
    }
  }

  lemma SortedApart(porDano: seq<(Id, nat)>, dano: Ledger, i: nat, j: nat)
    requires SortedByDamage(porDano, dano) && i < j < |porDano|
    ensures porDano[i].1 >= porDano[j].1
  {
  }

  // The killers are told.

  /** What dies, the server's rule, and how the last hit went. */
  datatype Scene = Scene(isPlayer: bool, isMonster: bool, retro: bool, lastHit: Option<Id>, lastHitUnjustified: bool)

  /** The master is only looked up when a player was hit last by a creature still in the game. */
  function LastHitMaster(w: World, scene: Scene): Option<Id> {
    if scene.lastHit.Some? && scene.isPlayer && scene.lastHit.value in w.masters
    then Some(w.masters[scene.lastHit.value]) else None
  }

  function MostDamageFinal(w: World, most: Option<Id>): Option<Id> {
    if most.Some? then Some(MasterOrSelf(w, most.value)) else None
  }

  /** The killers that get `onKilledPlayer` without the last hit. */
  predicate Punished(w: World, scene: Scene, most: Option<Id>, respondem: set<Id>, p: Id) {
    if scene.retro then MostDamageFinal(w, most) == Some(p) && !scene.lastHitUnjustified
    else p in respondem && Some(p) != scene.lastHit && Some(p) != LastHitMaster(w, scene)
  }

  /** One turn for each killer, in whatever order the set is walked. */
  method TellKillers(w: World, scene: Scene, most: Option<Id>, respondem: set<Id>, killers: seq<Id>)
    returns (killedMonster: seq<Id>, killedPlayer: seq<Id>)
    requires NoDuplicates(killers)
    ensures killedMonster == if scene.isMonster then killers else []
    ensures NoDuplicates(killedPlayer)
    ensures forall p :: p in killedPlayer <==>
              !scene.isMonster && scene.isPlayer && p in killers && Punished(w, scene, most, respondem, p)
    ensures scene.isPlayer && !scene.isMonster && scene.retro ==>
              forall p :: p in killedPlayer <==>
                p in killers && !scene.lastHitUnjustified && most.Some?
                && p == if most.value in w.masters then w.masters[most.value] else most.value
    ensures scene.isPlayer && !scene.isMonster && !scene.retro ==>
              forall p :: p in killedPlayer <==>
                p in killers && p in respondem
                && (scene.lastHit.Some? ==>
                      p != scene.lastHit.value
                      && (scene.lastHit.value in w.masters ==> p != w.masters[scene.lastHit.value]))
  {
    killedMonster, killedPlayer := [], [];
    var mostMaster := if most.Some? && most.value in w.masters then Some(w.masters[most.value]) else None;
    var mostDamageCreature := if mostMaster.Some? then mostMaster else most;
    for i := 0 to |killers|
      invariant killedMonster == if scene.isMonster then killers[..i] else []
      invariant NoDuplicates(killedPlayer)
      invariant forall p :: p in killedPlayer <==>
                !scene.isMonster && scene.isPlayer && p in killers[..i] && Punished(w, scene, most, respondem, p)
    {
      var killer := killers[i];
      assert killers[..i + 1] == killers[..i] + [killer] && killer !in killers[..i];
      if scene.isMonster {
        killedMonster := killedMonster + [killer];
      } else if scene.isPlayer {
        var isResponsible := mostDamageCreature == Some(killer) || mostMaster == Some(killer);
        if scene.retro {
          if isResponsible && !scene.lastHitUnjustified {
            killedPlayer := killedPlayer + [killer];
          }
        } else if killer in respondem && scene.lastHit != Some(killer) && LastHitMaster(w, scene) != Some(killer) {
          killedPlayer := killedPlayer + [killer];
        }
      }
    }
    assert killers[..|killers|] == killers;
  }

  /**
   The death of a player outside the retro rule: of the at most five who dealt most in the window, each
   is told once, except the last hitter and its master, who were told with the last hit.
   */
  method OnPlayerDeath(d: Death, scene: Scene, porDano: seq<(Id, nat)>, killers: seq<Id>)
    returns (experience: Ledger, killedPlayer: seq<Id>)
    requires ValidDamage(d.damage) && scene.isPlayer && !scene.isMonster && !scene.retro
    requires SortedByDamage(porDano, Gather(d, d.damage).dano)
    requires NoDuplicates(killers) && forall p :: p in killers <==> p in Gather(d, d.damage).killers
    ensures experience == Gather(d, d.damage).experience
    ensures forall c :: Balance(experience, c) == Total(d.damage, EarnedBy(d, c))
    ensures AllDamage(d.damage) < TWO32 ==> Worth(experience) <= d.lost
    ensures forall p :: p in killedPlayer <==>
              && p in Firsts(porDano, Min(PVP_MAX_RESPONSAVEIS, |porDano|))
              && Some(p) != scene.lastHit && Some(p) != LastHitMaster(d.world, scene)
    ensures NoDuplicates(killedPlayer) && |killedPlayer| <= PVP_MAX_RESPONSAVEIS
    ensures scene.lastHit.Some? ==> scene.lastHit.value !in killedPlayer
    ensures LastHitMaster(d.world, scene).Some? ==> LastHitMaster(d.world, scene).value !in killedPlayer
    ensures forall p, q |
              && p in killedPlayer && q !in killedPlayer
              && Some(q) != scene.lastHit && Some(q) != LastHitMaster(d.world, scene) ::
              Total(d.damage, WindowOf(d, q)) <= Total(d.damage, WindowOf(d, p))
  {
    hide Gather, SortedByDamage, WindowOf, EarnedBy, AllDamage, ValidDamage, NeverExceeds;
    var t := GatherDamage(d);
    experience := t.experience;
    forall c {
      ExperienceGoesTo(d, c);
    }
    if AllDamage(d.damage) < TWO32 {
      SafeForThis(d);
    }
    var respondem := Responsible(porDano);
    RuleOfFive(d, porDano);
    var killedMonster;
    killedMonster, killedPlayer := TellKillers(d.world, scene, t.mostDamageCreature, respondem, killers);
    DistinctWithin(killedPlayer, respondem);
  }

  lemma SafeForThis(d: Death)
    requires ValidDamage(d.damage) && AllDamage(d.damage) < TWO32
    ensures Worth(Gather(d, d.damage).experience) <= d.lost
  {
    SmallDamageIsSafe(d.damage, d.self);
  }
}

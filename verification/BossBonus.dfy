/** Boss points: the loot bonus they buy, the points a bonus costs, and how kills earn them. */
module BossBonus {
  import opened Bytes

  predicate IsRoot(x: nat, r: nat) {
    r * r <= x < (r + 1) * (r + 1)
  }

  lemma RootUnique(x: nat, r: nat, s: nat)
    requires IsRoot(x, r) && IsRoot(x, s)
    ensures r == s
  {
    if r < s {
      SquareMonotone(r + 1, s);
    } else if s < r {
      SquareMonotone(s + 1, r);
    }
  }

  lemma SquareMonotone(a: nat, b: nat)
    requires a <= b
    ensures a * a <= b * b
  {
    assert a * a <= a * b <= b * b;
  }

  /** The whole part of the square root. */
  function Root(x: nat): (r: nat)
    ensures IsRoot(x, r)
  {
    RootUpTo(x, x)
  }

  function RootUpTo(x: nat, top: nat): (r: nat)
    requires x < (top + 1) * (top + 1)
    ensures IsRoot(x, r)
  {
    if top * top <= x then top else RootUpTo(x, top - 1)
  }

  /** The argument of the square root, computed in 32 bits. */
  function Radicand(points: uint32): uint32
    requires points >= 1250
  {
    (8 * ((points - 1250) / 5) + 81) % 0x1_0000_0000
  }

  /** The highest bonus whose radicand still fits 32 bits. */
  const LAST_EXACT: uint16 := 32863

  function LootBonus(points: uint32): (bonus: uint16)
    ensures bonus <= LAST_EXACT
  {
    if points <= 250 then 25 + points / 10
    else if points < 1250 then 37 + points / 20
    else
      RootBelow(Radicand(points));
      (191 + Root(Radicand(points))) / 2
  }

  lemma RootBelow(x: uint32)
    ensures Root(x) <= 65535
  {
    var r := Root(x);
    if r > 65535 {
      SquareMonotone(65536, r);
    }
  }

  /** The price of a bonus; the cast to 32 bits is defined when it fits. */
  function BossPoints(bonus: uint16): int {
    if bonus <= 25 then 0
    else if bonus <= 50 then 10 * bonus - 250
    else if bonus <= 100 then 20 * bonus - 750
    else (5 * bonus * bonus - 955 * bonus + 48000) / 2
  }

  /** The highest bonus whose price fits 32 bits. */
  const LAST_PRICED: uint16 := 41544

  predicate NoWrap(points: uint32)
    requires points >= 1250
  {
    8 * ((points - 1250) / 5) + 81 < 0x1_0000_0000
  }

  lemma EvenProduct(b: int)
    ensures b * (b - 191) % 2 == 0
  {
    var h := b / 2;
    if b == 2 * h {
      var k := h * (b - 191);
      assert b * (b - 191) == 2 * k;
    } else {
      assert b == 2 * h + 1;
      var k := b * (h - 95);
      assert b * (b - 191) == 2 * k;
    }
  }

  /** Above one hundred the price is exact, a multiple of five away from 1250, and completes a square. */
  lemma PriceSquare(b: uint16)
    requires b >= 100
    ensures 2 * BossPoints(b) == 5 * (b * (b - 191)) + 48000
    ensures (BossPoints(b) - 1250) % 5 == 0
    ensures 8 * ((BossPoints(b) - 1250) / 5) + 81 == (2 * b - 191) * (2 * b - 191)
  {
    Expand(b);
    EvenProduct(b);
    var h := b * (b - 191) / 2;
    PriceIs(b, h);
    assert BossPoints(b) - 1250 == 5 * (h + 4550);
  }

  lemma Expand(b: int)
    ensures b * (b - 191) == b * b - 191 * b && 5 * b * b == 5 * (b * b)
    ensures (2 * b - 191) * (2 * b - 191) == 4 * (b * b) - 764 * b + 36481
  {
  }

  lemma PriceIs(b: uint16, h: int)
    requires b >= 100 && b * (b - 191) == 2 * h
    ensures BossPoints(b) == 5 * h + 24000
  {
    Expand(b);
  }

  lemma PriceMonotone(a: uint16, b: uint16)
    requires 100 <= a <= b
    ensures 1250 <= BossPoints(a) <= BossPoints(b)
  {
    PriceSquare(a);
    PriceSquare(b);
    SquareMonotone(9, 2 * a - 191);
    SquareMonotone(2 * a - 191, 2 * b - 191);
  }

  /** Prices fit 32 bits exactly up to there. */
  lemma PricedIff(b: uint16)
    ensures 0 <= BossPoints(b) < 0x1_0000_0000 <==> b <= LAST_PRICED
  {
    if 100 <= b <= LAST_PRICED {
      PriceMonotone(b, LAST_PRICED);
    } else if b > LAST_PRICED {
      PriceMonotone(LAST_PRICED + 1, b);
    }
  }

  lemma WrapsAbove(b: uint16)
    requires b >= 100
    ensures (2 * b - 191) * (2 * b - 191) < 0x1_0000_0000 <==> b <= LAST_EXACT
  {
    if b <= LAST_EXACT {
      SquareMonotone(2 * b - 191, 65535);
    } else {
      SquareMonotone(65536, 2 * b - 191);
    }
  }

  /** Buying and pricing are inverse from one hundred up exactly until the 32-bit radicand overflows. */
  lemma InverseIff(b: uint16)
    requires 100 <= b <= LAST_PRICED
    ensures 0 <= BossPoints(b) < 0x1_0000_0000
    ensures LootBonus(BossPoints(b)) == b <==> b <= LAST_EXACT
  {
    PricedIff(b);
    PriceSquare(b);
    PriceMonotone(100, b);
    WrapsAbove(b);
    if b <= LAST_EXACT {
      var s := 2 * b - 191;
      assert Radicand(BossPoints(b)) == s * s;
      assert (s + 1) * (s + 1) == s * s + 2 * s + 1;
      RootUnique(s * s, Root(s * s), s);
    }
  }

  /** Below: exact on 25..50, and one short on 51..99, where the halves are cut off. */
  lemma InverseLow(b: uint16)
    requires b < 100
    ensures LootBonus(BossPoints(b)) == if b <= 25 then 25 else if b <= 50 then b else b - 1
  {
  }

  /** Comparing totals with a price is comparing radicands with its square. */
  lemma PriceOrder(points: uint32, b: uint16)
    requires points >= 1250 && b >= 100
    ensures points >= BossPoints(b) <==> 8 * ((points - 1250) / 5) + 81 >= (2 * b - 191) * (2 * b - 191)
  {
    PriceSquare(b);
  }

  /** No cheaper total from 1250 up reaches a bonus. */
  lemma LeastReaching(points: uint32, b: uint16)
    requires points >= 1250 && b >= 100
    ensures LootBonus(points) >= b ==> points >= BossPoints(b)
  {
    hide Root, BossPoints;
    var s, r := 2 * b - 191, Root(Radicand(points));
    PriceOrder(points, b);
    if r >= s {
      SquareMonotone(s, r);
    }
  }

  predicate Bracketed(points: uint32) {
    var k := LootBonus(points);
    k >= 100 && BossPoints(k) <= points < BossPoints(k + 1)
  }

  lemma RootAtLeastNine(x: nat)
    requires x >= 81
    ensures Root(x) >= 9
  {
    if Root(x) < 9 {
      SquareMonotone(Root(x) + 1, 9);
    }
  }

  lemma BracketsAt(points: uint32, r: nat, k: uint16)
    requires points >= 1250 && IsRoot(8 * ((points - 1250) / 5) + 81, r) && k == (191 + r) / 2 && 9 <= r <= 65535
    ensures BossPoints(k) <= points < BossPoints(k + 1)
  {
    hide BossPoints;
    PriceOrder(points, k);
    PriceOrder(points, k + 1);
    SquareMonotone(2 * k - 191, r);
    SquareMonotone(r + 1, 2 * k - 189);
  }

  lemma Brackets(points: uint32)
    requires points >= 1250
    ensures NoWrap(points) ==> Bracketed(points)
  {
    hide Root, BossPoints, IsRoot;
    if NoWrap(points) {
      var x := 8 * ((points - 1250) / 5) + 81;
      RootAtLeastNine(x);
      RootBelow(x);
      BracketsAt(points, Root(x), LootBonus(points));
    }
  }

  lemma BreaksAfterWrap(points: uint32)
    requires points >= 1250
    ensures !NoWrap(points) ==> !Bracketed(points)
  {
    hide Root, BossPoints;
    var k, r := LootBonus(points), Root(Radicand(points));
    if !NoWrap(points) && k >= 100 {
      PriceSquare(k + 1);
      if k < LAST_EXACT {
        SquareMonotone(2 * k - 189, 65535);
      } else {
        SquareMonotone(65535, r);
      }
    }
  }

  /** A total lies between the price of its bonus and of the next one, exactly when nothing overflows. */
  lemma BracketIff(points: uint32)
    requires points >= 1250
    ensures Bracketed(points) <==> NoWrap(points)
  {
    hide Bracketed, NoWrap;
    Brackets(points);
    BreaksAfterWrap(points);
  }

  // Kills.

  /** Below 1250 points a bonus step takes ten points, from 251 on twenty. */
  lemma LowBonus(points: uint32)
    requires points < 1250
    ensures var b := LootBonus(points);
            if points <= 250 then 10 * (b - 25) <= points < 10 * (b - 24)
            else 20 * (b - 37) <= points < 20 * (b - 36)
  {
  }

  datatype LevelInfo = LevelInfo(kills: nat, points: nat)

  function CountReached(stages: seq<LevelInfo>, kills: nat): (n: nat)
    ensures n <= |stages|
  {
    if stages == [] then 0
    else CountReached(stages[..|stages| - 1], kills) + if kills >= stages[|stages| - 1].kills then 1 else 0
  }

  /** `getBossCurrentLevel`. */
  method GetBossCurrentLevel(stages: seq<LevelInfo>, currentKills: nat) returns (level: nat)
    ensures level == CountReached(stages, currentKills)
  {
    level := 0;
    for i := 0 to |stages|
      invariant level == CountReached(stages[..i], currentKills)
    {
      assert stages[..i + 1][..i] == stages[..i];
      if currentKills >= stages[i].kills {
        level := level + 1;
      }
    }
    assert stages[..|stages|] == stages;
  }

  class BossTracker {
    const stages: seq<LevelInfo>
    var kills: nat
    var bossPoints: nat

    constructor (stages: seq<LevelInfo>)
      ensures this.stages == stages && kills == 0 && bossPoints == 0
    {
      this.stages, kills, bossPoints := stages, 0, 0;
    }

    method AddBosstiaryKill(amount: nat)
      modifies this
      ensures (kills, bossPoints) == AfterKill(stages, (old(kills), old(bossPoints)), amount)
    {
      var oldBossLevel := GetBossCurrentLevel(stages, kills);
      kills := kills + amount;
      var newBossLevel := GetBossCurrentLevel(stages, kills);
      if oldBossLevel == newBossLevel {
        return;
      }
      Reaches(stages, kills - amount, kills);
      bossPoints := bossPoints + stages[newBossLevel - 1].points;
    }
  }

  lemma {:induction false} Reaches(stages: seq<LevelInfo>, k: nat, more: nat)
    requires k <= more
    ensures CountReached(stages, k) <= CountReached(stages, more)
  {
    if stages != [] {
      Reaches(stages[..|stages| - 1], k, more);
    }
  }

  /** Kills and points after a batch: only the level it ends on pays. */
  function AfterKill(stages: seq<LevelInfo>, s: (nat, nat), amount: nat): (nat, nat) {
    var before, after := CountReached(stages, s.0), CountReached(stages, s.0 + amount);
    (s.0 + amount, s.1 + if before == after || after == 0 then 0 else stages[after - 1].points)
  }

  function AfterKills(stages: seq<LevelInfo>, s: (nat, nat), batches: seq<nat>): (nat, nat)
    decreases |batches|
  {
    if batches == [] then s else AfterKills(stages, AfterKill(stages, s, batches[0]), batches[1..])
  }

  /** The points of the first `n` levels. */
  function PointsUpTo(stages: seq<LevelInfo>, n: nat): nat
    requires n <= |stages|
  {
    if n == 0 then 0 else PointsUpTo(stages, n - 1) + stages[n - 1].points
  }

  predicate SkipsNoLevel(stages: seq<LevelInfo>, kills: nat, batches: seq<nat>)
    decreases |batches|
  {
    batches == [] ||
    (CountReached(stages, kills + batches[0]) <= CountReached(stages, kills) + 1
     && SkipsNoLevel(stages, kills + batches[0], batches[1..]))
  }

  lemma {:induction false} PointsGrow(stages: seq<LevelInfo>, m: nat, n: nat)
    requires m < n <= |stages| && forall l | l in stages :: l.points > 0
    ensures PointsUpTo(stages, m) + stages[n - 1].points <= PointsUpTo(stages, n)
    ensures m + 1 < n ==> PointsUpTo(stages, m) + stages[n - 1].points < PointsUpTo(stages, n)
  {
    if m + 1 < n {
      PointsGrow(stages, m, n - 1);
      assert stages[n - 2] in stages;
    }
  }

  lemma {:induction false} Earned(stages: seq<LevelInfo>, s: (nat, nat), batches: seq<nat>)
    requires forall l | l in stages :: l.points > 0
    requires s.1 <= PointsUpTo(stages, CountReached(stages, s.0))
    ensures var (kills, points) := AfterKills(stages, s, batches);
            && points <= PointsUpTo(stages, CountReached(stages, kills))
            && (points == PointsUpTo(stages, CountReached(stages, kills)) <==>
                s.1 == PointsUpTo(stages, CountReached(stages, s.0)) && SkipsNoLevel(stages, s.0, batches))
    decreases |batches|
  {
    if batches != [] {
      var next := AfterKill(stages, s, batches[0]);
      var m, n := CountReached(stages, s.0), CountReached(stages, next.0);
      Reaches(stages, s.0, next.0);
      if m < n {
        PointsGrow(stages, m, n);
      }
      Earned(stages, next, batches[1..]);
    }
  }

  /** However kills are batched, a boss pays every level once exactly when no batch jumps over a level. */
  lemma LevelsPaidIff(stages: seq<LevelInfo>, batches: seq<nat>)
    requires forall l | l in stages :: l.points > 0 && l.kills > 0
    ensures var (kills, points) := AfterKills(stages, (0, 0), batches);
            points == PointsUpTo(stages, CountReached(stages, kills)) <==> SkipsNoLevel(stages, 0, batches)
  {
    NothingReached(stages);
    Earned(stages, (0, 0), batches);
  }

  lemma {:induction false} NothingReached(stages: seq<LevelInfo>)
    requires forall l | l in stages :: l.kills > 0
    ensures CountReached(stages, 0) == 0
  {
    if stages != [] {
      NothingReached(stages[..|stages| - 1]);
      assert stages[|stages| - 1] in stages;
    }
  }

  /** The failing input: a boss whose hundred kills come at once pays the second level and never the first. */
  lemma JumpedLevelIsLost()
    ensures var stages := [LevelInfo(25, 5), LevelInfo(100, 15), LevelInfo(300, 30)];
            var (kills, points) := AfterKills(stages, (0, 0), [100]);
            CountReached(stages, kills) == 2 && points == 15 && PointsUpTo(stages, 2) == 20
  {
    var stages := [LevelInfo(25, 5), LevelInfo(100, 15), LevelInfo(300, 30)];
    NothingReached(stages);
    assert stages[..2] == [LevelInfo(25, 5), LevelInfo(100, 15)] && stages[..2][..1] == [LevelInfo(25, 5)];
    assert stages[..2][..1][..0] == [];
    assert CountReached(stages[..2][..1], 100) == 1;
    assert CountReached(stages[..2], 100) == 2;
    assert [100][1..] == [];
    assert AfterKills(stages, (100, 15), []) == (100, 15);
    assert PointsUpTo(stages, 1) == 5;
  }
}

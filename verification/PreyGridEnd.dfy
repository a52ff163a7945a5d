/** Whether the drawing of a prey grid can always come to its end. */
module PreyGridEnd {
  import opened Bytes
  import opened Lists
  import opened Options
  import opened PreySlots

  /** The loop after some draws; it stands still once the grid is full. */
  function DrawSome(cfg: Config, blackList: seq<uint16>, g: Grid, draws: seq<uint16>): Grid
    decreases |draws|
  {
    if |g.list| >= GRID || draws == [] then g
    else DrawSome(cfg, blackList, Draw(cfg, blackList, g, draws[0]), draws[1..])
  }

  /** Some further draws fill the grid. */
  ghost predicate CanFill(cfg: Config, blackList: seq<uint16>, g: Grid) {
    exists more :: FromBestiary(cfg, more) && DrawAll(cfg, blackList, g, more).Some?
  }

  /** Whatever has been drawn, the grid can still be filled. */
  ghost predicate NeverStuck(cfg: Config, blackList: seq<uint16>, level: nat) {
    forall draws | FromBestiary(cfg, draws) ::
      CanFill(cfg, blackList, DrawSome(cfg, blackList, StageStart(level), draws))
  }

  // The four difficulty classes.

  const CLASSES := 4

  function ClassOf(stars: nat): (c: nat)
    ensures c < CLASSES
  {
    if stars <= 1 then 0 else if stars == 2 then 1 else if stars == 3 then 2 else 3
  }

  /** What is left of the stage of a class. */
  function Counter(g: Grid, c: nat): nat {
    if c == 0 then g.one else if c == 1 then g.two else if c == 2 then g.three else g.four
  }

  predicate InClass(cfg: Config, race: uint16, c: nat) {
    Eligible(cfg, race) && ClassOf(cfg.bestiary[race].value.stars) == c
  }

  /** The creatures of a class that a reload may take, as a caller can count them. */
  function Supply(cfg: Config, blackList: seq<uint16>, c: nat): set<uint16> {
    set r | r in cfg.bestiary && InClass(cfg, r, c) && r !in blackList
  }

  /** Each class has as many creatures as its stage starts with. */
  predicate Enough(cfg: Config, blackList: seq<uint16>, level: nat) {
    forall c | 0 <= c < CLASSES :: |Supply(cfg, blackList, c)| >= Counter(StageStart(level), c)
  }

  function LeftOf(cfg: Config, blackList: seq<uint16>, g: Grid, c: nat): set<uint16> {
    set r | r in Left(cfg, blackList, g) && InClass(cfg, r, c)
  }

  /** The creatures left of a class are at least as many as its stage still wants. */
  predicate Supplied(cfg: Config, blackList: seq<uint16>, g: Grid, c: nat) {
    |LeftOf(cfg, blackList, g, c)| >= Counter(g, c)
  }

  lemma LeftAtStart(cfg: Config, blackList: seq<uint16>, level: nat, c: nat)
    ensures LeftOf(cfg, blackList, StageStart(level), c) == Supply(cfg, blackList, c)
  {
  }

  /** An eligible creature drawn for the first time. */
  predicate Takes(cfg: Config, blackList: seq<uint16>, g: Grid, race: uint16) {
    race !in blackList + g.drawn && Eligible(cfg, race)
  }

  /** It leaves its class, and its stage if that still wants one; the other classes are not touched. */
  lemma DrawTaken(cfg: Config, blackList: seq<uint16>, g: Grid, race: uint16, c: nat)
    requires Takes(cfg, blackList, g, race) && c < CLASSES
    ensures var g' := Draw(cfg, blackList, g, race);
            && g'.drawn == g.drawn + [race]
            && Counter(g', c) == Counter(g, c) - (if InClass(cfg, race, c) && Counter(g, c) > 0 then 1 else 0)
            && LeftOf(cfg, blackList, g', c)
               == LeftOf(cfg, blackList, g, c) - (if InClass(cfg, race, c) then {race} else {})
  {
    PlaceCounts(g.(tries := (g.tries + 1) % 0x100, drawn := g.drawn + [race]), race, StarsOf(cfg, race), c);
    LeftLess(cfg, blackList, g, race);
  }

  function StarsOf(cfg: Config, race: uint16): nat
    requires Eligible(cfg, race)
  {
    cfg.bestiary[race].value.stars
  }

  lemma PlaceCounts(g: Grid, race: uint16, stars: nat, c: nat)
    requires c < CLASSES
    ensures var g' := Place(g, race, stars);
            && g'.drawn == g.drawn
            && Counter(g', c) == Counter(g, c) - (if ClassOf(stars) == c && Counter(g, c) > 0 then 1 else 0)
  {
  }

  lemma DrawIdle(cfg: Config, blackList: seq<uint16>, g: Grid, race: uint16, c: nat)
    requires !Takes(cfg, blackList, g, race)
    ensures var g' := Draw(cfg, blackList, g, race);
            && g'.list == g.list && Counter(g', c) == Counter(g, c)
            && LeftOf(cfg, blackList, g', c) == LeftOf(cfg, blackList, g, c)
            && Left(cfg, blackList, g') == Left(cfg, blackList, g)
  {
    hide Place;
    var g' := Draw(cfg, blackList, g, race);
    assert Left(cfg, blackList, g') == Left(cfg, blackList, g);
  }

  /** While a stage wants creatures of its class, none of them is passed over. */
  lemma DrawKeepsSupply(cfg: Config, blackList: seq<uint16>, g: Grid, race: uint16, c: nat)
    requires Supplied(cfg, blackList, g, c) && c < CLASSES
    ensures Supplied(cfg, blackList, Draw(cfg, blackList, g, race), c)
  {
    hide Draw, LeftOf, Left, Eligible, InClass;
    if Takes(cfg, blackList, g, race) {
      DrawTaken(cfg, blackList, g, race, c);
    } else {
      DrawIdle(cfg, blackList, g, race, c);
    }
  }

  lemma {:induction false} DrawSomeKeeps(cfg: Config, blackList: seq<uint16>, g: Grid, draws: seq<uint16>)
    requires GridOk(cfg, blackList, g) && FromBestiary(cfg, draws)
    ensures var g' := DrawSome(cfg, blackList, g, draws);
            && GridOk(cfg, blackList, g')
            && forall c | 0 <= c < CLASSES && Supplied(cfg, blackList, g, c) :: Supplied(cfg, blackList, g', c)
    decreases |draws|
  {
    hide Draw, GridOk, Supplied;
    if |g.list| < GRID && draws != [] {
      assert draws[0] in draws;
      var g1 := Draw(cfg, blackList, g, draws[0]);
      DrawKeeps(cfg, blackList, g, draws[0]);
      forall c | 0 <= c < CLASSES && Supplied(cfg, blackList, g, c)
        ensures Supplied(cfg, blackList, g1, c)
      {
        DrawKeepsSupply(cfg, blackList, g, draws[0], c);
      }
      DrawSomeKeeps(cfg, blackList, g1, draws[1..]);
    }
  }

  lemma StartOk(cfg: Config, blackList: seq<uint16>, level: nat)
    ensures GridOk(cfg, blackList, StageStart(level))
  {
  }

  /** What is left is left in one of the four classes. */
  lemma LeftByClass(cfg: Config, blackList: seq<uint16>, g: Grid)
    ensures |Left(cfg, blackList, g)|
         == |LeftOf(cfg, blackList, g, 0)| + |LeftOf(cfg, blackList, g, 1)|
            + |LeftOf(cfg, blackList, g, 2)| + |LeftOf(cfg, blackList, g, 3)|
  {
    var a, b := LeftOf(cfg, blackList, g, 0), LeftOf(cfg, blackList, g, 1);
    var c, d := LeftOf(cfg, blackList, g, 2), LeftOf(cfg, blackList, g, 3);
    assert Left(cfg, blackList, g) == a + b + (c + d);
    assert a !! b && c !! d && (a + b) !! (c + d);
  }

  /** Nine creatures are in the list or left, as long as every class is supplied. */
  lemma SuppliedHasNine(cfg: Config, blackList: seq<uint16>, g: Grid)
    requires GridOk(cfg, blackList, g) && forall c | 0 <= c < CLASSES :: Supplied(cfg, blackList, g, c)
    ensures |g.list| + |Left(cfg, blackList, g)| >= GRID
  {
    hide Left, LeftOf;
    LeftByClass(cfg, blackList, g);
    assert Supplied(cfg, blackList, g, 0) && Supplied(cfg, blackList, g, 1);
    assert Supplied(cfg, blackList, g, 2) && Supplied(cfg, blackList, g, 3);
  }

  // A full grid within reach.

  lemma DrawRemembers(cfg: Config, blackList: seq<uint16>, g: Grid, race: uint16, x: uint16)
    requires x == race || x in blackList + g.drawn
    ensures x in blackList + Draw(cfg, blackList, g, race).drawn
  {
  }

  lemma {:induction false} DrawSomeRemembers(cfg: Config, blackList: seq<uint16>, g: Grid, draws: seq<uint16>,
                                             x: uint16)
    requires x in blackList + g.drawn
    ensures x in blackList + DrawSome(cfg, blackList, g, draws).drawn
    decreases |draws|
  {
    hide Draw;
    if |g.list| < GRID && draws != [] {
      DrawRemembers(cfg, blackList, g, draws[0], x);
      DrawSomeRemembers(cfg, blackList, Draw(cfg, blackList, g, draws[0]), draws[1..], x);
    }
  }

  lemma FillFromKnown(cfg: Config, blackList: seq<uint16>, g: Grid, known: uint16)
    requires known in cfg.bestiary && known in blackList + g.drawn
    requires |g.list| + |Left(cfg, blackList, g)| >= GRID
    ensures CanFill(cfg, blackList, g)
  {
    var more := Fill(cfg, blackList, g, known);
  }

  /** The first draw of an eligible creature is always placed, since every stage starts above zero. */
  lemma FillFromStart(cfg: Config, blackList: seq<uint16>, level: nat)
    requires |Left(cfg, blackList, StageStart(level))| >= GRID
    ensures CanFill(cfg, blackList, StageStart(level))
  {
    hide Left, Eligible;
    var g := StageStart(level);
    var first := SomeLeft(cfg, blackList, g);
    InLeft(cfg, blackList, g, first);
    var g' := Draw(cfg, blackList, g, first);
    FirstPlaced(cfg, blackList, level, first);
    LeftLess(cfg, blackList, g, first);
    var more := Fill(cfg, blackList, g', first);
    assert ([first] + more)[1..] == more;
    assert DrawAll(cfg, blackList, g, [first] + more) == DrawAll(cfg, blackList, g', more);
  }

  lemma FirstPlaced(cfg: Config, blackList: seq<uint16>, level: nat, race: uint16)
    requires Takes(cfg, blackList, StageStart(level), race)
    ensures |Draw(cfg, blackList, StageStart(level), race).list| == 1
    ensures race in Draw(cfg, blackList, StageStart(level), race).drawn
  {
  }

  /** At every point of a drawing the grid can still be filled exactly when enough creatures are left. */
  lemma CanFillIff(cfg: Config, blackList: seq<uint16>, level: nat, draws: seq<uint16>)
    requires FromBestiary(cfg, draws)
    ensures var g := DrawSome(cfg, blackList, StageStart(level), draws);
            CanFill(cfg, blackList, g) <==> |g.list| + |Left(cfg, blackList, g)| >= GRID
  {
    hide Left, DrawAll, Draw;
    var start := StageStart(level);
    var g := DrawSome(cfg, blackList, start, draws);
    if |g.list| + |Left(cfg, blackList, g)| < GRID {
      forall more ensures DrawAll(cfg, blackList, g, more) == None {
        TooFewNeverFills(cfg, blackList, g, more);
      }
    } else if draws == [] {
      FillFromStart(cfg, blackList, level);
    } else {
      assert draws[0] in draws;
      DrawRemembers(cfg, blackList, start, draws[0], draws[0]);
      DrawSomeRemembers(cfg, blackList, Draw(cfg, blackList, start, draws[0]), draws[1..], draws[0]);
      FillFromKnown(cfg, blackList, g, draws[0]);
    }
  }

  // A dead end within reach.

  /** Nothing but stages has filled the list so far. */
  predicate ByStages(g: Grid) {
    |g.list| + g.one + g.two + g.three + g.four == GRID
  }

  /** Within the first ten tries a new creature is placed in its stage or passed over. */
  lemma DrawByStages(cfg: Config, blackList: seq<uint16>, g: Grid, race: uint16)
    requires ByStages(g) && (Takes(cfg, blackList, g, race) ==> (g.tries + 1) % 0x100 < 10)
    ensures ByStages(Draw(cfg, blackList, g, race))
  {
  }

  lemma ShortStays(cfg: Config, blackList: seq<uint16>, g: Grid, race: uint16, c: nat)
    requires !Supplied(cfg, blackList, g, c) && c < CLASSES
    ensures !Supplied(cfg, blackList, Draw(cfg, blackList, g, race), c)
  {
    hide Draw, LeftOf, Left, Eligible;
    if Takes(cfg, blackList, g, race) {
      DrawTaken(cfg, blackList, g, race, c);
      if InClass(cfg, race, c) {
        TakenWasLeft(cfg, blackList, g, race, c);
      }
    } else {
      DrawIdle(cfg, blackList, g, race, c);
    }
  }

  lemma TakenWasLeft(cfg: Config, blackList: seq<uint16>, g: Grid, race: uint16, c: nat)
    requires Takes(cfg, blackList, g, race) && InClass(cfg, race, c)
    ensures race in LeftOf(cfg, blackList, g, c)
  {
  }

  /** A class in short supply keeps its stage above zero, so the list below nine. */
  lemma ShortBelowNine(cfg: Config, blackList: seq<uint16>, g: Grid, c: nat)
    requires ByStages(g) && c < CLASSES && !Supplied(cfg, blackList, g, c)
    ensures |g.list| < GRID
  {
  }

  /**
   Repeated draws bring the tries round to zero again; new creatures are drawn only within the first
   ten. So all that is left is drawn, and the stage of the short class stays open.
   */
  lemma {:induction false} Exhaust(cfg: Config, blackList: seq<uint16>, g: Grid, known: uint16, c: nat)
    returns (draws: seq<uint16>)
    requires known in cfg.bestiary && known in blackList + g.drawn
    requires ByStages(g) && c < CLASSES && !Supplied(cfg, blackList, g, c)
    ensures FromBestiary(cfg, draws)
    ensures var g' := DrawSome(cfg, blackList, g, draws);
            |g'.list| + |Left(cfg, blackList, g')| < GRID
    decreases |Left(cfg, blackList, g)|, if g.tries < 9 then 0 else 0x100 - g.tries
  {
    hide Left, Eligible, Supplied, ByStages, DrawSome, InClass;
    ShortBelowNine(cfg, blackList, g, c);
    if Left(cfg, blackList, g) == {} {
      draws := [];
      DrawNothing(cfg, blackList, g);
    } else {
      var next := known;
      if g.tries < 9 {
        next := SomeLeft(cfg, blackList, g);
        InLeft(cfg, blackList, g, next);
        LeftLess(cfg, blackList, g, next);
      } else {
        DrawIdle(cfg, blackList, g, next, c);
      }
      var g' := Draw(cfg, blackList, g, next);
      DrawByStages(cfg, blackList, g, next);
      ShortStays(cfg, blackList, g, next, c);
      DrawRemembers(cfg, blackList, g, next, known);
      draws := Exhaust(cfg, blackList, g', known, c);
      DrawOneMore(cfg, blackList, g, next, draws);
      draws := [next] + draws;
    }
  }

  lemma DrawNothing(cfg: Config, blackList: seq<uint16>, g: Grid)
    ensures DrawSome(cfg, blackList, g, []) == g
  {
  }

  lemma DrawOneMore(cfg: Config, blackList: seq<uint16>, g: Grid, race: uint16, draws: seq<uint16>)
    requires |g.list| < GRID
    ensures DrawSome(cfg, blackList, g, [race] + draws)
         == DrawSome(cfg, blackList, Draw(cfg, blackList, g, race), draws)
  {
    hide Draw;
    assert ([race] + draws)[1..] == draws;
  }

  /** A class in short supply from the start: some draws lead to a dead end. */
  lemma ReachDeadEnd(cfg: Config, blackList: seq<uint16>, level: nat, c: nat) returns (draws: seq<uint16>)
    requires c < CLASSES && !Supplied(cfg, blackList, StageStart(level), c)
    ensures FromBestiary(cfg, draws)
    ensures var g := DrawSome(cfg, blackList, StageStart(level), draws);
            |g.list| + |Left(cfg, blackList, g)| < GRID
  {
    hide Left, Eligible, Supplied, DrawSome, InClass;
    var g := StageStart(level);
    if Left(cfg, blackList, g) == {} {
      draws := [];
      DrawNothing(cfg, blackList, g);
    } else {
      var first := SomeLeft(cfg, blackList, g);
      InLeft(cfg, blackList, g, first);
      var g' := Draw(cfg, blackList, g, first);
      DrawByStages(cfg, blackList, g, first);
      ShortStays(cfg, blackList, g, first, c);
      DrawRemembers(cfg, blackList, g, first, first);
      draws := Exhaust(cfg, blackList, g', first, c);
      DrawOneMore(cfg, blackList, g, first, draws);
      draws := [first] + draws;
    }
  }

  /**
   Main result: a reload can get into a state that no draws complete exactly when, before it starts,
   one of the four star classes has fewer eligible creatures outside the blacklist than its stage wants.
   */
  lemma NeverStuckIff(cfg: Config, blackList: seq<uint16>, level: nat)
    requires Plays(cfg)
    ensures NeverStuck(cfg, blackList, level) <==> Enough(cfg, blackList, level)
  {
    hide Left, LeftOf, Supply, DrawAll, DrawSome, GridOk, CanFill, StageStart;
    var start := StageStart(level);
    forall c | 0 <= c < CLASSES
      ensures Supplied(cfg, blackList, start, c) <==> |Supply(cfg, blackList, c)| >= Counter(start, c)
    {
      LeftAtStart(cfg, blackList, level, c);
    }
    if Enough(cfg, blackList, level) {
      forall draws | FromBestiary(cfg, draws)
        ensures CanFill(cfg, blackList, DrawSome(cfg, blackList, start, draws))
      {
        StartOk(cfg, blackList, level);
        DrawSomeKeeps(cfg, blackList, start, draws);
        SuppliedHasNine(cfg, blackList, DrawSome(cfg, blackList, start, draws));
        CanFillIff(cfg, blackList, level, draws);
      }
    } else {
      var c :| 0 <= c < CLASSES && |Supply(cfg, blackList, c)| < Counter(start, c);
      var draws := ReachDeadEnd(cfg, blackList, level, c);
      CanFillIff(cfg, blackList, level, draws);
    }
  }

  // A failing input.

  /** Races 1 to `n`; up to nine they are eligible and of one star, beyond they have no monster. */
  function Races(n: nat): (m: map<uint16, Option<Monster>>)
    requires n < 0x1_0000
    ensures |m| == n
    ensures forall r :: r in m <==> 1 <= r <= n
    ensures forall r | r in m :: m[r] == if r <= 9 then Some(Monster(1, true, false, 1)) else None
  {
    if n == 0 then map[] else Races(n - 1)[n := if n <= 9 then Some(Monster(1, true, false, 1)) else None]
  }

  function OneStarBestiary(): Config {
    Config(true, Races(36), 7200)
  }

  lemma OneStarEligible(r: uint16)
    ensures Eligible(OneStarBestiary(), r) <==> 1 <= r <= 9
    ensures 1 <= r <= 9 ==> OneStarBestiary().bestiary[r].value.stars == 1
    ensures r in OneStarBestiary().bestiary <==> 1 <= r <= 36
  {
  }

  lemma OneStarDraw(g: Grid, r: uint16)
    requires 1 <= r <= 9 && r !in g.drawn && g.tries < 9
    ensures Draw(OneStarBestiary(), [], g, r)
         == g.(tries := g.tries + 1, drawn := g.drawn + [r],
               list := if g.one > 0 then g.list + [r] else g.list, one := if g.one > 0 then g.one - 1 else 0)
  {
    hide Eligible, OneStarBestiary;
    OneStarEligible(r);
  }

  lemma OneStarLeft(g: Grid)
    requires g.drawn == [1, 2, 3, 4]
    ensures Left(OneStarBestiary(), [], g) == {5, 6, 7, 8, 9}
  {
    hide Eligible, OneStarBestiary;
    forall r: uint16 {
      OneStarEligible(r);
    }
  }

  lemma OneStarRun()
    ensures DrawSome(OneStarBestiary(), [], StageStart(0), [1, 2, 3, 4]) == Grid([1, 2, 3], [1, 2, 3, 4], 0, 3, 2, 1, 4)
  {
    hide Draw, DrawSome, Races, OneStarBestiary;
    var cfg := OneStarBestiary();
    var g0 := Grid([], [], 3, 3, 2, 1, 0);
    var g1 := Grid([1], [1], 2, 3, 2, 1, 1);
    var g2 := Grid([1, 2], [1, 2], 1, 3, 2, 1, 2);
    var g3 := Grid([1, 2, 3], [1, 2, 3], 0, 3, 2, 1, 3);
    var g4 := Grid([1, 2, 3], [1, 2, 3, 4], 0, 3, 2, 1, 4);
    calc {
      DrawSome(cfg, [], g0, [1, 2, 3, 4]);
    ==  { OneStarDraw(g0, 1); assert Draw(cfg, [], g0, 1) == g1;
          DrawOneMore(cfg, [], g0, 1, [2, 3, 4]); assert [1] + [2, 3, 4] == [1, 2, 3, 4]; }
      DrawSome(cfg, [], g1, [2, 3, 4]);
    ==  { OneStarDraw(g1, 2); assert Draw(cfg, [], g1, 2) == g2;
          DrawOneMore(cfg, [], g1, 2, [3, 4]); assert [2] + [3, 4] == [2, 3, 4]; }
      DrawSome(cfg, [], g2, [3, 4]);
    ==  { OneStarDraw(g2, 3); assert Draw(cfg, [], g2, 3) == g3;
          DrawOneMore(cfg, [], g2, 3, [4]); assert [3] + [4] == [3, 4]; }
      DrawSome(cfg, [], g3, [4]);
    ==  { OneStarDraw(g3, 4); assert Draw(cfg, [], g3, 4) == g4;
          DrawOneMore(cfg, [], g3, 4, []); assert [4] + [] == [4]; }
      DrawSome(cfg, [], g4, []);
    ==  { DrawNothing(cfg, [], g4); }
      g4;
    }
  }

  /** After the draws 1, 2, 3 and 4 of a first reload, three creatures are listed and no draws fill the grid. */
  lemma OneStarDeadEnd()
    ensures var cfg := OneStarBestiary();
            var g := DrawSome(cfg, [], StageStart(0), [1, 2, 3, 4]);
            && Plays(cfg) && FromBestiary(cfg, [1, 2, 3, 4])
            && g.list == [1, 2, 3] && forall more :: DrawAll(cfg, [], g, more) == None
  {
    hide DrawSome, DrawAll, Races, Left;
    var cfg := OneStarBestiary();
    OneStarRun();
    var g := DrawSome(cfg, [], StageStart(0), [1, 2, 3, 4]);
    OneStarLeft(g);
    forall more ensures DrawAll(cfg, [], g, more) == None {
      TooFewNeverFills(cfg, [], g, more);
    }
  }
}

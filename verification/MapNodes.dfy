/** `IOMap::parseTowns` and `IOMap::parseWaypoints`: node lists read straight from a `FileStream`. */
module MapNodes {
  import opened Bytes
  import opened OtbGrammar
  import opened PropStreams
  import opened FileStreams

  const OTBM_TOWNS: uint8 := 12
  const OTBM_TOWN: uint8 := 13
  const OTBM_WAYPOINTS: uint8 := 15
  const OTBM_WAYPOINT: uint8 := 16

  datatype Position = Position(x: uint16, y: uint16, z: uint8)
  datatype Town = Town(name: bytes, temple: Position)

  /** Where the node list ends, or the `IOMapException`. */
  datatype Parsed<+T> = Done(value: T, end: Cursor) | IOMapException

  // ----- one record -----

  function ReadPosition(data: bytes, c: Cursor): (r: (Position, Cursor))
    requires Addressable(data)
    ensures r.1.nodes == c.nodes && c.pos <= r.1.pos && (r.1.pos != c.pos ==> r.1.pos <= |data|)
  {
    Limits();
    var (x, c1) := GetInt(data, c, 2);
    var (y, c2) := GetInt(data, c1, 2);
    var (z, c3) := GetInt(data, c2, 1);
    (Position(x, y, z), c3)
  }

  function ReadPlace(data: bytes, c: Cursor): (r: (Town, Cursor))
    requires Addressable(data)
    ensures r.1.nodes == c.nodes && c.pos <= r.1.pos && (r.1.pos != c.pos ==> r.1.pos <= |data|)
  {
    var (name, c1) := GetString(data, c);
    var (at, c2) := ReadPosition(data, c1);
    (Town(name, at), c2)
  }

  lemma OpenedAdvances(data: bytes, c: Cursor, nodeType: uint8)
    requires Addressable(data)
    ensures var (ok, c') := StartNode(data, c, nodeType); ok ==> c.pos < c'.pos <= |data|
    ensures var (ok, c') := EndNode(data, c); ok ==> c.pos < c'.pos <= |data|
  {
  }

  // ----- the node lists -----

  function TownList(data: bytes, c: Cursor, towns: map<uint32, Town>): Parsed<map<uint32, Town>>
    requires Addressable(data)
    decreases |data| - c.pos
  {
    OpenedAdvances(data, c, OTBM_TOWN);
    var (open, c1) := StartNode(data, c, OTBM_TOWN);
    if !open then
      var (closed, c2) := EndNode(data, c1);
      if closed then Done(towns, c2) else IOMapException
    else
      Limits();
      var (id, c2) := GetInt(data, c1, 4);
      var (town, c3) := ReadPlace(data, c2);
      OpenedAdvances(data, c3, 0);
      var (closed, c4) := EndNode(data, c3);
      if closed then TownList(data, c4, towns[id := town]) else IOMapException
  }

  function Towns(data: bytes, c: Cursor, towns: map<uint32, Town>): Parsed<map<uint32, Town>>
    requires Addressable(data)
  {
    var (open, c1) := StartNode(data, c, OTBM_TOWNS);
    if open then TownList(data, c1, towns) else IOMapException
  }

  function WaypointList(data: bytes, c: Cursor, waypoints: map<bytes, Position>): Parsed<map<bytes, Position>>
    requires Addressable(data)
    decreases |data| - c.pos
  {
    OpenedAdvances(data, c, OTBM_WAYPOINT);
    var (open, c1) := StartNode(data, c, OTBM_WAYPOINT);
    if !open then
      var (closed, c2) := EndNode(data, c1);
      if closed then Done(waypoints, c2) else IOMapException
    else
      var (place, c2) := ReadPlace(data, c1);
      OpenedAdvances(data, c2, 0);
      var (closed, c3) := EndNode(data, c2);
      if closed then WaypointList(data, c3, waypoints[place.name := place.temple]) else IOMapException
  }

  function Waypoints(data: bytes, c: Cursor, waypoints: map<bytes, Position>): Parsed<map<bytes, Position>>
    requires Addressable(data)
  {
    var (open, c1) := StartNode(data, c, OTBM_WAYPOINTS);
    if open then WaypointList(data, c1, waypoints) else IOMapException
  }

  class GameMap {
    var towns: map<uint32, Town>
    var waypoints: map<bytes, Position>

    constructor ()
      ensures towns == map[] && waypoints == map[]
    {
      towns, waypoints := map[], map[];
    }
  }

  method ReadPlaceFrom(stream: FileStream) returns (town: Town)
    requires stream.Valid()
    modifies stream`pos
    ensures (town, stream.At()) == ReadPlace(stream.data, old(stream.At()))
  {
    Limits();
    var name := stream.ReadString();
    var x := stream.Get(2);
    var y := stream.Get(2);
    var z := stream.Get(1);
    town := Town(name, Position(x, y, z));
  }

  method ParseTowns(stream: FileStream, gameMap: GameMap) returns (ok: bool)
    requires stream.Valid()
    modifies stream, gameMap`towns
    ensures match Towns(stream.data, old(stream.At()), old(gameMap.towns))
            case Done(towns, end) => ok && gameMap.towns == towns && stream.At() == end
            case IOMapException => !ok
  {
    ghost var result := Towns(stream.data, stream.At(), gameMap.towns);
    ok := stream.Start(OTBM_TOWNS);
    if !ok {
      return;
    }
    while true
      invariant result == TownList(stream.data, stream.At(), gameMap.towns)
      decreases |stream.data| - stream.pos
    {
      OpenedAdvances(stream.data, stream.At(), OTBM_TOWN);
      ok := stream.Start(OTBM_TOWN);
      if !ok {
        break;
      }
      Limits();
      var townId := stream.Get(4);
      var town := ReadPlaceFrom(stream);
      gameMap.towns := gameMap.towns[townId := town];
      OpenedAdvances(stream.data, stream.At(), 0);
      ok := stream.End();
      if !ok {
        return;
      }
    }
    ok := stream.End();
  }

  method ParseWaypoints(stream: FileStream, gameMap: GameMap) returns (ok: bool)
    requires stream.Valid()
    modifies stream, gameMap`waypoints
    ensures match Waypoints(stream.data, old(stream.At()), old(gameMap.waypoints))
            case Done(waypoints, end) => ok && gameMap.waypoints == waypoints && stream.At() == end
            case IOMapException => !ok
  {
    ghost var result := Waypoints(stream.data, stream.At(), gameMap.waypoints);
    ok := stream.Start(OTBM_WAYPOINTS);
    if !ok {
      return;
    }
    while true
      invariant result == WaypointList(stream.data, stream.At(), gameMap.waypoints)
      decreases |stream.data| - stream.pos
    {
      OpenedAdvances(stream.data, stream.At(), OTBM_WAYPOINT);
      ok := stream.Start(OTBM_WAYPOINT);
      if !ok {
        break;
      }
      var place := ReadPlaceFrom(stream);
      gameMap.waypoints := gameMap.waypoints[place.name := place.temple];
      OpenedAdvances(stream.data, stream.At(), 0);
      ok := stream.End();
      if !ok {
        return;
      }
    }
    ok := stream.End();
  }

  // ----- the writer -----

  function PositionBytes(p: Position): bytes {
    Le(p.x, 2) + Le(p.y, 2) + Le(p.z, 1)
  }

  function PrintPlace(t: Town): bytes {
    Escape(PutString(t.name)) + Escape(PositionBytes(t.temple))
  }

  function PrintTown(id: uint32, t: Town): bytes {
    [START, OTBM_TOWN] + Escape(Le(id, 4)) + PrintPlace(t) + [END]
  }

  function PrintWaypoint(t: Town): bytes {
    [START, OTBM_WAYPOINT] + PrintPlace(t) + [END]
  }

  function PrintTownList(ts: seq<(uint32, Town)>): bytes {
    if ts == [] then [END] else PrintTown(ts[0].0, ts[0].1) + PrintTownList(ts[1..])
  }

  function PrintTowns(ts: seq<(uint32, Town)>): bytes {
    [START, OTBM_TOWNS] + PrintTownList(ts)
  }

  function PrintWaypointList(ps: seq<Town>): bytes {
    if ps == [] then [END] else PrintWaypoint(ps[0]) + PrintWaypointList(ps[1..])
  }

  function PrintWaypoints(ps: seq<Town>): bytes {
    [START, OTBM_WAYPOINTS] + PrintWaypointList(ps)
  }

  /** A later entry replaces an earlier one with the same key. */
  function TownMap(ts: seq<(uint32, Town)>, towns: map<uint32, Town>): map<uint32, Town> {
    if ts == [] then towns else TownMap(ts[1..], towns[ts[0].0 := ts[0].1])
  }

  function WaypointMap(ps: seq<Town>, waypoints: map<bytes, Position>): map<bytes, Position> {
    if ps == [] then waypoints else WaypointMap(ps[1..], waypoints[ps[0].name := ps[0].temple])
  }

  // ----- reading back what was written -----

  predicate NoMarkers(s: bytes) {
    forall i | 0 <= i < |s| :: s[i] < ESCAPE
  }

  /** The names `getString` can read back: it takes the raw bytes, and no more than 8191 of them. */
  predicate ReadableName(name: bytes) {
    |name| < STRING_LIMIT && NoMarkers(name)
  }

  lemma {:induction false} EscapeLength(s: bytes)
    ensures |Escape(s)| >= |s|
    ensures |Escape(s)| == |s| <==> NoMarkers(s)
    ensures NoMarkers(s) ==> Escape(s) == s
  {
    if s != [] {
      EscapeLength(s[1..]);
      assert s == [s[0]] + s[1..];
      assert NoMarkers(s) <==> s[0] < ESCAPE && NoMarkers(s[1..]) by {
        assert forall i | 0 <= i < |s[1..]| :: s[1..][i] == s[i + 1];
      }
    }
  }

  lemma {:induction false} WholeRawLength(raw: bytes)
    requires RawText(raw)
    ensures RawLength(raw, |Unescape(raw)|) == |raw|
    decreases |raw|
  {
    if raw != [] {
      FirstValue(raw);
      WholeRawLength(raw[FirstLength(raw)..]);
    }
  }

  /** An integer written escaped is read back inside a node. */
  lemma ReadPrintedInt(data: bytes, c: Cursor, v: nat, width: nat)
    requires Addressable(data) && c.nodes > 0 && v < Limit(width)
    requires LiesAt(data, c.pos, Escape(Le(v, width)))
    ensures GetInt(data, c, width) == (v, Cursor(c.pos + |Escape(Le(v, width))|, c.nodes))
  {
    var raw := Escape(Le(v, width));
    EscapeIsRawText(Le(v, width));
    ReadEscapedInText(data, c.pos, raw, width);
    WholeRawLength(raw);
    FromLeLe(v, width);
    assert Le(v, width)[..width] == Le(v, width);
  }

  /**
   A printed name is read back, and the stream stands behind it, exactly when it is short enough
   and has no byte that the writer must escape.
   */
  lemma ReadPrintedName(data: bytes, c: Cursor, name: bytes)
    requires Addressable(data) && c.nodes > 0 && |name| <= MAX_STRING
    requires LiesAt(data, c.pos, Escape(PutString(name)))
    ensures GetString(data, c) == (name, Cursor(c.pos + |Escape(PutString(name))|, c.nodes)) <==> ReadableName(name)
  {
    hide Le, Limit, Escape, GetInt;
    var len := Le(|name|, 2);
    Limits();
    EscapeConcat(len, name);
    LiesAtParts(data, c.pos, Escape(len), Escape(name));
    ReadPrintedInt(data, c, |name|, 2);
    EscapeLength(name);
  }

  lemma EscapedPosition(p: Position)
    ensures Escape(PositionBytes(p)) == Escape(Le(p.x, 2)) + Escape(Le(p.y, 2)) + Escape(Le(p.z, 1))
  {
    hide Escape, Le;
    EscapeConcat(Le(p.x, 2) + Le(p.y, 2), Le(p.z, 1));
    EscapeConcat(Le(p.x, 2), Le(p.y, 2));
  }

  lemma ReadPrintedPosition(data: bytes, c: Cursor, p: Position)
    requires Addressable(data) && c.nodes > 0
    requires LiesAt(data, c.pos, Escape(PositionBytes(p)))
    ensures ReadPosition(data, c) == (p, Cursor(c.pos + |Escape(PositionBytes(p))|, c.nodes))
  {
    hide PositionBytes, Escape, GetInt, Le, Limit, LiesAt;
    Limits();
    EscapedPosition(p);
    LiesAtParts(data, c.pos, Escape(Le(p.x, 2)) + Escape(Le(p.y, 2)), Escape(Le(p.z, 1)));
    LiesAtParts(data, c.pos, Escape(Le(p.x, 2)), Escape(Le(p.y, 2)));
    var c1 := Cursor(c.pos + |Escape(Le(p.x, 2))|, c.nodes);
    var c2 := Cursor(c1.pos + |Escape(Le(p.y, 2))|, c.nodes);
    ReadPrintedInt(data, c, p.x, 2);
    ReadPrintedInt(data, c1, p.y, 2);
    ReadPrintedInt(data, c2, p.z, 1);
  }

  lemma ReadPrintedPlace(data: bytes, c: Cursor, t: Town)
    requires Addressable(data) && c.nodes > 0 && ReadableName(t.name)
    requires LiesAt(data, c.pos, PrintPlace(t))
    ensures ReadPlace(data, c) == (t, Cursor(c.pos + |PrintPlace(t)|, c.nodes))
  {
    hide LiesAt, Escape, GetString, ReadPosition;
    var name, at := Escape(PutString(t.name)), Escape(PositionBytes(t.temple));
    LiesAtParts(data, c.pos, name, at);
    ReadPrintedName(data, c, t.name);
    ReadPrintedPosition(data, Cursor(c.pos + |name|, c.nodes), t.temple);
  }

  /** A marker byte is read as itself, inside a node or not. */
  lemma ReadMarker(data: bytes, c: Cursor, b: uint8)
    requires Addressable(data) && b != ESCAPE && LiesAt(data, c.pos, [b])
    ensures GetInt(data, c, 1) == (b, Cursor(c.pos + 1, c.nodes))
  {
    assert data[c.pos] == data[c.pos..c.pos + 1][0];
    assert data[c.pos..c.pos + 1] == [b];
    assert ReadEscaped(data, c.pos, 1) == (true, [b] + [], c.pos + 1);
    assert [b][1..] == [] && FromLe([]) == 0 && FromLe([b]) == b;
  }

  lemma StartPrinted(data: bytes, c: Cursor, nodeType: uint8)
    requires Addressable(data) && 0 < nodeType < ESCAPE && c.nodes + 1 < WRAP
    requires LiesAt(data, c.pos, [START, nodeType])
    ensures StartNode(data, c, nodeType) == (true, Cursor(c.pos + 2, c.nodes + 1))
  {
    assert [START] + [nodeType] == [START, nodeType];
    LiesAtParts(data, c.pos, [START], [nodeType]);
    ReadMarker(data, c, START);
    ReadMarker(data, Cursor(c.pos + 1, c.nodes), nodeType);
  }

  lemma EndPrinted(data: bytes, c: Cursor, nodeType: uint8)
    requires Addressable(data) && c.nodes > 0 && LiesAt(data, c.pos, [END])
    ensures EndNode(data, c) == (true, Cursor(c.pos + 1, c.nodes - 1))
    ensures StartNode(data, c, nodeType) == (false, c)
  {
    ReadMarker(data, c, END);
  }

  lemma ReadPrintedTown(data: bytes, c: Cursor, id: uint32, t: Town, towns: map<uint32, Town>)
    requires Addressable(data) && 0 < c.nodes && c.nodes + 1 < WRAP && ReadableName(t.name)
    requires LiesAt(data, c.pos, PrintTown(id, t))
    ensures TownList(data, c, towns)
         == TownList(data, Cursor(c.pos + |PrintTown(id, t)|, c.nodes), towns[id := t])
  {
    hide PrintPlace, Escape, Le, Limit, LiesAt, GetInt, ReadPlace, StartNode, EndNode;
    Limits();
    LiesAtParts(data, c.pos, [START, OTBM_TOWN] + Escape(Le(id, 4)) + PrintPlace(t), [END]);
    LiesAtParts(data, c.pos, [START, OTBM_TOWN] + Escape(Le(id, 4)), PrintPlace(t));
    LiesAtParts(data, c.pos, [START, OTBM_TOWN], Escape(Le(id, 4)));
    StartPrinted(data, c, OTBM_TOWN);
    var c1 := Cursor(c.pos + 2, c.nodes + 1);
    var c2 := Cursor(c1.pos + |Escape(Le(id, 4))|, c1.nodes);
    ReadPrintedInt(data, c1, id, 4);
    ReadPrintedPlace(data, c2, t);
    EndPrinted(data, Cursor(c2.pos + |PrintPlace(t)|, c2.nodes), 0);
  }

  lemma ReadPrintedWaypoint(data: bytes, c: Cursor, t: Town, waypoints: map<bytes, Position>)
    requires Addressable(data) && 0 < c.nodes && c.nodes + 1 < WRAP && ReadableName(t.name)
    requires LiesAt(data, c.pos, PrintWaypoint(t))
    ensures WaypointList(data, c, waypoints)
         == WaypointList(data, Cursor(c.pos + |PrintWaypoint(t)|, c.nodes), waypoints[t.name := t.temple])
  {
    hide LiesAt, Escape, PrintPlace, ReadPlace, StartNode, EndNode;
    LiesAtParts(data, c.pos, [START, OTBM_WAYPOINT] + PrintPlace(t), [END]);
    LiesAtParts(data, c.pos, [START, OTBM_WAYPOINT], PrintPlace(t));
    StartPrinted(data, c, OTBM_WAYPOINT);
    var c1 := Cursor(c.pos + 2, c.nodes + 1);
    ReadPrintedPlace(data, c1, t);
    EndPrinted(data, Cursor(c1.pos + |PrintPlace(t)|, c1.nodes), 0);
  }

  lemma NoMoreTowns(data: bytes, c: Cursor, towns: map<uint32, Town>)
    requires Addressable(data) && c.nodes > 0 && LiesAt(data, c.pos, [END])
    ensures TownList(data, c, towns) == Done(towns, Cursor(c.pos + 1, c.nodes - 1))
  {
    hide StartNode, EndNode;
    EndPrinted(data, c, OTBM_TOWN);
  }

  lemma NoMoreWaypoints(data: bytes, c: Cursor, waypoints: map<bytes, Position>)
    requires Addressable(data) && c.nodes > 0 && LiesAt(data, c.pos, [END])
    ensures WaypointList(data, c, waypoints) == Done(waypoints, Cursor(c.pos + 1, c.nodes - 1))
  {
    hide StartNode, EndNode;
    EndPrinted(data, c, OTBM_WAYPOINT);
  }

  lemma {:induction false} ReadPrintedTownList(data: bytes, c: Cursor, ts: seq<(uint32, Town)>,
                                               towns: map<uint32, Town>)
    requires Addressable(data) && 0 < c.nodes && c.nodes + 1 < WRAP
    requires forall i | 0 <= i < |ts| :: ReadableName(ts[i].1.name)
    requires LiesAt(data, c.pos, PrintTownList(ts))
    ensures TownList(data, c, towns)
         == Done(TownMap(ts, towns), Cursor(c.pos + |PrintTownList(ts)|, c.nodes - 1))
    decreases |ts|
  {
    hide TownList, PrintTown, LiesAt;
    if ts == [] {
      NoMoreTowns(data, c, towns);
    } else {
      var (id, t) := ts[0];
      LiesAtParts(data, c.pos, PrintTown(id, t), PrintTownList(ts[1..]));
      assert c.pos + |PrintTown(id, t)| <= |data|;
      ReadPrintedTown(data, c, id, t, towns);
      ReadPrintedTownList(data, Cursor(c.pos + |PrintTown(id, t)|, c.nodes), ts[1..], towns[id := t]);
    }
  }

  lemma {:induction false} ReadPrintedWaypointList(data: bytes, c: Cursor, ps: seq<Town>,
                                                   waypoints: map<bytes, Position>)
    requires Addressable(data) && 0 < c.nodes && c.nodes + 1 < WRAP
    requires forall i | 0 <= i < |ps| :: ReadableName(ps[i].name)
    requires LiesAt(data, c.pos, PrintWaypointList(ps))
    ensures WaypointList(data, c, waypoints)
         == Done(WaypointMap(ps, waypoints), Cursor(c.pos + |PrintWaypointList(ps)|, c.nodes - 1))
    decreases |ps|
  {
    hide WaypointList, PrintWaypoint, LiesAt;
    if ps == [] {
      NoMoreWaypoints(data, c, waypoints);
    } else {
      LiesAtParts(data, c.pos, PrintWaypoint(ps[0]), PrintWaypointList(ps[1..]));
      assert c.pos + |PrintWaypoint(ps[0])| <= |data|;
      ReadPrintedWaypoint(data, c, ps[0], waypoints);
      ReadPrintedWaypointList(data, Cursor(c.pos + |PrintWaypoint(ps[0])|, c.nodes), ps[1..],
                              waypoints[ps[0].name := ps[0].temple]);
    }
  }

  /** Main result: a printed town node is read as its last-wins map, from START to just past END, at the same depth. */
  lemma TownsRoundTrip(data: bytes, c: Cursor, ts: seq<(uint32, Town)>, towns: map<uint32, Town>)
    requires Addressable(data) && c.nodes + 2 < WRAP
    requires forall i | 0 <= i < |ts| :: ReadableName(ts[i].1.name)
    requires LiesAt(data, c.pos, PrintTowns(ts))
    ensures Towns(data, c, towns) == Done(TownMap(ts, towns), Cursor(c.pos + |PrintTowns(ts)|, c.nodes))
  {
    hide StartNode, TownList, PrintTownList;
    LiesAtParts(data, c.pos, [START, OTBM_TOWNS], PrintTownList(ts));
    StartPrinted(data, c, OTBM_TOWNS);
    ReadPrintedTownList(data, Cursor(c.pos + 2, c.nodes + 1), ts, towns);
  }

  lemma WaypointsRoundTrip(data: bytes, c: Cursor, ps: seq<Town>, waypoints: map<bytes, Position>)
    requires Addressable(data) && c.nodes + 2 < WRAP
    requires forall i | 0 <= i < |ps| :: ReadableName(ps[i].name)
    requires LiesAt(data, c.pos, PrintWaypoints(ps))
    ensures Waypoints(data, c, waypoints)
         == Done(WaypointMap(ps, waypoints), Cursor(c.pos + |PrintWaypoints(ps)|, c.nodes))
  {
    hide StartNode, WaypointList, PrintWaypointList;
    LiesAtParts(data, c.pos, [START, OTBM_WAYPOINTS], PrintWaypointList(ps));
    StartPrinted(data, c, OTBM_WAYPOINTS);
    ReadPrintedWaypointList(data, Cursor(c.pos + 2, c.nodes + 1), ps, waypoints);
  }

  /** What the maps hold: for each key the last entry that has it. */
  lemma {:induction false} TownMapLast(ts: seq<(uint32, Town)>, towns: map<uint32, Town>, i: nat)
    requires i < |ts| && forall j | i < j < |ts| :: ts[j].0 != ts[i].0
    ensures ts[i].0 in TownMap(ts, towns) && TownMap(ts, towns)[ts[i].0] == ts[i].1
  {
    if i > 0 {
      TownMapLast(ts[1..], towns[ts[0].0 := ts[0].1], i - 1);
    } else {
      TownMapOther(ts[1..], towns[ts[0].0 := ts[0].1], ts[0].0);
    }
  }

  lemma {:induction false} TownMapOther(ts: seq<(uint32, Town)>, towns: map<uint32, Town>, id: uint32)
    requires forall j | 0 <= j < |ts| :: ts[j].0 != id
    ensures id in TownMap(ts, towns) <==> id in towns
    ensures id in towns ==> TownMap(ts, towns)[id] == towns[id]
  {
    if ts != [] {
      assert ts[0].0 != id;
      TownMapOther(ts[1..], towns[ts[0].0 := ts[0].1], id);
    }
  }

  /** The bytes that one `getU8` takes: none at the end of the file, two for an escaped one inside a node. */
  function Span(data: bytes, c: Cursor): nat {
    if c.pos >= |data| then 0
    else if c.nodes > 0 && data[c.pos] == ESCAPE && c.pos + 1 < |data| then 2
    else 1
  }

  lemma SpanIs(data: bytes, c: Cursor)
    requires Addressable(data)
    ensures GetInt(data, c, 1).1 == c.(pos := c.pos + Span(data, c))
  {
    Limits();
    if c.nodes > 0 && c.pos < |data| && data[c.pos] == ESCAPE && c.pos + 1 == |data| {
      assert !ReadEscaped(data, c.pos, 1).0;
    }
  }

  /** A failed `endNode` goes back exactly to where it started when its lookahead was one byte of data. */
  lemma FailedEndRestores(data: bytes, c: Cursor)
    requires Addressable(data) && !EndNode(data, c).0
    ensures EndNode(data, c).1 == c <==> Span(data, c) == 1
  {
    hide GetInt;
    SpanIs(data, c);
  }

  /** And a failed `startNode` when its lookahead was as many bytes of data as it gives back. */
  lemma FailedStartRestores(data: bytes, c: Cursor, nodeType: uint8)
    requires Addressable(data) && !StartNode(data, c, nodeType).0
    ensures StartNode(data, c, nodeType).1 == c
       <==> if GetInt(data, c, 1).0 == START
            then Span(data, c) + Span(data, c.(pos := c.pos + Span(data, c))) == 2
            else Span(data, c) == 1
  {
    hide GetInt;
    SpanIs(data, c);
    SpanIs(data, c.(pos := c.pos + Span(data, c)));
  }

  /**
   `isProp` says whether the next value is the property. It goes past the value only for a property found
   with `toNext`; otherwise it takes one position back, which is where it started after one byte of data.
   */
  lemma PropLookahead(data: bytes, c: Cursor, prop: uint8, toNext: bool)
    requires Addressable(data)
    ensures var (ok, next) := IsProp(data, c, prop, toNext);
      && (ok <==> GetInt(data, c, 1).0 == prop)
      && (ok && toNext ==> next == c.(pos := c.pos + Span(data, c)))
      && (!ok || !toNext ==> (next == c <==> Span(data, c) == 1))
  {
    hide GetInt;
    SpanIs(data, c);
  }
}

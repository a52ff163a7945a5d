/**
 The OTB node format: the language of the bytes after the identifier, the stack
 recogniser of `Loader::parseTree` as a function on bytes, and the proof that
 the recogniser accepts exactly the language and returns the only reading of it.
 */
module OtbGrammar {
  import opened Bytes
  import opened Lists

  const ESCAPE: uint8 := 0xFD
  const START: uint8 := 0xFE
  const END: uint8 := 0xFF

  /** Property text as it lies in a file: no marker byte that is not behind an ESCAPE, no dangling ESCAPE. */
  predicate RawText(s: bytes) {
    s == [] ||
    if s[0] == ESCAPE then |s| >= 2 && RawText(s[2..])
    else s[0] < ESCAPE && RawText(s[1..])
  }

  /** `getProps`: drop each byte that starts an escape; `escaped` says the byte before was one. */
  function Unescape(s: bytes, escaped: bool := false): bytes {
    if s == [] then []
    else
      var drop := s[0] == ESCAPE && !escaped;
      (if drop then [] else [s[0]]) + Unescape(s[1..], drop)
  }

  /** The stored form of one property byte. */
  function EscapeByte(b: uint8): bytes {
    if b >= ESCAPE then [ESCAPE, b] else [b]
  }

  /** What a writer stores for the property bytes `p`. */
  function Escape(p: bytes): bytes {
    if p == [] then []
    else EscapeByte(p[0]) + Escape(p[1..])
  }

  lemma {:induction false} EscapeIsRawText(p: bytes)
    ensures RawText(Escape(p))
    ensures Unescape(Escape(p)) == p
  {
    if p != [] {
      EscapeIsRawText(p[1..]);
      var e, tail := Escape(p), Escape(p[1..]);
      if p[0] >= ESCAPE {
        assert e[2..] == tail;
        assert e[1..] == [p[0]] + tail;
        assert e[1..][1..] == tail;
        assert Unescape(e[1..], true) == [p[0]] + Unescape(tail);
      } else {
        assert e[1..] == tail;
      }
      assert p == [p[0]] + p[1..];
    }
  }

  lemma {:induction false} EscapeConcat(p: bytes, q: bytes)
    ensures Escape(p + q) == Escape(p) + Escape(q)
  {
    if p == [] {
      assert p + q == q;
    } else {
      EscapeConcat(p[1..], q);
      assert (p + q)[1..] == p[1..] + q;
      Assoc(EscapeByte(p[0]), Escape(p[1..]), Escape(q));
    }
  }

  lemma {:induction false} RawTextJoin(s: bytes, t: bytes)
    requires RawText(s) && RawText(t)
    ensures RawText(s + t)
  {
    if s == [] {
      assert s + t == t;
    } else {
      var k := if s[0] == ESCAPE then 2 else 1;
      RawTextJoin(s[k..], t);
      assert (s + t)[k..] == s[k..] + t;
    }
  }

  /** Without its first value, raw text has one value less. */
  lemma UnescapeFirst(s: bytes, t: bytes)
    requires RawText(s) && s != []
    ensures var k := if s[0] == ESCAPE then 2 else 1;
      k <= |s| && Unescape(s + t) == [s[k - 1]] + Unescape(s[k..] + t)
  {
    if s[0] == ESCAPE {
      UnescapePair(s + t);
      assert (s + t)[2..] == s[2..] + t;
    } else {
      assert (s + t)[1..] == s[1..] + t;
    }
  }

  lemma {:induction false} RawTextConcat(s: bytes, t: bytes)
    requires RawText(s) && RawText(t)
    ensures RawText(s + t)
    ensures Unescape(s + t) == Unescape(s) + Unescape(t)
  {
    RawTextJoin(s, t);
    if s == [] {
      assert s + t == t;
    } else {
      var k := if s[0] == ESCAPE then 2 else 1;
      UnescapeFirst(s, t);
      UnescapeFirst(s, []);
      assert s + [] == s && s[k..] + [] == s[k..];
      RawTextConcat(s[k..], t);
      Assoc([s[k - 1]], Unescape(s[k..]), Unescape(t));
    }
  }

  lemma UnescapePair(s: bytes)
    requires |s| >= 2 && s[0] == ESCAPE
    ensures Unescape(s) == [s[1]] + Unescape(s[2..])
  {
    assert s[1..][1..] == s[2..];
    assert Unescape(s[1..], true) == [s[1]] + Unescape(s[2..]);
  }

  /**
   A document: a node with its raw property text and its children. `parseTree` also skips
   text that stands after a child, so each child carries the gap that follows it.
   */
  datatype Doc = Doc(nodeType: uint8, props: bytes, kids: seq<Kid>)
  datatype Kid = Kid(doc: Doc, gap: bytes)

  function Render(d: Doc): bytes
    decreases d, 1
  {
    [START, d.nodeType] + d.props + RenderKids(d.kids) + [END]
  }

  function RenderKids(ks: seq<Kid>): bytes
    decreases ks, 0
  {
    if ks == [] then []
    else
      var last := ks[|ks| - 1];
      RenderKids(ks[..|ks| - 1]) + Render(last.doc) + last.gap
  }

  predicate WellFormed(d: Doc)
    decreases d, 1
  {
    RawText(d.props) && WellFormedKids(d.kids)
  }

  predicate WellFormedKids(ks: seq<Kid>)
    decreases ks, 0
  {
    ks == [] ||
    var last := ks[|ks| - 1];
    WellFormedKids(ks[..|ks| - 1]) && WellFormed(last.doc) && RawText(last.gap)
  }

  /** A node whose END has not been read yet. */
  datatype Frame = Frame(nodeType: uint8, props: bytes, kids: seq<Kid>)

  /** The recogniser: the stack of open nodes, or the closed root and the text behind it. */
  datatype State = Inside(below: seq<Frame>, top: Frame) | Closed(root: Doc, gap: bytes) | Bad

  /** Text goes to the properties until the first child, then to the gap behind the last child. */
  function WithText(f: Frame, t: bytes): Frame {
    if f.kids == [] then f.(props := f.props + t)
    else
      var n := |f.kids| - 1;
      f.(kids := f.kids[..n] + [Kid(f.kids[n].doc, f.kids[n].gap + t)])
  }

  function AddText(st: State, t: bytes): State {
    match st
    case Inside(below, top) => Inside(below, WithText(top, t))
    case Closed(root, gap) => Closed(root, gap + t)
    case Bad => Bad
  }

  function OpenNode(st: State, nodeType: uint8): State {
    match st
    case Inside(below, top) => Inside(below + [top], Frame(nodeType, [], []))
    case _ => Bad
  }

  function CloseNode(st: State): State {
    match st
    case Inside(below, top) =>
      var doc := Doc(top.nodeType, top.props, top.kids);
      if below == [] then Closed(doc, [])
      else
        var n := |below| - 1;
        Inside(below[..n], below[n].(kids := below[n].kids + [Kid(doc, [])]))
    case _ => Bad
  }

  /** The loop of `parseTree`, one marker at a time. */
  function Run(st: State, s: bytes): State
    decreases |s|
  {
    if s == [] then st
    else if s[0] == START then
      if |s| == 1 then Bad else Run(OpenNode(st, s[1]), s[2..])
    else if s[0] == END then
      Run(CloseNode(st), s[1..])
    else if s[0] == ESCAPE then
      if |s| == 1 then Bad else Run(AddText(st, s[..2]), s[2..])
    else
      Run(AddText(st, s[..1]), s[1..])
  }

  /** The whole of `parseTree` on the bytes that follow the identifier. */
  function Parse(s: bytes): State {
    if |s| < 2 || s[0] != START then Bad
    else Run(Inside([], Frame(s[1], [], [])), s[2..])
  }

  lemma {:induction false} RunBad(s: bytes)
    ensures Run(Bad, s) == Bad
    decreases |s|
  {
    if |s| >= 2 {
      RunBad(s[2..]);
    }
    if |s| >= 1 {
      RunBad(s[1..]);
    }
  }

  // One marker at a time.

  lemma OpenStep(st: State, s: bytes)
    requires st.Inside? && |s| >= 2 && s[0] == START
    ensures OpenNode(st, s[1]).Inside? && Run(st, s) == Run(OpenNode(st, s[1]), s[2..])
  {
  }

  lemma CloseStep(st: State, s: bytes)
    requires st.Inside? && s != [] && s[0] == END
    ensures CloseNode(st) != Bad && (CloseNode(st).Closed? <==> st.below == [])
    ensures Run(st, s) == Run(CloseNode(st), s[1..])
  {
  }

  lemma TextStep(st: State, s: bytes, n: nat)
    requires st != Bad && s != [] && s[0] != START && s[0] != END
    requires n == if s[0] == ESCAPE then 2 else 1
    requires n <= |s|
    ensures AddText(st, s[..n]) != Bad && Run(st, s) == Run(AddText(st, s[..n]), s[n..])
    ensures AddText(st, s[..n]).Closed? ==> st.Closed? && AddText(st, s[..n]).root == st.root
  {
  }

  lemma RunDone(st: State)
    ensures Run(st, []) == st
  {
  }

  /** A marker outside the root, or one cut off by the end of the file. */
  lemma FailStep(st: State, s: bytes)
    requires s != []
    requires (!st.Inside? && (s[0] == START || s[0] == END)) || (|s| == 1 && (s[0] == START || s[0] == ESCAPE))
    ensures Run(st, s) == Bad
  {
    RunBad(s[if s[0] == START && |s| >= 2 then 2 else 1..]);
  }

  // ----- everything accepted is in the language -----

  function Opened(f: Frame): bytes {
    [START, f.nodeType] + f.props + RenderKids(f.kids)
  }

  function Prefix(spine: seq<Frame>): bytes {
    if spine == [] then [] else Prefix(spine[..|spine| - 1]) + Opened(spine[|spine| - 1])
  }

  function Consumed(st: State): bytes {
    match st
    case Inside(below, top) => Prefix(below) + Opened(top)
    case Closed(root, gap) => Render(root) + gap
    case Bad => []
  }

  predicate GoodFrame(f: Frame) {
    RawText(f.props) && WellFormedKids(f.kids)
  }

  predicate GoodState(st: State) {
    match st
    case Inside(below, top) => GoodFrame(top) && forall i | 0 <= i < |below| :: GoodFrame(below[i])
    case Closed(root, gap) => WellFormed(root) && RawText(gap)
    case Bad => false
  }

  lemma RenderKidsSnoc(ks: seq<Kid>, d: Doc, gap: bytes)
    ensures RenderKids(ks + [Kid(d, gap)]) == RenderKids(ks) + Render(d) + gap
    ensures WellFormedKids(ks + [Kid(d, gap)]) == (WellFormedKids(ks) && WellFormed(d) && RawText(gap))
  {
    assert (ks + [Kid(d, gap)])[..|ks|] == ks;
  }

  lemma PrefixSnoc(spine: seq<Frame>, f: Frame)
    ensures Prefix(spine + [f]) == Prefix(spine) + Opened(f)
  {
    assert (spine + [f])[..|spine|] == spine;
  }

  lemma WithTextGood(f: Frame, t: bytes)
    requires GoodFrame(f) && RawText(t)
    ensures GoodFrame(WithText(f, t))
    ensures Opened(WithText(f, t)) == Opened(f) + t
  {
    hide Unescape, RawText, WellFormed, Render;
    if f.kids == [] {
      RawTextConcat(f.props, t);
      assert RenderKids([]) == [];
    } else {
      var n := |f.kids| - 1;
      var init, last := f.kids[..n], f.kids[n];
      assert f.kids == init + [last] && last == Kid(last.doc, last.gap);
      RawTextConcat(last.gap, t);
      RenderKidsSnoc(init, last.doc, last.gap);
      RenderKidsSnoc(init, last.doc, last.gap + t);
      Assoc(RenderKids(init) + Render(last.doc), last.gap, t);
      Assoc([START, f.nodeType] + f.props, RenderKids(f.kids), t);
    }
  }

  lemma AddTextGood(st: State, t: bytes)
    requires GoodState(st) && RawText(t)
    ensures GoodState(AddText(st, t))
    ensures Consumed(AddText(st, t)) == Consumed(st) + t
  {
    match st
    case Inside(below, top) =>
      WithTextGood(top, t);
      Assoc(Prefix(below), Opened(top), t);
    case Closed(root, gap) =>
      RawTextConcat(gap, t);
      Assoc(Render(root), gap, t);
  }

  lemma OpenNodeGood(st: State, nodeType: uint8)
    requires GoodState(st) && st.Inside?
    ensures GoodState(OpenNode(st, nodeType))
    ensures Consumed(OpenNode(st, nodeType)) == Consumed(st) + [START, nodeType]
  {
    PrefixSnoc(st.below, st.top);
    assert Opened(Frame(nodeType, [], [])) == [START, nodeType];
  }

  lemma CloseNodeGood(st: State)
    requires GoodState(st) && st.Inside?
    ensures GoodState(CloseNode(st))
    ensures Consumed(CloseNode(st)) == Consumed(st) + [END]
  {
    var top, below := st.top, st.below;
    var doc := Doc(top.nodeType, top.props, top.kids);
    assert Render(doc) == Opened(top) + [END];
    if below == [] {
      assert Prefix(below) == [];
    } else {
      var n := |below| - 1;
      var up := below[n];
      assert GoodFrame(up);
      RenderKidsSnoc(up.kids, doc, []);
      var head, kids, above := [START, up.nodeType] + up.props, RenderKids(up.kids), Prefix(below[..n]);
      assert Opened(up.(kids := up.kids + [Kid(doc, [])])) == head + (kids + Render(doc) + []);
      CloseBytes(above, head, kids, Opened(top));
    }
  }

  lemma CloseBytes(above: bytes, head: bytes, kids: bytes, open: bytes)
    ensures above + (head + (kids + (open + [END]) + [])) == (above + (head + kids)) + open + [END]
  {
  }

  /** One turn of the loop: the bytes it takes and the state behind them. */
  lemma RunStep(st: State, s: bytes) returns (k: nat, next: State)
    requires GoodState(st) && s != [] && Run(st, s) != Bad
    ensures 1 <= k <= |s| && Run(st, s) == Run(next, s[k..])
    ensures GoodState(next) && Consumed(next) == Consumed(st) + s[..k]
  {
    k := if s[0] == START || s[0] == ESCAPE then 2 else 1;
    if s[0] == START || s[0] == END {
      if !st.Inside? {
        RunBad(s[if |s| == 1 then 1 else k..]);
        assert false;
      }
    }
    if s[0] == START {
      next := OpenNode(st, s[1]);
      OpenNodeGood(st, s[1]);
    } else if s[0] == END {
      next := CloseNode(st);
      CloseNodeGood(st);
    } else {
      next := AddText(st, s[..k]);
      assert s[..k][k..] == [] && RawText([]) && RawText(s[..k]);
      AddTextGood(st, s[..k]);
    }
  }

  lemma {:induction false} RunSound(st: State, s: bytes)
    requires GoodState(st)
    ensures var r := Run(st, s); r != Bad ==> GoodState(r) && Consumed(r) == Consumed(st) + s
    decreases |s|
  {
    hide GoodState, Consumed, Run;
    RunDone(st);
    assert Consumed(st) + [] == Consumed(st);
    if s != [] && Run(st, s) != Bad {
      var k, next := RunStep(st, s);
      RunSound(next, s[k..]);
      Assoc(Consumed(st), s[..k], s[k..]);
      assert s == s[..k] + s[k..];
    }
  }

  // ----- everything in the language is accepted, with its own reading -----

  lemma {:induction false} RunText(st: State, t: bytes, rest: bytes)
    requires RawText(t)
    ensures Run(st, t + rest) == Run(AddText(st, t), rest)
    decreases |t|
  {
    if t == [] {
      assert t + rest == rest;
      AddNothing(st);
    } else {
      var k := if t[0] == ESCAPE then 2 else 1;
      var head, tail := t[..k], t[k..];
      var s := t + rest;
      assert s[..k] == head && s[k..] == tail + rest;
      RunText(AddText(st, head), tail, rest);
      AddTextTwice(st, head, tail);
      assert head + tail == t;
    }
  }

  lemma AddNothing(st: State)
    ensures AddText(st, []) == st
  {
    if st.Inside? {
      var f := st.top;
      assert f.props + [] == f.props;
      if f.kids != [] {
        var n := |f.kids| - 1;
        assert f.kids[n].gap + [] == f.kids[n].gap;
        assert f.kids[..n] + [f.kids[n]] == f.kids;
      }
    } else if st.Closed? {
      assert st.gap + [] == st.gap;
    }
  }

  lemma AddTextTwice(st: State, t: bytes, u: bytes)
    ensures AddText(AddText(st, t), u) == AddText(st, t + u)
  {
    if st.Inside? {
      var f := st.top;
      if f.kids == [] {
        Assoc(f.props, t, u);
      } else {
        var n := |f.kids| - 1;
        Assoc(f.kids[n].gap, t, u);
        var once := WithText(f, t);
        assert once.kids[..n] == f.kids[..n];
      }
    } else if st.Closed? {
      Assoc(st.gap, t, u);
    }
  }

  /** Reading a whole node leaves the enclosing frames alone and ends with its END. */
  lemma {:induction false} RunDoc(below: seq<Frame>, d: Doc, rest: bytes)
    requires WellFormed(d)
    ensures Run(Inside(below, Frame(d.nodeType, [], [])), d.props + (RenderKids(d.kids) + ([END] + rest)))
         == Run(CloseNode(Inside(below, Frame(d.nodeType, d.props, d.kids))), rest)
    decreases d, 1
  {
    var open := Inside(below, Frame(d.nodeType, [], []));
    RunText(open, d.props, RenderKids(d.kids) + ([END] + rest));
    assert [] + d.props == d.props;
    RunKids(below, Frame(d.nodeType, d.props, []), d.kids, [END] + rest);
    assert ([END] + rest)[1..] == rest;
  }

  lemma {:induction false} RunKids(below: seq<Frame>, f: Frame, ks: seq<Kid>, rest: bytes)
    requires f.kids == [] && WellFormedKids(ks)
    ensures Run(Inside(below, f), RenderKids(ks) + rest) == Run(Inside(below, f.(kids := ks)), rest)
    decreases ks, 0
  {
    if ks == [] {
      assert RenderKids(ks) + rest == rest;
    } else {
      var n := |ks| - 1;
      var init, last := ks[..n], ks[n];
      assert ks == init + [last] && last == Kid(last.doc, last.gap);
      var node := Render(last.doc) + (last.gap + rest);
      Assoc(RenderKids(init) + Render(last.doc), last.gap, rest);
      Assoc(RenderKids(init), Render(last.doc), last.gap + rest);
      RunKids(below, f, init, node);
      var g := f.(kids := init);
      EnterNode(Inside(below, g), last.doc, last.gap + rest);
      RunDoc(below + [g], last.doc, last.gap + rest);
      CloseOver(below, g, last.doc);
      var closed := Inside(below, f.(kids := init + [Kid(last.doc, [])]));
      RunText(closed, last.gap, rest);
      assert (init + [Kid(last.doc, [])])[..n] == init;
      assert [] + last.gap == last.gap;
    }
  }

  lemma RenderBytes(d: Doc, rest: bytes)
    ensures |Render(d) + rest| >= 2
    ensures (Render(d) + rest)[0] == START && (Render(d) + rest)[1] == d.nodeType
    ensures (Render(d) + rest)[2..] == d.props + (RenderKids(d.kids) + ([END] + rest))
  {
  }

  lemma EnterNode(st: State, d: Doc, rest: bytes)
    ensures Run(st, Render(d) + rest)
         == Run(OpenNode(st, d.nodeType), d.props + (RenderKids(d.kids) + ([END] + rest)))
  {
    RenderBytes(d, rest);
  }

  lemma CloseOver(below: seq<Frame>, g: Frame, d: Doc)
    ensures CloseNode(Inside(below + [g], Frame(d.nodeType, d.props, d.kids)))
         == Inside(below, g.(kids := g.kids + [Kid(d, [])]))
  {
    assert (below + [g])[..|below|] == below;
    assert d == Doc(d.nodeType, d.props, d.kids);
  }

  /**
   Main result: `parseTree` accepts a byte string exactly when it is a well-formed
   document followed by raw text, and what it builds is that document.
   */
  lemma ParseExact(s: bytes, d: Doc, g: bytes)
    ensures Parse(s) == Closed(d, g) <==> s == Render(d) + g && WellFormed(d) && RawText(g)
  {
    if Parse(s) == Closed(d, g) {
      var f := Frame(s[1], [], []);
      assert RawText([]) && GoodFrame(f);
      assert Prefix([]) + Opened(f) == [START, s[1]];
      RunSound(Inside([], f), s[2..]);
      assert s == [START, s[1]] + s[2..];
    }
    if s == Render(d) + g && WellFormed(d) && RawText(g) {
      Accepts(d, g);
    }
  }

  lemma Accepts(d: Doc, g: bytes)
    requires WellFormed(d) && RawText(g)
    ensures Parse(Render(d) + g) == Closed(d, g)
  {
    RenderBytes(d, g);
    RunDoc([], d, g);
    assert CloseNode(Inside([], Frame(d.nodeType, d.props, d.kids))) == Closed(d, []);
    assert g + [] == g && [] + g == g;
    RunText(Closed(d, []), g, []);
  }

  /** No byte string has two readings. */
  lemma Unambiguous(d: Doc, g: bytes, d': Doc, g': bytes)
    requires WellFormed(d) && RawText(g) && WellFormed(d') && RawText(g')
    requires Render(d) + g == Render(d') + g'
    ensures d == d' && g == g'
  {
    ParseExact(Render(d) + g, d, g);
    ParseExact(Render(d') + g', d', g');
  }

  // ----- the writer and the round trip -----

  /** A node as the game sees it: its type, its property bytes, its children. */
  datatype Tree = Tree(nodeType: uint8, props: bytes, kids: seq<Tree>)

  function Print(t: Tree): bytes
    decreases t, 1
  {
    [START, t.nodeType] + Escape(t.props) + PrintKids(t.kids) + [END]
  }

  function PrintKids(ts: seq<Tree>): bytes
    decreases ts, 0
  {
    if ts == [] then [] else PrintKids(ts[..|ts| - 1]) + Print(ts[|ts| - 1])
  }

  /** What a reader gets from a parsed document through `getProps`. */
  function Content(d: Doc): Tree
    decreases d, 1
  {
    Tree(d.nodeType, Unescape(d.props), ContentKids(d.kids))
  }

  function ContentKids(ks: seq<Kid>): seq<Tree>
    decreases ks, 0
  {
    if ks == [] then [] else ContentKids(ks[..|ks| - 1]) + [Content(ks[|ks| - 1].doc)]
  }

  lemma {:induction false} PrintIsRender(t: Tree) returns (d: Doc)
    ensures Print(t) == Render(d) && WellFormed(d) && Content(d) == t
    decreases t, 1
  {
    var ks := PrintKidsIsRender(t.kids);
    d := Doc(t.nodeType, Escape(t.props), ks);
    EscapeIsRawText(t.props);
  }

  lemma {:induction false} PrintKidsIsRender(ts: seq<Tree>) returns (ks: seq<Kid>)
    ensures PrintKids(ts) == RenderKids(ks) && WellFormedKids(ks) && ContentKids(ks) == ts
    decreases ts, 0
  {
    if ts == [] {
      ks := [];
    } else {
      var n := |ts| - 1;
      var init := PrintKidsIsRender(ts[..n]);
      var last := PrintIsRender(ts[n]);
      ks := init + [Kid(last, [])];
      assert ks[..|init|] == init;
      assert RenderKids(init) + Render(last) + [] == RenderKids(init) + Render(last);
      assert ts[..n] + [ts[n]] == ts;
    }
  }

  /** Reading back what was printed gives the same tree, for every tree and every byte in it. */
  lemma RoundTrip(t: Tree)
    ensures Parse(Print(t)).Closed?
    ensures Content(Parse(Print(t)).root) == t
    ensures Parse(Print(t)).gap == []
  {
    var d := PrintIsRender(t);
    assert Print(t) == Render(d) + [];
    ParseExact(Print(t), d, []);
  }
}

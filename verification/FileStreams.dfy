/**
 `FileStream`: the one-pass reader over OTB bytes. The functions give what each call does to the
 cursor; the class is the code; the lemmas say that inside a node it reads what `getProps` followed
 by `PropStream::read` reads.
 */
module FileStreams {
  import opened Bytes
  import opened Options
  import opened OtbGrammar
  import opened PropStreams

  const WRAP := 0x1_0000_0000
  const STRING_LIMIT := 8192

  /** `m_pos` and `m_nodes`. */
  datatype Cursor = Cursor(pos: uint32, nodes: uint32)

  /** `readEscapedByte`: no value at the end of the data, also when an ESCAPE is the last byte. */
  function ReadEscapedByte(data: bytes, pos: nat): (r: (Option<uint8>, nat))
    ensures r.0.Some? ==> pos < r.1 <= |data|
    ensures pos <= r.1 && (pos <= |data| ==> r.1 <= |data|)
    ensures r.1 != pos ==> pos < r.1 <= |data|
  {
    if pos >= |data| then (None, pos)
    else if data[pos] == ESCAPE then
      if pos + 1 == |data| then (None, pos + 1) else (Some(data[pos + 1]), pos + 2)
    else (Some(data[pos]), pos + 1)
  }

  /** `read<T>` inside a node: the bytes read so far, and whether all `n` could be read. */
  function ReadEscaped(data: bytes, pos: nat, n: nat): (r: (bool, bytes, nat))
    ensures r.0 ==> |r.1| == n
    ensures pos <= r.2 && (r.2 != pos ==> r.2 <= |data|)
    decreases n
  {
    if n == 0 then (true, [], pos)
    else
      var (b, next) := ReadEscapedByte(data, pos);
      if b.None? then (false, [], next)
      else
        var (ok, more, end) := ReadEscaped(data, next, n - 1);
        (ok, [b.value] + more, end)
  }

  /** A position and the longest string read from it fit 32 bits. */
  predicate Addressable(data: bytes) {
    |data| + STRING_LIMIT <= WRAP
  }

  /** `getU8` .. `getU64`: zero when the data ends early, in which case a node read may have moved. */
  function GetInt(data: bytes, c: Cursor, width: nat): (r: (nat, Cursor))
    requires Addressable(data)
    ensures r.0 < Limit(width) && r.1.nodes == c.nodes
    ensures c.pos <= r.1.pos && (r.1.pos != c.pos ==> r.1.pos <= |data|)
    ensures r.0 != 0 ==> c.pos < r.1.pos
  {
    if c.nodes > 0 then
      var (ok, got, next) := ReadEscaped(data, c.pos, width);
      (if ok then FromLe(got) else 0, c.(pos := next))
    else if c.pos + width > |data| then (0, c)
    else (FromLe(data[c.pos..c.pos + width]), c.(pos := c.pos + width))
  }

  function Back(c: Cursor, n: uint32): Cursor {
    c.(pos := (c.pos - n) % WRAP)
  }

  function GetString(data: bytes, c: Cursor): (r: (bytes, Cursor))
    requires Addressable(data)
    ensures r.1.nodes == c.nodes
    ensures c.pos <= r.1.pos && (r.1.pos != c.pos ==> r.1.pos <= |data|)
  {
    var (len, c') := GetInt(data, c, 2);
    if 0 < len < STRING_LIMIT && c'.pos + len <= |data| then
      (data[c'.pos..c'.pos + len], c'.(pos := c'.pos + len))
    else ([], c')
  }

  function StartNode(data: bytes, c: Cursor, nodeType: uint8): (bool, Cursor)
    requires Addressable(data)
  {
    var (b, c1) := GetInt(data, c, 1);
    if b == START then
      if nodeType == 0 then (true, c1.(nodes := (c1.nodes + 1) % WRAP))
      else
        var (t, c2) := GetInt(data, c1, 1);
        if t == nodeType then (true, c2.(nodes := (c2.nodes + 1) % WRAP))
        else (false, Back(Back(c2, 1), 1))
    else (false, Back(c1, 1))
  }

  function EndNode(data: bytes, c: Cursor): (bool, Cursor)
    requires Addressable(data)
  {
    var (b, c1) := GetInt(data, c, 1);
    if b == END then (true, c1.(nodes := (c1.nodes - 1) % WRAP)) else (false, Back(c1, 1))
  }

  function IsProp(data: bytes, c: Cursor, prop: uint8, toNext: bool): (bool, Cursor)
    requires Addressable(data)
  {
    var (b, c1) := GetInt(data, c, 1);
    if b == prop then (true, if toNext then c1 else Back(c1, 1)) else (false, Back(c1, 1))
  }

  class FileStream {
    const data: bytes
    var pos: uint32
    var nodes: uint32

    ghost predicate Valid() {
      Addressable(data)
    }

    ghost function At(): Cursor
      reads this
    {
      Cursor(pos, nodes)
    }

    constructor (contents: bytes)
      requires Addressable(contents)
      ensures Valid() && data == contents && At() == Cursor(0, 0)
    {
      data, pos, nodes := contents, 0, 0;
    }

    method GetEscapedByte() returns (ok: bool, value: uint8)
      requires Valid()
      modifies this`pos
      ensures var (b, next) := ReadEscapedByte(data, old(pos));
        pos == next && ok == b.Some? && (ok ==> value == b.value)
    {
      value := 0;
      if pos >= |data| {
        return false, value;
      }
      if data[pos] == ESCAPE {
        pos := pos + 1;
        if pos >= |data| {
          return false, value;
        }
      }
      value := data[pos];
      pos := pos + 1;
      ok := true;
    }

    /** `read<T>` with `escape` set. */
    method GetEscaped(width: nat) returns (ok: bool, got: bytes)
      requires Valid()
      modifies this`pos
      ensures var r := ReadEscaped(data, old(pos), width);
        ok == r.0 && pos == r.2 && (ok ==> got == r.1)
    {
      got, ok := [], true;
      ghost var whole := ReadEscaped(data, pos, width);
      var i := 0;
      while i < width
        invariant 0 <= i <= width && |got| == i
        invariant var r := ReadEscaped(data, pos, width - i);
          whole.0 == r.0 && whole.2 == r.2 && whole.1 == got + r.1
      {
        ghost var ahead := ReadEscaped(data, pos, width - i).1;
        var b;
        ok, b := GetEscapedByte();
        if !ok {
          return;
        }
        assert got + ahead == (got + [b]) + ahead[1..];
        got := got + [b];
        i := i + 1;
      }
    }

    /** The four fixed-width getters. */
    method Get(width: nat) returns (v: nat)
      requires Valid() && width in {1, 2, 4, 8}
      modifies this`pos
      ensures (v, At()) == GetInt(data, old(At()), width)
    {
      if nodes > 0 {
        var ok, got := GetEscaped(width);
        if !ok {
          return 0;
        }
        return FromLe(got);
      }
      if pos + width > |data| {
        return 0;
      }
      v := FromLe(data[pos..pos + width]);
      pos := pos + width;
    }

    method MoveBack(n: uint32)
      modifies this`pos
      ensures At() == Back(old(At()), n)
    {
      pos := (pos - n) % WRAP;
    }

    method ReadString() returns (s: bytes)
      requires Valid()
      modifies this`pos
      ensures (s, At()) == GetString(data, old(At()))
    {
      s := [];
      var len := Get(2);
      if 0 < len < STRING_LIMIT {
        if pos + len > |data| {
          return;
        }
        s := data[pos..pos + len];
        pos := pos + len;
      }
    }

    method Start(nodeType: uint8) returns (ok: bool)
      requires Valid()
      modifies this
      ensures (ok, At()) == StartNode(data, old(At()), nodeType)
    {
      var b := Get(1);
      if b == START {
        if nodeType == 0 {
          nodes := (nodes + 1) % WRAP;
          return true;
        }
        var t := Get(1);
        if t == nodeType {
          nodes := (nodes + 1) % WRAP;
          return true;
        }
        MoveBack(1);
      }
      MoveBack(1);
      return false;
    }

    method End() returns (ok: bool)
      requires Valid()
      modifies this
      ensures (ok, At()) == EndNode(data, old(At()))
    {
      var b := Get(1);
      if b == END {
        nodes := (nodes - 1) % WRAP;
        return true;
      }
      MoveBack(1);
      return false;
    }

    method Prop(prop: uint8, toNext: bool) returns (ok: bool)
      requires Valid()
      modifies this`pos
      ensures (ok, At()) == IsProp(data, old(At()), prop, toNext)
    {
      var b := Get(1);
      if b == prop {
        if !toNext {
          MoveBack(1);
        }
        return true;
      }
      MoveBack(1);
      return false;
    }
  }

  // ----- inside a node the stream reads the property buffer -----

  /** `s` lies in `data` at `pos`. */
  predicate LiesAt(data: bytes, pos: nat, s: bytes) {
    pos + |s| <= |data| && data[pos..pos + |s|] == s
  }

  lemma LiesAtParts(data: bytes, pos: nat, s: bytes, t: bytes)
    requires LiesAt(data, pos, s + t)
    ensures LiesAt(data, pos, s) && LiesAt(data, pos + |s|, t)
  {
    assert data[pos..pos + |s|] == (s + t)[..|s|];
    assert data[pos + |s|..pos + |s| + |t|] == (s + t)[|s|..];
  }

  /** The raw bytes that hold one value. */
  function FirstLength(raw: bytes): (m: nat)
    requires raw != []
    ensures 1 <= m <= |raw|
  {
    if raw[0] == ESCAPE && |raw| >= 2 then 2 else 1
  }

  /** The raw bytes behind the first `n` values of the text `raw`. */
  function RawLength(raw: bytes, n: nat): (k: nat)
    ensures k <= |raw|
    decreases n
  {
    if n == 0 || raw == [] then 0
    else FirstLength(raw) + RawLength(raw[FirstLength(raw)..], n - 1)
  }

  lemma FirstValue(raw: bytes)
    requires RawText(raw) && raw != []
    ensures var m := FirstLength(raw);
      && RawText(raw[..m]) && RawText(raw[m..])
      && Unescape(raw[..m]) == [raw[m - 1]] && Unescape(raw) == [raw[m - 1]] + Unescape(raw[m..])
  {
    if raw[0] == ESCAPE {
      assert RawText(raw[..2][2..]);
      UnescapePair(raw);
      UnescapePair(raw[..2]);
      assert Unescape(raw[..2][2..]) == [];
    } else {
      assert RawText(raw[..1][1..]);
      assert Unescape(raw[..1][1..]) == [];
    }
  }

  lemma {:induction false} RawLengthSplits(raw: bytes, n: nat)
    requires RawText(raw) && n <= |Unescape(raw)|
    ensures var k := RawLength(raw, n);
      && RawText(raw[..k]) && RawText(raw[k..])
      && Unescape(raw[..k]) == Unescape(raw)[..n] && Unescape(raw[k..]) == Unescape(raw)[n..]
    decreases n
  {
    hide Unescape, RawText, FirstLength;
    if n == 0 {
      assert raw[0..] == raw && raw[..0] == [];
      NothingRaw();
    } else {
      RawNotEmpty(raw);
      var m := FirstLength(raw);
      FirstValue(raw);
      var tail, k := raw[m..], RawLength(raw[m..], n - 1);
      RawLengthSplits(tail, n - 1);
      RawTextConcat(raw[..m], tail[..k]);
      SliceAgain(raw, m, k);
      TakeDrop([raw[m - 1]], Unescape(tail), n);
    }
  }

  lemma SliceAgain(raw: bytes, m: nat, k: nat)
    requires m + k <= |raw|
    ensures raw[..m] + raw[m..][..k] == raw[..m + k] && raw[m..][k..] == raw[m + k..]
  {
  }

  lemma NothingRaw()
    ensures RawText([]) && Unescape([]) == []
  {
  }

  lemma RawNotEmpty(raw: bytes)
    requires |Unescape(raw)| > 0
    ensures raw != []
  {
  }

  lemma TakeDrop(b: bytes, u: bytes, n: nat)
    requires |b| == 1 && 1 <= n <= |u| + 1
    ensures (b + u)[..n] == b + u[..n - 1] && (b + u)[n..] == u[n - 1..]
  {
  }

  lemma FirstRead(data: bytes, pos: nat, raw: bytes)
    requires RawText(raw) && raw != [] && LiesAt(data, pos, raw)
    ensures var m := FirstLength(raw);
      ReadEscapedByte(data, pos) == (Some(raw[m - 1]), pos + m) && LiesAt(data, pos + m, raw[m..])
  {
    var m := FirstLength(raw);
    assert raw == raw[..m] + raw[m..];
    LiesAtParts(data, pos, raw[..m], raw[m..]);
    assert data[pos] == raw[0] && data[pos + m - 1] == raw[m - 1];
  }

  /** Enough values left: the read gives them and stops exactly behind their raw bytes. */
  lemma {:induction false} ReadEscapedInText(data: bytes, pos: nat, raw: bytes, n: nat)
    requires RawText(raw) && LiesAt(data, pos, raw) && n <= |Unescape(raw)|
    ensures ReadEscaped(data, pos, n) == (true, Unescape(raw)[..n], pos + RawLength(raw, n))
    decreases n
  {
    hide Unescape, RawText, FirstLength, LiesAt, ReadEscapedByte;
    if n > 0 {
      RawNotEmpty(raw);
      FirstValue(raw);
      FirstRead(data, pos, raw);
      var m := FirstLength(raw);
      ReadEscapedInText(data, pos + m, raw[m..], n - 1);
      TakeDrop([raw[m - 1]], Unescape(raw[m..]), n);
    }
  }

  /** Too few: the read runs into the marker behind the text. */
  lemma {:induction false} ReadEscapedPastText(data: bytes, pos: nat, raw: bytes, n: nat)
    requires RawText(raw) && LiesAt(data, pos, raw) && n > |Unescape(raw)|
    requires pos + |raw| < |data|
    ensures ReadEscaped(data, pos, n).2 > pos + |raw|
    decreases n
  {
    if raw != [] {
      FirstValue(raw);
      FirstRead(data, pos, raw);
      ReadEscapedPastText(data, pos + FirstLength(raw), raw[FirstLength(raw)..], n - 1);
    }
  }

  /** A series of reads from the stream. */
  function StreamReads(data: bytes, c: Cursor, widths: seq<nat>): (r: (seq<nat>, Cursor))
    requires Addressable(data)
    ensures c.pos <= r.1.pos
    decreases |widths|
  {
    if widths == [] then ([], c)
    else
      var (v, c') := GetInt(data, c, widths[0]);
      var (vs, end) := StreamReads(data, c', widths[1..]);
      ([v] + vs, end)
  }

  /** The same series from a `PropStream`; none when some read fails. */
  function PropReads(b: bytes, widths: seq<nat>): Option<(seq<nat>, bytes)>
    decreases |widths|
  {
    if widths == [] then Some(([], b))
    else match TakeInt(b, widths[0])
      case None => None
      case Some((v, rest)) =>
        match PropReads(rest, widths[1..])
        case None => None
        case Some((vs, end)) => Some(([v] + vs, end))
  }

  lemma RawLengthStep(raw: bytes, n: nat)
    requires n > 0 && raw != []
    ensures RawLength(raw, n) == FirstLength(raw) + RawLength(raw[FirstLength(raw)..], n - 1)
  {
  }

  lemma {:induction false} RawLengthAgain(raw: bytes, m: nat, n: nat)
    ensures RawLength(raw, m + n) == RawLength(raw, m) + RawLength(raw[RawLength(raw, m)..], n)
    decreases m
  {
    hide RawLength, FirstLength;
    if m == 0 || raw == [] {
      NothingRead(raw, m, n);
    } else {
      var first := FirstLength(raw);
      var tail := raw[first..];
      RawLengthStep(raw, m);
      RawLengthStep(raw, m + n);
      RawLengthAgain(tail, m - 1, n);
      assert tail[RawLength(tail, m - 1)..] == raw[first + RawLength(tail, m - 1)..];
    }
  }

  lemma NothingRead(raw: bytes, m: nat, n: nat)
    requires m == 0 || raw == []
    ensures RawLength(raw, m) == 0 && raw[0..] == raw && RawLength(raw, m + n) == RawLength(raw, n)
  {
  }

  function Total(widths: seq<nat>): nat {
    if widths == [] then 0 else widths[0] + Total(widths[1..])
  }

  lemma NextReads(raw: bytes, widths: seq<nat>)
    requires widths != []
    ensures var j := RawLength(raw, widths[0]);
      j + RawLength(raw[j..], Total(widths[1..])) == RawLength(raw, Total(widths))
  {
    RawLengthAgain(raw, widths[0], Total(widths[1..]));
  }

  lemma NextStreamRead(data: bytes, c: Cursor, widths: seq<nat>)
    requires Addressable(data) && widths != []
    ensures var (v, c') := GetInt(data, c, widths[0]);
      var (vs, end) := StreamReads(data, c', widths[1..]);
      StreamReads(data, c, widths) == ([v] + vs, end)
  {
    hide GetInt;
  }

  lemma NextPropRead(b: bytes, widths: seq<nat>, v: nat, rest: bytes)
    requires widths != [] && TakeInt(b, widths[0]) == Some((v, rest))
    ensures PropReads(b, widths).Some? <==> PropReads(rest, widths[1..]).Some?
    ensures PropReads(b, widths).Some? ==>
      var (vs, end) := PropReads(rest, widths[1..]).value;
      PropReads(b, widths) == Some(([v] + vs, end))
  {
    hide TakeInt;
  }

  lemma FirstPropRead(b: bytes, widths: seq<nat>)
    requires widths != [] && PropReads(b, widths).Some?
    ensures widths[0] <= |b|
  {
  }

  lemma NoReads(data: bytes, c: Cursor, raw: bytes)
    requires Addressable(data)
    ensures StreamReads(data, c, []) == ([], c) && PropReads(Unescape(raw), []) == Some(([], Unescape(raw)))
    ensures RawLength(raw, Total([])) == 0 && raw[0..] == raw
  {
    hide Unescape;
  }

  /** One read inside the text: the value, the cursor, and the text that is left. */
  lemma OneRead(data: bytes, c: Cursor, raw: bytes, n: nat) returns (k: nat)
    requires Addressable(data) && c.nodes > 0
    requires RawText(raw) && LiesAt(data, c.pos, raw) && n <= |Unescape(raw)|
    ensures k == RawLength(raw, n) <= |raw| && RawText(raw[k..]) && LiesAt(data, c.pos + k, raw[k..])
    ensures var (v, c') := GetInt(data, c, n);
      TakeInt(Unescape(raw), n) == Some((v, Unescape(raw[k..]))) && c' == Cursor(c.pos + k, c.nodes)
  {
    ReadEscapedInText(data, c.pos, raw, n);
    RawLengthSplits(raw, n);
    k := RawLength(raw, n);
    SplitAt(data, c.pos, raw, k);
  }

  lemma SplitAt(data: bytes, pos: nat, raw: bytes, k: nat)
    requires LiesAt(data, pos, raw) && k <= |raw|
    ensures LiesAt(data, pos + k, raw[k..])
  {
    assert raw == raw[..k] + raw[k..];
    LiesAtParts(data, pos, raw[..k], raw[k..]);
  }

  /**
   Main result: on the property text `raw` of a node, any series of stream reads gives the values
   that the same series gives on the `getProps` buffer, and has consumed exactly the raw bytes of those values.
   */
  lemma {:induction false} StreamingRefinesProps(data: bytes, c: Cursor, raw: bytes, widths: seq<nat>)
    returns (k: nat)
    requires Addressable(data) && c.nodes > 0
    requires RawText(raw) && LiesAt(data, c.pos, raw)
    requires PropReads(Unescape(raw), widths).Some?
    ensures k == RawLength(raw, Total(widths))
    ensures PropReads(Unescape(raw), widths) == Some((StreamReads(data, c, widths).0, Unescape(raw[k..])))
    ensures StreamReads(data, c, widths).1 == Cursor(c.pos + k, c.nodes)
    decreases |widths|
  {
    hide Unescape, RawText, LiesAt, GetInt, RawLength, Total, TakeInt, StreamReads, PropReads;
    if widths == [] {
      k := 0;
      NoReads(data, c, raw);
    } else {
      FirstPropRead(Unescape(raw), widths);
      var j := OneRead(data, c, raw, widths[0]);
      var v := GetInt(data, c, widths[0]).0;
      NextStreamRead(data, c, widths);
      NextPropRead(Unescape(raw), widths, v, Unescape(raw[j..]));
      var rest := StreamingRefinesProps(data, Cursor(c.pos + j, c.nodes), raw[j..], widths[1..]);
      k := j + rest;
      assert raw[j..][rest..] == raw[k..];
      NextReads(raw, widths);
    }
  }

  /**
   The two readers agree exactly as long as the buffer lasts: where a `PropStream` read fails, the
   stream has consumed the marker that ends the property text.
   */
  lemma {:induction false} StreamingOverrun(data: bytes, c: Cursor, raw: bytes, widths: seq<nat>)
    requires Addressable(data) && c.nodes > 0
    requires RawText(raw) && LiesAt(data, c.pos, raw) && c.pos + |raw| < |data|
    ensures PropReads(Unescape(raw), widths).Some? <==> StreamReads(data, c, widths).1.pos <= c.pos + |raw|
    decreases |widths|
  {
    if widths != [] {
      if widths[0] <= |Unescape(raw)| {
        hide Unescape, RawText, LiesAt, GetInt;
        var k := OneRead(data, c, raw, widths[0]);
        StreamingOverrun(data, Cursor(c.pos + k, c.nodes), raw[k..], widths[1..]);
      } else {
        ReadEscapedPastText(data, c.pos, raw, widths[0]);
      }
    }
  }
}

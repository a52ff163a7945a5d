/** `PropStream` and `PropWriteStream`: reading and writing fixed-width integers and short strings. */
module PropStreams {
  import opened Bytes
  import opened Options

  const MAX_STRING := 0xFFFF

  /** `PropStream::read<T>` on the bytes still ahead: the value and what is left. */
  function TakeInt(b: bytes, width: nat): (r: Option<(nat, bytes)>)
    ensures r.Some? ==> r.value.0 < Limit(width) && |r.value.1| == |b| - width
  {
    if |b| < width then None else Some((FromLe(b[..width]), b[width..]))
  }

  function TakeBytes(b: bytes, n: nat): (r: Option<(bytes, bytes)>)
    ensures r.Some? ==> |r.value.1| == |b| - n
  {
    if |b| < n then None else Some((b[..n], b[n..]))
  }

  function TakeString(b: bytes): (r: Option<(bytes, bytes)>)
    ensures r.Some? ==> |r.value.1| < |b|
  {
    match TakeInt(b, 2)
    case None => None
    case Some((n, rest)) => TakeBytes(rest, n)
  }

  /** `writeString`: a string that does not fit the length field is stored as the empty string. */
  function PutString(s: bytes): bytes {
    if |s| > MAX_STRING then Le(0, 2) else Le(|s|, 2) + s
  }

  lemma TakeIntPut(v: nat, width: nat, rest: bytes)
    requires v < Limit(width)
    ensures TakeInt(Le(v, width) + rest, width) == Some((v, rest))
  {
    FromLeLe(v, width);
    assert (Le(v, width) + rest)[..width] == Le(v, width);
  }

  /** A string comes back exactly when it fits the length field; a longer one comes back empty. */
  lemma TakeStringPut(s: bytes, rest: bytes)
    ensures TakeString(PutString(s) + rest) == Some((if |s| <= MAX_STRING then s else [], rest))
  {
    if |s| <= MAX_STRING {
      assert Le(|s|, 2) + s + rest == Le(|s|, 2) + (s + rest);
      assert Limit(2) == 0x1_0000;
      TakeIntPut(|s|, 2, s + rest);
    } else {
      TakeIntPut(0, 2, rest);
    }
  }

  class PropStream {
    var data: bytes
    var p: nat

    ghost predicate Valid()
      reads this
    {
      p <= |data|
    }

    /** The bytes still ahead. */
    ghost function Rest(): bytes
      requires Valid()
      reads this
    {
      data[p..]
    }

    constructor ()
      ensures Valid() && Rest() == []
    {
      data, p := [], 0;
    }

    method Init(a: bytes)
      modifies this
      ensures Valid() && Rest() == a
    {
      data, p := a, 0;
    }

    method Read(width: nat) returns (ok: bool, v: nat)
      requires Valid()
      modifies this
      ensures Valid() && data == old(data)
      ensures match TakeInt(old(Rest()), width)
              case None => !ok && Rest() == old(Rest())
              case Some((n, rest)) => ok && v == n && Rest() == rest
    {
      if |data| - p < width {
        return false, 0;
      }
      assert data[p..][..width] == data[p..p + width];
      v := FromLe(data[p..p + width]);
      p := p + width;
      ok := true;
    }

    /** On a short string the length field stays consumed. */
    method ReadString() returns (ok: bool, s: bytes)
      requires Valid()
      modifies this
      ensures Valid() && data == old(data)
      ensures match TakeString(old(Rest()))
              case None => !ok && s == []
              case Some((t, rest)) => ok && s == t && Rest() == rest
    {
      var n;
      ok, n := Read(2);
      if !ok {
        return false, [];
      }
      if |data| - p < n {
        return false, [];
      }
      s := data[p..p + n];
      p := p + n;
    }

    method Skip(n: nat) returns (ok: bool)
      requires Valid()
      modifies this
      ensures Valid() && data == old(data)
      ensures match TakeBytes(old(Rest()), n)
              case None => !ok && Rest() == old(Rest())
              case Some((_, rest)) => ok && Rest() == rest
    {
      if |data| - p < n {
        return false;
      }
      p := p + n;
      ok := true;
    }
  }

  class PropWriteStream {
    var buffer: bytes

    constructor ()
      ensures buffer == []
    {
      buffer := [];
    }

    method Write(v: nat, width: nat)
      modifies this
      ensures buffer == old(buffer) + Le(v, width)
    {
      buffer := buffer + Le(v, width);
    }

    method WriteString(s: bytes)
      modifies this
      ensures buffer == old(buffer) + PutString(s)
    {
      if |s| > MAX_STRING {
        Write(0, 2);
        return;
      }
      Write(|s|, 2);
      buffer := buffer + s;
    }
  }
}

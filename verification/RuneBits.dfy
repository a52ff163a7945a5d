/** A non-negative 32-bit number as a set of bits, by its remainders; `|` and `&~` with a single bit. */
module RuneBits {
  predicate Bit(n: nat, i: nat) {
    if i == 0 then n % 2 == 1 else Bit(n / 2, i - 1)
  }

  /** `n | (1 << i)`. */
  function Raised(n: nat, i: nat): nat {
    if i == 0 then 2 * (n / 2) + 1 else 2 * Raised(n / 2, i - 1) + n % 2
  }

  /** `n & ~(1 << i)`. */
  function Lowered(n: nat, i: nat): nat {
    if i == 0 then 2 * (n / 2) else 2 * Lowered(n / 2, i - 1) + n % 2
  }

  lemma {:induction false} RaisedBit(n: nat, i: nat, j: nat)
    ensures Bit(Raised(n, i), j) <==> j == i || Bit(n, j)
  {
    if i > 0 && j > 0 {
      RaisedBit(n / 2, i - 1, j - 1);
    }
  }

  lemma {:induction false} LoweredBit(n: nat, i: nat, j: nat)
    ensures Bit(Lowered(n, i), j) <==> j != i && Bit(n, j)
  {
    if i > 0 && j > 0 {
      LoweredBit(n / 2, i - 1, j - 1);
    }
  }

  lemma {:induction false} ZeroBits(i: nat)
    ensures !Bit(0, i)
  {
    if i > 0 {
      ZeroBits(i - 1);
    }
  }

  /** The set bits of a number shifted right by `i`, as bits of the whole, highest first. */
  function BitsFrom(n: nat, i: nat): seq<nat>
    decreases n
  {
    if n == 0 then [] else BitsFrom(n / 2, i + 1) + if n % 2 == 1 then [i] else []
  }

  lemma {:induction false} BitsFromAre(n: nat, i: nat)
    ensures forall k :: k in BitsFrom(n, i) <==> k >= i && Bit(n, k - i)
    ensures forall x, y | 0 <= x < y < |BitsFrom(n, i)| :: BitsFrom(n, i)[x] > BitsFrom(n, i)[y]
    decreases n
  {
    if n == 0 {
      forall k: nat ensures !Bit(0, k) {
        ZeroBits(k);
      }
    } else {
      BitsFromAre(n / 2, i + 1);
      var high := BitsFrom(n / 2, i + 1);
      forall x | 0 <= x < |high| ensures high[x] > i {
        assert high[x] in high;
      }
    }
  }

  lemma BitsAre(bits: nat)
    ensures forall k: nat :: k in BitsFrom(bits, 0) <==> Bit(bits, k)
    ensures forall x, y | 0 <= x < y < |BitsFrom(bits, 0)| :: BitsFrom(bits, 0)[x] > BitsFrom(bits, 0)[y]
  {
    hide Bit, BitsFrom;
    BitsFromAre(bits, 0);
    forall k: nat
      ensures k in BitsFrom(bits, 0) <==> Bit(bits, k)
    {
      assert k in BitsFrom(bits, 0) <==> Bit(bits, k - 0);
    }
  }

  lemma NextBit(input: nat, i: nat, rtn: seq<nat>)
    requires input != 0
    ensures BitsFrom(input, i) + rtn == BitsFrom(input / 2, i + 1) + if input % 2 == 1 then [i] + rtn else rtn
  {
  }

  lemma NoBits(i: nat, rtn: seq<nat>)
    ensures BitsFrom(0, i) + rtn == rtn
  {
  }

  /** `getCharmUsedRuneBitAll`: the numbers of the set bits, pushed to the front one by one. */
  method BitsOf(bits: nat) returns (rtn: seq<nat>)
    ensures forall k: nat :: k in rtn <==> Bit(bits, k)
    ensures forall x, y | 0 <= x < y < |rtn| :: rtn[x] > rtn[y]
    ensures rtn == BitsFrom(bits, 0)
  {
    hide Bit, BitsFrom;
    BitsAre(bits);
    rtn := [];
    var input, i := bits, 0;
    assert BitsFrom(bits, 0) + [] == BitsFrom(bits, 0);
    while input != 0
      invariant BitsFrom(bits, 0) == BitsFrom(input, i) + rtn
      decreases input
    {
      NextBit(input, i, rtn);
      if input % 2 == 1 {
        rtn := [i] + rtn;
      }
      input := input / 2;
      i := i + 1;
    }
    NoBits(i, rtn);
  }
}

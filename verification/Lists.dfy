/** Facts about sequences that several modules need. */
module Lists {
  predicate NoDuplicates<T(==)>(s: seq<T>) {
    forall i, j | 0 <= i < j < |s| :: s[i] != s[j]
  }

  lemma NoDuplicatesSnoc<T>(s: seq<T>, x: T)
    requires NoDuplicates(s) && x !in s
    ensures NoDuplicates(s + [x])
  {
  }

  /** Distinct elements of a set are at most as many as the set has. */
  lemma {:induction false} DistinctWithin<T>(s: seq<T>, all: set<T>)
    requires NoDuplicates(s) && forall x | x in s :: x in all
    ensures |s| <= |all|
  {
    if s != [] {
      var front, last := s[..|s| - 1], s[|s| - 1];
      assert last !in front;
      DistinctWithin(front, all - {last});
    }
  }

  lemma Assoc<T>(a: seq<T>, b: seq<T>, c: seq<T>)
    ensures (a + b) + c == a + (b + c)
  {
  }

  /** The last element, and what is in front of it. */
  lemma LastBehind<T>(before: seq<T>, x: T, after: seq<T>)
    requires after != []
    ensures var (all, n) := (before + [x] + after, |after| - 1);
            all[|all| - 1] == after[n] && all[..|all| - 1] == before + [x] + after[..n]
  {
  }

  lemma LastOne<T>(before: seq<T>, x: T)
    ensures before + [x] + [] == before + [x] && (before + [x])[..|before|] == before
  {
  }

  lemma AssocFour<T>(a: seq<T>, b: seq<T>, c: seq<T>, d: seq<T>)
    ensures a + b + (c + d) == a + b + c + d
  {
  }

  /** Erasing, or passing, the element behind the part already kept. */
  lemma EraseAt<T>(s: seq<T>, kept: seq<T>, x: T, rest: seq<T>)
    requires s == kept + ([x] + rest)
    ensures s[|kept|] == x
    ensures s[..|kept|] + s[|kept| + 1..] == kept + rest
    ensures s == (kept + [x]) + rest
  {
  }
}

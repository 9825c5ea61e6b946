/**
 * How the chat server names the room of a matched pair: the two socket ids
 * are put in ascending order, as JavaScript's default `Array.prototype.sort`
 * orders strings, and joined with an underscore.
 */
module RoomNaming {

  /** The separator placed between the two sorted socket ids. */
  const Separator: string := "_"

  /**
   * JavaScript's `<` on strings: `a` comes before `b` when it is a proper
   * prefix of `b`, or when at the first position where they differ `a`
   * holds the smaller character.
   */
  predicate Less(a: string, b: string)
    // a proper prefix comes first
    ensures a < b ==> Less(a, b)
    decreases |a|
  {
    if b == [] then false
    else if a == [] then true
    else if a[0] != b[0] then a[0] < b[0]
    else Less(a[1..], b[1..])
  }

  /**
   * The rest of the order: nothing comes before one of its own prefixes, and
   * otherwise the first position where the two strings differ decides.
   */
  lemma {:induction false} LessDecided(a: string, b: string, k: nat)
    ensures b <= a ==> !Less(a, b)
    ensures k < |a| && k < |b| && a[..k] == b[..k] && a[k] != b[k] ==> (Less(a, b) <==> a[k] < b[k])
    decreases |a|
  {
    if a != [] && b != [] && a[0] == b[0] {
      LessDecided(a[1..], b[1..], if k == 0 then 0 else k - 1);
      if 0 < k < |a| && k < |b| && a[..k] == b[..k] {
        assert a[1..][..k - 1] == a[..k][1..] && b[1..][..k - 1] == b[..k][1..];
      }
    }
  }

  /** No string comes before itself. */
  lemma {:induction false} LessIrreflexive(a: string)
    ensures !Less(a, a)
    decreases |a|
  {
    if a != [] {
      LessIrreflexive(a[1..]);
    }
  }

  /** Two strings are never each before the other. */
  lemma {:induction false} LessAsymmetric(a: string, b: string)
    ensures Less(a, b) ==> !Less(b, a)
    decreases |a|
  {
    if a != [] && b != [] && a[0] == b[0] {
      LessAsymmetric(a[1..], b[1..]);
    }
  }

  /** Two different strings are always ordered one way or the other. */
  lemma {:induction false} LessTotal(a: string, b: string)
    ensures a == b || Less(a, b) || Less(b, a)
    decreases |a|
  {
    if a != [] && b != [] && a[0] == b[0] {
      LessTotal(a[1..], b[1..]);
      if a[1..] == b[1..] {
        assert a == [a[0]] + a[1..] && b == [b[0]] + b[1..];
      }
    }
  }

  /**
   * `[a, b].sort()`: the default comparator swaps the two elements exactly
   * when the second comes strictly before the first.
   */
  function SortPair(a: string, b: string): (p: seq<string>)
    ensures |p| == 2 && multiset(p) == multiset{a, b}
    ensures !Less(p[1], p[0])
  {
    LessAsymmetric(b, a);
    if Less(b, a) then [b, a] else [a, b]
  }

  /** Sorting two ids gives the same list whichever of them is named first. */
  lemma SortPairSymmetric(a: string, b: string)
    ensures SortPair(a, b) == SortPair(b, a)
  {
    LessTotal(a, b);
    LessAsymmetric(a, b);
  }

  /** `[self, partner].sort().join("_")`. */
  function RoomId(self: string, partner: string): (r: string)
    ensures r == self + Separator + partner || r == partner + Separator + self
    ensures |r| == |self| + |partner| + 1
  {
    var p := SortPair(self, partner);
    assert p == [self, partner] || p == [partner, self];
    p[0] + Separator + p[1]
  }

  /** Both members of a pair compute the same room id. */
  lemma RoomIdSymmetric(a: string, b: string)
    ensures RoomId(a, b) == RoomId(b, a)
  {
    SortPairSymmetric(a, b);
  }

  /** The smaller id (in string order) always comes first in the room id. */
  lemma RoomIdOrdered(a: string, b: string)
    ensures Less(a, b) ==> RoomId(a, b) == a + Separator + b
    ensures Less(b, a) ==> RoomId(a, b) == b + Separator + a
  {
    LessAsymmetric(a, b);
  }

  /** A room id begins with `x`, then the separator, then `y`, for x and y of length n. */
  lemma SplitJoined(x: string, y: string, n: nat)
    requires |x| == n && |y| == n
    ensures (x + Separator + y)[..n] == x
    ensures (x + Separator + y)[n + 1..] == y
  {
  }

  /**
   * When all socket ids have the same length (as the transport's generated
   * ids do), a room id determines the unordered pair it was made from.
   */
  lemma RoomIdDeterminesPair(a: string, b: string, c: string, d: string)
    requires |a| == |b| == |c| == |d|
    requires RoomId(a, b) == RoomId(c, d)
    ensures (c == a && d == b) || (c == b && d == a)
  {
    var n := |a|;
    var r := RoomId(a, b);
    if r == a + Separator + b {
      SplitJoined(a, b, n);
    } else {
      SplitJoined(b, a, n);
    }
    if r == c + Separator + d {
      SplitJoined(c, d, n);
    } else {
      SplitJoined(d, c, n);
    }
  }

  /**
   * Without equal lengths the pair is not recoverable: ids that themselves
   * contain the separator can give two different pairs the same room id.
   */
  lemma RoomIdCollides()
    ensures RoomId("a_b", "c") == RoomId("a", "b_c") == "a_b_c"
  {
    assert Less("a_b", "c");
    assert Less("a", "b_c");
  }
}

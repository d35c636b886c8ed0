/** Canonical ordering of a token pair: the two token addresses are compared
    as lower-cased strings and the smaller one is put first. */
module TokenOrder {

  /** Lower-casing of one character (ASCII letters only): upper-case letters
      become their lower-case partners, everything else is unchanged. */
  function LowerChar(c: char): (r: char)
    ensures !('A' <= r <= 'Z')
    ensures 'A' <= c <= 'Z' ==> 'a' <= r <= 'z' && r as int - 'a' as int == c as int - 'A' as int
    ensures !('A' <= c <= 'Z') ==> r == c
  {
    if 'A' <= c <= 'Z' then (c as int + 32) as char else c
  }

  /** Lower-casing of a whole address string, character by character. */
  function ToLower(s: string): (r: string)
    ensures |r| == |s|
    ensures forall i :: 0 <= i < |s| ==> r[i] == LowerChar(s[i])
  {
    if s == [] then [] else [LowerChar(s[0])] + ToLower(s[1..])
  }

  /** `a` and `b` agree on their first `k` characters, and there `a` either
      ends while `b` goes on, or has the smaller character. */
  ghost predicate BreaksBelow(a: string, b: string, k: nat)
  {
    k <= |a| && k <= |b| && a[..k] == b[..k] &&
    (if k == |a| then k < |b| else k < |b| && a[k] < b[k])
  }

  /** Dropping an equal first character shifts the break point down by one. */
  lemma BreaksBelowShift(a: string, b: string)
    requires a != [] && b != [] && a[0] == b[0]
    ensures forall k: nat :: 1 <= k ==> (BreaksBelow(a, b, k) <==> BreaksBelow(a[1..], b[1..], k - 1))
    ensures !BreaksBelow(a, b, 0)
  {
    forall k: nat | 1 <= k
      ensures BreaksBelow(a, b, k) <==> BreaksBelow(a[1..], b[1..], k - 1)
    {
      if k <= |a| && k <= |b| {
        assert a[..k] == [a[0]] + a[1..][..k - 1];
        assert b[..k] == [b[0]] + b[1..][..k - 1];
      }
    }
  }

  /** String `<`: lexicographic by character, a proper prefix coming first.
      Equivalently, there is a position up to which the two agree and at
      which `a` ends first or holds the smaller character. */
  predicate Less(a: string, b: string)
    ensures Less(a, b) <==> exists k: nat :: BreaksBelow(a, b, k)
  {
    if a == [] then
      assert b != [] ==> BreaksBelow(a, b, 0);
      b != []
    else if b == [] then
      false
    else if a[0] != b[0] then
      assert a[0] < b[0] ==> BreaksBelow(a, b, 0);
      assert forall k: nat :: k >= 1 && k <= |a| && k <= |b| ==> a[..k][0] == a[0] && b[..k][0] == b[0];
      a[0] < b[0]
    else
      BreaksBelowShift(a, b);
      var r := Less(a[1..], b[1..]);
      assert r ==> exists k: nat :: BreaksBelow(a, b, k) by {
        if r {
          var k': nat :| BreaksBelow(a[1..], b[1..], k');
          assert BreaksBelow(a, b, k' + 1);
        }
      }
      r
  }

  lemma {:induction false} LessIrreflexive(a: string)
    ensures !Less(a, a)
  {
    if a != [] {
      LessIrreflexive(a[1..]);
    }
  }

  lemma {:induction false} LessAsymmetric(a: string, b: string)
    ensures !(Less(a, b) && Less(b, a))
  {
    if a != [] && b != [] && a[0] == b[0] {
      LessAsymmetric(a[1..], b[1..]);
    }
  }

  lemma {:induction false} LessTotal(a: string, b: string)
    requires a != b
    ensures Less(a, b) || Less(b, a)
  {
    if a != [] && b != [] && a[0] == b[0] {
      assert a == [a[0]] + a[1..] && b == [b[0]] + b[1..];
      LessTotal(a[1..], b[1..]);
    }
  }

  lemma {:induction false} LessTransitive(a: string, b: string, c: string)
    requires Less(a, b) && Less(b, c)
    ensures Less(a, c)
  {
    if a != [] && a[0] == b[0] && b[0] == c[0] {
      LessTransitive(a[1..], b[1..], c[1..]);
    }
  }

  /** The pair `[a, b]` the fixture looks the pool up with. */
  function OrderPair(x: string, y: string): (p: (string, string))
    ensures p == (x, y) || p == (y, x)
  {
    if Less(ToLower(x), ToLower(y)) then (x, y) else (y, x)
  }

  /** When the two addresses differ (ignoring case), the first one of the pair
      is the smaller and the pair does not depend on the argument order. */
  lemma OrderPairCanonical(x: string, y: string)
    requires ToLower(x) != ToLower(y)
    ensures Less(ToLower(OrderPair(x, y).0), ToLower(OrderPair(x, y).1))
    ensures OrderPair(x, y) == OrderPair(y, x)
  {
    LessTotal(ToLower(x), ToLower(y));
    LessAsymmetric(ToLower(x), ToLower(y));
  }

  /** Two addresses that coincide up to case are kept in swapped argument order. */
  lemma OrderPairSameAddress(x: string, y: string)
    requires ToLower(x) == ToLower(y)
    ensures OrderPair(x, y) == (y, x)
  {
    LessIrreflexive(ToLower(x));
  }
}

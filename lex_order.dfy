/**
  Go's ordering of strings (`<`, `>` on `string`): byte-wise lexicographic
  order. Strings are modelled as sequences of Unicode scalar values; since
  UTF-8 encoding preserves the order of code points, comparing code points one
  by one orders two strings exactly as comparing their UTF-8 bytes does.
 */
module LexOrder {

  /** Go's `a < b`: the first differing character decides, and a proper prefix is smaller. */
  predicate Less(a: string, b: string)
    decreases |a|
  {
    if |a| == 0 then |b| > 0
    else if |b| == 0 then false
    else if a[0] != b[0] then a[0] < b[0]
    else Less(a[1..], b[1..])
  }

  /** Go's `a > b`. */
  predicate Greater(a: string, b: string)
  {
    Less(b, a)
  }

  /** `a` is a proper prefix of `b`. */
  ghost predicate ProperPrefix(a: string, b: string)
  {
    |a| < |b| && a == b[..|a|]
  }

  /** `a` and `b` agree before index `k` and `a` has the smaller character at `k`. */
  ghost predicate FirstDifferenceAt(a: string, b: string, k: nat)
  {
    k < |a| && k < |b| && a[..k] == b[..k] && a[k] < b[k]
  }

  /** The recursive definition agrees with the textbook one, in both directions. */
  lemma {:induction false} LessIffFirstDifference(a: string, b: string)
    ensures Less(a, b) <==> ProperPrefix(a, b) || exists k :: FirstDifferenceAt(a, b, k)
    decreases |a|
  {
    if |a| == 0 || |b| == 0 {
      if |b| == 0 {
        forall k: nat | FirstDifferenceAt(a, b, k) ensures false { }
      }
    } else if a[0] != b[0] {
      if a[0] < b[0] {
        assert FirstDifferenceAt(a, b, 0);
      } else {
        forall k: nat | FirstDifferenceAt(a, b, k) ensures false { }
      }
    } else {
      var a', b' := a[1..], b[1..];
      LessIffFirstDifference(a', b');
      assert a == [a[0]] + a';
      assert b == [b[0]] + b';
      if Less(a', b') {
        if ProperPrefix(a', b') {
          assert b[..|a|] == [b[0]] + b'[..|a'|];
        } else {
          var k: nat :| FirstDifferenceAt(a', b', k);
          assert a[..k + 1] == [a[0]] + a'[..k];
          assert b[..k + 1] == [b[0]] + b'[..k];
          assert FirstDifferenceAt(a, b, k + 1);
        }
      } else {
        forall k: nat | FirstDifferenceAt(a, b, k) ensures false {
          assert k > 0;
          assert a'[..k - 1] == a[..k][1..];
          assert b'[..k - 1] == b[..k][1..];
          assert FirstDifferenceAt(a', b', k - 1);
        }
      }
    }
  }

  lemma {:induction false} LessIrreflexive(a: string)
    ensures !Less(a, a)
    decreases |a|
  {
    if |a| > 0 {
      LessIrreflexive(a[1..]);
    }
  }

  lemma {:induction false} LessAsymmetric(a: string, b: string)
    ensures Less(a, b) ==> !Less(b, a)
    decreases |a|
  {
    if |a| > 0 && |b| > 0 && a[0] == b[0] {
      LessAsymmetric(a[1..], b[1..]);
    }
  }

  lemma {:induction false} LessTransitive(a: string, b: string, c: string)
    requires Less(a, b) && Less(b, c)
    ensures Less(a, c)
    decreases |a|
  {
    if |a| > 0 && a[0] == b[0] && b[0] == c[0] {
      LessTransitive(a[1..], b[1..], c[1..]);
    }
  }

  /** Any two distinct strings are ordered one way or the other. */
  lemma {:induction false} LessTotal(a: string, b: string)
    ensures a == b || Less(a, b) || Less(b, a)
    decreases |a|
  {
    if |a| > 0 && |b| > 0 && a[0] == b[0] {
      LessTotal(a[1..], b[1..]);
      if a[1..] == b[1..] {
        assert a == [a[0]] + a[1..] && b == [b[0]] + b[1..];
      }
    }
  }
}

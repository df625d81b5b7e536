/**
 The orders the source sorts and compares by.  Rust compares byte strings lexicographically; a
 `string` here is the sequence of the UTF-8 bytes of a Rust string, one `char` a byte.
 */
module Order {

  /** Lexicographic order, a proper prefix being smaller. */
  predicate Less(a: seq<int>, b: seq<int>) {
    b != [] && (a == [] || a[0] < b[0] || (a[0] == b[0] && Less(a[1..], b[1..])))
  }

  /** They agree up to some place, and there `a` ends or has the smaller number. */
  ghost predicate Precedes(a: seq<int>, b: seq<int>) {
    exists k: nat :: PartsAt(a, b, k)
  }

  ghost predicate PartsAt(a: seq<int>, b: seq<int>, k: nat) {
    k <= |a| && k < |b| && a[..k] == b[..k] && (k == |a| || a[k] < b[k])
  }

  /** The order is the lexicographic one. */
  lemma {:induction false} LessExactly(a: seq<int>, b: seq<int>)
    ensures Less(a, b) <==> Precedes(a, b)
  {
    if b != [] {
      if a == [] || a[0] < b[0] {
        assert PartsAt(a, b, 0);
      } else {
        if a[0] == b[0] {
          LessExactly(a[1..], b[1..]);
          if k: nat :| PartsAt(a[1..], b[1..], k) {
            assert a[..k + 1] == [a[0]] + a[1..][..k] && b[..k + 1] == [b[0]] + b[1..][..k];
            assert PartsAt(a, b, k + 1);
          }
        }
        if k: nat :| PartsAt(a, b, k) {
          assert k > 0 && a[..k][0] == b[..k][0];
          assert a[..k][1..] == a[1..][..k - 1] && b[..k][1..] == b[1..][..k - 1];
          assert PartsAt(a[1..], b[1..], k - 1);
        }
      }
    }
  }

  lemma {:induction false} LessIrreflexive(a: seq<int>)
    ensures !Less(a, a)
  {
    if a != [] {
      LessIrreflexive(a[1..]);
    }
  }

  lemma {:induction false} LessTransitive(a: seq<int>, b: seq<int>, c: seq<int>)
    requires Less(a, b) && Less(b, c)
    ensures Less(a, c)
  {
    if a != [] && a[0] == b[0] && b[0] == c[0] {
      LessTransitive(a[1..], b[1..], c[1..]);
    }
  }

  lemma {:induction false} LessTotal(a: seq<int>, b: seq<int>)
    ensures Less(a, b) || a == b || Less(b, a)
  {
    if a != [] && b != [] && a[0] == b[0] {
      LessTotal(a[1..], b[1..]);
      assert a == [a[0]] + a[1..] && b == [b[0]] + b[1..];
    }
  }

  function Codes(s: string): (codes: seq<int>)
    ensures |codes| == |s|
    ensures forall i :: 0 <= i < |s| ==> codes[i] == s[i] as int
  {
    seq(|s|, i requires 0 <= i < |s| => s[i] as int)
  }

  predicate TextLess(a: string, b: string) {
    Less(Codes(a), Codes(b))
  }

  lemma CodesInjective(a: string, b: string)
    requires Codes(a) == Codes(b)
    ensures a == b
  {
    forall i | 0 <= i < |a|
      ensures a[i] == b[i]
    {
      assert Codes(a)[i] == Codes(b)[i];
    }
  }

  lemma TextLessIrreflexive(a: string)
    ensures !TextLess(a, a)
  {
    LessIrreflexive(Codes(a));
  }

  lemma TextLessTransitive(a: string, b: string, c: string)
    requires TextLess(a, b) && TextLess(b, c)
    ensures TextLess(a, c)
  {
    LessTransitive(Codes(a), Codes(b), Codes(c));
  }

  lemma TextLessTotal(a: string, b: string)
    ensures TextLess(a, b) || a == b || TextLess(b, a)
  {
    LessTotal(Codes(a), Codes(b));
    if Codes(a) == Codes(b) {
      CodesInjective(a, b);
    }
  }

  /** Two texts part at some byte, where the first ends or has the smaller byte. */
  ghost predicate TextPartsAt(a: string, b: string, k: nat) {
    k <= |a| && k < |b| && a[..k] == b[..k] && (k == |a| || a[k] < b[k])
  }

  ghost predicate TextPrecedes(a: string, b: string) {
    exists k: nat :: TextPartsAt(a, b, k)
  }

  lemma TextLessExactly(a: string, b: string)
    ensures TextLess(a, b) <==> TextPrecedes(a, b)
  {
    LessExactly(Codes(a), Codes(b));
    forall k: nat | k <= |a| && k < |b|
      ensures Codes(a)[..k] == Codes(b)[..k] <==> a[..k] == b[..k]
      ensures PartsAt(Codes(a), Codes(b), k) <==> TextPartsAt(a, b, k)
    {
      assert Codes(a[..k]) == Codes(a)[..k] && Codes(b[..k]) == Codes(b)[..k];
      if Codes(a)[..k] == Codes(b)[..k] {
        CodesInjective(a[..k], b[..k]);
      }
    }
    if k: nat :| PartsAt(Codes(a), Codes(b), k) {
      assert TextPartsAt(a, b, k);
    }
    if k: nat :| TextPartsAt(a, b, k) {
      assert PartsAt(Codes(a), Codes(b), k);
    }
  }
}

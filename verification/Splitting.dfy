/** Cutting text at a separator and joining it again. */
module Splitting {
  import opened Basics

  /** The first position of `c`. */
  function Find(s: string, c: char): (k: Option<nat>)
    ensures k.Some? ==> k.value < |s| && s[k.value] == c && c !in s[..k.value]
    ensures k.None? ==> c !in s
  {
    if s == [] then None
    else if s[0] == c then Some(0)
    else
      var k := Find(s[1..], c);
      if k.None? then None
      else
        assert s[..k.value + 1] == [s[0]] + s[1..][..k.value];
        Some(k.value + 1)
  }

  lemma FindIs(a: string, c: char, b: string)
    requires c !in a
    ensures Find(a + [c] + b, c) == Some(|a|)
  {
    var s := a + [c] + b;
    assert s[|a|] == c;
    assert forall i :: 0 <= i < |a| ==> s[i] == a[i];
    var k := Find(s, c).value;
    assert forall i :: 0 <= i < k ==> s[i] == s[..k][i];
  }

  /** `split_once`: the text before and after the first `c`. */
  function SplitOnce(s: string, c: char): Option<(string, string)> {
    var k := Find(s, c);
    if k.None? then None else Some((s[..k.value], s[k.value + 1..]))
  }

  lemma SplitOnceIs(s: string, c: char, a: string, b: string)
    ensures SplitOnce(s, c) == Some((a, b)) <==> c !in a && s == a + [c] + b
    ensures SplitOnce(s, c).None? <==> c !in s
  {
    if c !in a && s == a + [c] + b {
      FindIs(a, c, b);
      assert s[..|a|] == a && s[|a| + 1..] == b;
    }
    var k := Find(s, c);
    if k.Some? {
      assert s == s[..k.value] + [c] + s[k.value + 1..];
    }
  }

  /** `split`: the parts between the occurrences of `c`, one at least. */
  function Split(s: string, c: char): (parts: seq<string>)
    ensures parts != []
    decreases |s|
  {
    var k := Find(s, c);
    if k.None? then [s] else [s[..k.value]] + Split(s[k.value + 1..], c)
  }

  function Join(parts: seq<string>, c: char): string
    requires parts != []
  {
    if |parts| == 1 then parts[0] else parts[0] + [c] + Join(parts[1..], c)
  }

  lemma {:induction false} JoinSplit(s: string, c: char)
    ensures Join(Split(s, c), c) == s
    ensures forall p :: p in Split(s, c) ==> c !in p
    decreases |s|
  {
    var k := Find(s, c);
    if k.Some? {
      JoinSplit(s[k.value + 1..], c);
      assert s == s[..k.value] + [c] + s[k.value + 1..];
      assert Split(s, c)[1..] == Split(s[k.value + 1..], c);
    }
  }

  lemma {:induction false} SplitJoin(parts: seq<string>, c: char)
    requires parts != [] && forall p :: p in parts ==> c !in p
    ensures Split(Join(parts, c), c) == parts
  {
    var s := Join(parts, c);
    assert parts[0] in parts;
    if |parts| == 1 {
      assert parts == [parts[0]];
    } else {
      var rest := Join(parts[1..], c);
      FindIs(parts[0], c, rest);
      assert s[|parts[0]| + 1..] == rest && s[..|parts[0]|] == parts[0];
      SplitJoin(parts[1..], c);
      assert parts == [parts[0]] + parts[1..];
    }
  }

  /** A text is cut into these parts exactly when it is their join and none holds the separator. */
  lemma SplitExact(s: string, c: char, parts: seq<string>)
    ensures Split(s, c) == parts <==> parts != [] && (forall p :: p in parts ==> c !in p) && s == Join(parts, c)
  {
    JoinSplit(s, c);
    if parts != [] && (forall p :: p in parts ==> c !in p) {
      SplitJoin(parts, c);
    }
  }
}

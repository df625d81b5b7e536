/** Git object ids in the order the source derives for them, and ordered sets of them as sorted lists. */
module Objects {
  import opened Core
  import opened Order

  predicate ObjectLess(a: GitObjectId, b: GitObjectId) {
    TextLess(a.algorithm, b.algorithm) || (a.algorithm == b.algorithm && Less(a.bytes, b.bytes))
  }

  /** By algorithm, and then by the bytes, both lexicographically. */
  ghost predicate ObjectEarlier(a: GitObjectId, b: GitObjectId) {
    TextPrecedes(a.algorithm, b.algorithm) || (a.algorithm == b.algorithm && Precedes(a.bytes, b.bytes))
  }

  lemma ObjectLessExactly(a: GitObjectId, b: GitObjectId)
    ensures ObjectLess(a, b) <==> ObjectEarlier(a, b)
  {
    hide TextPrecedes, Precedes, TextLess, Less;
    TextLessExactly(a.algorithm, b.algorithm);
    LessExactly(a.bytes, b.bytes);
  }

  lemma ObjectLessIrreflexive(a: GitObjectId)
    ensures !ObjectLess(a, a)
  {
    TextLessIrreflexive(a.algorithm);
    LessIrreflexive(a.bytes);
  }

  lemma ObjectLessTransitive(a: GitObjectId, b: GitObjectId, c: GitObjectId)
    requires ObjectLess(a, b) && ObjectLess(b, c)
    ensures ObjectLess(a, c)
  {
    TextLessIrreflexive(a.algorithm);
    if a.algorithm == b.algorithm == c.algorithm {
      LessTransitive(a.bytes, b.bytes, c.bytes);
    } else if a.algorithm != b.algorithm && b.algorithm != c.algorithm {
      TextLessTransitive(a.algorithm, b.algorithm, c.algorithm);
    }
  }

  lemma ObjectLessTotal(a: GitObjectId, b: GitObjectId)
    ensures ObjectLess(a, b) || a == b || ObjectLess(b, a)
  {
    TextLessTotal(a.algorithm, b.algorithm);
    LessTotal(a.bytes, b.bytes);
  }

  predicate Ordered(list: seq<GitObjectId>, i: int)
    requires 0 <= i < |list| - 1
  {
    ObjectLess(list[i], list[i + 1])
  }

  predicate SortedSet(list: seq<GitObjectId>) {
    forall i :: 0 <= i < |list| - 1 ==> Ordered(list, i)
  }

  /** Insertion into an ordered set. */
  function Add(o: GitObjectId, list: seq<GitObjectId>): seq<GitObjectId> {
    if list == [] then [o]
    else if list[0] == o then list
    else if ObjectLess(list[0], o) then [list[0]] + Add(o, list[1..])
    else [o] + list
  }

  /** The ordered set of the members of `list`: sorted, duplicates dropped. */
  function ToSortedSet(list: seq<GitObjectId>): seq<GitObjectId> {
    if list == [] then [] else Add(list[|list| - 1], ToSortedSet(list[..|list| - 1]))
  }

  lemma {:induction false} AddMembers(o: GitObjectId, list: seq<GitObjectId>)
    ensures forall x :: x in Add(o, list) <==> x == o || x in list
    ensures |Add(o, list)| <= |list| + 1
  {
    if list != [] && list[0] != o && ObjectLess(list[0], o) {
      AddMembers(o, list[1..]);
    }
  }

  lemma {:induction false} AddSorts(o: GitObjectId, list: seq<GitObjectId>)
    requires SortedSet(list)
    ensures SortedSet(Add(o, list))
  {
    var out := Add(o, list);
    if list == [] || list[0] == o {
    } else if ObjectLess(list[0], o) {
      forall i | 0 <= i < |list[1..]| - 1
        ensures Ordered(list[1..], i)
      {
        assert Ordered(list, i + 1);
      }
      AddSorts(o, list[1..]);
      var tail := Add(o, list[1..]);
      if |list| > 1 { assert Ordered(list, 0); }
      forall i | 0 <= i < |out| - 1
        ensures Ordered(out, i)
      {
        if i > 0 { assert Ordered(tail, i - 1); }
      }
    } else {
      ObjectLessTotal(list[0], o);
      forall i | 0 <= i < |out| - 1
        ensures Ordered(out, i)
      {
        if i > 0 { assert Ordered(list, i - 1); }
      }
    }
  }

  /** Sorting and dropping duplicates keeps the members and yields a strictly sorted list. */
  lemma {:induction false} ToSortedSetIs(list: seq<GitObjectId>)
    ensures SortedSet(ToSortedSet(list))
    ensures forall x :: x in ToSortedSet(list) <==> x in list
    ensures |ToSortedSet(list)| <= |list|
  {
    if list != [] {
      var n := |list| - 1;
      ToSortedSetIs(list[..n]);
      AddMembers(list[n], ToSortedSet(list[..n]));
      AddSorts(list[n], ToSortedSet(list[..n]));
    }
  }

  lemma {:induction false} SortedBefore(list: seq<GitObjectId>, i: nat, j: nat)
    requires SortedSet(list) && i < j < |list|
    ensures ObjectLess(list[i], list[j])
    decreases j - i
  {
    if i + 1 == j {
      assert Ordered(list, i);
    } else {
      SortedBefore(list, i, j - 1);
      assert Ordered(list, j - 1);
      ObjectLessTransitive(list[i], list[j - 1], list[j]);
    }
  }

  /** An ordered set is determined by its members. */
  lemma {:induction false} SortedSetUnique(a: seq<GitObjectId>, b: seq<GitObjectId>)
    requires SortedSet(a) && SortedSet(b)
    requires forall x :: x in a <==> x in b
    ensures a == b
  {
    assert a != [] ==> a[0] in a;
    assert b != [] ==> b[0] in b;
    if a == [] || b == [] {
    } else {
      HeadIsLeast(a, b);
      HeadIsLeast(b, a);
      ObjectLessTotal(a[0], b[0]);
      if ObjectLess(a[0], b[0]) && ObjectLess(b[0], a[0]) {
        ObjectLessTransitive(a[0], b[0], a[0]);
        ObjectLessIrreflexive(a[0]);
      }
      TailSorted(a);
      TailSorted(b);
      TailMembers(a);
      TailMembers(b);
      SortedSetUnique(a[1..], b[1..]);
      assert a == [a[0]] + a[1..] && b == [b[0]] + b[1..];
    }
  }

  lemma TailSorted(a: seq<GitObjectId>)
    requires SortedSet(a) && a != []
    ensures SortedSet(a[1..])
  {
    forall i | 0 <= i < |a[1..]| - 1
      ensures Ordered(a[1..], i)
    {
      assert Ordered(a, i + 1);
    }
  }

  lemma TailMembers(a: seq<GitObjectId>)
    requires SortedSet(a) && a != []
    ensures forall x :: x in a[1..] <==> x in a && x != a[0]
  {
    forall x
      ensures x in a[1..] <==> x in a && x != a[0]
    {
      if x in a[1..] {
        var i :| 0 <= i < |a[1..]| && a[1..][i] == x;
        SortedBefore(a, 0, i + 1);
        ObjectLessIrreflexive(a[0]);
      }
    }
  }

  lemma HeadIsLeast(a: seq<GitObjectId>, b: seq<GitObjectId>)
    requires SortedSet(a) && a != [] && b != [] && b[0] in a
    ensures a[0] == b[0] || ObjectLess(a[0], b[0])
  {
    var i :| 0 <= i < |a| && a[i] == b[0];
    if i > 0 { SortedBefore(a, 0, i); }
  }
}

/**
 The names of the refs `commit` moves, and the flat map of named refs that Git keeps
 (crates/styrene-git-store/src/lib.rs).
 */
module RefNames {
  import opened Basics
  import opened Bits
  import opened Rendering
  import opened Store
  import Core

  /// Publishers as bytes

  lemma TwiceProduct(x: nat, y: nat)
    ensures (2 * x) * y == 2 * (x * y)
  {
  }

  lemma {:induction false} Pow2Adds(a: nat, b: nat)
    ensures Pow2(a + b) == Pow2(a) * Pow2(b)
  {
    if a > 0 {
      var less, x, y := a - 1, Pow2(a - 1), Pow2(b);
      Pow2Adds(less, b);
      assert a + b - 1 == less + b;
      assert Pow2(a + b) == 2 * Pow2(less + b) && Pow2(a) == 2 * x;
      TwiceProduct(x, y);
    }
  }

  lemma Pow2Doubles(a: nat, p: nat)
    requires Pow2(a) == p
    ensures Pow2(a + a) == p * p
  {
    Pow2Adds(a, a);
  }

  lemma Pow2Of128()
    ensures Pow2(128) == U128_MAX + 1
  {
    PowersOfTwo();
    Pow2Doubles(8, 0x100);
    Pow2Doubles(16, 0x1_0000);
    Pow2Doubles(32, 0x1_0000_0000);
    Pow2Doubles(64, 0x1_0000_0000_0000_0000);
  }

  /** The 16 bytes of an identity, the most significant first. */
  function IdentityBytes(identity: Core.Identity): (bytes: Bytes)
    ensures |bytes| == 16
  {
    SpreadGather(BitsOf(identity, 128), 8, 16);
    ToBytes(BitsOf(identity, 128))
  }

  lemma IdentityBytesInjective(a: Core.Identity, b: Core.Identity)
    requires IdentityBytes(a) == IdentityBytes(b)
    ensures a == b
  {
    Pow2Of128();
    SpreadGather(BitsOf(a, 128), 8, 16);
    SpreadGather(BitsOf(b, 128), 8, 16);
    NumberOfBits(a, 128);
    NumberOfBits(b, 128);
  }

  function PublisherHex(publisher: Core.Identity): (s: string)
    ensures |s| == 32
  {
    Hex(IdentityBytes(publisher))
  }

  lemma PublisherHexInjective(a: Core.Identity, b: Core.Identity)
    requires PublisherHex(a) == PublisherHex(b)
    ensures a == b
  {
    FromHexExact(PublisherHex(a), IdentityBytes(a));
    FromHexExact(PublisherHex(b), IdentityBytes(b));
    IdentityBytesInjective(a, b);
  }

  /// Ref names

  const NAMESPACES := "refs/namespaces/"
  const PUBLISHERS := "refs/styrene/publishers/"

  function NamespaceName(publisher: Core.Identity, name: string): string {
    NAMESPACES + PublisherHex(publisher) + "/" + name
  }

  function StateName(publisher: Core.Identity): string {
    PUBLISHERS + PublisherHex(publisher) + "/state"
  }

  function TransitionName(publisher: Core.Identity, transition: Bytes): string
    requires |transition| == 32
  {
    PUBLISHERS + PublisherHex(publisher) + "/transitions/" + Base32(transition)
  }

  predicate WellSized(key: RefKey<Bytes>) {
    key.TransitionRef? ==> |key.transition| == 32
  }

  function NameOf(key: RefKey<Bytes>): string
    requires WellSized(key)
  {
    match key
    case NamespaceRef(publisher, name) => NamespaceName(publisher, name)
    case StateRef(publisher) => StateName(publisher)
    case TransitionRef(publisher, transition) => TransitionName(publisher, transition)
  }

  /** A name cut after its fixed prefix and the 32 characters of the publisher. */
  lemma NameParts(key: RefKey<Bytes>)
    requires WellSized(key)
    ensures var s := NameOf(key);
            match key
            case NamespaceRef(publisher, name) =>
              |s| >= 49 && s[5] == 'n' && s[16..48] == PublisherHex(publisher) && s[49..] == name
            case StateRef(publisher) =>
              |s| == 62 && s[5] == 's' && s[24..56] == PublisherHex(publisher)
            case TransitionRef(publisher, transition) =>
              |s| == 121 && s[5] == 's' && s[24..56] == PublisherHex(publisher) && s[69..] == Base32(transition)
  {
    hide PublisherHex, Base32;
    assert NAMESPACES[5] == 'n' && PUBLISHERS[5] == 's';
    assert |NAMESPACES| == 16 && |PUBLISHERS| == 24 && |"/transitions/"| == 13;
  }

  /** Within a kind and across kinds and publishers: one name, one ref. */
  lemma NamesInjective(a: RefKey<Bytes>, b: RefKey<Bytes>)
    requires WellSized(a) && WellSized(b)
    ensures NameOf(a) == NameOf(b) <==> a == b
  {
    hide PublisherHex, Base32, NameOf;
    if NameOf(a) == NameOf(b) {
      NameParts(a);
      NameParts(b);
      PublisherHexInjective(a.publisher, b.publisher);
      if a.TransitionRef? {
        ParseRepositoryExact(RepositoryText(a.transition), a.transition);
        ParseRepositoryExact(RepositoryText(b.transition), b.transition);
      }
    }
  }

  /// The flat map

  /** Digests as bytes; a hash function, of which only finitely many values ever occur. */
  type Rendition = Core.Digest -> Bytes

  function Rendered(render: Rendition, key: Key): RefKey<Bytes> {
    match key
    case NamespaceRef(publisher, name) => NamespaceRef(publisher, name)
    case StateRef(publisher) => StateRef(publisher)
    case TransitionRef(publisher, transition) => TransitionRef(publisher, render(transition))
  }

  /** On these refs the hash has its 32 bytes and does not collide. */
  predicate Faithful(render: Rendition, keys: set<Key>) {
    && (forall k :: k in keys ==> WellSized(Rendered(render, k)))
    && forall k, l :: k in keys && l in keys && Rendered(render, k) == Rendered(render, l) ==> k == l
  }

  function Name(render: Rendition, keys: set<Key>, key: Key): string
    requires Faithful(render, keys) && key in keys
  {
    NameOf(Rendered(render, key))
  }

  lemma NameInjective(render: Rendition, keys: set<Key>, a: Key, b: Key)
    requires Faithful(render, keys) && a in keys && b in keys
    ensures Name(render, keys, a) == Name(render, keys, b) <==> a == b
  {
    NamesInjective(Rendered(render, a), Rendered(render, b));
  }

  lemma NameInjectiveAll(render: Rendition, keys: set<Key>)
    requires Faithful(render, keys)
    ensures forall a, b :: a in keys && b in keys && Name(render, keys, a) == Name(render, keys, b) ==> a == b
  {
    forall a, b | a in keys && b in keys && Name(render, keys, a) == Name(render, keys, b)
      ensures a == b
    {
      NameInjective(render, keys, a, b);
    }
  }

  /** The refs under their names. */
  function Flat(render: Rendition, keys: set<Key>, refs: map<Key, Id>): (flat: map<string, Id>)
    requires Faithful(render, keys) && refs.Keys <= keys
    ensures forall k :: k in refs ==> Name(render, keys, k) in flat && flat[Name(render, keys, k)] == refs[k]
    ensures forall n :: n in flat ==> exists k :: k in refs && n == Name(render, keys, k)
  {
    NameInjectiveAll(render, keys);
    map k | k in refs :: Name(render, keys, k) := refs[k]
  }

  lemma FlatHas(render: Rendition, keys: set<Key>, refs: map<Key, Id>, key: Key)
    requires Faithful(render, keys) && refs.Keys <= keys && key in keys
    ensures Name(render, keys, key) in Flat(render, keys, refs) <==> key in refs
  {
    NameInjectiveAll(render, keys);
  }

  function NamedEdit(render: Rendition, keys: set<Key>, edit: Edit): (named: GuardedEdit<string>)
    requires Faithful(render, keys) && edit.key in keys
    ensures named.key == Name(render, keys, edit.key)
  {
    var name := Name(render, keys, edit.key);
    match edit
    case Delete(_, before) => Delete(name, before)
    case Update(_, after, expected) => Update(name, after, expected)
    case Create(_, after) => Create(name, after)
  }

  predicate Within(edits: seq<Edit>, keys: set<Key>) {
    forall i :: 0 <= i < |edits| ==> edits[i].key in keys
  }

  function NamedEdits(render: Rendition, keys: set<Key>, edits: seq<Edit>): (named: seq<GuardedEdit<string>>)
    requires Faithful(render, keys) && Within(edits, keys)
    ensures |named| == |edits|
    ensures forall i :: 0 <= i < |edits| ==> named[i] == NamedEdit(render, keys, edits[i])
  {
    seq(|edits|, i requires 0 <= i < |edits| => NamedEdit(render, keys, edits[i]))
  }

  lemma GuardsAgree(render: Rendition, keys: set<Key>, refs: map<Key, Id>, edit: Edit)
    requires Faithful(render, keys) && refs.Keys <= keys && edit.key in keys
    ensures GuardHolds(Flat(render, keys, refs), NamedEdit(render, keys, edit)) <==> GuardHolds(refs, edit)
  {
    hide Flat, Faithful, Name, IsZero;
    FlatHas(render, keys, refs, edit.key);
  }

  lemma PerformAgrees(render: Rendition, keys: set<Key>, refs: map<Key, Id>, edit: Edit)
    requires Faithful(render, keys) && refs.Keys <= keys && edit.key in keys
    ensures Perform(refs, edit).Keys <= keys
    ensures Perform(Flat(render, keys, refs), NamedEdit(render, keys, edit)) == Flat(render, keys, Perform(refs, edit))
  {
    hide Flat, Faithful, Name, IsZero;
    var after := Perform(refs, edit);
    var flat, flatAfter := Flat(render, keys, refs), Flat(render, keys, after);
    var performed := Perform(flat, NamedEdit(render, keys, edit));
    var name := Name(render, keys, edit.key);
    forall n
      ensures n in performed <==> n in flatAfter
      ensures n in performed && n in flatAfter ==> performed[n] == flatAfter[n]
    {
      FlatHas(render, keys, after, edit.key);
      if n in flat && n != name {
        var k :| k in refs && n == Name(render, keys, k);
        assert k in after;
      }
      if n in flatAfter && n != name {
        var k :| k in after && n == Name(render, keys, k);
        assert k in refs;
      }
    }
    assert performed.Keys == flatAfter.Keys;
  }

  lemma {:induction false} PerformAllAgrees(render: Rendition, keys: set<Key>, refs: map<Key, Id>, edits: seq<Edit>)
    requires Faithful(render, keys) && refs.Keys <= keys && Within(edits, keys)
    ensures PerformAll(refs, edits).Keys <= keys
    ensures PerformAll(Flat(render, keys, refs), NamedEdits(render, keys, edits))
         == Flat(render, keys, PerformAll(refs, edits))
  {
    hide Flat, Faithful, Name, Perform, NamedEdit;
    if edits != [] {
      var n := |edits| - 1;
      PerformAllAgrees(render, keys, refs, edits[..n]);
      assert NamedEdits(render, keys, edits)[..n] == NamedEdits(render, keys, edits[..n]);
      PerformAgrees(render, keys, PerformAll(refs, edits[..n]), edits[n]);
    }
  }

  /**
   On the names Git stores, a transaction succeeds exactly when it does on the structured refs, and
   leads to the same refs under their names.
   */
  lemma FlatTransactionAgrees(render: Rendition, keys: set<Key>, refs: map<Key, Id>, edits: seq<Edit>)
    requires Faithful(render, keys) && refs.Keys <= keys && Within(edits, keys)
    ensures var named := Transact(Flat(render, keys, refs), NamedEdits(render, keys, edits));
            match Transact(refs, edits)
            case None => named.None?
            case Some(after) => after.Keys <= keys && named == Some(Flat(render, keys, after))
  {
    hide Flat, Faithful, Name, GuardHolds, NamedEdit;
    var flat, named := Flat(render, keys, refs), NamedEdits(render, keys, edits);
    assert DistinctKeys(named) <==> DistinctKeys(edits) by {
      NameInjectiveAll(render, keys);
      assert forall i :: 0 <= i < |edits| ==> named[i].key == Name(render, keys, edits[i].key);
    }
    assert (forall e :: e in named ==> GuardHolds(flat, e)) <==> forall e :: e in edits ==> GuardHolds(refs, e) by {
      forall i | 0 <= i < |edits|
        ensures GuardHolds(flat, named[i]) <==> GuardHolds(refs, edits[i])
      {
        GuardsAgree(render, keys, refs, edits[i]);
      }
      assert forall i :: 0 <= i < |edits| ==> named[i] in named && edits[i] in edits;
    }
    hide DistinctKeys;
    PerformAllAgrees(render, keys, refs, edits);
  }
}

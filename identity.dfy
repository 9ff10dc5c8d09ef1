/** The identity of a wrapper: the decimal rendering of a sum of digests of
    every keyword argument's value and key and of the wrapped content. The
    digest (blake2b in the source) is a parameter of type `string -> nat`, so
    nothing is assumed about it. */
module Identity {
  import opened Numerals

  /** A keyword-argument value. `text` is what `str(v)` gives; a Python list
      also keeps `str` of each of its elements, which the command line of the
      batch wrapper uses. */
  datatype KwValue = Scalar(text: string) | ListOf(items: seq<string>, text: string)

  /** One entry of the `call_kwargs` dictionary. */
  datatype Arg = Arg(key: string, value: KwValue)

  predicate KeysUnique(s: seq<Arg>) {
    forall i, j :: 0 <= i < j < |s| ==> s[i].key != s[j].key
  }

  /** A Python dict of keyword arguments: entries in insertion order, each key
      at most once. */
  type KwDict = s: seq<Arg> | KeysUnique(s) witness []

  /** What one entry adds to the identity: the digest of `str(v)` plus the
      digest of `str(k)`. */
  function ArgDigest(a: Arg, digest: string -> nat): nat {
    digest(a.value.text) + digest(a.key)
  }

  /** The sum of the entries' digests, in the order the loop visits them. */
  function KwargsDigest(s: seq<Arg>, digest: string -> nat): nat {
    if s == [] then 0 else KwargsDigest(s[..|s| - 1], digest) + ArgDigest(s[|s| - 1], digest)
  }

  /** The identity string of keyword arguments and a content digest. */
  function IdString(kwargs: seq<Arg>, contentDigest: nat, digest: string -> nat): string {
    Decimal(KwargsDigest(kwargs, digest) + contentDigest)
  }

  /** `_get_id_str`: accumulates the value and key digests of every entry,
      then the content digest, and renders the sum in decimal. The result is
      a string of decimal digits. */
  method GetIdStr(kwargs: seq<Arg>, contentDigest: nat, digest: string -> nat) returns (id: string)
    ensures id == IdString(kwargs, contentDigest, digest)
    ensures id != [] && AllDigits(id)
  {
    var sum: nat := 0;
    var i := 0;
    while i < |kwargs|
      invariant 0 <= i <= |kwargs|
      invariant sum == KwargsDigest(kwargs[..i], digest)
    {
      assert kwargs[..i + 1][..i] == kwargs[..i];
      sum := sum + digest(kwargs[i].value.text);
      sum := sum + digest(kwargs[i].key);
      i := i + 1;
    }
    assert kwargs[..i] == kwargs;
    sum := sum + contentDigest;
    id := Decimal(sum);
  }

  /** The digest of a concatenation is the sum of the digests. */
  lemma {:induction false} KwargsDigestConcat(p: seq<Arg>, q: seq<Arg>, digest: string -> nat)
    ensures KwargsDigest(p + q, digest) == KwargsDigest(p, digest) + KwargsDigest(q, digest)
    decreases |q|
  {
    if q == [] {
      assert p + q == p;
    } else {
      assert (p + q)[..|p + q| - 1] == p + q[..|q| - 1];
      KwargsDigestConcat(p, q[..|q| - 1], digest);
    }
  }

  /** Because addition is commutative, the sum does not depend on the order
      of the entries. */
  lemma {:induction false} KwargsDigestPermutation(a: seq<Arg>, b: seq<Arg>, digest: string -> nat)
    requires multiset(a) == multiset(b)
    ensures KwargsDigest(a, digest) == KwargsDigest(b, digest)
    decreases |a|
  {
    if a == [] {
      assert |multiset(b)| == 0;
    } else {
      var x := a[|a| - 1];
      var a' := a[..|a| - 1];
      assert a == a' + [x];
      assert multiset(a') == multiset(a) - multiset{x};
      assert x in multiset(b);
      var j :| 0 <= j < |b| && b[j] == x;
      var b' := RemoveAt(b, j, digest);
      KwargsDigestPermutation(a', b', digest);
    }
  }

  /** Removing the entry at index j takes it out of the multiset and its
      digest out of the sum. */
  lemma RemoveAt(b: seq<Arg>, j: nat, digest: string -> nat) returns (b': seq<Arg>)
    requires j < |b|
    ensures b' == b[..j] + b[j + 1..]
    ensures multiset(b') == multiset(b) - multiset{b[j]}
    ensures KwargsDigest(b, digest) == KwargsDigest(b', digest) + ArgDigest(b[j], digest)
  {
    b' := b[..j] + b[j + 1..];
    var x := b[j];
    assert b == b[..j] + ([x] + b[j + 1..]);
    assert multiset(b) == multiset(b[..j]) + multiset([x]) + multiset(b[j + 1..]);
    KwargsDigestConcat(b[..j], [x] + b[j + 1..], digest);
    KwargsDigestConcat([x], b[j + 1..], digest);
    KwargsDigestConcat(b[..j], b[j + 1..], digest);
    assert KwargsDigest([x], digest) == ArgDigest(x, digest) by {
      assert [x][..0] == [];
    }
  }

  /** Permuting the keyword arguments gives the same identity. */
  lemma IdentityOrderIndependent(a: seq<Arg>, b: seq<Arg>, contentDigest: nat, digest: string -> nat)
    requires multiset(a) == multiset(b)
    ensures IdString(a, contentDigest, digest) == IdString(b, contentDigest, digest)
  {
    KwargsDigestPermutation(a, b, digest);
  }

  /** The mapping a dict denotes, whatever its insertion order. */
  function AsMap(s: seq<Arg>): map<string, KwValue> {
    if s == [] then map[] else AsMap(s[..|s| - 1])[s[|s| - 1].key := s[|s| - 1].value]
  }

  /** An entry is in the dict exactly when the mapping sends its key to its
      value. */
  lemma {:induction false} InAsMap(s: KwDict, a: Arg)
    ensures a in s <==> a.key in AsMap(s) && AsMap(s)[a.key] == a.value
    decreases |s|
  {
    if s != [] {
      var p, y := s[..|s| - 1], s[|s| - 1];
      assert s == p + [y];
      assert KeysUnique(p);
      InAsMap(p, a);
      if a in p && a != y {
        var i :| 0 <= i < |p| && p[i] == a;
        assert s[i].key != s[|s| - 1].key;
      }
    }
  }

  /** In a dict each entry occurs once. */
  lemma {:induction false} EntryMultiplicity(s: KwDict, a: Arg)
    ensures multiset(s)[a] == if a in s then 1 else 0
    decreases |s|
  {
    if s != [] {
      var p, y := s[..|s| - 1], s[|s| - 1];
      assert s == p + [y];
      assert KeysUnique(p);
      EntryMultiplicity(p, a);
    }
  }

  /** Two dicts holding the same mapping, built in different insertion
      orders, give the same identity. */
  lemma IdentityOfSameMapping(a: KwDict, b: KwDict, contentDigest: nat, digest: string -> nat)
    requires AsMap(a) == AsMap(b)
    ensures IdString(a, contentDigest, digest) == IdString(b, contentDigest, digest)
  {
    forall x: Arg
      ensures multiset(a)[x] == multiset(b)[x]
    {
      InAsMap(a, x);
      InAsMap(b, x);
      EntryMultiplicity(a, x);
      EntryMultiplicity(b, x);
    }
    assert multiset(a) == multiset(b);
    IdentityOrderIndependent(a, b, contentDigest, digest);
  }

  /** Two identity strings are equal exactly when their digest sums are. */
  lemma IdStringEquality(a: seq<Arg>, ca: nat, b: seq<Arg>, cb: nat, digest: string -> nat)
    ensures IdString(a, ca, digest) == IdString(b, cb, digest)
        <==> KwargsDigest(a, digest) + ca == KwargsDigest(b, digest) + cb
  {
    DecimalInjective(KwargsDigest(a, digest) + ca, KwargsDigest(b, digest) + cb);
  }
}

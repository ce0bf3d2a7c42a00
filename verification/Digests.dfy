/** The byte strings fed to the digest of instance generations and to the keyed
    fingerprint; the hash functions themselves stay outside. */
module Digests {

  import opened Basics

  /** Any byte string a 64-bit machine can hold. */
  type Bytes = s: seq<byte> | |s| < 0x1_0000_0000_0000_0000

  type Pair = (Bytes, Bytes)

  // ---- length-prefixed fields --------------------------------------------------------------

  /** The low `k` bytes of `n`, most significant first. */
  function BigEndian(n: nat, k: nat): (r: seq<byte>)
    ensures |r| == k
  {
    if k == 0 then [] else BigEndian(n / 256, k - 1) + [n % 256]
  }

  function Pow256(k: nat): nat {
    if k == 0 then 1 else 256 * Pow256(k - 1)
  }

  /** The number a byte string stands for, most significant byte first. */
  function Value(s: seq<byte>): nat {
    if s == [] then 0 else 256 * Value(s[..|s| - 1]) + s[|s| - 1]
  }

  lemma {:induction false} BigEndianReadsBack(n: nat, k: nat)
    requires n < Pow256(k)
    ensures Value(BigEndian(n, k)) == n
  {
    if k > 0 {
      var front := BigEndian(n / 256, k - 1);
      BigEndianReadsBack(n / 256, k - 1);
      assert (front + [n % 256])[..k - 1] == front;
    }
  }

  lemma BigEndianInjective(a: nat, b: nat, k: nat)
    requires a < Pow256(k) && b < Pow256(k) && BigEndian(a, k) == BigEndian(b, k)
    ensures a == b
  {
    BigEndianReadsBack(a, k);
    BigEndianReadsBack(b, k);
  }

  function Field(value: Bytes): seq<byte> {
    BigEndian(|value|, 8) + value
  }

  function Fields(values: seq<Bytes>): seq<byte> {
    if values == [] then [] else Field(values[0]) + Fields(values[1..])
  }

  lemma {:induction false} FieldSplits(a: Bytes, x: seq<byte>, b: Bytes, y: seq<byte>)
    requires Field(a) + x == Field(b) + y
    ensures a == b && x == y
  {
    var s := Field(a) + x;
    assert s[..8] == BigEndian(|a|, 8) && s[..8] == BigEndian(|b|, 8);
    assert Pow256(8) == 0x1_0000_0000_0000_0000;
    BigEndianInjective(|a|, |b|, 8);
    assert s[8..8 + |a|] == a && s[8..8 + |a|] == b;
    assert s[8 + |a|..] == x && s[8 + |a|..] == y;
  }

  /** A sequence of fields can be read back in one way only. */
  lemma {:induction false} FieldsInjective(a: seq<Bytes>, b: seq<Bytes>)
    requires Fields(a) == Fields(b)
    ensures a == b
  {
    if a == [] || b == [] {
      assert a != [] ==> |Fields(a)| >= 8;
      assert b != [] ==> |Fields(b)| >= 8;
    } else {
      FieldSplits(a[0], Fields(a[1..]), b[0], Fields(b[1..]));
      FieldsInjective(a[1..], b[1..]);
      assert a == [a[0]] + a[1..] && b == [b[0]] + b[1..];
    }
  }

  /** The fingerprint message tells domain, instance and every value apart. */
  lemma FingerprintInjective(
    domain: Bytes, id: Bytes, values: seq<Bytes>, domain': Bytes, id': Bytes, values': seq<Bytes>)
    requires Fields([domain, id] + values) == Fields([domain', id'] + values')
    ensures domain == domain' && id == id' && values == values'
  {
    var a, b := [domain, id] + values, [domain', id'] + values';
    FieldsInjective(a, b);
    assert a[0] == domain && a[1] == id && a[2..] == values;
    assert b[0] == domain' && b[1] == id' && b[2..] == values';
  }

  /** `fingerprint` builds that message field by field. */
  method FingerprintMessage(domain: Bytes, id: Bytes, values: seq<Bytes>) returns (message: seq<byte>)
    ensures message == Fields([domain, id] + values)
  {
    message := Field(domain) + Field(id);
    FieldsConcat([domain], [id]);
    OneField(domain);
    OneField(id);
    assert [domain] + [id] == [domain, id];
    assert values[..0] == [] && [domain, id] + [] == [domain, id];
    for i := 0 to |values|
      invariant message == Fields([domain, id] + values[..i])
    {
      message := message + Field(values[i]);
      OneField(values[i]);
      FieldsConcat([domain, id] + values[..i], [values[i]]);
      assert [domain, id] + values[..i] + [values[i]] == [domain, id] + values[..i + 1];
    }
    assert values[..|values|] == values;
  }

  lemma OneField(v: Bytes)
    ensures Fields([v]) == Field(v)
  {
    assert [v][1..] == [] && Field(v) + [] == Field(v);
  }

  lemma {:induction false} FieldsConcat(a: seq<Bytes>, b: seq<Bytes>)
    ensures Fields(a + b) == Fields(a) + Fields(b)
  {
    if a == [] {
      assert a + b == b;
    } else {
      assert (a + b)[1..] == a[1..] + b;
      FieldsConcat(a[1..], b);
      assert Field(a[0]) + (Fields(a[1..]) + Fields(b)) == Fields(a) + Fields(b);
    }
  }

  // ---- order -----------------------------------------------------------------------------------

  /** Byte-wise lexicographic order, as strings compare. */
  predicate Le(a: seq<byte>, b: seq<byte>) {
    a == [] || (b != [] && (a[0] < b[0] || (a[0] == b[0] && Le(a[1..], b[1..]))))
  }

  /** `a` is a prefix of `b`, or has the smaller byte where they first differ, at `k`. */
  predicate Precedes(a: seq<byte>, b: seq<byte>, k: nat) {
    && k <= |a| && k <= |b| && a[..k] == b[..k]
    && (k == |a| || (k < |b| && a[k] < b[k]))
  }

  lemma {:induction false} LeIff(a: seq<byte>, b: seq<byte>)
    ensures Le(a, b) <==> exists k :: Precedes(a, b, k)
  {
    if a == [] {
      assert Precedes(a, b, 0);
    } else if b != [] {
      LeIff(a[1..], b[1..]);
      if a[0] < b[0] { assert Precedes(a, b, 0); }
      if a[0] == b[0] {
        if k: nat :| Precedes(a[1..], b[1..], k) {
          assert a[..k + 1] == [a[0]] + a[1..][..k] && b[..k + 1] == [b[0]] + b[1..][..k];
          assert Precedes(a, b, k + 1);
        }
        if k: nat :| Precedes(a, b, k) {
          assert k > 0 && a[1..][..k - 1] == a[..k][1..] && b[1..][..k - 1] == b[..k][1..];
          assert Precedes(a[1..], b[1..], k - 1);
        }
      }
      assert forall k: nat :: Precedes(a, b, k) && k > 0 ==> a[..k][0] == b[..k][0];
    }
  }

  lemma {:induction false} LeTotal(a: seq<byte>, b: seq<byte>)
    ensures Le(a, b) || Le(b, a)
  {
    if a != [] && b != [] { LeTotal(a[1..], b[1..]); }
  }

  lemma {:induction false} LeAntisymmetric(a: seq<byte>, b: seq<byte>)
    requires Le(a, b) && Le(b, a)
    ensures a == b
  {
    if a != [] && b != [] {
      LeAntisymmetric(a[1..], b[1..]);
      assert a == [a[0]] + a[1..] && b == [b[0]] + b[1..];
    }
  }

  lemma {:induction false} LeTransitive(a: seq<byte>, b: seq<byte>, c: seq<byte>)
    requires Le(a, b) && Le(b, c)
    ensures Le(a, c)
  {
    if a != [] && a[0] == b[0] == c[0] { LeTransitive(a[1..], b[1..], c[1..]); }
  }

  predicate PairLe(p: Pair, q: Pair) {
    if p.0 == q.0 then Le(p.1, q.1) else Le(p.0, q.0)
  }

  lemma PairLeOrder(p: Pair, q: Pair, r: Pair)
    ensures PairLe(p, q) || PairLe(q, p)
    ensures PairLe(p, q) && PairLe(q, p) ==> p == q
    ensures PairLe(p, q) && PairLe(q, r) ==> PairLe(p, r)
  {
    LeTotal(p.0, q.0);
    LeTotal(p.1, q.1);
    if PairLe(p, q) && PairLe(q, p) {
      if p.0 == q.0 { LeAntisymmetric(p.1, q.1); } else { LeAntisymmetric(p.0, q.0); }
    }
    if PairLe(p, q) && PairLe(q, r) {
      if p.0 == q.0 == r.0 { LeTransitive(p.1, q.1, r.1); }
      else if p.0 != q.0 && q.0 != r.0 {
        LeTransitive(p.0, q.0, r.0);
        if p.0 == r.0 { LeAntisymmetric(p.0, q.0); }
      }
    }
  }

  predicate Sorted(s: seq<Pair>) {
    forall i, j :: 0 <= i < j < |s| ==> PairLe(s[i], s[j])
  }

  lemma TailAsMultiset(s: seq<Pair>)
    requires s != []
    ensures multiset(s[1..]) == multiset(s) - multiset{s[0]}
  {
    assert s == [s[0]] + s[1..];
  }

  lemma SameFirst(a: seq<Pair>, b: seq<Pair>)
    requires Sorted(a) && Sorted(b) && multiset(a) == multiset(b) && a != [] && b != []
    ensures a[0] == b[0]
  {
    assert a[0] in multiset(b) && b[0] in multiset(a);
    LeastFirst(a, b[0]);
    LeastFirst(b, a[0]);
    PairLeOrder(a[0], b[0], b[0]);
  }

  /** Sorting is canonical: one sorted arrangement per multiset. */
  lemma {:induction false} SortedUnique(a: seq<Pair>, b: seq<Pair>)
    requires Sorted(a) && Sorted(b) && multiset(a) == multiset(b)
    ensures a == b
  {
    assert |a| == |multiset(a)| == |b|;
    if a != [] {
      SameFirst(a, b);
      TailAsMultiset(a);
      TailAsMultiset(b);
      SortedUnique(a[1..], b[1..]);
      assert a == [a[0]] + a[1..] && b == [b[0]] + b[1..];
    }
  }

  lemma LeastFirst(s: seq<Pair>, p: Pair)
    requires Sorted(s) && p in s
    ensures PairLe(s[0], p)
  {
    PairLeOrder(s[0], s[0], s[0]);
  }

  function Inserted(p: Pair, s: seq<Pair>): (r: seq<Pair>)
    requires Sorted(s)
    ensures Sorted(r) && multiset(r) == multiset(s) + multiset{p}
  {
    if s == [] then [p]
    else if PairLe(p, s[0]) then
      var r := [p] + s;
      assert Sorted(r) by {
        forall j | 0 < j < |r| ensures PairLe(p, r[j]) {
          LeastFirst(s, r[j]);
          PairLeOrder(p, s[0], r[j]);
        }
      }
      r
    else
      var rest := Inserted(p, s[1..]);
      var r := [s[0]] + rest;
      assert s == [s[0]] + s[1..];
      assert Sorted(r) by {
        forall j | 0 < j < |r| ensures PairLe(s[0], r[j]) {
          PairLeOrder(s[0], p, p);
          assert r[j] in multiset(rest);
          if r[j] != p { assert r[j] in s[1..]; LeastFirst(s, r[j]); }
        }
      }
      r
  }

  function Sort(s: seq<Pair>): (r: seq<Pair>)
    ensures Sorted(r) && multiset(r) == multiset(s)
  {
    if s == [] then [] else
      assert s == [s[0]] + s[1..];
      Inserted(s[0], Sort(s[1..]))
  }

  // ---- the digest of instance generations ------------------------------------------------------

  function Flat(pairs: seq<Pair>): seq<Bytes> {
    if pairs == [] then [] else [pairs[0].0, pairs[0].1] + Flat(pairs[1..])
  }

  lemma {:induction false} FlatInjective(a: seq<Pair>, b: seq<Pair>)
    requires Flat(a) == Flat(b)
    ensures a == b
  {
    if a != [] && b != [] {
      assert Flat(a)[0] == a[0].0 && Flat(a)[1] == a[0].1 && Flat(a)[2..] == Flat(a[1..]);
      assert Flat(b)[0] == b[0].0 && Flat(b)[1] == b[0].1 && Flat(b)[2..] == Flat(b[1..]);
      FlatInjective(a[1..], b[1..]);
      assert a == [a[0]] + a[1..] && b == [b[0]] + b[1..];
    }
  }

  /** What the digest is computed over, for a given domain-separation prefix. */
  function PreImage(prefix: seq<byte>, pairs: seq<Pair>): seq<byte> {
    prefix + Fields(Flat(Sort(pairs)))
  }

  /** Two lists give the same pre-image exactly when one is a rearrangement of the
      other. */
  lemma PreImageIdentifiesPairs(prefix: seq<byte>, a: seq<Pair>, b: seq<Pair>)
    ensures PreImage(prefix, a) == PreImage(prefix, b) <==> multiset(a) == multiset(b)
  {
    if PreImage(prefix, a) == PreImage(prefix, b) {
      var x, y := Fields(Flat(Sort(a))), Fields(Flat(Sort(b)));
      assert (prefix + x)[|prefix|..] == x && (prefix + y)[|prefix|..] == y;
      FieldsInjective(Flat(Sort(a)), Flat(Sort(b)));
      FlatInjective(Sort(a), Sort(b));
    }
    if multiset(a) == multiset(b) { SortedUnique(Sort(a), Sort(b)); }
  }

  /** For one pair: the prefix, then the instance and the generation, each after its
      length. */
  lemma PreImageOfOne(prefix: seq<byte>, id: Bytes, generation: Bytes)
    ensures PreImage(prefix, [(id, generation)]) ==
            prefix + BigEndian(|id|, 8) + id + BigEndian(|generation|, 8) + generation
  {
    var pairs := [(id, generation)];
    assert Sorted(pairs);
    SortedUnique(Sort(pairs), pairs);
    assert pairs[1..] == [] && Flat(pairs) == [id, generation];
    assert [id, generation] == [id] + [generation];
    FieldsConcat([id], [generation]);
    OneField(id);
    OneField(generation);
    assert prefix + (Field(id) + Field(generation))
           == prefix + BigEndian(|id|, 8) + id + BigEndian(|generation|, 8) + generation;
  }

  lemma {:induction false} FlatAppend(pairs: seq<Pair>, p: Pair)
    ensures Flat(pairs + [p]) == Flat(pairs) + [p.0, p.1]
  {
    if pairs == [] {
      assert pairs + [p] == [p] && [p][1..] == [];
    } else {
      assert (pairs + [p])[1..] == pairs[1..] + [p];
      FlatAppend(pairs[1..], p);
    }
  }

  lemma {:induction false} TwoFields(values: seq<Bytes>, p: Pair)
    ensures Fields(values + [p.0, p.1]) == Fields(values) + Field(p.0) + Field(p.1)
  {
    FieldsConcat(values, [p.0, p.1]);
    FieldsConcat([p.0], [p.1]);
    OneField(p.0);
    OneField(p.1);
    assert [p.0] + [p.1] == [p.0, p.1];
    assert Fields(values) + (Field(p.0) + Field(p.1)) == Fields(values) + Field(p.0) + Field(p.1);
  }

  lemma {:induction false} OnePairMore(prefix: seq<byte>, done: seq<Pair>, p: Pair)
    ensures prefix + Fields(Flat(done)) + Field(p.0) + Field(p.1) == prefix + Fields(Flat(done + [p]))
  {
    FlatAppend(done, p);
    TwoFields(Flat(done), p);
    var x, y, z := Fields(Flat(done)), Field(p.0), Field(p.1);
    assert prefix + x + y + z == prefix + (x + y + z);
  }

  method FeedPairs(prefix: seq<byte>, pairs: seq<Pair>) returns (message: seq<byte>)
    ensures message == prefix + Fields(Flat(pairs))
  {
    message := prefix;
    for i := 0 to |pairs|
      invariant message == prefix + Fields(Flat(pairs[..i]))
    {
      var p := pairs[i];
      OnePairMore(prefix, pairs[..i], p);
      assert pairs[..i] + [p] == pairs[..i + 1];
      message := message + Field(p.0) + Field(p.1);
    }
    assert pairs[..|pairs|] == pairs;
  }

  /** `instance_generation_digest`, up to the hash: the sorted pairs, field by field. */
  method DigestMessage(prefix: seq<byte>, pairs: seq<Pair>) returns (message: seq<byte>)
    ensures message == PreImage(prefix, pairs)
  {
    var sorted := Sort(pairs);
    message := FeedPairs(prefix, sorted);
  }
}

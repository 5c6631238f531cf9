/** The buckets of the front end's associative array, as sequences of nodes. */
module BucketChains {

  /** A 64-bit word: keys are pointers. */
  type Word = n: nat | n < 0x1_0000_0000_0000_0000

  class Node {
    var next: Node?
    const key: Word
    var value: Word

    constructor (key: Word)
      ensures this.key == key && next == null && value == 0
    {
      this.key, next, value := key, null, 0;
    }
  }

  // ---------- The hash ----------

  function And(x: nat, y: nat): (r: nat)
    ensures r <= y
  {
    if x == 0 || y == 0 then 0 else (x % 2) * (y % 2) + 2 * And(x / 2, y / 2)
  }

  function Xor(x: nat, y: nat): nat {
    if x == 0 then y else if y == 0 then x else (x % 2 + y % 2) % 2 + 2 * Xor(x / 2, y / 2)
  }

  function Fold(a: nat): nat {
    Xor(a, Xor(a / 0x10_0000, a / 0x1000))
  }

  function Spread(a: nat): nat {
    Xor(Xor(a, a / 128), a / 16)
  }

  function Hash(k: nat): nat {
    Spread(Fold(k))
  }

  lemma XorHalf(x: nat, y: nat)
    ensures Xor(x, y) / 2 == Xor(x / 2, y / 2) && Xor(x, y) % 2 == (x % 2 + y % 2) % 2
  {
  }

  /** What is added to the lowest bit, from the bits above it. */
  function FoldLow(h: nat): nat { h / 0x8_0000 + h / 0x800 }
  function SpreadLow(h: nat): nat { h / 64 + h / 8 }

  lemma Parities(p: nat, q: nat, r: nat)
    ensures (p % 2 + (q % 2 + r % 2) % 2) % 2 == ((p % 2 + q % 2) % 2 + r % 2) % 2 == (p % 2 + (q + r)) % 2
  {
  }

  lemma FoldHalf(x: nat)
    ensures Fold(x) / 2 == Fold(x / 2) && Fold(x) % 2 == (x % 2 + FoldLow(x / 2)) % 2
  {
    hide Xor;
    XorHalf(x / 0x10_0000, x / 0x1000);
    XorHalf(x, Xor(x / 0x10_0000, x / 0x1000));
    Parities(x, x / 0x10_0000, x / 0x1000);
    Shifts(x);
  }

  lemma SpreadHalf(x: nat)
    ensures Spread(x) / 2 == Spread(x / 2) && Spread(x) % 2 == (x % 2 + SpreadLow(x / 2)) % 2
  {
    hide Xor;
    XorHalf(x, x / 128);
    XorHalf(Xor(x, x / 128), x / 16);
    Parities(x, x / 128, x / 16);
    Shifts(x);
  }

  lemma Shifts(x: nat)
    ensures x / 128 / 2 == x / 2 / 128 && x / 16 / 2 == x / 2 / 16 && x / 128 == x / 2 / 64 && x / 16 == x / 2 / 8
    ensures x / 0x10_0000 / 2 == x / 2 / 0x10_0000 && x / 0x1000 / 2 == x / 2 / 0x1000
    ensures x / 0x10_0000 == x / 2 / 0x8_0000 && x / 0x1000 == x / 2 / 0x800
  {
  }

  lemma SameParity(x: nat, y: nat, low: nat)
    requires x / 2 == y / 2 && (x % 2 + low) % 2 == (y % 2 + low) % 2
    ensures x == y
  {
  }

  lemma {:induction false} FoldInjective(x: nat, y: nat)
    requires Fold(x) == Fold(y)
    ensures x == y
    decreases x + y
  {
    hide Fold, FoldLow;
    if x + y > 0 {
      FoldHalf(x);
      FoldHalf(y);
      FoldInjective(x / 2, y / 2);
      SameParity(x, y, FoldLow(x / 2));
    }
  }

  lemma {:induction false} SpreadInjective(x: nat, y: nat)
    requires Spread(x) == Spread(y)
    ensures x == y
    decreases x + y
  {
    hide Spread, SpreadLow;
    if x + y > 0 {
      SpreadHalf(x);
      SpreadHalf(y);
      SpreadInjective(x / 2, y / 2);
      SameParity(x, y, SpreadLow(x / 2));
    }
  }

  /** Different keys have different hashes: they can only meet in a bucket
      because of the mask. */
  lemma HashInjective(k: nat, k': nat)
    requires Hash(k) == Hash(k')
    ensures k == k'
  {
    hide Fold, Spread;
    SpreadInjective(Fold(k), Fold(k'));
    FoldInjective(k, k');
  }

  /** The bucket a key belongs to. */
  function Bucket(key: nat, len: nat): (i: nat)
    requires len > 0
    ensures i < len
  {
    Hash(key) % len
  }

  predicate PowerOfTwo(n: nat) {
    n == 1 || (n > 0 && n % 2 == 0 && PowerOfTwo(n / 2))
  }

  /** Because the number of buckets is a power of two, masking the hash takes
      its remainder. */
  lemma {:induction false} MaskIsRemainder(x: nat, len: nat)
    requires PowerOfTwo(len)
    ensures And(x, len - 1) == x % len
    decreases len
  {
    if len > 1 {
      var m := len / 2;
      MaskIsRemainder(x / 2, m);
      assert (len - 1) % 2 == 1 && (len - 1) / 2 == m - 1;
      HalveRemainder(x, m);
    }
  }

  lemma HalveRemainder(x: nat, m: nat)
    requires m > 0
    ensures x % (2 * m) == x % 2 + 2 * ((x / 2) % m)
  {
    var q, r := (x / 2) / m, (x / 2) % m;
    assert x == 2 * (q * m + r) + x % 2;
    assert x == (2 * m) * q + (2 * r + x % 2);
    RemainderIs(x, 2 * m, q, 2 * r + x % 2);
  }

  lemma RemainderIs(x: nat, d: nat, q: nat, r: nat)
    requires d > 0 && x == d * q + r && r < d
    ensures x % d == r
  {
    var q', r' := x / d, x % d;
    assert x == d * q' + r';
    QuotientUnique(d, q, r, q', r');
  }

  lemma QuotientUnique(d: nat, q: nat, r: nat, q': nat, r': nat)
    requires d * q + r == d * q' + r' && r < d && r' < d
    ensures r == r'
  {
    if q < q' {
      AtLeastOne(d, q' - q);
    } else if q' < q {
      AtLeastOne(d, q - q');
    }
  }

  lemma AtLeastOne(d: nat, k: nat)
    requires k > 0
    ensures d * k >= d
  {
  }

  /** Which bucket it is, as the code computes it. */
  method MaskedHash(key: nat, len: nat) returns (i: nat)
    requires PowerOfTwo(len)
    ensures i == Bucket(key, len)
  {
    hide Hash, And;
    i := And(Hash(key), len - 1);
    MaskIsRemainder(Hash(key), len);
  }

  // ---------- Buckets ----------

  type Chains = seq<seq<Node>>

  predicate NoDup(c: seq<Node>) {
    forall i, j :: 0 <= i < j < |c| ==> c[i] != c[j]
  }

  /** Every slot is in its key's bucket, once, and nothing else is anywhere. */
  ghost predicate Placed(chains: Chains, slots: map<Word, Node>) {
    && |chains| > 0
    && (forall i, n :: 0 <= i < |chains| && n in chains[i] ==>
          n.key in slots && slots[n.key] == n && Bucket(n.key, |chains|) == i)
    && (forall k :: k in slots ==> slots[k].key == k && slots[k] in chains[Bucket(k, |chains|)])
    && (forall i :: 0 <= i < |chains| ==> NoDup(chains[i]))
  }

  lemma PlacedInsert(chains: Chains, slots: map<Word, Node>, e: Node)
    requires Placed(chains, slots) && e.key !in slots
    ensures var i := Bucket(e.key, |chains|);
      Placed(chains[i := chains[i] + [e]], slots[e.key := e])
  {
    hide Bucket;
  }

  // ---------- Rehashing ----------

  /** A node is put in front of its new bucket. */
  function Move(to: Chains, n: Node): (r: Chains)
    requires |to| > 0
    ensures |r| == |to|
  {
    var j := Bucket(n.key, |to|);
    to[j := [n] + to[j]]
  }

  function MoveChain(to: Chains, c: seq<Node>): (r: Chains)
    requires |to| > 0
    ensures |r| == |to|
    decreases |c|
  {
    if c == [] then to else MoveChain(Move(to, c[0]), c[1..])
  }

  function MoveAll(to: Chains, from: Chains): (r: Chains)
    requires |to| > 0
    ensures |r| == |to|
    decreases |from|
  {
    if from == [] then to else MoveAll(MoveChain(to, from[0]), from[1..])
  }

  function Rehashed(chains: Chains): (r: Chains)
    requires |chains| > 0
    ensures |r| == if |chains| == 4 then 32 else |chains| * 4
  {
    MoveAll(seq(if |chains| == 4 then 32 else |chains| * 4, _ => []), chains)
  }

  function Flat(cs: Chains): seq<Node> {
    if cs == [] then [] else cs[0] + Flat(cs[1..])
  }

  /** The nodes of `to` and those still to be moved, all different, each of the
      former in its bucket. */
  ghost predicate Partway(to: Chains, pending: seq<Node>) {
    && |to| > 0 && NoDup(pending)
    && (forall j, n :: 0 <= j < |to| && n in to[j] ==> n !in pending && Bucket(n.key, |to|) == j)
    && (forall j :: 0 <= j < |to| ==> NoDup(to[j]))
  }

  lemma PartwayMove(to: Chains, n: Node, rest: seq<Node>)
    requires Partway(to, [n] + rest)
    ensures Partway(Move(to, n), rest)
    ensures forall j, x :: 0 <= j < |to| && x in Move(to, n)[j] ==> x in to[j] || x == n
    ensures forall j, x :: 0 <= j < |to| && x in to[j] ==> x in Move(to, n)[j]
    ensures n in Move(to, n)[Bucket(n.key, |to|)] && n !in rest
  {
    hide Bucket;
    var p := [n] + rest;
    forall i, j | 0 <= i < j < |rest| ensures rest[i] != rest[j] {
      assert p[i + 1] == rest[i] && p[j + 1] == rest[j];
    }
    forall i | 0 <= i < |rest| ensures rest[i] != n {
      assert p[0] == n && p[i + 1] == rest[i];
    }
    assert n in p;
    forall x | x in rest ensures x in p {
      var i :| 0 <= i < |rest| && rest[i] == x;
      assert p[i + 1] == x;
    }
    var j := Bucket(n.key, |to|);
    NoDupJoin([n], to[j]);
  }

  lemma {:induction false} MoveChainKeeps(to: Chains, c: seq<Node>, rest: seq<Node>)
    requires |to| > 0 && Partway(to, c + rest)
    ensures Partway(MoveChain(to, c), rest)
    ensures forall j, x :: 0 <= j < |to| && x in MoveChain(to, c)[j] ==> x in to[j] || x in c
    ensures forall j, x :: 0 <= j < |to| && x in to[j] ==> x in MoveChain(to, c)[j]
    ensures forall x :: x in c ==> x in MoveChain(to, c)[Bucket(x.key, |to|)]
    decreases |c|
  {
    hide Bucket, Partway, Move;
    if c == [] {
      assert c + rest == rest;
    } else {
      assert c + rest == [c[0]] + (c[1..] + rest);
      PartwayMove(to, c[0], c[1..] + rest);
      MoveChainKeeps(Move(to, c[0]), c[1..], rest);
      assert c == [c[0]] + c[1..];
    }
  }

  lemma {:induction false} MoveAllKeeps(to: Chains, from: Chains)
    requires |to| > 0 && Partway(to, Flat(from))
    ensures Partway(MoveAll(to, from), [])
    ensures forall j, x :: 0 <= j < |to| && x in MoveAll(to, from)[j] ==> x in to[j] || x in Flat(from)
    ensures forall j, x :: 0 <= j < |to| && x in to[j] ==> x in MoveAll(to, from)[j]
    ensures forall x :: x in Flat(from) ==> x in MoveAll(to, from)[Bucket(x.key, |to|)]
    decreases |from|
  {
    hide Bucket, Partway, MoveChain;
    if from != [] {
      MoveChainKeeps(to, from[0], Flat(from[1..]));
      MoveAllKeeps(MoveChain(to, from[0]), from[1..]);
    }
  }

  lemma {:induction false} InFlat(cs: Chains, i: nat, n: Node)
    requires i < |cs| && n in cs[i]
    ensures n in Flat(cs)
  {
    if i > 0 {
      assert cs[1..][i - 1] == cs[i];
      InFlat(cs[1..], i - 1, n);
    }
  }

  lemma {:induction false} FromFlat(cs: Chains, n: Node) returns (i: nat)
    requires n in Flat(cs)
    ensures i < |cs| && n in cs[i]
  {
    if n in cs[0] {
      i := 0;
    } else {
      i := FromFlat(cs[1..], n);
      i := i + 1;
    }
  }

  /** Chains without duplicates, apart from one another. */
  ghost predicate Separate(cs: Chains) {
    && (forall i :: 0 <= i < |cs| ==> NoDup(cs[i]))
    && (forall i, j, n :: 0 <= i < j < |cs| && n in cs[i] ==> n !in cs[j])
  }

  lemma {:induction false} FlatNoDup(cs: Chains)
    requires Separate(cs)
    ensures NoDup(Flat(cs))
  {
    if cs != [] {
      var rest := cs[1..];
      forall i, j, n | 0 <= i < j < |rest| && n in rest[i] ensures n !in rest[j] {
        assert rest[i] == cs[i + 1] && rest[j] == cs[j + 1];
      }
      FlatNoDup(rest);
      forall n | n in Flat(rest) ensures n !in cs[0] {
        var i := FromFlat(rest, n);
        assert rest[i] == cs[i + 1];
      }
      NoDupJoin(cs[0], Flat(rest));
    }
  }

  lemma NoDupJoin(a: seq<Node>, b: seq<Node>)
    requires NoDup(a) && NoDup(b) && forall n :: n in a ==> n !in b
    ensures NoDup(a + b)
  {
    forall i, j | 0 <= i < j < |a + b| ensures (a + b)[i] != (a + b)[j] {
      if i < |a| <= j { assert a[i] in a && b[j - |a|] in b; }
    }
  }

  lemma PlacedSeparate(chains: Chains, slots: map<Word, Node>)
    requires Placed(chains, slots)
    ensures Separate(chains)
  {
    hide Bucket, NoDup;
    forall i, j, n: Node | 0 <= i < j < |chains| && n in chains[i] ensures n !in chains[j] {
      assert Bucket(n.key, |chains|) == i;
    }
  }

  /** Rehashing loses, duplicates and adds no node, and puts each into its
      bucket. */
  lemma RehashedPlaced(chains: Chains, slots: map<Word, Node>)
    requires Placed(chains, slots)
    ensures Placed(Rehashed(chains), slots)
  {
    hide Bucket, MoveAll, Flat, Separate, NoDup;
    var len := if |chains| == 4 then 32 else |chains| * 4;
    var empty: Chains := seq(len, _ => []);
    PlacedSeparate(chains, slots);
    FlatNoDup(chains);
    PartwayStarts(empty, Flat(chains));
    MoveAllKeeps(empty, chains);
    var r := Rehashed(chains);
    forall j: int, n: Node | 0 <= j < |r| && n in r[j] ensures n.key in slots && slots[n.key] == n {
      var i := FromFlat(chains, n);
    }
    forall k | k in slots ensures slots[k] in r[Bucket(k, |r|)] {
      InFlat(chains, Bucket(k, |chains|), slots[k]);
    }
  }

  lemma PartwayStarts(empty: Chains, pending: seq<Node>)
    requires |empty| > 0 && (forall i :: 0 <= i < |empty| ==> empty[i] == []) && NoDup(pending)
    ensures Partway(empty, pending)
  {
  }
}

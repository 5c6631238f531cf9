/** The front end's associative array: an array of buckets, each a list of nodes
    linked through `next`, relinked in place when the array grows. */
module AssociativeArrays {
  import opened BucketChains

  /** The list that starts at `first` is c. */
  ghost predicate List(first: Node?, c: seq<Node>)
    reads c
  {
    && (c == [] ==> first == null)
    && (c != [] ==> first == c[0] && c[|c| - 1].next == null)
    && forall x :: 0 <= x < |c| - 1 ==> c[x].next == c[x + 1]
  }

  /** Each bucket is the list of its chain, all of nodes from a given set. */
  ghost predicate Lists(b: seq<Node?>, chains: Chains, all: set<Node>)
    reads all
  {
    && |b| == |chains|
    && (forall i, n :: 0 <= i < |chains| && n in chains[i] ==> n in all)
    && (forall i :: 0 <= i < |b| ==> List(b[i], chains[i]))
  }

  lemma ListTail(first: Node, c: seq<Node>)
    requires List(first, c)
    ensures c != [] && c[0] == first && List(first.next, c[1..])
  {
  }

  class AA {
    var b: array<Node?>
    var nodes: nat
    ghost var chains: Chains
    ghost var slots: map<Word, Node>      // the node that holds each key's value
    ghost var all: set<Node>

    ghost predicate Linked()
      reads this, b, all
    {
      && |chains| == b.Length && Placed(chains, slots)
      && PowerOfTwo(b.Length) && b.Length >= 4 && nodes == |slots|
      && Lists(b[..], chains, all) && forall k :: k in slots ==> slots[k] in all
    }

    /** At most two keys for each bucket. */
    ghost predicate Valid()
      reads this, b, all
    {
      Linked() && nodes <= 2 * b.Length
    }

    ghost function Objects(): set<object>
      reads this
    {
      {this, b} + all
    }

    /** The map that the array stands for. */
    ghost function Contents(): (m: map<Word, Word>)
      requires Linked()
      reads this, b, all
      ensures m.Keys == slots.Keys
    {
      map k | k in slots :: slots[k].value
    }

    constructor ()
      ensures Valid() && fresh(b) && slots == map[] && Contents() == map[] && all == {} && b.Length == 4
    {
      b := new Node?[4](_ => null);
      nodes := 0;
      chains := [[], [], [], []];
      slots := map[];
      all := {};
    }

    /** The node of the key, or the last node of its bucket. */
    method Find(key: Word) returns (i: nat, pe: Node?, e: Node?)
      requires Linked()
      ensures i == Bucket(key, b.Length)
      ensures if key in slots then e == slots[key]
              else e == null && pe == if chains[i] == [] then null else chains[i][|chains[i]| - 1]
    {
      hide Bucket, PowerOfTwo;
      i := MaskedHash(key, b.Length);
      pe, e := null, b[i];
      ghost var c := chains[i];
      ghost var j := 0;
      while e != null
        invariant 0 <= j <= |c| && e == (if j < |c| then c[j] else null)
        invariant pe == if j == 0 then null else c[j - 1]
        invariant forall x :: 0 <= x < j ==> c[x].key != key
        decreases |c| - j
      {
        if key == e.key {
          return;
        }
        pe := e;
        e := e.next;
        j := j + 1;
      }
    }

    /** Append a node for a new key to its bucket. */
    method Append(key: Word, i: nat, pe: Node?) returns (e: Node)
      requires Linked() && key !in slots && i == Bucket(key, b.Length)
      requires pe == if chains[i] == [] then null else chains[i][|chains[i]| - 1]
      modifies this, b, all
      ensures Linked() && fresh(e) && e.key == key && e.value == 0
      ensures b == old(b) && slots == old(slots)[key := e] && all == old(all) + {e} && nodes == old(nodes) + 1
      ensures chains == old(chains)[i := old(chains)[i] + [e]]
      ensures Contents() == old(Contents())[key := 0]
    {
      hide Bucket, PowerOfTwo, Placed, List, Lists;
      e := new Node(key);
      PlacedInsert(chains, slots, e);
      OneMoreSlot(slots, key, e);
      Attach(b, i, pe, e, chains, slots, all);
      nodes := nodes + 1;
      Record(key, i, e);
    }

    /** Keep the ghost state up to date. */
    ghost method Record(key: Word, i: nat, e: Node)
      requires i < |chains|
      modifies this`chains, this`slots, this`all
      ensures chains == old(chains)[i := old(chains)[i] + [e]] && slots == old(slots)[key := e] && all == old(all) + {e}
    {
      chains := chains[i := chains[i] + [e]];
      slots := slots[key := e];
      all := all + {e};
    }

    /** The slot for a key's value, added if it was not there; every other slot
        stays the same object, with the same value in it. The buckets stay, too,
        until there are more than two keys for each. */
    method Get(key: Word) returns (e: Node)
      requires Valid()
      modifies this, b, all
      ensures Valid() && (b == old(b) <==> |slots| <= 2 * old(b.Length))
      ensures b != old(b) ==> fresh(b) && b.Length == if old(b.Length) == 4 then 32 else old(b.Length) * 4
      ensures e.key == key && slots == old(slots)[key := e]
      ensures if key in old(slots) then e == old(slots[key]) else fresh(e) && e.value == 0
      ensures e in all && all == if key in old(slots) then old(all) else old(all) + {e}
      ensures Contents() == if key in old(slots) then old(Contents()) else old(Contents())[key := 0]
    {
      hide Bucket, PowerOfTwo, Placed, Lists, Rehashed;
      var i, pe, found := Find(key);
      if found != null {
        SlotsDiffer(chains, slots);
        return found;
      }
      e := Append(key, i, pe);
      if nodes > b.Length * 2 {
        Rehash();
        assert Contents()[key] == slots[key].value;
      }
    }

    /** Store a value in a slot. */
    method Assign(e: Node, v: Word)
      requires Valid() && e.key in slots && slots[e.key] == e
      modifies e`value
      ensures Valid() && slots == old(slots) && Contents() == old(Contents())[e.key := v]
    {
      hide Bucket, PowerOfTwo, Placed;
      SlotsDiffer(chains, slots);
      e.value := v;
    }

    method GetRvalue(key: Word) returns (v: Word)
      requires Valid()
      ensures v == if key in Contents() then Contents()[key] else 0
    {
      hide Bucket, PowerOfTwo, Placed, Lists;
      var i, pe, e := Find(key);
      return if e != null then e.value else 0;
    }

    method Len() returns (n: nat)
      requires Valid()
      ensures n == |slots|
    {
      return nodes;
    }

    /** More buckets; every node keeps its identity and its value, and moves to
        the front of its new bucket. */
    method Rehash()
      requires Linked()
      modifies this, all
      ensures Linked() && fresh(b) && slots == old(slots) && all == old(all) && nodes == old(nodes)
      ensures b.Length == (if old(b.Length) == 4 then 32 else old(b.Length) * 4)
      ensures chains == Rehashed(old(chains))
      ensures Contents() == old(Contents())
    {
      hide Bucket, PowerOfTwo, Placed, Lists, MoveAll, MoveChain, Rehashed;
      var len := if b.Length == 4 then 32 else b.Length * 4;
      MorePowers(b.Length);
      var newb := Redistribute(len);
      RehashedPlaced(chains, slots);
      chains := Rehashed(chains);
      b := newb;
    }

    /** Relink every node into a new array of buckets. */
    method Redistribute(len: nat) returns (newb: array<Node?>)
      requires Linked() && len == (if b.Length == 4 then 32 else b.Length * 4) && PowerOfTwo(len)
      modifies all
      ensures fresh(newb) && newb.Length == len && Lists(newb[..], Rehashed(chains), all)
      ensures forall k :: k in slots ==> slots[k].value == old(slots[k].value)
    {
      hide Bucket, PowerOfTwo, Placed, List, Lists, MoveAll, MoveChain, Flat, Partway;
      newb := new Node?[len](_ => null);
      ghost var to: Chains := seq(len, _ => []);
      AllPending(chains, slots, to, newb[..], all);
      assert chains[0..] == chains && b[0..] == b[..];
      var k := 0;
      while k < b.Length
        invariant k <= b.Length && |to| == len
        invariant MoveAll(to, chains[k..]) == Rehashed(chains)
        invariant Partway(to, Flat(chains[k..]))
        invariant Lists(newb[..], to, all) && Lists(b[k..], chains[k..], all)
        invariant forall n :: n in all ==> n.value == old(n.value)
      {
        NextChain(to, chains[k..], b[k..], all);
        assert b[k..][1..] == b[k + 1..];
        to := MoveNodes(newb, to, b[k], chains[k], b[k + 1..], chains[k + 1..], all);
        k := k + 1;
      }
      MoveAllSteps(to, chains[k..]);
    }
  }

  // ---------- Through a pointer that may be null ----------

  ghost function Footprint(aa: AA?): set<object>
    reads aa
  {
    if aa == null then {} else aa.Objects()
  }

  ghost predicate Usable(aa: AA?)
    reads aa, Footprint(aa)
  {
    aa != null ==> aa.Valid()
  }

  ghost function ContentsOf(aa: AA?): map<Word, Word>
    requires Usable(aa)
    reads aa, Footprint(aa)
  {
    if aa == null then map[] else aa.Contents()
  }

  method AaLen(aa: AA?) returns (n: nat)
    requires Usable(aa)
    ensures n == |ContentsOf(aa)|
  {
    if aa == null {
      return 0;
    }
    hide AA.Linked;
    n := aa.Len();
    assert |aa.Contents().Keys| == |aa.slots.Keys|;
  }

  /** The slot for a key, and the array, which is made when there is none. */
  method AaGet(paa: AA?, key: Word) returns (aa: AA, e: Node)
    requires Usable(paa)
    modifies Footprint(paa)
    ensures aa.Valid() && (if paa == null then fresh(aa) else aa == paa) && fresh(Footprint(aa) - old(Footprint(paa)))
    ensures key in aa.slots && e == aa.slots[key] && e.key == key && e in aa.all
    ensures if paa == null then aa.b.Length == 4 else aa.b == old(paa.b) <==> |aa.slots| <= 2 * old(paa.b.Length)
    ensures var m := old(ContentsOf(paa)); aa.Contents() == if key in m then m else m[key := 0]
    ensures paa != null ==> forall k :: k in old(paa.slots) ==> k in aa.slots && aa.slots[k] == old(paa.slots[k])
  {
    hide AA.Linked, AA.Contents;
    if paa == null {
      aa := new AA();
    } else {
      aa := paa;
    }
    e := aa.Get(key);
  }

  method AaGetRvalue(aa: AA?, key: Word) returns (v: Word)
    requires Usable(aa)
    ensures v == if key in ContentsOf(aa) then ContentsOf(aa)[key] else 0
  {
    hide AA.Linked, AA.Contents;
    if aa == null {
      return 0;
    }
    v := aa.GetRvalue(key);
  }

  method AaRehash(paa: AA?)
    requires Usable(paa)
    modifies Footprint(paa)
    ensures Usable(paa) && ContentsOf(paa) == old(ContentsOf(paa)) && fresh(Footprint(paa) - old(Footprint(paa)))
    ensures paa != null ==> paa.slots == old(paa.slots)
  {
    hide AA.Linked, AA.Contents;
    if paa != null {
      paa.Rehash();
    }
  }

  // ---------- Runs ----------

  /** Slots are numbered in the order in which Get has handed them out, and may
      be written and read at any later time. */
  datatype Call = Get(key: Word) | Write(slot: nat, value: Word) | Read(slot: nat) | Load(key: Word) | Count | Grow

  /** What callers see: a map, and for each slot handed out the key it is for. */
  datatype View = View(m: map<Word, Word>, keys: seq<Word>)

  function After(s: View, c: Call): View {
    match c
    case Get(k) => View(if k in s.m then s.m else s.m[k := 0], s.keys + [k])
    case Write(j, v) => if j < |s.keys| then s.(m := s.m[s.keys[j] := v]) else s
    case _ => s
  }

  function Answer(s: View, c: Call): seq<nat> {
    match c
    case Read(j) => if j < |s.keys| && s.keys[j] in s.m then [s.m[s.keys[j]]] else []
    case Load(k) => [if k in s.m then s.m[k] else 0]
    case Count => [|s.m|]
    case _ => []
  }

  /** The answers a map would give. */
  function Answers(s: View, calls: seq<Call>): seq<nat>
    decreases |calls|
  {
    if calls == [] then [] else Answer(s, calls[0]) + Answers(After(s, calls[0]), calls[1..])
  }

  /** The slots handed out are still those of their keys. */
  ghost predicate Holds(aa: AA?, held: seq<Node>, s: View)
    reads aa, Footprint(aa)
  {
    && Usable(aa) && ContentsOf(aa) == s.m && |held| == |s.keys|
    && (held != [] ==> aa != null)
    && (aa != null ==> forall j :: 0 <= j < |held| ==> s.keys[j] in aa.slots && aa.slots[s.keys[j]] == held[j])
  }

  method DoGet(paa: AA?, held: seq<Node>, ghost s: View, k: Word) returns (aa: AA?, held': seq<Node>)
    requires Holds(paa, held, s)
    modifies Footprint(paa)
    ensures fresh(Footprint(aa) - old(Footprint(paa))) && Holds(aa, held', After(s, Get(k)))
  {
    hide AA.Linked, AA.Contents;
    ghost var was := if paa == null then map[] else paa.slots;
    var e;
    aa, e := AaGet(paa, k);
    held' := held + [e];
    forall j | 0 <= j < |held| ensures s.keys[j] in aa.slots && aa.slots[s.keys[j]] == held[j] {
      assert s.keys[j] in was;
    }
  }

  method DoWrite(aa: AA?, held: seq<Node>, ghost s: View, j: nat, v: Word)
    requires Holds(aa, held, s)
    modifies Footprint(aa)
    ensures Footprint(aa) == old(Footprint(aa)) && Holds(aa, held, After(s, Write(j, v)))
  {
    hide AA.Linked, AA.Contents;
    if j < |held| {
      HeldSlot(aa, held, s, j);
      aa.Assign(held[j], v);
    }
  }

  lemma HeldSlot(aa: AA?, held: seq<Node>, s: View, j: nat)
    requires Holds(aa, held, s) && j < |held|
    ensures aa != null && aa.Valid() && held[j].key == s.keys[j] && held[j] in aa.all
  {
    hide Placed, Lists, PowerOfTwo;
    assert s.keys[j] in aa.slots;
    SlotsDiffer(aa.chains, aa.slots);
  }

  method DoRead(aa: AA?, held: seq<Node>, ghost s: View, j: nat) returns (out: seq<nat>)
    requires Holds(aa, held, s)
    ensures out == Answer(s, Read(j))
  {
    out := if j < |held| then [held[j].value] else [];
  }

  /** One call on an array. */
  method Do(paa: AA?, held: seq<Node>, ghost s: View, c: Call) returns (aa: AA?, held': seq<Node>, out: seq<nat>)
    requires Holds(paa, held, s)
    modifies Footprint(paa)
    ensures fresh(Footprint(aa) - old(Footprint(paa)))
    ensures Holds(aa, held', After(s, c)) && out == Answer(s, c)
  {
    hide Usable, ContentsOf;
    aa, held', out := paa, held, [];
    match c {
      case Get(k) =>
        aa, held' := DoGet(paa, held, s, k);
      case Write(j, v) =>
        DoWrite(paa, held, s, j, v);
      case Read(j) =>
        out := DoRead(paa, held, s, j);
      case Load(k) =>
        var v := AaGetRvalue(paa, k);
        out := [v];
      case Count =>
        var n := AaLen(paa);
        out := [n];
      case Grow =>
        AaRehash(paa);
    }
  }

  /** Whatever is called, an associative array answers as a map does, and a slot
      once handed out stays the slot of its key, however often the array grows. */
  method RunCalls(calls: seq<Call>) returns (answers: seq<nat>)
    ensures answers == Answers(View(map[], []), calls)
  {
    var aa: AA? := null;
    var held: seq<Node> := [];
    ghost var s := View(map[], []);
    answers := [];
    NothingHeld();
    hide Holds, After, Answer, Usable, ContentsOf, Answers;
    var i := 0;
    while i < |calls|
      invariant i <= |calls| && Holds(aa, held, s) && fresh(Footprint(aa))
      invariant answers + Answers(s, calls[i..]) == Answers(View(map[], []), calls)
    {
      AnswersStep(s, calls, i);
      var out;
      aa, held, out := Do(aa, held, s, calls[i]);
      s := After(s, calls[i]);
      assert answers + (out + Answers(s, calls[i + 1..])) == (answers + out) + Answers(s, calls[i + 1..]);
      answers := answers + out;
      i := i + 1;
    }
    NoMoreAnswers(s);
    assert calls[i..] == [] && answers + [] == answers;
  }

  lemma NothingHeld()
    ensures Holds(null, [], View(map[], []))
  {
    hide AA.Linked, AA.Contents;
    var aa: AA? := null;
    var held: seq<Node>, s := [], View(map[], []);
    assert Usable(aa);
    assert ContentsOf(aa) == s.m;
    assert Holds(aa, held, s);
  }

  lemma AnswersStep(s: View, calls: seq<Call>, i: nat)
    requires i < |calls|
    ensures Answers(s, calls[i..]) == Answer(s, calls[i]) + Answers(After(s, calls[i]), calls[i + 1..])
  {
    assert calls[i..][1..] == calls[i + 1..];
  }

  lemma NoMoreAnswers(s: View)
    ensures Answers(s, []) == []
  {
  }

  /** Link a new node behind the last one of bucket i. */
  method Attach(b: array<Node?>, i: nat, pe: Node?, e: Node, ghost chains: Chains, ghost slots: map<Word, Node>,
      ghost all: set<Node>)
    requires Placed(chains, slots) && Lists(b[..], chains, all) && i < b.Length
    requires e.key !in slots && e.next == null
    requires pe == if chains[i] == [] then null else chains[i][|chains[i]| - 1]
    modifies b, all
    ensures Lists(b[..], chains[i := chains[i] + [e]], all + {e})
    ensures e.value == old(e.value) && forall n :: n in all ==> n.value == old(n.value)
  {
    hide Placed;
    OnlyIn(chains, slots, i);
    NewNode(chains, slots, e);
    if pe == null {
      b[i] := e;
    } else {
      pe.next := e;
    }
    forall x | 0 <= x < |chains| && x != i ensures List(b[x], chains[x]) {
      assert old(List(b[x], chains[x]));
      assert pe != null ==> pe in chains[i] && pe !in chains[x];
    }
    assert List(b[i], chains[i] + [e]);
  }

  lemma SlotsDiffer(chains: Chains, slots: map<Word, Node>)
    requires Placed(chains, slots)
    ensures forall k :: k in slots ==> slots[k].key == k
  {
  }

  lemma OneMoreSlot(slots: map<Word, Node>, key: Word, e: Node)
    requires key !in slots
    ensures |slots[key := e]| == |slots| + 1
  {
    assert slots[key := e].Keys == slots.Keys + {key};
  }

  lemma NewNode(chains: Chains, slots: map<Word, Node>, e: Node)
    requires Placed(chains, slots) && e.key !in slots
    ensures forall i :: 0 <= i < |chains| ==> e !in chains[i]
  {
    hide Bucket;
  }

  /** A node is in one bucket only. */
  lemma OnlyIn(chains: Chains, slots: map<Word, Node>, i: nat)
    requires Placed(chains, slots) && i < |chains|
    ensures forall x, n :: 0 <= x < |chains| && x != i && n in chains[i] ==> n !in chains[x]
    ensures NoDup(chains[i])
  {
    hide Bucket, NoDup;
    PlacedSeparate(chains, slots);
  }

  lemma MorePowers(n: nat)
    requires PowerOfTwo(n) && n >= 4
    ensures PowerOfTwo(32) && PowerOfTwo(n * 4)
  {
    assert PowerOfTwo(2);
    assert PowerOfTwo(4);
    assert PowerOfTwo(8);
    assert PowerOfTwo(16);
    assert n * 2 / 2 == n && PowerOfTwo(n * 2);
    assert n * 4 / 2 == n * 2;
  }

  lemma NextChain(to: Chains, from: Chains, b: seq<Node?>, all: set<Node>)
    requires |to| > 0 && from != [] && Lists(b, from, all)
    ensures MoveAll(to, from) == MoveAll(MoveChain(to, from[0]), from[1..])
    ensures Flat(from) == from[0] + Flat(from[1..])
    ensures List(b[0], from[0]) && Lists(b[1..], from[1..], all) && forall n :: n in from[0] ==> n in all
  {
    hide Flat, MoveAll, MoveChain, List;
    MoveAllSteps(to, from);
  }

  lemma MoveAllSteps(to: Chains, from: Chains)
    requires |to| > 0
    ensures MoveAll(to, from) == if from == [] then to else MoveAll(MoveChain(to, from[0]), from[1..])
    ensures Flat(from) == if from == [] then [] else from[0] + Flat(from[1..])
  {
  }

  lemma AllPending(chains: Chains, slots: map<Word, Node>, to: Chains, newb: seq<Node?>, all: set<Node>)
    requires Placed(chains, slots) && |newb| == |to| > 0 && forall i :: 0 <= i < |to| ==> to[i] == [] && newb[i] == null
    ensures Partway(to, Flat(chains)) && Lists(newb, to, all)
  {
    PlacedSeparate(chains, slots);
    FlatNoDup(chains);
    PartwayStarts(to, Flat(chains));
  }

  /** Move the nodes of one list, from the first on, each to the front of its
      new bucket; the lists of `later` are left alone. */
  method MoveNodes(newb: array<Node?>, ghost to: Chains, first: Node?, ghost c: seq<Node>,
                   ghost b: seq<Node?>, ghost later: Chains, ghost all: set<Node>)
    returns (ghost to': Chains)
    requires PowerOfTwo(newb.Length) && |to| > 0 && Lists(newb[..], to, all) && List(first, c)
      && Partway(to, c + Flat(later))
    requires Lists(b, later, all) && forall n :: n in c ==> n in all
    modifies newb, all
    ensures to' == MoveChain(to, c) && Partway(to', Flat(later))
    ensures Lists(newb[..], to', all) && Lists(b, later, all)
    ensures forall n :: n in all ==> n.value == old(n.value)
  {
    hide Bucket, Flat, MoveChain, Lists, List, Partway, PowerOfTwo;
    to' := to;
    var e := first;
    ghost var rest := c;
    while e != null
      invariant |to'| == |to| && Lists(newb[..], to', all) && Lists(b, later, all) && List(e, rest)
      invariant Partway(to', rest + Flat(later)) && MoveChain(to', rest) == MoveChain(to, c)
      invariant forall n :: n in rest ==> n in c
      invariant forall n :: n in all ==> n.value == old(n.value)
      decreases |rest|
    {
      ListTail(e, rest);
      var enext := e.next;
      MoveNode(newb, to', e, rest, b, later, all);
      MoveChainSteps(to', rest);
      to' := Move(to', e);
      rest := rest[1..];
      e := enext;
    }
    ListEnds(rest);
    MoveChainSteps(to', rest);
    assert [] + Flat(later) == Flat(later);
  }

  /** Put one node in front of its new bucket. */
  method MoveNode(newb: array<Node?>, ghost to: Chains, e: Node, ghost rest: seq<Node>,
                  ghost b: seq<Node?>, ghost later: Chains, ghost all: set<Node>)
    requires PowerOfTwo(newb.Length) && |to| > 0 && Lists(newb[..], to, all) && e in all && List(e, rest) && rest != []
    requires Partway(to, rest + Flat(later)) && Lists(b, later, all) && forall n :: n in rest ==> n in all
    modifies newb, e
    ensures Lists(newb[..], Move(to, e), all) && Lists(b, later, all)
    ensures List(old(e.next), rest[1..]) && Partway(Move(to, e), rest[1..] + Flat(later))
    ensures e.value == old(e.value)
  {
    hide Bucket, NoDup, Flat, PowerOfTwo;
    var j := MaskedHash(e.key, newb.Length);
    ghost var next, tail := e.next, rest[1..];
    ListTail(e, rest);
    Leaving(to, rest, Flat(later));
    e.next := newb[j];
    newb[j] := e;
    assert List(next, tail) by { assert old(List(e.next, rest[1..])); }
    forall x | 0 <= x < |to| ensures List(newb[x], Move(to, e)[x]) {
      assert old(List(newb[x], to[x]));
    }
    forall x | 0 <= x < |later| ensures List(b[x], later[x]) {
      assert old(List(b[x], later[x]));
      if e in later[x] { InFlat(later, x, e); }
    }
  }

  /** The first node to be moved occurs nowhere else. */
  lemma Leaving(to: Chains, rest: seq<Node>, later: seq<Node>)
    requires rest != [] && Partway(to, rest + later)
    ensures Partway(Move(to, rest[0]), rest[1..] + later)
    ensures rest[0] !in rest[1..] && rest[0] !in later && forall x :: 0 <= x < |to| ==> rest[0] !in to[x]
  {
    hide Bucket, Move;
    assert rest + later == [rest[0]] + (rest[1..] + later);
    PartwayMove(to, rest[0], rest[1..] + later);
    assert rest[0] in rest + later;
  }

  lemma MoveChainSteps(to: Chains, c: seq<Node>)
    requires |to| > 0
    ensures MoveChain(to, c) == if c == [] then to else MoveChain(Move(to, c[0]), c[1..])
  {
  }

  lemma ListEnds(c: seq<Node>)
    requires List(null, c)
    ensures c == []
  {
  }
}

/** Frames of nested functions, at compile time and at run time. */
module StaticChains {
  // Some functions get a frame of their own, others share the frame of a
  // function around them. At run time every activation of a function has a
  // static chain, frames are linked through their first field, and context
  // pointers are captured in delegates and in instances of nested classes and
  // structs. The expression that reaches a frame from inside always ends in the
  // frame of the lexically enclosing activation.

  import opened Options

  type Func = nat

  /** What the decision depends on. `parent` is the function that lexically
      encloses this one, through any nested classes and structs in between. */
  datatype Decl = Decl(
    parent: Option<Func>,
    member: bool,          // has the 'this' of an aggregate, not of a function
    closureVars: bool,     // has variables that nested functions refer to
    nestedRefs: bool,      // hasNestedFrameRefs
    contract: bool,        // has an in or out contract that is compiled
    needsClosure: bool)

  type Program = seq<Decl>

  /** Functions come after those they are nested in, and a function whose
      variables are referred to has nested references. */
  predicate WellNested(p: Program) {
    forall f :: 0 <= f < |p| ==>
      && (p[f].parent.Some? ==> p[f].parent.value < f)
      && (p[f].closureVars ==> p[f].nestedRefs)
  }

  datatype FrameInfo = FrameInfo(createsFrame: bool, staticChain: bool, isClosure: bool, frameType: Option<Func>)

  /** A hidden 'this' that is the context pointer of a nested function. */
  predicate HasContext(d: Decl) {
    d.parent.Some? && !d.member
  }

  predicate HasThis(d: Decl) {
    d.parent.Some? || d.member
  }

  /** Before looking outwards: does it want a frame? */
  predicate WantsFrame(d: Decl) {
    d.nestedRefs || HasContext(d) || d.contract || d.needsClosure
  }

  /** The innermost function around f that creates a frame. */
  function Owner(p: Program, f: Func): (o: Option<Func>)
    requires WellNested(p) && f < |p|
    ensures o.Some? ==> o.value < f
    decreases f, 0
  {
    if p[f].parent.None? then None
    else if Info(p, p[f].parent.value).createsFrame then p[f].parent
    else Owner(p, p[f].parent.value)
  }

  /** The frame of f: its own, shared, or none. The frame type is named by the
      function whose variables it holds. */
  function Info(p: Program, f: Func): FrameInfo
    requires WellNested(p) && f < |p|
    decreases f, 1
  {
    if p[f].needsClosure then FrameInfo(true, false, true, Some(f))
    else if p[f].closureVars then FrameInfo(true, false, false, Some(f))
    else
      var o := Owner(p, f);
      if o.Some? then FrameInfo(false, true, Info(p, o.value).isClosure, Info(p, o.value).frameType)
      else if WantsFrame(p[f]) then FrameInfo(true, false, false, Some(f))
      else FrameInfo(false, false, false, None)
  }

  /** f, or a function around it. */
  predicate Around(p: Program, inner: Func, outer: Func)
    requires WellNested(p) && inner < |p|
  {
    inner == outer || (p[inner].parent.Some? && Around(p, p[inner].parent.value, outer))
  }

  /** A function has at most one of a frame and a shared frame, and a frame
      type exactly if it has one of them: its own, or that of its owner, which
      is a closure just when its owner needs one. Whoever has variables for
      nested functions has a frame of its own. */
  lemma {:induction false} InfoShape(p: Program, f: Func)
    requires WellNested(p) && f < |p|
    ensures var i := Info(p, f);
      && !(i.createsFrame && i.staticChain)
      && (i.frameType.Some? <==> i.createsFrame || i.staticChain)
      && (i.createsFrame ==> i.frameType == Some(f))
      && (p[f].closureVars || p[f].needsClosure ==> i.createsFrame)
      && (i.frameType.Some? ==> i.frameType.value < |p| && (i.isClosure <==> p[i.frameType.value].needsClosure))
      && (i.staticChain ==> Owner(p, f).Some? && i.frameType == Owner(p, f) && Info(p, Owner(p, f).value).createsFrame)
    decreases f
  {
    if Owner(p, f).Some? { OwnerCreates(p, f); }
  }

  lemma {:induction false} OwnerCreates(p: Program, f: Func)
    requires WellNested(p) && f < |p| && Owner(p, f).Some?
    ensures Info(p, Owner(p, f).value).createsFrame && Info(p, Owner(p, f).value).frameType == Owner(p, f)
    ensures Around(p, f, Owner(p, f).value)
    ensures Info(p, Owner(p, f).value).isClosure <==> p[Owner(p, f).value].needsClosure
    decreases f
  {
    if !Info(p, p[f].parent.value).createsFrame { OwnerCreates(p, p[f].parent.value); }
  }

  /** Inside a function with a frame or a shared one, every function has one
      too, and one without a frame of its own shares its parent's. */
  lemma {:induction false} FramesInside(p: Program, f: Func)
    requires WellNested(p) && f < |p| && p[f].parent.Some?
    requires Info(p, p[f].parent.value).frameType.Some?
    ensures Info(p, f).frameType.Some?
    ensures !Info(p, f).createsFrame ==> Info(p, f).frameType == Info(p, p[f].parent.value).frameType
  {
    InfoShape(p, f);
    InfoShape(p, p[f].parent.value);
  }

  /** f is, or is somewhere inside, a function that has nested references, a
      compiled contract or a need for a closure, or is entered with a context. */
  ghost predicate InReachOfFrame(p: Program, f: Func)
    requires WellNested(p) && f < |p|
  {
    exists g: Func :: g < |p| && Around(p, f, g) &&
      (p[g].nestedRefs || p[g].contract || p[g].needsClosure || (p[g].parent.Some? && !p[g].member))
  }

  /** f has variables for nested functions or needs a closure, or is the
      outermost function that a frame can be for. */
  ghost predicate OwnFrame(p: Program, f: Func)
    requires WellNested(p) && f < |p|
  {
    || p[f].closureVars || p[f].needsClosure
    || (InReachOfFrame(p, f) && (p[f].parent.None? || !InReachOfFrame(p, p[f].parent.value)))
  }

  /** Which functions have a frame type at all, and which of them a frame of
      their own. */
  lemma {:induction false} HasFrameIff(p: Program, f: Func)
    requires WellNested(p) && f < |p|
    ensures Info(p, f).frameType.Some? <==> InReachOfFrame(p, f)
    ensures Info(p, f).createsFrame <==> OwnFrame(p, f)
    decreases f
  {
    InfoShape(p, f);
    assert Around(p, f, f);
    if p[f].parent.Some? {
      var q := p[f].parent.value;
      HasFrameIff(p, q);
      InfoShape(p, q);
      assert Owner(p, f).Some? <==> Info(p, q).frameType.Some?;
      assert forall g: Func :: Around(p, q, g) ==> Around(p, f, g);
      if InReachOfFrame(p, q) { FramesInside(p, f); }
    }
  }

  // ---------- As the code computes it ----------

  /** Frame descriptions are made on first use and kept. */
  class FrameTable {
    const p: Program
    var info: map<Func, FrameInfo>

    /** All descriptions up to function f are right. */
    ghost predicate RightUpTo(f: int)
      reads this
      requires WellNested(p)
    {
      forall k :: k in info && k <= f ==> k < |p| && info[k] == Info(p, k)
    }

    constructor (p: Program)
      requires WellNested(p)
      ensures this.p == p && info == map[]
    {
      this.p := p;
      info := map[];
    }

    method GetFrameInfo(f: Func) returns (r: FrameInfo)
      requires WellNested(p) && f < |p| && RightUpTo(f)
      modifies this`info
      ensures r == Info(p, f) && RightUpTo(f) && f in info && info[f] == r
      ensures (r.frameType.Some? <==> InReachOfFrame(p, f)) && (r.createsFrame <==> OwnFrame(p, f))
      ensures old(info.Keys) <= info.Keys && forall k :: k in old(info) ==> info[k] == old(info)[k]
      ensures forall k :: k in info && k > f ==> k in old(info)
      decreases f, 1
    {
      HasFrameIff(p, f);
      hide InReachOfFrame, OwnFrame;
      if f in info {
        r := info[f];
        return;
      }
      var d := p[f];
      r := FrameInfo(WantsFrame(d) && !d.needsClosure, false, false, None);
      if d.needsClosure {
        r := r.(createsFrame := true, isClosure := true);
      } else if !d.closureVars {
        // Nested, however deeply, in a function that creates a frame: share it.
        var ff, ffo := SearchOutwards(f);
        if ff.Some? {
          r := FrameInfo(false, true, ffo.isClosure, ffo.frameType);
        }
      }
      if r.createsFrame {
        r := r.(frameType := Some(f));
      }
      info := info[f := r];
    }

    /** The innermost function around f that creates a frame, and its frame. */
    method SearchOutwards(f: Func) returns (ff: Option<Func>, ffo: FrameInfo)
      requires WellNested(p) && f < |p| && RightUpTo(f) && f !in info
      modifies this`info
      ensures ff == Owner(p, f) && (ff.Some? ==> ffo == Info(p, ff.value))
      ensures RightUpTo(f) && f !in info
      ensures old(info.Keys) <= info.Keys && forall k :: k in old(info) ==> info[k] == old(info)[k]
      ensures forall k :: k in info && k > f ==> k in old(info)
      decreases f, 0
    {
      ff, ffo := Some(f), FrameInfo(false, false, false, None);
      while ff.Some?
        invariant ff.Some? ==> ff.value <= f
        invariant RightUpTo(f) && f !in info && old(info.Keys) <= info.Keys
        invariant forall k :: k in old(info) ==> info[k] == old(info)[k]
        invariant forall k :: k in info && k > f ==> k in old(info)
        invariant Owner(p, f) == if ff.None? || (ff.value != f && Info(p, ff.value).createsFrame) then ff
          else Owner(p, ff.value)
        decreases if ff.Some? then ff.value + 1 else 0
      {
        if ff.value != f {
          ffo := GetFrameInfo(ff.value);
          if ffo.createsFrame {
            return;
          }
        }
        // Without a 'this' there is no way further out.
        if !HasThis(p[ff.value]) {
          return None, ffo;
        }
        ff := p[ff.value].parent;
      }
    }
  }

  // ---------- Reaching an outer frame ----------

  datatype Expr = StaticChain | ParentLink(e: Expr)

  /** What the code computes, as a function: start from the static chain and
      follow the link of every frame on the way out. */
  function FrameExpr(p: Program, inner: Func, outer: Func, e: Expr): Expr
    requires WellNested(p) && inner < |p| && Around(p, inner, outer)
  {
    if inner == outer then e
    else FrameExpr(p, p[inner].parent.value, outer, if Info(p, inner).createsFrame then ParentLink(e) else e)
  }

  method GetFrameDecl(t: FrameTable, inner: Func, outer: Func) returns (e: Expr)
    requires WellNested(t.p) && inner < |t.p| && Around(t.p, inner, outer) && t.RightUpTo(|t.p|)
    modifies t`info
    ensures e == FrameExpr(t.p, inner, outer, StaticChain) && t.RightUpTo(|t.p|)
  {
    e := StaticChain;
    var fd: Func := inner;
    while fd != outer
      invariant fd < |t.p| && Around(t.p, fd, outer) && t.RightUpTo(|t.p|)
      invariant FrameExpr(t.p, fd, outer, e) == FrameExpr(t.p, inner, outer, StaticChain)
      decreases fd
    {
      var ffi := t.GetFrameInfo(fd);
      if ffi.createsFrame {
        e := ParentLink(e);
      }
      fd := t.p[fd].parent.value;
    }
  }

  // ---------- At run time ----------

  datatype Ptr =
    | Null
    | This               // the 'this' of an aggregate
    | ToFrame(n: nat)
    | Wild               // read through something that is not a frame

  /** An activation of fn. `outer` is the activation of the enclosing function
      it belongs to: the code does not know it, it only has the static chain. */
  datatype Activation = Activation(fn: Func, outer: Option<nat>, entry: Ptr, chain: Ptr)

  /** A frame or closure made by activation `owner`, laid out for function fn. */
  datatype Frame = Frame(fn: Func, owner: nat, link: Ptr)

  /** A captured context for functions whose parent is `to`. */
  datatype Context = Context(to: Func, act: nat, ptr: Ptr)

  datatype State = State(acts: seq<Activation>, frames: seq<Frame>, contexts: seq<Context>)

  datatype Event =
    | Start(f: Func)                             // call a function that is not nested
    | Capture(act: nat, to: Func, other: Ptr)    // take the context of function `to` from inside
    | Enter(ctx: nat, f: Func)                   // call a nested function with a context

  const Initial := State([], [], [])

  function Value(s: State, chain: Ptr, e: Expr): Ptr {
    match e
    case StaticChain => chain
    case ParentLink(e') =>
      var v := Value(s, chain, e');
      if v.ToFrame? && v.n < |s.frames| then s.frames[v.n].link else Wild
  }

  /** The prologue: a function that creates a frame links it to the chain it
      was entered with, and makes it its own static chain. */
  function Prologue(p: Program, s: State, f: Func, outer: Option<nat>, entry: Ptr): State
    requires WellNested(p) && f < |p|
  {
    if Info(p, f).createsFrame then
      s.(acts := s.acts + [Activation(f, outer, entry, ToFrame(|s.frames|))],
         frames := s.frames + [Frame(f, |s.acts|, entry)])
    else s.(acts := s.acts + [Activation(f, outer, entry, entry)])
  }

  /** An activation of a nested function belongs to an earlier activation of
      the function around. */
  predicate LinkedAt(p: Program, acts: seq<Activation>, a: nat)
    requires a < |acts|
  {
    var x := acts[a];
    && x.fn < |p|
    && (x.outer.Some? <==> p[x.fn].parent.Some?)
    && (x.outer.Some? ==> x.outer.value < a && acts[x.outer.value].fn == p[x.fn].parent.value)
  }

  /** Activations know which they belong to. */
  predicate Linked(p: Program, s: State) {
    && (forall a :: 0 <= a < |s.acts| ==> s.acts[a].fn < |p|)
    && (forall a :: 0 <= a < |s.acts| ==> LinkedAt(p, s.acts, a))
  }

  /** The activation of q that activation a is lexically inside. */
  function Home(p: Program, s: State, a: nat, q: Func): (h: nat)
    requires WellNested(p) && Linked(p, s) && a < |s.acts| && Around(p, s.acts[a].fn, q)
    ensures h <= a && s.acts[h].fn == q
  {
    assert LinkedAt(p, s.acts, a);
    if s.acts[a].fn == q then a else Home(p, s, s.acts[a].outer.value, q)
  }

  /** What is captured from inside activation a for the frame of q: the frame
      pointer, or something else when q has no frame. */
  function Captured(p: Program, s: State, a: nat, q: Func, other: Ptr): Ptr
    requires WellNested(p) && a < |s.acts| && s.acts[a].fn < |p| && Around(p, s.acts[a].fn, q) && q < |p|
  {
    if Info(p, q).createsFrame || Info(p, q).staticChain then
      Value(s, s.acts[a].chain, FrameExpr(p, s.acts[a].fn, q, StaticChain))
    else other
  }

  lemma PrologueLinked(p: Program, s: State, f: Func, outer: Option<nat>, entry: Ptr)
    requires WellNested(p) && Linked(p, s) && f < |p| && (outer.Some? <==> p[f].parent.Some?)
    requires outer.Some? ==> outer.value < |s.acts| && s.acts[outer.value].fn == p[f].parent.value
    ensures Linked(p, Prologue(p, s, f, outer, entry))
  {
    hide Info;
    var r := Prologue(p, s, f, outer, entry);
    forall a | 0 <= a < |r.acts| ensures LinkedAt(p, r.acts, a) {
      if a < |s.acts| { assert LinkedAt(p, s.acts, a) && r.acts[a] == s.acts[a]; }
    }
  }

  /** Events that make no sense change nothing. */
  function Step(p: Program, s: State, e: Event): (r: State)
    requires WellNested(p) && Linked(p, s)
    requires forall c :: 0 <= c < |s.contexts| ==>
      s.contexts[c].act < |s.acts| && s.acts[s.contexts[c].act].fn == s.contexts[c].to
    ensures Linked(p, r)
    ensures forall c :: 0 <= c < |r.contexts| ==>
      r.contexts[c].act < |r.acts| && r.acts[r.contexts[c].act].fn == r.contexts[c].to
  {
    match e
    case Start(f) =>
      if f < |p| && p[f].parent.None? then
        var entry := if p[f].member then This else Null;
        PrologueLinked(p, s, f, None, entry);
        Prologue(p, s, f, None, entry)
      else s
    case Capture(a, q, other) =>
      if q < |p| && a < |s.acts| && Around(p, s.acts[a].fn, q) then
        s.(contexts := s.contexts + [Context(q, Home(p, s, a, q), Captured(p, s, a, q, other))])
      else s
    case Enter(c, f) =>
      if c < |s.contexts| && f < |p| && p[f].parent == Some(s.contexts[c].to) then
        PrologueLinked(p, s, f, Some(s.contexts[c].act), s.contexts[c].ptr);
        Prologue(p, s, f, Some(s.contexts[c].act), s.contexts[c].ptr)
      else s
  }

  function Run(p: Program, t: seq<Event>): (s: State)
    requires WellNested(p)
    ensures Linked(p, s)
    ensures forall c :: 0 <= c < |s.contexts| ==>
      s.contexts[c].act < |s.acts| && s.acts[s.contexts[c].act].fn == s.contexts[c].to
  {
    if t == [] then Initial else Step(p, Run(p, t[..|t| - 1]), t[|t| - 1])
  }

  // ---------- The invariant ----------

  /** An activation entered inside a function with a frame, its own or shared,
      was given that function's static chain; its own frame is linked to it. */
  ghost predicate GoodActivation(p: Program, s: State, a: nat)
    requires WellNested(p) && Linked(p, s) && a < |s.acts|
  {
    var x := s.acts[a];
    assert LinkedAt(p, s.acts, a);
    && (x.outer.Some? && Info(p, p[x.fn].parent.value).frameType.Some? ==> x.entry == s.acts[x.outer.value].chain)
    && (if Info(p, x.fn).createsFrame
        then x.chain.ToFrame? && x.chain.n < |s.frames| && s.frames[x.chain.n] == Frame(x.fn, a, x.entry)
        else x.chain == x.entry)
  }

  ghost predicate Good(p: Program, s: State)
    requires WellNested(p)
  {
    && Linked(p, s)
    && (forall a :: 0 <= a < |s.acts| ==> GoodActivation(p, s, a))
    && (forall n :: 0 <= n < |s.frames| ==>
      s.frames[n].owner < |s.acts| && s.acts[s.frames[n].owner].chain == ToFrame(n))
    && (forall c :: 0 <= c < |s.contexts| ==>
          var x := s.contexts[c];
          && x.to < |p| && x.act < |s.acts| && s.acts[x.act].fn == x.to
          && (Info(p, x.to).frameType.Some? ==> x.ptr == s.acts[x.act].chain))
  }

  lemma {:induction false} AroundHasFrame(p: Program, inner: Func, outer: Func)
    requires WellNested(p) && inner < |p| && Around(p, inner, outer) && outer < |p| && Info(p, outer).frameType.Some?
    ensures Info(p, inner).frameType.Some?
    decreases inner
  {
    if inner != outer {
      AroundHasFrame(p, p[inner].parent.value, outer);
      FramesInside(p, inner);
    }
  }

  /** Walking out from an activation reaches the static chain of the enclosing
      activation of the function walked to. */
  lemma {:induction false} WalkFindsHome(p: Program, s: State, a: nat, q: Func, start: Ptr, e: Expr)
    requires WellNested(p) && Good(p, s) && a < |s.acts| && q < |p| && Around(p, s.acts[a].fn, q)
      && Info(p, q).frameType.Some?
    requires Value(s, start, e) == s.acts[a].chain
    ensures Value(s, start, FrameExpr(p, s.acts[a].fn, q, e)) == s.acts[Home(p, s, a, q)].chain
    decreases a
  {
    hide Info;
    var f := s.acts[a].fn;
    if f != q {
      assert LinkedAt(p, s.acts, a) && GoodActivation(p, s, a);
      AroundHasFrame(p, p[f].parent.value, q);
      WalkFindsHome(p, s, s.acts[a].outer.value, q, start, if Info(p, f).createsFrame then ParentLink(e) else e);
    }
  }

  /** The static chain inside a function with a frame type points to a frame of
      that type, made by the enclosing activation of the function it is for. */
  lemma {:induction false} ChainIsFrame(p: Program, s: State, a: nat)
    requires WellNested(p) && Good(p, s) && a < |s.acts| && Info(p, s.acts[a].fn).frameType.Some?
    ensures var o := Info(p, s.acts[a].fn).frameType.value;
      var ptr := s.acts[a].chain;
      && o < |p| && Around(p, s.acts[a].fn, o)
      && ptr.ToFrame? && ptr.n < |s.frames|
      && s.frames[ptr.n].fn == o && s.frames[ptr.n].owner == Home(p, s, a, o)
    decreases a
  {
    hide Info;
    var f := s.acts[a].fn;
    assert LinkedAt(p, s.acts, a) && GoodActivation(p, s, a);
    InfoShape(p, f);
    if !Info(p, f).createsFrame {
      OwnerCreates(p, f);
      SharesParents(p, f);
      ChainIsFrame(p, s, s.acts[a].outer.value);
    }
  }

  lemma {:induction false} SharesParents(p: Program, f: Func)
    requires WellNested(p) && f < |p| && Info(p, f).staticChain
    ensures p[f].parent.Some? && Info(p, p[f].parent.value).frameType == Info(p, f).frameType
  {
    var q := p[f].parent.value;
    OwnerCreates(p, f);
    InfoShape(p, q);
    if !Info(p, q).createsFrame { assert Owner(p, q).Some?; }
  }

  lemma {:induction false} PrologueKeepsGood(p: Program, s: State, f: Func, outer: Option<nat>, entry: Ptr)
    requires WellNested(p) && Good(p, s) && f < |p| && (outer.Some? <==> p[f].parent.Some?)
    requires outer.Some? ==> outer.value < |s.acts| && s.acts[outer.value].fn == p[f].parent.value
    requires outer.Some? && Info(p, p[f].parent.value).frameType.Some? ==> entry == s.acts[outer.value].chain
    ensures Good(p, Prologue(p, s, f, outer, entry))
  {
    hide Info;
    var s' := Prologue(p, s, f, outer, entry);
    PrologueLinked(p, s, f, outer, entry);
    forall a | 0 <= a < |s'.acts| ensures GoodActivation(p, s', a) {
      if a < |s.acts| { assert LinkedAt(p, s.acts, a) && GoodActivation(p, s, a) && s'.acts[a] == s.acts[a]; }
    }
  }

  lemma {:induction false} StepKeepsGood(p: Program, s: State, e: Event)
    requires WellNested(p) && Good(p, s)
    ensures Good(p, Step(p, s, e))
  {
    hide Info;
    match e
    case Start(f) =>
      if f < |p| && p[f].parent.None? { PrologueKeepsGood(p, s, f, None, if p[f].member then This else Null); }
    case Capture(a, q, other) =>
      if q < |p| && a < |s.acts| && Around(p, s.acts[a].fn, q) {
        CaptureKeepsGood(p, s, a, q, other);
      }
    case Enter(c, f) =>
      if c < |s.contexts| && f < |p| && p[f].parent == Some(s.contexts[c].to) {
        PrologueKeepsGood(p, s, f, Some(s.contexts[c].act), s.contexts[c].ptr);
      }
  }

  lemma {:induction false} CaptureKeepsGood(p: Program, s: State, a: nat, q: Func, other: Ptr)
    requires WellNested(p) && Good(p, s) && q < |p| && a < |s.acts| && Around(p, s.acts[a].fn, q)
    ensures Good(p, Step(p, s, Capture(a, q, other)))
  {
    hide Info;
    var s' := Step(p, s, Capture(a, q, other));
    InfoShape(p, q);
    if Info(p, q).frameType.Some? {
      WalkFindsHome(p, s, a, q, s.acts[a].chain, StaticChain);
    }
    forall a | 0 <= a < |s'.acts| ensures GoodActivation(p, s', a) {
      assert LinkedAt(p, s.acts, a) && GoodActivation(p, s, a);
    }
  }

  lemma {:induction false} RunsAreGood(p: Program, t: seq<Event>)
    requires WellNested(p)
    ensures Good(p, Run(p, t))
  {
    if t != [] {
      RunsAreGood(p, t[..|t| - 1]);
      StepKeepsGood(p, Run(p, t[..|t| - 1]), t[|t| - 1]);
    }
  }

  // ---------- The results ----------

  /** After any run, from inside any activation: the frame expression for an
      outer function with a frame type has the value of a frame of exactly that
      type, and it is the one made by the lexically enclosing activation. */
  lemma {:induction false} FrameExprFindsHome(p: Program, t: seq<Event>, a: nat, q: Func)
    requires WellNested(p) && q < |p| && a < |Run(p, t).acts| && Around(p, Run(p, t).acts[a].fn, q)
    requires Info(p, q).frameType.Some?
    ensures var s := Run(p, t);
      var o := Info(p, q).frameType.value;
      var v := Value(s, s.acts[a].chain, FrameExpr(p, s.acts[a].fn, q, StaticChain));
      && o < |p| && Around(p, q, o) && Around(p, s.acts[a].fn, o)
      && v.ToFrame? && v.n < |s.frames|
      && s.frames[v.n].fn == o
      && s.frames[v.n].owner == Home(p, s, a, o)
  {
    hide Info, Run;
    var s := Run(p, t);
    RunsAreGood(p, t);
    WalkFindsHome(p, s, a, q, s.acts[a].chain, StaticChain);
    var h := Home(p, s, a, q);
    ChainIsFrame(p, s, h);
    HomeOfHome(p, s, a, q, Info(p, q).frameType.value);
  }

  lemma {:induction false} HomeOfHome(p: Program, s: State, a: nat, q: Func, o: Func)
    requires WellNested(p) && Linked(p, s) && a < |s.acts| && q < |p| && Around(p, s.acts[a].fn, q) && Around(p, q, o)
    ensures Around(p, s.acts[a].fn, o) && Home(p, s, a, o) == Home(p, s, Home(p, s, a, q), o)
  {
    assert LinkedAt(p, s.acts, a);
    if s.acts[a].fn != q {
      HomeOfHome(p, s, s.acts[a].outer.value, q, o);
      OutermostIsSmaller(p, q, o);
      OutermostIsSmaller(p, s.acts[a].fn, q);
    }
  }

  lemma {:induction false} OutermostIsSmaller(p: Program, inner: Func, outer: Func)
    requires WellNested(p) && inner < |p| && Around(p, inner, outer)
    ensures outer <= inner
    decreases inner
  {
    if inner != outer { OutermostIsSmaller(p, p[inner].parent.value, outer); }
  }

  /** A variable that nested functions refer to lives in the frame of its own
      function: two accesses, from anywhere, reach the same instance exactly
      when they are inside the same activation of that function. */
  lemma {:induction false} SameInstanceIff(p: Program, t: seq<Event>, a: nat, b: nat, q: Func)
    requires WellNested(p) && q < |p| && p[q].closureVars
    requires a < |Run(p, t).acts| && Around(p, Run(p, t).acts[a].fn, q)
    requires b < |Run(p, t).acts| && Around(p, Run(p, t).acts[b].fn, q)
    ensures var s := Run(p, t);
      Value(s, s.acts[a].chain, FrameExpr(p, s.acts[a].fn, q, StaticChain)) ==
      Value(s, s.acts[b].chain, FrameExpr(p, s.acts[b].fn, q, StaticChain))
      <==> Home(p, s, a, q) == Home(p, s, b, q)
  {
    var s := Run(p, t);
    assert Info(p, q).createsFrame && Info(p, q).frameType == Some(q);
    hide Info, Run;
    RunsAreGood(p, t);
    FrameExprFindsHome(p, t, a, q);
    FrameExprFindsHome(p, t, b, q);
  }
}

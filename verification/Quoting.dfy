/** Targets of make rules, with the characters quoted that mean something to
    make. */
module Quoting {
  predicate Blank(c: char) { c == ' ' || c == '\t' }

  function Backslashes(n: nat): string {
    seq(n, _ => '\\')
  }

  /** One character quoted, after r backslashes. */
  function QuoteChar(c: char, r: nat): string {
    (if Blank(c) then Backslashes(r + 1) else if c == '$' then "$" else if c == '#' then "\\" else "") + [c]
  }

  function NextRun(c: char, r: nat): nat {
    if c == '\\' then r + 1 else 0
  }

  function Quoted(s: string, r: nat): string
    decreases |s|
  {
    if s == "" then "" else QuoteChar(s[0], r) + Quoted(s[1..], NextRun(s[0], r))
  }

  /** Reading a quoted name, after r backslashes: half of those before a quoted
      blank are meant, all but one of those before a number sign, and a dollar
      sign is doubled. */
  function Read(s: string, r: nat): string
    decreases |s|
  {
    if s == "" then Backslashes(r)
    else if s[0] == '\\' then Read(s[1..], r + 1)
    else if Blank(s[0]) then Backslashes(r / 2) + [s[0]] + Read(s[1..], 0)
    else if s[0] == '#' && r > 0 then Backslashes(r - 1) + "#" + Read(s[1..], 0)
    else if s[0] == '$' && |s| >= 2 && s[1] == '$' then Backslashes(r) + "$" + Read(s[2..], 0)
    else Backslashes(r) + [s[0]] + Read(s[1..], 0)
  }

  /** No blank ends the name: an odd number of backslashes is before each. */
  predicate BlanksQuoted(s: string, r: nat)
    decreases |s|
  {
    s == "" ||
    if s[0] == '\\' then BlanksQuoted(s[1..], r + 1)
    else (Blank(s[0]) ==> r % 2 == 1) && BlanksQuoted(s[1..], 0)
  }

  lemma {:induction false} ReadsBackslashes(n: nat, s: string, r: nat)
    ensures Read(Backslashes(n) + s, r) == Read(s, r + n)
    ensures BlanksQuoted(Backslashes(n) + s, r) == BlanksQuoted(s, r + n)
    decreases n
  {
    if n == 0 {
      assert Backslashes(0) + s == s;
    } else {
      assert (Backslashes(n) + s)[1..] == Backslashes(n - 1) + s;
      ReadsBackslashes(n - 1, s, r + 1);
    }
  }

  lemma ReadsChar(c: char, r: nat, q: string)
    ensures Read(QuoteChar(c, r) + q, r) == if c == '\\' then Read(q, r + 1) else Backslashes(r) + [c] + Read(q, 0)
    ensures BlanksQuoted(QuoteChar(c, r) + q, r) == BlanksQuoted(q, NextRun(c, r))
  {
    hide Backslashes;
    assert ([c] + q)[1..] == q;
    if Blank(c) {
      assert QuoteChar(c, r) + q == Backslashes(r + 1) + ([c] + q);
      ReadsBackslashes(r + 1, [c] + q, r);
    } else if c == '$' || c == '#' {
      ReadsEscaped(c, r, q);
    } else {
      assert QuoteChar(c, r) + q == [c] + q;
    }
  }

  lemma ReadsEscaped(c: char, r: nat, q: string)
    requires c == '$' || c == '#'
    ensures Read(QuoteChar(c, r) + q, r) == Backslashes(r) + [c] + Read(q, 0)
    ensures BlanksQuoted(QuoteChar(c, r) + q, r) == BlanksQuoted(q, 0)
  {
    hide Backslashes;
    var t := QuoteChar(c, r) + q;
    assert t[1..] == [c] + q && t[2..] == q && ([c] + q)[1..] == q;
    if c == '#' {
      assert Read(t, r) == Read([c] + q, r + 1);
      assert BlanksQuoted(t, r) == BlanksQuoted([c] + q, r + 1);
    } else {
      assert BlanksQuoted(t, r) == BlanksQuoted([c] + q, 0);
    }
  }

  /** Whatever the target, it can be read back, and its blanks are quoted. */
  lemma {:induction false} QuotedReadsBack(s: string, r: nat)
    ensures Read(Quoted(s, r), r) == Backslashes(r) + s && BlanksQuoted(Quoted(s, r), r)
    decreases |s|
  {
    hide Read, BlanksQuoted, QuoteChar, Backslashes;
    RunAndRest(s, r);
    if s == "" {
      NoText(r);
    } else {
      QuotedReadsBack(s[1..], NextRun(s[0], r));
      ReadsChar(s[0], r, Quoted(s[1..], NextRun(s[0], r)));
    }
  }

  lemma RunAndRest(s: string, r: nat)
    ensures s == "" ==> Backslashes(r) + s == Backslashes(r)
    ensures s != "" ==> Backslashes(r) + s == if s[0] == '\\' then Backslashes(r + 1) + s[1..]
      else Backslashes(r) + [s[0]] + (Backslashes(0) + s[1..])
  {
  }

  lemma NoText(r: nat)
    ensures Read("", r) == Backslashes(r) && BlanksQuoted("", r) && Quoted("", r) == "" && Trailing("") == 0
  {
  }

  /** How many backslashes end s. */
  function Trailing(s: string): (r: nat)
    ensures r <= |s|
  {
    if s != "" && s[|s| - 1] == '\\' then 1 + Trailing(s[..|s| - 1]) else 0
  }

  lemma {:induction false} QuotedAppend(s: string, c: char, r: nat)
    ensures Quoted(s + [c], r) == Quoted(s, r) + QuoteChar(c, if Trailing(s) == |s| then r + |s| else Trailing(s))
    decreases |s|
  {
    hide QuoteChar, Trailing;
    if s == "" {
      assert s + [c] == [c] && [c][1..] == "";
      NoText(r);
      assert Quoted("", NextRun(c, r)) == "" && QuoteChar(c, r) + "" == QuoteChar(c, r)
        && "" + QuoteChar(c, r) == QuoteChar(c, r);
    } else {
      assert (s + [c])[1..] == s[1..] + [c];
      TrailingRest(s);
      QuotedAppend(s[1..], c, NextRun(s[0], r));
    }
  }

  lemma {:induction false} TrailingRest(s: string)
    requires s != ""
    ensures Trailing(s) == if s[0] == '\\' && Trailing(s[1..]) == |s| - 1 then |s| else Trailing(s[1..])
    decreases |s|
  {
    if |s| > 1 && s[|s| - 1] == '\\' {
      assert s[1..][..|s| - 2] == s[..|s| - 1][1..];
      TrailingRest(s[..|s| - 1]);
    }
  }

  /** Add a target to those collected so far. */
  method AddTarget(targets: string, first: bool, target: string, quoted: bool) returns (r: string)
    ensures r == (if first then "" else targets + " ") + (if quoted then Quoted(target, 0) else target)
  {
    hide Quoted, Trailing, Backslashes, QuoteChar, Read, BlanksQuoted;
    r := if first then "" else targets + " ";
    if !quoted {
      r := r + target;
      return;
    }
    ghost var start := r;
    NoText(0);
    assert start + "" == start && target[..0] == "";
    var p := 0;
    while p < |target|
      invariant p <= |target| && r == start + Quoted(target[..p], 0)
    {
      QuotedAppend(target[..p], target[p], 0);
      assert target[..p + 1] == target[..p] + [target[p]];
      ghost var done := Quoted(target[..p], 0);
      var one := WriteChar(target, p);
      r := r + one;
      assert (start + done) + one == start + (done + one);
      p := p + 1;
    }
    assert target[..p] == target;
  }

  /** One character, with what must stand before it. */
  method WriteChar(target: string, p: nat) returns (r: string)
    requires p < |target|
    ensures r == QuoteChar(target[p], Trailing(target[..p]))
  {
    hide Trailing, Backslashes;
    r := "";
    if Blank(target[p]) {
      r := QuoteBlank(target, p);
    } else if target[p] == '$' {
      r := "$";
    } else if target[p] == '#' {
      r := "\\";
    }
    r := r + [target[p]];
  }

  /** The backslashes before a blank: as many as are there already, and one. */
  method QuoteBlank(target: string, p: nat) returns (more: string)
    requires p < |target|
    ensures more == Backslashes(Trailing(target[..p]) + 1)
  {
    more := "";
    var q: int := p - 1;
    while 0 <= q && target[q] == '\\'
      invariant -1 <= q < p && more == Backslashes(p - 1 - q)
      invariant Trailing(target[..p]) == p - 1 - q + Trailing(target[..q + 1])
    {
      assert target[..q + 1][..q] == target[..q];
      more := more + "\\";
      q := q - 1;
    }
    more := more + "\\";
  }
}

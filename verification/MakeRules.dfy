/** What make reads: targets are quoted by the writer of dependencies, names of
    modules are not. */
module MakeRules {
  import opened Options
  import opened Dependencies
  import opened Quoting

  /** All targets so far, as AddTarget collects them. */
  function Joined(targets: seq<string>): string
    decreases |targets|
  {
    if targets == [] then ""
    else Quoted(targets[0], 0) + if |targets| == 1 then "" else " " + Joined(targets[1..])
  }

  lemma {:induction false} JoinedAppend(targets: seq<string>, t: string)
    ensures Joined(targets + [t]) == (if targets == [] then "" else Joined(targets) + " ") + Quoted(t, 0)
    decreases |targets|
  {
    hide Quoted;
    if targets == [] {
      assert Quoted(t, 0) + "" == "" + Quoted(t, 0);
    } else {
      assert (targets + [t])[1..] == targets[1..] + [t];
      JoinedAppend(targets[1..], t);
      var q := Quoted(targets[0], 0);
      if |targets| == 1 {
        assert q + (" " + Quoted(t, 0)) == ((q + "") + " ") + Quoted(t, 0);
      } else {
        var rest := Joined(targets[1..]);
        assert q + (" " + ((rest + " ") + Quoted(t, 0))) == ((q + (" " + rest)) + " ") + Quoted(t, 0);
      }
    }
  }

  // ---------- Reading a list ----------

  function Flush(word: string): seq<string> {
    if word == "" then [] else [word]
  }

  function After(word: string, rest: Option<seq<string>>): Option<seq<string>> {
    if rest.None? then None else Some(Flush(word) + rest.value)
  }

  /** The names make sees in a line, reading on after r backslashes and the part
      of a word before them. Blanks, and newlines behind an odd number of
      backslashes, end a word; half of the backslashes before them are meant,
      and an odd one quotes a blank. A newline that is not continued ends the
      line and a number sign that is not quoted starts a comment. A single
      dollar sign stands for something else: nothing is read then. */
  function Reads(s: string, r: nat, word: string): Option<seq<string>>
    decreases |s|
  {
    if s == "" then Some(Flush(word + Backslashes(r)))
    else if s[0] == '\\' then Reads(s[1..], r + 1, word)
    else if Blank(s[0]) then
      if r % 2 == 1 then Reads(s[1..], 0, word + Backslashes(r / 2) + [s[0]])
      else After(word + Backslashes(r / 2), Reads(s[1..], 0, ""))
    else if s[0] == '\n' then
      if r % 2 == 1 then After(word + Backslashes(r / 2), Reads(s[1..], 0, ""))
      else Some(Flush(word + Backslashes(r)))
    else if s[0] == '#' then
      if r > 0 then Reads(s[1..], 0, word + Backslashes(r - 1) + "#")
      else Some(Flush(word))
    else if s[0] == '$' then
      if |s| >= 2 && s[1] == '$' then Reads(s[2..], 0, word + Backslashes(r) + "$")
      else None
    else Reads(s[1..], 0, word + Backslashes(r) + [s[0]])
  }

  /** The backslashes at the end of s, after r others. */
  function Run(s: string, r: nat): nat
    decreases |s|
  {
    if s == "" then r else Run(s[1..], NextRun(s[0], r))
  }

  lemma {:induction false} RunIsTrailing(s: string, r: nat)
    ensures Run(s, r) == if Trailing(s) == |s| then r + |s| else Trailing(s)
    decreases |s|
  {
    hide Trailing;
    if s == "" {
      NoText(r);
    } else {
      TrailingRest(s);
      RunIsTrailing(s[1..], NextRun(s[0], r));
    }
  }

  /** A quoted name without newlines is taken into the word as it was. */
  lemma {:induction false} ReadsQuoted(t: string, r: nat, word: string, rest: string)
    requires '\n' !in t
    ensures Run(t, r) <= |word + Backslashes(r) + t|
    ensures var all, r' := word + Backslashes(r) + t, Run(t, r);
      all == all[..|all| - r'] + Backslashes(r') &&
      Reads(Quoted(t, r) + rest, r, word) == Reads(rest, r', all[..|all| - r'])
    decreases |t|
  {
    hide Reads, QuoteChar, Backslashes;
    if t == "" {
      assert Quoted(t, r) + rest == rest && word + Backslashes(r) + t == word + Backslashes(r);
      BackslashCount(r);
    } else {
      var c := t[0];
      var q := Quoted(t[1..], NextRun(c, r));
      assert Quoted(t, r) + rest == QuoteChar(c, r) + (q + rest);
      ReadsQuotedChar(c, r, word, q + rest);
      assert c in t && t == [c] + t[1..];
      var word' := if c == '\\' then word else word + Backslashes(r) + [c];
      ReadsQuoted(t[1..], NextRun(c, r), word', rest);
      OneTaken(word, r, t);
    }
  }

  lemma BackslashCount(n: nat)
    ensures |Backslashes(n)| == n && multiset(Backslashes(n)) == multiset{}['\\' := n]
    decreases n
  {
    if n == 0 {
      assert Backslashes(0) == "";
    } else {
      BackslashCount(n - 1);
      assert Backslashes(n) == Backslashes(n - 1) + ['\\'];
    }
  }

  lemma OneTaken(word: string, r: nat, t: string)
    requires t != ""
    ensures var word' := if t[0] == '\\' then word else word + Backslashes(r) + [t[0]];
      word + Backslashes(r) + t == word' + Backslashes(NextRun(t[0], r)) + t[1..]
  {
    assert Backslashes(0) == "";
    assert Backslashes(r + 1) == Backslashes(r) + ['\\'];
    assert t == [t[0]] + t[1..];
  }

  lemma ReadsQuotedChar(c: char, r: nat, word: string, q: string)
    requires c != '\n'
    ensures Reads(QuoteChar(c, r) + q, r, word) == if c == '\\' then Reads(q, r + 1, word)
      else Reads(q, 0, word + Backslashes(r) + [c])
  {
    hide Backslashes;
    var t := QuoteChar(c, r) + q;
    assert ([c] + q)[1..] == q;
    if Blank(c) {
      assert t == Backslashes(r + 1) + ([c] + q);
      TakesBackslashes(r + 1, [c] + q, r, word);
      assert (2 * r + 1) / 2 == r && (2 * r + 1) % 2 == 1;
    } else if c == '$' {
      assert t[1..] == [c] + q && t[2..] == q;
    } else if c == '#' {
      assert t[1..] == [c] + q;
      assert Reads(t, r, word) == Reads([c] + q, r + 1, word);
    } else {
      assert t == [c] + q;
    }
  }

  lemma {:induction false} TakesBackslashes(n: nat, s: string, r: nat, word: string)
    ensures Reads(Backslashes(n) + s, r, word) == Reads(s, r + n, word)
    decreases n
  {
    if n == 0 {
      assert Backslashes(0) + s == s;
    } else {
      assert (Backslashes(n) + s)[1..] == Backslashes(n - 1) + s;
      TakesBackslashes(n - 1, s, r + 1, word);
    }
  }

  /** From the start of a word, a quoted name is taken as it was. */
  lemma ReadsOne(t: string, rest: string)
    requires '\n' !in t
    ensures Trailing(t) <= |t| && t == t[..|t| - Trailing(t)] + Backslashes(Trailing(t))
    ensures Reads(Quoted(t, 0) + rest, 0, "") == Reads(rest, Trailing(t), t[..|t| - Trailing(t)])
  {
    hide Reads;
    ReadsQuoted(t, 0, "", rest);
    RunIsTrailing(t, 0);
    assert "" + Backslashes(0) + t == t;
  }

  // ---------- What is lost in reading ----------

  function Chars(ws: seq<string>): multiset<char>
    decreases |ws|
  {
    if ws == [] then multiset{} else multiset(ws[0]) + Chars(ws[1..])
  }

  /** The backslashes lost at character c after r of them. */
  function Lost(c: char, r: nat): nat {
    if Blank(c) || (c == '\n' && r % 2 == 1) then r - r / 2 else if c == '#' && r > 0 then 1 else 0
  }

  function LostIn(s: string, r: nat): nat
    decreases |s|
  {
    if s == "" then 0 else Lost(s[0], r) + LostIn(s[1..], NextRun(s[0], r))
  }

  /** The lines that are continued in s. */
  function Continued(s: string, r: nat): nat
    decreases |s|
  {
    if s == "" then 0 else (if s[0] == '\n' && r % 2 == 1 then 1 else 0) + Continued(s[1..], NextRun(s[0], r))
  }

  lemma {:induction false} LostAppend(a: string, b: string, r: nat)
    ensures LostIn(a + b, r) == LostIn(a, r) + LostIn(b, Run(a, r))
    ensures Continued(a + b, r) == Continued(a, r) + Continued(b, Run(a, r))
    ensures Run(a + b, r) == Run(b, Run(a, r))
    decreases |a|
  {
    hide Lost;
    if a == "" {
      assert a + b == b;
    } else {
      assert (a + b)[1..] == a[1..] + b;
      LostAppend(a[1..], b, NextRun(a[0], r));
    }
  }

  /** No more is lost than there is, and something wherever a line goes on. */
  lemma {:induction false} LostBounds(s: string, r: nat)
    ensures Continued(s, r) <= LostIn(s, r) <= r + multiset(s)['\\']
    decreases |s|
  {
    if s != "" {
      LostBounds(s[1..], NextRun(s[0], r));
      assert s == [s[0]] + s[1..];
    }
  }

  function Marks(m: multiset<char>): nat {
    m[' '] + m['\t'] + m['#']
  }

  /** What the words read, ws, have of the text: no newlines, no more colons,
      fewer dollar signs, fewer backslashes for every blank and number sign. */
  ghost predicate Spent(s: string, r: nat, word: string, ws: seq<string>) {
    var out, inn, before := Chars(ws), multiset(s), multiset(word);
    && "" !in ws
    && out['\n'] == before['\n']
    && out[':'] <= before[':'] + inn[':']
    && out['$'] + (if inn['$'] > 0 then 1 else 0) <= before['$'] + inn['$']
    && out['\\'] + LostIn(s, r) <= before['\\'] + r + inn['\\']
    && Marks(out) + Continued(s, r) <= Marks(before) + LostIn(s, r)
  }

  lemma CharsFlush(word: string, ws: seq<string>)
    ensures Chars(Flush(word) + ws) == multiset(word) + Chars(ws) && Chars(Flush(word)) == multiset(word)
  {
    if word == "" {
      assert Flush(word) + ws == ws;
    } else {
      assert (Flush(word) + ws)[1..] == ws && Flush(word)[1..] == [];
    }
  }

  /** Reading stops before the end, after `word` and k of the r backslashes. */
  lemma SpentAtStop(s: string, r: nat, word: string, k: nat)
    requires if s == "" then k == r else (s[0] == '\n' && r % 2 == 0 && k == r) || (s[0] == '#' && r == 0 && k == 0)
    ensures Spent(s, r, word, Flush(word + Backslashes(k)))
  {
    hide Backslashes, Chars, LostIn, Continued;
    CharsFlush(word + Backslashes(k), []);
    BackslashCount(k);
    LostBounds(s, r);
    if s == "" {
      NothingLost(r);
    } else {
      LostBounds(s[1..], 0);
      FirstLost(s, r);
    }
  }

  /** One character is taken into the word, with k of the r backslashes before
      it. */
  lemma SpentTaken(s: string, r: nat, word: string, k: nat, ws: seq<string>)
    requires s != "" && s[0] != '\\' && s[0] != '$' && s[0] != '\n' && k + Lost(s[0], r) == r
    requires Blank(s[0]) || s[0] == '#' ==> r > 0
    requires Spent(s[1..], 0, word + Backslashes(k) + [s[0]], ws)
    ensures Spent(s, r, word, ws)
  {
    hide Backslashes, Chars;
    BackslashCount(k);
    FirstLost(s, r);
  }

  /** One character ends the word. */
  lemma SpentEnded(s: string, r: nat, word: string, ws: seq<string>)
    requires s != "" && (Blank(s[0]) || (s[0] == '\n' && r % 2 == 1))
    requires Spent(s[1..], 0, "", ws)
    ensures Spent(s, r, word, Flush(word + Backslashes(r / 2)) + ws)
  {
    hide Backslashes, Chars;
    BackslashCount(r / 2);
    CharsFlush(word + Backslashes(r / 2), ws);
    FirstLost(s, r);
  }

  lemma FirstLost(s: string, r: nat)
    requires s != ""
    ensures multiset(s) == multiset{s[0]} + multiset(s[1..])
    ensures LostIn(s, r) == Lost(s[0], r) + LostIn(s[1..], NextRun(s[0], r))
    ensures Continued(s, r) == (if s[0] == '\n' && r % 2 == 1 then 1 else 0) + Continued(s[1..], NextRun(s[0], r))
  {
    assert s == [s[0]] + s[1..];
  }

  lemma SpentBackslash(s: string, r: nat, word: string, ws: seq<string>)
    requires s != "" && s[0] == '\\' && Spent(s[1..], r + 1, word, ws)
    ensures Spent(s, r, word, ws)
  {
    assert s == [s[0]] + s[1..];
  }

  lemma SpentDollars(s: string, r: nat, word: string, ws: seq<string>)
    requires |s| >= 2 && s[0] == s[1] == '$' && Spent(s[2..], 0, word + Backslashes(r) + "$", ws)
    ensures Spent(s, r, word, ws)
  {
    hide Backslashes, Chars;
    BackslashCount(r);
    FirstLost(s, r);
    FirstLost(s[1..], 0);
    assert s[1..][1..] == s[2..];
  }

  lemma {:induction false} ReadingSpends(s: string, r: nat, word: string)
    requires Reads(s, r, word).Some?
    ensures Spent(s, r, word, Reads(s, r, word).value)
    decreases |s|
  {
    hide Spent, Backslashes, Chars;
    if s == "" {
      SpentAtStop(s, r, word, r);
    } else if s[0] == '\\' {
      ReadingSpends(s[1..], r + 1, word);
      SpentBackslash(s, r, word, Reads(s[1..], r + 1, word).value);
    } else if Blank(s[0]) && r % 2 == 1 {
      var next := word + Backslashes(r / 2) + [s[0]];
      ReadingSpends(s[1..], 0, next);
      SpentTaken(s, r, word, r / 2, Reads(s[1..], 0, next).value);
    } else if Blank(s[0]) || (s[0] == '\n' && r % 2 == 1) {
      ReadingSpends(s[1..], 0, "");
      SpentEnded(s, r, word, Reads(s[1..], 0, "").value);
    } else if s[0] == '\n' {
      SpentAtStop(s, r, word, r);
    } else if s[0] == '#' && r == 0 {
      SpentAtStop(s, r, word, 0);
      NoBackslashes(word);
    } else if s[0] == '$' {
      var next := word + Backslashes(r) + "$";
      ReadingSpends(s[2..], 0, next);
      SpentDollars(s, r, word, Reads(s[2..], 0, next).value);
    } else {
      var k := if s[0] == '#' then r - 1 else r;
      var next := word + Backslashes(k) + [s[0]];
      ReadingSpends(s[1..], 0, next);
      SpentTaken(s, r, word, k, Reads(s[1..], 0, next).value);
    }
  }

  lemma NoBackslashes(word: string)
    ensures word + Backslashes(0) == word
  {
  }

  // ---------- Lists of targets ----------

  /** Names that can stand in a list: not empty, on one line, and none but the
      last with a backslash at its end. */
  predicate Listable(ts: seq<string>) {
    && (forall i :: 0 <= i < |ts| ==> ts[i] != "" && '\n' !in ts[i])
    && (forall i :: 0 <= i < |ts| - 1 ==> Trailing(ts[i]) == 0)
  }

  lemma {:induction false} ReadsJoined(ts: seq<string>)
    requires Listable(ts)
    ensures Reads(Joined(ts), 0, "") == Some(ts)
    decreases |ts|
  {
    hide Reads, Trailing, Quoted, Backslashes;
    if ts == [] {
      ReadsNothing("", 0);
      NoBackslashes("");
    } else {
      var t := ts[0];
      var rest := if |ts| == 1 then "" else " " + Joined(ts[1..]);
      ReadsOne(t, rest);
      if |ts| == 1 {
        ReadsNothing(t[..|t| - Trailing(t)], Trailing(t));
        assert ts == [t];
      } else {
        NoBackslashes(t);
        SpaceEnds(t, Joined(ts[1..]));
        ReadsJoined(ts[1..]);
        assert t[..|t| - 0] == t && ts == [t] + ts[1..];
      }
    }
  }

  lemma ReadsNothing(word: string, r: nat)
    ensures Reads("", r, word) == Some(Flush(word + Backslashes(r)))
  {
  }

  lemma SpaceEnds(word: string, s: string)
    ensures Reads(" " + s, 0, word) == After(word, Reads(s, 0, ""))
  {
    assert (" " + s)[1..] == s;
    NoBackslashes(word);
  }

  /** At least the backslashes that quote, and those of them at the ends of
      targets that are taken for quotes. */
  lemma {:induction false} QuotesLost(s: string, r: nat)
    ensures LostIn(Quoted(s, r), r) + multiset(s)['\\'] >= multiset(Quoted(s, r))['\\']
      && Run(Quoted(s, r), r) == Run(s, r)
    decreases |s|
  {
    hide QuoteChar, LostIn, Run;
    if s == "" {
      NothingLost(r);
    } else {
      var q := Quoted(s[1..], NextRun(s[0], r));
      QuotesLost(s[1..], NextRun(s[0], r));
      QuoteLost(s[0], r);
      LostAppend(QuoteChar(s[0], r), q, r);
      RunStarts(s, r);
      assert s == [s[0]] + s[1..];
      assert Quoted(s, r) == QuoteChar(s[0], r) + q;
    }
  }

  lemma NothingLost(r: nat)
    ensures LostIn("", r) == 0 && Run("", r) == r
  {
  }

  lemma RunStarts(s: string, r: nat)
    requires s != ""
    ensures Run(s, r) == Run(s[1..], NextRun(s[0], r))
  {
  }

  lemma QuoteLost(c: char, r: nat)
    ensures var q := QuoteChar(c, r);
      LostIn(q, r) + (if c == '\\' then 1 else 0) >= multiset(q)['\\'] && Run(q, r) == NextRun(c, r)
  {
    hide Backslashes;
    var q := QuoteChar(c, r);
    OneLost(c, r);
    if Blank(c) {
      BlankLost(c, r);
    } else if c == '$' {
      assert q[1..] == [c];
      OneLost(c, 0);
    } else if c == '#' {
      assert q[1..] == [c];
      OneLost(c, r + 1);
    } else {
      assert q == [c];
    }
  }

  lemma BlankLost(c: char, r: nat)
    requires Blank(c)
    ensures LostIn(QuoteChar(c, r), r) == r + 1 == multiset(QuoteChar(c, r))['\\'] && Run(QuoteChar(c, r), r) == 0
  {
    hide Backslashes, LostIn, Run;
    BackslashCount(r + 1);
    BackslashesKept(r + 1, r);
    LostAppend(Backslashes(r + 1), [c], r);
    OneLost(c, r + (r + 1));
  }

  lemma OneLost(c: char, r: nat)
    ensures LostIn([c], r) == Lost(c, r) && Run([c], r) == NextRun(c, r)
  {
    assert [c][1..] == "";
  }

  lemma {:induction false} BackslashesKept(n: nat, r: nat)
    ensures LostIn(Backslashes(n), r) == 0 && Run(Backslashes(n), r) == r + n
    decreases n
  {
    if n > 0 {
      assert Backslashes(n)[1..] == Backslashes(n - 1);
      BackslashesKept(n - 1, r + 1);
    }
  }

  /** Backslashes at the ends of all targets but the last. */
  function AtEnds(ts: seq<string>): nat
    decreases |ts|
  {
    if |ts| <= 1 then 0 else Trailing(ts[0]) - Trailing(ts[0]) / 2 + AtEnds(ts[1..])
  }

  lemma {:induction false} EndsLost(ts: seq<string>)
    ensures LostIn(Joined(ts), 0) + Chars(ts)['\\'] >= multiset(Joined(ts))['\\'] + AtEnds(ts)
    decreases |ts|
  {
    hide Quoted, LostIn, Run, Trailing;
    if ts == [] {
      NothingLost(0);
    } else {
      var q := Quoted(ts[0], 0);
      QuotesLost(ts[0], 0);
      RunIsTrailing(ts[0], 0);
      if |ts| == 1 {
        assert Joined(ts) == q && ts[1..] == [];
      } else {
        EndsLost(ts[1..]);
        LostAppend(q, " " + Joined(ts[1..]), 0);
        SpaceLost(Joined(ts[1..]), Trailing(ts[0]));
      }
    }
  }

  lemma SpaceLost(s: string, r: nat)
    ensures LostIn(" " + s, r) == r - r / 2 + LostIn(s, 0) && Continued(" " + s, r) == Continued(s, 0)
  {
    assert (" " + s)[1..] == s;
  }

  lemma {:induction false} NoneAtEnds(ts: seq<string>, i: nat)
    requires AtEnds(ts) == 0 && i < |ts| - 1
    ensures Trailing(ts[i]) == 0
    decreases i
  {
    if i > 0 { NoneAtEnds(ts[1..], i - 1); }
  }

  lemma {:induction false} NoneInChars(ws: seq<string>, c: char, i: nat)
    requires Chars(ws)[c] == 0 && i < |ws|
    ensures c !in ws[i]
    decreases i
  {
    if i > 0 { NoneInChars(ws[1..], c, i - 1); }
  }

  /** Quoted targets are read back as the list they are, exactly if they can
      stand in one: a backslash at the end of a target would quote the blank
      behind it. */
  lemma TargetsReadBackIff(ts: seq<string>)
    ensures Reads(Joined(ts), 0, "") == Some(ts) <==> Listable(ts)
  {
    hide Reads, Joined, LostIn, Chars, Trailing, Continued, AtEnds;
    if Listable(ts) {
      ReadsJoined(ts);
    } else if Reads(Joined(ts), 0, "") == Some(ts) {
      ReadingSpends(Joined(ts), 0, "");
      EndsLost(ts);
      forall i | 0 <= i < |ts| ensures ts[i] != "" && '\n' !in ts[i] {
        assert ts[i] in ts;
        NoneInChars(ts, '\n', i);
      }
      forall i | 0 <= i < |ts| - 1 ensures Trailing(ts[i]) == 0 { NoneAtEnds(ts, i); }
      assert false;
    }
  }

  // ---------- Names in a rule ----------

  /** A name that means the same unquoted. */
  predicate Plain(name: string) {
    name != "" && forall c :: c in name ==> !Blank(c) && c != '#' && c != '$' && c != '\n'
  }

  /** Names that can be listed unquoted on a line: plain, with no backslash at
      the end before another one, and an even number before the line's end. */
  predicate Writable(names: seq<string>) {
    && (forall i :: 0 <= i < |names| ==> Plain(names[i]))
    && (forall i :: 0 <= i < |names| - 1 ==> Trailing(names[i]) == 0)
    && (names != [] ==> Trailing(names[|names| - 1]) % 2 == 0)
  }

  lemma {:induction false} PlainQuoted(name: string, r: nat)
    requires forall c :: c in name ==> !Blank(c) && c != '#' && c != '$'
    ensures Quoted(name, r) == name
    decreases |name|
  {
    if name != "" {
      assert name[0] in name;
      PlainQuoted(name[1..], NextRun(name[0], r));
      assert name == [name[0]] + name[1..];
    }
  }

  lemma {:induction false} ReadsNames(column: nat, names: seq<string>, colmax: nat, before: string)
    requires Writable(names)
    ensures Reads(Names(column, names, colmax) + "\n", 0, before) == Some(Flush(before) + names)
    decreases |names|
  {
    hide Reads, Trailing, Backslashes, Plain, Quoted;
    if names == [] {
      assert Names(column, names, colmax) + "\n" == "\n" && Flush(before) + names == Flush(before);
      LineEnds(before, 0);
      NoBackslashes(before);
    } else {
      var name := names[0];
      var next := Name(column, name, colmax).1;
      var rest := Names(next, names[1..], colmax) + "\n";
      NameStarts(before, column, name, colmax, rest);
      assert Names(column, names, colmax) + "\n" == Name(column, name, colmax).0 + rest;
      ReadsPlain(name, rest);
      assert names == [name] + names[1..];
      if |names| == 1 {
        assert rest == "\n" && names[|names| - 1] == name && Flush(name) == [name];
        LineEnds(name[..|name| - Trailing(name)], Trailing(name));
        assert Reads(rest, Trailing(name), name[..|name| - Trailing(name)]) == Some([name]);
        assert Flush(before) + names == Flush(before) + [name];
      } else {
        assert name[..|name| - 0] == name;
        ReadsNames(next, names[1..], colmax, name);
      }
    }
  }

  lemma ReadsPlain(name: string, rest: string)
    requires Plain(name)
    ensures name != "" && Trailing(name) <= |name|
      && name == name[..|name| - Trailing(name)] + Backslashes(Trailing(name))
    ensures Reads(name + rest, 0, "") == Reads(rest, Trailing(name), name[..|name| - Trailing(name)])
  {
    PlainQuoted(name, 0);
    ReadsOne(name, rest);
  }

  lemma LineEnds(word: string, r: nat)
    ensures Reads("\n", r, word) == if r % 2 == 0 then Some(Flush(word + Backslashes(r)))
      else Some(Flush(word + Backslashes(r / 2)))
  {
    assert "\n"[1..] == "";
    NoBackslashes("");
    assert Flush(word + Backslashes(r / 2)) + [] == Flush(word + Backslashes(r / 2));
  }

  lemma NameStarts(before: string, column: nat, name: string, colmax: nat, rest: string)
    ensures Reads(Name(column, name, colmax).0 + rest, 0, before) == After(before, Reads(name + rest, 0, ""))
  {
    hide Reads, Backslashes;
    var s := name + rest;
    if colmax != 0 && column + |name| > colmax {
      assert (" \\\n " + name) + rest == " " + ("\\\n " + s);
      SpaceEnds(before, "\\\n " + s);
      LineGoesOn(s);
    } else {
      assert (" " + name) + rest == " " + s;
      SpaceEnds(before, s);
    }
  }

  lemma LineGoesOn(s: string)
    ensures Reads("\\\n " + s, 0, "") == Reads(s, 0, "")
  {
    var t := "\\\n " + s;
    assert t[1..] == "\n " + s && t[1..][1..] == " " + s;
    NoBackslashes("");
    assert Reads(t, 0, "") == Reads(t[1..], 1, "");
    SpaceEnds("", s);
    AfterNothing(Reads(s, 0, ""));
  }

  lemma AfterNothing(o: Option<seq<string>>)
    ensures After("", o) == o
  {
    if o.Some? { assert [] + o.value == o.value; }
  }

  // ---------- What is lost in a rule ----------

  /** How many lines are begun for names. */
  function Wraps(column: nat, names: seq<string>, colmax: nat): nat
    decreases |names|
  {
    if names == [] then 0 else
    var wrapped := if colmax != 0 && column + |names[0]| > colmax then 1 else 0;
    wrapped + Wraps(Name(column, names[0], colmax).1, names[1..], colmax)
  }

  /** The backslashes at the ends of names that are taken for quotes, r of them
      at the end of the name before. */
  function Misread(names: seq<string>, r: nat): nat
    decreases |names|
  {
    if names == [] then (if r % 2 == 1 then 1 else 0) else r - r / 2 + Misread(names[1..], Trailing(names[0]))
  }

  lemma {:induction false} RuleChars(column: nat, names: seq<string>, colmax: nat)
    ensures var text := multiset(Names(column, names, colmax) + "\n");
      && text['\\'] == Chars(names)['\\'] + Wraps(column, names, colmax)
      && text['$'] == Chars(names)['$']
    decreases |names|
  {
    if names == [] {
      assert Names(column, names, colmax) + "\n" == "\n";
    } else {
      hide Name;
      var (more, next) := Name(column, names[0], colmax);
      var rest := Names(next, names[1..], colmax) + "\n";
      assert Names(column, names, colmax) + "\n" == more + rest;
      NameChars(column, names[0], colmax);
      RuleChars(next, names[1..], colmax);
    }
  }

  lemma NameChars(column: nat, name: string, colmax: nat)
    ensures var more, wrapped := multiset(Name(column, name, colmax).0), colmax != 0 && column + |name| > colmax;
      && more['\\'] == multiset(name)['\\'] + (if wrapped then 1 else 0)
      && more['$'] == multiset(name)['$']
  {
    assert multiset(" \\\n ")['\\'] == 1 && multiset(" \\\n ")['$'] == 0;
  }

  lemma {:induction false} RuleLost(column: nat, names: seq<string>, colmax: nat, r: nat)
    ensures var text := Names(column, names, colmax) + "\n";
      && LostIn(text, r) >= Wraps(column, names, colmax) + Misread(names, r)
      && Continued(text, r) >= Wraps(column, names, colmax)
    decreases |names|
  {
    hide LostIn, Continued, Trailing;
    if names == [] {
      assert Names(column, names, colmax) + "\n" == "\n";
      EndLost(r);
    } else {
      var (more, next) := Name(column, names[0], colmax);
      var rest := Names(next, names[1..], colmax) + "\n";
      assert Names(column, names, colmax) + "\n" == more + rest;
      RuleLost(next, names[1..], colmax, Trailing(names[0]));
      NameLost(column, names[0], colmax, rest, r);
    }
  }

  lemma NameLost(column: nat, name: string, colmax: nat, rest: string, r: nat)
    ensures var text, wrapped := Name(column, name, colmax).0 + rest, colmax != 0 && column + |name| > colmax;
      && LostIn(text, r) >= r - r / 2 + (if wrapped then 1 else 0) + LostIn(rest, Trailing(name))
      && Continued(text, r) >= (if wrapped then 1 else 0) + Continued(rest, Trailing(name))
  {
    hide LostIn, Continued, Trailing, Run;
    LostAppend(name, rest, 0);
    RunIsTrailing(name, 0);
    if colmax != 0 && column + |name| > colmax {
      var s := " " + (name + rest);
      assert Name(column, name, colmax).0 + rest == " " + ("\\\n" + s);
      SpaceLost("\\\n" + s, r);
      WrapLost(s);
      SpaceLost(name + rest, 0);
    } else {
      assert Name(column, name, colmax).0 + rest == " " + (name + rest);
      SpaceLost(name + rest, r);
    }
  }

  lemma EndLost(r: nat)
    ensures LostIn("\n", r) >= if r % 2 == 1 then 1 else 0
  {
    assert "\n"[1..] == "";
  }

  lemma WrapLost(s: string)
    ensures LostIn("\\\n" + s, 0) == 1 + LostIn(s, 0) && Continued("\\\n" + s, 0) == 1 + Continued(s, 0)
  {
    var t := "\\\n" + s;
    assert t[1..] == "\n" + s && t[1..][1..] == s;
  }

  lemma {:induction false} NoneMisread(names: seq<string>, r: nat, i: nat)
    requires Misread(names, r) == 0 && i < |names|
    ensures if i < |names| - 1 then Trailing(names[i]) == 0 else Trailing(names[i]) % 2 == 0
    decreases i
  {
    hide Trailing;
    if i > 0 {
      NoneMisread(names[1..], Trailing(names[0]), i - 1);
    } else if |names| > 1 {
      assert names[1..] != [];
    } else {
      assert names[1..] == [];
    }
  }

  /** The rule lists the names, as make reads it, exactly if they mean the same
      unquoted and their ends are no quotes: unlike targets, names of modules
      are written as they are. */
  lemma NamesReadBackIff(column: nat, names: seq<string>, colmax: nat)
    ensures Reads(Names(column, names, colmax) + "\n", 0, "") == Some(names) <==> Writable(names)
  {
    hide Reads, Names, LostIn, Chars, Trailing, Continued, Misread, Plain;
    var text := Names(column, names, colmax) + "\n";
    if Writable(names) {
      ReadsNames(column, names, colmax, "");
      assert Flush("") + names == names;
    } else if Reads(text, 0, "") == Some(names) {
      ReadingSpends(text, 0, "");
      RuleChars(column, names, colmax);
      RuleLost(column, names, colmax, 0);
      forall i | 0 <= i < |names| ensures Plain(names[i]) { PlainName(names, i); }
      forall i | 0 <= i < |names|
        ensures if i < |names| - 1 then Trailing(names[i]) == 0 else Trailing(names[i]) % 2 == 0
      {
        NoneMisread(names, 0, i);
      }
      assert false;
    }
  }

  lemma PlainName(names: seq<string>, i: nat)
    requires i < |names| && "" !in names && Marks(Chars(names)) == 0 && Chars(names)['\n'] == 0
      && Chars(names)['$'] == 0
    ensures Plain(names[i])
  {
    assert names[i] in names;
    NoneInChars(names, ' ', i);
    NoneInChars(names, '\t', i);
    NoneInChars(names, '#', i);
    NoneInChars(names, '\n', i);
    NoneInChars(names, '$', i);
  }

  /** A blank makes two names of one, what is behind a number sign is lost, a
      dollar sign stands for something else. */
  lemma NamesMisread()
    ensures Reads(Names(0, ["a b"], 0) + "\n", 0, "") == Some(["a", "b"])
    ensures Reads(Names(0, ["a#b"], 0) + "\n", 0, "") == Some(["a"])
    ensures Reads(Names(0, ["a$b"], 0) + "\n", 0, "") == None
  {
    hide Reads;
    forall c: char ensures Reads(Names(0, [['a', c, 'b']], 0) + "\n", 0, "") == Reads([c] + "b\n", 0, "a") {
      OneNameStarts(['a', c, 'b']);
      PlainLetter('a');
      ReadsPlain("a", [c] + "b\n");
      assert ['a', c, 'b'] + "\n" == "a" + ([c] + "b\n");
      assert "a"[..1] == "a";
    }
    assert ['a', ' ', 'b'] == "a b" && ['a', '#', 'b'] == "a#b" && ['a', '$', 'b'] == "a$b";
    SpaceEnds("a", "b\n");
    ReadsB();
    assert Flush("a") + ["b"] == ["a", "b"];
    SpecialStops();
  }

  lemma OneNameStarts(name: string)
    ensures Reads(Names(0, [name], 0) + "\n", 0, "") == Reads(name + "\n", 0, "")
  {
    hide Reads;
    assert [name][1..] == [] && (" " + name + "") + "\n" == " " + (name + "\n");
    assert Names(0, [name], 0) == " " + name + "";
    SpaceEnds("", name + "\n");
    AfterNothing(Reads(name + "\n", 0, ""));
  }

  lemma PlainLetter(c: char)
    requires c in "ab"
    ensures Plain([c]) && Trailing([c]) == 0
  {
  }

  lemma ReadsB()
    ensures Reads("b\n", 0, "") == Some(["b"])
  {
    hide Reads;
    PlainLetter('b');
    ReadsPlain("b", "\n");
    assert "b"[..1] == "b" && "b" + "\n" == "b\n";
    LineEnds("b", 0);
    NoBackslashes("b");
  }

  lemma SpecialStops()
    ensures Reads("#b\n", 0, "a") == Some(["a"]) && Reads("$b\n", 0, "a") == None
    ensures ['#'] + "b\n" == "#b\n" && ['$'] + "b\n" == "$b\n" && [' '] + "b\n" == " " + "b\n"
  {
  }

  /** The targets "a\\" and "b", each quoted, are read as one with a blank. */
  lemma TargetsMisread()
    ensures Reads(Joined(["a\\", "b"]), 0, "") == Some(["a b"])
  {
    hide Reads, Quoted;
    var rest := " " + "b";
    assert ["a\\", "b"][1..] == ["b"] && ["b"][1..] == [];
    PlainQuoted("a\\", 0);
    PlainQuoted("b", 0);
    assert Joined(["b"]) == "b" + "";
    assert Joined(["a\\", "b"]) == "a\\" + rest;
    assert "a\\"[..1] == "a" && Trailing("a") == 0 && Trailing("a\\") == 1;
    ReadsOne("a\\", rest);
    BlankTaken();
  }

  lemma BlankTaken()
    ensures Reads(" " + "b", 1, "a") == Some(["a b"])
  {
    var s := " " + "b";
    assert s[1..] == "b" && "b"[1..] == "";
    NoBackslashes("a");
    assert "a" + Backslashes(0) + [s[0]] == "a ";
    assert Reads(s, 1, "a") == Reads("b", 0, "a ");
    NoBackslashes("a b");
    assert "a " + Backslashes(0) + ['b'] == "a b";
    assert Reads("b", 0, "a ") == Reads("", 0, "a b");
  }

  // ---------- The whole rule ----------

  /** Quote targets one after the other, as options name them. */
  method AddTargets(targets: seq<string>) returns (text: string)
    ensures text == Joined(targets)
    ensures Reads(text, 0, "") == Some(targets) <==> Listable(targets)
  {
    hide Reads, Quoted, Joined, Listable;
    text := "";
    NoTargets();
    var i := 0;
    while i < |targets|
      invariant i <= |targets| && text == Joined(targets[..i])
    {
      JoinedAppend(targets[..i], targets[i]);
      assert targets[..i + 1] == targets[..i] + [targets[i]];
      text := AddTarget(text, i == 0, targets[i], true);
      assert "" + Quoted(targets[i], 0) == Quoted(targets[i], 0);
      i := i + 1;
    }
    assert targets[..i] == targets;
    TargetsReadBackIff(targets);
  }

  lemma NoTargets()
    ensures Joined([]) == ""
  {
  }

  /** The first colon of s, or its end. */
  function Colon(s: string): (i: nat)
    ensures i <= |s| && (i < |s| ==> s[i] == ':') && forall k :: 0 <= k < i ==> s[k] != ':'
  {
    if s == "" || s[0] == ':' then 0 else 1 + Colon(s[1..])
  }

  datatype Rule = Rule(targets: seq<string>, prerequisites: seq<string>)

  /** The first rule of a text: targets, a colon and prerequisites, up to the end
      of the line; what is behind that is not read. */
  function FirstRule(s: string): Option<Rule> {
    var i := Colon(s);
    if i == |s| then None else
    var targets, names := Reads(s[..i], 0, ""), Reads(s[i + 1..], 0, "");
    if targets.None? || names.None? then None else Some(Rule(targets.value, names.value))
  }

  /** What is behind a line that ends is not read, nor is an empty line behind
      one that is continued. */
  lemma {:induction false} RestUnread(s: string, r: nat, word: string, rest: string)
    requires rest == "" || rest[0] == '\n'
    ensures Reads(s + "\n" + rest, r, word) == Reads(s + "\n", r, word)
    decreases |s|, 1
  {
    hide Backslashes;
    var t, u := s + "\n" + rest, s + "\n";
    if s == "" {
      assert t[0] == '\n' && t[1..] == rest && u == "\n" && u[1..] == "";
      LineEnds(word, r);
      EmptyLine(rest);
    } else {
      assert t[0] == s[0] && u[0] == s[0] && t[1..] == s[1..] + "\n" + rest && u[1..] == s[1..] + "\n";
      if s[0] == '$' {
        DollarUnread(s, r, word, rest);
      } else {
        RestAfter(s[1..], rest, r, word, s[0]);
      }
    }
  }

  lemma EmptyLine(rest: string)
    requires rest == "" || rest[0] == '\n'
    ensures Reads(rest, 0, "") == Some([])
  {
    NoBackslashes("");
  }

  lemma {:induction false} RestAfter(s: string, rest: string, r: nat, word: string, c: char)
    requires rest == "" || rest[0] == '\n'
    ensures Reads(s + "\n" + rest, r + 1, word) == Reads(s + "\n", r + 1, word)
    ensures Reads(s + "\n" + rest, 0, "") == Reads(s + "\n", 0, "")
    ensures forall w :: Reads(s + "\n" + rest, 0, w) == Reads(s + "\n", 0, w)
    decreases |s|, 2
  {
    hide Reads;
    RestUnread(s, r + 1, word, rest);
    forall w ensures Reads(s + "\n" + rest, 0, w) == Reads(s + "\n", 0, w) { RestUnread(s, 0, w, rest); }
  }

  lemma {:induction false} DollarUnread(s: string, r: nat, word: string, rest: string)
    requires s != "" && s[0] == '$' && (rest == "" || rest[0] == '\n')
    ensures Reads(s + "\n" + rest, r, word) == Reads(s + "\n", r, word)
    decreases |s|, 0
  {
    hide Backslashes;
    var t, u := s + "\n" + rest, s + "\n";
    if |s| >= 2 && s[1] == '$' {
      assert t[2..] == s[2..] + "\n" + rest && u[2..] == s[2..] + "\n";
      RestUnread(s[2..], 0, word + Backslashes(r) + "$", rest);
    }
  }

  /** Quoting adds no colons. */
  lemma {:induction false} QuotedColons(s: string, r: nat)
    ensures multiset(Quoted(s, r))[':'] == multiset(s)[':']
    decreases |s|
  {
    hide QuoteChar;
    if s != "" {
      QuotedColons(s[1..], NextRun(s[0], r));
      CharColons(s[0], r);
      assert s == [s[0]] + s[1..];
      assert Quoted(s, r) == QuoteChar(s[0], r) + Quoted(s[1..], NextRun(s[0], r));
    }
  }

  lemma CharColons(c: char, r: nat)
    ensures multiset(QuoteChar(c, r))[':'] == if c == ':' then 1 else 0
  {
    hide Backslashes;
    BackslashCount(r + 1);
  }

  lemma {:induction false} JoinedColons(targets: seq<string>)
    ensures multiset(Joined(targets))[':'] == Chars(targets)[':']
    decreases |targets|
  {
    hide Quoted;
    if targets != [] {
      QuotedColons(targets[0], 0);
      if |targets| == 1 {
        assert targets[1..] == [] && Joined(targets) == Quoted(targets[0], 0) + "";
      } else {
        JoinedColons(targets[1..]);
      }
    }
  }

  lemma {:induction false} ColonAfter(a: string, b: string)
    ensures ':' !in a ==> Colon(a + ":" + b) == |a|
    ensures ':' in a ==> Colon(a + ":" + b) < |a|
  {
    var s := a + ":" + b;
    var i := Colon(s);
    assert s[|a|] == ':' && forall k :: 0 <= k < |a| ==> s[k] == a[k];
    if ':' in a {
      var k :| 0 <= k < |a| && a[k] == ':';
      assert s[k] == ':';
    }
  }

  lemma {:induction false} NoColons(targets: seq<string>, i: nat)
    requires ':' !in Joined(targets) && i < |targets|
    ensures ':' !in targets[i]
  {
    hide Joined, Chars;
    JoinedColons(targets);
    NoneInChars(targets, ':', i);
  }

  lemma {:induction false} AllNoColons(targets: seq<string>)
    requires forall i :: 0 <= i < |targets| ==> ':' !in targets[i]
    ensures Chars(targets)[':'] == 0
    decreases |targets|
  {
    if targets != [] { AllNoColons(targets[1..]); }
  }

  /** Targets that can stand in a list, without colons, and names that mean the
      same unquoted. */
  predicate Clear(rule: Rule) {
    && Listable(rule.targets) && Writable(rule.prerequisites)
    && forall i :: 0 <= i < |rule.targets| ==> ':' !in rule.targets[i]
  }

  /** The rule as a whole reads back as its targets and names, whatever follows
      on other lines, exactly if it is clear. */
  lemma RuleReadsBackIff(targets: seq<string>, column: nat, names: seq<string>, colmax: nat, rest: string)
    requires rest == "" || rest[0] == '\n'
    ensures var text := Joined(targets) + ":" + (Names(column, names, colmax) + "\n" + rest);
      FirstRule(text) == Some(Rule(targets, names)) <==> Clear(Rule(targets, names))
  {
    hide Reads, Joined, Names, Listable, Writable, Chars, Colon;
    var a, b := Joined(targets), Names(column, names, colmax) + "\n" + rest;
    var s := a + ":" + b;
    ColonAfter(a, b);
    JoinedColons(targets);
    if ':' in a {
      var i := Colon(s);
      assert multiset(a)[':'] > 0 && s[..i] == a[..i];
      if forall k :: 0 <= k < |targets| ==> ':' !in targets[k] { AllNoColons(targets); }
      assert ':' !in s[..i];
      assert multiset(s[..i])[':'] == 0;
      if FirstRule(s) == Some(Rule(targets, names)) {
        ReadingSpends(s[..i], 0, "");
      }
    } else {
      forall k | 0 <= k < |targets| ensures ':' !in targets[k] { NoColons(targets, k); }
      assert s[..|a|] == a && s[|a| + 1..] == b;
      TargetsReadBackIff(targets);
      NamesReadBackIff(column, names, colmax);
      RestUnread(Names(column, names, colmax), 0, "", rest);
    }
  }

  lemma {:induction false} PhonyApart(g: Graph, ms: seq<nat>)
    ensures PhonyRules(g, ms) == "" || PhonyRules(g, ms)[0] == '\n'
    decreases |ms|
  {
    if ms != [] { PhonyApart(g, ms[1..]); }
  }

  /** The text written for targets that are named by options: its first rule
      reads back if and only if nothing in it needs quoting that is not quoted. */
  method WriteRule(g: Graph, root: nat, targets: seq<string>, colmax: nat, skipSystem: bool, phony: bool)
    returns (buffer: string, written: seq<nat>)
    requires root < |g| && targets != []
    ensures forall i :: 0 <= i < |written| ==> written[i] < |g|
    ensures var rule := Rule(targets, Files(g, written)); FirstRule(buffer) == Some(rule) <==> Clear(rule)
  {
    hide FirstRule, Joined, Reads, Names, PhonyRules, Files, Clear, Listable, Reachable, DistinctFiles, Layout, Filled,
      AllNames;
    var target := AddTargets(targets);
    buffer, written := DepsWrite(g, root, target, colmax, skipSystem, phony);
    PhonyApart(g, written);
    var rest := if phony then PhonyRules(g, written) else "";
    RuleReadsBackIff(targets, |target| + 1, Files(g, written), colmax, rest);
    assert buffer == target + ":" + (Names(|target| + 1, Files(g, written), colmax) + "\n" + rest);
  }
}

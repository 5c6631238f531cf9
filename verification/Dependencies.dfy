/** The writer of make dependencies: a search of the import graph with a
    worklist, and the text of the rule. */
module Dependencies {
  import opened Options

  /** A module: its source file, what it imports, and what the filters ask. */
  datatype Module = Module(file: string, imports: seq<nat>, isRoot: bool, ident: string, topLevel: bool,
    package: Option<string>)

  /** All modules; they refer to one another by index. */
  type Graph = g: seq<Module> | forall i, k :: 0 <= i < |g| && 0 <= k < |g[i].imports| ==> g[i].imports[k] < |g|
    witness []

  /** Compiler-generated modules are left out, and on request the system's. */
  predicate Ignored(m: Module, skipSystem: bool) {
    || (m.ident == "__entrypoint" && m.topLevel)
    || (skipSystem && ((m.ident == "object" && m.topLevel)
      || (m.package.Some? && m.package.value in {"core", "std", "gcc"})))
  }

  /** m imports n, and n is not ignored. */
  predicate Imports(g: Graph, skipSystem: bool, m: nat, n: nat)
    requires m < |g|
  {
    n in g[m].imports && n < |g| && !Ignored(g[n], skipSystem)
  }

  /** A chain of imports from one module to another. */
  ghost predicate Chain(g: Graph, skipSystem: bool, p: seq<nat>, m: nat, n: nat) {
    && p != [] && p[0] == m && p[|p| - 1] == n
    && (forall i :: 0 <= i < |p| ==> p[i] < |g|)
    && (forall i :: 0 <= i < |p| - 1 ==> Imports(g, skipSystem, p[i], p[i + 1]))
  }

  ghost predicate Reachable(g: Graph, skipSystem: bool, m: nat, n: nat) {
    exists p :: Chain(g, skipSystem, p, m, n)
  }

  /** Different modules within reach have different source files. */
  ghost predicate DistinctFiles(g: Graph, skipSystem: bool, root: nat) {
    forall m: nat, n: nat :: m < |g| && n < |g| ==>
      (Reachable(g, skipSystem, root, m) && Reachable(g, skipSystem, root, n) && g[m].file == g[n].file ==> m == n)
  }

  // ---------- The text ----------

  /** One more name in the rule; column is the length of the current line. */
  function Name(column: nat, name: string, colmax: nat): (string, nat) {
    if colmax != 0 && column + |name| > colmax then (" \\\n " + name, |name| + 1)
    else (" " + name, column + |name| + 1)
  }

  function Names(column: nat, names: seq<string>, colmax: nat): string
    decreases |names|
  {
    if names == [] then ""
    else var (text, next) := Name(column, names[0], colmax); text + Names(next, names[1..], colmax)
  }

  function PhonyRules(g: Graph, ms: seq<nat>): string
    decreases |ms|
  {
    if ms == [] then ""
    else (if ms[0] < |g| && !g[ms[0]].isRoot then "\n" + g[ms[0]].file + ":\n" else "") + PhonyRules(g, ms[1..])
  }

  function Files(g: Graph, ms: seq<nat>): seq<string>
    requires forall i :: 0 <= i < |ms| ==> ms[i] < |g|
    decreases |ms|
  {
    if ms == [] then [] else [g[ms[0]].file] + Files(g, ms[1..])
  }

  lemma {:induction false} FilesAppend(g: Graph, ms: seq<nat>, m: nat)
    requires m < |g| && forall i :: 0 <= i < |ms| ==> ms[i] < |g|
    ensures Files(g, ms + [m]) == Files(g, ms) + [g[m].file]
    decreases |ms|
  {
    if ms == [] {
      assert [] + [m] == [m];
    } else {
      assert (ms + [m])[1..] == ms[1..] + [m];
      FilesAppend(g, ms[1..], m);
    }
  }

  predicate Subsequence<T(==)>(a: seq<T>, b: seq<T>) {
    a == [] || (b != [] && ((a[0] == b[0] && Subsequence(a[1..], b[1..])) || Subsequence(a, b[1..])))
  }

  function EmptyRules(files: seq<string>): string {
    if files == [] then "" else "\n" + files[0] + ":\n" + EmptyRules(files[1..])
  }

  /** There is an empty rule for each module that is not compiled here, and for
      no other, in the order written. */
  lemma {:induction false} PhonyRulesFor(g: Graph, ms: seq<nat>) returns (others: seq<nat>)
    requires forall i :: 0 <= i < |ms| ==> ms[i] < |g|
    ensures forall i :: 0 <= i < |others| ==> others[i] < |g|
    ensures Subsequence(others, ms) && forall m :: m in others <==> m in ms && m < |g| && !g[m].isRoot
    ensures PhonyRules(g, ms) == EmptyRules(Files(g, others))
    decreases |ms|
  {
    others := [];
    if ms != [] {
      hide Subsequence, PhonyRules, EmptyRules, Files;
      var rest := PhonyRulesFor(g, ms[1..]);
      others := if g[ms[0]].isRoot then rest else [ms[0]] + rest;
      OneMorePhony(g, ms, rest);
    }
  }

  lemma OneMorePhony(g: Graph, ms: seq<nat>, rest: seq<nat>)
    requires ms != [] && ms[0] < |g| && forall i :: 0 <= i < |rest| ==> rest[i] < |g|
    requires Subsequence(rest, ms[1..])
    ensures Subsequence(if g[ms[0]].isRoot then rest else [ms[0]] + rest, ms)
    ensures PhonyRules(g, ms) == (if g[ms[0]].isRoot then "" else "\n" + g[ms[0]].file + ":\n") + PhonyRules(g, ms[1..])
    ensures EmptyRules(Files(g, [ms[0]] + rest)) == "\n" + g[ms[0]].file + ":\n" + EmptyRules(Files(g, rest))
  {
    var one := [ms[0]] + rest;
    assert one[0] == ms[0] && one[1..] == rest;
    assert Files(g, one)[1..] == Files(g, rest);
  }

  lemma {:induction false} PhonyAppend(g: Graph, ms: seq<nat>, m: nat)
    ensures PhonyRules(g, ms + [m]) == PhonyRules(g, ms) + PhonyRules(g, [m])
    decreases |ms|
  {
    if ms == [] {
      assert [] + [m] == [m];
    } else {
      assert (ms + [m])[0] == ms[0] && (ms + [m])[1..] == ms[1..] + [m];
      PhonyAppend(g, ms[1..], m);
    }
  }

  /** The column after the names, and the text with one more. */
  function Column(column: nat, names: seq<string>, colmax: nat): nat
    decreases |names|
  {
    if names == [] then column else Column(Name(column, names[0], colmax).1, names[1..], colmax)
  }

  lemma {:induction false} NamesAppend(column: nat, names: seq<string>, name: string, colmax: nat)
    ensures var c := Column(column, names, colmax);
      && Names(column, names + [name], colmax) == Names(column, names, colmax) + Name(c, name, colmax).0
      && Column(column, names + [name], colmax) == Name(c, name, colmax).1
    decreases |names|
  {
    if names == [] {
      assert [] + [name] == [name] && [name][1..] == [];
      assert Names(column, [name], colmax) == Name(column, name, colmax).0 + "";
    } else {
      assert (names + [name])[0] == names[0] && (names + [name])[1..] == names[1..] + [name];
      NamesAppend(Name(column, names[0], colmax).1, names[1..], name, colmax);
    }
  }

  // ---------- The lines of the text ----------

  /** Names on one line, each behind a blank. */
  function Line(names: seq<string>): string {
    if names == [] then "" else Line(names[..|names| - 1]) + " " + names[|names| - 1]
  }

  /** The text with its names on these lines, the first of which begins with
      something else; a line that goes on ends in a backslash. */
  function Layout(start: string, lines: seq<seq<string>>): string
    requires lines != []
  {
    var n := |lines| - 1;
    if n == 0 then start + Line(lines[0]) else Layout(start, lines[..n]) + " \\\n" + Line(lines[n])
  }

  function AllNames(lines: seq<seq<string>>): seq<string> {
    if lines == [] then [] else AllNames(lines[..|lines| - 1]) + lines[|lines| - 1]
  }

  /** The length of line i, without the backslash. */
  function Width(start: string, lines: seq<seq<string>>, i: nat): nat
    requires i < |lines|
  {
    if i == 0 then |start| + |Line(lines[0])| else |Line(lines[i])|
  }

  /** Only a name that stands alone makes line i longer than the limit and one,
      and it is begun only where its first name would not have fitted. */
  predicate FilledAt(start: string, lines: seq<seq<string>>, colmax: nat, i: nat)
    requires i < |lines|
  {
    && (i > 0 ==> lines[i] != [] && Width(start, lines, i - 1) + |lines[i][0]| > colmax)
    && (colmax > 0 ==> lines[i] == [] || (i > 0 && |lines[i]| == 1) || Width(start, lines, i) <= colmax + 1)
  }

  ghost predicate Filled(start: string, lines: seq<seq<string>>, colmax: nat) {
    && lines != [] && (colmax == 0 ==> |lines| == 1)
    && forall i :: 0 <= i < |lines| ==> FilledAt(start, lines, colmax, i)
  }

  /** The names are written on lines filled in this way, and the column is the
      length of the last of them. */
  lemma {:induction false} NamesWrapped(start: string, names: seq<string>, colmax: nat)
    returns (lines: seq<seq<string>>)
    ensures Filled(start, lines, colmax) && AllNames(lines) == names
    ensures start + Names(|start|, names, colmax) == Layout(start, lines)
    ensures Column(|start|, names, colmax) == Width(start, lines, |lines| - 1)
    decreases |names|
  {
    hide Filled, Layout, AllNames, Names, Column, Width;
    if names == [] {
      lines := [[]];
      NothingWritten(start, colmax);
    } else {
      var n := |names| - 1;
      var name := names[n];
      var text, c := Names(|start|, names[..n], colmax), Column(|start|, names[..n], colmax);
      lines := NamesWrapped(start, names[..n], colmax);
      NamesAppend(|start|, names[..n], name, colmax);
      assert names == names[..n] + [name];
      assert start + (text + Name(c, name, colmax).0) == (start + text) + Name(c, name, colmax).0;
      if colmax != 0 && c + |name| > colmax {
        lines := NewLine(start, lines, name, colmax);
      } else {
        lines := LongerLine(start, lines, name, colmax);
      }
    }
  }

  lemma NothingWritten(start: string, colmax: nat)
    ensures Filled(start, [[]], colmax) && AllNames([[]]) == []
    ensures start + Names(|start|, [], colmax) == Layout(start, [[]])
    ensures Column(|start|, [], colmax) == Width(start, [[]], 0)
  {
    var lines: seq<seq<string>> := [[]];
    assert lines[..0] == [] && AllNames([]) == [] && Line([]) == "";
  }

  lemma NewLine(start: string, lines: seq<seq<string>>, name: string, colmax: nat) returns (r: seq<seq<string>>)
    requires Filled(start, lines, colmax) && colmax > 0 && Width(start, lines, |lines| - 1) + |name| > colmax
    ensures Filled(start, r, colmax) && AllNames(r) == AllNames(lines) + [name]
    ensures Layout(start, r) == Layout(start, lines) + (" \\\n " + name)
    ensures Width(start, r, |r| - 1) == |name| + 1
  {
    hide Layout, AllNames, Line;
    r := lines + [[name]];
    NewLineText(start, lines, name);
    forall i | 0 <= i < |r| ensures FilledAt(start, r, colmax, i) {
      if i < |lines| { assert r[i] == lines[i] && FilledAt(start, lines, colmax, i); }
    }
  }

  lemma NewLineText(start: string, lines: seq<seq<string>>, name: string)
    requires lines != []
    ensures var r := lines + [[name]];
      && AllNames(r) == AllNames(lines) + [name]
      && Layout(start, r) == Layout(start, lines) + (" \\\n " + name)
      && Line([name]) == " " + name
  {
    hide AllNames, Line;
    var r := lines + [[name]];
    assert r[..|lines|] == lines;
    LineAppend([], name);
    AllNamesLast(r);
    assert [] + [name] == [name] && "" + (" " + name) == " " + name;
    var before := Layout(start, lines);
    assert before + " \\\n" + (" " + name) == before + (" \\\n " + name);
  }

  lemma LongerLine(start: string, lines: seq<seq<string>>, name: string, colmax: nat) returns (r: seq<seq<string>>)
    requires Filled(start, lines, colmax) && (colmax == 0 || Width(start, lines, |lines| - 1) + |name| <= colmax)
    ensures Filled(start, r, colmax) && AllNames(r) == AllNames(lines) + [name]
    ensures Layout(start, r) == Layout(start, lines) + (" " + name)
    ensures Width(start, r, |r| - 1) == Width(start, lines, |lines| - 1) + |name| + 1
  {
    hide Layout, AllNames, Line;
    var m := |lines| - 1;
    r := lines[..m] + [lines[m] + [name]];
    LongerLineText(start, lines, name);
    forall i | 0 <= i < |r| ensures FilledAt(start, r, colmax, i) {
      assert FilledAt(start, lines, colmax, i);
      if i < m { assert r[i] == lines[i]; }
    }
  }

  lemma LongerLineText(start: string, lines: seq<seq<string>>, name: string)
    requires lines != []
    ensures var m := |lines| - 1;
      var r := lines[..m] + [lines[m] + [name]];
      && AllNames(r) == AllNames(lines) + [name]
      && Layout(start, r) == Layout(start, lines) + (" " + name)
      && Line(r[m]) == Line(lines[m]) + (" " + name)
  {
    hide AllNames, Line;
    var m, more := |lines| - 1, " " + name;
    var r := lines[..m] + [lines[m] + [name]];
    assert r[..m] == lines[..m];
    LineAppend(lines[m], name);
    AllNamesLast(r);
    AllNamesLast(lines);
    assert AllNames(lines[..m]) + (lines[m] + [name]) == AllNames(lines[..m]) + lines[m] + [name];
    var before := if m == 0 then start else Layout(start, lines[..m]) + " \\\n";
    assert before + (Line(lines[m]) + more) == (before + Line(lines[m])) + more;
  }

  lemma AllNamesLast(lines: seq<seq<string>>)
    requires lines != []
    ensures AllNames(lines) == AllNames(lines[..|lines| - 1]) + lines[|lines| - 1]
  {
  }

  lemma LineAppend(names: seq<string>, name: string)
    ensures Line(names + [name]) == Line(names) + (" " + name) && Line([]) == ""
  {
    assert (names + [name])[..|names|] == names;
  }

  /** How many characters there are behind the last newline. */
  function LastLine(text: string): nat {
    if text == "" || text[|text| - 1] == '\n' then 0 else LastLine(text[..|text| - 1]) + 1
  }

  lemma {:induction false} LastLineAppend(text: string, more: string)
    requires '\n' !in more
    ensures LastLine(text + more) == LastLine(text) + |more|
    decreases |more|
  {
    if more == "" {
      assert text + more == text;
    } else {
      var n := |more| - 1;
      LastLineAppend(text, more[..n]);
      assert (text + more)[..|text + more| - 1] == text + more[..n];
    }
  }

  lemma {:induction false} LineHasNoNewline(names: seq<string>)
    requires forall k :: 0 <= k < |names| ==> '\n' !in names[k]
    ensures '\n' !in Line(names)
  {
    if names != [] { LineHasNoNewline(names[..|names| - 1]); }
  }

  /** The widths are those of the lines in the text. */
  lemma {:induction false} WidthOfText(start: string, lines: seq<seq<string>>)
    requires lines != [] && '\n' !in start
    requires forall i, k :: 0 <= i < |lines| && 0 <= k < |lines[i]| ==> '\n' !in lines[i][k]
    ensures LastLine(Layout(start, lines)) == Width(start, lines, |lines| - 1)
  {
    var n := |lines| - 1;
    LineHasNoNewline(lines[n]);
    if n == 0 {
      LastLineAppend("", start + Line(lines[0]));
      assert "" + (start + Line(lines[0])) == start + Line(lines[0]);
    } else {
      var before := Layout(start, lines[..n]) + " \\\n";
      LastLineAppend(before, Line(lines[n]));
      assert before[|before| - 1] == '\n';
    }
  }

  /** While there are no newlines in names, the column is the number of
      characters behind the last newline. */
  lemma ColumnOfText(start: string, names: seq<string>, colmax: nat)
    requires '\n' !in start && forall k :: 0 <= k < |names| ==> '\n' !in names[k]
    ensures Column(|start|, names, colmax) == LastLine(start + Names(|start|, names, colmax))
  {
    var lines := NamesWrapped(start, names, colmax);
    forall i, k | 0 <= i < |lines| && 0 <= k < |lines[i]| ensures '\n' !in lines[i][k] { NameAmong(lines, i, k); }
    WidthOfText(start, lines);
  }

  lemma {:induction false} NameAmong(lines: seq<seq<string>>, i: nat, k: nat)
    requires i < |lines| && k < |lines[i]|
    ensures lines[i][k] in AllNames(lines)
  {
    var n := |lines| - 1;
    if i < n { NameAmong(lines[..n], i, k); }
  }

  // ---------- The search ----------

  /** What has been written or still waits covers whatever is imported. */
  ghost predicate Covers(g: Graph, skipSystem: bool, written: seq<nat>, modlist: seq<nat>, names: set<string>) {
    forall m: nat, n: nat :: m in written && m < |g| && Imports(g, skipSystem, m, n) ==>
      g[n].file in names || n in modlist
  }

  ghost predicate AllReachable(g: Graph, skipSystem: bool, root: nat, ms: seq<nat>) {
    forall m :: m in ms ==> m < |g| && Reachable(g, skipSystem, root, m)
  }

  lemma ReachableStep(g: Graph, skipSystem: bool, root: nat, m: nat, n: nat)
    requires m < |g| && Reachable(g, skipSystem, root, m) && Imports(g, skipSystem, m, n)
    ensures Reachable(g, skipSystem, root, n)
  {
    var p :| Chain(g, skipSystem, p, root, m);
    assert Chain(g, skipSystem, p + [n], root, n);
  }

  lemma ReachableSelf(g: Graph, skipSystem: bool, root: nat)
    requires root < |g|
    ensures Reachable(g, skipSystem, root, root)
  {
    assert Chain(g, skipSystem, [root], root, root);
  }

  /** When nothing waits, whatever is reachable has been written. */
  lemma {:induction false} ChainWritten(g: Graph, skipSystem: bool, root: nat, n: nat, p: seq<nat>, written: seq<nat>,
      names: set<string>)
    requires DistinctFiles(g, skipSystem, root) && AllReachable(g, skipSystem, root, written)
    requires Covers(g, skipSystem, written, [], names) && root < |g| && root in written
    requires forall name :: name in names ==> exists m :: m in written && m < |g| && g[m].file == name
    requires Chain(g, skipSystem, p, root, n)
    ensures n in written
    decreases |p|
  {
    var k := |p| - 1;
    if k > 0 {
      var m := p[k - 1];
      assert Chain(g, skipSystem, p[..k], root, m);
      ChainWritten(g, skipSystem, root, m, p[..k], written, names);
      assert Imports(g, skipSystem, m, p[k]);
      assert g[n].file in names;
      ReachableStep(g, skipSystem, root, m, n);
    }
  }

  /** All source files of a program. */
  function AllFiles(g: Graph): set<string> {
    set i | 0 <= i < |g| :: g[i].file
  }

  /** The imports that are searched. */
  function Kept(g: Graph, skipSystem: bool, imports: seq<nat>): (r: seq<nat>)
    requires forall k :: 0 <= k < |imports| ==> imports[k] < |g|
    ensures forall n :: n in r <==> n in imports && !Ignored(g[n], skipSystem)
    decreases |imports|
  {
    if imports == [] then []
    else (if Ignored(g[imports[0]], skipSystem) then [] else [imports[0]]) + Kept(g, skipSystem, imports[1..])
  }

  lemma {:induction false} KeptAppend(g: Graph, skipSystem: bool, imports: seq<nat>, n: nat)
    requires n < |g| && forall k :: 0 <= k < |imports| ==> imports[k] < |g|
    ensures Kept(g, skipSystem, imports + [n]) == Kept(g, skipSystem, imports)
      + if Ignored(g[n], skipSystem) then [] else [n]
    decreases |imports|
  {
    if imports == [] {
      assert [] + [n] == [n] && [n][1..] == [];
    } else {
      assert (imports + [n])[0] == imports[0] && (imports + [n])[1..] == imports[1..] + [n];
      KeptAppend(g, skipSystem, imports[1..], n);
    }
  }

  /** The search so far: `written` modules, and those that wait. */
  ghost predicate Searching(g: Graph, skipSystem: bool, root: nat, written: seq<nat>, modlist: seq<nat>,
      names: set<string>) {
    && AllReachable(g, skipSystem, root, modlist) && AllReachable(g, skipSystem, root, written)
    && root < |g| && (root in modlist || g[root].file in names)
    && (forall i, j :: 0 <= i < j < |written| && written[i] < |g| && written[j] < |g| ==>
      g[written[i]].file != g[written[j]].file)
    && (forall m :: m in written && m < |g| ==> g[m].file in names)
    && (forall name :: name in names ==> exists m :: m in written && m < |g| && g[m].file == name)
    && Covers(g, skipSystem, written, modlist, names)
  }

  lemma SearchStarts(g: Graph, skipSystem: bool, root: nat)
    requires root < |g|
    ensures Searching(g, skipSystem, root, [], [root], {})
  {
    ReachableSelf(g, skipSystem, root);
  }

  /** A module whose file has been written can be skipped. */
  lemma SearchSkips(g: Graph, skipSystem: bool, root: nat, written: seq<nat>, modlist: seq<nat>, names: set<string>,
      m: nat)
    requires Searching(g, skipSystem, root, written, modlist + [m], names) && m < |g| && g[m].file in names
    ensures Searching(g, skipSystem, root, written, modlist, names)
  {
    hide Reachable, Imports;
    assert forall x :: x in modlist ==> x in modlist + [m];
    assert forall x :: x in modlist + [m] ==> x in modlist || x == m;
  }

  /** A module is written, and its imports wait. */
  lemma SearchWrites(g: Graph, skipSystem: bool, root: nat, written: seq<nat>, modlist: seq<nat>, names: set<string>,
      m: nat)
    requires Searching(g, skipSystem, root, written, modlist + [m], names) && m < |g| && g[m].file !in names
    ensures Searching(g, skipSystem, root, written + [m], modlist + Kept(g, skipSystem, g[m].imports),
      names + {g[m].file})
  {
    hide Reachable, Ignored, Imports, Kept;
    var more := Kept(g, skipSystem, g[m].imports);
    var list, now := modlist + more, names + {g[m].file};
    LastWaits(modlist, m);
    assert Covers(g, skipSystem, written + [m], list, now) by { CoversMore(g, skipSystem, written, modlist, names, m); }
    KeptReachable(g, skipSystem, root, m);
    assert AllReachable(g, skipSystem, root, list) && AllReachable(g, skipSystem, root, written + [m]);
    forall name | name in now ensures exists x :: x in written + [m] && x < |g| && g[x].file == name {
      if name in names {
        var x :| x in written && x < |g| && g[x].file == name;
        assert x in written + [m];
      } else {
        assert m in written + [m];
      }
    }
  }

  lemma LastWaits(modlist: seq<nat>, m: nat)
    ensures forall x: nat :: x in modlist + [m] <==> x in modlist || x == m
  {
    assert m in modlist + [m];
  }

  lemma KeptReachable(g: Graph, skipSystem: bool, root: nat, m: nat)
    requires m < |g| && Reachable(g, skipSystem, root, m)
    ensures AllReachable(g, skipSystem, root, Kept(g, skipSystem, g[m].imports))
  {
    hide Reachable, Ignored;
    forall n | n in Kept(g, skipSystem, g[m].imports) ensures n < |g| && Reachable(g, skipSystem, root, n) {
      ReachableStep(g, skipSystem, root, m, n);
    }
  }

  lemma CoversMore(g: Graph, skipSystem: bool, written: seq<nat>, modlist: seq<nat>, names: set<string>, m: nat)
    requires m < |g| && Covers(g, skipSystem, written, modlist + [m], names)
    ensures Covers(g, skipSystem, written + [m], modlist + Kept(g, skipSystem, g[m].imports), names + {g[m].file})
  {
    hide Ignored;
    LastWaits(modlist, m);
    LastWaits(written, m);
  }

  /** When nothing waits, the search is complete. */
  lemma SearchEnds(g: Graph, skipSystem: bool, root: nat, written: seq<nat>, names: set<string>)
    requires Searching(g, skipSystem, root, written, [], names) && DistinctFiles(g, skipSystem, root)
    ensures forall n: nat :: Reachable(g, skipSystem, root, n) ==> n in written
  {
    hide Imports, DistinctFiles, Covers;
    assert root in written by {
      var m :| m in written && m < |g| && g[m].file == g[root].file;
      ReachableSelf(g, skipSystem, root);
      SameModule(g, skipSystem, root, m, root);
    }
    forall n: nat | Reachable(g, skipSystem, root, n) ensures n in written {
      var p :| Chain(g, skipSystem, p, root, n);
      ChainWritten(g, skipSystem, root, n, p, written, names);
    }
  }

  /** Of two modules with one source file only one can be written. */
  lemma NotComplete(g: Graph, skipSystem: bool, root: nat, written: seq<nat>)
    requires !DistinctFiles(g, skipSystem, root) && forall i :: 0 <= i < |written| ==> written[i] < |g|
    requires forall i, j :: 0 <= i < j < |written| ==> g[written[i]].file != g[written[j]].file
    ensures exists m: nat :: Reachable(g, skipSystem, root, m) && m !in written
  {
    hide Reachable;
    var m: nat, n: nat :| m < |g| && n < |g| && Reachable(g, skipSystem, root, m) && Reachable(g, skipSystem, root, n)
      && g[m].file == g[n].file && m != n;
    if m in written {
      var i :| 0 <= i < |written| && written[i] == m;
      forall j | 0 <= j < |written| ensures written[j] != n {
        if j < i { assert g[written[j]].file != g[written[i]].file; }
        if i < j { assert g[written[i]].file != g[written[j]].file; }
      }
      assert n !in written;
    }
  }

  lemma SameModule(g: Graph, skipSystem: bool, root: nat, m: nat, n: nat)
    requires DistinctFiles(g, skipSystem, root) && m < |g| && n < |g| && g[m].file == g[n].file
    requires Reachable(g, skipSystem, root, m) && Reachable(g, skipSystem, root, n)
    ensures m == n
  {
    hide Reachable;
  }

  method PushImports(g: Graph, m: nat, modlist: seq<nat>, skipSystem: bool) returns (r: seq<nat>)
    requires m < |g|
    ensures r == modlist + Kept(g, skipSystem, g[m].imports)
  {
    hide Ignored, Kept;
    var imports := g[m].imports;
    r := modlist;
    assert imports[..0] == [];
    KeptNone(g, skipSystem);
    var i := 0;
    while i < |imports|
      invariant i <= |imports| && r == modlist + Kept(g, skipSystem, imports[..i])
    {
      KeptAppend(g, skipSystem, imports[..i], imports[i]);
      assert imports[..i + 1] == imports[..i] + [imports[i]];
      if !Ignored(g[imports[i]], skipSystem) {
        r := r + [imports[i]];
      }
      i := i + 1;
    }
    assert imports[..i] == imports;
  }

  lemma KeptNone(g: Graph, skipSystem: bool)
    ensures Kept(g, skipSystem, []) == []
  {
  }

  /** Fewer files are left to write. */
  lemma FewerFiles(g: Graph, names: set<string>, m: nat)
    requires m < |g| && g[m].file !in names
    ensures |AllFiles(g) - (names + {g[m].file})| < |AllFiles(g) - names|
  {
    var left := AllFiles(g) - names;
    assert g[m].file in left;
    assert AllFiles(g) - (names + {g[m].file}) == left - {g[m].file};
  }

  /** Write the rule for one module: the modules within reach, each once, and
      itself first. The search ends although imports may be circular. */
  method DepsWrite(g: Graph, root: nat, target: string, colmax: nat, skipSystem: bool, phony: bool)
    returns (buffer: string, written: seq<nat>)
    requires root < |g|
    ensures forall i :: 0 <= i < |written| ==> written[i] < |g|
    ensures written != [] && written[0] == root
    ensures forall i, j :: 0 <= i < j < |written| ==> g[written[i]].file != g[written[j]].file
    ensures forall m :: m in written ==> Reachable(g, skipSystem, root, m)
    ensures (forall m: nat :: Reachable(g, skipSystem, root, m) ==> m in written) <==>
      DistinctFiles(g, skipSystem, root)
    ensures buffer == target + ":" + Names(|target| + 1, Files(g, written), colmax) + "\n"
      + if phony then PhonyRules(g, written) else ""
    ensures exists lines :: (Filled(target + ":", lines, colmax) && AllNames(lines) == Files(g, written)
      && buffer == Layout(target + ":", lines) + "\n" + if phony then PhonyRules(g, written) else "")
  {
    hide Filled, Layout, AllNames, Subsequence, Names, Ignored, Reachable, Name, Searching, DistinctFiles, PhonyRules,
      Files, Column, Kept, AllFiles;
    written := [];
    var modlist: seq<nat> := [root];
    var phonylist: seq<nat> := [];
    var dependencies: set<string> := {};
    var column: nat := |target| + 1;
    buffer := target + ":";
    SearchStarts(g, skipSystem, root);
    TextStarts(g, target, colmax);
    while modlist != []
      invariant Searching(g, skipSystem, root, written, modlist, dependencies)
      invariant forall i :: 0 <= i < |written| ==> written[i] < |g|
      invariant if written == [] then modlist == [root] && dependencies == {} else written[0] == root
      invariant Text(g, target, written, colmax, buffer, column)
      invariant forall i :: 0 <= i < |phonylist| ==> phonylist[i] < |g| && !g[phonylist[i]].isRoot
      invariant PhonyRules(g, phonylist) == if phony then PhonyRules(g, written) else ""
      decreases |AllFiles(g) - dependencies|, |modlist|
    {
      InGraph(g, skipSystem, root, written, modlist, dependencies);
      var n := |modlist| - 1;
      var depmod := modlist[n];
      assert modlist == modlist[..n] + [depmod] && depmod in modlist;
      modlist := modlist[..n];
      var str := g[depmod].file;
      if str in dependencies {
        SearchSkips(g, skipSystem, root, written, modlist, dependencies, depmod);
        continue;
      }
      SearchWrites(g, skipSystem, root, written, modlist, dependencies, depmod);
      FewerFiles(g, dependencies, depmod);
      TextGrows(g, target, written, depmod, colmax, buffer, column);
      PhonyGrows(g, phonylist, written, depmod, phony);
      dependencies := dependencies + {str};
      buffer, column := WriteName(buffer, column, str, colmax);
      if phony && !g[depmod].isRoot {
        phonylist := phonylist + [depmod];
      }
      written := written + [depmod];
      modlist := PushImports(g, depmod, modlist, skipSystem);
    }
    InGraph(g, skipSystem, root, written, modlist, dependencies);
    if DistinctFiles(g, skipSystem, root) {
      SearchEnds(g, skipSystem, root, written, dependencies);
    } else {
      NotComplete(g, skipSystem, root, written);
    }
    ghost var lines := NamesWrapped(target + ":", Files(g, written), colmax);
    buffer := buffer + "\n";
    var rules := WritePhony(g, phonylist);
    buffer := buffer + rules;
  }

  /** Write one name, on a new line if it does not fit. */
  method WriteName(text: string, column: nat, str: string, colmax: nat) returns (buffer: string, column': nat)
    ensures (buffer, column') == (text + Name(column, str, colmax).0, Name(column, str, colmax).1)
  {
    buffer := text;
    column' := column + |str|;
    if colmax != 0 && column' > colmax {
      buffer := buffer + " \\\n ";
      column' := |str| + 1;
    } else {
      buffer := buffer + " ";
      column' := column' + 1;
    }
    buffer := buffer + str;
    assert text + (" \\\n " + str) == text + " \\\n " + str;
    assert text + (" " + str) == text + " " + str;
  }

  /** An empty rule for every module that is not compiled here. */
  method WritePhony(g: Graph, phonylist: seq<nat>) returns (rules: string)
    requires forall i :: 0 <= i < |phonylist| ==> phonylist[i] < |g| && !g[phonylist[i]].isRoot
    ensures rules == PhonyRules(g, phonylist)
  {
    rules := "";
    var i := 0;
    while i < |phonylist|
      invariant i <= |phonylist| && rules == PhonyRules(g, phonylist[..i])
    {
      PhonyAppend(g, phonylist[..i], phonylist[i]);
      PhonyOne(g, phonylist[i]);
      assert phonylist[..i + 1] == phonylist[..i] + [phonylist[i]];
      rules := rules + ("\n" + g[phonylist[i]].file + ":\n");
      i := i + 1;
    }
    assert phonylist[..i] == phonylist;
  }

  lemma PhonyOne(g: Graph, m: nat)
    ensures PhonyRules(g, [m]) == if m < |g| && !g[m].isRoot then "\n" + g[m].file + ":\n" else ""
    ensures PhonyRules(g, []) == ""
  {
    assert [m][1..] == [];
  }

  lemma PhonyGrows(g: Graph, phonylist: seq<nat>, written: seq<nat>, m: nat, phony: bool)
    requires m < |g| && PhonyRules(g, phonylist) == if phony then PhonyRules(g, written) else ""
    ensures PhonyRules(g, if phony && !g[m].isRoot then phonylist + [m] else phonylist) ==
      if phony then PhonyRules(g, written + [m]) else ""
  {
    hide PhonyRules;
    PhonyAppend(g, phonylist, m);
    PhonyAppend(g, written, m);
    PhonyOne(g, m);
  }

  /** The text of the modules written so far, and the length of its last line. */
  predicate Text(g: Graph, target: string, written: seq<nat>, colmax: nat, buffer: string, column: nat)
    requires forall i :: 0 <= i < |written| ==> written[i] < |g|
  {
    && buffer == target + ":" + Names(|target| + 1, Files(g, written), colmax)
    && column == Column(|target| + 1, Files(g, written), colmax)
  }

  lemma TextStarts(g: Graph, target: string, colmax: nat)
    ensures Text(g, target, [], colmax, target + ":", |target| + 1) && PhonyRules(g, []) == ""
  {
    assert target + ":" + "" == target + ":";
  }

  lemma TextGrows(g: Graph, target: string, written: seq<nat>, m: nat, colmax: nat, buffer: string, column: nat)
    requires m < |g| && (forall i :: 0 <= i < |written| ==> written[i] < |g|)
      && Text(g, target, written, colmax, buffer, column)
    ensures var (more, next) := Name(column, g[m].file, colmax);
      Text(g, target, written + [m], colmax, buffer + more, next)
  {
    hide Files, Names, Column, Name;
    var names, start := Files(g, written), |target| + 1;
    FilesAppend(g, written, m);
    NamesAppend(start, names, g[m].file, colmax);
    var more := Name(column, g[m].file, colmax).0;
    assert target + ":" + (Names(start, names, colmax) + more) == (target + ":" + Names(start, names, colmax)) + more;
  }

  lemma InGraph(g: Graph, skipSystem: bool, root: nat, written: seq<nat>, modlist: seq<nat>, names: set<string>)
    requires Searching(g, skipSystem, root, written, modlist, names)
    ensures forall m :: m in modlist ==> m < |g|
    ensures forall m :: m in written ==> m < |g| && Reachable(g, skipSystem, root, m)
    ensures forall i, j :: 0 <= i < j < |written| && written[i] < |g| && written[j] < |g| ==>
      g[written[i]].file != g[written[j]].file
  {
  }
}

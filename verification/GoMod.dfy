/** The go.mod reader (internal/analyze/ci_attest_ext5.go): a line loop with two block flags. */
module GoMod {
  import opened Options
  import opened Text
  import opened Seqs

  datatype Module = Module(path: string, version: string, replace: string, direct: bool)

  datatype Inventory = Inventory(modules: seq<Module>, modulePath: string, goVersion: string, warnings: seq<string>)

  // Pieces of text

  predicate HasPrefix(s: string, p: string) {
    |p| <= |s| && s[..|p|] == p
  }

  function TrimPrefix(s: string, p: string): string {
    if HasPrefix(s, p) then s[|p|..] else s
  }

  /** strings.Cut: around the first occurrence of sep. */
  function Cut(s: string, sep: string): Option<(string, string)> {
    if HasPrefix(s, sep) then Some(("", s[|sep|..]))
    else if s == "" then None
    else match Cut(s[1..], sep)
      case None => None
      case Some(c) => Some(([s[0]] + c.0, c.1))
  }

  function Token(s: string): (t: string)
    ensures HasPrefix(s, t) && (s != "" && !IsSpace(s[0]) ==> t != "")
  {
    if s == "" || IsSpace(s[0]) then "" else [s[0]] + Token(s[1..])
  }

  lemma TrimLeftShrinks(s: string)
    ensures |TrimLeft(s, IsSpace)| <= |s|
    ensures TrimLeft(s, IsSpace) != "" ==> !IsSpace(TrimLeft(s, IsSpace)[0])
  {}

  /** strings.Fields: the maximal runs without white space. */
  function Fields(s: string): seq<string>
    decreases |s|
  {
    TrimLeftShrinks(s);
    var t := TrimLeft(s, IsSpace);
    if t == "" then [] else [Token(t)] + Fields(t[|Token(t)|..])
  }

  lemma {:induction false} CutIsFirst(s: string, sep: string)
    requires sep != ""
    ensures match Cut(s, sep)
      case Some(c) => s == c.0 + sep + c.1 && forall i :: 0 <= i < |c.0| ==> !HasPrefix(s[i..], sep)
      case None => forall i :: 0 <= i <= |s| ==> !HasPrefix(s[i..], sep)
    decreases |s|
  {
    assert s[0..] == s;
    if HasPrefix(s, sep) {
      assert s == "" + sep + s[|sep|..];
    } else if s != "" {
      CutIsFirst(s[1..], sep);
      assert forall i :: 1 <= i <= |s| ==> s[i..] == s[1..][i - 1..];
      if Cut(s[1..], sep).Some? {
        var c := Cut(s[1..], sep).value;
        assert s == [s[0]] + (c.0 + sep + c.1) == [s[0]] + c.0 + sep + c.1;
      }
    }
  }

  function Spaceless(s: string): string {
    if s == "" then "" else (if IsSpace(s[0]) then "" else [s[0]]) + Spaceless(s[1..])
  }

  function Concat(ss: seq<string>): string {
    if ss == [] then "" else ss[0] + Concat(ss[1..])
  }

  lemma {:induction false} TokenEnds(s: string)
    ensures (forall i :: 0 <= i < |Token(s)| ==> !IsSpace(Token(s)[i]))
    ensures |Token(s)| < |s| ==> IsSpace(s[|Token(s)|])
    ensures Spaceless(s) == Token(s) + Spaceless(s[|Token(s)|..])
    decreases |s|
  {
    if s != "" && !IsSpace(s[0]) {
      TokenEnds(s[1..]);
      assert s[|Token(s)|..] == s[1..][|Token(s[1..])|..];
    }
  }

  lemma {:induction false} TrimLeftSpaceless(s: string)
    ensures Spaceless(TrimLeft(s, IsSpace)) == Spaceless(s)
    decreases |s|
  {
    if s != "" && IsSpace(s[0]) {
      TrimLeftSpaceless(s[1..]);
    }
  }

  /** The fields hold the text's characters but for white space, and none is empty. */
  lemma {:induction false} FieldsMean(s: string)
    ensures Concat(Fields(s)) == Spaceless(s)
    ensures forall f :: f in Fields(s) ==> f != "" && forall i :: 0 <= i < |f| ==> !IsSpace(f[i])
    decreases |s|
  {
    TrimLeftShrinks(s);
    TrimLeftSpaceless(s);
    var t := TrimLeft(s, IsSpace);
    if t != "" {
      TokenEnds(t);
      FieldsMean(t[|Token(t)|..]);
    }
  }

  /** strings.Split(text, "\n"). */
  function Lines(text: string): (ls: seq<string>)
    ensures ls != []
  {
    if text == "" then [""]
    else
      var rest := Lines(text[1..]);
      if text[0] == '\n' then [""] + rest else [[text[0]] + rest[0]] + rest[1..]
  }

  /** parseRequireLine: path and version, if the line has both before a comment. */
  function ParseRequire(line: string): Option<(string, string)> {
    var kept := match Cut(line, "//") case None => line case Some(c) => TrimSpace(c.0);
    var fields := Fields(kept);
    if |fields| < 2 then None else Some((fields[0], fields[1]))
  }

  // What one line says, in the block it stands in

  datatype Blocks = Blocks(require_: bool, replace_: bool)

  const OUTSIDE := Blocks(false, false)

  datatype Directive =
    | Silent
    | ModuleIs(path: string)
    | GoIs(version: string)
    | Require(path: string, version: string)
    | Replace(path: string, target: string)
    | Unread(warning: string)

  function RequireOf(line: string, text: string): Directive {
    match ParseRequire(text)
    case Some(r) => Require(r.0, r.1)
    case None => Unread("cannot parse require line: " + line)
  }

  function ReplaceOf(line: string, text: string): Directive {
    match Cut(text, "=>")
    case Some(c) => if Fields(c.0) != [] then Replace(Fields(c.0)[0], TrimSpace(c.1)) else Silent
    case None => if text != "" then Unread("cannot parse replace line: " + line) else Silent
  }

  predicate Blank(line: string) {
    line == "" || HasPrefix(line, "//")
  }

  predicate Delimiter(line: string) {
    HasPrefix(line, "require (") || HasPrefix(line, "replace (") || line == ")"
  }

  function Meaning(b: Blocks, line: string): Directive {
    if Blank(line) then Silent
    else if HasPrefix(line, "module ") then ModuleIs(TrimSpace(TrimPrefix(line, "module ")))
    else if HasPrefix(line, "go ") then GoIs(TrimSpace(TrimPrefix(line, "go ")))
    else if Delimiter(line) then Silent
    else if HasPrefix(line, "require ") then RequireOf(line, TrimSpace(TrimPrefix(line, "require ")))
    else if b.require_ then RequireOf(line, line)
    else if HasPrefix(line, "replace ") || b.replace_ then ReplaceOf(line, TrimSpace(TrimPrefix(line, "replace ")))
    else Silent
  }

  function Next(b: Blocks, line: string): Blocks {
    if HasPrefix(line, "require (") then b.(require_ := true)
    else if HasPrefix(line, "replace (") then b.(replace_ := true)
    else if line == ")" then OUTSIDE
    else b
  }

  function After(b: Blocks, lines: seq<string>): Blocks {
    if lines == [] then b else Next(After(b, lines[..|lines| - 1]), TrimSpace(lines[|lines| - 1]))
  }

  function Directives(b: Blocks, lines: seq<string>): seq<Directive> {
    if lines == [] then [] else
    var front := lines[..|lines| - 1];
    Directives(b, front) + [Meaning(After(b, front), TrimSpace(lines[|lines| - 1]))]
  }

  // What a list of directives declares

  function Required(ds: seq<Directive>): seq<Module> {
    if ds == [] then [] else
    var d := ds[|ds| - 1];
    Required(ds[..|ds| - 1]) + if d.Require? then [Module(d.path, d.version, "", true)] else []
  }

  /** The last replacement of a path wins; an empty one takes an earlier one back. */
  function Target(ds: seq<Directive>, path: string): string {
    if ds == [] then "" else
    var d := ds[|ds| - 1];
    if d.Replace? && d.path == path then d.target else Target(ds[..|ds| - 1], path)
  }

  function ModulePath(ds: seq<Directive>): string {
    if ds == [] then "" else
    var d := ds[|ds| - 1];
    if d.ModuleIs? then d.path else ModulePath(ds[..|ds| - 1])
  }

  function GoVersion(ds: seq<Directive>): string {
    if ds == [] then "" else
    var d := ds[|ds| - 1];
    if d.GoIs? then d.version else GoVersion(ds[..|ds| - 1])
  }

  function Warnings(ds: seq<Directive>): seq<string> {
    if ds == [] then [] else
    var d := ds[|ds| - 1];
    Warnings(ds[..|ds| - 1]) + if d.Unread? then [d.warning] else []
  }

  function Resolve(ds: seq<Directive>): Module -> Module {
    (m: Module) => m.(replace := Target(ds, m.path))
  }

  function Declared(ds: seq<Directive>): Inventory {
    Inventory(Map(Required(ds), Resolve(ds)), ModulePath(ds), GoVersion(ds), Warnings(ds))
  }

  function Read(text: string): Inventory {
    Declared(Directives(OUTSIDE, Lines(text)))
  }

  // The loop

  ghost predicate Reflects(targets: map<string, string>, ds: seq<Directive>) {
    forall p :: (if p in targets then targets[p] else "") == Target(ds, p)
  }

  /** The loop's variables hold what the directives so far declare, replacements still aside. */
  ghost predicate Holds(inv: Inventory, targets: map<string, string>, ds: seq<Directive>) {
    && inv == Inventory(Required(ds), ModulePath(ds), GoVersion(ds), Warnings(ds))
    && Reflects(targets, ds)
  }

  function Fold(inv: Inventory, d: Directive): Inventory {
    match d
    case Silent => inv
    case ModuleIs(path) => inv.(modulePath := path)
    case GoIs(version) => inv.(goVersion := version)
    case Require(path, version) => inv.(modules := inv.modules + [Module(path, version, "", true)])
    case Replace(_, _) => inv
    case Unread(warning) => inv.(warnings := inv.warnings + [warning])
  }

  lemma HoldsOn(inv: Inventory, targets: map<string, string>, ds: seq<Directive>, d: Directive)
    requires Holds(inv, targets, ds)
    ensures Holds(Fold(inv, d), if d.Replace? then targets[d.path := d.target] else targets, ds + [d])
  {
    AddDirective(ds, d);
  }

  lemma AddDirective(ds: seq<Directive>, d: Directive)
    ensures Required(ds + [d]) == Required(ds) + if d.Require? then [Module(d.path, d.version, "", true)] else []
    ensures Warnings(ds + [d]) == Warnings(ds) + if d.Unread? then [d.warning] else []
    ensures ModulePath(ds + [d]) == if d.ModuleIs? then d.path else ModulePath(ds)
    ensures GoVersion(ds + [d]) == if d.GoIs? then d.version else GoVersion(ds)
    ensures forall p :: Target(ds + [d], p) == if d.Replace? && d.path == p then d.target else Target(ds, p)
  {
    assert (ds + [d])[..|ds + [d]| - 1] == ds;
  }

  lemma AddLine(b: Blocks, lines: seq<string>, i: nat)
    requires i < |lines|
    ensures After(b, lines[..i + 1]) == Next(After(b, lines[..i]), TrimSpace(lines[i]))
    ensures Directives(b, lines[..i + 1]) == Directives(b, lines[..i]) + [Meaning(After(b, lines[..i]), TrimSpace(lines[i]))]
  {
    assert lines[..i + 1][..i] == lines[..i];
  }

  lemma PrefixAt(s: string, p: string, k: nat)
    requires k < |p|
    ensures HasPrefix(s, p) ==> k < |s| && s[k] == p[k]
  {
    if HasPrefix(s, p) {
      assert s[..|p|][k] == p[k];
    }
  }

  /** A line that says something about the module or nothing at all opens and closes no block. */
  lemma NoDelimiter(b: Blocks, line: string)
    requires Blank(line) || HasPrefix(line, "module ") || HasPrefix(line, "go ")
    ensures Next(b, line) == b && !Delimiter(line)
  {
    PrefixAt(line, "//", 0);
    PrefixAt(line, "module ", 0);
    PrefixAt(line, "go ", 0);
    PrefixAt(line, "require (", 0);
    PrefixAt(line, "replace (", 0);
  }

  method ParseGoMod(text: string) returns (inv: Inventory)
    ensures inv == Read(text)
  {
    hide TrimSpace, Holds, Directives, After, Lines, HasPrefix, Cut, Fields, ParseRequire;
    var lines := Lines(text);
    var modules: seq<Module> := [];
    var warnings: seq<string> := [];
    var modulePath, goVersion := "", "";
    var inRequire, inReplace := false, false;
    var targets: map<string, string> := map[];
    Empty(OUTSIDE);
    assert lines[..0] == [];
    for i := 0 to |lines|
      invariant Blocks(inRequire, inReplace) == After(OUTSIDE, lines[..i])
      invariant Holds(Inventory(modules, modulePath, goVersion, warnings), targets, Directives(OUTSIDE, lines[..i]))
    {
      var line := TrimSpace(lines[i]);
      AddLine(OUTSIDE, lines, i);
      HoldsOn(Inventory(modules, modulePath, goVersion, warnings), targets,
              Directives(OUTSIDE, lines[..i]), Meaning(Blocks(inRequire, inReplace), line));
      if line == "" || HasPrefix(line, "//") {
        NoDelimiter(Blocks(inRequire, inReplace), line);
      } else if HasPrefix(line, "module ") {
        NoDelimiter(Blocks(inRequire, inReplace), line);
        modulePath := TrimSpace(TrimPrefix(line, "module "));
      } else if HasPrefix(line, "go ") {
        NoDelimiter(Blocks(inRequire, inReplace), line);
        goVersion := TrimSpace(TrimPrefix(line, "go "));
      } else if HasPrefix(line, "require (") {
        inRequire := true;
      } else if HasPrefix(line, "replace (") {
        inReplace := true;
      } else if line == ")" {
        inRequire := false;
        inReplace := false;
      } else if HasPrefix(line, "require ") {
        match ParseRequire(TrimSpace(TrimPrefix(line, "require "))) {
          case Some(r) =>
            modules := modules + [Module(r.0, r.1, "", true)];
          case None =>
            warnings := warnings + ["cannot parse require line: " + line];
        }
      } else if inRequire {
        match ParseRequire(line) {
          case Some(r) =>
            modules := modules + [Module(r.0, r.1, "", true)];
          case None =>
            warnings := warnings + ["cannot parse require line: " + line];
        }
      } else if HasPrefix(line, "replace ") || inReplace {
        var repl := TrimSpace(TrimPrefix(line, "replace "));
        match Cut(repl, "=>") {
          case Some(c) =>
            if |Fields(c.0)| > 0 {
              targets := targets[Fields(c.0)[0] := TrimSpace(c.1)];
            }
          case None =>
            if repl != "" {
              warnings := warnings + ["cannot parse replace line: " + line];
            }
        }
      }
    }
    assert lines[..|lines|] == lines;
    HoldsAtEnd(Inventory(modules, modulePath, goVersion, warnings), targets, Directives(OUTSIDE, lines));
    modules := ResolveAll(modules, targets, Directives(OUTSIDE, lines));
    inv := Inventory(modules, modulePath, goVersion, warnings);
  }

  lemma HoldsAtEnd(inv: Inventory, targets: map<string, string>, ds: seq<Directive>)
    requires Holds(inv, targets, ds)
    ensures (forall m :: m in inv.modules ==> m.replace == "") && Reflects(targets, ds)
    ensures Declared(ds) == inv.(modules := Map(inv.modules, Resolve(ds)))
  {
    RequiredBare(ds);
  }

  lemma {:induction false} RequiredBare(ds: seq<Directive>)
    ensures forall m :: m in Required(ds) ==> m.replace == ""
    decreases |ds|
  {
    if ds != [] {
      RequiredBare(ds[..|ds| - 1]);
    }
  }

  lemma Empty(b: Blocks)
    ensures Directives(b, []) == [] && After(b, []) == b
    ensures Required([]) == [] && Warnings([]) == [] && ModulePath([]) == "" && GoVersion([]) == ""
    ensures Holds(Inventory([], "", "", []), map[], [])
  {}

  /** The loop that fills in the replacements, in place. */
  method ResolveAll(found: seq<Module>, targets: map<string, string>, ghost ds: seq<Directive>) returns (modules: seq<Module>)
    requires forall m :: m in found ==> m.replace == ""
    requires Reflects(targets, ds)
    ensures modules == Map(found, Resolve(ds))
  {
    hide Map, Target;
    modules := found;
    MapEach(found, Resolve(ds));
    for i := 0 to |modules|
      invariant |modules| == |found|
      invariant forall k :: i <= k < |found| ==> modules[k] == found[k]
      invariant forall k :: 0 <= k < i ==> modules[k] == Map(found, Resolve(ds))[k]
    {
      assert found[i] in found;
      var r := if modules[i].path in targets then targets[modules[i].path] else "";
      if r != "" {
        modules := modules[i := modules[i].(replace := r)];
      }
    }
  }

  lemma {:induction false} MapEach<T, U>(s: seq<T>, f: T -> U)
    ensures |Map(s, f)| == |s| && forall k :: 0 <= k < |s| ==> Map(s, f)[k] == f(s[k])
    decreases |s|
  {
    if s != [] {
      MapEach(s[..|s| - 1], f);
    }
  }

  // What the block flags and the replacements mean

  /** Line j opens a block of this kind and no line after it, up to the end, closes one. */
  ghost predicate OpenSince(lines: seq<string>, opener: string, j: nat) {
    && j < |lines| && HasPrefix(TrimSpace(lines[j]), opener)
    && forall k :: j < k < |lines| ==> TrimSpace(lines[k]) != ")"
  }

  lemma {:induction false} FlagsMean(lines: seq<string>)
    ensures After(OUTSIDE, lines).require_ <==> exists j: nat :: OpenSince(lines, "require (", j)
    ensures After(OUTSIDE, lines).replace_ <==> exists j: nat :: OpenSince(lines, "replace (", j)
    decreases |lines|
  {
    if lines != [] {
      var n := |lines| - 1;
      var line := TrimSpace(lines[n]);
      FlagsMean(lines[..n]);
      OpenersDiffer(line);
      OpenStays(lines, "require (");
      OpenStays(lines, "replace (");
    }
  }

  lemma OpenersDiffer(line: string)
    ensures !(HasPrefix(line, "require (") && HasPrefix(line, "replace ("))
    ensures HasPrefix(line, "require (") || HasPrefix(line, "replace (") ==> line != ")"
  {
    PrefixAt(line, "require (", 2);
    PrefixAt(line, "replace (", 2);
  }

  lemma OpenStays(lines: seq<string>, opener: string)
    requires lines != []
    ensures
      var n := |lines| - 1;
      (exists j: nat :: OpenSince(lines, opener, j))
      <==> (HasPrefix(TrimSpace(lines[n]), opener)
            || (TrimSpace(lines[n]) != ")" && exists j: nat :: OpenSince(lines[..n], opener, j)))
  {
    hide TrimSpace, HasPrefix;
    var n := |lines| - 1;
    if HasPrefix(TrimSpace(lines[n]), opener) {
      assert OpenSince(lines, opener, n);
    }
    if j: nat :| OpenSince(lines[..n], opener, j) {
      if TrimSpace(lines[n]) != ")" {
        assert OpenSince(lines, opener, j);
      }
    }
    if j: nat :| OpenSince(lines, opener, j) {
      if j < n {
        assert OpenSince(lines[..n], opener, j);
      }
    }
  }

  /** Directive k is the last replacement of this path. */
  ghost predicate LastFor(ds: seq<Directive>, path: string, k: nat) {
    && k < |ds| && ds[k].Replace? && ds[k].path == path
    && forall j :: k < j < |ds| ==> !(ds[j].Replace? && ds[j].path == path)
  }

  lemma {:induction false} TargetIsLast(ds: seq<Directive>, path: string)
    ensures forall k: nat :: LastFor(ds, path, k) ==> Target(ds, path) == ds[k].target
    ensures Target(ds, path) != "" ==> exists k: nat :: LastFor(ds, path, k)
    decreases |ds|
  {
    if ds != [] {
      var n := |ds| - 1;
      TargetIsLast(ds[..n], path);
      if ds[n].Replace? && ds[n].path == path {
        assert LastFor(ds, path, n);
      } else {
        forall k: nat
          ensures LastFor(ds, path, k) <==> LastFor(ds[..n], path, k)
        {}
      }
    }
  }

  // Text and lines

  function Unlines(lines: seq<string>): string
    requires lines != []
  {
    if |lines| == 1 then lines[0] else lines[0] + "\n" + Unlines(lines[1..])
  }

  ghost predicate SingleLine(line: string) {
    '\n' !in line
  }

  lemma {:induction false} LinesOfUnlines(lines: seq<string>)
    requires lines != [] && forall i :: 0 <= i < |lines| ==> SingleLine(lines[i])
    ensures Lines(Unlines(lines)) == lines
    decreases |lines|
  {
    if |lines| == 1 {
      LinesOfPrefix(lines[0], "");
      assert lines[0] + "" == lines[0];
    } else {
      var rest := "\n" + Unlines(lines[1..]);
      LinesOfUnlines(lines[1..]);
      LinesOfPrefix(lines[0], rest);
      assert rest[1..] == Unlines(lines[1..]);
      assert lines[0] + rest == Unlines(lines);
      assert Lines(rest) == [""] + lines[1..];
      assert lines[0] + "" == lines[0];
      assert [lines[0]] + lines[1..] == lines;
    }
  }

  lemma {:induction false} LinesOfPrefix(line: string, rest: string)
    requires SingleLine(line)
    ensures Lines(line + rest) == [line + Lines(rest)[0]] + Lines(rest)[1..]
    decreases |line|
  {
    if line == "" {
      assert line + rest == rest && line + Lines(rest)[0] == Lines(rest)[0];
    } else {
      LinesOfPrefix(line[1..], rest);
      assert (line + rest)[1..] == line[1..] + rest;
      assert [line[0]] + (line[1..] + Lines(rest)[0]) == line + Lines(rest)[0];
    }
  }

  lemma {:induction false} UnlinesOfLines(text: string)
    ensures Unlines(Lines(text)) == text
    decreases |text|
  {
    if text != "" {
      UnlinesOfLines(text[1..]);
    }
  }

  // Blocks and one-line directives

  datatype Item =
    | Line(line: string)
    | Block(keyword: string, open: string, body: seq<string>, close: string)

  /** A line that may stand in a block: it is an item of the block, or says nothing. */
  predicate MayStandIn(keyword: string, line: string) {
    || Blank(line)
    || (&& line != ")" && !HasPrefix(line, "(") && !HasPrefix(line, "module ") && !HasPrefix(line, "go ")
        && !HasPrefix(line, "require ") && !HasPrefix(line, "replace (")
        && (keyword == "replace " ==> !HasPrefix(line, "replace ")))
  }

  predicate Opens(line: string) {
    HasPrefix(line, "require (") || HasPrefix(line, "replace (")
  }

  ghost predicate WellFormed(item: Item) {
    match item
    case Line(line) => SingleLine(line) && !Opens(TrimSpace(line))
    case Block(keyword, open, body, close) =>
      && (keyword == "require " || keyword == "replace ")
      && SingleLine(open) && SingleLine(close)
      && HasPrefix(TrimSpace(open), keyword + "(") && TrimSpace(close) == ")"
      && forall i :: 0 <= i < |body| ==> SingleLine(body[i]) && MayStandIn(keyword, TrimSpace(body[i]))
  }

  function OneLine(keyword: string, line: string): string {
    if Blank(TrimSpace(line)) then line else keyword + TrimSpace(line)
  }

  function OneLiners(keyword: string, body: seq<string>): (r: seq<string>)
    ensures |r| == |body|
  {
    seq(|body|, i requires 0 <= i < |body| => OneLine(keyword, body[i]))
  }

  function LinesOf(item: Item): seq<string> {
    match item
    case Line(line) => [line]
    case Block(_, open, body, close) => [open] + body + [close]
  }

  function OneLinersOf(item: Item): seq<string> {
    match item
    case Line(line) => [line]
    case Block(keyword, _, body, _) => OneLiners(keyword, body)
  }

  function Written(items: seq<Item>): seq<string> {
    if items == [] then [] else Written(items[..|items| - 1]) + LinesOf(items[|items| - 1])
  }

  function Desugared(items: seq<Item>): seq<string> {
    if items == [] then [] else Desugared(items[..|items| - 1]) + OneLinersOf(items[|items| - 1])
  }

  /** The directives that say something, whatever the wording of a warning. */
  function Said(ds: seq<Directive>): seq<Directive> {
    if ds == [] then [] else
    var d := ds[|ds| - 1];
    Said(ds[..|ds| - 1]) + match d
      case Silent => []
      case Unread(_) => [Unread("")]
      case _ => [d]
  }

  lemma {:induction false} SaidSplit(a: seq<Directive>, b: seq<Directive>)
    ensures Said(a + b) == Said(a) + Said(b)
    decreases |b|
  {
    if b == [] {
      assert a + b == a;
    } else {
      SaidSplit(a, b[..|b| - 1]);
      assert (a + b)[..|a + b| - 1] == a + b[..|b| - 1];
    }
  }

  lemma {:induction false} DirectivesSplit(b: Blocks, x: seq<string>, y: seq<string>)
    ensures After(b, x + y) == After(After(b, x), y)
    ensures Directives(b, x + y) == Directives(b, x) + Directives(After(b, x), y)
    decreases |y|
  {
    hide TrimSpace, Meaning, Next;
    if y == [] {
      assert x + y == x;
    } else {
      DirectivesSplit(b, x, y[..|y| - 1]);
      assert (x + y)[..|x + y| - 1] == x + y[..|y| - 1];
    }
  }

  /** Inventories that differ at most in what their warnings say. */
  ghost predicate SameButWording(a: Inventory, b: Inventory) {
    a.modules == b.modules && a.modulePath == b.modulePath && a.goVersion == b.goVersion && |a.warnings| == |b.warnings|
  }

  lemma {:induction false} SaidRequires(ds: seq<Directive>)
    ensures Required(Said(ds)) == Required(ds)
    decreases |ds|
  {
    if ds != [] {
      var front, d := ds[..|ds| - 1], ds[|ds| - 1];
      SaidRequires(front);
      var said := if d.Unread? then Unread("") else d;
      assert (Said(front) + [said])[..|Said(front)|] == Said(front);
      assert Said(front) + [] == Said(front);
    }
  }

  lemma {:induction false} SaidWarns(ds: seq<Directive>)
    ensures |Warnings(Said(ds))| == |Warnings(ds)|
    decreases |ds|
  {
    if ds != [] {
      var front, d := ds[..|ds| - 1], ds[|ds| - 1];
      SaidWarns(front);
      var said := if d.Unread? then Unread("") else d;
      assert (Said(front) + [said])[..|Said(front)|] == Said(front);
      assert Said(front) + [] == Said(front);
    }
  }

  lemma {:induction false} SaidTargets(ds: seq<Directive>)
    ensures forall p :: Target(Said(ds), p) == Target(ds, p)
    decreases |ds|
  {
    if ds != [] {
      var front, d := ds[..|ds| - 1], ds[|ds| - 1];
      SaidTargets(front);
      var said := if d.Unread? then Unread("") else d;
      assert (Said(front) + [said])[..|Said(front)|] == Said(front);
      assert Said(front) + [] == Said(front);
    }
  }

  lemma {:induction false} SaidNames(ds: seq<Directive>)
    ensures ModulePath(Said(ds)) == ModulePath(ds) && GoVersion(Said(ds)) == GoVersion(ds)
    decreases |ds|
  {
    if ds != [] {
      var front, d := ds[..|ds| - 1], ds[|ds| - 1];
      SaidNames(front);
      var said := if d.Unread? then Unread("") else d;
      assert (Said(front) + [said])[..|Said(front)|] == Said(front);
      assert Said(front) + [] == Said(front);
    }
  }

  lemma SaidDeclares(ds: seq<Directive>)
    ensures Required(Said(ds)) == Required(ds) && |Warnings(Said(ds))| == |Warnings(ds)|
    ensures ModulePath(Said(ds)) == ModulePath(ds) && GoVersion(Said(ds)) == GoVersion(ds)
    ensures forall p :: Target(Said(ds), p) == Target(ds, p)
  {
    hide *;
    SaidRequires(ds);
    SaidWarns(ds);
    SaidTargets(ds);
    SaidNames(ds);
  }

  lemma MapAgrees<T, U>(s: seq<T>, f: T -> U, g: T -> U)
    requires forall x :: f(x) == g(x)
    ensures Map(s, f) == Map(s, g)
  {
    MapEach(s, f);
    MapEach(s, g);
  }

  lemma SaidDecides(a: seq<Directive>, b: seq<Directive>)
    requires Said(a) == Said(b)
    ensures SameButWording(Declared(a), Declared(b))
  {
    SaidDeclares(a);
    SaidDeclares(b);
    hide Said, Required, Warnings, ModulePath, GoVersion, Target;
    MapAgrees(Required(a), Resolve(a), Resolve(b));
  }

  lemma {:induction false} TrimRightEnds(s: string)
    ensures TrimRight(s, IsSpace) != "" ==> !IsSpace(TrimRight(s, IsSpace)[|TrimRight(s, IsSpace)| - 1]) && s != "" && TrimRight(s, IsSpace)[0] == s[0]
    decreases |s|
  {
    if s != "" && IsSpace(s[|s| - 1]) {
      TrimRightEnds(s[..|s| - 1]);
    }
  }

  /** A trimmed text has no white space at either end, and trimming leaves it alone. */
  lemma TrimmedEnds(s: string)
    ensures var t := TrimSpace(s); t != "" ==> !IsSpace(t[0]) && !IsSpace(t[|t| - 1])
    ensures TrimSpace(TrimSpace(s)) == TrimSpace(s)
  {
    TrimLeftShrinks(s);
    TrimRightEnds(TrimLeft(s, IsSpace));
  }

  lemma PrefixOfJoined(a: string, s: string, p: string)
    ensures HasPrefix(a + s, a) && TrimPrefix(a + s, a) == s
    ensures HasPrefix(a + s, a + p) <==> HasPrefix(s, p)
  {
    assert (a + s)[..|a|] == a && (a + s)[|a|..] == s;
    if |p| <= |s| {
      assert (a + s)[..|a + p|] == a + s[..|p|];
      assert (a + p)[|a|..] == p && (a + s[..|p|])[|a|..] == s[..|p|];
    }
  }

  /** The one-line form of an item, as the reader sees it once trimmed. */
  lemma KeywordLine(keyword: string, t: string)
    requires keyword == "require " || keyword == "replace "
    requires t != "" && !IsSpace(t[|t| - 1]) && !HasPrefix(t, "(")
    ensures TrimSpace(keyword + t) == keyword + t && TrimPrefix(keyword + t, keyword) == t
    ensures HasPrefix(keyword + t, keyword) && !Blank(keyword + t) && !Delimiter(keyword + t)
    ensures !HasPrefix(keyword + t, "module ") && !HasPrefix(keyword + t, "go ")
    ensures keyword == "replace " ==> !HasPrefix(keyword + t, "require ")
  {
    var s := keyword + t;
    assert s[0] == 'r' && s[|s| - 1] == t[|t| - 1];
    assert s[2] == keyword[2];
    PrefixOfJoined(keyword, t, "(");
    assert "require " + "(" == "require (" && "replace " + "(" == "replace (";
    PrefixAt(s, "require (", 2);
    PrefixAt(s, "replace (", 2);
    PrefixAt(s, "require ", 2);
    PrefixAt(s, "//", 0);
    PrefixAt(s, "module ", 0);
    PrefixAt(s, "go ", 0);
  }

  function InBlock(keyword: string): Blocks {
    Blocks(keyword == "require ", keyword != "require ")
  }

  /** Moving one item out of its block changes neither what it says nor the block it leaves. */
  lemma ItemOutOfBlock(keyword: string, line: string)
    requires keyword == "require " || keyword == "replace "
    requires MayStandIn(keyword, TrimSpace(line))
    ensures
      var b, t, one := InBlock(keyword), TrimSpace(line), TrimSpace(OneLine(keyword, line));
      && Next(b, t) == b && Next(OUTSIDE, one) == OUTSIDE
      && Said([Meaning(b, t)]) == Said([Meaning(OUTSIDE, one)])
  {
    var t := TrimSpace(line);
    TrimmedEnds(line);
    if Blank(t) {
      NoDelimiter(InBlock(keyword), t);
      NoDelimiter(OUTSIDE, t);
    } else {
      KeywordLine(keyword, t);
      PrefixOfPrefix(t, "require ", "(");
      assert "require " + "(" == "require (";
      SaidOne(keyword, t);
    }
  }

  lemma PrefixOfPrefix(s: string, p: string, q: string)
    ensures HasPrefix(s, p + q) ==> HasPrefix(s, p)
  {
    if HasPrefix(s, p + q) {
      assert s[..|p|] == s[..|p + q|][..|p|] == p;
    }
  }

  lemma SaidOne(keyword: string, t: string)
    requires keyword == "require " || keyword == "replace "
    requires !Blank(t) && MayStandIn(keyword, t) && !HasPrefix(t, "require (") && TrimSpace(t) == t
    requires TrimPrefix(keyword + t, keyword) == t
    requires HasPrefix(keyword + t, keyword) && !Blank(keyword + t) && !Delimiter(keyword + t)
    requires !HasPrefix(keyword + t, "module ") && !HasPrefix(keyword + t, "go ")
    requires keyword == "replace " ==> !HasPrefix(keyword + t, "require ")
    ensures Said([Meaning(InBlock(keyword), t)]) == Said([Meaning(OUTSIDE, keyword + t)])
  {
    hide TrimSpace, HasPrefix, Cut, Fields, ParseRequire;
    var one := keyword + t;
    if keyword == "require " {
      assert Meaning(InBlock(keyword), t) == RequireOf(t, t);
      assert Meaning(OUTSIDE, one) == RequireOf(one, t);
    } else {
      assert Meaning(InBlock(keyword), t) == ReplaceOf(t, t);
      assert Meaning(OUTSIDE, one) == ReplaceOf(one, t);
    }
  }

  lemma SaidMore(xs: seq<Directive>, ys: seq<Directive>, x: Directive, y: Directive)
    requires Said(xs) == Said(ys) && Said([x]) == Said([y])
    ensures Said(xs + [x]) == Said(ys + [y])
  {
    hide *;
    SaidSplit(xs, [x]);
    SaidSplit(ys, [y]);
  }

  lemma OneLinersFront(keyword: string, body: seq<string>)
    requires body != []
    ensures OneLiners(keyword, body)[..|body| - 1] == OneLiners(keyword, body[..|body| - 1])
    ensures OneLiners(keyword, body)[|body| - 1] == OneLine(keyword, body[|body| - 1])
  {
    hide OneLine;
  }

  lemma {:induction false} BodyOutOfBlock(keyword: string, body: seq<string>)
    requires keyword == "require " || keyword == "replace "
    requires forall i :: 0 <= i < |body| ==> MayStandIn(keyword, TrimSpace(body[i]))
    ensures After(InBlock(keyword), body) == InBlock(keyword)
    ensures After(OUTSIDE, OneLiners(keyword, body)) == OUTSIDE
    ensures Said(Directives(InBlock(keyword), body)) == Said(Directives(OUTSIDE, OneLiners(keyword, body)))
    decreases |body|
  {
    if body != [] {
      hide *;
      var n := |body| - 1;
      var b, one := InBlock(keyword), OneLiners(keyword, body);
      BodyOutOfBlock(keyword, body[..n]);
      ItemOutOfBlock(keyword, body[n]);
      OneLinersFront(keyword, body);
      AddLine(b, body, n);
      AddLine(OUTSIDE, one, n);
      assert body[..n + 1] == body && one[..n + 1] == one;
      SaidMore(Directives(b, body[..n]), Directives(OUTSIDE, one[..n]),
               Meaning(b, TrimSpace(body[n])), Meaning(OUTSIDE, TrimSpace(one[n])));
    }
  }

  lemma OneLineOnly(b: Blocks, line: string)
    ensures After(b, [line]) == Next(b, TrimSpace(line))
    ensures Directives(b, [line]) == [Meaning(b, TrimSpace(line))]
  {
    assert [line][..0] == [];
    Empty(b);
  }

  /** Whatever block they stand in, the lines around a block say nothing. */
  lemma DelimitersSilent(keyword: string, open: string, close: string)
    requires keyword == "require " || keyword == "replace "
    requires HasPrefix(open, keyword + "(") && close == ")"
    ensures Next(OUTSIDE, open) == InBlock(keyword) && Next(InBlock(keyword), close) == OUTSIDE
    ensures Meaning(OUTSIDE, open) == Silent && Meaning(InBlock(keyword), close) == Silent
  {
    assert "require " + "(" == "require (" && "replace " + "(" == "replace (";
    OpenersDiffer(open);
    PrefixAt(open, keyword + "(", 0);
    PrefixAt(open, "//", 0);
    PrefixAt(open, "module ", 0);
    PrefixAt(open, "go ", 0);
  }

  lemma SaidNothing(ds: seq<Directive>)
    ensures Said([Silent] + ds + [Silent]) == Said(ds)
  {
    SaidSplit([Silent] + ds, [Silent]);
    SaidSplit([Silent], ds);
    assert Said([Silent]) == [] && [] + Said(ds) + [] == Said(ds);
  }

  lemma BlockDesugars(item: Item)
    requires item.Block? && WellFormed(item)
    ensures After(OUTSIDE, LinesOf(item)) == OUTSIDE == After(OUTSIDE, OneLinersOf(item))
    ensures Said(Directives(OUTSIDE, LinesOf(item))) == Said(Directives(OUTSIDE, OneLinersOf(item)))
  {
    var b := InBlock(item.keyword);
    DelimitersSilent(item.keyword, TrimSpace(item.open), TrimSpace(item.close));
    BodyOutOfBlock(item.keyword, item.body);
    hide TrimSpace, Meaning, Next, Said, HasPrefix, MayStandIn, OneLiners, Directives, After;
    DirectivesSplit(OUTSIDE, [item.open] + item.body, [item.close]);
    DirectivesSplit(OUTSIDE, [item.open], item.body);
    OneLineOnly(OUTSIDE, item.open);
    OneLineOnly(b, item.close);
    SaidNothing(Directives(b, item.body));
  }

  lemma {:induction false} BlocksDesugar(items: seq<Item>)
    requires forall i :: 0 <= i < |items| ==> WellFormed(items[i])
    ensures After(OUTSIDE, Written(items)) == OUTSIDE == After(OUTSIDE, Desugared(items))
    ensures Said(Directives(OUTSIDE, Written(items))) == Said(Directives(OUTSIDE, Desugared(items)))
    decreases |items|
  {
    if items != [] {
      var n := |items| - 1;
      var w, o := LinesOf(items[n]), OneLinersOf(items[n]);
      BlocksDesugar(items[..n]);
      ItemDesugars(items[n]);
      hide TrimSpace, Meaning, Next, Said, HasPrefix, Directives, After, LinesOf, OneLinersOf, WellFormed;
      DirectivesSplit(OUTSIDE, Written(items[..n]), w);
      DirectivesSplit(OUTSIDE, Desugared(items[..n]), o);
      SaidSplit(Directives(OUTSIDE, Written(items[..n])), Directives(OUTSIDE, w));
      SaidSplit(Directives(OUTSIDE, Desugared(items[..n])), Directives(OUTSIDE, o));
    }
  }

  lemma ItemDesugars(item: Item)
    requires WellFormed(item)
    ensures After(OUTSIDE, LinesOf(item)) == OUTSIDE == After(OUTSIDE, OneLinersOf(item))
    ensures Said(Directives(OUTSIDE, LinesOf(item))) == Said(Directives(OUTSIDE, OneLinersOf(item)))
  {
    if item.Block? {
      BlockDesugars(item);
    } else {
      OneLineOnly(OUTSIDE, item.line);
    }
  }

  // Whole files

  function File(lines: seq<string>): string {
    if lines == [] then "" else Unlines(lines)
  }

  lemma LinesOfText(lines: seq<string>)
    requires forall i :: 0 <= i < |lines| ==> SingleLine(lines[i])
    ensures Said(Directives(OUTSIDE, Lines(File(lines)))) == Said(Directives(OUTSIDE, lines))
  {
    if lines != [] {
      LinesOfUnlines(lines);
    } else {
      OneLineOnly(OUTSIDE, "");
      assert Meaning(OUTSIDE, TrimSpace("")) == Silent;
    }
  }

  lemma {:induction false} TrimRightKeeps(s: string, c: char)
    ensures c in TrimRight(s, IsSpace) ==> c in s
    decreases |s|
  {
    if s != "" {
      TrimRightKeeps(s[..|s| - 1], c);
    }
  }

  lemma {:induction false} TrimLeftKeeps(s: string, c: char)
    ensures c in TrimLeft(s, IsSpace) ==> c in s
    decreases |s|
  {
    if s != "" {
      TrimLeftKeeps(s[1..], c);
    }
  }

  /** Desugared files have no block delimiters and no line breaks inside a line. */
  ghost predicate PlainLine(line: string) {
    SingleLine(line) && !Opens(TrimSpace(line))
  }

  ghost predicate AllPlain(lines: seq<string>) {
    forall i :: 0 <= i < |lines| ==> PlainLine(lines[i])
  }

  lemma OneLinePlain(keyword: string, line: string)
    requires keyword == "require " || keyword == "replace "
    requires SingleLine(line) && MayStandIn(keyword, TrimSpace(line))
    ensures PlainLine(OneLine(keyword, line))
  {
    TrimmedEnds(line);
    if Blank(TrimSpace(line)) {
      NoDelimiter(OUTSIDE, TrimSpace(line));
    } else {
      TrimLeftKeeps(line, '\n');
      TrimRightKeeps(TrimLeft(line, IsSpace), '\n');
      KeywordLine(keyword, TrimSpace(line));
    }
  }

  lemma {:induction false} FilesHaveSingleLines(items: seq<Item>)
    requires forall i :: 0 <= i < |items| ==> WellFormed(items[i])
    ensures forall i :: 0 <= i < |Written(items)| ==> SingleLine(Written(items)[i])
    ensures AllPlain(Desugared(items))
    decreases |items|
  {
    if items != [] {
      var n := |items| - 1;
      FilesHaveSingleLines(items[..n]);
      ItemHasSingleLines(items[n]);
    }
  }

  lemma ItemHasSingleLines(item: Item)
    requires WellFormed(item)
    ensures forall i :: 0 <= i < |LinesOf(item)| ==> SingleLine(LinesOf(item)[i])
    ensures AllPlain(OneLinersOf(item))
  {
    hide HasPrefix, TrimSpace, OneLine, MayStandIn, SingleLine, PlainLine;
    if item.Block? {
      forall i | 0 <= i < |item.body|
        ensures PlainLine(OneLiners(item.keyword, item.body)[i])
      {
        OneLinePlain(item.keyword, item.body[i]);
      }
    } else {
      PlainMeans(item.line);
    }
  }

  lemma PlainMeans(line: string)
    ensures PlainLine(line) <==> SingleLine(line) && !Opens(TrimSpace(line))
  {}

  /** Writing every item of every block as a directive of its own changes nothing the reader returns. */
  lemma DesugaringKeepsMeaning(items: seq<Item>)
    requires forall i :: 0 <= i < |items| ==> WellFormed(items[i])
    ensures SameButWording(Read(File(Written(items))), Read(File(Desugared(items))))
  {
    FilesHaveSingleLines(items);
    BlocksDesugar(items);
    LinesOfText(Written(items));
    LinesOfText(Desugared(items));
    SaidDecides(Directives(OUTSIDE, Lines(File(Written(items)))), Directives(OUTSIDE, Lines(File(Desugared(items)))));
  }

  // The order of directives

  function Alone(): string -> Directive {
    line => Meaning(OUTSIDE, TrimSpace(line))
  }

  function IsRequire(): string -> bool {
    line => HasPrefix(TrimSpace(line), "require ")
  }

  function IsReplace(): string -> bool {
    line => HasPrefix(TrimSpace(line), "replace ")
  }

  function IsOther(): string -> bool {
    line => !HasPrefix(TrimSpace(line), "require ") && !HasPrefix(TrimSpace(line), "replace ")
  }

  lemma {:induction false} PlainDirectives(lines: seq<string>)
    requires AllPlain(lines)
    ensures After(OUTSIDE, lines) == OUTSIDE && Directives(OUTSIDE, lines) == Map(lines, Alone())
    decreases |lines|
  {
    hide *;
    if lines == [] {
      Empty(OUTSIDE);
      MapEach(lines, Alone());
    } else {
      var front, line := lines[..|lines| - 1], lines[|lines| - 1];
      PlainFront(lines);
      PlainDirectives(front);
      AddLine(OUTSIDE, lines, |lines| - 1);
      PlainAlone(line);
      assert lines == front + [line] && lines[..|lines|] == lines;
      MapAppend(front, line, Alone());
    }
  }

  lemma PlainFront(lines: seq<string>)
    requires AllPlain(lines) && lines != []
    ensures AllPlain(lines[..|lines| - 1]) && PlainLine(lines[|lines| - 1])
  {}

  lemma PlainAlone(line: string)
    requires PlainLine(line)
    ensures Next(OUTSIDE, TrimSpace(line)) == OUTSIDE
    ensures Meaning(OUTSIDE, TrimSpace(line)) == Alone()(line)
  {
    hide HasPrefix, TrimSpace, Meaning;
  }

  /** Outside blocks, the first word of a line decides what it can say. */
  lemma KindOfLine(line: string)
    ensures Alone()(line).Require? ==> IsRequire()(line)
    ensures Alone()(line).Replace? ==> IsReplace()(line)
    ensures Alone()(line).ModuleIs? || Alone()(line).GoIs? ==> IsOther()(line)
    ensures Alone()(line).Require? || Alone()(line).Replace? ==> !IsOther()(line)
  {
    hide TrimSpace, HasPrefix, Meaning;
    KindOfTrimmed(TrimSpace(line));
  }

  lemma KindOfTrimmed(t: string)
    ensures Meaning(OUTSIDE, t).Require? ==> HasPrefix(t, "require ")
    ensures Meaning(OUTSIDE, t).Replace? ==> HasPrefix(t, "replace ")
    ensures Meaning(OUTSIDE, t).ModuleIs? || Meaning(OUTSIDE, t).GoIs? ==> !HasPrefix(t, "require ") && !HasPrefix(t, "replace ")
  {
    PrefixAt(t, "require ", 0);
    PrefixAt(t, "replace ", 0);
    PrefixAt(t, "module ", 0);
    PrefixAt(t, "go ", 0);
    hide TrimSpace, Fields, Cut, ParseRequire, HasPrefix;
  }

  lemma NoLines(kind: string -> bool)
    ensures Filter([], kind) == [] && Map([], Alone()) == []
  {}

  lemma RequireLinesDecideStep(a: seq<Directive>, b: seq<Directive>, d: Directive, last: seq<Directive>)
    requires Required(a) == Required(b)
    requires last == [d] || (last == [] && !d.Require?)
    ensures Required(a + [d]) == Required(b + last)
  {
    assert (a + [d])[..|a + [d]| - 1] == a && (b + [d])[..|b + [d]| - 1] == b && b + [] == b;
  }

  lemma {:induction false} RequireLinesDecide(lines: seq<string>)
    ensures Required(Map(lines, Alone())) == Required(Map(Filter(lines, IsRequire()), Alone()))
    decreases |lines|
  {
    hide *;
    if lines == [] {
      NoLines(IsRequire());
    } else {
      var front, line := lines[..|lines| - 1], lines[|lines| - 1];
      RequireLinesDecide(front);
      KindOfLine(line);
      OneMoreOfKind(front, line, IsRequire());
      MapAppend(front, line, Alone());
      assert front + [line] == lines;
      RequireLinesDecideStep(Map(front, Alone()), Map(Filter(front, IsRequire()), Alone()), Alone()(line),
                             if IsRequire()(line) then [Alone()(line)] else []);
    }
  }

  lemma ReplaceLinesDecideStep(a: seq<Directive>, b: seq<Directive>, d: Directive, last: seq<Directive>)
    requires forall p :: Target(a, p) == Target(b, p)
    requires last == [d] || (last == [] && !d.Replace?)
    ensures forall p :: Target(a + [d], p) == Target(b + last, p)
  {
    assert (a + [d])[..|a + [d]| - 1] == a && (b + [d])[..|b + [d]| - 1] == b && b + [] == b;
  }

  lemma {:induction false} ReplaceLinesDecide(lines: seq<string>)
    ensures forall p :: Target(Map(lines, Alone()), p) == Target(Map(Filter(lines, IsReplace()), Alone()), p)
    decreases |lines|
  {
    hide *;
    if lines == [] {
      NoLines(IsReplace());
    } else {
      var front, line := lines[..|lines| - 1], lines[|lines| - 1];
      ReplaceLinesDecide(front);
      KindOfLine(line);
      OneMoreOfKind(front, line, IsReplace());
      MapAppend(front, line, Alone());
      assert front + [line] == lines;
      ReplaceLinesDecideStep(Map(front, Alone()), Map(Filter(front, IsReplace()), Alone()), Alone()(line),
                             if IsReplace()(line) then [Alone()(line)] else []);
    }
  }

  lemma OtherLinesDecideStep(a: seq<Directive>, b: seq<Directive>, d: Directive, last: seq<Directive>)
    requires ModulePath(a) == ModulePath(b) && GoVersion(a) == GoVersion(b)
    requires last == [d] || (last == [] && !d.ModuleIs? && !d.GoIs?)
    ensures ModulePath(a + [d]) == ModulePath(b + last) && GoVersion(a + [d]) == GoVersion(b + last)
  {
    assert (a + [d])[..|a + [d]| - 1] == a && (b + [d])[..|b + [d]| - 1] == b && b + [] == b;
  }

  lemma {:induction false} OtherLinesDecide(lines: seq<string>)
    ensures ModulePath(Map(lines, Alone())) == ModulePath(Map(Filter(lines, IsOther()), Alone())) && GoVersion(Map(lines, Alone())) == GoVersion(Map(Filter(lines, IsOther()), Alone()))
    decreases |lines|
  {
    hide *;
    if lines == [] {
      NoLines(IsOther());
    } else {
      var front, line := lines[..|lines| - 1], lines[|lines| - 1];
      OtherLinesDecide(front);
      KindOfLine(line);
      OneMoreOfKind(front, line, IsOther());
      MapAppend(front, line, Alone());
      assert front + [line] == lines;
      OtherLinesDecideStep(Map(front, Alone()), Map(Filter(front, IsOther()), Alone()), Alone()(line),
                           if IsOther()(line) then [Alone()(line)] else []);
    }
  }

  lemma OneMoreOfKind(front: seq<string>, line: string, kind: string -> bool)
    ensures Map(Filter(front + [line], kind), Alone())
         == Map(Filter(front, kind), Alone()) + if kind(line) then [Alone()(line)] else []
  {
    hide *;
    FilterAppend(front, line, kind);
    MapAppend(Filter(front, kind), line, Alone());
    assert Filter(front, kind) + [] == Filter(front, kind);
  }

  function IsUnread(): Directive -> bool {
    (d: Directive) => d.Unread?
  }

  function Wording(): Directive -> string {
    (d: Directive) => if d.Unread? then d.warning else ""
  }

  lemma {:induction false} WarningsAre(ds: seq<Directive>)
    ensures Warnings(ds) == Map(Filter(ds, IsUnread()), Wording())
    decreases |ds|
  {
    if ds != [] {
      var front, d := ds[..|ds| - 1], ds[|ds| - 1];
      WarningsAre(front);
      MapAppend(Filter(front, IsUnread()), d, Wording());
      assert Filter(front, IsUnread()) + [] == Filter(front, IsUnread());
    }
  }

  /** The same require lines, the same replace lines and the same other lines, each in their own order. */
  ghost predicate Reordered(a: seq<string>, b: seq<string>) {
    && Filter(a, IsRequire()) == Filter(b, IsRequire())
    && Filter(a, IsReplace()) == Filter(b, IsReplace())
    && Filter(a, IsOther()) == Filter(b, IsOther())
  }

  lemma SomeKind(line: string)
    ensures IsRequire()(line) || IsReplace()(line) || IsOther()(line)
  {
    hide HasPrefix, TrimSpace;
  }

  lemma ReorderedPermutes(a: seq<string>, b: seq<string>)
    requires Reordered(a, b)
    ensures multiset(a) == multiset(b)
  {
    hide Filter, IsRequire, IsReplace, IsOther;
    forall x: string
      ensures multiset(a)[x] == multiset(b)[x]
    {
      SomeKind(x);
      FilterCounts(a, IsRequire(), x);
      FilterCounts(b, IsRequire(), x);
      FilterCounts(a, IsReplace(), x);
      FilterCounts(b, IsReplace(), x);
      FilterCounts(a, IsOther(), x);
      FilterCounts(b, IsOther(), x);
    }
  }

  /** Inventories that differ at most in the order of their warnings, which the caller sorts. */
  ghost predicate SameButOrder(a: Inventory, b: Inventory) {
    && a.modules == b.modules && a.modulePath == b.modulePath && a.goVersion == b.goVersion
    && multiset(a.warnings) == multiset(b.warnings)
  }

  /** Where require and replace directives stand among each other is immaterial. */
  lemma OrderIsImmaterial(a: seq<string>, b: seq<string>)
    requires AllPlain(a)
    requires AllPlain(b)
    requires Reordered(a, b)
    ensures SameButOrder(Declared(Directives(OUTSIDE, a)), Declared(Directives(OUTSIDE, b)))
  {
    var x, y := Map(a, Alone()), Map(b, Alone());
    hide *;
    PlainDirectives(a);
    PlainDirectives(b);
    ReorderedPermutes(a, b);
    MapPermuted(a, b, Alone());
    PermutedWarnings(x, y);
    SameKinds(a, b);
    DeclareAlike(x, y);
  }

  lemma DeclareAlike(x: seq<Directive>, y: seq<Directive>)
    requires Required(x) == Required(y) && ModulePath(x) == ModulePath(y) && GoVersion(x) == GoVersion(y)
    requires forall m :: Resolve(x)(m) == Resolve(y)(m)
    requires multiset(Warnings(x)) == multiset(Warnings(y))
    ensures SameButOrder(Declared(x), Declared(y))
  {
    MapAgrees(Required(x), Resolve(x), Resolve(y));
    hide Required, Resolve, ModulePath, GoVersion, Map, Warnings;
  }

  lemma SameKinds(a: seq<string>, b: seq<string>)
    requires Reordered(a, b)
    ensures Required(Map(a, Alone())) == Required(Map(b, Alone()))
    ensures ModulePath(Map(a, Alone())) == ModulePath(Map(b, Alone()))
    ensures GoVersion(Map(a, Alone())) == GoVersion(Map(b, Alone()))
    ensures forall m :: Resolve(Map(a, Alone()))(m) == Resolve(Map(b, Alone()))(m)
  {
    RequireLinesDecide(a);
    RequireLinesDecide(b);
    ReplaceLinesDecide(a);
    ReplaceLinesDecide(b);
    OtherLinesDecide(a);
    OtherLinesDecide(b);
    hide Map, Filter, Alone, IsRequire, IsReplace, IsOther, Required, Target, ModulePath, GoVersion;
  }

  lemma PermutedWarnings(x: seq<Directive>, y: seq<Directive>)
    requires multiset(x) == multiset(y)
    ensures multiset(Warnings(x)) == multiset(Warnings(y))
  {
    hide *;
    FilterPermuted(x, y, IsUnread());
    MapPermuted(Filter(x, IsUnread()), Filter(y, IsUnread()), Wording());
    WarningsAre(x);
    WarningsAre(y);
  }

  /** The same for whole files, blocks included. */
  lemma ReorderingKeepsMeaning(a: seq<Item>, b: seq<Item>)
    requires forall i :: 0 <= i < |a| ==> WellFormed(a[i])
    requires forall i :: 0 <= i < |b| ==> WellFormed(b[i])
    requires Reordered(Desugared(a), Desugared(b))
    ensures SameButWording(Read(File(Written(a))), Read(File(Written(b))))
  {
    hide *;
    FileMeans(a);
    FileMeans(b);
    OrderIsImmaterial(Desugared(a), Desugared(b));
    Alike(Read(File(Written(a))), Declared(Directives(OUTSIDE, Desugared(a))),
          Declared(Directives(OUTSIDE, Desugared(b))), Read(File(Written(b))));
  }

  lemma Alike(a: Inventory, x: Inventory, y: Inventory, b: Inventory)
    requires SameButWording(a, x) && SameButWording(b, y)
    requires SameButOrder(x, y)
    ensures SameButWording(a, b)
  {
    assert |multiset(x.warnings)| == |x.warnings| && |multiset(y.warnings)| == |y.warnings|;
  }

  lemma FileMeans(items: seq<Item>)
    requires forall i :: 0 <= i < |items| ==> WellFormed(items[i])
    ensures SameButWording(Read(File(Written(items))), Declared(Directives(OUTSIDE, Desugared(items))))
    ensures AllPlain(Desugared(items))
  {
    FilesHaveSingleLines(items);
    BlocksDesugar(items);
    LinesOfText(Written(items));
    SaidDecides(Directives(OUTSIDE, Lines(File(Written(items)))), Directives(OUTSIDE, Desugared(items)));
  }
}

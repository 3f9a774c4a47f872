/** Writing go.mod directives out and reading them back. */
module GoModText {
  import opened Options
  import opened Text
  import opened Seqs
  import opened GoMod

  // Pieces

  ghost predicate IsWord(s: string) {
    s != "" && forall i :: 0 <= i < |s| ==> !IsSpace(s[i])
  }

  /** The pair of characters ab stands nowhere in s. */
  ghost predicate Without(s: string, a: char, b: char) {
    forall i :: 0 <= i < |s| - 1 ==> !(s[i] == a && s[i + 1] == b)
  }

  ghost predicate Trimmed(s: string) {
    s != "" && !IsSpace(s[0]) && !IsSpace(s[|s| - 1])
  }

  lemma TrimmedStays(s: string)
    requires Trimmed(s)
    ensures TrimSpace(s) == s
  {}

  lemma TrimmedAfterSpace(s: string)
    requires Trimmed(s)
    ensures TrimSpace(" " + s) == s && TrimSpace(s + " ") == s
  {
    assert (" " + s)[1..] == s && (s + " ")[..|s|] == s;
    assert TrimLeft(" " + s, IsSpace) == TrimLeft(s, IsSpace);
    assert TrimRight(s + " ", IsSpace) == TrimRight(s, IsSpace);
    assert TrimLeft(s + " ", IsSpace) == s + " ";
    assert TrimRight(s, IsSpace) == s && TrimLeft(s, IsSpace) == s;
  }

  lemma {:induction false} TokenOf(w: string, rest: string)
    requires forall i :: 0 <= i < |w| ==> !IsSpace(w[i])
    requires rest == "" || IsSpace(rest[0])
    ensures Token(w + rest) == w
    decreases |w|
  {
    if w == "" {
      assert w + rest == rest;
    } else {
      TokenOf(w[1..], rest);
      assert (w + rest)[1..] == w[1..] + rest && [w[0]] + w[1..] == w;
    }
  }

  lemma FieldsOfWord(w: string)
    requires IsWord(w)
    ensures Fields(w) == [w]
  {
    TokenOf(w, "");
    assert w + "" == w && w[|w|..] == "";
    assert TrimLeft(w, IsSpace) == w;
  }

  lemma FirstField(w: string, rest: string)
    requires IsWord(w) && (rest == "" || IsSpace(rest[0]))
    ensures Fields(w + rest) == [w] + Fields(rest)
  {
    TokenOf(w, rest);
    assert TrimLeft(w + rest, IsSpace) == w + rest;
    assert (w + rest)[|w|..] == rest;
  }

  lemma FieldsOfTwo(w: string, v: string)
    requires IsWord(w) && IsWord(v)
    ensures Fields(w + " " + v) == [w, v]
  {
    FirstField(w, " " + v);
    FieldsOfWord(v);
    assert w + (" " + v) == w + " " + v && (" " + v)[1..] == v;
    assert TrimLeft(" " + v, IsSpace) == TrimLeft(v, IsSpace);
    assert TrimLeft(v, IsSpace) == v;
    assert Fields(" " + v) == Fields(v);
  }

  lemma PairPrefix(s: string, a: char, b: char)
    ensures HasPrefix(s, [a, b]) <==> |s| >= 2 && s[0] == a && s[1] == b
  {
    PrefixAt(s, [a, b], 0);
    PrefixAt(s, [a, b], 1);
    assert |s| >= 2 && s[0] == a && s[1] == b ==> s[..2] == [a, b];
  }

  /** The cut falls where the separator, a pair of characters, is known to stand, if it stands nowhere before. */
  lemma {:induction false} CutAt(before: string, a: char, b: char, after: string)
    requires Without(before, a, b) && (before == "" || before[|before| - 1] != a)
    ensures Cut(before + [a, b] + after, [a, b]) == Some((before, after))
    decreases |before|
  {
    var s := before + [a, b] + after;
    PairPrefix(s, a, b);
    if before == "" {
      assert s[2..] == after;
    } else {
      CutAt(before[1..], a, b, after);
      assert s[1..] == before[1..] + [a, b] + after && [before[0]] + before[1..] == before;
      assert s[0] == before[0] && s[1] == if |before| > 1 then before[1] else a;
    }
  }

  lemma {:induction false} NoCut(s: string, a: char, b: char)
    requires Without(s, a, b)
    ensures Cut(s, [a, b]) == None
    decreases |s|
  {
    PairPrefix(s, a, b);
    if s != "" {
      NoCut(s[1..], a, b);
    }
  }

  lemma WithoutJoined(s: string, c: char, t: string, a: char, b: char)
    requires Without(s, a, b) && Without(t, a, b) && c != a && c != b
    ensures Without(s + [c] + t, a, b)
  {
    var r := s + [c] + t;
    forall i | 0 <= i < |r| - 1 ensures !(r[i] == a && r[i + 1] == b) {
      if i > |s| {
        assert r[i] == t[i - |s| - 1] && r[i + 1] == t[i - |s|];
      }
    }
  }

  /** A requirement is its first two fields, the path and the version, up to a comment. */
  lemma RequireText(path: string, version: string, comment: string)
    requires IsWord(path) && IsWord(version) && Without(path, '/', '/') && Without(version, '/', '/')
    ensures ParseRequire(path + " " + version) == Some((path, version))
    ensures ParseRequire(path + " " + version + " //" + comment) == Some((path, version))
  {
    hide Cut, Fields, TrimSpace;
    var s := path + " " + version;
    WithoutJoined(path, ' ', version, '/', '/');
    NoCut(s, '/', '/');
    FieldsOfTwo(path, version);
    assert "//" == ['/', '/'] && path + [' '] + version == s;
    SpaceEnds(s);
    CutAt(s + " ", '/', '/', comment);
    assert s + " " + ['/', '/'] + comment == s + " //" + comment;
    TrimmedAfterSpace(s);
  }

  lemma SpaceEnds(s: string)
    requires Without(s, '/', '/')
    ensures Without(s + " ", '/', '/')
  {
    var r := s + " ";
    forall i | 0 <= i < |r| - 1 ensures !(r[i] == '/' && r[i + 1] == '/') {
      assert i + 1 < |s| || r[i + 1] == ' ';
    }
  }

  /** A path alone is no requirement, nor is nothing at all; a replacement needs its arrow. */
  lemma Unreadable(b: Blocks, line: string, w: string)
    requires IsWord(w) && Without(w, '/', '/') && Without(w, '=', '>')
    ensures RequireOf(line, w) == Unread("cannot parse require line: " + line)
    ensures RequireOf(line, "") == Unread("cannot parse require line: " + line)
    ensures ReplaceOf(line, w) == Unread("cannot parse replace line: " + line)
    ensures ReplaceOf(line, "") == Silent
  {
    assert "//" == ['/', '/'] && "=>" == ['=', '>'];
    NoCut(w, '/', '/');
    NoCut("", '/', '/');
    NoCut(w, '=', '>');
    NoCut("", '=', '>');
    FieldsOfWord(w);
    hide Cut;
  }

  // One line

  /** A line for each directive; a replaced path may carry a version, a requirement a comment. */
  function RequireLine(path: string, version: string): string {
    "require " + (path + " " + version)
  }

  function ReplaceLine(path: string, extra: string, target: string): string {
    "replace " + (path + extra + " => " + target)
  }

  lemma ReadsRequire(b: Blocks, path: string, version: string)
    requires IsWord(path) && IsWord(version) && Without(path, '/', '/') && Without(version, '/', '/') && path[0] != '('
    ensures TrimSpace(RequireLine(path, version)) == RequireLine(path, version)
    ensures Meaning(b, RequireLine(path, version)) == Require(path, version)
    ensures Next(b, RequireLine(path, version)) == b && !Opens(RequireLine(path, version))
  {
    var t := path + " " + version;
    RequireText(path, version, "");
    hide ParseRequire, TrimSpace, HasPrefix;
    PrefixAt(t, "(", 0);
    assert t[0] == path[0] && t[|t| - 1] == version[|version| - 1];
    KeywordLine("require ", t);
    TrimmedStays(t);
  }

  lemma ReadsReplace(b: Blocks, path: string, extra: string, target: string)
    requires IsWord(path) && path[0] != '(' && Trimmed(target)
    requires (extra == "" || IsSpace(extra[0])) && Without(path + extra, '=', '>') && !b.require_
    ensures TrimSpace(ReplaceLine(path, extra, target)) == ReplaceLine(path, extra, target)
    ensures Meaning(b, ReplaceLine(path, extra, target)) == Replace(path, target)
    ensures Next(b, ReplaceLine(path, extra, target)) == b && !Opens(ReplaceLine(path, extra, target))
  {
    var left := path + extra;
    var t := left + " => " + target;
    ReplaceText(path, extra, target);
    hide Cut, Fields, TrimSpace, HasPrefix;
    PrefixAt(t, "(", 0);
    assert t[0] == path[0] && t[|t| - 1] == target[|target| - 1];
    KeywordLine("replace ", t);
    TrimmedStays(t);
    assert ReplaceLine(path, extra, target) == "replace " + t;
  }

  lemma ReplaceText(path: string, extra: string, target: string)
    requires IsWord(path) && Trimmed(target)
    requires (extra == "" || IsSpace(extra[0])) && Without(path + extra, '=', '>')
    ensures forall line :: ReplaceOf(line, path + extra + " => " + target) == Replace(path, target)
  {
    hide Cut, Fields, TrimSpace;
    var left := path + extra + " ";
    ArrowEnds(path + extra);
    CutAt(left, '=', '>', " " + target);
    assert "=>" == ['=', '>'] && left + ['=', '>'] + (" " + target) == path + extra + " => " + target;
    FirstField(path, extra + " ");
    assert path + (extra + " ") == left;
    TrimmedAfterSpace(target);
  }

  lemma ArrowEnds(s: string)
    requires Without(s, '=', '>')
    ensures Without(s + " ", '=', '>')
  {
    var r := s + " ";
    forall i | 0 <= i < |r| - 1 ensures !(r[i] == '=' && r[i + 1] == '>') {
      assert i + 1 < |s| || r[i + 1] == ' ';
    }
  }

  lemma ReadsModule(b: Blocks, path: string)
    requires Trimmed(path)
    ensures TrimSpace("module " + path) == "module " + path
    ensures Meaning(b, "module " + path) == ModuleIs(path) && Next(b, "module " + path) == b && !Opens("module " + path)
  {
    var s := "module " + path;
    assert s[0] == 'm' && s[|s| - 1] == path[|path| - 1];
    PrefixOfJoined("module ", path, "");
    TrimmedStays(s);
    TrimmedStays(path);
    PrefixAt(s, "//", 0);
    NoDelimiter(b, s);
  }

  lemma ReadsGo(b: Blocks, version: string)
    requires Trimmed(version)
    ensures TrimSpace("go " + version) == "go " + version
    ensures Meaning(b, "go " + version) == GoIs(version) && Next(b, "go " + version) == b && !Opens("go " + version)
  {
    var s := "go " + version;
    assert s[0] == 'g' && s[|s| - 1] == version[|version| - 1];
    PrefixOfJoined("go ", version, "");
    TrimmedStays(s);
    TrimmedStays(version);
    PrefixAt(s, "//", 0);
    PrefixAt(s, "module ", 0);
    NoDelimiter(b, s);
  }

  /** Blank lines and comments say nothing, in or outside blocks. */
  lemma BlankSays(b: Blocks, comment: string)
    ensures Meaning(b, "") == Silent && Meaning(b, "//" + comment) == Silent
    ensures Next(b, "") == b && Next(b, "//" + comment) == b
  {
    assert ("//" + comment)[..2] == "//";
    NoDelimiter(b, "");
    NoDelimiter(b, "//" + comment);
  }

  // Whole files

  function WriteLine(d: Directive): string {
    match d
    case Silent => ""
    case ModuleIs(path) => "module " + path
    case GoIs(version) => "go " + version
    case Require(path, version) => RequireLine(path, version)
    case Replace(path, target) => ReplaceLine(path, "", target)
    case Unread(_) => ""
  }

  /** Directives that can be written on a line of their own. */
  ghost predicate Writable(d: Directive) {
    match d
    case Silent => true
    case ModuleIs(path) => Trimmed(path) && '\n' !in path
    case GoIs(version) => Trimmed(version) && '\n' !in version
    case Require(path, version) =>
      IsWord(path) && IsWord(version) && Without(path, '/', '/') && Without(version, '/', '/') && path[0] != '('
    case Replace(path, target) =>
      IsWord(path) && Without(path, '=', '>') && path[0] != '(' && Trimmed(target) && '\n' !in target
    case Unread(_) => false
  }

  lemma ReadsBack(d: Directive)
    requires Writable(d)
    ensures Meaning(OUTSIDE, TrimSpace(WriteLine(d))) == d && !Opens(TrimSpace(WriteLine(d)))
  {
    hide Meaning, HasPrefix, TrimSpace, IsWord;
    match d
    case Silent => NothingReads();
    case ModuleIs(path) => ReadsModule(OUTSIDE, path);
    case GoIs(version) => ReadsGo(OUTSIDE, version);
    case Require(path, version) => ReadsRequire(OUTSIDE, path, version);
    case Replace(path, target) =>
      assert path + "" == path;
      ReadsReplace(OUTSIDE, path, "", target);
  }

  lemma NothingReads()
    ensures Meaning(OUTSIDE, TrimSpace("")) == Silent && !Opens(TrimSpace(""))
  {}

  lemma WordIsLine(w: string)
    requires IsWord(w)
    ensures '\n' !in w
  {
    forall c | c in w ensures c != '\n' {
      var i :| 0 <= i < |w| && w[i] == c;
      assert !IsSpace(w[i]);
    }
  }

  lemma WritesLine(d: Directive)
    requires Writable(d)
    ensures SingleLine(WriteLine(d))
  {
    hide IsWord, Without;
    match d
    case Require(path, version) =>
      WordIsLine(path);
      WordIsLine(version);
    case Replace(path, target) => WordIsLine(path);
    case _ =>
  }

  ghost predicate AllWritable(ds: seq<Directive>) {
    forall i :: 0 <= i < |ds| ==> Writable(ds[i])
  }

  lemma {:induction false} LinesReadBack(ds: seq<Directive>)
    requires AllWritable(ds)
    ensures AllPlain(Map(ds, WriteLine)) && Map(Map(ds, WriteLine), Alone()) == ds
    decreases |ds|
  {
    hide Meaning, WriteLine, HasPrefix, TrimSpace;
    if ds != [] {
      var front, d := ds[..|ds| - 1], ds[|ds| - 1];
      LinesReadBack(front);
      ReadsBack(d);
      WritesLine(d);
      MapAppend(Map(front, WriteLine), WriteLine(d), Alone());
      assert ds == front + [d];
    }
  }

  lemma PlainFile(lines: seq<string>, ds: seq<Directive>)
    requires lines != [] && AllPlain(lines) && Map(lines, Alone()) == ds
    ensures Read(Unlines(lines)) == Declared(ds)
  {
    hide *;
    ReadIs(Unlines(lines));
    PlainLines(lines);
    PlainDirectives(lines);
    LinesOfUnlines(lines);
  }

  function Write(ds: seq<Directive>): seq<string> {
    Map(ds, WriteLine)
  }

  lemma WritesBack(ds: seq<Directive>)
    requires AllWritable(ds)
    ensures |Write(ds)| == |ds| && AllPlain(Write(ds)) && Map(Write(ds), Alone()) == ds
  {
    hide Map, WriteLine, AllWritable, AllPlain, Alone;
    MapEach(ds, WriteLine);
    LinesReadBack(ds);
  }

  /** Reading a file written from directives finds exactly them. */
  lemma RoundTrip(ds: seq<Directive>)
    requires ds != [] && AllWritable(ds)
    ensures Read(Unlines(Write(ds))) == Declared(ds)
  {
    hide *;
    WritesBack(ds);
    PlainFile(Write(ds), ds);
  }

  lemma ReadIs(text: string)
    ensures Read(text) == Declared(Directives(OUTSIDE, Lines(text)))
  {}

  lemma PlainLines(lines: seq<string>)
    requires AllPlain(lines)
    ensures forall i :: 0 <= i < |lines| ==> SingleLine(lines[i])
  {}

  // What directives declare

  function IsRequirement(): Directive -> bool {
    (d: Directive) => d.Require?
  }

  function Required1(): Directive -> Module {
    (d: Directive) => if d.Require? then Module(d.path, d.version, "", true) else Module("", "", "", true)
  }

  lemma {:induction false} RequiredAre(ds: seq<Directive>)
    ensures Required(ds) == Map(Filter(ds, IsRequirement()), Required1())
    decreases |ds|
  {
    if ds != [] {
      var front, d := ds[..|ds| - 1], ds[|ds| - 1];
      RequiredAre(front);
      MapAppend(Filter(front, IsRequirement()), d, Required1());
      assert Filter(front, IsRequirement()) + [] == Filter(front, IsRequirement());
    }
  }

  /** The i-th module is the i-th requirement, direct, with what the replacements make of its path. */
  lemma ModulesAre(ds: seq<Directive>, i: nat)
    requires i < |Filter(ds, IsRequirement())|
    ensures |Declared(ds).modules| == |Filter(ds, IsRequirement())|
    ensures Filter(ds, IsRequirement())[i].Require?
    ensures var r := Filter(ds, IsRequirement())[i];
      Declared(ds).modules[i] == Module(r.path, r.version, Target(ds, r.path), true)
  {
    RequiredAre(ds);
    FilterMembers(ds, IsRequirement(), Filter(ds, IsRequirement())[i]);
    MapEach(Filter(ds, IsRequirement()), Required1());
    MapEach(Required(ds), Resolve(ds));
    hide Filter, Map, Target, Required;
  }

  /** The last module directive counts, and the last go directive. */
  lemma {:induction false} ModulePathIsLast(ds: seq<Directive>, k: nat)
    requires k < |ds| && ds[k].ModuleIs? && forall j :: k < j < |ds| ==> !ds[j].ModuleIs?
    ensures ModulePath(ds) == ds[k].path
    decreases |ds|
  {
    if k < |ds| - 1 {
      ModulePathIsLast(ds[..|ds| - 1], k);
    }
  }

  lemma {:induction false} GoVersionIsLast(ds: seq<Directive>, k: nat)
    requires k < |ds| && ds[k].GoIs? && forall j :: k < j < |ds| ==> !ds[j].GoIs?
    ensures GoVersion(ds) == ds[k].version
    decreases |ds|
  {
    if k < |ds| - 1 {
      GoVersionIsLast(ds[..|ds| - 1], k);
    }
  }

  lemma {:induction false} NamesMissing(ds: seq<Directive>)
    ensures (forall j :: 0 <= j < |ds| ==> !ds[j].ModuleIs?) ==> ModulePath(ds) == ""
    ensures (forall j :: 0 <= j < |ds| ==> !ds[j].GoIs?) ==> GoVersion(ds) == ""
    decreases |ds|
  {
    if ds != [] {
      NamesMissing(ds[..|ds| - 1]);
    }
  }
}

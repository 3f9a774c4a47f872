/** Canonical identifiers (sanitizeID in internal/analyze/ci_handoff_ext.go). */
module SanitizeId {
  import opened Text

  predicate Alnum(c: char) {
    'a' <= c <= 'z' || '0' <= c <= '9'
  }

  predicate AllAlnum(s: string) {
    forall i :: 0 <= i < |s| ==> Alnum(s[i])
  }

  /** Unicode's lower-casing and white space, whatever they do outside [a-z0-9-]. */
  datatype Unicode = Unicode(lower: char -> char, space: char -> bool)

  ghost predicate Sane(u: Unicode) {
    forall c :: Alnum(c) || c == '-' ==> u.lower(c) == c && !u.space(c)
  }

  // The function, step by step

  function IsDash(): char -> bool {
    c => c == '-'
  }

  function Lowered(u: Unicode, s: string): string {
    var t := Trim(s, u.space);
    seq(|t|, i requires 0 <= i < |t| => u.lower(t[i]))
  }

  /** The buffer after one more rune: no dash is written after a dash. */
  function Push(b: string, c: char): string {
    if Alnum(c) then b + [c]
    else if b == "" || b[|b| - 1] != '-' then b + "-"
    else b
  }

  function Collapse(s: string): string {
    if s == "" then "" else Push(Collapse(s[..|s| - 1]), s[|s| - 1])
  }

  function OrItem(s: string): string {
    if s == "" then "item" else s
  }

  function Sanitize(u: Unicode, s: string): string {
    OrItem(Trim(Collapse(Lowered(u, s)), IsDash()))
  }

  method SanitizeID(u: Unicode, s: string) returns (out: string)
    ensures out == Sanitize(u, s)
  {
    var t := Lowered(u, s);
    var b := "";
    for i := 0 to |t|
      invariant b == Collapse(t[..i])
    {
      assert t[..i + 1][..i] == t[..i];
      var r := t[i];
      if Alnum(r) {
        b := b + [r];
      } else if |b| == 0 || b[|b| - 1] != '-' {
        b := b + "-";
      }
    }
    assert t[..|t|] == t;
    out := Trim(b, IsDash());
    if out == "" {
      out := "item";
    }
  }

  // What it computes: the words of the text, joined by single dashes

  predicate EndsInWord(s: string) {
    s != "" && Alnum(s[|s| - 1])
  }

  /** The maximal runs of [a-z0-9]. */
  function Words(s: string): (ws: seq<string>)
    ensures EndsInWord(s) ==> ws != []
  {
    if s == "" then [] else
    var before, c := s[..|s| - 1], s[|s| - 1];
    var ws := Words(before);
    if !Alnum(c) then ws
    else if EndsInWord(before) then ws[|ws| - 1 := ws[|ws| - 1] + [c]]
    else ws + [[c]]
  }

  function Join(ws: seq<string>): string {
    if ws == [] then "" else if |ws| == 1 then ws[0] else Join(ws[..|ws| - 1]) + "-" + ws[|ws| - 1]
  }

  ghost predicate AreWords(ws: seq<string>) {
    forall i :: 0 <= i < |ws| ==> ws[i] != "" && AllAlnum(ws[i])
  }

  lemma {:induction false} WordsAreWords(s: string)
    ensures AreWords(Words(s))
    decreases |s|
  {
    if s != "" {
      WordsAreWords(s[..|s| - 1]);
    }
  }

  lemma JoinGrow(ws: seq<string>, c: char)
    requires ws != []
    ensures Join(ws[|ws| - 1 := ws[|ws| - 1] + [c]]) == Join(ws) + [c]
  {
    var n := |ws| - 1;
    var grown := ws[n := ws[n] + [c]];
    assert grown[..n] == ws[..n];
    assert Join(ws[..n]) + "-" + (ws[n] + [c]) == Join(ws[..n]) + "-" + ws[n] + [c];
  }

  lemma JoinAdd(ws: seq<string>, w: string)
    ensures Join(ws + [w]) == if ws == [] then w else Join(ws) + "-" + w
  {
    assert (ws + [w])[..|ws|] == ws;
  }

  /** A leading separator leaves a dash in front, a trailing one a dash behind. */
  function Front(s: string): string {
    if s != "" && !Alnum(s[0]) then "-" else ""
  }

  function Back(s: string): string {
    if s != "" && !Alnum(s[|s| - 1]) && Words(s) != [] then "-" else ""
  }

  lemma {:induction false} JoinShape(ws: seq<string>)
    requires AreWords(ws)
    ensures ws != [] ==> Join(ws) != "" && Alnum(Join(ws)[0]) && Alnum(Join(ws)[|Join(ws)| - 1])
    decreases |ws|
  {
    if |ws| == 1 {
      assert ws[0] != "" && AllAlnum(ws[0]);
    } else if ws != [] {
      var n := |ws| - 1;
      JoinShape(ws[..n]);
      assert ws[n] != "" && AllAlnum(ws[n]);
      var j := Join(ws);
      assert j[|j| - 1] == ws[n][|ws[n]| - 1];
      assert j[0] == Join(ws[..n])[0];
    }
  }

  lemma {:induction false} CollapseIsJoin(s: string)
    ensures Collapse(s) == Front(s) + Join(Words(s)) + Back(s)
    decreases |s|
  {
    if s != "" {
      var before, c := s[..|s| - 1], s[|s| - 1];
      CollapseIsJoin(before);
      if !Alnum(c) {
        PushSeparator(s);
      } else if EndsInWord(before) {
        PushInWord(s);
      } else {
        PushNewWord(s);
      }
    }
  }

  lemma Step(s: string)
    requires s != ""
    ensures Collapse(s) == Push(Collapse(s[..|s| - 1]), s[|s| - 1])
    ensures !Alnum(s[|s| - 1]) ==> Words(s) == Words(s[..|s| - 1])
    ensures Alnum(s[|s| - 1]) && !EndsInWord(s[..|s| - 1]) ==> Words(s) == Words(s[..|s| - 1]) + [[s[|s| - 1]]]
    ensures Front(s) == if |s| > 1 then Front(s[..|s| - 1]) else if Alnum(s[0]) then "" else "-"
    ensures Back(s) == if Alnum(s[|s| - 1]) || Words(s) == [] then "" else "-"
  {}

  lemma Nothing()
    ensures Join([]) == "" && Words("") == [] && Collapse("") == "" && Front("") == "" && Back("") == ""
  {}

  lemma PushLetter(f: string, j: string, back: string, c: char)
    requires Alnum(c)
    ensures Push(f + j + back, c) == f + (j + back + [c]) + ""
  {}

  lemma PushDash(f: string, j: string, c: char)
    requires !Alnum(c) && j != "" && j[|j| - 1] != '-'
    ensures Push(f + j + "", c) == f + j + "-" && Push(f + j + "-", c) == f + j + "-"
  {}

  lemma WordsGrow(s: string)
    requires s != "" && Alnum(s[|s| - 1]) && EndsInWord(s[..|s| - 1])
    ensures Join(Words(s)) == Join(Words(s[..|s| - 1])) + [s[|s| - 1]]
  {
    hide Join, Collapse, Front, Back, Alnum;
    JoinGrow(Words(s[..|s| - 1]), s[|s| - 1]);
  }

  lemma PushInWord(s: string)
    requires s != "" && Alnum(s[|s| - 1]) && EndsInWord(s[..|s| - 1])
    requires Collapse(s[..|s| - 1]) == Front(s[..|s| - 1]) + Join(Words(s[..|s| - 1])) + Back(s[..|s| - 1])
    ensures Collapse(s) == Front(s) + Join(Words(s)) + Back(s)
  {
    hide Collapse, Words, Join, Front, Back, Push, Alnum;
    Step(s);
    Step(s[..|s| - 1]);
    WordsGrow(s);
    PushLetter(Front(s[..|s| - 1]), Join(Words(s[..|s| - 1])), "", s[|s| - 1]);
    assert Join(Words(s[..|s| - 1])) + "" + [s[|s| - 1]] == Join(Words(s));
  }

  lemma PushNewWord(s: string)
    requires s != "" && Alnum(s[|s| - 1]) && !EndsInWord(s[..|s| - 1])
    requires Collapse(s[..|s| - 1]) == Front(s[..|s| - 1]) + Join(Words(s[..|s| - 1])) + Back(s[..|s| - 1])
    ensures Collapse(s) == Front(s) + Join(Words(s)) + Back(s)
  {
    var before, c := s[..|s| - 1], s[|s| - 1];
    hide Collapse, Words, Join, Front, Back, Push;
    Step(s);
    Nothing();
    JoinAdd(Words(before), [c]);
    if before != "" {
      Step(before);
    }
    PushLetter(Front(before), Join(Words(before)), Back(before), c);
    if Words(before) == [] {
      assert "" + "" + [c] == [c];
      SeparatorInFront(s);
    }
  }

  /** A first word after separators: the dash in front stands for them all. */
  lemma SeparatorInFront(s: string)
    requires s != "" && Words(s[..|s| - 1]) == []
    ensures s[..|s| - 1] != "" ==> Front(s[..|s| - 1]) == "-" && Back(s[..|s| - 1]) == ""
    ensures Join(Words(s[..|s| - 1])) == ""
  {
    NoWords(s[..|s| - 1]);
  }

  lemma JoinEndsInWord(s: string)
    requires Words(s) != []
    ensures EndsInWord(Join(Words(s)))
  {
    WordsAreWords(s);
    JoinShape(Words(s));
  }

  lemma PushSeparator(s: string)
    requires s != "" && !Alnum(s[|s| - 1])
    requires Collapse(s[..|s| - 1]) == Front(s[..|s| - 1]) + Join(Words(s[..|s| - 1])) + Back(s[..|s| - 1])
    ensures Collapse(s) == Front(s) + Join(Words(s)) + Back(s)
  {
    hide Collapse, Words, Join, Front, Back, Push;
    Step(s);
    Nothing();
    if s[..|s| - 1] != "" {
      Step(s[..|s| - 1]);
    }
    if Words(s[..|s| - 1]) == [] {
      SeparatorInFront(s);
      PushFront(Front(s[..|s| - 1]), s[|s| - 1]);
    } else {
      JoinEndsInWord(s[..|s| - 1]);
      PushDash(Front(s[..|s| - 1]), Join(Words(s[..|s| - 1])), s[|s| - 1]);
    }
  }

  lemma PushFront(f: string, c: char)
    requires !Alnum(c) && (f == "" || f == "-")
    ensures Push(f + "" + "", c) == "-" + "" + ""
  {}

  /** A text without words is all separators. */
  lemma {:induction false} NoWords(s: string)
    ensures Words(s) == [] <==> forall i :: 0 <= i < |s| ==> !Alnum(s[i])
    decreases |s|
  {
    if s != "" {
      NoWords(s[..|s| - 1]);
    }
  }

  lemma TrimDashes(front: string, j: string, back: string)
    requires (front == "" || front == "-") && (back == "" || back == "-")
    requires j != "" ==> j[0] != '-' && j[|j| - 1] != '-'
    ensures Trim(front + j + back, IsDash()) == j
  {
    var s := front + j + back;
    if j == "" {
      DashesOnly(s);
    } else {
      assert TrimLeft(s, IsDash()) == j + back by {
        if front == "-" {
          assert s[1..] == j + back;
        } else {
          assert s == j + back;
        }
      }
      assert TrimRight(j, IsDash()) == j;
      assert TrimRight(j + back, IsDash()) == j by {
        if back == "-" {
          assert (j + back)[..|j + back| - 1] == j;
        } else {
          assert j + back == j;
        }
      }
    }
  }

  lemma {:induction false} DashesOnly(s: string)
    requires forall i :: 0 <= i < |s| ==> s[i] == '-'
    ensures TrimLeft(s, IsDash()) == "" && Trim(s, IsDash()) == ""
    decreases |s|
  {
    if s != "" {
      DashesOnly(s[1..]);
    }
  }

  /** sanitizeID joins the words of the lower-cased text by dashes, or yields "item". */
  lemma SanitizeIsJoin(u: Unicode, s: string)
    ensures Sanitize(u, s) == OrItem(Join(Words(Lowered(u, s))))
  {
    var t := Lowered(u, s);
    CollapseIsJoin(t);
    WordsAreWords(t);
    JoinShape(Words(t));
    TrimDashes(Front(t), Join(Words(t)), Back(t));
  }

  // Canonical form

  ghost predicate Canonical(s: string) {
    && s != ""
    && (forall i :: 0 <= i < |s| ==> 'a' <= s[i] <= 'z' || '0' <= s[i] <= '9' || s[i] == '-')
    && s[0] != '-' && s[|s| - 1] != '-'
    && (forall i :: 0 <= i < |s| - 1 ==> s[i] != '-' || s[i + 1] != '-')
  }

  lemma {:induction false} JoinCanonical(ws: seq<string>)
    requires AreWords(ws) && ws != []
    ensures Canonical(Join(ws))
    decreases |ws|
  {
    if |ws| == 1 {
      assert ws[0] != "" && AllAlnum(ws[0]);
    } else {
      var n := |ws| - 1;
      JoinCanonical(ws[..n]);
      assert ws[n] != "" && AllAlnum(ws[n]);
      AppendWord(Join(ws[..n]), ws[n]);
    }
  }

  lemma AppendWord(a: string, w: string)
    requires Canonical(a) && w != "" && AllAlnum(w)
    ensures Canonical(a + "-" + w)
  {
    var s := a + "-" + w;
    assert forall i :: 0 <= i < |s| ==> s[i] == if i < |a| then a[i] else if i == |a| then '-' else w[i - |a| - 1];
  }

  lemma Canonicalises(u: Unicode, s: string)
    ensures Canonical(Sanitize(u, s))
  {
    SanitizeIsJoin(u, s);
    WordsAreWords(Lowered(u, s));
    if Words(Lowered(u, s)) != [] {
      JoinCanonical(Words(Lowered(u, s)));
    }
  }

  /** A canonical text is its own collapsed form. */
  lemma {:induction false} CollapseFixed(s: string)
    requires forall i :: 0 <= i < |s| ==> Alnum(s[i]) || s[i] == '-'
    requires forall i :: 0 <= i < |s| - 1 ==> s[i] != '-' || s[i + 1] != '-'
    ensures Collapse(s) == s
    decreases |s|
  {
    if s != "" {
      CollapseFixed(s[..|s| - 1]);
    }
  }

  lemma LoweredFixed(u: Unicode, s: string)
    requires Sane(u) && Canonical(s)
    ensures Lowered(u, s) == s
  {}

  /** The canonical texts are exactly those sanitizeID leaves alone; so it is idempotent. */
  lemma FixedIffCanonical(u: Unicode, s: string)
    requires Sane(u)
    ensures Sanitize(u, s) == s <==> Canonical(s)
    ensures Sanitize(u, Sanitize(u, s)) == Sanitize(u, s)
  {
    Canonicalises(u, s);
    FixedIfCanonical(u, Sanitize(u, s));
    if Canonical(s) {
      FixedIfCanonical(u, s);
    }
  }

  lemma FixedIfCanonical(u: Unicode, s: string)
    requires Sane(u) && Canonical(s)
    ensures Sanitize(u, s) == s
  {
    LoweredFixed(u, s);
    CollapseFixed(s);
    assert "" + s + "" == s;
    TrimDashes("", s, "");
  }

  // What is lowered, and what the words are

  /** The text without the white space around it, each character in lower case. */
  lemma LoweredMeans(u: Unicode, s: string) returns (before: string, middle: string, after: string)
    ensures s == before + middle + after && forall c :: c in before || c in after ==> u.space(c)
    ensures middle != "" ==> !u.space(middle[0]) && !u.space(middle[|middle| - 1])
    ensures |Lowered(u, s)| == |middle| && forall i :: 0 <= i < |middle| ==> Lowered(u, s)[i] == u.lower(middle[i])
  {
    hide Trim;
    before, after := TrimMeans(s, u.space);
    middle := Trim(s, u.space);
  }

  /** A run of letters and digits is one word. */
  lemma {:induction false} WordsOfRun(w: string)
    requires w != "" && AllAlnum(w)
    ensures Words(w) == [w]
    decreases |w|
  {
    var before, c := w[..|w| - 1], w[|w| - 1];
    assert w == before + [c];
    if before != "" {
      WordsOfRun(before);
    } else {
      assert [c] == w && Words("") == [];
    }
  }

  /** Any other character parts the words before it from the words after it. */
  lemma {:induction false} WordsApart(a: string, separator: char, b: string)
    requires !Alnum(separator)
    ensures Words(a + [separator] + b) == Words(a) + Words(b)
    decreases |b|
  {
    var s := a + [separator] + b;
    if b == "" {
      assert s[..|s| - 1] == a && s[|s| - 1] == separator;
    } else {
      var before, c := b[..|b| - 1], b[|b| - 1];
      WordsApart(a, separator, before);
      assert s[..|s| - 1] == a + [separator] + before && s[|s| - 1] == c;
      SameEnding(a + [separator], before, separator);
      Grown(Words(a), Words(before), c);
    }
  }

  lemma SameEnding(a: string, b: string, separator: char)
    requires a != "" && a[|a| - 1] == separator && !Alnum(separator)
    ensures EndsInWord(a + b) <==> EndsInWord(b)
  {
    assert b != "" ==> (a + b)[|a + b| - 1] == b[|b| - 1];
    assert b == "" ==> a + b == a;
  }

  lemma Grown(a: seq<string>, b: seq<string>, c: char)
    ensures b != [] ==> (a + b)[|a + b| - 1 := (a + b)[|a + b| - 1] + [c]] == a + b[|b| - 1 := b[|b| - 1] + [c]]
    ensures a + b + [[c]] == a + (b + [[c]])
  {}
}

/** Go strings as sequences of ASCII characters: order and tests. */
module Text {

  /** Go's a < b on strings: the first difference decides, and a proper prefix comes first. */
  predicate Less(a: string, b: string) {
    if b == [] then false
    else if a == [] then true
    else a[0] < b[0] || (a[0] == b[0] && Less(a[1..], b[1..]))
  }

  /** a and b agree up to position k, and there a ends, or has the lower character. */
  ghost predicate DiffersAt(a: string, b: string, k: nat) {
    && k <= |a| && k < |b| && a[..k] == b[..k]
    && (k == |a| || a[k] < b[k])
  }

  lemma {:induction false} LessIff(a: string, b: string)
    ensures Less(a, b) <==> exists k: nat :: DiffersAt(a, b, k)
    decreases |a|
  {
    if a != [] && b != [] && a[0] == b[0] {
      LessIff(a[1..], b[1..]);
      if k: nat :| DiffersAt(a[1..], b[1..], k) {
        assert a[..k + 1] == [a[0]] + a[1..][..k] && b[..k + 1] == [b[0]] + b[1..][..k];
        assert DiffersAt(a, b, k + 1);
      }
      if k: nat :| DiffersAt(a, b, k) {
        assert a[1..][..k - 1] == a[..k][1..] && b[1..][..k - 1] == b[..k][1..];
        assert DiffersAt(a[1..], b[1..], k - 1);
      }
    } else if b != [] {
      assert Less(a, b) ==> DiffersAt(a, b, 0);
      if k: nat :| DiffersAt(a, b, k) {
        assert k > 0 ==> a[..k][0] == b[..k][0];
      }
    }
  }

  lemma {:induction false} LessAsymmetric(a: string, b: string)
    ensures !(Less(a, b) && Less(b, a))
    decreases |a|
  {
    if a != [] && b != [] {
      LessAsymmetric(a[1..], b[1..]);
    }
  }

  lemma {:induction false} LessTransitive(a: string, b: string, c: string)
    requires Less(a, b) && Less(b, c)
    ensures Less(a, c)
    decreases |a|
  {
    if a != [] && a[0] == b[0] == c[0] {
      LessTransitive(a[1..], b[1..], c[1..]);
    }
  }

  lemma {:induction false} LessTotal(a: string, b: string)
    ensures a == b || Less(a, b) || Less(b, a)
    decreases |a|
  {
    if a != [] && b != [] {
      LessTotal(a[1..], b[1..]);
      if a[1..] == b[1..] && a[0] == b[0] {
        assert a == [a[0]] + a[1..] && b == [b[0]] + b[1..];
      }
    }
  }

  function ToLowerChar(c: char): char {
    if 'A' <= c <= 'Z' then c - 'A' + 'a' else c
  }

  function ToLower(s: string): (r: string)
    ensures |r| == |s|
  {
    seq(|s|, i requires 0 <= i < |s| => ToLowerChar(s[i]))
  }

  predicate EqualFold(a: string, b: string) {
    ToLower(a) == ToLower(b)
  }

  predicate IsSpace(c: char) {
    c == ' ' || c == '\t' || c == '\n' || c == '\r' || c == '\U{0B}' || c == '\U{0C}'
  }

  function TrimLeft(s: string, drop: char -> bool): string {
    if s != "" && drop(s[0]) then TrimLeft(s[1..], drop) else s
  }

  function TrimRight(s: string, drop: char -> bool): string {
    if s != "" && drop(s[|s| - 1]) then TrimRight(s[..|s| - 1], drop) else s
  }

  function Trim(s: string, drop: char -> bool): string {
    TrimRight(TrimLeft(s, drop), drop)
  }

  function TrimSpace(s: string): string {
    Trim(s, IsSpace)
  }

  /** What is trimmed off both ends satisfies `drop`; what is left neither begins nor ends with such. */
  lemma {:induction false} TrimLeftMeans(s: string, drop: char -> bool) returns (cut: string)
    ensures s == cut + TrimLeft(s, drop) && forall c :: c in cut ==> drop(c)
    ensures TrimLeft(s, drop) != "" ==> !drop(TrimLeft(s, drop)[0])
    decreases |s|
  {
    cut := "";
    if s != "" && drop(s[0]) {
      var more := TrimLeftMeans(s[1..], drop);
      cut := [s[0]] + more;
    }
  }

  lemma {:induction false} TrimRightMeans(s: string, drop: char -> bool) returns (cut: string)
    ensures s == TrimRight(s, drop) + cut && forall c :: c in cut ==> drop(c)
    ensures TrimRight(s, drop) != "" ==> !drop(TrimRight(s, drop)[|TrimRight(s, drop)| - 1])
    decreases |s|
  {
    cut := "";
    if s != "" && drop(s[|s| - 1]) {
      var more := TrimRightMeans(s[..|s| - 1], drop);
      cut := more + [s[|s| - 1]];
    }
  }

  lemma TrimMeans(s: string, drop: char -> bool) returns (before: string, after: string)
    ensures s == before + Trim(s, drop) + after && forall c :: c in before || c in after ==> drop(c)
    ensures var t := Trim(s, drop); t != "" ==> !drop(t[0]) && !drop(t[|t| - 1])
  {
    before := TrimLeftMeans(s, drop);
    after := TrimRightMeans(TrimLeft(s, drop), drop);
    var t := Trim(s, drop);
    if t != "" {
      assert t[0] == TrimLeft(s, drop)[0];
    }
  }

  lemma TrimSpaceMeans(s: string) returns (before: string, after: string)
    ensures s == before + TrimSpace(s) + after
    ensures forall c :: c in before || c in after ==> c in " \t\n\r\U{0B}\U{0C}"
    ensures var t := TrimSpace(s); t != "" ==> t[0] !in " \t\n\r\U{0B}\U{0C}" && t[|t| - 1] !in " \t\n\r\U{0B}\U{0C}"
  {
    before, after := TrimMeans(s, IsSpace);
    SpacesAre();
  }

  lemma SpacesAre()
    ensures forall c :: IsSpace(c) <==> c in " \t\n\r\U{0B}\U{0C}"
  {}

  const UPPER := "ABCDEFGHIJKLMNOPQRSTUVWXYZ"
  const LOWER := "abcdefghijklmnopqrstuvwxyz"

  /** Lower-casing maps each capital letter to its small one and nothing else. */
  lemma ToLowerMeans(s: string, i: nat)
    requires i < |s|
    ensures if 'A' <= s[i] <= 'Z' then ToLower(s)[i] == LOWER[s[i] as int - 'A' as int] && UPPER[s[i] as int - 'A' as int] == s[i]
      else ToLower(s)[i] == s[i]
  {}

  predicate OccursAt(s: string, sub: string, i: nat) {
    i + |sub| <= |s| && s[i..i + |sub|] == sub
  }

  predicate Contains(s: string, sub: string) {
    exists i :: 0 <= i <= |s| && OccursAt(s, sub, i)
  }

  function FirstNonEmpty(a: string, b: string): string {
    if TrimSpace(a) != "" then a else b
  }
}

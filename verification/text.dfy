/** Trimming of Unicode white space, as `strings.TrimSpace` does it. */
module Text {

  /** The code points with the White_Space property. */
  predicate IsSpace(c: char) {
    || '\t' <= c <= '\r' || c == ' ' || c == '\U{0085}' || c == '\U{00A0}' || c == '\U{1680}'
    || '\U{2000}' <= c <= '\U{200A}'
    || c == '\U{2028}' || c == '\U{2029}' || c == '\U{202F}' || c == '\U{205F}' || c == '\U{3000}'
  }

  /** Blanks, line ends, no-break and ideographic spaces are cut; a zero-width space is not white space. */
  lemma SomeSpaces()
    ensures IsSpace(' ') && IsSpace('\t') && IsSpace('\n') && IsSpace('\U{000B}') && IsSpace('\U{000C}') && IsSpace('\r')
    ensures IsSpace('\U{0085}') && IsSpace('\U{00A0}') && IsSpace('\U{2003}') && IsSpace('\U{2028}') && IsSpace('\U{3000}')
    ensures !IsSpace('a') && !IsSpace('0') && !IsSpace('\U{200B}') && !IsSpace('\U{FEFF}')
  {
  }

  function TrimLeft(s: string): string {
    if s != "" && IsSpace(s[0]) then TrimLeft(s[1..]) else s
  }

  function TrimRight(s: string): string {
    if s != "" && IsSpace(s[|s| - 1]) then TrimRight(s[..|s| - 1]) else s
  }

  function TrimSpace(s: string): string {
    TrimRight(TrimLeft(s))
  }

  /** No white space at either end. */
  predicate Trimmed(s: string) {
    s != "" ==> !IsSpace(s[0]) && !IsSpace(s[|s| - 1])
  }

  predicate Blank(s: string) {
    forall c :: c in s ==> IsSpace(c)
  }

  lemma {:induction false} TrimLeftCuts(s: string) returns (k: nat)
    ensures k <= |s| && TrimLeft(s) == s[k..] && Blank(s[..k])
    ensures TrimLeft(s) != "" ==> !IsSpace(TrimLeft(s)[0])
  {
    if s != "" && IsSpace(s[0]) {
      var j := TrimLeftCuts(s[1..]);
      k := j + 1;
      assert s[..k] == [s[0]] + s[1..][..j];
    } else {
      k := 0;
    }
  }

  lemma {:induction false} TrimRightCuts(s: string) returns (k: nat)
    ensures k <= |s| && TrimRight(s) == s[..k] && Blank(s[k..])
    ensures TrimRight(s) != "" ==> !IsSpace(TrimRight(s)[|TrimRight(s)| - 1])
  {
    if s != "" && IsSpace(s[|s| - 1]) {
      k := TrimRightCuts(s[..|s| - 1]);
      assert s[k..] == s[..|s| - 1][k..] + [s[|s| - 1]];
    } else {
      k := |s|;
      assert s[..k] == s;
    }
  }

  /** What is cut off is blank, what is left has no blank ends. */
  lemma TrimSpaceCutsBlankEnds(s: string) returns (left: string, right: string)
    ensures s == left + TrimSpace(s) + right
    ensures Blank(left) && Blank(right) && Trimmed(TrimSpace(s))
  {
    var i := TrimLeftCuts(s);
    var rest := s[i..];
    var k := TrimRightCuts(rest);
    left, right := s[..i], rest[k..];
    assert rest == rest[..k] + rest[k..];
    if TrimSpace(s) != "" {
      assert TrimSpace(s)[0] == rest[0];
    }
  }

  lemma TrimOfTrimmed(s: string)
    requires Trimmed(s)
    ensures TrimSpace(s) == s
  {
  }
}

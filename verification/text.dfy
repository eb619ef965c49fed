/** Strings as the service's str.strip() sees them. */
module Text {
  predicate IsSpace(c: char) {
    || '\U{09}' <= c <= '\U{0D}' || '\U{1C}' <= c <= '\U{20}' || c == '\U{85}' || c == '\U{A0}'
    || c == '\U{1680}' || '\U{2000}' <= c <= '\U{200A}' || c == '\U{2028}' || c == '\U{2029}'
    || c == '\U{202F}' || c == '\U{205F}' || c == '\U{3000}'
  }

  /** The 29 characters of white space. */
  lemma SpacesAre(c: char)
    ensures IsSpace(c) <==>
            c in {'\U{09}', '\U{0A}', '\U{0B}', '\U{0C}', '\U{0D}', '\U{1C}', '\U{1D}', '\U{1E}', '\U{1F}',
                  '\U{20}', '\U{85}', '\U{A0}', '\U{1680}', '\U{2000}', '\U{2001}', '\U{2002}', '\U{2003}',
                  '\U{2004}', '\U{2005}', '\U{2006}', '\U{2007}', '\U{2008}', '\U{2009}', '\U{200A}',
                  '\U{2028}', '\U{2029}', '\U{202F}', '\U{205F}', '\U{3000}'}
  {
  }

  /** True iff stripping the string leaves nothing. */
  predicate IsBlank(s: string) {
    forall i :: 0 <= i < |s| ==> IsSpace(s[i])
  }

  function StripLeft(s: string): string {
    if s != "" && IsSpace(s[0]) then StripLeft(s[1..]) else s
  }

  function StripRight(s: string): string {
    if s != "" && IsSpace(s[|s| - 1]) then StripRight(s[..|s| - 1]) else s
  }

  function Strip(s: string): string { StripRight(StripLeft(s)) }

  /** No white space at either end. */
  predicate IsTrim(s: string) {
    s != "" ==> !IsSpace(s[0]) && !IsSpace(s[|s| - 1])
  }

  lemma {:induction false} StripLeftTrims(s: string)
    ensures var r := StripLeft(s);
            |r| <= |s| && r == s[|s| - |r|..] && IsBlank(s[..|s| - |r|]) && (r != "" ==> !IsSpace(r[0]))
  {
    if s != "" && IsSpace(s[0]) {
      StripLeftTrims(s[1..]);
      var k := |s| - |StripLeft(s)|;
      assert forall i :: 1 <= i < k ==> s[i] == s[1..][..k - 1][i - 1];
    }
  }

  lemma {:induction false} StripRightTrims(s: string)
    ensures var r := StripRight(s);
            |r| <= |s| && r == s[..|r|] && IsBlank(s[|r|..]) && (r != "" ==> !IsSpace(r[|r| - 1]))
  {
    if s != "" && IsSpace(s[|s| - 1]) {
      var n := |s| - 1;
      StripRightTrims(s[..n]);
      var k := |StripRight(s)|;
      assert forall i :: 0 <= i < n - k ==> s[k..][i] == s[..n][k..][i];
    }
  }

  lemma TrimUnchanged(s: string)
    requires IsTrim(s)
    ensures Strip(s) == s
  {
  }

  lemma StripIsTrim(s: string)
    ensures IsTrim(Strip(s))
  {
    StripLeftTrims(s);
    StripRightTrims(StripLeft(s));
  }

  lemma StripCutsBlanks(s: string)
    ensures exists a, b :: IsBlank(a) && IsBlank(b) && s == a + (Strip(s) + b)
  {
    StripLeftTrims(s);
    var l := StripLeft(s);
    StripRightTrims(l);
    var r := StripRight(l);
    var a, b := s[..|s| - |l|], l[|r|..];
    assert l == r + b;
    assert s == a + l;
    assert IsBlank(a) && IsBlank(b) && s == a + (Strip(s) + b);
  }

  /** Stripping cuts blanks off both ends and nothing else, so it leaves exactly the trim strings alone. */
  lemma StripExact(s: string)
    ensures IsTrim(Strip(s)) && Strip(Strip(s)) == Strip(s)
    ensures Strip(s) == s <==> IsTrim(s)
    ensures exists a, b :: IsBlank(a) && IsBlank(b) && s == a + (Strip(s) + b)
  {
    StripIsTrim(s);
    TrimUnchanged(Strip(s));
    StripCutsBlanks(s);
    if IsTrim(s) {
      TrimUnchanged(s);
    }
  }

  lemma BlankIsEmptied(s: string)
    ensures IsBlank(s) <==> Strip(s) == ""
  {
    StripIsTrim(s);
    StripCutsBlanks(s);
    var a, b :| IsBlank(a) && IsBlank(b) && s == a + (Strip(s) + b);
    assert Strip(s) != "" ==> s[|a|] == Strip(s)[0];
  }
}

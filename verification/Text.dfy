/** The few string questions the harnesses ask. */
module Text {

  /** The characters that Python's `str.strip` removes. */
  predicate IsSpace(c: char) {
    var n := c as int;
    || 0x09 <= n <= 0x0D || 0x1C <= n <= 0x20 || n == 0x85 || n == 0xA0 || n == 0x1680
    || 0x2000 <= n <= 0x200A || n == 0x2028 || n == 0x2029 || n == 0x202F || n == 0x205F
    || n == 0x3000
  }

  /** Nothing is left of the string once it is stripped. */
  predicate Blank(s: string) {
    forall i :: 0 <= i < |s| ==> IsSpace(s[i])
  }

  predicate Contains(s: string, part: string) {
    part <= s || (s != "" && Contains(s[1..], part))
  }

  lemma {:induction false} ContainedAt(s: string, part: string) returns (at: nat)
    requires Contains(s, part)
    ensures at + |part| <= |s| && s[at..at + |part|] == part
  {
    if part <= s {
      at := 0;
    } else {
      var rest := ContainedAt(s[1..], part);
      at := rest + 1;
      assert s[at..at + |part|] == s[1..][rest..rest + |part|];
    }
  }

  /** A string that contains a visible one is visible. */
  lemma ContainerOfVisibleIsVisible(s: string, part: string)
    requires Contains(s, part) && !Blank(part)
    ensures !Blank(s)
  {
    var at := ContainedAt(s, part);
    var i :| 0 <= i < |part| && !IsSpace(part[i]);
    assert s[at..at + |part|][i] == s[at + i];
  }

  /** White space by code point, as the Unicode database lists it, and the file separators. */
  lemma SpacesAreThese(c: char)
    ensures IsSpace(c) <==> c as int in {
      0x09, 0x0A, 0x0B, 0x0C, 0x0D, 0x1C, 0x1D, 0x1E, 0x1F, 0x20, 0x85, 0xA0, 0x1680,
      0x2000, 0x2001, 0x2002, 0x2003, 0x2004, 0x2005, 0x2006, 0x2007, 0x2008, 0x2009, 0x200A,
      0x2028, 0x2029, 0x202F, 0x205F, 0x3000}
  {
  }
}

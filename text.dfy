/** Python's character classes and the str methods the checker uses, over ASCII. */
module Text {

  /** `\d` on ASCII text: the ten decimal digits. */
  predicate IsDigit(c: char) {
    '0' <= c <= '9'
  }

  /** `\s` and `str.isspace` on ASCII text: TAB, LF, VT, FF, CR (9-13), the four
      information separators (28-31) and SPACE (32). */
  predicate IsSpace(c: char) {
    9 <= c as int <= 13 || 28 <= c as int <= 32
  }

  predicate IsUpper(c: char) {
    'A' <= c <= 'Z'
  }

  predicate IsAscii(s: string) {
    forall i :: 0 <= i < |s| ==> s[i] as int < 128
  }

  predicate NoDigits(s: string) {
    forall i :: 0 <= i < |s| ==> !IsDigit(s[i])
  }

  predicate NoUpper(s: string) {
    forall i :: 0 <= i < |s| ==> !IsUpper(s[i])
  }

  /** `str.lower` on one ASCII character. */
  function LowerChar(c: char): (d: char)
    ensures !IsUpper(d)
    ensures IsDigit(d) <==> IsDigit(c)
    ensures IsSpace(d) <==> IsSpace(c)
    ensures !IsUpper(c) ==> d == c
    ensures IsUpper(c) ==> 'a' <= d <= 'z' && d as int == c as int + 32
    ensures c as int < 128 ==> d as int < 128
  {
    if IsUpper(c) then (c as int + 32) as char else c
  }

  /** `str.lower` on an ASCII string: each character is lowered in place. */
  function Lower(s: string): (r: string)
    ensures |r| == |s|
    ensures forall i :: 0 <= i < |s| ==> r[i] == LowerChar(s[i])
  {
    if s == [] then [] else [LowerChar(s[0])] + Lower(s[1..])
  }

  /** `str.lstrip()`: what is left after the leading whitespace. */
  function StripLeading(s: string): (r: string)
    ensures |r| <= |s| && r == s[|s| - |r|..]
    ensures forall i :: 0 <= i < |s| - |r| ==> IsSpace(s[i])
    ensures r == [] || !IsSpace(r[0])
    decreases |s|
  {
    if s != [] && IsSpace(s[0]) then StripLeading(s[1..]) else s
  }

  /** `str.rstrip()`: what is left before the trailing whitespace. */
  function StripTrailing(s: string): (r: string)
    ensures |r| <= |s| && r == s[..|r|]
    ensures forall i :: |r| <= i < |s| ==> IsSpace(s[i])
    ensures r == [] || !IsSpace(r[|r| - 1])
    decreases |s|
  {
    if s != [] && IsSpace(s[|s| - 1]) then StripTrailing(s[..|s| - 1]) else s
  }

  /** How many whitespace characters `str.strip()` removes at the front. */
  function LeadingSpaces(s: string): (n: nat)
    ensures n <= |s|
  {
    |s| - |StripLeading(s)|
  }

  /** `str.strip()`: the text between the leading and the trailing whitespace. */
  function Strip(s: string): (r: string)
    ensures |r| <= |s|
    ensures r == [] || (!IsSpace(r[0]) && !IsSpace(r[|r| - 1]))
    ensures LeadingSpaces(s) + |r| <= |s| && r == s[LeadingSpaces(s)..LeadingSpaces(s) + |r|]
    ensures forall i :: 0 <= i < LeadingSpaces(s) ==> IsSpace(s[i])
    ensures forall i :: LeadingSpaces(s) + |r| <= i < |s| ==> IsSpace(s[i])
  {
    var t := StripLeading(s);
    var r := StripTrailing(t);
    assert r == s[|s| - |t|..|s| - |t| + |r|];
    r
  }

  /** A string with no whitespace at either end is its own strip. */
  lemma StripFixed(s: string)
    requires s == [] || (!IsSpace(s[0]) && !IsSpace(s[|s| - 1]))
    ensures Strip(s) == s
  {
  }

  /** A space in front does not change the strip. */
  lemma StripSpaceFront(c: string)
    ensures Strip(" " + c) == Strip(c)
  {
    assert (" " + c)[1..] == c;
    assert StripLeading(" " + c) == StripLeading(c);
  }

  /** A space at the back does not change the strip. */
  lemma StripSpaceBack(c: string)
    ensures Strip(c + " ") == Strip(c)
  {
    var t := StripLeading(c);
    LeadingAppend(c, " ");
    if t == [] {
      assert (" ")[1..] == [];
      assert StripLeading(" ") == [];
    } else {
      assert (t + " ")[..|t|] == t;
    }
  }

  /** `str.lstrip()` of a concatenation: the back part is kept whole once the
      front part has something left, and is stripped itself otherwise. */
  lemma {:induction false} LeadingAppend(c: string, d: string)
    ensures StripLeading(c) != [] ==> StripLeading(c + d) == StripLeading(c) + d
    ensures StripLeading(c) == [] ==> StripLeading(c + d) == StripLeading(d)
    decreases |c|
  {
    if c == [] {
      assert c + d == d;
    } else {
      assert (c + d)[0] == c[0];
      assert (c + d)[1..] == c[1..] + d;
      if IsSpace(c[0]) {
        assert StripLeading(c) == StripLeading(c[1..]);
        assert StripLeading(c + d) == StripLeading(c[1..] + d);
        LeadingAppend(c[1..], d);
      } else {
        assert StripLeading(c) == c;
      }
    }
  }

  /** Stripping the front of text that has no whitespace in front changes nothing. */
  lemma StripLeadingFixed(s: string)
    requires s == [] || !IsSpace(s[0])
    ensures StripLeading(s) == s
  {
  }

  /** Stripping the back of text that has no whitespace at the back changes nothing. */
  lemma StripTrailingFixed(s: string)
    requires s == [] || !IsSpace(s[|s| - 1])
    ensures StripTrailing(s) == s
  {
  }

  /** Text without capitals is its own lower case. */
  lemma LowerFixed(s: string)
    requires NoUpper(s)
    ensures Lower(s) == s
  {
  }

  /** The per-character properties hold of a concatenation exactly when they hold of both parts. */
  lemma AppendClasses(u: string, v: string)
    ensures IsAscii(u + v) <==> IsAscii(u) && IsAscii(v)
    ensures NoUpper(u + v) <==> NoUpper(u) && NoUpper(v)
    ensures NoDigits(u + v) <==> NoDigits(u) && NoDigits(v)
  {
    assert forall i :: 0 <= i < |u| ==> (u + v)[i] == u[i];
    assert forall i :: 0 <= i < |v| ==> (u + v)[|u| + i] == v[i];
  }

  /** Concatenation is associative. */
  lemma AppendAssoc(a: string, b: string, c: string)
    ensures a + b + c == a + (b + c)
  {
  }

  /** Lowering works character by character, so it distributes over concatenation. */
  lemma LowerAppend(u: string, v: string)
    ensures Lower(u + v) == Lower(u) + Lower(v)
  {
    forall i | 0 <= i < |u + v| ensures Lower(u + v)[i] == (Lower(u) + Lower(v))[i] {
      if i < |u| {
        assert (u + v)[i] == u[i];
      } else {
        assert (u + v)[i] == v[i - |u|];
      }
    }
  }

  /** Lowering neither creates nor removes digits. */
  lemma LowerDigits(s: string)
    ensures NoDigits(Lower(s)) <==> NoDigits(s)
  {
    assert forall i :: 0 <= i < |s| ==> (IsDigit(Lower(s)[i]) <==> IsDigit(s[i]));
  }
}

/** `normalize_text`: the canonical form of the news region's text that is hashed.
    It lowers the text, deletes dates and times, collapses whitespace and trims. */
module Normalize {
  import opened Text
  import opened Wrappers
  import opened Regex

  /** `\d{1,2}/\d{1,2}/\d{2,4}`: a day/month/year date. */
  const DatePattern: Pattern :=
    [Repeat(Digit, 1, AtMost(2)), Lit('/'), Repeat(Digit, 1, AtMost(2)), Lit('/'), Repeat(Digit, 2, AtMost(4))]

  /** `\d{1,2}:\d{2}`: an hour:minute time. */
  const TimePattern: Pattern :=
    [Repeat(Digit, 1, AtMost(2)), Lit(':'), Repeat(Digit, 2, AtMost(2))]

  /** `\s+`: a run of whitespace. */
  const Whitespace: Pattern :=
    [Repeat(Space, 1, Unbounded)]

  lemma PatternFacts()
    ensures MinLen(DatePattern) == 6 && Delimited(DatePattern)
    ensures MinLen(TimePattern) == 4 && Delimited(TimePattern)
    ensures MinLen(Whitespace) == 1 && Delimited(Whitespace)
  {
    assert DatePattern[1..][1..][1..][1..][1..] == [];
    assert TimePattern[1..][1..][1..] == [];
    assert Whitespace[1..] == [];
  }

  /** `re.sub(r"\s+", " ", s)`. */
  function Collapse(s: string): string {
    PatternFacts();
    Sub(Whitespace, " ", s)
  }

  /** Every whitespace character is a plain space, and no space is followed by another. */
  predicate Collapsed(s: string) {
    forall i :: 0 <= i < |s| && IsSpace(s[i]) ==> s[i] == ' ' && (i + 1 < |s| ==> s[i + 1] != ' ')
  }

  /** One step of the whitespace substitution: a non-space character is kept, and
      a maximal run of whitespace becomes one space. */
  lemma CollapseStep(s: string)
    requires s != []
    ensures !IsSpace(s[0]) ==> Collapse(s) == [s[0]] + Collapse(s[1..])
    ensures IsSpace(s[0]) ==>
      var k := Run(Space, s, 0, Unbounded);
      1 <= k <= |s| && (k == |s| || !IsSpace(s[k])) && Collapse(s) == [' '] + Collapse(s[k..])
  {
    PatternFacts();
    var k := Run(Space, s, 0, Unbounded);
    if IsSpace(s[0]) {
      assert MatchAt(Whitespace[1..], s, k) == Some(k);
      assert MatchAt(Whitespace, s, 0) == Some(k);
    } else {
      assert MatchAt(Whitespace, s, 0) == None;
    }
  }

  /** The whitespace substitution leaves no whitespace but single spaces, and keeps
      a leading non-space character in front. */
  lemma {:induction false} CollapseIsCollapsed(s: string)
    ensures Collapsed(Collapse(s))
    ensures s != [] && !IsSpace(s[0]) ==> Collapse(s) != [] && Collapse(s)[0] == s[0]
    decreases |s|
  {
    if s != [] {
      CollapseStep(s);
      if IsSpace(s[0]) {
        var k := Run(Space, s, 0, Unbounded);
        CollapseIsCollapsed(s[k..]);
      } else {
        CollapseIsCollapsed(s[1..]);
      }
    }
  }

  /** The whitespace substitution changes exactly the texts that are not already collapsed. */
  lemma {:induction false} CollapseFixedPoint(s: string)
    ensures Collapse(s) == s <==> Collapsed(s)
    decreases |s|
  {
    CollapseIsCollapsed(s);
    if s != [] && Collapsed(s) {
      CollapseStep(s);
      CollapsedSlice(s, 1, |s|);
      CollapseFixedPoint(s[1..]);
      if IsSpace(s[0]) {
        assert |s| > 1 ==> !IsSpace(s[1]);
        assert Run(Space, s, 0, Unbounded) == 1;
      }
    }
  }

  lemma CollapsedSlice(s: string, a: nat, b: nat)
    requires a <= b <= |s| && Collapsed(s)
    ensures Collapsed(s[a..b])
  {
    forall i | 0 <= i < b - a && IsSpace(s[a..b][i])
      ensures s[a..b][i] == ' ' && (i + 1 < b - a ==> s[a..b][i + 1] != ' ')
    {
      assert s[a..b][i] == s[a + i];
    }
  }

  /** The two deletions of `normalize_text`: dates first, then times. */
  function Undated(s: string): string {
    PatternFacts();
    Sub(TimePattern, "", Sub(DatePattern, "", s))
  }

  /** The deletions only remove characters, and need a digit to act on. */
  lemma UndatedFacts(s: string)
    ensures |Undated(s)| <= |s|
    ensures forall i :: 0 <= i < |Undated(s)| ==> Undated(s)[i] in s
    ensures NoDigits(s) ==> Undated(s) == s
  {
    PatternFacts();
    var noDates := Sub(DatePattern, "", s);
    SubShrinks(DatePattern, "", s);
    SubShrinks(TimePattern, "", noDates);
    SubChars(DatePattern, "", s);
    SubChars(TimePattern, "", noDates);
    if NoDigits(s) {
      SubNoOp(DatePattern, "", s);
      SubNoOp(TimePattern, "", s);
    }
  }

  /** The whitespace substitution never lengthens the text and brings in nothing
      but spaces. */
  lemma CollapseFacts(s: string)
    ensures |Collapse(s)| <= |s|
    ensures forall i :: 0 <= i < |Collapse(s)| ==> Collapse(s)[i] == ' ' || Collapse(s)[i] in s
  {
    PatternFacts();
    SubShrinks(Whitespace, " ", s);
    SubChars(Whitespace, " ", s);
  }

  /** Text from which upper case was removed stays free of it through the
      substitutions and the strip. */
  lemma StaysLower(s: string)
    requires NoUpper(s)
    ensures NoUpper(Strip(Collapse(Undated(s))))
  {
    PatternFacts();
    var noDates := Sub(DatePattern, "", s);
    SubNoUpper(DatePattern, "", s);
    SubNoUpper(TimePattern, "", noDates);
    SubNoUpper(Whitespace, " ", Undated(s));
    StripNoUpper(Collapse(Undated(s)));
  }

  /** A substitution brings in only characters of the text and of the replacement. */
  lemma SubNoUpper(p: Pattern, repl: string, s: string)
    requires MinLen(p) > 0 && NoUpper(s) && NoUpper(repl)
    ensures NoUpper(Sub(p, repl, s))
  {
    SubChars(p, repl, s);
  }

  lemma StripNoUpper(s: string)
    requires NoUpper(s)
    ensures NoUpper(Strip(s))
  {
    var t := StripLeading(s);
    NoUpperSlice(s, |s| - |t|, |s|);
    NoUpperSlice(t, 0, |StripTrailing(t)|);
  }

  lemma NoUpperSlice(s: string, a: nat, b: nat)
    requires a <= b <= |s| && NoUpper(s)
    ensures NoUpper(s[a..b])
  {
    assert forall i :: 0 <= i < b - a ==> s[a..b][i] == s[a + i];
  }

  /** The stages after lowering never lengthen the text. */
  lemma StagesShrink(s: string)
    ensures |Strip(Collapse(Undated(s)))| <= |s|
  {
    UndatedFacts(s);
    CollapseFacts(Undated(s));
  }

  /** The stages after lowering leave single spaces only. */
  lemma StagesCollapse(s: string)
    ensures Collapsed(Strip(Collapse(Undated(s))))
  {
    CollapseIsCollapsed(Undated(s));
    StripCollapsed(Collapse(Undated(s)));
  }

  /** Stripping a collapsed text leaves it collapsed. */
  lemma StripCollapsed(s: string)
    requires Collapsed(s)
    ensures Collapsed(Strip(s))
  {
    var t := StripLeading(s);
    CollapsedSlice(s, |s| - |t|, |s|);
    CollapsedSlice(t, 0, |StripTrailing(t)|);
  }

  /** What the stages after lowering guarantee of their result. */
  lemma StagesFacts(lowered: string, r: string)
    requires NoUpper(lowered)
    requires r == Strip(Collapse(Undated(lowered)))
    ensures |r| <= |lowered|
    ensures Collapsed(r)
    ensures NoUpper(r)
  {
    StagesShrink(lowered);
    StagesCollapse(lowered);
    StaysLower(lowered);
  }

  /** Without digits there is nothing for the deletions to act on. */
  lemma DigitFree(text: string)
    ensures NoDigits(text) ==> Undated(Lower(text)) == Lower(text)
  {
    if NoDigits(text) {
      LowerDigits(text);
      PatternFacts();
      SubNoOp(DatePattern, "", Lower(text));
      SubNoOp(TimePattern, "", Lower(text));
    }
  }

  /** `normalize_text`: lower, delete dates, delete times, collapse whitespace, strip.
      Valid for ASCII text, on which Python's `str.lower`, `\d` and `\s` agree with
      `Lower`, `IsDigit` and `IsSpace`. */
  function NormalizeText(text: string): (r: string)
    requires IsAscii(text)
    ensures |r| <= |text|
    ensures r == [] || (!IsSpace(r[0]) && !IsSpace(r[|r| - 1]))
    ensures Collapsed(r)
    ensures NoUpper(r)
    ensures NoDigits(text) ==> r == Strip(Collapse(Lower(text)))
  {
    var lowered := Lower(text);
    var r := Strip(Collapse(Undated(lowered)));
    StagesFacts(lowered, r);
    DigitFree(text);
    r
  }

  lemma NormalizeStages(text: string)
    requires IsAscii(text)
    ensures NormalizeText(text) == Strip(Collapse(Undated(Lower(text))))
  {
  }

  /** Whitespace alone normalises to the empty text. */
  lemma BlankIsEmpty(text: string)
    requires IsAscii(text) && forall i :: 0 <= i < |text| ==> IsSpace(text[i])
    ensures NormalizeText(text) == ""
  {
    var lowered := Lower(text);
    assert NoDigits(text);
    if lowered != [] {
      CollapseStep(lowered);
      assert Run(Space, lowered, 0, Unbounded) == |lowered| by {
        RunIsLongest(Space, lowered, 0, |lowered|, Unbounded);
      }
      assert lowered[|lowered|..] == [];
      assert Collapse(lowered) == [' '];
    } else {
      assert Collapse(lowered) == [];
    }
  }

  /** `s` is, as a whole, a date the first deletion removes. */
  ghost predicate IsDate(s: string) {
    Spans(DatePattern, s, 0, |s|)
  }

  /** `s` is, as a whole, a time the second deletion removes. */
  ghost predicate IsTime(s: string) {
    Spans(TimePattern, s, 0, |s|)
  }

  /** The dates are made of digits and slashes, the times of digits and colons. */
  lemma PatternAlphabet(c: char)
    ensures !Inert(DatePattern, c) ==> IsDigit(c) || c == '/'
    ensures !Inert(TimePattern, c) ==> IsDigit(c) || c == ':'
  {
    assert DatePattern[1..][1..][1..][1..][1..] == [];
    assert TimePattern[1..][1..][1..] == [];
  }

  /** A date or a time at the front of a text is deleted whole when the character
      after it is one the pattern cannot consume: the greedy counts cannot run on. */
  lemma DeletedWhole(p: Pattern, d: string, w: string)
    requires p == DatePattern || p == TimePattern
    requires Spans(p, d, 0, |d|) && (w == [] || Inert(p, w[0]))
    ensures MinLen(p) > 0 && Sub(p, "", d + w) == Sub(p, "", w)
  {
    PatternFacts();
    var s := d + w;
    SpansExtend(p, d, w, 0, |d|);
    MatchLongest(p, s, 0, |d|);
    var x := MatchAt(p, s, 0).value;
    MatchSound(p, s, 0);
    SpansChars(p, s, 0, x);
    if w != [] {
      assert s[|d|] == w[0];
    }
    assert x == |d|;
    assert s[|d|..] == w;
  }

  /** A match cannot reach past a character the pattern cannot consume. */
  lemma MatchBefore(p: Pattern, s: string, e: nat, k: nat)
    requires Spans(p, s, 0, e) && k < |s| && Inert(p, s[k])
    ensures e <= k
  {
    SpansChars(p, s, 0, e);
  }

  /** A time has no slash in it. */
  lemma TimeNoSlash(t: string)
    requires IsTime(t)
    ensures forall j :: 0 <= j < |t| ==> t[j] != '/'
  {
    SpansChars(TimePattern, t, 0, |t|);
    forall j | 0 <= j < |t| ensures t[j] != '/' {
      PatternAlphabet(t[j]);
    }
  }

  /** Indexing into a suffix of `t + w` that stays inside `t`. */
  lemma PickFrom(t: string, w: string, i: nat, j: nat)
    requires i + j < |t|
    ensures (t + w)[i..][j] == t[i + j]
  {
  }

  /** No date starts inside a time that is followed by a character a date cannot
      consume: a date needs a slash, and a time has none. */
  lemma NoDateAt(t: string, w: string, i: nat)
    requires IsTime(t) && (w == [] || Inert(DatePattern, w[0])) && i < |t|
    ensures MatchAt(DatePattern, (t + w)[i..], 0).None?
  {
    var x := (t + w)[i..];
    if MatchAt(DatePattern, x, 0).Some? {
      var e := MatchAt(DatePattern, x, 0).value;
      MatchSound(DatePattern, x, 0);
      SpansHasLit(DatePattern, x, 0, e, 1);
      var j :| 0 <= j < e && x[j] == '/';
      if w != [] {
        MatchBefore(DatePattern, x, e, |t| - i);
      }
      assert i + j < |t|;
      PickFrom(t, w, i, j);
      TimeNoSlash(t);
      assert false;
    }
  }

  /** Lowering around a piece that has no capitals leaves the piece as it is. */
  lemma LowerAround(u: string, d: string, w: string)
    requires NoUpper(d)
    ensures Lower(u + d + w) == Lower(u) + d + Lower(w)
    ensures Lower(u + w) == Lower(u) + Lower(w)
  {
    calc {
      Lower(u + d + w);
      { LowerAppend(u + d, w); }
      Lower(u + d) + Lower(w);
      { LowerAppend(u, d); LowerFixed(d); }
      (Lower(u) + d) + Lower(w);
    }
    LowerAppend(u, w);
  }

  /** Both deletions pass over digit-free text unchanged. */
  lemma UndatedSkip(a: string, b: string)
    requires NoDigits(a)
    ensures Undated(a + b) == a + Undated(b)
  {
    PatternFacts();
    var db := Sub(DatePattern, "", b);
    SubSkip(DatePattern, "", a, b);
    SubSkip(TimePattern, "", a, db);
  }

  /** A whole date at the front, before a character a date cannot consume, goes. */
  lemma DateGone(d: string, b: string)
    requires IsDate(d) && (b == [] || Inert(DatePattern, b[0]))
    ensures Undated(d + b) == Undated(b)
  {
    PatternFacts();
    DeletedWhole(DatePattern, d, b);
  }

  /** The text before a date cannot run into it: either it holds no digits, or
      its last character is neither a digit nor a slash. */
  predicate DateApart(u: string) {
    NoDigits(u) || u == [] || (!IsDigit(u[|u| - 1]) && u[|u| - 1] != '/')
  }

  /** The text before a time cannot run into it, nor into a date through it:
      either it holds no digits, or its last character is neither a digit, nor a
      slash, nor a colon. */
  predicate TimeApart(u: string) {
    NoDigits(u) || u == [] || (!IsDigit(u[|u| - 1]) && u[|u| - 1] != '/' && u[|u| - 1] != ':')
  }

  /** Lowering keeps the text before a date or a time apart from it. */
  lemma LowerApart(u: string)
    ensures DateApart(u) ==> DateApart(Lower(u))
    ensures TimeApart(u) ==> TimeApart(Lower(u))
  {
    LowerDigits(u);
    if u != [] {
      var c, d := u[|u| - 1], Lower(u)[|u| - 1];
      assert d == LowerChar(c);
      assert IsDigit(d) <==> IsDigit(c);
      assert d == '/' ==> c == '/';
      assert d == ':' ==> c == ':';
    }
  }

  /** A date after text that cannot run into it, and before a character it cannot
      consume, is deleted, and the deletions then see the same text as without it. */
  lemma DateDeleted(a: string, d: string, b: string)
    requires DateApart(a) && IsDate(d) && (b == [] || Inert(DatePattern, b[0]))
    ensures Undated(a + d + b) == Undated(a + b)
  {
    AppendAssoc(a, d, b);
    if NoDigits(a) {
      UndatedSkip(a, d + b);
      DateGone(d, b);
      UndatedSkip(a, b);
    } else {
      PatternFacts();
      PatternAlphabet(a[|a| - 1]);
      SubSplit(DatePattern, "", a, d + b);
      DeletedWhole(DatePattern, d, b);
      SubSplit(DatePattern, "", a, b);
    }
  }

  /** The date deletion works on the two sides of a character that is neither a
      digit nor a slash, and keeps that character last on its left. */
  lemma DatesSplit(a: string, b: string)
    requires a != [] && !IsDigit(a[|a| - 1]) && a[|a| - 1] != '/'
    ensures MinLen(DatePattern) > 0
    ensures Sub(DatePattern, "", a + b) == Sub(DatePattern, "", a) + Sub(DatePattern, "", b)
    ensures var r := Sub(DatePattern, "", a); r != [] && r[|r| - 1] == a[|a| - 1]
  {
    PatternFacts();
    var c := a[|a| - 1];
    PatternAlphabet(c);
    SubSplit(DatePattern, "", a, b);
    LastRest(a);
    SubFront(DatePattern, "", a[..|a| - 1], [c]);
    SubShort(DatePattern, "", [c]);
  }

  /** The time deletion works on the two sides of a character that is neither a
      digit nor a colon. */
  lemma TimesSplit(a: string, b: string)
    requires a != [] && !IsDigit(a[|a| - 1]) && a[|a| - 1] != ':'
    ensures MinLen(TimePattern) > 0
    ensures Sub(TimePattern, "", a + b) == Sub(TimePattern, "", a) + Sub(TimePattern, "", b)
  {
    PatternFacts();
    PatternAlphabet(a[|a| - 1]);
    SubSplit(TimePattern, "", a, b);
  }

  /** Both deletions work on the two sides of a character that neither pattern
      can consume, on their own. */
  lemma UndatedSplit(a: string, b: string)
    requires a != [] && !IsDigit(a[|a| - 1]) && a[|a| - 1] != '/' && a[|a| - 1] != ':'
    ensures Undated(a + b) == Undated(a) + Undated(b)
  {
    PatternFacts();
    var da, db := Sub(DatePattern, "", a), Sub(DatePattern, "", b);
    assert Sub(DatePattern, "", a + b) == da + db && da != [] && da[|da| - 1] == a[|a| - 1] by {
      DatesSplit(a, b);
    }
    assert Sub(TimePattern, "", da + db) == Sub(TimePattern, "", da) + Sub(TimePattern, "", db) by {
      TimesSplit(da, db);
    }
  }

  /** The date deletion keeps the first character of a text that does not start
      with a digit. */
  lemma DatesKeepFirst(b: string)
    requires b != [] && !IsDigit(b[0])
    ensures MinLen(DatePattern) > 0
    ensures Sub(DatePattern, "", b) != [] && Sub(DatePattern, "", b)[0] == b[0]
  {
    PatternFacts();
    assert b == [b[0]] + b[1..];
    SubSkip(DatePattern, "", [b[0]], b[1..]);
  }

  /** The date deletion passes over a time followed by a character a date cannot
      consume. */
  lemma DatesKeepTime(t: string, b: string)
    requires IsTime(t) && (b == [] || Inert(DatePattern, b[0]))
    ensures MinLen(DatePattern) > 0
    ensures Sub(DatePattern, "", t + b) == t + Sub(DatePattern, "", b)
  {
    PatternFacts();
    forall i | 0 <= i < |t| ensures MatchAt(DatePattern, (t + b)[i..], 0).None? {
      NoDateAt(t, b, i);
    }
    SubKeep(DatePattern, "", t, b);
  }

  /** A whole time at the front, before a character neither pattern can consume,
      survives the date deletion and is then deleted. */
  lemma TimeGone(t: string, b: string)
    requires IsTime(t)
    requires b == [] || (Inert(DatePattern, b[0]) && Inert(TimePattern, b[0]))
    ensures Undated(t + b) == Undated(b)
  {
    PatternFacts();
    DatesKeepTime(t, b);
    if b != [] {
      DatesKeepFirst(b);
    }
    DeletedWhole(TimePattern, t, Sub(DatePattern, "", b));
  }

  /** A time after text that cannot run into it, and before a character neither
      pattern can consume, survives the date deletion and is then deleted. */
  lemma TimeDeleted(a: string, t: string, b: string)
    requires TimeApart(a) && IsTime(t)
    requires b == [] || (Inert(DatePattern, b[0]) && Inert(TimePattern, b[0]))
    ensures Undated(a + t + b) == Undated(a + b)
  {
    AppendAssoc(a, t, b);
    TimeGone(t, b);
    if NoDigits(a) {
      UndatedSkip(a, t + b);
      UndatedSkip(a, b);
    } else {
      UndatedSplit(a, t + b);
      UndatedSplit(a, b);
    }
  }

  /** Texts that differ only in one whole date normalise alike, so a page whose
      only change is the date it shows hashes the same. The text before the date
      cannot run into it, and the date is not followed by a digit or a slash. */
  lemma DateIgnored(u: string, d: string, w: string)
    requires IsAscii(u) && IsAscii(w) && DateApart(u) && IsDate(d)
    requires w == [] || (!IsDigit(w[0]) && w[0] != '/')
    ensures IsAscii(u + d + w) && IsAscii(u + w)
    ensures NormalizeText(u + d + w) == NormalizeText(u + w)
  {
    SpansChars(DatePattern, d, 0, |d|);
    forall j | 0 <= j < |d| ensures IsDigit(d[j]) || d[j] == '/' {
      PatternAlphabet(d[j]);
    }
    AppendClasses(u, d);
    AppendClasses(u + d, w);
    AppendClasses(u, w);
    LowerAround(u, d, w);
    LowerApart(u);
    if w != [] {
      PatternAlphabet(Lower(w)[0]);
    }
    DateDeleted(Lower(u), d, Lower(w));
    NormalizeStages(u + d + w);
    NormalizeStages(u + w);
  }

  /** Texts that differ only in one whole time normalise alike, so a page whose
      only change is the time it shows hashes the same. The text before the time
      cannot run into it, and the time is not followed by a digit, a colon or a slash. */
  lemma TimeIgnored(u: string, t: string, w: string)
    requires IsAscii(u) && IsAscii(w) && TimeApart(u) && IsTime(t)
    requires w == [] || (!IsDigit(w[0]) && w[0] != '/' && w[0] != ':')
    ensures IsAscii(u + t + w) && IsAscii(u + w)
    ensures NormalizeText(u + t + w) == NormalizeText(u + w)
  {
    SpansChars(TimePattern, t, 0, |t|);
    forall j | 0 <= j < |t| ensures IsDigit(t[j]) || t[j] == ':' {
      PatternAlphabet(t[j]);
    }
    AppendClasses(u, t);
    AppendClasses(u + t, w);
    AppendClasses(u, w);
    LowerAround(u, t, w);
    LowerApart(u);
    if w != [] {
      PatternAlphabet(Lower(w)[0]);
    }
    TimeDeleted(Lower(u), t, Lower(w));
    NormalizeStages(u + t + w);
    NormalizeStages(u + w);
  }

  /** Text made of whitespace only, at least one character of it. */
  predicate IsGap(x: string) {
    x != [] && forall i :: 0 <= i < |x| ==> IsSpace(x[i])
  }

  /** Neither deletion can consume whitespace, so each works on the two sides of
      a gap on its own and keeps the gap. */
  lemma SubAroundGap(p: Pattern, a: string, x: string, b: string)
    requires p == DatePattern || p == TimePattern
    requires IsGap(x)
    ensures MinLen(p) > 0 && Sub(p, "", a + x + b) == Sub(p, "", a) + x + Sub(p, "", b)
  {
    PatternFacts();
    PatternAlphabet(x[0]);
    PatternAlphabet(x[|x| - 1]);
    SubSplit(p, "", a + x, b);
    SubFront(p, "", a, x);
    SubNoOp(p, "", x);
  }

  lemma UndatedAroundGap(a: string, x: string, b: string)
    requires IsGap(x)
    ensures Undated(a + x + b) == Undated(a) + x + Undated(b)
  {
    SubAroundGap(DatePattern, a, x, b);
    PatternFacts();
    SubAroundGap(TimePattern, Sub(DatePattern, "", a), x, Sub(DatePattern, "", b));
  }

  /** A gap in front of text that starts with a non-space becomes one space. */
  lemma CollapseLeadingGap(z: string, b: string)
    requires IsGap(z)
    requires b == [] || !IsSpace(b[0])
    ensures Collapse(z + b) == " " + Collapse(b)
  {
    var zb := z + b;
    assert zb[0] == z[0];
    CollapseStep(zb);
    var k := Run(Space, zb, 0, Unbounded);
    RunIsLongest(Space, zb, 0, |z|, Unbounded);
    if b != [] {
      assert !IsSpace(zb[|z|]);
    }
    assert k == |z|;
    assert zb[|z|..] == b;
  }

  /** A gap between a non-space and a non-space collapses to one space. */
  lemma CollapseGap(a: string, z: string, b: string)
    requires a == [] || !IsSpace(a[|a| - 1])
    requires IsGap(z)
    requires b == [] || !IsSpace(b[0])
    ensures Collapse(a + z + b) == Collapse(a) + (" " + Collapse(b))
  {
    CollapseLeadingGap(z, b);
    AppendAssoc(a, z, b);
    if a == [] {
      assert a + (z + b) == z + b;
      assert Collapse(a) == [];
    } else {
      PatternFacts();
      SubSplit(Whitespace, " ", a, z + b);
    }
  }

  lemma GapJoin(tail: string, z: string, head: string)
    requires IsGap(z)
    requires forall i :: 0 <= i < |tail| ==> IsSpace(tail[i])
    requires forall i :: 0 <= i < |head| ==> IsSpace(head[i])
    ensures IsGap(tail + z + head)
  {
    var g := tail + z + head;
    forall i | 0 <= i < |g| ensures IsSpace(g[i]) {
      if i < |tail| {
        assert g[i] == tail[i];
      } else if i < |tail| + |z| {
        assert g[i] == z[i - |tail|];
      } else {
        assert g[i] == head[i - |tail| - |z|];
      }
    }
  }

  /** A text is its strip from the right followed by the whitespace removed. */
  lemma TrailingSplit(a: string) returns (tail: string)
    ensures a == StripTrailing(a) + tail
    ensures forall i :: 0 <= i < |tail| ==> IsSpace(tail[i])
  {
    var n := |StripTrailing(a)|;
    tail := a[n..];
    assert a == a[..n] + tail;
    forall i | 0 <= i < |tail| ensures IsSpace(tail[i]) {
      assert tail[i] == a[n + i];
    }
  }

  /** A text is the whitespace removed at its front followed by its strip from the left. */
  lemma LeadingSplit(b: string) returns (head: string)
    ensures b == head + StripLeading(b)
    ensures forall i :: 0 <= i < |head| ==> IsSpace(head[i])
  {
    var n := |b| - |StripLeading(b)|;
    head := b[..n];
    assert b == head + b[n..];
  }

  /** The whitespace around a gap, regrouped with the gap. */
  lemma GapRegroup(a: string, tail: string, z: string, head: string, b: string)
    ensures (a + tail) + z + (head + b) == a + (tail + z + head) + b
  {
  }

  /** However wide a gap is, the whitespace around it merges into one space. */
  lemma CollapseAroundGap(a: string, z: string, b: string)
    requires IsGap(z)
    ensures Collapse(a + z + b) == Collapse(StripTrailing(a)) + (" " + Collapse(StripLeading(b)))
  {
    var tail := TrailingSplit(a);
    var head := LeadingSplit(b);
    GapJoin(tail, z, head);
    var a', b' := StripTrailing(a), StripLeading(b);
    GapRegroup(a', tail, z, head, b');
    CollapseGap(a', tail + z + head, b');
  }

  /** The normal form of text with a gap in it, whatever the gap holds. */
  lemma GapForm(u: string, x: string, w: string)
    requires IsAscii(u) && IsAscii(w) && IsGap(x)
    ensures IsAscii(u + x + w)
    ensures NormalizeText(u + x + w) ==
      Strip(Collapse(StripTrailing(Undated(Lower(u)))) + (" " + Collapse(StripLeading(Undated(Lower(w))))))
  {
    assert IsAscii(x) && NoUpper(x);
    AppendClasses(u, x);
    AppendClasses(u + x, w);
    var lu, lw := Lower(u), Lower(w);
    LowerAround(u, x, w);
    var du, dw := Undated(lu), Undated(lw);
    assert Undated(lu + x + lw) == du + x + dw by {
      UndatedAroundGap(lu, x, lw);
    }
    CollapseAroundGap(du, x, dw);
    NormalizeStages(u + x + w);
  }

  /** Texts that differ only in the whitespace at one place normalise alike, so a
      page whose layout changed but whose words did not hashes the same. */
  lemma SpacingIgnored(u: string, x: string, y: string, w: string)
    requires IsAscii(u) && IsAscii(w) && IsGap(x) && IsGap(y)
    ensures IsAscii(u + x + w) && IsAscii(u + y + w)
    ensures NormalizeText(u + x + w) == NormalizeText(u + y + w)
  {
    GapForm(u, x, w);
    GapForm(u, y, w);
  }

  /** A space in front of text already collapsed-and-stripped-to changes nothing:
      it either joins the whitespace run that starts the text or is stripped. */
  lemma CollapseSpaceFront(d: string)
    ensures Strip(Collapse(" " + d)) == Strip(Collapse(d))
  {
    var t := StripLeading(d);
    var n := |d| - |t|;
    assert Collapse(" " + d) == " " + Collapse(t) by {
      assert "" + " " + d == " " + d;
      CollapseAroundGap("", " ", d);
    }
    if n > 0 {
      assert Collapse(d) == " " + Collapse(t) by {
        assert d == "" + d[..n] + t;
        assert IsGap(d[..n]);
        StripLeadingFixed(t);
        CollapseAroundGap("", d[..n], t);
      }
    } else {
      assert t == d;
      StripSpaceFront(Collapse(d));
    }
  }

  /** A space at the back: the mirror image of `CollapseSpaceFront`. */
  lemma CollapseSpaceBack(d: string)
    ensures Strip(Collapse(d + " ")) == Strip(Collapse(d))
  {
    var t := StripTrailing(d);
    var n := |d| - |t|;
    assert Collapse(d + " ") == Collapse(t) + " " by {
      assert d + " " + "" == d + " ";
      CollapseAroundGap(d, " ", "");
    }
    if n > 0 {
      assert Collapse(d) == Collapse(t) + " " by {
        assert d == t + d[|t|..] + "";
        assert IsGap(d[|t|..]);
        StripTrailingFixed(t);
        CollapseAroundGap(t, d[|t|..], "");
      }
    } else {
      assert t == d;
      StripSpaceBack(Collapse(d));
    }
  }

  /** `normalize_text` ignores one space added in front. */
  lemma SpaceFrontIgnored(w: string)
    requires IsAscii(w)
    ensures IsAscii(" " + w)
    ensures NormalizeText(" " + w) == NormalizeText(w)
  {
    AppendClasses(" ", w);
    var l := Lower(w);
    assert Lower(" " + w) == " " + l by {
      LowerAppend(" ", w);
    }
    assert Undated(" " + l) == " " + Undated(l) by {
      UndatedSkip(" ", l);
    }
    CollapseSpaceFront(Undated(l));
    NormalizeStages(" " + w);
    NormalizeStages(w);
  }

  /** `normalize_text` ignores one space added at the back. */
  lemma SpaceBackIgnored(w: string)
    requires IsAscii(w)
    ensures IsAscii(w + " ")
    ensures NormalizeText(w + " ") == NormalizeText(w)
  {
    AppendClasses(w, " ");
    var l := Lower(w);
    assert Lower(w + " ") == l + " " by {
      LowerAppend(w, " ");
    }
    assert Undated(l + " ") == Undated(l) + " " by {
      assert l + " " + "" == l + " ";
      assert Undated("") == "";
      UndatedAroundGap(l, " ", "");
    }
    CollapseSpaceBack(Undated(l));
    NormalizeStages(w + " ");
    NormalizeStages(w);
  }

  /** `normalize_text` ignores any whitespace added in front. */
  lemma PaddingFront(x: string, v: string)
    requires IsAscii(v)
    requires forall i :: 0 <= i < |x| ==> IsSpace(x[i])
    ensures IsAscii(x + v)
    ensures NormalizeText(x + v) == NormalizeText(v)
  {
    AppendClasses(x, v);
    if x != [] {
      assert "" + x + v == x + v;
      assert "" + " " + v == " " + v;
      SpacingIgnored("", x, " ", v);
      SpaceFrontIgnored(v);
    } else {
      assert x + v == v;
    }
  }

  /** `normalize_text` ignores any whitespace added at the back. */
  lemma PaddingBack(u: string, y: string)
    requires IsAscii(u)
    requires forall i :: 0 <= i < |y| ==> IsSpace(y[i])
    ensures IsAscii(u + y)
    ensures NormalizeText(u + y) == NormalizeText(u)
  {
    AppendClasses(u, y);
    if y != [] {
      assert u + y + "" == u + y;
      assert u + " " + "" == u + " ";
      SpacingIgnored(u, y, " ", "");
      SpaceBackIgnored(u);
    } else {
      assert u + y == u;
    }
  }

  /** `normalize_text` ignores whitespace added at either end, however much or
      little (none at all included). */
  lemma PaddingIgnored(x: string, u: string, y: string)
    requires IsAscii(u)
    requires forall i :: 0 <= i < |x| ==> IsSpace(x[i])
    requires forall i :: 0 <= i < |y| ==> IsSpace(y[i])
    ensures IsAscii(x + u + y)
    ensures NormalizeText(x + u + y) == NormalizeText(u)
  {
    PaddingBack(u, y);
    assert x + u + y == x + (u + y);
    PaddingFront(x, u + y);
  }
}

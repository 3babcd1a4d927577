/** Concrete inputs of `normalize_text`: the sample headline
    `"news: site updated 12/1/24 09:30 extra   spaces"`, a second dated item on one
    page, and the input that shows normalisation is not idempotent. Each figure is computed in
    pieces split at characters the pattern at hand cannot consume. */
module NormalizeCases {
  import opened Wrappers
  import opened Text
  import opened Regex
  import opened Normalize

  /** A piece of plain wording: ASCII, no digits, no capitals, already collapsed,
      and no whitespace at either end. */
  predicate Wording(s: string) {
    s != [] && IsAscii(s) && NoDigits(s) && NoUpper(s) && Collapsed(s) && !IsSpace(s[0]) && !IsSpace(s[|s| - 1])
  }

  /** A gap is ASCII and holds no digits and no capitals. */
  lemma GapClasses(x: string)
    requires IsGap(x)
    ensures IsAscii(x) && NoDigits(x) && NoUpper(x)
  {
  }

  /** Dates and times are ASCII and have no capitals. */
  lemma StampClasses(s: string)
    requires IsDate(s) || IsTime(s)
    ensures IsAscii(s) && NoUpper(s)
  {
    if IsDate(s) {
      SpansChars(DatePattern, s, 0, |s|);
    } else {
      SpansChars(TimePattern, s, 0, |s|);
    }
    forall j | 0 <= j < |s| ensures IsDigit(s[j]) || s[j] == '/' || s[j] == ':' {
      PatternAlphabet(s[j]);
    }
  }

  /** The date goes. */
  lemma DateDropped(head: string, day: string, clock: string, tail: string)
    requires IsAscii(head) && NoDigits(head) && IsDate(day) && IsTime(clock) && IsAscii(tail)
    ensures IsAscii(head + " " + day + (" " + clock + tail)) && IsAscii(head + " " + (" " + clock + tail))
    ensures NormalizeText(head + " " + day + (" " + clock + tail)) == NormalizeText(head + " " + (" " + clock + tail))
  {
    StampClasses(clock);
    AppendClasses(head, " ");
    AppendClasses(" ", clock);
    AppendClasses(" " + clock, tail);
    DateIgnored(head + " ", day, " " + clock + tail);
  }

  /** The time goes. */
  lemma TimeDropped(head: string, clock: string, tail: string)
    requires IsAscii(head) && NoDigits(head) && IsTime(clock) && IsAscii(tail) && tail != [] && tail[0] == ' '
    ensures IsAscii(head + " " + " " + clock + tail) && IsAscii(head + " " + " " + tail)
    ensures NormalizeText(head + " " + " " + clock + tail) == NormalizeText(head + " " + " " + tail)
  {
    AppendClasses(head, " ");
    AppendClasses(head + " ", " ");
    TimeIgnored(head + " " + " ", clock, tail);
  }

  /** The whitespace substitution on wording separated by two gaps. */
  lemma TwoGapsCollapse(head: string, g: string, left: string, gap: string, right: string)
    requires Wording(head) && Wording(left) && Wording(right) && IsGap(g) && IsGap(gap)
    ensures Collapse(head + g + (left + gap + right)) == head + " " + left + " " + right
  {
    var tail := left + gap + right;
    assert tail[0] == left[0];
    CollapseGap(head, g, tail);
    CollapseGap(left, gap, right);
    CollapseFixedPoint(head);
    CollapseFixedPoint(left);
    CollapseFixedPoint(right);
  }

  /** Wording separated by gaps comes out single-spaced. */
  lemma GapsClosed(head: string, left: string, gap: string, right: string)
    requires Wording(head) && Wording(left) && Wording(right) && IsGap(gap)
    ensures IsAscii(head + " " + " " + (" " + left + gap + right))
    ensures NormalizeText(head + " " + " " + (" " + left + gap + right)) == head + " " + left + " " + right
  {
    GapClasses(gap);
    var tail := left + gap + right;
    AppendClasses(left, gap);
    AppendClasses(left + gap, right);
    var g := "   ";
    assert IsGap(g) && NoUpper(g) && IsAscii(g) && NoDigits(g);
    var text := head + g + tail;
    assert head + " " + " " + (" " + left + gap + right) == text;
    AppendClasses(head, g);
    AppendClasses(head + g, tail);
    LowerFixed(text);
    TwoGapsCollapse(head, g, left, gap, right);
    StripFixed(head + " " + left + " " + right);
  }

  /** The shape of the sample headline: a headline, a date, a time, and two words
      with a gap between them. The date and the time go, and every gap becomes
      one space. */
  lemma DatedHeadline(head: string, day: string, clock: string, left: string, gap: string, right: string)
    requires Wording(head) && Wording(left) && Wording(right)
    requires IsDate(day) && IsTime(clock) && IsGap(gap)
    ensures IsAscii(head + " " + day + (" " + clock + (" " + left + gap + right)))
    ensures NormalizeText(head + " " + day + (" " + clock + (" " + left + gap + right))) ==
      head + " " + left + " " + right
  {
    var tail := " " + left + gap + right;
    GapClasses(gap);
    AppendClasses(" ", left);
    AppendClasses(" " + left, gap);
    AppendClasses(" " + left + gap, right);
    DateDropped(head, day, clock, tail);
    AppendAssoc(head + " ", " ", clock);
    AppendAssoc(head + " ", " " + clock, tail);
    TimeDropped(head, clock, tail);
    GapsClosed(head, left, gap, right);
  }

  // The sample headline, "news: site updated 12/1/24 09:30 extra   spaces".
  const News := "news:"
  const Site := "site"
  const Updated := "updated"
  const Headline := News + " " + Site + " " + Updated
  const Day := "12/1/24"
  const Clock := "09:30"
  const Extra := "extra"
  const Spaces := "spaces"
  const Wide := "   "

  lemma DayIsADate()
    ensures IsDate(Day)
  {
    var p := DatePattern;
    assert p[1..][1..][1..][1..][1..] == [];
    assert Spans(p[1..][1..][1..][1..][1..], Day, 7, 7);
    assert AllIn(Digit, Day, 5, 7);
    assert Spans(p[1..][1..][1..][1..], Day, 5, 7);
    assert Spans(p[1..][1..][1..], Day, 4, 7);
    assert AllIn(Digit, Day, 3, 4);
    assert Spans(p[1..][1..], Day, 3, 7);
    assert Spans(p[1..], Day, 2, 7);
    assert AllIn(Digit, Day, 0, 2);
    assert Spans(p, Day, 0, 7);
  }

  lemma ClockIsATime()
    ensures IsTime(Clock)
  {
    var p := TimePattern;
    assert p[1..][1..][1..] == [];
    assert Spans(p[1..][1..][1..], Clock, 5, 5);
    assert AllIn(Digit, Clock, 3, 5);
    assert Spans(p[1..][1..], Clock, 3, 5);
    assert Spans(p[1..], Clock, 2, 5);
    assert AllIn(Digit, Clock, 0, 2);
    assert Spans(p, Clock, 0, 5);
  }

  /** Two pieces of wording joined by one space are wording. */
  lemma WordingJoin(a: string, b: string)
    requires Wording(a) && Wording(b)
    ensures Wording(a + " " + b)
  {
    var s := a + " " + b;
    AppendClasses(a, " ");
    AppendClasses(a + " ", b);
    assert s[0] == a[0] && s[|s| - 1] == b[|b| - 1];
    forall i | 0 <= i < |s| && IsSpace(s[i]) ensures s[i] == ' ' && (i + 1 < |s| ==> s[i + 1] != ' ') {
      if i < |a| {
        assert s[i] == a[i];
        if i + 1 < |a| {
          assert s[i + 1] == a[i + 1];
        }
      } else if i > |a| {
        assert s[i] == b[i - |a| - 1];
        if i + 1 < |s| {
          assert s[i + 1] == b[i - |a|];
        }
      } else {
        assert s[i + 1] == b[0];
      }
    }
  }

  lemma NewsWording()
    ensures Wording(News)
  {
  }

  lemma SiteWording()
    ensures Wording(Site)
  {
  }

  lemma UpdatedWording()
    ensures Wording(Updated)
  {
  }

  lemma HeadlineWording()
    ensures Wording(Headline)
  {
    NewsWording();
    SiteWording();
    UpdatedWording();
    WordingJoin(News, Site);
    WordingJoin(News + " " + Site, Updated);
  }

  lemma ExtraWording()
    ensures Wording(Extra)
  {
  }

  lemma SpacesWording()
    ensures Wording(Spaces)
  {
  }

  lemma WideGap()
    ensures IsGap(Wide)
  {
  }

  lemma HeadlineSpelledOut()
    ensures Headline == "news: site updated"
  {
  }

  lemma TailSpelledOut()
    ensures " " + Extra + Wide + Spaces == " extra   spaces"
  {
  }

  lemma SampleSpelledOut()
    ensures "news: site updated" + " " + Day + (" " + Clock + " extra   spaces") ==
      "news: site updated 12/1/24 09:30 extra   spaces"
  {
  }

  lemma ResultSpelledOut()
    ensures "news: site updated" + " " + Extra + " " + Spaces == "news: site updated extra spaces"
  {
  }

  /** The sample headline `"news: site updated 12/1/24 09:30 extra   spaces"`: the
      date and the time disappear and the run of spaces shrinks to one. */
  lemma SampleHeadline()
    ensures IsAscii("news: site updated 12/1/24 09:30 extra   spaces")
    ensures NormalizeText("news: site updated 12/1/24 09:30 extra   spaces") == "news: site updated extra spaces"
  {
    DayIsADate();
    ClockIsATime();
    HeadlineWording();
    ExtraWording();
    SpacesWording();
    WideGap();
    DatedHeadline(Headline, Day, Clock, Extra, Wide, Spaces);
    HeadlineSpelledOut();
    TailSpelledOut();
    SampleSpelledOut();
    ResultSpelledOut();
  }

  // A listing with two dated items: "menu 1/2/33 open " before the second date.
  const Listing := "menu 1/2/33 open "
  const Closing := " exams"

  /** The second item's date can change without changing the normal form, even
      though an earlier date precedes it on the page. */
  lemma SecondDateIgnored(d: string, d': string)
    requires IsDate(d) && IsDate(d')
    ensures IsAscii(Listing + d + Closing) && IsAscii(Listing + d' + Closing)
    ensures NormalizeText(Listing + d + Closing) == NormalizeText(Listing + d' + Closing)
  {
    ListingClasses();
    DateIgnored(Listing, d, Closing);
    DateIgnored(Listing, d', Closing);
  }

  /** The listing is ASCII and ends in a space, so it cannot run into the date. */
  lemma ListingClasses()
    ensures IsAscii(Listing) && IsAscii(Closing) && DateApart(Listing)
  {
    assert Listing[|Listing| - 1] == ' ';
  }

  // A time wedged between the pieces of a date: "1/1/1:0011".
  const DateLike := "1/1/1:"
  const Digits := "0011"
  const Tangled := DateLike + Digits
  const Part := "1/"
  const TimeLike := "1:0011"
  const Joined := Part + (Part + "11")

  lemma TangledSpelledOut()
    ensures Tangled == "1/1/1:0011" && Tangled == Part + (Part + TimeLike) && Joined == "1/1/11"
  {
  }

  lemma DateLikeKept()
    ensures Sub(DatePattern, "", DateLike) == DateLike
  {
    PatternFacts();
    var front, colon := "1/1/1", ":";
    assert DateLike == front + colon;
    SubFront(DatePattern, "", front, colon);
    SubShort(DatePattern, "", front);
    SubShort(DatePattern, "", colon);
  }

  lemma DigitsKept()
    ensures Sub(DatePattern, "", Digits) == Digits
  {
    PatternFacts();
    SubShort(DatePattern, "", Digits);
  }

  lemma PartKept()
    ensures Sub(TimePattern, "", Part) == Part
  {
    PatternFacts();
    SubShort(TimePattern, "", Part);
  }

  lemma TimeLikeDeleted()
    ensures Sub(TimePattern, "", TimeLike) == "11"
  {
    PatternFacts();
    assert MatchAt(TimePattern, TimeLike, 0) == Some(4);
    SubMatchStep(TimePattern, "", TimeLike, 4);
    assert TimeLike[4..] == "11";
    SubShort(TimePattern, "", "11");
  }

  lemma JoinedIsADate()
    ensures IsDate(Joined)
  {
    TangledSpelledOut();
    var p := DatePattern;
    assert p[1..][1..][1..][1..][1..] == [];
    assert Spans(p[1..][1..][1..][1..][1..], Joined, 6, 6);
    assert AllIn(Digit, Joined, 4, 6);
    assert Spans(p[1..][1..][1..][1..], Joined, 4, 6);
    assert Spans(p[1..][1..][1..], Joined, 3, 6);
    assert AllIn(Digit, Joined, 2, 3);
    assert Spans(p[1..][1..], Joined, 2, 6);
    assert Spans(p[1..], Joined, 1, 6);
    assert AllIn(Digit, Joined, 0, 1);
    assert Spans(p, Joined, 0, 6);
  }

  lemma JoinedDeleted()
    ensures Undated(Joined) == []
  {
    JoinedIsADate();
    DeletedWhole(DatePattern, Joined, []);
    assert Joined + [] == Joined;
    PatternFacts();
    assert Sub(TimePattern, "", []) == [];
  }

  lemma TangledDates()
    ensures Sub(DatePattern, "", Tangled) == Tangled
  {
    PatternFacts();
    SubSplit(DatePattern, "", DateLike, Digits);
    DateLikeKept();
    DigitsKept();
  }

  lemma TangledTimes()
    ensures Sub(TimePattern, "", Tangled) == Joined
  {
    PatternFacts();
    TangledSpelledOut();
    SubSplit(TimePattern, "", Part, Part + TimeLike);
    SubSplit(TimePattern, "", Part, TimeLike);
    PartKept();
    TimeLikeDeleted();
  }

  lemma JoinedKept()
    ensures Collapse(Joined) == Joined && Strip(Joined) == Joined
  {
    assert Collapsed(Joined);
    CollapseFixedPoint(Joined);
    StripFixed(Joined);
  }

  lemma TangledClasses()
    ensures IsAscii(Tangled) && NoUpper(Tangled) && IsAscii(Joined) && NoUpper(Joined)
  {
    TangledSpelledOut();
  }

  lemma TangledUndated()
    ensures Undated(Tangled) == Joined
  {
    PatternFacts();
    TangledDates();
    TangledTimes();
  }

  lemma FirstPass()
    ensures IsAscii(Tangled) && NormalizeText(Tangled) == Joined
  {
    TangledClasses();
    LowerFixed(Tangled);
    NormalizeStages(Tangled);
    TangledUndated();
    JoinedKept();
  }

  lemma SecondPass()
    ensures IsAscii(Joined) && NormalizeText(Joined) == ""
  {
    TangledClasses();
    LowerFixed(Joined);
    NormalizeStages(Joined);
    JoinedDeleted();
    PatternFacts();
    assert Collapse([]) == [];
  }

  /** Normalisation is not idempotent: deleting the time "1:00" from "1/1/1:0011"
      joins "1/1/" and "11" into a date, which a second pass deletes. */
  lemma NotIdempotent()
    ensures Tangled == "1/1/1:0011" && IsAscii(Tangled)
    ensures NormalizeText(Tangled) == "1/1/11"
    ensures NormalizeText(NormalizeText(Tangled)) == ""
  {
    TangledSpelledOut();
    FirstPass();
    SecondPass();
  }
}

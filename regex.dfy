/** The fragment of Python's `re` module that normalisation uses: patterns made of
    literal characters and greedy repetitions `\d{m,n}` and `\s+`, matched by
    backtracking as the `sre` engine does, and `re.sub` as a leftmost,
    non-overlapping, left-to-right scan. */
module Regex {
  import opened Wrappers
  import opened Text

  datatype CharClass = Digit | Space

  /** The upper bound of a repetition: `{m,n}` has `AtMost(n)`, `+` has `Unbounded`. */
  datatype Bound = AtMost(n: nat) | Unbounded

  /** One element of a pattern: a literal character, or a greedy repetition
      of a character class between `lo` and `hi` times. */
  datatype Item = Lit(c: char) | Repeat(cls: CharClass, lo: nat, hi: Bound)

  type Pattern = seq<Item>

  predicate InClass(cls: CharClass, c: char) {
    match cls
    case Digit => IsDigit(c)
    case Space => IsSpace(c)
  }

  predicate WithinBound(k: nat, hi: Bound) {
    hi.Unbounded? || k <= hi.n
  }

  /** Every character of `s[i..m]` belongs to `cls`. */
  predicate AllIn(cls: CharClass, s: string, i: nat, m: nat)
    requires i <= m <= |s|
  {
    forall j :: i <= j < m ==> InClass(cls, s[j])
  }

  /** The fewest characters any match of `p` consumes. */
  function MinLen(p: Pattern): nat {
    if p == [] then 0
    else (match p[0] case Lit(_) => 1 case Repeat(_, lo, _) => lo) + MinLen(p[1..])
  }

  /** The language of a pattern, stated declaratively: `p` matches exactly `s[i..e]`. */
  ghost predicate Spans(p: Pattern, s: string, i: nat, e: nat)
    decreases |p|
  {
    i <= e <= |s| &&
    if p == [] then e == i
    else match p[0]
      case Lit(c) => i < |s| && s[i] == c && Spans(p[1..], s, i + 1, e)
      case Repeat(cls, lo, hi) =>
        exists m :: i + lo <= m <= e && WithinBound(m - i, hi) && AllIn(cls, s, i, m) && Spans(p[1..], s, m, e)
  }

  function Shrink(hi: Bound): Bound {
    match hi
    case AtMost(n) => AtMost(if n == 0 then 0 else n - 1)
    case Unbounded => Unbounded
  }

  /** The greedy phase of a repetition: how many characters of `cls` follow position
      `i`, counting no further than `hi` allows. */
  function Run(cls: CharClass, s: string, i: nat, hi: Bound): (k: nat)
    requires i <= |s|
    ensures i + k <= |s| && WithinBound(k, hi) && AllIn(cls, s, i, i + k)
    ensures i + k == |s| || !InClass(cls, s[i + k]) || (hi.AtMost? && k == hi.n)
    decreases |s| - i
  {
    if i == |s| || !InClass(cls, s[i]) || hi == AtMost(0) then 0
    else 1 + Run(cls, s, i + 1, Shrink(hi))
  }

  /** Matching `p` anchored at position `i`: the end of the first match in the
      engine's order of preference, or None. */
  function MatchAt(p: Pattern, s: string, i: nat): (r: Option<nat>)
    requires i <= |s|
    ensures r.Some? ==> i + MinLen(p) <= r.value <= |s|
    decreases |p|, 1, 0
  {
    if p == [] then Some(i)
    else match p[0]
      case Lit(c) => if i < |s| && s[i] == c then MatchAt(p[1..], s, i + 1) else None
      case Repeat(cls, lo, hi) => Backtrack(p, s, i, Run(cls, s, i, hi))
  }

  /** The backtracking phase of a repetition that has consumed `k` characters: try
      the rest of the pattern after them, and on failure give one back, until fewer
      than `lo` would remain. */
  function Backtrack(p: Pattern, s: string, i: nat, k: nat): (r: Option<nat>)
    requires p != [] && p[0].Repeat? && i + k <= |s|
    ensures r.Some? ==> i + MinLen(p) <= r.value <= |s|
    decreases |p|, 0, k
  {
    if k < p[0].lo then None
    else match MatchAt(p[1..], s, i + k)
      case Some(e) => Some(e)
      case None => if k == 0 then None else Backtrack(p, s, i, k - 1)
  }

  /** `re.sub(p, repl, s)` for a pattern that cannot match the empty string: scan
      from the left; where a match starts, emit `repl` and resume after the match,
      otherwise keep the character and move one to the right. */
  function Sub(p: Pattern, repl: string, s: string): (r: string)
    requires MinLen(p) > 0
    decreases |s|
  {
    if s == [] then []
    else match MatchAt(p, s, 0)
      case Some(e) => repl + Sub(p, repl, s[e..])
      case None => [s[0]] + Sub(p, repl, s[1..])
  }

  /** Every literal that follows a repetition lies outside the repeated class, and
      only a literal may follow a repetition. In such a pattern the split points of a
      match are forced by the literals. */
  predicate Delimited(p: Pattern)
    decreases |p|
  {
    if p == [] then true
    else
      (match p[0]
       case Lit(_) => true
       case Repeat(cls, _, _) => |p| == 1 || (p[1].Lit? && !InClass(cls, p[1].c)))
      && Delimited(p[1..])
  }

  /** The greedy count is the longest run of the class that the bound admits. */
  lemma RunIsLongest(cls: CharClass, s: string, i: nat, m: nat, hi: Bound)
    requires i <= m <= |s| && AllIn(cls, s, i, m) && WithinBound(m - i, hi)
    ensures m - i <= Run(cls, s, i, hi)
  {
  }

  /** Whatever the engine reports as a match is one. */
  lemma {:induction false} MatchSound(p: Pattern, s: string, i: nat)
    requires i <= |s| && MatchAt(p, s, i).Some?
    ensures Spans(p, s, i, MatchAt(p, s, i).value)
    decreases |p|, 1, 0
  {
    if p != [] {
      match p[0]
      case Lit(c) => MatchSound(p[1..], s, i + 1);
      case Repeat(cls, lo, hi) => BacktrackSound(p, s, i, Run(cls, s, i, hi));
    }
  }

  lemma {:induction false} BacktrackSound(p: Pattern, s: string, i: nat, k: nat)
    requires p != [] && p[0].Repeat? && i + k <= |s|
    requires AllIn(p[0].cls, s, i, i + k) && WithinBound(k, p[0].hi)
    requires Backtrack(p, s, i, k).Some?
    ensures Spans(p, s, i, Backtrack(p, s, i, k).value)
    decreases |p|, 0, k
  {
    var e := Backtrack(p, s, i, k).value;
    if MatchAt(p[1..], s, i + k).Some? {
      MatchSound(p[1..], s, i + k);
      assert Spans(p[1..], s, i + k, e);
    } else {
      BacktrackSound(p, s, i, k - 1);
    }
  }

  /** If `p` matches some prefix of `s[i..]`, the engine finds a match at `i`:
      giving up at a position is a correct "no match here". */
  lemma {:induction false} MatchComplete(p: Pattern, s: string, i: nat, e: nat)
    requires i <= |s| && Spans(p, s, i, e)
    ensures MatchAt(p, s, i).Some?
    decreases |p|, 1, 0
  {
    if p != [] {
      match p[0]
      case Lit(c) => MatchComplete(p[1..], s, i + 1, e);
      case Repeat(cls, lo, hi) =>
        var m :| i + lo <= m <= e && WithinBound(m - i, hi) && AllIn(cls, s, i, m) && Spans(p[1..], s, m, e);
        RunIsLongest(cls, s, i, m, hi);
        BacktrackComplete(p, s, i, Run(cls, s, i, hi), m, e);
    }
  }

  lemma {:induction false} BacktrackComplete(p: Pattern, s: string, i: nat, k: nat, m: nat, e: nat)
    requires p != [] && p[0].Repeat? && i + k <= |s|
    requires i + p[0].lo <= m <= i + k && Spans(p[1..], s, m, e)
    ensures Backtrack(p, s, i, k).Some?
    decreases |p|, 0, k
  {
    if MatchAt(p[1..], s, i + k).None? {
      if m == i + k {
        MatchComplete(p[1..], s, m, e);
      } else {
        BacktrackComplete(p, s, i, k - 1, m, e);
      }
    }
  }

  /** In a delimited pattern the greedy, backtracking engine finds the longest
      match at a position. */
  lemma {:induction false} MatchLongest(p: Pattern, s: string, i: nat, e: nat)
    requires i <= |s| && Delimited(p) && Spans(p, s, i, e)
    ensures MatchAt(p, s, i).Some? && e <= MatchAt(p, s, i).value
    decreases |p|
  {
    if p != [] {
      match p[0]
      case Lit(c) => MatchLongest(p[1..], s, i + 1, e);
      case Repeat(cls, lo, hi) =>
        var m :| i + lo <= m <= e && WithinBound(m - i, hi) && AllIn(cls, s, i, m) && Spans(p[1..], s, m, e);
        var k := Run(cls, s, i, hi);
        RunIsLongest(cls, s, i, m, hi);
        if |p| == 1 {
          assert MatchAt(p[1..], s, i + k) == Some(i + k);
        } else {
          assert s[m] == p[1].c && !InClass(cls, s[m]);
          assert m == i + k;
          MatchLongest(p[1..], s, m, e);
        }
    }
  }

  /** `re.sub` emits only characters of its subject and of its replacement. */
  lemma {:induction false} SubChars(p: Pattern, repl: string, s: string)
    requires MinLen(p) > 0
    ensures forall j :: 0 <= j < |Sub(p, repl, s)| ==> Sub(p, repl, s)[j] in s || Sub(p, repl, s)[j] in repl
    decreases |s|
  {
    if s != [] {
      var r := Sub(p, repl, s);
      match MatchAt(p, s, 0)
      case Some(e) =>
        SubChars(p, repl, s[e..]);
        forall j | 0 <= j < |r| ensures r[j] in s || r[j] in repl {
          if j >= |repl| {
            assert r[j] == Sub(p, repl, s[e..])[j - |repl|];
          }
        }
      case None =>
        SubChars(p, repl, s[1..]);
        forall j | 0 <= j < |r| ensures r[j] in s || r[j] in repl {
          if j >= 1 {
            assert r[j] == Sub(p, repl, s[1..])[j - 1];
          }
        }
    }
  }

  /** A replacement no longer than the shortest match never lengthens the text. */
  lemma {:induction false} SubShrinks(p: Pattern, repl: string, s: string)
    requires MinLen(p) > 0 && |repl| <= MinLen(p)
    ensures |Sub(p, repl, s)| <= |s|
    decreases |s|
  {
    if s != [] {
      match MatchAt(p, s, 0)
      case Some(e) => SubShrinks(p, repl, s[e..]);
      case None => SubShrinks(p, repl, s[1..]);
    }
  }

  /** A pattern that starts with a mandatory repetition of a class leaves a text
      with no character of that class unchanged. */
  lemma SubNoOp(p: Pattern, repl: string, s: string)
    requires MinLen(p) > 0 && p != [] && p[0].Repeat? && p[0].lo > 0
    requires forall j :: 0 <= j < |s| ==> !InClass(p[0].cls, s[j])
    ensures Sub(p, repl, s) == s
  {
    SubSkip(p, repl, s, []);
    assert s + [] == s;
  }

  /** No item of `p` can consume `c`: it is no literal of `p` and in no repeated class. */
  predicate Inert(p: Pattern, c: char)
    decreases |p|
  {
    if p == [] then true
    else
      (match p[0]
       case Lit(d) => d != c
       case Repeat(cls, _, _) => !InClass(cls, c))
      && Inert(p[1..], c)
  }

  lemma {:induction false} RunLocal(cls: CharClass, u: string, v: string, i: nat, hi: Bound)
    requires i < |u| && !InClass(cls, u[|u| - 1])
    ensures Run(cls, u + v, i, hi) == Run(cls, u, i, hi) && i + Run(cls, u, i, hi) < |u|
    decreases |u| - i
  {
    assert (u + v)[i] == u[i];
    if InClass(cls, u[i]) && hi != AtMost(0) {
      RunLocal(cls, u, v, i + 1, Shrink(hi));
    }
  }

  /** A match starting before an inert character ends before it, and what follows
      that character cannot change the match. */
  lemma {:induction false} MatchLocal(p: Pattern, u: string, v: string, i: nat)
    requires i < |u| && Inert(p, u[|u| - 1])
    ensures MatchAt(p, u + v, i) == MatchAt(p, u, i)
    ensures MatchAt(p, u, i).Some? ==> MatchAt(p, u, i).value < |u|
    decreases |p|, 1, 0
  {
    if p != [] {
      assert (u + v)[i] == u[i];
      match p[0]
      case Lit(c) =>
        if u[i] == c {
          MatchLocal(p[1..], u, v, i + 1);
        }
      case Repeat(cls, lo, hi) =>
        RunLocal(cls, u, v, i, hi);
        BacktrackLocal(p, u, v, i, Run(cls, u, i, hi));
    }
  }

  lemma {:induction false} BacktrackLocal(p: Pattern, u: string, v: string, i: nat, k: nat)
    requires p != [] && p[0].Repeat? && i + k < |u| && Inert(p, u[|u| - 1])
    ensures Backtrack(p, u + v, i, k) == Backtrack(p, u, i, k)
    ensures Backtrack(p, u, i, k).Some? ==> Backtrack(p, u, i, k).value < |u|
    decreases |p|, 0, k
  {
    if k >= p[0].lo {
      MatchLocal(p[1..], u, v, i + k);
      if MatchAt(p[1..], u, i + k).None? && k > 0 {
        BacktrackLocal(p, u, v, i, k - 1);
      }
    }
  }

  /** `re.sub` works independently on the two sides of a character that the
      pattern cannot consume. */
  lemma {:induction false} SubSplit(p: Pattern, repl: string, u: string, v: string)
    requires MinLen(p) > 0 && u != [] && Inert(p, u[|u| - 1])
    ensures Sub(p, repl, u + v) == Sub(p, repl, u) + Sub(p, repl, v)
    decreases |u|
  {
    MatchLocal(p, u, v, 0);
    match MatchAt(p, u, 0)
    case Some(e) =>
      assert u[e..][|u[e..]| - 1] == u[|u| - 1];
      SubSplit(p, repl, u[e..], v);
      SubConsMatched(p, repl, u, v, e);
    case None =>
      if |u| > 1 {
        assert u[1..][|u[1..]| - 1] == u[|u| - 1];
        SubSplit(p, repl, u[1..], v);
      } else {
        assert u[1..] + v == v;
      }
      SubConsUnmatched(p, repl, u, v);
  }

  /** The step `re.sub` takes where a match starts. */
  lemma SubMatchStep(p: Pattern, repl: string, s: string, e: nat)
    requires MinLen(p) > 0 && s != [] && MatchAt(p, s, 0) == Some(e)
    ensures e <= |s| && Sub(p, repl, s) == repl + Sub(p, repl, s[e..])
  {
  }

  /** The step `re.sub` takes where no match starts. */
  lemma SubSkipStep(p: Pattern, repl: string, s: string)
    requires MinLen(p) > 0 && s != [] && MatchAt(p, s, 0).None?
    ensures Sub(p, repl, s) == [s[0]] + Sub(p, repl, s[1..])
  {
  }

  /** A text shorter than any match is left as it is. */
  lemma {:induction false} SubShort(p: Pattern, repl: string, s: string)
    requires MinLen(p) > 0 && |s| < MinLen(p)
    ensures Sub(p, repl, s) == s
    decreases |s|
  {
    if s != [] {
      assert MatchAt(p, s, 0).None?;
      SubSkipStep(p, repl, s);
      SubShort(p, repl, s[1..]);
      assert [s[0]] + s[1..] == s;
    }
  }

  /** Dropping from the front of `u + v` drops from `u`. */
  lemma DropAppend(u: string, v: string, k: nat)
    requires k <= |u|
    ensures (u + v)[k..] == u[k..] + v
    ensures k < |u| ==> (u + v)[k] == u[k]
  {
  }

  /** The bookkeeping of one step: if both scans emit the same `head` first and
      the rests agree up to a common tail, so do the wholes. */
  lemma ConsSplit(head: string, whole: string, rest: string, part: string, partRest: string, tail: string)
    requires whole == head + rest && part == head + partRest && rest == partRest + tail
    ensures whole == part + tail
  {
  }

  /** One step of `re.sub` on `u + v` where the match at the front of `u` is the
      same whether or not `v` follows. */
  lemma SubConsMatched(p: Pattern, repl: string, u: string, v: string, e: nat)
    requires MinLen(p) > 0 && u != [] && e <= |u|
    requires MatchAt(p, u + v, 0) == Some(e) && MatchAt(p, u, 0) == Some(e)
    requires Sub(p, repl, u[e..] + v) == Sub(p, repl, u[e..]) + Sub(p, repl, v)
    ensures Sub(p, repl, u + v) == Sub(p, repl, u) + Sub(p, repl, v)
  {
    var s := u + v;
    DropAppend(u, v, e);
    SubMatchStep(p, repl, s, e);
    SubMatchStep(p, repl, u, e);
    ConsSplit(repl, Sub(p, repl, s), Sub(p, repl, s[e..]), Sub(p, repl, u), Sub(p, repl, u[e..]), Sub(p, repl, v));
  }

  /** One step of `re.sub` on `u + v` where no match starts at the front, with or
      without `v`. */
  lemma SubConsUnmatched(p: Pattern, repl: string, u: string, v: string)
    requires MinLen(p) > 0 && u != []
    requires MatchAt(p, u + v, 0).None? && MatchAt(p, u, 0).None?
    requires Sub(p, repl, u[1..] + v) == Sub(p, repl, u[1..]) + Sub(p, repl, v)
    ensures Sub(p, repl, u + v) == Sub(p, repl, u) + Sub(p, repl, v)
  {
    var s := u + v;
    DropAppend(u, v, 1);
    SubSkipStep(p, repl, s);
    SubSkipStep(p, repl, u);
    ConsSplit([u[0]], Sub(p, repl, s), Sub(p, repl, s[1..]), Sub(p, repl, u), Sub(p, repl, u[1..]), Sub(p, repl, v));
  }

  /** A match found in a text is still one when more text follows. */
  lemma {:induction false} SpansExtend(p: Pattern, u: string, v: string, i: nat, e: nat)
    requires Spans(p, u, i, e)
    ensures Spans(p, u + v, i, e)
    decreases |p|
  {
    if p != [] {
      match p[0]
      case Lit(c) =>
        assert (u + v)[i] == u[i];
        SpansExtend(p[1..], u, v, i + 1, e);
      case Repeat(cls, lo, hi) =>
        var m :| i + lo <= m <= e && WithinBound(m - i, hi) && AllIn(cls, u, i, m) && Spans(p[1..], u, m, e);
        SpansExtend(p[1..], u, v, m, e);
        assert AllIn(cls, u + v, i, m) by {
          forall j | i <= j < m ensures InClass(cls, (u + v)[j]) {
            assert (u + v)[j] == u[j];
          }
        }
    }
  }

  /** Every character of a match is one that some item of the pattern consumes. */
  lemma {:induction false} SpansChars(p: Pattern, s: string, i: nat, e: nat)
    requires Spans(p, s, i, e)
    ensures forall j :: i <= j < e ==> !Inert(p, s[j])
    decreases |p|
  {
    if p != [] {
      match p[0]
      case Lit(c) =>
        SpansChars(p[1..], s, i + 1, e);
      case Repeat(cls, lo, hi) =>
        var m :| i + lo <= m <= e && WithinBound(m - i, hi) && AllIn(cls, s, i, m) && Spans(p[1..], s, m, e);
        SpansChars(p[1..], s, m, e);
    }
  }

  /** A match of a pattern that ends in a mandatory repetition is not empty and ends
      with a character of the repeated class. */
  lemma {:induction false} SpansLast(p: Pattern, s: string, i: nat, e: nat)
    requires Spans(p, s, i, e) && p != [] && p[|p| - 1].Repeat? && p[|p| - 1].lo > 0
    ensures i < e && InClass(p[|p| - 1].cls, s[e - 1])
    decreases |p|
  {
    match p[0]
    case Lit(c) =>
      SpansLast(p[1..], s, i + 1, e);
    case Repeat(cls, lo, hi) =>
      var m :| i + lo <= m <= e && WithinBound(m - i, hi) && AllIn(cls, s, i, m) && Spans(p[1..], s, m, e);
      if |p| > 1 {
        SpansLast(p[1..], s, m, e);
      }
  }

  /** A match contains each literal of its pattern. */
  lemma {:induction false} SpansHasLit(p: Pattern, s: string, i: nat, e: nat, k: nat)
    requires Spans(p, s, i, e) && k < |p| && p[k].Lit?
    ensures exists j :: i <= j < e && s[j] == p[k].c
    decreases |p|
  {
    match p[0]
    case Lit(c) =>
      if k > 0 {
        SpansHasLit(p[1..], s, i + 1, e, k - 1);
      }
    case Repeat(cls, lo, hi) =>
      var m :| i + lo <= m <= e && WithinBound(m - i, hi) && AllIn(cls, s, i, m) && Spans(p[1..], s, m, e);
      SpansHasLit(p[1..], s, m, e, k - 1);
  }

  /** Text with no character of a pattern's mandatory leading class is copied
      through unchanged, whatever follows it. */
  lemma {:induction false} SubSkip(p: Pattern, repl: string, u: string, v: string)
    requires MinLen(p) > 0 && p != [] && p[0].Repeat? && p[0].lo > 0
    requires forall j :: 0 <= j < |u| ==> !InClass(p[0].cls, u[j])
    ensures Sub(p, repl, u + v) == u + Sub(p, repl, v)
    decreases |u|
  {
    if u == [] {
      SubNil(p, repl, u, v);
    } else {
      var s := u + v;
      DropAppend(u, v, 1);
      SkipNoMatch(p, s);
      SubSkipStep(p, repl, s);
      SubSkip(p, repl, u[1..], v);
      FirstRest(u);
      ConsSplit([u[0]], Sub(p, repl, s), Sub(p, repl, s[1..]), u, u[1..], Sub(p, repl, v));
    }
  }

  /** A text that starts outside the leading class of a pattern has no match at its front. */
  lemma SkipNoMatch(p: Pattern, s: string)
    requires p != [] && p[0].Repeat? && p[0].lo > 0 && s != [] && !InClass(p[0].cls, s[0])
    ensures MatchAt(p, s, 0).None?
  {
    assert Run(p[0].cls, s, 0, p[0].hi) == 0;
  }

  /** A non-empty text is its first character followed by the rest. */
  lemma FirstRest(u: string)
    requires u != []
    ensures u == [u[0]] + u[1..]
  {
  }

  /** A non-empty text is everything before its last character, then that character. */
  lemma LastRest(u: string)
    requires u != []
    ensures u == u[..|u| - 1] + [u[|u| - 1]]
  {
  }

  /** Dropping one character and then `i` more drops `i + 1`. */
  lemma DropDrop(s: string, i: nat)
    requires i < |s|
    ensures s[1..][i..] == s[i + 1..]
  {
  }

  /** Text at whose positions the engine finds no match is copied through
      unchanged, whatever follows it. */
  lemma {:induction false} SubKeep(p: Pattern, repl: string, u: string, v: string)
    requires MinLen(p) > 0
    requires forall i :: 0 <= i < |u| ==> MatchAt(p, (u + v)[i..], 0).None?
    ensures Sub(p, repl, u + v) == u + Sub(p, repl, v)
    decreases |u|
  {
    if u == [] {
      SubNil(p, repl, u, v);
    } else {
      var s := u + v;
      DropAppend(u, v, 1);
      assert s[0..] == s;
      forall i | 0 <= i < |u[1..]| ensures MatchAt(p, (u[1..] + v)[i..], 0).None? {
        DropDrop(s, i);
      }
      SubSkipStep(p, repl, s);
      SubKeep(p, repl, u[1..], v);
      FirstRest(u);
      ConsSplit([u[0]], Sub(p, repl, s), Sub(p, repl, s[1..]), u, u[1..], Sub(p, repl, v));
    }
  }

  lemma {:induction false} RunFront(cls: CharClass, u: string, v: string, i: nat, hi: Bound)
    requires i <= |u| && v != [] && !InClass(cls, v[0])
    ensures Run(cls, u + v, i, hi) == Run(cls, u, i, hi)
    decreases |u| - i
  {
    if i == |u| {
      assert (u + v)[i] == v[0];
    } else {
      assert (u + v)[i] == u[i];
      if InClass(cls, u[i]) && hi != AtMost(0) {
        RunFront(cls, u, v, i + 1, Shrink(hi));
      }
    }
  }

  /** A character the pattern cannot consume acts like the end of the text: a match
      starting before it is the match the engine finds when the text stops there. */
  lemma {:induction false} MatchFront(p: Pattern, u: string, v: string, i: nat)
    requires i <= |u| && v != [] && Inert(p, v[0])
    ensures MatchAt(p, u + v, i) == MatchAt(p, u, i)
    decreases |p|, 1, 0
  {
    if p != [] {
      match p[0]
      case Lit(c) =>
        if i == |u| {
          assert (u + v)[i] == v[0];
        } else {
          assert (u + v)[i] == u[i];
          MatchFront(p[1..], u, v, i + 1);
        }
      case Repeat(cls, lo, hi) =>
        RunFront(cls, u, v, i, hi);
        BacktrackFront(p, u, v, i, Run(cls, u, i, hi));
    }
  }

  lemma {:induction false} BacktrackFront(p: Pattern, u: string, v: string, i: nat, k: nat)
    requires p != [] && p[0].Repeat? && i + k <= |u| && v != [] && Inert(p, v[0])
    ensures Backtrack(p, u + v, i, k) == Backtrack(p, u, i, k)
    decreases |p|, 0, k
  {
    if k >= p[0].lo {
      MatchFront(p[1..], u, v, i + k);
      if MatchAt(p[1..], u, i + k).None? && k > 0 {
        BacktrackFront(p, u, v, i, k - 1);
      }
    }
  }

  /** `re.sub` works independently on the two sides of a point followed by a
      character that the pattern cannot consume. */
  lemma {:induction false} SubFront(p: Pattern, repl: string, u: string, v: string)
    requires MinLen(p) > 0 && v != [] && Inert(p, v[0])
    ensures Sub(p, repl, u + v) == Sub(p, repl, u) + Sub(p, repl, v)
    decreases |u|, 1
  {
    if u == [] {
      SubNil(p, repl, u, v);
    } else {
      SubFrontStep(p, repl, u, v);
    }
  }

  /** Nothing in front: the split is trivial. */
  lemma SubNil(p: Pattern, repl: string, u: string, v: string)
    requires MinLen(p) > 0 && u == []
    ensures Sub(p, repl, u + v) == Sub(p, repl, u) + Sub(p, repl, v)
  {
    assert u + v == v;
    assert Sub(p, repl, u) == [];
  }

  /** The inductive step of `SubFront`: the scan's first step on `u + v` is its
      first step on `u`, and the rest follows by induction. */
  lemma {:induction false} SubFrontStep(p: Pattern, repl: string, u: string, v: string)
    requires MinLen(p) > 0 && u != [] && v != [] && Inert(p, v[0])
    ensures Sub(p, repl, u + v) == Sub(p, repl, u) + Sub(p, repl, v)
    decreases |u|, 0
  {
    MatchFront(p, u, v, 0);
    match MatchAt(p, u, 0)
    case Some(e) =>
      SubFront(p, repl, u[e..], v);
      SubConsMatched(p, repl, u, v, e);
    case None =>
      SubFront(p, repl, u[1..], v);
      SubConsUnmatched(p, repl, u, v);
  }
}

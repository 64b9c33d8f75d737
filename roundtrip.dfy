/**
 * What `parse_mri_data` recovers from the text of a well-read display frame: the
 * four lines "ACTUAL CURRENT c A", "MPS VOLTS v1 V", "MAG VOLTS v2 V" and
 * "Elapsed Time hh:mm:ss" give back exactly the readings `c`, `v1`, `v2` and the
 * clock, through the searches of the combined text.
 */
module RoundTrip {
  import opened Optional
  import opened Text
  import opened Ocr

  /** The text of a frame showing current `c`, voltages `v1` and `v2`, and elapsed time `k`. */
  function Display(c: string, v1: string, v2: string, k: string): string {
    "ACTUAL CURRENT " + c + " A\nMPS VOLTS " + v1 + " V\nMAG VOLTS " + v2 + " V\nElapsed Time " + k
  }

  /** A display line for a number pattern: both keywords, the reading, then the unit. */
  function NumberLine(pat: NumberPattern, tok: string): string {
    pat.first + " " + pat.second + " " + (tok + " " + [pat.unit])
  }

  /** The display line of the elapsed time. */
  function TimeLine(k: string): string {
    "Elapsed" + " " + "Time" + " " + k
  }

  /** Readings the display can show: an unsigned current, optionally signed voltages, a clock. */
  predicate Readings(c: string, v1: string, v2: string, k: string) {
    IsUnsignedToken(c) && IsNumericToken(v1) && IsNumericToken(v2) && IsClock(k)
  }

  /** `w` occurs in `t` at position `x`. */
  predicate At(t: string, x: nat, w: string) {
    x + |w| <= |t| && forall i :: 0 <= i < |w| ==> t[x + i] == w[i]
  }

  // ---------------------------------------------------------------------------
  // From the frame text to the combined text
  // ---------------------------------------------------------------------------

  lemma DisplayLayout(c: string, v1: string, v2: string, k: string)
    ensures Display(c, v1, v2, k) ==
      ("ACTUAL CURRENT " + c + " A") + "\n" + ("MPS VOLTS " + v1 + " V") + "\n"
        + ("MAG VOLTS " + v2 + " V") + "\n" + ("Elapsed Time " + k)
  {
    assert " A\nMPS VOLTS " == " A" + "\n" + "MPS VOLTS ";
    assert " V\nMAG VOLTS " == " V" + "\n" + "MAG VOLTS ";
    assert " V\nElapsed Time " == " V" + "\n" + "Elapsed Time ";
    Assemble("ACTUAL CURRENT ", c, " A", "\n", "MPS VOLTS ", v1, " V", "MAG VOLTS ", v2, "Elapsed Time ", k);
  }

  lemma Assemble(p1: string, c: string, a1: string, n: string, p2: string, v1: string, a2: string,
                 p3: string, v2: string, p4: string, k: string)
    ensures p1 + c + (a1 + n + p2) + v1 + (a2 + n + p3) + v2 + (a2 + n + p4) + k
      == (p1 + c + a1) + n + (p2 + v1 + a2) + n + (p3 + v2 + a2) + n + (p4 + k)
  {
  }

  lemma Nest(a: string, b: string, c: string, d: string, sep: string)
    ensures a + sep + b + sep + c + sep + d == a + sep + (b + sep + (c + sep + d))
  {
  }

  /** The four display lines, each in the keyword form the searches see. */
  lemma LineLayouts(c: string, v1: string, v2: string, k: string)
    ensures "ACTUAL CURRENT " + c + " A" == NumberLine(CurrentPattern, c)
    ensures "MPS VOLTS " + v1 + " V" == NumberLine(MpsPattern, v1)
    ensures "MAG VOLTS " + v2 + " V" == NumberLine(MagPattern, v2)
    ensures "Elapsed Time " + k == TimeLine(k)
  {
    assert "ACTUAL CURRENT " == "ACTUAL" + " " + "CURRENT" + " ";
    assert "MPS VOLTS " == "MPS" + " " + "VOLTS" + " ";
    assert "MAG VOLTS " == "MAG" + " " + "VOLTS" + " ";
    assert "Elapsed Time " == "Elapsed" + " " + "Time" + " ";
    assert " A" == " " + ['A'] && " V" == " " + ['V'];
  }

  /** A pattern with two non-empty keywords, the second starting with a letter, and a letter unit. */
  predicate Shaped(pat: NumberPattern) {
    && |pat.first| > 0 && |pat.second| > 0
    && 'A' <= pat.second[0] <= 'Z' && 'A' <= pat.unit <= 'Z'
  }

  /** Readings `tok` a pattern accepts: signed only where the pattern allows a sign. */
  predicate Fits(pat: NumberPattern, tok: string) {
    if pat.signed then IsNumericToken(tok) else IsUnsignedToken(tok)
  }

  /** A kept line at the head of the pieces stays, as it is, at the head of the result. */
  lemma KeepFirst(line: string, rest: seq<string>)
    requires Kept(line)
    ensures NonBlank([line] + rest) == [line] + NonBlank(rest)
  {
    var pieces := [line] + rest;
    StripKeeps(line);
    assert pieces[0] == line && pieces[1..] == rest;
  }

  /** The three number patterns have the shape the lemmas below rely on. */
  lemma PatternsShaped()
    ensures Shaped(CurrentPattern) && Words(CurrentPattern)
    ensures Shaped(MpsPattern) && Words(MpsPattern)
    ensures Shaped(MagPattern) && Words(MagPattern)
  {
  }

  /** Keywords made of upper-case letters only. */
  predicate Words(pat: NumberPattern) {
    && (forall i :: 0 <= i < |pat.first| ==> 'A' <= pat.first[i] <= 'Z')
    && (forall i :: 0 <= i < |pat.second| ==> 'A' <= pat.second[i] <= 'Z')
  }

  /** A line that `Lines` keeps as it is: one line, not blank, no surrounding whitespace. */
  predicate Kept(line: string)
  {
    '\n' !in line && line != [] && !IsSpace(line[0]) && !IsSpace(line[|line| - 1])
  }

  lemma NumberLineKept(pat: NumberPattern, tok: string)
    requires Shaped(pat) && Words(pat) && Fits(pat, tok)
    ensures Kept(NumberLine(pat, tok))
  {
    var line := NumberLine(pat, tok);
    assert '\n' !in pat.first && '\n' !in pat.second;
    TokenChars(pat, tok);
    assert line[0] == pat.first[0];
  }

  /** Every character of an accepted reading is a digit or a dot, except a leading sign. */
  lemma TokenChars(pat: NumberPattern, tok: string)
    requires Fits(pat, tok)
    ensures |tok| > 0
    ensures forall i :: 0 < i < |tok| ==> IsNumChar(tok[i])
    ensures IsNumChar(tok[0]) || (pat.signed && (tok[0] == '+' || tok[0] == '-') && |tok| >= 2)
  {
    if pat.signed {
      SignedTokenChars(tok);
    }
  }

  lemma SignedTokenChars(tok: string)
    requires IsNumericToken(tok)
    ensures |tok| > 0
    ensures forall i :: 0 < i < |tok| ==> IsNumChar(tok[i])
    ensures IsNumChar(tok[0]) || ((tok[0] == '+' || tok[0] == '-') && |tok| >= 2)
  {
    if tok[0] == '+' || tok[0] == '-' {
      var body := tok[1..];
      assert forall j :: 0 <= j < |body| ==> IsNumChar(body[j]);
      assert forall i :: 0 < i < |tok| ==> tok[i] == body[i - 1];
    }
  }

  lemma TimeLineKept(k: string)
    requires IsClock(k)
    ensures Kept(TimeLine(k))
  {
    var line := TimeLine(k);
    assert '\n' !in k by {
      if '\n' in k {
        var i :| 0 <= i < |k| && k[i] == '\n';
      }
    }
    assert line[|line| - 1] == k[7];
  }

  /** Splitting the frame text at newlines and stripping gives back its four lines. */
  lemma DisplayLines(c: string, v1: string, v2: string, k: string)
    requires Readings(c, v1, v2, k)
    ensures Lines(Display(c, v1, v2, k)) ==
      [NumberLine(CurrentPattern, c), NumberLine(MpsPattern, v1), NumberLine(MagPattern, v2), TimeLine(k)]
  {
    DisplayLayout(c, v1, v2, k);
    LineLayouts(c, v1, v2, k);
    PatternsShaped();
    NumberLineKept(CurrentPattern, c);
    NumberLineKept(MpsPattern, v1);
    NumberLineKept(MagPattern, v2);
    TimeLineKept(k);
    FourLines(NumberLine(CurrentPattern, c), NumberLine(MpsPattern, v1), NumberLine(MagPattern, v2), TimeLine(k));
  }

  lemma FourLines(l1: string, l2: string, l3: string, l4: string)
    requires Kept(l1) && Kept(l2) && Kept(l3) && Kept(l4)
    ensures Lines(l1 + "\n" + l2 + "\n" + l3 + "\n" + l4) == [l1, l2, l3, l4]
  {
    var text := l1 + "\n" + l2 + "\n" + l3 + "\n" + l4;
    Nest(l1, l2, l3, l4, "\n");
    assert "\n" == ['\n'];
    SplitFour(l1, l2, l3, l4, '\n');
    assert Split(text, '\n') == [l1, l2, l3, l4];
    var pieces := [l1, l2, l3, l4];
    assert forall i :: 0 <= i < |pieces| ==> Kept(pieces[i]);
    NonBlankKeeps(pieces);
  }

  /** Pieces that are all kept lines come out of `NonBlank` unchanged. */
  lemma {:induction false} NonBlankKeeps(pieces: seq<string>)
    requires forall i :: 0 <= i < |pieces| ==> Kept(pieces[i])
    ensures NonBlank(pieces) == pieces
  {
    if pieces != [] {
      NonBlankKeeps(pieces[1..]);
      KeepFirst(pieces[0], pieces[1..]);
      assert [pieces[0]] + pieces[1..] == pieces;
    }
  }

  lemma SplitFour(l1: string, l2: string, l3: string, l4: string, sep: char)
    requires sep !in l1 && sep !in l2 && sep !in l3 && sep !in l4
    ensures Split(l1 + [sep] + (l2 + [sep] + (l3 + [sep] + l4)), sep) == [l1, l2, l3, l4]
  {
    SplitNoSeparator(l4, sep);
    SplitAtSeparator(l3, l4, sep);
    SplitAtSeparator(l2, l3 + [sep] + l4, sep);
    SplitAtSeparator(l1, l2 + [sep] + (l3 + [sep] + l4), sep);
  }

  /** Joining the four lines with spaces gives the combined text the searches run on. */
  lemma JoinFour(l1: string, l2: string, l3: string, l4: string)
    ensures Join([l1, l2, l3, l4], ' ') == l1 + [' '] + (l2 + [' '] + (l3 + [' '] + l4))
  {
    assert [l1, l2, l3, l4][1..] == [l2, l3, l4];
    assert [l2, l3, l4][1..] == [l3, l4];
    assert [l3, l4][1..] == [l4];
    assert Join([l3, l4], ' ') == l3 + [' '] + l4;
    assert Join([l2, l3, l4], ' ') == l2 + [' '] + (l3 + [' '] + l4);
  }

  // ---------------------------------------------------------------------------
  // The searches on the combined text
  // ---------------------------------------------------------------------------

  lemma AtSplit(t: string, x: nat, a: string, b: string)
    requires At(t, x, a + b)
    ensures At(t, x, a) && At(t, x + |a|, b)
  {
    assert forall i :: 0 <= i < |a| ==> (a + b)[i] == a[i];
    assert forall i :: 0 <= i < |b| ==> (a + b)[|a| + i] == b[i];
  }

  lemma AtJoin(a: string, b: string)
    ensures At(a + [' '] + b, 0, a) && At(a + [' '] + b, |a| + 1, b)
    ensures (a + [' '] + b)[|a|] == ' '
  {
  }

  lemma AtShift(t: string, a: string, x: nat, w: string)
    requires At(t, x, w)
    ensures At(a + t, |a| + x, w)
  {
  }

  /** A run of `[\d.]` of length exactly `n`, then a character outside the class. */
  lemma NumRunExact(t: string, p: nat, n: nat)
    requires p + n < |t| && !IsNumChar(t[p + n])
    requires forall i :: p <= i < p + n ==> IsNumChar(t[i])
    ensures NumRun(t, p) == n
  {
  }

  /** One space and then a non-space character. */
  lemma SpaceOne(t: string, p: nat)
    requires p + 1 < |t| && IsSpace(t[p]) && !IsSpace(t[p + 1])
    ensures SpaceRun(t, p) == 1
  {
    assert SpaceRun(t, p + 1) == 0;
  }

  /** A reading, a space and the unit letter at `p`: the token pattern matches there, with the reading. */
  lemma TokenAtReading(t: string, p: nat, pat: NumberPattern, tok: string)
    requires Shaped(pat) && Fits(pat, tok)
    requires At(t, p, tok + " " + [pat.unit])
    ensures TokenAt(t, p, pat.signed, pat.unit) == Some(tok)
  {
    var u := p + |tok|;
    AtSplit(t, p, tok + " ", [pat.unit]);
    AtSplit(t, p, tok, " ");
    assert t[u] == " "[0] && t[u + 1] == [pat.unit][0];
    TokenBefore(t, p, pat, tok);
  }

  lemma TokenBefore(t: string, p: nat, pat: NumberPattern, tok: string)
    requires Shaped(pat) && Fits(pat, tok)
    requires At(t, p, tok) && p + |tok| + 1 < |t|
    requires t[p + |tok|] == ' ' && t[p + |tok| + 1] == pat.unit
    ensures TokenAt(t, p, pat.signed, pat.unit) == Some(tok)
  {
    TokenChars(pat, tok);
    ReadingRun(t, p, tok, pat.signed, pat.unit);
    TokenHere(t, p, tok, pat.signed, pat.unit);
  }

  /** A reading of length `n` whose run and unit the pattern sees: the token matches with it. */
  lemma TokenHere(t: string, p: nat, tok: string, signed: bool, unit: char)
    requires p + |tok| <= |t| && t[p..p + |tok|] == tok && UnitAt(t, p + |tok|, unit)
    requires signed && p < |t| && (t[p] == '+' || t[p] == '-') ==> |tok| >= 2 && NumRun(t, p + 1) == |tok| - 1
    requires !(signed && p < |t| && (t[p] == '+' || t[p] == '-')) ==> |tok| >= 1 && NumRun(t, p) == |tok|
    ensures TokenAt(t, p, signed, unit) == Some(tok)
  {
    if signed && p < |t| && (t[p] == '+' || t[p] == '-') {
      SignedTokenHere(t, p, |tok| - 1, unit);
    } else {
      BareTokenHere(t, p, |tok|, signed, unit);
    }
  }

  /** The facts the token pattern checks, read off a reading laid out at `p`. */
  lemma ReadingRun(t: string, p: nat, tok: string, signed: bool, unit: char)
    requires |tok| > 0 && forall i :: 0 < i < |tok| ==> IsNumChar(tok[i])
    requires IsNumChar(tok[0]) || (signed && (tok[0] == '+' || tok[0] == '-') && |tok| >= 2)
    requires 'A' <= unit <= 'Z'
    requires At(t, p, tok) && p + |tok| + 1 < |t|
    requires t[p + |tok|] == ' ' && t[p + |tok| + 1] == unit
    ensures UnitAt(t, p + |tok|, unit) && t[p..p + |tok|] == tok
    ensures signed && p < |t| && (t[p] == '+' || t[p] == '-') ==> |tok| >= 2 && NumRun(t, p + 1) == |tok| - 1
    ensures !(signed && p < |t| && (t[p] == '+' || t[p] == '-')) ==> |tok| >= 1 && NumRun(t, p) == |tok|
  {
    var u := p + |tok|;
    SpaceOne(t, u);
    assert t[p..u] == tok;
    assert t[p] == tok[0];
    if signed && (t[p] == '+' || t[p] == '-') {
      NumRunExact(t, p + 1, |tok| - 1);
    } else {
      NumRunExact(t, p, |tok|);
    }
  }

  lemma SignedTokenHere(t: string, p: nat, n: nat, unit: char)
    requires p + 1 + n <= |t| && (t[p] == '+' || t[p] == '-') && n >= 1
    requires NumRun(t, p + 1) == n && UnitAt(t, p + 1 + n, unit)
    ensures TokenAt(t, p, true, unit) == Some(t[p..p + 1 + n])
  {
    SignedBranch(t, p, unit);
    RunThenUnitHere(t, p, p + 1, n, unit);
  }

  lemma BareTokenHere(t: string, p: nat, n: nat, signed: bool, unit: char)
    requires p + n <= |t| && n >= 1 && !(signed && (t[p] == '+' || t[p] == '-'))
    requires NumRun(t, p) == n && UnitAt(t, p + n, unit)
    ensures TokenAt(t, p, signed, unit) == Some(t[p..p + n])
  {
    BareBranch(t, p, signed, unit);
    RunThenUnitHere(t, p, p, n, unit);
  }

  /** With a sign at `p` and a signed pattern, the token is the run after the sign. */
  lemma SignedBranch(t: string, p: nat, unit: char)
    requires p < |t| && (t[p] == '+' || t[p] == '-')
    ensures TokenAt(t, p, true, unit) == RunThenUnit(t, p, p + 1, unit)
  {
  }

  /** Without a sign the pattern may take, the token is the run at `p` itself. */
  lemma BareBranch(t: string, p: nat, signed: bool, unit: char)
    requires p <= |t| && !(signed && p < |t| && (t[p] == '+' || t[p] == '-'))
    ensures TokenAt(t, p, signed, unit) == RunThenUnit(t, p, p, unit)
  {
  }

  /** A run of exactly `n` characters at `start`, then the unit: the match ends after the run. */
  lemma RunThenUnitHere(t: string, p: nat, start: nat, n: nat, unit: char)
    requires p <= start && start + n <= |t| && n >= 1
    requires NumRun(t, start) == n && UnitAt(t, start + n, unit)
    ensures RunThenUnit(t, p, start, unit) == Some(t[p..start + n])
  {
  }

  /** `FIRST SECOND ` at `x`: the keyword part of the pattern matches there, up to the space. */
  lemma KeywordAt(t: string, x: nat, first: string, second: string)
    requires |first| > 0 && |second| > 0 && 'A' <= second[0] <= 'Z'
    requires At(t, x, first + " " + second + " ")
    ensures KeywordEnd(t, x, first, second) == Some(x + |first| + 1 + |second|)
  {
    var q := x + |first|;
    AtSplit(t, x, first + " " + second, " ");
    AtSplit(t, x, first + " ", second);
    AtSplit(t, x, first, " ");
    assert CiMatchAt(t, x, first);
    assert t[q] == " "[0] && t[q + 1] == second[0];
    SpaceOne(t, q);
    assert CiMatchAt(t, q + 1, second);
  }

  /** A number line at `x`: the number pattern matches at `x`, and captures the line's reading. */
  lemma LineNumberAt(t: string, x: nat, pat: NumberPattern, tok: string)
    requires Shaped(pat) && Fits(pat, tok)
    requires At(t, x, NumberLine(pat, tok))
    ensures NumberAt(t, x, pat) == Some(tok)
  {
    var key := pat.first + " " + pat.second + " ";
    AtSplit(t, x, key, tok + " " + [pat.unit]);
    KeywordAt(t, x, pat.first, pat.second);
    assert t[x + |key| - 1] == key[|key| - 1];
    TokenAfterGap(t, x + |key| - 1, pat, tok);
  }

  /** A space, then a reading and its unit: the lazy gap skips the space and the token is the reading. */
  lemma TokenAfterGap(t: string, e: nat, pat: NumberPattern, tok: string)
    requires Shaped(pat) && Fits(pat, tok)
    requires e < |t| && t[e] == ' ' && At(t, e + 1, tok + " " + [pat.unit])
    ensures FindToken(t, e, pat.signed, pat.unit) == Some(tok)
  {
    TokenAtReading(t, e + 1, pat, tok);
    var here := TokenMatches(t, pat.signed, pat.unit);
    assert here(e) == None;
    FirstMatchSkip(here, e, e + 1, |t|);
    assert here(e + 1) == Some(tok);
  }

  /** The time line at `x`: the elapsed-time pattern matches at `x`, and captures the line's clock. */
  lemma LineClockAt(t: string, x: nat, k: string)
    requires IsClock(k)
    requires At(t, x, TimeLine(k))
    ensures ClockAfter(t, x) == Some(k)
  {
    var key := "Elapsed" + " " + "Time" + " ";
    var p := x + |key|;
    AtSplit(t, x, key, k);
    KeywordAt(t, x, "Elapsed", "Time");
    var e := p - 1;
    assert t[e] == key[|key| - 1];
    assert t[p..p + 8] == k;
    var here := ClockMatches(t);
    assert !ClockAt(t, e) by {
      if e + 8 <= |t| {
        assert t[e..e + 8][0] == t[e];
      }
    }
    FirstMatchSkip(here, e, p, |t|);
    assert here(p) == Some(k);
  }

  /** No character of `t` from `a` to `b` reads as the letter `ch`, in either case. */
  predicate Avoids(t: string, a: nat, b: nat, ch: char)
    requires a <= b <= |t|
  {
    forall q :: a <= q < b ==> Upper(t[q]) != ch
  }

  lemma AvoidsAt(t: string, x: nat, w: string, ch: char, from: nat, to: nat)
    requires At(t, x, w) && from <= to <= |w|
    requires forall j :: from <= j < to ==> Upper(w[j]) != ch
    ensures Avoids(t, x + from, x + to, ch)
  {
    forall q | x + from <= q < x + to ensures Upper(t[q]) != ch {
      assert t[q] == w[q - x];
    }
  }

  /** Where the first letter of `w` is missing, `w` does not start. */
  lemma AvoidsNoMatch(t: string, a: nat, b: nat, w: string)
    requires a <= b <= |t| && |w| > 0 && Avoids(t, a, b, Upper(w[0]))
    ensures forall q :: a <= q < b ==> !CiMatchAt(t, q, w)
  {
    forall q | a <= q < b ensures !CiMatchAt(t, q, w) {
      assert Upper(t[q + 0]) != Upper(w[0]);
    }
  }

  /** Starts where the first keyword does not match can be skipped by the number search. */
  lemma SkipNumber(t: string, a: nat, b: nat, pat: NumberPattern)
    requires a <= b <= |t|
    requires forall q :: a <= q < b ==> !CiMatchAt(t, q, pat.first)
    ensures SearchNumber(t, a, pat) == SearchNumber(t, b, pat)
  {
    var here := NumberMatches(t, pat);
    assert forall q :: a <= q < b ==> here(q) == NumberAt(t, q, pat);
    FirstMatchSkip(here, a, b, |t|);
  }

  /** Starts where "Elapsed" does not match can be skipped by the elapsed-time search. */
  lemma SkipClock(t: string, a: nat, b: nat)
    requires a <= b <= |t|
    requires forall q :: a <= q < b ==> !CiMatchAt(t, q, "Elapsed")
    ensures SearchClock(t, a) == SearchClock(t, b)
  {
    var here := TimeMatches(t);
    assert forall q :: a <= q < b ==> here(q) == ClockAfter(t, q);
    FirstMatchSkip(here, a, b, |t|);
  }

  /** No keyword start before `x` and a number line at `x`: the number search finds its reading. */
  lemma NumberAfterSkip(t: string, x: nat, pat: NumberPattern, tok: string)
    requires x <= |t| && forall q :: 0 <= q < x ==> !CiMatchAt(t, q, pat.first)
    requires Shaped(pat) && Fits(pat, tok) && At(t, x, NumberLine(pat, tok))
    ensures SearchNumber(t, 0, pat) == Some(tok)
  {
    SkipNumber(t, 0, x, pat);
    SearchReachesLine(t, x, pat, tok);
  }

  /** A number search that reaches a number line finds that line's reading. */
  lemma SearchReachesLine(t: string, x: nat, pat: NumberPattern, tok: string)
    requires Shaped(pat) && Fits(pat, tok)
    requires At(t, x, NumberLine(pat, tok))
    ensures SearchNumber(t, x, pat) == Some(tok)
  {
    LineNumberAt(t, x, pat, tok);
    assert NumberMatches(t, pat)(x) == Some(tok);
  }

  /** No "Elapsed" before `x` and the time line at `x`: the elapsed-time search finds its clock. */
  lemma ClockAfterSkip(t: string, x: nat, k: string)
    requires x <= |t| && forall q :: 0 <= q < x ==> !CiMatchAt(t, q, "Elapsed")
    requires IsClock(k) && At(t, x, TimeLine(k))
    ensures SearchClock(t, 0) == Some(k)
  {
    SkipClock(t, 0, x);
    SearchReachesClock(t, x, k);
  }

  lemma SearchReachesClock(t: string, x: nat, k: string)
    requires IsClock(k) && At(t, x, TimeLine(k))
    ensures SearchClock(t, x) == Some(k)
  {
    LineClockAt(t, x, k);
    assert TimeMatches(t)(x) == Some(k);
  }

  /** Where the letters M and E occur on the current line: only the E of "CURRENT", at 11. */
  lemma CurrentLetters(c: string)
    requires IsUnsignedToken(c)
    ensures var l := NumberLine(CurrentPattern, c);
      && |l| > 12 && l[12] == 'N'
      && (forall j :: 0 <= j < |l| ==> Upper(l[j]) != 'M')
      && (forall j :: 0 <= j < |l| && j != 11 ==> Upper(l[j]) != 'E')
  {
    TokenChars(CurrentPattern, c);
  }

  /** On the MPS line M occurs only at the start, followed by P. */
  lemma MpsLetters(v: string)
    requires IsNumericToken(v)
    ensures var l := NumberLine(MpsPattern, v);
      && |l| > 1 && l[1] == 'P'
      && (forall j :: 1 <= j < |l| ==> Upper(l[j]) != 'M')
  {
    TokenChars(MpsPattern, v);
  }

  /** The MPS line has no E. */
  lemma MpsNoE(v: string)
    requires IsNumericToken(v)
    ensures var l := NumberLine(MpsPattern, v);
      forall j :: 0 <= j < |l| ==> Upper(l[j]) != 'E'
  {
    TokenChars(MpsPattern, v);
  }

  /** The MAG line has no E. */
  lemma MagLetters(v: string)
    requires IsNumericToken(v)
    ensures var l := NumberLine(MagPattern, v);
      forall j :: 0 <= j < |l| ==> Upper(l[j]) != 'E'
  {
    TokenChars(MagPattern, v);
  }

  /** The combined text of four lines: `" ".join` of them. */
  function Combined(l1: string, l2: string, l3: string, l4: string): string {
    l1 + [' '] + (l2 + [' '] + (l3 + [' '] + l4))
  }

  /** `t` holds the four lines, one space apart, from position 0. */
  predicate Laid(t: string, l1: string, l2: string, l3: string, l4: string) {
    && At(t, 0, l1) && At(t, |l1| + 1, l2) && At(t, |l1| + |l2| + 2, l3)
    && At(t, |l1| + |l2| + |l3| + 3, l4)
    && t[|l1|] == ' ' && t[|l1| + |l2| + 1] == ' ' && t[|l1| + |l2| + |l3| + 2] == ' '
  }

  lemma CombinedLaid(l1: string, l2: string, l3: string, l4: string)
    ensures Laid(Combined(l1, l2, l3, l4), l1, l2, l3, l4)
  {
    var t := Combined(l1, l2, l3, l4);
    var r2 := l3 + [' '] + l4;
    var r1 := l2 + [' '] + r2;
    AtJoin(l1, r1);
    AtJoin(l2, r2);
    AtJoin(l3, l4);
    AtShift(r1, l1 + [' '], 0, l2);
    AtShift(r2, l2 + [' '], 0, l3);
    AtShift(r1, l1 + [' '], |l2| + 1, l3);
    AtShift(r2, l2 + [' '], |l3| + 1, l4);
    AtShift(r1, l1 + [' '], |l2| + 1 + |l3| + 1, l4);
    assert t[|l1| + |l2| + 1] == r1[|l2|];
    assert t[|l1| + |l2| + |l3| + 2] == r2[|l3|];
  }

  /** No "MPS" and no "MAG" starts on the first line or the space after it. */
  lemma NoMBefore(t: string, l1: string)
    requires At(t, 0, l1) && |l1| < |t| && t[|l1|] == ' '
    requires forall j :: 0 <= j < |l1| ==> Upper(l1[j]) != 'M'
    ensures forall q :: 0 <= q < |l1| + 1 ==> !CiMatchAt(t, q, "MPS") && !CiMatchAt(t, q, "MAG")
  {
    AvoidsAt(t, 0, l1, 'M', 0, |l1|);
    AvoidsNoMatch(t, 0, |l1| + 1, "MPS");
    AvoidsNoMatch(t, 0, |l1| + 1, "MAG");
  }

  /** No "MAG" starts on the second line (its M is followed by P) or the space after it. */
  lemma NoMagOn(t: string, x: nat, l2: string)
    requires At(t, x, l2) && x + |l2| < |t| && t[x + |l2|] == ' '
    requires |l2| > 1 && l2[1] == 'P' && forall j :: 1 <= j < |l2| ==> Upper(l2[j]) != 'M'
    ensures forall q :: x <= q < x + |l2| + 1 ==> !CiMatchAt(t, q, "MAG")
  {
    assert t[x + 1] == l2[1];
    assert !CiMatchAt(t, x, "MAG") by {
      assert Upper(t[x + 1]) != Upper("MAG"[1]);
    }
    AvoidsAt(t, x, l2, 'M', 1, |l2|);
    AvoidsNoMatch(t, x + 1, x + |l2| + 1, "MAG");
  }

  /** No "Elapsed" starts on the first line (the E of "CURRENT" is followed by N) or the space after it. */
  lemma NoElapsedOnFirst(t: string, l1: string)
    requires At(t, 0, l1) && |l1| < |t| && t[|l1|] == ' '
    requires |l1| > 12 && l1[12] == 'N' && forall j :: 0 <= j < |l1| && j != 11 ==> Upper(l1[j]) != 'E'
    ensures forall q :: 0 <= q < |l1| + 1 ==> !CiMatchAt(t, q, "Elapsed")
  {
    AvoidsAt(t, 0, l1, 'E', 0, 11);
    assert t[12] == l1[12];
    assert !CiMatchAt(t, 11, "Elapsed") by {
      assert Upper(t[11 + 1]) != Upper("Elapsed"[1]);
    }
    AvoidsAt(t, 0, l1, 'E', 12, |l1|);
    AvoidsNoMatch(t, 0, 11, "Elapsed");
    AvoidsNoMatch(t, 12, |l1| + 1, "Elapsed");
  }

  /** No "Elapsed" starts on a line without E, or on the space after it. */
  lemma NoElapsedOn(t: string, x: nat, l: string)
    requires At(t, x, l) && x + |l| < |t| && t[x + |l|] == ' '
    requires forall j :: 0 <= j < |l| ==> Upper(l[j]) != 'E'
    ensures forall q :: x <= q < x + |l| + 1 ==> !CiMatchAt(t, q, "Elapsed")
  {
    AvoidsAt(t, x, l, 'E', 0, |l|);
    AvoidsNoMatch(t, x, x + |l| + 1, "Elapsed");
  }

  /** The MPS search passes over the first line: none of its characters is an M. */
  lemma MpsSkip(t: string, l1: string)
    requires At(t, 0, l1) && |l1| < |t| && t[|l1|] == ' '
    requires forall j :: 0 <= j < |l1| ==> Upper(l1[j]) != 'M'
    ensures forall q :: 0 <= q < |l1| + 1 ==> !CiMatchAt(t, q, MpsPattern.first)
  {
    NoMBefore(t, l1);
  }

  /** The MAG search passes over the first two lines. */
  lemma MagSkip(t: string, l1: string, l2: string)
    requires At(t, 0, l1) && |l1| < |t| && t[|l1|] == ' '
    requires forall j :: 0 <= j < |l1| ==> Upper(l1[j]) != 'M'
    requires At(t, |l1| + 1, l2) && |l1| + 1 + |l2| < |t| && t[|l1| + 1 + |l2|] == ' '
    requires |l2| > 1 && l2[1] == 'P' && forall j :: 1 <= j < |l2| ==> Upper(l2[j]) != 'M'
    ensures forall q :: 0 <= q < |l1| + |l2| + 2 ==> !CiMatchAt(t, q, MagPattern.first)
  {
    NoMBefore(t, l1);
    NoMagOn(t, |l1| + 1, l2);
  }

  /** The elapsed-time search passes over the first three lines. */
  lemma ClockSkip(t: string, l1: string, l2: string, l3: string)
    requires At(t, 0, l1) && |l1| < |t| && t[|l1|] == ' '
    requires |l1| > 12 && l1[12] == 'N' && forall j :: 0 <= j < |l1| && j != 11 ==> Upper(l1[j]) != 'E'
    requires At(t, |l1| + 1, l2) && |l1| + 1 + |l2| < |t| && t[|l1| + 1 + |l2|] == ' '
    requires forall j :: 0 <= j < |l2| ==> Upper(l2[j]) != 'E'
    requires At(t, |l1| + |l2| + 2, l3) && |l1| + |l2| + 2 + |l3| < |t| && t[|l1| + |l2| + 2 + |l3|] == ' '
    requires forall j :: 0 <= j < |l3| ==> Upper(l3[j]) != 'E'
    ensures forall q :: 0 <= q < |l1| + |l2| + |l3| + 3 ==> !CiMatchAt(t, q, "Elapsed")
  {
    NoElapsedOnFirst(t, l1);
    NoElapsedOn(t, |l1| + 1, l2);
    NoElapsedOn(t, |l1| + |l2| + 2, l3);
  }

  lemma MpsField(t: string, l1: string, v1: string)
    requires At(t, 0, l1) && |l1| < |t| && t[|l1|] == ' '
    requires forall j :: 0 <= j < |l1| ==> Upper(l1[j]) != 'M'
    requires IsNumericToken(v1) && At(t, |l1| + 1, NumberLine(MpsPattern, v1))
    ensures SearchNumber(t, 0, MpsPattern) == Some(v1)
  {
    MpsSkip(t, l1);
    PatternsShaped();
    NumberAfterSkip(t, |l1| + 1, MpsPattern, v1);
  }

  lemma MagField(t: string, l1: string, l2: string, v2: string)
    requires At(t, 0, l1) && |l1| < |t| && t[|l1|] == ' '
    requires forall j :: 0 <= j < |l1| ==> Upper(l1[j]) != 'M'
    requires At(t, |l1| + 1, l2) && |l1| + 1 + |l2| < |t| && t[|l1| + 1 + |l2|] == ' '
    requires |l2| > 1 && l2[1] == 'P' && forall j :: 1 <= j < |l2| ==> Upper(l2[j]) != 'M'
    requires IsNumericToken(v2) && At(t, |l1| + |l2| + 2, NumberLine(MagPattern, v2))
    ensures SearchNumber(t, 0, MagPattern) == Some(v2)
  {
    MagSkip(t, l1, l2);
    PatternsShaped();
    NumberAfterSkip(t, |l1| + |l2| + 2, MagPattern, v2);
  }

  lemma ClockField(t: string, l1: string, l2: string, l3: string, k: string)
    requires At(t, 0, l1) && |l1| < |t| && t[|l1|] == ' '
    requires |l1| > 12 && l1[12] == 'N' && forall j :: 0 <= j < |l1| && j != 11 ==> Upper(l1[j]) != 'E'
    requires At(t, |l1| + 1, l2) && |l1| + 1 + |l2| < |t| && t[|l1| + 1 + |l2|] == ' '
    requires forall j :: 0 <= j < |l2| ==> Upper(l2[j]) != 'E'
    requires At(t, |l1| + |l2| + 2, l3) && |l1| + |l2| + 2 + |l3| < |t| && t[|l1| + |l2| + 2 + |l3|] == ' '
    requires forall j :: 0 <= j < |l3| ==> Upper(l3[j]) != 'E'
    requires IsClock(k) && At(t, |l1| + |l2| + |l3| + 3, TimeLine(k))
    ensures SearchClock(t, 0) == Some(k)
  {
    ClockSkip(t, l1, l2, l3);
    ClockAfterSkip(t, |l1| + |l2| + |l3| + 3, k);
  }

  /** The four searches of the combined text each find their own line's reading. */
  lemma CombinedSearches(c: string, v1: string, v2: string, k: string)
    requires Readings(c, v1, v2, k)
    ensures var t := Combined(NumberLine(CurrentPattern, c), NumberLine(MpsPattern, v1),
                              NumberLine(MagPattern, v2), TimeLine(k));
      && SearchNumber(t, 0, CurrentPattern) == Some(c)
      && SearchNumber(t, 0, MpsPattern) == Some(v1)
      && SearchNumber(t, 0, MagPattern) == Some(v2)
      && SearchClock(t, 0) == Some(k)
  {
    var l1, l2, l3, l4 := NumberLine(CurrentPattern, c), NumberLine(MpsPattern, v1),
      NumberLine(MagPattern, v2), TimeLine(k);
    var t := Combined(l1, l2, l3, l4);
    CombinedLaid(l1, l2, l3, l4);
    PatternsShaped();
    CurrentLetters(c);
    MpsLetters(v1);
    MpsNoE(v1);
    MagLetters(v2);
    SearchReachesLine(t, 0, CurrentPattern, c);
    MpsField(t, l1, v1);
    MagField(t, l1, l2, v2);
    ClockField(t, l1, l2, l3, k);
  }

  // ---------------------------------------------------------------------------
  // parse_mri_data on the frame text
  // ---------------------------------------------------------------------------

  /**
   * Round trip: on a frame showing the four readings, the parser returns them, each
   * number as `float` reads it, and the clock as shown.
   */
  lemma ParseDisplay(c: string, v1: string, v2: string, k: string)
    requires Readings(c, v1, v2, k) && IsNumericToken(c)
    requires ParseFloat(c).Some? && ParseFloat(v1).Some? && ParseFloat(v2).Some?
    ensures Parse(Display(c, v1, v2, k))
      == Some(MriData(ParseFloat(c).value, ParseFloat(v1).value, ParseFloat(v2).value, k))
  {
    var l1, l2, l3, l4 := NumberLine(CurrentPattern, c), NumberLine(MpsPattern, v1),
      NumberLine(MagPattern, v2), TimeLine(k);
    var text := Display(c, v1, v2, k);
    DisplayLines(c, v1, v2, k);
    JoinFour(l1, l2, l3, l4);
    assert Join(Lines(text), ' ') == Combined(l1, l2, l3, l4);
    CombinedSearches(c, v1, v2, k);
    var f := PrimaryPass(Join(Lines(text), ' '));
    assert f == Fields(ParseFloat(c), ParseFloat(v1), ParseFloat(v2), Some(k));
    assert Complete(f);
    assert FinalFields(text) == f;
  }

  /** `s`, with a minus sign in front when `negative`. */
  function WithSign(negative: bool, s: string): string {
    if negative then "-" + s else s
  }

  /** The value of `x`, negated when `negative`. */
  function SignedValue(negative: bool, x: real): real {
    if negative then -x else x
  }

  /**
   * Round trip on whole numbers: a current shown as a digit string and voltages shown
   * as digit strings, either of them with a minus sign, come back as their values.
   */
  lemma ParseDisplayDigits(c: string, v1: string, v2: string, k: string, neg1: bool, neg2: bool)
    requires IsDigitString(c) && IsDigitString(v1) && IsDigitString(v2) && IsClock(k)
    ensures Parse(Display(c, WithSign(neg1, v1), WithSign(neg2, v2), k))
      == Some(MriData(DigitsValue(c) as real, SignedValue(neg1, DigitsValue(v1) as real),
                      SignedValue(neg2, DigitsValue(v2) as real), k))
  {
    ParseFloatDigits(c);
    DigitStringToken(c);
    assert IsUnsignedToken(c);
    SignedDigits(v1, neg1);
    SignedDigits(v2, neg2);
    ParseDisplay(c, WithSign(neg1, v1), WithSign(neg2, v2), k);
  }

  /** A digit string, signed or not, is a numeric token that `float` reads as its signed value. */
  lemma SignedDigits(v: string, negative: bool)
    requires IsDigitString(v)
    ensures IsNumericToken(WithSign(negative, v))
    ensures ParseFloat(WithSign(negative, v)) == Some(SignedValue(negative, DigitsValue(v) as real))
  {
    ParseFloatDigits(v);
    DigitStringToken(v);
    if negative {
      ParseFloatMinus(v);
    }
  }
}

/**
 * The OCR text parser of `src/smva/utils/ocr.py`: `parse_mri_data`, which pulls
 * the actual current, the MPS and MAG voltages and the elapsed time out of the
 * text of one frame, and `time_string_to_seconds`.
 *
 * The regular expressions are modelled by leftmost-search functions that follow
 * Python's backtracking semantics for these particular patterns: a keyword, the
 * shortest gap, a greedy `[+-]?[\d.]+` token, greedy `\s*`, then the unit letter.
 */
module Ocr {
  import opened Optional
  import opened Text

  /** The record `parse_mri_data` returns: current (A), MPS and MAG voltages (V), elapsed time "HH:MM:SS". */
  datatype MriData = MriData(current: real, mps: real, mag: real, time: string)

  /** The locals `current_a`, `mps_v`, `mag_v` and `time_str` while the parser fills them. */
  datatype Fields = Fields(current: Option<real>, mps: Option<real>, mag: Option<real>, time: Option<string>)

  /** A pattern `FIRST\s+SECOND.*?([+-]?[\d.]+)\s*UNIT`, searched case-insensitively. */
  datatype NumberPattern = NumberPattern(first: string, second: string, signed: bool, unit: char)

  const CurrentPattern := NumberPattern("ACTUAL", "CURRENT", false, 'A')
  const MpsPattern := NumberPattern("MPS", "VOLTS", true, 'V')
  const MagPattern := NumberPattern("MAG", "VOLTS", true, 'V')

  /** Largest value a "dd:dd:dd" string converts to. */
  const MaxClockSeconds := 99 * 3600 + 99 * 60 + 99

  // ---------------------------------------------------------------------------
  // Regular-expression searches
  // ---------------------------------------------------------------------------

  /** A token of the unsigned class `[\d.]+`. */
  predicate IsUnsignedToken(tok: string) {
    |tok| > 0 && forall i :: 0 <= i < |tok| ==> IsNumChar(tok[i])
  }

  /** The shape `\d{2}:\d{2}:\d{2}`. */
  predicate IsClock(s: string) {
    && |s| == 8
    && IsDigit(s[0]) && IsDigit(s[1]) && s[2] == ':'
    && IsDigit(s[3]) && IsDigit(s[4]) && s[5] == ':'
    && IsDigit(s[6]) && IsDigit(s[7])
  }

  /** `\s*` followed by the unit letter (either case) at position `q`. */
  predicate UnitAt(t: string, q: nat, unit: char)
    requires q <= |t|
  {
    var w := SpaceRun(t, q);
    q + w < |t| && Upper(t[q + w]) == unit
  }

  /**
   * The token `[+-]?[\d.]+\s*UNIT` matched at exactly position `p`, if any. Only the
   * longest digit run can be followed by the unit, and a sign is only tried when
   * the pattern admits one, as the backtracking matcher does.
   */
  function TokenAt(t: string, p: nat, signed: bool, unit: char): (r: Option<string>)
    requires p <= |t|
    ensures r.Some? ==> IsNumericToken(r.value)
    ensures r.Some? && !signed ==> IsUnsignedToken(r.value)
  {
    if signed && p < |t| && (t[p] == '+' || t[p] == '-') then
      var r := RunThenUnit(t, p, p + 1, unit);
      if r.Some? then SignedRunIsToken(t, p, NumRun(t, p + 1)); r else None
    else
      var r := RunThenUnit(t, p, p, unit);
      if r.Some? then RunIsToken(t, p, NumRun(t, p)); r else None
  }

  /** `[\d.]+\s*UNIT` from `start`: the text from `p` to the end of the longest run, if the unit follows it. */
  function RunThenUnit(t: string, p: nat, start: nat, unit: char): Option<string>
    requires p <= start <= |t|
  {
    var n := NumRun(t, start);
    if n >= 1 && UnitAt(t, start + n, unit) then Some(t[p..start + n]) else None
  }

  /** A non-empty run of `[\d.]` is a token. */
  lemma RunIsToken(t: string, p: nat, n: nat)
    requires p + n <= |t| && n >= 1
    requires forall i :: p <= i < p + n ==> IsNumChar(t[i])
    ensures IsUnsignedToken(t[p..p + n]) && IsNumericToken(t[p..p + n])
  {
    var tok := t[p..p + n];
    assert forall i :: 0 <= i < |tok| ==> tok[i] == t[p + i];
    assert IsNumChar(tok[0]);
  }

  /** A sign followed by a non-empty run of `[\d.]` is a token. */
  lemma SignedRunIsToken(t: string, p: nat, n: nat)
    requires p + 1 + n <= |t| && n >= 1 && (t[p] == '+' || t[p] == '-')
    requires forall i :: p + 1 <= i < p + 1 + n ==> IsNumChar(t[i])
    ensures IsNumericToken(t[p..p + 1 + n])
  {
    assert t[p..p + 1 + n][1..] == t[p + 1..p + 1 + n];
    RunIsToken(t, p + 1, n);
  }

  /**
   * The scan `re.search` performs: the match at the first position from `p` to `n`
   * at which `here` matches.
   */
  function FirstMatch(here: nat -> Option<string>, p: nat, n: nat): Option<string>
    decreases n - p
  {
    if here(p).Some? then here(p)
    else if p < n then FirstMatch(here, p + 1, n)
    else None
  }

  /** The position at which the scan stops: its first match, or where it gives up. */
  function FirstPos(here: nat -> Option<string>, p: nat, n: nat): (q: nat)
    ensures p <= q
    decreases n - p
  {
    if here(p).Some? then p
    else if p < n then FirstPos(here, p + 1, n)
    else p
  }

  /** What the scan returns is whatever `here` gives at the position where it stops. */
  lemma {:induction false} FirstMatchAt(here: nat -> Option<string>, p: nat, n: nat)
    ensures FirstMatch(here, p, n) == here(FirstPos(here, p, n))
    decreases n - p
  {
    if here(p).None? && p < n {
      FirstMatchAt(here, p + 1, n);
    }
  }

  /** Present implies found: a match at any position from `p0` to `n` makes the scan succeed. */
  lemma {:induction false} FirstMatchFound(here: nat -> Option<string>, p0: nat, p: nat, n: nat)
    requires p0 <= p <= n && here(p).Some?
    ensures FirstMatch(here, p0, n).Some?
    decreases p - p0
  {
    if here(p0).None? {
      FirstMatchFound(here, p0 + 1, p, n);
    }
  }

  /** Leftmost: what the scan returns is the match at some `p`, and nothing from `p0` to `p` matches. */
  lemma {:induction false} FirstMatchLeftmost(here: nat -> Option<string>, p0: nat, n: nat)
    requires p0 <= n
    ensures FirstMatch(here, p0, n).Some? ==>
      exists p :: p0 <= p <= n && here(p) == FirstMatch(here, p0, n)
        && forall q :: p0 <= q < p ==> here(q).None?
    decreases n - p0
  {
    if here(p0).None? && p0 < n {
      FirstMatchLeftmost(here, p0 + 1, n);
      if FirstMatch(here, p0, n).Some? {
        var p :| p0 + 1 <= p <= n && here(p) == FirstMatch(here, p0 + 1, n)
          && forall q :: p0 + 1 <= q < p ==> here(q).None?;
        assert forall q :: p0 <= q < p ==> here(q).None?;
      }
    } else if here(p0).Some? {
      assert here(p0) == FirstMatch(here, p0, n);
    }
  }

  /** Positions that do not match can be skipped. */
  lemma {:induction false} FirstMatchSkip(here: nat -> Option<string>, p0: nat, p: nat, n: nat)
    requires p0 <= p <= n
    requires forall q :: p0 <= q < p ==> here(q).None?
    ensures FirstMatch(here, p0, n) == FirstMatch(here, p, n)
    decreases p - p0
  {
    if p0 < p {
      FirstMatchSkip(here, p0 + 1, p, n);
    }
  }

  /** Where the token pattern matches, position by position. */
  function TokenMatches(t: string, signed: bool, unit: char): nat -> Option<string> {
    (q: nat) => if q <= |t| then TokenAt(t, q, signed, unit) else None
  }

  /** `re.search` of the token pattern from position `p` on: the leftmost match wins. */
  function FindToken(t: string, p: nat, signed: bool, unit: char): (r: Option<string>)
    requires p <= |t|
    ensures r.Some? ==> IsNumericToken(r.value)
    ensures r.Some? && !signed ==> IsUnsignedToken(r.value)
  {
    FirstMatchAt(TokenMatches(t, signed, unit), p, |t|);
    FirstMatch(TokenMatches(t, signed, unit), p, |t|)
  }

  /** A clock `\d{2}:\d{2}:\d{2}` starting at exactly position `p`. */
  predicate ClockAt(t: string, p: nat) {
    p + 8 <= |t| && IsClock(t[p..p + 8])
  }

  /** Where the clock pattern matches, position by position. */
  function ClockMatches(t: string): nat -> Option<string> {
    (q: nat) => if ClockAt(t, q) then Some(t[q..q + 8]) else None
  }

  /** `re.search(r"(\d{2}:\d{2}:\d{2})", ...)` from position `p` on. */
  function FindClock(t: string, p: nat): (r: Option<string>)
    requires p <= |t|
    ensures r.Some? ==> IsClock(r.value)
  {
    FirstMatchAt(ClockMatches(t), p, |t|);
    FirstMatch(ClockMatches(t), p, |t|)
  }

  /** End of `FIRST\s+SECOND` matched case-insensitively at position `s`, if it matches there. */
  function KeywordEnd(t: string, s: nat, first: string, second: string): (e: Option<nat>)
    requires s <= |t|
    ensures e.Some? ==> s < e.value <= |t|
  {
    if CiMatchAt(t, s, first) then
      var q := s + |first|;
      var w := SpaceRun(t, q);
      if w >= 1 && CiMatchAt(t, q + w, second) then Some(q + w + |second|) else None
    else None
  }

  /**
   * A number pattern matched with its keyword at exactly position `s`: the keyword,
   * then the first token after it (the lazy `.*?` takes the shortest gap).
   */
  function NumberAt(t: string, s: nat, pat: NumberPattern): Option<string>
    requires s <= |t|
  {
    match KeywordEnd(t, s, pat.first, pat.second)
    case Some(e) => FindToken(t, e, pat.signed, pat.unit)
    case None => None
  }

  function NumberMatches(t: string, pat: NumberPattern): nat -> Option<string> {
    (q: nat) => if q <= |t| then NumberAt(t, q, pat) else None
  }

  /**
   * `re.search(pattern, t, re.IGNORECASE)` for a number pattern: the leftmost start
   * `s` at which the keyword matches and some token follows after the shortest gap.
   */
  function SearchNumber(t: string, s: nat, pat: NumberPattern): (r: Option<string>)
    requires s <= |t|
    ensures r.Some? ==> IsNumericToken(r.value)
    ensures r.Some? && !pat.signed ==> IsUnsignedToken(r.value)
  {
    FirstMatchAt(NumberMatches(t, pat), s, |t|);
    FirstMatch(NumberMatches(t, pat), s, |t|)
  }

  /** The elapsed-time pattern matched with its keyword at exactly position `s`. */
  function ClockAfter(t: string, s: nat): Option<string>
    requires s <= |t|
  {
    match KeywordEnd(t, s, "Elapsed", "Time")
    case Some(e) => FindClock(t, e)
    case None => None
  }

  function TimeMatches(t: string): nat -> Option<string> {
    (q: nat) => if q <= |t| then ClockAfter(t, q) else None
  }

  /** `re.search(r"Elapsed\s+Time.*?(\d{2}:\d{2}:\d{2})", t, re.IGNORECASE)`. */
  function SearchClock(t: string, s: nat): (r: Option<string>)
    requires s <= |t|
    ensures r.Some? ==> IsClock(r.value)
  {
    FirstMatchAt(TimeMatches(t), s, |t|);
    FirstMatch(TimeMatches(t), s, |t|)
  }

  // What the four searches find: whatever matches, and the leftmost of it.

  /** A token matching at any `p >= p0` makes the token search from `p0` succeed. */
  lemma FindTokenFound(t: string, p0: nat, p: nat, signed: bool, unit: char)
    requires p0 <= p <= |t| && TokenAt(t, p, signed, unit).Some?
    ensures FindToken(t, p0, signed, unit).Some?
  {
    FirstMatchFound(TokenMatches(t, signed, unit), p0, p, |t|);
  }

  /** A found token is the match at some `p >= p0`, and no position from `p0` to `p` matches. */
  lemma FindTokenLeftmost(t: string, p0: nat, signed: bool, unit: char)
    requires p0 <= |t|
    ensures FindToken(t, p0, signed, unit).Some? ==>
      exists p :: p0 <= p <= |t| && TokenAt(t, p, signed, unit) == FindToken(t, p0, signed, unit)
        && forall q :: p0 <= q < p ==> TokenAt(t, q, signed, unit).None?
  {
    var here := TokenMatches(t, signed, unit);
    FirstMatchLeftmost(here, p0, |t|);
    if FindToken(t, p0, signed, unit).Some? {
      var p :| p0 <= p <= |t| && here(p) == FirstMatch(here, p0, |t|)
        && forall q :: p0 <= q < p ==> here(q).None?;
      assert forall q :: p0 <= q < p ==> TokenAt(t, q, signed, unit) == here(q);
    }
  }

  /** A clock at any `p >= p0` makes the clock search from `p0` succeed. */
  lemma FindClockFound(t: string, p0: nat, p: nat)
    requires p0 <= p <= |t| && ClockAt(t, p)
    ensures FindClock(t, p0).Some?
  {
    FirstMatchFound(ClockMatches(t), p0, p, |t|);
  }

  /** A found clock is the one at some `p >= p0`, and there is none from `p0` to `p`. */
  lemma FindClockLeftmost(t: string, p0: nat)
    requires p0 <= |t|
    ensures FindClock(t, p0).Some? ==>
      exists p :: p0 <= p <= |t| && ClockAt(t, p) && FindClock(t, p0) == Some(t[p..p + 8])
        && forall q :: p0 <= q < p ==> !ClockAt(t, q)
  {
    var here := ClockMatches(t);
    FirstMatchLeftmost(here, p0, |t|);
    if FindClock(t, p0).Some? {
      var p :| p0 <= p <= |t| && here(p) == FirstMatch(here, p0, |t|)
        && forall q :: p0 <= q < p ==> here(q).None?;
      assert forall q :: p0 <= q < p ==> (ClockAt(t, q) <==> here(q).Some?);
    }
  }

  /** Present implies found: the keyword at `s`, then a token at or after its end, is a match at `s`. */
  lemma NumberAtFound(t: string, s: nat, p: nat, pat: NumberPattern)
    requires s <= |t| && p <= |t|
    requires KeywordEnd(t, s, pat.first, pat.second).Some?
    requires KeywordEnd(t, s, pat.first, pat.second).value <= p
    requires TokenAt(t, p, pat.signed, pat.unit).Some?
    ensures NumberAt(t, s, pat).Some?
  {
    FindTokenFound(t, KeywordEnd(t, s, pat.first, pat.second).value, p, pat.signed, pat.unit);
  }

  /** A match at any start `s >= s0` makes the number search from `s0` succeed. */
  lemma SearchNumberFound(t: string, s0: nat, s: nat, pat: NumberPattern)
    requires s0 <= s <= |t| && NumberAt(t, s, pat).Some?
    ensures SearchNumber(t, s0, pat).Some?
  {
    FirstMatchFound(NumberMatches(t, pat), s0, s, |t|);
  }

  /** A found number comes from the leftmost start `s` whose keyword is followed by a token. */
  lemma SearchNumberLeftmost(t: string, s0: nat, pat: NumberPattern)
    requires s0 <= |t|
    ensures SearchNumber(t, s0, pat).Some? ==>
      exists s :: s0 <= s <= |t| && NumberAt(t, s, pat) == SearchNumber(t, s0, pat)
        && forall q :: s0 <= q < s ==> NumberAt(t, q, pat).None?
  {
    var here := NumberMatches(t, pat);
    FirstMatchLeftmost(here, s0, |t|);
    if SearchNumber(t, s0, pat).Some? {
      var s :| s0 <= s <= |t| && here(s) == FirstMatch(here, s0, |t|)
        && forall q :: s0 <= q < s ==> here(q).None?;
      assert forall q :: s0 <= q < s ==> NumberAt(t, q, pat) == here(q);
    }
  }

  /** Present implies found: "Elapsed Time" at `s`, then a clock at or after its end, is a match at `s`. */
  lemma ClockAfterFound(t: string, s: nat, p: nat)
    requires s <= |t| && p <= |t|
    requires KeywordEnd(t, s, "Elapsed", "Time").Some?
    requires KeywordEnd(t, s, "Elapsed", "Time").value <= p
    requires ClockAt(t, p)
    ensures ClockAfter(t, s).Some?
  {
    FindClockFound(t, KeywordEnd(t, s, "Elapsed", "Time").value, p);
  }

  /** A match at any start `s >= s0` makes the elapsed-time search from `s0` succeed. */
  lemma SearchClockFound(t: string, s0: nat, s: nat)
    requires s0 <= s <= |t| && ClockAfter(t, s).Some?
    ensures SearchClock(t, s0).Some?
  {
    FirstMatchFound(TimeMatches(t), s0, s, |t|);
  }

  /** A found time comes from the leftmost "Elapsed Time" start `s` that is followed by a clock. */
  lemma SearchClockLeftmost(t: string, s0: nat)
    requires s0 <= |t|
    ensures SearchClock(t, s0).Some? ==>
      exists s :: s0 <= s <= |t| && ClockAfter(t, s) == SearchClock(t, s0)
        && forall q :: s0 <= q < s ==> ClockAfter(t, q).None?
  {
    var here := TimeMatches(t);
    FirstMatchLeftmost(here, s0, |t|);
    if SearchClock(t, s0).Some? {
      var s :| s0 <= s <= |t| && here(s) == FirstMatch(here, s0, |t|)
        && forall q :: s0 <= q < s ==> here(q).None?;
      assert forall q :: s0 <= q < s ==> ClockAfter(t, q) == here(q);
    }
  }

  /** `float(match.group(1))` inside `try ... except ValueError: pass`. */
  function FloatOf(m: Option<string>): (r: Option<real>)
    requires m.Some? ==> IsNumericToken(m.value)
    ensures m.Some? && IsUnsignedToken(m.value) && r.Some? ==> r.value >= 0.0
  {
    match m
    case None => None
    case Some(tok) => ParseFloat(tok)
  }

  // ---------------------------------------------------------------------------
  // parse_mri_data
  // ---------------------------------------------------------------------------

  /** `[line.strip() for line in text.split("\n") if line.strip()]`: stripped, non-blank, one line each. */
  function Lines(text: string): (r: seq<string>)
    ensures forall i :: 0 <= i < |r| ==> Trimmed(r[i]) && '\n' !in r[i]
  {
    var pieces := Split(text, '\n');
    NonBlankAvoids(pieces, '\n');
    NonBlank(pieces)
  }

  /** Neither empty nor starting or ending with whitespace: what `strip` leaves of a non-blank line. */
  predicate Trimmed(line: string) {
    line != [] && !IsSpace(line[0]) && !IsSpace(line[|line| - 1])
  }

  /** The stripped pieces that are not blank, in order. */
  function NonBlank(pieces: seq<string>): (r: seq<string>)
    ensures forall i :: 0 <= i < |r| ==> Trimmed(r[i])
  {
    if pieces == [] then []
    else
      var line := Strip(pieces[0]);
      var rest := NonBlank(pieces[1..]);
      if line == [] then rest else ConsTrimmed(line, rest); [line] + rest
  }

  /** A trimmed line put in front of trimmed lines: every line is still trimmed. */
  lemma ConsTrimmed(line: string, rest: seq<string>)
    requires Trimmed(line) && forall i :: 0 <= i < |rest| ==> Trimmed(rest[i])
    ensures forall i :: 0 <= i < |[line] + rest| ==> Trimmed(([line] + rest)[i])
  {
  }

  /** What a set field must look like: a current without sign, a "dd:dd:dd" time. */
  predicate WellFormed(f: Fields) {
    && (f.current.Some? ==> f.current.value >= 0.0)
    && (f.time.Some? ==> IsClock(f.time.value))
  }

  /** `all([current_a is not None, mps_v is not None, mag_v is not None, time_str])` */
  predicate Complete(f: Fields) {
    f.current.Some? && f.mps.Some? && f.mag.Some? && f.time.Some? && f.time.value != []
  }

  /** The searches of the combined text (ocr.py:88-115). */
  function PrimaryPass(fullText: string): (f: Fields)
    ensures WellFormed(f)
  {
    Fields(
      FloatOf(SearchNumber(fullText, 0, CurrentPattern)),
      FloatOf(SearchNumber(fullText, 0, MpsPattern)),
      FloatOf(SearchNumber(fullText, 0, MagPattern)),
      SearchClock(fullText, 0))
  }

  /** The per-line current search `([\d.]+)\s*A`. */
  function LineCurrent(line: string): (r: Option<real>)
    ensures r.Some? ==> r.value >= 0.0
  {
    FloatOf(FindToken(line, 0, false, 'A'))
  }

  /** The per-line voltage search `([+-]?[\d.]+)\s*V`, used for both MPS and MAG. */
  function LineVolts(line: string): Option<real> {
    FloatOf(FindToken(line, 0, true, 'V'))
  }

  /** One iteration of the per-line loop (ocr.py:120-152): fills only fields still missing. */
  function ScanLine(f: Fields, line: string): (r: Fields)
    ensures WellFormed(f) ==> WellFormed(r)
  {
    var up := UpperStr(line);
    Fields(
      if Contains(up, "CURRENT") && f.current.None? then LineCurrent(line) else f.current,
      if Contains(up, "MPS") && f.mps.None? then LineVolts(line) else f.mps,
      if Contains(up, "MAG") && f.mag.None? then LineVolts(line) else f.mag,
      if Contains(up, "TIME") && f.time.None? then FindClock(line, 0) else f.time)
  }

  /**
   * The per-line loop over `lines` (ocr.py:120-152). A field already set is never
   * overwritten, and the loop keeps every set field well formed.
   */
  function ScanLines(f: Fields, lines: seq<string>): (r: Fields)
    ensures WellFormed(f) ==> WellFormed(r)
    ensures f.current.Some? ==> r.current == f.current
    ensures f.mps.Some? ==> r.mps == f.mps
    ensures f.mag.Some? ==> r.mag == f.mag
    ensures f.time.Some? ==> r.time == f.time
  {
    if lines == [] then f
    else ScanLine(ScanLines(f, lines[..|lines| - 1]), lines[|lines| - 1])
  }

  lemma ScanLinesPrefix(f: Fields, lines: seq<string>, i: nat)
    requires i < |lines|
    ensures ScanLines(f, lines[..i + 1]) == ScanLine(ScanLines(f, lines[..i]), lines[i])
  {
    assert lines[..i + 1][..i] == lines[..i];
  }

  lemma ScanLinesWhole(f: Fields, lines: seq<string>)
    ensures ScanLines(f, lines[..|lines|]) == ScanLines(f, lines)
  {
    assert lines[..|lines|] == lines;
  }

  /** The four fields after both passes: the line scan runs only if the combined pass left a gap. */
  function FinalFields(text: string): (f: Fields)
    ensures WellFormed(f)
  {
    var lines := Lines(text);
    var f0 := PrimaryPass(Join(lines, ' '));
    if Complete(f0) then f0 else ScanLines(f0, lines)
  }

  /** `parse_mri_data(text)`: a record only when all four fields were recovered. */
  function Parse(text: string): (r: Option<MriData>)
    ensures r.Some? ==> r.value.current >= 0.0 && IsClock(r.value.time)
  {
    var f := FinalFields(text);
    if Complete(f) then Some(MriData(f.current.value, f.mps.value, f.mag.value, f.time.value)) else None
  }

  /**
   * The first pass of `parse_mri_data`: the four pattern searches on the joined
   * text, each number read with `float` and left unset when `float` rejects it.
   */
  method CombinedTextPass(fullText: string) returns (f: Fields)
    ensures f == PrimaryPass(fullText)
  {
    var currentA: Option<real> := None;
    var mpsV: Option<real> := None;
    var magV: Option<real> := None;
    var timeStr: Option<string> := None;

    var currentMatch := SearchNumber(fullText, 0, CurrentPattern);
    var mpsMatch := SearchNumber(fullText, 0, MpsPattern);
    var magMatch := SearchNumber(fullText, 0, MagPattern);
    var timeMatch := SearchClock(fullText, 0);

    if currentMatch.Some? {
      var value := ParseFloat(currentMatch.value);
      if value.Some? { currentA := value; }
    }
    if mpsMatch.Some? {
      var value := ParseFloat(mpsMatch.value);
      if value.Some? { mpsV := value; }
    }
    if magMatch.Some? {
      var value := ParseFloat(magMatch.value);
      if value.Some? { magV := value; }
    }
    if timeMatch.Some? {
      timeStr := timeMatch;
    }
    return Fields(currentA, mpsV, magV, timeStr);
  }

  /**
   * `parse_mri_data`, statement by statement: the four locals start as `None`, the
   * combined-text searches fill what they find, and when one is still missing the
   * loop over the lines fills the gaps.
   */
  method ParseMriData(text: string) returns (r: Option<MriData>)
    ensures r == Parse(text)
    ensures r.Some? ==> r.value.current >= 0.0 && IsClock(r.value.time)
  {
    var lines := Lines(text);
    var currentA: Option<real> := None;
    var mpsV: Option<real> := None;
    var magV: Option<real> := None;
    var timeStr: Option<string> := None;

    var fullText := Join(lines, ' ');
    var primary := CombinedTextPass(fullText);
    currentA, mpsV, magV, timeStr := primary.current, primary.mps, primary.mag, primary.time;

    if !Complete(Fields(currentA, mpsV, magV, timeStr)) {
      for i := 0 to |lines|
        invariant Fields(currentA, mpsV, magV, timeStr) == ScanLines(primary, lines[..i])
      {
        var line := lines[i];
        ghost var before := Fields(currentA, mpsV, magV, timeStr);
        ghost var after := ScanLine(before, line);
        var upper := UpperStr(line);
        if Contains(upper, "CURRENT") && currentA.None? {
          var m := FindToken(line, 0, false, 'A');
          if m.Some? {
            var value := ParseFloat(m.value);
            if value.Some? { currentA := value; }
          }
        }
        assert currentA == after.current;
        if Contains(upper, "MPS") && mpsV.None? {
          var m := FindToken(line, 0, true, 'V');
          if m.Some? {
            var value := ParseFloat(m.value);
            if value.Some? { mpsV := value; }
          }
        }
        assert mpsV == after.mps;
        if Contains(upper, "MAG") && magV.None? {
          var m := FindToken(line, 0, true, 'V');
          if m.Some? {
            var value := ParseFloat(m.value);
            if value.Some? { magV := value; }
          }
        }
        assert magV == after.mag;
        if Contains(upper, "TIME") && timeStr.None? {
          var m := FindClock(line, 0);
          if m.Some? { timeStr := m; }
        }
        assert timeStr == after.time;
        ScanLinesPrefix(primary, lines, i);
      }
      ScanLinesWhole(primary, lines);
    }

    if Complete(Fields(currentA, mpsV, magV, timeStr)) {
      r := Some(MriData(currentA.value, mpsV.value, magV.value, timeStr.value));
    } else {
      r := None;
    }
  }

  // ---------------------------------------------------------------------------
  // time_string_to_seconds
  // ---------------------------------------------------------------------------

  /**
   * `time_string_to_seconds`: split on ':', exactly three parts, each read by
   * `int()`; any other shape gives 0.
   */
  function TimeToSeconds(s: string): (r: int)
    ensures CountChar(s, ':') != 2 ==> r == 0
    ensures '-' !in s ==> r >= 0
  {
    var parts := Split(s, ':');
    SplitCount(s, ':');
    SplitAvoids(s, ':', '-');
    if |parts| != 3 then 0
    else
      match (ParseInt(parts[0]), ParseInt(parts[1]), ParseInt(parts[2]))
      case (Some(h), Some(m), Some(sec)) => h * 3600 + m * 60 + sec
      case _ => 0
  }

  /** Seconds denoted by a "dd:dd:dd" string, read digit by digit. */
  function ClockSeconds(s: string): nat
    requires IsClock(s)
  {
    DigitsValue(s[0..2]) * 3600 + DigitsValue(s[3..5]) * 60 + DigitsValue(s[6..8])
  }

  /** Two decimal digits denote a number from 0 to 99. */
  lemma TwoDigitsValue(a: string)
    requires |a| == 2 && IsDigit(a[0]) && IsDigit(a[1])
    ensures DigitsValue(a) == DigitValue(a[0]) * 10 + DigitValue(a[1]) <= 99
  {
    assert a[..1][..0] == [] && a[..1][0] == a[0];
    assert DigitsValue(a[..1]) == DigitValue(a[0]);
  }

  /** `int` reads two digits as a number from 0 to 99. */
  lemma TwoDigitsRead(a: string)
    requires |a| == 2 && IsDigit(a[0]) && IsDigit(a[1])
    ensures ParseInt(a) == Some(DigitsValue(a)) && DigitsValue(a) <= 99
  {
    assert IsDigitString(a);
    ParseIntDigits(a);
    TwoDigitsValue(a);
  }

  /** Three colon-free parts joined by ':' split back into those parts. */
  lemma SplitThree(h: string, m: string, sec: string)
    requires ':' !in h && ':' !in m && ':' !in sec
    ensures Split(h + ":" + m + ":" + sec, ':') == [h, m, sec]
  {
    var rest := m + ":" + sec;
    assert h + ":" + m + ":" + sec == h + [':'] + rest;
    SplitAtSeparator(h, rest, ':');
    SplitAtSeparator(m, sec, ':');
    SplitNoSeparator(sec, ':');
  }

  /** A "dd:dd:dd" string splits on ':' into its three two-digit fields. */
  lemma ClockSplit(s: string)
    requires IsClock(s)
    ensures Split(s, ':') == [s[0..2], s[3..5], s[6..8]]
  {
    var a, b, c := s[0..2], s[3..5], s[6..8];
    assert s == a + ":" + b + ":" + c;
    SplitThree(a, b, c);
  }

  /** Three parts that `int()` accepts give hours * 3600 + minutes * 60 + seconds. */
  lemma TimeOfSplit(s: string, h: string, m: string, sec: string)
    requires Split(s, ':') == [h, m, sec]
    requires ParseInt(h).Some? && ParseInt(m).Some? && ParseInt(sec).Some?
    ensures TimeToSeconds(s) == ParseInt(h).value * 3600 + ParseInt(m).value * 60 + ParseInt(sec).value
  {
  }

  /**
   * A "dd:dd:dd" string never takes the error branch: it converts to
   * hours * 3600 + minutes * 60 + seconds, at most 99:99:99.
   */
  lemma TimeOfClock(s: string)
    requires IsClock(s)
    ensures TimeToSeconds(s) == ClockSeconds(s)
    ensures 0 <= TimeToSeconds(s) <= MaxClockSeconds
  {
    var a, b, c := s[0..2], s[3..5], s[6..8];
    ClockSplit(s);
    TwoDigitsRead(a);
    TwoDigitsRead(b);
    TwoDigitsRead(c);
    TimeOfSplit(s, a, b, c);
    ClockSecondsBound(DigitsValue(a), DigitsValue(b), DigitsValue(c));
  }

  /** Three fields of at most two digits each stay within 99:99:99. */
  lemma ClockSecondsBound(h: nat, m: nat, sec: nat)
    requires h <= 99 && m <= 99 && sec <= 99
    ensures h * 3600 + m * 60 + sec <= MaxClockSeconds
  {
  }

  function DigitChar(d: nat): char
    requires d < 10
  {
    ('0' as int + d) as char
  }

  /** Writes a time of day as "HH:MM:SS" with two digits per field. */
  function FormatClock(h: nat, m: nat, sec: nat): (s: string)
    requires h < 100 && m < 100 && sec < 100
    ensures IsClock(s)
  {
    TwoDigits(h) + ":" + TwoDigits(m) + ":" + TwoDigits(sec)
  }

  /** Converting a formatted clock gives back its seconds: the inverse of `FormatClock`. */
  lemma TimeRoundTrip(h: nat, m: nat, sec: nat)
    requires h < 100 && m < 100 && sec < 100
    ensures TimeToSeconds(FormatClock(h, m, sec)) == h * 3600 + m * 60 + sec
  {
    TimeOfClock(FormatClock(h, m, sec));
    FormatClockSeconds(h, m, sec);
  }

  lemma FormatClockSeconds(h: nat, m: nat, sec: nat)
    requires h < 100 && m < 100 && sec < 100
    ensures ClockSeconds(FormatClock(h, m, sec)) == h * 3600 + m * 60 + sec
  {
    var s := FormatClock(h, m, sec);
    assert s[0..2] == TwoDigits(h) && s[3..5] == TwoDigits(m) && s[6..8] == TwoDigits(sec);
    TwoDigitsOf(h);
    TwoDigitsOf(m);
    TwoDigitsOf(sec);
  }

  /** The two digits of a number below 100. */
  function TwoDigits(d: nat): string
    requires d < 100
  {
    [DigitChar(d / 10), DigitChar(d % 10)]
  }

  lemma TwoDigitsOf(d: nat)
    requires d < 100
    ensures DigitsValue(TwoDigits(d)) == d
  {
    TwoDigitsValue(TwoDigits(d));
  }

  /** The documented example: "01:02:03" is 3723 s. */
  lemma TimeExample(s: string)
    requires s == "01:02:03"
    ensures TimeToSeconds(s) == 3723
  {
    assert s == FormatClock(1, 2, 3);
    TimeRoundTrip(1, 2, 3);
  }

  /**
   * Any three colon-free parts that `int()` accepts convert to
   * hours * 3600 + minutes * 60 + seconds, whatever their width or sign.
   */
  lemma TimeOfThreeParts(h: string, m: string, sec: string)
    requires ':' !in h && ':' !in m && ':' !in sec
    requires ParseInt(h).Some? && ParseInt(m).Some? && ParseInt(sec).Some?
    ensures TimeToSeconds(h + ":" + m + ":" + sec) ==
      ParseInt(h).value * 3600 + ParseInt(m).value * 60 + ParseInt(sec).value
  {
    SplitThree(h, m, sec);
    TimeOfSplit(h + ":" + m + ":" + sec, h, m, sec);
  }

  /** A string without exactly three parts converts to 0: "1:2" has two. */
  lemma TimeTwoParts()
    ensures TimeToSeconds("1:2") == 0
  {
    assert ["1", "2"][1..] == ["2"];
    assert Join(["1", "2"], ':') == "1:2";
    JoinThenSplit(["1", "2"], ':');
  }

  /** A part that `int()` rejects makes the whole conversion 0, whatever the other two parts are. */
  lemma TimeOfRejectedPart(h: string, m: string, sec: string)
    requires ':' !in h && ':' !in m && ':' !in sec
    requires ParseInt(h).None? || ParseInt(m).None? || ParseInt(sec).None?
    ensures TimeToSeconds(h + ":" + m + ":" + sec) == 0
  {
    SplitThree(h, m, sec);
  }

  /** An instance: "01:02:xx". */
  lemma TimeBadPart(s: string)
    requires s == "01:02:xx"
    ensures TimeToSeconds(s) == 0
  {
    var h, m, sec := "01", "02", "xx";
    assert s == h + ":" + m + ":" + sec;
    NotAnInt(sec);
    TimeOfRejectedPart(h, m, sec);
  }

  lemma NotAnInt(sec: string)
    requires sec == "xx"
    ensures ParseInt(sec).None?
  {
    ParseIntNeedsDigit(sec);
    assert !HasDigit(sec);
  }

  /** The time of a parsed record converts without error and lies in 0 .. 99:99:99. */
  lemma ParsedTimeInRange(text: string)
    ensures Parse(text).Some? ==>
      && TimeToSeconds(Parse(text).value.time) == ClockSeconds(Parse(text).value.time)
      && 0 <= TimeToSeconds(Parse(text).value.time) <= MaxClockSeconds
  {
    if Parse(text).Some? {
      TimeOfClock(Parse(text).value.time);
    }
  }

  /**
   * The combined text holds no line break, so the `.` of the combined patterns
   * (which does not match '\n') can cross any character of it.
   */
  lemma {:induction false} FullTextHasNoNewline(text: string)
    ensures '\n' !in Join(Lines(text), ' ')
  {
    var pieces := Split(text, '\n');
    NonBlankAvoids(pieces, '\n');
    JoinAvoids(Lines(text), ' ', '\n');
  }

  lemma {:induction false} NonBlankAvoids(pieces: seq<string>, c: char)
    requires forall i :: 0 <= i < |pieces| ==> c !in pieces[i]
    ensures forall i :: 0 <= i < |NonBlank(pieces)| ==> c !in NonBlank(pieces)[i]
  {
    if pieces != [] {
      StripAvoids(pieces[0], c);
      NonBlankAvoids(pieces[1..], c);
    }
  }

  lemma {:induction false} NonBlankAvoidsAll(text: string, c: char)
    requires c !in text
    ensures forall i :: 0 <= i < |Lines(text)| ==> c !in Lines(text)[i]
  {
    SplitAvoids(text, '\n', c);
    NonBlankAvoids(Split(text, '\n'), c);
  }

  lemma FindClockNeedsColon(t: string, p: nat)
    requires p <= |t|
    ensures FindClock(t, p).Some? ==> ':' in t
  {
    FindClockLeftmost(t, p);
    if FindClock(t, p).Some? {
      var q :| p <= q <= |t| && ClockAt(t, q) && FindClock(t, p) == Some(t[q..q + 8])
        && forall i :: p <= i < q ==> !ClockAt(t, i);
      assert t[q + 2] == ':';
    }
  }

  lemma SearchClockNeedsColon(t: string, s: nat)
    requires s <= |t|
    ensures SearchClock(t, s).Some? ==> ':' in t
  {
    SearchClockLeftmost(t, s);
    if SearchClock(t, s).Some? {
      var q :| s <= q <= |t| && ClockAfter(t, q) == SearchClock(t, s)
        && forall i :: s <= i < q ==> ClockAfter(t, i).None?;
      FindClockNeedsColon(t, KeywordEnd(t, q, "Elapsed", "Time").value);
    }
  }

  lemma {:induction false} ScanLinesNoColon(f: Fields, lines: seq<string>)
    requires f.time.None?
    requires forall i :: 0 <= i < |lines| ==> ':' !in lines[i]
    ensures ScanLines(f, lines).time.None?
  {
    if lines != [] {
      var last := lines[|lines| - 1];
      ScanLinesNoColon(f, lines[..|lines| - 1]);
      FindClockNeedsColon(last, 0);
    }
  }

  /**
   * All or nothing: a text without any ':' has no elapsed time, so no record comes
   * back however well the current and the voltages read.
   */
  lemma NoClockNoRecord(text: string)
    requires ':' !in text
    ensures Parse(text) == None
  {
    var lines := Lines(text);
    NonBlankAvoidsAll(text, ':');
    JoinAvoids(lines, ' ', ':');
    SearchClockNeedsColon(Join(lines, ' '), 0);
    var f0 := PrimaryPass(Join(lines, ' '));
    assert f0.time.None?;
    ScanLinesNoColon(f0, lines);
  }

  /**
   * The line scan never overwrites: on fields that are all set it changes nothing,
   * so the guard before the loop only saves work.
   */
  lemma ScanIdleWhenComplete(f: Fields, lines: seq<string>)
    requires f.current.Some? && f.mps.Some? && f.mag.Some? && f.time.Some?
    ensures ScanLines(f, lines) == f
  {
  }

  /** The line scan leaves every field the combined-text pass found as it was. */
  lemma FinalFieldsKeepPrimary(text: string)
    ensures var f0, f := PrimaryPass(Join(Lines(text), ' ')), FinalFields(text);
      && (f0.current.Some? ==> f.current == f0.current)
      && (f0.mps.Some? ==> f.mps == f0.mps)
      && (f0.mag.Some? ==> f.mag == f0.mag)
      && (f0.time.Some? ==> f.time == f0.time)
  {
    var lines := Lines(text);
    var f0 := PrimaryPass(Join(lines, ' '));
    assert FinalFields(text) == if Complete(f0) then f0 else ScanLines(f0, lines);
  }

  /** Whatever the combined-text pass found survives into the record. */
  lemma PrimaryFieldsKept(text: string)
    ensures Parse(text).Some? ==>
      var f0 := PrimaryPass(Join(Lines(text), ' '));
      && (f0.current.Some? ==> Parse(text).value.current == f0.current.value)
      && (f0.mps.Some? ==> Parse(text).value.mps == f0.mps.value)
      && (f0.mag.Some? ==> Parse(text).value.mag == f0.mag.value)
      && (f0.time.Some? ==> Parse(text).value.time == f0.time.value)
  {
    FinalFieldsKeepPrimary(text);
    ParseNeedsAllFour(text);
  }

  /**
   * A record comes back exactly when all four fields were found; the truthiness
   * test on `time_str` adds nothing, since a found time is never empty.
   */
  lemma ParseNeedsAllFour(text: string)
    ensures var f := FinalFields(text);
      Parse(text).Some? <==> f.current.Some? && f.mps.Some? && f.mag.Some? && f.time.Some?
    ensures var f := FinalFields(text);
      Parse(text).Some? ==> Parse(text).value == MriData(f.current.value, f.mps.value, f.mag.value, f.time.value)
  {
  }
}

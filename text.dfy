/**
 * The pieces of Python's `str` and of its `int()` and `float()` conversions that
 * the OCR parser relies on: whitespace (`str.isspace`, regex `\s`), `split`,
 * `join`, `strip`, `upper`, substring tests and decimal conversion.
 */
module Text {
  import opened Optional

  /** CPython's whitespace set (`str.isspace`, `str.strip()`, regex `\s` on `str`). */
  predicate IsSpace(c: char) {
    ('\t' <= c <= '\r') || ('\U{1C}' <= c <= ' ') || c == '\U{85}' || c == '\U{A0}'
    || c == '\U{1680}' || ('\U{2000}' <= c <= '\U{200A}') || c == '\U{2028}' || c == '\U{2029}'
    || c == '\U{202F}' || c == '\U{205F}' || c == '\U{3000}'
  }

  predicate IsDigit(c: char) {
    '0' <= c <= '9'
  }

  /** The character class `[\d.]` of the parser's numeric tokens. */
  predicate IsNumChar(c: char) {
    IsDigit(c) || c == '.'
  }

  predicate IsDigitString(s: string) {
    |s| > 0 && forall i :: 0 <= i < |s| ==> IsDigit(s[i])
  }

  predicate HasDigit(s: string) {
    exists i :: 0 <= i < |s| && IsDigit(s[i])
  }

  /** ASCII upper-casing, as `str.upper` does on ASCII letters. */
  function Upper(c: char): char {
    if 'a' <= c <= 'z' then (c as int - 32) as char else c
  }

  function UpperStr(s: string): (r: string)
    ensures |r| == |s| && forall i :: 0 <= i < |s| ==> r[i] == Upper(s[i])
  {
    seq(|s|, i requires 0 <= i < |s| => Upper(s[i]))
  }

  /** Case-insensitive match of word `w` at position `q` of `t` (regex IGNORECASE on a literal). */
  predicate CiMatchAt(t: string, q: nat, w: string) {
    q + |w| <= |t| && forall i :: 0 <= i < |w| ==> Upper(t[q + i]) == Upper(w[i])
  }

  /** Python's `w in s` for strings. */
  predicate Contains(s: string, w: string) {
    |w| <= |s| && (s[..|w|] == w || Contains(s[1..], w))
  }

  /** Length of the longest run of whitespace starting at `p` (a greedy `\s*`). */
  function SpaceRun(t: string, p: nat): (n: nat)
    requires p <= |t|
    ensures p + n <= |t|
    ensures forall i :: p <= i < p + n ==> IsSpace(t[i])
    ensures p + n == |t| || !IsSpace(t[p + n])
    decreases |t| - p
  {
    if p < |t| && IsSpace(t[p]) then 1 + SpaceRun(t, p + 1) else 0
  }

  /** Length of the longest run of `[\d.]` starting at `p` (a greedy `[\d.]*`). */
  function NumRun(t: string, p: nat): (n: nat)
    requires p <= |t|
    ensures p + n <= |t|
    ensures forall i :: p <= i < p + n ==> IsNumChar(t[i])
    ensures p + n == |t| || !IsNumChar(t[p + n])
    decreases |t| - p
  {
    if p < |t| && IsNumChar(t[p]) then 1 + NumRun(t, p + 1) else 0
  }

  function StripLeft(s: string): (r: string)
    ensures |r| <= |s| && r == s[|s| - |r|..]
    ensures forall i :: 0 <= i < |s| - |r| ==> IsSpace(s[i])
    ensures r == [] || !IsSpace(r[0])
  {
    if s != [] && IsSpace(s[0]) then StripLeft(s[1..]) else s
  }

  function StripRight(s: string): (r: string)
    ensures |r| <= |s| && r == s[..|r|]
    ensures forall i :: |r| <= i < |s| ==> IsSpace(s[i])
    ensures r == [] || !IsSpace(r[|r| - 1])
  {
    if s != [] && IsSpace(s[|s| - 1]) then StripRight(s[..|s| - 1]) else s
  }

  /**
   * Python's `s.strip()`: drops leading and trailing whitespace, and only that; what
   * is left starts and ends with a non-space character.
   */
  function Strip(s: string): (r: string)
    ensures |r| <= |s| - LeadingSpace(s)
    ensures r == s[LeadingSpace(s)..LeadingSpace(s) + |r|]
    ensures forall i :: 0 <= i < LeadingSpace(s) ==> IsSpace(s[i])
    ensures forall i :: LeadingSpace(s) + |r| <= i < |s| ==> IsSpace(s[i])
    ensures r == [] || (!IsSpace(r[0]) && !IsSpace(r[|r| - 1]))
  {
    var left := StripLeft(s);
    var right := StripRight(left);
    StripParts(s, left, right);
    right
  }

  /** `strip` keeps a middle slice of `s`; the characters after it are whitespace. */
  lemma StripParts(s: string, left: string, right: string)
    requires |left| <= |s| && left == s[|s| - |left|..]
    requires |right| <= |left| && right == left[..|right|]
    requires forall i :: |right| <= i < |left| ==> IsSpace(left[i])
    ensures right == s[|s| - |left|..|s| - |left| + |right|]
    ensures forall i :: |s| - |left| + |right| <= i < |s| ==> IsSpace(s[i])
  {
    var k := |s| - |left|;
    assert forall i :: k <= i < |s| ==> s[i] == left[i - k];
  }

  /** A string with no whitespace at either end is its own `strip()`. */
  lemma StripKeeps(s: string)
    requires |s| > 0 && !IsSpace(s[0]) && !IsSpace(s[|s| - 1])
    ensures Strip(s) == s
  {
    assert StripLeft(s) == s;
    assert StripRight(s) == s;
  }

  /** Number of whitespace characters `strip` removes at the front of `s`. */
  function LeadingSpace(s: string): nat
    ensures LeadingSpace(s) <= |s|
  {
    |s| - |StripLeft(s)|
  }

  /** Python's `s.split(sep)` for a one-character separator. */
  function Split(s: string, sep: char): (parts: seq<string>)
    ensures |parts| >= 1
    ensures forall i :: 0 <= i < |parts| ==> sep !in parts[i]
  {
    if s == [] then [[]]
    else
      var rest := Split(s[1..], sep);
      if s[0] == sep then [[]] + rest
      else [[s[0]] + rest[0]] + rest[1..]
  }

  /** Splitting gives one more part than there are separators. */
  lemma {:induction false} SplitCount(s: string, sep: char)
    ensures |Split(s, sep)| == CountChar(s, sep) + 1
  {
    if s != [] {
      SplitCount(s[1..], sep);
    }
  }

  /** Python's `sep.join(parts)` for a one-character separator. */
  function Join(parts: seq<string>, sep: char): string {
    if |parts| == 0 then []
    else if |parts| == 1 then parts[0]
    else parts[0] + [sep] + Join(parts[1..], sep)
  }

  /** Joining the pieces of a split gives back the original string. */
  lemma {:induction false} SplitThenJoin(s: string, sep: char)
    ensures Join(Split(s, sep), sep) == s
  {
    if s != [] {
      var rest := Split(s[1..], sep);
      SplitThenJoin(s[1..], sep);
      if s[0] == sep {
        assert ([[]] + rest)[1..] == rest;
      } else if |rest| > 1 {
        assert ([[s[0]] + rest[0]] + rest[1..])[1..] == rest[1..];
      }
    }
  }

  lemma {:induction false} SplitNoSeparator(s: string, sep: char)
    requires sep !in s
    ensures Split(s, sep) == [s]
  {
    if s != [] {
      assert s == [s[0]] + s[1..];
      SplitNoSeparator(s[1..], sep);
    }
  }

  lemma {:induction false} SplitAtSeparator(a: string, b: string, sep: char)
    requires sep !in a
    ensures Split(a + [sep] + b, sep) == [a] + Split(b, sep)
  {
    if a == [] {
      assert ([] + [sep] + b)[1..] == b;
    } else {
      assert (a + [sep] + b)[1..] == a[1..] + [sep] + b;
      SplitAtSeparator(a[1..], b, sep);
      assert [a[0]] + a[1..] == a;
    }
  }

  /** Splitting a join of separator-free pieces gives back the pieces. */
  lemma {:induction false} JoinThenSplit(parts: seq<string>, sep: char)
    requires |parts| >= 1
    requires forall i :: 0 <= i < |parts| ==> sep !in parts[i]
    ensures Split(Join(parts, sep), sep) == parts
  {
    if |parts| == 1 {
      SplitNoSeparator(parts[0], sep);
    } else {
      JoinThenSplit(parts[1..], sep);
      SplitAtSeparator(parts[0], Join(parts[1..], sep), sep);
      assert [parts[0]] + parts[1..] == parts;
    }
  }

  function CountChar(s: string, c: char): (n: nat)
    ensures n <= |s|
    ensures n == 0 <==> c !in s
  {
    if s == [] then 0 else (if s[0] == c then 1 else 0) + CountChar(s[1..], c)
  }

  /** Index of the first occurrence of `c` in `s`, or `|s|` when there is none. */
  function IndexOf(s: string, c: char): (k: nat)
    ensures k <= |s|
    ensures c !in s[..k]
    ensures k < |s| ==> s[k] == c
  {
    if s == [] then 0 else if s[0] == c then 0 else 1 + IndexOf(s[1..], c)
  }

  function DigitValue(c: char): nat {
    if IsDigit(c) then c as int - '0' as int else 0
  }

  /** Value of a string of decimal digits, most significant first. */
  function DigitsValue(ds: string): nat {
    if ds == [] then 0 else DigitsValue(ds[..|ds| - 1]) * 10 + DigitValue(ds[|ds| - 1])
  }

  function DropUnderscores(s: string): (r: string)
    ensures '_' !in r
    ensures |r| <= |s|
  {
    if s == [] then [] else (if s[0] == '_' then [] else [s[0]]) + DropUnderscores(s[1..])
  }

  /** Digits with single underscores between them, the body Python's `int()` accepts. */
  predicate IsDigitGroups(b: string)
    decreases |b|
  {
    if |b| == 0 then false
    else if |b| == 1 then IsDigit(b[0])
    else IsDigit(b[0]) && (IsDigitGroups(b[1..]) || (b[1] == '_' && IsDigitGroups(b[2..])))
  }

  lemma {:induction false} DigitStringGroups(s: string)
    requires IsDigitString(s)
    ensures IsDigitGroups(s)
  {
    if |s| > 1 {
      assert IsDigitString(s[1..]) by {
        assert forall i :: 0 <= i < |s[1..]| ==> s[1..][i] == s[i + 1];
      }
      DigitStringGroups(s[1..]);
    }
  }

  /**
   * Python's `int(s)` in base 10: surrounding whitespace, an optional sign, and
   * digits with single underscores between them; anything else is a `ValueError`,
   * here `None`.
   */
  function ParseInt(s: string): (r: Option<int>)
    ensures r.Some? && r.value < 0 ==> '-' in s
  {
    var b := Strip(s);
    var signed := |b| > 0 && (b[0] == '+' || b[0] == '-');
    var body := if signed then b[1..] else b;
    if IsDigitGroups(body) then
      var v: int := DigitsValue(DropUnderscores(body));
      if signed && b[0] == '-' then
        assert s[LeadingSpace(s)] == b[0];
        Some(-v)
      else Some(v)
    else None
  }

  /** `int` reads a plain string of digits back as its value. */
  lemma ParseIntDigits(s: string)
    requires IsDigitString(s)
    ensures ParseInt(s) == Some(DigitsValue(s))
  {
    DigitStringUnchanged(s);
  }

  /** `int` accepts nothing that lacks a digit (the empty string, a bare sign, "ab"). */
  lemma ParseIntNeedsDigit(s: string)
    ensures ParseInt(s).Some? ==> HasDigit(s)
  {
    var b := Strip(s);
    var signed := |b| > 0 && (b[0] == '+' || b[0] == '-');
    var body := if signed then b[1..] else b;
    if IsDigitGroups(body) {
      var k := LeadingSpace(s) + (if signed then 1 else 0);
      assert s[k] == body[0];
      assert IsDigit(s[k]);
    }
  }

  /** A string of digits has no whitespace to strip, no sign and no underscore. */
  lemma DigitStringUnchanged(s: string)
    requires IsDigitString(s)
    ensures Strip(s) == s && DropUnderscores(s) == s && IsDigitGroups(s)
  {
    assert !IsSpace(s[0]);
    assert StripLeft(s) == s;
    assert !IsSpace(s[|s| - 1]);
    assert StripRight(s) == s;
    NoUnderscores(s);
    DigitStringGroups(s);
  }

  lemma {:induction false} NoUnderscores(s: string)
    requires forall i :: 0 <= i < |s| ==> IsDigit(s[i])
    ensures DropUnderscores(s) == s
  {
    if s != [] {
      NoUnderscores(s[1..]);
    }
  }

  /** The tokens the parser's regexes capture: `[+-]?[\d.]+`. */
  predicate IsNumericToken(tok: string) {
    var body := if |tok| > 0 && (tok[0] == '+' || tok[0] == '-') then tok[1..] else tok;
    |body| > 0 && forall i :: 0 <= i < |body| ==> IsNumChar(body[i])
  }

  /** Value of a decimal `ip.fp` (either side may be empty): integer part plus fraction. */
  function DecimalValue(ip: string, fp: string): (v: real)
    ensures DigitsValue(ip) as real <= v < DigitsValue(ip) as real + 1.0
  {
    DigitsValue(ip) as real + Fraction(fp)
  }

  /** Value of the digits after the point, `0.d1 d2 ...`, read from the right. */
  function Fraction(fp: string): (f: real)
    ensures 0.0 <= f < 1.0
  {
    if fp == [] then 0.0 else (DigitValue(fp[0]) as real + Fraction(fp[1..])) / 10.0
  }

  /** With no fractional digits the value is the integer part. */
  lemma DecimalWhole(ip: string)
    ensures DecimalValue(ip, []) == DigitsValue(ip) as real
  {
  }

  /**
   * Python's `float(tok)` on a token the parser's regexes capture: it succeeds when
   * the token has at most one dot and at least one digit ("12", "1.", ".5", "-3.25")
   * and raises `ValueError` otherwise ("1.2.3", "."), here `None`.
   */
  function ParseFloat(tok: string): (r: Option<real>)
    requires IsNumericToken(tok)
    ensures r.Some? && tok[0] != '-' ==> r.value >= 0.0
  {
    var signed := tok[0] == '+' || tok[0] == '-';
    var v := UnsignedFloat(if signed then tok[1..] else tok);
    if v.None? then None
    else Some(if signed && tok[0] == '-' then -v.value else v.value)
  }

  /** `float` on the unsigned part of a token: at most one dot and at least one digit. */
  function UnsignedFloat(body: string): (r: Option<real>)
    ensures r.Some? ==> r.value >= 0.0
  {
    if CountChar(body, '.') >= 2 || !HasDigit(body) then None
    else
      var k := IndexOf(body, '.');
      Some(DecimalValue(body[..k], if k < |body| then body[k + 1..] else []))
  }

  /** A string of digits is a token of the numeric pattern, with a digit, no sign and no dot. */
  lemma DigitStringToken(tok: string)
    requires IsDigitString(tok)
    ensures IsNumericToken(tok) && HasDigit(tok) && '.' !in tok
    ensures tok[0] != '+' && tok[0] != '-'
  {
    assert IsDigit(tok[0]);
    assert forall i :: 0 <= i < |tok| ==> IsNumChar(tok[i]) && tok[i] != '.';
  }

  /** `float` reads a plain string of digits back as its integer value. */
  lemma ParseFloatDigits(tok: string)
    requires IsDigitString(tok)
    ensures IsNumericToken(tok) && ParseFloat(tok) == Some(DigitsValue(tok) as real)
  {
    DigitStringToken(tok);
    var k := IndexOf(tok, '.');
    assert k == |tok|;
    assert tok[..k] == tok;
    assert CountChar(tok, '.') == 0;
    DecimalWhole(tok);
  }

  /** A minus sign in front of an unsigned token: `float` reads "-x" as the negation of "x". */
  lemma ParseFloatMinus(body: string)
    requires IsNumericToken(body) && body[0] != '+' && body[0] != '-'
    ensures IsNumericToken("-" + body)
    ensures ParseFloat("-" + body) == if ParseFloat(body).Some? then Some(-ParseFloat(body).value) else None
  {
    assert ("-" + body)[1..] == body;
  }

  /** A plus sign in front of an unsigned token changes nothing: `float("+x") == float("x")`. */
  lemma ParseFloatPlus(body: string)
    requires IsNumericToken(body) && body[0] != '+' && body[0] != '-'
    ensures IsNumericToken("+" + body)
    ensures ParseFloat("+" + body) == ParseFloat(body)
  {
    assert ("+" + body)[1..] == body;
  }

  /** `float` reads a negative decimal "-ip.fp" back as the negated value of "ip.fp". */
  lemma ParseFloatNegative(ip: string, fp: string)
    requires forall i :: 0 <= i < |ip| ==> IsDigit(ip[i])
    requires forall i :: 0 <= i < |fp| ==> IsDigit(fp[i])
    requires |ip| + |fp| >= 1
    ensures IsNumericToken("-" + (ip + "." + fp))
    ensures ParseFloat("-" + (ip + "." + fp)).Some?
    ensures ParseFloat("-" + (ip + "." + fp)).value == -DecimalValue(ip, fp)
  {
    var body := ip + "." + fp;
    ParseFloatDecimal(ip, fp);
    assert body[0] != '+' && body[0] != '-' by {
      if |ip| > 0 { assert body[0] == ip[0]; } else { assert body[0] == '.'; }
    }
    NegatedToken(body, DecimalValue(ip, fp));
  }

  lemma NegatedToken(body: string, v: real)
    requires IsNumericToken(body) && body[0] != '+' && body[0] != '-'
    requires ParseFloat(body) == Some(v)
    ensures IsNumericToken("-" + body)
    ensures ParseFloat("-" + body).Some? && ParseFloat("-" + body).value == -v
  {
    ParseFloatMinus(body);
  }

  lemma {:induction false} CountCharAppend(a: string, b: string, c: char)
    ensures CountChar(a + b, c) == CountChar(a, c) + CountChar(b, c)
  {
    if a == [] {
      assert a + b == b;
    } else {
      assert (a + b)[0] == a[0] && (a + b)[1..] == a[1..] + b;
      CountCharAppend(a[1..], b, c);
    }
  }

  /**
   * `float` reads an unsigned decimal `ip.fp` back as its value: the converse of
   * writing a number with one decimal point.
   */
  lemma ParseFloatDecimal(ip: string, fp: string)
    requires forall i :: 0 <= i < |ip| ==> IsDigit(ip[i])
    requires forall i :: 0 <= i < |fp| ==> IsDigit(fp[i])
    requires |ip| + |fp| >= 1
    ensures IsNumericToken(ip + "." + fp)
    ensures ParseFloat(ip + "." + fp) == Some(DecimalValue(ip, fp))
  {
    var tok := ip + "." + fp;
    assert '.' !in ip && '.' !in fp;
    assert forall i :: 0 <= i < |tok| ==> IsNumChar(tok[i]) by {
      forall i | 0 <= i < |tok| ensures IsNumChar(tok[i]) {
        if i < |ip| { assert tok[i] == ip[i]; }
        else if i > |ip| { assert tok[i] == fp[i - |ip| - 1]; }
      }
    }
    CountCharAppend(ip, ".", '.');
    CountCharAppend(ip + ".", fp, '.');
    if |ip| > 0 {
      assert tok[0] == ip[0];
    } else {
      assert tok[1] == fp[0];
    }
    IndexAfterPrefix(ip, fp);
    assert tok[..|ip|] == ip;
    assert tok[|ip| + 1..] == fp;
  }

  lemma {:induction false} IndexAfterPrefix(ip: string, fp: string)
    requires '.' !in ip
    ensures IndexOf(ip + "." + fp, '.') == |ip|
  {
    if ip != [] {
      assert (ip + "." + fp)[1..] == ip[1..] + "." + fp;
      IndexAfterPrefix(ip[1..], fp);
    }
  }

  /** A character absent from `s` is absent from every piece of its split. */
  lemma {:induction false} SplitAvoids(s: string, sep: char, c: char)
    ensures c !in s ==> forall i :: 0 <= i < |Split(s, sep)| ==> c !in Split(s, sep)[i]
  {
    if s != [] && c !in s {
      assert c != s[0] && c !in s[1..];
      SplitAvoids(s[1..], sep, c);
    }
  }

  /** A character absent from `s` is absent from `s.strip()`. */
  lemma StripAvoids(s: string, c: char)
    requires c !in s
    ensures c !in Strip(s)
  {
  }

  /** A character absent from every part, and other than the separator, is absent from the join. */
  lemma {:induction false} JoinAvoids(parts: seq<string>, sep: char, c: char)
    requires c != sep
    requires forall i :: 0 <= i < |parts| ==> c !in parts[i]
    ensures c !in Join(parts, sep)
  {
    if |parts| > 1 {
      JoinAvoids(parts[1..], sep, c);
    }
  }

  /**
   * `float` accepts a token exactly when it has at most one dot and at least one
   * digit; the sign in front plays no part.
   */
  lemma ParseFloatAccepts(tok: string)
    requires IsNumericToken(tok)
    ensures ParseFloat(tok).Some? <==> CountChar(tok, '.') <= 1 && HasDigit(tok)
  {
    if tok[0] == '+' || tok[0] == '-' {
      var body := tok[1..];
      assert tok == [tok[0]] + body;
      CountCharAppend([tok[0]], body, '.');
      assert HasDigit(tok) ==> HasDigit(body) by {
        if HasDigit(tok) {
          var i :| 0 <= i < |tok| && IsDigit(tok[i]);
          assert i > 0 && body[i - 1] == tok[i];
        }
      }
      assert HasDigit(body) ==> HasDigit(tok) by {
        if HasDigit(body) {
          var i :| 0 <= i < |body| && IsDigit(body[i]);
          assert tok[i + 1] == body[i];
        }
      }
    }
  }

  /** `float` rejects every token with two dots or more, or without a digit. */
  lemma ParseFloatRejects(tok: string)
    requires IsNumericToken(tok)
    requires CountChar(tok, '.') >= 2 || !HasDigit(tok)
    ensures ParseFloat(tok) == None
  {
    ParseFloatAccepts(tok);
  }

  /** `float` rejects a token with two dots: "1.2.3". */
  lemma ParseFloatTwoDots()
    ensures IsNumericToken("1.2.3") && ParseFloat("1.2.3") == None
  {
    var t := "1.2.3";
    assert forall i :: 0 <= i < |t| ==> IsNumChar(t[i]);
    assert t == "1." + "2.3";
    CountCharAppend("1.", "2.3", '.');
    assert CountChar("1.", '.') >= 1 by {
      assert "1."[1] == '.';
    }
    assert CountChar("2.3", '.') >= 1 by {
      assert "2.3"[1] == '.';
    }
    ParseFloatRejects(t);
  }

  /** `float` rejects a token without a digit: "." and "-.". */
  lemma ParseFloatNoDigit()
    ensures IsNumericToken(".") && ParseFloat(".") == None
    ensures IsNumericToken("-.") && ParseFloat("-.") == None
  {
    var dot, neg := ".", "-.";
    assert dot[0] == '.' && |dot| == 1 && IsNumChar(dot[0]);
    assert neg[0] == '-' && neg[1..] == dot;
    assert !HasDigit(neg) by {
      assert forall i :: 0 <= i < |neg| ==> !IsDigit(neg[i]);
    }
    ParseFloatRejects(dot);
    ParseFloatRejects(neg);
  }
}

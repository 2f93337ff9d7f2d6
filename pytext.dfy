/** The Python 2 `str` built-ins thyme relies on, restricted to what thyme uses:
    `isspace`, `strip`, `split()`, `split(sep)`, `lower`, `title`, `int()`, `float()`,
    sequence indexing and slicing. Case conversion is ASCII only. */
module PyText {
  import opened Outcomes

  // ---------------------------------------------------------------------------
  // Whitespace, stripping and splitting
  // ---------------------------------------------------------------------------

  /** `isspace` of a Python 2 byte string, in the C locale: space, tab, line feed,
      vertical tab, form feed and carriage return. `strip()`, `split()`, `int()`,
      `float()` and the regular-expression class `\s` use the same set. */
  predicate IsSpace(c: char) {
    var n := c as int;
    n == 0x20 || 0x09 <= n <= 0x0D
  }

  predicate AllSpace(s: string) {
    forall i :: 0 <= i < |s| ==> IsSpace(s[i])
  }

  predicate NoSpace(s: string) {
    forall i :: 0 <= i < |s| ==> !IsSpace(s[i])
  }

  /** `s.lstrip()`: the suffix of `s` after its leading whitespace. */
  function LStrip(s: string): (r: string)
    ensures |r| <= |s| && r == s[|s| - |r|..]
    ensures AllSpace(s[..|s| - |r|])
    ensures r == [] || !IsSpace(r[0])
  {
    if s != [] && IsSpace(s[0]) then
      var t := s[1..];
      var r := LStrip(t);
      var n := |s| - |r|;
      assert r == s[n..] by {
        assert t[|t| - |r|..] == s[n..];
      }
      assert AllSpace(s[..n]) by {
        forall i | 0 <= i < n ensures IsSpace(s[..n][i]) {
          if i > 0 {
            assert s[..n][i] == t[..|t| - |r|][i - 1];
          }
        }
      }
      r
    else s
  }

  /** `s.rstrip()`: the prefix of `s` before its trailing whitespace. */
  function RStrip(s: string): (r: string)
    ensures |r| <= |s| && r == s[..|r|]
    ensures AllSpace(s[|r|..])
    ensures r == [] || !IsSpace(r[|r| - 1])
  {
    if s != [] && IsSpace(s[|s| - 1]) then
      var t := s[..|s| - 1];
      var r := RStrip(t);
      assert r == s[..|r|];
      assert forall i :: |r| <= i < |s| - 1 ==> s[i] == t[|r|..][i - |r|];
      r
    else s
  }

  /** A text that neither starts nor ends with whitespace. */
  predicate Unpadded(x: string) {
    x == [] || (!IsSpace(x[0]) && !IsSpace(x[|x| - 1]))
  }

  /** `s.strip()`. */
  function Strip(s: string): string {
    RStrip(LStrip(s))
  }

  /** A stripped text is never longer than the text and neither starts nor ends with
      whitespace; a text without padding is its own strip. */
  lemma StripUnpadded(s: string)
    ensures |Strip(s)| <= |s| && Unpadded(Strip(s))
    ensures Unpadded(s) ==> Strip(s) == s
  {
    if Unpadded(s) {
      StripPadded("", s, "");
      assert "" + s + "" == s;
    }
  }

  /** Stripping removes exactly the whitespace padding around a text that neither
      starts nor ends with whitespace. */
  lemma StripPadded(left: string, x: string, right: string)
    requires AllSpace(left) && AllSpace(right) && Unpadded(x)
    ensures Strip(left + x + right) == x
  {
    if x == [] {
      assert left + x + right == left + right;
      LStripAllSpace(left + right);
    } else {
      assert left + x + right == left + (x + right);
      LStripPadded(left, x + right);
      RStripPadded(x, right);
    }
  }

  lemma {:induction false} LStripAllSpace(s: string)
    requires AllSpace(s)
    ensures LStrip(s) == []
  {
    if s != [] {
      LStripAllSpace(s[1..]);
    }
  }

  lemma {:induction false} LStripPadded(left: string, x: string)
    requires AllSpace(left)
    requires x == [] || !IsSpace(x[0])
    ensures LStrip(left + x) == x
  {
    if left != [] {
      assert (left + x)[1..] == left[1..] + x;
      LStripPadded(left[1..], x);
    } else {
      assert left + x == x;
    }
  }

  lemma {:induction false} RStripPadded(x: string, right: string)
    requires AllSpace(right)
    requires x == [] || !IsSpace(x[|x| - 1])
    ensures RStrip(x + right) == x
  {
    if right != [] {
      assert (x + right)[..|x + right| - 1] == x + right[..|right| - 1];
      RStripPadded(x, right[..|right| - 1]);
    } else {
      assert x + right == x;
    }
  }

  /** Stripping a text without any whitespace leaves it as it is. */
  lemma StripNoSpace(s: string)
    requires NoSpace(s)
    ensures Strip(s) == s
  {
  }

  /** Length of the leading run of non-whitespace characters. */
  function TokenEnd(s: string): (n: nat)
    ensures n <= |s| && NoSpace(s[..n])
    ensures n < |s| ==> IsSpace(s[n])
  {
    if s == [] || IsSpace(s[0]) then 0 else 1 + TokenEnd(s[1..])
  }

  /** `s.split()` with no separator: the maximal runs of non-whitespace, in order. */
  function Split(s: string): (r: seq<string>)
    ensures forall i :: 0 <= i < |r| ==> r[i] != [] && NoSpace(r[i])
    decreases |s|
  {
    var t := LStrip(s);
    if t == [] then []
    else
      var n := TokenEnd(t);
      assert !IsSpace(t[0]) && n >= 1;
      var rest := Split(t[n..]);
      assert forall i :: 0 < i <= |rest| ==> ([t[..n]] + rest)[i] == rest[i - 1];
      [t[..n]] + rest
  }

  /** `" ".join(ws)`. */
  function JoinSpaces(ws: seq<string>): string {
    if |ws| == 0 then ""
    else if |ws| == 1 then ws[0]
    else ws[0] + (" " + JoinSpaces(ws[1..]))
  }

  /** Splitting undoes joining with single spaces, for tokens that are non-empty and
      hold no whitespace: `split()` is the inverse of `" ".join`. */
  lemma {:induction false} SplitJoin(ws: seq<string>)
    requires forall i :: 0 <= i < |ws| ==> IsToken(ws[i])
    ensures Split(JoinSpaces(ws)) == ws
  {
    if |ws| == 1 {
      assert IsToken(ws[0]);
      SplitToken(ws[0], []);
      assert ws[0] + [] == ws[0];
    } else if |ws| > 1 {
      var w, rest := ws[0], ws[1..];
      assert ws == [w] + rest;
      assert IsToken(w);
      assert forall i :: 0 <= i < |rest| ==> IsToken(rest[i]) by {
        forall i | 0 <= i < |rest| ensures IsToken(rest[i]) {
          assert rest[i] == ws[i + 1];
        }
      }
      SplitJoinStep(w, rest);
      SplitJoin(rest);
    }
  }

  lemma SplitJoinStep(w: string, rest: seq<string>)
    requires IsToken(w) && |rest| > 0
    ensures JoinSpaces([w] + rest) == w + (" " + JoinSpaces(rest))
    ensures Split(JoinSpaces([w] + rest)) == [w] + Split(JoinSpaces(rest))
  {
    var tail := JoinSpaces(rest);
    var ws := [w] + rest;
    assert |ws| > 1 && ws[0] == w && ws[1..] == rest;
    assert JoinSpaces(ws) == w + (" " + tail);
    assert (" " + tail)[0] == ' ';
    SplitToken(w, " " + tail);
    SplitLeadingSpace(tail);
  }

  /** A word `split()` keeps whole: non-empty and without whitespace. */
  predicate IsToken(w: string) {
    w != [] && NoSpace(w)
  }

  /** A leading space does not change how a text splits. */
  lemma SplitLeadingSpace(t: string)
    ensures Split(" " + t) == Split(t)
  {
    assert (" " + t)[1..] == t;
    assert LStrip(" " + t) == LStrip(t);
  }

  /** A text that starts with a whole token splits into that token and the split of
      what follows it. */
  lemma SplitToken(w: string, rest: string)
    requires w != [] && NoSpace(w)
    requires rest == [] || IsSpace(rest[0])
    ensures Split(w + rest) == [w] + Split(rest)
  {
    LStripPadded([], w + rest);
    assert [] + (w + rest) == w + rest;
    TokenEndOf(w, rest);
    assert (w + rest)[..|w|] == w;
    assert (w + rest)[|w|..] == rest;
  }

  lemma {:induction false} TokenEndOf(w: string, rest: string)
    requires NoSpace(w)
    requires rest == [] || IsSpace(rest[0])
    ensures TokenEnd(w + rest) == |w|
  {
    if w != [] {
      assert (w + rest)[1..] == w[1..] + rest;
      TokenEndOf(w[1..], rest);
    } else {
      assert w + rest == rest;
    }
  }

  /** Position of the first `sep` in `s`, or `|s|` when there is none. */
  function IndexOf(s: string, sep: char): (i: nat)
    ensures i <= |s| && (i < |s| ==> s[i] == sep)
    ensures forall j :: 0 <= j < i ==> s[j] != sep
  {
    if s == [] || s[0] == sep then 0 else 1 + IndexOf(s[1..], sep)
  }

  /** `s.split(sep)` for a one-character separator: empty pieces are kept, and the
      result always has at least one piece. */
  function SplitOn(s: string, sep: char): (r: seq<string>)
    ensures |r| >= 1
    ensures forall k, j :: 0 <= k < |r| && 0 <= j < |r[k]| ==> r[k][j] != sep
    decreases |s|
  {
    var i := IndexOf(s, sep);
    if i == |s| then [s] else [s[..i]] + SplitOn(s[i + 1..], sep)
  }

  /** `sep.join(ps)`. */
  function JoinOn(ps: seq<string>, sep: char): string
    requires |ps| >= 1
  {
    if |ps| == 1 then ps[0] else ps[0] + [sep] + JoinOn(ps[1..], sep)
  }

  /** Joining the pieces back with the separator gives the original text. */
  lemma {:induction false} SplitOnJoin(s: string, sep: char)
    ensures JoinOn(SplitOn(s, sep), sep) == s
    decreases |s|
  {
    var i := IndexOf(s, sep);
    var ps := SplitOn(s, sep);
    if i < |s| {
      var rest := SplitOn(s[i + 1..], sep);
      SplitOnJoin(s[i + 1..], sep);
      assert ps == [s[..i]] + rest;
      assert |ps| >= 2 && ps[0] == s[..i] && ps[1..] == rest;
      assert JoinOn(ps, sep) == s[..i] + [sep] + JoinOn(rest, sep);
      assert s == s[..i] + [sep] + s[i + 1..];
    } else {
      assert ps == [s];
    }
  }

  predicate Lacks(w: string, sep: char) {
    forall j :: 0 <= j < |w| ==> w[j] != sep
  }

  /** The other direction: pieces that do not contain the separator, joined with it,
      split back into exactly those pieces. */
  lemma {:induction false} JoinOnSplit(ps: seq<string>, sep: char)
    requires |ps| >= 1 && forall k :: 0 <= k < |ps| ==> Lacks(ps[k], sep)
    ensures SplitOn(JoinOn(ps, sep), sep) == ps
    decreases |ps|
  {
    if |ps| == 1 {
      SplitOnPiece(ps[0], [], sep);
    } else {
      var rest := ps[1..];
      assert forall k :: 0 <= k < |rest| ==> rest[k] == ps[k + 1];
      JoinOnSplit(rest, sep);
      assert ps == [ps[0]] + rest;
      JoinOnSplitStep(ps[0], rest, sep);
    }
  }

  lemma JoinOnSplitStep(w: string, rest: seq<string>, sep: char)
    requires Lacks(w, sep) && |rest| >= 1 && SplitOn(JoinOn(rest, sep), sep) == rest
    ensures SplitOn(JoinOn([w] + rest, sep), sep) == [w] + rest
  {
    var ps := [w] + rest;
    assert ps[0] == w && ps[1..] == rest;
    JoinOnCons(ps, sep);
    SplitOnPiece(w, JoinOn(rest, sep), sep);
  }

  lemma JoinOnCons(ps: seq<string>, sep: char)
    requires |ps| >= 2
    ensures JoinOn(ps, sep) == ps[0] + ([sep] + JoinOn(ps[1..], sep))
  {
  }

  /** A text without the separator splits into itself; a separator after such a text
      starts the next piece. */
  lemma SplitOnPiece(w: string, rest: string, sep: char)
    requires Lacks(w, sep)
    ensures SplitOn(w + ([sep] + rest), sep) == [w] + SplitOn(rest, sep)
    ensures SplitOn(w, sep) == [w]
  {
    var s := w + ([sep] + rest);
    assert IndexOf(s, sep) == |w| by {
      IndexOfPiece(w, [sep] + rest, sep);
    }
    assert s[..|w|] == w && s[|w| + 1..] == rest;
    IndexOfPiece(w, "", sep);
    assert w + "" == w;
  }

  lemma {:induction false} IndexOfPiece(w: string, tail: string, sep: char)
    requires Lacks(w, sep)
    requires tail == [] || tail[0] == sep
    ensures IndexOf(w + tail, sep) == |w|
  {
    if w != [] {
      assert (w + tail)[1..] == w[1..] + tail;
      IndexOfPiece(w[1..], tail, sep);
    } else {
      assert w + tail == tail;
    }
  }

  // ---------------------------------------------------------------------------
  // Case conversion (ASCII letters only)
  // ---------------------------------------------------------------------------

  predicate IsUpper(c: char) { 'A' <= c <= 'Z' }
  predicate IsLower(c: char) { 'a' <= c <= 'z' }
  predicate IsLetter(c: char) { IsUpper(c) || IsLower(c) }

  function LowerChar(c: char): char {
    if IsUpper(c) then (c as int + 32) as char else c
  }

  function UpperChar(c: char): char {
    if IsLower(c) then (c as int - 32) as char else c
  }

  /** `s.lower()`. */
  function Lower(s: string): (r: string)
    ensures |r| == |s|
    ensures forall i :: 0 <= i < |s| ==> r[i] == LowerChar(s[i])
  {
    if s == [] then [] else [LowerChar(s[0])] + Lower(s[1..])
  }

  /** `s.title()`: a letter is upper-cased when the character before it is not a
      letter and lower-cased when it is; other characters are kept. `afterLetter`
      says whether the character before `s` was a letter. */
  function TitleFrom(s: string, afterLetter: bool): (r: string)
    ensures |r| == |s|
  {
    if s == [] then []
    else
      var c := s[0];
      [if !IsLetter(c) then c else if afterLetter then LowerChar(c) else UpperChar(c)]
        + TitleFrom(s[1..], IsLetter(c))
  }

  function Title(s: string): string {
    TitleFrom(s, false)
  }

  predicate IsLowerWord(w: string) {
    forall i :: 0 <= i < |w| ==> IsLower(w[i])
  }

  /** A capitalised word such as "Transfer": one upper-case letter, then lower-case ones. */
  predicate IsTitleWord(w: string) {
    |w| >= 1 && IsUpper(w[0]) && IsLowerWord(w[1..])
  }

  /** `s.title()` equals a capitalised word exactly when `s` spells that word in any
      mixture of cases. */
  lemma TitleEqualsWord(s: string, w: string)
    requires IsTitleWord(w)
    ensures Title(s) == w <==> Lower(s) == Lower(w)
  {
    var lw := Lower(w);
    LowerOfTitleWord(w);
    if s == [] {
      assert |Lower(s)| == 0 && |Title(s)| == 0;
    } else {
      var c := s[0];
      assert Lower(s) == [LowerChar(c)] + Lower(s[1..]);
      if IsLetter(c) {
        assert Title(s) == [UpperChar(c)] + TitleFrom(s[1..], true);
        TitleFromLowerWord(s[1..], w[1..]);
        CaseOfLetter(c, w[0]);
        ConsEquals(UpperChar(c), TitleFrom(s[1..], true), w[0], w[1..]);
        ConsEquals(LowerChar(c), Lower(s[1..]), LowerChar(w[0]), w[1..]);
      } else {
        assert Title(s)[0] == c && Lower(s)[0] == c;
        assert lw[0] == LowerChar(w[0]) && IsLower(lw[0]);
      }
    }
  }

  lemma CaseOfLetter(c: char, u: char)
    requires IsLetter(c) && IsUpper(u)
    ensures UpperChar(c) == u <==> LowerChar(c) == LowerChar(u)
  {
  }

  lemma ConsEquals(a: char, x: string, b: char, y: string)
    ensures [a] + x == [b] + y <==> a == b && x == y
  {
    if [a] + x == [b] + y {
      assert ([a] + x)[0] == a && ([b] + y)[0] == b;
      assert ([a] + x)[1..] == x && ([b] + y)[1..] == y;
    }
  }

  lemma LowerOfTitleWord(w: string)
    requires IsTitleWord(w)
    ensures Lower(w) == [LowerChar(w[0])] + w[1..]
  {
    LowerOfLowerWord(w[1..]);
    assert w == [w[0]] + w[1..];
  }

  lemma LowerOfLowerWord(w: string)
    requires IsLowerWord(w)
    ensures Lower(w) == w
  {
  }

  lemma {:induction false} TitleFromLowerWord(s: string, w: string)
    requires IsLowerWord(w)
    ensures TitleFrom(s, true) == w <==> Lower(s) == w
  {
    if s != [] && w != [] {
      var c := s[0];
      assert TitleFrom(s, true) == [if !IsLetter(c) then c else LowerChar(c)] + TitleFrom(s[1..], IsLetter(c));
      assert Lower(s) == [LowerChar(c)] + Lower(s[1..]);
      assert w == [w[0]] + w[1..];
      if IsLetter(c) {
        TitleFromLowerWord(s[1..], w[1..]);
      } else {
        assert TitleFrom(s, true)[0] == c && Lower(s)[0] == c;
        assert IsLower(w[0]);
      }
    } else if s != [] {
      assert |TitleFrom(s, true)| == |s|;
    }
  }

  // ---------------------------------------------------------------------------
  // Numbers: int() and float() over ASCII digits
  // ---------------------------------------------------------------------------

  predicate IsDigit(c: char) { '0' <= c <= '9' }

  predicate AllDigits(s: string) {
    forall i :: 0 <= i < |s| ==> IsDigit(s[i])
  }

  function DigitValue(c: char): int { c as int - '0' as int }

  /** The value of a run of decimal digits, most significant first. */
  function DigitsValue(s: string): (v: nat)
    requires AllDigits(s)
  {
    if s == [] then 0 else DigitsValue(s[..|s| - 1]) * 10 + DigitValue(s[|s| - 1])
  }

  /** Splits an optional leading sign off `s`: whether it was `-`, and the rest. */
  function SignOf(s: string): (bool, string) {
    if s != [] && (s[0] == '+' || s[0] == '-') then (s[0] == '-', s[1..]) else (false, s)
  }

  /** `int(s)` for a base-10 literal, as Python 2 reads it: optional surrounding
      whitespace, an optional sign, optional whitespace after the sign, then one or more
      digits; anything else is a `ValueError`, here `None`. */
  function ParseInt(s: string): Option<int> {
    var signed := SignOf(Strip(s));
    SignedDigits(signed.0, LStrip(signed.1))
  }

  /** The value of a sign and a run of one or more digits; `None` for any other body. */
  function SignedDigits(negative: bool, body: string): Option<int> {
    if body != [] && AllDigits(body) then
      var v: int := DigitsValue(body);
      Some(if negative then -v else v)
    else None
  }

  /** `int()` of a plain run of digits is the number they spell. */
  lemma IntOfDigits(s: string)
    requires s != [] && AllDigits(s)
    ensures ParseInt(s) == Some(DigitsValue(s))
  {
    StripNoSpace(s);
    assert SignOf(s) == (false, s);
    LStripPadded("", s);
    assert "" + s == s;
  }

  /** A sign may be followed by whitespace before the digits: `int("- 42") == -42`. */
  lemma IntAfterSign(negative: bool, gap: string, digits: string)
    requires AllSpace(gap) && digits != [] && AllDigits(digits)
    ensures var v: int := DigitsValue(digits);
      ParseInt((if negative then "-" else "+") + gap + digits) == Some(if negative then -v else v)
  {
    var c := if negative then '-' else '+';
    var rest := gap + digits;
    assert (if negative then "-" else "+") + gap + digits == [c] + rest;
    assert IsDigit(digits[|digits| - 1]);
    assert rest[|rest| - 1] == digits[|digits| - 1];
    StripSigned(c, rest);
    LStripPadded(gap, digits);
    ParseIntOfSigned([c] + rest, negative, rest, digits);
  }

  lemma StripSigned(c: char, rest: string)
    requires (c == '-' || c == '+') && rest != [] && !IsSpace(rest[|rest| - 1])
    ensures SignOf(Strip([c] + rest)) == (c == '-', rest)
  {
    var t := [c] + rest;
    assert t[0] == c && t[1..] == rest && t[|t| - 1] == rest[|rest| - 1];
    StripPadded("", t, "");
    assert "" + t + "" == t;
  }

  lemma ParseIntOfSigned(t: string, negative: bool, rest: string, digits: string)
    requires SignOf(Strip(t)) == (negative, rest)
    requires LStrip(rest) == digits && digits != [] && AllDigits(digits)
    ensures var v: int := DigitsValue(digits);
      ParseInt(t) == Some(if negative then -v else v)
  {
    assert ParseInt(t) == SignedDigits(negative, digits);
    SignedDigitsValue(negative, digits);
  }

  lemma SignedDigitsValue(negative: bool, digits: string)
    requires digits != [] && AllDigits(digits)
    ensures var v: int := DigitsValue(digits);
      SignedDigits(negative, digits) == Some(if negative then -v else v)
  {
  }

  function LeadingDigits(s: string): (n: nat)
    ensures n <= |s| && AllDigits(s[..n])
    ensures n < |s| ==> !IsDigit(s[n])
  {
    if s == [] || !IsDigit(s[0]) then 0 else 1 + LeadingDigits(s[1..])
  }

  function Pow10(n: nat): (r: real)
    ensures r >= 1.0
  {
    if n == 0 then 1.0 else 10.0 * Pow10(n - 1)
  }

  /** A decimal mantissa: digits, optionally a point and more digits, at least one
      digit in all. */
  function ParseMantissa(s: string): Option<real> {
    var i := LeadingDigits(s);
    if i == |s| then
      if i > 0 then Some(DigitsValue(s) as real) else None
    else if s[i] != '.' then None
    else
      var frac := s[i + 1..];
      if AllDigits(frac) && (i > 0 || frac != []) then
        Some(DigitsValue(s[..i]) as real + DigitsValue(frac) as real / Pow10(|frac|))
      else None
  }

  /** Position of the first exponent marker `e` or `E`, or `|s|`. */
  function ExponentAt(s: string): (i: nat)
    ensures i <= |s| && (i < |s| ==> s[i] == 'e' || s[i] == 'E')
  {
    if s == [] || s[0] == 'e' || s[0] == 'E' then 0 else 1 + ExponentAt(s[1..])
  }

  function ParseExponent(s: string): Option<int> {
    var signed := SignOf(s);
    if signed.1 != [] && AllDigits(signed.1) then
      var v: int := DigitsValue(signed.1);
      Some(if signed.0 then -v else v)
    else None
  }

  function Scale(x: real, e: int): real {
    if e >= 0 then x * Pow10(e) else x / Pow10(-e)
  }

  /** `float(s)` for finite decimal literals, as an exact rational: optional
      surrounding whitespace, an optional sign, a mantissa and an optional exponent.
      Anything else is a `ValueError`, here `None`. */
  function ParseFloat(s: string): Option<real> {
    var signed := SignOf(Strip(s));
    var body := signed.1;
    var k := ExponentAt(body);
    var mantissa := ParseMantissa(body[..k]);
    var exponent := if k == |body| then Some(0) else ParseExponent(body[k + 1..]);
    if mantissa.None? || exponent.None? then None
    else
      Some(Signed(signed.0, Scale(mantissa.value, exponent.value)))
  }

  /** A text that has no digit at all is never accepted by `float()`. */
  lemma {:induction false} FloatNeedsDigit(s: string)
    requires forall i :: 0 <= i < |s| ==> !IsDigit(s[i])
    ensures ParseFloat(s) == None
  {
    var t := Strip(s);
    var signed := SignOf(t);
    var body := signed.1;
    var k := ExponentAt(body);
    NoDigitsIn(s, t);
    assert forall i :: 0 <= i < |body| ==> !IsDigit(body[i]);
    var m := body[..k];
    assert forall i :: 0 <= i < |m| ==> !IsDigit(m[i]);
    MantissaNeedsDigit(m);
  }

  lemma MantissaNeedsDigit(m: string)
    requires forall i :: 0 <= i < |m| ==> !IsDigit(m[i])
    ensures ParseMantissa(m) == None
  {
    assert LeadingDigits(m) == 0;
    if |m| > 0 && m[0] == '.' {
      assert m[1..] != [] ==> !IsDigit(m[1..][0]);
    }
  }

  lemma NoDigitsIn(s: string, t: string)
    requires forall i :: 0 <= i < |s| ==> !IsDigit(s[i])
    requires t == Strip(s)
    ensures forall i :: 0 <= i < |t| ==> !IsDigit(t[i])
  {
    var l := LStrip(s);
    var a := |s| - |l|;
    assert l == s[a..];
    assert t == RStrip(l) && t == l[..|t|];
    forall i | 0 <= i < |t|
      ensures !IsDigit(t[i])
    {
      assert t[i] == l[i] == s[a + i];
    }
  }

  function DigitChar(n: int): char
    requires 0 <= n <= 9
  {
    ('0' as int + n) as char
  }

  /** `n` as exactly two digits, with a leading zero below 10. */
  function Pad2(n: int): string
    requires 0 <= n <= 99
  {
    [DigitChar(n / 10), DigitChar(n % 10)]
  }

  lemma Pad2Value(n: int)
    requires 0 <= n <= 99
    ensures |Pad2(n)| == 2 && AllDigits(Pad2(n)) && DigitsValue(Pad2(n)) == n
  {
    var s := Pad2(n);
    assert DigitValue(s[0]) == n / 10 && DigitValue(s[1]) == n % 10;
    assert s[..|s| - 1] == [s[0]] && [s[0]][..0] == [];
    assert DigitsValue([s[0]]) == n / 10;
    assert DigitsValue(s) == DigitsValue(s[..|s| - 1]) * 10 + DigitValue(s[1]);
  }

  /** The decimal digits of `n`, without leading zeros. */
  function NatDigits(n: nat): (s: string)
    ensures s != [] && AllDigits(s)
  {
    if n < 10 then [DigitChar(n)]
    else NatDigits(n / 10) + [DigitChar(n % 10)]
  }

  lemma {:induction false} NatDigitsValue(n: nat)
    ensures DigitsValue(NatDigits(n)) == n
  {
    var s := NatDigits(n);
    if n < 10 {
      assert s[..|s| - 1] == [];
    } else {
      NatDigitsValue(n / 10);
      assert s[..|s| - 1] == NatDigits(n / 10);
    }
  }

  /** An amount of `c` hundredths written the way statements write money: an optional
      minus sign, the whole units, a point and exactly two decimals ("-4.50"). */
  function FormatCents(c: int): string {
    SignText(c < 0) + CentsBody(Magnitude(c))
  }

  /** `m` hundredths without a sign: "4.50" for 450. */
  function CentsBody(m: nat): string {
    NatDigits(m / 100) + ("." + Pad2(m % 100))
  }

  lemma CentsBodyShape(m: nat)
    ensures var b := CentsBody(m); b != [] && IsDigit(b[0]) && DecimalChars(b)
  {
    var b := CentsBody(m);
    var units := NatDigits(m / 100);
    assert b[0] == units[0];
    forall i | 0 <= i < |b| ensures b[i] == '.' || IsDigit(b[i]) {
      if i < |units| {
        assert b[i] == units[i];
      }
    }
  }

  lemma MantissaOfCentsBody(m: nat)
    ensures ParseMantissa(CentsBody(m)) == Some(m as real / 100.0)
  {
    var q, r := m / 100, m % 100;
    var units := NatDigits(q);
    var frac := Pad2(r);
    var body := units + ("." + frac);
    assert body == CentsBody(m);
    LeadingDigitsOf(units, "." + frac);
    assert body[|units|] == '.';
    assert body[|units| + 1..] == frac;
    assert body[..|units|] == units;
    NatDigitsValue(q);
    Pad2Value(r);
    assert Pow10(2) == 100.0;
    assert ParseMantissa(body) == Some(q as real + r as real / 100.0);
    assert (q * 100 + r) as real == q as real * 100.0 + r as real;
  }

  lemma {:induction false} LeadingDigitsOf(w: string, rest: string)
    requires AllDigits(w)
    requires rest == [] || !IsDigit(rest[0])
    ensures LeadingDigits(w + rest) == |w|
  {
    if w != [] {
      assert (w + rest)[1..] == w[1..] + rest;
      LeadingDigitsOf(w[1..], rest);
    } else {
      assert w + rest == rest;
    }
  }

  /** `float()` reads a money amount written by `FormatCents` back as exactly that many
      hundredths. */
  lemma FloatOfCents(c: int)
    ensures ParseFloat(FormatCents(c)) == Some(CentsValue(c))
  {
    FloatOfSignedBody(c < 0, Magnitude(c));
    SignedMagnitude(c);
  }

  /** The amount `c` hundredths stand for. */
  function CentsValue(c: int): real {
    c as real / 100.0
  }

  /** The minus sign a negative amount is written with. */
  function SignText(negative: bool): string {
    if negative then "-" else ""
  }

  /** `v` with the sign `negative` says. */
  function Signed(negative: bool, v: real): real {
    if negative then -v else v
  }

  lemma SignedMagnitude(c: int)
    ensures Signed(c < 0, Magnitude(c) as real / 100.0) == CentsValue(c)
  {
    if c < 0 {
      assert Magnitude(c) as real == -(c as real);
    }
  }

  lemma FloatOfSignedBody(negative: bool, m: nat)
    ensures ParseFloat(SignText(negative) + CentsBody(m)) == Some(Signed(negative, m as real / 100.0))
  {
    var body := CentsBody(m);
    CentsBodyShape(m);
    MantissaOfCentsBody(m);
    FloatOfDecimal(negative, body, m as real / 100.0);
  }

  /** `float()` of an optional minus sign followed by digits and a point is the signed
      value of those digits. */
  lemma FloatOfDecimal(negative: bool, body: string, v: real)
    requires body != [] && IsDigit(body[0]) && DecimalChars(body) && ParseMantissa(body) == Some(v)
    ensures ParseFloat(SignText(negative) + body) == Some(Signed(negative, v))
  {
    SignedDecimal(negative, body);
    NoExponent(body);
    FloatWithoutExponent(SignText(negative) + body, negative, body, v);
  }

  /** A text without whitespace or exponent: its sign, the rest and that rest's value
      as a mantissa. */
  predicate PlainDecimal(t: string, negative: bool, body: string, v: real) {
    NoSpace(t) && SignOf(t) == (negative, body) && ExponentAt(body) == |body| && ParseMantissa(body) == Some(v)
  }

  /** `float()` of a text without whitespace or exponent is its signed mantissa. */
  lemma FloatWithoutExponent(t: string, negative: bool, body: string, v: real)
    requires PlainDecimal(t, negative, body, v)
    ensures ParseFloat(t) == Some(Signed(negative, v))
  {
    StripNoSpace(t);
    assert body[..|body|] == body;
    assert Scale(v, 0) == v;
  }

  /** An unsigned decimal written after an optional minus sign has no whitespace, and
      `SignOf` splits the two apart again. */
  lemma SignedDecimal(negative: bool, body: string)
    requires body != [] && IsDigit(body[0]) && DecimalChars(body)
    ensures NoSpace(SignText(negative) + body)
    ensures SignOf(SignText(negative) + body) == (negative, body)
  {
    var t := SignText(negative) + body;
    forall i | 0 <= i < |t| ensures !IsSpace(t[i]) {
      if negative && i > 0 {
        assert t[i] == body[i - 1];
      } else if !negative {
        assert t[i] == body[i];
      }
    }
    if negative {
      assert t[1..] == body;
    } else {
      assert t == body;
      assert body[0] != '+' && body[0] != '-';
    }
  }

  function Magnitude(c: int): nat {
    if c < 0 then -c else c
  }

  predicate DecimalChars(s: string) {
    forall i :: 0 <= i < |s| ==> s[i] == '.' || IsDigit(s[i])
  }

  lemma NoExponent(s: string)
    requires DecimalChars(s)
    ensures ExponentAt(s) == |s|
  {
    if s != [] {
      assert forall i :: 0 <= i < |s[1..]| ==> s[1..][i] == s[i + 1];
      NoExponent(s[1..]);
    }
  }

  // ---------------------------------------------------------------------------
  // Indexing and slicing
  // ---------------------------------------------------------------------------

  /** `s[i]` with Python's rules: negative indices count from the end, and an index
      outside `-|s| .. |s|-1` raises `IndexError`, here `None`. */
  function PyIndex<T>(s: seq<T>, i: int): Option<T> {
    if 0 <= i < |s| then Some(s[i])
    else if -|s| <= i < 0 then Some(s[|s| + i])
    else None
  }

  /** `s[:n]` for `n >= 0`: the first `n` characters, or all of `s` when it is shorter. */
  function Prefix(s: string, n: nat): (r: string)
    ensures |r| <= n && r <= s
    ensures |s| >= n ==> |r| == n
    ensures |s| <= n ==> r == s
  {
    if |s| <= n then s else s[..n]
  }
}

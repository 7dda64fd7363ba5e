/** Strings and the pieces of Rust's standard library that the parser leans on:
    `char::is_whitespace` and `str::trim`, `str::lines`, `str::parse::<i32>`,
    the truncating remainder `%` of `i32`, and `str::repeat`. */
module Text {

  datatype Option<T> = None | Some(value: T)

  datatype Result<T, E> = Ok(value: T) | Err(error: E)

  const I32Min: int := -0x8000_0000
  const I32Max: int := 0x7FFF_FFFF

  /** Rust's `char::is_whitespace`: the characters with the Unicode White_Space property. */
  predicate IsWhitespace(c: char) {
    c == ' ' || ('\t' <= c <= '\r') || c == '\U{85}' || c == '\U{A0}' || c == '\U{1680}'
    || ('\U{2000}' <= c <= '\U{200A}') || c == '\U{2028}' || c == '\U{2029}'
    || c == '\U{202F}' || c == '\U{205F}' || c == '\U{3000}'
  }

  /** `str::trim_start`: drops the leading whitespace and nothing else. */
  function TrimStart(s: string): (r: string)
    ensures |r| <= |s| && r == s[|s| - |r|..]
    ensures forall k :: 0 <= k < |s| - |r| ==> IsWhitespace(s[k])
    ensures r == [] || !IsWhitespace(r[0])
  {
    if s != [] && IsWhitespace(s[0]) then TrimStart(s[1..]) else s
  }

  /** `str::trim_end`: drops the trailing whitespace and nothing else. */
  function TrimEnd(s: string): (r: string)
    ensures |r| <= |s| && r == s[..|r|]
    ensures forall k :: |r| <= k < |s| ==> IsWhitespace(s[k])
    ensures r == [] || !IsWhitespace(r[|r| - 1])
  {
    if s != [] && IsWhitespace(s[|s| - 1]) then TrimEnd(s[..|s| - 1]) else s
  }

  /** `r` sits in `s` at offset `i`, with only whitespace around it. */
  ghost predicate TrimmedAt(s: string, i: int, r: string) {
    0 <= i <= |s| - |r| && r == s[i..i + |r|]
    && (forall k :: 0 <= k < i ==> IsWhitespace(s[k]))
    && (forall k :: i + |r| <= k < |s| ==> IsWhitespace(s[k]))
  }

  /** `str::trim`: whitespace cut off on either side, leaving a string that neither
      starts nor ends with whitespace. */
  function Trim(s: string): (r: string)
    ensures r == [] || (!IsWhitespace(r[0]) && !IsWhitespace(r[|r| - 1]))
  {
    var t := TrimStart(s);
    var r := TrimEnd(t);
    assert r != [] ==> r[0] == t[0];
    r
  }

  /** What `trim` leaves is an infix of its input with only whitespace around it. */
  lemma TrimIsInfix(s: string)
    ensures exists i :: TrimmedAt(s, i, Trim(s))
  {
    var t := TrimStart(s);
    var r := TrimEnd(t);
    var i := |s| - |t|;
    assert Trim(s) == r;
    assert r == s[i..i + |r|] by {
      assert t == s[i..];
      assert r == t[..|r|];
    }
    assert forall k :: 0 <= k < i ==> IsWhitespace(s[k]);
    assert forall k :: i + |r| <= k < |s| ==> IsWhitespace(s[k]) by {
      forall k | i + |r| <= k < |s| ensures IsWhitespace(s[k]) {
        assert s[k] == t[k - i];
      }
    }
    assert TrimmedAt(s, i, r);
  }

  /** Index of the first occurrence of `c` in `s`, or `|s|` when there is none. */
  function IndexOf(s: string, c: char): (k: nat)
    ensures k <= |s|
    ensures k < |s| ==> s[k] == c
    ensures forall j :: 0 <= j < k ==> s[j] != c
  {
    if s == [] then 0
    else if s[0] == c then 0
    else 1 + IndexOf(s[1..], c)
  }

  /** Removes one trailing carriage return. */
  function StripCR(s: string): string {
    if s != [] && s[|s| - 1] == '\r' then s[..|s| - 1] else s
  }

  /** `str::lines`: the pieces between line feeds, a `\r` directly before a line feed
      being part of the line ending; a final line ending is optional, so the empty
      string has no lines and a trailing line feed does not start an empty line. */
  function Lines(s: string): (r: seq<string>)
    decreases |s|
    ensures forall i :: 0 <= i < |r| ==> '\n' !in r[i]
    ensures r == [] <==> s == []
  {
    if s == [] then []
    else
      var k := IndexOf(s, '\n');
      if k == |s| then [s] else [StripCR(s[..k])] + Lines(s[k + 1..])
  }

  /** Every line followed by a line feed. */
  function Terminated(lines: seq<string>): string {
    if lines == [] then [] else lines[0] + "\n" + Terminated(lines[1..])
  }

  /** Text without carriage returns whose first line feed is at `k`: the first line
      is the text before it, and the rest has no carriage returns either. */
  lemma LinesSplitAt(s: string, k: nat)
    requires '\r' !in s && k == IndexOf(s, '\n') < |s|
    ensures Lines(s) == [s[..k]] + Lines(s[k + 1..])
    ensures '\r' !in s[k + 1..]
  {
    assert '\r' !in s[..k] by {
      forall j | 0 <= j < k ensures s[..k][j] != '\r' { assert s[..k][j] == s[j]; }
    }
    assert StripCR(s[..k]) == s[..k];
    var rest := s[k + 1..];
    forall j | 0 <= j < |rest| ensures rest[j] != '\r' { assert rest[j] == s[k + 1 + j]; }
  }

  /** Terminating a first line and then the others. */
  lemma TerminatedCons(line: string, lines: seq<string>)
    ensures Terminated([line] + lines) == line + "\n" + Terminated(lines)
  {
    assert ([line] + lines)[1..] == lines;
  }

  /** The text with a final line feed added unless it has one. */
  function Closed(s: string): string {
    if s == [] || s[|s| - 1] == '\n' then s else s + "\n"
  }

  /** Closing the text after a line feed at `k` closes the whole text. */
  lemma CloseAfter(s: string, k: nat)
    requires k < |s| && s[k] == '\n'
    ensures s[..k] + "\n" + Closed(s[k + 1..]) == Closed(s)
  {
    var head, rest := s[..k] + "\n", s[k + 1..];
    assert s == head + rest;
    if rest != [] {
      assert rest[|rest| - 1] == s[|s| - 1];
      assert head + (rest + "\n") == (head + rest) + "\n";
    }
  }

  /** On text without carriage returns, `Lines` loses nothing but the optional final
      line feed: terminating every line gives the text back, plus a line feed when
      the text did not already end with one. */
  lemma {:induction false} LinesTerminated(s: string)
    requires '\r' !in s
    ensures Terminated(Lines(s)) == if s == [] || s[|s| - 1] == '\n' then s else s + "\n"
    decreases |s|
  {
    if s != [] {
      var k := IndexOf(s, '\n');
      if k < |s| {
        LinesSplitAt(s, k);
        LinesTerminated(s[k + 1..]);
        TerminatedCons(s[..k], Lines(s[k + 1..]));
        CloseAfter(s, k);
      } else {
        TerminatedCons(s, []);
      }
    }
  }

  predicate IsDigit(c: char) { '0' <= c <= '9' }

  predicate AllDigits(s: string) { forall i :: 0 <= i < |s| ==> IsDigit(s[i]) }

  /** The value of a string of decimal digits, most significant first, or nothing
      when a character is not a digit. */
  function DigitsValue(ds: string): (r: Option<nat>)
    ensures r.Some? && ds != [] ==> IsDigit(ds[0])
    decreases |ds|
  {
    if ds == [] then Some(0)
    else
      var last := ds[|ds| - 1];
      var init := DigitsValue(ds[..|ds| - 1]);
      if !IsDigit(last) || init.None? then None
      else Some(10 * init.value + (last as int - '0' as int))
  }

  /** `str::parse::<i32>`: an optional `+` or `-`, then at least one ASCII digit and
      nothing else, and a value that fits in 32 bits; anything else is an error. */
  function ParseI32(s: string): (r: Option<int>)
    ensures r.Some? ==> I32Min <= r.value <= I32Max
    ensures r.Some? ==> s != [] && (s[0] == '+' || s[0] == '-' || IsDigit(s[0]))
  {
    if s == [] then None
    else
      var negative := s[0] == '-';
      var digits := if s[0] == '-' || s[0] == '+' then s[1..] else s;
      var d := DigitsValue(digits);
      if digits == [] || d.None? then None
      else
        var v: int := if negative then -(d.value as int) else d.value;
        if I32Min <= v <= I32Max then Some(v) else None
  }

  /** Digits have a value exactly when they are all digits. */
  lemma {:induction false} DigitsValueDefined(ds: string)
    ensures DigitsValue(ds).Some? <==> AllDigits(ds)
    decreases |ds|
  {
    if ds != [] {
      var init := ds[..|ds| - 1];
      DigitsValueDefined(init);
      if AllDigits(ds) {
        forall i | 0 <= i < |init| ensures IsDigit(init[i]) { assert init[i] == ds[i]; }
      }
      if AllDigits(init) && IsDigit(ds[|ds| - 1]) {
        forall i | 0 <= i < |ds| ensures IsDigit(ds[i]) {
          if i < |init| { assert ds[i] == init[i]; }
        }
      }
    }
  }

  function DigitChar(d: nat): char
    requires d < 10
  {
    ('0' as int + d) as char
  }

  /** Decimal rendering of a natural number, without leading zeros. */
  function ShowNat(n: nat): (r: string)
    ensures r != [] && AllDigits(r)
  {
    if n < 10 then [DigitChar(n)] else ShowNat(n / 10) + [DigitChar(n % 10)]
  }

  /** Decimal rendering of an integer, with a leading `-` when negative. */
  function ShowInt(v: int): (r: string)
    ensures r != [] && AllDigits(r[1..]) && (IsDigit(r[0]) || r[0] == '-')
  {
    if v < 0 then "-" + ShowNat(-v) else ShowNat(v)
  }

  /** Text that neither starts nor ends with whitespace is its own trim. */
  lemma TrimKeeps(s: string)
    requires s == [] || (!IsWhitespace(s[0]) && !IsWhitespace(s[|s| - 1]))
    ensures Trim(s) == s
  {
    assert TrimStart(s) == s;
  }

  lemma {:induction false} DigitsOfShowNat(n: nat)
    ensures DigitsValue(ShowNat(n)) == Some(n)
  {
    if n >= 10 {
      DigitsOfShowNat(n / 10);
      var r := ShowNat(n);
      assert r[..|r| - 1] == ShowNat(n / 10);
    }
  }

  /** A written integer is made of digits and a leading minus sign, and is its
      own trim. */
  lemma ShowIntChars(v: int)
    ensures forall i :: 0 <= i < |ShowInt(v)| ==> IsDigit(ShowInt(v)[i]) || ShowInt(v)[i] == '-'
    ensures Trim(ShowInt(v)) == ShowInt(v)
  {
    var r := ShowInt(v);
    forall i | 0 <= i < |r| ensures IsDigit(r[i]) || r[i] == '-' {
      if i > 0 { assert r[i] == r[1..][i - 1]; }
    }
    TrimKeeps(r);
  }

  /** Parsing inverts rendering on every 32-bit integer. */
  lemma ParseShowRoundTrip(v: int)
    requires I32Min <= v <= I32Max
    ensures ParseI32(ShowInt(v)) == Some(v)
  {
    var shown := ShowInt(v);
    if v < 0 {
      DigitsOfShowNat(-v);
      assert shown[1..] == ShowNat(-v);
    } else {
      DigitsOfShowNat(v);
      assert shown[0] != '-' && shown[0] != '+';
    }
  }

  /** Rust's `a % 12` on integers: the quotient truncates toward zero, so the
      remainder takes the sign of the dividend (Dafny's `%` never goes negative). */
  function RustRem12(a: int): (r: int)
    ensures -12 < r < 12
    ensures a >= 0 ==> r >= 0
    ensures a < 0 ==> r <= 0
    ensures a >= 0 || a % 12 == 0 ==> r == a % 12
    ensures a < 0 && a % 12 != 0 ==> r == a % 12 - 12
  {
    if a >= 0 then a % 12 else -((-a) % 12)
  }

  /** `str::repeat` on a one-character string. */
  function Repeat(c: char, n: nat): (r: string)
    ensures |r| == n
    ensures forall i :: 0 <= i < n ==> r[i] == c
  {
    if n == 0 then [] else [c] + Repeat(c, n - 1)
  }

  /** Concatenation of a sequence of strings. */
  function Concat(ss: seq<string>): string {
    if ss == [] then [] else ss[0] + Concat(ss[1..])
  }

  lemma {:induction false} ConcatAppend(a: seq<string>, b: seq<string>)
    ensures Concat(a + b) == Concat(a) + Concat(b)
  {
    if a != [] {
      assert (a + b)[0] == a[0];
      assert (a + b)[1..] == a[1..] + b;
      ConcatAppend(a[1..], b);
      calc {
        Concat(a + b);
        a[0] + Concat(a[1..] + b);
        a[0] + (Concat(a[1..]) + Concat(b));
        (a[0] + Concat(a[1..])) + Concat(b);
      }
    } else {
      assert a + b == b;
    }
  }
}

/**
 * The pieces of Rust's standard library that the answer parser and the
 * crawler rely on, written out: `str::split_ascii_whitespace`, `str::lines`,
 * `u32::from_str`, decimal formatting with `format!("{}")` and the UTF-8
 * bytes of a string (`str::as_bytes`).
 */
module Text {
  import opened Wrappers

  type u32 = x: int | 0 <= x < 0x1_0000_0000
  type byte = x: int | 0 <= x < 0x100

  // ---------------------------------------------------------------------
  // split_ascii_whitespace
  // ---------------------------------------------------------------------

  /** `u8::is_ascii_whitespace`: space, tab, line feed, form feed, carriage return. */
  predicate IsAsciiWhitespace(c: char) {
    c == ' ' || c == '\t' || c == '\n' || c == '\r' || c as int == 0x0C
  }

  /** A field as split_ascii_whitespace yields it: non-empty, no ASCII whitespace. */
  predicate IsWord(w: string) {
    |w| > 0 && forall i :: 0 <= i < |w| ==> !IsAsciiWhitespace(w[i])
  }

  /** Length of the run of non-whitespace characters that starts `s`. */
  function WordEnd(s: string): (w: nat)
    ensures w <= |s|
    ensures forall i :: 0 <= i < w ==> !IsAsciiWhitespace(s[i])
    ensures w < |s| ==> IsAsciiWhitespace(s[w])
  {
    if s == [] || IsAsciiWhitespace(s[0]) then 0 else 1 + WordEnd(s[1..])
  }

  /** `s.split_ascii_whitespace()`: the maximal runs of non-whitespace, in order. */
  function SplitAsciiWhitespace(s: string): (fields: seq<string>)
    ensures forall i :: 0 <= i < |fields| ==> IsWord(fields[i])
    decreases |s|
  {
    if s == [] then []
    else if IsAsciiWhitespace(s[0]) then SplitAsciiWhitespace(s[1..])
    else
      var w := WordEnd(s);
      [s[..w]] + SplitAsciiWhitespace(s[w..])
  }

  /** A run of ASCII whitespace, possibly empty. */
  predicate AllSpace(g: string) {
    forall i :: 0 <= i < |g| ==> IsAsciiWhitespace(g[i])
  }

  /**
   * How a line can lay out its fields: a gap of whitespace before, between
   * and after the fields; the gaps between two fields are not empty, the
   * leading and trailing ones may be.
   */
  predicate IsLayout(gaps: seq<string>, fields: seq<string>) {
    && |gaps| == |fields| + 1
    && (forall i :: 0 <= i < |gaps| ==> AllSpace(gaps[i]))
    && (forall i :: 0 < i < |fields| ==> gaps[i] != [])
    && (forall i :: 0 <= i < |fields| ==> IsWord(fields[i]))
  }

  /** The fields written out with the given gaps: `gaps[0] fields[0] gaps[1] ... fields[n-1] gaps[n]`. */
  function Spaced(gaps: seq<string>, fields: seq<string>): string
    requires |gaps| == |fields| + 1
    decreases fields
  {
    if fields == [] then gaps[0] else gaps[0] + (fields[0] + Spaced(gaps[1..], fields[1..]))
  }

  lemma WordEndOfWord(w: string, rest: string)
    requires IsWord(w)
    requires rest == [] || IsAsciiWhitespace(rest[0])
    ensures WordEnd(w + rest) == |w|
  {
    if |w| > 1 {
      assert (w + rest)[1..] == w[1..] + rest;
      WordEndOfWord(w[1..], rest);
    } else {
      assert (w + rest)[1..] == rest;
    }
  }

  /** Leading whitespace yields no field. */
  lemma {:induction false} SplitSkipsSpace(g: string, s: string)
    requires AllSpace(g)
    ensures SplitAsciiWhitespace(g + s) == SplitAsciiWhitespace(s)
  {
    if g != [] {
      assert (g + s)[0] == g[0];
      assert (g + s)[1..] == g[1..] + s;
      SplitSkipsSpace(g[1..], s);
    } else {
      assert g + s == s;
    }
  }

  /** A word followed by whitespace (or nothing) is the next field. */
  lemma SplitWord(w: string, rest: string)
    requires IsWord(w)
    requires rest == [] || IsAsciiWhitespace(rest[0])
    ensures SplitAsciiWhitespace(w + rest) == [w] + SplitAsciiWhitespace(rest)
  {
    var s := w + rest;
    assert s[0] == w[0];
    WordEndOfWord(w, rest);
    assert s[..|w|] == w;
    assert s[|w|..] == rest;
  }

  /**
   * Splitting fields written out with any whitespace around and between
   * them (spaces, tabs, several at a time) gives the fields back.
   */
  lemma {:induction false} SplitLayoutRoundTrip(gaps: seq<string>, fields: seq<string>)
    requires IsLayout(gaps, fields)
    ensures SplitAsciiWhitespace(Spaced(gaps, fields)) == fields
  {
    if fields == [] {
      SplitSkipsSpace(gaps[0], "");
      assert gaps[0] + "" == gaps[0];
    } else {
      var gs, fs := gaps[1..], fields[1..];
      assert forall i :: 0 <= i < |gs| ==> gs[i] == gaps[i + 1];
      assert forall i :: 0 <= i < |fs| ==> fs[i] == fields[i + 1];
      assert IsLayout(gs, fs);
      var rest := Spaced(gs, fs);
      SplitLayoutRoundTrip(gs, fs);
      if fs != [] {
        assert gs[0] != [];
        assert rest == gs[0] + (fs[0] + Spaced(gs[1..], fs[1..]));
        assert rest[0] == gs[0][0];
      }
      SplitWord(fields[0], rest);
      SplitSkipsSpace(gaps[0], fields[0] + rest);
      assert Spaced(gaps, fields) == gaps[0] + (fields[0] + rest);
      assert fields == [fields[0]] + fs;
    }
  }

  /** The gaps around the fields of `s`, as `s` has them. */
  function Gaps(s: string): (gaps: seq<string>)
    ensures |gaps| > 0
    decreases |s|
  {
    if s == [] then [""]
    else if IsAsciiWhitespace(s[0]) then
      var gs := Gaps(s[1..]);
      [[s[0]] + gs[0]] + gs[1..]
    else [""] + Gaps(s[WordEnd(s)..])
  }

  /** One more whitespace character in front of the leading gap. */
  lemma SpacedWiderGap(c: char, gs: seq<string>, fs: seq<string>)
    requires |gs| == |fs| + 1
    ensures Spaced([[c] + gs[0]] + gs[1..], fs) == [c] + Spaced(gs, fs)
  {
    var gaps := [[c] + gs[0]] + gs[1..];
    assert gaps[1..] == gs[1..];
    if fs != [] {
      assert Spaced(gaps, fs) == ([c] + gs[0]) + (fs[0] + Spaced(gs[1..], fs[1..]));
    }
  }

  /** `s` splits into its fields laid out with its own whitespace. */
  predicate SplitsAsLaidOut(s: string) {
    IsLayout(Gaps(s), SplitAsciiWhitespace(s)) && Spaced(Gaps(s), SplitAsciiWhitespace(s)) == s
  }

  lemma LayoutAfterSpace(s: string)
    requires s != [] && IsAsciiWhitespace(s[0])
    requires SplitsAsLaidOut(s[1..])
    ensures SplitsAsLaidOut(s)
  {
    var gs, fs := Gaps(s[1..]), SplitAsciiWhitespace(s[1..]);
    var gaps := [[s[0]] + gs[0]] + gs[1..];
    assert Gaps(s) == gaps && SplitAsciiWhitespace(s) == fs;
    assert forall i :: 0 < i < |gaps| ==> gaps[i] == gs[i];
    assert AllSpace(gaps[0]) by {
      assert forall i :: 0 < i < |gaps[0]| ==> gaps[0][i] == gs[0][i - 1];
    }
    SpacedWiderGap(s[0], gs, fs);
    assert [s[0]] + s[1..] == s;
  }

  lemma LayoutAfterWord(s: string)
    requires s != [] && !IsAsciiWhitespace(s[0])
    requires SplitsAsLaidOut(s[WordEnd(s)..])
    ensures SplitsAsLaidOut(s)
  {
    var w := WordEnd(s);
    var rest, word := s[w..], s[..w];
    UnfoldAtWord(s);
    LayoutAfterWordShape(word, rest, Gaps(rest), SplitAsciiWhitespace(rest));
    LayoutAfterWordText(word, rest, Gaps(rest), SplitAsciiWhitespace(rest));
  }

  /** A string that starts with a field: its first gap is empty and its first field is that word. */
  lemma UnfoldAtWord(s: string)
    requires s != [] && !IsAsciiWhitespace(s[0])
    ensures IsWord(s[..WordEnd(s)])
    ensures s[..WordEnd(s)] + s[WordEnd(s)..] == s
    ensures s[WordEnd(s)..] == [] || IsAsciiWhitespace(s[WordEnd(s)..][0])
    ensures Gaps(s) == [""] + Gaps(s[WordEnd(s)..])
    ensures SplitAsciiWhitespace(s) == [s[..WordEnd(s)]] + SplitAsciiWhitespace(s[WordEnd(s)..])
  {
  }

  lemma LayoutAfterWordShape(word: string, rest: string, gs: seq<string>, fs: seq<string>)
    requires IsWord(word) && IsLayout(gs, fs)
    requires gs == Gaps(rest) && fs == SplitAsciiWhitespace(rest)
    requires rest == [] || IsAsciiWhitespace(rest[0])
    ensures IsLayout([""] + gs, [word] + fs)
  {
    var gaps, fields := [""] + gs, [word] + fs;
    if fs != [] {
      assert rest != [];
      assert gs[0] == [rest[0]] + Gaps(rest[1..])[0];
    }
    assert forall i :: 0 < i < |gaps| ==> gaps[i] == gs[i - 1];
    assert forall i :: 0 < i < |fields| ==> fields[i] == fs[i - 1];
  }

  lemma LayoutAfterWordText(word: string, rest: string, gs: seq<string>, fs: seq<string>)
    requires |gs| == |fs| + 1 && Spaced(gs, fs) == rest
    ensures Spaced([""] + gs, [word] + fs) == word + rest
  {
    var gaps, fields := [""] + gs, [word] + fs;
    assert gaps[1..] == gs && fields[1..] == fs;
    assert Spaced(gaps, fields) == "" + (word + rest);
  }

  /**
   * The fields are the maximal runs of non-whitespace: every string is its
   * own fields laid out with the whitespace it has around them.
   */
  lemma {:induction false} SplitLayout(s: string)
    ensures IsLayout(Gaps(s), SplitAsciiWhitespace(s))
    ensures Spaced(Gaps(s), SplitAsciiWhitespace(s)) == s
    decreases |s|
  {
    if s == [] {
    } else if IsAsciiWhitespace(s[0]) {
      SplitLayout(s[1..]);
      LayoutAfterSpace(s);
    } else {
      SplitLayout(s[WordEnd(s)..]);
      LayoutAfterWord(s);
    }
  }

  // ---------------------------------------------------------------------
  // lines
  // ---------------------------------------------------------------------

  /** Index of the first line feed in `s`, or `|s|` when there is none. */
  function LineEnd(s: string): (e: nat)
    ensures e <= |s|
    ensures forall i :: 0 <= i < e ==> s[i] != '\n'
    ensures e < |s| ==> s[e] == '\n'
  {
    if s == [] || s[0] == '\n' then 0 else 1 + LineEnd(s[1..])
  }

  /** A terminated line loses the carriage return of a "\r\n" ending. */
  function StripCr(line: string): string
  {
    if |line| > 0 && line[|line| - 1] == '\r' then line[..|line| - 1] else line
  }

  /**
   * `s.lines()`: the pieces between line feeds, a "\r\n" ending counting as
   * one terminator; a final terminator does not start an empty last line.
   */
  function Lines(s: string): (ls: seq<string>)
    ensures forall i :: 0 <= i < |ls| ==> '\n' !in ls[i]
    decreases |s|
  {
    if s == [] then []
    else
      var e := LineEnd(s);
      if e == |s| then [s]
      else [StripCr(s[..e])] + Lines(s[e + 1..])
  }

  /** Each line followed by a line feed, as a program's output prints them. */
  function JoinLines(ls: seq<string>): string
  {
    if ls == [] then "" else ls[0] + "\n" + JoinLines(ls[1..])
  }

  /** A line that `lines()` can give back unchanged. */
  predicate IsPlainLine(l: string) {
    '\n' !in l && (|l| == 0 || l[|l| - 1] != '\r')
  }

  lemma LineEndOfLine(l: string, rest: string)
    requires '\n' !in l
    ensures LineEnd(l + "\n" + rest) == |l|
  {
    if l != [] {
      assert (l + "\n" + rest)[1..] == l[1..] + "\n" + rest;
      LineEndOfLine(l[1..], rest);
    }
  }

  /** Printing lines one per line and reading them back with `lines()` is the identity. */
  lemma {:induction false} LinesJoinRoundTrip(ls: seq<string>)
    requires forall i :: 0 <= i < |ls| ==> IsPlainLine(ls[i])
    ensures Lines(JoinLines(ls)) == ls
  {
    if ls != [] {
      var l := ls[0];
      var rest := JoinLines(ls[1..]);
      var s := l + "\n" + rest;
      assert JoinLines(ls) == s;
      LineEndOfLine(l, rest);
      assert s[..|l|] == l;
      assert s[|l| + 1..] == rest;
      assert Lines(s) == [StripCr(l)] + Lines(rest);
      assert IsPlainLine(l);
      assert StripCr(l) == l;
      LinesJoinRoundTrip(ls[1..]);
      assert ls == [l] + ls[1..];
    }
  }

  // ---------------------------------------------------------------------
  // Decimal numbers: u32::from_str and format!("{}")
  // ---------------------------------------------------------------------

  predicate IsDigit(c: char) {
    '0' <= c <= '9'
  }

  predicate AllDigits(s: string) {
    forall i :: 0 <= i < |s| ==> IsDigit(s[i])
  }

  /** The value of a string of decimal digits, most significant first. */
  function DigitsValue(s: string): nat
    requires AllDigits(s)
  {
    if s == [] then 0
    else DigitsValue(s[..|s| - 1]) * 10 + (s[|s| - 1] as int - '0' as int)
  }

  function DigitChar(d: nat): (c: char)
    requires d < 10
    ensures IsDigit(c) && c as int - '0' as int == d
  {
    ('0' as int + d) as char
  }

  /** `format!("{}", n)`: the shortest decimal form of `n`. */
  function DecimalString(n: nat): (s: string)
    ensures |s| >= 1 && AllDigits(s)
    ensures |s| > 1 ==> s[0] != '0'
  {
    if n < 10 then [DigitChar(n)]
    else DecimalString(n / 10) + [DigitChar(n % 10)]
  }

  /** Reading back a formatted number gives the number. */
  lemma {:induction false} DecimalStringValue(n: nat)
    ensures DigitsValue(DecimalString(n)) == n
  {
    var s := DecimalString(n);
    if n >= 10 {
      assert s[..|s| - 1] == DecimalString(n / 10);
      DecimalStringValue(n / 10);
    }
  }

  /**
   * `s.parse::<u32>()`: an optional leading '+', then at least one decimal
   * digit and nothing else, with a value below 2^32.
   */
  function ParseU32(s: string): (r: Option<u32>)
    ensures var digits := if |s| > 0 && s[0] == '+' then s[1..] else s;
      && (r.Some? <==> |digits| > 0 && AllDigits(digits) && DigitsValue(digits) < 0x1_0000_0000)
      && (r.Some? ==> r.value == DigitsValue(digits))
    ensures r.Some? ==> |s| > 0 && s[0] != '-'
  {
    var digits := if |s| > 0 && s[0] == '+' then s[1..] else s;
    if |digits| == 0 || !AllDigits(digits) then None
    else
      var v := DigitsValue(digits);
      if v < 0x1_0000_0000 then Some(v) else None
  }

  /** A formatted u32 parses back to itself, with or without a '+' sign. */
  lemma ParseU32OfDecimal(n: nat)
    ensures n < 0x1_0000_0000 ==> ParseU32(DecimalString(n)) == Some(n)
    ensures n < 0x1_0000_0000 ==> ParseU32("+" + DecimalString(n)) == Some(n)
    ensures n >= 0x1_0000_0000 ==> ParseU32(DecimalString(n)).None?
  {
    DecimalStringValue(n);
    assert ("+" + DecimalString(n))[1..] == DecimalString(n);
  }

  /** A character other than the digits (after an optional leading '+') makes the parse fail. */
  lemma ParseU32RejectsNonDigit(s: string, i: nat)
    requires i < |s| && !IsDigit(s[i])
    requires i == 0 ==> s[0] != '+'
    ensures ParseU32(s).None?
  {
    var digits := if |s| > 0 && s[0] == '+' then s[1..] else s;
    var j := if s[0] == '+' then i - 1 else i;
    assert digits[j] == s[i];
  }

  lemma {:induction false} DigitsValueLeadingZero(x: string)
    requires AllDigits(x)
    ensures AllDigits("0" + x) && DigitsValue("0" + x) == DigitsValue(x)
    decreases |x|
  {
    var z := "0" + x;
    if x != [] {
      assert z[..|z| - 1] == "0" + x[..|x| - 1];
      assert z[|z| - 1] == x[|x| - 1];
      DigitsValueLeadingZero(x[..|x| - 1]);
    }
  }

  /** Leading zeros do not change the value: "007" parses to 7. */
  lemma ParseU32LeadingZero(n: nat)
    requires n < 0x1_0000_0000
    ensures ParseU32("0" + DecimalString(n)) == Some(n)
  {
    DecimalStringValue(n);
    DigitsValueLeadingZero(DecimalString(n));
  }

  // ---------------------------------------------------------------------
  // UTF-8: str::as_bytes
  // ---------------------------------------------------------------------

  /** The UTF-8 encoding of one Unicode scalar value. */
  function EncodeChar(c: char): (bs: seq<byte>)
    ensures 1 <= |bs| <= 4
  {
    var n := c as int;
    if n < 0x80 then [n]
    else if n < 0x800 then [0xC0 + n / 0x40, 0x80 + n % 0x40]
    else if n < 0x1_0000 then [0xE0 + n / 0x1000, 0x80 + (n / 0x40) % 0x40, 0x80 + n % 0x40]
    else [0xF0 + n / 0x4_0000, 0x80 + (n / 0x1000) % 0x40, 0x80 + (n / 0x40) % 0x40, 0x80 + n % 0x40]
  }

  /** `s.as_bytes()`: the UTF-8 bytes of a Rust string. */
  function Utf8(s: string): (bs: seq<byte>)
    ensures |s| <= |bs| <= 4 * |s|
  {
    if s == [] then [] else EncodeChar(s[0]) + Utf8(s[1..])
  }

  /** How many bytes the character whose encoding starts with `lead` takes. */
  function SequenceLength(lead: byte): nat
  {
    if lead < 0x80 then 1 else if lead < 0xE0 then 2 else if lead < 0xF0 then 3 else 4
  }

  /** The scalar value a well-formed encoding of one character stands for. */
  function DecodeChar(bs: seq<byte>): int
    requires 1 <= |bs| <= 4
  {
    if |bs| == 1 then bs[0]
    else if |bs| == 2 then (bs[0] as int - 0xC0) * 0x40 + (bs[1] as int - 0x80)
    else if |bs| == 3 then (bs[0] as int - 0xE0) * 0x1000 + (bs[1] as int - 0x80) * 0x40 + (bs[2] as int - 0x80)
    else
      (bs[0] as int - 0xF0) * 0x4_0000 + (bs[1] as int - 0x80) * 0x1000
      + (bs[2] as int - 0x80) * 0x40 + (bs[3] as int - 0x80)
  }

  /** The lead byte of an encoding tells its length, and decoding gives the character back. */
  lemma EncodeCharDecodes(c: char)
    ensures |EncodeChar(c)| == SequenceLength(EncodeChar(c)[0])
    ensures DecodeChar(EncodeChar(c)) == c as int
  {
    var n := c as int;
    if 0x800 <= n < 0x1_0000 {
      assert n / 0x1000 == (n / 0x40) / 0x40;
    } else if 0x1_0000 <= n {
      assert n / 0x1000 == (n / 0x40) / 0x40;
      assert n / 0x4_0000 == (n / 0x1000) / 0x40;
    }
  }

  /** Two characters with the same encoding are the same character. */
  lemma EncodeCharInjective(a: char, b: char)
    requires EncodeChar(a) == EncodeChar(b)
    ensures a == b
  {
    EncodeCharDecodes(a);
    EncodeCharDecodes(b);
  }

  /** Different strings have different bytes: `as_bytes` loses nothing. */
  lemma {:induction false} Utf8Injective(a: string, b: string)
    requires Utf8(a) == Utf8(b)
    ensures a == b
  {
    if a == [] || b == [] {
      assert |Utf8(a)| == 0 || |Utf8(b)| == 0;
    } else {
      var ea, eb := EncodeChar(a[0]), EncodeChar(b[0]);
      assert Utf8(a) == ea + Utf8(a[1..]);
      assert Utf8(b) == eb + Utf8(b[1..]);
      EncodeCharDecodes(a[0]);
      EncodeCharDecodes(b[0]);
      assert ea[0] == Utf8(a)[0] == eb[0];
      assert |ea| == |eb|;
      assert ea == Utf8(a)[..|ea|] == eb;
      EncodeCharInjective(a[0], b[0]);
      assert Utf8(a[1..]) == Utf8(a)[|ea|..] == Utf8(b[1..]);
      Utf8Injective(a[1..], b[1..]);
      assert a == [a[0]] + a[1..];
      assert b == [b[0]] + b[1..];
    }
  }

  /** An ASCII string is its own bytes, one byte per character. */
  lemma {:induction false} Utf8Ascii(s: string)
    requires forall i :: 0 <= i < |s| ==> s[i] as int < 0x80
    ensures |Utf8(s)| == |s|
    ensures forall i :: 0 <= i < |s| ==> Utf8(s)[i] == s[i] as int
  {
    if s != [] {
      Utf8Ascii(s[1..]);
      assert Utf8(s) == [s[0] as int] + Utf8(s[1..]);
    }
  }
}

/** The fragment of Python's string library that names, targets and gNMI paths go through. */
module Text {
  import opened Common

  // ---------------------------------------------------------------- decimal numbers

  predicate IsDigit(c: char) { '0' <= c <= '9' }

  function DigitOf(c: char): nat
    requires IsDigit(c)
  {
    c as int - '0' as int
  }

  function Digit(d: nat): char
    requires d < 10
  {
    ('0' as int + d) as char
  }

  predicate AllDigits(s: string) { forall i :: 0 <= i < |s| ==> IsDigit(s[i]) }

  /** `str(n)` for a natural number. */
  function Decimal(n: nat): string {
    if n < 10 then [Digit(n)] else Decimal(n / 10) + [Digit(n % 10)]
  }

  /** `str(i)`. */
  function DecimalInt(i: int): string {
    if i < 0 then "-" + Decimal(-i) else Decimal(i)
  }

  /** `n` in decimal with at least `width` digits, as `to_char` pads its fields. */
  function Padded(n: nat, width: nat): string {
    if width <= 1 then Decimal(n)
    else Padded(n / 10, width - 1) + [Digit(n % 10)]
  }

  /** The digits of an integer literal: single underscores may separate digits. */
  function DigitRun(s: string): Option<nat>
    decreases |s|
  {
    if s == [] || !IsDigit(s[|s| - 1]) then None
    else
      var d := DigitOf(s[|s| - 1]);
      if |s| == 1 then Some(d)
      else
        var rest := if s[|s| - 2] == '_' then s[..|s| - 2] else s[..|s| - 1];
        match DigitRun(rest)
        case None => None
        case Some(high) => Some(10 * high + d)
  }

  /** `int(s)` over ASCII digits: surrounding white space and one sign are allowed. */
  function PyInt(s: string): Option<int> {
    var t := Strip(s);
    var body := if t != [] && (t[0] == '-' || t[0] == '+') then t[1..] else t;
    match DigitRun(body)
    case None => None
    case Some(n) => var i: int := n; Some(if t[0] == '-' then -i else i)
  }

  lemma {:induction false} DecimalDigits(n: nat)
    ensures Decimal(n) != [] && AllDigits(Decimal(n))
    ensures DigitRun(Decimal(n)) == Some(n)
  {
    if n >= 10 {
      DecimalDigits(n / 10);
      var s := Decimal(n);
      assert s[..|s| - 1] == Decimal(n / 10);
      assert IsDigit(s[|s| - 2]) by { assert s[|s| - 2] == Decimal(n / 10)[|s| - 2]; }
    }
  }

  /** Reading back a printed integer gives the integer. */
  lemma DecimalIntRoundTrip(i: int)
    ensures PyInt(DecimalInt(i)) == Some(i)
    ensures DecimalInt(i) != []
    ensures forall k :: 0 <= k < |DecimalInt(i)| ==> IsDigit(DecimalInt(i)[k]) || DecimalInt(i)[k] == '-'
  {
    var n: nat := if i < 0 then -i else i;
    DecimalDigits(n);
    var s := DecimalInt(i);
    if i < 0 { assert s[1..] == Decimal(n); }
    StripId(s);
  }

  lemma DecimalIntInjective(i: int, j: int)
    requires DecimalInt(i) == DecimalInt(j)
    ensures i == j
  {
    DecimalIntRoundTrip(i);
    DecimalIntRoundTrip(j);
  }

  lemma {:induction false} PaddedDigits(n: nat, width: nat)
    requires width >= 1
    ensures AllDigits(Padded(n, width))
    ensures DigitRun(Padded(n, width)) == Some(n)
    ensures |Padded(n, width)| >= width
  {
    DecimalDigits(n);
    if width > 1 {
      PaddedDigits(n / 10, width - 1);
      var s := Padded(n, width);
      assert s[..|s| - 1] == Padded(n / 10, width - 1);
      assert IsDigit(s[|s| - 2]) by { assert s[|s| - 2] == Padded(n / 10, width - 1)[|s| - 2]; }
    }
  }

  // ---------------------------------------------------------------- white space

  /** The code points `str.strip()` removes. */
  predicate IsSpace(c: char) {
    var n := c as int;
    9 <= n <= 13 || 28 <= n <= 32 || n == 133 || n == 160 || n == 5760 || 8192 <= n <= 8202
    || n == 8232 || n == 8233 || n == 8239 || n == 8287 || n == 12288
  }

  function LStrip(s: string): string {
    if s != [] && IsSpace(s[0]) then LStrip(s[1..]) else s
  }

  function RStrip(s: string): string {
    if s != [] && IsSpace(s[|s| - 1]) then RStrip(s[..|s| - 1]) else s
  }

  /** `s.strip()`. */
  function Strip(s: string): string { RStrip(LStrip(s)) }

  predicate Stripped(s: string) {
    s == [] || (!IsSpace(s[0]) && !IsSpace(s[|s| - 1]))
  }

  lemma StripId(s: string)
    requires Stripped(s)
    ensures Strip(s) == s
  {}

  lemma {:induction false} RStripEnds(s: string)
    ensures RStrip(s) == [] || !IsSpace(RStrip(s)[|RStrip(s)| - 1])
    ensures RStrip(s) != [] ==> RStrip(s)[0] == s[0]
  {
    if s != [] && IsSpace(s[|s| - 1]) { RStripEnds(s[..|s| - 1]); }
  }

  lemma {:induction false} LStripStarts(s: string)
    ensures LStrip(s) == [] || !IsSpace(LStrip(s)[0])
  {
    if s != [] && IsSpace(s[0]) { LStripStarts(s[1..]); }
  }

  /** Stripping leaves nothing to strip. */
  lemma StripTwice(s: string)
    ensures Strip(Strip(s)) == Strip(s)
  {
    LStripStarts(s);
    RStripEnds(LStrip(s));
    StripId(Strip(s));
  }

  predicate AllSpace(s: string) { forall i :: 0 <= i < |s| ==> IsSpace(s[i]) }

  lemma {:induction false} LStripPadded(l: string, s: string)
    requires AllSpace(l)
    ensures LStrip(l + s) == LStrip(s)
    decreases |l|
  {
    if l == [] {
      assert l + s == s;
    } else {
      LStripPadded(l[1..], s);
      assert (l + s)[1..] == l[1..] + s;
    }
  }

  lemma {:induction false} RStripPadded(s: string, r: string)
    requires AllSpace(r)
    ensures RStrip(s + r) == RStrip(s)
    decreases |r|
  {
    if r == [] {
      assert s + r == s;
    } else {
      RStripPadded(s, r[..|r| - 1]);
      assert (s + r)[..|s + r| - 1] == s + r[..|r| - 1];
    }
  }

  /** Stripping takes off exactly the white space around a text. */
  lemma StripPadded(l: string, s: string, r: string)
    requires AllSpace(l) && Stripped(s) && AllSpace(r)
    ensures Strip(l + s + r) == s
  {
    assert l + s + r == l + (s + r);
    LStripPadded(l, s + r);
    if s == [] {
      assert s + r == r && r + "" == r;
      LStripPadded(r, "");
    } else {
      RStripPadded(s, r);
      assert (s + r)[0] == s[0];
    }
  }

  // ---------------------------------------------------------------- searching and splitting

  predicate At(s: string, pat: string, i: int) {
    0 <= i && i + |pat| <= |s| && s[i..i + |pat|] == pat
  }

  /** `s.find(pat)`: the first position of `pat`, or None. */
  function Find(s: string, pat: string): (r: Option<nat>)
    ensures r.Some? ==> At(s, pat, r.value)
    ensures r.Some? ==> forall j :: 0 <= j < r.value ==> !At(s, pat, j)
    ensures r.None? ==> forall j :: !At(s, pat, j)
  {
    FindFrom(s, pat, 0)
  }

  function FindFrom(s: string, pat: string, i: nat): (r: Option<nat>)
    requires forall j :: 0 <= j < i ==> !At(s, pat, j)
    ensures r.Some? ==> At(s, pat, r.value)
    ensures r.Some? ==> forall j :: 0 <= j < r.value ==> !At(s, pat, j)
    ensures r.None? ==> forall j :: !At(s, pat, j)
    decreases |s| - i
  {
    if i + |pat| > |s| then None
    else if At(s, pat, i) then Some(i)
    else FindFrom(s, pat, i + 1)
  }

  /** `pat in s`. */
  predicate Contains(s: string, pat: string) { Find(s, pat).Some? }

  /** `s.split(pat, 1)[0]`. */
  function Before(s: string, pat: string): string {
    match Find(s, pat)
    case None => s
    case Some(i) => s[..i]
  }

  /** `s.split(pat, 1)[1]`, which exists exactly when `pat` occurs. */
  function After(s: string, pat: string): string
    requires Contains(s, pat)
  {
    s[Find(s, pat).value + |pat|..]
  }

  /** `s.rsplit(sep, 1)[-1]` and `s.split(sep)[-1]`: what follows the last separator. */
  function LastPart(s: string, sep: char): string {
    if s == [] then ""
    else if s[|s| - 1] == sep then ""
    else LastPart(s[..|s| - 1], sep) + [s[|s| - 1]]
  }

  lemma {:induction false} LastPartOf(s: string, sep: char, tail: string)
    requires sep !in tail
    ensures LastPart(s + [sep] + tail, sep) == tail
    ensures LastPart(tail, sep) == tail
    decreases |tail|
  {
    if tail != [] {
      var init := tail[..|tail| - 1];
      LastPartOf(s, sep, init);
      assert (s + [sep] + tail)[..|s| + |tail|] == s + [sep] + init;
      assert init + [tail[|tail| - 1]] == tail;
    } else {
      assert s + [sep] + tail == s + [sep];
    }
  }

  /** A single-character separator is found where it first stands. */
  lemma FindChar(left: string, c: char, right: string)
    requires c !in left
    ensures Find(left + [c] + right, [c]) == Some(|left|)
    ensures Find(left, [c]) == None
  {
    var s := left + [c] + right;
    assert At(s, [c], |left|);
    forall j | 0 <= j < |left|
      ensures !At(s, [c], j)
    {
      assert s[j] == left[j];
    }
  }

  /** `s.split(sep)`: every piece, including empty ones. */
  function Split(s: string, sep: char): (pieces: seq<string>)
    ensures pieces != []
  {
    if s == [] then [""]
    else
      var rest := Split(s[1..], sep);
      if s[0] == sep then [""] + rest
      else [[s[0]] + rest[0]] + rest[1..]
  }

  lemma {:induction false} SplitNoSep(s: string, sep: char)
    requires sep !in s
    ensures Split(s, sep) == [s]
    decreases |s|
  {
    if s != [] {
      SplitNoSep(s[1..], sep);
      assert [s[0]] + s[1..] == s;
    }
  }

  // ---------------------------------------------------------------- case

  function UpperChar(c: char): char {
    if 'a' <= c <= 'z' then (c as int - 32) as char else c
  }

  /** `s.upper()` on ASCII letters. */
  function Upper(s: string): string {
    seq(|s|, i requires 0 <= i < |s| => UpperChar(s[i]))
  }
}

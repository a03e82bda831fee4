/** `fingerprint_for` of services/anomaly_dedup.py, with SHA-256 taken as injective: the fingerprint
    stands for the payload that is hashed. */
module Fingerprints {
  import opened Common

  // ---------------------------------------------------------------- json.dumps of a dict of strings

  function HexDigit(n: nat): char
    requires n < 16
  {
    if n < 10 then ('0' as int + n) as char else ('a' as int + n - 10) as char
  }

  function Unit(n: nat): string
    requires n < 0x1_0000
  {
    ['\\', 'u', HexDigit(n / 0x1000), HexDigit(n / 0x100 % 0x10), HexDigit(n / 0x10 % 0x10), HexDigit(n % 0x10)]
  }

  predicate Plain(c: char) { ' ' <= c <= '~' && c != '"' && c != '\\' }

  /** The letter of a two-character escape, if `c` has one. */
  function ShortEscape(c: char): string {
    match c as int
    case 34 => "\""
    case 92 => "\\"
    case 8 => "b"
    case 9 => "t"
    case 10 => "n"
    case 12 => "f"
    case 13 => "r"
    case _ => ""
  }

  /** One character inside a JSON string, all but printable ASCII escaped. */
  function Escape(c: char): string {
    var n := c as int;
    if Plain(c) then [c]
    else if ShortEscape(c) != "" then "\\" + ShortEscape(c)
    else if n < 0x1_0000 then Unit(n)
    else Unit(0xd800 + (n - 0x1_0000) / 0x400) + Unit(0xdc00 + (n - 0x1_0000) % 0x400)
  }

  function EscapeAll(s: string): string {
    if s == [] then "" else Escape(s[0]) + EscapeAll(s[1..])
  }

  function Quoted(s: string): string { "\"" + EscapeAll(s) + "\"" }

  function Items(cause: seq<(string, string)>): string {
    if cause == [] then ""
    else Quoted(cause[0].0) + ":" + Quoted(cause[0].1) + (if |cause| == 1 then "" else "," + Items(cause[1..]))
  }

  /** `json.dumps(cause, sort_keys=True, separators=(",", ":"))`, the items given in key order; an
      empty dict, like no dict, gives the empty string. */
  function CauseRepr(cause: seq<(string, string)>): string {
    if cause == [] then "" else "{" + Items(cause) + "}"
  }

  function FingerprintFor(tenant: string, kind: string, scope: string, cause: seq<(string, string)>): string {
    tenant + "|" + kind + "|" + scope + "|" + CauseRepr(cause)
  }

  // ---------------------------------------------------------------- strings end to end

  lemma Cut(a: string, x: string, b: string, y: string)
    requires a + x == b + y && |a| == |b|
    ensures a == b && x == y
  {
    assert (a + x)[..|a|] == a && (b + y)[..|b|] == b;
    assert (a + x)[|a|..] == x && (b + y)[|b|..] == y;
  }

  lemma Regroup(a: string, b: string, x: string)
    ensures (a + b) + x == a + (b + x)
  {}

  // ---------------------------------------------------------------- escapes can be read back

  lemma HexValue(n: nat)
    requires n < 0x1_0000
    ensures n == 0x1000 * (n / 0x1000) + 0x100 * (n / 0x100 % 0x10) + 0x10 * (n / 0x10 % 0x10) + n % 0x10
  {
    assert n / 0x100 == n / 0x10 / 0x10 && n / 0x1000 == n / 0x100 / 0x10;
  }

  lemma UnitInjective(m: nat, n: nat)
    requires m < 0x1_0000 && n < 0x1_0000 && Unit(m) == Unit(n)
    ensures m == n
  {
    var l, r := Unit(m), Unit(n);
    assert l[2] == r[2] && l[3] == r[3] && l[4] == r[4] && l[5] == r[5];
    HexInjective(m / 0x1000, n / 0x1000);
    HexInjective(m / 0x100 % 0x10, n / 0x100 % 0x10);
    HexInjective(m / 0x10 % 0x10, n / 0x10 % 0x10);
    HexInjective(m % 0x10, n % 0x10);
    HexValue(m);
    HexValue(n);
  }

  lemma HexInjective(m: nat, n: nat)
    requires m < 16 && n < 16
    ensures HexDigit(m) == HexDigit(n) ==> m == n
  {}

  /** No escape is a proper beginning of another. */
  lemma EscapesAreAPrefixCode(c: char, d: char, x: string, y: string)
    requires Escape(c) + x == Escape(d) + y
    ensures c == d && x == y
  {
    var l, r := Escape(c) + x, Escape(d) + y;
    assert l[0] == r[0];
    if !Plain(c) && !Plain(d) {
      assert l[1] == r[1];
      if ShortEscape(c) == "" && ShortEscape(d) == "" {
        LongEscapes(c, d, x, y);
      }
    }
    assert l[|Escape(c)|..] == x && r[|Escape(d)|..] == y;
  }

  function HighUnit(n: nat): nat { if n < 0x1_0000 then n else 0xd800 + (n - 0x1_0000) / 0x400 }

  function LowUnit(n: nat): nat
    requires n >= 0x1_0000
  {
    0xdc00 + (n - 0x1_0000) % 0x400
  }

  /** What follows the first unit of a character: the second of a pair, if there is one. */
  function SecondUnit(c: char): string { if c as int < 0x1_0000 then "" else Unit(LowUnit(c as int)) }

  lemma LongParts(c: char, x: string)
    requires !Plain(c) && ShortEscape(c) == ""
    ensures Escape(c) + x == Unit(HighUnit(c as int)) + (SecondUnit(c) + x)
  {
    Regroup(Unit(HighUnit(c as int)), SecondUnit(c), x);
  }

  lemma LongEscapes(c: char, d: char, x: string, y: string)
    requires !Plain(c) && !Plain(d) && ShortEscape(c) == "" && ShortEscape(d) == ""
    requires Escape(c) + x == Escape(d) + y
    ensures c == d
  {
    var m, n := c as int, d as int;
    LongParts(c, x);
    LongParts(d, y);
    Cut(Unit(HighUnit(m)), SecondUnit(c) + x, Unit(HighUnit(n)), SecondUnit(d) + y);
    UnitInjective(HighUnit(m), HighUnit(n));
    if m >= 0x1_0000 && n >= 0x1_0000 {
      Cut(SecondUnit(c), x, SecondUnit(d), y);
      UnitInjective(LowUnit(m), LowUnit(n));
      assert m - 0x1_0000 == (m - 0x1_0000) / 0x400 * 0x400 + (m - 0x1_0000) % 0x400;
    }
  }

  lemma EscapeStart(c: char)
    ensures Escape(c) != [] && Escape(c)[0] != '"'
  {}

  /** A quoted string ends at its first unescaped quote, so it can be read back from what follows. */
  lemma {:induction false} QuotedReadsBack(s: string, t: string, x: string, y: string)
    requires EscapeAll(s) + ("\"" + x) == EscapeAll(t) + ("\"" + y)
    ensures s == t && x == y
    decreases |s|
  {
    var l, r := EscapeAll(s) + ("\"" + x), EscapeAll(t) + ("\"" + y);
    assert l[0] == r[0];
    if s == [] && t == [] {
      assert l == "\"" + x && r == "\"" + y;
      Cut("\"", x, "\"", y);
    } else if s == [] {
      EscapeStart(t[0]);
    } else if t == [] {
      EscapeStart(s[0]);
    } else {
      var ls, rt := EscapeAll(s[1..]) + ("\"" + x), EscapeAll(t[1..]) + ("\"" + y);
      Regroup(Escape(s[0]), EscapeAll(s[1..]), "\"" + x);
      Regroup(Escape(t[0]), EscapeAll(t[1..]), "\"" + y);
      EscapesAreAPrefixCode(s[0], t[0], ls, rt);
      QuotedReadsBack(s[1..], t[1..], x, y);
      assert s == [s[0]] + s[1..] && t == [t[0]] + t[1..];
    }
  }

  // ---------------------------------------------------------------- inside and outside of JSON strings

  /** Reading on from inside or outside a string to the end of the text: which of the two it ends in. None if a
      bar or a backslash is met outside a string, or an escape is cut short. */
  function Scan(s: string, inside: bool): Option<bool> {
    if s == [] then Some(inside)
    else if s[0] == '"' then Scan(s[1..], !inside)
    else if s[0] == '\\' then
      if inside && |s| >= 2 && s[1] != '|' then Scan(s[2..], true) else None
    else if s[0] == '|' && !inside then None
    else Scan(s[1..], inside)
  }

  /** The same text never ends alike when read from inside and from outside a string. */
  lemma {:induction false} ScansDiffer(s: string)
    requires Scan(s, true).Some? && Scan(s, false).Some?
    ensures Scan(s, true) != Scan(s, false)
    decreases |s|
  {
    if s != [] { ScansDiffer(s[1..]); }
  }

  lemma ScanOrdinary(c: char, rest: string, inside: bool)
    requires c != '"' && c != '\\' && (c != '|' || inside)
    ensures Scan([c] + rest, inside) == Scan(rest, inside)
  {
    assert ([c] + rest)[1..] == rest;
  }

  lemma ScanQuote(rest: string, inside: bool)
    ensures Scan("\"" + rest, inside) == Scan(rest, !inside)
  {
    assert ("\"" + rest)[1..] == rest;
  }

  lemma ScanEscape(c: char, rest: string)
    requires c != '|'
    ensures Scan(['\\', c] + rest, true) == Scan(rest, true)
  {
    assert (['\\', c] + rest)[2..] == rest;
  }

  lemma ScanFour(a: char, b: char, c: char, d: char, rest: string)
    requires a !in "\"\\" && b !in "\"\\" && c !in "\"\\" && d !in "\"\\"
    ensures Scan([a, b, c, d] + rest, true) == Scan(rest, true)
  {
    ScanOrdinary(d, rest, true);
    ScanOrdinary(c, [d] + rest, true);
    assert [c] + ([d] + rest) == [c, d] + rest;
    ScanOrdinary(b, [c, d] + rest, true);
    assert [b] + ([c, d] + rest) == [b, c, d] + rest;
    ScanOrdinary(a, [b, c, d] + rest, true);
    assert [a] + ([b, c, d] + rest) == [a, b, c, d] + rest;
  }

  lemma ScanUnit(n: nat, rest: string)
    requires n < 0x1_0000
    ensures Scan(Unit(n) + rest, true) == Scan(rest, true)
  {
    var a, b, c, d := HexDigit(n / 0x1000), HexDigit(n / 0x100 % 0x10), HexDigit(n / 0x10 % 0x10), HexDigit(n % 0x10);
    ScanFour(a, b, c, d, rest);
    ScanEscape('u', [a, b, c, d] + rest);
    assert ['\\', 'u'] + ([a, b, c, d] + rest) == ['\\', 'u', a, b, c, d] + rest;
  }

  lemma ScanEscaped(c: char, rest: string)
    ensures Scan(Escape(c) + rest, true) == Scan(rest, true)
  {
    var n := c as int;
    if Plain(c) {
      ScanOrdinary(c, rest, true);
    } else if ShortEscape(c) != "" {
      ScanEscape(ShortEscape(c)[0], rest);
      assert Escape(c) + rest == ['\\', ShortEscape(c)[0]] + rest;
    } else if n < 0x1_0000 {
      ScanUnit(n, rest);
    } else {
      var high, low := 0xd800 + (n - 0x1_0000) / 0x400, 0xdc00 + (n - 0x1_0000) % 0x400;
      ScanUnit(low, rest);
      ScanUnit(high, Unit(low) + rest);
      Regroup(Unit(high), Unit(low), rest);
    }
  }

  lemma {:induction false} ScanString(s: string, rest: string)
    ensures Scan(EscapeAll(s) + ("\"" + rest), true) == Scan(rest, false)
    decreases |s|
  {
    if s == [] {
      assert EscapeAll(s) + ("\"" + rest) == "\"" + rest;
      ScanQuote(rest, true);
    } else {
      ScanString(s[1..], rest);
      ScanEscaped(s[0], EscapeAll(s[1..]) + ("\"" + rest));
      Regroup(Escape(s[0]), EscapeAll(s[1..]), "\"" + rest);
    }
  }

  lemma QuotedFollowed(s: string, rest: string)
    ensures Quoted(s) + rest == "\"" + (EscapeAll(s) + ("\"" + rest))
  {
    Enclosed("\"", EscapeAll(s), rest);
  }

  lemma Enclosed(q: string, e: string, rest: string)
    ensures q + e + q + rest == q + (e + (q + rest))
  {}

  lemma ScanQuoted(s: string, rest: string)
    ensures Scan(Quoted(s) + rest, false) == Scan(rest, false)
  {
    QuotedFollowed(s, rest);
    ScanQuote(EscapeAll(s) + ("\"" + rest), false);
    ScanString(s, rest);
  }

  /** What follows the first item of a cause. */
  function Others(cause: seq<(string, string)>): string
    requires cause != []
  {
    if |cause| == 1 then "" else "," + Items(cause[1..])
  }

  lemma Colon(k: string, c: string, v: string, others: string, rest: string)
    ensures k + c + v + others + rest == k + (c + (v + (others + rest)))
  {}

  lemma FirstItem(cause: seq<(string, string)>, rest: string)
    requires cause != []
    ensures Items(cause) + rest == Quoted(cause[0].0) + (":" + (Quoted(cause[0].1) + (Others(cause) + rest)))
  {
    Colon(Quoted(cause[0].0), ":", Quoted(cause[0].1), Others(cause), rest);
  }

  lemma ScanItem(key: string, value: string, rest: string)
    ensures Scan(Quoted(key) + (":" + (Quoted(value) + rest)), false) == Scan(rest, false)
  {
    ScanQuoted(value, rest);
    ScanOrdinary(':', Quoted(value) + rest, false);
    ScanQuoted(key, ":" + (Quoted(value) + rest));
  }

  lemma {:induction false} ScanItems(cause: seq<(string, string)>, rest: string)
    requires cause != []
    ensures Scan(Items(cause) + rest, false) == Scan(rest, false)
    decreases |cause|
  {
    FirstItem(cause, rest);
    ScanItem(cause[0].0, cause[0].1, Others(cause) + rest);
    if |cause| == 1 {
      assert Others(cause) + rest == rest;
    } else {
      ScanItems(cause[1..], rest);
      ScanOrdinary(',', Items(cause[1..]) + rest, false);
      Regroup(",", Items(cause[1..]), rest);
    }
  }

  /** A cause is read from outside a string to outside again: its strings are balanced, its bars inside them. */
  lemma CauseScans(cause: seq<(string, string)>)
    ensures Scan(CauseRepr(cause), false) == Some(false)
  {
    if cause != [] {
      ScanOrdinary('}', "", false);
      assert ['}'] + "" == "}";
      ScanItems(cause, "}");
      ScanOrdinary('{', Items(cause) + "}", false);
      assert CauseRepr(cause) == ['{'] + (Items(cause) + "}");
    }
  }

  /** Whatever follows a bar that was met follows it inside a string. */
  lemma {:induction false} BarIsInside(a: string, rest: string, inside: bool)
    requires Scan(a + ("|" + rest), inside).Some?
    ensures Scan(rest, true) == Scan(a + ("|" + rest), inside)
    decreases |a|
  {
    var s := a + ("|" + rest);
    assert a != [] ==> s[1] == if |a| == 1 then '|' else a[1];
    if a == [] {
      assert s[1..] == rest;
    } else if a[0] == '\\' {
      assert s[2..] == a[2..] + ("|" + rest);
      BarIsInside(a[2..], rest, true);
    } else {
      assert s[1..] == a[1..] + ("|" + rest);
      BarIsInside(a[1..], rest, if a[0] == '"' then !inside else inside);
    }
  }

  /** No cause ends in a bar followed by a cause. */
  lemma NoCauseInCause(outer: seq<(string, string)>, a: string, inner: seq<(string, string)>)
    ensures CauseRepr(outer) != a + ("|" + CauseRepr(inner))
  {
    CauseScans(outer);
    CauseScans(inner);
    if CauseRepr(outer) == a + ("|" + CauseRepr(inner)) {
      BarIsInside(a, CauseRepr(inner), false);
      ScansDiffer(CauseRepr(inner));
    }
  }

  // ---------------------------------------------------------------- a cause can be read back

  lemma OthersEnd(c: seq<(string, string)>)
    requires c != []
    ensures (Others(c) + "}")[0] == if |c| == 1 then '}' else ','
    ensures |c| > 1 ==> Others(c) + "}" == "," + (Items(c[1..]) + "}")
  {
    if |c| > 1 { Regroup(",", Items(c[1..]), "}"); }
  }

  lemma OthersReadBack(c: seq<(string, string)>, d: seq<(string, string)>)
    requires c != [] && d != [] && Others(c) + "}" == Others(d) + "}"
    ensures |c| == 1 <==> |d| == 1
    ensures |c| > 1 && |d| > 1 ==> Items(c[1..]) + "}" == Items(d[1..]) + "}"
  {
    OthersEnd(c);
    OthersEnd(d);
    if |c| > 1 && |d| > 1 { Cut(",", Items(c[1..]) + "}", ",", Items(d[1..]) + "}"); }
  }

  lemma ItemReadsBack(p: (string, string), q: (string, string), x: string, y: string)
    requires Quoted(p.0) + (":" + (Quoted(p.1) + x)) == Quoted(q.0) + (":" + (Quoted(q.1) + y))
    ensures p == q && x == y
  {
    QuotedCut(p.0, q.0, ":" + (Quoted(p.1) + x), ":" + (Quoted(q.1) + y));
    Cut(":", Quoted(p.1) + x, ":", Quoted(q.1) + y);
    QuotedCut(p.1, q.1, x, y);
  }

  lemma QuotedCut(s: string, t: string, x: string, y: string)
    requires Quoted(s) + x == Quoted(t) + y
    ensures s == t && x == y
  {
    QuotedFollowed(s, x);
    QuotedFollowed(t, y);
    Cut("\"", EscapeAll(s) + ("\"" + x), "\"", EscapeAll(t) + ("\"" + y));
    QuotedReadsBack(s, t, x, y);
  }

  lemma FirstReadsBack(c: seq<(string, string)>, d: seq<(string, string)>)
    requires c != [] && d != [] && Items(c) + "}" == Items(d) + "}"
    ensures c[0] == d[0] && (|c| == 1 <==> |d| == 1)
    ensures |c| > 1 && |d| > 1 ==> Items(c[1..]) + "}" == Items(d[1..]) + "}"
  {
    FirstItem(c, "}");
    FirstItem(d, "}");
    ItemReadsBack(c[0], d[0], Others(c) + "}", Others(d) + "}");
    OthersReadBack(c, d);
  }

  lemma HeadAndTail<T>(c: seq<T>, d: seq<T>)
    requires c != [] && d != [] && c[0] == d[0] && c[1..] == d[1..]
    ensures c == d
  {
    assert c == [c[0]] + c[1..] && d == [d[0]] + d[1..];
  }

  lemma {:induction false} ItemsReadBack(c: seq<(string, string)>, d: seq<(string, string)>)
    requires c != [] && d != [] && Items(c) + "}" == Items(d) + "}"
    ensures c == d
    decreases |c|
  {
    FirstReadsBack(c, d);
    if |c| > 1 { ItemsReadBack(c[1..], d[1..]); }
    HeadAndTail(c, d);
  }

  lemma CauseReadsBack(c: seq<(string, string)>, d: seq<(string, string)>)
    requires CauseRepr(c) == CauseRepr(d)
    ensures c == d
  {
    if c != [] && d != [] {
      Regroup("{", Items(c), "}");
      Regroup("{", Items(d), "}");
      Cut("{", Items(c) + "}", "{", Items(d) + "}");
      ItemsReadBack(c, d);
    }
  }

  // ---------------------------------------------------------------- what a fingerprint tells

  lemma LastCut(a: string, c: seq<(string, string)>, b: string, d: seq<(string, string)>)
    requires a + ("|" + CauseRepr(c)) == b + ("|" + CauseRepr(d))
    ensures a == b && c == d
  {
    if |a| < |b| {
      Longer(a, CauseRepr(c), b, CauseRepr(d));
      NoCauseInCause(c, b[|a| + 1..], d);
    } else if |b| < |a| {
      Longer(b, CauseRepr(d), a, CauseRepr(c));
      NoCauseInCause(d, a[|b| + 1..], c);
    }
    Cut(a, "|" + CauseRepr(c), b, "|" + CauseRepr(d));
    Cut("|", CauseRepr(c), "|", CauseRepr(d));
    CauseReadsBack(c, d);
  }

  lemma Longer(a: string, x: string, b: string, y: string)
    requires |a| < |b| && a + ("|" + x) == b + ("|" + y)
    ensures x == b[|a| + 1..] + ("|" + y)
  {
    assert (a + ("|" + x))[|a| + 1..] == x && (b + ("|" + y))[|a| + 1..] == b[|a| + 1..] + ("|" + y);
  }

  /** What stands before the cause in the payload. */
  function Prefix(tenant: string, kind: string, scope: string): string { tenant + ("|" + (kind + ("|" + scope))) }

  lemma Joined(t: string, bar: string, k: string, s: string, r: string)
    ensures t + bar + k + bar + s + bar + r == (t + (bar + (k + (bar + s)))) + (bar + r)
  {}

  lemma FingerprintParts(tenant: string, kind: string, scope: string, cause: seq<(string, string)>)
    ensures FingerprintFor(tenant, kind, scope, cause) == Prefix(tenant, kind, scope) + ("|" + CauseRepr(cause))
  {
    Joined(tenant, "|", kind, scope, CauseRepr(cause));
  }

  /** A fingerprint tells the cause, and tenant, type and scope up to the bars between them. */
  lemma FingerprintsAgreeIff(t1: string, k1: string, s1: string, c1: seq<(string, string)>,
                             t2: string, k2: string, s2: string, c2: seq<(string, string)>)
    ensures FingerprintFor(t1, k1, s1, c1) == FingerprintFor(t2, k2, s2, c2)
       <==> Prefix(t1, k1, s1) == Prefix(t2, k2, s2) && c1 == c2
  {
    FingerprintParts(t1, k1, s1, c1);
    FingerprintParts(t2, k2, s2, c2);
    if FingerprintFor(t1, k1, s1, c1) == FingerprintFor(t2, k2, s2, c2) {
      LastCut(Prefix(t1, k1, s1), c1, Prefix(t2, k2, s2), c2);
    }
  }

  lemma TenantAgreeIff(tenant: string, k1: string, s1: string, c1: seq<(string, string)>,
                       k2: string, s2: string, c2: seq<(string, string)>)
    ensures FingerprintFor(tenant, k1, s1, c1) == FingerprintFor(tenant, k2, s2, c2)
       <==> k1 + ("|" + s1) == k2 + ("|" + s2) && c1 == c2
  {
    FingerprintsAgreeIff(tenant, k1, s1, c1, tenant, k2, s2, c2);
    if Prefix(tenant, k1, s1) == Prefix(tenant, k2, s2) {
      Cut(tenant, "|" + (k1 + ("|" + s1)), tenant, "|" + (k2 + ("|" + s2)));
      Cut("|", k1 + ("|" + s1), "|", k2 + ("|" + s2));
    }
  }

  lemma PrefixBars(tenant: string, kind: string, scope: string, i: nat)
    requires '|' !in tenant && '|' !in kind && '|' !in scope && i < |Prefix(tenant, kind, scope)|
    ensures Prefix(tenant, kind, scope)[i] == '|' <==> i == |tenant| || i == |tenant| + 1 + |kind|
  {}

  /** A condition whose tenant, type and scope hold no bar shares its fingerprint with no other, of any tenant. */
  lemma BarFreeFingerprints(t1: string, k1: string, s1: string, c1: seq<(string, string)>,
                            t2: string, k2: string, s2: string, c2: seq<(string, string)>)
    requires '|' !in t1 && '|' !in k1 && '|' !in s1
    requires FingerprintFor(t1, k1, s1, c1) == FingerprintFor(t2, k2, s2, c2)
    ensures t1 == t2 && k1 == k2 && s1 == s2 && c1 == c2
  {
    FingerprintsAgreeIff(t1, k1, s1, c1, t2, k2, s2, c2);
    var p := Prefix(t2, k2, s2);
    assert p[|t2|] == '|' && p[|t2| + 1 + |k2|] == '|';
    PrefixBars(t1, k1, s1, |t2|);
    PrefixBars(t1, k1, s1, |t2| + 1 + |k2|);
    Cut(t1, "|" + (k1 + ("|" + s1)), t2, "|" + (k2 + ("|" + s2)));
    Cut("|", k1 + ("|" + s1), "|", k2 + ("|" + s2));
    Cut(k1, "|" + s1, k2, "|" + s2);
    Cut("|", s1, "|", s2);
  }

  lemma BarPlace(k: string, s: string, i: nat)
    requires '|' !in k && '|' !in s && i < |k + ("|" + s)|
    ensures (k + ("|" + s))[i] == '|' <==> i == |k|
  {}

  lemma OnlyBar(k1: string, s1: string, k2: string, s2: string)
    requires '|' !in k1 && '|' !in s1 && k1 + ("|" + s1) == k2 + ("|" + s2)
    ensures k1 == k2 && s1 == s2
  {
    assert (k2 + ("|" + s2))[|k2|] == '|';
    BarPlace(k1, s1, |k2|);
    Cut(k1, "|" + s1, k2, "|" + s2);
    Cut("|", s1, "|", s2);
  }

  /** A bar inside a type or scope makes two conditions share a fingerprint, whatever their cause. */
  lemma BarsCollide(tenant: string, a: string, b: string, c: string, cause: seq<(string, string)>)
    ensures FingerprintFor(tenant, a + ("|" + b), c, cause) == FingerprintFor(tenant, a, b + ("|" + c), cause)
  {
    TenantAgreeIff(tenant, a + ("|" + b), c, cause, a, b + ("|" + c), cause);
    assert (a + ("|" + b)) + ("|" + c) == a + ("|" + (b + ("|" + c)));
  }

  ghost predicate Shared(tenant: string, kind: string, scope: string, cause: seq<(string, string)>,
                         k: string, s: string, c: seq<(string, string)>) {
    FingerprintFor(tenant, k, s, c) == FingerprintFor(tenant, kind, scope, cause)
      && !(k == kind && s == scope && c == cause)
  }

  lemma CutOut(x: string) returns (a: string, b: string)
    requires '|' in x
    ensures x == a + ("|" + b) && |a| < |x| && |b| < |x|
  {
    var i :| 0 <= i < |x| && x[i] == '|';
    a, b := x[..i], x[i + 1..];
  }

  lemma BarInKindShares(tenant: string, kind: string, scope: string, cause: seq<(string, string)>)
    requires '|' in kind
    ensures exists k, s :: Shared(tenant, kind, scope, cause, k, s, cause)
  {
    var a, b := CutOut(kind);
    BarsCollide(tenant, a, b, scope, cause);
    assert Shared(tenant, kind, scope, cause, a, b + ("|" + scope), cause);
  }

  lemma BarInScopeShares(tenant: string, kind: string, scope: string, cause: seq<(string, string)>)
    requires '|' in scope
    ensures exists k, s :: Shared(tenant, kind, scope, cause, k, s, cause)
  {
    var a, b := CutOut(scope);
    BarsCollide(tenant, kind, a, b, cause);
    assert Shared(tenant, kind, scope, cause, kind + ("|" + a), b, cause);
  }

  lemma BarFreeIsOwn(tenant: string, kind: string, scope: string, cause: seq<(string, string)>,
                     k: string, s: string, c: seq<(string, string)>)
    requires '|' !in kind && '|' !in scope
    ensures !Shared(tenant, kind, scope, cause, k, s, c)
  {
    TenantAgreeIff(tenant, k, s, c, kind, scope, cause);
    if k + ("|" + s) == kind + ("|" + scope) { OnlyBar(kind, scope, k, s); }
  }

  /** No other condition of the tenant shares a condition's fingerprint exactly when there is no bar in its type or
      scope. */
  lemma FingerprintIsOwnIff(tenant: string, kind: string, scope: string, cause: seq<(string, string)>)
    ensures (forall k, s, c :: !Shared(tenant, kind, scope, cause, k, s, c)) <==> '|' !in kind && '|' !in scope
  {
    if '|' in kind {
      BarInKindShares(tenant, kind, scope, cause);
    } else if '|' in scope {
      BarInScopeShares(tenant, kind, scope, cause);
    } else {
      forall k, s, c
        ensures !Shared(tenant, kind, scope, cause, k, s, c)
      {
        BarFreeIsOwn(tenant, kind, scope, cause, k, s, c);
      }
    }
  }

  // ---------------------------------------------------------------- the sources of the freshness scanner

  /** The cause the scanner gives, in key order. */
  function SilentCause(kind: string, device: string): seq<(string, string)> {
    [("device", device), ("source_kind", kind)]
  }

  function SilentFingerprint(tenant: string, kind: string, device: string): string {
    FingerprintFor(tenant, "collector_silent", "device:" + device, SilentCause(kind, device))
  }

  /** Within a tenant, no two sources share a silent fingerprint: not two devices, whatever their names,
      and not two kinds on one device. */
  lemma SilentFingerprintsDiffer(tenant: string, k1: string, d1: string, k2: string, d2: string)
    requires SilentFingerprint(tenant, k1, d1) == SilentFingerprint(tenant, k2, d2)
    ensures k1 == k2 && d1 == d2
  {
    TenantAgreeIff(tenant, "collector_silent", "device:" + d1, SilentCause(k1, d1),
                   "collector_silent", "device:" + d2, SilentCause(k2, d2));
    assert SilentCause(k1, d1)[0] == SilentCause(k2, d2)[0] && SilentCause(k1, d1)[1] == SilentCause(k2, d2)[1];
  }
}

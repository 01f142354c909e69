/** The parser, the integer accessor and the escaper of app/bridge_json.h, as they run over a string with an
    index. */
module BridgeJson {
  import opened Basics
  import opened Json

  method SkipWsAt(s: string, i: nat) returns (j: nat)
    requires i <= |s|
    ensures i <= j <= |s| && s[j..] == SkipWs(s[i..])
  {
    j := i;
    while j < |s| && IsWs(s[j])
      invariant i <= j <= |s| && SkipWs(s[j..]) == SkipWs(s[i..])
    {
      assert s[j..][1..] == s[j + 1..];
      j := j + 1;
    }
  }

  function Prefixed(out: string, r: Option<(string, string)>): Option<(string, string)> {
    if r.None? then None else Some((out + r.value.0, r.value.1))
  }

  /** ParseString: the literal at position i, its decoded value and the position after it. */
  method ParseString(s: string, i: nat) returns (ok: bool, j: nat, out: string)
    ensures ok <==> i < |s| && s[i] == '"' && ScanString(s[i + 1..]).Some?
    ensures ok ==> i < j <= |s| && ScanString(s[i + 1..]).value == (out, s[j..])
  {
    hide Prefixed, ScanString, Cons, Unescape;
    out := "";
    j := i;
    if j >= |s| || s[j] != '"' {
      return false, j, out;
    }
    j := j + 1;
    PrefixedNothing(ScanString(s[j..]));
    while j < |s|
      invariant i < j <= |s|
      invariant ScanString(s[i + 1..]) == Prefixed(out, ScanString(s[j..]))
    {
      var c := s[j];
      ScanStringAt(s, j);
      if c == '"' {
        PrefixedLast(out, s[j + 1..]);
        return true, j + 1, out;
      }
      PrefixedNone(out);
      if c < ' ' {
        return false, j, out;
      }
      if c != '\\' {
        PrefixedCons(out, c, ScanString(s[j + 1..]));
        out := out + [c];
        j := j + 1;
        continue;
      }
      j := j + 1;
      if j >= |s| {
        return false, j, out;
      }
      var d := Unescape(s[j]);
      if d.None? {
        return false, j, out;
      }
      PrefixedCons(out, d.value, ScanString(s[j + 1..]));
      out := out + [d.value];
      j := j + 1;
    }
    ScanStringAt(s, j);
    PrefixedNone(out);
    return false, j, out;
  }

  lemma ScanStringAt(s: string, j: nat)
    requires j <= |s|
    ensures ScanString(s[j..]) ==
            if j == |s| then None
            else if s[j] == '"' then Some(("", s[j + 1..]))
            else if s[j] < ' ' then None
            else if s[j] != '\\' then Cons(s[j], ScanString(s[j + 1..]))
            else if j + 1 == |s| || Unescape(s[j + 1]).None? then None
            else Cons(Unescape(s[j + 1]).value, ScanString(s[j + 2..]))
  {
    hide Cons, Unescape;
    if j < |s| {
      assert s[j..][0] == s[j] && s[j..][1..] == s[j + 1..];
      assert j + 2 <= |s| ==> s[j..][1] == s[j + 1] && s[j..][2..] == s[j + 2..];
    }
  }

  lemma PrefixedNothing(r: Option<(string, string)>)
    ensures Prefixed("", r) == r
  {
    if r.Some? {
      assert "" + r.value.0 == r.value.0;
    }
  }

  lemma PrefixedLast(out: string, rest: string)
    ensures Prefixed(out, Some(("", rest))) == Some((out, rest))
  {
    assert out + "" == out;
  }

  lemma PrefixedNone(out: string)
    ensures Prefixed(out, None) == None
  {
  }

  lemma PrefixedCons(out: string, c: char, r: Option<(string, string)>)
    ensures Prefixed(out, Cons(c, r)) == Prefixed(out + [c], r)
  {
    if r.Some? {
      assert out + ([c] + r.value.0) == out + [c] + r.value.0;
    }
  }

  /** The token at i is what is read up to j and the token at j. */
  ghost predicate ReadUpTo(s: string, i: nat, j: nat)
    requires i <= j <= |s|
  {
    ScanToken(s[i..]).0 == s[i..j] + ScanToken(s[j..]).0 && ScanToken(s[i..]).1 == ScanToken(s[j..]).1
  }

  lemma ReadOne(s: string, i: nat, j: nat)
    requires i <= j < |s| && ReadUpTo(s, i, j) && !EndsToken(s[j])
    ensures ReadUpTo(s, i, j + 1)
  {
    assert s[j..][1..] == s[j + 1..] && s[j..][0] == s[j];
    var tail := ScanToken(s[j + 1..]).0;
    assert ScanToken(s[j..]).0 == [s[j]] + tail;
    assert s[i..j] + ([s[j]] + tail) == s[i..j + 1] + tail;
  }

  lemma ReadAll(s: string, i: nat, j: nat)
    requires i <= j <= |s| && ReadUpTo(s, i, j) && (j == |s| || EndsToken(s[j]))
    ensures ScanToken(s[i..]) == (s[i..j], s[j..])
  {
    assert ScanToken(s[j..]) == ("", s[j..]);
    assert s[i..j] + "" == s[i..j];
  }

  /** The longest text from position i on without a delimiter. */
  method ParseToken(s: string, i: nat) returns (j: nat)
    requires i <= |s|
    ensures i <= j <= |s| && ScanToken(s[i..]) == (s[i..j], s[j..])
  {
    hide ReadUpTo, ScanToken;
    j := i;
    ReadNone(s, i);
    while j < |s| && !EndsToken(s[j])
      invariant i <= j <= |s| && ReadUpTo(s, i, j)
    {
      ReadOne(s, i, j);
      j := j + 1;
    }
    ReadAll(s, i, j);
  }

  lemma ReadNone(s: string, i: nat)
    requires i <= |s|
    ensures ReadUpTo(s, i, i)
  {
    assert s[i..i] + ScanToken(s[i..]).0 == ScanToken(s[i..]).0;
  }

  /** The scalar at position i. */
  method ParseScalar(s: string, i: nat) returns (ok: bool, j: nat, v: Value)
    requires i <= |s|
    ensures ok <==> ScanValue(s[i..]).Some?
    ensures ok ==> i < j <= |s| && ScanValue(s[i..]).value == (v, s[j..])
  {
    hide ScanString, ScanToken;
    v := Value(false, "");
    j := i;
    if i >= |s| {
      return false, j, v;
    }
    assert s[i..][1..] == s[i + 1..];
    if s[i] == '"' {
      var text;
      ok, j, text := ParseString(s, i);
      v := Value(true, text);
    } else {
      j := ParseToken(s, i);
      var token := s[i..j];
      v := Value(false, token);
      ok := !(token == "" || token[0] == '{' || token[0] == '[');
    }
  }

  /** One member at position i. */
  method ParseMember(s: string, i: nat) returns (ok: bool, j: nat, key: string, v: Value)
    requires i <= |s|
    ensures ok <==> ScanMember(s[i..]).Some?
    ensures ok ==> i < j <= |s| && ScanMember(s[i..]).value == (key, v, s[j..])
  {
    hide SkipWs, ScanString, ScanValue;
    v := Value(false, "");
    j := SkipWsAt(s, i);
    ghost var t1 := s[j..];
    ok, j, key := ParseString(s, j);
    if !ok {
      return;
    }
    j := SkipWsAt(s, j);
    if j >= |s| || s[j] != ':' {
      return false, j, key, v;
    }
    assert s[j..][1..] == s[j + 1..];
    j := SkipWsAt(s, j + 1);
    ok, j, v := ParseScalar(s, j);
  }

  /** ParseFlatObject accepts what the scanner accepts, and so exactly the grammar. */
  method ParseFlatObject(s: string) returns (ok: bool, out: Object)
    ensures ok <==> exists d :: ValidDocument(d) && DocumentText(d) == s
    ensures ok ==> exists d :: ValidDocument(d) && DocumentText(d) == s && DocumentObject(d) == out
    ensures (if ok then Some(out) else None) == ScanObject(s)
  {
    ok, out := Parse(s);
    if ok {
      ScanObjectIsGrammar(s, out);
    } else if d :| ValidDocument(d) && DocumentText(d) == s {
      ScanObjectIsGrammar(s, DocumentObject(d));
    }
  }

  method Parse(s: string) returns (ok: bool, out: Object)
    ensures (if ok then Some(out) else None) == ScanObject(s)
  {
    hide SkipWs, ScanMember;
    out := map[];
    assert s[0..] == s;
    var i := SkipWsAt(s, 0);
    if i >= |s| || s[i] != '{' {
      return false, out;
    }
    assert s[i..][1..] == s[i + 1..];
    i := i + 1;
    ghost var start := i;
    i := SkipWsAt(s, i);
    if i < |s| && s[i] == '}' {
      assert s[i..][1..] == s[i + 1..];
      i := i + 1;
    } else {
      ghost var first := i;
      while true
        invariant start <= i <= |s|
        invariant ScanMembers(s[first..], map[]) == ScanMembers(s[i..], out)
        decreases |s| - i
      {
        var key, v;
        ok, i, key, v := ParseMember(s, i);
        if !ok || key in out {
          return false, out;
        }
        out := out[key := v];
        i := SkipWsAt(s, i);
        assert i < |s| ==> s[i..][1..] == s[i + 1..];
        if i < |s| && s[i] == ',' {
          i := i + 1;
          continue;
        }
        if i < |s| && s[i] == '}' {
          i := i + 1;
          break;
        }
        return false, out;
      }
    }
    i := SkipWsAt(s, i);
    ok := i == |s|;
  }

  // ---------------------------------------------------------------- integers

  const TEN_18 := 1_000_000_000_000_000_000

  predicate IsDigit(c: char) {
    '0' <= c <= '9'
  }

  function Digit(d: nat): (c: char)
    requires d < 10
    ensures IsDigit(c) && c as int - '0' as int == d
  {
    ('0' as int + d) as char
  }

  /** The number in base 10, without leading zeros. */
  function Decimal(n: nat): (t: string)
    ensures t != ""
  {
    if n < 10 then [Digit(n)] else Decimal(n / 10) + [Digit(n % 10)]
  }

  function IntText(v: int): string {
    if v < 0 then "-" + Decimal(-v) else Decimal(v)
  }

  /** The texts accepted for a value: its decimal form of at most 18 digits, and minus zero. */
  ghost predicate Denotes(t: string, v: int) {
    -TEN_18 < v < TEN_18 && (t == IntText(v) || (t == "-0" && v == 0))
  }

  predicate AllDigits(t: string) {
    forall i | 0 <= i < |t| :: IsDigit(t[i])
  }

  function NumberOf(t: string): nat
    requires AllDigits(t)
  {
    if t == "" then 0 else 10 * NumberOf(t[..|t| - 1]) + (t[|t| - 1] as int - '0' as int)
  }

  predicate Canonical(t: string) {
    AllDigits(t) && 1 <= |t| && (t[0] == '0' ==> |t| == 1)
  }

  lemma DecimalAppend(m: nat, d: nat)
    requires d < 10 && m > 0
    ensures Decimal(10 * m + d) == Decimal(m) + [Digit(d)]
  {
    assert (10 * m + d) / 10 == m && (10 * m + d) % 10 == d;
  }

  lemma NumberStep(t: string)
    requires AllDigits(t) && t != ""
    ensures var last := t[|t| - 1];
            && IsDigit(last) && last == Digit(last as int - '0' as int)
            && NumberOf(t) == 10 * NumberOf(t[..|t| - 1]) + (last as int - '0' as int)
            && Pow(10, |t|) == 10 * Pow(10, |t| - 1)
  {
  }

  lemma OneDigit(t: string)
    requires Canonical(t) && |t| == 1
    ensures Decimal(NumberOf(t)) == t && NumberOf(t) < Pow(10, 1) && (NumberOf(t) == 0 ==> t == "0")
  {
    NumberStep(t);
    assert NumberOf(t[..0]) == 0 && Pow(10, 0) == 1;
    assert t == [t[0]];
  }

  /** A canonical digit string is the decimal form of its number, and has as many digits as the number needs. */
  lemma {:induction false} CanonicalIsDecimal(t: string)
    requires Canonical(t)
    ensures Decimal(NumberOf(t)) == t && NumberOf(t) < Pow(10, |t|) && (NumberOf(t) == 0 ==> t == "0")
  {
    hide Decimal, NumberOf, Pow, Digit;
    if |t| == 1 {
      OneDigit(t);
    } else {
      var u, last := t[..|t| - 1], t[|t| - 1];
      NumberStep(t);
      CanonicalIsDecimal(u);
      DecimalAppend(NumberOf(u), last as int - '0' as int);
      assert t == u + [last];
    }
  }

  /** The decimal form of a number is canonical and stands for it. */
  lemma {:induction false} DecimalIsCanonical(n: nat)
    ensures Canonical(Decimal(n)) && NumberOf(Decimal(n)) == n
    ensures n > 0 ==> Decimal(n)[0] != '0' && Pow(10, |Decimal(n)| - 1) <= n
  {
    var t := Decimal(n);
    if n < 10 {
      assert t[..0] == "";
    } else {
      DecimalIsCanonical(n / 10);
      assert t[..|t| - 1] == Decimal(n / 10);
    }
  }

  lemma {:induction false} PowGrows(i: nat, j: nat)
    requires i <= j
    ensures Pow(10, i) <= Pow(10, j)
  {
    if i < j {
      PowGrows(i, j - 1);
    }
  }

  lemma Pow18()
    ensures Pow(10, 18) == TEN_18
  {
    assert Pow(10, 6) == 1_000_000;
    assert Pow(10, 12) == 1_000_000_000_000;
  }

  /** The canonical digit strings of at most 18 digits are exactly the decimal forms below 10^18. */
  lemma ShortDecimal(t: string)
    requires Canonical(t) && |t| <= 18
    ensures NumberOf(t) < TEN_18 && t == Decimal(NumberOf(t))
  {
    hide Decimal, NumberOf, Pow;
    Pow18();
    CanonicalIsDecimal(t);
    PowGrows(|t|, 18);
  }

  lemma DecimalShort(n: nat)
    requires n < TEN_18
    ensures Canonical(Decimal(n)) && |Decimal(n)| <= 18
  {
    hide Decimal, NumberOf, Pow;
    Pow18();
    DecimalIsCanonical(n);
    if n == 0 {
      DecimalZero();
    } else if |Decimal(n)| > 18 {
      PowGrows(18, |Decimal(n)| - 1);
    }
  }

  lemma DecimalZero()
    ensures Decimal(0) == "0" && NumberOf("0") == 0
  {
    assert "0"[..0] == "";
  }

  /** At most one value is denoted. */
  lemma DenotesOne(t: string, v: int, w: int)
    requires Denotes(t, v) && Denotes(t, w)
    ensures v == w
  {
    hide Decimal, NumberOf;
    DecimalZero();
    DecimalIsCanonical(if v < 0 then -v else v);
    DecimalIsCanonical(if w < 0 then -w else w);
    var dv, dw := Decimal(if v < 0 then -v else v), Decimal(if w < 0 then -w else w);
    assert dv[0] != '-' && dw[0] != '-';
    assert ("-" + dv)[1..] == dv && ("-" + dw)[1..] == dw && "-0"[1..] == "0";
  }

  datatype GetResult = GotOk | Missing | Invalid

  /** GetInt: exactly the decimal texts of values in the range, or minus zero. */
  method GetInt(o: Object, key: string, lo: int, hi: int) returns (r: GetResult, out: int)
    ensures r == Missing <==> key !in o
    ensures r == GotOk <==> key in o && !o[key].isString && exists v :: lo <= v <= hi && Denotes(o[key].text, v)
    ensures r == GotOk ==> lo <= out <= hi && Denotes(o[key].text, out)
  {
    hide Denotes, Canonical, NumberOf;
    out := 0;
    if key !in o {
      return Missing, out;
    }
    if o[key].isString {
      return Invalid, out;
    }
    var t := o[key].text;
    var neg := t != "" && t[0] == '-';
    var digits := if neg then t[1..] else t;
    DigitsDenote(t);
    var ok, v := ReadDigits(digits);
    if !ok {
      return Invalid, out;
    }
    if neg {
      v := -v;
    }
    forall w | Denotes(t, w) ensures w == v {
      DenotesOne(t, v, w);
    }
    if v < lo || v > hi {
      return Invalid, out;
    }
    r, out := GotOk, v;
  }

  /** The digit loop: a canonical string of at most 18 digits, and its number. */
  method ReadDigits(t: string) returns (ok: bool, v: int)
    ensures ok <==> Canonical(t) && |t| <= 18
    ensures ok ==> v == NumberOf(t)
  {
    v := 0;
    if |t| == 0 || |t| > 18 || (t[0] == '0' && |t| > 1) {
      return false, v;
    }
    var i := 0;
    while i < |t|
      invariant 0 <= i <= |t| && AllDigits(t[..i]) && v == NumberOf(t[..i])
    {
      if t[i] < '0' || t[i] > '9' {
        assert !IsDigit(t[i]);
        return false, v;
      }
      assert t[..i + 1][..i] == t[..i];
      v := v * 10 + (t[i] as int - '0' as int);
      i := i + 1;
    }
    assert t[..|t|] == t;
    ok := true;
  }

  /** What the digits after an optional minus say about the whole text. */
  lemma DigitsDenote(t: string)
    ensures var neg := t != "" && t[0] == '-'; var d := if neg then t[1..] else t;
            && ((exists v :: Denotes(t, v)) ==> Canonical(d) && |d| <= 18)
            && (Canonical(d) && |d| <= 18 ==> Denotes(t, if neg then -(NumberOf(d) as int) else NumberOf(d)))
  {
    hide Decimal, NumberOf, Canonical;
    var neg := t != "" && t[0] == '-';
    var d := if neg then t[1..] else t;
    DecimalZero();
    if Canonical(d) && |d| <= 18 {
      ShortDecimal(d);
      assert neg ==> t == "-" + d;
    }
    forall v | Denotes(t, v) ensures Canonical(d) && |d| <= 18 {
      var n: nat := if v < 0 then -v else v;
      DecimalShort(n);
      CanonicalStart(Decimal(n));
      assert ("-" + Decimal(n))[1..] == Decimal(n) && "-0"[1..] == "0";
      assert d == Decimal(n);
    }
  }

  lemma CanonicalStart(t: string)
    requires Canonical(t)
    ensures t[0] != '-'
  {
    assert IsDigit(t[0]);
  }

  // ---------------------------------------------------------------- escaping

  function HexDigit(d: nat): char
    requires d < 16
  {
    "0123456789abcdef"[d]
  }

  function EscapeChar(c: char): string {
    if c == '"' || c == '\\' then ['\\', c]
    else if c == '\n' then "\\n"
    else if c == '\r' then "\\r"
    else if c == '\t' then "\\t"
    else if c < ' ' then "\\u00" + [HexDigit(c as int / 16), HexDigit(c as int % 16)]
    else [c]
  }

  /** A digit of base 16 stands for its value. */
  function HexValue(c: char): int {
    if '0' <= c <= '9' then c as int - '0' as int else if 'a' <= c <= 'f' then c as int - 'a' as int + 10 else -1
  }

  /** A control character without a letter is escaped by its code point in four digits of base 16; every other escape
      is a backslash and one character, and what needs no escape stays. */
  lemma EscapeForms(c: char)
    ensures var e := EscapeChar(c);
            if c == '"' || c == '\\' || c == '\n' || c == '\r' || c == '\t' then
              |e| == 2 && e[0] == '\\' && Unescape(e[1]) == Some(c)
            else if c as int < 0x20 then
              && |e| == 6 && e[..4] == "\\u00" && 0 <= HexValue(e[4]) && 0 <= HexValue(e[5])
              && 16 * HexValue(e[4]) + HexValue(e[5]) == c as int
            else e == [c]
  {
    if c as int < 0x20 {
      HexValues(c as int / 16);
      HexValues(c as int % 16);
    }
  }

  lemma HexValues(d: nat)
    requires d < 16
    ensures HexValue(HexDigit(d)) == d
  {
  }

  function Escaped(s: string): string {
    if s == "" then "" else EscapeChar(s[0]) + Escaped(s[1..])
  }

  method JsonEscape(s: string) returns (r: string)
    ensures r == Escaped(s)
  {
    hide EscapeChar;
    r := "";
    assert s[0..] == s;
    for i := 0 to |s|
      invariant r + Escaped(s[i..]) == Escaped(s)
    {
      assert s[i..][1..] == s[i + 1..];
      r := r + EscapeChar(s[i]);
    }
    assert r + "" == r;
  }

  /** Every control character is one of the three that have a letter escape. */
  predicate ReadsBack(s: string) {
    forall i | 0 <= i < |s| && s[i] < ' ' :: s[i] == '\n' || s[i] == '\r' || s[i] == '\t'
  }

  /** Reading back an escaped string gives the string, or nothing if it holds another control character. */
  lemma {:induction false} EscapeInverse(s: string, u: string)
    ensures ScanString(Escaped(s) + "\"" + u) == if ReadsBack(s) then Some((s, u)) else None
  {
    hide EscapeChar, Unescape, ScanString, ReadsBack;
    var t := Escaped(s) + "\"" + u;
    if s == "" {
      ClosingQuote(t, u);
    } else {
      var rest := Escaped(s[1..]) + "\"" + u;
      EscapeInverse(s[1..], u);
      assert t == EscapeChar(s[0]) + rest;
      CharInverse(s[0], rest);
      assert [s[0]] + s[1..] == s;
      ReadsBackRest(s);
    }
  }

  lemma ClosingQuote(t: string, u: string)
    requires t == "" + "\"" + u
    ensures ScanString(t) == Some(("", u)) && ReadsBack("")
  {
    assert t[1..] == u;
  }

  lemma ReadsBackRest(s: string)
    requires s != ""
    ensures ReadsBack(s) <==> ReadsBack([s[0]]) && ReadsBack(s[1..])
  {
    assert forall i | 0 < i < |s| :: s[i] == s[1..][i - 1];
    assert [s[0]][0] == s[0];
  }

  lemma CharInverse(c: char, rest: string)
    ensures ScanString(EscapeChar(c) + rest) == if ReadsBack([c]) then Cons(c, ScanString(rest)) else None
  {
    var t := EscapeChar(c) + rest;
    assert [c][0] == c;
    if c == '"' || c == '\\' || c == '\n' || c == '\r' || c == '\t' {
      assert t[2..] == rest;
    } else if c < ' ' {
      assert t[1] == 'u';
    } else {
      assert t[1..] == rest;
    }
  }

  /** ParseString inverts a quoted JsonEscape, exactly on the strings that read back. */
  method EscapeAndParse(s: string) returns (ok: bool, out: string)
    ensures ok <==> ReadsBack(s)
    ensures ok ==> out == s
  {
    hide ScanString, Escaped;
    var e := JsonEscape(s);
    var t := "\"" + e + "\"";
    EscapeInverse(s, "");
    assert t[1..] == Escaped(s) + "\"" + "";
    var j;
    ok, j, out := ParseString(t, 0);
  }
}

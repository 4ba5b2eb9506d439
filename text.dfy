/** The string helpers the layer relies on: Long.toString, Long.parseLong, Redis' integer reading and StrUtil.isBlank. */
module Text {
  import opened Wrappers
  import opened Numbers

  predicate IsDigit(c: char) {
    '0' <= c <= '9'
  }

  predicate AllDigits(s: string) {
    forall i :: 0 <= i < |s| ==> IsDigit(s[i])
  }

  function DigitChar(d: nat): (c: char)
    requires d < 10
    ensures IsDigit(c) && c as int - '0' as int == d
  {
    (d + '0' as int) as char
  }

  /** The decimal digits of n, most significant first, without leading zeros. */
  function Digits(n: nat): (s: string)
    ensures 1 <= |s| && AllDigits(s)
    ensures (s[0] == '0') == (n == 0)
  {
    if n < 10 then [DigitChar(n)] else Digits(n / 10) + [DigitChar(n % 10)]
  }

  /** The number a string of decimal digits denotes. */
  function DigitsValue(s: string): nat
    requires AllDigits(s)
  {
    if s == [] then 0 else DigitsValue(s[..|s| - 1]) * 10 + (s[|s| - 1] as int - '0' as int)
  }

  lemma {:induction false} DigitsValueOfDigits(n: nat)
    ensures DigitsValue(Digits(n)) == n
  {
    if n >= 10 {
      var s := Digits(n);
      assert s[..|s| - 1] == Digits(n / 10);
      DigitsValueOfDigits(n / 10);
    }
  }

  /** Long.toString(n), and so also `"" + n` for a Long n. */
  function DecimalString(n: int): string {
    if n < 0 then "-" + Digits(-n) else Digits(n)
  }

  /** Long.parseLong(s) over ASCII: an optional sign, at least one digit, and a value that fits a long. */
  function ParseLong(s: string): Option<Long> {
    var signed := |s| > 0 && (s[0] == '-' || s[0] == '+');
    var body := if signed then s[1..] else s;
    if body == [] || !AllDigits(body) then None
    else
      var magnitude: int := DigitsValue(body);
      var v := if s[0] == '-' then -magnitude else magnitude;
      if LONG_MIN <= v <= LONG_MAX then Some(v) else None
  }

  /** Long.toString and Long.parseLong are inverse on every long. */
  lemma ParseLongOfDecimal(n: Long)
    ensures ParseLong(DecimalString(n)) == Some(n)
  {
    var s := DecimalString(n);
    if n < 0 {
      var m: nat := -(n as int);
      var d := Digits(m);
      assert s == "-" + d && s[0] == '-' && s[1..] == d;
      DigitsValueOfDigits(m);
    } else {
      var d := Digits(n);
      assert s == d && IsDigit(s[0]);
      DigitsValueOfDigits(n);
    }
  }

  /** Distinct numbers have distinct decimal strings. */
  lemma DecimalStringInjective(a: int, b: int)
    requires DecimalString(a) == DecimalString(b)
    ensures a == b
  {
    DecimalStringSign(a);
    DecimalStringSign(b);
    if a < 0 {
      DigitsInjective(-a, -b);
    } else {
      DigitsInjective(a, b);
    }
  }

  /** A decimal string starts with '-' exactly for a negative number, followed by the digits of its magnitude. */
  lemma DecimalStringSign(a: int)
    ensures var s := DecimalString(a);
      && (s[0] == '-') == (a < 0)
      && (a < 0 ==> s[1..] == Digits(-a))
      && (0 <= a ==> s == Digits(a))
  {
    if 0 <= a {
      assert IsDigit(Digits(a)[0]);
    }
  }

  lemma DigitsInjective(a: nat, b: nat)
    requires Digits(a) == Digits(b)
    ensures a == b
  {
    DigitsValueOfDigits(a);
    DigitsValueOfDigits(b);
  }

  /** How Redis reads a stored string as a 64-bit integer (INCR): only the canonical decimal form of a long is accepted,
      so no sign '+', no leading zero and no "-0". */
  function ParseCanonical(s: string): Option<Long> {
    match ParseLong(s)
    case Some(n) => if DecimalString(n) == s then Some(n) else None
    case None => None
  }

  /** Long.valueOf on each string in turn: the numbers in order, or None when any string is not one. */
  function ParseLongs(ss: seq<string>): (r: Option<seq<Long>>)
    ensures r.Some? <==> forall i :: 0 <= i < |ss| ==> ParseLong(ss[i]).Some?
    ensures r.Some? ==> |r.value| == |ss| && forall i :: 0 <= i < |ss| ==> ParseLong(ss[i]) == Some(r.value[i])
    decreases |ss|
  {
    if ss == [] then Some([])
    else
      var front := ParseLongs(ss[..|ss| - 1]);
      var last := ParseLong(ss[|ss| - 1]);
      if front.None? || last.None? then None else Some(front.value + [last.value])
  }

  /** Numbers written with Long.toString read back as themselves, in order. */
  lemma ParseLongsOfDecimals(ss: seq<string>, ns: seq<Long>)
    requires |ss| == |ns| && forall i :: 0 <= i < |ss| ==> ss[i] == DecimalString(ns[i])
    ensures ParseLongs(ss) == Some(ns)
  {
    forall i | 0 <= i < |ss| ensures ParseLong(ss[i]) == Some(ns[i]) {
      ParseLongOfDecimal(ns[i]);
    }
    assert ParseLongs(ss).value == ns;
  }

  /** Redis reads back exactly the numbers it writes, and nothing else. */
  lemma ParseCanonicalIsInverse(s: string, n: Long)
    ensures ParseCanonical(s) == Some(n) <==> s == DecimalString(n)
  {
    if s == DecimalString(n) {
      ParseLongOfDecimal(n);
    }
  }

  /** Hutool's CharUtil.isBlankChar: Java whitespace and space separators, plus a few invisible characters. */
  predicate IsBlankChar(c: char) {
    var x := c as int;
    || 0x09 <= x <= 0x0D || 0x1C <= x <= 0x20 || x == 0x00 || x == 0xA0 || x == 0x1680 || x == 0x180E
    || 0x2000 <= x <= 0x200A || x == 0x2028 || x == 0x2029 || x == 0x202A || x == 0x202F || x == 0x205F
    || x == 0x2800 || x == 0x3000 || x == 0x3164 || x == 0xFEFF
  }

  /** StrUtil.isBlank on a non-null string: empty, or blank characters only. */
  predicate IsBlank(s: string) {
    forall i :: 0 <= i < |s| ==> IsBlankChar(s[i])
  }

  /** StrUtil.isBlank on a possibly null string (a Redis GET that found no key yields null). */
  predicate IsBlankOrNull(s: Option<string>) {
    s.None? || IsBlank(s.value)
  }
}

/** Signed 64-bit decimals as Go prints them ("%d"), parses them (strconv.ParseInt) and scans them (Sscanf "%d"). */
module Decimal {
  import opened Wrappers

  const MIN_INT64 := -0x8000_0000_0000_0000
  const MAX_INT64 := 0x7FFF_FFFF_FFFF_FFFF

  type int64 = n: int | MIN_INT64 <= n <= MAX_INT64

  predicate IsDigit(c: char) {
    '0' <= c <= '9'
  }

  predicate AllDigits(s: string) {
    forall i | 0 <= i < |s| :: IsDigit(s[i])
  }

  /** The number a run of digits denotes. */
  function Value(s: string): nat
    requires AllDigits(s)
  {
    if s == "" then 0 else 10 * Value(s[..|s| - 1]) + (s[|s| - 1] as int - '0' as int)
  }

  function Digits(n: nat): (s: string)
    ensures s != "" && AllDigits(s) && Value(s) == n
    ensures n != 0 ==> s[0] != '0'
  {
    var last := ('0' as int + n % 10) as char;
    if n < 10 then [last] else
      var s := Digits(n / 10) + [last];
      assert s[..|s| - 1] == Digits(n / 10);
      s
  }

  function Format(n: int): string {
    if n < 0 then "-" + Digits(-n) else Digits(n)
  }

  function Signed(negative: bool, n: int): int {
    if negative then -n else n
  }

  function InRange(n: int): Option<int64> {
    if MIN_INT64 <= n <= MAX_INT64 then Some(n) else None
  }

  predicate StartsWithSign(s: string) {
    s != "" && (s[0] == '+' || s[0] == '-')
  }

  function DropSign(s: string): string {
    if StartsWithSign(s) then s[1..] else s
  }

  function ParseInt(s: string): (r: Option<int64>) {
    var digits := DropSign(s);
    if digits == "" || !AllDigits(digits) then None
    else
      InRange(Signed(s[0] == '-', Value(digits)))
  }

  /** Parsing a printed magnitude, with or without a minus sign. */
  lemma ParseDigits(s: string, negative: bool)
    requires s != "" && AllDigits(s)
    ensures ParseInt(if negative then "-" + s else s) == InRange(Signed(negative, Value(s)))
  {
    var text := if negative then "-" + s else s;
    assert IsDigit(s[0]);
    assert DropSign(text) == s;
  }

  lemma ParseFormat(n: int64)
    ensures ParseInt(Format(n)) == Some(n)
  {
    var i: int := n;
    ParseDigits(Digits(if i < 0 then -i else i), i < 0);
  }

  lemma FormatIsInjective(m: int64, n: int64)
    requires Format(m) == Format(n)
    ensures m == n
  {
    ParseFormat(m);
    ParseFormat(n);
  }

  /** No '+', no leading zero, no "-0". */
  predicate Canonical(s: string) {
    var digits := if s != "" && s[0] == '-' then s[1..] else s;
    && digits != "" && AllDigits(digits)
    && (digits[0] != '0' || s == "0")
  }

  lemma FormatIsCanonical(n: int)
    ensures Canonical(Format(n))
  {
    if n < 0 {
      assert Format(n)[1..] == Digits(-n);
    } else {
      assert IsDigit(Format(n)[0]);
      if n == 0 { assert Digits(0) == "0"; }
    }
  }

  lemma {:induction false} DigitsOfValue(s: string)
    requires s != "" && AllDigits(s) && (s[0] != '0' || s == "0")
    ensures Digits(Value(s)) == s
  {
    var front, last := s[..|s| - 1], s[|s| - 1];
    if front == "" {
      assert Value(front) == 0;
    } else {
      assert front[0] == s[0] != '0';
      DigitsOfValue(front);
      assert Value(front) != 0 by {
        assert Digits(0) == "0";
      }
      assert Value(s) / 10 == Value(front) && Value(s) % 10 == last as int - '0' as int;
      assert s == front + [last];
    }
  }

  /** Printing a parsed text gives the text back exactly when it was written canonically. */
  lemma FormatParseIff(s: string, n: int64)
    requires ParseInt(s) == Some(n)
    ensures Format(n) == s <==> Canonical(s)
  {
    FormatIsCanonical(n);
    if Canonical(s) {
      CanonicalReprints(s, s[0] == '-', DropSign(s));
    }
  }

  lemma CanonicalReprints(s: string, negative: bool, digits: string)
    requires digits != "" && AllDigits(digits) && (digits[0] != '0' || (digits == "0" && !negative))
    requires s == if negative then "-" + digits else digits
    ensures ParseInt(s).Some? ==> Format(ParseInt(s).value) == s
  {
    ParseDigits(digits, negative);
    DigitsOfValue(digits);
    if Value(digits) == 0 {
      assert digits == Digits(0) == "0";
    }
  }

  /** The runes fmt's scanner skips; a newline is refused instead. */
  predicate IsSpace(c: char) {
    || '\U{0009}' <= c <= '\U{000D}' || c == ' ' || c == '\U{0085}' || c == '\U{00A0}' || c == '\U{1680}'
    || '\U{2000}' <= c <= '\U{200A}' || c == '\U{2028}' || c == '\U{2029}' || c == '\U{202F}' || c == '\U{205F}'
    || c == '\U{3000}'
  }

  function SkipSpace(s: string): Option<string> {
    if s == "" then Some("")
    else if s[0] == '\n' then None
    else if IsSpace(s[0]) then SkipSpace(s[1..])
    else Some(s)
  }

  function LeadingDigits(s: string): (n: nat)
    ensures n <= |s| && AllDigits(s[..n]) && (n < |s| ==> !IsDigit(s[n]))
  {
    if s == "" || !IsDigit(s[0]) then 0
    else
      var n := LeadingDigits(s[1..]);
      assert forall i | 1 <= i < n + 1 :: s[i] == s[1..][..n][i - 1];
      n + 1
  }

  /** Sscanf(s, "%d", &n): blanks, a sign, the longest run of digits; whatever follows is ignored. */
  function ScanInt(s: string): (r: Option<int64>) {
    match SkipSpace(s)
    case None => None
    case Some(t) =>
      var sign := if StartsWithSign(t) then 1 else 0;
      ParseInt(t[..sign + LeadingDigits(t[sign..])])
  }

  /** A canonical text scans as it parses, behind any blank and in front of anything but a digit. */
  lemma ScanCanonical(s: string)
    requires Canonical(s)
    ensures ScanInt(s) == ParseInt(s)
  {
    ScanIgnoresTail(s, "");
    assert s + "" == s;
  }

  lemma ScanIgnoresTail(s: string, tail: string)
    requires Canonical(s) && (tail == "" || !IsDigit(tail[0]))
    ensures ScanInt(s + tail) == ParseInt(s)
  {
    var t := s + tail;
    var sign := if StartsWithSign(s) then 1 else 0;
    assert t[0] == s[0] && SkipSpace(t) == Some(t);
    assert AllDigits(s[sign..]);
    LeadingDigitsEnd(t[sign..], |s| - sign);
    assert t[..|s|] == s;
  }

  lemma {:induction false} LeadingDigitsEnd(s: string, n: nat)
    requires n <= |s| && AllDigits(s[..n]) && (n < |s| ==> !IsDigit(s[n]))
    ensures LeadingDigits(s) == n
  {
    if n > 0 {
      assert s[1..][..n - 1] == s[..n][1..] && s[0] == s[..n][0];
      LeadingDigitsEnd(s[1..], n - 1);
    }
  }

  lemma ScanSkipsBlank(c: char, s: string)
    requires IsSpace(c) && c != '\n'
    ensures ScanInt([c] + s) == ScanInt(s)
  {
    assert ([c] + s)[1..] == s;
  }
}

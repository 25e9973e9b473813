/**
 * The "M:SS" time codec of pourover.py: `to_seconds` (split on the colon,
 * Python 2 `int()` on each part) and `fmt_seconds` (`"%d:%02d"` of the
 * floor quotient and remainder by 60).
 */
module TimeCodec {
  import opened Wrappers

  datatype TimeError =
    | NotAnInteger(part: string)   // `int()` rejected this part
    | WrongPartCount(count: nat)   // the parts do not unpack into (m, s)

  /** ASCII whitespace as `int()` strips it: tab, line feed, vertical tab, form feed, carriage return, space. */
  predicate IsSpace(c: char) {
    c == ' ' || (9 <= c as int <= 13)
  }

  predicate IsDigit(c: char) {
    '0' <= c <= '9'
  }

  predicate AllDigits(s: string) {
    forall i :: 0 <= i < |s| ==> IsDigit(s[i])
  }

  function DigitChar(d: int): (c: char)
    requires 0 <= d < 10
    ensures IsDigit(c)
  {
    ('0' as int + d) as char
  }

  function DigitValue(c: char): int
    requires IsDigit(c)
  {
    c as int - '0' as int
  }

  // ---------------------------------------------------------------------
  // str.split with a one-character separator, and its inverse

  /** The number of occurrences of `c` in `s`. */
  function Count(s: string, c: char): nat {
    multiset(s)[c]
  }

  /** `parts` joined back together with `sep` between neighbours. */
  function Join(parts: seq<string>, sep: char): string
    requires |parts| >= 1
  {
    if |parts| == 1 then parts[0] else parts[0] + [sep] + Join(parts[1..], sep)
  }

  /**
   * `s.split(sep)`: the pieces of `s` between separators, one more piece
   * than there are separators, empty pieces included.
   */
  function Split(s: string, sep: char): (parts: seq<string>)
    ensures |parts| == Count(s, sep) + 1
    ensures forall i :: 0 <= i < |parts| ==> sep !in parts[i]
  {
    if |s| == 0 then [""]
    else
      var rest := Split(s[1..], sep);
      assert s == [s[0]] + s[1..];
      assert multiset(s) == multiset([s[0]]) + multiset(s[1..]);
      if s[0] == sep then [""] + rest
      else
        var parts := [[s[0]] + rest[0]] + rest[1..];
        assert forall i :: 1 <= i < |parts| ==> parts[i] == rest[i];
        parts
  }

  // ---------------------------------------------------------------------
  // Decimal integers: Python 2 `int()` on a string, and "%d" / "%02d"

  /** The decimal digits of `n`, most significant first, without leading zeros. */
  function NatToDigits(n: nat): (s: string)
    ensures |s| >= 1 && AllDigits(s)
    decreases n
  {
    if n < 10 then [DigitChar(n)] else NatToDigits(n / 10) + [DigitChar(n % 10)]
  }

  /** The value of a string of decimal digits; leading zeros are allowed. */
  function DigitsValue(s: string): nat
    requires AllDigits(s)
  {
    if |s| == 0 then 0 else DigitsValue(s[..|s| - 1]) * 10 + DigitValue(s[|s| - 1])
  }

  /** A digit string without a leading zero, or the single digit "0". */
  predicate Canonical(d: string) {
    |d| >= 1 && AllDigits(d) && (d[0] != '0' || |d| == 1)
  }

  /** `s` without its leading whitespace. */
  function StripLeft(s: string): string {
    if |s| > 0 && IsSpace(s[0]) then StripLeft(s[1..]) else s
  }

  /** `s` without its trailing whitespace. */
  function StripRight(s: string): string {
    if |s| > 0 && IsSpace(s[|s| - 1]) then StripRight(s[..|s| - 1]) else s
  }

  /** `s` with surrounding whitespace removed, as `int()` ignores it. */
  function Strip(s: string): string {
    StripRight(StripLeft(s))
  }

  predicate IsSign(c: char) {
    c == '+' || c == '-'
  }

  /** An optional sign followed by at least one decimal digit. */
  predicate IsIntLiteral(t: string) {
    if |t| > 0 && IsSign(t[0]) then |t| > 1 && AllDigits(t[1..])
    else |t| > 0 && AllDigits(t)
  }

  /** A non-empty run of decimal digits, read as its value. */
  function ParseUnsigned(d: string): Option<int> {
    if |d| > 0 && AllDigits(d) then Some(DigitsValue(d)) else None
  }

  /** An optional sign followed by a non-empty run of decimal digits. */
  function ParseLiteral(t: string): Option<int> {
    if |t| > 0 && IsSign(t[0]) then
      match ParseUnsigned(t[1..])
      case None => None
      case Some(v) => Some(if t[0] == '-' then -v else v)
    else ParseUnsigned(t)
  }

  /**
   * Python 2 `int(s)` on a string: surrounding whitespace, an optional
   * sign, then decimal digits; anything else fails.
   */
  function ParseInt(s: string): Option<int> {
    ParseLiteral(Strip(s))
  }

  /** `"%d" % n`. */
  function IntToString(n: int): string {
    if n < 0 then "-" + NatToDigits(-n) else NatToDigits(n)
  }

  /** `"%02d" % n`: at least two characters, padded on the left with a zero. */
  function Pad2(n: int): string {
    var s := IntToString(n);
    if |s| < 2 then "0" + s else s
  }

  /** What `int()` makes of each piece. */
  function ParseEach(parts: seq<string>): (r: seq<Option<int>>)
    ensures |r| == |parts| && forall i :: 0 <= i < |parts| ==> r[i] == ParseInt(parts[i])
  {
    seq(|parts|, i requires 0 <= i < |parts| => ParseInt(parts[i]))
  }

  /**
   * The list comprehension over the pieces: the values when every piece
   * parsed, otherwise the first piece that did not.
   */
  function Collect(parts: seq<string>, parsed: seq<Option<int>>): (r: Result<seq<int>, TimeError>)
    requires |parsed| == |parts|
    ensures r.Ok? <==> forall i :: 0 <= i < |parsed| ==> parsed[i].Some?
    ensures r.Ok? ==> |r.value| == |parsed| && forall i :: 0 <= i < |parsed| ==> parsed[i] == Some(r.value[i])
    ensures r.Err? ==> exists k :: 0 <= k < |parts| && r.error == NotAnInteger(parts[k]) && parsed[k].None? &&
                                   forall j :: 0 <= j < k ==> parsed[j].Some?
  {
    if |parts| == 0 then Ok([])
    else match parsed[0]
      case None => Err(NotAnInteger(parts[0]))
      case Some(v) =>
        match Collect(parts[1..], parsed[1..])
        case Err(e) =>
          ghost var k :| 0 <= k < |parts[1..]| && e == NotAnInteger(parts[1..][k]) && parsed[1..][k].None? &&
                         forall j :: 0 <= j < k ==> parsed[1..][j].Some?;
          assert e == NotAnInteger(parts[k + 1]) && parsed[k + 1].None?;
          assert forall j :: 1 <= j < k + 1 ==> parsed[j] == parsed[1..][j - 1];
          Err(e)
        case Ok(vs) =>
          assert forall i :: 1 <= i < |parsed| ==> parsed[i] == parsed[1..][i - 1];
          Ok([v] + vs)
  }

  /**
   * Unpacks the parsed pieces into minutes and seconds, as `(m, s) = [...]`
   * does once the list comprehension has finished.
   */
  function Unpack(parts: seq<string>, parsed: seq<Option<int>>): (r: Result<int, TimeError>)
    requires |parsed| == |parts|
    ensures r.Ok? <==> |parts| == 2 && parsed[0].Some? && parsed[1].Some?
    ensures r.Ok? ==> |parts| == 2 && parsed[0].Some? && parsed[1].Some? &&
                      r.value == 60 * parsed[0].value + parsed[1].value
    ensures r.Err? && r.error.WrongPartCount? ==>
              r.error.count == |parts| != 2 && forall i :: 0 <= i < |parsed| ==> parsed[i].Some?
    ensures r.Err? && r.error.NotAnInteger? ==>
              exists k :: 0 <= k < |parts| && r.error.part == parts[k] && parsed[k].None? &&
                          forall j :: 0 <= j < k ==> parsed[j].Some?
  {
    match Collect(parts, parsed)
    case Err(e) => Err(e)
    case Ok(vs) => if |vs| != 2 then Err(WrongPartCount(|vs|)) else Ok(vs[0] * 60 + vs[1])
  }

  /**
   * `to_seconds`: "M:SS" to `M * 60 + SS`. Every piece between colons is
   * given to `int()` before the pieces are unpacked into two, so a piece
   * that is not an integer is reported before a wrong number of pieces.
   */
  function ToSeconds(s: string): Result<int, TimeError> {
    var parts := Split(s, ':');
    Unpack(parts, ParseEach(parts))
  }

  /** `fmt_seconds`: floor quotient by 60, a colon, and the remainder padded to two digits. */
  function FmtSeconds(n: int): (s: string)
  {
    IntToString(n / 60) + ":" + Pad2(n % 60)
  }
}

/**
 * Properties of the "M:SS" time codec: splitting and joining on the
 * colon, reading and writing decimal integers, and the round trips
 * between `to_seconds` and `fmt_seconds`.
 */
module TimeCodecLaws {
  import opened Wrappers
  import opened TimeCodec

  // ---------------------------------------------------------------------
  // Splitting and joining

  /** Prefixing the first piece with `c` prefixes the joined string with `c`. */
  lemma JoinPrefixFirst(c: char, parts: seq<string>, sep: char)
    requires |parts| >= 1
    ensures Join([[c] + parts[0]] + parts[1..], sep) == [c] + Join(parts, sep)
  {
    var q := [[c] + parts[0]] + parts[1..];
    assert q[1..] == parts[1..];
  }

  /** Joining the pieces of a split with the separator gives the original string. */
  lemma {:induction false} JoinSplit(s: string, sep: char)
    ensures Join(Split(s, sep), sep) == s
  {
    if |s| > 0 {
      JoinSplit(s[1..], sep);
      var rest := Split(s[1..], sep);
      if s[0] == sep {
        assert ([""] + rest)[1..] == rest;
      } else {
        JoinPrefixFirst(s[0], rest, sep);
      }
      assert s == [s[0]] + s[1..];
    }
  }

  /** A piece without the separator splits to itself. */
  lemma {:induction false} SplitNoSep(a: string, sep: char)
    requires sep !in a
    ensures Split(a, sep) == [a]
  {
    if |a| > 0 {
      assert sep !in a[1..];
      SplitNoSep(a[1..], sep);
      assert [a[0]] + a[1..] == a;
    }
  }

  /** A leading separator-free piece followed by the separator splits off as one piece. */
  lemma {:induction false} SplitAfterPiece(a: string, x: string, sep: char)
    requires sep !in a
    ensures Split(a + [sep] + x, sep) == [a] + Split(x, sep)
  {
    var s := a + [sep] + x;
    if |a| == 0 {
      assert s[1..] == x;
    } else {
      assert s[1..] == a[1..] + [sep] + x;
      assert sep !in a[1..];
      SplitAfterPiece(a[1..], x, sep);
      assert [a[0]] + a[1..] == a;
    }
  }

  /** Splitting undoes joining whenever no piece holds the separator. */
  lemma {:induction false} SplitJoin(parts: seq<string>, sep: char)
    requires |parts| >= 1
    requires forall i :: 0 <= i < |parts| ==> sep !in parts[i]
    ensures Split(Join(parts, sep), sep) == parts
  {
    if |parts| == 1 {
      SplitNoSep(parts[0], sep);
    } else {
      SplitJoin(parts[1..], sep);
      SplitAfterPiece(parts[0], Join(parts[1..], sep), sep);
      assert [parts[0]] + parts[1..] == parts;
    }
  }

  // ---------------------------------------------------------------------
  // Reading and writing decimal integers

  /** Reading back the digits of a number gives that number. */
  lemma {:induction false} DigitsRoundTrip(n: nat)
    ensures DigitsValue(NatToDigits(n)) == n
    decreases n
  {
    var s := NatToDigits(n);
    if n < 10 {
      assert s[..0] == [];
    } else {
      DigitsRoundTrip(n / 10);
      assert s[..|s| - 1] == NatToDigits(n / 10);
    }
  }

  lemma {:induction false} CanonicalPositive(d: string)
    requires Canonical(d) && d[0] != '0'
    ensures DigitsValue(d) >= 1
  {
    if |d| > 1 {
      CanonicalPositive(d[..|d| - 1]);
    }
  }

  /** Writing out the value of a canonical digit string gives that string back. */
  lemma {:induction false} DigitsCanonical(d: string)
    requires Canonical(d)
    ensures NatToDigits(DigitsValue(d)) == d
  {
    var init := d[..|d| - 1];
    if |d| == 1 {
      assert init == [];
      assert NatToDigits(DigitsValue(d)) == [d[0]];
    } else {
      DigitsCanonical(init);
      CanonicalPositive(init);
      assert init + [d[|d| - 1]] == d;
    }
  }

  /**
   * `int()` accepts exactly the integer literals once whitespace is
   * stripped, and reads a plain digit string as its decimal value.
   */
  lemma ParseIntMeaning(s: string)
    ensures ParseInt(s).Some? <==> IsIntLiteral(Strip(s))
    ensures ParseInt(s).Some? && AllDigits(Strip(s)) ==> ParseInt(s).value == DigitsValue(Strip(s))
  {
  }

  /** A string that starts and ends with a non-space character is left alone by `Strip`. */
  lemma StripTrimmed(s: string)
    requires |s| > 0 && !IsSpace(s[0]) && !IsSpace(s[|s| - 1])
    ensures Strip(s) == s
  {
  }

  /** A plain digit string is read as its decimal value. */
  lemma ParseDigits(d: string)
    requires |d| >= 1 && AllDigits(d)
    ensures ParseInt(d) == Some(DigitsValue(d))
  {
    assert Strip(d) == d by {
      StripTrimmed(d);
    }
  }

  /** A plus sign followed by digits is read as the decimal value. */
  lemma ParsePlusDigits(d: string)
    requires |d| >= 1 && AllDigits(d)
    ensures ParseInt("+" + d) == Some(DigitsValue(d) as int)
  {
    var s := "+" + d;
    assert s[0] == '+' && s[1..] == d && s[|s| - 1] == d[|d| - 1];
    assert Strip(s) == s by {
      StripTrimmed(s);
    }
    assert ParseLiteral(s) == Some(DigitsValue(d) as int) by {
      assert ParseUnsigned(s[1..]) == Some(DigitsValue(d) as int);
    }
  }

  /** A minus sign followed by digits is read as the negated decimal value. */
  lemma ParseNegDigits(d: string)
    requires |d| >= 1 && AllDigits(d)
    ensures ParseInt("-" + d) == Some(-(DigitsValue(d) as int))
  {
    var s := "-" + d;
    assert s[0] == '-' && s[1..] == d && s[|s| - 1] == d[|d| - 1];
    assert Strip(s) == s by {
      StripTrimmed(s);
    }
    assert ParseLiteral(s) == Some(-(DigitsValue(d) as int)) by {
      assert ParseUnsigned(s[1..]) == Some(DigitsValue(d) as int);
    }
  }

  /** `int()` reads back the digits `"%d"` writes for a non-negative number. */
  lemma ParseIntToStringPos(n: int)
    requires n >= 0
    ensures ParseInt(IntToString(n)) == Some(n)
  {
    ParseDigits(NatToDigits(n));
    DigitsRoundTrip(n);
  }

  /** `int()` reads back the minus sign and digits `"%d"` writes for a negative number. */
  lemma ParseIntToStringNeg(n: int)
    requires n < 0
    ensures ParseInt(IntToString(n)) == Some(n)
  {
    var m: nat := -n;
    var d := NatToDigits(m);
    assert IntToString(n) == "-" + d;
    DigitsRoundTrip(m);
    assert DigitsValue(d) == m;
    ParseNegDigits(d);
  }

  /** `int()` reads back what `"%d"` writes. */
  lemma ParseIntToString(n: int)
    ensures ParseInt(IntToString(n)) == Some(n)
  {
    if n < 0 {
      ParseIntToStringNeg(n);
    } else {
      ParseIntToStringPos(n);
    }
  }

  /** `int()` reads back what `"%02d"` writes for a remainder by 60. */
  lemma ParsePad2(n: int)
    requires 0 <= n < 60
    ensures ParseInt(Pad2(n)) == Some(n)
  {
    var s := Pad2(n);
    if n < 10 {
      assert s == ['0', DigitChar(n)];
      StripTrimmed(s);
      assert s[..1] == ['0'] && ['0'][..0] == [];
      assert DigitsValue(s) == n;
    } else {
      ParseIntToString(n);
    }
  }

  // ---------------------------------------------------------------------
  // `to_seconds` and `fmt_seconds`

  /**
   * `to_seconds` succeeds exactly when the text has one colon and both
   * pieces are integers, and then gives minutes times 60 plus seconds. A
   * piece `int()` rejects is reported first, the leftmost such piece; a
   * wrong number of pieces is reported, with the number found, only when
   * every piece is an integer.
   */
  lemma ToSecondsMeaning(s: string)
    ensures ToSeconds(s).Ok? <==>
              (Count(s, ':') == 1 && ParseInt(Split(s, ':')[0]).Some? && ParseInt(Split(s, ':')[1]).Some?)
    ensures ToSeconds(s).Ok? ==>
              (Count(s, ':') == 1 && ParseInt(Split(s, ':')[0]).Some? && ParseInt(Split(s, ':')[1]).Some? &&
               ToSeconds(s).value == 60 * ParseInt(Split(s, ':')[0]).value + ParseInt(Split(s, ':')[1]).value)
    ensures ToSeconds(s).Err? && ToSeconds(s).error.WrongPartCount? ==>
              ToSeconds(s).error.count == Count(s, ':') + 1 != 2 &&
              forall i :: 0 <= i < |Split(s, ':')| ==> ParseInt(Split(s, ':')[i]).Some?
    ensures ToSeconds(s).Err? && ToSeconds(s).error.NotAnInteger? ==>
              exists k :: 0 <= k < |Split(s, ':')| && ToSeconds(s).error.part == Split(s, ':')[k] &&
                          ParseInt(Split(s, ':')[k]).None? &&
                          forall j :: 0 <= j < k ==> ParseInt(Split(s, ':')[j]).Some?
  {
    var parts := Split(s, ':');
    var parsed := ParseEach(parts);
    var r := ToSeconds(s);
    assert r == Unpack(parts, parsed);
    if r.Err? && r.error.NotAnInteger? {
      var k :| 0 <= k < |parts| && r.error.part == parts[k] && parsed[k].None? &&
               forall j :: 0 <= j < k ==> parsed[j].Some?;
      assert ParseInt(parts[k]).None?;
      assert forall j :: 0 <= j < k ==> ParseInt(parts[j]).Some?;
    }
  }

  /** The decimal text of a number holds no colon. */
  lemma NoColonInNumber(n: int)
    ensures ':' !in IntToString(n) && ':' !in Pad2(n)
  {
    var d := NatToDigits(if n < 0 then -n else n);
    assert forall i :: 0 <= i < |d| ==> IsDigit(d[i]);
    assert ':' !in d;
  }

  /** Two colon-free pieces joined by one colon split back into those two pieces. */
  lemma SplitTwo(a: string, b: string)
    requires ':' !in a && ':' !in b
    ensures Split(a + ":" + b, ':') == [a, b]
  {
    assert a + ":" + b == a + [':'] + b;
    SplitAfterPiece(a, b, ':');
    SplitNoSep(b, ':');
  }

  /** The text `"%d:%02d"` writes splits at its one colon. */
  lemma SplitFormatted(n: int)
    ensures Split(FmtSeconds(n), ':') == [IntToString(n / 60), Pad2(n % 60)]
  {
    NoColonInNumber(n / 60);
    NoColonInNumber(n % 60);
    SplitTwo(IntToString(n / 60), Pad2(n % 60));
  }

  /** Two integer pieces unpack to the first times 60 plus the second. */
  lemma UnpackPair(a: string, b: string, x: int, y: int)
    requires ParseInt(a) == Some(x) && ParseInt(b) == Some(y)
    ensures Unpack([a, b], ParseEach([a, b])) == Ok(60 * x + y)
  {
    var parsed := ParseEach([a, b]);
    assert parsed[0] == ParseInt(a) && parsed[1] == ParseInt(b);
  }

  /** The two pieces `fmt_seconds` writes unpack to minutes times 60 plus seconds. */
  lemma UnpackNumbers(m: int, sec: int)
    requires 0 <= sec < 60
    ensures Unpack([IntToString(m), Pad2(sec)], ParseEach([IntToString(m), Pad2(sec)])) == Ok(60 * m + sec)
  {
    ParsePad2(sec);
    ParseIntToString(m);
    UnpackPair(IntToString(m), Pad2(sec), m, sec);
  }

  /** Formatting any number of seconds and parsing the text gives the number back. */
  lemma FormatThenParse(n: int)
    ensures ToSeconds(FmtSeconds(n)) == Ok(n)
  {
    var m := n / 60;
    var sec := n % 60;
    assert 60 * m + sec == n;
    SplitFormatted(n);
    UnpackNumbers(m, sec);
  }

  lemma TwoDigitsValue(d1: char, d2: char)
    requires IsDigit(d1) && IsDigit(d2)
    ensures DigitsValue([d1, d2]) == DigitValue(d1) * 10 + DigitValue(d2)
  {
    var s := [d1, d2];
    assert s[..1] == [d1];
    assert [d1][..0] == [];
    assert DigitsValue([d1]) == DigitsValue([]) * 10 + DigitValue(d1);
    assert DigitsValue(s) == DigitsValue(s[..1]) * 10 + DigitValue(s[1]);
  }

  /** Two digits whose value is below 60 are what `"%02d"` writes for that value. */
  lemma Pad2TwoDigits(d1: char, d2: char)
    requires '0' <= d1 <= '5' && IsDigit(d2)
    ensures Pad2(DigitValue(d1) * 10 + DigitValue(d2)) == [d1, d2]
  {
    var v := DigitValue(d1) * 10 + DigitValue(d2);
    if d1 == '0' {
      assert NatToDigits(v) == [d2];
    } else {
      assert v / 10 == DigitValue(d1) && v % 10 == DigitValue(d2);
      assert NatToDigits(v) == NatToDigits(v / 10) + [DigitChar(v % 10)];
    }
  }

  /** Minutes times 60 plus seconds below 60 formats as the text of those minutes and seconds. */
  lemma FmtParts(mins: int, secs: int, ms: string, ss: string)
    requires 0 <= secs < 60 && IntToString(mins) == ms && Pad2(secs) == ss
    ensures FmtSeconds(60 * mins + secs) == ms + ":" + ss
  {
    var n := 60 * mins + secs;
    assert n / 60 == mins && n % 60 == secs;
  }

  /** Formatting M times 60 plus SS writes the canonical "M:SS" back. */
  lemma FormatCanonical(m: string, d1: char, d2: char, n: int)
    requires Canonical(m) && '0' <= d1 <= '5' && IsDigit(d2)
    requires n == 60 * DigitsValue(m) + (DigitValue(d1) * 10 + DigitValue(d2))
    ensures FmtSeconds(n) == m + ":" + [d1, d2]
  {
    var mins := DigitsValue(m);
    var secs := DigitValue(d1) * 10 + DigitValue(d2);
    assert IntToString(mins) == m by {
      DigitsCanonical(m);
    }
    assert Pad2(secs) == [d1, d2] by {
      Pad2TwoDigits(d1, d2);
    }
    FmtParts(mins, secs, m, [d1, d2]);
  }

  /** Text that `fmt_seconds` wrote parses and formats back to itself. */
  lemma FormattedTextRoundTrip(s: string, n: int)
    requires FmtSeconds(n) == s
    ensures ToSeconds(s).Ok? && FmtSeconds(ToSeconds(s).value) == s
  {
    FormatThenParse(n);
  }

  /**
   * Parsing a canonical "M:SS" (no leading zero on the minutes, seconds
   * below 60 written with two digits) and formatting the result gives the
   * same text back.
   */
  lemma ParseThenFormat(m: string, d1: char, d2: char)
    requires Canonical(m) && '0' <= d1 <= '5' && IsDigit(d2)
    ensures ToSeconds(m + ":" + [d1, d2]).Ok?
    ensures FmtSeconds(ToSeconds(m + ":" + [d1, d2]).value) == m + ":" + [d1, d2]
  {
    FormatCanonical(m, d1, d2, 60 * DigitsValue(m) + (DigitValue(d1) * 10 + DigitValue(d2)));
    FormattedTextRoundTrip(m + ":" + [d1, d2], 60 * DigitsValue(m) + (DigitValue(d1) * 10 + DigitValue(d2)));
  }
}

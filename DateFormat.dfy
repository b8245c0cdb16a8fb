/**
 * Date and token strings. The calendar fields, the clock reading and the
 * random four-digit number are parameters: `getFullYear()`, the 0-based
 * `getMonth()`, `getDate()`, `Date.now()` and `randomIntBetween(1000, 9999)`.
 */
module DateFormat {
  import opened Wrappers
  import opened Arith
  import opened JsText

  // ---------------------------------------------------------------------
  // getTimestamp
  // ---------------------------------------------------------------------

  /**
   * getTimestamp: `String(timestamp).slice(-last)` when `last <= 13`,
   * `undefined` otherwise. Since `-0` is `0`, `last == 0` keeps the whole
   * text, and a negative `last` drops its first `-last` characters.
   */
  function GetTimestamp(timestamp: int, last: int): (r: Option<string>)
    ensures r.None? <==> last > 13
    ensures 1 <= last <= 13 ==> r == Some(Last(IntToString(timestamp), last))
    ensures last == 0 ==> r == Some(IntToString(timestamp))
    ensures last < 0 ==> r == Some(IntToString(timestamp)[Min(-last, |IntToString(timestamp)|)..])
  {
    if last <= 13 then Some(SliceFrom(IntToString(timestamp), -last)) else None
  }

  /** For a clock reading, the result is its last `last` digits: the reading modulo 10^last. */
  lemma TimestampLastDigits(timestamp: nat, last: int)
    requires 1 <= last <= 13
    ensures var r := GetTimestamp(timestamp, last);
            && r.Some?
            && |r.value| == Min(last, |NatToString(timestamp)|)
            && AllDigits(r.value)
            && DecimalValue(r.value) == timestamp % Pow10(last)
  {
    SuffixValue(timestamp, last);
  }

  lemma TenDigitText()
    ensures NatToString(1234567890) == "1234567890"
  {
    assert NatToString(1) == "1";
    assert NatToString(12) == "12";
    assert NatToString(123) == "123";
    assert NatToString(1234) == "1234";
    assert NatToString(12345) == "12345";
    assert NatToString(123456) == "123456";
    assert NatToString(1234567) == "1234567";
    assert NatToString(12345678) == "12345678";
    assert NatToString(123456789) == "123456789";
  }

  /** The documented examples: 1234567890 with 6 gives 567890, and with 14 gives `undefined`. */
  lemma TimestampExamples()
    ensures GetTimestamp(1234567890, 6) == Some("567890")
    ensures GetTimestamp(1234567890, 14) == None
  {
    TenDigitText();
    assert Last("1234567890", 6) == "567890";
  }

  // ---------------------------------------------------------------------
  // getTodayDate
  // ---------------------------------------------------------------------

  /** A calendar field padded with zeros to two characters. */
  function TwoDigits(n: int): (t: string)
    ensures |t| == if |IntToString(n)| >= 2 then |IntToString(n)| else 2
    ensures n >= 0 ==> AllDigits(t)
  {
    var t := PadStart(IntToString(n), 2, '0');
    assert n >= 0 ==> AllDigits(t) by {
      if n >= 0 {
        var s := IntToString(n);
        forall j | 0 <= j < |t| ensures IsDigit(t[j]) {
          if j >= |t| - |s| {
            assert t[j] == t[|t| - |s|..][j - (|t| - |s|)] == s[j - (|t| - |s|)];
          }
        }
      }
    }
    t
  }

  /** Every field 0 .. 99 takes exactly two digits and keeps its value. */
  lemma TwoDigitsOfField(n: int)
    requires 0 <= n <= 99
    ensures |TwoDigits(n)| == 2 && AllDigits(TwoDigits(n)) && DecimalValue(TwoDigits(n)) == n
  {
    DecimalValueOfNatToString(n);
    if n < 10 {
      assert TwoDigits(n) == "0" + NatToString(n);
      DecimalValueLeadingZero(NatToString(n));
    } else {
      SmallPowers();
      NatToStringLength(n, 2);
    }
  }

  /** The month as printed: the 0-based month index plus one, two digits. */
  function MonthText(monthIndex: int): (t: string)
    ensures |t| >= 2
    ensures monthIndex >= -1 ==> AllDigits(t)
  {
    TwoDigits(monthIndex + 1)
  }

  /** getTodayDate: `${yyyy}${mm}${dd}` without a separator, `${yyyy}${sep}${mm}${sep}${dd}` with one. */
  function GetTodayDate(year: int, monthIndex: int, day: int, sep: Option<string>): (date: string)
    ensures |date| == |IntToString(year)| + |MonthText(monthIndex)| + |TwoDigits(day)|
                      + (if sep.None? then 0 else 2 * |sep.value|)
  {
    var yyyy := IntToString(year);
    var mm := MonthText(monthIndex);
    var dd := TwoDigits(day);
    if sep.None? then yyyy + mm + dd else yyyy + sep.value + mm + sep.value + dd
  }

  /** A calendar date of a four-digit year */
  predicate FourDigitDate(year: int, monthIndex: int, day: int) {
    1000 <= year <= 9999 && 0 <= monthIndex <= 11 && 1 <= day <= 31
  }

  /** Three digit strings side by side: all digits, and each can be cut back out. */
  lemma DigitsSideBySide(a: string, b: string, c: string)
    requires AllDigits(a) && AllDigits(b) && AllDigits(c)
    ensures var s := a + b + c;
            && AllDigits(s)
            && s[..|a|] == a && s[|a|..|a| + |b|] == b && s[|a| + |b|..] == c
  {
    var s := a + b + c;
    forall j | 0 <= j < |s| ensures IsDigit(s[j]) {
      if j < |a| {
        assert s[j] == a[j];
      } else if j < |a| + |b| {
        assert s[j] == b[j - |a|];
      } else {
        assert s[j] == c[j - |a| - |b|];
      }
    }
    assert s[..|a|] == a;
    assert s[|a|..|a| + |b|] == b;
    assert s[|a| + |b|..] == c;
  }

  /** A four-digit and two two-digit fields side by side make eight digits, each field at its place. */
  lemma DateFieldsSideBySide(yyyy: string, mm: string, dd: string)
    requires |yyyy| == 4 && |mm| == 2 && |dd| == 2
    requires AllDigits(yyyy) && AllDigits(mm) && AllDigits(dd)
    ensures var d := yyyy + mm + dd;
            && |d| == 8 && AllDigits(d)
            && d[..4] == yyyy && d[4..6] == mm && d[6..] == dd
  {
    DigitsSideBySide(yyyy, mm, dd);
  }

  /** Every field 0 .. 99 is printed with two characters. */
  lemma TwoDigitsLength(n: int)
    requires 0 <= n <= 99
    ensures |TwoDigits(n)| == 2
  {
    if n >= 10 {
      SmallPowers();
      NatToStringLength(n, 2);
    }
  }

  /** Without a separator the date is eight digits: four for the year, two for the month, two for the day. */
  lemma TodayDateLayout(year: int, monthIndex: int, day: int)
    requires FourDigitDate(year, monthIndex, day)
    ensures var d := GetTodayDate(year, monthIndex, day, None);
            && |d| == 8 && AllDigits(d)
            && d[..4] == IntToString(year) && d[4..6] == MonthText(monthIndex) && d[6..] == TwoDigits(day)
  {
    var yyyy, mm, dd := IntToString(year), MonthText(monthIndex), TwoDigits(day);
    assert GetTodayDate(year, monthIndex, day, None) == yyyy + mm + dd;
    FourDigitLength(year);
    TwoDigitsLength(monthIndex + 1);
    TwoDigitsLength(day);
    DateFieldsSideBySide(yyyy, mm, dd);
  }

  /** The eight digits read back as the year, the 1-based month and the day. */
  lemma TodayDateReadsBack(year: int, monthIndex: int, day: int)
    requires FourDigitDate(year, monthIndex, day)
    ensures var d := GetTodayDate(year, monthIndex, day, None);
            && |d| == 8 && AllDigits(d[..4]) && AllDigits(d[4..6]) && AllDigits(d[6..])
            && DecimalValue(d[..4]) == year
            && DecimalValue(d[4..6]) == monthIndex + 1
            && DecimalValue(d[6..]) == day
  {
    TodayDateLayout(year, monthIndex, day);
    DecimalValueOfNatToString(year);
    TwoDigitsOfField(monthIndex + 1);
    TwoDigitsOfField(day);
  }

  /** With a separator, the same eight digits are split as year, month and day by it. */
  lemma TodayDateWithSeparator(year: int, monthIndex: int, day: int, sep: string)
    requires FourDigitDate(year, monthIndex, day)
    ensures var d := GetTodayDate(year, monthIndex, day, None);
            |d| == 8 && GetTodayDate(year, monthIndex, day, Some(sep)) == d[..4] + sep + d[4..6] + sep + d[6..]
  {
    TodayDateLayout(year, monthIndex, day);
  }

  /** The month index counts from 0: index 9 prints 10 and index 0 prints 01. */
  lemma MonthTextExamples()
    ensures MonthText(9) == "10" && MonthText(0) == "01"
  {
    assert NatToString(10) == "10";
  }

  // The concrete examples below are proved in small steps: the printed text of
  // each literal field (YearText, DayText, DateFieldTexts, ThirteenDigitText,
  // TokenFieldTexts), the join of the literal pieces (DateLiterals,
  // TokenLiterals), and JoinEqual to substitute one for the other. Equating a
  // literal string with the whole formatted term in one step is far costlier.

  /** Equal pieces joined give equal text. */
  lemma JoinEqual(a: string, b: string, c: string, a': string, b': string, c': string)
    requires a == a' && b == b' && c == c'
    ensures a + b + c == a' + b' + c'
  {
  }

  /** The printed fields of 4 October 2024. */
  lemma DateFieldTexts()
    ensures IntToString(2024) == "2024" && MonthText(9) == "10" && TwoDigits(4) == "04"
  {
    YearText();
    MonthTextExamples();
    DayText();
  }

  lemma YearText()
    ensures IntToString(2024) == "2024"
  {
    assert NatToString(2024) == "2024";
  }

  lemma DayText()
    ensures TwoDigits(4) == "04"
  {
  }

  lemma DateLiterals()
    ensures "2024" + "10" + "04" == "20241004"
    ensures "2024-" + "10" + "-04" == "2024-10-04"
  {
  }

  /** The documented examples for 4 October 2024: 20241004, and 2024-10-04 with `-`. */
  lemma TodayDateExamples()
    ensures GetTodayDate(2024, 9, 4, None) == "20241004"
    ensures GetTodayDate(2024, 9, 4, Some("-")) == "2024-10-04"
  {
    var yyyy, mm, dd := IntToString(2024), MonthText(9), TwoDigits(4);
    assert GetTodayDate(2024, 9, 4, None) == yyyy + mm + dd;
    assert GetTodayDate(2024, 9, 4, Some("-")) == (yyyy + "-") + mm + ("-" + dd);
    DateFieldTexts();
    JoinEqual(yyyy, mm, dd, "2024", "10", "04");
    JoinEqual(yyyy + "-", mm, "-" + dd, "2024-", "10", "-04");
    DateLiterals();
  }

  // ---------------------------------------------------------------------
  // getTokenBancs
  // ---------------------------------------------------------------------

  /** getTokenBancs: `${today}${nnnn}${timestamp}`, today's date without a separator. */
  function GetTokenBancs(year: int, monthIndex: int, day: int, nnnn: int, now: int): (token: string)
    ensures |token| == |GetTodayDate(year, monthIndex, day, None)| + |IntToString(nnnn)| + |IntToString(now)|
  {
    GetTodayDate(year, monthIndex, day, None) + IntToString(nnnn) + IntToString(now)
  }

  /** A token is all digits: eight of date, the four of the random number, then the clock reading. */
  lemma TokenLayout(year: int, monthIndex: int, day: int, nnnn: int, now: nat)
    requires FourDigitDate(year, monthIndex, day)
    requires 1000 <= nnnn <= 9999
    ensures var token := GetTokenBancs(year, monthIndex, day, nnnn, now);
            && |token| == 12 + |NatToString(now)|
            && AllDigits(token)
            && token[..8] == GetTodayDate(year, monthIndex, day, None)
            && token[8..12] == NatToString(nnnn)
            && token[12..] == NatToString(now)
  {
    var today, digits, clock := GetTodayDate(year, monthIndex, day, None), IntToString(nnnn), IntToString(now);
    assert GetTokenBancs(year, monthIndex, day, nnnn, now) == today + digits + clock;
    TodayDateLayout(year, monthIndex, day);
    FourDigitLength(nnnn);
    TokenFieldsSideBySide(today, digits, clock);
  }

  /** Eight digits of date, four more and then any digits make one digit string, each part at its place. */
  lemma TokenFieldsSideBySide(today: string, nnnn: string, now: string)
    requires |today| == 8 && |nnnn| == 4
    requires AllDigits(today) && AllDigits(nnnn) && AllDigits(now)
    ensures var token := today + nnnn + now;
            && |token| == 12 + |now| && AllDigits(token)
            && token[..8] == today && token[8..12] == nnnn && token[12..] == now
  {
    DigitsSideBySide(today, nnnn, now);
  }

  /** A token reads back field by field: the date, the random number and the clock reading. */
  lemma TokenReadsBack(year: int, monthIndex: int, day: int, nnnn: int, now: nat)
    requires FourDigitDate(year, monthIndex, day)
    requires 1000 <= nnnn <= 9999
    ensures var token := GetTokenBancs(year, monthIndex, day, nnnn, now);
            && |token| >= 12 && AllDigits(token[8..12]) && AllDigits(token[12..])
            && token[..8] == GetTodayDate(year, monthIndex, day, None)
            && DecimalValue(token[8..12]) == nnnn
            && DecimalValue(token[12..]) == now
  {
    TokenLayout(year, monthIndex, day, nnnn, now);
    DecimalValueOfNatToString(nnnn);
    DecimalValueOfNatToString(now);
  }

  lemma ThirteenDigitText()
    ensures NatToString(1696412345678) == "1696412345678"
  {
    assert NatToString(1) == "1";
    assert NatToString(16) == "16";
    assert NatToString(169) == "169";
    assert NatToString(1696) == "1696";
    assert NatToString(16964) == "16964";
    assert NatToString(169641) == "169641";
    assert NatToString(1696412) == "1696412";
    assert NatToString(16964123) == "16964123";
    assert NatToString(169641234) == "169641234";
    assert NatToString(1696412345) == "1696412345";
    assert NatToString(16964123456) == "16964123456";
    assert NatToString(169641234567) == "169641234567";
  }

  /** The printed number and clock reading of the documented token. */
  lemma TokenFieldTexts()
    ensures IntToString(1234) == "1234" && IntToString(1696412345678) == "1696412345678"
  {
    assert NatToString(1234) == "1234";
    ThirteenDigitText();
  }

  lemma TokenLiterals()
    ensures "20241004" + "1234" + "1696412345678" == "2024100412341696412345678"
  {
  }

  /** The documented token: 4 October 2024, the number 1234 and the clock reading 1696412345678. */
  lemma TokenExample()
    ensures GetTokenBancs(2024, 9, 4, 1234, 1696412345678) == "2024100412341696412345678"
  {
    var today, nnnn, now := GetTodayDate(2024, 9, 4, None), IntToString(1234), IntToString(1696412345678);
    assert GetTokenBancs(2024, 9, 4, 1234, 1696412345678) == today + nnnn + now;
    TodayDateExamples();
    TokenFieldTexts();
    JoinEqual(today, nnnn, now, "20241004", "1234", "1696412345678");
    TokenLiterals();
  }
}

/** The weekday table, the weekday offset that `getTaskDate` adds to today's
    date, and the `YYYY-MM-DD` rendering of `formatDate`. Dates are integer
    triples and weekdays the numbers 0 (Sunday) to 6 that `Date.getDay`
    returns; the calendar arithmetic of JavaScript's `Date` is not modelled. */
module Calendar {
  import opened Wrappers
  import opened Text

  /** The `DAYS` table: German weekday abbreviations to 1..7, Sunday being 7. */
  function DayNumber(token: string): (r: Option<int>)
    ensures r.Some? ==> 1 <= r.value <= 7
    ensures r.Some? <==> token in {"mo", "di", "mi", "do", "fr", "sa", "so"}
  {
    if token == "mo" then Some(1)
    else if token == "di" then Some(2)
    else if token == "mi" then Some(3)
    else if token == "do" then Some(4)
    else if token == "fr" then Some(5)
    else if token == "sa" then Some(6)
    else if token == "so" then Some(7)
    else None
  }

  /** `(7 + DAYS[token.toLowerCase()] - today) % 7`: the number of days from
      the weekday `today` to the next day named `token` (today itself when it
      already is that day). A token outside the table makes the sum `NaN`
      in the source (an absent key reads `undefined`, an inherited member
      such as `constructor` reads a non-number), modelled as `None`. The dividend lies in 1..14, so
      JavaScript's truncating `%` and Dafny's Euclidean `%` agree on it. */
  function WeekdayOffset(token: string, today: int): (r: Option<int>)
    requires 0 <= today <= 6
    ensures r.None? <==> DayNumber(Lower(token)).None?
    ensures r.Some? ==> 0 <= r.value <= 6
    ensures r.Some? ==> (today + r.value) % 7 == DayNumber(Lower(token)).value % 7
  {
    match DayNumber(Lower(token))
    case None => None
    case Some(d) => Some((7 + d - today) % 7)
  }

  /** The offset is the least one: no earlier day in the coming week has the
      requested weekday. */
  lemma WeekdayOffsetLeast(token: string, today: int, k: int)
    requires 0 <= today <= 6
    requires WeekdayOffset(token, today).Some?
    requires 0 <= k < WeekdayOffset(token, today).value
    ensures (today + k) % 7 != DayNumber(Lower(token)).value % 7
  {
  }

  /** The two-digit padding of `formatDate`: prefix a `0` while shorter than two. */
  function Pad2(s: string): string
  {
    if |s| < 2 then "0" + s else s
  }

  /** `formatDate`: `[year, month, day].join('-')` where the month and the day
      of the month are padded to two digits. */
  function FormatDate(year: int, month: int, day: int): string
  {
    Join([IntToString(year), Pad2(IntToString(month)), Pad2(IntToString(day))], '-')
  }

  /** A two-digit number renders as its tens digit then its units digit,
      with a leading `0` below ten. */
  lemma TwoDigits(n: int)
    requires 1 <= n <= 99
    ensures Pad2(IntToString(n)) == [DigitChar(n / 10), DigitChar(n % 10)]
  {
    if n >= 10 {
      assert NatToString(n / 10) == [DigitChar(n / 10)];
    }
  }

  /** For every month 1..12 and day 1..31 the result is `year-MM-DD` with
      exactly two digits for the month and for the day. */
  lemma FormatDateShape(year: int, month: int, day: int)
    requires 1 <= month <= 12 && 1 <= day <= 31
    ensures FormatDate(year, month, day) ==
      IntToString(year) + "-" + [DigitChar(month / 10), DigitChar(month % 10)]
      + "-" + [DigitChar(day / 10), DigitChar(day % 10)]
  {
    TwoDigits(month);
    TwoDigits(day);
    JoinThree(IntToString(year), Pad2(IntToString(month)), Pad2(IntToString(day)), '-');
  }

  lemma JoinThree(a: string, b: string, c: string, sep: char)
    ensures Join([a, b, c], sep) == a + [sep] + b + [sep] + c
  {
    assert [a, b, c][1..] == [b, c];
    assert [b, c][1..] == [c];
    assert Join([c], sep) == c;
    assert Join([b, c], sep) == b + [sep] + c;
    assert Join([a, b, c], sep) == a + [sep] + (b + [sep] + c);
  }

  /** Reads a `YYYY-MM-DD` string back into its three numbers: the partner of
      `FormatDate`. */
  function ParseDate(s: string): Option<(int, int, int)>
  {
    var parts := Split(s, '-');
    if |parts| == 3 && AllDigits(parts[0]) && AllDigits(parts[1]) && AllDigits(parts[2])
    then Some((ParseNat(parts[0]), ParseNat(parts[1]), ParseNat(parts[2])))
    else None
  }

  lemma PaddedValue(n: nat)
    ensures AllDigits(Pad2(NatToString(n))) && ParseNat(Pad2(NatToString(n))) == n
  {
    ParseNatToString(n);
    if |NatToString(n)| < 2 {
      ParseNatLeadingZero(NatToString(n));
    }
  }

  /** A date rendered by `FormatDate` reads back as the same date, for every
      year, month and day that carry no minus sign. */
  lemma {:induction false} FormatDateRoundTrip(year: nat, month: nat, day: nat)
    ensures ParseDate(FormatDate(year, month, day)) == Some((year, month, day))
  {
    var parts := [IntToString(year), Pad2(IntToString(month)), Pad2(IntToString(day))];
    ParseNatToString(year);
    PaddedValue(month);
    PaddedValue(day);
    forall j | 0 <= j < 3
      ensures '-' !in parts[j]
    {
      assert AllDigits(parts[j]);
      assert forall i :: 0 <= i < |parts[j]| ==> parts[j][i] != '-';
    }
    SplitJoin(parts, '-');
  }
}

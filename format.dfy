/**
 * The two formatters the page templates call: amounts in cents shown as currency,
 * and a transaction's local date and time shown as `DD Mon YYYY, HH:MM`.
 */
module Format {
  import opened Optional
  import opened Text

  /** `n.toString().padStart(2, '0')`: a leading zero below ten, otherwise the digits unchanged. */
  function Pad2(n: nat): (s: string)
    ensures n < 100 ==> |s| == 2
    ensures forall i :: 0 <= i < |s| ==> IsDigit(s[i])
  {
    if n < 10 then "0" + NatDigits(n) else NatDigits(n)
  }

  lemma ParsePad2(n: nat)
    requires n < 100
    ensures ParseNat(Pad2(n)) == Some(n)
  {
    if n < 10 {
      assert Pad2(n)[..1] == "0";
      assert ParseNat("0") == Some(0);
    } else {
      ParseNatDigits(n);
    }
  }

  /**
   * An amount in cents as currency with two decimals: a minus sign when negative,
   * the whole units, a point, and the cents padded to two digits.
   */
  function DisplayCurrency(cents: int): (s: string)
    ensures |s| >= 4 && s[|s| - 3] == '.'
    ensures cents < 0 <==> s[0] == '-'
    ensures s[if cents < 0 then 1 else 0] == '0' ==> -100 < cents < 100 && s[(if cents < 0 then 1 else 0) + 1] == '.'
  {
    var magnitude := if cents < 0 then -cents else cents;
    (if cents < 0 then "-" else "") + NatDigits(magnitude / 100) + "." + Pad2(magnitude % 100)
  }

  /** Reads a currency string: an optional minus sign, whole units, a point and exactly two digits of cents. */
  function ParseCurrency(s: string): Option<int> {
    if |s| < 4 || s[|s| - 3] != '.' then None
    else
      var whole := s[..|s| - 3];
      var negative := whole[0] == '-';
      var units := ParseNat(if negative then whole[1..] else whole);
      var cents := ParseNat(s[|s| - 2..]);
      if units.None? || cents.None? then None
      else
        var magnitude := units.value * 100 + cents.value;
        Some(if negative then -magnitude else magnitude)
  }

  /** A currency string reads back as its sign applied to units times a hundred plus cents. */
  lemma ReadCurrency(negative: bool, units: string, cents: string)
    requires units != [] && IsDigit(units[0]) && |cents| == 2
    requires ParseNat(units).Some? && ParseNat(cents).Some?
    ensures var magnitude := ParseNat(units).value * 100 + ParseNat(cents).value;
      ParseCurrency((if negative then "-" else "") + units + "." + cents)
        == Some(if negative then -magnitude else magnitude)
  {
    var sign := if negative then "-" else "";
    var s := sign + units + "." + cents;
    assert s[..|s| - 3] == sign + units;
    assert s[|s| - 2..] == cents;
    if negative {
      assert (sign + units)[1..] == units;
    } else {
      assert sign + units == units;
    }
  }

  /** Every amount is shown exactly: reading the display back gives the same number of cents. */
  lemma CurrencyRoundTrip(cents: int)
    ensures ParseCurrency(DisplayCurrency(cents)) == Some(cents)
  {
    var magnitude := if cents < 0 then -cents else cents;
    var units := NatDigits(magnitude / 100);
    var pad := Pad2(magnitude % 100);
    assert ParseNat(units) == Some(magnitude / 100) by { ParseNatDigits(magnitude / 100); }
    assert ParseNat(pad) == Some(magnitude % 100) by { ParsePad2(magnitude % 100); }
    assert DisplayCurrency(cents) == (if cents < 0 then "-" else "") + units + "." + pad;
    ReadCurrency(cents < 0, units, pad);
  }

  const Months: seq<string> := ["Jan", "Feb", "Mar", "Apr", "May", "Jun", "Jul", "Aug", "Sep", "Oct", "Nov", "Dec"]

  /** The position of a month's abbreviation in `Months`. */
  function MonthIndex(name: string): (r: Option<nat>)
    ensures r.Some? ==> r.value < 12 && Months[r.value] == name
  {
    if name == "Jan" then Some(0) else if name == "Feb" then Some(1) else if name == "Mar" then Some(2)
    else if name == "Apr" then Some(3) else if name == "May" then Some(4) else if name == "Jun" then Some(5)
    else if name == "Jul" then Some(6) else if name == "Aug" then Some(7) else if name == "Sep" then Some(8)
    else if name == "Oct" then Some(9) else if name == "Nov" then Some(10) else if name == "Dec" then Some(11)
    else None
  }

  /**
   * The local calendar fields of an instant, as JavaScript's `Date` getters give
   * them: day of month, month index from 0, full year, hour and minute.
   */
  datatype LocalTime = LocalTime(day: nat, month: nat, year: int, hour: nat, minute: nat)

  /** The fields `Date`'s getters can return. */
  predicate ValidFields(f: LocalTime) {
    1 <= f.day <= 31 && f.month < 12 && f.hour < 24 && f.minute < 60
  }

  /**
   * `DD Mon YYYY, HH:MM`: day, hour and minute padded to two digits, the month's
   * abbreviation, the year as it is; for the fields `Date` returns, each sits at a
   * fixed place counted from the start or from the end.
   */
  function DisplayDatetime(f: LocalTime): (s: string)
    requires f.month < 12
    ensures ValidFields(f) ==>
      && |s| >= 15
      && s[..2] == Pad2(f.day) && s[2] == ' ' && s[3..6] == Months[f.month] && s[6] == ' '
      && s[7..|s| - 7] == IntToDecimal(f.year) && s[|s| - 7..|s| - 5] == ", "
      && s[|s| - 5..|s| - 3] == Pad2(f.hour) && s[|s| - 3] == ':' && s[|s| - 2..] == Pad2(f.minute)
  {
    var day, month, year := Pad2(f.day), Months[f.month], IntToDecimal(f.year);
    var hour, minute := Pad2(f.hour), Pad2(f.minute);
    if ValidFields(f) then
      DatetimeLayout(day, month, year, hour, minute);
      day + " " + month + " " + year + ", " + hour + ":" + minute
    else day + " " + month + " " + year + ", " + hour + ":" + minute
  }

  /** Reads the layout `DisplayDatetime` writes back into its fields. */
  function ParseDisplayDatetime(s: string): Option<LocalTime> {
    if |s| < 15 || s[2] != ' ' || s[6] != ' ' || s[|s| - 7..|s| - 5] != ", " || s[|s| - 3] != ':' then None
    else
      var day := ParseNat(s[..2]);
      var month := MonthIndex(s[3..6]);
      var year := ParseInt(s[7..|s| - 7]);
      var hour := ParseNat(s[|s| - 5..|s| - 3]);
      var minute := ParseNat(s[|s| - 2..]);
      if day.None? || month.None? || year.None? || hour.None? || minute.None? then None
      else Some(LocalTime(day.value, month.value, year.value, hour.value, minute.value))
  }

  lemma MonthIndexOf(m: nat)
    requires m < 12
    ensures MonthIndex(Months[m]) == Some(m)
  {
  }

  /** The layout loses nothing: every field can be read back from the display. */
  lemma DatetimeRoundTrip(f: LocalTime)
    requires ValidFields(f)
    ensures ParseDisplayDatetime(DisplayDatetime(f)) == Some(f)
  {
    var s := DisplayDatetime(f);
    assert ParseNat(s[..2]) == Some(f.day) by { ParsePad2(f.day); }
    assert MonthIndex(s[3..6]) == Some(f.month) by { MonthIndexOf(f.month); }
    assert ParseInt(s[7..|s| - 7]) == Some(f.year) by { ParseIntDecimal(f.year); }
    assert ParseNat(s[|s| - 5..|s| - 3]) == Some(f.hour) by { ParsePad2(f.hour); }
    assert ParseNat(s[|s| - 2..]) == Some(f.minute) by { ParsePad2(f.minute); }
    ReadFields(s, f);
  }

  /** A string with the separators in place and every field readable parses to those fields. */
  lemma ReadFields(s: string, f: LocalTime)
    requires |s| >= 15 && s[2] == ' ' && s[6] == ' ' && s[|s| - 7..|s| - 5] == ", " && s[|s| - 3] == ':'
    requires ParseNat(s[..2]) == Some(f.day) && MonthIndex(s[3..6]) == Some(f.month)
    requires ParseInt(s[7..|s| - 7]) == Some(f.year)
    requires ParseNat(s[|s| - 5..|s| - 3]) == Some(f.hour) && ParseNat(s[|s| - 2..]) == Some(f.minute)
    ensures ParseDisplayDatetime(s) == Some(f)
  {
  }

  /** Where each field sits in the layout, for fields of the widths the display uses. */
  lemma DatetimeLayout(day: string, month: string, year: string, hour: string, minute: string)
    requires |day| == 2 && |month| == 3 && |year| >= 1 && |hour| == 2 && |minute| == 2
    ensures var s := day + " " + month + " " + year + ", " + hour + ":" + minute;
      && |s| >= 15
      && s[..2] == day && s[2] == ' ' && s[3..6] == month && s[6] == ' ' && s[7..|s| - 7] == year
      && s[|s| - 7..|s| - 5] == ", " && s[|s| - 5..|s| - 3] == hour && s[|s| - 3] == ':' && s[|s| - 2..] == minute
  {
    var head := day + " " + month + " ";
    var tail := ", " + hour + ":" + minute;
    var s := day + " " + month + " " + year + ", " + hour + ":" + minute;
    assert s == head + year + tail;
    assert s[..7] == head && s[7..|s| - 7] == year && s[|s| - 7..] == tail;
  }
}

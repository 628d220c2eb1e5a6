/**
 * The item record and the date key of the habit tracker (src/utils/models.js).
 * Everything here is a pure function of its arguments.
 */
module Models {
  import opened Wrappers
  import opened Gregorian

  /** The `FREQUENCY` values. */
  const DAILY: string := "daily"
  const WEEKLY: string := "weekly"

  /** The `TYPE` values: a habit lives in the habit collection, anything else among the tasks. */
  const HABIT: string := "habit"
  const TASK: string := "task"

  /**
   * A habit or task as stored. `kind` (the source's `type` field) and `frequency` are the source's strings, compared
   * with `===`; `completedDates` holds `YYYY-MM-DD` keys in the order they were added.
   */
  datatype Item = Item(id: string, name: string, kind: string, frequency: string, completedDates: seq<string>)

  /** A new item with the given fields and nothing completed; `id` is the fresh UUID the browser supplies. */
  function CreateItem(id: string, name: string, kind: string, frequency: string): (r: Item)
    ensures r.id == id && r.name == name && r.kind == kind && r.frequency == frequency
    ensures r.completedDates == []
  {
    Item(id, name, kind, frequency, [])
  }

  /** Daily and weekly items are active on every day; an item of any other frequency never is. */
  function IsItemActiveOnDate(item: Item, date: Date): (active: bool)
    ensures active <==> item.frequency == DAILY || item.frequency == WEEKLY
  {
    if item.frequency == DAILY then true
    else if item.frequency == WEEKLY then true
    else false
  }

  /** An item counts as done on `date` when the key of that date is among its completed dates. */
  predicate IsItemCompletedOnDate(item: Item, date: Date)
  {
    FormatDate(date) in item.completedDates
  }

  // ---------------------------------------------------------------- decimal text

  predicate IsDigit(c: char)
  {
    '0' <= c <= '9'
  }

  predicate AllDigits(s: string)
  {
    forall i :: 0 <= i < |s| ==> IsDigit(s[i])
  }

  function DigitChar(k: nat): (c: char)
    requires k < 10
    ensures IsDigit(c)
  {
    ('0' as int + k) as char
  }

  function DigitValue(c: char): (k: nat)
    requires IsDigit(c)
    ensures k < 10 && DigitChar(k) == c
  {
    c as int - '0' as int
  }

  /** `String(n)` for a natural number: its decimal digits, without leading zeros. */
  function Digits(n: nat): (s: string)
    ensures |s| >= 1 && AllDigits(s)
    ensures n > 0 ==> s[0] != '0'
    decreases n
  {
    if n < 10 then [DigitChar(n)] else Digits(n / 10) + [DigitChar(n % 10)]
  }

  /** The number a string of decimal digits denotes; leading zeros add nothing. */
  function ValueOf(s: string): nat
    requires AllDigits(s)
  {
    if s == [] then 0 else ValueOf(s[..|s| - 1]) * 10 + DigitValue(s[|s| - 1])
  }

  /** `String(year)`: a minus sign for years before 0, then the digits of the magnitude. */
  function YearText(y: int): string
  {
    if y < 0 then "-" + Digits(-y) else Digits(y)
  }

  /** `s.padStart(width, fill)` with a one-character fill. */
  function PadStart(s: string, width: nat, fill: char): string
  {
    if |s| >= width then s else seq(width - |s|, _ => fill) + s
  }

  /** A month or day number as `String(n).padStart(2, '0')` renders it. */
  function TwoDigits(n: nat): string
  {
    PadStart(Digits(n), 2, '0')
  }

  /** The key of a date: year, then 1-based month and day each padded to two digits, joined by '-'. */
  function FormatDate(date: Date): string
  {
    YearText(date.year) + "-" + TwoDigits(date.month) + "-" + TwoDigits(date.day)
  }

  /**
   * Reads a `YYYY-MM-DD` key (the `full-date` form of section 5.6 of RFC 3339) back into a
   * date; text of any other shape, or naming a day that does not exist, gives None.
   */
  function ParseDate(s: string): Option<Date>
  {
    if |s| == 10 && s[4] == '-' && s[7] == '-'
       && AllDigits(s[..4]) && AllDigits(s[5..7]) && AllDigits(s[8..]) then
      var c := CalendarDate(ValueOf(s[..4]), ValueOf(s[5..7]), ValueOf(s[8..]));
      if ValidDate(c) then Some(c) else None
    else None
  }

  // ---------------------------------------------------------------- lemmas

  /** Reading back the digits of a number gives the number. */
  lemma {:induction false} ValueOfDigits(n: nat)
    ensures ValueOf(Digits(n)) == n
    decreases n
  {
    if n >= 10 {
      var s := Digits(n);
      assert s[..|s| - 1] == Digits(n / 10);
      ValueOfDigits(n / 10);
    }
  }

  lemma DivMod10(q: nat, k: nat)
    requires k < 10
    ensures (q * 10 + k) / 10 == q && (q * 10 + k) % 10 == k
  {
  }

  /** Digits without a leading zero are exactly the digits of the number they denote. */
  lemma {:induction false} DigitsOfValue(s: string)
    requires |s| >= 1 && AllDigits(s) && s[0] != '0'
    ensures ValueOf(s) >= 1 && Digits(ValueOf(s)) == s
    decreases |s|
  {
    if |s| > 1 {
      var p, c := s[..|s| - 1], s[|s| - 1];
      DigitsOfValue(p);
      var q, k := ValueOf(p), DigitValue(c);
      var v := ValueOf(s);
      assert v == q * 10 + k;
      DivMod10(q, k);
      assert Digits(v) == Digits(q) + [DigitChar(k)];
      assert s == p + [c];
    }
  }

  /** The year text starts with '-' exactly for years before 0; the rest is the digits of the magnitude. */
  lemma YearTextSign(y: int)
    ensures var t := YearText(y);
      |t| >= 1 && (t[0] == '-' <==> y < 0)
      && (y < 0 ==> t[1..] == Digits(-y)) && (y >= 0 ==> t == Digits(y))
  {
    var t := YearText(y);
    if y < 0 {
      assert t == "-" + Digits(-y);
      assert t[1..] == Digits(-y);
    } else {
      assert IsDigit(Digits(y)[0]);
    }
  }

  lemma YearTextInjective(a: int, b: int)
    requires YearText(a) == YearText(b)
    ensures a == b
  {
    YearTextSign(a);
    YearTextSign(b);
    if a < 0 {
      ValueOfDigits(-a);
      ValueOfDigits(-b);
    } else {
      ValueOfDigits(a);
      ValueOfDigits(b);
    }
  }

  /** The value of two digits, spelled out. */
  lemma ValueOfTwo(s: string)
    requires |s| == 2 && AllDigits(s)
    ensures ValueOf(s) == DigitValue(s[0]) * 10 + DigitValue(s[1])
  {
    assert s[..1][..0] == [];
    assert ValueOf(s[..1]) == DigitValue(s[0]);
  }

  /** The value of four digits, spelled out. */
  lemma ValueOfFour(s: string)
    requires |s| == 4 && AllDigits(s)
    ensures ValueOf(s) == DigitValue(s[0]) * 1000 + DigitValue(s[1]) * 100 + DigitValue(s[2]) * 10 + DigitValue(s[3])
  {
    var p := s[..3];
    assert p[..2] == s[..2];
    ValueOfTwo(s[..2]);
    assert ValueOf(p) == ValueOf(s[..2]) * 10 + DigitValue(s[2]);
  }

  /** A number below 100 renders as exactly two digits that read back as the number. */
  lemma TwoDigitsRoundTrip(n: nat)
    requires n < 100
    ensures |TwoDigits(n)| == 2 && AllDigits(TwoDigits(n)) && ValueOf(TwoDigits(n)) == n
  {
    var t := TwoDigits(n);
    if n < 10 {
      assert t == ['0', DigitChar(n)];
    } else {
      assert Digits(n / 10) == [DigitChar(n / 10)];
      assert t == [DigitChar(n / 10), DigitChar(n % 10)];
    }
    ValueOfTwo(t);
  }

  /** Any two digits are what TwoDigits gives for the number they denote. */
  lemma TwoDigitsOfValue(s: string)
    requires |s| == 2 && AllDigits(s)
    ensures ValueOf(s) < 100 && TwoDigits(ValueOf(s)) == s
  {
    ValueOfTwo(s);
    var v := ValueOf(s);
    if s[0] == '0' {
      assert Digits(v) == [s[1]];
    } else {
      DigitsOfValue(s);
    }
  }

  /** Where the parts sit in `y + "-" + m + "-" + d` when month and day take two characters each. */
  lemma KeyLayout(y: string, m: string, d: string)
    requires |m| == 2 && |d| == 2
    ensures var k := y + "-" + m + "-" + d; var n := |y|;
      |k| == n + 6 && k[..n] == y && k[n] == '-' && k[n + 3] == '-'
      && k[n + 1..n + 3] == m && k[n + 4..] == d
  {
  }

  /** The layout of a key: the year text, '-', two month digits, '-', two day digits. */
  lemma FormatDateLayout(date: Date)
    ensures var k := FormatDate(date); var n := |YearText(date.year)|;
      |k| == n + 6 && k[..n] == YearText(date.year) && k[n] == '-' && k[n + 3] == '-'
      && k[n + 1..n + 3] == TwoDigits(date.month) && k[n + 4..] == TwoDigits(date.day)
  {
    var y, m, d := YearText(date.year), TwoDigits(date.month), TwoDigits(date.day);
    TwoDigitsRoundTrip(date.month);
    TwoDigitsRoundTrip(date.day);
    assert FormatDate(date) == y + "-" + m + "-" + d;
    KeyLayout(y, m, d);
  }

  /** For a four-digit year the key has the ten-character `YYYY-MM-DD` shape. */
  lemma FormatDateShape(date: Date)
    requires 1000 <= date.year <= 9999
    ensures var k := FormatDate(date);
      |k| == 10 && k[4] == '-' && k[7] == '-'
      && AllDigits(k[..4]) && AllDigits(k[5..7]) && AllDigits(k[8..])
      && ValueOf(k[..4]) == date.year && ValueOf(k[5..7]) == date.month && ValueOf(k[8..]) == date.day
  {
    var y := date.year;
    assert Digits(y / 1000) == [DigitChar(y / 1000)];
    assert |Digits(y / 100)| == 2;
    assert |Digits(y / 10)| == 3;
    assert |YearText(y)| == 4;
    ValueOfDigits(y);
    FormatDateLayout(date);
    TwoDigitsRoundTrip(date.month);
    TwoDigitsRoundTrip(date.day);
  }

  /** Distinct dates have distinct keys, whatever the year. */
  lemma FormatDateInjective(a: Date, b: Date)
    ensures FormatDate(a) == FormatDate(b) <==> a == b
  {
    if FormatDate(a) == FormatDate(b) {
      var k := FormatDate(a);
      FormatDateLayout(a);
      FormatDateLayout(b);
      var n := |YearText(a.year)|;
      assert |YearText(b.year)| == n;
      assert YearText(a.year) == k[..n] == YearText(b.year);
      YearTextInjective(a.year, b.year);
      assert TwoDigits(a.month) == k[n + 1..n + 3] == TwoDigits(b.month);
      assert TwoDigits(a.day) == k[n + 4..] == TwoDigits(b.day);
      TwoDigitsRoundTrip(a.month);
      TwoDigitsRoundTrip(b.month);
      TwoDigitsRoundTrip(a.day);
      TwoDigitsRoundTrip(b.day);
    }
  }

  /** Parsing the key of a date with a four-digit year gives back that date. */
  lemma ParseFormatRoundTrip(date: Date)
    requires 1000 <= date.year <= 9999
    ensures ParseDate(FormatDate(date)) == Some(date)
  {
    FormatDateShape(date);
  }

  /** A ten-character text with '-' at positions 4 and 7 is its three fields joined by '-'. */
  lemma KeySplit(s: string)
    requires |s| == 10 && s[4] == '-' && s[7] == '-'
    ensures s == s[..4] + "-" + s[5..7] + "-" + s[8..]
  {
    var t := s[..4] + "-" + s[5..7] + "-" + s[8..];
    assert |t| == 10;
    forall i | 0 <= i < 10 ensures t[i] == s[i] {
    }
  }

  /** A key that parses to a date with a four-digit year is that date's key: keys are canonical. */
  lemma FormatParseRoundTrip(s: string, date: Date)
    requires ParseDate(s) == Some(date) && date.year >= 1000
    ensures FormatDate(date) == s
  {
    var ys, ms, ds := s[..4], s[5..7], s[8..];
    assert date.year == ValueOf(ys) && date.month == ValueOf(ms) && date.day == ValueOf(ds);
    ValueOfFour(ys);
    DigitsOfValue(ys);
    TwoDigitsOfValue(ms);
    TwoDigitsOfValue(ds);
    assert YearText(date.year) == ys && TwoDigits(date.month) == ms && TwoDigits(date.day) == ds;
    assert FormatDate(date) == ys + "-" + ms + "-" + ds;
    KeySplit(s);
  }

  /** The keys of a list of dates, in the same order. */
  function Keys(rs: seq<Date>): (ks: seq<string>)
    ensures |ks| == |rs|
    ensures forall i :: 0 <= i < |rs| ==> ks[i] == FormatDate(rs[i])
  {
    if rs == [] then [] else [FormatDate(rs[0])] + Keys(rs[1..])
  }

  /** The key of a date is among the keys of `rs` exactly when the date is among `rs`. */
  lemma {:induction false} KeyInKeys(rs: seq<Date>, date: Date)
    ensures FormatDate(date) in Keys(rs) <==> date in rs
    decreases |rs|
  {
    if rs != [] {
      var k, first, rest := FormatDate(date), FormatDate(rs[0]), rs[1..];
      FormatDateInjective(date, rs[0]);
      assert k == first <==> date == rs[0];
      KeyInKeys(rest, date);
      assert Keys(rs) == [first] + Keys(rest);
      assert rs == [rs[0]] + rest;
    }
  }

  /**
   * Completion is recorded and tested only through the key, so an item whose completed
   * dates are the keys of some dates is done on exactly those dates.
   */
  lemma CompletedOnRecordedDates(item: Item, rs: seq<Date>, date: Date)
    requires item.completedDates == Keys(rs)
    ensures IsItemCompletedOnDate(item, date) <==> date in rs
  {
    KeyInKeys(rs, date);
  }

  /** A freshly created item is active every day (for the two known frequencies) and done on none. */
  lemma CreatedItemState(id: string, name: string, kind: string, frequency: string, date: Date)
    ensures !IsItemCompletedOnDate(CreateItem(id, name, kind, frequency), date)
    ensures IsItemActiveOnDate(CreateItem(id, name, kind, frequency), date)
        <==> frequency == DAILY || frequency == WEEKLY
  {
  }
}

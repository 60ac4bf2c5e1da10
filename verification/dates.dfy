/** `convert_to_rfc`: `datetime.strptime(s, "%B %d, %Y").isoformat()`. */
module Dates {
  import opened Wrappers
  import opened Text

  /** English month names, lower-cased: `%B` matches them ignoring case. */
  const MonthNames: seq<string> := ["january", "february", "march", "april", "may", "june",
    "july", "august", "september", "october", "november", "december"]

  datatype Date = Date(year: int, month: int, day: int)

  predicate IsLeap(y: int)
  {
    (y % 4 == 0 && y % 100 != 0) || y % 400 == 0
  }

  function DaysInMonth(y: int, m: int): int
    requires 1 <= m <= 12
  {
    if m == 2 then (if IsLeap(y) then 29 else 28)
    else if m == 4 || m == 6 || m == 9 || m == 11 then 30
    else 31
  }

  /** A date `datetime` accepts: years 1 to 9999 and a real calendar day. */
  predicate ValidDate(d: Date)
  {
    1 <= d.year <= 9999 && 1 <= d.month <= 12 && 1 <= d.day <= DaysInMonth(d.year, d.month)
  }

  // ------------------------------------------------------------- scanning

  /** Length of the leading run of whitespace. */
  function SpaceRun(s: string): (n: nat)
    ensures n <= |s| && AllSpace(s[..n])
    ensures n < |s| ==> !IsSpace(s[n])
  {
    if |s| > 0 && IsSpace(s[0]) then
      var n := SpaceRun(s[1..]);
      assert s[..n + 1] == [s[0]] + s[1..][..n];
      n + 1
    else 0
  }

  /** Length of the leading run of non-whitespace. */
  function UntilSpace(s: string): (n: nat)
    ensures n <= |s| && forall i :: 0 <= i < n ==> !IsSpace(s[i])
    ensures n < |s| ==> IsSpace(s[n])
  {
    if |s| > 0 && !IsSpace(s[0]) then UntilSpace(s[1..]) + 1 else 0
  }

  /** Position of the first comma, or the length when there is none. */
  function UntilComma(s: string): (n: nat)
    ensures n <= |s| && forall i :: 0 <= i < n ==> s[i] != ','
    ensures n < |s| ==> s[n] == ','
  {
    if |s| > 0 && s[0] != ',' then UntilComma(s[1..]) + 1 else 0
  }

  /** The month number (1 to 12) whose name `t` spells, ignoring ASCII case. */
  function MonthNumber(t: string): (m: Option<int>)
    ensures m.Some? ==> 1 <= m.value <= 12 && LowerAscii(t) == MonthNames[m.value - 1]
    ensures m.None? ==> forall i :: 0 <= i < 12 ==> LowerAscii(t) != MonthNames[i]
  {
    MonthFrom(LowerAscii(t), 0)
  }

  function MonthFrom(l: string, i: nat): (m: Option<int>)
    requires i <= 12
    ensures m.Some? ==> i < m.value <= 12 && l == MonthNames[m.value - 1]
    ensures m.None? ==> forall j :: i <= j < 12 ==> l != MonthNames[j]
    decreases 12 - i
  {
    if i == 12 then None
    else if l == MonthNames[i] then Some(i + 1)
    else MonthFrom(l, i + 1)
  }

  /** The three fields of a display date, before any of them is checked. */
  datatype Parts = Parts(month: string, day: string, year: string)

  /** The shape `<word><spaces><day>,<spaces><year>` of the pattern `%B\s+%d,\s+%Y`. */
  function SplitDisplay(s: string): Option<Parts>
  {
    var m := UntilSpace(s);
    SplitAfterMonth(s[..m], s[m..])
  }

  function SplitAfterMonth(month: string, a: string): Option<Parts>
  {
    var g := SpaceRun(a);
    if g == 0 then None else SplitDay(month, a[g..])
  }

  function SplitDay(month: string, b: string): Option<Parts>
  {
    var k := UntilComma(b);
    if k == |b| then None else SplitYear(month, b[..k], b[k + 1..])
  }

  function SplitYear(month: string, day: string, c: string): Option<Parts>
  {
    var g := SpaceRun(c);
    if g == 0 then None else Some(Parts(month, day, c[g..]))
  }

  /** The fields as `strptime` checks them: a month name, a day of one or two
      digits, a year of exactly four, and a day that exists in that month. */
  function DateOf(p: Parts): Option<Date>
  {
    match MonthNumber(p.month)
    case None => None
    case Some(month) =>
      if (|p.day| == 1 || |p.day| == 2) && AllDigits(p.day) && |p.year| == 4 && AllDigits(p.year) then
        var d := Date(DigitsValue(p.year), month, DigitsValue(p.day));
        if ValidDate(d) then Some(d) else None
      else None
  }

  function ParseDisplay(s: string): Option<Date>
  {
    match SplitDisplay(s)
    case None => None
    case Some(p) => DateOf(p)
  }

  // ------------------------------------------------------------ rendering

  function Pow10(w: nat): nat
  {
    if w == 0 then 1 else 10 * Pow10(w - 1)
  }

  /** `"%0<w>d" % n` for `n < 10^w`: exactly `w` digits. */
  function Pad(n: nat, w: nat): (r: string)
    ensures |r| == w && AllDigits(r)
  {
    if w == 0 then "" else Pad(n / 10, w - 1) + [DigitChar(n % 10)]
  }

  lemma {:induction false} PadValue(n: nat, w: nat)
    requires n < Pow10(w)
    ensures DigitsValue(Pad(n, w)) == n
  {
    if w > 0 {
      var p := Pad(n, w);
      assert p[..|p| - 1] == Pad(n / 10, w - 1);
      PadValue(n / 10, w - 1);
    }
  }

  /** `datetime.isoformat()` of midnight on `d`. */
  function Iso(d: Date): (r: string)
    requires ValidDate(d)
    ensures |r| == 19
  {
    Pad(d.year, 4) + "-" + Pad(d.month, 2) + "-" + Pad(d.day, 2) + "T00:00:00"
  }

  /** The ISO text is zero-padded fields that read back as the date. */
  lemma IsoFields(d: Date)
    requires ValidDate(d)
    ensures var r := Iso(d);
      && AllDigits(r[..4]) && DigitsValue(r[..4]) == d.year
      && r[4] == '-' && AllDigits(r[5..7]) && DigitsValue(r[5..7]) == d.month
      && r[7] == '-' && AllDigits(r[8..10]) && DigitsValue(r[8..10]) == d.day
      && r[10..] == "T00:00:00"
  {
    var r := Iso(d);
    assert r[..4] == Pad(d.year, 4);
    assert r[5..7] == Pad(d.month, 2);
    assert r[8..10] == Pad(d.day, 2);
    PadValue(d.year, 4);
    PadValue(d.month, 2);
    PadValue(d.day, 2);
  }

  /** `convert_to_rfc`: a `ValueError` when `s` does not parse. */
  function ConvertToRfc(s: string): (r: Result<string>)
    ensures r.Err? ==> r.error == BadDate(s)
    ensures r.Ok? <==> ParseDisplay(s).Some?
  {
    match ParseDisplay(s)
    case None => Err(BadDate(s))
    case Some(d) => Ok(Iso(d))
  }

  // --------------------------------------------- what the parser accepts

  /** One way of writing a date that `"%B %d, %Y"` accepts: the month name in any
      ASCII case, runs of whitespace, a one- or two-digit day, a four-digit year. */
  datatype Spelling = Spelling(month: string, gap1: string, day: string, gap2: string, year: string)

  function Render(sp: Spelling): string
  {
    sp.month + (sp.gap1 + (sp.day + ("," + (sp.gap2 + sp.year))))
  }

  predicate Spells(sp: Spelling, d: Date)
  {
    && 1 <= d.month <= 12 && LowerAscii(sp.month) == MonthNames[d.month - 1]
    && |sp.gap1| > 0 && AllSpace(sp.gap1) && |sp.gap2| > 0 && AllSpace(sp.gap2)
    && (|sp.day| == 1 || |sp.day| == 2) && AllDigits(sp.day) && DigitsValue(sp.day) == d.day
    && |sp.year| == 4 && AllDigits(sp.year) && DigitsValue(sp.year) == d.year
  }

  lemma MonthNamesAreLetters(i: nat, j: nat)
    requires i < 12 && j < |MonthNames[i]|
    ensures 'a' <= MonthNames[i][j] <= 'z'
  {
  }

  /** The first three letters of a month name, as one number. */
  function Abbrev(name: string): int
    requires |name| >= 3
  {
    (name[0] as int) * 1000000 + (name[1] as int) * 1000 + (name[2] as int)
  }

  lemma MonthNamesDistinct(i: nat, j: nat)
    requires i < 12 && j < 12 && MonthNames[i] == MonthNames[j]
    ensures i == j
  {
    var abbrevs := [Abbrev("jan"), Abbrev("feb"), Abbrev("mar"), Abbrev("apr"), Abbrev("may"), Abbrev("jun"),
      Abbrev("jul"), Abbrev("aug"), Abbrev("sep"), Abbrev("oct"), Abbrev("nov"), Abbrev("dec")];
    forall k | 0 <= k < 12 ensures |MonthNames[k]| >= 3 && Abbrev(MonthNames[k]) == abbrevs[k] {
    }
    assert abbrevs[i] == abbrevs[j];
  }

  /** A text that lower-cases to a month name has no whitespace in it. */
  lemma MonthTextHasNoSpace(t: string, i: nat)
    requires i < 12 && LowerAscii(t) == MonthNames[i]
    ensures forall j :: 0 <= j < |t| ==> !IsSpace(t[j]) && t[j] != ','
  {
    forall j | 0 <= j < |t| ensures !IsSpace(t[j]) && t[j] != ',' {
      MonthNamesAreLetters(i, j);
      assert LowerAscii(t)[j] == LowerChar(t[j]);
    }
  }

  lemma SpaceRunOf(g: string, t: string)
    requires AllSpace(g)
    requires |t| > 0 && !IsSpace(t[0])
    ensures SpaceRun(g + t) == |g|
  {
    if |g| > 0 {
      assert (g + t)[1..] == g[1..] + t;
      SpaceRunOf(g[1..], t);
    } else {
      assert g + t == t;
    }
  }

  lemma UntilSpaceOf(w: string, t: string)
    requires forall j :: 0 <= j < |w| ==> !IsSpace(w[j])
    requires |t| > 0 && IsSpace(t[0])
    ensures UntilSpace(w + t) == |w|
  {
    if |w| > 0 {
      assert (w + t)[1..] == w[1..] + t;
      UntilSpaceOf(w[1..], t);
    } else {
      assert w + t == t;
    }
  }

  lemma UntilCommaOf(w: string, t: string)
    requires forall j :: 0 <= j < |w| ==> w[j] != ','
    requires |t| > 0 && t[0] == ','
    ensures UntilComma(w + t) == |w|
  {
    if |w| > 0 {
      assert (w + t)[1..] == w[1..] + t;
      UntilCommaOf(w[1..], t);
    } else {
      assert w + t == t;
    }
  }

  lemma SplitYearOf(month: string, day: string, gap: string, year: string)
    requires |gap| > 0 && AllSpace(gap) && |year| > 0 && !IsSpace(year[0])
    ensures SplitYear(month, day, gap + year) == Some(Parts(month, day, year))
  {
    SpaceRunOf(gap, year);
    assert (gap + year)[|gap|..] == year;
  }

  lemma SplitDayOf(month: string, day: string, c: string)
    requires forall j :: 0 <= j < |day| ==> day[j] != ','
    ensures SplitDay(month, day + ("," + c)) == SplitYear(month, day, c)
  {
    var b := day + ("," + c);
    UntilCommaOf(day, "," + c);
    assert b[..|day|] == day && b[|day| + 1..] == c;
  }

  lemma SplitAfterMonthOf(month: string, gap: string, b: string)
    requires |gap| > 0 && AllSpace(gap) && |b| > 0 && !IsSpace(b[0])
    ensures SplitAfterMonth(month, gap + b) == SplitDay(month, b)
  {
    SpaceRunOf(gap, b);
    assert (gap + b)[|gap|..] == b;
  }

  lemma SplitDisplayOf(month: string, a: string)
    requires forall j :: 0 <= j < |month| ==> !IsSpace(month[j])
    requires |a| > 0 && IsSpace(a[0])
    ensures SplitDisplay(month + a) == SplitAfterMonth(month, a)
  {
    UntilSpaceOf(month, a);
    assert (month + a)[..|month|] == month && (month + a)[|month|..] == a;
  }

  lemma SplitAfterMonthRender(month: string, gap1: string, day: string, gap2: string, year: string)
    requires |gap1| > 0 && AllSpace(gap1) && |gap2| > 0 && AllSpace(gap2)
    requires |day| > 0 && AllDigits(day) && |year| > 0 && AllDigits(year)
    ensures SplitAfterMonth(month, gap1 + (day + ("," + (gap2 + year)))) == Some(Parts(month, day, year))
  {
    var c := gap2 + year;
    SplitAfterMonthOf(month, gap1, day + ("," + c));
    SplitDayOf(month, day, c);
    SplitYearOf(month, day, gap2, year);
  }

  lemma SplitRender(sp: Spelling)
    requires forall j :: 0 <= j < |sp.month| ==> !IsSpace(sp.month[j])
    requires |sp.gap1| > 0 && AllSpace(sp.gap1) && |sp.gap2| > 0 && AllSpace(sp.gap2)
    requires |sp.day| > 0 && AllDigits(sp.day) && |sp.year| > 0 && AllDigits(sp.year)
    ensures SplitDisplay(Render(sp)) == Some(Parts(sp.month, sp.day, sp.year))
  {
    var a := sp.gap1 + (sp.day + ("," + (sp.gap2 + sp.year)));
    SplitDisplayOf(sp.month, a);
    SplitAfterMonthRender(sp.month, sp.gap1, sp.day, sp.gap2, sp.year);
  }

  lemma DateOfComplete(sp: Spelling, d: Date)
    requires ValidDate(d) && Spells(sp, d)
    ensures DateOf(Parts(sp.month, sp.day, sp.year)) == Some(d)
  {
    var m := MonthNumber(sp.month);
    MonthNamesDistinct(m.value - 1, d.month - 1);
  }

  /** Every spelling of a valid date parses to that date. */
  lemma ParseComplete(sp: Spelling, d: Date)
    requires ValidDate(d) && Spells(sp, d)
    ensures ParseDisplay(Render(sp)) == Some(d)
  {
    MonthTextHasNoSpace(sp.month, d.month - 1);
    SplitRender(sp);
    DateOfComplete(sp, d);
  }

  lemma SplitYearSound(month: string, day: string, c: string) returns (gap: string)
    requires SplitYear(month, day, c).Some?
    ensures |gap| > 0 && AllSpace(gap) && c == gap + SplitYear(month, day, c).value.year
  {
    var g := SpaceRun(c);
    gap := c[..g];
    assert c == c[..g] + c[g..];
  }

  lemma SplitDaySound(month: string, b: string) returns (day: string, c: string)
    requires SplitDay(month, b).Some?
    ensures b == day + ("," + c) && SplitDay(month, b) == SplitYear(month, day, c)
  {
    var k := UntilComma(b);
    day, c := b[..k], b[k + 1..];
    assert b == b[..k] + ([b[k]] + b[k + 1..]);
  }

  lemma SplitAfterMonthSound(month: string, a: string) returns (gap: string, b: string)
    requires SplitAfterMonth(month, a).Some?
    ensures |gap| > 0 && AllSpace(gap) && a == gap + b
    ensures SplitAfterMonth(month, a) == SplitDay(month, b)
  {
    var g := SpaceRun(a);
    gap, b := a[..g], a[g..];
    assert a == a[..g] + a[g..];
  }

  lemma SplitSound(s: string) returns (sp: Spelling)
    requires SplitDisplay(s).Some?
    ensures Render(sp) == s
    ensures Parts(sp.month, sp.day, sp.year) == SplitDisplay(s).value
    ensures |sp.gap1| > 0 && AllSpace(sp.gap1) && |sp.gap2| > 0 && AllSpace(sp.gap2)
  {
    var m := UntilSpace(s);
    var month, a := s[..m], s[m..];
    assert s == month + a;
    var gap1, b := SplitAfterMonthSound(month, a);
    var day, c := SplitDaySound(month, b);
    var gap2 := SplitYearSound(month, day, c);
    var year := SplitYear(month, day, c).value.year;
    sp := Spelling(month, gap1, day, gap2, year);
    assert SplitDisplay(s).value == Parts(month, day, year);
  }

  lemma DateOfSound(p: Parts)
    requires DateOf(p).Some?
    ensures ValidDate(DateOf(p).value)
    ensures var d := DateOf(p).value;
      && 1 <= d.month <= 12 && LowerAscii(p.month) == MonthNames[d.month - 1]
      && (|p.day| == 1 || |p.day| == 2) && AllDigits(p.day) && DigitsValue(p.day) == d.day
      && |p.year| == 4 && AllDigits(p.year) && DigitsValue(p.year) == d.year
  {
  }

  /** Every spelling of a valid date converts to that date in ISO form. */
  lemma ConvertSpelling(sp: Spelling, d: Date)
    requires ValidDate(d) && Spells(sp, d)
    ensures ConvertToRfc(Render(sp)) == Ok(Iso(d))
  {
    ParseComplete(sp, d);
  }

  /** Whatever parses is a valid date, and the text is one of its spellings. */
  lemma ParseSound(s: string)
    requires ParseDisplay(s).Some?
    ensures ValidDate(ParseDisplay(s).value)
    ensures exists sp :: Spells(sp, ParseDisplay(s).value) && Render(sp) == s
  {
    var sp := SplitSound(s);
    DateOfSound(Parts(sp.month, sp.day, sp.year));
  }
}

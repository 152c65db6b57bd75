/** Value normalisers shared by the dashboard modules (utils/helpers.py):
    the European-number and date-text cleaners, the lookup of the site
    column, the dataset summary, the datetime column parser and the numeric
    column cleaner. */
module Helpers {
  import opened Text
  import opened Frame

  // ---------------------------------------------------------------------
  // get_dataset_info

  datatype DatasetInfo = DatasetInfo(status: string, count: nat, columns: seq<string>)

  /** Summary shown for a dataset slot: an absent or row-less frame reads as
      not loaded with no columns, any other frame as loaded with its row count
      and its columns. */
  function GetDatasetInfo(t: Option<Table>): (info: DatasetInfo)
    ensures info.status == "Cargado" <==> t.Some? && |t.value.rows| > 0
    ensures info.status == "Cargado" || info.status == "No cargado"
    ensures info.status == "Cargado" ==> info.count == |t.value.rows| && info.columns == t.value.columns
    ensures info.status == "No cargado" ==> info.count == 0 && info.columns == []
  {
    if t.None? || |t.value.rows| == 0 then DatasetInfo("No cargado", 0, [])
    else DatasetInfo("Cargado", |t.value.rows|, t.value.columns)
  }

  // ---------------------------------------------------------------------
  // find_site_column

  /** The names tried for the site column, in priority order. */
  const SiteColumns: seq<string> := ["Site_Name", "site_name", "SITE_NAME", "site"]

  /** Position of the first candidate that is a column. */
  function FirstPresent(candidates: seq<string>, columns: seq<string>): (k: Option<nat>)
    ensures k.Some? ==> k.value < |candidates| && candidates[k.value] in columns
    ensures k.Some? ==> forall j | 0 <= j < k.value :: candidates[j] !in columns
    ensures k.None? ==> forall j | 0 <= j < |candidates| :: candidates[j] !in columns
  {
    if candidates == [] then None
    else if candidates[0] in columns then Some(0)
    else match FirstPresent(candidates[1..], columns)
      case None => None
      case Some(k) => Some(k + 1)
  }

  /** The first of `SiteColumns` that `t` has, none when `t` is absent or has
      none of them. */
  function FindSiteColumn(t: Option<Table>): (r: Option<string>)
    ensures t.None? ==> r.None?
    ensures r.Some? ==> t.Some? && r.value in t.value.columns
    ensures r.Some? ==> exists k | 0 <= k < |SiteColumns| ::
      (SiteColumns[k] == r.value && forall j | 0 <= j < k :: SiteColumns[j] !in t.value.columns)
    ensures t.Some? && r.None? ==> forall c | c in SiteColumns :: c !in t.value.columns
  {
    if t.None? then None
    else match FirstPresent(SiteColumns, t.value.columns)
      case None => None
      case Some(k) => Some(SiteColumns[k])
  }

  // ---------------------------------------------------------------------
  // clean_european_number (nested in clean_numeric_data)

  /** The text the number cleaner inspects: stripped, then every double
      quote removed. */
  function NumberText(raw: string): string {
    ReplaceAll(Strip(raw), "\"", "")
  }

  /** The case analysis on commas and periods, applied to a text `s` that
      is already stripped and unquoted. */
  function CleanNumberText(s: string): (r: Option<string>)
    requires '"' !in s
    ensures r.Some? ==> ',' !in r.value && '"' !in r.value
  {
    if !HasDigit(s) then None
    else if ',' in s && '.' in s then
      ReplaceCharRemoves(s, ',', "", '"');
      Some(ReplaceAll(s, ",", ""))
    else if ',' in s then
      var parts := Split(s, ',');
      if |parts| == 2 && |parts[1]| <= 3 && |parts[1]| > 0 then
        ReplaceCharRemoves(s, ',', ".", '"');
        Some(ReplaceAll(s, ",", "."))
      else
        ReplaceCharRemoves(s, ',', "", '"');
        Some(ReplaceAll(s, ",", ""))
    else Some(s)
  }

  /** Normalises a European-formatted number to the text handed to
      `pd.to_numeric`; `None` is the missing value. */
  function CleanEuropeanNumber(value: Option<string>): (r: Option<string>)
    ensures r.Some? ==> ',' !in r.value && '"' !in r.value
  {
    match value
    case None => None
    case Some(raw) =>
      ReplaceCharRemovesOnly(Strip(raw), '"', "");
      CleanNumberText(NumberText(raw))
  }

  /** Missing exactly for a missing value or a text without any digit once
      stripped and unquoted. */
  lemma NumberMissing(value: Option<string>)
    ensures CleanEuropeanNumber(value).None? <==> value.None? || !HasDigit(NumberText(value.value))
  {
  }

  /** The cleaner never drops, adds or reorders a digit. */
  lemma {:induction false} NumberKeepsDigits(raw: string)
    requires CleanEuropeanNumber(Some(raw)).Some?
    ensures Digits(CleanEuropeanNumber(Some(raw)).value) == Digits(raw)
  {
    var s := NumberText(raw);
    DigitsOfStrip(raw);
    DigitsOfReplaceChar(Strip(raw), '"', "");
    assert Digits(s) == Digits(raw);
    if ',' in s {
      DigitsOfReplaceChar(s, ',', "");
      assert Digits(".") == [];
      DigitsOfReplaceChar(s, ',', ".");
    }
  }

  /** A stripped text without quotes is inspected as it is. */
  lemma NumberTextOfCleanText(s: string)
    requires '"' !in s && s != [] && !IsSpace(s[0]) && !IsSpace(s[|s| - 1])
    ensures NumberText(s) == s
  {
    StripUnspaced(s);
    ReplaceCharAbsent(s, '"', "");
  }

  /** Facts about the parts of `a + "," + b`. */
  lemma {:induction false} CommaJoined(a: string, b: string)
    ensures var s := a + "," + b; (|s| == |a| + 1 + |b| && s[|a|] == ','
      && (forall i | 0 <= i < |a| :: s[i] == a[i])
      && (forall j | 0 <= j < |b| :: s[|a| + 1 + j] == b[j]))
  {
  }

  /** `a + "," + b` with digits in `a`, no quotes and no whitespace at either
      end is inspected as it is, and has a comma and a digit. */
  lemma {:induction false} CommaJoinedText(a: string, b: string)
    requires '"' !in a && '"' !in b && HasDigit(a) && b != [] && !IsSpace(a[0]) && !IsSpace(b[|b| - 1])
    ensures var s := a + "," + b; NumberText(s) == s && ',' in s && HasDigit(s) && '"' !in s
  {
    var s := a + "," + b;
    CommaJoined(a, b);
    assert s[0] == a[0] && s[|s| - 1] == b[|b| - 1];
    NumberTextOfCleanText(s);
    assert HasDigit(s) by {
      var i :| 0 <= i < |a| && IsDigit(a[i]);
      assert s[i] == a[i];
    }
  }

  lemma {:induction false} ReplaceCommaJoined(a: string, b: string, repl: string)
    requires ',' !in a
    ensures ReplaceAll(a + "," + b, ",", repl) == a + repl + ReplaceAll(b, ",", repl)
  {
    assert a + "," + b == a + ("," + b);
    ReplaceCharAppend(a, "," + b, ',', repl);
    ReplaceCharAppend(",", b, ',', repl);
    ReplaceCharAbsent(a, ',', repl);
    assert ReplaceAll(",", ",", repl) == repl + ReplaceAll("", ",", repl);
  }

  /** With both a comma and a period, commas are thousands separators: they
      are deleted and everything else stays, e.g. "23,418.082" gives
      "23418.082". */
  lemma {:induction false} NumberThousandsAndDecimalPoint(a: string, b: string)
    requires ',' !in a && '"' !in a && '"' !in b && '.' in b
    requires HasDigit(a) && !IsSpace(a[0]) && !IsSpace(b[|b| - 1])
    ensures CleanEuropeanNumber(Some(a + "," + b)) == Some(a + ReplaceAll(b, ",", ""))
  {
    var s := a + "," + b;
    assert '.' in s by {
      var j :| 0 <= j < |b| && b[j] == '.';
      CommaJoined(a, b);
      assert s[|a| + 1 + j] == '.';
    }
    CommaJoinedText(a, b);
    assert CleanNumberText(s) == Some(ReplaceAll(s, ",", ""));
    ReplaceCommaJoined(a, b, "");
    assert a + "" == a;
  }

  /** With commas and no period, a single comma followed by one to three
      characters is a decimal comma: "123,45" gives "123.45", and so does
      "1,234" give "1.234". */
  lemma {:induction false} NumberDecimalComma(a: string, b: string)
    requires ',' !in a && ',' !in b && '.' !in a && '.' !in b && '"' !in a && '"' !in b
    requires 1 <= |b| <= 3 && HasDigit(a) && !IsSpace(a[0]) && !IsSpace(b[|b| - 1])
    ensures CleanEuropeanNumber(Some(a + "," + b)) == Some(a + "." + b)
  {
    var s := a + "," + b;
    CommaJoinedText(a, b);
    assert '.' !in s;
    assert s == a + [','] + b;
    SplitSingle(a, b, ',');
    ReplaceCommaJoined(a, b, ".");
    ReplaceCharAbsent(b, ',', ".");
  }

  /** Splitting `a + [sep] + b`, where neither side holds `sep`, gives `[a, b]`. */
  lemma {:induction false} SplitSingle(a: string, b: string, sep: char)
    requires sep !in a && sep !in b
    ensures Split(a + [sep] + b, sep) == [a, b]
  {
    var s := a + [sep] + b;
    if a == [] {
      assert s == [sep] + b && s[1..] == b;
      SplitNone(b, sep);
    } else {
      assert s[0] == a[0] && s[1..] == a[1..] + [sep] + b;
      SplitSingle(a[1..], b, sep);
      assert [a[0]] + a[1..] == a;
    }
  }

  lemma {:induction false} SplitNone(s: string, sep: char)
    requires sep !in s
    ensures Split(s, sep) == [s]
  {
    if s != [] {
      assert s[0] != sep && sep !in s[1..];
      SplitNone(s[1..], sep);
      assert [s[0]] + s[1..] == s;
    }
  }

  /** Commas but no period, in any other shape (several commas, or nothing
      or more than three characters after the only one), are thousands
      separators and are deleted. */
  lemma NumberThousandsOnly(raw: string)
    requires var s := NumberText(raw); HasDigit(s) && ',' in s && '.' !in s
    requires var parts := Split(NumberText(raw), ','); !(|parts| == 2 && 1 <= |parts[1]| <= 3)
    ensures CleanEuropeanNumber(Some(raw)) == Some(ReplaceAll(NumberText(raw), ",", ""))
  {
  }

  /** With both a comma and a period anywhere in the stripped, unquoted
      text, every comma is deleted and everything else stays. */
  lemma NumberCommaAndPeriod(raw: string)
    requires var s := NumberText(raw); HasDigit(s) && ',' in s && '.' in s
    ensures CleanEuropeanNumber(Some(raw)) == Some(ReplaceAll(NumberText(raw), ",", ""))
  {
  }

  /** With commas and no period, a text that splits at its commas into two
      pieces, the second one to three characters long, has its comma turned
      into a decimal point. */
  lemma NumberSingleDecimalComma(raw: string)
    requires var s := NumberText(raw); HasDigit(s) && ',' in s && '.' !in s
    requires var parts := Split(NumberText(raw), ','); |parts| == 2 && 1 <= |parts[1]| <= 3
    ensures CleanEuropeanNumber(Some(raw)) == Some(ReplaceAll(NumberText(raw), ",", "."))
  {
  }

  /** A European number with periods for thousands and one comma for
      decimals loses its comma but keeps its periods, because a period is
      present: "1.234,56" gives "1.23456". */
  lemma {:induction false} NumberEuropeanStyle(a: string, b: string)
    requires ',' !in a && ',' !in b && '"' !in a && '"' !in b && '.' in a
    requires HasDigit(a) && b != [] && !IsSpace(a[0]) && !IsSpace(b[|b| - 1])
    ensures CleanEuropeanNumber(Some(a + "," + b)) == Some(a + b)
  {
    CommaJoinedText(a, b);
    var s := a + "," + b;
    PeriodBeforeComma(a, b);
    NumberCommaAndPeriod(s);
    CommaDeleted(a, b);
  }

  lemma {:induction false} PeriodBeforeComma(a: string, b: string)
    requires '.' in a
    ensures '.' in a + "," + b
  {
    var j :| 0 <= j < |a| && a[j] == '.';
    assert (a + "," + b)[j] == '.';
  }

  lemma {:induction false} CommaDeleted(a: string, b: string)
    requires ',' !in a && ',' !in b
    ensures ReplaceAll(a + "," + b, ",", "") == a + b
  {
    ReplaceCommaJoined(a, b, "");
    var x := ReplaceAll(b, ",", "");
    ReplaceCharAbsent(b, ',', "");
    assert x == b;
    assert a + "" == a;
  }


  lemma NumberEuropeanExample()
    ensures CleanEuropeanNumber(Some("1.234" + "," + "56")) == Some("1.234" + "56")
  {
    var a: string, b: string := "1.234", "56";
    assert a[0] == '1' && IsDigit(a[0]) && a[1] == '.';
    assert ',' !in a && '"' !in a && '"' !in b && ',' !in b;
    NumberEuropeanStyle(a, b);
  }

  /** Without a comma the stripped, unquoted text is passed on unchanged. */
  lemma NumberNoComma(raw: string)
    requires HasDigit(NumberText(raw)) && ',' !in NumberText(raw)
    ensures CleanEuropeanNumber(Some(raw)) == Some(NumberText(raw))
  {
  }

  /** A second pass over a cleaned number only strips the whitespace that
      deleting quotes or commas may have left at its ends. */
  lemma {:induction false} NumberSecondPass(value: Option<string>)
    requires CleanEuropeanNumber(value).Some?
    ensures CleanEuropeanNumber(CleanEuropeanNumber(value)) == Some(Strip(CleanEuropeanNumber(value).value))
  {
    var r := CleanEuropeanNumber(value).value;
    NumberKeepsDigits(value.value);
    DigitsOfStrip(r);
    assert ',' !in Strip(r) && '"' !in Strip(r) by {
      StripInfix(r);
    }
    ReplaceCharAbsent(Strip(r), '"', "");
    DigitsEmpty(Strip(r));
    DigitsEmpty(value.value);
    DigitsEmpty(r);
    assert HasDigit(r) by {
      assert Digits(r) == Digits(value.value);
      DigitsEmpty(NumberText(value.value));
      DigitsOfStrip(value.value);
      DigitsOfReplaceChar(Strip(value.value), '"', "");
    }
  }

  /** Every character of `Strip(s)` is a character of `s`. */
  lemma {:induction false} StripInfix(s: string)
    ensures forall c | c in Strip(s) :: c in s
  {
    var l := TrimLeft(s);
    var r := TrimRight(l);
    assert r == Strip(s);
    var k := |s| - |l|;
    assert r == l[..|r|] && l == s[k..];
    forall c | c in r ensures c in s {
      var i :| 0 <= i < |r| && r[i] == c;
      assert s[k + i] == l[i] == r[i];
    }
  }

  // ---------------------------------------------------------------------
  // clean_date_format

  /** Removes the " @ " separator and the ".000" millisecond suffix from a
      date text and strips it; missing for a missing value, an empty text
      or any spelling of "nan". */
  function CleanDateFormat(value: Option<string>): (r: Option<string>)
    ensures r.None? <==> value.None? || value.value == "" || Lower(value.value) == "nan"
    ensures r.Some? ==> r.value == [] || (!IsSpace(r.value[0]) && !IsSpace(r.value[|r.value| - 1]))
  {
    match value
    case None => None
    case Some(s) =>
      if s == "" || Lower(s) == "nan" then None
      else Some(Strip(ReplaceAll(ReplaceAll(s, " @ ", " "), ".000", "")))
  }

  lemma {:induction false} ReplaceAbsent(s: string, pat: string, repl: string)
    requires pat != []
    requires forall i | 0 <= i <= |s| - |pat| :: !OccursAt(s, pat, i)
    ensures ReplaceAll(s, pat, repl) == s
  {
    if |s| >= |pat| {
      assert !OccursAt(s, pat, 0);
      assert s[..|pat|] == s[0..0 + |pat|];
      forall i | 0 <= i <= |s[1..]| - |pat| ensures !OccursAt(s[1..], pat, i) {
        assert !OccursAt(s, pat, i + 1);
        assert s[1..][i..i + |pat|] == s[i + 1..i + 1 + |pat|];
      }
      ReplaceAbsent(s[1..], pat, repl);
    }
  }

  /** A date text that is already clean (non-empty, not "nan", without the
      separator or the suffix, and stripped) is passed through as it is. */
  lemma CleanDateKeepsCleanText(s: string)
    requires s != "" && Lower(s) != "nan" && Strip(s) == s
    requires forall i | 0 <= i <= |s| - 3 :: !OccursAt(s, " @ ", i)
    requires forall i | 0 <= i <= |s| - 4 :: !OccursAt(s, ".000", i)
    ensures CleanDateFormat(Some(s)) == Some(s)
  {
    ReplaceAbsent(s, " @ ", " ");
    ReplaceAbsent(s, ".000", "");
  }

  /** Replacing in `a + b`, when no occurrence starts inside `a`, leaves `a`
      as it is. */
  lemma {:induction false} ReplaceAfterPrefix(a: string, b: string, pat: string, repl: string)
    requires pat != []
    requires forall i | 0 <= i < |a| :: !OccursAt(a + b, pat, i)
    ensures ReplaceAll(a + b, pat, repl) == a + ReplaceAll(b, pat, repl)
  {
    if a == [] {
      assert a + b == b;
    } else {
      var s := a + b;
      assert s[1..] == a[1..] + b;
      forall i | 0 <= i < |a[1..]| ensures !OccursAt(a[1..] + b, pat, i) {
        assert !OccursAt(s, pat, i + 1);
        if i + |pat| <= |s[1..]| {
          assert s[1..][i..i + |pat|] == s[i + 1..i + 1 + |pat|];
        }
      }
      ReplaceAfterPrefix(a[1..], b, pat, repl);
      if |s| >= |pat| {
        assert !OccursAt(s, pat, 0);
        assert s[..|pat|] == s[0..0 + |pat|];
        assert s[0] == a[0];
        assert ReplaceAll(s, pat, repl) == [a[0]] + ReplaceAll(a[1..] + b, pat, repl);
        assert a + ReplaceAll(b, pat, repl) == [a[0]] + (a[1..] + ReplaceAll(b, pat, repl));
      } else {
        assert |b| < |pat|;
      }
    }
  }

  /** A pattern holding a character the text lacks never occurs in it. */
  lemma AbsentCharNoOccurrence(s: string, pat: string, k: nat)
    requires k < |pat| && pat[k] !in s
    ensures forall i :: !OccursAt(s, pat, i)
  {
    forall i ensures !OccursAt(s, pat, i) {
      if 0 <= i && i + |pat| <= |s| {
        assert s[i..i + |pat|][k] == s[i + k] && s[i + k] in s;
      }
    }
  }

  /** A text that starts with the pattern has it replaced there. */
  lemma ReplaceLeading(pat: string, rest: string, repl: string)
    requires pat != []
    ensures ReplaceAll(pat + rest, pat, repl) == repl + ReplaceAll(rest, pat, repl)
  {
    assert (pat + rest)[..|pat|] == pat;
    assert (pat + rest)[|pat|..] == rest;
  }

  lemma SeparatorReplaced(d: string, rest: string)
    requires '@' !in d && '@' !in rest
    ensures ReplaceAll(d + " @ " + rest, " @ ", " ") == d + " " + rest
  {
    var s := d + " @ " + rest;
    assert s == d + (" @ " + rest);
    forall i | 0 <= i < |d| ensures !OccursAt(s, " @ ", i) {
      assert s[i..i + 3][1] == s[i + 1];
      if i + 1 < |d| {
        assert s[i + 1] == d[i + 1] && d[i + 1] in d;
      } else {
        assert s[i + 1] == ' ';
      }
    }
    ReplaceAfterPrefix(d, " @ " + rest, " @ ", " ");
    ReplaceLeading(" @ ", rest, " ");
    AbsentCharNoOccurrence(rest, " @ ", 1);
    ReplaceAbsent(rest, " @ ", " ");
  }

  lemma SuffixDropped(a: string)
    requires '.' !in a
    ensures ReplaceAll(a + ".000", ".000", "") == a
  {
    forall i | 0 <= i < |a| ensures !OccursAt(a + ".000", ".000", i) {
      assert (a + ".000")[i..i + 4][0] == (a + ".000")[i] == a[i] && a[i] in a;
    }
    ReplaceAfterPrefix(a, ".000", ".000", "");
    ReplaceLeading(".000", "", "");
  }

  /** The export format "Aug 18, 2025 @ 06:00:00.000": a date part and a
      time part (no "@" or "." in either) joined by " @ " and followed by
      ".000" clean to the two parts joined by a single space. */
  lemma CleanDateExportShape(d: string, t: string)
    requires d != [] && t != [] && !IsSpace(d[0]) && !IsSpace(t[|t| - 1])
    requires '@' !in d && '@' !in t && '.' !in d && '.' !in t
    ensures CleanDateFormat(Some(d + " @ " + t + ".000")) == Some(d + " " + t)
  {
    var s := d + " @ " + t + ".000";
    assert s == d + " @ " + (t + ".000");
    SeparatorReplaced(d, t + ".000");
    var a := d + " " + t;
    assert d + " " + (t + ".000") == a + ".000";
    SuffixDropped(a);
    assert a[0] == d[0] && a[|a| - 1] == t[|t| - 1];
    StripUnspaced(a);
    assert |Lower(s)| == |s| > 3;
  }

  /** Cleaning a date text is not idempotent: a blank text cleans to the
      empty text, which a second pass turns into the missing value. */
  lemma CleanDateSecondPassDiffers()
    ensures CleanDateFormat(Some(" ")) == Some("")
    ensures CleanDateFormat(CleanDateFormat(Some(" "))) == None
  {
    assert Lower(" ") == " ";
    assert ReplaceAll(" ", " @ ", " ") == " ";
    assert ReplaceAll(" ", ".000", "") == " ";
    assert TrimLeft(" ") == "";
  }

  // ---------------------------------------------------------------------
  // parse_datetime_column

  /** The default `target_format`. */
  const DefaultDateFormat := "%b %d, %Y %H:%M:%S"

  const DerivedFields: seq<string> := ["hour", "date", "day_of_week", "month", "year"]

  /** The text `clean_date_format` receives from a cell. Cells that are not
      text never reach it (columns are read as text). */
  function CleanDateCell(c: Cell): (r: Option<string>)
    ensures r.Some? ==> c.Str?
  {
    match c
    case Str(s) => CleanDateFormat(Some(s))
    case _ => None
  }

  function CleanedCell(c: Cell): Cell {
    match CleanDateCell(c)
    case None => Null
    case Some(s) => Str(s)
  }

  /** `pd.to_datetime(cleaned, format, errors='coerce')` on one cell: `parse`
      stands for the library parser, a partial function of format and text. */
  function ParsedCell(format: string, parse: (string, string) -> Option<DateTime>, c: Cell): (r: Cell)
    ensures r == Null || r.Time?
    ensures r.Time? <==> CleanDateCell(c).Some? && parse(format, CleanDateCell(c).value).Some?
    ensures r.Time? ==> parse(format, CleanDateCell(c).value) == Some(r.t)
  {
    match CleanDateCell(c)
    case None => Null
    case Some(s) => if parse(format, s).Some? then Time(parse(format, s).value) else Null
  }

  function Parsed(t: Table, col: string, format: string, parse: (string, string) -> Option<DateTime>): (cells: seq<Cell>)
    ensures |cells| == |t.rows|
  {
    seq(|t.rows|, i requires 0 <= i < |t.rows| => ParsedCell(format, parse, Get(t.rows[i], col)))
  }

  /** Number of cells that hold a timestamp: `(~series.isna()).sum()`. */
  function CountTimes(cells: seq<Cell>): (n: nat)
    ensures n > 0 <==> exists i | 0 <= i < |cells| :: cells[i].Time?
  {
    if cells == [] then 0
    else
      var rest := CountTimes(cells[1..]);
      assert forall i | 1 <= i < |cells| :: cells[i] == cells[1..][i - 1];
      (if cells[0].Time? then 1 else 0) + rest
  }

  function HourCell(c: Cell): Cell { if c.Time? then Int(c.t.hour) else Null }
  function DateCell(c: Cell): Cell { if c.Time? then Day(DateOf(c.t)) else Null }
  function DayNameCell(c: Cell): Cell { if c.Time? then Str(DayName(c.t)) else Null }
  function MonthCell(c: Cell): Cell { if c.Time? then Int(c.t.month) else Null }
  function YearCell(c: Cell): Cell { if c.Time? then Int(c.t.year) else Null }

  function MapCells(cells: seq<Cell>, f: Cell -> Cell): (r: seq<Cell>)
    ensures |r| == |cells| && forall i | 0 <= i < |cells| :: r[i] == f(cells[i])
  {
    seq(|cells|, i requires 0 <= i < |cells| => f(cells[i]))
  }

  /** Column `d` of `r` is as in `t`: present in both or neither, same cells,
      same dtype. */
  predicate Same(r: Table, t: Table, d: string) {
    (d in r.columns <==> d in t.columns) && Column(r, d) == Column(t, d) && (d in r.timeCols <==> d in t.timeCols)
  }

  predicate IsDatetimeColumn(t: Table, c: string) {
    c in t.columns && c in t.timeCols
  }

  function Durations(t: Table): (cells: seq<Cell>)
    ensures |cells| == |t.rows|
  {
    seq(|t.rows|, i requires 0 <= i < |t.rows| => Minutes(Get(t.rows[i], "start_time"), Get(t.rows[i], "end_time")))
  }

  lemma CleanSuffix(col: string, d: string)
    requires |d| < 6 || d[|d| - 6..] != "_clean"
    ensures col + "_clean" != d
  {
    assert (col + "_clean")[|col|..] == "_clean";
  }

  /** The temporary column never clashes with a derived column or with
      `duration_minutes`. */
  lemma TemporaryName(col: string)
    ensures col + "_clean" !in DerivedFields && col + "_clean" != "duration_minutes"
  {
    CleanSuffix(col, "duration_minutes");
    CleanSuffix(col, "hour");
    CleanSuffix(col, "date");
    CleanSuffix(col, "day_of_week");
    CleanSuffix(col, "month");
    CleanSuffix(col, "year");
  }

  /** Adds the hour, date, day-of-week, month and year columns derived from
      the timestamps `times`. */
  method AddDerivedFields(t: Table, times: seq<Cell>) returns (r: Table)
    requires |times| == |t.rows|
    ensures |r.rows| == |t.rows|
    ensures forall d | d in DerivedFields :: d in r.columns && d !in r.timeCols
    ensures Column(r, "hour") == MapCells(times, HourCell)
    ensures Column(r, "date") == MapCells(times, DateCell)
    ensures Column(r, "day_of_week") == MapCells(times, DayNameCell)
    ensures Column(r, "month") == MapCells(times, MonthCell)
    ensures Column(r, "year") == MapCells(times, YearCell)
    ensures forall d | d !in DerivedFields :: Same(r, t, d)
    ensures forall d | d !in DerivedFields :: d in r.columns ==> d in t.columns
  {
    var hours := MapCells(times, HourCell);
    var r1 := SetColumn(t, "hour", hours, false);
    var r2 := SetColumn(r1, "date", MapCells(times, DateCell), false);
    assert Column(r2, "hour") == hours;
    var r3 := SetColumn(r2, "day_of_week", MapCells(times, DayNameCell), false);
    assert Column(r3, "hour") == hours;
    var r4 := SetColumn(r3, "month", MapCells(times, MonthCell), false);
    assert Column(r4, "hour") == hours;
    assert Column(r4, "day_of_week") == MapCells(times, DayNameCell);
    r := SetColumn(r4, "year", MapCells(times, YearCell), false);
    forall d | d !in DerivedFields ensures Same(r, t, d) && (d in r.columns ==> d in t.columns) {
      assert Same(r1, t, d) && Same(r2, r1, d) && Same(r3, r2, d) && Same(r4, r3, d) && Same(r, r4, d);
    }
  }

  /** The durations depend on the `start_time` and `end_time` columns only. */
  lemma DurationsSame(r: Table, t: Table)
    requires |r.rows| == |t.rows|
    requires Column(r, "start_time") == Column(t, "start_time") && Column(r, "end_time") == Column(t, "end_time")
    ensures Durations(r) == Durations(t)
  {
    forall i | 0 <= i < |t.rows| ensures Durations(r)[i] == Durations(t)[i] {
      assert Column(r, "start_time")[i] == Column(t, "start_time")[i];
      assert Column(r, "end_time")[i] == Column(t, "end_time")[i];
    }
  }

  /** Adds `duration_minutes` when both `start_time` and `end_time` are
      datetime columns, and changes nothing otherwise. */
  method AddDuration(t: Table) returns (r: Table)
    ensures |r.rows| == |t.rows|
    ensures forall d | d != "duration_minutes" :: Same(r, t, d)
    ensures forall d | d != "duration_minutes" :: d in r.columns ==> d in t.columns
    ensures forall d | d in t.columns :: d in r.columns
    ensures IsDatetimeColumn(t, "start_time") && IsDatetimeColumn(t, "end_time") ==>
      "duration_minutes" in r.columns && Column(r, "duration_minutes") == Durations(r)
    ensures !(IsDatetimeColumn(t, "start_time") && IsDatetimeColumn(t, "end_time")) ==> r == t
  {
    r := t;
    if "start_time" in t.columns && "end_time" in t.columns {
      if "start_time" in t.timeCols && "end_time" in t.timeCols {
        r := SetColumn(t, "duration_minutes", Durations(t), false);
        DurationsSame(r, t);
      }
    }
  }

  /** Overwrites `col` with the timestamps `times` and, when asked, adds the
      derived calendar columns. */
  method StoreTimes(t: Table, col: string, times: seq<Cell>, createDerivedFields: bool) returns (r: Table)
    requires |times| == |t.rows|
    ensures |r.rows| == |t.rows|
    ensures col !in DerivedFields || !createDerivedFields ==> IsDatetimeColumn(r, col) && Column(r, col) == times
    ensures createDerivedFields ==> forall d | d in DerivedFields :: d in r.columns
    ensures createDerivedFields ==>
      Column(r, "hour") == MapCells(times, HourCell) && Column(r, "date") == MapCells(times, DateCell) &&
      Column(r, "day_of_week") == MapCells(times, DayNameCell) && Column(r, "month") == MapCells(times, MonthCell) &&
      Column(r, "year") == MapCells(times, YearCell)
    ensures forall d | d != col && (d !in DerivedFields || !createDerivedFields) :: Same(r, t, d)
    ensures forall d | d in r.columns :: d in t.columns || d == col || d in DerivedFields
  {
    r := SetColumn(t, col, times, true);
    if createDerivedFields {
      var s := r;
      r := AddDerivedFields(s, times);
      forall d | d != col && d !in DerivedFields ensures Same(r, t, d) {
        assert Same(r, s, d) && Same(s, t, d);
      }
    }
  }

  /** Parses column `col` as dates: on success the column holds timestamps
      (and, when asked, the derived calendar columns are added); on failure
      the frame keeps its columns and cells. Either way the temporary
      `<col>_clean` column is gone and `duration_minutes` is computed when
      both `start_time` and `end_time` are datetime columns. */
  method ParseDatetimeColumn(t: Table, col: string, format: string,
                             parse: (string, string) -> Option<DateTime>, createDerivedFields: bool)
    returns (r: Table, success: bool)
    ensures col !in t.columns ==> r == t && !success
    ensures success <==> col in t.columns && exists i | 0 <= i < |t.rows| :: Parsed(t, col, format, parse)[i].Time?
    ensures |r.rows| == |t.rows|
    ensures col in t.columns ==> col + "_clean" !in r.columns
    ensures success && col !in DerivedFields && col != "duration_minutes" ==>
      IsDatetimeColumn(r, col) && Column(r, col) == Parsed(t, col, format, parse)
    ensures success && createDerivedFields ==> forall d | d in DerivedFields :: d in r.columns
    ensures success && createDerivedFields ==>
      Column(r, "hour") == MapCells(Parsed(t, col, format, parse), HourCell) &&
      Column(r, "date") == MapCells(Parsed(t, col, format, parse), DateCell) &&
      Column(r, "day_of_week") == MapCells(Parsed(t, col, format, parse), DayNameCell) &&
      Column(r, "month") == MapCells(Parsed(t, col, format, parse), MonthCell) &&
      Column(r, "year") == MapCells(Parsed(t, col, format, parse), YearCell)
    ensures col in t.columns && !success ==>
      forall d | d != col + "_clean" && d != "duration_minutes" :: Same(r, t, d)
    ensures forall d | d != col && d != col + "_clean" && d != "duration_minutes" && (d !in DerivedFields || !createDerivedFields) ::
      Same(r, t, d)
    ensures col in t.columns && IsDatetimeColumn(r, "start_time") && IsDatetimeColumn(r, "end_time") ==>
      "duration_minutes" in r.columns && Column(r, "duration_minutes") == Durations(r)
    ensures col != "duration_minutes" && !(IsDatetimeColumn(r, "start_time") && IsDatetimeColumn(r, "end_time")) ==>
      Same(r, t, "duration_minutes")
  {
    if col !in t.columns {
      return t, false;
    }
    var tmp := col + "_clean";
    assert tmp != col by {
      assert |tmp| > |col|;
    }
    TemporaryName(col);
    var times := Parsed(t, col, format, parse);
    // The temporary column holds the cleaned texts.
    var cleaned := SetColumn(t, tmp, MapCells(Column(t, col), CleanedCell), false);
    success := CountTimes(times) > 0;
    assert Same(cleaned, t, "duration_minutes");
    if success {
      r := StoreAndFinish(cleaned, col, tmp, times, createDerivedFields);
      forall d | d != col && d != tmp && d != "duration_minutes" && (d !in DerivedFields || !createDerivedFields)
        ensures Same(r, t, d)
      {
        assert Same(r, cleaned, d) && Same(cleaned, t, d);
      }
    } else {
      r := Finish(cleaned, tmp);
      forall d | d != tmp && d != "duration_minutes" ensures Same(r, t, d) {
        assert Same(r, cleaned, d) && Same(cleaned, t, d);
      }
    }
  }

  /** Calendar columns computed from `times` in `t` stay so in a table that
      keeps every calendar column of `t`. */
  lemma CalendarKept(r: Table, t: Table, times: seq<Cell>)
    requires forall d | d in DerivedFields :: Same(r, t, d)
    requires forall d | d in DerivedFields :: d in t.columns
    requires Column(t, "hour") == MapCells(times, HourCell) && Column(t, "date") == MapCells(times, DateCell) &&
      Column(t, "day_of_week") == MapCells(times, DayNameCell) && Column(t, "month") == MapCells(times, MonthCell) &&
      Column(t, "year") == MapCells(times, YearCell)
    ensures forall d | d in DerivedFields :: d in r.columns
    ensures Column(r, "hour") == MapCells(times, HourCell) && Column(r, "date") == MapCells(times, DateCell) &&
      Column(r, "day_of_week") == MapCells(times, DayNameCell) && Column(r, "month") == MapCells(times, MonthCell) &&
      Column(r, "year") == MapCells(times, YearCell)
  {
    assert Same(r, t, "hour") && Same(r, t, "day_of_week");
    assert Same(r, t, "date") && Same(r, t, "month") && Same(r, t, "year");
  }

  /** The success branch of `parse_datetime_column`: stores the timestamps
      (and the derived columns when asked), then drops the temporary column
      and adds `duration_minutes` when it can. */
  method StoreAndFinish(t: Table, col: string, tmp: string, times: seq<Cell>, createDerivedFields: bool)
    returns (r: Table)
    requires |times| == |t.rows|
    requires tmp != col && tmp !in DerivedFields && tmp != "duration_minutes"
    ensures |r.rows| == |t.rows| && tmp !in r.columns
    ensures col !in DerivedFields && col != "duration_minutes" ==> IsDatetimeColumn(r, col) && Column(r, col) == times
    ensures createDerivedFields ==> forall d | d in DerivedFields :: d in r.columns
    ensures createDerivedFields ==>
      Column(r, "hour") == MapCells(times, HourCell) && Column(r, "date") == MapCells(times, DateCell) &&
      Column(r, "day_of_week") == MapCells(times, DayNameCell) && Column(r, "month") == MapCells(times, MonthCell) &&
      Column(r, "year") == MapCells(times, YearCell)
    ensures forall d | d != col && d != tmp && d != "duration_minutes" && (d !in DerivedFields || !createDerivedFields) ::
      Same(r, t, d)
    ensures IsDatetimeColumn(r, "start_time") && IsDatetimeColumn(r, "end_time") ==>
      "duration_minutes" in r.columns && Column(r, "duration_minutes") == Durations(r)
    ensures col != "duration_minutes" && !(IsDatetimeColumn(r, "start_time") && IsDatetimeColumn(r, "end_time")) ==>
      Same(r, t, "duration_minutes")
  {
    var parsed := StoreTimes(t, col, times, createDerivedFields);
    r := Finish(parsed, tmp);
    if col !in DerivedFields && col != "duration_minutes" {
      assert Same(r, parsed, col);
    }
    if createDerivedFields {
      CalendarKept(r, parsed, times);
    }
    forall d | d != col && d != tmp && d != "duration_minutes" && (d !in DerivedFields || !createDerivedFields)
      ensures Same(r, t, d)
    {
      assert Same(r, parsed, d) && Same(parsed, t, d);
    }
    if col != "duration_minutes" {
      assert Same(parsed, t, "duration_minutes");
    }
  }

  /** The end of `parse_datetime_column`: drops the temporary column `tmp`
      and adds `duration_minutes` when it can. */
  method Finish(t: Table, tmp: string) returns (r: Table)
    requires tmp != "duration_minutes"
    ensures |r.rows| == |t.rows|
    ensures tmp !in r.columns
    ensures forall d | d != tmp && d != "duration_minutes" :: Same(r, t, d)
    ensures forall d | d in t.columns && d != tmp :: d in r.columns
    ensures IsDatetimeColumn(r, "start_time") && IsDatetimeColumn(r, "end_time") ==>
      "duration_minutes" in r.columns && Column(r, "duration_minutes") == Durations(r)
    ensures !(IsDatetimeColumn(r, "start_time") && IsDatetimeColumn(r, "end_time")) ==> Same(r, t, "duration_minutes")
  {
    var dropped := DropColumn(t, tmp);
    r := AddDuration(dropped);
    assert Same(dropped, t, "duration_minutes");
    assert Same(r, dropped, "start_time") && Same(r, dropped, "end_time");
    forall d | d != tmp && d != "duration_minutes" ensures Same(r, t, d) {
      assert Same(r, dropped, d) && Same(dropped, t, d);
    }
  }

  // ---------------------------------------------------------------------
  // clean_numeric_data

  /** One cell through the number cleaner; non-text cells pass unchanged. */
  function CleanNumberCell(c: Cell): Cell {
    match c
    case Null => Null
    case Str(s) => (match CleanEuropeanNumber(Some(s)) case None => Null case Some(x) => Str(x))
    case _ => c
  }

  /** Applies the number cleaner to each listed column the frame has, in the
      order listed; other columns are untouched. */
  method CleanNumericData(t: Table, columns: seq<string>) returns (r: Table)
    requires forall i, j | 0 <= i < j < |columns| :: columns[i] != columns[j]
    ensures r.columns == t.columns && r.timeCols <= t.timeCols
    ensures forall c | c in columns && c in t.columns :: Column(r, c) == MapCells(Column(t, c), CleanNumberCell)
    ensures forall c | c !in columns || c !in t.columns :: Column(r, c) == Column(t, c)
  {
    r := t;
    for k := 0 to |columns|
      invariant r.columns == t.columns && r.timeCols <= t.timeCols && |r.rows| == |t.rows|
      invariant forall c | c in columns[..k] && c in t.columns :: Column(r, c) == MapCells(Column(t, c), CleanNumberCell)
      invariant forall c | c !in columns[..k] || c !in t.columns :: Column(r, c) == Column(t, c)
    {
      var col := columns[k];
      assert columns[..k + 1] == columns[..k] + [col];
      if col in r.columns {
        r := SetColumn(r, col, MapCells(Column(r, col), CleanNumberCell), false);
      }
    }
  }
}

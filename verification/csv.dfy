/** The CSV export: every field is quoted with its inner quotes doubled,
    fields are joined by commas and rows by newlines. `ParseCsv` reads such
    text back and is the partner the quoting is proved against. */
module Csv {
  import opened Ledger

  datatype Option<T> = None | Some(value: T)

  /** `field.replace(/"/g, '""')`. */
  function DoubleQuotes(f: string): (r: string)
    ensures |r| >= |f|
    ensures (forall c :: c in f ==> c != '"') ==> r == f
  {
    if |f| == 0 then ""
    else
      assert f == [f[0]] + f[1..] && f[0] in f;
      if f[0] == '"' then "\"\"" + DoubleQuotes(f[1..])
      else
        assert forall c :: c in f[1..] ==> c in f;
        [f[0]] + DoubleQuotes(f[1..])
  }

  /** One field as it is written out: `"` + doubled text + `"`. */
  function QuoteField(f: string): (r: string)
    ensures |r| >= 2 && r[0] == '"' && r[|r| - 1] == '"'
  {
    "\"" + DoubleQuotes(f) + "\""
  }

  /** `row.map(quote).join(',')`. */
  function JoinFields(fs: seq<string>): string
  {
    if |fs| == 0 then ""
    else if |fs| == 1 then QuoteField(fs[0])
    else QuoteField(fs[0]) + "," + JoinFields(fs[1..])
  }

  /** `rows.map(...).join('\n')`. */
  function JoinRows(rows: seq<seq<string>>): string
  {
    if |rows| == 0 then ""
    else if |rows| == 1 then JoinFields(rows[0])
    else JoinFields(rows[0]) + "\n" + JoinRows(rows[1..])
  }

  /** Reads the inside of a quoted field, just after its opening quote: a
      doubled quote stands for one quote, a single quote closes the field.
      Returns the text and what follows the closing quote. */
  function ReadQuoted(s: string): (r: Option<(string, string)>)
    ensures r.Some? ==> |r.value.1| < |s|
  {
    if |s| == 0 then None
    else if s[0] == '"' then
      if |s| >= 2 && s[1] == '"' then
        match ReadQuoted(s[2..])
        case None => None
        case Some((f, rest)) => Some(("\"" + f, rest))
      else Some(("", s[1..]))
    else
      match ReadQuoted(s[1..])
      case None => None
      case Some((f, rest)) => Some(([s[0]] + f, rest))
  }

  /** Reads the quoted fields of one row up to a newline or the end. */
  function ReadFields(s: string): (r: Option<(seq<string>, string)>)
    ensures r.Some? ==> |r.value.1| < |s|
    decreases |s|
  {
    if |s| == 0 || s[0] != '"' then None
    else
      match ReadQuoted(s[1..])
      case None => None
      case Some((f, rest)) =>
        if |rest| > 0 && rest[0] == ',' then
          match ReadFields(rest[1..])
          case None => None
          case Some((fs, after)) => Some(([f] + fs, after))
        else if |rest| == 0 || rest[0] == '\n' then Some(([f], rest))
        else None
  }

  /** Reads a whole export back into rows of fields. */
  function ParseCsv(s: string): Option<seq<seq<string>>>
    decreases |s|
  {
    if |s| == 0 then Some([])
    else
      match ReadFields(s)
      case None => None
      case Some((fs, rest)) =>
        if |rest| == 0 then Some([fs])
        else
          match ParseCsv(rest[1..])
          case None => None
          case Some(rows) => Some([fs] + rows)
  }

  /** The doubled text and the closing quote read back as the field, leaving
      whatever follows as long as it does not start with a quote. */
  lemma {:induction false} ReadQuotedField(f: string, rest: string)
    requires |rest| == 0 || rest[0] != '"'
    ensures ReadQuoted(DoubleQuotes(f) + "\"" + rest) == Some((f, rest))
  {
    var s := DoubleQuotes(f) + "\"" + rest;
    if |f| == 0 {
      assert s == "\"" + rest;
      assert s[1..] == rest;
    } else {
      ReadQuotedField(f[1..], rest);
      var tail := DoubleQuotes(f[1..]) + "\"" + rest;
      if f[0] == '"' {
        assert s == "\"\"" + tail;
        assert s[2..] == tail;
      } else {
        assert s == [f[0]] + tail;
        assert s[1..] == tail;
      }
      assert f == [f[0]] + f[1..];
    }
  }

  /** What follows a quoted field, after its closing quote. */
  lemma QuotedThen(f: string, more: string)
    requires |more| == 0 || more[0] != '"'
    ensures var s := QuoteField(f) + more;
      |s| > 0 && s[0] == '"' && ReadQuoted(s[1..]) == Some((f, more))
  {
    var s := QuoteField(f) + more;
    assert s[1..] == DoubleQuotes(f) + "\"" + more;
    ReadQuotedField(f, more);
  }

  lemma ReadLastField(f: string, rest: string)
    requires |rest| == 0 || rest[0] == '\n'
    ensures ReadFields(QuoteField(f) + rest) == Some(([f], rest))
  {
    QuotedThen(f, rest);
  }

  lemma ReadNextField(f: string, tail: string, fs: seq<string>, after: string)
    requires ReadFields(tail) == Some((fs, after))
    ensures ReadFields(QuoteField(f) + ("," + tail)) == Some(([f] + fs, after))
  {
    QuotedThen(f, "," + tail);
    assert ("," + tail)[1..] == tail;
  }

  /** A row of at least one field reads back, stopping at a newline or the end. */
  lemma {:induction false} ReadFieldsRow(fs: seq<string>, rest: string)
    requires |fs| > 0
    requires |rest| == 0 || rest[0] == '\n'
    ensures ReadFields(JoinFields(fs) + rest) == Some((fs, rest))
  {
    if |fs| == 1 {
      ReadLastField(fs[0], rest);
      assert fs == [fs[0]];
    } else {
      ReadFieldsRow(fs[1..], rest);
      ReadNextField(fs[0], JoinFields(fs[1..]) + rest, fs[1..], rest);
      assert JoinFields(fs) + rest == QuoteField(fs[0]) + ("," + (JoinFields(fs[1..]) + rest));
      assert fs == [fs[0]] + fs[1..];
    }
  }

  /** A row, a newline and more rows read back as that row before the others. */
  lemma ParseNextRow(fs: seq<string>, tail: string, rows: seq<seq<string>>)
    requires |fs| > 0
    requires |tail| > 0 && ParseCsv(tail) == Some(rows)
    ensures ParseCsv(JoinFields(fs) + ("\n" + tail)) == Some([fs] + rows)
  {
    var s := JoinFields(fs) + ("\n" + tail);
    ReadFieldsRow(fs, "\n" + tail);
    assert |s| > 0 by {
      assert |JoinFields(fs) + ("\n" + tail)| >= 1;
    }
    assert ("\n" + tail)[1..] == tail;
  }

  /** The export reads back as the rows it was made from, provided every row
      has a field (an empty row would write an empty line). */
  lemma {:induction false} CsvRoundTrip(rows: seq<seq<string>>)
    requires forall i :: 0 <= i < |rows| ==> |rows[i]| > 0
    ensures ParseCsv(JoinRows(rows)) == Some(rows)
    decreases |rows|
  {
    if |rows| == 1 {
      ParseOneRow(rows[0]);
      assert rows == [rows[0]];
    } else if |rows| > 1 {
      var rest := rows[1..];
      assert forall i :: 0 <= i < |rest| ==> |rest[i]| > 0 by {
        forall i | 0 <= i < |rest| ensures |rest[i]| > 0 {
          assert rest[i] == rows[i + 1];
        }
      }
      assert |rows[0]| > 0;
      CsvRoundTrip(rest);
      JoinRowsNonEmpty(rest);
      ParseNextRow(rows[0], JoinRows(rest), rest);
      JoinRowsCons(rows);
      assert rows == [rows[0]] + rest;
    }
  }

  lemma JoinRowsCons(rows: seq<seq<string>>)
    requires |rows| > 1
    ensures JoinRows(rows) == JoinFields(rows[0]) + ("\n" + JoinRows(rows[1..]))
  {
    Regroup(JoinFields(rows[0]), "\n", JoinRows(rows[1..]));
  }

  lemma Regroup(a: string, b: string, c: string)
    ensures a + b + c == a + (b + c)
  {
  }

  lemma ParseOneRow(fs: seq<string>)
    requires |fs| > 0
    ensures ParseCsv(JoinFields(fs)) == Some([fs])
  {
    ReadFieldsRow(fs, "");
    assert JoinFields(fs) + "" == JoinFields(fs);
    assert |JoinFields(fs)| > 0;
  }

  lemma JoinRowsNonEmpty(rows: seq<seq<string>>)
    requires |rows| > 0 && |rows[0]| > 0
    ensures |JoinRows(rows)| > 0
  {
  }

  /** `description.replace(/\n/g, ' ')`. */
  function FlattenLines(s: string): (r: string)
    ensures |r| == |s|
    ensures forall i :: 0 <= i < |s| ==> r[i] == (if s[i] == '\n' then ' ' else s[i])
  {
    if |s| == 0 then "" else [if s[0] == '\n' then ' ' else s[0]] + FlattenLines(s[1..])
  }

  /** A flattened description holds no line break, so it stays on its row. */
  lemma FlattenLinesOneLine(s: string)
    ensures '\n' !in FlattenLines(s)
  {
    var r := FlattenLines(s);
    forall k | 0 <= k < |r| ensures r[k] != '\n' {
    }
  }

  const Header: seq<string> := ["Date", "Description", "Paid By", "Amount"]

  /** The row written for one record. The amount's text (`toFixed(2)` in
      the original) is supplied by `amountText`. */
  function RecordRow(t: Expense, amountText: real -> string): seq<string>
  {
    [t.date, FlattenLines(t.description), t.paidBy, amountText(t.amount)]
  }

  function RecordRows(txns: seq<Expense>, amountText: real -> string): (r: seq<seq<string>>)
    ensures |r| == |txns|
    ensures forall i :: 0 <= i < |txns| ==> r[i] == RecordRow(txns[i], amountText)
  {
    if |txns| == 0 then [] else [RecordRow(txns[0], amountText)] + RecordRows(txns[1..], amountText)
  }

  /** The text of the export: the header, then one row per record. */
  function ExportCsv(txns: seq<Expense>, amountText: real -> string): string
  {
    JoinRows([Header] + RecordRows(txns, amountText))
  }

  /** The export reads back as the header and, for each record in order, its
      date, its description on one line, its payer and its amount text. */
  lemma ExportRoundTrip(txns: seq<Expense>, amountText: real -> string)
    ensures var p := ParseCsv(ExportCsv(txns, amountText));
      && p.Some? && |p.value| == |txns| + 1
      && p.value[0] == Header
      && forall i :: 0 <= i < |txns| ==>
           p.value[i + 1] == [txns[i].date, FlattenLines(txns[i].description), txns[i].paidBy, amountText(txns[i].amount)]
  {
    var rows := [Header] + RecordRows(txns, amountText);
    forall i | 0 <= i < |rows| ensures |rows[i]| > 0 {
      if i > 0 {
        assert rows[i] == RecordRow(txns[i - 1], amountText);
      }
    }
    CsvRoundTrip(rows);
  }
}

/**
 * The CSV writer shared by the exporters: a field is quoted, with its double
 * quotes doubled, exactly when it holds a comma, a double quote or a line feed
 * (rules 6 and 7 of section 2 of RFC 4180); a row joins its fields with commas
 * and a document ends every row with a line feed.
 */
module Csv {
  import opened Numbers

  /** A value handed to `toCsvRow`: a number, or a string written as it is. */
  datatype Value = Num(n: Number) | Text(s: string)

  /**
   * `numberToString`: a non-finite number is written as the empty field; a
   * finite one as `String(value)`, which is the parameter `render` here.
   */
  function NumberToString(n: Number, render: real -> string): (s: string)
    ensures n.NonFinite? ==> s == ""
    ensures n.Finite? ==> s == render(n.value)
  {
    match n
    case NonFinite => ""
    case Finite(v) => render(v)
  }

  predicate Special(c: char)
  {
    c == ',' || c == '"' || c == '\n'
  }

  /** `/[,"\n]/.test(value)`. */
  predicate NeedsQuoting(s: string)
  {
    exists i :: 0 <= i < |s| && Special(s[i])
  }

  /** `value.replace(/"/g, '""')`. */
  function DoubleQuotes(s: string): (d: string)
    ensures |d| >= |s|
  {
    if |s| == 0 then ""
    else (if s[0] == '"' then "\"\"" else [s[0]]) + DoubleQuotes(s[1..])
  }

  /** `escapeCsv`: a field without special characters is written as it is, any other is quoted. */
  function EscapeCsv(s: string): (e: string)
    ensures !NeedsQuoting(s) ==> e == s
    ensures NeedsQuoting(s) ==> |e| >= 2 && e[0] == '"' && e[|e| - 1] == '"' && e[1..|e| - 1] == DoubleQuotes(s)
  {
    if !NeedsQuoting(s) then s else "\"" + DoubleQuotes(s) + "\""
  }

  /** `values.join(sep)`. */
  function Join(parts: seq<string>, sep: string): string
  {
    if |parts| == 0 then ""
    else if |parts| == 1 then parts[0]
    else parts[0] + sep + Join(parts[1..], sep)
  }

  /** The text of one value before escaping. */
  function ValueText(v: Value, render: real -> string): string
  {
    match v
    case Num(n) => NumberToString(n, render)
    case Text(s) => s
  }

  /** The field texts of a row, each escaped. */
  function EscapedFields(values: seq<Value>, render: real -> string): (fields: seq<string>)
    ensures |fields| == |values|
    ensures forall i :: 0 <= i < |values| ==> fields[i] == EscapeCsv(ValueText(values[i], render))
  {
    seq(|values|, i requires 0 <= i < |values| => EscapeCsv(ValueText(values[i], render)))
  }

  /** `toCsvRow`: the escaped fields joined with commas. */
  function ToCsvRow(values: seq<Value>, render: real -> string): string
  {
    Join(EscapedFields(values, render), ",")
  }

  /** `${rows.join('\n')}\n`. */
  function Document(rows: seq<string>): string
  {
    Join(rows, "\n") + "\n"
  }

  /** Every row followed by its own line feed, in order. */
  function Terminated(rows: seq<string>): string
  {
    if |rows| == 0 then "" else rows[0] + "\n" + Terminated(rows[1..])
  }

  /** A document of at least one row is its rows, each ended by a line feed. */
  lemma {:induction false} DocumentTerminatesRows(rows: seq<string>)
    requires |rows| > 0
    ensures Document(rows) == Terminated(rows)
  {
    if |rows| > 1 {
      DocumentTerminatesRows(rows[1..]);
      assert Document(rows) == rows[0] + "\n" + Document(rows[1..]);
    }
  }

  /*
   * A reader for one record, following RFC 4180: a field that starts with a
   * double quote runs to the next lone double quote, a doubled one standing for
   * one; any other field runs to the next comma.
   */

  /** The rest of a quoted field and what follows its closing quote. */
  function ParseQuoted(s: string): (r: (string, string))
    ensures |r.1| <= |s|
  {
    if |s| == 0 then ("", "")
    else if s[0] == '"' then
      if |s| >= 2 && s[1] == '"' then
        var (f, rest) := ParseQuoted(s[2..]);
        ("\"" + f, rest)
      else ("", s[1..])
    else
      var (f, rest) := ParseQuoted(s[1..]);
      ([s[0]] + f, rest)
  }

  /** An unquoted field: everything before the first comma. */
  function ParsePlain(s: string): (r: (string, string))
    ensures |r.1| <= |s|
  {
    if |s| == 0 || s[0] == ',' then ("", s)
    else
      var (f, rest) := ParsePlain(s[1..]);
      ([s[0]] + f, rest)
  }

  /** One field from the front of a record, and the text after it. */
  function ParseField(s: string): (r: (string, string))
    ensures |r.1| <= |s|
  {
    if |s| > 0 && s[0] == '"' then ParseQuoted(s[1..]) else ParsePlain(s)
  }

  /** The fields of one record. */
  function ParseRecord(s: string): seq<string>
    decreases |s|
  {
    var (f, rest) := ParseField(s);
    if |rest| > 0 && rest[0] == ',' then [f] + ParseRecord(rest[1..]) else [f]
  }

  /** What may follow a field: the end of the record or the comma before the next field. */
  predicate FieldEnd(tail: string)
  {
    |tail| == 0 || tail[0] == ','
  }

  lemma {:induction false} QuotedRoundTrip(f: string, tail: string)
    requires FieldEnd(tail)
    ensures ParseQuoted(DoubleQuotes(f) + "\"" + tail) == (f, tail)
    decreases |f|
  {
    var s := DoubleQuotes(f) + "\"" + tail;
    if |f| == 0 {
      assert s == "\"" + tail;
      assert s[1..] == tail;
    } else {
      QuotedRoundTrip(f[1..], tail);
      var inner := DoubleQuotes(f[1..]) + "\"" + tail;
      if f[0] == '"' {
        assert s == "\"\"" + inner;
        assert s[2..] == inner;
      } else {
        assert s == [f[0]] + inner;
        assert s[1..] == inner;
      }
      assert f == [f[0]] + f[1..];
    }
  }

  lemma {:induction false} PlainRoundTrip(f: string, tail: string)
    requires forall i :: 0 <= i < |f| ==> f[i] != ','
    requires FieldEnd(tail)
    ensures ParsePlain(f + tail) == (f, tail)
    decreases |f|
  {
    if |f| == 0 {
      assert f + tail == tail;
    } else {
      PlainRoundTrip(f[1..], tail);
      assert (f + tail)[1..] == f[1..] + tail;
      assert f == [f[0]] + f[1..];
    }
  }

  /** Reading an escaped field back, up to a field end, gives the original field. */
  lemma FieldRoundTrip(f: string, tail: string)
    requires FieldEnd(tail)
    ensures ParseField(EscapeCsv(f) + tail) == (f, tail)
  {
    if NeedsQuoting(f) {
      QuotedFieldRoundTrip(f, tail);
    } else {
      PlainFieldRoundTrip(f, tail);
    }
  }

  lemma QuotedFieldRoundTrip(f: string, tail: string)
    requires FieldEnd(tail) && NeedsQuoting(f)
    ensures ParseField(EscapeCsv(f) + tail) == (f, tail)
  {
    var d := DoubleQuotes(f);
    assert EscapeCsv(f) + tail == "\"" + (d + "\"" + tail);
    OpenQuote(d + "\"" + tail);
    QuotedRoundTrip(f, tail);
  }

  /** A field that opens with a double quote is read as a quoted field. */
  lemma OpenQuote(rest: string)
    ensures ParseField("\"" + rest) == ParseQuoted(rest)
  {
    assert ("\"" + rest)[1..] == rest;
  }

  lemma PlainFieldRoundTrip(f: string, tail: string)
    requires FieldEnd(tail) && !NeedsQuoting(f)
    ensures ParseField(EscapeCsv(f) + tail) == (f, tail)
  {
    assert forall i :: 0 <= i < |f| ==> !Special(f[i]);
    PlainRoundTrip(f, tail);
    if |f| > 0 {
      assert (f + tail)[0] == f[0];
    }
  }

  /**
   * Reading a row written by `toCsvRow` back gives its field texts, so no field
   * leaks into its neighbour whatever commas, quotes or line feeds it holds.
   */
  lemma {:induction false} RecordRoundTrip(fields: seq<string>, escaped: seq<string>)
    requires |fields| > 0 && |escaped| == |fields|
    requires forall i :: 0 <= i < |fields| ==> escaped[i] == EscapeCsv(fields[i])
    ensures ParseRecord(Join(escaped, ",")) == fields
    decreases |fields|
  {
    if |fields| == 1 {
      FieldRoundTrip(fields[0], "");
      assert Join(escaped, ",") == EscapeCsv(fields[0]) + "";
      LastField(Join(escaped, ","), fields[0]);
    } else {
      var rest := Join(escaped[1..], ",");
      RecordRoundTrip(fields[1..], escaped[1..]);
      FieldRoundTrip(fields[0], "," + rest);
      assert Join(escaped, ",") == EscapeCsv(fields[0]) + ("," + rest);
      NextField(Join(escaped, ","), fields[0], rest);
      assert fields == [fields[0]] + fields[1..];
    }
  }

  lemma LastField(s: string, f: string)
    requires ParseField(s) == (f, "")
    ensures ParseRecord(s) == [f]
  {
  }

  lemma NextField(s: string, f: string, rest: string)
    requires ParseField(s) == (f, "," + rest)
    ensures ParseRecord(s) == [f] + ParseRecord(rest)
  {
    assert ("," + rest)[1..] == rest;
  }

  /** Every non-empty row `toCsvRow` writes reads back as the texts of its values. */
  lemma RowRoundTrip(values: seq<Value>, render: real -> string)
    requires |values| > 0
    ensures ParseRecord(ToCsvRow(values, render))
            == seq(|values|, i requires 0 <= i < |values| => ValueText(values[i], render))
  {
    var texts := seq(|values|, i requires 0 <= i < |values| => ValueText(values[i], render));
    RecordRoundTrip(texts, EscapedFields(values, render));
  }
}

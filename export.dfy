/** The CSV encoding of the export route (src/routes/export.js): every
    field quoted with its quotes doubled (section 2, rules 6 and 7 of
    RFC 4180), five fields to a row, a fixed header line and the rows
    joined by line feeds. A reader of that format is given beside it and
    reads back exactly the texts that were written. */
module Export {
  import opened Js
  import opened Text

  /** One selected patent: `pub_no, title, applicants_current, ipc_main, pub_date`. */
  datatype Record = Record(pubNo: Value, title: Value, applicants: Value, ipcMain: Value, pubDate: Value)

  const Header: string := "pub_no,title,applicants_current,ipc_main,pub_date\n"

  // ---------------------------------------------------------------------------
  // Fields

  /** `.replace(/"/g, '""')`. */
  function Escape(s: string): (r: string)
    ensures |r| >= |s|
    ensures (forall i :: 0 <= i < |s| ==> s[i] != '"') ==> r == s
    ensures (exists i :: 0 <= i < |s| && s[i] == '"') ==> |r| > |s|
  {
    if s == [] then []
    else if s[0] == '"' then "\"\"" + Escape(s[1..])
    else [s[0]] + Escape(s[1..])
  }

  /** A text between quotes, its own quotes doubled. */
  function Quote(s: string): string {
    "\"" + Escape(s) + "\""
  }

  /** `String(x || '')`. */
  function FieldText(x: Value): string {
    ToStr(OrElse(x, Str("")))
  }

  /** `'"' + String(x || '').replace(/"/g, '""') + '"'`: the field is
      quoted, and stripping the outer quotes and un-doubling the inner ones
      gives the field's text back. */
  function EncodeField(x: Value): (e: string)
    ensures |e| >= 2 && e[0] == '"' && e[|e| - 1] == '"'
    ensures ReadQuoted(e[1..]) == Some((FieldText(x), ""))
  {
    var e := Quote(FieldText(x));
    ReadEscaped(FieldText(x), "");
    assert e[1..] == Escape(FieldText(x)) + "\"" + "";
    e
  }

  /** Reads the inside of a quoted field, just after its opening quote, up to
      the closing quote: a doubled quote stands for one quote, a single one
      ends the field. Gives the text and what follows the closing quote. */
  function ReadQuoted(s: string): (r: Option<(string, string)>)
    ensures r.Some? ==> |r.value.1| < |s|
  {
    if s == [] then None
    else if s[0] == '"' then
      if |s| >= 2 && s[1] == '"' then
        match ReadQuoted(s[2..])
        case None => None
        case Some((t, rest)) => Some(("\"" + t, rest))
      else Some(("", s[1..]))
    else
      match ReadQuoted(s[1..])
      case None => None
      case Some((t, rest)) => Some(([s[0]] + t, rest))
  }

  /** A falsy value (`undefined`, `null`, `false`, `0`, `''`) is the empty
      quoted field. */
  lemma FalsyField(x: Value)
    requires !Truthy(x)
    ensures EncodeField(x) == "\"\""
  {
  }

  /** The reader takes back an escaped text up to its closing quote, as long
      as what follows does not itself start with a quote. */
  lemma {:induction false} ReadEscaped(s: string, rest: string)
    requires rest == [] || rest[0] != '"'
    ensures ReadQuoted(Escape(s) + "\"" + rest) == Some((s, rest))
    decreases |s|
  {
    var w := Escape(s) + "\"" + rest;
    if s == [] {
      assert w == "\"" + rest;
    } else {
      ReadEscaped(s[1..], rest);
      var tail := Escape(s[1..]) + "\"" + rest;
      assert [s[0]] + s[1..] == s;
      if s[0] == '"' {
        assert w == "\"\"" + tail;
        assert w[2..] == tail;
      } else {
        assert w == [s[0]] + tail;
        assert w[0] == s[0] && w[1..] == tail;
      }
    }
  }

  // ---------------------------------------------------------------------------
  // Rows

  function Fields(r: Record): (fs: seq<string>)
    ensures |fs| == 5
  {
    [FieldText(r.pubNo), FieldText(r.title), FieldText(r.applicants), FieldText(r.ipcMain), FieldText(r.pubDate)]
  }

  /** `[r.pub_no, …, r.pub_date].map(…).join(',')`: reading the line back
      gives the five field texts and nothing left over. */
  function EncodeRow(r: Record): (line: string)
    ensures ReadRecord(line) == Some((Fields(r), ""))
  {
    var fs := Fields(r);
    var line := Join([EncodeField(r.pubNo), EncodeField(r.title), EncodeField(r.applicants),
                      EncodeField(r.ipcMain), EncodeField(r.pubDate)], ",");
    assert Quotes(fs) == [EncodeField(r.pubNo), EncodeField(r.title), EncodeField(r.applicants),
                          EncodeField(r.ipcMain), EncodeField(r.pubDate)];
    ReadJoined(fs, "");
    assert line + "" == line;
    line
  }

  /** Reads one record: quoted fields separated by commas, up to the end of
      the text or the first character after a field that is not a comma.
      Gives the fields and what follows the last one. */
  function ReadRecord(s: string): (r: Option<(seq<string>, string)>)
    ensures r.Some? ==> |r.value.1| < |s| && r.value.0 != []
    decreases |s|
  {
    if s == [] || s[0] != '"' then None
    else
      match ReadQuoted(s[1..])
      case None => None
      case Some((t, rest)) =>
        if rest != [] && rest[0] == ',' then
          match ReadRecord(rest[1..])
          case None => None
          case Some((ts, more)) => Some(([t] + ts, more))
        else Some(([t], rest))
  }

  /** A last field reads back alone. */
  lemma ReadLast(t: string, rest: string)
    requires rest == [] || rest[0] !in {',', '"'}
    ensures ReadRecord(Quote(t) + rest) == Some(([t], rest))
  {
    var w := Quote(t) + rest;
    ReadEscaped(t, rest);
    assert w[0] == '"' && w[1..] == Escape(t) + "\"" + rest;
  }

  /** A field followed by a comma reads back in front of what the rest
      reads as. */
  lemma ReadNext(t: string, after: string)
    ensures ReadRecord(Quote(t) + "," + after) ==
              match ReadRecord(after)
              case None => None
              case Some((ts, more)) => Some(([t] + ts, more))
  {
    var w := Quote(t) + "," + after;
    ReadEscaped(t, "," + after);
    assert w[0] == '"' && w[1..] == Escape(t) + "\"" + ("," + after);
    assert ("," + after)[1..] == after;
  }

  function Quotes(fs: seq<string>): (qs: seq<string>)
    ensures |qs| == |fs|
    ensures forall i :: 0 <= i < |fs| ==> qs[i] == Quote(fs[i])
  {
    seq(|fs|, i requires 0 <= i < |fs| => Quote(fs[i]))
  }

  /** The first of several quoted fields reads back in front of the others. */
  lemma ReadJoinedStep(fs: seq<string>, rest: string)
    requires |fs| > 1
    ensures ReadRecord(Join(Quotes(fs), ",") + rest) ==
              match ReadRecord(Join(Quotes(fs[1..]), ",") + rest)
              case None => None
              case Some((ts, more)) => Some(([fs[0]] + ts, more))
  {
    assert Quotes(fs)[1..] == Quotes(fs[1..]);
    var after := Join(Quotes(fs[1..]), ",") + rest;
    ReadNext(fs[0], after);
    assert Join(Quotes(fs), ",") + rest == Quote(fs[0]) + "," + after;
  }

  /** A row of quoted fields reads back as those fields. */
  lemma {:induction false} ReadJoined(fs: seq<string>, rest: string)
    requires fs != []
    requires rest == [] || rest[0] !in {',', '"'}
    ensures ReadRecord(Join(Quotes(fs), ",") + rest) == Some((fs, rest))
    decreases |fs|
  {
    if |fs| == 1 {
      assert Join(Quotes(fs), ",") == Quote(fs[0]);
      ReadLast(fs[0], rest);
      assert [fs[0]] == fs;
    } else {
      ReadJoinedStep(fs, rest);
      ReadJoined(fs[1..], rest);
      assert [fs[0]] + fs[1..] == fs;
    }
  }

  /** Every row is exactly five quoted fields and four separating commas:
      reading it back gives the five texts and nothing left over. */
  lemma RowRoundTrip(r: Record, rest: string)
    requires rest == [] || rest[0] !in {',', '"'}
    ensures ReadRecord(EncodeRow(r) + rest) == Some((Fields(r), rest))
  {
    var fs := Fields(r);
    assert Quotes(fs) == [EncodeField(r.pubNo), EncodeField(r.title), EncodeField(r.applicants),
                  EncodeField(r.ipcMain), EncodeField(r.pubDate)];
    ReadJoined(fs, rest);
  }

  // ---------------------------------------------------------------------------
  // The file

  function EncodeRows(rows: seq<Record>): (rs: seq<string>)
    ensures |rs| == |rows|
    ensures forall i :: 0 <= i < |rows| ==> rs[i] == EncodeRow(rows[i])
  {
    seq(|rows|, i requires 0 <= i < |rows| => EncodeRow(rows[i]))
  }

  /** `header + body`, the body being the rows joined by line feeds. The
      file reads back as the header followed by one record of five field
      texts per row, in order. */
  function ExportFile(rows: seq<Record>): (f: string)
    ensures ReadExport(f) == Some(FieldsOf(rows))
  {
    var f := Header + Join(EncodeRows(rows), "\n");
    assert f[..|Header|] == Header;
    assert f[|Header|..] == Join(EncodeRows(rows), "\n");
    ReadBody(rows);
    f
  }

  /** Reads records separated by single line feeds, to the end of the text. */
  function ReadRecords(s: string): Option<seq<seq<string>>>
    decreases |s|
  {
    if s == [] then Some([])
    else
      match ReadRecord(s)
      case None => None
      case Some((fs, rest)) =>
        if rest == [] then Some([fs])
        else if rest[0] == '\n' && rest[1..] != [] then
          match ReadRecords(rest[1..])
          case None => None
          case Some(more) => Some([fs] + more)
        else None
  }

  /** Reads a whole export: the header, then the records. */
  function ReadExport(file: string): Option<seq<seq<string>>> {
    if |file| >= |Header| && file[..|Header|] == Header then ReadRecords(file[|Header|..])
    else None
  }

  function FieldsOf(rows: seq<Record>): (fss: seq<seq<string>>)
    ensures |fss| == |rows|
    ensures forall i :: 0 <= i < |rows| ==> fss[i] == Fields(rows[i])
  {
    seq(|rows|, i requires 0 <= i < |rows| => Fields(rows[i]))
  }

  /** A record ended by a line feed, with more text after it. */
  lemma ReadRecordsNext(s: string, fs: seq<string>, tail: string)
    requires tail != [] && ReadRecord(s) == Some((fs, "\n" + tail))
    ensures ReadRecords(s) ==
              match ReadRecords(tail)
              case None => None
              case Some(more) => Some([fs] + more)
  {
    assert ("\n" + tail)[1..] == tail;
  }

  /** Joining two or more parts, the second one not empty, gives the first
      part, the separator and a non-empty rest. */
  lemma JoinSplit(parts: seq<string>, sep: string)
    requires |parts| > 1 && parts[1] != []
    ensures var tail := Join(parts[1..], sep);
            tail != [] && Join(parts, sep) == parts[0] + (sep + tail)
  {
    var rest := parts[1..];
    assert rest[0] == parts[1];
    assert Join(rest, sep) != [] by {
      if |rest| > 1 {
        assert Join(rest, sep) == rest[0] + sep + Join(rest[1..], sep);
      }
    }
  }

  /** The body splits as its first row, a line feed and the other rows. */
  lemma BodyCons(rows: seq<Record>)
    requires |rows| > 1
    ensures var tail := Join(EncodeRows(rows[1..]), "\n");
            tail != [] && Join(EncodeRows(rows), "\n") == EncodeRow(rows[0]) + ("\n" + tail)
  {
    var es := EncodeRows(rows);
    assert es[1..] == EncodeRows(rows[1..]);
    RowNotEmpty(rows[1]);
    JoinSplit(es, "\n");
  }

  /** The first row of a longer body reads back in front of the others. */
  lemma ReadBodyStep(rows: seq<Record>)
    requires |rows| > 1
    ensures ReadRecords(Join(EncodeRows(rows), "\n")) ==
              match ReadRecords(Join(EncodeRows(rows[1..]), "\n"))
              case None => None
              case Some(more) => Some([Fields(rows[0])] + more)
  {
    var tail := Join(EncodeRows(rows[1..]), "\n");
    BodyCons(rows);
    RowRoundTrip(rows[0], "\n" + tail);
    ReadRecordsNext(Join(EncodeRows(rows), "\n"), Fields(rows[0]), tail);
  }

  /** The fields of a list of rows are the first row's followed by the rest's. */
  lemma FieldsOfCons(rows: seq<Record>)
    requires rows != []
    ensures FieldsOf(rows) == [Fields(rows[0])] + FieldsOf(rows[1..])
  {
    assert forall i :: 0 <= i < |rows| ==>
      FieldsOf(rows)[i] == ([Fields(rows[0])] + FieldsOf(rows[1..]))[i];
  }

  /** A body of one row reads back as that row's fields. */
  lemma ReadBodySingle(rows: seq<Record>)
    requires |rows| == 1
    ensures ReadRecords(Join(EncodeRows(rows), "\n")) == Some(FieldsOf(rows))
  {
    RowRoundTrip(rows[0], "");
    assert Join(EncodeRows(rows), "\n") == EncodeRow(rows[0]) + "";
    assert FieldsOf(rows) == [Fields(rows[0])];
  }

  /** The body reads back row by row. */
  lemma {:induction false} ReadBody(rows: seq<Record>)
    ensures ReadRecords(Join(EncodeRows(rows), "\n")) == Some(FieldsOf(rows))
    decreases |rows|
  {
    if |rows| == 1 {
      ReadBodySingle(rows);
    } else if |rows| > 1 {
      ReadBodyStep(rows);
      ReadBody(rows[1..]);
      FieldsOfCons(rows);
    }
  }

  lemma RowNotEmpty(r: Record)
    ensures EncodeRow(r) != []
  {
  }
}

/**
 * The meshblock part of the admin loader: the CSV files of the downloaded
 * archive are read line by line, the first line of each file naming the
 * columns, and every other line becomes one `INSERT` statement sent through
 * the database connection.
 */
module Meshblocks {
  import opened Common
  import opened Text
  import opened PgConnection

  /** The archive member each target table is loaded from. */
  const FileToTable: map<string, string> := map[
    "Stats_MB_WKT.csv" := "meshblock",
    "Stats_Meshblock_concordance_WKT.csv" := "meshblock_concordance",
    "Stats_TA_WKT.csv" := "territorial_authority"]

  /** The byte-order mark the `utf-8-sig` codec drops from the front of a line. */
  const Bom: char := '\U{FEFF}'

  /** The field value that marks a row to skip: `"NULL"`, quotes included. */
  const NullField: string := "\"NULL\""

  // ---------------------------------------------------------------------------
  // query()

  /** The statement before its double quotes are swapped. */
  function InsertText(schema: string, table: string, headers: seq<string>, values: seq<string>): string {
    "INSERT INTO " + schema + "." + table + " (" + Lower(Join(headers, ',')) + ") VALUES (" + Join(values, ',') + ")"
  }

  /**
   * The lowered column list and the values can go into the byte-string
   * template of `query`: the lines are decoded to unicode, and Python 2's
   * `str.format` encodes unicode arguments as ASCII, raising
   * `UnicodeEncodeError` on any other character.
   */
  predicate Encodable(headers: seq<string>, values: seq<string>) {
    && Ascii(Lower(Join(headers, ',')))
    && (forall i :: 0 <= i < |values| ==> Ascii(values[i]))
  }

  /**
   * `query(schema, table, headers, values)`: the `INSERT` statement with
   * every double quote turned into a single quote, so that the CSV's quoted
   * text values become SQL string literals; `None` where the formatting
   * raises on a character outside ASCII.
   */
  function Query(schema: string, table: string, headers: seq<string>, values: seq<string>): (q: Option<string>)
    ensures q.Some? <==> Encodable(headers, values)
    ensures q.Some? ==> '"' !in q.value
  {
    if Encodable(headers, values) then
      ReplaceRemoves(InsertText(schema, table, headers, values), '"', "'");
      Some(Replace(InsertText(schema, table, headers, values), '"', "'"))
    else
      None
  }

  /** Only the lowered column list matters: headers that lower alike give the same statement. */
  lemma QueryByLoweredHeaders(schema: string, table: string, h1: seq<string>, h2: seq<string>, values: seq<string>)
    requires Lower(Join(h1, ',')) == Lower(Join(h2, ','))
    ensures Query(schema, table, h1, values) == Query(schema, table, h2, values)
  {
    assert InsertText(schema, table, h1, values) == InsertText(schema, table, h2, values);
  }

  /**
   * A column name whose letters outside ASCII lower to ASCII still gives a
   * statement: the Kelvin sign is the column `k`, and a dotted capital I
   * followed by `D` is the column `id`.
   */
  lemma LoweredHeadersFormat(schema: string, table: string, values: seq<string>)
    ensures Query(schema, table, ["\U{212A}"], values) == Query(schema, table, ["k"], values)
    ensures Query(schema, table, ["\U{0130}D"], values) == Query(schema, table, ["id"], values)
    ensures Query("s", "t", ["k"], ["1"]).Some?
  {
    assert Lower(Join(["\U{212A}"], ',')) == Lower(Join(["k"], ','));
    QueryByLoweredHeaders(schema, table, ["\U{212A}"], ["k"], values);
    assert Lower(Join(["\U{0130}D"], ',')) == Lower(Join(["id"], ','));
    QueryByLoweredHeaders(schema, table, ["\U{0130}D"], ["id"], values);
    assert Lower(Join(["k"], ',')) == "k";
  }

  /** A header letter whose lower case is not ASCII makes the row raise. */
  lemma OtherLetterRaises(schema: string, table: string, values: seq<string>)
    ensures Query(schema, table, ["\U{00C5}"], values).None?
  {
    assert Lower(Join(["\U{00C5}"], ','))[0] == '\U{00C5}';
  }

  /** Swapping quotes works piece by piece: it never touches a separator. */
  lemma {:induction false} ReplaceJoin(parts: seq<string>, sep: char, c: char, repl: string)
    requires sep != c
    ensures Replace(Join(parts, sep), c, repl) == Join(seq(|parts|, i requires 0 <= i < |parts| => Replace(parts[i], c, repl)), sep)
  {
    var rs := seq(|parts|, i requires 0 <= i < |parts| => Replace(parts[i], c, repl));
    if |parts| > 1 {
      ReplaceAppend(parts[0] + [sep], Join(parts[1..], sep), c, repl);
      ReplaceAppend(parts[0], [sep], c, repl);
      assert Replace([sep], c, repl) == [sep] + Replace([], c, repl);
      ReplaceJoin(parts[1..], sep, c, repl);
      assert rs[1..] == seq(|parts[1..]|, i requires 0 <= i < |parts[1..]| => Replace(parts[1..][i], c, repl));
    }
  }

  /**
   * Where the quotes go: a statement whose names and columns hold no double
   * quote keeps its text, and each value is rewritten on its own, so a CSV
   * field `"s"` with no quote inside becomes the SQL literal `'s'`.
   */
  lemma QueryQuotesValues(schema: string, table: string, headers: seq<string>, values: seq<string>)
    requires '"' !in schema && '"' !in table
    requires forall i :: 0 <= i < |headers| ==> '"' !in headers[i]
    ensures Query(schema, table, headers, values) ==
      if !Encodable(headers, values) then None
      else Some("INSERT INTO " + schema + "." + table + " (" + Lower(Join(headers, ',')) + ") VALUES ("
        + Join(seq(|values|, i requires 0 <= i < |values| => Replace(values[i], '"', "'")), ',') + ")")
  {
    var cols := Lower(Join(headers, ','));
    JoinFree(headers, ',', '"');
    LowerKeeps(Join(headers, ','), '"');
    var head := "INSERT INTO " + schema + "." + table + " (" + cols + ") VALUES (";
    HeadFree(schema, table, cols);
    var j := Join(values, ',');
    assert InsertText(schema, table, headers, values) == head + j + ")";
    ReplaceThree(head, j, ")", '"', "'");
    ReplaceAbsent(head, '"', "'");
    ReplaceAbsent(")", '"', "'");
    ReplaceJoin(values, ',', '"', "'");
  }

  /**
   * For any column names: the column list is lowered and then has its double
   * quotes turned into single ones, so a quoted CSV header `"MB2013"` names
   * the column `'mb2013'`.
   */
  lemma QueryQuotesColumns(schema: string, table: string, headers: seq<string>, values: seq<string>)
    requires '"' !in schema && '"' !in table
    ensures Query(schema, table, headers, values) ==
      if !Encodable(headers, values) then None
      else Some("INSERT INTO " + schema + "." + table + " (" + Replace(Lower(Join(headers, ',')), '"', "'") + ") VALUES ("
        + Join(seq(|values|, i requires 0 <= i < |values| => Replace(values[i], '"', "'")), ',') + ")")
  {
    if Encodable(headers, values) {
      StatementText(schema, table, Lower(Join(headers, ',')), values);
      assert InsertText(schema, table, headers, values)
        == "INSERT INTO " + schema + "." + table + " (" + Lower(Join(headers, ',')) + ") VALUES (" + Join(values, ',') + ")";
    }
  }

  /** The quote swap on a whole statement, piece by piece. */
  lemma StatementText(schema: string, table: string, cols: string, values: seq<string>)
    requires '"' !in schema && '"' !in table
    ensures Replace("INSERT INTO " + schema + "." + table + " (" + cols + ") VALUES (" + Join(values, ',') + ")", '"', "'")
      == "INSERT INTO " + schema + "." + table + " (" + Replace(cols, '"', "'") + ") VALUES ("
        + Join(seq(|values|, i requires 0 <= i < |values| => Replace(values[i], '"', "'")), ',') + ")"
  {
    var pre := "INSERT INTO " + schema + "." + table + " (";
    PreFree(schema, table);
    ReplaceFive(pre, cols, ") VALUES (", Join(values, ','), ")", '"', "'");
    ReplaceAbsent(pre, '"', "'");
    ReplaceAbsent(") VALUES (", '"', "'");
    ReplaceAbsent(")", '"', "'");
    ReplaceJoin(values, ',', '"', "'");
  }

  lemma PreFree(schema: string, table: string)
    requires '"' !in schema && '"' !in table
    ensures '"' !in "INSERT INTO " + schema + "." + table + " ("
  {
  }

  lemma ReplaceFive(a: string, b: string, c: string, d: string, e: string, x: char, repl: string)
    ensures Replace(a + b + c + d + e, x, repl)
      == Replace(a, x, repl) + Replace(b, x, repl) + Replace(c, x, repl) + Replace(d, x, repl) + Replace(e, x, repl)
  {
    ReplaceAppend(a + b + c + d, e, x, repl);
    ReplaceAppend(a + b + c, d, x, repl);
    ReplaceThree(a, b, c, x, repl);
  }

  /** A lone quoted header `"h"`, with no quote inside, becomes the column `'h'` lowered. */
  lemma QuotedHeaderColumn(h: string)
    requires '"' !in h
    ensures Replace(Lower(Join(["\"" + h + "\""], ',')), '"', "'") == "'" + Lower(h) + "'"
  {
    var q := "\"";
    var lh := Lower(h);
    assert Join([q + h + q], ',') == q + h + q;
    LowerAppend3(q, h, q);
    QuoteLowered();
    LowerKeeps(h, '"');
    ReplaceAbsent(lh, '"', "'");
    ReplaceThree(Lower(q), lh, Lower(q), '"', "'");
  }

  lemma QuoteLowered()
    ensures Replace(Lower("\""), '"', "'") == "'"
  {
    assert Lower("\"") == "\"";
    assert Replace("\"", '"', "'") == "'" + Replace("", '"', "'");
  }

  lemma LowerAppend3(a: string, b: string, c: string)
    ensures Lower(a + b + c) == Lower(a) + Lower(b) + Lower(c)
  {
  }

  lemma HeadFree(schema: string, table: string, cols: string)
    requires '"' !in schema && '"' !in table && '"' !in cols
    ensures '"' !in "INSERT INTO " + schema + "." + table + " (" + cols + ") VALUES ("
  {
  }

  lemma ReplaceThree(a: string, b: string, c: string, x: char, repl: string)
    ensures Replace(a + b + c, x, repl) == Replace(a, x, repl) + Replace(b, x, repl) + Replace(c, x, repl)
  {
    ReplaceAppend(a + b, c, x, repl);
    ReplaceAppend(a, b, x, repl);
  }

  lemma {:induction false} JoinFree(parts: seq<string>, sep: char, c: char)
    requires c != sep
    requires forall i :: 0 <= i < |parts| ==> c !in parts[i]
    ensures c !in Join(parts, sep)
  {
    if |parts| > 1 {
      JoinFree(parts[1..], sep, c);
    }
  }

  lemma LowerKeeps(s: string, c: char)
    requires c !in s && !('A' <= c <= 'Z') && !('a' <= c <= 'z')
    ensures c !in Lower(s)
  {
  }

  /** With a quoted text field the statement carries it as a single-quoted literal. */
  lemma QuotedFieldBecomesLiteral(s: string)
    requires '"' !in s
    ensures Replace("\"" + s + "\"", '"', "'") == "'" + s + "'"
  {
    ReplaceAppend("\"" + s, "\"", '"', "'");
    ReplaceAppend("\"", s, '"', "'");
    ReplaceAbsent(s, '"', "'");
  }

  // ---------------------------------------------------------------------------
  // One line of a CSV file

  /** `line.strip().decode('utf-8-sig')`: surrounding whitespace, then a leading byte-order mark, go. */
  function CleanLine(raw: string): string {
    var t := Strip(raw);
    if |t| > 0 && t[0] == Bom then t[1..] else t
  }

  /** `line.replace("'", "''")`: every single quote doubled. */
  function Double(s: string): string {
    Replace(s, '\'', "''")
  }

  /** Reading SQL's doubled quotes back: each `''` is one `'`. */
  function Undouble(s: string): string {
    if |s| == 0 then ""
    else if |s| >= 2 && s[0] == '\'' && s[1] == '\'' then "'" + Undouble(s[2..])
    else [s[0]] + Undouble(s[1..])
  }

  /** Doubling loses nothing: undoubling gives the line back. */
  lemma {:induction false} UndoubleDouble(s: string)
    ensures Undouble(Double(s)) == s
  {
    if |s| > 0 {
      UndoubleDouble(s[1..]);
      var d := Double(s);
      if s[0] == '\'' {
        assert d == "''" + Double(s[1..]);
        assert d[2..] == Double(s[1..]);
      } else {
        assert d == [s[0]] + Double(s[1..]);
        assert d[1..] == Double(s[1..]);
      }
      assert s == [s[0]] + s[1..];
    }
  }

  /** The column names: the header line split at every comma. */
  function Headers(line: string): (h: seq<string>)
    ensures |h| >= 1 && Join(h, ',') == line
    ensures forall i :: 0 <= i < |h| ==> ',' !in h[i]
  {
    Split(line, ',')
  }

  /**
   * The values of a data line: quotes doubled, then split at the first
   * `width - 1` commas, so there are at most `width` fields and the last
   * keeps any commas left over; fewer than `width` fields means the line
   * ran out of commas.
   */
  function Values(line: string, width: nat): (v: seq<string>)
    requires width >= 1
    ensures 1 <= |v| <= width
    ensures Join(v, ',') == Double(line)
    ensures forall i :: 0 <= i < |v| - 1 ==> ',' !in v[i]
    ensures |v| < width ==> ',' !in v[|v| - 1]
  {
    SplitMaxJoin(Double(line), ',', width - 1);
    SplitMaxPieces(Double(line), ',', width - 1);
    SplitMax(Double(line), ',', width - 1)
  }

  /** `'"NULL"' in values`: the row is skipped. */
  predicate Skipped(values: seq<string>) {
    NullField in values
  }

  /** A data row is skipped or turned into a statement; nothing else of a line is lost. */
  lemma ValuesKeepLine(line: string, width: nat)
    requires width >= 1
    ensures Undouble(Join(Values(line, width), ',')) == line
  {
    UndoubleDouble(line);
  }

  // ---------------------------------------------------------------------------
  // One file, then the whole archive

  /** What the insert loop has sent, and whether it has stopped on a raise. */
  datatype Outcome = Outcome(queries: seq<string>, raised: bool)

  /** The values of every data row of a file, each split to the width of the header. */
  function SplitRows(rows: seq<string>, width: nat): (vs: seq<seq<string>>)
    requires width >= 1
    ensures |vs| == |rows|
    ensures forall k :: 0 <= k < |rows| ==> vs[k] == Values(CleanLine(rows[k]), width)
  {
    seq(|rows|, k requires 0 <= k < |rows| => Values(CleanLine(rows[k]), width))
  }

  /** A row that is not skipped raises: the table lookup fails, or the statement cannot be formatted. */
  predicate RowRaises(fname: string, headers: seq<string>, values: seq<string>) {
    !Skipped(values) && (fname !in FileToTable || !Encodable(headers, values))
  }

  /**
   * What the loop over the split data rows of a file sends: one statement
   * per row that is not skipped, until a row raises (the file is not in
   * `FileToTable`, or the row holds text outside ASCII). The statements sent
   * before the raise stay sent.
   */
  function RowQueries(schema: string, fname: string, headers: seq<string>, rows: seq<seq<string>>): (r: Outcome)
    ensures fname !in FileToTable ==> r.queries == []
  {
    if |rows| == 0 then Outcome([], false)
    else
      var n := |rows|;
      var prev := RowQueries(schema, fname, headers, rows[..n - 1]);
      var values := rows[n - 1];
      if prev.raised || Skipped(values) then prev
      else if fname !in FileToTable then Outcome(prev.queries, true)
      else match Query(schema, FileToTable[fname], headers, values)
        case None => Outcome(prev.queries, true)
        case Some(q) => Outcome(prev.queries + [q], false)
  }

  /** The number of rows of a file that are not skipped. */
  function KeptCount(rows: seq<seq<string>>): nat {
    if |rows| == 0 then 0
    else KeptCount(rows[..|rows| - 1]) + (if Skipped(rows[|rows| - 1]) then 0 else 1)
  }

  /**
   * A file raises exactly when some row that is not skipped raises: its name
   * is unknown, or the row (or the header) holds text outside ASCII.
   */
  lemma {:induction false} RowQueriesRaises(schema: string, fname: string, headers: seq<string>, rows: seq<seq<string>>)
    ensures RowQueries(schema, fname, headers, rows).raised <==>
      exists k :: 0 <= k < |rows| && RowRaises(fname, headers, rows[k])
  {
    if |rows| > 0 {
      var n := |rows|;
      var init := rows[..n - 1];
      RowQueriesRaises(schema, fname, headers, init);
      if RowQueries(schema, fname, headers, rows).raised {
        if RowQueries(schema, fname, headers, init).raised {
          var k :| 0 <= k < |init| && RowRaises(fname, headers, init[k]);
          assert rows[k] == init[k];
        } else {
          assert RowRaises(fname, headers, rows[n - 1]);
        }
      }
      if exists k :: 0 <= k < |rows| && RowRaises(fname, headers, rows[k]) {
        var k :| 0 <= k < |rows| && RowRaises(fname, headers, rows[k]);
        if k < n - 1 {
          assert init[k] == rows[k];
        }
      }
    }
  }

  /** A file that does not raise sends one statement per row not skipped. */
  lemma {:induction false} RowQueriesCount(schema: string, fname: string, headers: seq<string>, rows: seq<seq<string>>)
    ensures !RowQueries(schema, fname, headers, rows).raised ==>
      |RowQueries(schema, fname, headers, rows).queries| == KeptCount(rows)
  {
    if |rows| > 0 {
      RowQueriesCount(schema, fname, headers, rows[..|rows| - 1]);
    }
  }

  /** None of the statements sent holds a double quote. */
  lemma {:induction false} RowQueriesQuoteFree(schema: string, fname: string, headers: seq<string>, rows: seq<seq<string>>)
    ensures forall q :: q in RowQueries(schema, fname, headers, rows).queries ==> '"' !in q
  {
    if |rows| > 0 {
      RowQueriesQuoteFree(schema, fname, headers, rows[..|rows| - 1]);
    }
  }

  /** A file: its first line names the columns, the rest are rows. An empty file sends nothing. */
  function FileQueries(schema: string, fname: string, lines: seq<string>): Outcome {
    if |lines| == 0 then Outcome([], false)
    else
      var headers := Headers(CleanLine(lines[0]));
      RowQueries(schema, fname, headers, SplitRows(lines[1..], |headers|))
  }

  /** An archive member: its name and its lines. */
  datatype Member = Member(name: string, lines: seq<string>)

  /** The files in archive order; the first one that raises ends the loop. */
  function ArchiveQueries(schema: string, members: seq<Member>): Outcome {
    if |members| == 0 then Outcome([], false)
    else
      var prev := ArchiveQueries(schema, members[..|members| - 1]);
      var last := members[|members| - 1];
      if prev.raised then prev
      else
        var file := FileQueries(schema, last.name, last.lines);
        Outcome(prev.queries + file.queries, file.raised)
  }

  /** The fields of an ASCII line are ASCII. */
  lemma ValuesAscii(line: string, width: nat)
    requires width >= 1 && Ascii(line)
    ensures forall i :: 0 <= i < |Values(line, width)| ==> Ascii(Values(line, width)[i])
  {
    ReplaceAscii(line, '\'', "''");
    JoinAscii(Values(line, width), ',');
  }

  /** Every row of a file whose cleaned lines are ASCII can be formatted. */
  lemma RowsEncodable(lines: seq<string>)
    requires |lines| > 0
    requires forall i :: 0 <= i < |lines| ==> Ascii(CleanLine(lines[i]))
    ensures var headers := Headers(CleanLine(lines[0]));
      forall k :: 0 <= k < |lines| - 1 ==> Encodable(headers, SplitRows(lines[1..], |headers|)[k])
  {
    var headers := Headers(CleanLine(lines[0]));
    LowerAscii(Join(headers, ','));
    forall k | 0 <= k < |lines| - 1 ensures Encodable(headers, SplitRows(lines[1..], |headers|)[k]) {
      assert lines[1..][k] == lines[k + 1];
      ValuesAscii(CleanLine(lines[k + 1]), |headers|);
    }
  }

  /**
   * A file the loader knows, whose lines are ASCII once cleaned (a leading
   * byte-order mark dropped), never raises, and none of its statements holds
   * a double quote.
   */
  lemma KnownFileLoads(schema: string, fname: string, lines: seq<string>)
    requires fname in FileToTable
    requires forall i :: 0 <= i < |lines| ==> Ascii(CleanLine(lines[i]))
    ensures !FileQueries(schema, fname, lines).raised
    ensures forall q :: q in FileQueries(schema, fname, lines).queries ==> '"' !in q
  {
    if |lines| > 0 {
      var headers := Headers(CleanLine(lines[0]));
      RowsEncodable(lines);
      RowQueriesRaises(schema, fname, headers, SplitRows(lines[1..], |headers|));
      RowQueriesQuoteFree(schema, fname, headers, SplitRows(lines[1..], |headers|));
    }
  }

  /**
   * An archive of known files whose cleaned lines are ASCII never raises,
   * and every statement it sends is free of double quotes.
   */
  lemma {:induction false} KnownFilesLoad(schema: string, members: seq<Member>)
    requires forall i :: 0 <= i < |members| ==> members[i].name in FileToTable
    requires forall i, j :: 0 <= i < |members| && 0 <= j < |members[i].lines| ==> Ascii(CleanLine(members[i].lines[j]))
    ensures !ArchiveQueries(schema, members).raised
    ensures forall q :: q in ArchiveQueries(schema, members).queries ==> '"' !in q
  {
    if |members| > 0 {
      var n := |members|;
      var init := members[..n - 1];
      var last := members[n - 1];
      forall i | 0 <= i < |init| ensures init[i].name in FileToTable {
        assert init[i] == members[i];
      }
      forall i, j | 0 <= i < |init| && 0 <= j < |init[i].lines| ensures Ascii(CleanLine(init[i].lines[j])) {
        assert init[i] == members[i];
      }
      KnownFilesLoad(schema, init);
      KnownFileLoads(schema, last.name, last.lines);
      var prev := ArchiveQueries(schema, init);
      var file := FileQueries(schema, last.name, last.lines);
      assert ArchiveQueries(schema, members) == Outcome(prev.queries + file.queries, false);
    }
  }

  /** Once a file has raised, later files change nothing. */
  lemma {:induction false} RaisedPersists(schema: string, members: seq<Member>, m: nat)
    requires m <= |members| && ArchiveQueries(schema, members[..m]).raised
    ensures ArchiveQueries(schema, members) == ArchiveQueries(schema, members[..m])
    decreases |members| - m
  {
    if m < |members| {
      assert members[..m + 1][..m] == members[..m];
      RaisedPersists(schema, members, m + 1);
    } else {
      assert members[..m] == members;
    }
  }

  /** Once a row of a file has raised, later rows change nothing. */
  lemma {:induction false} RowRaisedPersists(schema: string, fname: string, headers: seq<string>, rows: seq<seq<string>>, k: nat)
    requires k <= |rows|
    requires RowQueries(schema, fname, headers, rows[..k]).raised
    ensures RowQueries(schema, fname, headers, rows) == RowQueries(schema, fname, headers, rows[..k])
    decreases |rows| - k
  {
    if k < |rows| {
      assert rows[..k + 1][..k] == rows[..k];
      RowRaisedPersists(schema, fname, headers, rows, k + 1);
    } else {
      assert rows[..k] == rows;
    }
  }

  lemma SplitRowsSnoc(lines: seq<string>, l: nat, width: nat)
    requires 1 <= l < |lines| && width >= 1
    ensures SplitRows(lines[1..l + 1], width) == SplitRows(lines[1..l], width) + [Values(CleanLine(lines[l]), width)]
  {
    var a, b := SplitRows(lines[1..l + 1], width), SplitRows(lines[1..l], width) + [Values(CleanLine(lines[l]), width)];
    forall k | 0 <= k < l ensures a[k] == b[k] {
      if k < l - 1 {
        assert lines[1..l + 1][k] == lines[1..l][k];
      } else {
        assert lines[1..l + 1][k] == lines[l];
      }
    }
  }

  /** One more row: skipped, raising, or one more statement. */
  lemma RowQueriesSnoc(schema: string, fname: string, headers: seq<string>, rows: seq<seq<string>>, values: seq<string>)
    ensures RowQueries(schema, fname, headers, rows + [values]) ==
      var prev := RowQueries(schema, fname, headers, rows);
      if prev.raised || Skipped(values) then prev
      else if RowRaises(fname, headers, values) then Outcome(prev.queries, true)
      else Outcome(prev.queries + [Query(schema, FileToTable[fname], headers, values).value], false)
  {
    assert (rows + [values])[..|rows|] == rows;
  }

  /**
   * A data row of the member: skipped when it holds `"NULL"`; otherwise the
   * table lookup raises, or `query` raises on text outside ASCII, or the
   * statement is sent.
   */
  method SendRow(schema: string, fname: string, headers: seq<string>, values: seq<string>, db: DatabaseConn) returns (raised: bool)
    requires db.connected
    modifies db
    ensures db.connected && db.pgUri == old(db.pgUri)
    ensures raised <==> RowRaises(fname, headers, values)
    ensures raised || Skipped(values) ==> db.executed == old(db.executed)
    ensures !raised && !Skipped(values) ==>
      db.executed == old(db.executed) + [Query(schema, FileToTable[fname], headers, values).value]
  {
    if NullField in values {
      return false;
    }
    if fname !in FileToTable {
      return true;
    }
    var q := Query(schema, FileToTable[fname], headers, values);
    if q.None? {
      return true;
    }
    db.Execute(q.value);
    return false;
  }

  lemma AppendAssoc(a: seq<string>, b: seq<string>, c: seq<string>)
    ensures a + (b + c) == (a + b) + c
  {
  }

  /**
   * A data line of a member (any line after the first): cleaned, quotes
   * doubled, split to the width of the header, then skipped or sent.
   */
  method DataLine(schema: string, fname: string, headers: seq<string>, lines: seq<string>, l: nat,
                  db: DatabaseConn, ghost base: seq<string>, ghost sent: seq<string>)
    returns (raised: bool)
    requires db.connected && 1 <= l < |lines| && |headers| >= 1
    requires RowQueries(schema, fname, headers, SplitRows(lines[1..l], |headers|)) == Outcome(sent, false)
    requires db.executed == base + sent
    modifies db
    ensures db.connected && db.pgUri == old(db.pgUri)
    ensures raised == RowQueries(schema, fname, headers, SplitRows(lines[1..l + 1], |headers|)).raised
    ensures db.executed == base + RowQueries(schema, fname, headers, SplitRows(lines[1..l + 1], |headers|)).queries
  {
    var line := CleanLine(lines[l]);
    var values := Values(line, |headers|);
    ghost var rows := SplitRows(lines[1..l], |headers|);
    SplitRowsSnoc(lines, l, |headers|);
    assert SplitRows(lines[1..l + 1], |headers|) == rows + [values];
    RowQueriesSnoc(schema, fname, headers, rows, values);
    raised := SendRow(schema, fname, headers, values, db);
    if !raised && !Skipped(values) {
      AppendAssoc(base, sent, [Query(schema, FileToTable[fname], headers, values).value]);
    }
  }

  /**
   * The body of `insert` for one archive member: `first` marks the header
   * line, every later line is cleaned, doubled and split, and unless skipped
   * is sent as an `INSERT` into the member's table. The first row that
   * raises ends the member, with the rows before it already sent.
   */
  method InsertMember(schema: string, fname: string, lines: seq<string>, db: DatabaseConn) returns (raised: bool)
    requires db.connected
    modifies db
    ensures db.connected && db.pgUri == old(db.pgUri)
    ensures raised == FileQueries(schema, fname, lines).raised
    ensures db.executed == old(db.executed) + FileQueries(schema, fname, lines).queries
  {
    var first := true;
    var headers: seq<string> := [];
    ghost var sent: seq<string> := [];
    for l := 0 to |lines|
      invariant db.connected && db.pgUri == old(db.pgUri)
      invariant first <==> l == 0
      invariant db.executed == old(db.executed) + sent
      invariant l == 0 ==> sent == []
      invariant l > 0 ==> |headers| >= 1 && headers == Headers(CleanLine(lines[0]))
      invariant l > 0 ==> RowQueries(schema, fname, headers, SplitRows(lines[1..l], |headers|)) == Outcome(sent, false)
    {
      if first {
        headers := Headers(CleanLine(lines[l]));
        first := false;
        assert SplitRows(lines[1..l + 1], |headers|) == [];
      } else {
        var stop := DataLine(schema, fname, headers, lines, l, db, old(db.executed), sent);
        ghost var now := RowQueries(schema, fname, headers, SplitRows(lines[1..l + 1], |headers|));
        if stop {
          MemberRaises(schema, fname, lines, l);
          return true;
        }
        sent := now.queries;
      }
    }
    assert |lines| > 0 ==> lines[1..|lines|] == lines[1..];
    return false;
  }

  /** A member whose rows up to line `l` raise ends there: later lines send nothing. */
  lemma MemberRaises(schema: string, fname: string, lines: seq<string>, l: nat)
    requires 1 <= l < |lines|
    requires RowQueries(schema, fname, Headers(CleanLine(lines[0])),
      SplitRows(lines[1..l + 1], |Headers(CleanLine(lines[0]))|)).raised
    ensures FileQueries(schema, fname, lines) ==
      RowQueries(schema, fname, Headers(CleanLine(lines[0])), SplitRows(lines[1..l + 1], |Headers(CleanLine(lines[0]))|))
  {
    var headers := Headers(CleanLine(lines[0]));
    var all := SplitRows(lines[1..], |headers|);
    forall k | 0 <= k < l ensures all[..l][k] == SplitRows(lines[1..l + 1], |headers|)[k] {
      assert lines[1..][k] == lines[1..l + 1][k];
    }
    assert all[..l] == SplitRows(lines[1..l + 1], |headers|);
    RowRaisedPersists(schema, fname, headers, all, l);
  }

  /**
   * `insert(mb)`: connect, then load each archive member in turn; a member
   * that raises ends the whole loop, with what was sent before it kept. A
   * connection that does not open ends the run too (`connect` logs and
   * exits with status 1), before anything is sent.
   */
  method Insert(schema: string, members: seq<Member>, db: DatabaseConn, opens: bool) returns (raised: bool)
    modifies db
    ensures opens ==> db.executed == old(db.executed) + RoleStatements(db.conf.rolename) + ArchiveQueries(schema, members).queries
    ensures opens ==> raised == ArchiveQueries(schema, members).raised
    ensures !opens ==> db.executed == old(db.executed) && raised
    ensures db.pgUri == old(db.pgUri)
  {
    var ok := db.Connect(opens);
    if !ok {
      return true;
    }
    ghost var start := db.executed;
    for m := 0 to |members|
      invariant db.connected && db.pgUri == old(db.pgUri)
      invariant !ArchiveQueries(schema, members[..m]).raised
      invariant db.executed == start + ArchiveQueries(schema, members[..m]).queries
    {
      ghost var prev := ArchiveQueries(schema, members[..m]);
      assert members[..m + 1][..m] == members[..m];
      assert members[..m + 1][m] == members[m];
      ghost var file := FileQueries(schema, members[m].name, members[m].lines);
      ghost var before := db.executed;
      raised := InsertMember(schema, members[m].name, members[m].lines, db);
      assert ArchiveQueries(schema, members[..m + 1]) == Outcome(prev.queries + file.queries, file.raised);
      assert db.executed == before + file.queries;
      assert before == start + prev.queries;
      AppendAssoc(start, prev.queries, file.queries);
      if raised {
        RaisedPersists(schema, members, m + 1);
        return true;
      }
    }
    assert members[..|members|] == members;
    return false;
  }
}

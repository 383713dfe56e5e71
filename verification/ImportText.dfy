/** The bulk import applied to a text written row by row: seven plain
    fields per row joined by commas, one line per row, each ending in a
    newline. Splitting undoes the joining, so such a text is imported as
    exactly its rows. */
module ImportText {
  import opened Base
  import opened Numbers
  import opened Calendar
  import opened Values
  import opened Stations
  import opened Checkins
  import opened Text
  import opened LocalTime
  import opened BulkImport

  /** A field that a line can carry unchanged. */
  predicate PlainField(f: string)
  {
    ',' !in f && '\n' !in f
  }

  /** Seven plain fields. */
  predicate PlainRow(row: seq<string>)
  {
    |row| == 7 && forall k :: 0 <= k < 7 ==> PlainField(row[k])
  }

  /** The line for one row: its fields joined by commas. */
  function Line(row: seq<string>): string
    requires |row| >= 1
  {
    Join(row, ',')
  }

  /** The text for some rows: one line per row, each ending in a newline. */
  function Lines(rows: seq<seq<string>>): string
    requires forall i :: 0 <= i < |rows| ==> PlainRow(rows[i])
  {
    if |rows| == 0 then ""
    else
      assert PlainRow(rows[0]);
      assert forall i :: 0 <= i < |rows[1..]| ==> rows[1..][i] == rows[i + 1];
      Line(rows[0]) + "\n" + Lines(rows[1..])
  }

  /** A character that is in none of the pieces and is not the separator is
      not in their join. */
  lemma {:induction false} JoinAvoids(pieces: seq<string>, c: char, d: char)
    requires |pieces| >= 1 && c != d
    requires forall i :: 0 <= i < |pieces| ==> d !in pieces[i]
    ensures d !in Join(pieces, c)
  {
    if |pieces| > 1 {
      assert forall i :: 0 <= i < |pieces[1..]| ==> pieces[1..][i] == pieces[i + 1];
      JoinAvoids(pieces[1..], c, d);
    }
  }

  /** Seven fields make a line that is not empty. */
  lemma JoinLength(pieces: seq<string>, c: char)
    requires |pieces| >= 2
    ensures |Join(pieces, c)| >= 1
  {
  }

  lemma PlainLine(row: seq<string>)
    requires PlainRow(row)
    ensures '\n' !in Line(row) && |Line(row)| > 0
    ensures Split(Line(row), ',') == row
  {
    JoinAvoids(row, ',', '\n');
    JoinLength(row, ',');
    SplitJoin(row, ',');
  }

  /** The newline-separated pieces of the text: the lines and, after the
      last newline, the empty rest. */
  lemma {:induction false} SplitLines(rows: seq<seq<string>>)
    requires forall i :: 0 <= i < |rows| ==> PlainRow(rows[i])
    ensures Split(Lines(rows), '\n') == seq(|rows|, i requires 0 <= i < |rows| => Line(rows[i])) + [""]
  {
    if |rows| == 0 {
    } else {
      assert forall i :: 0 <= i < |rows[1..]| ==> rows[1..][i] == rows[i + 1];
      SplitLines(rows[1..]);
      PlainLine(rows[0]);
      SplitAfter(Line(rows[0]), '\n', Lines(rows[1..]));
    }
  }

  lemma {:induction false} NonEmptyOfLines(pieces: seq<string>)
    requires forall i :: 0 <= i < |pieces| ==> |pieces[i]| > 0
    ensures NonEmpty(pieces + [""]) == pieces
  {
    if |pieces| > 0 {
      assert (pieces + [""])[1..] == pieces[1..] + [""];
      NonEmptyOfLines(pieces[1..]);
      assert [pieces[0]] + pieces[1..] == pieces;
    } else {
      assert [""][1..] == [];
    }
  }

  /** The lines of a text written row by row. */
  lemma LinesOfRows(rows: seq<seq<string>>)
    requires forall i :: 0 <= i < |rows| ==> PlainRow(rows[i])
    ensures NonEmpty(Split(Lines(rows), '\n')) == seq(|rows|, i requires 0 <= i < |rows| => Line(rows[i]))
  {
    var lines := seq(|rows|, i requires 0 <= i < |rows| => Line(rows[i]));
    SplitLines(rows);
    forall i | 0 <= i < |rows| ensures |lines[i]| > 0 {
      PlainLine(rows[i]);
    }
    NonEmptyOfLines(lines);
  }

  /** A text written row by row is read back as exactly those rows. */
  lemma ItemsOfRows(rows: seq<seq<string>>)
    requires forall i :: 0 <= i < |rows| ==> PlainRow(rows[i])
    ensures Items(Lines(rows)) == rows
  {
    LinesOfRows(rows);
    var items := Items(Lines(rows));
    forall i | 0 <= i < |rows| ensures items[i] == rows[i] {
      PlainLine(rows[i]);
    }
  }

  /** An empty line between two texts contributes no line of its own. */
  lemma BlankLineDropped(x: string, y: string)
    ensures NonEmpty(Split(x + "\n" + y, '\n')) == NonEmpty(Split(x, '\n')) + NonEmpty(Split(y, '\n'))
  {
    SplitConcat(x, '\n', y);
    NonEmptyAppend(Split(x, '\n'), Split(y, '\n'));
  }

  /** Blank lines are dropped wherever they stand: two runs of rows with
      an empty line between them are read back as the rows of both. */
  lemma ItemsSkipBlankLine(rows: seq<seq<string>>, more: seq<seq<string>>)
    requires forall i :: 0 <= i < |rows| ==> PlainRow(rows[i])
    requires forall i :: 0 <= i < |more| ==> PlainRow(more[i])
    ensures Items(Lines(rows) + "\n" + Lines(more)) == rows + more
  {
    var x, y := Lines(rows), Lines(more);
    BlankLineDropped(x, y);
    ItemsOfRows(rows);
    ItemsOfRows(more);
    FieldsOfAppend(NonEmpty(Split(x, '\n')), NonEmpty(Split(y, '\n')));
  }

  lemma FieldsOfAppend(a: seq<string>, b: seq<string>)
    ensures FieldsOf(a + b) == FieldsOf(a) + FieldsOf(b)
  {
    assert forall i :: 0 <= i < |a + b| ==> FieldsOf(a + b)[i] == (FieldsOf(a) + FieldsOf(b))[i];
  }

  /** When every line has seven fields the import completes, with one
      record per line. */
  lemma ImportCompletes(data: string, rows: seq<seq<string>>, dir: seq<Station>, store: seq<StoredCheckin>, matches: (string, Value) -> bool)
    requires Items(data) == rows
    requires forall i :: 0 <= i < |rows| ==> PlainRow(rows[i])
    ensures ImportChargings(data, dir, store, matches).Ok?
    ensures ImportChargings(data, dir, store, matches).value.count == |rows|
  {
    assert forall i :: 0 <= i < |rows| ==> |rows[i]| == 7;
    ParseAllCompletes(rows, dir, matches);
  }

  lemma ParseAllCompletes(items: seq<seq<string>>, dir: seq<Station>, matches: (string, Value) -> bool)
    requires forall i :: 0 <= i < |items| ==> |items[i]| == 7
    ensures ParseAll(items, dir, matches).Ok? && |ParseAll(items, dir, matches).value| == |items|
  {
  }

  /** One row written as a line is imported as its parse. */
  lemma ImportOfOneRow(row: seq<string>, dir: seq<Station>, store: seq<StoredCheckin>, matches: (string, Value) -> bool)
    requires PlainRow(row)
    ensures ImportChargings(Lines([row]), dir, store, matches)
      == Ok(Batch(store + [Imported(ParseLine(row, dir, matches).value)], 1))
  {
    ItemsOfRows([row]);
    ImportOfSingleItem(Lines([row]), row, dir, store, matches);
  }

  lemma ImportOfSingleItem(data: string, row: seq<string>, dir: seq<Station>, store: seq<StoredCheckin>, matches: (string, Value) -> bool)
    requires Items(data) == [row] && |row| >= 7
    ensures ImportChargings(data, dir, store, matches)
      == Ok(Batch(store + [Imported(ParseLine(row, dir, matches).value)], 1))
  {
    ParseSingleItem([row], row, dir, matches);
    var rec := ParseLine(row, dir, matches).value;
    assert AsStored([rec]) == [Imported(rec)];
  }

  lemma ParseSingleItem(items: seq<seq<string>>, row: seq<string>, dir: seq<Station>, matches: (string, Value) -> bool)
    requires items == [row] && |row| >= 7
    ensures ParseAll(items, dir, matches) == Ok([ParseLine(row, dir, matches).value])
  {
    assert items[1..] == [];
    assert ParseAll(items[1..], dir, matches) == Ok([]);
    var rec := ParseLine(row, dir, matches).value;
    assert [rec] + [] == [rec];
  }

  /** A parsed row keeps the time it was written with. */
  lemma ImportedTimeRoundTrip(dt: DateTime, place: string, counts: seq<string>, dir: seq<Station>, matches: (string, Value) -> bool)
    requires Valid(dt) && dt.second == 0 && dt.micro == 0 && |counts| == 4
    ensures var row := [FormatLocal(dt).0, FormatLocal(dt).1, place] + counts;
      ParseLine(row, dir, matches).Ok? && ParseLine(row, dir, matches).value.time == Some(dt)
  {
    LocalTimeRoundTrip(dt);
  }

  // ---------------------------------------------------------------------
  // The example line

  /** The first line of the example text in the import script,
      `06/23/2013,13:15,Neuberg,6,3,0,0`, as its fields. */
  const NeubergRow: seq<string> := ["06/23/2013", "13:15", "Neuberg", "6", "3", "0", "0"]

  const NeubergResult: ImportRecord :=
    ImportRecord(VNull, VStr("Neuberg"), Some(DateTime(2013, 6, 23, 13, 15, 0, 0)), "6", "3", "0", "0",
                 Some("Invalid supercharger, len=0"))

  lemma NeubergPlain()
    ensures PlainRow(NeubergRow)
  {
    var r := NeubergRow;
    assert PlainField(r[0]) && PlainField(r[1]) && PlainField(r[2]);
    assert PlainField(r[3]) && PlainField(r[4]) && PlainField(r[5]) && PlainField(r[6]);
  }

  lemma NeubergRecord(matches: (string, Value) -> bool)
    ensures ParseLine(NeubergRow, [], matches) == Ok(NeubergResult)
  {
    NeubergTime();
    assert Correct("Neuberg") == "Neuberg";
    assert Candidates([], "Neuberg", matches) == [];
    assert "Invalid supercharger, len=" + ShowNat(0) == "Invalid supercharger, len=0";
  }

  /** The example line imported with an empty directory: one document,
      stored without a station and flagged as such. */
  lemma NeubergImport(matches: (string, Value) -> bool)
    ensures PlainRow(NeubergRow)
    ensures ImportChargings(Lines([NeubergRow]), [], [], matches) == Ok(Batch([Imported(NeubergResult)], 1))
  {
    NeubergPlain();
    NeubergRecord(matches);
    ImportOfOneRow(NeubergRow, [], [], matches);
    assert [] + [Imported(NeubergResult)] == [Imported(NeubergResult)];
  }
}

/**
 * Two ways the GC and memory demos build one CSV text from a table of
 * strings: 001_gc.rb joins each row with "," and the rows with "\n"
 * (`data.map { |row| row.join(',') }.join("\n")`), 002_memory.rb appends
 * cell by cell to a growing buffer with `<<`. Both give the same string.
 */
module CsvBuilding {
  import opened RubyText

  /** `data.map { |row| row.join(',') }.join("\n")` (001_gc.rb). */
  function CsvText(data: seq<seq<string>>): (csv: string)
    ensures |csv| == TotalLength(JoinEach(data, ",")) + (if data == [] then 0 else |data| - 1)
  {
    Join(JoinEach(data, ","), "\n")
  }

  /** The first numRows rows, each cut to its first numCols cells: the part of
      `data` the indexed loops of 002_memory.rb read. */
  function Window(data: seq<seq<string>>, numRows: nat, numCols: nat): (w: seq<seq<string>>)
    requires numRows <= |data|
    requires forall i :: 0 <= i < numRows ==> numCols <= |data[i]|
    ensures |w| == numRows
    ensures forall i :: 0 <= i < numRows ==> w[i] == data[i][..numCols]
  {
    seq(numRows, i requires 0 <= i < numRows => data[i][..numCols])
  }

  /** On a table of exactly numRows rows of numCols cells the loops read it all. */
  lemma WindowOfExactTable(data: seq<seq<string>>, numCols: nat)
    requires forall i :: 0 <= i < |data| ==> |data[i]| == numCols
    ensures Window(data, |data|, numCols) == data
  {
    forall i | 0 <= i < |data|
      ensures data[i][..numCols] == data[i]
    {
    }
  }

  /** The buffer after the first k of the parts have been appended: their
      join, followed by the separator while parts remain. */
  function Partial(parts: seq<string>, k: nat, sep: string): string
    requires k <= |parts|
  {
    Join(parts[..k], sep) + (if 0 < k < |parts| then sep else "")
  }

  /** Appending part k, and then the separator unless it was the last part,
      takes the buffer from k parts to k + 1. */
  lemma AppendStep(parts: seq<string>, k: nat, sep: string)
    requires k < |parts|
    ensures Partial(parts, k, sep) + parts[k] + (if k != |parts| - 1 then sep else "")
         == Partial(parts, k + 1, sep)
  {
    assert parts[..k + 1] == parts[..k] + [parts[k]];
    JoinSnoc(parts[..k], parts[k], sep);
  }

  /** The append loop of 002_memory.rb: after each cell a "," unless it is the
      last column, after each row a "\n" unless it is the last row. `data` is
      read, never written. The buffer ends up as the map/join text of the
      part of the table the loops read, which is all of it when the table
      has exactly numRows rows of numCols cells. */
  method BuildCsv(data: seq<seq<string>>, numRows: nat, numCols: nat) returns (csv: string)
    requires numRows <= |data|
    requires forall i :: 0 <= i < numRows ==> numCols <= |data[i]|
    ensures csv == CsvText(Window(data, numRows, numCols))
    ensures |data| == numRows && (forall i :: 0 <= i < numRows ==> |data[i]| == numCols) ==>
      csv == CsvText(data)
  {
    ghost var rows := JoinEach(Window(data, numRows, numCols), ",");
    csv := "";
    var i := 0;
    while i < numRows
      invariant 0 <= i <= numRows
      invariant csv == Partial(rows, i, "\n")
    {
      ghost var before := csv;
      ghost var row := data[i][..numCols];
      var j := 0;
      while j < numCols
        invariant 0 <= j <= numCols
        invariant csv == before + Partial(row, j, ",")
      {
        AppendStep(row, j, ",");
        csv := csv + data[i][j];
        if j != numCols - 1 {
          csv := csv + ",";
        }
        j := j + 1;
      }
      assert Partial(row, numCols, ",") == rows[i] by {
        assert row[..numCols] == row;
      }
      AppendStep(rows, i, "\n");
      if i != numRows - 1 {
        csv := csv + "\n";
      }
      i := i + 1;
    }
    assert rows[..numRows] == rows;
    if |data| == numRows && (forall k :: 0 <= k < numRows ==> |data[k]| == numCols) {
      WindowOfExactTable(data, numCols);
    }
  }

  /** Neither a comma nor a newline occurs inside any cell. */
  predicate PlainCells(data: seq<seq<string>>) {
    forall i, j :: 0 <= i < |data| && 0 <= j < |data[i]| ==> ',' !in data[i][j] && '\n' !in data[i][j]
  }

  /** Each joined row carries one comma fewer than it has cells, and the text
      one newline fewer than it has rows. */
  lemma SeparatorCounts(data: seq<seq<string>>)
    requires PlainCells(data)
    requires data != []
    ensures forall i :: 0 <= i < |data| && data[i] != [] ==>
      Count(JoinEach(data, ",")[i], ',') == |data[i]| - 1
    ensures Count(CsvText(data), '\n') == |data| - 1
  {
    var rows := JoinEach(data, ",");
    forall i | 0 <= i < |data| && data[i] != []
      ensures Count(rows[i], ',') == |data[i]| - 1
    {
      CountJoin(data[i], ',');
    }
    forall i | 0 <= i < |rows|
      ensures '\n' !in rows[i]
    {
      JoinAvoids(data[i], ",", '\n');
    }
    CountJoin(rows, '\n');
  }

  /** A row whose last cell is not empty does not end in a comma, and the
      text does not end in a newline when its last row ends in a non-empty
      cell. An empty last cell does leave a comma at the end of its row. */
  lemma NoTrailingSeparator(data: seq<seq<string>>)
    requires PlainCells(data)
    ensures forall i :: 0 <= i < |data| && data[i] != [] && data[i][|data[i]| - 1] != [] ==>
      JoinEach(data, ",")[i] != [] && JoinEach(data, ",")[i][|JoinEach(data, ",")[i]| - 1] != ','
    ensures LastCellFilled(data) ==> CsvText(data) != [] && CsvText(data)[|CsvText(data)| - 1] != '\n'
  {
    forall i | 0 <= i < |data| && data[i] != [] && data[i][|data[i]| - 1] != []
      ensures JoinEach(data, ",")[i] != [] && JoinEach(data, ",")[i][|JoinEach(data, ",")[i]| - 1] != ','
    {
      LastOfRow(data, i);
    }
    if LastCellFilled(data) {
      LastOfRow(data, |data| - 1);
      JoinEndsWithLast(JoinEach(data, ","), "\n");
    }
  }

  /** Joining `["a", ""]` with commas leaves a trailing comma. */
  lemma EmptyLastCellTrails()
    ensures Join(["a", ""], ",") == "a,"
  {
  }

  /** The last row ends in a non-empty cell. */
  predicate LastCellFilled(data: seq<seq<string>>) {
    data != [] && data[|data| - 1] != [] && data[|data| - 1][|data[|data| - 1]| - 1] != []
  }

  /** A row ending in a non-empty plain cell joins to a string ending in
      that cell's last character, which is neither a comma nor a newline. */
  lemma LastOfRow(data: seq<seq<string>>, i: nat)
    requires PlainCells(data)
    requires i < |data| && data[i] != [] && data[i][|data[i]| - 1] != []
    ensures JoinEach(data, ",")[i] != []
    ensures var row := JoinEach(data, ",")[i];
      row[|row| - 1] != ',' && row[|row| - 1] != '\n'
  {
    var cell := data[i][|data[i]| - 1];
    JoinEndsWithLast(data[i], ",");
    assert cell[|cell| - 1] in cell;
  }

  /** The text determines the table: splitting at every newline and then at
      every comma gives back the rows and their cells, in row-major order. */
  lemma RoundTrip(data: seq<seq<string>>)
    requires PlainCells(data)
    requires data != []
    requires forall i :: 0 <= i < |data| ==> data[i] != []
    ensures SplitAll(CsvText(data), '\n') == JoinEach(data, ",")
    ensures forall i :: 0 <= i < |data| ==> SplitAll(SplitAll(CsvText(data), '\n')[i], ',') == data[i]
  {
    var rows := JoinEach(data, ",");
    forall i | 0 <= i < |rows|
      ensures '\n' !in rows[i]
    {
      JoinAvoids(data[i], ",", '\n');
    }
    SplitAllJoin(rows, '\n');
    forall i | 0 <= i < |data|
      ensures SplitAll(rows[i], ',') == data[i]
    {
      SplitAllJoin(data[i], ',');
    }
  }

  /** `Array.new(num_rows) { Array.new(num_cols) { 'x' * 1000 } }`. */
  function GeneratedTable(numRows: nat, numCols: nat): (data: seq<seq<string>>)
    ensures |data| == numRows
    ensures forall i :: 0 <= i < numRows ==> |data[i]| == numCols
  {
    seq(numRows, _ => seq(numCols, _ => seq(1000, _ => 'x')))
  }

  lemma {:induction false} TotalLengthUniform(parts: seq<string>, n: nat)
    requires forall i :: 0 <= i < |parts| ==> |parts[i]| == n
    ensures TotalLength(parts) == |parts| * n
  {
    if parts != [] {
      TotalLengthUniform(parts[1..], n);
    }
  }

  /** The generated table gives a text of
      num_rows * (num_cols * 1000 + num_cols - 1) + num_rows - 1 characters,
      whichever way it is built. */
  lemma GeneratedLength(numRows: nat, numCols: nat)
    requires numRows >= 1 && numCols >= 1
    ensures |CsvText(GeneratedTable(numRows, numCols))| == numRows * (numCols * 1000 + numCols - 1) + numRows - 1
  {
    var data := GeneratedTable(numRows, numCols);
    var rows := JoinEach(data, ",");
    forall i | 0 <= i < numRows
      ensures |rows[i]| == numCols * 1000 + numCols - 1
    {
      TotalLengthUniform(data[i], 1000);
    }
    TotalLengthUniform(rows, numCols * 1000 + numCols - 1);
  }
}

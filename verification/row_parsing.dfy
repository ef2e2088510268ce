/**
 * The people-file parsers of the profiling scripts. The data is lines of
 * `id,name,YYYY-MM-DD`; two row parsers exist:
 *   - the generic one of 011_rp_rep.rb splits on commas and classifies every
 *     field (digits become an integer, a date shape a date, anything else
 *     stays a string);
 *   - the optimized one of 012_profiling.rb (and, identically, of
 *     014_stackprof.rb) takes the first three fields and reads the date from
 *     fixed slices of the third.
 * Dates are (year, month, day) triples; the calendar validation of Ruby's
 * Date library is not part of this model.
 */
module RowParsing {
  import opened Options
  import opened RubyText

  datatype Date = Date(year: int, month: int, day: int)

  /** Dates compare by year, then month, then day. */
  predicate DateLe(a: Date, b: Date) {
    a.year < b.year || (a.year == b.year && (a.month < b.month || (a.month == b.month && a.day <= b.day)))
  }

  /** A value a parsed row can hold. */
  datatype Cell = IntCell(i: int) | StrCell(s: string) | DateCell(date: Date) | NilCell

  type Row = seq<Cell>

  // ------------------------------------------------------------ parse_col

  /** `\d{4}-\d{2}-\d{2}` spanning all of s. */
  predicate IsDateShaped(s: string) {
    && |s| == 10
    && AllDigits(s[0..4]) && s[4] == '-'
    && AllDigits(s[5..7]) && s[7] == '-'
    && AllDigits(s[8..10])
  }

  /** The three captured groups, each read with `to_i`. */
  function CapturedDate(s: string): Date
    requires IsDateShaped(s)
  {
    Date(ToI(s[0..4]), ToI(s[5..7]), ToI(s[8..10]))
  }

  /** The lines of a string: `^` and `$` in a Ruby regexp anchor at each of them. */
  function Lines(col: string): (lines: seq<string>)
    ensures '\n' !in col ==> lines == [col]
  {
    if '\n' !in col then SplitAllNoSeparator(col, '\n'); SplitAll(col, '\n')
    else SplitAll(col, '\n')
  }

  /** `col =~ /^\d+$/`: some line is a non-empty run of digits. */
  predicate HasDigitsLine(col: string) {
    exists k :: 0 <= k < |Lines(col)| && Lines(col)[k] != [] && AllDigits(Lines(col)[k])
  }

  /** The leftmost line that matches the date pattern, if any. */
  function FirstDateLine(lines: seq<string>): (r: Option<string>)
    ensures r.Some? ==> IsDateShaped(r.value) && r.value in lines
    ensures r.None? <==> forall k :: 0 <= k < |lines| ==> !IsDateShaped(lines[k])
  {
    if lines == [] then None
    else if IsDateShaped(lines[0]) then Some(lines[0])
    else FirstDateLine(lines[1..])
  }

  /** `parse_col`: digits become an integer, the date pattern a date, anything
      else stays the string it was. The date is read from the captured groups
      (`Date.new` of 012_profiling.rb); `Date.parse` of 011_rp_rep.rb reads the
      same three numbers from a string of that shape. A field never holds a
      newline (the data was split on them), and for such a column the three
      cases read as below. */
  function ParseCol(col: string): (c: Cell)
    ensures '\n' !in col && col != [] && AllDigits(col) ==> c == IntCell(DigitsValue(col))
    ensures IsDateShaped(col) ==> c == DateCell(CapturedDate(col))
    ensures '\n' !in col && !(col != [] && AllDigits(col)) && !IsDateShaped(col) ==> c == StrCell(col)
  {
    var lines := Lines(col);
    assert IsDateShaped(col) ==> '\n' !in col && lines == [col] && lines[0] == col;
    if HasDigitsLine(col) then IntCell(ToI(col))
    else
      match FirstDateLine(lines)
      case Some(line) => DateCell(CapturedDate(line))
      case None => StrCell(col)
  }

  // ------------------------------------------------------------ parse_row

  /** Generic `parse_row`: `row.split(',').map! { |col| parse_col(col) }`. */
  function ParseRowGeneric(row: string): (r: Row)
    ensures |r| == |Split(row, ',')|
  {
    var fields := Split(row, ',');
    seq(|fields|, i requires 0 <= i < |fields| => ParseCol(fields[i]))
  }

  /** The date the optimized `parse_row` builds: `to_i` of the slices
      `[0,4]`, `[5,2]` and `[8,2]`, where a slice past the end is nil and
      nil.to_i is 0. */
  function SliceDate(col3: string): (d: Date)
    ensures d.year == ToI(col3[..if |col3| < 4 then |col3| else 4])
    ensures |col3| <= 5 ==> d.month == 0
    ensures |col3| <= 8 ==> d.day == 0
  {
    Date(ToIOrZero(Slice(col3, 0, 4)), ToIOrZero(Slice(col3, 5, 2)), ToIOrZero(Slice(col3, 8, 2)))
  }

  /** Optimized `parse_row`: `col1, col2, col3 = row.split(',')`, then
      `[col1.to_i, col2, Date.new(...)]`. With fewer than three fields `col3`
      is nil and `col3[0,4]` raises, which is None here. */
  function ParseRowFixed(row: string): (r: Option<Row>)
    ensures r.Some? <==> |Split(row, ',')| >= 3
    ensures r.Some? ==> |r.value| == 3 && r.value[0].IntCell? && r.value[1].StrCell? && r.value[2].DateCell?
  {
    var fields := Split(row, ',');
    if |fields| < 3 then None
    else Some([IntCell(ToI(fields[0])), StrCell(fields[1]), DateCell(SliceDate(fields[2]))])
  }

  /** On a `YYYY-MM-DD` field the fixed slices are exactly the year, month
      and day groups of the pattern. */
  lemma SliceDateOfDateShaped(s: string)
    requires IsDateShaped(s)
    ensures SliceDate(s) == CapturedDate(s)
  {
    assert Slice(s, 0, 4) == Some(s[0..4]);
    assert Slice(s, 5, 2) == Some(s[5..7]);
    assert Slice(s, 8, 2) == Some(s[8..10]);
  }

  // ----------------------------------------------------------- parse_data

  /** `parse_data` with the generic row parser: one row per line. */
  function ParseDataGeneric(data: string): (rows: seq<Row>)
    ensures |rows| == |Split(data, '\n')|
  {
    ParseRowsGeneric(Split(data, '\n'))
  }

  function ParseRowsGeneric(lines: seq<string>): (rows: seq<Row>)
    ensures |rows| == |lines|
  {
    seq(|lines|, i requires 0 <= i < |lines| => ParseRowGeneric(lines[i]))
  }

  function ParseRowsFixed(lines: seq<string>): (rows: Option<seq<Row>>)
    ensures rows.Some? <==> forall i :: 0 <= i < |lines| ==> ParseRowFixed(lines[i]).Some?
    ensures rows.Some? ==>
      (|rows.value| == |lines| && forall i :: 0 <= i < |lines| ==> rows.value[i] == ParseRowFixed(lines[i]).value)
  {
    if lines == [] then Some([])
    else match (ParseRowFixed(lines[0]), ParseRowsFixed(lines[1..]))
      case (Some(row), Some(rest)) => Some([row] + rest)
      case _ => None
  }

  /** `parse_data` with the optimized row parser: one row per line, and the
      first line that has fewer than three fields aborts the whole parse. */
  function ParseDataFixed(data: string): (rows: Option<seq<Row>>)
    ensures var lines := Split(data, '\n');
      rows.Some? <==> forall i :: 0 <= i < |lines| ==> |Split(lines[i], ',')| >= 3
    ensures var lines := Split(data, '\n');
      rows.Some? ==>
        && |rows.value| == |lines|
        && forall i :: 0 <= i < |lines| ==>
             |rows.value[i]| == 3 && rows.value[i][0].IntCell? && rows.value[i][1].StrCell? && rows.value[i][2].DateCell?
  {
    ParseRowsFixed(Split(data, '\n'))
  }

  // ----------------------------------------------- the generated people

  /** One generated person: an id, a name and a `%Y-%m-%d` birth date. */
  datatype Person = Person(id: nat, name: string, born: string)

  /** The names the generator picks hold no separator and look like neither
      a number nor a date; the birth date has the date shape. */
  predicate WellFormed(p: Person) {
    && ',' !in p.name && '\n' !in p.name
    && !(p.name != [] && AllDigits(p.name))
    && !IsDateShaped(p.name)
    && IsDateShaped(p.born)
  }

  /** `[i, name, date].join ','`. */
  function GeneratedLine(p: Person): string {
    Join([IntToS(p.id), p.name, p.born], ",")
  }

  function GeneratedLines(people: seq<Person>): seq<string> {
    seq(|people|, i requires 0 <= i < |people| => GeneratedLine(people[i]))
  }

  /** The lines joined with `"\n"`, as `gen_test_data` returns them. */
  function GeneratedData(people: seq<Person>): string {
    Join(GeneratedLines(people), "\n")
  }

  /** The row both parsers are meant to produce for a person. */
  function ExpectedRow(p: Person): Row
    requires WellFormed(p)
  {
    [IntCell(p.id), StrCell(p.name), DateCell(CapturedDate(p.born))]
  }

  lemma DateShapedHasNoSeparators(s: string)
    requires IsDateShaped(s)
    ensures ',' !in s && '\n' !in s
  {
    forall k | 0 <= k < 10
      ensures s[k] != ',' && s[k] != '\n'
    {
      if k < 4 { assert s[0..4][k] == s[k]; }
      else if 5 <= k < 7 { assert s[5..7][k - 5] == s[k]; }
      else if 8 <= k { assert s[8..10][k - 8] == s[k]; }
    }
  }

  lemma IntToSHasNoSeparators(n: nat)
    ensures ',' !in IntToS(n) && '\n' !in IntToS(n) && !IsDateShaped(IntToS(n))
  {
    var s := IntToS(n);
    if |s| == 10 {
      assert IsDigit(s[4]);
    }
  }

  /** Both row parsers read a generated line as the person it was made from:
      the generic parser of 011_rp_rep.rb and the optimized one of
      012_profiling.rb agree on every such line. */
  lemma ParseGeneratedLine(p: Person)
    requires WellFormed(p)
    ensures ParseRowFixed(GeneratedLine(p)) == Some(ExpectedRow(p))
    ensures ParseRowGeneric(GeneratedLine(p)) == ExpectedRow(p)
  {
    var fields := [IntToS(p.id), p.name, p.born];
    IntToSHasNoSeparators(p.id);
    DateShapedHasNoSeparators(p.born);
    SplitJoin(fields, ',');
    assert Split(GeneratedLine(p), ',') == fields;
    ToIOfIntToS(p.id);
    SliceDateOfDateShaped(p.born);
    assert ParseCol(IntToS(p.id)) == IntCell(p.id);
  }

  function ExpectedRows(people: seq<Person>): seq<Row>
    requires forall i :: 0 <= i < |people| ==> WellFormed(people[i])
  {
    seq(|people|, i requires 0 <= i < |people| => ExpectedRow(people[i]))
  }

  /** Splitting generated data on newlines gives back the generated lines. */
  lemma SplitGeneratedData(people: seq<Person>)
    requires forall i :: 0 <= i < |people| ==> WellFormed(people[i])
    ensures Split(GeneratedData(people), '\n') == GeneratedLines(people)
  {
    var lines := GeneratedLines(people);
    forall i | 0 <= i < |lines|
      ensures '\n' !in lines[i] && lines[i] != []
    {
      var p := people[i];
      IntToSHasNoSeparators(p.id);
      DateShapedHasNoSeparators(p.born);
      JoinAvoids([IntToS(p.id), p.name, p.born], ",", '\n');
    }
    SplitJoin(lines, '\n');
  }

  lemma ParseGeneratedLines(people: seq<Person>)
    requires forall i :: 0 <= i < |people| ==> WellFormed(people[i])
    ensures ParseRowsFixed(GeneratedLines(people)) == Some(ExpectedRows(people))
    ensures ParseRowsGeneric(GeneratedLines(people)) == ExpectedRows(people)
  {
    var lines := GeneratedLines(people);
    forall i | 0 <= i < |lines|
      ensures ParseRowFixed(lines[i]) == Some(ExpectedRow(people[i]))
      ensures ParseRowGeneric(lines[i]) == ExpectedRow(people[i])
    {
      ParseGeneratedLine(people[i]);
    }
    var fixed := ParseRowsFixed(lines);
    assert fixed.value == ExpectedRows(people);
  }

  /** Generated data parses to one row per person, in order, with either
      parser: 50_000 people give 50_000 rows, each of them
      `[Integer, String, Date]`. */
  lemma ParseGeneratedData(people: seq<Person>)
    requires forall i :: 0 <= i < |people| ==> WellFormed(people[i])
    ensures ParseDataFixed(GeneratedData(people)) == Some(ExpectedRows(people))
    ensures ParseDataGeneric(GeneratedData(people)) == ExpectedRows(people)
  {
    SplitGeneratedData(people);
    ParseGeneratedLines(people);
  }
}

/**
 * `find_youngest(people)`, identical in 011_rp_rep.rb, 012_profiling.rb and
 * 014_stackprof.rb: `people.map! { |person| person[2] }.max`. The `map!`
 * overwrites the caller's array, slot by slot, with each row's third value;
 * `max` then walks the array keeping the running maximum under Ruby's `<=>`.
 */
module Youngest {
  import opened Options
  import opened RubyText
  import opened RowParsing

  /** A slot of the `people` array: a parsed row before `map!`, one value after. */
  datatype Slot = RowSlot(cells: Row) | CellSlot(cell: Cell)

  /** `person[2]`: the third value, nil when the row is shorter. */
  function Third(row: Row): Cell {
    if |row| > 2 then row[2] else NilCell
  }

  function Thirds(slots: seq<Slot>): (r: seq<Cell>)
    requires forall i :: 0 <= i < |slots| ==> slots[i].RowSlot?
    ensures |r| == |slots|
  {
    seq(|slots|, i requires 0 <= i < |slots| && slots[i].RowSlot? => Third(slots[i].cells))
  }

  function Sign(x: int): int {
    if x < 0 then -1 else if x > 0 then 1 else 0
  }

  /** Date#<=> on two dates. */
  function DateCmp(a: Date, b: Date): (r: int)
    ensures r > 0 <==> !DateLe(a, b)
    ensures r == 0 <==> a == b
  {
    if a.year != b.year then Sign(a.year - b.year)
    else if a.month != b.month then Sign(a.month - b.month)
    else Sign(a.day - b.day)
  }

  /** String#<=>: character by character, a proper prefix first. */
  function StrCmp(a: string, b: string): (r: int)
    ensures -1 <= r <= 1
    ensures r == 0 <==> a == b
  {
    if a == [] && b == [] then 0
    else if a == [] then -1
    else if b == [] then 1
    else if a[0] < b[0] then -1
    else if a[0] > b[0] then 1
    else StrCmp(a[1..], b[1..])
  }

  /** `a <=> b` on two values: None where Ruby answers nil (values of
      different classes), which makes `max` raise ArgumentError. */
  function Cmp(a: Cell, b: Cell): (r: Option<int>)
    ensures r.Some? <==>
      || (a.IntCell? && b.IntCell?) || (a.StrCell? && b.StrCell?)
      || (a.DateCell? && b.DateCell?) || (a.NilCell? && b.NilCell?)
    ensures r.Some? ==> -1 <= r.value <= 1 && (r.value == 0 <==> a == b)
  {
    match (a, b)
    case (IntCell(x), IntCell(y)) => Some(Sign(x - y))
    case (StrCell(x), StrCell(y)) => Some(StrCmp(x, y))
    case (DateCell(x), DateCell(y)) => Some(DateCmp(x, y))
    case (NilCell, NilCell) => Some(0)
    case _ => None
  }

  /** String#<=> read the other way round gives the opposite answer. */
  lemma {:induction false} StrCmpAntisymmetric(a: string, b: string)
    ensures StrCmp(b, a) == -StrCmp(a, b)
  {
    if a != [] && b != [] && a[0] == b[0] {
      StrCmpAntisymmetric(a[1..], b[1..]);
    }
  }

  /** `b <=> a` is `-(a <=> b)`, and both are nil together. */
  lemma CmpAntisymmetric(a: Cell, b: Cell)
    ensures Cmp(b, a).Some? <==> Cmp(a, b).Some?
    ensures Cmp(a, b).Some? ==> Cmp(b, a).value == -Cmp(a, b).value
  {
    if a.StrCell? && b.StrCell? {
      StrCmpAntisymmetric(a.s, b.s);
    }
  }

  /** What `max` gives: nil for an empty array, the maximum, or the failure
      of a comparison Ruby cannot make. */
  datatype MaxOutcome = NoElements | Max(cell: Cell) | ComparisonFailed

  /** Array#max from the running maximum acc on: a later value replaces it
      when `value <=> acc` is positive. */
  function MaxFrom(rest: seq<Cell>, acc: Cell): (m: MaxOutcome)
    ensures !m.NoElements?
    ensures m.Max? ==> m.cell == acc || m.cell in rest
  {
    if rest == [] then Max(acc)
    else match Cmp(rest[0], acc)
      case None => ComparisonFailed
      case Some(c) => MaxFrom(rest[1..], if c > 0 then rest[0] else acc)
  }

  function RubyMax(values: seq<Cell>): (m: MaxOutcome)
    ensures m.NoElements? <==> values == []
    ensures m.Max? ==> m.cell in values
  {
    if values == [] then NoElements else MaxFrom(values[1..], values[0])
  }

  predicate AllDates(values: seq<Cell>) {
    forall k :: 0 <= k < |values| ==> values[k].DateCell?
  }

  /** Over dates alone the running maximum ends on one of the dates, no
      earlier than the start and no earlier than any of them. */
  lemma {:induction false} MaxFromDates(rest: seq<Cell>, a: Date)
    requires AllDates(rest)
    ensures MaxFrom(rest, DateCell(a)).Max?
    ensures MaxFrom(rest, DateCell(a)).cell.DateCell?
    ensures var m := MaxFrom(rest, DateCell(a)).cell.date;
      && DateLe(a, m)
      && (m == a || DateCell(m) in rest)
      && forall k :: 0 <= k < |rest| ==> DateLe(rest[k].date, m)
  {
    if rest != [] {
      var next := if DateCmp(rest[0].date, a) > 0 then rest[0].date else a;
      MaxFromDates(rest[1..], next);
      var m := MaxFrom(rest, DateCell(a)).cell.date;
      assert m == MaxFrom(rest[1..], DateCell(next)).cell.date;
      assert forall k :: 1 <= k < |rest| ==> rest[k] == rest[1..][k - 1];
    }
  }

  /** On dates, `max` is the latest one: it is one of them and `>=` every
      one of them, which is what the test of find_youngest asserts. */
  lemma MaxOfDates(values: seq<Cell>)
    requires values != [] && AllDates(values)
    ensures RubyMax(values).Max? && RubyMax(values).cell.DateCell?
    ensures RubyMax(values).cell in values
    ensures forall k :: 0 <= k < |values| ==> DateLe(values[k].date, RubyMax(values).cell.date)
  {
    MaxFromDates(values[1..], values[0].date);
    assert forall k :: 1 <= k < |values| ==> values[k] == values[1..][k - 1];
  }

  /** `people.map! { |person| person[2] }.max`. Afterwards each slot holds its
      row's third value, the length is unchanged, and the answer is the
      maximum of those values; when they are all dates it is the latest. */
  method FindYoungest(people: array<Slot>) returns (youngest: MaxOutcome)
    requires forall i :: 0 <= i < people.Length ==> people[i].RowSlot?
    modifies people
    ensures forall i :: 0 <= i < people.Length ==> people[i] == CellSlot(Third(old(people[i]).cells))
    ensures youngest == RubyMax(Thirds(old(people[..])))
    ensures people.Length > 0 && AllDates(Thirds(old(people[..]))) ==>
      youngest.Max? && youngest.cell.DateCell?
      && forall i :: 0 <= i < people.Length ==>
           people[i].cell.DateCell? && DateLe(people[i].cell.date, youngest.cell.date)
  {
    ghost var values := Thirds(people[..]);
    var i := 0;
    while i < people.Length
      invariant 0 <= i <= people.Length
      invariant forall k :: 0 <= k < i ==> people[k] == CellSlot(values[k])
      invariant forall k :: i <= k < people.Length ==> people[k] == old(people[k])
    {
      people[i] := CellSlot(Third(people[i].cells));
      i := i + 1;
    }
    if AllDates(values) && values != [] {
      MaxOfDates(values);
    }
    if people.Length == 0 {
      return NoElements;
    }
    var acc := people[0].cell;
    i := 1;
    while i < people.Length
      invariant 1 <= i <= people.Length
      invariant RubyMax(values) == MaxFrom(values[i..], acc)
    {
      assert values[i..][1..] == values[i + 1..];
      var c := Cmp(people[i].cell, acc);
      if c.None? {
        return ComparisonFailed;
      }
      if c.value > 0 {
        acc := people[i].cell;
      }
      i := i + 1;
    }
    youngest := Max(acc);
  }
}

/**
 * The pieces of Ruby's String and Array library the scripts lean on, written
 * out so that their edge cases are part of the model:
 *   - Array#join(sep) over strings,
 *   - String#split with a one-character separator (trailing empty fields are
 *     dropped, and "".split(c) is []),
 *   - String#to_i restricted to leading decimal digits,
 *   - String#[](start, length), which answers nil past the end,
 *   - Integer#to_s for non-negative integers.
 */
module RubyText {
  import opened Options

  predicate IsDigit(c: char) {
    '0' <= c <= '9'
  }

  predicate AllDigits(s: string) {
    forall i :: 0 <= i < |s| ==> IsDigit(s[i])
  }

  function DigitValue(c: char): nat
    requires IsDigit(c)
  {
    (c as int) - ('0' as int)
  }

  function DigitChar(d: nat): (c: char)
    requires d < 10
    ensures IsDigit(c) && DigitValue(c) == d
  {
    (('0' as int) + d) as char
  }

  // ---------------------------------------------------------------- join

  function TotalLength(parts: seq<string>): nat {
    if parts == [] then 0 else |parts[0]| + TotalLength(parts[1..])
  }

  /** Array#join(sep): the parts with sep between neighbours, none at the ends. */
  function Join(parts: seq<string>, sep: string): (r: string)
    ensures |r| == TotalLength(parts) + (if parts == [] then 0 else (|parts| - 1) * |sep|)
  {
    if |parts| == 0 then ""
    else if |parts| == 1 then parts[0]
    else parts[0] + sep + Join(parts[1..], sep)
  }

  /** Appending one part to a join adds the separator and the part at the end. */
  lemma {:induction false} JoinSnoc(parts: seq<string>, x: string, sep: string)
    ensures Join(parts + [x], sep) == if parts == [] then x else Join(parts, sep) + sep + x
  {
    if |parts| > 1 {
      assert (parts + [x])[1..] == parts[1..] + [x];
      JoinSnoc(parts[1..], x, sep);
    }
  }

  /** Joining two non-empty lists is joining each and putting one separator between. */
  lemma {:induction false} JoinConcat(a: seq<string>, b: seq<string>, sep: string)
    requires a != [] && b != []
    ensures Join(a + b, sep) == Join(a, sep) + sep + Join(b, sep)
  {
    if |a| > 1 {
      assert (a + b)[1..] == a[1..] + b;
      JoinConcat(a[1..], b, sep);
    } else {
      assert a + b == [a[0]] + b;
    }
  }

  /** A join whose last part is not empty ends with that part's last character. */
  lemma JoinEndsWithLast(parts: seq<string>, sep: string)
    requires parts != [] && parts[|parts| - 1] != []
    ensures Join(parts, sep) != []
    ensures Join(parts, sep)[|Join(parts, sep)| - 1] == parts[|parts| - 1][|parts[|parts| - 1]| - 1]
  {
    var n := |parts|;
    assert parts[..n - 1] + [parts[n - 1]] == parts;
    JoinSnoc(parts[..n - 1], parts[n - 1], sep);
  }

  /** A character that is in no part and not in the separator is not in the join. */
  lemma {:induction false} JoinAvoids(parts: seq<string>, sep: string, c: char)
    requires c !in sep
    requires forall i :: 0 <= i < |parts| ==> c !in parts[i]
    ensures c !in Join(parts, sep)
  {
    if |parts| > 1 {
      JoinAvoids(parts[1..], sep, c);
    }
  }

  /** Each inner array joined with sep: what `map { |row| row.join(sep) }` gives. */
  function JoinEach(rows: seq<seq<string>>, sep: string): (r: seq<string>)
    ensures |r| == |rows|
  {
    seq(|rows|, i requires 0 <= i < |rows| => Join(rows[i], sep))
  }

  /** The cells of all rows, in row-major order. */
  function Flatten(rows: seq<seq<string>>): seq<string> {
    if rows == [] then [] else rows[0] + Flatten(rows[1..])
  }

  /** Array#join on an array of arrays joins recursively with the same
      separator; when no inner array is empty that is the join of all cells
      in row-major order. */
  lemma {:induction false} JoinFlatten(rows: seq<seq<string>>, sep: string)
    requires forall i :: 0 <= i < |rows| ==> rows[i] != []
    ensures Join(JoinEach(rows, sep), sep) == Join(Flatten(rows), sep)
  {
    if |rows| == 1 {
      assert Flatten(rows) == rows[0] + Flatten(rows[1..]);
      assert rows[0] + [] == rows[0];
    } else if |rows| > 1 {
      assert JoinEach(rows, sep)[1..] == JoinEach(rows[1..], sep);
      JoinFlatten(rows[1..], sep);
      assert Flatten(rows[1..]) != [] by {
        assert Flatten(rows[1..]) == rows[1] + Flatten(rows[2..]);
      }
      JoinConcat(rows[0], Flatten(rows[1..]), sep);
    }
  }

  // --------------------------------------------------------------- count

  /** Number of occurrences of c in s. */
  function Count(s: string, c: char): nat {
    if s == [] then 0 else (if s[0] == c then 1 else 0) + Count(s[1..], c)
  }

  lemma {:induction false} CountConcat(a: string, b: string, c: char)
    ensures Count(a + b, c) == Count(a, c) + Count(b, c)
  {
    if a != [] {
      assert (a + b)[1..] == a[1..] + b;
      CountConcat(a[1..], b, c);
    } else {
      assert a + b == b;
    }
  }

  lemma {:induction false} CountAbsent(s: string, c: char)
    requires c !in s
    ensures Count(s, c) == 0
  {
    if s != [] {
      assert c !in s[1..];
      CountAbsent(s[1..], c);
    }
  }

  /** A one-character separator occurs exactly once between each pair of parts
      and nowhere else, when the parts themselves do not contain it. */
  lemma {:induction false} CountJoin(parts: seq<string>, c: char)
    requires parts != []
    requires forall i :: 0 <= i < |parts| ==> c !in parts[i]
    ensures Count(Join(parts, [c]), c) == |parts| - 1
  {
    CountAbsent(parts[0], c);
    if |parts| > 1 {
      CountJoin(parts[1..], c);
      CountConcat(parts[0], [c], c);
      CountConcat(parts[0] + [c], Join(parts[1..], [c]), c);
    }
  }

  // --------------------------------------------------------------- split

  /** Every field between separators, empty ones included (the split before
      Ruby discards trailing empty fields). */
  function SplitAll(s: string, c: char): (r: seq<string>)
    ensures |r| >= 1
    ensures forall i :: 0 <= i < |r| ==> c !in r[i]
    ensures Join(r, [c]) == s
  {
    if s == [] then [""]
    else
      var rest := SplitAll(s[1..], c);
      if s[0] == c then [""] + rest
      else [[s[0]] + rest[0]] + rest[1..]
  }

  lemma {:induction false} SplitAllNoSeparator(p: string, c: char)
    requires c !in p
    ensures SplitAll(p, c) == [p]
  {
    if p != [] {
      assert c !in p[1..];
      SplitAllNoSeparator(p[1..], c);
    }
  }

  lemma {:induction false} SplitAllCons(p: string, t: string, c: char)
    requires c !in p
    ensures SplitAll(p + [c] + t, c) == [p] + SplitAll(t, c)
  {
    if p == [] {
      assert ([c] + t)[1..] == t;
    } else {
      assert (p + [c] + t)[1..] == p[1..] + [c] + t;
      assert c !in p[1..];
      SplitAllCons(p[1..], t, c);
      assert [p[0]] + p[1..] == p;
    }
  }

  /** Splitting a join gives back the parts, when no part holds the separator. */
  lemma {:induction false} SplitAllJoin(parts: seq<string>, c: char)
    requires parts != []
    requires forall i :: 0 <= i < |parts| ==> c !in parts[i]
    ensures SplitAll(Join(parts, [c]), c) == parts
  {
    if |parts| == 1 {
      SplitAllNoSeparator(parts[0], c);
    } else {
      SplitAllJoin(parts[1..], c);
      SplitAllCons(parts[0], Join(parts[1..], [c]), c);
      assert parts == [parts[0]] + parts[1..];
    }
  }

  function DropTrailingEmpty(fields: seq<string>): (r: seq<string>)
    ensures r <= fields
    ensures r == [] || r[|r| - 1] != ""
    ensures forall i :: |r| <= i < |fields| ==> fields[i] == ""
  {
    if fields == [] then []
    else if fields[|fields| - 1] == "" then DropTrailingEmpty(fields[..|fields| - 1])
    else fields
  }

  /** String#split(c): the fields between separators, with trailing empty
      fields suppressed (so "".split(c) is []). */
  function Split(s: string, c: char): (r: seq<string>)
    ensures forall i :: 0 <= i < |r| ==> c !in r[i]
    ensures r == [] || r[|r| - 1] != ""
    ensures r <= SplitAll(s, c)
  {
    DropTrailingEmpty(SplitAll(s, c))
  }

  /** Split undoes Join whenever no part holds the separator and the last part
      is not empty (an empty last part is the one Ruby would drop). */
  lemma SplitJoin(parts: seq<string>, c: char)
    requires forall i :: 0 <= i < |parts| ==> c !in parts[i]
    requires parts == [] || parts[|parts| - 1] != ""
    ensures Split(Join(parts, [c]), c) == parts
  {
    if parts != [] {
      SplitAllJoin(parts, c);
    }
  }

  // ----------------------------------------------------- to_i and to_s

  function LeadingDigits(s: string): (r: string)
    ensures r <= s && AllDigits(r)
    ensures |r| < |s| ==> !IsDigit(s[|r|])
  {
    if s == [] || !IsDigit(s[0]) then [] else [s[0]] + LeadingDigits(s[1..])
  }

  /** The decimal value of a string of digits. */
  function DigitsValue(s: string): nat
    requires AllDigits(s)
  {
    if s == [] then 0 else DigitsValue(s[..|s| - 1]) * 10 + DigitValue(s[|s| - 1])
  }

  /** String#to_i: the value of the leading decimal digits, 0 when there are
      none. */
  function ToI(s: string): (r: nat)
    ensures AllDigits(s) ==> r == DigitsValue(s)
  {
    LeadingDigitsOfDigits(s);
    DigitsValue(LeadingDigits(s))
  }

  lemma {:induction false} LeadingDigitsOfDigits(s: string)
    ensures AllDigits(s) ==> LeadingDigits(s) == s
  {
    if s != [] && AllDigits(s) {
      LeadingDigitsOfDigits(s[1..]);
    }
  }

  /** nil.to_i is 0; a present string goes through String#to_i. */
  function ToIOrZero(o: Option<string>): nat {
    match o
    case None => 0
    case Some(s) => ToI(s)
  }

  /** String#[](start, length) for non-negative start and length: nil when
      start is past the end, otherwise at most length characters. */
  function Slice(s: string, start: nat, len: nat): (r: Option<string>)
    ensures r.Some? <==> start <= |s|
    ensures r.Some? ==> r.value <= s[start..] && |r.value| == if start + len <= |s| then len else |s| - start
  {
    if start > |s| then None
    else Some(s[start..if start + len <= |s| then start + len else |s|])
  }

  /** Integer#to_s for a non-negative integer: its decimal digits, with no
      leading zero. */
  function IntToS(n: nat): (r: string)
    ensures r != [] && AllDigits(r)
    ensures DigitsValue(r) == n
    ensures |r| > 1 ==> r[0] != '0'
  {
    if n < 10 then [DigitChar(n)]
    else
      var prefix := IntToS(n / 10);
      assert (prefix + [DigitChar(n % 10)])[..|prefix|] == prefix;
      prefix + [DigitChar(n % 10)]
  }

  /** String#to_i reads back what Integer#to_s wrote. */
  lemma ToIOfIntToS(n: nat)
    ensures ToI(IntToS(n)) == n
  {
  }
}

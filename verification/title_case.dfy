/**
 * The per-column transform of 003_wrapper_ex.rb,
 * `col.downcase.gsub(/\b('?[a-z])/) { $1.capitalize }`, on ASCII text, and
 * the string the script writes, `output.join('\n')`.
 *
 * The regular expression is scanned left to right over the downcased
 * column. At a word boundary it matches either an apostrophe and a lower
 * letter (possible only right after a word character, since the apostrophe
 * is not one) or a single lower letter. `capitalize` upper-cases the first
 * character of the match and lower-cases the rest, so a lone letter is
 * upper-cased while an apostrophe match comes out as it went in, its letter
 * still lower case. Matching resumes after the match.
 */
module TitleCase {
  import opened RubyText

  predicate IsUpper(c: char) { 'A' <= c <= 'Z' }
  predicate IsLower(c: char) { 'a' <= c <= 'z' }
  predicate IsLetter(c: char) { IsUpper(c) || IsLower(c) }

  /** `\w` on ASCII: letters, digits and the underscore. */
  predicate IsWord(c: char) { IsLetter(c) || IsDigit(c) || c == '_' }

  function Lower(c: char): (d: char)
    ensures !IsUpper(d)
    ensures IsLetter(c) <==> IsLetter(d)
    ensures !IsLetter(c) ==> d == c
  {
    if IsUpper(c) then (c as int + 32) as char else c
  }

  function Upper(c: char): (d: char)
    ensures !IsLower(d)
    ensures IsLetter(c) <==> IsLetter(d)
    ensures !IsLetter(c) ==> d == c
  {
    if IsLower(c) then (c as int - 32) as char else c
  }

  lemma LowerUpper(c: char)
    requires IsLower(c)
    ensures Lower(Upper(c)) == c && IsUpper(Upper(c))
  {
  }

  /** String#downcase on ASCII. */
  function Downcase(s: string): (d: string)
    ensures |d| == |s|
    ensures forall i :: 0 <= i < |s| ==> d[i] == Lower(s[i])
  {
    seq(|s|, i requires 0 <= i < |s| => Lower(s[i]))
  }

  /** `\b` before position p: exactly one of s[p - 1] and s[p] is a word
      character, the start of the string counting as a non-word. */
  predicate Boundary(s: string, p: nat)
    requires p < |s|
  {
    (p > 0 && IsWord(s[p - 1])) != IsWord(s[p])
  }

  /** An apostrophe match starting at p. */
  predicate QuotedMatch(s: string, p: nat)
    requires p < |s|
  {
    Boundary(s, p) && s[p] == '\'' && p + 1 < |s| && IsLower(s[p + 1])
  }

  /** A single-letter match at p. */
  predicate LetterMatch(s: string, p: nat)
    requires p < |s|
  {
    Boundary(s, p) && IsLower(s[p])
  }

  /** The gsub from position p on, over the original string s: an apostrophe
      match is kept as it is and skipped, a letter match is upper-cased, any
      other character is copied. */
  function GsubFrom(s: string, p: nat): (r: string)
    requires p <= |s|
    ensures |r| == |s| - p
    decreases |s| - p
  {
    if p == |s| then ""
    else if QuotedMatch(s, p) then [s[p], s[p + 1]] + GsubFrom(s, p + 2)
    else if LetterMatch(s, p) then [Upper(s[p])] + GsubFrom(s, p + 1)
    else [s[p]] + GsubFrom(s, p + 1)
  }

  /** `col.downcase.gsub(/\b('?[a-z])/) { $1.capitalize }`. */
  function Transform(col: string): (r: string)
    ensures |r| == |col|
  {
    GsubFrom(Downcase(col), 0)
  }

  /** Reference definition of which letters end up upper case: a lower letter
      at the start of the text or after a non-word character, unless that
      character is an apostrophe that itself follows a word character. */
  predicate StartsWord(s: string, i: nat)
    requires i < |s|
  {
    && IsLower(s[i])
    && (i == 0 || !IsWord(s[i - 1]))
    && !(i >= 2 && s[i - 1] == '\'' && IsWord(s[i - 2]))
  }

  /** Position i is the letter of an apostrophe match begun at i - 1. */
  predicate Consumed(s: string, i: nat)
    requires i < |s|
  {
    i >= 1 && QuotedMatch(s, i - 1)
  }

  /** From any position the scan can reach (one not inside an apostrophe
      match), each output character is the input character, upper-cased
      exactly where StartsWord holds. */
  lemma {:induction false} GsubFromAt(s: string, p: nat)
    requires p <= |s|
    requires p < |s| ==> !Consumed(s, p)
    ensures forall k :: p <= k < |s| ==>
      GsubFrom(s, p)[k - p] == if StartsWord(s, k) then Upper(s[k]) else s[k]
    decreases |s| - p
  {
    if p < |s| {
      var r := GsubFrom(s, p);
      if QuotedMatch(s, p) {
        if p + 2 < |s| {
          GsubFromAt(s, p + 2);
        }
        assert r[2..] == GsubFrom(s, p + 2);
      } else {
        if p + 1 < |s| {
          GsubFromAt(s, p + 1);
        }
        assert r[1..] == GsubFrom(s, p + 1);
      }
    }
  }

  /** Each output character is the downcased input character, upper-cased
      exactly where a word starts. */
  lemma TransformAt(col: string, i: nat)
    requires i < |col|
    ensures Transform(col)[i] ==
      if StartsWord(Downcase(col), i) then Upper(Lower(col[i])) else Lower(col[i])
  {
    GsubFromAt(Downcase(col), 0);
  }

  /** Only letter case changes: a non-letter stays where it was, a letter
      stays the same letter, and it is upper case exactly where a word starts. */
  lemma OnlyCaseChanges(col: string, i: nat)
    requires i < |col|
    ensures !IsLetter(col[i]) ==> Transform(col)[i] == col[i]
    ensures Lower(Transform(col)[i]) == Lower(col[i])
    ensures IsLetter(col[i]) ==> (IsUpper(Transform(col)[i]) <==> StartsWord(Downcase(col), i))
  {
    TransformAt(col, i);
    if IsLetter(col[i]) && StartsWord(Downcase(col), i) {
      LowerUpper(Lower(col[i]));
    }
  }

  /** Transforming changes nothing but case, so it has the same downcased form. */
  lemma DowncaseTransform(col: string)
    ensures Downcase(Transform(col)) == Downcase(col)
  {
    forall i | 0 <= i < |col|
      ensures Lower(Transform(col)[i]) == Lower(col[i])
    {
      OnlyCaseChanges(col, i);
    }
  }

  /** Applying the transform to its own output changes nothing. */
  lemma TransformIdempotent(col: string)
    ensures Transform(Transform(col)) == Transform(col)
  {
    DowncaseTransform(col);
  }

  /** `rock'n'roll` becomes `Rock'n'roll`: the letters after the apostrophes
      follow a word character and stay lower case. */
  lemma RockAndRoll()
    ensures Transform("rock'n'roll") == "Rock'n'roll"
  {
    var s := "rock'n'roll";
    assert Downcase(s) == s;
    GsubFromAt(s, 0);
    assert StartsWord(s, 0);
    assert !StartsWord(s, 5) && !StartsWord(s, 7);
  }

  /** `line.map { |col| ... }` for every line: each row keeps its number of
      columns, and every column is transformed where it stands. */
  function TransformRows(rows: seq<seq<string>>): (out: seq<seq<string>>)
    ensures |out| == |rows|
    ensures forall i :: 0 <= i < |rows| ==> |out[i]| == |rows[i]|
    ensures forall i, j :: 0 <= i < |rows| && 0 <= j < |rows[i]| ==> |out[i][j]| == |rows[i][j]|
  {
    seq(|rows|, i requires 0 <= i < |rows| =>
      seq(|rows[i]|, j requires 0 <= j < |rows[i]| => Transform(rows[i][j])))
  }

  /** The two characters backslash and n: `'\n'` in single quotes. */
  const BackslashN: string := ['\\', 'n']

  /** `output.join('\n')`: Array#join joins the inner arrays recursively with
      the same separator. */
  function OutputText(output: seq<seq<string>>): (text: string)
    ensures output == [] ==> text == ""
    ensures |output| == 1 ==> text == Join(output[0], BackslashN)
  {
    Join(JoinEach(output, BackslashN), BackslashN)
  }

  /** With no empty row, the written text is every cell in row-major order,
      separated by backslash-n: no real newline is written between rows. */
  lemma OutputIsFlatJoin(output: seq<seq<string>>)
    requires forall i :: 0 <= i < |output| ==> output[i] != []
    ensures OutputText(output) == Join(Flatten(output), BackslashN)
  {
    JoinFlatten(output, BackslashN);
  }

  /** The written text has a real newline only where a cell holds one. */
  lemma OutputHasNoNewline(output: seq<seq<string>>)
    requires forall i, j :: 0 <= i < |output| && 0 <= j < |output[i]| ==> '\n' !in output[i][j]
    ensures '\n' !in OutputText(output)
  {
    forall i | 0 <= i < |output|
      ensures '\n' !in JoinEach(output, BackslashN)[i]
    {
      JoinAvoids(output[i], BackslashN, '\n');
    }
    JoinAvoids(JoinEach(output, BackslashN), BackslashN, '\n');
  }
}

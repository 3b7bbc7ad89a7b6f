/** The text file that `db_append_table` writes, and how LOAD DATA reads it with its
    default options: tab between fields, newline after lines, backslash to escape. */
module LoadData {
  import opened Server

  type Field = Option<string>  // None stands for NA, or NULL

  // ----- Writing -----

  /** `gsub(c, replacement, s, fixed = TRUE)` for a single character. */
  function ReplaceAll(s: string, c: char, replacement: string): string {
    if s == [] then [] else (if s[0] == c then replacement else [s[0]]) + ReplaceAll(s[1..], c, replacement)
  }

  /** The four replacements, one after the other. */
  function CsvQuoteChar(x: string): string {
    var x1 := ReplaceAll(x, '\\', "\\\\");
    var x2 := ReplaceAll(x1, '\t', "\\t");
    var x3 := ReplaceAll(x2, '\r', "\\r");
    ReplaceAll(x3, '\n', "\\n")
  }

  /** What a field looks like in the file: `write_delim` with `na = "\\N"`. */
  function Written(f: Field): string {
    if f.None? then "\\N" else CsvQuoteChar(f.value)
  }

  function WriteLine(row: seq<Field>): string
    requires row != []
  {
    if |row| == 1 then Written(row[0]) + ['\n'] else Written(row[0]) + ['\t'] + WriteLine(row[1..])
  }

  /** `write_delim` without column names. */
  function WriteFile(rows: seq<seq<Field>>): string
    requires forall i :: 0 <= i < |rows| ==> rows[i] != []
  {
    if rows == [] then [] else WriteLine(rows[0]) + WriteFile(rows[1..])
  }

  // ----- Reading -----

  /** The character that a backslash and c stand for. */
  function Unescaped(c: char): char {
    match c
    case '0' => '\0'
    case 'b' => '\U{8}'
    case 'n' => '\n'
    case 'r' => '\r'
    case 't' => '\t'
    case 'Z' => '\U{1A}'
    case _ => c
  }

  function Unescape(raw: string): string {
    if raw == [] then []
    else if raw[0] == '\\' && |raw| >= 2 then [Unescaped(raw[1])] + Unescape(raw[2..])
    else [raw[0]] + Unescape(raw[1..])
  }

  /** A raw field: the text `\N` alone is NULL. */
  function ReadField(raw: string): Field {
    if raw == "\\N" then None else Some(Unescape(raw))
  }

  /** Text up to the first tab or newline that is not escaped, and the text from there. */
  function SplitField(s: string): (r: (string, string))
    ensures s == r.0 + r.1 && (r.1 == [] || r.1[0] in {'\t', '\n'})
  {
    if s == [] || s[0] in {'\t', '\n'} then ([], s)
    else if s[0] == '\\' && |s| >= 2 then
      var (raw, rest) := SplitField(s[2..]); (s[..2] + raw, rest)
    else
      var (raw, rest) := SplitField(s[1..]); (s[..1] + raw, rest)
  }

  /** The fields read so far on the current line are `done`. */
  function ReadLines(s: string, done: seq<Field>): seq<seq<Field>>
    decreases |s|
  {
    if s == [] then (if done == [] then [] else [done])
    else
      var (raw, rest) := SplitField(s);
      var fields := done + [ReadField(raw)];
      if rest == [] then [fields]
      else if rest[0] == '\t' then
        (if |rest| == 1 then [fields + [ReadField([])]] else ReadLines(rest[1..], fields))
      else [fields] + ReadLines(rest[1..], [])
  }

  // ----- The four replacements are one simultaneous escape -----

  function EscapedChar(c: char): string {
    match c
    case '\\' => "\\\\"
    case '\t' => "\\t"
    case '\r' => "\\r"
    case '\n' => "\\n"
    case _ => [c]
  }

  function Escape(x: string): string {
    if x == [] then [] else EscapedChar(x[0]) + Escape(x[1..])
  }

  lemma Associative(a: string, b: string, c: string)
    ensures a + (b + c) == a + b + c
  {}

  lemma {:induction false} ReplaceAllConcat(a: string, b: string, c: char, replacement: string)
    ensures ReplaceAll(a + b, c, replacement) == ReplaceAll(a, c, replacement) + ReplaceAll(b, c, replacement)
    decreases |a|
  {
    if a == [] {
      assert a + b == b;
    } else {
      ReplaceAllConcat(a[1..], b, c, replacement);
      var unit := if a[0] == c then replacement else [a[0]];
      assert ReplaceAll(a + b, c, replacement) == unit + ReplaceAll(a[1..] + b, c, replacement) by {
        assert (a + b)[1..] == a[1..] + b;
      }
      Associative(unit, ReplaceAll(a[1..], c, replacement), ReplaceAll(b, c, replacement));
    }
  }

  lemma CsvQuoteConcat(a: string, b: string)
    ensures CsvQuoteChar(a + b) == CsvQuoteChar(a) + CsvQuoteChar(b)
  {
    ReplaceAllConcat(a, b, '\\', "\\\\");
    var a1, b1 := ReplaceAll(a, '\\', "\\\\"), ReplaceAll(b, '\\', "\\\\");
    ReplaceAllConcat(a1, b1, '\t', "\\t");
    var a2, b2 := ReplaceAll(a1, '\t', "\\t"), ReplaceAll(b1, '\t', "\\t");
    ReplaceAllConcat(a2, b2, '\r', "\\r");
    ReplaceAllConcat(ReplaceAll(a2, '\r', "\\r"), ReplaceAll(b2, '\r', "\\r"), '\n', "\\n");
  }

  lemma ReplaceOne(c: char, d: char, replacement: string)
    ensures ReplaceAll([c], d, replacement) == if c == d then replacement else [c]
  {
    assert ReplaceAll([c][1..], d, replacement) == [];
  }

  lemma ReplaceTwo(c1: char, c2: char, d: char, replacement: string)
    requires c1 != d && c2 != d
    ensures ReplaceAll([c1, c2], d, replacement) == [c1, c2]
  {
    ReplaceAllConcat([c1], [c2], d, replacement);
    ReplaceOne(c1, d, replacement);
    ReplaceOne(c2, d, replacement);
    assert [c1] + [c2] == [c1, c2];
  }

  lemma CsvQuoteOne(c: char)
    ensures CsvQuoteChar([c]) == EscapedChar(c)
  {
    ReplaceOne(c, '\\', "\\\\");
    ReplaceOne(c, '\t', "\\t");
    ReplaceOne(c, '\r', "\\r");
    ReplaceOne(c, '\n', "\\n");
    ReplaceTwo('\\', '\\', '\t', "\\t");
    ReplaceTwo('\\', '\\', '\r', "\\r");
    ReplaceTwo('\\', '\\', '\n', "\\n");
    ReplaceTwo('\\', 't', '\r', "\\r");
    ReplaceTwo('\\', 't', '\n', "\\n");
    ReplaceTwo('\\', 'r', '\n', "\\n");
  }

  /** Escaping backslashes first makes the order of the other three irrelevant. */
  lemma {:induction false} CsvQuoteIsEscape(x: string)
    ensures CsvQuoteChar(x) == Escape(x)
    decreases |x|
  {
    if x == [] {
    } else {
      CsvQuoteIsEscape(x[1..]);
      CsvQuoteConcat([x[0]], x[1..]);
      CsvQuoteOne(x[0]);
      assert x == [x[0]] + x[1..];
    }
  }

  // ----- What comes out of it can be read back -----

  predicate Clean(s: string) {
    forall i :: 0 <= i < |s| ==> s[i] !in {'\t', '\r', '\n'}
  }

  /** An escaped character is clean; if it starts with a backslash, no N follows. */
  lemma EscapedCharIsClean(c: char)
    ensures Clean(EscapedChar(c))
    ensures var unit := EscapedChar(c); unit[0] == '\\' ==> |unit| == 2 && unit[1] != 'N'
  {}

  /** No raw tab, carriage return or newline is left, and no string looks like NULL. */
  lemma {:induction false} EscapedIsClean(x: string)
    ensures Clean(Escape(x)) && Escape(x) != "\\N"
    decreases |x|
  {
    if x == [] {
    } else {
      EscapedIsClean(x[1..]);
      EscapedCharIsClean(x[0]);
      var unit := EscapedChar(x[0]);
      assert Escape(x) == unit + Escape(x[1..]);
      assert Escape(x)[0] == unit[0] && (|unit| == 2 ==> Escape(x)[1] == unit[1]);
    }
  }

  /** An escaped character is read as one unit, which stands for the character. */
  lemma ReadUnit(c: char, tail: string)
    ensures Unescape(EscapedChar(c) + tail) == [c] + Unescape(tail)
    ensures var (raw, rest) := SplitField(tail);
            SplitField(EscapedChar(c) + tail) == (EscapedChar(c) + raw, rest)
  {
    var unit := EscapedChar(c);
    var s := unit + tail;
    if |unit| == 1 {
      assert s[1..] == tail && s[..1] == unit;
    } else {
      assert s[2..] == tail && s[..2] == unit;
    }
  }

  lemma {:induction false} UnescapeEscape(x: string)
    ensures Unescape(Escape(x)) == x
    decreases |x|
  {
    if x == [] {
    } else {
      UnescapeEscape(x[1..]);
      ReadUnit(x[0], Escape(x[1..]));
    }
  }

  /** What each character looks like in the file, and that LOAD DATA reads it so. */
  lemma CharacterInFile(c: char)
    ensures CsvQuoteChar([c]) ==
            if c == '\\' then "\\\\" else if c == '\t' then "\\t" else if c == '\r' then "\\r"
            else if c == '\n' then "\\n" else [c]
    ensures ReadField(CsvQuoteChar([c])) == Some([c])
  {
    CsvQuoteOne(c);
    CsvQuoteIsEscape([c]);
    EscapedIsClean([c]);
    UnescapeEscape([c]);
  }

  lemma {:induction false} SplitEscaped(x: string, rest: string)
    requires rest != [] && rest[0] in {'\t', '\n'}
    ensures SplitField(Escape(x) + rest) == (Escape(x), rest)
    decreases |x|
  {
    if x == [] {
      assert Escape(x) + rest == rest;
    } else {
      SplitEscaped(x[1..], rest);
      ReadUnit(x[0], Escape(x[1..]) + rest);
      assert Escape(x) + rest == EscapedChar(x[0]) + (Escape(x[1..]) + rest);
    }
  }

  lemma ReadWritten(f: Field, rest: string)
    requires rest != [] && rest[0] in {'\t', '\n'}
    ensures SplitField(Written(f) + rest) == (Written(f), rest) && ReadField(Written(f)) == f
  {
    match f
    case None =>
      var s := "\\N" + rest;
      assert s[2..] == rest && s[..2] == "\\N";
    case Some(x) =>
      CsvQuoteIsEscape(x);
      SplitEscaped(x, rest);
      EscapedIsClean(x);
      UnescapeEscape(x);
  }

  /** Reading a written field that is followed by a newline, or by a tab and more. */
  lemma ReadOneField(f: Field, done: seq<Field>, c: char, tail: string)
    requires c in {'\t', '\n'} && (c == '\t' ==> tail != [])
    ensures ReadLines(Written(f) + [c] + tail, done) ==
            if c == '\t' then ReadLines(tail, done + [f]) else [done + [f]] + ReadLines(tail, [])
  {
    ReadWritten(f, [c] + tail);
    assert Written(f) + [c] + tail == Written(f) + ([c] + tail);
    assert ([c] + tail)[1..] == tail;
  }

  /** The first of several fields is read, and reading goes on with the others. */
  lemma ReadFirstField(row: seq<Field>, done: seq<Field>, rest: string)
    requires |row| > 1
    ensures ReadLines(WriteLine(row) + rest, done) == ReadLines(WriteLine(row[1..]) + rest, done + [row[0]])
  {
    var first, others := Written(row[0]), WriteLine(row[1..]);
    assert WriteLine(row) + rest == first + ['\t'] + (others + rest) by {
      assert WriteLine(row) == first + ['\t'] + others;
    }
    assert others != [];
    ReadOneField(row[0], done, '\t', others + rest);
  }

  lemma {:induction false} ReadWrittenLine(row: seq<Field>, done: seq<Field>, rest: string)
    requires row != []
    ensures ReadLines(WriteLine(row) + rest, done) == [done + row] + ReadLines(rest, [])
    decreases |row|
  {
    if |row| == 1 {
      ReadOneField(row[0], done, '\n', rest);
      assert row == [row[0]];
    } else {
      ReadFirstField(row, done, rest);
      ReadWrittenLine(row[1..], done + [row[0]], rest);
      assert done + [row[0]] + row[1..] == done + row;
    }
  }

  /** LOAD DATA gives back every table of strings and missing values. */
  lemma {:induction false} ReadWrittenFile(rows: seq<seq<Field>>)
    requires forall i :: 0 <= i < |rows| ==> rows[i] != []
    ensures ReadLines(WriteFile(rows), []) == rows
    decreases |rows|
  {
    if rows == [] {
    } else {
      ReadWrittenFile(rows[1..]);
      ReadWrittenLine(rows[0], [], WriteFile(rows[1..]));
      assert [] + rows[0] == rows[0];
      assert rows == [rows[0]] + rows[1..];
    }
  }
}

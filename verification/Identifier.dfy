/** Quoting identifiers with backticks, and the regular expression that takes quoted
    identifiers apart again. */
module Identifier {
  import opened Server

  const TICK: char := '`'

  // ----- Quoting -----

  /** `gsub("`", "``", x)` */
  function Double(s: string): string {
    if s == [] then [] else (if s[0] == TICK then [TICK, TICK] else [s[0]]) + Double(s[1..])
  }

  function Quote(s: string): string {
    [TICK] + Double(s) + [TICK]
  }

  /** Drops the leading `def` of a name of three components. */
  function DropDef(names: seq<string>): seq<string> {
    if |names| == 3 && names[0] == "def" then names[1..] else names
  }

  /** `paste0(..., collapse = ".")` of the quoted names. */
  function JoinQuoted(names: seq<string>): string {
    if names == [] then []
    else if |names| == 1 then Quote(names[0])
    else Quote(names[0]) + ['.'] + JoinQuoted(names[1..])
  }

  function QuoteId(names: seq<string>): string {
    JoinQuoted(DropDef(names))
  }

  // ----- The regular expression, as a relation -----

  /** `(?:[^`]|``)*`: backticks come in pairs. */
  predicate Paired(s: string) {
    if s == [] then true
    else if s[0] != TICK then Paired(s[1..])
    else |s| >= 2 && s[1] == TICK && Paired(s[2..])
  }

  /** `[^`. ]*` */
  predicate Bare(s: string) {
    forall i :: 0 <= i < |s| ==> s[i] !in {TICK, '.', ' '}
  }

  /** What an `id_rx` captures, by either of its two alternatives. */
  datatype Captured = Quoted(inner: string) | Unquoted(word: string)

  predicate Admissible(a: Captured) {
    match a
    case Quoted(inner) => inner != [] && Paired(inner)
    case Unquoted(word) => word != [] && Bare(word)
  }

  function Matched(a: Captured): string {
    match a
    case Quoted(inner) => [TICK] + inner + [TICK]
    case Unquoted(word) => word
  }

  /** What the whole expression captures: each half may be empty. */
  datatype Match = Match(schema: Option<Captured>, table: Option<Captured>)

  function MatchedText(m: Match): string {
    (if m.schema.Some? then Matched(m.schema.value) + ['.'] else []) +
    (if m.table.Some? then Matched(m.table.value) else [])
  }

  /** The expression accepts x by this match. */
  predicate Accepts(x: string, m: Match) {
    && (m.schema.Some? ==> Admissible(m.schema.value))
    && (m.table.Some? ==> Admissible(m.table.value))
    && x == MatchedText(m)
  }

  // ----- Unquoting -----

  /** `gsub("``", "`", x)` */
  function Undouble(s: string): string {
    if |s| >= 2 && s[0] == TICK && s[1] == TICK then [TICK] + Undouble(s[2..])
    else if s == [] then []
    else [s[0]] + Undouble(s[1..])
  }

  function Text(a: Option<Captured>): string {
    match a
    case None => []
    case Some(Quoted(inner)) => Undouble(inner)
    case Some(Unquoted(word)) => Undouble(word)
  }

  /** `as_table`: empty components are dropped. */
  function AsTable(schema: string, table: string): seq<string> {
    (if schema != "" then [schema] else []) + (if table != "" then [table] else [])
  }

  /** Reads a quoted name after its opening backtick: the part before the first backtick
      that is not doubled, and what follows that backtick. */
  function Scan(s: string): (r: Option<(string, string)>)
    ensures r.Some? ==> |r.value.1| < |s|
  {
    if s == [] then None
    else if s[0] != TICK then Prepend(s[..1], Scan(s[1..]))
    else if |s| >= 2 && s[1] == TICK then Prepend(s[..2], Scan(s[2..]))
    else Some(([], s[1..]))
  }

  function Prepend(front: string, r: Option<(string, string)>): Option<(string, string)> {
    if r.None? then None else Some((front + r.value.0, r.value.1))
  }

  /** The longest front without backtick, dot and blank, and the rest. */
  function ScanWord(s: string): (r: (string, string))
    ensures s == r.0 + r.1 && Bare(r.0) && (r.1 == [] || r.1[0] in {TICK, '.', ' '})
  {
    if s == [] || s[0] in {TICK, '.', ' '} then ([], s)
    else var (word, rest) := ScanWord(s[1..]); ([s[0]] + word, rest)
  }

  /** One admissible name at the front of a text, and what follows it. */
  function ParseName(s: string): Option<(Captured, string)> {
    if s == [] then None
    else if s[0] == TICK then
      var r := Scan(s[1..]);
      if r.None? || r.value.0 == [] then None else Some((Quoted(r.value.0), r.value.1))
    else
      var (word, rest) := ScanWord(s);
      if word == [] then None else Some((Unquoted(word), rest))
  }

  function Parse(x: string): Option<Match> {
    if x == [] then Some(Match(None, None))
    else
      var first := ParseName(x);
      if first.None? then None
      else
        var (name, rest) := first.value;
        if rest == [] then Some(Match(None, Some(name)))
        else if rest[0] != '.' then None
        else if |rest| == 1 then Some(Match(Some(name), None))
        else
          var second := ParseName(rest[1..]);
          if second.None? || second.value.1 != [] then None
          else Some(Match(Some(name), Some(second.value.0)))
  }

  /** `dbUnquoteIdentifier`: None is the error that the text cannot be unquoted. */
  function Unquote(x: string): Option<seq<string>> {
    var m := Parse(x);
    if m.None? then None else Some(AsTable(Text(m.value.schema), Text(m.value.table)))
  }

  // ----- The regular expression is unambiguous -----

  /** A text that goes on with something other than a name's own characters. */
  predicate Delimits(rest: string) {
    rest == [] || rest[0] == '.'
  }

  lemma {:induction false} ScanPaired(inner: string, rest: string)
    requires Paired(inner) && (rest == [] || rest[0] != TICK)
    ensures Scan(inner + [TICK] + rest) == Some((inner, rest))
    decreases |inner|
  {
    var s := inner + [TICK] + rest;
    if inner == [] {
      assert s == [TICK] + rest && s[1..] == rest;
    } else if inner[0] != TICK {
      ScanPaired(inner[1..], rest);
      assert s[1..] == inner[1..] + [TICK] + rest && s[..1] + inner[1..] == inner;
    } else {
      ScanPaired(inner[2..], rest);
      assert s[2..] == inner[2..] + [TICK] + rest && s[..2] + inner[2..] == inner;
    }
  }

  /** A character other than a backtick, or a pair of backticks, in front of paired text. */
  lemma PairedUnit(unit: string, inner: string)
    requires Paired(inner) && ((|unit| == 1 && unit[0] != TICK) || unit == [TICK, TICK])
    ensures Paired(unit + inner)
  {
    assert (unit + inner)[|unit|..] == inner;
  }

  /** What `Scan` finds: paired text, then a backtick that is not doubled. */
  predicate Scanned(s: string, inner: string, rest: string) {
    Paired(inner) && s == inner + [TICK] + rest && (rest == [] || rest[0] != TICK)
  }

  lemma ScannedUnit(unit: string, s: string, inner: string, rest: string)
    requires Scanned(s, inner, rest) && ((|unit| == 1 && unit[0] != TICK) || unit == [TICK, TICK])
    ensures Scanned(unit + s, unit + inner, rest)
  {
    PairedUnit(unit, inner);
    assert unit + (inner + [TICK] + rest) == unit + inner + [TICK] + rest;
  }

  lemma {:induction false} ScanSound(s: string)
    ensures var r := Scan(s); r.Some? ==> Scanned(s, r.value.0, r.value.1)
    decreases |s|
  {
    if s == [] {
    } else if s[0] == TICK && (|s| == 1 || s[1] != TICK) {
      assert s == [] + [TICK] + s[1..];
    } else {
      var k := if s[0] == TICK then 2 else 1;
      ScanSound(s[k..]);
      assert s == s[..k] + s[k..];
      var r := Scan(s[k..]);
      if r.Some? {
        ScannedUnit(s[..k], s[k..], r.value.0, r.value.1);
      }
    }
  }

  lemma {:induction false} ScanWordBare(word: string, rest: string)
    requires Bare(word) && Delimits(rest)
    ensures ScanWord(word + rest) == (word, rest)
    decreases |word|
  {
    if word == [] {
      assert word + rest == rest;
    } else {
      assert (word + rest)[1..] == word[1..] + rest;
      ScanWordBare(word[1..], rest);
      assert [word[0]] + word[1..] == word;
    }
  }

  lemma ParseNameComplete(a: Captured, rest: string)
    requires Admissible(a) && Delimits(rest)
    ensures ParseName(Matched(a) + rest) == Some((a, rest))
  {
    match a
    case Quoted(inner) =>
      assert (Matched(a) + rest)[1..] == inner + [TICK] + rest;
      ScanPaired(inner, rest);
    case Unquoted(word) =>
      ScanWordBare(word, rest);
  }

  lemma ParseNameSound(s: string)
    ensures var r := ParseName(s);
            r.Some? ==> Admissible(r.value.0) && s == Matched(r.value.0) + r.value.1
  {
    if s != [] && s[0] == TICK {
      ScanSound(s[1..]);
      assert s == [TICK] + s[1..];
    }
  }

  /** Every match of the expression is the one that the parser finds ... */
  lemma ParseComplete(x: string, m: Match)
    requires Accepts(x, m)
    ensures Parse(x) == Some(m)
  {
    var table := if m.table.Some? then Matched(m.table.value) else [];
    if m.table.Some? {
      ParseNameComplete(m.table.value, []);
      assert table + [] == table;
    }
    if m.schema.Some? {
      ParseNameComplete(m.schema.value, ['.'] + table);
      assert x == Matched(m.schema.value) + (['.'] + table);
      assert (['.'] + table)[1..] == table;
    } else {
      assert x == table;
    }
  }

  /** ... and what the parser finds is a match. */
  lemma ParseSound(x: string)
    requires Parse(x).Some?
    ensures Accepts(x, Parse(x).value)
  {
    if x != [] {
      ParseNameSound(x);
      var (name, rest) := ParseName(x).value;
      if rest == [] {
        assert x == Matched(name);
      } else if |rest| == 1 {
        assert rest == ['.'];
      } else {
        ParseNameSound(rest[1..]);
        TwoHalves(x, name, rest, ParseName(rest[1..]).value.0);
      }
    }
  }

  lemma TwoHalves(x: string, name: Captured, rest: string, second: Captured)
    requires x == Matched(name) + rest && rest != [] && rest[0] == '.' && rest[1..] == Matched(second) + []
    ensures x == MatchedText(Match(Some(name), Some(second)))
  {
    assert rest == ['.'] + Matched(second);
  }

  /** A text that the expression accepts splits in exactly one way, so that the captured
      groups do not depend on how the matcher searches. */
  lemma Unambiguous(x: string, m1: Match, m2: Match)
    requires Accepts(x, m1) && Accepts(x, m2)
    ensures m1 == m2
  {
    ParseComplete(x, m1);
    ParseComplete(x, m2);
  }

  // ----- Round trip -----

  lemma {:induction false} DoublePaired(s: string)
    ensures Paired(Double(s)) && (Double(s) == [] <==> s == [])
    decreases |s|
  {
    if s == [] {
    } else {
      DoublePaired(s[1..]);
      assert Double(s)[if s[0] == TICK then 2 else 1..] == Double(s[1..]);
    }
  }

  lemma {:induction false} UndoubleDouble(s: string)
    ensures Undouble(Double(s)) == s
    decreases |s|
  {
    if s == [] {
    } else {
      UndoubleDouble(s[1..]);
      assert Double(s)[if s[0] == TICK then 2 else 1..] == Double(s[1..]);
    }
  }

  lemma ParseQuoted(name: string, rest: string)
    requires Delimits(rest)
    ensures ParseName(Quote(name) + rest) == if name == "" then None else Some((Quoted(Double(name)), rest))
  {
    DoublePaired(name);
    if name != "" {
      ParseNameComplete(Quoted(Double(name)), rest);
    } else {
      assert (Quote(name) + rest)[1..] == [TICK] + rest;
      assert Scan([TICK] + rest) == Some(([], rest));
    }
  }

  lemma JoinedStarts(names: seq<string>)
    requires names != []
    ensures JoinQuoted(names) != [] && JoinQuoted(names)[0] == TICK
  {
    assert Quote(names[0])[0] == TICK;
  }

  lemma Associative(a: string, b: string, c: string)
    ensures a + b + c == a + (b + c)
  {}

  lemma JoinedDelimits(names: seq<string>)
    requires |names| > 1
    ensures JoinQuoted(names) == Quote(names[0]) + (['.'] + JoinQuoted(names[1..]))
    ensures JoinQuoted(names[1..]) != [] && JoinQuoted(names[1..])[0] == TICK
  {
    JoinedStarts(names[1..]);
    Associative(Quote(names[0]), ['.'], JoinQuoted(names[1..]));
  }

  predicate Nameable(names: seq<string>) {
    |names| <= 2 && forall i :: 0 <= i < |names| ==> names[i] != ""
  }

  lemma UnquoteParts(names: seq<string>)
    ensures Unquote(QuoteId(names)) == if Nameable(DropDef(names)) then Some(DropDef(names)) else None
  {
    var parts := DropDef(names);
    var x := QuoteId(names);
    if parts == [] {
    } else if |parts| == 1 {
      ParseQuoted(parts[0], []);
      assert x == Quote(parts[0]) + [];
      UndoubleDouble(parts[0]);
      assert parts == [parts[0]];
      if parts[0] != "" {
        assert Parse(x) == Some(Match(None, Some(Quoted(Double(parts[0])))));
        assert AsTable("", parts[0]) == [parts[0]];
      }
    } else {
      JoinedDelimits(parts);
      var tail := JoinQuoted(parts[1..]);
      ParseQuoted(parts[0], ['.'] + tail);
      UndoubleDouble(parts[0]);
      assert (['.'] + tail)[1..] == tail;
      if |parts| == 2 {
        ParseQuoted(parts[1], []);
        assert tail == Quote(parts[1]) + [];
        UndoubleDouble(parts[1]);
        assert parts == [parts[0], parts[1]] == [parts[0]] + [parts[1]];
        if parts[0] != "" && parts[1] != "" {
          assert Parse(x) == Some(Match(Some(Quoted(Double(parts[0]))), Some(Quoted(Double(parts[1])))));
        }
      } else {
        JoinedDelimits(parts[1..]);
        ParseQuoted(parts[1], ['.'] + JoinQuoted(parts[1..][1..]));
      }
    }
  }

  /** Quoting and unquoting gives back every name of at most two components, none of them
      empty, and a name of three that starts with `def` without its first component, if the
      others are not empty; any backticks, dots and blanks survive. Every other name is
      refused. */
  lemma UnquoteQuoteId(names: seq<string>)
    ensures Unquote(QuoteId(names)) ==
            if |names| <= 2 && (forall i :: 0 <= i < |names| ==> names[i] != "") then Some(names)
            else if |names| == 3 && names[0] == "def" && names[1] != "" && names[2] != "" then
              Some([names[1], names[2]])
            else None
  {
    UnquoteParts(names);
    if |names| == 3 {
      assert names[1..] == [names[1], names[2]];
      assert names[1..][0] == names[1] && names[1..][1] == names[2];
    }
  }

  /** In quoted text exactly the backticks are doubled. */
  lemma {:induction false} DoubleText(a: string, b: string)
    requires TICK !in a
    ensures Double(a) == a && Double(a + [TICK] + b) == a + [TICK, TICK] + Double(b)
    decreases |a|
  {
    if a == [] {
      assert a + [TICK] + b == [TICK] + b && ([TICK] + b)[1..] == b;
    } else {
      DoubleText(a[1..], b);
      assert (a + [TICK] + b)[1..] == a[1..] + [TICK] + b;
      assert [a[0]] + (a[1..] + [TICK, TICK] + Double(b)) == a + [TICK, TICK] + Double(b);
    }
  }

  // ----- Texts that were not made by quoting -----

  /** A component as a user may write it: as a bare word, or in backticks. */
  datatype Component = Word(name: string) | Ticked(name: string)

  predicate Writable(c: Component) {
    c.name != "" && (c.Word? ==> forall i :: 0 <= i < |c.name| ==> c.name[i] !in ['`', '.', ' '])
  }

  function Spelled(c: Component): string {
    if c.Word? then c.name else "`" + Double(c.name) + "`"
  }

  function Capture(c: Component): Captured {
    if c.Word? then Unquoted(c.name) else Quoted(Double(c.name))
  }

  lemma {:induction false} UndoublePlain(s: string)
    requires TICK !in s
    ensures Undouble(s) == s
    decreases |s|
  {
    if s == [] {
    } else {
      UndoublePlain(s[1..]);
    }
  }

  lemma CaptureSpelled(c: Component)
    requires Writable(c)
    ensures Admissible(Capture(c)) && Matched(Capture(c)) == Spelled(c) && Text(Some(Capture(c))) == c.name
  {
    match c
    case Word(name) => UndoublePlain(name);
    case Ticked(name) =>
      DoublePaired(name);
      UndoubleDouble(name);
  }

  /** A component alone, with a dot after it, or two with a dot between, each bare or in
      backticks: unquoting gives exactly the components. */
  lemma UnquoteSpelled(a: Component, b: Component)
    requires Writable(a) && Writable(b)
    ensures Unquote(Spelled(a)) == Some([a.name])
    ensures Unquote(Spelled(a) + ".") == Some([a.name])
    ensures Unquote(Spelled(a) + "." + Spelled(b)) == Some([a.name, b.name])
  {
    CaptureSpelled(a);
    CaptureSpelled(b);
    var m1, m2 := Match(None, Some(Capture(a))), Match(Some(Capture(a)), None);
    var m3 := Match(Some(Capture(a)), Some(Capture(b)));
    assert MatchedText(m1) == Spelled(a) && MatchedText(m2) == Spelled(a) + ".";
    ParseComplete(Spelled(a), m1);
    ParseComplete(Spelled(a) + ".", m2);
    ParseComplete(Spelled(a) + "." + Spelled(b), m3);
    assert [a.name] + [] == [a.name] && [] + [a.name] == [a.name] && [a.name] + [b.name] == [a.name, b.name];
  }

  /** A text without backticks that has a blank, starts with a dot or has two of them is refused. */
  lemma RefusesPlain(x: string, i: nat, j: nat)
    requires TICK !in x && i < |x| && j < |x|
    requires x[i] == ' ' || x[0] == '.' || (i < j && x[i] == '.' && x[j] == '.')
    ensures Unquote(x) == None
  {}
}

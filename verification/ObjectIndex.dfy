/** `objects.index`: one `hash TAB size LF` row for each object of a generation. */
module ObjectIndex {
  import opened Wrappers
  import opened Content
  import opened SnapshotNames

  datatype Row = Row(hash: string, size: nat)

  /** A row that capture may write. */
  predicate RowValid(row: Row) {
    ShaValid(row.hash) && row.size <= MAX_INT64
  }

  const MAX_LINE := 1048575

  // ----- decimal text -----

  function Digit(d: nat): char
    requires d < 10
  {
    ('0' as int + d) as char
  }

  function Decimal(n: nat): (s: string)
    ensures |s| > 0 && Digits(s)
  {
    if n < 10 then [Digit(n)] else Decimal(n / 10) + [Digit(n % 10)]
  }

  lemma {:induction false} DecimalValue(n: nat)
    ensures Value(Decimal(n)) == n
  {
    var s := Decimal(n);
    if n >= 10 {
      DecimalValue(n / 10);
      assert s[..|s| - 1] == Decimal(n / 10);
    } else {
      assert Value(s[..0]) == 0;
    }
  }

  /** `strconv.ParseInt(s, 10, 64)` restricted to what the index reader keeps of it: an
      optional sign, digits, and a result that is neither negative nor above 2^63-1. */
  function ParseSize(s: string): Option<nat> {
    var digits := if s != [] && (s[0] == '+' || s[0] == '-') then s[1..] else s;
    if digits == [] || !Digits(digits) || Value(digits) > MAX_INT64 then None
    else if s[0] == '-' && Value(digits) != 0 then None
    else Some(Value(digits))
  }

  // ----- lines -----

  function IndexOf(s: string, c: char): (i: nat)
    ensures i <= |s| && c !in s[..i] && (i < |s| ==> s[i] == c)
  {
    if s == [] then 0
    else if s[0] == c then 0
    else
      var j := IndexOf(s[1..], c);
      assert s[..j + 1] == [s[0]] + s[1..][..j];
      j + 1
  }

  /** `bufio.ScanLines`: lines end at LF, the last may lack it, an empty rest is no line. */
  function SplitLines(s: string): seq<string> {
    if s == [] then []
    else
      var i := IndexOf(s, '\n');
      if i == |s| then [s] else [s[..i]] + SplitLines(s[i + 1..])
  }

  function DropCR(line: string): string {
    if line != [] && line[|line| - 1] == '\r' then line[..|line| - 1] else line
  }

  /** A row of exactly two TAB-separated fields. */
  function ParseRow(raw: string): Option<Row> {
    if |raw| > MAX_LINE then None
    else
      var line := DropCR(raw);
      var i := IndexOf(line, '\t');
      if i == |line| || '\t' in line[i + 1..] || !ShaValid(line[..i]) then None
      else match ParseSize(line[i + 1..])
        case None => None
        case Some(n) => Some(Row(line[..i], n))
  }

  /** Everything one reading delivers: the rows handed to the visitor, in order, and
      whether the reading ended without an error. */
  datatype Reading = Reading(rows: seq<Row>, ok: bool)

  function Hashes(rows: seq<Row>): set<string> {
    set i | 0 <= i < |rows| :: rows[i].hash
  }

  ghost predicate Distinct(rows: seq<Row>) {
    forall i, j :: 0 <= i < j < |rows| ==> rows[i].hash != rows[j].hash
  }

  function ReadLines(lines: seq<string>, seen: set<string>): Reading {
    if lines == [] then Reading([], true)
    else match ParseRow(lines[0])
      case None => Reading([], false)
      case Some(row) =>
        if row.hash in seen then Reading([], false)
        else
          var rest := ReadLines(lines[1..], seen + {row.hash});
          Reading([row] + rest.rows, rest.ok)
  }

  function Read(text: string): Reading {
    ReadLines(SplitLines(text), {})
  }

  lemma ParsedValid(raw: string)
    ensures ParseRow(raw).Some? ==> RowValid(ParseRow(raw).value)
  {
  }

  lemma {:induction false} ReadLinesDistinct(lines: seq<string>, seen: set<string>)
    ensures var r := ReadLines(lines, seen);
            Distinct(r.rows) && Hashes(r.rows) !! seen && forall i :: 0 <= i < |r.rows| ==> RowValid(r.rows[i])
  {
    hide ParseRow, RowValid;
    if lines != [] && ParseRow(lines[0]).Some? && ParseRow(lines[0]).value.hash !in seen {
      var row := ParseRow(lines[0]).value;
      ParsedValid(lines[0]);
      ReadLinesDistinct(lines[1..], seen + {row.hash});
      var rest := ReadLines(lines[1..], seen + {row.hash});
      forall j | 0 <= j < |rest.rows| ensures rest.rows[j].hash != row.hash {
        assert rest.rows[j].hash in Hashes(rest.rows);
      }
      assert Hashes([row] + rest.rows) <= {row.hash} + Hashes(rest.rows);
    }
  }

  function After(rows: seq<Row>, rest: Reading): Reading {
    Reading(rows + rest.rows, rest.ok)
  }

  /** The reader's loop, with its map of seen hashes. */
  method ReadIndex(text: string) returns (rows: seq<Row>, ok: bool)
    ensures Reading(rows, ok) == Read(text)
    ensures Distinct(rows)
  {
    hide ParseRow, SplitLines;
    var lines := SplitLines(text);
    var seen: set<string> := {};
    rows := [];
    ReadLinesDistinct(lines, {});
    for i := 0 to |lines|
      invariant Read(text) == After(rows, ReadLines(lines[i..], seen))
    {
      assert lines[i..][0] == lines[i] && lines[i..][1..] == lines[i + 1..];
      match ParseRow(lines[i])
      case None =>
        assert Read(text).rows == rows;
        return rows, false;
      case Some(r) =>
        if r.hash in seen {
          assert Read(text).rows == rows;
          return rows, false;
        }
        var rest := ReadLines(lines[i + 1..], seen + {r.hash});
        assert rows + ([r] + rest.rows) == (rows + [r]) + rest.rows;
        seen := seen + {r.hash};
        rows := rows + [r];
    }
    ok := true;
    assert Read(text).rows == rows;
  }

  // ----- what reading means -----

  /** A decimal number as the reader takes it, with a sign or without. */
  ghost predicate Spells(text: string, n: nat) {
    exists sign, digits ::
      && text == sign + digits && sign in ["", "+", "-"] && (sign == "-" ==> n == 0)
      && digits != "" && Digits(digits) && Value(digits) == n <= 0x7fff_ffff_ffff_ffff
  }

  lemma SizeMeaning(text: string, n: nat)
    ensures ParseSize(text) == Some(n) <==> Spells(text, n)
  {
    hide Value, Digits, ParseSize, Spells;
    if ParseSize(text) == Some(n) { SizeSpelled(text, n); }
    if Spells(text, n) { SpelledSize(text, n); }
  }

  lemma SizeSpelled(text: string, n: nat)
    requires ParseSize(text) == Some(n)
    ensures Spells(text, n)
  {
    hide Value, Digits;
    var signed := text != [] && (text[0] == '+' || text[0] == '-');
    var sign, digits := if signed then [text[0]] else "", if signed then text[1..] else text;
    assert text == sign + digits;
    assert sign == "" || sign == "+" || sign == "-";
  }

  lemma SpelledSize(text: string, n: nat)
    requires Spells(text, n)
    ensures ParseSize(text) == Some(n)
  {
    hide Value;
    var sign, digits :|
      && text == sign + digits && sign in ["", "+", "-"] && (sign == "-" ==> n == 0)
      && digits != "" && Digits(digits) && Value(digits) == n <= 0x7fff_ffff_ffff_ffff;
    if sign == "" { assert text == digits; } else { assert text[1..] == digits && text[0] == sign[0]; }
  }

  lemma SpellingIsPlain(text: string, n: nat)
    requires Spells(text, n)
    ensures text != "" && '\t' !in text && text[|text| - 1] != '\r'
  {
    var sign, digits :|
      && text == sign + digits && sign in ["", "+", "-"] && (sign == "-" ==> n == 0)
      && digits != "" && Digits(digits) && Value(digits) == n <= 0x7fff_ffff_ffff_ffff;
    assert text[|text| - 1] == digits[|digits| - 1];
    forall i | 0 <= i < |text| ensures text[i] != '\t' {
      if i < |sign| { assert text[i] == sign[i]; } else { assert text[i] == digits[i - |sign|]; }
    }
  }

  ghost predicate RowSpelled(raw: string, row: Row, size: string) {
    && ShaValid(row.hash) && Spells(size, row.size)
    && (raw == row.hash + "\t" + size || raw == row.hash + "\t" + size + "\r")
  }

  /** One row: a digest, a tab, a number, and perhaps a carriage return, in a line that is not
      too long. */
  lemma RowMeaning(raw: string, row: Row)
    ensures ParseRow(raw) == Some(row) <==>
      |raw| <= 1_048_575 && exists size :: RowSpelled(raw, row, size)
  {
    hide ParseRow, RowSpelled;
    if ParseRow(raw) == Some(row) { var size := ParsedSpelled(raw, row); }
    if |raw| <= 1_048_575 && exists size :: RowSpelled(raw, row, size) {
      var size :| RowSpelled(raw, row, size);
      SpelledParses(raw, row, size);
    }
  }

  lemma ParsedSpelled(raw: string, row: Row) returns (size: string)
    requires ParseRow(raw) == Some(row)
    ensures |raw| <= 1_048_575 && RowSpelled(raw, row, size)
  {
    hide Spells, ParseSize, ShaValid;
    var line := DropCR(raw);
    var i := IndexOf(line, '\t');
    size := line[i + 1..];
    assert line == line[..i] + "\t" + size;
    SizeMeaning(size, row.size);
    assert raw == line || raw == line + "\r";
  }

  lemma SpelledParses(raw: string, row: Row, size: string)
    requires |raw| <= 1_048_575 && RowSpelled(raw, row, size)
    ensures ParseRow(raw) == Some(row)
  {
    hide Spells, ParseSize;
    SpellingIsPlain(size, row.size);
    SizeMeaning(size, row.size);
    var line := row.hash + ['\t'] + size;
    assert line[|line| - 1] == size[|size| - 1];
    assert DropCR(raw) == line;
    assert '\t' !in row.hash;
    IndexOfFirst(row.hash, '\t', size);
    assert line[..64] == row.hash && line[65..] == size;
  }

  function Unlines(lines: seq<string>): string {
    if lines == [] then "" else lines[0] + "\n" + Unlines(lines[1..])
  }

  lemma {:induction false} LinesPlain(text: string)
    ensures forall i :: 0 <= i < |SplitLines(text)| ==> '\n' !in SplitLines(text)[i]
  {
    hide IndexOf;
    if text != [] {
      var i := IndexOf(text, '\n');
      if i < |text| {
        LinesPlain(text[i + 1..]);
      } else {
        assert text[..i] == text;
      }
    }
  }

  ghost predicate JoinedAs(lines: seq<string>, text: string) {
    || text == Unlines(lines)
    || (lines != [] && lines[|lines| - 1] != "" && text + "\n" == Unlines(lines))
  }

  lemma JoinedFront(line: string, rest: seq<string>, text: string)
    requires JoinedAs(rest, text)
    ensures JoinedAs([line] + rest, line + "\n" + text)
  {
    hide Unlines;
    UnlinesFront(line, rest);
    assert line + "\n" + text + "\n" == line + "\n" + (text + "\n");
  }

  lemma {:induction false} LinesJoined(text: string)
    ensures JoinedAs(SplitLines(text), text)
  {
    hide IndexOf, Unlines, JoinedAs;
    if text == [] {
      assert JoinedAs([], "") by { NoLinesJoined(); }
    } else {
      var i := IndexOf(text, '\n');
      if i == |text| {
        LastJoined(text);
      } else {
        LinesJoined(text[i + 1..]);
        JoinedFront(text[..i], SplitLines(text[i + 1..]), text[i + 1..]);
        assert text == text[..i] + "\n" + text[i + 1..];
      }
    }
  }

  lemma NoLinesJoined()
    ensures JoinedAs([], "")
  {
  }

  lemma LastJoined(text: string)
    requires text != ""
    ensures JoinedAs([text], text)
  {
    UnlinesFront(text, []);
    assert [text] + [] == [text];
  }

  /** Lines are what stands between newlines; the last may lack its own, if it is not empty. */
  lemma LinesMeaning(text: string)
    ensures var lines := SplitLines(text);
      && (forall i :: 0 <= i < |lines| ==> '\n' !in lines[i])
      && (text == Unlines(lines) ||
          (lines != [] && lines[|lines| - 1] != "" && text + "\n" == Unlines(lines)))
  {
    hide SplitLines, Unlines;
    LinesPlain(text);
    LinesJoined(text);
  }

  lemma UnlinesFront(line: string, rest: seq<string>)
    ensures Unlines([line] + rest) == line + "\n" + Unlines(rest)
    ensures rest == [] ==> Unlines([line] + rest) == line + "\n"
  {
    assert ([line] + rest)[1..] == rest;
  }

  lemma {:induction false} ReadLinesMeaning(lines: seq<string>, seen: set<string>)
    ensures var r := ReadLines(lines, seen);
      && |r.rows| <= |lines| && (r.ok <==> |r.rows| == |lines|)
      && (forall i :: 0 <= i < |r.rows| ==> ParseRow(lines[i]) == Some(r.rows[i]))
      && (!r.ok ==>
            var next := ParseRow(lines[|r.rows|]);
            next == None || next.value.hash in seen || next.value.hash in Hashes(r.rows))
  {
    hide ParseRow;
    if lines != [] && ParseRow(lines[0]).Some? && ParseRow(lines[0]).value.hash !in seen {
      var row := ParseRow(lines[0]).value;
      var rest := ReadLines(lines[1..], seen + {row.hash});
      ReadLinesMeaning(lines[1..], seen + {row.hash});
      HashesFront(row, rest.rows);
    }
  }

  lemma HashesFront(row: Row, rows: seq<Row>)
    ensures Hashes([row] + rows) == {row.hash} + Hashes(rows)
  {
    var all := [row] + rows;
    assert all[0] == row;
    forall h | h in Hashes(rows) ensures h in Hashes(all) {
      var i :| 0 <= i < |rows| && rows[i].hash == h;
      assert all[i + 1] == rows[i];
    }
  }

  /** The rows delivered are those of the first lines, each with a digest of its own; the reading
      ends well if that is every line, and otherwise the next line is no row or repeats a digest. */
  lemma ReadMeaning(text: string)
    ensures var lines, r := SplitLines(text), Read(text);
      && |r.rows| <= |lines| && (r.ok <==> |r.rows| == |lines|)
      && (forall i :: 0 <= i < |r.rows| ==> ParseRow(lines[i]) == Some(r.rows[i]))
      && (forall i, j :: 0 <= i < j < |r.rows| ==> r.rows[i].hash != r.rows[j].hash)
      && (!r.ok ==>
            var next := ParseRow(lines[|r.rows|]);
            next == None || exists i :: 0 <= i < |r.rows| && r.rows[i].hash == next.value.hash)
  {
    hide ParseRow;
    ReadLinesMeaning(SplitLines(text), {});
    ReadLinesDistinct(SplitLines(text), {});
  }

  // ----- writing -----

  function WriteRow(row: Row): string {
    row.hash + "\t" + Decimal(row.size) + "\n"
  }

  /** What capture writes. */
  function Write(rows: seq<Row>): string {
    if rows == [] then "" else WriteRow(rows[0]) + Write(rows[1..])
  }

  lemma {:induction false} IndexOfFirst(a: string, c: char, b: string)
    requires c !in a
    ensures IndexOf(a + [c] + b, c) == |a|
  {
    if a != [] {
      IndexOfFirst(a[1..], c, b);
      assert (a + [c] + b)[1..] == a[1..] + [c] + b;
    }
  }

  function Pow10(k: nat): nat {
    if k == 0 then 1 else 10 * Pow10(k - 1)
  }

  lemma {:induction false} DecimalLength(n: nat, k: nat)
    requires k >= 1 && n < Pow10(k)
    ensures |Decimal(n)| <= k
  {
    if n >= 10 && k > 1 {
      DecimalLength(n / 10, k - 1);
    }
  }

  lemma Pow10Nineteen()
    ensures Pow10(19) == 10_000_000_000_000_000_000
  {
    assert Pow10(5) == 100_000;
    assert Pow10(10) == 10_000_000_000 by { assert Pow10(7) == 10_000_000; }
    assert Pow10(15) == 1_000_000_000_000_000 by { assert Pow10(12) == 1_000_000_000_000; }
    assert Pow10(17) == 100_000_000_000_000_000;
  }

  lemma RowParses(row: Row)
    requires RowValid(row)
    ensures var line := row.hash + "\t" + Decimal(row.size);
            '\n' !in line && ParseRow(line) == Some(row)
  {
    var d := Decimal(row.size);
    var line := row.hash + "\t" + d;
    assert forall i :: 0 <= i < |d| ==> '0' <= d[i] <= '9';
    assert line[|line| - 1] == d[|d| - 1];
    assert DropCR(line) == line;
    assert line == row.hash + ['\t'] + d;
    IndexOfFirst(row.hash, '\t', d);
    assert line[..64] == row.hash && line[65..] == d;
    DecimalValue(row.size);
    assert |d| <= MAX_LINE - 65 by { Pow10Nineteen(); DecimalLength(row.size, 19); }
  }

  lemma FirstLine(rows: seq<Row>)
    requires rows != [] && RowValid(rows[0])
    ensures var line := rows[0].hash + "\t" + Decimal(rows[0].size);
      SplitLines(Write(rows)) == [line] + SplitLines(Write(rows[1..])) && ParseRow(line) == Some(rows[0])
  {
    hide ParseRow, Decimal, ShaValid;
    var line, rest := rows[0].hash + "\t" + Decimal(rows[0].size), Write(rows[1..]);
    RowParses(rows[0]);
    assert Write(rows) == line + ['\n'] + rest;
    IndexOfFirst(line, '\n', rest);
    assert Write(rows)[..|line|] == line && Write(rows)[|line| + 1..] == rest;
  }

  lemma LaterHashes(rows: seq<Row>, seen: set<string>)
    requires rows != [] && Distinct(rows) && Hashes(rows) !! seen
    ensures rows[0].hash !in seen && Distinct(rows[1..]) && Hashes(rows[1..]) !! seen + {rows[0].hash}
  {
    assert rows[0].hash in Hashes(rows);
    forall h | h in Hashes(rows[1..]) ensures h in Hashes(rows) && h != rows[0].hash {
      var j :| 0 <= j < |rows[1..]| && rows[1..][j].hash == h;
      assert rows[j + 1].hash == h;
    }
  }

  /** Reading back what was written gives the rows, in order, exactly when no hash repeats. */
  lemma {:induction false} RoundTripFrom(rows: seq<Row>, seen: set<string>)
    requires forall i :: 0 <= i < |rows| ==> RowValid(rows[i])
    requires Distinct(rows) && Hashes(rows) !! seen
    ensures ReadLines(SplitLines(Write(rows)), seen) == Reading(rows, true)
  {
    hide ParseRow, Decimal, RowValid, Distinct, Hashes, Write, WriteRow;
    if rows == [] {
      NothingWritten();
    } else {
      FirstLine(rows);
      LaterHashes(rows, seen);
      RoundTripFrom(rows[1..], seen + {rows[0].hash});
      var line := rows[0].hash + "\t" + Decimal(rows[0].size);
      assert ([line] + SplitLines(Write(rows[1..])))[1..] == SplitLines(Write(rows[1..]));
    }
  }

  lemma NothingWritten()
    ensures SplitLines(Write([])) == []
  {
  }

  lemma RoundTrip(rows: seq<Row>)
    requires forall i :: 0 <= i < |rows| ==> RowValid(rows[i])
    ensures Read(Write(rows)) == Reading(rows, true) <==> Distinct(rows)
  {
    ReadLinesDistinct(SplitLines(Write(rows)), {});
    if Distinct(rows) { RoundTripFrom(rows, {}); }
  }
}

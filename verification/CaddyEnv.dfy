/** The fixed-key `.env` file: reading the managed values, and rewriting only them. */
module CaddyEnv {
  import opened Wrappers

  const KEYS: seq<string> := ["XD_DOMAIN", "XD_LAN_HTTPS_IP", "ALIYUN_ACCESS_KEY_ID", "ALIYUN_ACCESS_KEY_SECRET"]

  type Values = map<string, string>

  /** A value for each managed key, and no other. */
  ghost predicate Full(v: Values) {
    forall k :: k in v <==> k in KEYS
  }

  // ----- lines, as `str.splitlines(keepends=True)` cuts them -----

  predicate Break(c: char) {
    || c == '\n' || c == '\r' || c == '\U{0b}' || c == '\U{0c}' || c == '\U{1c}' || c == '\U{1d}' || c == '\U{1e}'
    || c == '\U{85}' || c == '\U{2028}' || c == '\U{2029}'
  }

  function LineEnd(s: string): (n: nat)
    ensures n <= |s| && (s != [] ==> n > 0)
  {
    if s == [] then 0
    else if s[0] == '\r' && |s| > 1 && s[1] == '\n' then 2
    else if Break(s[0]) then 1
    else 1 + LineEnd(s[1..])
  }

  function SplitLines(s: string): seq<string> {
    if s == [] then [] else [s[..LineEnd(s)]] + SplitLines(s[LineEnd(s)..])
  }

  function Flatten(lines: seq<string>): string {
    if lines == [] then "" else Flatten(lines[..|lines| - 1]) + lines[|lines| - 1]
  }

  /** `a` can be followed by `b` without the two changing how either is cut. */
  predicate Seam(a: string, b: string) {
    a == [] || b == [] || (Break(a[|a| - 1]) && !(a[|a| - 1] == '\r' && b[0] == '\n'))
  }

  lemma {:induction false} LineEndConcat(a: string, b: string)
    requires a != [] && Seam(a, b)
    ensures LineEnd(a + b) == LineEnd(a)
  {
    if b == [] {
      assert a + b == a;
    } else if !(a[0] == '\r' && |a| > 1 && a[1] == '\n') && !Break(a[0]) {
      assert |a| > 1;
      LineEndConcat(a[1..], b);
      assert (a + b)[1..] == a[1..] + b;
    }
  }

  lemma {:induction false} SplitConcat(a: string, b: string)
    requires Seam(a, b)
    ensures SplitLines(a + b) == SplitLines(a) + SplitLines(b)
    decreases |a|
  {
    if a == [] {
      assert a + b == b;
    } else {
      var n := LineEnd(a);
      LineEndConcat(a, b);
      assert (a + b)[..n] == a[..n] && (a + b)[n..] == a[n..] + b;
      SplitConcat(a[n..], b);
    }
  }

  /** One line of a cut text: a break can only end it. */
  ghost predicate IsLine(line: string) {
    line != [] && LineEnd(line) == |line|
  }

  lemma LineIsItself(line: string)
    requires IsLine(line)
    ensures SplitLines(line) == [line]
  {
    assert line[..|line|] == line && line[|line|..] == [];
  }

  lemma {:induction false} LineEndStable(s: string)
    requires s != []
    ensures LineEnd(s[..LineEnd(s)]) == LineEnd(s)
    ensures LineEnd(s) < |s| ==> Seam(s[..LineEnd(s)], s[LineEnd(s)..])
  {
    var n := LineEnd(s);
    if !(s[0] == '\r' && |s| > 1 && s[1] == '\n') && !Break(s[0]) && |s| > 1 {
      LineEndStable(s[1..]);
      assert s[..n][1..] == s[1..][..n - 1];
      assert s[1..][n - 1..] == s[n..];
    }
  }

  /** Cutting a text yields lines, each but the last ended by a break that the next does not
      continue, and loses nothing. */
  lemma {:induction false} SplitFacts(s: string)
    ensures forall i :: 0 <= i < |SplitLines(s)| ==> IsLine(SplitLines(s)[i])
    ensures forall i :: 0 <= i < |SplitLines(s)| - 1 ==> Seam(SplitLines(s)[i], SplitLines(s)[i + 1])
    ensures Flatten(SplitLines(s)) == s
    decreases |s|
  {
    if s != [] {
      var n := LineEnd(s);
      var head, rest := s[..n], SplitLines(s[n..]);
      LineEndStable(s);
      SplitFacts(s[n..]);
      FlattenFront(head, rest);
      assert head + s[n..] == s;
      if n < |s| {
        FirstOfSplit(s[n..]);
      }
    }
  }

  lemma FirstOfSplit(s: string)
    requires s != []
    ensures SplitLines(s) != [] && SplitLines(s)[0] != [] && SplitLines(s)[0][0] == s[0]
  {
  }

  lemma {:induction false} FlattenFront(head: string, rest: seq<string>)
    ensures Flatten([head] + rest) == head + Flatten(rest)
  {
    if rest == [] {
      assert [head] + rest == [head] && [head][..0] == [];
      assert Flatten([head]) == "" + head;
    } else {
      var k := |rest| - 1;
      FlattenFront(head, rest[..k]);
      assert ([head] + rest)[..|rest|] == [head] + rest[..k];
    }
  }

  // ----- one line -----

  predicate Identifier(s: string) {
    && s != [] && !('0' <= s[0] <= '9')
    && forall i :: 0 <= i < |s| ==> 'A' <= s[i] <= 'Z' || 'a' <= s[i] <= 'z' || '0' <= s[i] <= '9' || s[i] == '_'
  }

  function IndexOf(s: string, c: char): (i: nat)
    ensures i <= |s| && c !in s[..i] && (i < |s| ==> s[i] == c)
  {
    if s == [] || s[0] == c then 0
    else
      var j := IndexOf(s[1..], c);
      assert s[..j + 1] == [s[0]] + s[1..][..j];
      j + 1
  }

  function Chomp(s: string): string {
    if s == [] || s[|s| - 1] != '\n' then s
    else if |s| > 1 && s[|s| - 2] == '\r' then s[..|s| - 2]
    else s[..|s| - 1]
  }

  /** `NAME=value`, with the line's newline taken off the value. */
  function MatchLine(line: string): Option<(string, string)> {
    var i := IndexOf(line, '=');
    if i == |line| || !Identifier(line[..i]) || '\n' in Chomp(line[i + 1..]) then None
    else Some((line[..i], Chomp(line[i + 1..])))
  }

  predicate ManagedLine(line: string) {
    MatchLine(line).Some? && MatchLine(line).value.0 in KEYS
  }

  predicate Quoted(v: string) {
    |v| >= 2 && v[0] == '"' && v[|v| - 1] == '"'
  }

  /** One pair of quotes is taken off. */
  function Unquote(v: string): string {
    if Quoted(v) then v[1..|v| - 1] else v
  }

  predicate ValueOk(v: string) {
    '\0' !in v && '\r' !in v && '\n' !in v
  }

  // ----- parse -----

  /** The managed lines found, unless one repeats or has a value that cannot be kept. */
  function Scan(lines: seq<string>): Option<Values> {
    if lines == [] then Some(map[])
    else
      var before, line := Scan(lines[..|lines| - 1]), lines[|lines| - 1];
      if before == None || !ManagedLine(line) then before
      else
        var (key, value) := MatchLine(line).value;
        if key in before.value || !ValueOk(Unquote(value)) then None
        else Some(before.value[key := Unquote(value)])
  }

  function Complete(found: Values): Values {
    map k | k in KEYS :: if k in found then found[k] else ""
  }

  function Parse(text: string): Option<Values> {
    match Scan(SplitLines(text))
    case None => None
    case Some(found) => Some(Complete(found))
  }

  lemma {:induction false} ScanPrefixFails(lines: seq<string>, i: nat)
    requires i <= |lines| && Scan(lines[..i]) == None
    ensures Scan(lines) == None
  {
    if i < |lines| {
      assert lines[..|lines| - 1][..i] == lines[..i];
      ScanPrefixFails(lines[..|lines| - 1], i);
    } else {
      assert lines[..i] == lines;
    }
  }

  lemma CompleteStep(found: Values, key: string, v: string)
    requires key in KEYS
    ensures Complete(found[key := v]) == Complete(found)[key := v]
  {
    hide KEYS;
  }

  lemma CompleteNone()
    ensures Complete(map[]) == map k | k in KEYS :: ""
  {
    hide KEYS;
  }

  method ParseEnv(text: string) returns (r: Option<Values>)
    ensures r == Parse(text)
  {
    hide MatchLine, Unquote, ValueOk, SplitLines, KEYS, Complete;
    var lines := SplitLines(text);
    var values: Values := map k | k in KEYS :: "";
    var seen: Values := map[];
    CompleteNone();
    for i := 0 to |lines|
      invariant Scan(lines[..i]) == Some(seen)
      invariant values == Complete(seen)
    {
      assert lines[..i + 1][..i] == lines[..i];
      if ManagedLine(lines[i]) {
        var (key, value) := MatchLine(lines[i]).value;
        if key in seen || !ValueOk(Unquote(value)) {
          ScanPrefixFails(lines, i + 1);
          return None;
        }
        CompleteStep(seen, key, Unquote(value));
        seen := seen[key := Unquote(value)];
        values := values[key := Unquote(value)];
      }
    }
    assert lines[..|lines|] == lines;
    r := Some(values);
  }

  // ----- render -----

  predicate HasCRLF(text: string) {
    exists i :: 0 <= i < |text| - 1 && text[i] == '\r' && text[i + 1] == '\n'
  }

  function Ending(text: string): string {
    if HasCRLF(text) then "\r\n" else "\n"
  }

  predicate IsEnding(e: string) {
    e == "\r\n" || e == "\n"
  }

  function Assignment(key: string, value: string, ending: string): string {
    key + "=" + value + ending
  }

  function Valued(u: Values, key: string): string {
    if key in u then u[key] else ""
  }

  /** A managed line is rewritten; any other stays as it is. */
  function Piece(line: string, u: Values, ending: string): string {
    if ManagedLine(line) then Assignment(MatchLine(line).value.0, Valued(u, MatchLine(line).value.0), ending) else line
  }

  function Pieces(lines: seq<string>, u: Values, ending: string): seq<string> {
    if lines == [] then [] else Pieces(lines[..|lines| - 1], u, ending) + [Piece(lines[|lines| - 1], u, ending)]
  }

  predicate EndsInNewline(s: string) {
    s != [] && s[|s| - 1] == '\n'
  }

  /** The newline that the last piece may lack. */
  function Closing(pieces: seq<string>, ending: string): string {
    if pieces == [] || EndsInNewline(pieces[|pieces| - 1]) then "" else ending
  }

  /** The keys among the first few that the text did not have. */
  function Missing(found: set<string>, u: Values, ending: string, keys: seq<string>): string {
    if keys == [] then ""
    else
      var key := keys[|keys| - 1];
      Missing(found, u, ending, keys[..|keys| - 1])
        + (if key in found then "" else Assignment(key, Valued(u, key), ending))
  }

  function ManagedKeys(lines: seq<string>): set<string> {
    if lines == [] then {}
    else
      var line := lines[|lines| - 1];
      ManagedKeys(lines[..|lines| - 1]) + if ManagedLine(line) then {MatchLine(line).value.0} else {}
  }

  function Render(text: string, u: Values): string {
    var lines, ending := SplitLines(text), Ending(text);
    var pieces := Pieces(lines, u, ending);
    Flatten(pieces) + Closing(pieces, ending) + Missing(ManagedKeys(lines), u, ending, KEYS)
  }

  /** The first loop: managed lines are rewritten. */
  method RewriteLines(lines: seq<string>, u: Values, ending: string) returns (result: seq<string>, seen: set<string>)
    ensures result == Pieces(lines, u, ending) && seen == ManagedKeys(lines)
  {
    hide MatchLine, KEYS;
    seen, result := {}, [];
    for i := 0 to |lines|
      invariant seen == ManagedKeys(lines[..i]) && result == Pieces(lines[..i], u, ending)
    {
      assert lines[..i + 1][..i] == lines[..i];
      if ManagedLine(lines[i]) {
        var key := MatchLine(lines[i]).value.0;
        seen := seen + {key};
        result := result + [Assignment(key, Valued(u, key), ending)];
      } else {
        result := result + [lines[i]];
      }
    }
    assert lines[..|lines|] == lines;
  }

  /** The second loop: keys that had no line get one. */
  method AppendMissing(body: string, seen: set<string>, u: Values, ending: string) returns (output: string)
    ensures output == body + Missing(seen, u, ending, KEYS)
  {
    hide KEYS, Assignment, Valued;
    output := body;
    for i := 0 to |KEYS|
      invariant output == body + Missing(seen, u, ending, KEYS[..i])
    {
      assert KEYS[..i + 1][..i] == KEYS[..i];
      if KEYS[i] !in seen {
        output := output + Assignment(KEYS[i], Valued(u, KEYS[i]), ending);
      }
    }
    assert KEYS[..|KEYS|] == KEYS;
  }

  /** `render` first parses the text, and so refuses what cannot be parsed. */
  method RenderEnv(text: string, u: Values) returns (r: Option<string>)
    ensures r == if Parse(text) == None then None else Some(Render(text, u))
  {
    hide SplitLines, Ending, KEYS, Pieces, ManagedKeys, Missing, Parse, Flatten;
    var values := ParseEnv(text);
    if values == None {
      return None;
    }
    var lines, ending := SplitLines(text), Ending(text);
    var result, seen := RewriteLines(lines, u, ending);
    var output := Flatten(result);
    if result != [] && !EndsInNewline(result[|result| - 1]) {
      output := output + ending;
    }
    assert output == Flatten(result) + Closing(result, ending);
    output := AppendMissing(output, seen, u, ending);
    r := Some(output);
  }

  // ----- reading back what was rendered -----

  /** A value that fits on one line: what `parse` can return for a key. */
  predicate Writable(v: string) {
    ValueOk(v) && forall i :: 0 <= i < |v| - 1 ==> !Break(v[i])
  }

  ghost predicate AllWritable(u: Values) {
    forall k :: k in KEYS ==> Writable(Valued(u, k))
  }

  /** What is read back for the keys written so far. */
  function ReadBack(found: set<string>, u: Values): Values {
    map k | k in found :: Unquote(Valued(u, k))
  }

  lemma {:induction false} ScanConcat(a: seq<string>, b: seq<string>)
    requires Scan(a).Some? && Scan(b).Some? && Scan(a).value.Keys !! Scan(b).value.Keys
    ensures Scan(a + b) == Some(Scan(a).value + Scan(b).value)
  {
    hide MatchLine, Unquote, ValueOk, KEYS;
    if b == [] {
      assert a + b == a;
      assert Scan(b).value == map[] && Scan(a).value + map[] == Scan(a).value;
    } else {
      var k := |b| - 1;
      assert (a + b)[..|a + b| - 1] == a + b[..k] && (a + b)[|a + b| - 1] == b[k];
      ScanStep(b);
      assert Scan(b[..k]).Some? && Scan(b[..k]).value.Keys <= Scan(b).value.Keys;
      ScanStep(a + b);
      ScanConcat(a, b[..k]);
      if ManagedLine(b[k]) {
        var (key, value) := MatchLine(b[k]).value;
        assert key in Scan(b).value;
        MapExtend(Scan(a).value, Scan(b[..k]).value, key, Unquote(value));
      }
    }
  }

  /** What the last line contributes. */
  lemma ScanStep(lines: seq<string>)
    requires lines != []
    ensures var before, line := Scan(lines[..|lines| - 1]), lines[|lines| - 1];
      Scan(lines) ==
        if before == None || !ManagedLine(line) then before
        else if MatchLine(line).value.0 in before.value || !ValueOk(Unquote(MatchLine(line).value.1)) then None
        else Some(before.value[MatchLine(line).value.0 := Unquote(MatchLine(line).value.1)])
  {
    hide MatchLine, Unquote, ValueOk, KEYS;
  }

  lemma MapExtend(a: Values, b: Values, key: string, v: string)
    requires key !in a
    ensures (a + b)[key := v] == a + b[key := v]
  {
  }

  lemma {:induction false} ScanKeys(lines: seq<string>)
    requires Scan(lines).Some?
    ensures Scan(lines).value.Keys == ManagedKeys(lines)
  {
    hide MatchLine, Unquote, ValueOk;
    if lines != [] { ScanKeys(lines[..|lines| - 1]); }
  }

  lemma {:induction false} LineEndNoBreak(s: string)
    requires s != [] && forall i :: 0 <= i < |s| - 1 ==> !Break(s[i])
    ensures LineEnd(s) == |s|
  {
    if |s| > 1 { LineEndNoBreak(s[1..]); }
  }

  lemma {:induction false} LineEndAtEnding(s: string, e: string)
    requires IsEnding(e) && forall i :: 0 <= i < |s| ==> !Break(s[i])
    ensures LineEnd(s + e) == |s| + |e|
  {
    if s == [] {
      assert s + e == e;
    } else {
      assert (s + e)[1..] == s[1..] + e;
      LineEndAtEnding(s[1..], e);
    }
  }

  predicate PlainKey(k: string) {
    Identifier(k) && '=' !in k && forall i :: 0 <= i < |k| ==> !Break(k[i])
  }

  predicate CapitalName(k: string) {
    k != [] && forall i :: 0 <= i < |k| ==> 'A' <= k[i] <= 'Z' || k[i] == '_'
  }

  lemma CapitalIsPlain(k: string)
    requires CapitalName(k)
    ensures PlainKey(k)
  {
  }

  lemma KeysArePlain()
    ensures forall k :: k in KEYS ==> PlainKey(k)
  {
    hide PlainKey;
    assert CapitalName("XD_DOMAIN") && CapitalName("XD_LAN_HTTPS_IP");
    assert CapitalName("ALIYUN_ACCESS_KEY_ID");
    assert CapitalName("ALIYUN_ACCESS_KEY_SECRET");
    forall k | k in KEYS ensures PlainKey(k) {
      assert k == KEYS[0] || k == KEYS[1] || k == KEYS[2] || k == KEYS[3];
      CapitalIsPlain(k);
    }
  }

  lemma {:induction false} IndexOfFirst(a: string, c: char, b: string)
    requires c !in a
    ensures IndexOf(a + [c] + b, c) == |a|
  {
    if a != [] {
      assert (a + [c] + b)[1..] == a[1..] + [c] + b;
      IndexOfFirst(a[1..], c, b);
    }
  }

  /** What an assignment's line matches, with or without its newline. */
  lemma AssignmentMatches(key: string, v: string, e: string)
    requires key in KEYS && Writable(v) && (IsEnding(e) || (e == "" && v != []))
    ensures MatchLine(Assignment(key, v, e)) == Some((key, v))
  {
    hide Identifier, KEYS, Chomp, IndexOf, ValueOk;
    KeysArePlain();
    ChompsTo(v, e);
    var line := Assignment(key, v, e);
    assert line == key + ['='] + (v + e);
    IndexOfFirst(key, '=', v + e);
    assert line[|key| + 1..] == v + e && line[..|key|] == key;
  }

  lemma ChompsTo(v: string, e: string)
    requires Writable(v) && (IsEnding(e) || (e == "" && v != []))
    ensures Chomp(v + e) == v && '\n' !in v
  {
    assert v != [] ==> v[|v| - 1] in v;
  }

  lemma EndingIsBlank(e: string)
    requires IsEnding(e)
    ensures SplitLines(e) == [e] && MatchLine(e) == None && Scan([e]) == Some(map[])
  {
    assert LineEnd(e) == |e| by { LineEndAtEnding("", e); assert "" + e == e; }
    LineIsItself(e);
    assert forall i :: 0 <= i < |e| ==> e[i] != '=';
    assert [e][..0] == [];
  }

  lemma ScanOne(line: string, key: string, v: string)
    requires MatchLine(line) == Some((key, v)) && key in KEYS && ValueOk(v)
    ensures Scan([line]) == Some(map[key := Unquote(v)])
  {
    assert [line][..0] == [];
    assert ValueOk(Unquote(v));
  }

  lemma EqualsIsNoBreak(key: string, v: string)
    requires key in KEYS
    ensures forall i :: 0 <= i <= |key| ==> !Break((key + "=" + v)[i])
  {
    hide KEYS;
    KeysArePlain();
    assert PlainKey(key);
    forall i | 0 <= i <= |key| ensures !Break((key + "=" + v)[i]) {
      assert (key + "=" + v)[i] == if i < |key| then key[i] else '=';
    }
  }

  /** A rewritten assignment reads back as its value, unquoted. */
  lemma AssignmentScans(key: string, v: string, e: string)
    requires key in KEYS && Writable(v) && IsEnding(e)
    ensures Scan(SplitLines(Assignment(key, v, e))) == Some(map[key := Unquote(v)])
  {
    hide MatchLine, Unquote, Break, KEYS;
    var head := key + "=" + v;
    EqualsIsNoBreak(key, v);
    assert Assignment(key, v, e) == head + e;
    if v != [] && Break(v[|v| - 1]) {
      EndingIsBlank(e);
      LineEndNoBreak(head);
      LineIsItself(head);
      assert v[|v| - 1] in v;
      SplitConcat(head, e);
      assert Assignment(key, v, "") == head;
      AssignmentMatches(key, v, "");
      ScanOne(head, key, v);
      ScanConcat([head], [e]);
      assert map[key := Unquote(v)] + map[] == map[key := Unquote(v)];
    } else {
      LineEndAtEnding(head, e);
      LineIsItself(head + e);
      AssignmentMatches(key, v, e);
      ScanOne(head + e, key, v);
    }
  }

  /** The text of the unmanaged lines, in order. */
  function KeptText(lines: seq<string>): string {
    if lines == [] then ""
    else KeptText(lines[..|lines| - 1]) + if ManagedLine(lines[|lines| - 1]) then "" else lines[|lines| - 1]
  }

  ghost predicate NoBreaks(u: Values) {
    forall k, i :: k in KEYS && 0 <= i < |Valued(u, k)| ==> !Break(Valued(u, k)[i])
  }

  lemma {:induction false} KeptConcat(a: seq<string>, b: seq<string>)
    ensures KeptText(a + b) == KeptText(a) + KeptText(b)
  {
    hide ManagedLine;
    if b == [] {
      assert a + b == a;
    } else {
      assert (a + b)[..|a + b| - 1] == a + b[..|b| - 1];
      KeptConcat(a, b[..|b| - 1]);
    }
  }

  lemma KeptOne(line: string)
    ensures KeptText([line]) == if ManagedLine(line) then "" else line
  {
    hide ManagedLine;
    assert [line][..0] == [];
  }

  /** What a text says: its managed values, and the text of its other lines. */
  ghost predicate Says(text: string, values: Values, kept: string) {
    Scan(SplitLines(text)) == Some(values) && KeptText(SplitLines(text)) == kept
  }

  lemma SaysConcat(a: string, b: string, u: Values, v: Values, x: string, y: string)
    requires Seam(a, b) && Says(a, u, x) && Says(b, v, y) && u.Keys !! v.Keys
    ensures Says(a + b, u + v, x + y)
  {
    hide Scan, KeptText, SplitLines;
    SplitConcat(a, b);
    ScanConcat(SplitLines(a), SplitLines(b));
    KeptConcat(SplitLines(a), SplitLines(b));
  }

  lemma SaysNothing()
    ensures Says("", map[], "")
  {
  }

  /** What is left over of an assignment whose value ends in an unusual line break. */
  function Leftover(v: string, e: string): string {
    if v != [] && Break(v[|v| - 1]) then e else ""
  }

  lemma AssignmentSays(key: string, v: string, e: string)
    requires key in KEYS && Writable(v) && IsEnding(e)
    ensures Says(Assignment(key, v, e), map[key := Unquote(v)], Leftover(v, e))
  {
    hide MatchLine, Unquote, Break, KEYS;
    AssignmentScans(key, v, e);
    var head := key + "=" + v;
    EqualsIsNoBreak(key, v);
    assert Assignment(key, v, e) == head + e;
    if v != [] && Break(v[|v| - 1]) {
      EndingIsBlank(e);
      LineEndNoBreak(head);
      LineIsItself(head);
      assert v[|v| - 1] in v;
      SplitConcat(head, e);
      assert Assignment(key, v, "") == head;
      AssignmentMatches(key, v, "");
      KeptConcat([head], [e]);
      KeptOne(head);
      KeptOne(e);
    } else {
      LineEndAtEnding(head, e);
      LineIsItself(head + e);
      AssignmentMatches(key, v, e);
      KeptOne(head + e);
    }
  }

  lemma LineSays(line: string)
    requires IsLine(line) && !ManagedLine(line)
    ensures Says(line, map[], line)
  {
    hide ManagedLine;
    LineIsItself(line);
    KeptOne(line);
    assert [line][..|[line]| - 1] == [];
    ScanStep([line]);
  }

  lemma {:induction false} LineHasOneBreak(line: string)
    requires IsLine(line)
    ensures forall i :: 0 <= i < |line| - 2 ==> !Break(line[i])
    ensures |line| > 1 && Break(line[|line| - 2]) ==> line[|line| - 2] == '\r' && line[|line| - 1] == '\n'
  {
    if |line| > 1 && !(line[0] == '\r' && line[1] == '\n') {
      var rest := line[1..];
      assert !Break(line[0]);
      LineHasOneBreak(rest);
      assert forall i :: 1 <= i < |line| ==> line[i] == rest[i - 1];
    }
  }

  lemma NoInnerNewline(line: string)
    requires IsLine(line) && !EndsInNewline(line)
    ensures '\n' !in line && forall i :: 0 <= i < |line| - 1 ==> !Break(line[i])
  {
    LineHasOneBreak(line);
    forall i | 0 <= i < |line| ensures line[i] != '\n' {
      if i < |line| - 2 { assert !Break(line[i]); }
    }
  }

  lemma EndedLineUnmanaged(line: string, e: string)
    requires IsLine(line) && !ManagedLine(line) && !EndsInNewline(line) && IsEnding(e)
    ensures !ManagedLine(line + e) && !ManagedLine(line + "\n")
  {
    NoInnerNewline(line);
    EndedLine(line, e);
    EndedLine(line, "\n");
  }

  lemma EndedLine(line: string, e: string)
    requires !ManagedLine(line) && '\n' !in line && IsEnding(e)
    ensures !ManagedLine(line + e)
  {
    hide Identifier, KEYS;
    var i := IndexOf(line, '=');
    var j := IndexOf(line + e, '=');
    if i < |line| {
      IndexOfFirst(line[..i], '=', line[i + 1..] + e);
      assert line + e == line[..i] + ['='] + (line[i + 1..] + e);
      assert (line + e)[..i] == line[..i];
      assert Chomp(line[i + 1..]) == line[i + 1..];
    } else {
      assert forall x :: 0 <= x < |line + e| ==> (line + e)[x] != '=';
    }
  }

  /** A last line without its newline, completed. */
  lemma CompletedLineSays(line: string, e: string)
    requires IsLine(line) && !ManagedLine(line) && !EndsInNewline(line) && IsEnding(e)
    ensures Says(line + e, map[], line + e)
  {
    hide ManagedLine;
    NoInnerNewline(line);
    EndedLineUnmanaged(line, e);
    var c := line[|line| - 1];
    if !Break(c) {
      LineEndAtEnding(line, e);
      LineSays(line + e);
    } else if c == '\r' && e == "\n" {
      LineEndAtEnding(line[..|line| - 1], "\r\n");
      assert line + e == line[..|line| - 1] + "\r\n";
      LineSays(line + e);
    } else {
      EndingIsBlank(e);
      LineSays(line);
      KeptOne(e);
      BlankUnmanaged(e);
      assert Says(e, map[], e);
      SaysConcat(line, e, map[], map[], line, e);
      var none: Values := map[];
      assert none + none == none;
    }
  }

  lemma BlankUnmanaged(e: string)
    requires IsEnding(e)
    ensures !ManagedLine(e)
  {
    EndingIsBlank(e);
  }

  // ----- the whole rendered text -----

  ghost predicate Cut(lines: seq<string>) {
    && (forall i :: 0 <= i < |lines| ==> IsLine(lines[i]))
    && (forall i :: 0 <= i < |lines| - 1 ==> Seam(lines[i], lines[i + 1]))
  }

  lemma PieceSeam(a: string, b: string, u: Values, e: string)
    requires a != [] && b != [] && Seam(a, b) && IsEnding(e)
    ensures Seam(Piece(a, u, e), Piece(b, u, e))
  {
    hide MatchLine, KEYS, Identifier;
    if ManagedLine(b) {
      FirstOfName(b);
    }
  }

  lemma FirstOfName(line: string)
    requires MatchLine(line).Some?
    ensures Identifier(MatchLine(line).value.0) && MatchLine(line).value.0 != [] && MatchLine(line).value.0[0] != '\n'
  {
  }

  lemma PieceSays(line: string, u: Values, e: string)
    requires IsLine(line) && AllWritable(u) && IsEnding(e)
    ensures Piece(line, u, e) != []
    ensures ManagedLine(line) ==> EndsInNewline(Piece(line, u, e))
    ensures NoBreaks(u) ==> Says(Piece(line, u, e), PieceValues(line, u), if ManagedLine(line) then "" else line)
    ensures exists kept :: Says(Piece(line, u, e), PieceValues(line, u), kept)
  {
    hide MatchLine, KEYS, Says, Unquote;
    if ManagedLine(line) {
      var key := MatchLine(line).value.0;
      var v := Valued(u, key);
      assert Writable(v);
      AssignmentSays(key, v, e);
      assert NoBreaks(u) && v != [] ==> !Break(v[|v| - 1]);
      assert Says(Piece(line, u, e), PieceValues(line, u), Leftover(v, e));
    } else {
      LineSays(line);
      LineNotEmpty(line);
      assert Says(Piece(line, u, e), PieceValues(line, u), line);
    }
  }

  function PieceValues(line: string, u: Values): Values {
    if ManagedLine(line) then var key := MatchLine(line).value.0; map[key := Unquote(Valued(u, key))] else map[]
  }

  /** What the rewritten lines say so far. */
  ghost predicate Reads(text: string, found: set<string>, kept: string, u: Values) {
    && (exists any :: Says(text, ReadBack(found, u), any))
    && (NoBreaks(u) ==> Says(text, ReadBack(found, u), kept))
  }

  lemma ReadsMore(text: string, found: set<string>, kept: string, u: Values, line: string, e: string)
    requires Reads(text, found, kept, u) && IsLine(line) && AllWritable(u) && IsEnding(e)
    requires Seam(text, Piece(line, u, e)) && (ManagedLine(line) ==> MatchLine(line).value.0 !in found)
    ensures Reads(text + Piece(line, u, e),
      found + (if ManagedLine(line) then {MatchLine(line).value.0} else {}),
      kept + (if ManagedLine(line) then "" else line), u)
  {
    hide MatchLine, KEYS, Says, Unquote, Valued;
    PieceSays(line, u, e);
    var found' := found + (if ManagedLine(line) then {MatchLine(line).value.0} else {});
    assert ReadBack(found', u) == ReadBack(found, u) + PieceValues(line, u);
    var x :| Says(text, ReadBack(found, u), x);
    var y :| Says(Piece(line, u, e), PieceValues(line, u), y);
    SaysConcat(text, Piece(line, u, e), ReadBack(found, u), PieceValues(line, u), x, y);
    if NoBreaks(u) {
      SaysConcat(text, Piece(line, u, e), ReadBack(found, u), PieceValues(line, u), kept,
        if ManagedLine(line) then "" else line);
    }
  }

  lemma ReadsNothing(u: Values)
    ensures Reads("", {}, "", u)
  {
    SaysNothing();
    assert ReadBack({}, u) == map[];
  }

  /** The rewritten lines, joined: they read as the values written for the keys they had. */
  lemma {:induction false} PiecesRead(lines: seq<string>, u: Values, e: string, i: nat)
    requires Cut(lines) && Scan(lines).Some? && AllWritable(u) && IsEnding(e) && i <= |lines|
    ensures Reads(Flatten(Pieces(lines[..i], u, e)), ManagedKeys(lines[..i]), KeptText(lines[..i]), u)
    ensures i > 0 ==>
      var t, p := Flatten(Pieces(lines[..i], u, e)), Piece(lines[i - 1], u, e);
      t != [] && p != [] && t[|t| - 1] == p[|p| - 1]
  {
    hide MatchLine, KEYS, Reads, Seam, IsLine, AllWritable, ManagedLine, Piece;
    if i == 0 {
      ReadsNothing(u);
    } else {
      var j := i - 1;
      assert lines[..i][..j] == lines[..j];
      PiecesRead(lines, u, e, j);
      FreshKey(lines, j);
      PieceSays(lines[j], u, e);
      var t, p := Flatten(Pieces(lines[..j], u, e)), Piece(lines[j], u, e);
      if j > 0 {
        LineNotEmpty(lines[j - 1]);
        LineNotEmpty(lines[j]);
        PieceSeam(lines[j - 1], lines[j], u, e);
        SeamByLast(Piece(lines[j - 1], u, e), t, p);
      } else {
        SeamFromNothing(t, p);
      }
      ReadsMore(t, ManagedKeys(lines[..j]), KeptText(lines[..j]), u, lines[j], e);
      PiecesStep(lines, u, e, j);
    }
  }

  lemma PiecesStep(lines: seq<string>, u: Values, e: string, j: nat)
    requires j < |lines|
    ensures Flatten(Pieces(lines[..j + 1], u, e)) == Flatten(Pieces(lines[..j], u, e)) + Piece(lines[j], u, e)
    ensures KeptText(lines[..j + 1]) == KeptText(lines[..j]) + if ManagedLine(lines[j]) then "" else lines[j]
    ensures ManagedKeys(lines[..j + 1]) ==
      ManagedKeys(lines[..j]) + if ManagedLine(lines[j]) then {MatchLine(lines[j]).value.0} else {}
  {
    hide MatchLine, KEYS, Piece;
    assert lines[..j + 1][..j] == lines[..j];
    var before := Pieces(lines[..j], u, e);
    assert (before + [Piece(lines[j], u, e)])[..|before|] == before;
  }

  lemma LineNotEmpty(line: string)
    requires IsLine(line)
    ensures line != []
  {
  }

  lemma SeamByLast(a: string, t: string, b: string)
    requires a != [] && t != [] && t[|t| - 1] == a[|a| - 1] && Seam(a, b)
    ensures Seam(t, b)
  {
  }

  lemma SeamFromNothing(t: string, b: string)
    requires t == []
    ensures Seam(t, b)
  {
  }

  /** No key repeats in a text that parses. */
  lemma FreshKey(lines: seq<string>, j: nat)
    requires Scan(lines).Some? && j < |lines|
    ensures ManagedLine(lines[j]) ==> MatchLine(lines[j]).value.0 !in ManagedKeys(lines[..j])
  {
    hide MatchLine, KEYS;
    if Scan(lines[..j + 1]) == None { ScanPrefixFails(lines, j + 1); }
    assert lines[..j + 1][..j] == lines[..j];
    ScanStep(lines[..j + 1]);
    ScanKeys(lines[..j]);
  }

  /** The newline that the last line of a text lacks, if it is one that stays. */
  function LastNewline(lines: seq<string>, e: string): string {
    if lines == [] || ManagedLine(lines[|lines| - 1]) || EndsInNewline(lines[|lines| - 1]) then "" else e
  }

  predicate Ended(t: string) {
    t == "" || EndsInNewline(t)
  }

  lemma ReadsCompleted(t: string, found: set<string>, kept: string, u: Values, line: string, e: string)
    requires Reads(t, found, kept, u) && Seam(t, line) && IsLine(line)
    requires !ManagedLine(line) && !EndsInNewline(line) && IsEnding(e)
    ensures Reads(t + (line + e), found, kept + (line + e), u) && Ended(t + (line + e))
  {
    hide ManagedLine, Says, ReadBack, IsLine;
    CompletedLineSays(line, e);
    LineNotEmpty(line);
    var none: Values, values := map[], ReadBack(found, u);
    assert values + none == values;
    var x :| Says(t, values, x);
    SaysConcat(t, line + e, values, none, x, line + e);
    if NoBreaks(u) { SaysConcat(t, line + e, values, none, kept, line + e); }
  }

  lemma PiecesLast(lines: seq<string>, u: Values, e: string)
    requires lines != []
    ensures var pieces := Pieces(lines, u, e);
      pieces != [] && pieces[|pieces| - 1] == Piece(lines[|lines| - 1], u, e)
  {
  }

  /** The last line stays and lacks its newline. */
  lemma IncompleteRead(lines: seq<string>, u: Values, e: string)
    requires Cut(lines) && Scan(lines).Some? && AllWritable(u) && IsEnding(e)
    requires lines != [] && !ManagedLine(lines[|lines| - 1]) && !EndsInNewline(lines[|lines| - 1])
    ensures var t := Flatten(Pieces(lines, u, e)) + e;
      Reads(t, ManagedKeys(lines), KeptText(lines) + e, u) && Ended(t)
  {
    hide MatchLine, KEYS, Reads, Seam, IsLine, AllWritable, ManagedLine, Piece, EndsInNewline, Pieces, ManagedKeys,
      KeptText, Flatten, Ended;
    var k := |lines| - 1;
    assert lines[..k + 1] == lines;
    PieceUnmanaged(lines[k], u, e);
    PiecesRead(lines, u, e, k);
    PiecesStep(lines, u, e, k);
    var t := Flatten(Pieces(lines[..k], u, e));
    NothingToRead(lines, u, e);
    LastSeam(lines, u, e, k, t);
    ReadsCompleted(t, ManagedKeys(lines[..k]), KeptText(lines[..k]), u, lines[k], e);
    assert t + (lines[k] + e) == (t + lines[k]) + e;
    assert KeptText(lines[..k]) + (lines[k] + e) == (KeptText(lines[..k]) + lines[k]) + e;
    assert ManagedKeys(lines[..k]) + {} == ManagedKeys(lines[..k]);
  }

  lemma NothingToRead(lines: seq<string>, u: Values, e: string)
    ensures Flatten(Pieces(lines[..0], u, e)) == []
  {
  }

  /** The last line is complete, or it is rewritten. */
  lemma CompleteRead(lines: seq<string>, u: Values, e: string)
    requires Cut(lines) && Scan(lines).Some? && AllWritable(u) && IsEnding(e)
    requires lines != [] && (ManagedLine(lines[|lines| - 1]) || EndsInNewline(lines[|lines| - 1]))
    ensures var t := Flatten(Pieces(lines, u, e));
      Reads(t, ManagedKeys(lines), KeptText(lines), u) && Ended(t)
  {
    hide MatchLine, KEYS, Reads, Seam, IsLine, AllWritable, ManagedLine, Piece, Pieces, ManagedKeys, KeptText, Flatten;
    var k := |lines| - 1;
    assert lines[..|lines|] == lines;
    PiecesRead(lines, u, e, |lines|);
    PieceSays(lines[k], u, e);
    PieceUnmanaged(lines[k], u, e);
  }

  lemma ClosedRead(lines: seq<string>, u: Values, e: string)
    requires Cut(lines) && Scan(lines).Some? && AllWritable(u) && IsEnding(e)
    ensures var pieces := Pieces(lines, u, e);
      var t := Flatten(pieces) + Closing(pieces, e);
      Reads(t, ManagedKeys(lines), KeptText(lines) + LastNewline(lines, e), u) && Ended(t)
  {
    hide MatchLine, KEYS, Reads, IsLine, AllWritable, ManagedLine, Piece, ManagedKeys, KeptText, Flatten, Pieces, Cut,
      Scan;
    if lines == [] {
      ReadsNothing(u);
      NoLines(u, e);
      assert "" + "" == "";
    } else {
      var k := |lines| - 1;
      PiecesLast(lines, u, e);
      PieceUnmanaged(lines[k], u, e);
      var t, kept := Flatten(Pieces(lines, u, e)), KeptText(lines);
      assert t + "" == t && kept + "" == kept;
      if !ManagedLine(lines[k]) && !EndsInNewline(lines[k]) {
        IncompleteRead(lines, u, e);
      } else {
        PieceEnds(lines, u, e);
        CompleteRead(lines, u, e);
      }
    }
  }

  lemma PieceEnds(lines: seq<string>, u: Values, e: string)
    requires Cut(lines) && lines != [] && AllWritable(u) && IsEnding(e)
    ensures ManagedLine(lines[|lines| - 1]) ==> EndsInNewline(Piece(lines[|lines| - 1], u, e))
  {
    hide MatchLine, KEYS, IsLine, AllWritable, ManagedLine, Piece;
    PieceSays(lines[|lines| - 1], u, e);
  }

  lemma NoLines(u: Values, e: string)
    ensures Pieces([], u, e) == [] && Flatten([]) == "" && KeptText([]) == "" && ManagedKeys([]) == {}
  {
  }

  lemma PieceUnmanaged(line: string, u: Values, e: string)
    ensures !ManagedLine(line) ==> Piece(line, u, e) == line
  {
  }

  lemma LastSeam(lines: seq<string>, u: Values, e: string, k: nat, t: string)
    requires Cut(lines) && k < |lines| && IsEnding(e) && !ManagedLine(lines[k])
    requires k == 0 ==> t == []
    requires k > 0 ==> var p := Piece(lines[k - 1], u, e); t != [] && p != [] && t[|t| - 1] == p[|p| - 1]
    ensures Seam(t, lines[k])
  {
    hide MatchLine, KEYS, Seam, IsLine, ManagedLine, Piece;
    if k > 0 {
      LineNotEmpty(lines[k - 1]);
      LineNotEmpty(lines[k]);
      PieceSeam(lines[k - 1], lines[k], u, e);
      PieceUnmanaged(lines[k], u, e);
      SeamByLast(Piece(lines[k - 1], u, e), t, lines[k]);
    } else {
      SeamFromNothing(t, lines[k]);
    }
  }

  lemma AssignmentSeam(t: string, key: string, v: string, e: string)
    requires Ended(t) && key in KEYS && IsEnding(e)
    ensures Seam(t, Assignment(key, v, e)) && Ended(t + Assignment(key, v, e))
  {
    hide KEYS;
    KeysArePlain();
    assert PlainKey(key);
    var a := Assignment(key, v, e);
    assert a[0] == key[0];
    assert a[|a| - 1] == '\n';
  }

  lemma KeysDistinct(i: nat)
    requires i < |KEYS|
    ensures KEYS[i] !in KEYS[..i]
  {
    assert |KEYS[0]| == 9 && |KEYS[1]| == 15 && |KEYS[2]| == 20 && |KEYS[3]| == 24;
  }

  function First(keys: seq<string>): set<string> {
    set k | k in keys
  }

  /** The appended keys. */
  lemma {:induction false} MissingRead(body: string, found: set<string>, kept: string, u: Values, e: string, i: nat)
    requires Reads(body, found, kept, u) && Ended(body) && AllWritable(u) && IsEnding(e) && i <= |KEYS|
    ensures Reads(body + Missing(found, u, e, KEYS[..i]), found + First(KEYS[..i]), kept, u)
    ensures Ended(body + Missing(found, u, e, KEYS[..i]))
  {
    hide KEYS, Reads, Ended, AllWritable, Assignment, Valued;
    if i == 0 {
      assert KEYS[..0] == [] && Missing(found, u, e, KEYS[..0]) == "";
      assert body + "" == body && found + First([]) == found;
    } else {
      var j, key := i - 1, KEYS[i - 1];
      assert KEYS[..i][..j] == KEYS[..j] && KEYS[..i] == KEYS[..j] + [key];
      MissingRead(body, found, kept, u, e, j);
      KeysDistinct(j);
      var t := body + Missing(found, u, e, KEYS[..j]);
      assert First(KEYS[..i]) == First(KEYS[..j]) + {key};
      if key in found {
        assert found + First(KEYS[..i]) == found + First(KEYS[..j]);
        assert Missing(found, u, e, KEYS[..j]) + "" == Missing(found, u, e, KEYS[..j]);
        assert Missing(found, u, e, KEYS[..i]) == Missing(found, u, e, KEYS[..j]);
      } else {
        AppendedRead(t, found + First(KEYS[..j]), kept, u, key, e);
        assert found + First(KEYS[..i]) == found + First(KEYS[..j]) + {key};
        assert t + Assignment(key, Valued(u, key), e) == body + Missing(found, u, e, KEYS[..i]);
      }
    }
  }

  lemma AppendedRead(t: string, found: set<string>, kept: string, u: Values, key: string, e: string)
    requires Reads(t, found, kept, u) && Ended(t) && AllWritable(u) && IsEnding(e) && key in KEYS && key !in found
    ensures Reads(t + Assignment(key, Valued(u, key), e), found + {key}, kept, u)
    ensures Ended(t + Assignment(key, Valued(u, key), e))
  {
    hide KEYS, Says, Unquote, Assignment, Seam, Ended;
    var v := Valued(u, key);
    assert Writable(v);
    AssignmentSays(key, v, e);
    AssignmentSeam(t, key, v, e);
    var more: Values := map[key := Unquote(v)];
    assert ReadBack(found + {key}, u) == ReadBack(found, u) + more;
    var x :| Says(t, ReadBack(found, u), x);
    SaysConcat(t, Assignment(key, v, e), ReadBack(found, u), more, x, Leftover(v, e));
    if NoBreaks(u) {
      assert v != [] ==> !Break(v[|v| - 1]);
      SaysConcat(t, Assignment(key, v, e), ReadBack(found, u), more, kept, "");
      assert kept + "" == kept;
    }
  }

  lemma RenderReads(text: string, u: Values)
    requires Parse(text).Some? && AllWritable(u)
    ensures Reads(Render(text, u), ManagedKeys(SplitLines(text)) + First(KEYS),
      KeptText(SplitLines(text)) + LastNewline(SplitLines(text), Ending(text)), u)
  {
    hide KEYS, Reads, AllWritable, SplitLines, Seam, IsLine, Ended, Pieces, Missing, ManagedKeys, KeptText,
      LastNewline, Closing;
    var lines, e := SplitLines(text), Ending(text);
    SplitFacts(text);
    ClosedRead(lines, u, e);
    assert KEYS[..|KEYS|] == KEYS;
    MissingRead(Flatten(Pieces(lines, u, e)) + Closing(Pieces(lines, u, e), e), ManagedKeys(lines),
      KeptText(lines) + LastNewline(lines, e), u, e, |KEYS|);
  }

  lemma {:induction false} ManagedAreKeys(lines: seq<string>)
    ensures forall k :: k in ManagedKeys(lines) ==> k in KEYS
  {
    hide MatchLine, KEYS;
    if lines != [] { ManagedAreKeys(lines[..|lines| - 1]); }
  }

  function UnquoteAll(u: Values): Values {
    map k | k in KEYS :: Unquote(Valued(u, k))
  }

  /** What a rendered text parses to: the values written, each relieved of one pair of quotes.
      So the round trip is exact unless some value is still in quotes. */
  lemma RenderParses(text: string, u: Values)
    requires Parse(text).Some? && AllWritable(u)
    ensures Parse(Render(text, u)) == Some(UnquoteAll(u))
    ensures Full(u) ==> (Parse(Render(text, u)) == Some(u) <==> (forall k :: k in KEYS ==> !Quoted(Valued(u, k))))
  {
    hide KEYS, AllWritable, SplitLines, ManagedKeys, KeptText, LastNewline, Render, UnquoteAll, Quoted;
    RenderReads(text, u);
    var found := ManagedKeys(SplitLines(text)) + First(KEYS);
    ManagedAreKeys(SplitLines(text));
    AllReadBack(found, u);
    UnquoteAllChanges(u);
  }

  lemma AllReadBack(found: set<string>, u: Values)
    requires forall k :: k in found <==> k in KEYS
    ensures Complete(ReadBack(found, u)) == UnquoteAll(u)
  {
    hide KEYS, Unquote;
  }

  lemma UnquoteAllChanges(u: Values)
    ensures Full(u) ==> (UnquoteAll(u) == u <==> (forall k :: k in KEYS ==> !Quoted(Valued(u, k))))
  {
    hide KEYS, Quoted, Unquote;
    forall k | k in KEYS ensures Unquote(Valued(u, k)) == Valued(u, k) <==> !Quoted(Valued(u, k)) {
      UnquoteChanges(Valued(u, k));
    }
    if Full(u) && exists k :: k in KEYS && Quoted(Valued(u, k)) {
      var k :| k in KEYS && Quoted(Valued(u, k));
      assert UnquoteAll(u)[k] != u[k];
    }
  }

  lemma UnquoteChanges(v: string)
    ensures Unquote(v) == v <==> !Quoted(v)
  {
    if Quoted(v) { assert |Unquote(v)| == |v| - 2; }
  }

  /** The unmanaged lines survive byte for byte and in order; at most the last one gains the
      newline it lacked. */
  lemma RenderKeepsOthers(text: string, u: Values)
    requires Parse(text).Some? && AllWritable(u) && NoBreaks(u)
    ensures KeptText(SplitLines(Render(text, u))) ==
      KeptText(SplitLines(text)) + LastNewline(SplitLines(text), Ending(text))
  {
    hide KEYS, AllWritable, SplitLines, ManagedKeys, KeptText, LastNewline, Render, NoBreaks;
    RenderReads(text, u);
  }

  // ----- the values that validation lets through -----

  /** The characters that a saved value may have. */
  predicate SafeChar(c: char) {
    || 'A' <= c <= 'Z' || 'a' <= c <= 'z' || '0' <= c <= '9' || c == '_' || c == '.' || c == '/' || c == '+'
    || c == '=' || c == ':' || c == '@' || c == '%' || c == '-'
  }

  predicate Safe(v: string) {
    |v| <= 512 && forall i :: 0 <= i < |v| ==> SafeChar(v[i])
  }

  ghost predicate AllSafe(u: Values) {
    Full(u) && forall k :: k in u ==> Safe(u[k])
  }

  lemma SafeIsWritable(v: string)
    requires Safe(v)
    ensures Writable(v) && !Quoted(v) && forall i :: 0 <= i < |v| ==> !Break(v[i])
  {
    assert forall i :: 0 <= i < |v| ==> SafeChar(v[i]);
  }

  /** A saved set of values is read back exactly, and nothing else of the file changes. */
  lemma SafeRoundTrip(text: string, u: Values)
    requires Parse(text).Some? && AllSafe(u)
    ensures Parse(Render(text, u)) == Some(u)
    ensures KeptText(SplitLines(Render(text, u))) ==
      KeptText(SplitLines(text)) + LastNewline(SplitLines(text), Ending(text))
  {
    hide KEYS, SplitLines, KeptText, LastNewline, Render, Parse, Safe, Quoted, Writable;
    forall k | k in KEYS
      ensures Writable(Valued(u, k)) && !Quoted(Valued(u, k)) && forall i :: 0 <= i < |u[k]| ==> !Break(u[k][i])
    {
      SafeIsWritable(u[k]);
    }
    RenderParses(text, u);
    RenderKeepsOthers(text, u);
  }

  /** Whatever a text parses to can be written again. */
  lemma ParsedIsWritable(text: string)
    requires Parse(text).Some?
    ensures Full(Parse(text).value) && AllWritable(Parse(text).value)
  {
    hide KEYS, SplitLines, Writable;
    SplitFacts(text);
    ScannedWritable(SplitLines(text));
    assert Writable("") by { EmptyWritable(); }
  }

  lemma EmptyWritable()
    ensures Writable("")
  {
  }

  lemma {:induction false} ScannedWritable(lines: seq<string>)
    requires Scan(lines).Some? && forall i :: 0 <= i < |lines| ==> IsLine(lines[i])
    ensures forall k :: k in Scan(lines).value ==> Writable(Scan(lines).value[k])
  {
    hide KEYS, MatchLine, IsLine, Writable, Unquote, ValueOk;
    if lines != [] {
      var k := |lines| - 1;
      ScanStep(lines);
      ScannedWritable(lines[..k]);
      if ManagedLine(lines[k]) { MatchedWritable(lines[k]); }
    }
  }

  lemma MatchedWritable(line: string)
    requires IsLine(line) && MatchLine(line).Some? && ValueOk(Unquote(MatchLine(line).value.1))
    ensures Writable(Unquote(MatchLine(line).value.1))
  {
    hide Identifier, Break;
    LineHasOneBreak(line);
    var i, v := IndexOf(line, '='), MatchLine(line).value.1;
    var rest := line[i + 1..];
    assert v <= rest;
    assert forall x :: 0 <= x < |v| ==> v[x] == line[i + 1 + x];
    ChompedBreaks(line, i, v);
  }

  lemma ChompedBreaks(line: string, i: nat, v: string)
    requires IsLine(line) && i < |line| && v == Chomp(line[i + 1..]) && '\n' !in v
    requires ValueOk(Unquote(v))
    ensures forall x :: 0 <= x < |v| - 1 ==> !Break(v[x])
    ensures forall x :: 0 <= x < |Unquote(v)| - 1 ==> !Break(Unquote(v)[x])
  {
    LineHasOneBreak(line);
    var rest := line[i + 1..];
    assert forall x :: 0 <= x < |rest| ==> rest[x] == line[i + 1 + x];
    forall x | 0 <= x < |v| - 1 ensures !Break(v[x]) {
      assert v[x] == line[i + 1 + x];
      if |rest| > 1 && rest[|rest| - 2] == '\r' && rest[|rest| - 1] == '\n' {
        assert |v| == |rest| - 2;
      } else {
        assert !Break(line[|line| - 2]);
      }
    }
  }

  // ----- what parsing means, in plain terms -----

  lemma FourKeys(v: Values)
    ensures Full(v) <==>
      v.Keys == {"XD_DOMAIN", "XD_LAN_HTTPS_IP", "ALIYUN_ACCESS_KEY_ID", "ALIYUN_ACCESS_KEY_SECRET"}
    ensures forall k :: k in KEYS <==>
      k in {"XD_DOMAIN", "XD_LAN_HTTPS_IP", "ALIYUN_ACCESS_KEY_ID", "ALIYUN_ACCESS_KEY_SECRET"}
  {
    assert KEYS[0] == "XD_DOMAIN" && KEYS[1] == "XD_LAN_HTTPS_IP";
    assert KEYS[2] == "ALIYUN_ACCESS_KEY_ID" && KEYS[3] == "ALIYUN_ACCESS_KEY_SECRET";
  }

  /** The characters that end a line. */
  ghost predicate EndsLine(c: char) {
    c in ['\n', '\r', '\U{0b}', '\U{0c}', '\U{1c}', '\U{1d}', '\U{1e}', '\U{85}', '\U{2028}', '\U{2029}']
  }

  /** A line of a text: no break inside it, where a carriage return and a newline are one break. */
  ghost predicate OneLine(line: string) {
    && line != []
    && forall x :: 0 <= x < |line| - 1 && EndsLine(line[x]) ==>
         x == |line| - 2 && line[x] == '\r' && line[x + 1] == '\n'
  }

  ghost predicate CutApart(a: string, b: string) {
    a != [] && b != [] && EndsLine(a[|a| - 1]) && !(a[|a| - 1] == '\r' && b[0] == '\n')
  }

  /** How a text is cut: into lines that together are the text, each ended by a break, only the
      last perhaps without one, and no break cut in two. */
  lemma LinesMeaning(s: string)
    ensures var lines := SplitLines(s);
      && Flatten(lines) == s
      && (forall i :: 0 <= i < |lines| ==> OneLine(lines[i]))
      && forall i, j :: 0 <= i && j == i + 1 < |lines| ==> CutApart(lines[i], lines[j])
  {
    hide SplitLines, Flatten, IsLine, Break, EndsLine;
    SplitFacts(s);
    var lines := SplitLines(s);
    forall i | 0 <= i < |lines| ensures OneLine(lines[i]) { OneLineIs(lines[i]); }
    forall i, j | 0 <= i && j == i + 1 < |lines| ensures CutApart(lines[i], lines[j]) {
      assert OneLine(lines[i]) && OneLine(lines[j]) && Seam(lines[i], lines[j]);
      BreakMeaning(lines[i][|lines[i]| - 1]);
    }
  }

  lemma BreakMeaning(c: char)
    ensures Break(c) <==> EndsLine(c)
  {
  }

  lemma OneLineIs(line: string)
    requires IsLine(line)
    ensures OneLine(line)
  {
    hide Break, EndsLine;
    LineHasOneBreak(line);
    forall x | 0 <= x < |line| - 1 && EndsLine(line[x])
      ensures x == |line| - 2 && line[x] == '\r' && line[x + 1] == '\n'
    {
      BreakMeaning(line[x]);
    }
  }

  /** A line that gives a key a raw value; a carriage return before the newline is not part of it. */
  ghost predicate Gives(line: string, key: string, raw: string) {
    && '\n' !in raw
    && (|| line == key + "=" + raw
        || line == key + "=" + raw + "\r\n"
        || (line == key + "=" + raw + "\n" && (raw == "" || raw[|raw| - 1] != '\r')))
  }

  /** The value that a raw value stands for. */
  function Meant(raw: string): string {
    if |raw| >= 2 && raw[0] == '"' && raw[|raw| - 1] == '"' then raw[1..|raw| - 1] else raw
  }

  /** What some lines say of a key: at most one of them gives it a value, and one that can be kept. */
  ghost predicate ReadsAs(lines: seq<string>, key: string, value: string) {
    || (value == "" && forall i, raw :: 0 <= i < |lines| ==> !Gives(lines[i], key, raw))
    || exists i, raw :: 0 <= i < |lines| && Gives(lines[i], key, raw) && GivesOnce(lines, key, i, raw, value)
  }

  ghost predicate GivesOnce(lines: seq<string>, key: string, i: int, raw: string, value: string) {
    && value == Meant(raw) && '\0' !in value && '\r' !in value && '\n' !in value
    && forall j, other :: 0 <= j < |lines| && Gives(lines[j], key, other) ==> j == i
  }

  lemma GivesIs(line: string, key: string, raw: string)
    requires key in KEYS
    ensures Gives(line, key, raw) <==> MatchLine(line) == Some((key, raw))
  {
    hide KEYS, Identifier;
    KeysArePlain();
    assert PlainKey(key);
    if Gives(line, key, raw) {
      var rest := if line == key + "=" + raw then raw
        else if line == key + "=" + raw + "\r\n" then raw + "\r\n" else raw + "\n";
      assert line == key + ['='] + rest;
      IndexOfFirst(key, '=', rest);
      assert line[..|key|] == key && line[|key| + 1..] == rest;
      ChompIs(raw, rest);
    }
    if MatchLine(line) == Some((key, raw)) {
      var i := IndexOf(line, '=');
      var rest := line[i + 1..];
      assert line == line[..i] + "=" + rest;
      ChompLeaves(rest);
    }
  }

  lemma ChompIs(raw: string, rest: string)
    requires '\n' !in raw
    requires rest == raw || rest == raw + "\r\n" || (rest == raw + "\n" && (raw == "" || raw[|raw| - 1] != '\r'))
    ensures Chomp(rest) == raw
  {
    if rest == raw {
      assert raw == [] || raw[|raw| - 1] in raw;
    }
  }

  lemma ChompLeaves(rest: string)
    ensures var raw := Chomp(rest);
      || rest == raw || rest == raw + "\r\n" || (rest == raw + "\n" && (raw == "" || raw[|raw| - 1] != '\r'))
  {
  }

  predicate GivesAt(lines: seq<string>, i: int, key: string) {
    0 <= i < |lines| && MatchLine(lines[i]).Some? && MatchLine(lines[i]).value.0 == key
  }

  function RawAt(lines: seq<string>, i: int): string {
    if 0 <= i < |lines| && MatchLine(lines[i]).Some? then MatchLine(lines[i]).value.1 else ""
  }

  lemma {:induction false} ScanFinds(lines: seq<string>)
    requires Scan(lines).Some?
    ensures var found := Scan(lines).value;
      && (forall key :: key in found ==> key in KEYS && exists i :: GivesAt(lines, i, key))
      && (forall key, i :: key in KEYS && GivesAt(lines, i, key) ==>
            key in found && found[key] == Unquote(RawAt(lines, i)) && ValueOk(found[key]))
      && (forall key, i, j :: key in KEYS && GivesAt(lines, i, key) && GivesAt(lines, j, key) ==> i == j)
  {
    hide MatchLine, Unquote, ValueOk, KEYS;
    if lines != [] {
      var k := |lines| - 1;
      ScanStep(lines);
      ScanFinds(lines[..k]);
      forall i, key
        ensures GivesAt(lines, i, key) <==> GivesAt(lines[..k], i, key) || (i == k && GivesAt(lines, k, key))
      {}
      forall i | 0 <= i < k ensures RawAt(lines, i) == RawAt(lines[..k], i) {}
      forall key | key in Scan(lines).value ensures key in KEYS && exists i :: GivesAt(lines, i, key) {
        if key in Scan(lines[..k]).value {
          var i :| GivesAt(lines[..k], i, key);
          assert GivesAt(lines, i, key);
        } else {
          assert GivesAt(lines, k, key);
        }
      }
    }
  }

  lemma {:induction false} ScanLoses(lines: seq<string>) returns (key: string, i: int, j: int)
    requires Scan(lines) == None
    ensures key in KEYS && GivesAt(lines, i, key)
    ensures !ValueOk(Unquote(RawAt(lines, i))) || (GivesAt(lines, j, key) && j < i)
  {
    hide MatchLine, Unquote, ValueOk, KEYS;
    var k := |lines| - 1;
    ScanStep(lines);
    if Scan(lines[..k]) == None {
      key, i, j := ScanLoses(lines[..k]);
      assert GivesAt(lines, i, key) && RawAt(lines, i) == RawAt(lines[..k], i);
    } else {
      ScanFinds(lines[..k]);
      key, i := MatchLine(lines[k]).value.0, k;
      if key in Scan(lines[..k]).value {
        j :| GivesAt(lines[..k], j, key);
      } else {
        j := k;
      }
    }
  }

  lemma GivesAtIs(lines: seq<string>, i: int, key: string, raw: string)
    requires key in KEYS && 0 <= i < |lines|
    ensures Gives(lines[i], key, raw) <==> GivesAt(lines, i, key) && RawAt(lines, i) == raw
  {
    hide KEYS, MatchLine;
    GivesIs(lines[i], key, raw);
  }

  lemma KeptValue(v: string)
    ensures ValueOk(v) <==> '\0' !in v && '\r' !in v && '\n' !in v
    ensures Unquote(v) == Meant(v)
  {
  }

  /** One key of a text that parses. */
  lemma KeyRead(lines: seq<string>, key: string)
    requires Scan(lines).Some? && key in KEYS
    ensures forall value :: ReadsAs(lines, key, value) <==> value == Valued(Scan(lines).value, key)
  {
    hide KEYS, MatchLine, Unquote, ValueOk, Meant, Gives, Scan;
    ScanFinds(lines);
    forall i, raw | 0 <= i < |lines|
      ensures Gives(lines[i], key, raw) <==> GivesAt(lines, i, key) && RawAt(lines, i) == raw
    {
      GivesAtIs(lines, i, key, raw);
    }
    if key in Scan(lines).value {
      var i :| GivesAt(lines, i, key);
      var raw := RawAt(lines, i);
      KeptValue(raw);
      KeptValue(Unquote(raw));
      assert Gives(lines[i], key, raw) && GivesOnce(lines, key, i, raw, Scan(lines).value[key]);
    }
  }

  /** A text that does not parse: some key has no reading. */
  lemma KeyLost(lines: seq<string>) returns (key: string)
    requires Scan(lines) == None
    ensures key in KEYS && forall value :: !ReadsAs(lines, key, value)
  {
    hide KEYS, MatchLine, Unquote, ValueOk, Meant, Gives, Scan;
    var i, j;
    key, i, j := ScanLoses(lines);
    var raw := RawAt(lines, i);
    KeptValue(raw);
    KeptValue(Unquote(raw));
    forall x, other | 0 <= x < |lines|
      ensures Gives(lines[x], key, other) <==> GivesAt(lines, x, key) && RawAt(lines, x) == other
    {
      GivesAtIs(lines, x, key, other);
    }
    assert Gives(lines[i], key, raw);
    if GivesAt(lines, j, key) { assert Gives(lines[j], key, RawAt(lines, j)); }
  }

  /** What a text parses to: for each of the four keys the value that its one line gives it, or
      nothing if no line does; it does not parse if two lines give one key a value, or if a value
      could not be kept. */
  lemma ParseMeaning(text: string, v: Values)
    ensures Parse(text) == Some(v) <==>
      && v.Keys == {"XD_DOMAIN", "XD_LAN_HTTPS_IP", "ALIYUN_ACCESS_KEY_ID", "ALIYUN_ACCESS_KEY_SECRET"}
      && forall key :: key in v ==> ReadsAs(SplitLines(text), key, v[key])
  {
    hide KEYS, Scan, ReadsAs, SplitLines;
    var lines := SplitLines(text);
    FourKeys(v);
    if Scan(lines) == None {
      var key := KeyLost(lines);
    } else {
      forall key | key in KEYS
        ensures forall value :: ReadsAs(lines, key, value) <==> value == Valued(Scan(lines).value, key)
      {
        KeyRead(lines, key);
      }
      CompleteIs(Scan(lines).value, v);
    }
  }

  lemma CompleteIs(found: Values, v: Values)
    ensures v == Complete(found) <==> Full(v) && forall key :: key in v ==> v[key] == Valued(found, key)
  {
    hide KEYS;
  }
}

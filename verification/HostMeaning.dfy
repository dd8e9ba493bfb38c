/** What the host's reader sees in a file and what the rewrite makes of one, line by line. */
module HostMeaning {
  import opened Wrappers
  import opened HostPlan
  import CaddyEnv

  ghost predicate NamedKey(key: string) {
    && key != "" && 'A' <= key[0] <= 'Z'
    && forall i :: 0 <= i < |key| ==> 'A' <= key[i] <= 'Z' || '0' <= key[i] <= '9' || key[i] == '_'
  }

  lemma FieldMeaning(body: string, key: string, raw: string)
    ensures Field(body) == Some((key, raw)) <==> NamedKey(key) && body == key + "=" + raw && '\n' !in raw
  {
    if Field(body) == Some((key, raw)) {
      var i := CaddyEnv.IndexOf(body, '=');
      assert body == body[..i] + "=" + body[i + 1..];
    }
    if NamedKey(key) && body == key + "=" + raw && '\n' !in raw {
      assert '=' !in key;
      assert body == key + ['='] + raw;
      CaddyEnv.IndexOfFirst(key, '=', raw);
      assert body[..|key|] == key && body[|key| + 1..] == raw;
    }
  }

  // ----- the reader -----

  /** A line that gives a key a raw value. */
  ghost predicate Gives(lines: seq<string>, i: int, key: string, raw: string) {
    0 <= i < |lines| && Body(lines[i]) == key + "=" + raw && '\n' !in raw
  }

  ghost predicate GivesOnce(lines: seq<string>, i: int, key: string, raw: string, value: string) {
    && Gives(lines, i, key, raw) && value == CaddyEnv.Meant(raw)
    && |value| <= 253 && '\r' !in value && '\n' !in value
    && forall j, other :: Gives(lines, j, key, other) ==> j == i
  }

  /** What the lines say of a key: nothing, or one of them gives it a usable value. */
  ghost predicate ReadsAs(lines: seq<string>, key: string, value: Option<string>) {
    match value
    case None => forall i, raw :: !Gives(lines, i, key, raw)
    case Some(v) => exists i, raw :: GivesOnce(lines, i, key, raw, v)
  }

  predicate FieldAt(lines: seq<string>, i: int, key: string) {
    0 <= i < |lines| && Field(Body(lines[i])).Some? && Field(Body(lines[i])).value.0 == key
  }

  function ValueAt(lines: seq<string>, i: int): string {
    if 0 <= i < |lines| && Field(Body(lines[i])).Some? then CaddyEnv.Unquote(Field(Body(lines[i])).value.1) else ""
  }

  function RawAt(lines: seq<string>, i: int): string {
    if 0 <= i < |lines| && Field(Body(lines[i])).Some? then Field(Body(lines[i])).value.1 else ""
  }

  predicate Kept(v: string) {
    |v| <= 253 && '\r' !in v && '\n' !in v
  }

  lemma ExtractLast(lines: seq<string>)
    requires lines != []
    ensures var k := |lines| - 1;
      var before, field := Extract(lines[..k]), Field(Body(lines[k]));
      Extract(lines) ==
        if before == None || field == None || field.value.0 !in ENV_FIELDS then before
        else if field.value.0 in before.value || !Kept(ValueAt(lines, k)) then None
        else Some(before.value[field.value.0 := ValueAt(lines, k)])
  {
    hide Field, Body, ENV_FIELDS;
  }

  lemma FieldsSplit(lines: seq<string>)
    requires lines != []
    ensures var k := |lines| - 1;
      && (forall i, key ::
            FieldAt(lines, i, key) <==> FieldAt(lines[..k], i, key) || (i == k && FieldAt(lines, k, key)))
      && (forall i :: 0 <= i < k ==> ValueAt(lines, i) == ValueAt(lines[..k], i))
  {
    hide Field, Body;
  }

  lemma {:induction false} ExtractFinds(lines: seq<string>)
    requires Extract(lines).Some?
    ensures var found := Extract(lines).value;
      && (forall key :: key in found ==> key in ENV_FIELDS && exists i :: FieldAt(lines, i, key))
      && (forall key, i :: key in ENV_FIELDS && FieldAt(lines, i, key) ==>
            key in found && found[key] == ValueAt(lines, i) && Kept(found[key]))
      && (forall key, i, j :: key in ENV_FIELDS && FieldAt(lines, i, key) && FieldAt(lines, j, key) ==> i == j)
  {
    hide Field, Body, ENV_FIELDS, Kept, ValueAt;
    if lines != [] {
      var k := |lines| - 1;
      ExtractLast(lines);
      ExtractFinds(lines[..k]);
      FieldsSplit(lines);
      forall key | key in Extract(lines).value ensures key in ENV_FIELDS && exists i :: FieldAt(lines, i, key) {
        if key in Extract(lines[..k]).value {
          var i :| FieldAt(lines[..k], i, key);
          assert FieldAt(lines, i, key);
        } else {
          assert FieldAt(lines, k, key);
        }
      }
    }
  }

  lemma {:induction false} ExtractLoses(lines: seq<string>) returns (key: string, i: int, j: int)
    requires Extract(lines) == None
    ensures key in ENV_FIELDS && FieldAt(lines, i, key)
    ensures !Kept(ValueAt(lines, i)) || (FieldAt(lines, j, key) && j < i)
  {
    hide Field, Body, ENV_FIELDS, Kept, ValueAt;
    var k := |lines| - 1;
    ExtractLast(lines);
    FieldsSplit(lines);
    if Extract(lines[..k]) == None {
      key, i, j := ExtractLoses(lines[..k]);
    } else {
      ExtractFinds(lines[..k]);
      key, i, j := Field(Body(lines[k])).value.0, k, k;
      if key in Extract(lines[..k]).value { j :| FieldAt(lines[..k], j, key); }
    }
  }

  lemma GivesIs(lines: seq<string>, i: int, key: string, raw: string)
    requires NamedKey(key)
    ensures Gives(lines, i, key, raw) ==> FieldAt(lines, i, key) && ValueAt(lines, i) == CaddyEnv.Meant(raw)
    ensures FieldAt(lines, i, key) ==> Gives(lines, i, key, RawAt(lines, i))
  {
    hide Field, Body;
    if 0 <= i < |lines| {
      FieldMeaning(Body(lines[i]), key, raw);
      if FieldAt(lines, i, key) {
        FieldMeaning(Body(lines[i]), key, Field(Body(lines[i])).value.1);
      }
    }
  }

  lemma FieldsNamed()
    ensures forall key :: key in ENV_FIELDS ==> NamedKey(key)
    ensures forall key :: key in ENV_FIELDS <==>
      key in {"XD_DOMAIN", "XD_LAN_HTTPS_IP", "XD_LEGACY_HTTP_ONLY", "XD_HTTPS_BIND", "XD_HTTPS_PORT", "XD_WEB_BIND"}
  {
    hide NamedKey;
    KeysAre();
    BindsAre();
    SixFields("XD_DOMAIN", "XD_LAN_HTTPS_IP", "XD_LEGACY_HTTP_ONLY", "XD_HTTPS_BIND", "XD_HTTPS_PORT", "XD_WEB_BIND");
  }

  lemma SixFields(a: string, b: string, c: string, d: string, e: string, f: string)
    ensures forall key :: key in [a, b, c, d, e, f] <==> key in {a, b, c, d, e, f}
  {
    var six := [a, b, c, d, e, f];
    forall key | key in {a, b, c, d, e, f} ensures key in six {
      assert six[0] == a && six[1] == b && six[2] == c && six[3] == d && six[4] == e && six[5] == f;
    }
  }

  lemma BindsAre()
    ensures NamedKey("XD_HTTPS_BIND") && NamedKey("XD_HTTPS_PORT") && NamedKey("XD_WEB_BIND")
  {
  }

  lemma KeysAre()
    ensures CANDIDATE_KEYS == ["XD_DOMAIN", "XD_LAN_HTTPS_IP", "XD_LEGACY_HTTP_ONLY"]
    ensures NamedKey("XD_DOMAIN") && NamedKey("XD_LAN_HTTPS_IP") && NamedKey("XD_LEGACY_HTTP_ONLY")
    ensures "XD_DOMAIN" != "XD_LAN_HTTPS_IP" && "XD_DOMAIN" != "XD_LEGACY_HTTP_ONLY"
      && "XD_LAN_HTTPS_IP" != "XD_LEGACY_HTTP_ONLY"
  {
    assert |"XD_DOMAIN"| == 9 && |"XD_LAN_HTTPS_IP"| == 15 && |"XD_LEGACY_HTTP_ONLY"| == 19;
  }

  lemma FieldRead(lines: seq<string>, key: string)
    requires Extract(lines).Some? && key in ENV_FIELDS && NamedKey(key)
    ensures var found := Extract(lines).value;
      forall value :: ReadsAs(lines, key, value) <==> value == if key in found then Some(found[key]) else None
  {
    hide Field, Body, ENV_FIELDS, ValueAt, RawAt, Gives, FieldAt, Extract, CaddyEnv.Meant, NamedKey;
    ExtractFinds(lines);
    var found := Extract(lines).value;
    forall i, raw
      ensures Gives(lines, i, key, raw) ==> FieldAt(lines, i, key) && ValueAt(lines, i) == CaddyEnv.Meant(raw)
    {
      GivesIs(lines, i, key, raw);
    }
    if key in found {
      var i :| FieldAt(lines, i, key);
      GivesIs(lines, i, key, "");
      var raw := RawAt(lines, i);
      GivesIs(lines, i, key, raw);
      assert GivesOnce(lines, i, key, raw, found[key]);
    }
  }

  lemma FieldLost(lines: seq<string>) returns (key: string)
    requires Extract(lines) == None
    ensures key in ENV_FIELDS && forall value :: !ReadsAs(lines, key, value)
  {
    hide Field, Body, ENV_FIELDS, ValueAt, RawAt, Gives, FieldAt, Extract, CaddyEnv.Meant, NamedKey;
    FieldsNamed();
    var i, j;
    key, i, j := ExtractLoses(lines);
    forall x, raw
      ensures Gives(lines, x, key, raw) ==> FieldAt(lines, x, key) && ValueAt(lines, x) == CaddyEnv.Meant(raw)
    {
      GivesIs(lines, x, key, raw);
    }
    GivesIs(lines, i, key, "");
    GivesIs(lines, j, key, "");
    GivesIs(lines, i, key, RawAt(lines, i));
  }

  /** The fields found: for each of the six known ones the value that its one line gives it, if
      any does; none are found if two lines give one of them a value, or an unusable one. */
  lemma ExtractMeaning(lines: seq<string>, found: map<string, string>)
    ensures Extract(lines) == Some(found) <==>
      && found.Keys <=
           {"XD_DOMAIN", "XD_LAN_HTTPS_IP", "XD_LEGACY_HTTP_ONLY", "XD_HTTPS_BIND", "XD_HTTPS_PORT", "XD_WEB_BIND"}
      && forall key :: key in ENV_FIELDS ==> ReadsAs(lines, key, if key in found then Some(found[key]) else None)
  {
    hide ENV_FIELDS, Extract, ReadsAs, NamedKey;
    FieldsNamed();
    if Extract(lines) == None {
      var key := FieldLost(lines);
    } else {
      forall key | key in ENV_FIELDS
        ensures var f := Extract(lines).value;
          forall value :: ReadsAs(lines, key, value) <==> value == if key in f then Some(f[key]) else None
      {
        FieldRead(lines, key);
      }
      KnownOnly(lines);
      var f := Extract(lines).value;
      if found.Keys <= f.Keys + found.Keys && (forall key :: key in ENV_FIELDS ==>
           (if key in found then Some(found[key]) else None) == (if key in f then Some(f[key]) else None))
         && (forall key :: key in found ==> key in ENV_FIELDS)
      {
        SameMap(found, f);
      }
    }
  }

  lemma KnownOnly(lines: seq<string>)
    requires Extract(lines).Some?
    ensures forall key :: key in Extract(lines).value ==> key in ENV_FIELDS
  {
    hide ENV_FIELDS, Extract, FieldAt, ValueAt, Kept;
    ExtractFinds(lines);
  }

  lemma SameMap(a: map<string, string>, b: map<string, string>)
    requires forall key :: key in a ==> key in ENV_FIELDS
    requires forall key :: key in b ==> key in ENV_FIELDS
    requires forall key :: key in ENV_FIELDS ==>
      (if key in a then Some(a[key]) else None) == (if key in b then Some(b[key]) else None)
    ensures a == b
  {
    hide ENV_FIELDS;
    forall key | key in a ensures key in b && a[key] == b[key] {}
    forall key | key in b ensures key in a {}
  }

  // ----- the rewrite -----

  /** A line that assigns a key. */
  ghost predicate Assigns(line: string, key: string) {
    NamedKey(key) && exists raw :: '\n' !in raw && line == key + "=" + raw + "\n"
  }

  /** An empty line, a comment, or an assignment to a key of at most 128 characters. */
  ghost predicate FineLine(line: string) {
    && line != "" && line[|line| - 1] == '\n'
    && (line == "\n" || line[0] == '#' || exists key :: |key| <= 128 && Assigns(line, key))
  }

  ghost predicate AssignsAt(lines: seq<string>, i: int, key: string) {
    0 <= i < |lines| && Assigns(lines[i], key)
  }

  /** No key is assigned twice. */
  ghost predicate AssignedOnce(lines: seq<string>) {
    forall i, j, key :: AssignsAt(lines, i, key) && AssignsAt(lines, j, key) ==> i == j
  }

  lemma AssignsIs(line: string, key: string)
    ensures Assigns(line, key) <==>
      Ends(line) && !Comment(line[..|line| - 1]) && Field(line[..|line| - 1]).Some?
        && Field(line[..|line| - 1]).value.0 == key
  {
    hide Field;
    if Assigns(line, key) {
      var raw :| '\n' !in raw && line == key + "=" + raw + "\n";
      assert line[..|line| - 1] == key + "=" + raw;
      FieldMeaning(line[..|line| - 1], key, raw);
    }
    if Ends(line) && Field(line[..|line| - 1]).Some? && Field(line[..|line| - 1]).value.0 == key {
      var raw := Field(line[..|line| - 1]).value.1;
      FieldMeaning(line[..|line| - 1], key, raw);
      assert line == line[..|line| - 1] + "\n";
      assert '\n' !in raw && line == key + "=" + raw + "\n";
    }
  }

  lemma FineIs(line: string)
    ensures FineLine(line) <==>
      Ends(line) && (Comment(line[..|line| - 1]) ||
        (Field(line[..|line| - 1]).Some? && |Field(line[..|line| - 1]).value.0| <= 128))
  {
    hide Field, Assigns;
    if Ends(line) {
      assert line == line[..|line| - 1] + "\n";
      if Field(line[..|line| - 1]).Some? { AssignsIs(line, Field(line[..|line| - 1]).value.0); }
      if exists key :: |key| <= 128 && Assigns(line, key) {
        var key :| |key| <= 128 && Assigns(line, key);
        AssignsIs(line, key);
      }
    }
  }

  lemma {:induction false} AssignedMeaning(lines: seq<string>)
    ensures Assigned(lines).Some? <==> (forall i :: 0 <= i < |lines| ==> FineLine(lines[i])) && AssignedOnce(lines)
    ensures Assigned(lines).Some? ==>
      forall key :: key in Assigned(lines).value <==> exists i :: AssignsAt(lines, i, key)
  {
    hide Field, FineLine, Assigns, Comment;
    if lines != [] {
      var k := |lines| - 1;
      var line := lines[k];
      AssignedMeaning(lines[..k]);
      forall i, key
        ensures AssignsAt(lines, i, key) <==> AssignsAt(lines[..k], i, key) || (i == k && Assigns(line, key))
      {}
      FineIs(line);
      forall key ensures Assigns(line, key) <==>
        Ends(line) && !Comment(line[..|line| - 1]) && Field(line[..|line| - 1]).Some?
          && Field(line[..|line| - 1]).value.0 == key
      {
        AssignsIs(line, key);
      }
      assert (forall i :: 0 <= i < |lines| ==> FineLine(lines[i])) <==>
        (forall i :: 0 <= i < k ==> FineLine(lines[..k][i])) && FineLine(line);
      LastAssigned(lines);
      if Assigned(lines[..k]).Some? && Ends(line) && !Comment(line[..|line| - 1]) && Field(line[..|line| - 1]).Some? {
        var key, before := Field(line[..|line| - 1]).value.0, Assigned(lines[..k]).value;
        assert Assigns(line, key);
        assert key in before <==> exists i :: AssignsAt(lines[..k], i, key);
        forall other | other in before + {key} ensures exists i :: AssignsAt(lines, i, other) {
          if other in before {
            var i :| AssignsAt(lines[..k], i, other);
            assert AssignsAt(lines, i, other);
          } else {
            assert AssignsAt(lines, k, other);
          }
        }
      }
    }
  }

  lemma LastAssigned(lines: seq<string>)
    requires lines != []
    ensures var k := |lines| - 1;
      AssignedOnce(lines) <==>
        AssignedOnce(lines[..k]) && forall i, key :: AssignsAt(lines[..k], i, key) ==> !Assigns(lines[k], key)
  {
    hide Assigns;
    var k := |lines| - 1;
    forall i, key
      ensures AssignsAt(lines, i, key) <==> AssignsAt(lines[..k], i, key) || (i == k && Assigns(lines[k], key))
    {}
    if AssignedOnce(lines) {
      forall i, key | AssignsAt(lines[..k], i, key) ensures !Assigns(lines[k], key) {
        assert AssignsAt(lines, i, key);
        assert Assigns(lines[k], key) ==> AssignsAt(lines, k, key);
      }
    }
  }

  /** The three managed keys are given what the plan wants, every other line stays. */
  ghost function Replaced(p: Plan, line: string): string {
    if "XD_DOMAIN=" <= line then "XD_DOMAIN=" + (if p.domainEnabled then p.domain else "") + "\n"
    else if "XD_LAN_HTTPS_IP=" <= line then "XD_LAN_HTTPS_IP=" + (if p.lanEnabled then p.lan else "") + "\n"
    else if "XD_LEGACY_HTTP_ONLY=" <= line then "XD_LEGACY_HTTP_ONLY=0\n"
    else line
  }

  ghost predicate Starts(lines: seq<string>, prefix: string) {
    exists i :: 0 <= i < |lines| && prefix <= lines[i]
  }

  /** The settings that no line held. */
  ghost function Missing(p: Plan, lines: seq<string>): seq<string> {
    (if Starts(lines, "XD_DOMAIN=") then [] else ["XD_DOMAIN=" + (if p.domainEnabled then p.domain else "") + "\n"])
    + (if Starts(lines, "XD_LAN_HTTPS_IP=") then []
       else ["XD_LAN_HTTPS_IP=" + (if p.lanEnabled then p.lan else "") + "\n"])
    + (if Starts(lines, "XD_LEGACY_HTTP_ONLY=") then [] else ["XD_LEGACY_HTTP_ONLY=0\n"])
  }

  ghost predicate CandidateIs(p: Plan, lines: seq<string>, out: seq<string>) {
    && |out| >= |lines|
    && (forall i :: 0 <= i < |lines| ==> out[i] == Replaced(p, lines[i]))
    && out[|lines|..] == Missing(p, lines)
  }

  lemma {:induction false} RewrittenIs(p: Plan, lines: seq<string>)
    ensures |Rewritten(p, lines)| == |lines|
    ensures forall i :: 0 <= i < |lines| ==> Rewritten(p, lines)[i] == NewLine(p, lines[i])
  {
    hide NewLine;
    if lines != [] { RewrittenIs(p, lines[..|lines| - 1]); }
  }

  /** In a fine line a key is assigned if the line starts with it and an equals sign. */
  lemma StartsIs(line: string, key: string)
    requires FineLine(line) && NamedKey(key)
    ensures Assigns(line, key) <==> key + "=" <= line
  {
    var prefix := key + "=";
    if Assigns(line, key) {
      var raw :| '\n' !in raw && line == key + "=" + raw + "\n";
      assert line == prefix + (raw + "\n");
    }
    if prefix <= line {
      var rest := line[|prefix|..];
      assert line == key + "=" + rest;
      assert line[0] == key[0] && line[|key|] == '=';
      var other :| |other| <= 128 && Assigns(line, other);
      var raw :| '\n' !in raw && line == other + "=" + raw + "\n";
      assert line == other + "=" + (raw + "\n");
      OneKey(key, rest, other, raw + "\n");
    }
  }

  lemma OneKey(a: string, b: string, c: string, d: string)
    requires NamedKey(a) && NamedKey(c) && a + "=" + b == c + "=" + d
    ensures a == c
  {
    assert '=' !in a && '=' !in c;
    CaddyEnv.IndexOfFirst(a, '=', b);
    CaddyEnv.IndexOfFirst(c, '=', d);
    assert (a + "=" + b)[..|a|] == a && (c + "=" + d)[..|c|] == c;
  }

  lemma PrefixesAre()
    ensures "XD_DOMAIN" + "=" == "XD_DOMAIN=" && "XD_LAN_HTTPS_IP" + "=" == "XD_LAN_HTTPS_IP="
    ensures "XD_LEGACY_HTTP_ONLY" + "=" == "XD_LEGACY_HTTP_ONLY="
  {
  }

  lemma SettingsAre(p: Plan)
    ensures Setting(p, "XD_DOMAIN") == "XD_DOMAIN=" + (if p.domainEnabled then p.domain else "") + "\n"
    ensures Setting(p, "XD_LAN_HTTPS_IP") == "XD_LAN_HTTPS_IP=" + (if p.lanEnabled then p.lan else "") + "\n"
    ensures Setting(p, "XD_LEGACY_HTTP_ONLY") == "XD_LEGACY_HTTP_ONLY=0\n"
  {
    hide NamedKey;
    KeysAre();
    PrefixesAre();
    assert "XD_LEGACY_HTTP_ONLY" + "=" + "0" + "\n" == "XD_LEGACY_HTTP_ONLY=0\n";
  }

  lemma NewLineIs(p: Plan, line: string)
    requires FineLine(line)
    ensures NewLine(p, line) == Replaced(p, line)
  {
    hide Field, Assigns, FineLine, Setting, CANDIDATE_KEYS, Comment, Ends, NamedKey;
    KeysAre();
    PrefixesAre();
    SettingsAre(p);
    FineIs(line);
    StartsIs(line, "XD_DOMAIN");
    StartsIs(line, "XD_LAN_HTTPS_IP");
    StartsIs(line, "XD_LEGACY_HTTP_ONLY");
    AssignsIs(line, "XD_DOMAIN");
    AssignsIs(line, "XD_LAN_HTTPS_IP");
    AssignsIs(line, "XD_LEGACY_HTTP_ONLY");
  }

  lemma AddedIs(p: Plan, lines: seq<string>)
    requires Assigned(lines).Some?
    ensures Added(p, Assigned(lines).value, CANDIDATE_KEYS) == Missing(p, lines)
  {
    hide Assigned, Assigns, FineLine, Setting, NamedKey;
    KeysAre();
    PrefixesAre();
    SettingsAre(p);
    AssignedMeaning(lines);
    StartsThere(lines, "XD_DOMAIN");
    StartsThere(lines, "XD_LAN_HTTPS_IP");
    StartsThere(lines, "XD_LEGACY_HTTP_ONLY");
    AddedThree(p, Assigned(lines).value, "XD_DOMAIN", "XD_LAN_HTTPS_IP", "XD_LEGACY_HTTP_ONLY");
  }

  lemma AddedThree(p: Plan, seen: set<string>, a: string, b: string, c: string)
    ensures Added(p, seen, [a, b, c]) ==
      (if a in seen then [] else [Setting(p, a)]) + (if b in seen then [] else [Setting(p, b)])
        + (if c in seen then [] else [Setting(p, c)])
  {
    hide Setting;
    assert [a, b, c][..2] == [a, b] && [a, b][..1] == [a] && [a][..0] == [];
    assert Added(p, seen, [a]) == if a in seen then [] else [Setting(p, a)];
    assert Added(p, seen, [a, b]) == Added(p, seen, [a]) + if b in seen then [] else [Setting(p, b)];
  }

  lemma StartsThere(lines: seq<string>, key: string)
    requires NamedKey(key) && forall i :: 0 <= i < |lines| ==> FineLine(lines[i])
    ensures Starts(lines, key + "=") <==> exists i :: AssignsAt(lines, i, key)
  {
    hide FineLine, Assigns, NamedKey;
    forall i | 0 <= i < |lines| ensures AssignsAt(lines, i, key) <==> key + "=" <= lines[i] { StartsIs(lines[i], key); }
  }

  lemma LinesAre(p: Plan, text: string)
    requires Assigned(CaddyEnv.SplitLines(text)).Some?
    ensures forall out :: CandidateIs(p, CaddyEnv.SplitLines(text), out) <==> out == Lines(p, text)
  {
    hide Assigned, CaddyEnv.SplitLines, Rewritten, Added, Missing, Replaced, NewLine, CANDIDATE_KEYS, FineLine;
    var lines := CaddyEnv.SplitLines(text);
    AssignedMeaning(lines);
    AddedIs(p, lines);
    RewrittenIs(p, lines);
    forall i | 0 <= i < |lines| ensures Rewritten(p, lines)[i] == Replaced(p, lines[i]) { NewLineIs(p, lines[i]); }
    var all := Rewritten(p, lines) + Missing(p, lines);
    assert Lines(p, text) == all;
    assert CandidateIs(p, lines, all);
    forall out | CandidateIs(p, lines, out) ensures out == all {
      assert out == out[..|lines|] + out[|lines|..];
      assert out[..|lines|] == Rewritten(p, lines);
    }
  }

  /** A text that the rewrite takes. */
  ghost predicate Takes(text: string) {
    && text != "" && text[|text| - 1] == '\n' && '\r' !in text && '\0' !in text && 1 <= Utf8Length(text) <= 131_072
    && var lines := CaddyEnv.SplitLines(text);
       (forall i :: 0 <= i < |lines| ==> FineLine(lines[i])) && AssignedOnce(lines)
  }

  /** The host's reader sees what the plan wants. */
  ghost predicate Serves(p: Plan, candidate: string) {
    exists now ::
      && ViewedAs(Extract(CaddyEnv.SplitLines(candidate)), now)
      && now.domain == (if p.domainEnabled then p.domain else "") && now.ip == (if p.lanEnabled then p.lan else "")
      && !now.legacy
  }

  /** When a file is rewritten, and to what. */
  lemma CandidateMeaning(p: Plan, text: string, candidate: string)
    ensures RenderCandidate(p, text) == Some(candidate) <==>
      && Takes(text) && 1 <= Utf8Length(candidate) <= 131_072 && Serves(p, candidate)
      && exists out :: CandidateIs(p, CaddyEnv.SplitLines(text), out) && candidate == CaddyEnv.Flatten(out)
  {
    hide Assigned, CaddyEnv.SplitLines, CaddyEnv.Flatten, Lines, ReadEnv, ViewedAs, CandidateIs, FineLine, Extract,
      AssignedOnce;
    AssignedMeaning(CaddyEnv.SplitLines(text));
    if Assigned(CaddyEnv.SplitLines(text)).Some? {
      LinesAre(p, text);
      assert CandidateIs(p, CaddyEnv.SplitLines(text), Lines(p, text));
      forall now ensures ReadEnv(candidate) == Some(now) <==>
        ViewedAs(Extract(CaddyEnv.SplitLines(candidate)), now)
      {
        ReadMeaning(candidate, now);
      }
    }
  }
}

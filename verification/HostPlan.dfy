/** The candidate `.env` of an HTTPS plan: a fixed-key rewrite that the host's own reader must
    accept, and that changes nothing when it is applied again. */
module HostPlan {
  import opened Wrappers
  import CaddyEnv

  const CANDIDATE_KEYS: seq<string> := ["XD_DOMAIN", "XD_LAN_HTTPS_IP", "XD_LEGACY_HTTP_ONLY"]

  const ENV_FIELDS: seq<string> :=
    ["XD_DOMAIN", "XD_LAN_HTTPS_IP", "XD_LEGACY_HTTP_ONLY", "XD_HTTPS_BIND", "XD_HTTPS_PORT", "XD_WEB_BIND"]

  const MAX_TEXT := 131072

  /** The length of a text in UTF-8. */
  const Utf8Length: string -> nat

  /** The label structure of a domain, the ranges of private addresses and of ports. */
  const DomainLabels: string -> bool
  const PrivateQuad: string -> bool
  const PortNumber: string -> bool

  predicate PlainText(s: string) {
    forall i :: 0 <= i < |s| ==> 'a' <= s[i] <= 'z' || '0' <= s[i] <= '9' || s[i] == '.' || s[i] == '-'
  }

  predicate DnsDomain(s: string) {
    4 <= |s| <= 253 && PlainText(s) && DomainLabels(s)
  }

  predicate PrivateAddress(s: string) {
    0 < |s| <= 15 && PlainText(s) && PrivateQuad(s)
  }

  // ----- the plan -----

  datatype Plan = Plan(domainEnabled: bool, domain: string, lanEnabled: bool, lan: string, credentials: nat)

  /** What `validate_plan` lets through. */
  predicate PlanValid(p: Plan) {
    && (p.domainEnabled || p.lanEnabled)
    && (p.domain != "" ==> DnsDomain(p.domain)) && (p.lan != "" ==> PrivateAddress(p.lan))
    && (p.domainEnabled ==> p.domain != "" && p.credentials > 0) && (p.lanEnabled ==> p.lan != "")
  }

  function DesiredDomain(p: Plan): string {
    if p.domainEnabled then p.domain else ""
  }

  function DesiredAddress(p: Plan): string {
    if p.lanEnabled then p.lan else ""
  }

  function Replacement(p: Plan, key: string): string {
    if key == "XD_DOMAIN" then DesiredDomain(p)
    else if key == "XD_LAN_HTTPS_IP" then DesiredAddress(p)
    else "0"
  }

  // ----- lines -----

  predicate FieldName(s: string) {
    && s != [] && 'A' <= s[0] <= 'Z'
    && forall i :: 0 <= i < |s| ==> 'A' <= s[i] <= 'Z' || '0' <= s[i] <= '9' || s[i] == '_'
  }

  /** `KEY=value` on one line, the line break already taken off. */
  function Field(body: string): Option<(string, string)> {
    var i := CaddyEnv.IndexOf(body, '=');
    if i == |body| || !FieldName(body[..i]) || '\n' in body[i + 1..] then None else Some((body[..i], body[i + 1..]))
  }

  /** A line without its break. */
  function Body(line: string): string {
    if line == [] || !CaddyEnv.Break(line[|line| - 1]) then line
    else if |line| > 1 && line[|line| - 2] == '\r' && line[|line| - 1] == '\n' then line[..|line| - 2]
    else line[..|line| - 1]
  }

  // ----- the host's reader -----

  /** The known fields, unless one repeats or is unusable. */
  function Extract(lines: seq<string>): Option<map<string, string>> {
    if lines == [] then Some(map[])
    else
      var before, field := Extract(lines[..|lines| - 1]), Field(Body(lines[|lines| - 1]));
      if before == None || field == None || field.value.0 !in ENV_FIELDS then before
      else
        var (k, v) := (field.value.0, CaddyEnv.Unquote(field.value.1));
        if k in before.value || |v| > 253 || '\r' in v || '\n' in v then None else Some(before.value[k := v])
  }

  function Or(found: map<string, string>, key: string, other: string): string {
    if key in found then found[key] else other
  }

  datatype Installed = Installed(domain: string, ip: string, bind: string, legacy: bool)

  predicate Usable(found: map<string, string>) {
    var domain, ip, bind :=
      Or(found, "XD_DOMAIN", ""), Or(found, "XD_LAN_HTTPS_IP", ""), Or(found, "XD_HTTPS_BIND", "0.0.0.0");
    var legacy := Or(found, "XD_LEGACY_HTTP_ONLY", "0");
    && (domain != "" ==> DnsDomain(domain)) && (ip != "" ==> PrivateAddress(ip))
    && Or(found, "XD_WEB_BIND", "127.0.0.1") == "127.0.0.1"
    && (legacy == "0" || legacy == "1") && PortNumber(Or(found, "XD_HTTPS_PORT", "8443"))
    && (bind == "0.0.0.0" || PrivateAddress(bind)) && (ip != "" ==> bind == "0.0.0.0" || bind == ip)
    && (domain != "" || ip != "" || legacy == "1")
  }

  function View(found: map<string, string>): Installed {
    Installed(Or(found, "XD_DOMAIN", ""), Or(found, "XD_LAN_HTTPS_IP", ""), Or(found, "XD_HTTPS_BIND", "0.0.0.0"),
      Or(found, "XD_LEGACY_HTTP_ONLY", "0") == "1")
  }

  function ReadEnv(text: string): Option<Installed> {
    var found := Extract(CaddyEnv.SplitLines(text));
    if found == None || !Usable(found.value) then None else Some(View(found.value))
  }

  /** What the fields found must be, and what becomes of them. */
  ghost predicate ViewedAs(fields: Option<map<string, string>>, v: Installed) {
    && fields.Some?
    && var found := fields.value;
       && v.domain == Or(found, "XD_DOMAIN", "") && v.ip == Or(found, "XD_LAN_HTTPS_IP", "")
       && v.bind == Or(found, "XD_HTTPS_BIND", "0.0.0.0")
       && Or(found, "XD_LEGACY_HTTP_ONLY", "0") == (if v.legacy then "1" else "0")
       && Or(found, "XD_WEB_BIND", "127.0.0.1") == "127.0.0.1"
       && PortNumber(Or(found, "XD_HTTPS_PORT", "8443"))
       && (v.domain == "" || DnsDomain(v.domain)) && (v.ip == "" || PrivateAddress(v.ip))
       && !(v.domain == "" && v.ip == "" && !v.legacy)
       && (v.bind == "0.0.0.0" || (PrivateAddress(v.bind) && (v.ip == "" || v.bind == v.ip)))
  }

  lemma ReadMeaning(text: string, v: Installed)
    ensures ReadEnv(text) == Some(v) <==> ViewedAs(Extract(CaddyEnv.SplitLines(text)), v)
  {
    hide Extract, CaddyEnv.SplitLines, DnsDomain, PrivateAddress, Or;
    assert "0" != "1" by { assert "0"[0] != "1"[0]; }
  }

  /** `validate_env`. */
  method ValidateEnv(text: string) returns (r: Option<Installed>)
    ensures r == ReadEnv(text)
    ensures r.Some? ==> ViewedAs(Extract(CaddyEnv.SplitLines(text)), r.value)
  {
    hide Field, Body, Usable, View, ViewedAs;
    if ReadEnv(text).Some? { ReadMeaning(text, ReadEnv(text).value); }
    var lines := CaddyEnv.SplitLines(text);
    var found: map<string, string> := map[];
    for i := 0 to |lines|
      invariant Extract(lines[..i]) == Some(found)
    {
      ExtractStep(lines, i);
      var field := Field(Body(lines[i]));
      if field.Some? && field.value.0 in ENV_FIELDS {
        var k, v := field.value.0, CaddyEnv.Unquote(field.value.1);
        if k in found || |v| > 253 || '\r' in v || '\n' in v {
          ExtractFails(lines, i + 1);
          return None;
        }
        found := found[k := v];
      }
    }
    assert lines[..|lines|] == lines;
    r := if Usable(found) then Some(View(found)) else None;
  }

  lemma ExtractStep(lines: seq<string>, i: nat)
    requires i < |lines|
    ensures var before, field := Extract(lines[..i]), Field(Body(lines[i]));
      Extract(lines[..i + 1]) ==
        if before == None || field == None || field.value.0 !in ENV_FIELDS then before
        else
          var (k, v) := (field.value.0, CaddyEnv.Unquote(field.value.1));
          if k in before.value || |v| > 253 || '\r' in v || '\n' in v then None else Some(before.value[k := v])
  {
    hide Field, Body, ENV_FIELDS;
    assert lines[..i + 1][..i] == lines[..i];
  }

  lemma {:induction false} ExtractFails(lines: seq<string>, i: nat)
    requires i <= |lines| && Extract(lines[..i]) == None
    ensures Extract(lines) == None
  {
    hide Field, Body, ENV_FIELDS;
    if i < |lines| {
      assert lines[..|lines| - 1][..i] == lines[..i];
      ExtractFails(lines[..|lines| - 1], i);
    } else {
      assert lines[..i] == lines;
    }
  }

  // ----- the rewrite -----

  predicate Ends(line: string) {
    line != [] && line[|line| - 1] == '\n'
  }

  predicate Comment(body: string) {
    body == "" || body[0] == '#'
  }

  /** The keys assigned, unless a line is malformed or a key repeats. */
  function Assigned(lines: seq<string>): Option<set<string>> {
    if lines == [] then Some({})
    else
      var before, line := Assigned(lines[..|lines| - 1]), lines[|lines| - 1];
      if before == None || !Ends(line) then None
      else if Comment(line[..|line| - 1]) then before
      else
        var field := Field(line[..|line| - 1]);
        if field == None || |field.value.0| > 128 || field.value.0 in before.value then None
        else Some(before.value + {field.value.0})
  }

  function Setting(p: Plan, key: string): string {
    key + "=" + Replacement(p, key) + "\n"
  }

  function NewLine(p: Plan, line: string): string {
    if !Ends(line) || Comment(line[..|line| - 1]) then line
    else
      var field := Field(line[..|line| - 1]);
      if field.Some? && field.value.0 in CANDIDATE_KEYS then Setting(p, field.value.0) else line
  }

  function Rewritten(p: Plan, lines: seq<string>): seq<string> {
    if lines == [] then [] else Rewritten(p, lines[..|lines| - 1]) + [NewLine(p, lines[|lines| - 1])]
  }

  function Added(p: Plan, seen: set<string>, keys: seq<string>): seq<string> {
    if keys == [] then []
    else
      var key := keys[|keys| - 1];
      Added(p, seen, keys[..|keys| - 1]) + if key in seen then [] else [Setting(p, key)]
  }

  predicate Plain(text: string) {
    && 0 < Utf8Length(text) <= MAX_TEXT && Ends(text) && '\r' !in text && '\0' !in text
  }

  function Lines(p: Plan, text: string): seq<string> {
    var lines := CaddyEnv.SplitLines(text);
    Rewritten(p, lines) + Added(p, if Assigned(lines).Some? then Assigned(lines).value else {}, CANDIDATE_KEYS)
  }

  function Candidate(p: Plan, text: string): string {
    CaddyEnv.Flatten(Lines(p, text))
  }

  /** What the rewrite accepts, before it reads its own output back. */
  predicate Rewritable(p: Plan, text: string) {
    && Plain(text) && Assigned(CaddyEnv.SplitLines(text)).Some?
    && 0 < Utf8Length(Candidate(p, text)) <= MAX_TEXT
  }

  function RenderCandidate(p: Plan, text: string): Option<string> {
    if !Rewritable(p, text) then None
    else match ReadEnv(Candidate(p, text))
      case None => None
      case Some(actual) =>
        if actual.domain == DesiredDomain(p) && actual.ip == DesiredAddress(p) && !actual.legacy
        then Some(Candidate(p, text)) else None
  }

  /** The loop over the lines. */
  method RewriteLines(p: Plan, lines: seq<string>) returns (r: Option<(seq<string>, set<string>)>)
    ensures r.Some? <==> Assigned(lines).Some?
    ensures r.Some? ==> r.value == (Rewritten(p, lines), Assigned(lines).value)
  {
    hide Field, CANDIDATE_KEYS, Replacement;
    var seen: set<string>, result: seq<string> := {}, [];
    for i := 0 to |lines|
      invariant Assigned(lines[..i]) == Some(seen) && result == Rewritten(p, lines[..i])
    {
      var line := lines[i];
      assert lines[..i + 1][..i] == lines[..i];
      if !Ends(line) {
        AssignedFails(lines, i + 1);
        return None;
      }
      var body := line[..|line| - 1];
      if Comment(body) {
        result := result + [line];
      } else {
        var field := Field(body);
        if field == None || |field.value.0| > 128 || field.value.0 in seen {
          AssignedFails(lines, i + 1);
          return None;
        }
        seen := seen + {field.value.0};
        result := result + [if field.value.0 in CANDIDATE_KEYS then Setting(p, field.value.0) else line];
      }
    }
    assert lines[..|lines|] == lines;
    r := Some((result, seen));
  }

  lemma {:induction false} AssignedFails(lines: seq<string>, i: nat)
    requires i <= |lines| && Assigned(lines[..i]) == None
    ensures Assigned(lines) == None
  {
    hide Field;
    if i < |lines| {
      assert lines[..|lines| - 1][..i] == lines[..i];
      AssignedFails(lines[..|lines| - 1], i);
    } else {
      assert lines[..i] == lines;
    }
  }

  /** `render_candidate_env`. */
  method RenderCandidateEnv(p: Plan, text: string) returns (r: Option<string>)
    ensures r == RenderCandidate(p, text)
  {
    hide ReadEnv, Assigned, Rewritten, CaddyEnv.SplitLines, CaddyEnv.Flatten, CANDIDATE_KEYS, Replacement;
    if !Plain(text) {
      return None;
    }
    var lines := CaddyEnv.SplitLines(text);
    var rewritten := RewriteLines(p, lines);
    if rewritten == None {
      return None;
    }
    var (result, seen) := rewritten.value;
    for i := 0 to |CANDIDATE_KEYS|
      invariant result == Rewritten(p, lines) + Added(p, seen, CANDIDATE_KEYS[..i])
    {
      assert CANDIDATE_KEYS[..i + 1][..i] == CANDIDATE_KEYS[..i];
      if CANDIDATE_KEYS[i] !in seen {
        result := result + [Setting(p, CANDIDATE_KEYS[i])];
      }
    }
    assert CANDIDATE_KEYS[..|CANDIDATE_KEYS|] == CANDIDATE_KEYS;
    var candidate := CaddyEnv.Flatten(result);
    if !(0 < Utf8Length(candidate) <= MAX_TEXT) {
      return None;
    }
    var actual := ValidateEnv(candidate);
    if actual == None || actual.value.domain != DesiredDomain(p) || actual.value.ip != DesiredAddress(p)
      || actual.value.legacy {
      return None;
    }
    r := Some(candidate);
  }

  // ----- what a plan changes -----

  function Change(kind: string, before: string, after: string): seq<string> {
    if before == after then []
    else [(if before != "" && after != "" then "switch-" else if after != "" then "enable-" else "disable-") + kind]
  }

  predicate Risky(change: string) {
    "disable-" <= change || "switch-" <= change
  }

  predicate AnyRisky(changes: seq<string>) {
    exists i :: 0 <= i < |changes| && Risky(changes[i])
  }

  lemma RiskyChanges(a: seq<string>, b: seq<string>)
    ensures AnyRisky(a + b) <==> AnyRisky(a) || AnyRisky(b)
  {
    hide Risky;
    var all := a + b;
    if i :| 0 <= i < |a| && Risky(a[i]) { assert Risky(all[i]); }
    if i :| 0 <= i < |b| && Risky(b[i]) { assert Risky(all[|a| + i]); }
  }

  /** A change is risky exactly when it takes something away. */
  lemma RiskyChange(kind: string, before: string, after: string)
    ensures AnyRisky(Change(kind, before, after)) <==> before != after && before != ""
  {
    if before != after {
      var c := Change(kind, before, after)[0];
      if before == "" {
        assert c[0] == 'e' && "disable-"[0] == 'd' && "switch-"[0] == 's';
        assert !Risky(c);
      } else {
        assert Risky(c);
      }
    }
  }

  datatype Blocker = LegacyDeployment | BindMigration | IngressAtRisk | SecretHandoff

  /** What one side of the plan changes, if anything. */
  ghost function ChangeOf(kind: string, before: string, after: string): seq<string> {
    if before == after then []
    else if before == "" then ["enable-" + kind]
    else if after == "" then ["disable-" + kind]
    else ["switch-" + kind]
  }

  lemma ChangeMeaning(kind: string, before: string, after: string)
    ensures Change(kind, before, after) == ChangeOf(kind, before, after)
  {
  }

  datatype Ways = Both | DomainOnly | IpOnly | LegacyHttpOnly

  /** `mode`. */
  function Mode(domain: string, ip: string): Ways {
    if domain != "" && ip != "" then Both
    else if domain != "" then DomainOnly
    else if ip != "" then IpOnly
    else LegacyHttpOnly
  }

  /** `calculate_changes`: the changes, what blocks them, and the ways in that the plan wants. */
  method CalculateChanges(p: Plan, now: Installed) returns (changes: seq<string>, blockers: seq<Blocker>, wanted: Ways)
    ensures
      var domain, ip := if p.domainEnabled then p.domain else "", if p.lanEnabled then p.lan else "";
      && changes == ChangeOf("domain", now.domain, domain) + ChangeOf("lan", now.ip, ip)
      && (LegacyDeployment in blockers <==> now.legacy)
      && (BindMigration in blockers <==> ip != "" && now.bind != "0.0.0.0" && now.bind != ip)
      && (IngressAtRisk in blockers <==>
            (now.domain != "" && now.domain != domain) || (now.ip != "" && now.ip != ip))
      && (SecretHandoff in blockers <==> p.domainEnabled)
      && (wanted == Both <==> domain != "" && ip != "") && (wanted == DomainOnly <==> domain != "" && ip == "")
      && (wanted == IpOnly <==> domain == "" && ip != "") && (wanted == LegacyHttpOnly <==> domain == "" && ip == "")
  {
    hide Change, AnyRisky, ChangeOf;
    changes := Change("domain", now.domain, DesiredDomain(p)) + Change("lan", now.ip, DesiredAddress(p));
    ChangeMeaning("domain", now.domain, DesiredDomain(p));
    ChangeMeaning("lan", now.ip, DesiredAddress(p));
    blockers := [];
    if now.legacy {
      blockers := blockers + [LegacyDeployment];
    }
    if DesiredAddress(p) != "" && now.bind != "0.0.0.0" && now.bind != DesiredAddress(p) {
      blockers := blockers + [BindMigration];
    }
    RiskyChanges(Change("domain", now.domain, DesiredDomain(p)), Change("lan", now.ip, DesiredAddress(p)));
    RiskyChange("domain", now.domain, DesiredDomain(p));
    RiskyChange("lan", now.ip, DesiredAddress(p));
    if AnyRisky(changes) {
      blockers := blockers + [IngressAtRisk];
    }
    if p.domainEnabled {
      blockers := blockers + [SecretHandoff];
    }
    wanted := Mode(DesiredDomain(p), DesiredAddress(p));
  }

  // ----- reading the candidate back -----

  ghost predicate Tidy(lines: seq<string>) {
    forall i :: 0 <= i < |lines| ==> CaddyEnv.IsLine(lines[i]) && Ends(lines[i])
  }

  lemma {:induction false} FlattenSplits(lines: seq<string>)
    requires Tidy(lines)
    ensures CaddyEnv.SplitLines(CaddyEnv.Flatten(lines)) == lines
    ensures lines != [] ==> Ends(CaddyEnv.Flatten(lines))
  {
    hide CaddyEnv.IsLine;
    if lines != [] {
      var k := |lines| - 1;
      FlattenSplits(lines[..k]);
      assert CaddyEnv.IsLine(lines[k]) && Ends(lines[k]);
      CaddyEnv.SplitConcat(CaddyEnv.Flatten(lines[..k]), lines[k]);
      CaddyEnv.LineIsItself(lines[k]);
    }
  }

  predicate Capital(key: string) {
    key != [] && 'A' <= key[0] <= 'Z' && forall i :: 0 <= i < |key| ==> 'A' <= key[i] <= 'Z' || key[i] == '_'
  }

  lemma CandidateKeys()
    ensures forall k :: k in CANDIDATE_KEYS ==> Capital(k) && |k| <= 128 && k in ENV_FIELDS
  {
    assert Capital("XD_DOMAIN") && Capital("XD_LAN_HTTPS_IP") && Capital("XD_LEGACY_HTTP_ONLY");
    assert ENV_FIELDS[0] == CANDIDATE_KEYS[0] && ENV_FIELDS[1] == CANDIDATE_KEYS[1]
      && ENV_FIELDS[2] == CANDIDATE_KEYS[2];
    assert |CANDIDATE_KEYS[0]| == 9 && |CANDIDATE_KEYS[1]| == 15 && |CANDIDATE_KEYS[2]| == 19;
  }

  lemma ReplacementPlain(p: Plan, key: string)
    requires PlanValid(p)
    ensures PlainText(Replacement(p, key)) && |Replacement(p, key)| <= 253
  {
  }

  /** A setting is one line that both readers take for its key and value. */
  lemma SettingReads(p: Plan, key: string)
    requires PlanValid(p) && key in CANDIDATE_KEYS
    ensures var s := Setting(p, key);
      && CaddyEnv.IsLine(s) && Ends(s) && '\r' !in s && '\0' !in s
      && !Comment(s[..|s| - 1]) && Body(s) == s[..|s| - 1]
      && Field(s[..|s| - 1]) == Some((key, Replacement(p, key)))
      && CaddyEnv.Unquote(Replacement(p, key)) == Replacement(p, key)
      && |key| <= 128 && key in ENV_FIELDS
  {
    hide Replacement, CANDIDATE_KEYS, ENV_FIELDS, PlanValid;
    CandidateKeys();
    assert Capital(key);
    var v := Replacement(p, key);
    ReplacementPlain(p, key);
    var body := key + "=" + v;
    SettingBody(key, v);
    CaddyEnv.LineEndAtEnding(body, "\n");
    assert Setting(p, key) == body + "\n" && (body + "\n")[..|body|] == body;
  }

  lemma SettingBody(key: string, v: string)
    requires Capital(key) && PlainText(v)
    ensures var body := key + "=" + v;
      && (forall i :: 0 <= i < |body| ==> !CaddyEnv.Break(body[i]) && body[i] != '\0')
      && !Comment(body) && Field(body) == Some((key, v)) && CaddyEnv.Unquote(v) == v
  {
    var body := key + "=" + v;
    assert forall i :: 0 <= i < |body| ==>
      body[i] == if i < |key| then key[i] else if i == |key| then '=' else v[i - |key| - 1];
    assert '=' !in key;
    assert body == key + ['='] + v;
    CaddyEnv.IndexOfFirst(key, '=', v);
    assert body[..|key|] == key && body[|key| + 1..] == v;
    assert v != [] ==> v[0] != '"';
  }

  /** The rewritten lines: tidy, with the same keys, and each already as the plan wants it. */
  lemma {:induction false} RewrittenFacts(p: Plan, lines: seq<string>)
    requires PlanValid(p) && Assigned(lines).Some? && forall i :: 0 <= i < |lines| ==> CaddyEnv.IsLine(lines[i])
    ensures Tidy(Rewritten(p, lines)) && Assigned(Rewritten(p, lines)) == Assigned(lines)
    ensures Rewritten(p, Rewritten(p, lines)) == Rewritten(p, lines)
    ensures forall key :: key in CANDIDATE_KEYS && key in Assigned(lines).value ==>
      Setting(p, key) in Rewritten(p, lines)
  {
    hide Field, CANDIDATE_KEYS, PlanValid, Setting, CaddyEnv.IsLine, Comment, NewLine, Ends;
    if lines != [] {
      var k := |lines| - 1;
      AssignedStep(lines);
      RewrittenFacts(p, lines[..k]);
      NewLineFacts(p, lines[k]);
      var before, line := Rewritten(p, lines[..k]), NewLine(p, lines[k]);
      assert (before + [line])[..|before|] == before;
      AssignedStep(before + [line]);
      RewrittenStep(p, before + [line]);
    }
  }

  lemma AssignedStep(lines: seq<string>)
    requires lines != []
    ensures var before, line := Assigned(lines[..|lines| - 1]), lines[|lines| - 1];
      Assigned(lines) ==
        if before == None || !Ends(line) then None
        else if Comment(line[..|line| - 1]) then before
        else if Field(line[..|line| - 1]) == None || |Field(line[..|line| - 1]).value.0| > 128 ||
                Field(line[..|line| - 1]).value.0 in before.value then None
        else Some(before.value + {Field(line[..|line| - 1]).value.0})
  {
    hide Field, Comment;
  }

  lemma RewrittenStep(p: Plan, lines: seq<string>)
    requires lines != []
    ensures Rewritten(p, lines) == Rewritten(p, lines[..|lines| - 1]) + [NewLine(p, lines[|lines| - 1])]
  {
  }

  lemma NewLineFacts(p: Plan, line: string)
    requires PlanValid(p) && CaddyEnv.IsLine(line) && Ends(line)
    ensures var next := NewLine(p, line);
      && CaddyEnv.IsLine(next) && Ends(next) && NewLine(p, next) == next
      && Comment(next[..|next| - 1]) == Comment(line[..|line| - 1])
      && (!Comment(line[..|line| - 1]) ==>
            var f, g := Field(line[..|line| - 1]), Field(next[..|next| - 1]);
            && (f.Some? <==> g.Some?) && (f.Some? ==> f.value.0 == g.value.0)
            && (f.Some? && f.value.0 in CANDIDATE_KEYS ==> next == Setting(p, f.value.0)))
  {
    hide CANDIDATE_KEYS, PlanValid, Setting, CaddyEnv.IsLine, Field, Comment;
    if !Comment(line[..|line| - 1]) {
      var f := Field(line[..|line| - 1]);
      if f.Some? && f.value.0 in CANDIDATE_KEYS { SettingReads(p, f.value.0); }
    }
  }

  function Firsts(keys: seq<string>): set<string> {
    set k | k in keys
  }

  /** The added lines, after lines that lack their keys. */
  lemma {:induction false} AddedFacts(p: Plan, lines: seq<string>, seen: set<string>, i: nat)
    requires PlanValid(p) && Assigned(lines) == Some(seen) && i <= |CANDIDATE_KEYS|
    ensures var all := lines + Added(p, seen, CANDIDATE_KEYS[..i]);
      && Tidy(Added(p, seen, CANDIDATE_KEYS[..i]))
      && Assigned(all) == Some(seen + Firsts(CANDIDATE_KEYS[..i]))
      && Rewritten(p, all) == Rewritten(p, lines) + Added(p, seen, CANDIDATE_KEYS[..i])
      && forall key :: key in CANDIDATE_KEYS[..i] && key !in seen ==>
        Setting(p, key) in Added(p, seen, CANDIDATE_KEYS[..i])
  {
    hide Field, PlanValid, Setting, CaddyEnv.IsLine, Comment, CANDIDATE_KEYS, Assigned, Rewritten, Added, Ends;
    if i == 0 {
      NothingAdded(p, seen);
      assert lines + [] == lines && CANDIDATE_KEYS[..0] == [] && seen + Firsts([]) == seen;
      assert Rewritten(p, lines) + [] == Rewritten(p, lines);
    } else {
      var j, key := i - 1, CANDIDATE_KEYS[i - 1];
      AddedFacts(p, lines, seen, j);
      assert CANDIDATE_KEYS[..i][..j] == CANDIDATE_KEYS[..j] && CANDIDATE_KEYS[..i] == CANDIDATE_KEYS[..j] + [key];
      assert Firsts(CANDIDATE_KEYS[..i]) == Firsts(CANDIDATE_KEYS[..j]) + {key};
      KeyIsNew(j);
      AddedStep(p, seen, CANDIDATE_KEYS[..i]);
      var before := Added(p, seen, CANDIDATE_KEYS[..j]);
      if key in seen {
        assert before + [] == before;
        assert seen + Firsts(CANDIDATE_KEYS[..i]) == seen + Firsts(CANDIDATE_KEYS[..j]);
      } else {
        AppendSetting(p, lines + before, key);
        assert lines + (before + [Setting(p, key)]) == (lines + before) + [Setting(p, key)];
        assert (Rewritten(p, lines) + before) + [Setting(p, key)] == Rewritten(p, lines) + (before + [Setting(p, key)]);
        assert seen + Firsts(CANDIDATE_KEYS[..i]) == seen + Firsts(CANDIDATE_KEYS[..j]) + {key};
      }
    }
  }

  lemma NothingAdded(p: Plan, seen: set<string>)
    ensures Added(p, seen, []) == []
  {
  }

  lemma AddedStep(p: Plan, seen: set<string>, keys: seq<string>)
    requires keys != []
    ensures Added(p, seen, keys) ==
      Added(p, seen, keys[..|keys| - 1]) + if keys[|keys| - 1] in seen then [] else [Setting(p, keys[|keys| - 1])]
  {
  }

  lemma KeyIsNew(j: nat)
    requires j < |CANDIDATE_KEYS|
    ensures CANDIDATE_KEYS[j] !in CANDIDATE_KEYS[..j]
  {
    assert |CANDIDATE_KEYS[0]| == 9 && |CANDIDATE_KEYS[1]| == 15 && |CANDIDATE_KEYS[2]| == 19;
  }

  lemma AppendSetting(p: Plan, lines: seq<string>, key: string)
    requires PlanValid(p) && key in CANDIDATE_KEYS && Assigned(lines).Some? && key !in Assigned(lines).value
    ensures var all := lines + [Setting(p, key)];
      && CaddyEnv.IsLine(Setting(p, key)) && Ends(Setting(p, key))
      && Assigned(all) == Some(Assigned(lines).value + {key})
      && Rewritten(p, all) == Rewritten(p, lines) + [Setting(p, key)]
  {
    hide CANDIDATE_KEYS, PlanValid, Setting, CaddyEnv.IsLine, Field, Comment;
    SettingReads(p, key);
    var all := lines + [Setting(p, key)];
    assert all[..|all| - 1] == lines;
  }

  /** The candidate's lines, taken together. */
  lemma CandidateLines(p: Plan, text: string)
    requires PlanValid(p) && Rewritable(p, text)
    ensures var all := Lines(p, text);
      && Tidy(all) && all != [] && CaddyEnv.SplitLines(Candidate(p, text)) == all
      && Assigned(all).Some?
        && (forall key :: key in CANDIDATE_KEYS ==> key in Assigned(all).value && Setting(p, key) in all)
      && Rewritten(p, all) == all
  {
    hide CANDIDATE_KEYS, PlanValid, Setting, CaddyEnv.IsLine, Assigned, Rewritten, Added, CaddyEnv.SplitLines;
    var lines := CaddyEnv.SplitLines(text);
    CaddyEnv.SplitFacts(text);
    var seen := Assigned(lines).value;
    RewrittenFacts(p, lines);
    AddedFacts(p, Rewritten(p, lines), seen, |CANDIDATE_KEYS|);
    assert CANDIDATE_KEYS[..|CANDIDATE_KEYS|] == CANDIDATE_KEYS;
    FlattenSplits(Lines(p, text));
    assert CANDIDATE_KEYS[0] in CANDIDATE_KEYS by { NotEmpty(); }
  }

  lemma NotEmpty()
    ensures |CANDIDATE_KEYS| > 0
  {
  }

  lemma {:induction false} AddedNone(p: Plan, seen: set<string>, keys: seq<string>)
    requires forall k :: k in keys ==> k in seen
    ensures Added(p, seen, keys) == []
  {
    if keys != [] { AddedNone(p, seen, keys[..|keys| - 1]); }
  }

  /** The candidate's text, rewritten, is itself. */
  lemma RewriteAgain(p: Plan, text: string)
    requires PlanValid(p) && Rewritable(p, text)
    ensures Candidate(p, Candidate(p, text)) == Candidate(p, text)
    ensures Assigned(CaddyEnv.SplitLines(Candidate(p, text))).Some? && Ends(Candidate(p, text))
  {
    hide CANDIDATE_KEYS, PlanValid, Setting, CaddyEnv.IsLine, Assigned, Rewritten, Rewritable;
    CandidateLines(p, text);
    var all := Lines(p, text);
    AddedNone(p, Assigned(all).value, CANDIDATE_KEYS);
    assert all + [] == all;
    FlattenSplits(all);
  }

  ghost predicate NoOddChars(s: string) {
    '\r' !in s && '\0' !in s
  }

  lemma {:induction false} FlattenChars(lines: seq<string>)
    ensures (forall i :: 0 <= i < |lines| ==> NoOddChars(lines[i])) <==> NoOddChars(CaddyEnv.Flatten(lines))
  {
    if lines != [] {
      var k := |lines| - 1;
      FlattenChars(lines[..k]);
      var a, b := CaddyEnv.Flatten(lines[..k]), lines[k];
      assert forall c :: c in a + b <==> c in a || c in b;
      assert forall i :: 0 <= i < k ==> lines[..k][i] == lines[i];
    }
  }

  lemma {:induction false} RewrittenChars(p: Plan, lines: seq<string>)
    requires PlanValid(p) && forall i :: 0 <= i < |lines| ==> NoOddChars(lines[i])
    ensures forall i :: 0 <= i < |Rewritten(p, lines)| ==> NoOddChars(Rewritten(p, lines)[i])
  {
    hide Field, CANDIDATE_KEYS, PlanValid, Setting;
    if lines != [] {
      var k := |lines| - 1;
      RewrittenChars(p, lines[..k]);
      RewrittenLength(p, lines[..k]);
      assert lines[..k] == [] || NoOddChars(lines[k]);
      if Ends(lines[k]) && !Comment(lines[k][..|lines[k]| - 1]) {
        var f := Field(lines[k][..|lines[k]| - 1]);
        if f.Some? && f.value.0 in CANDIDATE_KEYS { SettingReads(p, f.value.0); }
      }
    }
  }

  lemma {:induction false} RewrittenLength(p: Plan, lines: seq<string>)
    ensures |Rewritten(p, lines)| == |lines|
  {
    if lines != [] { RewrittenLength(p, lines[..|lines| - 1]); }
  }

  lemma {:induction false} AddedChars(p: Plan, seen: set<string>, keys: seq<string>)
    requires PlanValid(p) && forall k :: k in keys ==> k in CANDIDATE_KEYS
    ensures forall i :: 0 <= i < |Added(p, seen, keys)| ==> NoOddChars(Added(p, seen, keys)[i])
  {
    hide CANDIDATE_KEYS, PlanValid, Setting;
    if keys != [] {
      AddedChars(p, seen, keys[..|keys| - 1]);
      SettingReads(p, keys[|keys| - 1]);
    }
  }

  lemma CandidateChars(p: Plan, text: string)
    requires PlanValid(p) && Rewritable(p, text)
    ensures NoOddChars(Candidate(p, text))
  {
    hide CANDIDATE_KEYS, PlanValid, Setting, Assigned, CaddyEnv.SplitLines, Rewritten, Added, CaddyEnv.Flatten,
      NoOddChars;
    assert NoOddChars(text) by { PlainIsNoOdd(text); }
    var lines := CaddyEnv.SplitLines(text);
    CaddyEnv.SplitFacts(text);
    FlattenChars(lines);
    RewrittenChars(p, lines);
    RewrittenLength(p, lines);
    var seen := Assigned(lines).value;
    AddedChars(p, seen, CANDIDATE_KEYS);
    FlattenChars(Lines(p, text));
  }

  lemma PlainIsNoOdd(text: string)
    requires Plain(text)
    ensures NoOddChars(text)
  {
  }

  /** The rewrite is idempotent. */
  lemma RenderIdempotent(p: Plan, text: string)
    requires PlanValid(p) && RenderCandidate(p, text).Some?
    ensures RenderCandidate(p, RenderCandidate(p, text).value) == RenderCandidate(p, text)
  {
    hide PlanValid, Candidate, Assigned, CaddyEnv.SplitLines, ReadEnv;
    RewriteAgain(p, text);
    CandidateChars(p, text);
  }

  lemma {:induction false} ExtractHas(lines: seq<string>, i: nat, k: string, v: string)
    requires Extract(lines).Some? && i < |lines| && Field(Body(lines[i])) == Some((k, v)) && k in ENV_FIELDS
    ensures k in Extract(lines).value && Extract(lines).value[k] == CaddyEnv.Unquote(v)
  {
    hide Field, Body, ENV_FIELDS;
    var j := |lines| - 1;
    assert lines[..j + 1] == lines;
    ExtractStep(lines, j);
    if i < j { ExtractHas(lines[..j], i, k, v); }
  }

  /** Whatever the host's reader makes of the candidate, it sees what the plan wants. So the
      comparison that follows the reading never fails: a candidate is refused only when it
      cannot be read at all. */
  lemma ReaderAgrees(p: Plan, text: string)
    requires PlanValid(p) && Rewritable(p, text) && ReadEnv(Candidate(p, text)).Some?
    ensures var actual := ReadEnv(Candidate(p, text)).value;
      actual.domain == DesiredDomain(p) && actual.ip == DesiredAddress(p) && !actual.legacy
    ensures RenderCandidate(p, text) == Some(Candidate(p, text))
  {
    hide Field, Body, PlanValid, Setting, Assigned, Rewritten, CaddyEnv.SplitLines, Extract, Usable, Candidate;
    CandidateLines(p, text);
    var all := Lines(p, text);
    SettingExtracted(p, all, "XD_DOMAIN");
    SettingExtracted(p, all, "XD_LAN_HTTPS_IP");
    SettingExtracted(p, all, "XD_LEGACY_HTTP_ONLY");
  }

  lemma SettingExtracted(p: Plan, lines: seq<string>, key: string)
    requires PlanValid(p) && key in CANDIDATE_KEYS && Setting(p, key) in lines && Extract(lines).Some?
    ensures key in Extract(lines).value && Extract(lines).value[key] == Replacement(p, key)
  {
    hide Field, Body, PlanValid, Setting, Extract, CANDIDATE_KEYS, ENV_FIELDS, Replacement;
    SettingReads(p, key);
    var i :| 0 <= i < |lines| && lines[i] == Setting(p, key);
    ExtractHas(lines, i, key, Replacement(p, key));
  }

  /** Once a candidate is in place, the same plan has nothing left to change, and only the hand
      over of a secret can block it. */
  method NothingToChange(p: Plan, text: string, candidate: string)
    returns (changes: seq<string>, blockers: seq<Blocker>, wanted: Ways)
    requires PlanValid(p) && RenderCandidate(p, text) == Some(candidate)
    ensures changes == [] && wanted != LegacyHttpOnly
    ensures forall b :: b in blockers ==> b == SecretHandoff && p.domainEnabled
  {
    var now := ValidateEnv(candidate);
    CandidateUsable(p, text);
    changes, blockers, wanted := CalculateChanges(p, now.value);
    forall b | b in blockers ensures b == SecretHandoff {
      match b
      case LegacyDeployment => assert false;
      case BindMigration => assert false;
      case IngressAtRisk => assert false;
      case SecretHandoff =>
    }
  }

  lemma CandidateUsable(p: Plan, text: string)
    requires RenderCandidate(p, text).Some?
    ensures ReadEnv(RenderCandidate(p, text).value).Some?
    ensures var now := ReadEnv(RenderCandidate(p, text).value).value;
      && now.domain == DesiredDomain(p) && now.ip == DesiredAddress(p) && !now.legacy
      && (DesiredAddress(p) != "" ==> now.bind == "0.0.0.0" || now.bind == DesiredAddress(p))
  {
    hide Extract, DnsDomain, PrivateAddress, Candidate, Rewritable;
  }
}

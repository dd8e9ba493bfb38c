/** The save / commit / restore journal beside the Caddy `.env` file, and crashes between any
    two of its file operations. */
module CaddyJournal {
  import opened Wrappers
  import opened CaddyEnv

  /** The digest of a set of values. Nothing is known of it. */
  const Fingerprint: Values -> string

  /** The cryptographic assumption: no two different members of a universe of values share a
      digest. */
  ghost predicate FingerprintsTell(universe: iset<Values>) {
    forall a, b :: a in universe && b in universe && Fingerprint(a) == Fingerprint(b) ==> a == b
  }

  /** The authoritative file, the pinned copy of it, and the fingerprint that a deployment is
      to find. Each is replaced or removed atomically. */
  datatype Journal = Journal(env: string, backup: Option<string>, marker: Option<string>)

  datatype FileOp = PutBackup(text: string) | PutMarker(target: string) | PutEnv(text: string) | DropMarker | DropBackup

  function ApplyOp(j: Journal, op: FileOp): Journal {
    match op
    case PutBackup(text) => j.(backup := Some(text))
    case PutMarker(target) => j.(marker := Some(target))
    case PutEnv(text) => j.(env := text)
    case DropMarker => j.(marker := None)
    case DropBackup => j.(backup := None)
  }

  // ----- requests -----

  datatype Https = Https(enabled: bool, domain: string, lanEnabled: bool, lanAddress: string)

  datatype AliDns = Clear | Replace(id: Option<string>, secret: Option<string>)

  datatype Request = Request(https: Option<Https>, alidns: Option<AliDns>)

  /** Lower-casing, the host-name patterns and the private-address check belong to Python's
      libraries. */
  const Lower: string -> string
  const HostPattern: string -> bool
  const AlphabeticTopLabel: string -> bool
  const PrivateAddress: string -> bool

  function Update(before: Values, request: Request): Values {
    var a := match request.https
      case None => before
      case Some(e) =>
        before["XD_DOMAIN" := if e.enabled then Lower(e.domain) else ""]
              ["XD_LAN_HTTPS_IP" := if e.lanEnabled then e.lanAddress else ""];
    match request.alidns
    case None => a
    case Some(Clear) => a["ALIYUN_ACCESS_KEY_ID" := ""]["ALIYUN_ACCESS_KEY_SECRET" := ""]
    case Some(Replace(id, secret)) =>
      var b := if id.Some? then a["ALIYUN_ACCESS_KEY_ID" := id.value] else a;
      if secret.Some? then b["ALIYUN_ACCESS_KEY_SECRET" := secret.value] else b
  }

  predicate Acceptable(v: Values) {
    var domain, lan := Valued(v, "XD_DOMAIN"), Valued(v, "XD_LAN_HTTPS_IP");
    var id, secret := Valued(v, "ALIYUN_ACCESS_KEY_ID"), Valued(v, "ALIYUN_ACCESS_KEY_SECRET");
    && (forall k :: k in KEYS ==> Safe(Valued(v, k)))
    && (domain != "" || lan != "")
    && (domain != "" ==> |domain| >= 4 && HostPattern(domain) && AlphabeticTopLabel(domain))
    && (lan != "" ==> PrivateAddress(lan))
    && (id != "" <==> secret != "")
    && (id != "" || domain != "" ==> 8 <= |id| <= 128 && 8 <= |secret| <= 256)
  }

  // ----- what each command does -----

  datatype Command = Save(expected: string, request: Request) | Commit(expected: string) | Restore(expected: string)

  predicate Expects(j: Journal, expected: string) {
    Parse(j.env).Some? && Fingerprint(Parse(j.env).value) == expected
  }

  /** A save starts from a clean journal, or from the last save's finished state. */
  predicate Saveable(j: Journal, expected: string, request: Request) {
    && Expects(j, expected) && (request.https.Some? || request.alidns.Some?)
    && (if j.marker.Some? then j.marker.value == expected && j.backup.Some? else j.backup == None)
    && Acceptable(Update(Parse(j.env).value, request))
  }

  predicate Committable(j: Journal, expected: string) {
    Expects(j, expected) && j.backup.Some? && j.marker == Some(expected)
  }

  predicate Restorable(j: Journal, expected: string) {
    Expects(j, expected) && j.backup.Some? && Parse(j.backup.value).Some?
  }

  predicate Accepts(j: Journal, c: Command) {
    match c
    case Save(expected, request) => Saveable(j, expected, request)
    case Commit(expected) => Committable(j, expected)
    case Restore(expected) => Restorable(j, expected)
  }

  /** The file operations of an accepted command, in order. */
  function Plan(j: Journal, c: Command): seq<FileOp>
    requires Accepts(j, c)
  {
    match c
    case Save(expected, request) =>
      var v := Update(Parse(j.env).value, request);
      (if j.marker == None then [PutBackup(j.env), PutMarker(expected)] else [])
        + [PutEnv(Render(j.env, v)), PutMarker(Fingerprint(v))]
    case Commit(_) => [DropMarker, DropBackup]
    case Restore(_) =>
      [PutEnv(Render(j.env, Parse(j.backup.value).value))]
        + (if j.marker.Some? then [DropMarker] else []) + [DropBackup]
  }

  function ApplyOps(j: Journal, ops: seq<FileOp>): Journal {
    if ops == [] then j else ApplyOp(ApplyOps(j, ops[..|ops| - 1]), ops[|ops| - 1])
  }

  lemma NoOps(j: Journal)
    ensures ApplyOps(j, []) == j
  {
  }

  lemma OneMore(j: Journal, ops: seq<FileOp>, op: FileOp)
    ensures ApplyOps(j, ops + [op]) == ApplyOp(ApplyOps(j, ops), op)
  {
    assert (ops + [op])[..|ops|] == ops;
  }

  lemma UpdateFull(before: Values, request: Request)
    requires Full(before)
    ensures Full(Update(before, request))
  {
    assert KEYS[0] in KEYS && KEYS[1] in KEYS && KEYS[2] in KEYS && KEYS[3] in KEYS;
  }

  /** The values of an accepted save survive the trip through the file. */
  lemma SavedValues(j: Journal, expected: string, request: Request)
    requires Saveable(j, expected, request)
    ensures var v := Update(Parse(j.env).value, request);
      && AllSafe(v) && Full(v) && Full(Parse(j.env).value) && Parse(Render(j.env, v)) == Some(v)
      && KeptText(SplitLines(Render(j.env, v))) ==
           KeptText(SplitLines(j.env)) + LastNewline(SplitLines(j.env), Ending(j.env))
  {
    hide Update, Parse, Render, SplitLines, KeptText, LastNewline, Safe, KEYS;
    ParsedIsWritable(j.env);
    UpdateFull(Parse(j.env).value, request);
    SafeRoundTrip(j.env, Update(Parse(j.env).value, request));
  }

  // ----- the same, in plain terms -----

  /** The characters of a saved value. */
  ghost predicate PlainValue(v: string) {
    |v| <= 512 &&
    forall i :: 0 <= i < |v| ==>
      || 'A' <= v[i] <= 'Z' || 'a' <= v[i] <= 'z' || '0' <= v[i] <= '9'
      || v[i] in ['_', '.', '/', '+', '=', ':', '@', '%', '-']
  }

  /** What validation demands of the four values. */
  ghost predicate Presentable(domain: string, lan: string, id: string, secret: string) {
    && PlainValue(domain) && PlainValue(lan) && PlainValue(id) && PlainValue(secret)
    && !(domain == "" && lan == "")
    && (domain == "" || (|domain| >= 4 && HostPattern(domain) && AlphabeticTopLabel(domain)))
    && (lan == "" || PrivateAddress(lan))
    && (id == "" <==> secret == "")
    && ((id == "" && domain == "") || (8 <= |id| <= 128 && 8 <= |secret| <= 256))
  }

  lemma SafeMeaning(v: string)
    ensures Safe(v) <==> PlainValue(v)
  {
    if PlainValue(v) { forall i | 0 <= i < |v| ensures SafeChar(v[i]) {} }
    if Safe(v) {
      forall i | 0 <= i < |v|
        ensures 'A' <= v[i] <= 'Z' || 'a' <= v[i] <= 'z' || '0' <= v[i] <= '9'
          || v[i] in ['_', '.', '/', '+', '=', ':', '@', '%', '-']
      {
        assert SafeChar(v[i]);
      }
    }
  }

  lemma AcceptableMeaning(v: Values)
    requires Full(v)
    ensures v.Keys == {"XD_DOMAIN", "XD_LAN_HTTPS_IP", "ALIYUN_ACCESS_KEY_ID", "ALIYUN_ACCESS_KEY_SECRET"}
    ensures Acceptable(v) <==> Presentable(
      v["XD_DOMAIN"], v["XD_LAN_HTTPS_IP"], v["ALIYUN_ACCESS_KEY_ID"], v["ALIYUN_ACCESS_KEY_SECRET"])
  {
    hide Safe, PlainValue, KEYS;
    FourKeys(v);
    SafeMeaning(v["XD_DOMAIN"]);
    SafeMeaning(v["XD_LAN_HTTPS_IP"]);
    SafeMeaning(v["ALIYUN_ACCESS_KEY_ID"]);
    SafeMeaning(v["ALIYUN_ACCESS_KEY_SECRET"]);
  }

  /** Key by key, what a request asks for. */
  ghost predicate AsAsked(was: Values, request: Request, now: Values) {
    && was.Keys == {"XD_DOMAIN", "XD_LAN_HTTPS_IP", "ALIYUN_ACCESS_KEY_ID", "ALIYUN_ACCESS_KEY_SECRET"}
    && now.Keys == was.Keys
    && now["XD_DOMAIN"] ==
         (if request.https == None then was["XD_DOMAIN"]
          else if request.https.value.enabled then Lower(request.https.value.domain) else "")
    && now["XD_LAN_HTTPS_IP"] ==
         (if request.https == None then was["XD_LAN_HTTPS_IP"]
          else if request.https.value.lanEnabled then request.https.value.lanAddress else "")
    && now["ALIYUN_ACCESS_KEY_ID"] ==
         (match request.alidns
          case None => was["ALIYUN_ACCESS_KEY_ID"]
          case Some(Clear) => ""
          case Some(Replace(id, _)) => if id.Some? then id.value else was["ALIYUN_ACCESS_KEY_ID"])
    && now["ALIYUN_ACCESS_KEY_SECRET"] ==
         (match request.alidns
          case None => was["ALIYUN_ACCESS_KEY_SECRET"]
          case Some(Clear) => ""
          case Some(Replace(_, secret)) => if secret.Some? then secret.value else was["ALIYUN_ACCESS_KEY_SECRET"])
  }

  lemma UpdateMeaning(was: Values, request: Request)
    requires Full(was)
    ensures AsAsked(was, request, Update(was, request))
  {
    hide KEYS, Lower;
    UpdateFull(was, request);
    FourKeys(was);
    FourKeys(Update(was, request));
    KeysApart();
  }

  lemma KeysApart()
    ensures "XD_DOMAIN" != "XD_LAN_HTTPS_IP"
    ensures "ALIYUN_ACCESS_KEY_ID" != "ALIYUN_ACCESS_KEY_SECRET"
    ensures {"XD_DOMAIN", "XD_LAN_HTTPS_IP"} !! {"ALIYUN_ACCESS_KEY_ID", "ALIYUN_ACCESS_KEY_SECRET"}
  {
    assert |"XD_DOMAIN"| == 9 && |"XD_LAN_HTTPS_IP"| == 15;
    assert |"ALIYUN_ACCESS_KEY_ID"| == 20 && |"ALIYUN_ACCESS_KEY_SECRET"| == 24;
  }

  /** When a save is accepted, and the values it will leave: the request names the values that
      are there, the journal is clean or marked for them, and what is asked for is presentable. */
  ghost predicate SaveLeads(j: Journal, expected: string, request: Request, now: Values) {
    && Parse(j.env).Some? && Fingerprint(Parse(j.env).value) == expected
    && !(request.https == None && request.alidns == None)
    && (j.marker == None ==> j.backup == None)
    && (j.marker.Some? ==> j.marker.value == expected && j.backup.Some?)
    && AsAsked(Parse(j.env).value, request, now)
    && Presentable(now["XD_DOMAIN"], now["XD_LAN_HTTPS_IP"], now["ALIYUN_ACCESS_KEY_ID"],
         now["ALIYUN_ACCESS_KEY_SECRET"])
  }

  lemma AskedOnce(was: Values, request: Request, now: Values, now': Values)
    requires AsAsked(was, request, now) && AsAsked(was, request, now')
    ensures now == now'
  {
    forall k | k in now ensures now[k] == now'[k] {}
  }

  lemma SaveMeaning(j: Journal, expected: string, request: Request)
    ensures Saveable(j, expected, request) <==> exists now :: SaveLeads(j, expected, request, now)
    ensures Saveable(j, expected, request) ==>
      SaveLeads(j, expected, request, Update(Parse(j.env).value, request))
  {
    hide Parse, Update, Acceptable, AsAsked, Presentable, SaveLeads, KEYS;
    if Parse(j.env).Some? {
      var v := Update(Parse(j.env).value, request);
      ParsedIsWritable(j.env);
      UpdateLeads(j, expected, request);
      forall now | SaveLeads(j, expected, request, now) ensures now == v {
        LeadsToUpdate(j, expected, request, now);
      }
    } else {
      forall now ensures !SaveLeads(j, expected, request, now) { LeadsParses(j, expected, request, now); }
    }
  }

  lemma LeadsParses(j: Journal, expected: string, request: Request, now: Values)
    ensures SaveLeads(j, expected, request, now) ==> Parse(j.env).Some?
  {
    hide Parse;
  }

  lemma LeadsToUpdate(j: Journal, expected: string, request: Request, now: Values)
    requires Parse(j.env).Some? && Full(Parse(j.env).value) && SaveLeads(j, expected, request, now)
    ensures now == Update(Parse(j.env).value, request)
  {
    hide Parse, Update, AsAsked, Presentable, KEYS;
    UpdateMeaning(Parse(j.env).value, request);
    AskedOnce(Parse(j.env).value, request, now, Update(Parse(j.env).value, request));
  }

  lemma UpdateLeads(j: Journal, expected: string, request: Request)
    requires Parse(j.env).Some? && Full(Parse(j.env).value)
    ensures SaveLeads(j, expected, request, Update(Parse(j.env).value, request)) <==> Saveable(j, expected, request)
  {
    hide Parse, Update, Acceptable, AsAsked, Presentable, KEYS;
    UpdateFull(Parse(j.env).value, request);
    UpdateMeaning(Parse(j.env).value, request);
    AcceptableMeaning(Update(Parse(j.env).value, request));
  }

  /** A finished save. */
  lemma SaveEnds(j: Journal, expected: string, request: Request)
    requires Saveable(j, expected, request)
    ensures var e := ApplyOps(j, Plan(j, Save(expected, request)));
      && Parse(e.env).Some? && SaveLeads(j, expected, request, Parse(e.env).value)
      && e.marker == Some(Fingerprint(Parse(e.env).value))
      && e.backup == if j.marker == None then Some(j.env) else j.backup
  {
    hide Parse, Update, Acceptable, SaveLeads, Render, SplitLines, KeptText, LastNewline, AllSafe, Full;
    SaveMeaning(j, expected, request);
    SavedValues(j, expected, request);
    var v := Update(Parse(j.env).value, request);
    var c, d := PutEnv(Render(j.env, v)), PutMarker(Fingerprint(v));
    var plan := Plan(j, Save(expected, request));
    if j.marker == None {
      var a, b := PutBackup(j.env), PutMarker(expected);
      assert plan == ((([] + [a]) + [b]) + [c]) + [d];
      FourOps(j, a, b, c, d);
    } else {
      assert plan == ([] + [c]) + [d];
      NoOps(j);
      OneMore(j, [], c);
      OneMore(j, [] + [c], d);
    }
  }

  lemma RestoreClears(j: Journal, expected: string)
    ensures Restorable(j, expected) ==>
      var e := ApplyOps(j, Plan(j, Restore(expected)));
      e.backup == None && e.marker == None && e.env == Render(j.env, Parse(j.backup.value).value)
  {
    hide Parse, Render;
    if Restorable(j, expected) {
      var a := PutEnv(Render(j.env, Parse(j.backup.value).value));
      NoOps(j);
      OneMore(j, [], a);
      OneMore(j, [] + [a], DropMarker);
      OneMore(j, ([] + [a]) + [DropMarker], DropBackup);
      OneMore(j, [] + [a], DropBackup);
      assert Plan(j, Restore(expected)) ==
        if j.marker.Some? then (([] + [a]) + [DropMarker]) + [DropBackup] else ([] + [a]) + [DropBackup];
    }
  }

  lemma FourOps(j: Journal, a: FileOp, b: FileOp, c: FileOp, d: FileOp)
    ensures ApplyOps(j, ((([] + [a]) + [b]) + [c]) + [d]) == ApplyOp(ApplyOp(ApplyOp(ApplyOp(j, a), b), c), d)
  {
    hide ApplyOp;
    NoOps(j);
    OneMore(j, [], a);
    OneMore(j, [] + [a], b);
    OneMore(j, ([] + [a]) + [b], c);
    OneMore(j, (([] + [a]) + [b]) + [c], d);
  }

  // ----- the program -----

  datatype Outcome = Refused | Interrupted | Finished

  class Host {
    var journal: Journal
    /** The operations performed by the current command. */
    var log: seq<FileOp>
    /** How many more file operations happen before the process is stopped. */
    var budget: nat

    constructor (j: Journal, operations: nat)
      ensures journal == j && log == [] && budget == operations
    {
      journal, log, budget := j, [], operations;
    }

    method Perform(op: FileOp) returns (ok: bool)
      modifies this
      ensures ok <==> old(budget) > 0
      ensures ok ==> journal == ApplyOp(old(journal), op) && log == old(log) + [op] && budget == old(budget) - 1
      ensures !ok ==> journal == old(journal) && log == old(log) && budget == 0
    {
      ok := budget > 0;
      if ok {
        journal, log, budget := ApplyOp(journal, op), log + [op], budget - 1;
      }
    }

    method SaveValues(expected: string, request: Request) returns (outcome: Outcome)
      requires log == []
      modifies this
      ensures outcome == Refused <==> !Accepts(old(journal), Save(expected, request))
      ensures outcome == Refused ==> journal == old(journal) && log == []
      ensures outcome != Refused ==>
        log <= Plan(old(journal), Save(expected, request)) && journal == ApplyOps(old(journal), log)
      ensures outcome == Finished ==> log == Plan(old(journal), Save(expected, request))
      ensures outcome == Interrupted ==> budget == 0
      // accepted, and finished, in plain terms: the values now in the file are the ones asked for
      ensures outcome == Refused <==> !exists now :: SaveLeads(old(journal), expected, request, now)
      ensures outcome == Finished ==>
        Parse(journal.env).Some? && SaveLeads(old(journal), expected, request, Parse(journal.env).value)
      ensures outcome == Finished ==> journal.marker == Some(Fingerprint(Parse(journal.env).value))
      ensures outcome == Finished ==>
        journal.backup == if old(journal).marker == None then Some(old(journal).env) else old(journal).backup
    {
      hide Acceptable, Update, SaveLeads, Parse, Render;
      SaveMeaning(journal, expected, request);
      if Saveable(journal, expected, request) { SaveEnds(journal, expected, request); }
      var raw := journal.env;
      var before := ParseEnv(raw);
      if before == None || Fingerprint(before.value) != expected || (request.https == None && request.alidns == None) {
        return Refused;
      }
      if journal.marker.Some? && (journal.marker.value != expected || journal.backup == None) {
        return Refused;
      }
      if journal.marker == None && journal.backup.Some? {
        return Refused;
      }
      var v := Update(before.value, request);
      if !Acceptable(v) {
        return Refused;
      }
      ghost var j, plan := journal, Plan(journal, Save(expected, request));
      NoOps(j);
      var rendered := RenderEnv(raw, v);
      var ops := [PutEnv(rendered.value), PutMarker(Fingerprint(v))];
      if journal.marker == None {
        ops := [PutBackup(raw), PutMarker(expected)] + ops;
      }
      assert ops == plan;
      outcome := PerformAll(ops, j);
    }

    /** `finish`, committing. */
    method CommitValues(expected: string) returns (outcome: Outcome)
      requires log == []
      modifies this
      ensures outcome == Refused <==> !Accepts(old(journal), Commit(expected))
      ensures outcome == Refused ==> journal == old(journal) && log == []
      ensures outcome != Refused ==>
        log <= Plan(old(journal), Commit(expected)) && journal == ApplyOps(old(journal), log)
      ensures outcome == Finished ==> log == Plan(old(journal), Commit(expected))
      ensures outcome == Interrupted ==> budget == 0
      ensures outcome == Refused <==>
        || Parse(old(journal).env) == None || Fingerprint(Parse(old(journal).env).value) != expected
        || old(journal).backup == None || old(journal).marker != Some(expected)
      ensures outcome == Finished ==> journal == Journal(old(journal).env, None, None)
    {
      var present := ParseEnv(journal.env);
      if present == None || Fingerprint(present.value) != expected || journal.backup == None
        || journal.marker != Some(expected) {
        return Refused;
      }
      NoOps(journal);
      OneMore(journal, [], DropMarker);
      OneMore(journal, [] + [DropMarker], DropBackup);
      assert [DropMarker, DropBackup] == ([] + [DropMarker]) + [DropBackup];
      outcome := PerformAll([DropMarker, DropBackup], journal);
    }

    /** `finish`, restoring. The marker may be of any age, or missing. */
    method RestoreValues(expected: string) returns (outcome: Outcome)
      requires log == []
      modifies this
      ensures outcome == Refused <==> !Accepts(old(journal), Restore(expected))
      ensures outcome == Refused ==> journal == old(journal) && log == []
      ensures outcome != Refused ==>
        log <= Plan(old(journal), Restore(expected)) && journal == ApplyOps(old(journal), log)
      ensures outcome == Finished ==> log == Plan(old(journal), Restore(expected))
      ensures outcome == Interrupted ==> budget == 0
      ensures outcome == Refused <==>
        || Parse(old(journal).env) == None || Fingerprint(Parse(old(journal).env).value) != expected
        || old(journal).backup == None || Parse(old(journal).backup.value) == None
      ensures outcome == Finished ==> journal.backup == None && journal.marker == None
    {
      hide Parse, Render;
      var present := ParseEnv(journal.env);
      if present == None || Fingerprint(present.value) != expected || journal.backup == None {
        return Refused;
      }
      RestoreClears(journal, expected);
      var before := ParseEnv(journal.backup.value);
      if before == None {
        return Refused;
      }
      var rendered := RenderEnv(journal.env, before.value);
      var ops := [PutEnv(rendered.value)];
      if journal.marker.Some? {
        ops := ops + [DropMarker];
      }
      NoOps(journal);
      assert ops + [DropBackup] == Plan(journal, Restore(expected));
      outcome := PerformAll(ops + [DropBackup], journal);
    }

    method PerformAll(ops: seq<FileOp>, ghost j: Journal) returns (outcome: Outcome)
      requires log == [] && journal == j
      modifies this
      ensures outcome != Refused && log <= ops && journal == ApplyOps(j, log)
      ensures outcome == Finished ==> log == ops
      ensures outcome == Interrupted ==> budget == 0
    {
      NoOps(j);
      for i := 0 to |ops|
        invariant log == ops[..i] && journal == ApplyOps(j, log)
      {
        assert ops[..i + 1] == ops[..i] + [ops[i]];
        OneMore(j, ops[..i], ops[i]);
        var ok := Perform(ops[i]);
        if !ok {
          return Interrupted;
        }
      }
      outcome := Finished;
    }
  }

  // ----- runs -----

  /** The files, and beside them what they stand for: the values of the last clean state, the
      values present when the marker was last written, and every set of values that was once
      in force, because the journal was clean or a save had finished. */
  datatype World = World(journal: Journal, baseline: Values, marked: Values, settled: set<Values>)

  function Present(j: Journal): Values {
    if Parse(j.env).Some? then Parse(j.env).value else map[]
  }

  function Track(w: World, op: FileOp): World {
    var j := ApplyOp(w.journal, op);
    World(j,
      if op.DropBackup? then Present(j) else w.baseline,
      if op.PutMarker? then Present(j) else w.marked,
      if op.DropBackup? then w.settled + {Present(j)} else w.settled)
  }

  function TrackAll(w: World, ops: seq<FileOp>): World {
    if ops == [] then w else Track(TrackAll(w, ops[..|ops| - 1]), ops[|ops| - 1])
  }

  lemma {:induction false} TrackIsApply(w: World, ops: seq<FileOp>)
    ensures TrackAll(w, ops).journal == ApplyOps(w.journal, ops)
  {
    if ops != [] { TrackIsApply(w, ops[..|ops| - 1]); }
  }

  /** One command, of which `done` file operations happened before it ended or was stopped. */
  datatype Step = Step(command: Command, done: nat)

  predicate Possible(w: World, s: Step) {
    Accepts(w.journal, s.command) ==> s.done <= |Plan(w.journal, s.command)|
  }

  function After(w: World, s: Step): World {
    if !Accepts(w.journal, s.command) || s.done > |Plan(w.journal, s.command)| then w
    else
      var w' := TrackAll(w, Plan(w.journal, s.command)[..s.done]);
      if s.command.Save? && s.done == |Plan(w.journal, s.command)|
      then w'.(settled := w'.settled + {Present(w'.journal)})
      else w'
  }

  ghost predicate Sound(w: World) {
    && Parse(w.journal.env).Some?
    && (w.journal.marker.Some? ==> w.journal.backup.Some? && w.journal.marker.value == Fingerprint(w.marked))
    && (w.journal.backup.Some? ==> Parse(w.journal.backup.value) == Some(w.baseline))
    && (w.journal.backup == None ==> Parse(w.journal.env) == Some(w.baseline))
    && w.baseline in w.settled && (w.journal.marker.Some? ==> w.marked in w.settled && Full(w.marked))
  }

  predicate Clean(j: Journal) {
    j.backup == None && j.marker == None
  }

  lemma TrackTwo(w: World, a: FileOp, b: FileOp)
    ensures TrackAll(w, []) == w && TrackAll(w, [a]) == Track(w, a) && TrackAll(w, [a, b]) == Track(Track(w, a), b)
  {
    assert [a][..0] == [] && [a, b][..1] == [a];
  }

  lemma TrackMore(w: World, a: FileOp, b: FileOp, c: FileOp, d: FileOp)
    ensures TrackAll(w, [a, b, c]) == Track(TrackAll(w, [a, b]), c)
    ensures TrackAll(w, [a, b, c, d]) == Track(TrackAll(w, [a, b, c]), d)
  {
    assert [a, b, c][..2] == [a, b] && [a, b, c, d][..3] == [a, b, c];
  }

  /** A save, stopped anywhere: the baseline does not move, and if it finished, the file has
      the new values, the marker names them, and the other lines are as they were. */
  lemma SaveKeeps(w: World, expected: string, request: Request, k: nat)
    requires Sound(w) && Saveable(w.journal, expected, request) && k <= |Plan(w.journal, Save(expected, request))|
    ensures var w' := After(w, Step(Save(expected, request), k));
      && Sound(w') && w'.baseline == w.baseline
      && (k == |Plan(w.journal, Save(expected, request))| ==>
            var v := Update(Parse(w.journal.env).value, request);
            && Parse(w'.journal.env) == Some(v) && w'.journal.marker == Some(Fingerprint(v)) && w'.marked == v
            && KeptText(SplitLines(w'.journal.env)) ==
                 KeptText(SplitLines(w.journal.env)) + LastNewline(SplitLines(w.journal.env), Ending(w.journal.env)))
  {
    hide Update, Parse, Render, SplitLines, KeptText, LastNewline, Acceptable, AllSafe;
    SavedValues(w.journal, expected, request);
    var v := Update(Parse(w.journal.env).value, request);
    var c, d := PutEnv(Render(w.journal.env, v)), PutMarker(Fingerprint(v));
    var plan := Plan(w.journal, Save(expected, request));
    if w.journal.marker == None {
      var a, b := PutBackup(w.journal.env), PutMarker(expected);
      assert plan == [a, b, c, d];
      TrackTwo(w, a, b);
      TrackMore(w, a, b, c, d);
      assert plan[..k] ==
        if k == 0 then [] else if k == 1 then [a] else if k == 2 then [a, b] else if k == 3 then [a, b, c] else plan;
    } else {
      assert plan == [c, d];
      TrackTwo(w, c, d);
      assert plan[..k] == if k == 0 then [] else if k == 1 then [c] else plan;
    }
  }

  /** A commit, stopped anywhere, never touches the values; finished, it makes them the new
      baseline. */
  lemma CommitKeeps(w: World, expected: string, k: nat)
    requires Sound(w) && Committable(w.journal, expected) && k <= 2
    ensures var w' := After(w, Step(Commit(expected), k));
      && Sound(w') && w'.journal.env == w.journal.env
      && (k < 2 ==> w'.baseline == w.baseline)
      && (k == 2 ==> Clean(w'.journal) && Some(w'.baseline) == Parse(w.journal.env))
  {
    hide Parse;
    TrackTwo(w, DropMarker, DropBackup);
    var plan := Plan(w.journal, Commit(expected));
    assert plan == [DropMarker, DropBackup];
    assert plan[..k] == if k == 0 then [] else if k == 1 then [DropMarker] else plan;
  }

  /** A restore, stopped anywhere, keeps the baseline; finished, the journal is clean and the
      baseline is back, exactly unless one of its values is still in quotes. */
  lemma RestoreKeeps(w: World, expected: string, k: nat)
    requires Sound(w) && Restorable(w.journal, expected) && k <= |Plan(w.journal, Restore(expected))|
    ensures var w', finished := After(w, Step(Restore(expected), k)), k == |Plan(w.journal, Restore(expected))|;
      && Sound(w') && (!finished ==> w'.baseline == w.baseline)
      && (finished ==>
            && Clean(w'.journal)
            && Parse(w'.journal.env) == Some(UnquoteAll(w.baseline))
            && (Parse(w'.journal.env) == Some(w.baseline) <==>
              (forall k :: k in KEYS ==> !Quoted(Valued(w.baseline, k)))))
  {
    hide Parse, Render, UnquoteAll, Quoted, KEYS;
    var before := Parse(w.journal.backup.value).value;
    ParsedIsWritable(w.journal.backup.value);
    RenderParses(w.journal.env, before);
    var plan, a := Plan(w.journal, Restore(expected)), PutEnv(Render(w.journal.env, before));
    if w.journal.marker.Some? {
      assert plan == [a, DropMarker, DropBackup];
      TrackTwo(w, a, DropMarker);
      TrackMore(w, a, DropMarker, DropBackup, DropBackup);
      assert plan[..k] == if k == 0 then [] else if k == 1 then [a] else if k == 2 then [a, DropMarker] else plan;
    } else {
      assert plan == [a, DropBackup];
      TrackTwo(w, a, DropBackup);
      assert plan[..k] == if k == 0 then [] else if k == 1 then [a] else plan;
    }
  }

  lemma StepKeeps(w: World, s: Step)
    requires Sound(w) && Possible(w, s)
    ensures Sound(After(w, s)) && w.settled <= After(w, s).settled
  {
    hide Parse, Saveable, Committable, Restorable, Plan, Track;
    SettledGrows(w, if Accepts(w.journal, s.command) then Plan(w.journal, s.command)[..s.done] else []);
    if Accepts(w.journal, s.command) {
      match s.command
      case Save(expected, request) => SaveKeeps(w, expected, request, s.done);
      case Commit(expected) =>
        CommitLength(w.journal, expected);
        CommitKeeps(w, expected, s.done);
      case Restore(expected) => RestoreKeeps(w, expected, s.done);
    }
  }

  lemma CommitLength(j: Journal, expected: string)
    requires Committable(j, expected)
    ensures |Plan(j, Commit(expected))| == 2
  {
  }

  lemma {:induction false} SettledGrows(w: World, ops: seq<FileOp>)
    ensures w.settled <= TrackAll(w, ops).settled
  {
    if ops != [] { SettledGrows(w, ops[..|ops| - 1]); }
  }

  function Run(w: World, steps: seq<Step>): World {
    if steps == [] then w else After(Run(w, steps[..|steps| - 1]), steps[|steps| - 1])
  }

  ghost predicate RunPossible(w: World, steps: seq<Step>) {
    steps != [] ==>
      RunPossible(w, steps[..|steps| - 1]) && Possible(Run(w, steps[..|steps| - 1]), steps[|steps| - 1])
  }

  lemma {:induction false} RunKeeps(w: World, steps: seq<Step>)
    requires Sound(w) && RunPossible(w, steps)
    ensures Sound(Run(w, steps))
  {
    hide Sound, Possible, After;
    if steps != [] {
      var k := |steps| - 1;
      RunKeeps(w, steps[..k]);
      StepKeeps(Run(w, steps[..k]), steps[k]);
    }
  }

  /** What every run guarantees, whatever was stopped wherever: a marker comes with a backup,
      the backup holds the values of the last clean state, a commit is accepted only on values
      that were once in force, and while there is a backup a restore is accepted. */
  lemma EveryRun(env: string, steps: seq<Step>, expected: string, universe: iset<Values>)
    requires FingerprintsTell(universe) && Parse(env).Some?
    requires var v := Parse(env).value; RunPossible(World(Journal(env, None, None), v, v, {v}), steps)
    requires var v := Parse(env).value; var w := Run(World(Journal(env, None, None), v, v, {v}), steps);
      Present(w.journal) in universe && forall u :: u in w.settled ==> u in universe
    ensures var v := Parse(env).value; var w := Run(World(Journal(env, None, None), v, v, {v}), steps);
      && Parse(w.journal.env).Some?
      && (w.journal.marker.Some? ==> w.journal.backup.Some?)
      && (w.journal.backup.Some? ==> Parse(w.journal.backup.value) == Some(w.baseline) && w.baseline in w.settled)
      && (Committable(w.journal, expected) ==> Present(w.journal) == w.marked && w.marked in w.settled)
      && (w.journal.backup.Some? ==> Restorable(w.journal, Fingerprint(Present(w.journal))))
  {
    hide Parse, RunPossible, Run, FingerprintsTell;
    var v := Parse(env).value;
    var start := World(Journal(env, None, None), v, v, {v});
    RunKeeps(start, steps);
    var w := Run(start, steps);
    if Committable(w.journal, expected) {
      MarkedIsPresent(w, expected, universe);
    }
  }

  lemma MarkedIsPresent(w: World, expected: string, universe: iset<Values>)
    requires FingerprintsTell(universe) && Sound(w) && Committable(w.journal, expected)
    requires Present(w.journal) in universe && w.marked in universe
    ensures Present(w.journal) == w.marked
  {
    hide Parse;
    ParsedIsWritable(w.journal.env);
  }

  /** A domain in two pairs of quotes, of which reading takes off one. */
  function TwiceQuoted(): string {
    Assignment("XD_DOMAIN", "\"\"a\"\"", "\n")
  }

  lemma TwiceQuotedParses()
    ensures Parse(TwiceQuoted()).Some? && Valued(Parse(TwiceQuoted()).value, "XD_DOMAIN") == "\"a\""
  {
    hide KEYS, SplitLines, Scan, Assignment;
    var v := "\"\"a\"\"";
    DomainIsKey();
    AssignmentScans("XD_DOMAIN", v, "\n");
    assert Unquote(v) == v[1..4] == "\"a\"";
  }

  lemma DomainIsKey()
    ensures "XD_DOMAIN" in KEYS
  {
    assert KEYS[0] == "XD_DOMAIN";
  }

  /** Whatever is saved over that file, a restore puts back a domain without quotes. */
  lemma QuotedBaselineChanges(expected: string, request: Request)
    requires Saveable(Journal(TwiceQuoted(), None, None), expected, request)
    ensures var v := Present(Journal(TwiceQuoted(), None, None));
      var w := World(Journal(TwiceQuoted(), None, None), v, v, {v});
      var saved := After(w, Step(Save(expected, request), |Plan(w.journal, Save(expected, request))|));
      var restore := Restore(Fingerprint(Present(saved.journal)));
      && Accepts(saved.journal, restore)
      && var back := After(saved, Step(restore, |Plan(saved.journal, restore)|));
         && Clean(back.journal) && Valued(v, "XD_DOMAIN") == "\"a\""
           && Valued(Present(back.journal), "XD_DOMAIN") == "a"
  {
    hide Parse, Render, Quoted, KEYS, TwiceQuoted, Saveable, Plan;
    TwiceQuotedParses();
    var v := Present(Journal(TwiceQuoted(), None, None));
    var w := World(Journal(TwiceQuoted(), None, None), v, v, {v});
    assert Parse(TwiceQuoted()) == Some(v);
    var full := |Plan(w.journal, Save(expected, request))|;
    SaveKeeps(w, expected, request, full);
    var saved := After(w, Step(Save(expected, request), full));
    var restore := Restore(Fingerprint(Present(saved.journal)));
    RestoreKeeps(saved, restore.expected, |Plan(saved.journal, restore)|);
    DomainIsKey();
    OnceQuoted();
  }

  lemma OnceQuoted()
    ensures Unquote("\"a\"") == "a"
  {
  }
}

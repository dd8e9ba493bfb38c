/** The manifest gate: JSON is read token by token and a repeated key, at any depth, is
    refused, so that two readers cannot see two different manifests. */
module Manifest {
  import opened Wrappers
  import opened Content

  const MAX_DEPTH := 32
  const MAX_MANIFEST_BYTES := 64 * 1024

  datatype Value =
    | ObjectValue(fields: map<string, Value>)
    | ArrayValue(items: seq<Value>)
    | Scalar(token: Token)

  // ----- the reader, as a function of the remaining tokens -----

  datatype Parsed<T> = Parsed(value: T, rest: seq<Token>) | Refused

  /** `Decoder.More`: something other than a closing delimiter follows. */
  predicate More(tokens: seq<Token>) {
    tokens != [] && !tokens[0].CloseObject? && !tokens[0].CloseArray?
  }

  function ParseValue(tokens: seq<Token>, depth: nat): (r: Parsed<Value>)
    ensures r.Parsed? ==> |r.rest| < |tokens|
    decreases |tokens|, 1
  {
    if depth > MAX_DEPTH || tokens == [] then Refused
    else match tokens[0]
      case OpenObject =>
        (match ParseFields(tokens[1..], depth, map[])
         case Refused => Refused
         case Parsed(m, rest) => Parsed(ObjectValue(m), rest))
      case OpenArray =>
        (match ParseItems(tokens[1..], depth, [])
         case Refused => Refused
         case Parsed(s, rest) => Parsed(ArrayValue(s), rest))
      case CloseObject => Refused
      case CloseArray => Refused
      case _ => Parsed(Scalar(tokens[0]), tokens[1..])
  }

  function ParseFields(tokens: seq<Token>, depth: nat, fields: map<string, Value>): (r: Parsed<map<string, Value>>)
    ensures r.Parsed? ==> |r.rest| < |tokens|
    decreases |tokens|, 0
  {
    if !More(tokens) then
      if tokens != [] && tokens[0].CloseObject? then Parsed(fields, tokens[1..]) else Refused
    else if !tokens[0].Text? || tokens[0].text in fields then Refused
    else match ParseValue(tokens[1..], depth + 1)
      case Refused => Refused
      case Parsed(v, rest) => ParseFields(rest, depth, fields[tokens[0].text := v])
  }

  function ParseItems(tokens: seq<Token>, depth: nat, items: seq<Value>): (r: Parsed<seq<Value>>)
    ensures r.Parsed? ==> |r.rest| < |tokens|
    decreases |tokens|, 2
  {
    if !More(tokens) then
      if tokens != [] && tokens[0].CloseArray? then Parsed(items, tokens[1..]) else Refused
    else match ParseValue(tokens, depth + 1)
      case Refused => Refused
      case Parsed(v, rest) => ParseItems(rest, depth, items + [v])
  }

  /** The decoder the reader consumes. */
  class Decoder {
    var rest: seq<Token>

    constructor (tokens: seq<Token>)
      ensures rest == tokens
    {
      rest := tokens;
    }

    /** The reader itself: recursive on nesting, a loop over members or elements. */
    method ReadUnique(depth: nat) returns (r: Option<Value>)
      modifies this
      ensures match ParseValue(old(rest), depth)
              case Refused => r == None
              case Parsed(v, after) => r == Some(v) && rest == after
      decreases |rest|, 1
    {
      if depth > MAX_DEPTH || rest == [] {
        return None;
      }
      var token := rest[0];
      rest := rest[1..];
      match token
      case OpenObject =>
        var fields: map<string, Value> := map[];
        while More(rest)
          invariant |rest| < |old(rest)|
          invariant ParseFields(old(rest)[1..], depth, map[]) == ParseFields(rest, depth, fields)
          decreases |rest|
        {
          var key := rest[0];
          rest := rest[1..];
          if !key.Text? || key.text in fields {
            return None;
          }
          var child := ReadUnique(depth + 1);
          if child == None {
            return None;
          }
          fields := fields[key.text := child.value];
        }
        if rest == [] || !rest[0].CloseObject? {
          return None;
        }
        rest := rest[1..];
        r := Some(ObjectValue(fields));
      case OpenArray =>
        var items: seq<Value> := [];
        while More(rest)
          invariant |rest| < |old(rest)|
          invariant ParseItems(old(rest)[1..], depth, []) == ParseItems(rest, depth, items)
          decreases |rest|
        {
          var child := ReadUnique(depth + 1);
          if child == None {
            return None;
          }
          items := items + [child.value];
        }
        if rest == [] || !rest[0].CloseArray? {
          return None;
        }
        rest := rest[1..];
        r := Some(ArrayValue(items));
      case CloseObject => r := None;
      case CloseArray => r := None;
      case _ => r := Some(Scalar(token));
    }
  }

  // ----- JSON documents, with their members in written order -----

  datatype Doc = Leaf(token: Token) | Object(members: Members) | Array(elements: Elements)
  datatype Members = NoMembers | Member(key: string, value: Doc, others: Members)
  datatype Elements = NoElements | Element(head: Doc, tail: Elements)

  predicate IsScalar(t: Token) {
    t.Text? || t.Number? || t.Bool? || t.Null?
  }

  predicate WellFormed(d: Doc) {
    match d
    case Leaf(t) => IsScalar(t)
    case Object(ms) => MembersWellFormed(ms)
    case Array(es) => ElementsWellFormed(es)
  }

  predicate MembersWellFormed(ms: Members) {
    ms.Member? ==> WellFormed(ms.value) && MembersWellFormed(ms.others)
  }

  predicate ElementsWellFormed(es: Elements) {
    es.Element? ==> WellFormed(es.head) && ElementsWellFormed(es.tail)
  }

  /** The token stream of a document. */
  function Tokens(d: Doc): seq<Token> {
    match d
    case Leaf(t) => [t]
    case Object(ms) => [OpenObject] + MemberTokens(ms) + [CloseObject]
    case Array(es) => [OpenArray] + ElementTokens(es) + [CloseArray]
  }

  function MemberTokens(ms: Members): seq<Token> {
    match ms
    case NoMembers => []
    case Member(k, v, others) => [Token.Text(k)] + Tokens(v) + MemberTokens(others)
  }

  function ElementTokens(es: Elements): seq<Token> {
    match es
    case NoElements => []
    case Element(h, t) => Tokens(h) + ElementTokens(t)
  }

  function Keys(ms: Members): set<string> {
    match ms
    case NoMembers => {}
    case Member(k, _, others) => {k} + Keys(others)
  }

  /** No object, at any depth, repeats a key. */
  predicate UniqueKeys(d: Doc) {
    match d
    case Leaf(_) => true
    case Object(ms) => UniqueMembers(ms)
    case Array(es) => UniqueElements(es)
  }

  predicate UniqueMembers(ms: Members) {
    ms.Member? ==> ms.key !in Keys(ms.others) && UniqueKeys(ms.value) && UniqueMembers(ms.others)
  }

  predicate UniqueElements(es: Elements) {
    es.Element? ==> UniqueKeys(es.head) && UniqueElements(es.tail)
  }

  /** Nesting depth: how far below its own level a document's deepest value lies. */
  function Height(d: Doc): nat {
    match d
    case Leaf(_) => 0
    case Object(ms) => MembersHeight(ms)
    case Array(es) => ElementsHeight(es)
  }

  function MembersHeight(ms: Members): nat {
    match ms
    case NoMembers => 0
    case Member(_, v, others) =>
      var a, b := 1 + Height(v), MembersHeight(others);
      if a < b then b else a
  }

  function ElementsHeight(es: Elements): nat {
    match es
    case NoElements => 0
    case Element(h, t) =>
      var a, b := 1 + Height(h), ElementsHeight(t);
      if a < b then b else a
  }

  // ----- two lenient readers -----

  /** The reader that keeps the first value of a repeated key, and the one that keeps the last. */
  datatype Policy = FirstWins | LastWins

  function Lenient(d: Doc, policy: Policy): Value {
    match d
    case Leaf(t) => Scalar(t)
    case Object(ms) => ObjectValue(LenientFields(ms, policy, map[]))
    case Array(es) => ArrayValue(LenientItems(es, policy, []))
  }

  function LenientFields(ms: Members, policy: Policy, fields: map<string, Value>): map<string, Value> {
    match ms
    case NoMembers => fields
    case Member(k, v, others) =>
      LenientFields(others, policy,
        if policy.FirstWins? && k in fields then fields else fields[k := Lenient(v, policy)])
  }

  function LenientItems(es: Elements, policy: Policy, items: seq<Value>): seq<Value> {
    match es
    case NoElements => items
    case Element(h, t) => LenientItems(t, policy, items + [Lenient(h, policy)])
  }

  // ----- the reader accepts exactly the documents with unique keys and bounded depth -----

  /** On the tokens of any document: a document with unique keys and bounded depth is read
      back, to the value either lenient reader sees; every other document is refused. */
  lemma {:induction false} ReadsDocument(d: Doc, depth: nat, after: seq<Token>, policy: Policy)
    requires WellFormed(d)
    ensures ParseValue(Tokens(d) + after, depth) ==
      if UniqueKeys(d) && depth + Height(d) <= MAX_DEPTH then Parsed(Lenient(d, policy), after) else Refused
    decreases d
  {
    var tokens := Tokens(d) + after;
    match d
    case Leaf(t) =>
      assert tokens[1..] == after;
    case Object(ms) =>
      assert tokens[1..] == MemberTokens(ms) + ([CloseObject] + after);
      if depth <= MAX_DEPTH { ReadsMembers(ms, depth, map[], after, policy); }
    case Array(es) =>
      assert tokens[1..] == ElementTokens(es) + ([CloseArray] + after);
      if depth <= MAX_DEPTH { ReadsElements(es, depth, [], after, policy); }
  }

  lemma {:induction false} ReadsMembers(ms: Members, depth: nat, fields: map<string, Value>, after: seq<Token>,
      policy: Policy)
    requires MembersWellFormed(ms) && depth <= MAX_DEPTH
    ensures ParseFields(MemberTokens(ms) + ([CloseObject] + after), depth, fields) ==
      if UniqueMembers(ms) && Keys(ms) !! fields.Keys && depth + MembersHeight(ms) <= MAX_DEPTH
      then Parsed(LenientFields(ms, policy, fields), after) else Refused
    decreases ms
  {
    var close := [CloseObject] + after;
    var tokens := MemberTokens(ms) + close;
    match ms
    case NoMembers =>
      assert tokens == close && close[1..] == after;
    case Member(k, v, others) =>
      var rest := MemberTokens(others) + close;
      assert tokens[0] == Token.Text(k);
      assert tokens[1..] == Tokens(v) + rest;
      ReadsDocument(v, depth + 1, rest, policy);
      ReadsMembers(others, depth, fields[k := Lenient(v, policy)], after, policy);
      assert k in Keys(ms);
      assert Keys(ms) == {k} + Keys(others);
      assert fields[k := Lenient(v, policy)].Keys == fields.Keys + {k};
  }

  lemma {:induction false} ReadsElements(es: Elements, depth: nat, items: seq<Value>, after: seq<Token>, policy: Policy)
    requires ElementsWellFormed(es) && depth <= MAX_DEPTH
    ensures ParseItems(ElementTokens(es) + ([CloseArray] + after), depth, items) ==
      if UniqueElements(es) && depth + ElementsHeight(es) <= MAX_DEPTH
      then Parsed(LenientItems(es, policy, items), after) else Refused
    decreases es
  {
    var close := [CloseArray] + after;
    var tokens := ElementTokens(es) + close;
    match es
    case NoElements =>
      assert tokens == close && close[1..] == after;
    case Element(h, t) =>
      var rest := ElementTokens(t) + close;
      assert tokens == Tokens(h) + rest;
      ReadsDocument(h, depth + 1, rest, policy);
      assert More(tokens) by { assert tokens[0] == Tokens(h)[0]; }
      ReadsElements(t, depth, items + [Lenient(h, policy)], after, policy);
  }

  /** Nothing but a document is accepted: whatever the reader consumes is the token stream
      of one document with unique keys within the depth limit, and both lenient readers
      agree with it on the whole value. */
  lemma {:induction false} AcceptedIsDocument(tokens: seq<Token>, depth: nat) returns (d: Doc)
    requires ParseValue(tokens, depth).Parsed?
    ensures WellFormed(d) && UniqueKeys(d) && depth + Height(d) <= MAX_DEPTH
    ensures tokens == Tokens(d) + ParseValue(tokens, depth).rest
    ensures ParseValue(tokens, depth).value == Lenient(d, FirstWins) == Lenient(d, LastWins)
  {
    d := DocumentOf(tokens, depth);
    ReadsDocument(d, depth, ParseValue(tokens, depth).rest, FirstWins);
    ReadsDocument(d, depth, ParseValue(tokens, depth).rest, LastWins);
  }

  lemma {:induction false} DocumentOf(tokens: seq<Token>, depth: nat) returns (d: Doc)
    requires ParseValue(tokens, depth).Parsed?
    ensures WellFormed(d) && tokens == Tokens(d) + ParseValue(tokens, depth).rest
    decreases |tokens|, 1
  {
    var head := tokens[0];
    match head
    case OpenObject =>
      var ms := MembersOf(tokens[1..], depth, map[]);
      d := Object(ms);
    case OpenArray =>
      var es := ElementsOf(tokens[1..], depth, []);
      d := Array(es);
    case _ =>
      d := Leaf(head);
  }

  lemma {:induction false} MembersOf(tokens: seq<Token>, depth: nat, fields: map<string, Value>) returns (ms: Members)
    requires ParseFields(tokens, depth, fields).Parsed?
    ensures MembersWellFormed(ms)
    ensures tokens == MemberTokens(ms) + [CloseObject] + ParseFields(tokens, depth, fields).rest
    decreases |tokens|, 0
  {
    if More(tokens) {
      var v := DocumentOf(tokens[1..], depth + 1);
      var parsed := ParseValue(tokens[1..], depth + 1);
      var others := MembersOf(parsed.rest, depth, fields[tokens[0].text := parsed.value]);
      ms := Member(tokens[0].text, v, others);
      assert tokens == [tokens[0]] + tokens[1..];
    } else {
      ms := NoMembers;
    }
  }

  lemma {:induction false} ElementsOf(tokens: seq<Token>, depth: nat, items: seq<Value>) returns (es: Elements)
    requires ParseItems(tokens, depth, items).Parsed?
    ensures ElementsWellFormed(es)
    ensures tokens == ElementTokens(es) + [CloseArray] + ParseItems(tokens, depth, items).rest
    decreases |tokens|, 2
  {
    if More(tokens) {
      var h := DocumentOf(tokens, depth + 1);
      var parsed := ParseValue(tokens, depth + 1);
      var t := ElementsOf(parsed.rest, depth, items + [parsed.value]);
      es := Element(h, t);
    } else {
      es := NoElements;
    }
  }

  // ----- the manifest gate -----

  /** A published v2 manifest: one bounded object saying format 2, consistent, with files. */
  predicate ManifestOk(body: Body) {
    && body.Json? && 1 <= body.length <= MAX_MANIFEST_BYTES
    && var r := ParseValue(body.tokens, 0);
       && r.Parsed? && r.rest == [] && r.value.ObjectValue?
       && Has(r.value.fields, "format_version", Number("2"))
       && Has(r.value.fields, "consistency_verified", Bool(true))
       && Has(r.value.fields, "file_data_included", Bool(true))
  }

  predicate Has(fields: map<string, Value>, key: string, token: Token) {
    key in fields && fields[key] == Scalar(token)
  }

  method ValidateManifest(body: Body) returns (ok: bool)
    ensures ok <==> ManifestOk(body)
  {
    if !body.Json? || body.length == 0 || body.length > MAX_MANIFEST_BYTES {
      return false;
    }
    var decoder := new Decoder(body.tokens);
    var value := decoder.ReadUnique(0);
    if value == None || decoder.rest != [] || !value.value.ObjectValue? {
      return false;
    }
    var fields := value.value.fields;
    ok := Has(fields, "format_version", Number("2")) && Has(fields, "consistency_verified", Bool(true))
      && Has(fields, "file_data_included", Bool(true));
  }

  ghost predicate ManifestDoc(d: Doc, policy: Policy) {
    && Lenient(d, policy).ObjectValue?
    && Has(Lenient(d, policy).fields, "format_version", Number("2"))
    && Has(Lenient(d, policy).fields, "consistency_verified", Bool(true))
    && Has(Lenient(d, policy).fields, "file_data_included", Bool(true))
  }

  /** An accepted manifest says the same to every reader. */
  lemma ManifestUnambiguous(body: Body) returns (d: Doc)
    requires ManifestOk(body)
    ensures body.tokens == Tokens(d) && UniqueKeys(d) && Height(d) <= MAX_DEPTH
    ensures ManifestDoc(d, FirstWins) && ManifestDoc(d, LastWins)
  {
    d := AcceptedIsDocument(body.tokens, 0);
  }

  /** An object has a member of this key with this value. */
  ghost predicate HasMember(ms: Members, key: string, value: Doc) {
    ms.Member? && ((ms.key == key && ms.value == value) || HasMember(ms.others, key, value))
  }

  lemma {:induction false} MemberHasKey(ms: Members, key: string, value: Doc)
    requires HasMember(ms, key, value)
    ensures key in Keys(ms)
  {
    if !(ms.key == key && ms.value == value) { MemberHasKey(ms.others, key, value); }
  }

  lemma {:induction false} FieldsAreMembers(ms: Members, fields: map<string, Value>, key: string, token: Token)
    requires UniqueMembers(ms) && Keys(ms) !! fields.Keys
    ensures Has(LenientFields(ms, LastWins, fields), key, token) <==>
      HasMember(ms, key, Leaf(token)) || Has(fields, key, token)
    decreases ms
  {
    match ms
    case NoMembers =>
    case Member(k, v, others) =>
      assert Keys(ms) == {k} + Keys(others);
      var next := fields[k := Lenient(v, LastWins)];
      assert next.Keys == fields.Keys + {k};
      FieldsAreMembers(others, next, key, token);
      assert Lenient(v, LastWins) == Scalar(token) <==> v == Leaf(token);
      if HasMember(others, key, Leaf(token)) { MemberHasKey(others, key, Leaf(token)); }
  }

  /** The three members that a published manifest must have. */
  ghost predicate SaysPublished(ms: Members) {
    && HasMember(ms, "format_version", Leaf(Number("2")))
    && HasMember(ms, "consistency_verified", Leaf(Bool(true)))
    && HasMember(ms, "file_data_included", Leaf(Bool(true)))
  }

  ghost predicate ManifestOf(tokens: seq<Token>, ms: Members) {
    && WellFormed(Object(ms)) && tokens == Tokens(Object(ms))
    && UniqueKeys(Object(ms)) && Height(Object(ms)) <= 32 && SaysPublished(ms)
  }

  /** A manifest is accepted exactly if it is one object of at most 64 KiB, no deeper than 32
      levels, without a repeated key at any of them, that has the three members. */
  lemma ManifestMeaning(body: Body)
    ensures ManifestOk(body) <==>
      body.Json? && 1 <= body.length <= 65_536 && exists ms :: ManifestOf(body.tokens, ms)
  {
    hide ParseValue, Tokens, UniqueKeys, Height, WellFormed, HasMember;
    if ManifestOk(body) {
      var d := AcceptedIsDocument(body.tokens, 0);
      assert Tokens(d) + [] == Tokens(d);
      ObjectRead(d);
      MembersSay(d.members);
      assert ManifestOf(body.tokens, d.members);
    }
    if body.Json? && 1 <= body.length <= 65_536 && exists ms :: ManifestOf(body.tokens, ms) {
      var ms :| ManifestOf(body.tokens, ms);
      ReadsDocument(Object(ms), 0, [], LastWins);
      assert Tokens(Object(ms)) + [] == Tokens(Object(ms));
      MembersSay(ms);
    }
  }

  lemma ObjectRead(d: Doc)
    ensures Lenient(d, LastWins).ObjectValue? <==> d.Object?
  {
  }

  lemma MembersSay(ms: Members)
    requires UniqueKeys(Object(ms))
    ensures SaysPublished(ms) <==>
      var fields := Lenient(Object(ms), LastWins).fields;
      && Has(fields, "format_version", Number("2")) && Has(fields, "consistency_verified", Bool(true))
      && Has(fields, "file_data_included", Bool(true))
  {
    hide HasMember, LenientFields;
    FieldsAreMembers(ms, map[], "format_version", Number("2"));
    FieldsAreMembers(ms, map[], "consistency_verified", Bool(true));
    FieldsAreMembers(ms, map[], "file_data_included", Bool(true));
  }
}

/** The durable commit: an immutable terminal receipt, published once by a hard link, decides;
    a reconciliation finishes whatever a crash left undone. */
module CaddyCommit {
  import opened Wrappers
  import opened CaddyEnv
  import opened CaddyJournal

  /** The private record of the targets that a commit retires. */
  datatype Retired = Retired(request: string, target: string, previous: string, domain: string, lan: string)

  const Digest: Retired -> string

  datatype Receipt = Receipt(request: string, sha: string, generation: string, live: string, retired: string)

  /** Terminal and temporary names are links to inodes; an inode or a record that was created
      but not yet written is `None`. */
  datatype Ledger = Ledger(
    journal: Journal, records: map<string, Option<Retired>>,
    inodes: map<nat, Option<Receipt>>, terminals: map<string, nat>, temps: map<string, nat>)

  datatype LedgerOp =
    | CreateRecord(id: string) | WriteRecord(id: string, record: Retired)
    | CreateTemp(temp: string, inode: nat) | WriteTemp(inode: nat, receipt: Receipt)
    | Publish(temp: string, id: string) | DropTemp(temp: string)
    | Files(op: FileOp)

  function Do(l: Ledger, op: LedgerOp): Ledger {
    match op
    case CreateRecord(id) => l.(records := l.records[id := None])
    case WriteRecord(id, record) => l.(records := l.records[id := Some(record)])
    case CreateTemp(temp, inode) => l.(inodes := l.inodes[inode := None], temps := l.temps[temp := inode])
    case WriteTemp(inode, receipt) => l.(inodes := l.inodes[inode := Some(receipt)])
    case Publish(temp, id) =>
      if temp in l.temps && id !in l.terminals then l.(terminals := l.terminals[id := l.temps[temp]]) else l
    case DropTemp(temp) => l.(temps := l.temps - {temp})
    case Files(op) => l.(journal := ApplyOp(l.journal, op))
  }

  function DoAll(l: Ledger, ops: seq<LedgerOp>): Ledger {
    if ops == [] then l else Do(DoAll(l, ops[..|ops| - 1]), ops[|ops| - 1])
  }

  // ----- links -----

  function Siblings(l: Ledger, inode: nat): set<string> {
    set t | t in l.temps && l.temps[t] == inode
  }

  function Finals(l: Ledger, inode: nat): set<string> {
    set id | id in l.terminals && l.terminals[id] == inode
  }

  function LinkCount(l: Ledger, inode: nat): nat {
    |Finals(l, inode)| + |Siblings(l, inode)|
  }

  // ----- the decision -----

  datatype Decision = Decision(id: string, expected: string, generation: string, live: string)

  /** What the commit retires, seen from the backup and the values in force. */
  function RetiredBy(l: Ledger, c: Decision): Retired {
    var before :=
      if l.journal.backup.Some? && Parse(l.journal.backup.value).Some?
      then Parse(l.journal.backup.value).value else map[];
    var now := Present(l.journal);
    var domain, lan := Lower(Valued(before, "XD_DOMAIN")), Valued(before, "XD_LAN_HTTPS_IP");
    Retired(c.id, c.expected, Fingerprint(before),
      if domain != "" && domain != Lower(Valued(now, "XD_DOMAIN")) then domain else "",
      if lan != "" && lan != Valued(now, "XD_LAN_HTTPS_IP") then lan else "")
  }

  predicate RetirableBackup(l: Ledger) {
    && l.journal.backup.Some? && Parse(l.journal.backup.value).Some?
    && var before := Parse(l.journal.backup.value).value;
       && (Lower(Valued(before, "XD_DOMAIN")) != "" ==> HostPattern(Lower(Valued(before, "XD_DOMAIN"))))
       && (Valued(before, "XD_LAN_HTTPS_IP") != "" ==> PrivateAddress(Valued(before, "XD_LAN_HTTPS_IP")))
  }

  /** An earlier attempt may have left exactly this record; anything else refuses. */
  predicate Decidable(l: Ledger, c: Decision) {
    && Committable(l.journal, c.expected) && RetirableBackup(l)
    && (c.id in l.records ==> l.records[c.id] == Some(RetiredBy(l, c)))
  }

  function ReceiptOf(l: Ledger, c: Decision): Receipt {
    Receipt(c.id, c.expected, c.generation, c.live, Digest(RetiredBy(l, c)))
  }

  function RecordOps(l: Ledger, c: Decision): seq<LedgerOp> {
    if c.id in l.records then [] else [CreateRecord(c.id), WriteRecord(c.id, RetiredBy(l, c))]
  }

  /** The operations of a durable commit. A request that has its terminal already fails at the
      link, and removes its temporary file. */
  function CommitOps(l: Ledger, c: Decision, temp: string, inode: nat): seq<LedgerOp> {
    RecordOps(l, c) + [CreateTemp(temp, inode), WriteTemp(inode, ReceiptOf(l, c))]
      + if c.id in l.terminals then [DropTemp(temp)]
        else [Publish(temp, c.id), DropTemp(temp), Files(DropMarker), Files(DropBackup)]
  }

  // ----- reconciliation -----

  /** A terminal that names exactly this decision, backed by its private record. */
  predicate TerminalFor(l: Ledger, id: string, expected: string) {
    && id in l.terminals && l.terminals[id] in l.inodes && l.inodes[l.terminals[id]].Some?
    && var r := l.inodes[l.terminals[id]].value;
       && r.request == id && r.sha == expected
       && id in l.records && l.records[id].Some?
       && var p := l.records[id].value;
          && Digest(p) == r.retired && p.request == id && p.target == expected
          && (p.domain != "" ==> HostPattern(p.domain)) && (p.lan != "" ==> PrivateAddress(p.lan))
  }

  /** One link, or a second one that is the temporary name of the same inode. */
  predicate LinksOk(l: Ledger, id: string)
    requires id in l.terminals
  {
    var inode := l.terminals[id];
    LinkCount(l, inode) == 1 || (LinkCount(l, inode) == 2 && |Siblings(l, inode)| == 1)
  }

  predicate JournalFor(j: Journal, expected: string) {
    && Expects(j, expected)
    && (j.marker.Some? ==> j.marker.value == expected)
    && (j.backup.Some? ==> Parse(j.backup.value).Some?)
  }

  /** Everything a reconciliation demands, for a receipt within its age limit. */
  predicate Reconcilable(l: Ledger, id: string, expected: string) {
    TerminalFor(l, id, expected) && LinksOk(l, id) && JournalFor(l.journal, expected)
  }

  /** Finding the sibling, if the link count calls for one. */
  function SiblingOps(l: Ledger, id: string): seq<LedgerOp>
    requires id in l.terminals && LinksOk(l, id)
  {
    var inode := l.terminals[id];
    if LinkCount(l, inode) == 1 then [] else [DropTemp(TheOne(Siblings(l, inode)))]
  }

  function TheOne(s: set<string>): (x: string)
    requires |s| == 1
    ensures s == {x}
  {
    OneElement(s);
    var x :| x in s && s == {x};
    x
  }

  lemma OneElement(s: set<string>)
    requires |s| == 1
    ensures exists x :: x in s && s == {x}
    ensures forall x, y :: x in s && y in s ==> x == y
  {
    var x :| x in s;
    assert |s - {x}| == 0;
    assert s == {x};
  }

  /** The temporary link goes before the receipt is even read; the journal only after every
      check. */
  function ReconcileOps(l: Ledger, id: string, expected: string): seq<LedgerOp>
    requires id in l.terminals && LinksOk(l, id)
  {
    SiblingOps(l, id)
      + if TerminalFor(l, id, expected) && JournalFor(l.journal, expected)
        then (if l.journal.marker.Some? then [Files(DropMarker)] else [])
          + (if l.journal.backup.Some? then [Files(DropBackup)] else [])
        else []
  }

  lemma DoOne(l: Ledger, ops: seq<LedgerOp>, op: LedgerOp)
    ensures DoAll(l, ops + [op]) == Do(DoAll(l, ops), op)
  {
    assert (ops + [op])[..|ops|] == ops;
  }

  lemma DoNone(l: Ledger)
    ensures DoAll(l, []) == l
  {
  }

  /** Removing the sibling changes no check. */
  lemma ReconcileChecks(l: Ledger, id: string, expected: string)
    requires id in l.terminals && LinksOk(l, id)
    ensures var l' := DoAll(l, SiblingOps(l, id));
      && l'.journal == l.journal && l'.terminals == l.terminals && l'.inodes == l.inodes && l'.records == l.records
      && (TerminalFor(l', id, expected) <==> TerminalFor(l, id, expected))
  {
    var ops := SiblingOps(l, id);
    DoNone(l);
    if ops != [] {
      assert ops == [] + [ops[0]];
      DoOne(l, [], ops[0]);
    }
  }

  // ----- the same, in plain terms -----

  /** The record of what goes out of service when `now` replaces `before`. */
  ghost predicate Retires(before: Values, now: Values, c: Decision, r: Retired) {
    && "XD_DOMAIN" in before && "XD_LAN_HTTPS_IP" in before && "XD_DOMAIN" in now && "XD_LAN_HTTPS_IP" in now
    && r.request == c.id && r.target == c.expected && r.previous == Fingerprint(before)
    && r.domain == (if Lower(before["XD_DOMAIN"]) == Lower(now["XD_DOMAIN"]) then "" else Lower(before["XD_DOMAIN"]))
    && r.lan == (if before["XD_LAN_HTTPS_IP"] == now["XD_LAN_HTTPS_IP"] then "" else before["XD_LAN_HTTPS_IP"])
  }

  /** A commit is accepted: the marker names the values in force, the backup can be read and names
      proper targets, and an earlier record of this request says the same. */
  ghost predicate CommitLeads(l: Ledger, c: Decision, r: Retired) {
    && Parse(l.journal.env).Some? && l.journal.backup.Some? && Parse(l.journal.backup.value).Some?
    && Fingerprint(Parse(l.journal.env).value) == c.expected && l.journal.marker == Some(c.expected)
    && var before := Parse(l.journal.backup.value).value;
       && Retires(before, Parse(l.journal.env).value, c, r)
       && (Lower(before["XD_DOMAIN"]) == "" || HostPattern(Lower(before["XD_DOMAIN"])))
       && (before["XD_LAN_HTTPS_IP"] == "" || PrivateAddress(before["XD_LAN_HTTPS_IP"]))
       && (c.id in l.records ==> l.records[c.id] == Some(r))
  }

  lemma DecidableMeaning(l: Ledger, c: Decision)
    ensures Decidable(l, c) <==> CommitLeads(l, c, RetiredBy(l, c))
    ensures forall r :: CommitLeads(l, c, r) ==> r == RetiredBy(l, c)
  {
    hide Parse, KEYS, Full;
    if Parse(l.journal.env).Some? {
      ParsedIsWritable(l.journal.env);
      FourKeys(Parse(l.journal.env).value);
      if l.journal.backup.Some? && Parse(l.journal.backup.value).Some? {
        ParsedIsWritable(l.journal.backup.value);
        FourKeys(Parse(l.journal.backup.value).value);
      }
    }
  }

  /** A finished commit: its record, its receipt under its own name alone, and a clean journal. */
  ghost predicate Committed(l: Ledger, e: Ledger, c: Decision, inode: nat, r: Retired) {
    && e.journal == Journal(l.journal.env, None, None) && e.temps == l.temps
    && e.records == l.records[c.id := Some(r)]
    && e.terminals == l.terminals[c.id := inode]
    && e.inodes == l.inodes[inode := Some(Receipt(c.id, c.expected, c.generation, c.live, Digest(r)))]
  }

  lemma CommitEnds(l: Ledger, c: Decision, temp: string, inode: nat)
    requires Decidable(l, c) && temp !in l.temps && c.id !in l.terminals
    ensures Committed(l, DoAll(l, CommitOps(l, c, temp, inode)), c, inode, RetiredBy(l, c))
  {
    hide Parse, RetiredBy, Committable, RetirableBackup, RecordOps, DoAll;
    var a, r := RecordOps(l, c), RetiredBy(l, c);
    var receipt := ReceiptOf(l, c);
    RecordEnds(l, c);
    var tail := [CreateTemp(temp, inode), WriteTemp(inode, receipt), Publish(temp, c.id), DropTemp(temp),
                 Files(DropMarker), Files(DropBackup)];
    assert CommitOps(l, c, temp, inode) == a + tail;
    DoSix(l, a, tail);
    SixEffects(DoAll(l, a), temp, inode, receipt, c.id);
  }

  lemma SixEffects(l: Ledger, temp: string, inode: nat, receipt: Receipt, id: string)
    requires temp !in l.temps && id !in l.terminals
    ensures Do(Do(Do(l, CreateTemp(temp, inode)), WriteTemp(inode, receipt)), Publish(temp, id)) ==
      l.(inodes := l.inodes[inode := Some(receipt)], temps := l.temps[temp := inode],
         terminals := l.terminals[id := inode])
    ensures Do(Do(Do(l.(temps := l.temps[temp := inode]), DropTemp(temp)), Files(DropMarker)), Files(DropBackup)) ==
      l.(journal := Journal(l.journal.env, None, None))
  {
    MapAgain(l.inodes, inode, None, Some(receipt));
    MapAgain(l.temps, temp, inode, inode);
  }

  lemma RecordEnds(l: Ledger, c: Decision)
    requires c.id in l.records ==> l.records[c.id] == Some(RetiredBy(l, c))
    ensures DoAll(l, RecordOps(l, c)) == l.(records := l.records[c.id := Some(RetiredBy(l, c))])
  {
    hide RetiredBy;
    DoNone(l);
    if c.id in l.records {
      assert l.records[c.id := l.records[c.id]] == l.records;
    } else {
      var ops := RecordOps(l, c);
      assert ops == ([] + [ops[0]]) + [ops[1]];
      DoOne(l, [], ops[0]);
      DoOne(l, [] + [ops[0]], ops[1]);
      MapAgain(l.records, c.id, None, Some(RetiredBy(l, c)));
    }
  }

  lemma DoSix(l: Ledger, a: seq<LedgerOp>, t: seq<LedgerOp>)
    requires |t| == 6
    ensures DoAll(l, a + t) == Do(Do(Do(Do(Do(Do(DoAll(l, a), t[0]), t[1]), t[2]), t[3]), t[4]), t[5])
  {
    hide Do, DoAll;
    DoOne(l, a, t[0]);
    DoOne(l, a + [t[0]], t[1]);
    DoOne(l, a + [t[0]] + [t[1]], t[2]);
    DoOne(l, a + [t[0]] + [t[1]] + [t[2]], t[3]);
    DoOne(l, a + [t[0]] + [t[1]] + [t[2]] + [t[3]], t[4]);
    DoOne(l, a + [t[0]] + [t[1]] + [t[2]] + [t[3]] + [t[4]], t[5]);
    assert a + t == a + [t[0]] + [t[1]] + [t[2]] + [t[3]] + [t[4]] + [t[5]];
  }

  /** The terminal has one name, and at most one temporary name beside it. */
  ghost predicate LinkedAt(l: Ledger, id: string) {
    && id in l.terminals
    && (forall other :: other in l.terminals && other != id ==> l.terminals[other] != l.terminals[id])
    && (forall t, u :: t in l.temps && u in l.temps && l.temps[t] == l.temps[u] == l.terminals[id] ==> t == u)
  }

  /** What a finished reconciliation leaves: no marker, no backup, no second name; all else stays. */
  ghost predicate TidiedUp(l: Ledger, e: Ledger, id: string) {
    && e.journal == Journal(l.journal.env, None, None)
    && e.records == l.records && e.inodes == l.inodes && e.terminals == l.terminals
    && id in l.terminals && e.temps == (map t | t in l.temps && l.temps[t] != l.terminals[id] :: l.temps[t])
  }

  /** A receipt that decides: it and its private record name this request and these values, and the
      journal that is left is about them. */
  ghost predicate Decides(l: Ledger, id: string, expected: string, receipt: Receipt, p: Retired) {
    && id in l.terminals && l.terminals[id] in l.inodes && l.inodes[l.terminals[id]] == Some(receipt)
    && receipt.request == id && receipt.sha == expected && receipt.retired == Digest(p)
    && id in l.records && l.records[id] == Some(p) && p.request == id && p.target == expected
    && (p.domain == "" || HostPattern(p.domain)) && (p.lan == "" || PrivateAddress(p.lan))
    && Parse(l.journal.env).Some? && Fingerprint(Parse(l.journal.env).value) == expected
    && (l.journal.marker == None || l.journal.marker == Some(expected))
    && (l.journal.backup == None || Parse(l.journal.backup.value).Some?)
  }

  lemma ReconcilableMeaning(l: Ledger, id: string, expected: string)
    ensures Reconcilable(l, id, expected) <==>
      (exists receipt, p :: Decides(l, id, expected, receipt, p)) && LinkedAt(l, id)
  {
    hide Parse;
    if id in l.terminals {
      LinksMeaning(l, id);
      var inode := l.terminals[id];
      if inode in l.inodes && l.inodes[inode].Some? && id in l.records && l.records[id].Some? {
        assert Reconcilable(l, id, expected) ==>
          Decides(l, id, expected, l.inodes[inode].value, l.records[id].value) && LinkedAt(l, id);
      }
    }
  }

  lemma LinksMeaning(l: Ledger, id: string)
    requires id in l.terminals
    ensures LinksOk(l, id) <==> LinkedAt(l, id)
  {
    var inode := l.terminals[id];
    AtMostOne(Finals(l, inode), id);
    assert forall x :: x in l.terminals && l.terminals[x] == inode <==> x in Finals(l, inode);
    assert forall x :: x in l.temps && l.temps[x] == inode <==> x in Siblings(l, inode);
    if Siblings(l, inode) != {} {
      var t :| t in Siblings(l, inode);
      AtMostOne(Siblings(l, inode), t);
    } else {
      assert |Siblings(l, inode)| == 0;
    }
  }

  lemma AtMostOne(s: set<string>, x: string)
    requires x in s
    ensures |s| >= 1 && (|s| == 1 <==> forall y :: y in s ==> y == x)
  {
    assert |s - {x}| == |s| - 1;
    if forall y :: y in s ==> y == x { assert s == {x}; }
    if |s| == 1 { assert s - {x} == {}; }
  }

  lemma ReconcilableAll(l: Ledger, id: string, expected: string)
    requires Reconcilable(l, id, expected)
    ensures TerminalFor(l, id, expected) && id in l.terminals && LinksOk(l, id) && JournalFor(l.journal, expected)
  {
  }

  lemma ReconcileIs(l: Ledger, id: string, expected: string)
    requires id in l.terminals && LinksOk(l, id)
    ensures Reconcilable(l, id, expected) <==> TerminalFor(l, id, expected) && JournalFor(l.journal, expected)
  {
    hide TerminalFor, JournalFor, LinksOk;
  }

  lemma ReconcileEnds(l: Ledger, id: string, expected: string)
    requires id in l.terminals && LinksOk(l, id) && TerminalFor(l, id, expected) && JournalFor(l.journal, expected)
    ensures TidiedUp(l, DoAll(l, ReconcileOps(l, id, expected)), id)
  {
    hide TerminalFor, JournalFor;
    var a, j := SiblingOps(l, id), l.journal;
    SiblingEnds(l, id);
    var m := DoAll(l, a);
    DoOne(l, a, Files(DropMarker));
    DoOne(l, a, Files(DropBackup));
    DoOne(l, a + [Files(DropMarker)], Files(DropBackup));
    assert ReconcileOps(l, id, expected) ==
      if j.marker.Some? && j.backup.Some? then a + [Files(DropMarker)] + [Files(DropBackup)]
      else if j.marker.Some? then a + [Files(DropMarker)]
      else if j.backup.Some? then a + [Files(DropBackup)] else a;
  }

  lemma SiblingEnds(l: Ledger, id: string)
    requires id in l.terminals && LinksOk(l, id)
    ensures DoAll(l, SiblingOps(l, id)) ==
      l.(temps := map t | t in l.temps && l.temps[t] != l.terminals[id] :: l.temps[t])
  {
    var inode, ops := l.terminals[id], SiblingOps(l, id);
    AtMostOne(Finals(l, inode), id);
    DoNone(l);
    if LinkCount(l, inode) == 1 {
      assert |Siblings(l, inode)| == 0;
      NoneLeft(l, inode);
    } else {
      var t := TheOne(Siblings(l, inode));
      assert ops == [] + [DropTemp(t)];
      DoOne(l, [], DropTemp(t));
      OneLeft(l, inode, t);
    }
  }

  lemma NoneLeft(l: Ledger, inode: nat)
    requires Siblings(l, inode) == {}
    ensures l.temps == map t | t in l.temps && l.temps[t] != inode :: l.temps[t]
  {
    assert forall t :: t in l.temps && l.temps[t] == inode ==> t in Siblings(l, inode);
  }

  lemma OneLeft(l: Ledger, inode: nat, x: string)
    requires Siblings(l, inode) == {x}
    ensures l.temps - {x} == map t | t in l.temps && l.temps[t] != inode :: l.temps[t]
  {
    assert forall t :: t in l.temps && l.temps[t] == inode <==> t in Siblings(l, inode);
  }

  // ----- the program -----

  class Runner {
    var ledger: Ledger
    var log: seq<LedgerOp>
    /** How many more file operations happen before the process is stopped. */
    var budget: nat

    constructor (l: Ledger, operations: nat)
      ensures ledger == l && log == [] && budget == operations
    {
      ledger, log, budget := l, [], operations;
    }

    method PerformAll(ops: seq<LedgerOp>, ghost l: Ledger) returns (finished: bool)
      requires ledger == DoAll(l, log)
      modifies this
      ensures old(log) <= log <= old(log) + ops && ledger == DoAll(l, log)
      ensures finished <==> log == old(log) + ops
      ensures !finished ==> budget == 0
    {
      assert old(log) + ops[..0] == old(log);
      for i := 0 to |ops|
        invariant log == old(log) + ops[..i] && ledger == DoAll(l, log)
      {
        assert old(log) + ops[..i + 1] == (old(log) + ops[..i]) + [ops[i]];
        DoOne(l, old(log) + ops[..i], ops[i]);
        if budget == 0 {
          return false;
        }
        ledger, log, budget := Do(ledger, ops[i]), log + [ops[i]], budget - 1;
      }
      finished := true;
    }

    /** `finish` with a durable decision; the temporary name and its inode are new. */
    method DurableCommit(c: Decision, temp: string, inode: nat) returns (outcome: Outcome)
      requires log == [] && temp !in ledger.temps && inode !in ledger.inodes
      modifies this
      ensures outcome == Refused ==> ledger == old(ledger) && !Decidable(old(ledger), c)
      ensures outcome != Refused ==>
        && Decidable(old(ledger), c)
        && log <= CommitOps(old(ledger), c, temp, inode) && ledger == DoAll(old(ledger), log)
        && (outcome == Finished ==> log == CommitOps(old(ledger), c, temp, inode) && c.id !in old(ledger).terminals)
        && (outcome == Interrupted ==> budget == 0 || c.id in old(ledger).terminals)
      // accepted, and finished, in plain terms
      ensures outcome == Refused <==> !exists r :: CommitLeads(old(ledger), c, r)
      ensures outcome == Finished ==>
        exists r :: CommitLeads(old(ledger), c, r) && Committed(old(ledger), ledger, c, inode, r)
    {
      ghost var l := ledger;
      hide Parse, CommitLeads, Committed, RetiredBy, ReceiptOf, RetirableBackup;
      DecidableMeaning(l, c);
      if Decidable(l, c) && c.id !in l.terminals { CommitEnds(l, c, temp, inode); }
      var present := ParseEnv(ledger.journal.env);
      if present == None || Fingerprint(present.value) != c.expected || ledger.journal.backup == None ||
         ledger.journal.marker != Some(c.expected) || !RetirableBackup(ledger) {
        return Refused;
      }
      var record := RetiredBy(ledger, c);
      var ops: seq<LedgerOp> := [];
      if c.id in ledger.records {
        if ledger.records[c.id] != Some(record) {
          return Refused;
        }
      } else {
        ops := [CreateRecord(c.id), WriteRecord(c.id, record)];
      }
      var linked := c.id !in ledger.terminals;
      ops := ops + [CreateTemp(temp, inode), WriteTemp(inode, ReceiptOf(ledger, c))];
      ops := ops +
        if linked then [Publish(temp, c.id), DropTemp(temp), Files(DropMarker), Files(DropBackup)]
        else [DropTemp(temp)];
      assert ops == CommitOps(l, c, temp, inode);
      DoNone(l);
      var finished := PerformAll(ops, l);
      outcome := if finished && linked then Finished else Interrupted;
    }

    /** `reconcile_committed`. The sibling link goes first; a receipt, record or journal that
        does not match then stops it. */
    method Reconcile(id: string, expected: string, young: bool) returns (outcome: Outcome)
      requires log == []
      modifies this
      ensures !young || id !in old(ledger).terminals || !LinksOk(old(ledger), id) ==>
        outcome == Refused && ledger == old(ledger)
      ensures young && id in old(ledger).terminals && LinksOk(old(ledger), id) ==>
        && log <= ReconcileOps(old(ledger), id, expected) && ledger == DoAll(old(ledger), log)
        && (outcome == Finished <==>
          Reconcilable(old(ledger), id, expected) && log == ReconcileOps(old(ledger), id, expected))
        && (outcome == Interrupted ==> budget == 0)
        && (outcome == Refused ==> !Reconcilable(old(ledger), id, expected))
      // finished, in plain terms
      ensures outcome == Finished ==>
        && (exists receipt, p :: Decides(old(ledger), id, expected, receipt, p)) && LinkedAt(old(ledger), id)
        && TidiedUp(old(ledger), ledger, id)
    {
      hide Parse, Decides, LinkedAt, TidiedUp, TerminalFor, JournalFor, LinksOk, SiblingOps, Reconcilable;
      ghost var l := ledger;
      ReconcilableMeaning(l, id, expected);
      if Reconcilable(l, id, expected) {
        ReconcilableAll(l, id, expected);
        ReconcileEnds(l, id, expected);
      }
      if id in l.terminals && LinksOk(l, id) { ReconcileIs(l, id, expected); }
      if !young || id !in ledger.terminals || !LinksOk(ledger, id) {
        return Refused;
      }
      DoNone(l);
      var sibling := SiblingOps(ledger, id);
      ghost var all := ReconcileOps(l, id, expected);
      assert [] + sibling == sibling && sibling <= all && sibling + [] == sibling;
      var finished := PerformAll(sibling, l);
      if !finished {
        return Interrupted;
      }
      ReconcileChecks(l, id, expected);
      if !TerminalFor(ledger, id, expected) || !JournalFor(ledger.journal, expected) {
        return Refused;
      }
      var ops := if ledger.journal.marker.Some? then [Files(DropMarker)] else [];
      ops := ops + if ledger.journal.backup.Some? then [Files(DropBackup)] else [];
      assert all == sibling + ops;
      finished := PerformAll(ops, l);
      outcome := if finished then Finished else Interrupted;
    }
  }

  // ----- all or nothing -----

  /** The new temporary name and inode are in use nowhere. */
  ghost predicate Unused(l: Ledger, temp: string, inode: nat) {
    && temp !in l.temps && inode !in l.inodes
    && (forall id :: id in l.terminals ==> l.terminals[id] != inode)
    && (forall t :: t in l.temps ==> l.temps[t] != inode)
  }

  /** The state after the private record is in place. */
  function Recorded(l: Ledger, c: Decision): Ledger {
    if c.id in l.records then l else l.(records := l.records[c.id := Some(RetiredBy(l, c))])
  }

  /** The states from there on, one operation after another. */
  function Stage(l: Ledger, c: Decision, temp: string, inode: nat, i: nat): Ledger {
    var r := Recorded(l, c);
    var receipt := Some(ReceiptOf(l, c));
    if i == 0 then r
    else if i == 1 then r.(inodes := r.inodes[inode := None], temps := r.temps[temp := inode])
    else if i == 2 then r.(inodes := r.inodes[inode := receipt], temps := r.temps[temp := inode])
    else if i == 3 then
      r.(inodes := r.inodes[inode := receipt], temps := r.temps[temp := inode], terminals := r.terminals[c.id := inode])
    else
      r.(inodes := r.inodes[inode := receipt], terminals := r.terminals[c.id := inode],
         journal := if i == 4 then r.journal else if i == 5 then r.journal.(marker := None)
                    else r.journal.(marker := None, backup := None))
  }

  lemma MapAgain<K, V>(m: map<K, V>, k: K, u: V, v: V)
    ensures m[k := u][k := v] == m[k := v]
    ensures k !in m ==> m[k := u] - {k} == m
  {
  }

  lemma StageStep(l: Ledger, c: Decision, temp: string, inode: nat, i: nat)
    requires Unused(l, temp, inode) && c.id !in l.terminals && i < 6
    ensures var ops := [CreateTemp(temp, inode), WriteTemp(inode, ReceiptOf(l, c)), Publish(temp, c.id), DropTemp(temp),
                        Files(DropMarker), Files(DropBackup)];
      Do(Stage(l, c, temp, inode, i), ops[i]) == Stage(l, c, temp, inode, i + 1)
  {
    hide RetiredBy, ReceiptOf;
    var r := Recorded(l, c);
    MapAgain(r.inodes, inode, None, Some(ReceiptOf(l, c)));
    MapAgain(r.temps, temp, inode, inode);
  }

  lemma StartStages(l: Ledger, c: Decision)
    ensures var n := |RecordOps(l, c)|; n == 0 || n == 2
    ensures DoAll(l, RecordOps(l, c)) == Recorded(l, c)
    ensures c.id !in l.records ==> DoAll(l, RecordOps(l, c)[..1]) == l.(records := l.records[c.id := None])
  {
    hide RetiredBy;
    var ops := RecordOps(l, c);
    DoNone(l);
    if c.id !in l.records {
      assert ops[..1] == [] + [ops[0]] && ops == ops[..1] + [ops[1]];
      DoOne(l, [], ops[0]);
      DoOne(l, ops[..1], ops[1]);
      MapAgain(l.records, c.id, None, Some(RetiredBy(l, c)));
    }
  }

  lemma {:induction false} Stages(l: Ledger, c: Decision, temp: string, inode: nat, i: nat)
    requires Unused(l, temp, inode) && c.id !in l.terminals && i <= 6
    ensures DoAll(l, CommitOps(l, c, temp, inode)[..|RecordOps(l, c)| + i]) == Stage(l, c, temp, inode, i)
  {
    hide RetiredBy, ReceiptOf, RecordOps, Do, Stage, Recorded;
    var ops, n := CommitOps(l, c, temp, inode), |RecordOps(l, c)|;
    StartStages(l, c);
    if i == 0 {
      assert ops[..n] == RecordOps(l, c);
      StageZero(l, c, temp, inode);
    } else {
      Stages(l, c, temp, inode, i - 1);
      StageStep(l, c, temp, inode, i - 1);
      assert ops[..n + i] == ops[..n + i - 1] + [ops[n + i - 1]];
      DoOne(l, ops[..n + i - 1], ops[n + i - 1]);
    }
  }

  lemma StageZero(l: Ledger, c: Decision, temp: string, inode: nat)
    ensures Stage(l, c, temp, inode, 0) == Recorded(l, c)
  {
  }

  lemma PublishedLinks(l: Ledger, c: Decision, temp: string, inode: nat, i: nat)
    requires Unused(l, temp, inode) && c.id !in l.terminals && 3 <= i <= 6
    ensures var s := Stage(l, c, temp, inode, i);
      && s.terminals[c.id] == inode && LinksOk(s, c.id)
      && Siblings(s, inode) == if i == 3 then {temp} else {}
  {
    hide RetiredBy, ReceiptOf;
    var s := Stage(l, c, temp, inode, i);
    assert Finals(s, inode) == {c.id};
    assert Siblings(s, inode) == if i == 3 then {temp} else {};
  }

  /** A durable commit, stopped after any number of operations. Before the link nothing has
      changed that matters: no terminal, the journal intact, a restore possible. From the link
      on the decision stands: the values are in force and a reconciliation will be accepted. */
  lemma AllOrNothing(l: Ledger, c: Decision, temp: string, inode: nat, k: nat)
    requires Decidable(l, c) && c.id !in l.terminals && Unused(l, temp, inode)
    requires k <= |CommitOps(l, c, temp, inode)|
    ensures var l', n := DoAll(l, CommitOps(l, c, temp, inode)[..k]), |RecordOps(l, c)|;
      && l'.journal.env == l.journal.env
      && (k <= n + 2 ==>
        c.id !in l'.terminals && l'.journal == l.journal && CaddyJournal.Restorable(l'.journal, c.expected))
      && (k > n + 2 ==>
            && Reconcilable(l', c.id, c.expected)
            && l'.inodes[l'.terminals[c.id]] == Some(ReceiptOf(l, c)))
      && (k == |CommitOps(l, c, temp, inode)| ==> Clean(l'.journal) && Siblings(l', l'.terminals[c.id]) == {})
  {
    hide Parse, ReceiptOf, RetiredBy, Stage, LinkCount, Siblings, DoAll, Do;
    var n := |RecordOps(l, c)|;
    StartStages(l, c);
    if k < n {
      FirstRecordOp(l, c, temp, inode, k);
    } else {
      Stages(l, c, temp, inode, k - n);
      StageFacts(l, c, temp, inode, k - n);
      if k > n + 2 {
        PublishedLinks(l, c, temp, inode, k - n);
        StageDecided(l, c, temp, inode, k - n);
      }
    }
  }

  lemma FirstRecordOp(l: Ledger, c: Decision, temp: string, inode: nat, k: nat)
    requires k < |RecordOps(l, c)|
    ensures var l' := DoAll(l, CommitOps(l, c, temp, inode)[..k]);
      && l'.journal == l.journal && l'.terminals == l.terminals
      && l'.records == (if k == 0 then l.records else l.records[c.id := None])
  {
    hide RetiredBy, ReceiptOf;
    StartStages(l, c);
    assert CommitOps(l, c, temp, inode)[..k] == RecordOps(l, c)[..k];
    DoNone(l);
  }

  lemma StageFacts(l: Ledger, c: Decision, temp: string, inode: nat, i: nat)
    requires i <= 6
    ensures var s := Stage(l, c, temp, inode, i);
      && s.journal.env == l.journal.env
      && (i <= 2 ==> s.terminals == l.terminals)
      && (i <= 4 ==> s.journal == l.journal)
      && (i == 5 ==> s.journal == l.journal.(marker := None))
      && (i == 6 ==> s.journal == l.journal.(marker := None, backup := None))
      && s.records == Recorded(l, c).records
  {
    hide RetiredBy, ReceiptOf;
  }

  lemma StageDecided(l: Ledger, c: Decision, temp: string, inode: nat, i: nat)
    requires Decidable(l, c) && c.id !in l.terminals && Unused(l, temp, inode) && 3 <= i <= 6
    ensures var s := Stage(l, c, temp, inode, i);
      TerminalFor(s, c.id, c.expected) && JournalFor(s.journal, c.expected)
        && s.inodes[s.terminals[c.id]] == Some(ReceiptOf(l, c))
  {
    hide Parse;
  }

  /** A commit that was stopped before its link may be tried again under the same request,
      exactly unless it was stopped with its private record created but not written. */
  lemma CommitRetries(l: Ledger, c: Decision, temp: string, inode: nat, k: nat)
    requires Decidable(l, c) && c.id !in l.terminals && Unused(l, temp, inode) && k <= |RecordOps(l, c)| + 2
    ensures Decidable(DoAll(l, CommitOps(l, c, temp, inode)[..k]), c) <==> !(c.id !in l.records && k == 1)
  {
    hide Parse, ReceiptOf, Stage, DoAll, Do, Committable;
    var n := |RecordOps(l, c)|;
    StartStages(l, c);
    if k < n {
      FirstRecordOp(l, c, temp, inode, k);
    } else {
      Stages(l, c, temp, inode, k - n);
      StageFacts(l, c, temp, inode, k - n);
    }
    SameRetired(l, DoAll(l, CommitOps(l, c, temp, inode)[..k]), c);
  }

  lemma SameRetired(l: Ledger, l': Ledger, c: Decision)
    ensures l'.journal == l.journal ==> RetiredBy(l', c) == RetiredBy(l, c) && RetirableBackup(l') == RetirableBackup(l)
  {
    hide Parse;
  }

  // ----- reconciling, as often as it takes -----

  lemma SiblingGone(l: Ledger, id: string, expected: string)
    requires Reconcilable(l, id, expected)
    ensures var l' := DoAll(l, SiblingOps(l, id));
      && Reconcilable(l', id, expected) && Siblings(l', l.terminals[id]) == {}
      && l'.journal == l.journal && l'.terminals == l.terminals && l'.inodes == l.inodes
  {
    hide TerminalFor, JournalFor;
    ReconcilableParts(l, id, expected);
    var inode, ops := l.terminals[id], SiblingOps(l, id);
    ReconcileChecks(l, id, expected);
    var l' := DoAll(l, ops);
    TerminalCounts(l, id);
    DoNone(l);
    if ops != [] {
      var t := TheOne(Siblings(l, inode));
      assert ops == [] + [DropTemp(t)];
      DoOne(l, [], DropTemp(t));
      assert Siblings(l', inode) == {};
    }
  }

  /** The terminal itself is one link. */
  lemma TerminalCounts(l: Ledger, id: string)
    requires id in l.terminals
    ensures |Finals(l, l.terminals[id])| >= 1
    ensures LinkCount(l, l.terminals[id]) == 1 ==> Siblings(l, l.terminals[id]) == {}
  {
    AtMostOne(Finals(l, l.terminals[id]), id);
  }

  /** The journal operations of a reconciliation keep every check. */
  lemma JournalDropped(l: Ledger, id: string, expected: string, op: FileOp)
    requires Reconcilable(l, id, expected) && (op == DropMarker || op == DropBackup)
    ensures var l' := Do(l, Files(op));
      && Reconcilable(l', id, expected) && l'.journal.env == l.journal.env && l'.temps == l.temps
      && l'.terminals == l.terminals && l'.inodes == l.inodes
      && l'.journal == ApplyOp(l.journal, op)
  {
    hide Parse;
  }

  /** A reconciliation of a decided commit, stopped anywhere: the values, the terminal and its
      content stay, the next reconciliation is accepted, and a finished one leaves no marker, no
      backup and no second link. */
  lemma ReconcileKeeps(l: Ledger, id: string, expected: string, k: nat)
    requires Reconcilable(l, id, expected) && k <= |ReconcileOps(l, id, expected)|
    ensures var l' := DoAll(l, ReconcileOps(l, id, expected)[..k]);
      && Reconcilable(l', id, expected) && l'.journal.env == l.journal.env
      && l'.terminals == l.terminals && l'.inodes == l.inodes
      && (k == |ReconcileOps(l, id, expected)| ==> Clean(l'.journal) && Siblings(l', l.terminals[id]) == {})
  {
    hide Reconcilable, TerminalFor, JournalFor, LinksOk, DoAll, Do;
    ReconcilableParts(l, id, expected);
    var all, a := ReconcileOps(l, id, expected), SiblingOps(l, id);
    DoNone(l);
    if k < |a| {
      SiblingsAtMostOne(l, id);
      assert all[..k] == [];
    } else {
      assert all[..|a|] == a;
      SiblingGone(l, id, expected);
      JournalTail(l, DoAll(l, a), id, expected, k);
    }
  }

  lemma ReconcilableParts(l: Ledger, id: string, expected: string)
    requires Reconcilable(l, id, expected)
    ensures TerminalFor(l, id, expected) && id in l.terminals && LinksOk(l, id) && JournalFor(l.journal, expected)
  {
  }

  lemma SiblingsAtMostOne(l: Ledger, id: string)
    requires id in l.terminals && LinksOk(l, id)
    ensures |SiblingOps(l, id)| <= 1
  {
  }

  lemma JournalTail(l: Ledger, m: Ledger, id: string, expected: string, k: nat)
    requires Reconcilable(l, id, expected) && Reconcilable(m, id, expected) && m.journal == l.journal
    requires m.terminals == l.terminals && m.inodes == l.inodes && Siblings(m, l.terminals[id]) == {}
    requires |SiblingOps(l, id)| <= k <= |ReconcileOps(l, id, expected)| && m == DoAll(l, SiblingOps(l, id))
    ensures var l' := DoAll(l, ReconcileOps(l, id, expected)[..k]);
      && Reconcilable(l', id, expected) && l'.journal.env == l.journal.env
      && l'.terminals == l.terminals && l'.inodes == l.inodes
      && (k == |ReconcileOps(l, id, expected)| ==> Clean(l'.journal) && Siblings(l', l.terminals[id]) == {})
  {
    hide Reconcilable, TerminalFor, JournalFor, LinksOk, DoAll, Do, SiblingOps;
    ReconcilableParts(l, id, expected);
    var all, a := ReconcileOps(l, id, expected), SiblingOps(l, id);
    assert all[..|a|] == a;
    if k > |a| {
      assert all[..|a| + 1] == a + [all[|a|]];
      DoOne(l, a, all[|a|]);
      var first := if l.journal.marker.Some? then DropMarker else DropBackup;
      assert all[|a|] == Files(first);
      JournalDropped(m, id, expected, first);
      if k > |a| + 1 {
        assert all[..|a| + 2] == all[..|a| + 1] + [all[|a| + 1]];
        DoOne(l, all[..|a| + 1], all[|a| + 1]);
        assert all[|a| + 1] == Files(DropBackup);
        JournalDropped(DoAll(l, all[..|a| + 1]), id, expected, DropBackup);
      }
    }
  }

  /** Any number of reconciliations, each stopped after some operations. */
  function Reconciled(l: Ledger, id: string, expected: string, stops: seq<nat>): Ledger {
    if stops == [] then l
    else
      var before, k := Reconciled(l, id, expected, stops[..|stops| - 1]), stops[|stops| - 1];
      if Reconcilable(before, id, expected) && k <= |ReconcileOps(before, id, expected)|
      then DoAll(before, ReconcileOps(before, id, expected)[..k])
      else before
  }

  lemma {:induction false} ReconciledKeeps(l: Ledger, id: string, expected: string, stops: seq<nat>)
    requires Reconcilable(l, id, expected)
    ensures var l' := Reconciled(l, id, expected, stops);
      Reconcilable(l', id, expected) && l'.journal.env == l.journal.env && l'.terminals == l.terminals
        && l'.inodes == l.inodes
  {
    hide Reconcilable, ReconcileOps, DoAll, LinksOk;
    if stops != [] {
      ReconciledKeeps(l, id, expected, stops[..|stops| - 1]);
      var before, k := Reconciled(l, id, expected, stops[..|stops| - 1]), stops[|stops| - 1];
      ReconcilableParts(before, id, expected);
      if k <= |ReconcileOps(before, id, expected)| {
        ReconcileKeeps(before, id, expected, k);
      }
    }
  }

  /** A reconciliation that is not stopped. */
  function Finish(l: Ledger, id: string, expected: string): Ledger {
    if Reconcilable(l, id, expected) then DoAll(l, ReconcileOps(l, id, expected)) else l
  }

  /** The decision is carried out: the values in force at the commit are in force, the journal is
      clean, and the terminal, now under its own name alone, holds the receipt. */
  ghost predicate CarriedOut(l: Ledger, l': Ledger, c: Decision) {
    && l'.journal == Journal(l.journal.env, None, None)
    && c.id in l'.terminals && l'.terminals[c.id] in l'.inodes
    && l'.inodes[l'.terminals[c.id]] == Some(ReceiptOf(l, c))
    && Siblings(l', l'.terminals[c.id]) == {}
  }

  lemma FinishKeeps(l: Ledger, id: string, expected: string)
    requires Reconcilable(l, id, expected)
    ensures var l' := Finish(l, id, expected);
      && l'.journal == Journal(l.journal.env, None, None) && l'.terminals == l.terminals && l'.inodes == l.inodes
      && id in l.terminals && l.terminals[id] in l.inodes && Siblings(l', l.terminals[id]) == {}
  {
    hide ReconcileOps, DoAll, LinksOk, JournalFor;
    ReconcilableParts(l, id, expected);
    var ops := ReconcileOps(l, id, expected);
    ReconcileKeeps(l, id, expected, |ops|);
    assert ops[..|ops|] == ops;
  }

  /** The whole story: a durable commit stopped anywhere after its link, any number of stopped
      reconciliations, and one that finishes. */
  lemma CommitSettles(l: Ledger, c: Decision, temp: string, inode: nat, k: nat, stops: seq<nat>)
    requires Decidable(l, c) && c.id !in l.terminals && Unused(l, temp, inode)
    requires |RecordOps(l, c)| + 2 < k <= |CommitOps(l, c, temp, inode)|
    ensures var m := Reconciled(DoAll(l, CommitOps(l, c, temp, inode)[..k]), c.id, c.expected, stops);
      Reconcilable(m, c.id, c.expected) && CarriedOut(l, Finish(m, c.id, c.expected), c)
  {
    hide Reconcilable, ReconcileOps, DoAll, Decidable, CommitOps, RecordOps, ReceiptOf, Reconciled, LinksOk, Finish;
    AllOrNothing(l, c, temp, inode, k);
    var crashed := DoAll(l, CommitOps(l, c, temp, inode)[..k]);
    ReconciledKeeps(crashed, c.id, c.expected, stops);
    FinishKeeps(Reconciled(crashed, c.id, c.expected, stops), c.id, c.expected);
  }

  /** The values of an empty file, waiting to be committed. */
  function Waiting(): Ledger {
    Ledger(Journal("", Some(""), Some(Fingerprint(Present(Journal("", None, None))))), map[], map[], map[], map[])
  }

  lemma NothingParses()
    ensures Parse("") == Some(map k | k in KEYS :: "")
  {
    CompleteNone();
  }

  /** A commit stopped between creating and writing its record cannot be tried again. */
  lemma EmptyRecordBlocks(id: string, generation: string, live: string, temp: string)
    requires Lower("") == ""
    ensures var l := Waiting(); var c := Decision(id, Fingerprint(Present(l.journal)), generation, live);
      Decidable(l, c) && !Decidable(DoAll(l, CommitOps(l, c, temp, 0)[..1]), c)
  {
    hide Parse, DoAll, KEYS, RetiredBy;
    NothingParses();
    var l := Waiting();
    var c := Decision(id, Fingerprint(Present(l.journal)), generation, live);
    CommitRetries(l, c, temp, 0, 1);
  }
}

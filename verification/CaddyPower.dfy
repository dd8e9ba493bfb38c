/** The Caddy journal on a machine that can lose power: a written file is on the disk at once, an
    unlink only when something in its directory is synced later. */
module CaddyPower {
  import opened Wrappers
  import opened CaddyEnv
  import opened CaddyJournal

  /** What the programs see, and what a power loss could fall back to: the journal directory as it
      was before each unlink that has not reached the disk. */
  datatype Machine = Machine(now: World, back: seq<World>)

  function TrackEach(worlds: seq<World>, op: FileOp): (r: seq<World>)
    ensures |r| == |worlds| && forall i :: 0 <= i < |r| ==> r[i] == Track(worlds[i], op)
  {
    if worlds == [] then []
    else TrackEach(worlds[..|worlds| - 1], op) + [Track(worlds[|worlds| - 1], op)]
  }

  /** A write in the journal directory syncs it; the env file is in another one. */
  function Do(m: Machine, op: FileOp): Machine {
    var now := Track(m.now, op);
    match op
    case PutBackup(_) => Machine(now, [])
    case PutMarker(_) => Machine(now, [])
    case PutEnv(_) => Machine(now, TrackEach(m.back, op))
    case DropMarker => Machine(now, m.back + [m.now])
    case DropBackup => Machine(now, m.back + [m.now])
  }

  function DoAll(m: Machine, ops: seq<FileOp>): Machine {
    if ops == [] then m else Do(DoAll(m, ops[..|ops| - 1]), ops[|ops| - 1])
  }

  /** A command, of which some operations happened; only a commit that ran to its end syncs its
      unlinks. After a power loss the first `kept` of the volatile unlinks are on the disk. */
  datatype Event = Command(step: Step, synced: bool) | PowerLoss(kept: nat)

  predicate Finished(w: World, s: Step) {
    Accepts(w.journal, s.command) && s.done == |Plan(w.journal, s.command)|
  }

  function Next(m: Machine, event: Event): Machine {
    match event
    case Command(s, synced) =>
      if !Accepts(m.now.journal, s.command) || s.done > |Plan(m.now.journal, s.command)| then m
      else
        var n := DoAll(m, Plan(m.now.journal, s.command)[..s.done]);
        Machine(After(m.now, s), if synced && s.command.Commit? && Finished(m.now, s) then [] else n.back)
    case PowerLoss(kept) => Machine(if kept < |m.back| then m.back[kept] else m.now, [])
  }

  /** A state before an unlink: sound, and its backup is there. */
  ghost predicate Recoverable(w: World) {
    Sound(w) && w.journal.backup.Some?
  }

  ghost predicate Steady(m: Machine) {
    Sound(m.now) && forall i :: 0 <= i < |m.back| ==> Recoverable(m.back[i])
  }

  lemma {:induction false} SeenIsTracked(m: Machine, ops: seq<FileOp>)
    ensures DoAll(m, ops).now == TrackAll(m.now, ops)
  {
    hide Track;
    if ops != [] { SeenIsTracked(m, ops[..|ops| - 1]); }
  }

  /** What an operation needs so that every state to fall back to stays sound. */
  ghost predicate Fits(w: World, op: FileOp) {
    && (op.PutEnv? ==> Parse(op.text).Some?)
    && (op.DropMarker? || op.DropBackup? ==> Recoverable(w))
  }

  lemma EnvReplaced(w: World, op: FileOp)
    requires Recoverable(w) && op.PutEnv? && Parse(op.text).Some?
    ensures Recoverable(Track(w, op))
  {
    hide Parse;
  }

  lemma BackFits(m: Machine, op: FileOp)
    requires (forall i :: 0 <= i < |m.back| ==> Recoverable(m.back[i])) && Fits(m.now, op)
    ensures forall i :: 0 <= i < |Do(m, op).back| ==> Recoverable(Do(m, op).back[i])
  {
    hide Recoverable, Parse, Track;
    if op.PutEnv? {
      forall i | 0 <= i < |m.back| ensures Recoverable(Track(m.back[i], op)) { EnvReplaced(m.back[i], op); }
    }
  }

  lemma {:induction false} BackStays(m: Machine, ops: seq<FileOp>)
    requires forall i :: 0 <= i < |m.back| ==> Recoverable(m.back[i])
    requires forall k :: 0 <= k < |ops| ==> Fits(TrackAll(m.now, ops[..k]), ops[k])
    ensures forall i :: 0 <= i < |DoAll(m, ops).back| ==> Recoverable(DoAll(m, ops).back[i])
  {
    hide Recoverable, Fits, Do, Track;
    if ops != [] {
      var k := |ops| - 1;
      assert forall i :: 0 <= i < k ==> ops[..k][..i] == ops[..i];
      BackStays(m, ops[..k]);
      SeenIsTracked(m, ops[..k]);
      assert Fits(TrackAll(m.now, ops[..k]), ops[k]);
      BackFits(DoAll(m, ops[..k]), ops[k]);
    }
  }

  /** The world before the last operation of a plan, and every one before, is sound. */
  lemma PrefixSound(w: World, c: CaddyJournal.Command, k: nat)
    requires Sound(w) && Accepts(w.journal, c) && k < |Plan(w.journal, c)|
    ensures Sound(TrackAll(w, Plan(w.journal, c)[..k]))
  {
    hide Sound, Accepts, Plan, Track;
    StepKeeps(w, Step(c, k));
  }

  lemma EnvParses(w: World, c: CaddyJournal.Command)
    requires Sound(w) && Accepts(w.journal, c)
    ensures forall k :: 0 <= k < |Plan(w.journal, c)| && Plan(w.journal, c)[k].PutEnv? ==>
      Parse(Plan(w.journal, c)[k].text).Some?
  {
    hide Parse, Render, KEYS, Update, Acceptable;
    match c
    case Save(expected, request) => SavedValues(w.journal, expected, request);
    case Commit(_) =>
    case Restore(_) =>
      ParsedIsWritable(w.journal.backup.value);
      RenderParses(w.journal.env, Parse(w.journal.backup.value).value);
  }

  /** Nothing before an unlink takes the backup away. */
  lemma BackupThere(w: World, c: CaddyJournal.Command, k: nat)
    requires Accepts(w.journal, c) && k < |Plan(w.journal, c)|
    requires Plan(w.journal, c)[k].DropMarker? || Plan(w.journal, c)[k].DropBackup?
    ensures TrackAll(w, Plan(w.journal, c)[..k]).journal.backup.Some?
  {
    hide Parse, Render, Update, Acceptable, Expects;
    var plan := Plan(w.journal, c);
    forall i | 0 <= i < k ensures !plan[i].DropBackup? {}
    BackupStays(w, plan[..k]);
  }

  lemma {:induction false} BackupStays(w: World, ops: seq<FileOp>)
    requires w.journal.backup.Some? && forall i :: 0 <= i < |ops| ==> !ops[i].DropBackup?
    ensures TrackAll(w, ops).journal.backup.Some?
  {
    if ops != [] { BackupStays(w, ops[..|ops| - 1]); }
  }

  lemma PlanFits(w: World, c: CaddyJournal.Command, k: nat)
    requires Sound(w) && Accepts(w.journal, c) && k < |Plan(w.journal, c)|
    ensures Fits(TrackAll(w, Plan(w.journal, c)[..k]), Plan(w.journal, c)[k])
  {
    hide Sound, Accepts, Plan, Track, Parse;
    PrefixSound(w, c, k);
    EnvParses(w, c);
    if Plan(w.journal, c)[k].DropMarker? || Plan(w.journal, c)[k].DropBackup? { BackupThere(w, c, k); }
  }

  ghost predicate Possible(m: Machine, event: Event) {
    event.Command? ==> CaddyJournal.Possible(m.now, event.step)
  }

  /** Every event, a power loss included, keeps what the programs see sound, and everything that a
      power loss could fall back to. */
  lemma NextKeeps(m: Machine, event: Event)
    requires Steady(m) && Possible(m, event)
    ensures Steady(Next(m, event))
  {
    hide Sound, Accepts, Plan, Track, After, Fits;
    match event
    case Command(s, synced) =>
      StepKeeps(m.now, s);
      if Accepts(m.now.journal, s.command) && s.done <= |Plan(m.now.journal, s.command)| {
        var plan := Plan(m.now.journal, s.command);
        var ops := plan[..s.done];
        forall k | 0 <= k < |ops| ensures Fits(TrackAll(m.now, ops[..k]), ops[k]) {
          assert ops[..k] == plan[..k];
          PlanFits(m.now, s.command, k);
        }
        BackStays(m, ops);
      }
    case PowerLoss(kept) => if kept < |m.back| { assert Recoverable(m.back[kept]); }
  }

  function Run(m: Machine, events: seq<Event>): Machine {
    if events == [] then m else Next(Run(m, events[..|events| - 1]), events[|events| - 1])
  }

  ghost predicate RunPossible(m: Machine, events: seq<Event>) {
    events != [] ==>
      RunPossible(m, events[..|events| - 1]) && Possible(Run(m, events[..|events| - 1]), events[|events| - 1])
  }

  lemma {:induction false} RunKeeps(m: Machine, events: seq<Event>)
    requires Steady(m) && RunPossible(m, events)
    ensures Steady(Run(m, events))
  {
    hide Steady, Possible, Next;
    if events != [] {
      var k := |events| - 1;
      RunKeeps(m, events[..k]);
      NextKeeps(Run(m, events[..k]), events[k]);
    }
  }

  function Start(env: string): Machine
    requires Parse(env).Some?
  {
    var v := Parse(env).value;
    Machine(World(Journal(env, None, None), v, v, {v}), [])
  }

  /** The guarantees of the journal hold over runs with power losses too: a marker comes with a
      backup, the backup holds the values of the last clean state, a commit is accepted only on
      values that were once in force, and while there is a backup a restore is accepted. */
  lemma EveryRunWithLosses(env: string, events: seq<Event>, expected: string, universe: iset<Values>)
    requires FingerprintsTell(universe) && Parse(env).Some? && RunPossible(Start(env), events)
    requires var w := Run(Start(env), events).now;
      Present(w.journal) in universe && forall u :: u in w.settled ==> u in universe
    ensures var w := Run(Start(env), events).now;
      && Parse(w.journal.env).Some?
      && (w.journal.marker.Some? ==> w.journal.backup.Some?)
      && (w.journal.backup.Some? ==> Parse(w.journal.backup.value) == Some(w.baseline) && w.baseline in w.settled)
      && (Committable(w.journal, expected) ==> Present(w.journal) == w.marked && w.marked in w.settled)
      && (w.journal.backup.Some? ==> Restorable(w.journal, Fingerprint(Present(w.journal))))
  {
    hide Parse, RunPossible, Run, FingerprintsTell;
    RunKeeps(Start(env), events);
    var w := Run(Start(env), events).now;
    if Committable(w.journal, expected) {
      MarkedIsPresent(w, expected, universe);
    }
  }
}

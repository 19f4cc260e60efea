/** Renames over whole runs: what keeps a declared rename's new row held, whatever crashes and whoever reconciles. */
module Renames {
  import opened Wrappers
  import opened Text
  import opened Rows
  import opened Registry
  import opened Picker
  import opened Allocation
  import opened Release
  import opened Ledger
  import opened Operations
  import opened History
  import opened Probes
  import Recovery

  /**
   * A rename under way. `mayRelease` once its probe after a failure saw nothing under `newTitle`, or, for a session
   * whose worktree is gone, once its rollback undid every change.
   */
  datatype Handler = Handler(machine: string, oldTitle: string, newTitle: string, mayRelease: bool)

  /** The shared tip, what every machine holds under every title, and the renames under way. */
  datatype World = World(tip: Tree, disk: map<(string, string), Holdings>, handlers: set<Handler>)
  {
    function Under(machine: string, title: string): set<Artifact> {
      if (machine, title) in disk then disk[(machine, title)].There() else {}
    }
  }

  datatype Event =
    | Land(commit: Commit)
    | Move
    | Probe(handler: Handler, found: set<Artifact>)
    | RollBack(handler: Handler)
    | Crash(gone: set<Handler>)

  /** The renames under way after a commit: a reservation starts one, a release ends one that may. */
  ghost predicate HandlersAfter(before: World, commit: Commit, after: World) {
    match commit.op
    case MigrateOp(slot, _, _, oldTitle, _, _, _, _, _) =>
      && commit.machine == slot.machine
      && oldTitle in after.tip.migrations
      && after.handlers == before.handlers
           + {Handler(commit.machine, oldTitle, after.tip.migrations[oldTitle].newTitle, false)}
    case ReleaseFailedOp(oldTitle) =>
      exists h | h in before.handlers ::
        && h.machine == commit.machine && h.oldTitle == oldTitle && h.mayRelease
        && after.handlers == before.handlers - {h}
    case _ => after.handlers == before.handlers
  }

  ghost predicate Next(before: World, event: Event, after: World) {
    match event
    case Land(commit) =>
      Lands(before.tip, commit, after.tip) && after.disk == before.disk && HandlersAfter(before, commit, after)
    case Move => after == before.(disk := after.disk)
    case Probe(h, found) =>
      && h in before.handlers
      && Sees(found, before.Under(h.machine, h.newTitle))
      && after == before.(handlers := before.handlers - {h} + if found == {} then {h.(mayRelease := true)} else {})
    case RollBack(h) =>
      && h in before.handlers
      && after == before.(handlers := before.handlers - {h} + {h.(mayRelease := true)})
    case Crash(gone) => after == before.(handlers := before.handlers - gone)
  }

  ghost predicate IsRun(worlds: seq<World>, events: seq<Event>) {
    && |worlds| == |events| + 1
    && forall i | 0 <= i < |events| :: Next(worlds[i], events[i], worlds[i + 1])
  }

  /** The rename is recorded as an intent, and its new title's row is held. */
  ghost predicate Holds(tip: Tree, oldTitle: string, newTitle: string) {
    && oldTitle in tip.migrations
    && tip.migrations[oldTitle].status.Intent?
    && tip.migrations[oldTitle].newTitle == newTitle
    && LastSegment(newTitle) in tip.rows
    && tip.rows[LastSegment(newTitle)].title == Some(newTitle)
  }

  /** No other recorded intent is bound for this title. */
  ghost predicate Sole(tip: Tree, oldTitle: string, newTitle: string) {
    forall key | key in tip.migrations && key != oldTitle && tip.migrations[key].status.Intent? ::
      tip.migrations[key].newTitle != newTitle
  }

  /** Every rename of the old title still under way is this one, and it may not be released. */
  ghost predicate StillMoving(handlers: set<Handler>, oldTitle: string, newTitle: string) {
    forall h | h in handlers && h.oldTitle == oldTitle :: h.newTitle == newTitle && !h.mayRelease
  }

  ghost predicate Watched(world: World, oldTitle: string, newTitle: string) {
    && Holds(world.tip, oldTitle, newTitle)
    && Sole(world.tip, oldTitle, newTitle)
    && StillMoving(world.handlers, oldTitle, newTitle)
  }

  /**
   * The events that may end the protection: its completion, a probe that saw nothing or a rollback, and three acts by
   * hand.
   */
  ghost predicate Ends(event: Event, oldTitle: string, newTitle: string) {
    match event
    case Land(commit) => OpEnds(commit.op, oldTitle, newTitle)
    case Probe(h, found) => h.oldTitle == oldTitle && h.newTitle == newTitle && found == {}
    case RollBack(h) => h.oldTitle == oldTitle && h.newTitle == newTitle
    case _ => false
  }

  ghost predicate OpEnds(op: Op, oldTitle: string, newTitle: string) {
    || (op.CompleteOp? && (op.oldTitle == oldTitle || op.oldTitle == newTitle))
    || (op.MigrateOp? && op.oldTitle == oldTitle)
    || (op.ReleaseOp? && op.name == LastSegment(newTitle))
  }

  /** A commit leaves every record alone but the one its operation names. */
  lemma OtherRecordsStay(op: Op, machine: string, tip: Tree, spool: map<string, Row>, change: Change, key: string)
    requires Guard(op, machine, tip, spool) == Write(change)
    requires op.CompleteOp? || op.MigrateOp? || op.ReleaseFailedOp? ==> key != op.oldTitle
    ensures Get(Apply(tip, change).migrations, key) == Get(tip.migrations, key)
  {
    hide RowProblem, Guard;
    if op.CompleteOp? || op.ReleaseFailedOp? || op.MarkOp? {
      LedgerWrites(op, machine, tip, spool, change, key);
    } else if op.ReserveOp? || op.HandOp? || op.LabelOp? || op.MigrateOp? {
      ReservationWrites(op, machine, tip, spool, change, key);
    } else {
      RestWrites(op, machine, tip, spool, change, key);
    }
  }

  lemma LedgerWrites(op: Op, machine: string, tip: Tree, spool: map<string, Row>, change: Change, key: string)
    requires op.CompleteOp? || op.ReleaseFailedOp? || op.MarkOp?
    requires Guard(op, machine, tip, spool) == Write(change) && (!op.MarkOp? ==> key != op.oldTitle)
    ensures key !in change.migrations
  {
    hide RowProblem, LastSegment;
  }

  lemma ReservationWrites(op: Op, machine: string, tip: Tree, spool: map<string, Row>, change: Change, key: string)
    requires op.ReserveOp? || op.HandOp? || op.LabelOp? || op.MigrateOp?
    requires Guard(op, machine, tip, spool) == Write(change) && (op.MigrateOp? ==> key != op.oldTitle)
    ensures key !in change.migrations
  {
    hide RowProblem, FirstBadSpare, CheckHandChosen, PublishedPolicy, SessionRow, SpareRows, LabelRow;
  }

  lemma RestWrites(op: Op, machine: string, tip: Tree, spool: map<string, Row>, change: Change, key: string)
    requires op.AddOp? || op.RemoveOp? || op.SyncOp? || op.ReleaseOp? || op.ReassignOp? || op.ReconcileOp?
             || op.PublishOp?
    requires Guard(op, machine, tip, spool) == Write(change)
    ensures key !in change.migrations
  {
    hide RowProblem, FirstBadSpare, PublishedPolicy, Outgoing, SpareRows, OnlyActivationDiffers;
  }

  /** A reconcile spares the new row: the tip it releases on still records the rename. */
  lemma ReconcileSpares(op: Op, machine: string, tip: Tree, spool: map<string, Row>, change: Change,
                        oldTitle: string, newTitle: string)
    requires op.ReconcileOp? && RowsFit(tip)
    requires Choices(op, machine, tip, spool) && Guard(op, machine, tip, spool) == Write(change)
    requires Holds(tip, oldTitle, newTitle)
    ensures Get(Apply(tip, change).rows, LastSegment(newTitle)) == Get(tip.rows, LastSegment(newTitle))
  {
    hide RowProblem, ReconcileRelease, ReconcileChoices, Apply, PublishedPolicy, RowsFit;
    var t := LastSegment(newTitle);
    RowIsNoSpare(tip, t);
    assert Renaming(tip, tip.rows[t]);
    AfterRelease(tip, machine, op.hostAlias, op.candidates, op.spareRows, spool, op.added, op.now, change, t);
    if t in op.added {
      AddedWasFree(tip, machine, op.hostAlias, op.vocabulary, op.candidates, op.spareRows, spool, op.added, t);
    }
  }

  lemma RowIsNoSpare(tip: Tree, t: string)
    requires RowsFit(tip) && t in tip.rows && tip.rows[t].title.Some?
    ensures !tip.rows[t].kind.Spare?
  {
    assert RowFits(t, tip.rows[t]);
  }

  /** Completing or releasing another rename leaves the new row's title held. */
  lemma OtherLedgerKeeps(op: Op, machine: string, tip: Tree, spool: map<string, Row>, change: Change,
                         oldTitle: string, newTitle: string)
    requires op.CompleteOp? || op.ReleaseFailedOp?
    requires Guard(op, machine, tip, spool) == Write(change)
    requires Holds(tip, oldTitle, newTitle) && Sole(tip, oldTitle, newTitle)
    requires op.oldTitle != oldTitle && !OpEnds(op, oldTitle, newTitle)
    ensures LastSegment(newTitle) in Apply(tip, change).rows
    ensures Apply(tip, change).rows[LastSegment(newTitle)].title == Some(newTitle)
  {
    hide RowProblem, Guard, Apply, CompleteMigration, ReleaseFailed, LastSegment;
    LedgerGuard(op, machine, tip, spool);
    if op.CompleteOp? {
      OtherCompletionKeeps(tip, op.oldTitle, machine, op.now, newTitle);
    } else {
      ReleasesAnIntent(tip, op.oldTitle, machine);
      OtherReleaseKeeps(tip, op.oldTitle, machine, newTitle);
    }
  }

  lemma ReleasesAnIntent(tip: Tree, other: string, machine: string)
    requires ReleaseFailed(tip, other, machine).Write?
    ensures other in tip.migrations && tip.migrations[other].status.Intent?
  {
  }

  lemma LedgerGuard(op: Op, machine: string, tip: Tree, spool: map<string, Row>)
    requires op.CompleteOp? || op.ReleaseFailedOp?
    ensures Guard(op, machine, tip, spool)
            == if op.CompleteOp? then CompleteMigration(tip, op.oldTitle, machine, op.now)
               else ReleaseFailed(tip, op.oldTitle, machine)
  {
    hide CompleteMigration, ReleaseFailed;
  }

  lemma OtherCompletionKeeps(tip: Tree, other: string, machine: string, now: string, newTitle: string)
    requires CompleteMigration(tip, other, machine, now).Write? && other != newTitle
    requires LastSegment(newTitle) in tip.rows && tip.rows[LastSegment(newTitle)].title == Some(newTitle)
    ensures
      var after := Apply(tip, CompleteMigration(tip, other, machine, now).change);
      LastSegment(newTitle) in after.rows && after.rows[LastSegment(newTitle)].title == Some(newTitle)
  {
    hide RowProblem, LastSegment;
  }

  lemma OtherReleaseKeeps(tip: Tree, other: string, machine: string, newTitle: string)
    requires other in tip.migrations && tip.migrations[other].newTitle != newTitle
    requires ReleaseFailed(tip, other, machine).Write?
    requires LastSegment(newTitle) in tip.rows && tip.rows[LastSegment(newTitle)].title == Some(newTitle)
    ensures
      var after := Apply(tip, ReleaseFailed(tip, other, machine).change);
      LastSegment(newTitle) in after.rows && after.rows[LastSegment(newTitle)].title == Some(newTitle)
  {
    hide RowProblem, LastSegment;
  }

  /** A commit that does not end the protection leaves the intent and its row in place. */
  lemma CommitKeeps(op: Op, machine: string, tip: Tree, spool: map<string, Row>, change: Change,
                    oldTitle: string, newTitle: string)
    requires RowsFit(tip) && Choices(op, machine, tip, spool) && Guard(op, machine, tip, spool) == Write(change)
    requires Holds(tip, oldTitle, newTitle) && Sole(tip, oldTitle, newTitle)
    requires !OpEnds(op, oldTitle, newTitle) && op != ReleaseFailedOp(oldTitle)
    ensures Holds(Apply(tip, change), oldTitle, newTitle)
  {
    hide RowProblem, Guard, Choices, Apply, RowsFit, Sole;
    var t := LastSegment(newTitle);
    OtherRecordsStay(op, machine, tip, spool, change, oldTitle);
    if op.ReconcileOp? {
      ReconcileSpares(op, machine, tip, spool, change, oldTitle, newTitle);
    } else if op.CompleteOp? || op.ReleaseFailedOp? {
      OtherLedgerKeeps(op, machine, tip, spool, change, oldTitle, newTitle);
    } else {
      RowIsNoSpare(tip, t);
      var effect := OpEffect(op, machine, tip, spool, change, t);
      if effect.Dropped? {
        ReleaseElsewhere(op, machine, tip, spool, change, t);
      }
    }
  }

  lemma ReleaseElsewhere(op: Op, machine: string, tip: Tree, spool: map<string, Row>, change: Change, t: string)
    requires op.ReleaseOp? && op.name != t && Guard(op, machine, tip, spool) == Write(change)
    ensures Get(Apply(tip, change).rows, t) == Get(tip.rows, t)
  {
    hide RowProblem;
  }

  /** A reservation takes a token nobody holds, so no later rename is bound for a title that is held. */
  lemma StaysSole(op: Op, machine: string, tip: Tree, spool: map<string, Row>, change: Change,
                  oldTitle: string, newTitle: string)
    requires Choices(op, machine, tip, spool) && Guard(op, machine, tip, spool) == Write(change)
    requires Holds(tip, oldTitle, newTitle) && Sole(tip, oldTitle, newTitle)
    ensures Sole(Apply(tip, change), oldTitle, newTitle)
  {
    hide RowProblem, Guard, Choices, Apply, Holds;
    var after := Apply(tip, change);
    forall key | key in after.migrations && key != oldTitle && after.migrations[key].status.Intent?
      ensures after.migrations[key].newTitle != newTitle
    {
      if op.MigrateOp? && op.oldTitle == key {
        ReservedElsewhere(op, machine, tip, spool, change, oldTitle, newTitle);
      } else {
        RecordsOnlyClose(op, machine, tip, spool, change, key);
      }
    }
  }

  lemma ReservedElsewhere(op: Op, machine: string, tip: Tree, spool: map<string, Row>, change: Change,
                          oldTitle: string, newTitle: string)
    requires op.MigrateOp? && Choices(op, machine, tip, spool) && Guard(op, machine, tip, spool) == Write(change)
    requires Holds(tip, oldTitle, newTitle)
    ensures op.oldTitle in Apply(tip, change).migrations
    ensures Apply(tip, change).migrations[op.oldTitle].newTitle != newTitle
  {
    hide RowProblem, ReserveMigration, MigrationChoices;
    var name := ReserveMigrationDeclares(tip, op.slot, op.vocabulary, op.maxLength, op.oldTitle, op.chosen, op.pick,
                                         op.tier, op.words, op.now, change);
  }

  /** Only a reservation makes a record an intent. */
  lemma RecordsOnlyClose(op: Op, machine: string, tip: Tree, spool: map<string, Row>, change: Change, key: string)
    requires Guard(op, machine, tip, spool) == Write(change) && !(op.MigrateOp? && op.oldTitle == key)
    requires key in Apply(tip, change).migrations && Apply(tip, change).migrations[key].status.Intent?
    ensures Get(tip.migrations, key) == Some(Apply(tip, change).migrations[key])
  {
    hide RowProblem, Guard, Apply;
    if (op.CompleteOp? || op.ReleaseFailedOp?) && op.oldTitle == key {
      ClosesItsRecord(op, machine, tip, spool, change);
    } else {
      OtherRecordsStay(op, machine, tip, spool, change, key);
    }
  }

  lemma ClosesItsRecord(op: Op, machine: string, tip: Tree, spool: map<string, Row>, change: Change)
    requires op.CompleteOp? || op.ReleaseFailedOp?
    requires Guard(op, machine, tip, spool) == Write(change)
    ensures op.oldTitle in Apply(tip, change).migrations ==>
              Apply(tip, change).migrations[op.oldTitle].status.Complete?
  {
    hide RowProblem;
  }

  /** One event keeps the watch or ends it. */
  lemma StepKeepsWatch(before: World, event: Event, after: World, oldTitle: string, newTitle: string)
    requires Next(before, event, after) && RowsFit(before.tip) && Watched(before, oldTitle, newTitle)
    requires !Ends(event, oldTitle, newTitle)
    ensures Watched(after, oldTitle, newTitle)
  {
    hide RowProblem, Guard, Choices, Apply, RowsFit, Holds, Sole;
    if event.Land? {
      var commit := event.commit;
      var change := Guard(commit.op, commit.machine, before.tip, commit.spool).change;
      CommitKeeps(commit.op, commit.machine, before.tip, commit.spool, change, oldTitle, newTitle);
      StaysSole(commit.op, commit.machine, before.tip, commit.spool, change, oldTitle, newTitle);
    }
  }

  lemma StepKeepsFit(before: World, event: Event, after: World)
    requires Next(before, event, after) && RowsFit(before.tip)
    ensures RowsFit(after.tip)
  {
    hide RowProblem, Guard, Choices, Apply, RowsFit;
    if event.Land? {
      var commit := event.commit;
      RowsStayFit(commit.op, commit.machine, before.tip, commit.spool,
                  Guard(commit.op, commit.machine, before.tip, commit.spool).change);
    }
  }

  lemma {:induction false} EveryWorldFits(worlds: seq<World>, events: seq<Event>, i: nat, j: nat)
    requires IsRun(worlds, events) && i <= j < |worlds| && RowsFit(worlds[i].tip)
    ensures RowsFit(worlds[j].tip)
  {
    hide RowsFit, Next;
    if i < j {
      EveryWorldFits(worlds, events, i, j - 1);
      StepKeepsFit(worlds[j - 1], events[j - 1], worlds[j]);
    }
  }

  /**
   * The new row outlives every crash: from a watched rename on, through any moves, failures, recoveries, reconciles and
   * other machines' commits, the intent stands and its row is held until the rename completes, its own probe sees
   * nothing under the new title, its own rollback undoes all, or somebody reserves the same old title again, completes
   * a rename of the new title, or releases the new name by hand.
   */
  lemma {:induction false} NewRowOutlives(worlds: seq<World>, events: seq<Event>, i: nat, j: nat,
                                          oldTitle: string, newTitle: string)
    requires IsRun(worlds, events) && i <= j < |worlds|
    requires RowsFit(worlds[i].tip) && Watched(worlds[i], oldTitle, newTitle)
    ensures
      || Watched(worlds[j], oldTitle, newTitle)
      || exists k | i <= k < j :: Ends(events[k], oldTitle, newTitle)
  {
    hide RowsFit, Next, Watched, Ends;
    if i < j {
      NewRowOutlives(worlds, events, i, j - 1, oldTitle, newTitle);
      EveryWorldFits(worlds, events, i, j - 1);
      if Watched(worlds[j - 1], oldTitle, newTitle) && !Ends(events[j - 1], oldTitle, newTitle) {
        StepKeepsWatch(worlds[j - 1], events[j - 1], worlds[j], oldTitle, newTitle);
      }
    }
  }

  /** A reservation starts the watch, when no other rename of this old title is under way. */
  lemma ReservationIsWatched(before: World, commit: Commit, after: World) returns (newTitle: string)
    requires Next(before, Land(commit), after) && commit.op.MigrateOp?
    requires forall h | h in before.handlers :: h.oldTitle != commit.op.oldTitle
    requires forall key | key in before.tip.migrations && before.tip.migrations[key].status.Intent? ::
        LastSegment(before.tip.migrations[key].newTitle) in before.tip.rows
    ensures Watched(after, commit.op.oldTitle, newTitle)
    ensures Get(before.tip.rows, LastSegment(newTitle)).None?
  {
    hide RowProblem, ReserveMigration, MigrationChoices;
    var op := commit.op;
    var change := Guard(op, commit.machine, before.tip, commit.spool).change;
    var name := ReserveMigrationDeclares(before.tip, op.slot, op.vocabulary, op.maxLength, op.oldTitle, op.chosen,
                                         op.pick, op.tier, op.words, op.now, change);
    newTitle := op.slot.TitleFor(name);
  }

  /** What lets a rename be released: its probe saw nothing, or its rollback undid everything. */
  ghost predicate Earns(event: Event, h: Handler) {
    match event
    case Probe(g, found) => found == {} && g.(mayRelease := true) == h
    case RollBack(g) => g.(mayRelease := true) == h
    case _ => false
  }

  lemma {:induction false} ReleaseIsEarned(worlds: seq<World>, events: seq<Event>, i: nat, h: Handler)
    returns (k: nat)
    requires IsRun(worlds, events) && i < |worlds|
    requires forall g | g in worlds[0].handlers :: !g.mayRelease
    requires h in worlds[i].handlers && h.mayRelease
    ensures k < i && Earns(events[k], h)
  {
    hide Lands;
    assert i > 0;
    assert Next(worlds[i - 1], events[i - 1], worlds[i]);
    if h in worlds[i - 1].handlers {
      k := ReleaseIsEarned(worlds, events, i - 1, h);
    } else {
      k := i - 1;
    }
  }

  /** A probe that sees nothing, or a rollback, does let its rename be released; a probe that sees something ends it. */
  lemma ProbeDecides(before: World, h: Handler, found: set<Artifact>, after: World)
    ensures Next(before, Probe(h, found), after) ==>
              && (found == {} ==> h.(mayRelease := true) in after.handlers)
              && (found != {} ==> h !in after.handlers)
    ensures Next(before, RollBack(h), after) ==> h.(mayRelease := true) in after.handlers
  {
  }

  /**
   * A release of a failed rename follows its own empty probe, at which its machine had no worktree and no tmux session
   * under the new title, or its own rollback, in every run.
   */
  lemma ReleaseFollowsEmptyProbe(worlds: seq<World>, events: seq<Event>, j: nat, oldTitle: string)
    returns (k: nat, h: Handler)
    requires IsRun(worlds, events) && j < |events|
    requires forall g | g in worlds[0].handlers :: !g.mayRelease
    requires events[j].Land? && events[j].commit.op == ReleaseFailedOp(oldTitle)
    ensures h.machine == events[j].commit.machine && h.oldTitle == oldTitle
    ensures k < j && Earns(events[k], h)
    ensures events[k].Probe? ==>
              forall a | a in worlds[k].Under(h.machine, h.newTitle) :: a.kind !in {WORKTREE, TMUX}
  {
    hide Lands;
    assert Next(worlds[j], events[j], worlds[j + 1]);
    h :| h in worlds[j].handlers && h.machine == events[j].commit.machine && h.oldTitle == oldTitle && h.mayRelease;
    k := ReleaseIsEarned(worlds, events, j, h);
    assert Next(worlds[k], events[k], worlds[k + 1]);
  }

  /** While every standing rename holds its own row, they all go to different names. */
  lemma HeldRenamesDiffer(tip: Tree, machine: string)
    requires forall key | key in tip.migrations && tip.migrations[key].status.Intent? ::
        Holds(tip, key, tip.migrations[key].newTitle) && Sole(tip, key, tip.migrations[key].newTitle)
    ensures Recovery.NewNamesDiffer(tip, machine)
  {
    forall k, l | k in tip.migrations && l in tip.migrations && k != l
                  && Recovery.Standing(tip, machine, k) && Recovery.Standing(tip, machine, l)
      ensures LastSegment(tip.migrations[k].newTitle) != LastSegment(tip.migrations[l].newTitle)
    {
      assert Holds(tip, k, tip.migrations[k].newTitle) && Holds(tip, l, tip.migrations[l].newTitle);
      assert Sole(tip, k, tip.migrations[k].newTitle);
    }
  }

  /** While each also stays in the checkout of the rename it follows on, if any, recovery of them is idempotent. */
  lemma HeldRenamesRepeat(tip: Tree, machine: string)
    requires RowsFit(tip) && Recovery.ChainsStay(tip, machine)
    requires forall key | key in tip.migrations && tip.migrations[key].status.Intent? ::
        Holds(tip, key, tip.migrations[key].newTitle) && Sole(tip, key, tip.migrations[key].newTitle)
    ensures Recovery.AlwaysRepeats(tip, machine)
  {
    hide RowProblem, Sole, Recovery.ChainsStay, Recovery.AlwaysRepeats;
    HeldRenamesDiffer(tip, machine);
    forall k | k in tip.migrations && Recovery.Standing(tip, machine, k) ensures Recovery.OwnsRow(tip, k) {
      var row := tip.rows[LastSegment(tip.migrations[k].newTitle)];
      assert RowFits(LastSegment(tip.migrations[k].newTitle), row);
      ValidRowFields(row);
    }
    Recovery.OwnersStrandNone(tip, machine);
    Recovery.RecoverTwiceIff(tip, machine);
  }

  /** Reserving the same old title again leaves the first new row unprotected. */
  lemma SecondReservationUnprotects(op: Op, machine: string, tip: Tree, spool: map<string, Row>, change: Change,
                                    oldTitle: string, newTitle: string)
    requires op.MigrateOp? && op.oldTitle == oldTitle
    requires Choices(op, machine, tip, spool) && Guard(op, machine, tip, spool) == Write(change)
    requires Holds(tip, oldTitle, newTitle) && newTitle != oldTitle
    requires forall key | key in tip.migrations && key != oldTitle && tip.migrations[key].status.Intent? ::
        newTitle != tip.migrations[key].newTitle && newTitle != tip.migrations[key].oldTitle
    ensures
      var after := Apply(tip, change);
      && Get(after.rows, LastSegment(newTitle)) == Some(tip.rows[LastSegment(newTitle)])
      && !Renaming(after, after.rows[LastSegment(newTitle)])
  {
    hide RowProblem, ReserveMigration, MigrationChoices;
    var name := ReserveMigrationDeclares(tip, op.slot, op.vocabulary, op.maxLength, op.oldTitle, op.chosen, op.pick,
                                         op.tier, op.words, op.now, change);
  }

  /** Completing a rename of the new title drops the row the first rename still needs. */
  lemma ChainedCompletionDrops(tip: Tree, oldTitle: string, newTitle: string, machine: string, now: string)
    requires Holds(tip, oldTitle, newTitle) && newTitle != oldTitle
    requires tip.rows[LastSegment(newTitle)].machine == Some(machine)
    requires CompleteMigration(tip, newTitle, machine, now).Write?
    requires tip.migrations[newTitle].newTitle != newTitle
    ensures
      var after := Apply(tip, CompleteMigration(tip, newTitle, machine, now).change);
      && LastSegment(newTitle) !in after.rows
      && after.migrations[oldTitle] == tip.migrations[oldTitle]
  {
    hide RowProblem;
  }

  /**
   * `mark_migration_incomplete` compares no titles: it may hold a row another rename owns, and then the rename it was
   * for can no longer complete. It completes afterwards just when the held row carries its own new title.
   */
  lemma HeldCompletesOnItsOwnRow(tip: Tree, oldTitle: string, machine: string, survivors: seq<Artifact>, now: string)
    requires RowsFit(tip) && MarkIncomplete(tip, oldTitle, machine, survivors).Write?
    requires tip.migrations[oldTitle].status.Intent?
    ensures
      var newTitle := tip.migrations[oldTitle].newTitle;
      var after := Apply(tip, MarkIncomplete(tip, oldTitle, machine, survivors).change);
      && after.migrations == tip.migrations
      && LastSegment(newTitle) in tip.rows
      && (CompleteMigration(after, oldTitle, machine, now).Write?
          <==> tip.rows[LastSegment(newTitle)].title == Some(newTitle))
  {
    hide RowProblem;
    var token := LastSegment(tip.migrations[oldTitle].newTitle);
    ApplyRowChange(tip, MarkIncomplete(tip, oldTitle, machine, survivors).change.rows);
    assert RowFits(token, tip.rows[token]);
    HeldThenActive(tip.rows[token], survivors);
  }

  /** A row that passes `row_problem` while held passes it again once active. */
  lemma HeldThenActive(row: Row, survivors: seq<Artifact>)
    requires RowProblem(row).None?
    requires RowProblem(row.(state := MigrationIncomplete, recovery := Some(survivors))).None?
    ensures RowProblem(row.(state := Active, recovery := None)).None?
  {
  }
}

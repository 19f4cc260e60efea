/** Renaming one session to a name: reserve and declare, move, and then complete, hold, or release. */
module MigrateName {
  import opened Wrappers
  import opened Text
  import opened Rows
  import opened Registry
  import opened Allocation
  import opened Ledger
  import opened Spool
  import opened Operations
  import opened Probes
  import opened Renames

  lemma DeclaredTree(tip: Tree, slot: Slot, oldTitle: string, name: string, change: Change)
    requires Declares(tip, slot, oldTitle, name, change)
    ensures Apply(tip, change) == tip.(rows := tip.rows[name := change.rows[name].value],
                                       migrations := tip.migrations[oldTitle := change.migrations[oldTitle].value])
  {
    hide RowProblem, LastSegment;
    assert Written(tip.rows, change.rows) == tip.rows[name := change.rows[name].value];
    assert Written(tip.migrations, change.migrations)
        == tip.migrations[oldTitle := change.migrations[oldTitle].value];
    WrittenNothing(tip.manual);
  }

  lemma ReleasedTree(tree: Tree, oldTitle: string, machine: string, token: string)
    requires oldTitle in tree.migrations && tree.migrations[oldTitle].status.Intent?
    requires tree.migrations[oldTitle].machine == machine
    requires LastSegment(tree.migrations[oldTitle].newTitle) == token && token in tree.rows
    requires tree.rows[token].title == Some(tree.migrations[oldTitle].newTitle)
    requires tree.rows[token].machine == Some(machine)
    ensures ReleaseFailed(tree, oldTitle, machine).Write?
    ensures Apply(tree, ReleaseFailed(tree, oldTitle, machine).change)
            == tree.(rows := tree.rows - {token}, migrations := tree.migrations - {oldTitle})
  {
    hide RowProblem, LastSegment;
    assert Written(tree.rows, map[token := None]) == tree.rows - {token};
    assert Written(tree.migrations, map[oldTitle := None]) == tree.migrations - {oldTitle};
    WrittenNothing(tree.manual);
  }

  /** A release after a failed rename undoes its reservation, but for an earlier record of the same title. */
  lemma ReleaseUndoesReservation(tip: Tree, slot: Slot, oldTitle: string, name: string, change: Change)
    requires Declares(tip, slot, oldTitle, name, change)
    ensures
      var reserved := Apply(tip, change);
      var build := ReleaseFailed(reserved, oldTitle, slot.machine);
      && build.Write?
      && Apply(reserved, build.change) == tip.(migrations := tip.migrations - {oldTitle})
      && (Apply(reserved, build.change) == tip <==> oldTitle !in tip.migrations)
  {
    hide RowProblem, Apply, ReleaseFailed, LastSegment;
    DeclaredTree(tip, slot, oldTitle, name, change);
    ReleasedTree(Apply(tip, change), oldTitle, slot.machine, name);
    assert tip.rows[name := change.rows[name].value] - {name} == tip.rows;
    assert tip.migrations[oldTitle := change.migrations[oldTitle].value] - {oldTitle} == tip.migrations - {oldTitle};
    if oldTitle !in tip.migrations {
      assert tip.migrations - {oldTitle} == tip.migrations;
    }
  }

  /** A completion keeps the new title held, and active, unless the rename was from a title to itself. */
  lemma CompletionKeepsNewTitle(tip: Tree, oldTitle: string, newTitle: string, machine: string, now: string)
    requires Holds(tip, oldTitle, newTitle) && CompleteMigration(tip, oldTitle, machine, now).Write?
    ensures
      var token := LastSegment(newTitle);
      var after := Apply(tip, CompleteMigration(tip, oldTitle, machine, now).change);
      && (token in after.rows <==> oldTitle != newTitle || tip.rows[token].machine != Some(machine))
      && (token in after.rows ==> after.rows[token] == tip.rows[token].(state := Active, recovery := None))
  {
    hide RowProblem;
  }

  lemma HoldingKeepsRename(tip: Tree, oldTitle: string, newTitle: string, machine: string, survivors: seq<Artifact>)
    requires Holds(tip, oldTitle, newTitle) && MarkIncomplete(tip, oldTitle, machine, survivors).Write?
    ensures Holds(Apply(tip, MarkIncomplete(tip, oldTitle, machine, survivors).change), oldTitle, newTitle)
  {
    hide RowProblem;
    ApplyRowChange(tip, MarkIncomplete(tip, oldTitle, machine, survivors).change.rows);
  }

  datatype Outcome = Refused(why: Refusal) | Crashed | Released | Held | Unsettled | Migrated

  /** The guard lands on `ref`, or raises. */
  method Run(ref: SharedRef, build: Build) returns (raised: bool)
    modifies ref
    ensures raised == build.Refuse?
    ensures ref.tip == if build.Write? then Apply(old(ref.tip), build.change) else old(ref.tip)
  {
    raised := build.Refuse?;
    if build.Write? {
      ref.tip := Apply(ref.tip, build.change);
    }
  }

  /** What `migrate_to_name` publishes after the moves: a completion, a hold with the survivors, or a release. */
  function Settlement(tip: Tree, oldTitle: string, machine: string, moveFails: bool, found: seq<Artifact>,
                      now: string): Build {
    if !moveFails then CompleteMigration(tip, oldTitle, machine, now)
    else if found == [] then ReleaseFailed(tip, oldTitle, machine)
    else MarkIncomplete(tip, oldTitle, machine, found)
  }

  /** What a settlement that does not raise leaves: a complete record, no record, or a held row with the survivors. */
  lemma SettlementSays(tip: Tree, oldTitle: string, machine: string, moveFails: bool, found: seq<Artifact>, now: string)
    ensures
      var build := Settlement(tip, oldTitle, machine, moveFails, found, now);
      var after := if build.Write? then Apply(tip, build.change) else tip;
      !build.Refuse? ==>
        if !moveFails then oldTitle in after.migrations && after.migrations[oldTitle].status.Complete?
        else if found == [] then oldTitle !in after.migrations
        else HoldsSurvivors(after, oldTitle, found)
  {
    hide RowProblem, LastSegment;
  }

  /** The row the rename goes to is held with these survivors. */
  predicate HoldsSurvivors(tip: Tree, oldTitle: string, found: seq<Artifact>) {
    && oldTitle in tip.migrations
    && var token := LastSegment(tip.migrations[oldTitle].newTitle);
       && token in tip.rows
       && tip.rows[token].state.MigrationIncomplete?
       && tip.rows[token].recovery == Some(found)
  }

  /** The rename's new row after its own settlement: as it was, held, or active. */
  ghost predicate NewRowStands(before: Tree, after: Tree, oldTitle: string, newTitle: string, machine: string) {
    var token := LastSegment(newTitle);
    || Holds(after, oldTitle, newTitle)
    || (&& oldTitle in after.migrations && after.migrations[oldTitle].status.Complete?
        && token in before.rows
        && (oldTitle != newTitle || before.rows[token].machine != Some(machine) ==>
              Get(after.rows, token) == Some(before.rows[token].(state := Active, recovery := None))))
  }

  /** Settling a rename that stands leaves its row standing, save for the release its empty probe allows. */
  lemma SettlingKeeps(tip: Tree, oldTitle: string, newTitle: string, machine: string, moveFails: bool,
                      found: seq<Artifact>, now: string)
    requires Holds(tip, oldTitle, newTitle) && !(moveFails && found == [])
    ensures
      var build := Settlement(tip, oldTitle, machine, moveFails, found, now);
      NewRowStands(tip, if build.Write? then Apply(tip, build.change) else tip, oldTitle, newTitle, machine)
  {
    hide RowProblem, ReleaseFailed, CompleteMigration, MarkIncomplete, Apply, Holds, LastSegment;
    var build := Settlement(tip, oldTitle, machine, moveFails, found, now);
    SettlementSays(tip, oldTitle, machine, moveFails, found, now);
    if build.Write? {
      HoldsItsRow(tip, oldTitle, newTitle);
      if moveFails {
        HoldingKeepsRename(tip, oldTitle, newTitle, machine, found);
      } else {
        CompletionKeepsNewTitle(tip, oldTitle, newTitle, machine, now);
      }
    }
  }

  lemma HoldsItsRow(tip: Tree, oldTitle: string, newTitle: string)
    requires Holds(tip, oldTitle, newTitle)
    ensures LastSegment(newTitle) in tip.rows
  {
  }

  function NewTitle(tip: Tree, oldTitle: string): string {
    if oldTitle in tip.migrations then tip.migrations[oldTitle].newTitle else ""
  }

  /**
   * A run of the whole fleet that starts with this reservation: whatever moves, probes, crashes and commits of any
   * machine come between it and the settlement. It starts where no other rename of the old title is under way and every
   * recorded intent's new name is held.
   */
  ghost predicate StartsWith(tip: Tree, op: Op, worlds: seq<World>, events: seq<Event>) {
    && op.MigrateOp?
    && IsRun(worlds, events) && events != [] && events[0].Land? && events[0].commit.op == op
    && worlds[0].tip == tip && RowsFit(tip)
    && (forall h | h in worlds[0].handlers :: h.oldTitle != op.oldTitle)
    && forall key | key in tip.migrations && tip.migrations[key].status.Intent? ::
         LastSegment(tip.migrations[key].newTitle) in tip.rows
  }

  /** Something came in between that ends the rename's protection. */
  ghost predicate Ended(events: seq<Event>, oldTitle: string, newTitle: string) {
    exists k | 1 <= k < |events| :: Ends(events[k], oldTitle, newTitle)
  }

  /** Through such a run the rename stands, unless one of the events that end its protection came in between. */
  lemma StandsMeanwhile(tip: Tree, op: Op, worlds: seq<World>, events: seq<Event>) returns (newTitle: string)
    requires StartsWith(tip, op, worlds, events)
    ensures newTitle == NewTitle(worlds[1].tip, op.oldTitle) && LastSegment(newTitle) !in tip.rows
    ensures Holds(worlds[|events|].tip, op.oldTitle, newTitle) || Ended(events, op.oldTitle, newTitle)
  {
    hide RowProblem, RowsFit, Choices, Guard, Apply, Ends;
    var commit := events[0].commit;
    assert Next(worlds[0], events[0], worlds[1]);
    newTitle := ReservationIsWatched(worlds[0], commit, worlds[1]);
    StepKeepsFit(worlds[0], events[0], worlds[1]);
    NewRowOutlives(worlds, events, 1, |events|, op.oldTitle, newTitle);
  }

  /** The tip after the reservation is the one the guard's change gives. */
  lemma ReservedTip(tip: Tree, op: Op, worlds: seq<World>, events: seq<Event>)
    requires StartsWith(tip, op, worlds, events)
    ensures
      var build := ReserveMigration(tip, op.slot, op.oldTitle, op.chosen, op.pick, op.tier, op.words, op.now);
      build.Write? && worlds[1].tip == Apply(tip, build.change)
  {
    hide RowProblem, RowsFit, Choices, ReserveMigration, Apply;
    assert Next(worlds[0], events[0], worlds[1]);
  }

  /**
   * `migrate_to_name`, stopped after its first `effects` effects: the reservation, and the commit that settles it. In
   * between lies any run of the fleet. `moveFails` says whether the moves raised, `found` what the probe then saw under
   * the new title. Wherever it stops, either nothing was reserved, or the new row stands, or its moves failed and left
   * no worktree and no tmux session under the new title, or one of the events that end its protection came in between.
   */
  method MigrateToName(ref: SharedRef, op: Op, effects: nat, moveFails: bool, found: seq<Artifact>,
                       worlds: seq<World>, ghost events: seq<Event>, now: string)
    returns (outcome: Outcome, newTitle: string)
    requires op.MigrateOp?
    requires ReserveMigration(ref.tip, op.slot, op.oldTitle, op.chosen, op.pick, op.tier, op.words, op.now).Write? ==>
               StartsWith(ref.tip, op, worlds, events)
    requires worlds != [] && (moveFails && |worlds| > 1 ==>
               Sees(Elements(found),
                    worlds[|worlds| - 1].Under(op.slot.machine, NewTitle(worlds[1].tip, op.oldTitle))))
    modifies ref
    ensures outcome.Refused? || effects == 0 ==> ref.tip == old(ref.tip)
    ensures !outcome.Refused? && effects > 0 ==>
              && |worlds| == |events| + 1 > 1
              && newTitle == NewTitle(worlds[1].tip, op.oldTitle) && LastSegment(newTitle) !in old(ref.tip).rows
              && (|| NewRowStands(worlds[|events|].tip, ref.tip, op.oldTitle, newTitle, op.slot.machine)
                  || outcome.Released?
                  || Ended(events, op.oldTitle, newTitle))
    ensures effects == 1 && outcome.Crashed? ==> ref.tip == worlds[|worlds| - 1].tip
    ensures effects >= 2 ==> !outcome.Crashed?
    ensures outcome.Released? ==>
              && moveFails && op.oldTitle !in ref.tip.migrations && |worlds| > 1
              && forall a | a in worlds[|worlds| - 1].Under(op.slot.machine, newTitle) :: a.kind !in {WORKTREE, TMUX}
    ensures outcome.Held? ==> moveFails && found != [] && HoldsSurvivors(ref.tip, op.oldTitle, found)
    ensures outcome.Migrated? ==> !moveFails && op.oldTitle in ref.tip.migrations
                                  && ref.tip.migrations[op.oldTitle].status.Complete?
  {
    hide RowProblem, ReserveMigration, CompleteMigration, ReleaseFailed, MarkIncomplete, Holds, Apply, Settlement,
         StartsWith, IsRun, Ended, NewRowStands;
    newTitle := "";
    var reserve := ReserveMigration(ref.tip, op.slot, op.oldTitle, op.chosen, op.pick, op.tier, op.words, op.now);
    if !reserve.Write? {
      ReservationWritesOrRefuses(ref.tip, op);
      return Outcome.Refused(reserve.why), newTitle;
    }
    outcome := Outcome.Crashed;
    if effects == 0 {
      return;
    }
    ReservedTip(ref.tip, op, worlds, events);
    RunLength(ref.tip, op, worlds, events);
    ghost var title := StandsMeanwhile(ref.tip, op, worlds, events);
    ref.tip := Apply(ref.tip, reserve.change);
    newTitle := NewTitle(ref.tip, op.oldTitle);
    ref.tip := worlds[|worlds| - 1].tip;
    if effects == 1 {
      HeldRowStands(ref.tip, op.oldTitle, newTitle, op.slot.machine);
      return;
    }
    var settlement := Settlement(ref.tip, op.oldTitle, op.slot.machine, moveFails, found, now);
    SettlementSays(ref.tip, op.oldTitle, op.slot.machine, moveFails, found, now);
    if Holds(ref.tip, op.oldTitle, newTitle) {
      HeldRowStands(ref.tip, op.oldTitle, newTitle, op.slot.machine);
      if !(moveFails && found == []) {
        SettlingKeeps(ref.tip, op.oldTitle, newTitle, op.slot.machine, moveFails, found, now);
      }
    }
    var raised := Run(ref, settlement);
    outcome := if raised then Unsettled
               else if !moveFails then Migrated
               else if found == [] then Released
               else Held;
  }

  lemma RunLength(tip: Tree, op: Op, worlds: seq<World>, events: seq<Event>)
    requires StartsWith(tip, op, worlds, events)
    ensures |worlds| == |events| + 1 > 1
  {
  }

  lemma HeldRowStands(tip: Tree, oldTitle: string, newTitle: string, machine: string)
    ensures Holds(tip, oldTitle, newTitle) ==> NewRowStands(tip, tip, oldTitle, newTitle, machine)
  {
    hide Holds;
  }

  lemma ReservationWritesOrRefuses(tip: Tree, op: Op)
    requires op.MigrateOp?
    ensures var build := ReserveMigration(tip, op.slot, op.oldTitle, op.chosen, op.pick, op.tier, op.words, op.now);
            build.Write? || build.Refuse?
  {
    hide RowProblem, PublishedPolicy, CheckHandChosen;
  }
}

/** The rename ledger's guards: declare a rename, complete it, release it after a failure, or hold it. */
module Ledger {
  import opened Wrappers
  import opened Text
  import opened Rows
  import opened Registry
  import opened Picker
  import opened Allocation

  /** `reserve_for_migration`'s guard, given the picked name when none was chosen by hand. */
  function ReserveMigration(tree: Tree, slot: Slot, oldTitle: string, chosen: Option<string>, pick: Option<string>,
                            tier: string, words: set<string>, now: string): Build {
    if PublishedPolicy(tree).Err? then Refuse(PublishedPolicy(tree).why)
    else if chosen.None? && Generated(tree) == {} then Refuse(NoNameList)
    else if chosen.None? && pick.None? then Refuse(PoolExhausted)
    else
      var policy := PublishedPolicy(tree).value;
      var name := if chosen.Some? then chosen.value else pick.value;
      var verdict := CheckHandChosen(tree, policy, name, slot, words);
      if chosen.Some? && !verdict.VerdictOk? then
        Refuse(if verdict.Refused? then verdict.why else NameUnknown)
      else
        var row := SessionRow(slot, name, "migrated", if chosen.Some? then None else Some(tier), now);
        var record := Migration(oldTitle, slot.TitleFor(name), slot.machine, slot.client, Intent, None);
        CheckedWrite(row, Change(map[name := Some(row)], map[], map[oldTitle := Some(record)], None))
  }

  /** The picks `reserve_for_migration` may make: it reads no spool. */
  ghost predicate MigrationChoices(tree: Tree, slot: Slot, vocabulary: Vocabulary, maxLength: Option<int>,
                                   chosen: Option<string>, pick: Option<string>) {
    chosen.None? && PublishedPolicy(tree).Ok? ==>
      PickOutcome(PickRequest(tree, PublishedPolicy(tree).value, slot, vocabulary, map[], maxLength), pick)
  }

  /** A reservation's commit holds one new row under the new title, and records the rename of the old one to it. */
  ghost predicate Declares(tree: Tree, slot: Slot, oldTitle: string, name: string, change: Change) {
    && name !in tree.rows
    && change.rows.Keys == {name} && change.rows[name].Some?
    && RowFits(name, change.rows[name].value)
    && change.rows[name].value.kind.Session?
    && change.rows[name].value.title == Some(slot.TitleFor(name))
    && change.rows[name].value.machine == Some(slot.machine)
    && change.manual == map[] && change.listing.None?
    && change.migrations
       == map[oldTitle := Some(Migration(oldTitle, slot.TitleFor(name), slot.machine, slot.client, Intent, None))]
    && LastSegment(slot.TitleFor(name)) == name
  }

  lemma ReserveMigrationDeclares(tree: Tree, slot: Slot, vocabulary: Vocabulary, maxLength: Option<int>,
                                 oldTitle: string, chosen: Option<string>, pick: Option<string>, tier: string,
                                 words: set<string>, now: string, change: Change) returns (name: string)
    requires MigrationChoices(tree, slot, vocabulary, maxLength, chosen, pick)
    requires ReserveMigration(tree, slot, oldTitle, chosen, pick, tier, words, now) == Write(change)
    ensures Declares(tree, slot, oldTitle, name, change)
  {
    hide RowProblem, PrefixPair, NearHeld, IsCommonWord, OutsideLimits;
    name := if chosen.Some? then chosen.value else pick.value;
    SessionRowFits(slot, name, "migrated", if chosen.Some? then None else Some(tier), now);
    assert RowFits(name, change.rows[name].value);
  }

  /** `complete_migration`'s guard. */
  function CompleteMigration(tree: Tree, oldTitle: string, machine: string, now: string): Build {
    if oldTitle !in tree.migrations then Refuse(NoMigration)
    else
      var record := tree.migrations[oldTitle];
      var newToken := LastSegment(record.newTitle);
      if record.status.Complete? then Skip
      else if record.machine != machine then Refuse(NotThisMachine)
      else if newToken !in tree.rows || tree.rows[newToken].title != Some(record.newTitle) then Refuse(RowChanged)
      else
        var row := tree.rows[newToken].(state := Active, recovery := None);
        var oldToken := LastSegment(oldTitle);
        var writes := map[newToken := Some(row)];
        CheckedWrite(row, Change(
          if oldToken in tree.rows && tree.rows[oldToken].title == Some(oldTitle)
             && tree.rows[oldToken].machine == Some(machine)
          then writes[oldToken := None] else writes,
          map[], map[oldTitle := Some(record.(status := Complete, completedAt := Some(now)))], None))
  }

  /** `release_failed_migration`'s guard. */
  function ReleaseFailed(tree: Tree, oldTitle: string, machine: string): Build {
    if oldTitle !in tree.migrations || !tree.migrations[oldTitle].status.Intent?
       || tree.migrations[oldTitle].machine != machine then Refuse(NoMigration)
    else
      var record := tree.migrations[oldTitle];
      var newToken := LastSegment(record.newTitle);
      var ours := newToken in tree.rows && tree.rows[newToken].title == Some(record.newTitle)
                  && tree.rows[newToken].machine == Some(machine);
      Write(Change(if ours then map[newToken := None] else map[], map[], map[oldTitle := None], None))
  }

  /** `mark_migration_incomplete`'s guard: it does not compare the row's title with the record's. */
  function MarkIncomplete(tree: Tree, oldTitle: string, machine: string, survivors: seq<Artifact>): Build {
    if oldTitle !in tree.migrations || tree.migrations[oldTitle].machine != machine then Refuse(NoMigration)
    else
      var newToken := LastSegment(tree.migrations[oldTitle].newTitle);
      if newToken !in tree.rows then Refuse(RowMissing)
      else
        var row := tree.rows[newToken].(state := MigrationIncomplete, recovery := Some(survivors));
        CheckedWrite(row, RowChange(map[newToken := Some(row)]))
  }

  /** The row a rename reserves is its slot's session row, and the name is free, or chosen by hand and known. */
  lemma MigrationReserves(tree: Tree, slot: Slot, vocabulary: Vocabulary, maxLength: Option<int>, oldTitle: string,
                          chosen: Option<string>, pick: Option<string>, tier: string, words: set<string>, now: string,
                          change: Change)
    requires MigrationChoices(tree, slot, vocabulary, maxLength, chosen, pick)
    requires ReserveMigration(tree, slot, oldTitle, chosen, pick, tier, words, now) == Write(change)
    ensures PublishedPolicy(tree).Ok? && (chosen.Some? || pick.Some?)
    ensures
      var policy := PublishedPolicy(tree).value;
      var name := if chosen.Some? then chosen.value else pick.value;
      && change.rows
         == map[name := Some(SessionRow(slot, name, "migrated", if chosen.Some? then None else Some(tier), now))]
      && (chosen.None? ==> FreeFor(tree, policy, slot, vocabulary, map[], maxLength, name))
      && (chosen.Some? ==>
            && NothingInTheWay(tree, policy, slot, name) && !OrdinaryWord(name, policy, words)
            && InLimits(name, policy) && name in tree.Available())
  {
    hide RowProblem, SessionRow, FreeFor, NothingInTheWay, OrdinaryWord, CheckHandChosen, Candidate;
    var policy := PublishedPolicy(tree).value;
    if chosen.Some? {
      CheckHandChosenIff(tree, policy, chosen.value, slot, words);
    } else {
      PickIff(tree, policy, slot, vocabulary, map[], maxLength, pick);
    }
  }

  /**
   * A rename is declared exactly when its policy is in force and there is a name for it whose row is valid: a free one,
   * or one chosen by hand that may be used and is known.
   */
  lemma ReserveMigrationIff(tree: Tree, slot: Slot, oldTitle: string, chosen: Option<string>, pick: Option<string>,
                            tier: string, words: set<string>, now: string)
    ensures
      var build := ReserveMigration(tree, slot, oldTitle, chosen, pick, tier, words, now);
      && !build.Skip?
      && (build.Write?
          <==> (&& PublishedPolicy(tree).Ok?
                && var policy := PublishedPolicy(tree).value;
                   && (chosen.None? ==> pick.Some? && tree.listing.value.names != {})
                   && (chosen.Some? ==>
                         && NothingInTheWay(tree, policy, slot, chosen.value)
                         && !OrdinaryWord(chosen.value, policy, words)
                         && InLimits(chosen.value, policy) && chosen.value in tree.Available())
                   && (chosen.Some? || pick.Some? ==>
                         var name := if chosen.Some? then chosen.value else pick.value;
                         RowProblem(SessionRow(slot, name, "migrated", if chosen.Some? then None else Some(tier), now))
                         .None?)))
  {
    hide RowProblem, SessionRow, NothingInTheWay, OrdinaryWord, CheckHandChosen;
    if PublishedPolicy(tree).Ok? && chosen.Some? {
      CheckHandChosenIff(tree, PublishedPolicy(tree).value, chosen.value, slot, words);
    }
  }

  /**
   * A completion is written for this machine's record that is not complete yet, whose new title's row is there: that
   * row is made active, the record complete, and the row of the old title deleted if it is this machine's.
   */
  lemma CompleteMigrationIff(tree: Tree, oldTitle: string, machine: string, now: string)
    ensures
      var build := CompleteMigration(tree, oldTitle, machine, now);
      && (build.Skip? <==> oldTitle in tree.migrations && tree.migrations[oldTitle].status.Complete?)
      && (build.Write?
          <==> (&& oldTitle in tree.migrations && !tree.migrations[oldTitle].status.Complete?
                && tree.migrations[oldTitle].machine == machine
                && var newTitle := tree.migrations[oldTitle].newTitle;
                   && LastSegment(newTitle) in tree.rows && tree.rows[LastSegment(newTitle)].title == Some(newTitle)
                   && RowProblem(tree.rows[LastSegment(newTitle)].(state := Active, recovery := None)).None?))
      && (oldTitle !in tree.migrations ==> build == Refuse(NoMigration))
      && (oldTitle in tree.migrations && !tree.migrations[oldTitle].status.Complete? ==>
            && (build == Refuse(NotThisMachine) <==> tree.migrations[oldTitle].machine != machine)
            && (build == Refuse(RowChanged)
                <==> (&& tree.migrations[oldTitle].machine == machine
                      && var newTitle := tree.migrations[oldTitle].newTitle;
                         LastSegment(newTitle) in tree.rows ==>
                           tree.rows[LastSegment(newTitle)].title != Some(newTitle))))
      && (build.Write? ==>
            var record, oldToken := tree.migrations[oldTitle], LastSegment(oldTitle);
            var token := LastSegment(record.newTitle);
            var drops := && oldToken in tree.rows && tree.rows[oldToken].title == Some(oldTitle)
                         && tree.rows[oldToken].machine == Some(machine);
            Apply(tree, build.change)
            == tree.(rows := tree.rows[token := tree.rows[token].(state := Active, recovery := None)]
                             - (if drops then {oldToken} else {}),
                     migrations := tree.migrations[oldTitle := record.(status := Complete, completedAt := Some(now))]))
  {
    hide RowProblem, LastSegment;
    var build := CompleteMigration(tree, oldTitle, machine, now);
    if build.Write? {
      var record := tree.migrations[oldTitle];
      assert Written(tree.migrations, build.change.migrations)
          == tree.migrations[oldTitle := record.(status := Complete, completedAt := Some(now))];
      WrittenNothing(tree.manual);
    }
  }

  /**
   * A failed rename is released for this machine's intent alone: its record goes, and the row of its new title if that
   * is this machine's.
   */
  lemma ReleaseFailedIff(tree: Tree, oldTitle: string, machine: string)
    ensures
      var build := ReleaseFailed(tree, oldTitle, machine);
      && !build.Skip?
      && (build.Write? <==> oldTitle in tree.migrations && tree.migrations[oldTitle].status.Intent?
                            && tree.migrations[oldTitle].machine == machine)
      && (build.Refuse? ==> build.why == NoMigration)
      && (build.Write? ==>
            var newTitle := tree.migrations[oldTitle].newTitle;
            var token := LastSegment(newTitle);
            var ours := token in tree.rows && tree.rows[token].title == Some(newTitle)
                        && tree.rows[token].machine == Some(machine);
            Apply(tree, build.change) == tree.(rows := tree.rows - (if ours then {token} else {}),
                                               migrations := tree.migrations - {oldTitle}))
  {
    hide LastSegment;
    var build := ReleaseFailed(tree, oldTitle, machine);
    if build.Write? {
      assert Written(tree.migrations, build.change.migrations) == tree.migrations - {oldTitle};
      WrittenNothing(tree.manual);
      WrittenNothing(tree.rows);
      if build.change.rows == map[] {
        assert tree.rows - {} == tree.rows;
      } else {
        assert Written(tree.rows, build.change.rows)
            == tree.rows - {LastSegment(tree.migrations[oldTitle].newTitle)};
      }
    }
  }

  /** A rename is held for this machine's record, whatever its status: the row of the new title, with what was found. */
  lemma MarkIncompleteIff(tree: Tree, oldTitle: string, machine: string, survivors: seq<Artifact>)
    ensures
      var build := MarkIncomplete(tree, oldTitle, machine, survivors);
      && !build.Skip?
      && (build.Write?
          <==> (&& oldTitle in tree.migrations && tree.migrations[oldTitle].machine == machine
                && var token := LastSegment(tree.migrations[oldTitle].newTitle);
                   && token in tree.rows
                   && RowProblem(tree.rows[token].(state := MigrationIncomplete, recovery := Some(survivors))).None?))
      && (build == Refuse(NoMigration)
          <==> oldTitle in tree.migrations ==> tree.migrations[oldTitle].machine != machine)
      && (build == Refuse(RowMissing)
          <==> (&& oldTitle in tree.migrations && tree.migrations[oldTitle].machine == machine
                && LastSegment(tree.migrations[oldTitle].newTitle) !in tree.rows))
      && (build.Write? ==>
            var token := LastSegment(tree.migrations[oldTitle].newTitle);
            Apply(tree, build.change)
            == tree.(rows := tree.rows[token := tree.rows[token].(state := MigrationIncomplete,
                                                                  recovery := Some(survivors))]))
  {
    hide RowProblem, LastSegment;
    var build := MarkIncomplete(tree, oldTitle, machine, survivors);
    if build.Write? {
      var token := LastSegment(tree.migrations[oldTitle].newTitle);
      ApplyRowChange(tree, build.change.rows);
      assert Written(tree.rows, build.change.rows) == tree.rows[token := build.change.rows[token].value];
    }
  }
}

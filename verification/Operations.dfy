/**
 * Every operation that writes the registry, as one guard on one tip, and what its commit does to each token.
 */
module Operations {
  import opened Wrappers
  import opened Text
  import opened Rows
  import opened Registry
  import opened Picker
  import opened Allocation
  import opened Release
  import opened Ledger
  import opened Spool

  /** An operation with everything its guard reads besides the tip and its host's spool, random picks included. */
  datatype Op =
    | ReserveOp(slot: Slot, vocabulary: Vocabulary, spoolRead: map<string, Row>, maxLength: Option<int>,
                pick: Option<string>, tier: string, spares: seq<string>, now: string)
    | HandOp(name: string, slot: Slot, add: bool, via: string, addedBy: string, words: set<string>, now: string)
    | LabelOp(slot: Slot, text: string, now: string)
    | AddOp(name: string, addedBy: string, reason: Option<string>, words: set<string>)
    | RemoveOp(name: string)
    | SyncOp(list: Listing)
    | MigrateOp(slot: Slot, vocabulary: Vocabulary, maxLength: Option<int>, oldTitle: string, chosen: Option<string>,
                pick: Option<string>, tier: string, words: set<string>, now: string)
    | CompleteOp(oldTitle: string, now: string)
    | ReleaseFailedOp(oldTitle: string)
    | MarkOp(oldTitle: string, survivors: seq<Artifact>)
    | ReleaseOp(name: string, tested: Row, evidence: Evidence)
    | ReassignOp(name: string, seen: Row, to: string)
    | ReconcileOp(hostAlias: string, vocabulary: Vocabulary, candidates: map<string, Row>, spareRows: map<string, Row>,
                  added: seq<string>, now: string)
    | PublishOp(token: string)

  /** The guard of `op` run by `machine` on `tip`. */
  function Guard(op: Op, machine: string, tip: Tree, spool: map<string, Row>): Build {
    match op
    case ReserveOp(slot, _, _, _, pick, tier, spares, now) => ReservePicked(tip, slot, pick, tier, spares, now)
    case HandOp(name, slot, add, via, addedBy, words, now) =>
      ReserveHandChosen(tip, name, slot, add, via, addedBy, words, now)
    case LabelOp(slot, text, now) => ReserveLabel(tip, slot, text, now)
    case AddOp(name, addedBy, reason, words) => AddName(tip, name, addedBy, reason, words)
    case RemoveOp(name) => RemoveName(tip, name)
    case SyncOp(list) => Write(Change(map[], map[], map[], Some(list)))
    case MigrateOp(slot, _, _, oldTitle, chosen, pick, tier, words, now) =>
      ReserveMigration(tip, slot, oldTitle, chosen, pick, tier, words, now)
    case CompleteOp(oldTitle, now) => CompleteMigration(tip, oldTitle, machine, now)
    case ReleaseFailedOp(oldTitle) => ReleaseFailed(tip, oldTitle, machine)
    case MarkOp(oldTitle, survivors) => MarkIncomplete(tip, oldTitle, machine, survivors)
    case ReleaseOp(name, tested, _) => ReleaseName(tip, name, tested)
    case ReassignOp(name, seen, to) => Reassign(tip, name, seen, to)
    case ReconcileOp(hostAlias, _, candidates, spareRows, added, now) =>
      ReconcileRelease(tip, machine, hostAlias, candidates, spareRows, spool, added, now)
    case PublishOp(token) => if token in spool then PublishEntry(tip, machine, token, spool[token]) else Skip
  }

  /** The picks and earlier readings `op` may carry when it runs on `tip`. */
  ghost predicate Choices(op: Op, machine: string, tip: Tree, spool: map<string, Row>) {
    match op
    case ReserveOp(slot, vocabulary, spoolRead, maxLength, pick, _, spares, _) =>
      PickedChoices(tip, slot, vocabulary, spoolRead, maxLength, pick, spares)
    case MigrateOp(slot, vocabulary, maxLength, _, chosen, pick, _, _, _) =>
      MigrationChoices(tip, slot, vocabulary, maxLength, chosen, pick)
    case ReleaseOp(_, tested, evidence) => ReleaseNameChecks(Some(tested), machine, evidence).None?
    case ReconcileOp(hostAlias, vocabulary, candidates, spareRows, added, _) =>
      && ReconcileChoices(tip, machine, hostAlias, vocabulary, candidates, spareRows, spool, added)
      && forall t | t in candidates :: !candidates[t].kind.Spare?
    case PublishOp(token) =>
      token in spool && RowFits(token, spool[token]) && spool[token].kind.Session?
    case _ => true
  }

  /** What one commit does at one token. */
  datatype Effect = Same | Fresh | Activated | Dropped | SpareDropped | Respared | Retouched | Reassigned

  ghost predicate HasEffect(effect: Effect, machine: string, spool: map<string, Row>, t: string,
                            before: Option<Row>, after: Option<Row>) {
    match effect
    case Same => after == before
    case Fresh => before.None? && after.Some? && RowFits(t, after.value)
    case Activated =>
      && before.Some? && IsSpareOf(before.value, machine)
      && t in spool && after == Some(spool[t])
      && OnlyActivationDiffers(before.value, spool[t]) && RowFits(t, spool[t]) && spool[t].kind.Session?
    case Dropped => before.Some? && !before.value.kind.Spare? && after.None?
    case SpareDropped => before.Some? && IsSpareOf(before.value, machine) && t !in spool && after.None?
    case Respared =>
      && before.Some? && !before.value.kind.Spare?
      && before.value.machine == Some(machine)
      && after.Some? && IsSpareOf(after.value, machine) && RowFits(t, after.value)
    case Retouched =>
      && before.Some? && !before.value.kind.Spare?
      && after.Some? && RowFits(t, after.value)
      && after.value == before.value.(state := after.value.state, recovery := after.value.recovery)
    case Reassigned =>
      && before.Some? && after.Some? && RowFits(t, after.value)
      && after.value == before.value.(machine := after.value.machine)
  }

  /** Which operations may have which effect. */
  predicate MayHave(op: Op, t: string, effect: Effect) {
    match effect
    case Same => true
    case Fresh => op.ReserveOp? || op.HandOp? || op.LabelOp? || op.MigrateOp? || op.ReconcileOp?
    case Activated => op == PublishOp(t)
    case Dropped => op.ReconcileOp? || op.ReleaseOp? || op.CompleteOp? || op.ReleaseFailedOp?
    case SpareDropped => op.ReconcileOp?
    case Respared => op.ReconcileOp?
    case Retouched => op.CompleteOp? || op.MarkOp?
    case Reassigned => op.ReassignOp?
  }

  lemma NewRowsEffect(tip: Tree, change: Change, machine: string, spool: map<string, Row>, t: string)
    returns (effect: Effect)
    requires OnlyNewRows(tip, change)
    ensures effect.Same? || effect.Fresh?
    ensures HasEffect(effect, machine, spool, t, Get(tip.rows, t), Get(Apply(tip, change).rows, t))
  {
    hide RowProblem;
    effect := if t in change.rows then Fresh else Same;
  }

  lemma ReconcileEffect(op: Op, machine: string, tip: Tree, spool: map<string, Row>, change: Change, t: string)
    returns (effect: Effect)
    requires op.ReconcileOp? && RowsFit(tip)
    requires Choices(op, machine, tip, spool) && Guard(op, machine, tip, spool) == Write(change)
    ensures MayHave(op, t, effect)
    ensures HasEffect(effect, machine, spool, t, Get(tip.rows, t), Get(Apply(tip, change).rows, t))
  {
    hide RowProblem, ReconcileRelease, ReconcileChoices, Renaming, Apply, PublishedPolicy, RowsFit;
    AfterRelease(tip, machine, op.hostAlias, op.candidates, op.spareRows, spool, op.added, op.now, change, t);
    if t in op.added {
      AddedWasFree(tip, machine, op.hostAlias, op.vocabulary, op.candidates, op.spareRows, spool, op.added, t);
      AddedFits(op, machine, tip, spool, change, t);
      effect := if t in tip.rows then Respared else Fresh;
    } else if StillReleasable(tip, machine, op.candidates, t) {
      effect := Dropped;
    } else if SpareStillOver(tip, machine, op.spareRows, spool, PublishedPolicy(tip).value, t) {
      effect := SpareDropped;
    } else {
      effect := Same;
    }
  }

  lemma AddedFits(op: Op, machine: string, tip: Tree, spool: map<string, Row>, change: Change, t: string)
    requires op.ReconcileOp? && t in op.added
    requires Guard(op, machine, tip, spool) == Write(change)
    ensures RowFits(t, SpareRow(t, op.hostAlias, machine, op.now))
  {
    var slot := TopUpSlot(op.hostAlias, machine);
    assert AllValid(SpareRows(slot, op.added, op.now));
    assert SpareRows(slot, op.added, op.now)[t].value == SpareRow(t, op.hostAlias, machine, op.now);
    SpareRowFits(t, op.hostAlias, machine, op.now);
  }

  /** A row the commit rewrites or drops, whose rewritten form differs in state and recovery alone. */
  lemma TouchedEffect(op: Op, machine: string, tip: Tree, spool: map<string, Row>, change: Change, t: string)
    returns (effect: Effect)
    requires op.CompleteOp? || op.MarkOp? || op.ReleaseFailedOp?
    requires RowsFit(tip) && t in change.rows && t in tip.rows && !tip.rows[t].kind.Spare?
    requires
      match change.rows[t]
      case None => !op.MarkOp?
      case Some(row) =>
        && !op.ReleaseFailedOp? && RowProblem(row).None?
        && row == tip.rows[t].(state := row.state, recovery := row.recovery)
    ensures MayHave(op, t, effect)
    ensures HasEffect(effect, machine, spool, t, Get(tip.rows, t), Get(Apply(tip, change).rows, t))
  {
    hide RowProblem;
    assert RowFits(t, tip.rows[t]);
    effect := if change.rows[t].Some? then Retouched else Dropped;
  }

  lemma CompletionTouches(op: Op, machine: string, tip: Tree, spool: map<string, Row>, change: Change, t: string)
    requires op.CompleteOp? && RowsFit(tip) && Guard(op, machine, tip, spool) == Write(change) && t in change.rows
    ensures t in tip.rows && tip.rows[t].title.Some?
    ensures change.rows[t].Some? ==>
              && RowProblem(change.rows[t].value).None?
              && change.rows[t].value == tip.rows[t].(state := Active, recovery := None)
  {
    hide RowProblem;
  }

  lemma HoldTouches(op: Op, machine: string, tip: Tree, spool: map<string, Row>, change: Change, t: string)
    requires op.MarkOp? && Guard(op, machine, tip, spool) == Write(change) && t in change.rows
    ensures t in tip.rows && change.rows[t].Some? && RowProblem(change.rows[t].value).None?
    ensures change.rows[t].value.recovery.Some?
    ensures change.rows[t].value
            == tip.rows[t].(state := change.rows[t].value.state, recovery := change.rows[t].value.recovery)
  {
    hide RowProblem;
  }

  lemma ReleaseTouches(op: Op, machine: string, tip: Tree, spool: map<string, Row>, change: Change, t: string)
    requires op.ReleaseFailedOp? && Guard(op, machine, tip, spool) == Write(change) && t in change.rows
    ensures t in tip.rows && tip.rows[t].title.Some? && change.rows[t].None?
  {
    hide RowProblem;
  }

  /** A migration's completion or hold changes the state of one row, and a completion may drop the old row. */
  lemma LedgerEffect(op: Op, machine: string, tip: Tree, spool: map<string, Row>, change: Change, t: string)
    returns (effect: Effect)
    requires op.CompleteOp? || op.MarkOp? || op.ReleaseFailedOp?
    requires RowsFit(tip) && Guard(op, machine, tip, spool) == Write(change)
    ensures MayHave(op, t, effect)
    ensures HasEffect(effect, machine, spool, t, Get(tip.rows, t), Get(Apply(tip, change).rows, t))
  {
    hide RowProblem, Guard;
    effect := Same;
    if t in change.rows {
      if op.CompleteOp? {
        CompletionTouches(op, machine, tip, spool, change, t);
      } else if op.MarkOp? {
        HoldTouches(op, machine, tip, spool, change, t);
        ValidRowFields(change.rows[t].value);
      } else {
        ReleaseTouches(op, machine, tip, spool, change, t);
      }
      assert RowFits(t, tip.rows[t]);
      ValidRowFields(tip.rows[t]);
      hide HasEffect, MayHave;
      effect := TouchedEffect(op, machine, tip, spool, change, t);
    }
  }

  lemma ByHandEffect(op: Op, machine: string, tip: Tree, spool: map<string, Row>, change: Change, t: string)
    returns (effect: Effect)
    requires op.ReleaseOp? || op.ReassignOp? || op.PublishOp?
    requires RowsFit(tip) && Choices(op, machine, tip, spool) && Guard(op, machine, tip, spool) == Write(change)
    ensures MayHave(op, t, effect)
    ensures HasEffect(effect, machine, spool, t, Get(tip.rows, t), Get(Apply(tip, change).rows, t))
  {
    hide RowProblem;
    effect := Same;
    if t in change.rows {
      assert RowFits(t, tip.rows[t]);
      ValidRowFields(tip.rows[t]);
      effect := if op.ReleaseOp? then Dropped else if op.ReassignOp? then Reassigned else Activated;
    }
  }

  /** What a commit does at a token, for every operation. */
  lemma OpEffect(op: Op, machine: string, tip: Tree, spool: map<string, Row>, change: Change, t: string)
    returns (effect: Effect)
    requires RowsFit(tip) && Choices(op, machine, tip, spool) && Guard(op, machine, tip, spool) == Write(change)
    ensures MayHave(op, t, effect)
    ensures HasEffect(effect, machine, spool, t, Get(tip.rows, t), Get(Apply(tip, change).rows, t))
  {
    hide RowProblem, ReservePicked, PickedChoices, ReserveHandChosen, ReserveLabel, ReserveMigration,
         MigrationChoices, ReconcileRelease, ReconcileChoices, CompleteMigration, ReleaseFailed, MarkIncomplete,
         PublishEntry, OnlyNewRows, HasEffect, RowsFit;
    match op {
      case ReserveOp(slot, vocabulary, spoolRead, maxLength, pick, tier, spares, now) =>
        ReservePickedIsNew(tip, slot, vocabulary, spoolRead, maxLength, pick, tier, spares, now);
        effect := NewRowsEffect(tip, change, machine, spool, t);
      case HandOp(name, slot, add, via, addedBy, words, now) =>
        HandChosenIsNew(tip, name, slot, add, via, addedBy, words, now);
        effect := NewRowsEffect(tip, change, machine, spool, t);
      case LabelOp(slot, text, now) =>
        LabelIsNew(tip, slot, text, now);
        effect := NewRowsEffect(tip, change, machine, spool, t);
      case MigrateOp(slot, vocabulary, maxLength, oldTitle, chosen, pick, tier, words, now) =>
        var name := ReserveMigrationDeclares(tip, slot, vocabulary, maxLength, oldTitle, chosen, pick, tier, words,
                                             now, change);
        DeclaredIsNew(tip, slot, oldTitle, name, change);
        effect := NewRowsEffect(tip, change, machine, spool, t);
      case ReconcileOp(_, _, _, _, _, _) => effect := ReconcileEffect(op, machine, tip, spool, change, t);
      case CompleteOp(_, _) => effect := LedgerEffect(op, machine, tip, spool, change, t);
      case ReleaseFailedOp(_) => effect := LedgerEffect(op, machine, tip, spool, change, t);
      case MarkOp(_, _) => effect := LedgerEffect(op, machine, tip, spool, change, t);
      case ReleaseOp(_, _, _) => effect := ByHandEffect(op, machine, tip, spool, change, t);
      case ReassignOp(_, _, _) => effect := ByHandEffect(op, machine, tip, spool, change, t);
      case PublishOp(_) => effect := ByHandEffect(op, machine, tip, spool, change, t);
      case _ =>
        effect := Same;
        RowlessEffect(tip, change, machine, spool, t);
    }
  }

  lemma DeclaredIsNew(tip: Tree, slot: Slot, oldTitle: string, name: string, change: Change)
    requires Declares(tip, slot, oldTitle, name, change)
    ensures OnlyNewRows(tip, change)
  {
    hide RowProblem;
  }

  lemma RowlessEffect(tip: Tree, change: Change, machine: string, spool: map<string, Row>, t: string)
    requires change.rows == map[]
    ensures HasEffect(Same, machine, spool, t, Get(tip.rows, t), Get(Apply(tip, change).rows, t))
  {
  }

  /** Every commit keeps each row valid, under its own token, with a title that ends in it. */
  lemma RowsStayFit(op: Op, machine: string, tip: Tree, spool: map<string, Row>, change: Change)
    requires RowsFit(tip) && Choices(op, machine, tip, spool) && Guard(op, machine, tip, spool) == Write(change)
    ensures RowsFit(Apply(tip, change))
  {
    hide RowProblem, Guard, Choices, Apply;
    forall t | t in Apply(tip, change).rows ensures RowFits(t, Apply(tip, change).rows[t]) {
      var effect := OpEffect(op, machine, tip, spool, change, t);
    }
  }

  /**
   * A held row's title changes only when its own machine activates the spare it was,
   * or when a reconcile makes a spare of a row it releases in the same commit.
   */
  lemma TitlesStay(op: Op, machine: string, tip: Tree, spool: map<string, Row>, change: Change, t: string)
    requires RowsFit(tip) && Choices(op, machine, tip, spool) && Guard(op, machine, tip, spool) == Write(change)
    requires t in tip.rows && t in Apply(tip, change).rows
    requires Apply(tip, change).rows[t].title != tip.rows[t].title
    ensures
      || (op == PublishOp(t) && IsSpareOf(tip.rows[t], machine) && tip.rows[t].title.None?)
      || (op.ReconcileOp? && tip.rows[t].machine == Some(machine) && !tip.rows[t].kind.Spare?
          && IsSpareOf(Apply(tip, change).rows[t], machine))
  {
    hide Guard, Choices, Apply;
    var effect := OpEffect(op, machine, tip, spool, change, t);
    assert RowFits(t, tip.rows[t]);
  }

  /** A release by hand has tested a row of its own machine, held for no rename, and found its session gone. */
  lemma ReleaseOpTested(name: string, tested: Row, evidence: Evidence, machine: string, tip: Tree,
                        spool: map<string, Row>)
    ensures Choices(ReleaseOp(name, tested, evidence), machine, tip, spool)
            <==> tested.machine == Some(machine) && !tested.state.MigrationIncomplete? && Gone(tested, evidence)
  {
    ReleaseNameIff(Some(tested), machine, evidence);
  }

  /** What an edit of the name database or a reservation by hand leaves, in the operation's own terms. */
  lemma HandOpSays(op: Op, machine: string, tip: Tree, spool: map<string, Row>)
    requires op.AddOp? || op.RemoveOp? || op.SyncOp? || op.HandOp? || op.LabelOp?
    requires Guard(op, machine, tip, spool).Write?
    ensures
      var after := Apply(tip, Guard(op, machine, tip, spool).change);
      match op
      case AddOp(_, _, _, _) =>
        after == tip.(manual := tip.manual[op.name := ManualName(op.addedBy, "add-name", op.reason)])
      case RemoveOp(_) => op.name !in tip.rows && after == tip.(manual := tip.manual - {op.name})
      case SyncOp(_) => after == tip.(listing := Some(op.list))
      case HandOp(_, _, _, _, _, _, _) =>
        && after == tip.(rows := after.rows, manual := after.manual)
        && (exists source :: after.rows == tip.rows[op.name := SessionRow(op.slot, op.name, source, None, op.now)])
        && (after.manual == tip.manual
            || (op.add && after.manual == tip.manual[op.name := ManualName(op.addedBy, op.via, None)]))
      case _ => after == tip.(rows := tip.rows[LastSegment(op.text) := LabelRow(op.slot, op.text, op.now)])
  {
    hide RowProblem, SessionRow, LabelRow, ReserveHandChosen, ReserveLabel, AddName, RemoveName, LastSegment;
    match op {
      case AddOp(name, addedBy, reason, words) => AddNameIff(tip, name, addedBy, reason, words);
      case RemoveOp(name) => RemoveNameIff(tip, name);
      case HandOp(name, slot, add, via, addedBy, words, now) =>
        ReserveHandChosenIff(tip, name, slot, add, via, addedBy, words, now);
      case LabelOp(slot, text, now) => ReserveLabelIff(tip, slot, text, now);
      case SyncOp(_) =>
        WrittenNothing(tip.rows);
        WrittenNothing(tip.manual);
        WrittenNothing(tip.migrations);
    }
  }

  /** The same for the rename ledger: each operation writes the record of its own old title, for its own machine. */
  lemma LedgerOpSays(op: Op, machine: string, tip: Tree, spool: map<string, Row>)
    requires op.CompleteOp? || op.ReleaseFailedOp? || op.MarkOp?
    requires Guard(op, machine, tip, spool).Write?
    ensures op.oldTitle in tip.migrations && tip.migrations[op.oldTitle].machine == machine
    ensures
      var after, record := Apply(tip, Guard(op, machine, tip, spool).change), tip.migrations[op.oldTitle];
      && (op.CompleteOp? ==>
            after.migrations
            == tip.migrations[op.oldTitle := record.(status := Complete, completedAt := Some(op.now))])
      && (op.ReleaseFailedOp? ==> after.migrations == tip.migrations - {op.oldTitle})
      && (op.MarkOp? ==>
            var token := LastSegment(record.newTitle);
            && after.migrations == tip.migrations && token in tip.rows
            && after.rows == tip.rows[token := tip.rows[token].(state := MigrationIncomplete,
                                                                recovery := Some(op.survivors))])
  {
    hide RowProblem, CompleteMigration, ReleaseFailed, MarkIncomplete, LastSegment;
    match op {
      case CompleteOp(oldTitle, now) => CompleteMigrationIff(tip, oldTitle, machine, now);
      case ReleaseFailedOp(oldTitle) => ReleaseFailedIff(tip, oldTitle, machine);
      case MarkOp(oldTitle, survivors) => MarkIncompleteIff(tip, oldTitle, machine, survivors);
    }
  }
}

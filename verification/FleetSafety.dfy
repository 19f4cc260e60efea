/** Whole runs of the fleet: a session name is never held twice, online or offline. */
module FleetSafety {
  import opened Wrappers
  import opened StringOrder
  import opened Rows
  import opened Registry
  import opened Allocation
  import opened Ledger
  import opened Spool
  import opened Operations
  import opened Fleet
  import opened FleetSteps

  /** A run of the fleet: every step follows from the one before. */
  ghost predicate IsRun(states: seq<Fleet>, events: seq<Event>) {
    && |states| == |events| + 1
    && forall i | 0 <= i < |events| :: Next(states[i], events[i], states[i + 1])
  }

  /** Fresh checkouts of a registry whose rows fit: nothing fetched, spooled or on its way, no lock held. */
  ghost predicate Start(s: Fleet) {
    && RowsFit(s.tip) && s.sent == {}
    && forall m | m in s.machines :: s.machines[m] == Machine(EmptyTree, {}, map[], Open)
  }

  lemma {:induction false} EveryStateConsistent(states: seq<Fleet>, events: seq<Event>, n: nat)
    requires IsRun(states, events) && Start(states[0]) && n < |states|
    requires forall i | 0 <= i < n :: Careful(states[i], events[i])
    ensures Consistent(states[n])
  {
    hide RowsFit, Next, Careful;
    if n > 0 {
      EveryStateConsistent(states, events, n - 1);
      StepStandsIff(states[n - 1], events[n - 1], states[n]);
    } else {
      assert RowsFit(EmptyTree) by { EmptyFits(); }
    }
  }

  lemma EmptyFits()
    ensures RowsFit(EmptyTree)
  {
  }

  /** A session that holds a token: published on the ref, or spooled on the machine it was launched on. */
  ghost predicate Holds(s: Fleet, t: string, m: string, row: Row) {
    || (t in s.tip.rows && s.tip.rows[t] == row && !row.kind.Spare? && row.machine == Some(m))
    || (m in s.machines && t in s.machines[m].spool && s.machines[m].spool[t] == row)
  }

  /** In every reachable state, no two sessions hold one token, published or spooled, on any machines. */
  lemma OneSessionPerToken(states: seq<Fleet>, events: seq<Event>, n: nat, t: string, m: string, row: Row,
                           other: string, otherRow: Row)
    requires IsRun(states, events) && Start(states[0]) && n < |states|
    requires forall i | 0 <= i < n :: Careful(states[i], events[i])
    requires Holds(states[n], t, m, row) && Holds(states[n], t, other, otherRow)
    ensures m == other && row == otherRow
  {
    hide RowProblem, RowsFit, Next, Careful, ViewsStand, LockStands, IsRun, Start;
    EveryStateConsistent(states, events, n);
    var s := states[n];
    EntryAt(s, m, t);
    EntryAt(s, other, t);
  }

  /** The spare an offline launch is about to take is at the tip as its stale view shows it, and no session holds it. */
  lemma OfflineTakeIsFree(states: seq<Fleet>, events: seq<Event>, n: nat)
    requires IsRun(states, events) && Start(states[0]) && n < |events|
    requires forall i | 0 <= i < n :: Careful(states[i], events[i])
    requires events[n].TakeRead?
    ensures
      var token, m := events[n].token, events[n].m;
      && m in states[n].machines
      && Get(states[n].tip.rows, token) == Get(states[n].machines[m].view.rows, token)
      && token in states[n].tip.rows && IsSpareOf(states[n].tip.rows[token], m)
      && forall holder, row :: !Holds(states[n], token, holder, row)
  {
    hide RowProblem, RowsFit, Careful, ComesBefore, Start;
    EveryStateConsistent(states, events, n);
    var s, token, m := states[n], events[n].token, events[n].m;
    assert Next(s, events[n], states[n + 1]);
    TakeReadStands(s, m, token);
    forall holder, row ensures !Holds(s, token, holder, row) {
      EntryAt(s, holder, token);
    }
  }

  lemma EntryAt(s: Fleet, m: string, t: string)
    requires Consistent(s)
    ensures m in s.machines && t in s.machines[m].spool ==> EntryStands(s.tip, m, t, s.machines[m].spool[t])
  {
    hide RowProblem, RowsFit;
    if m in s.machines {
      assert MachineStands(s.tip, m, s.machines[m]);
    }
  }

  /**
   * The condition on releases is needed: a commit that drops a row whose published entry is still spooled, as after a
   * crash between push and unlink, leaves that entry standing for nothing.
   */
  lemma DroppingSpooledBreaks(s: Fleet, writer: string, op: Op, lock: Lock, m: string, t: string)
    requires Consistent(s) && writer in s.machines && m in s.machines && MayLand(s, writer, op)
    requires t in s.machines[m].spool && t in ChangeOf(s, writer, op).rows && ChangeOf(s, writer, op).rows[t].None?
    ensures !Consistent(Landed(s, writer, op, lock))
  {
    hide RowProblem, RowsFit, Choices, Guard, ViewsStand, LockStands;
    var s' := Landed(s, writer, op, lock);
    assert t !in s'.tip.rows && t in s'.machines[m].spool;
    assert MachineStands(s'.tip, m, s'.machines[m]) ==> EntryStands(s'.tip, m, t, s'.machines[m].spool[t]);
  }

  /** A publication of `t` lands, its entry is unlinked, and the lock is let go before the private ref has moved. */
  ghost predicate PublishedBehind(s: Fleet, m: string, t: string, landed: Fleet, unlinked: Fleet, over: Fleet) {
    Next(s, PublishLand(m, t), landed) && Next(landed, Unlink(m), unlinked) && Next(unlinked, Unlock(m), over)
  }

  /**
   * The condition on unlocking is needed: a publication that lands and is unlinked while the ref stays behind leaves a
   * view in which the next offline launch finds the published session's name free. The unlocking is the careless step.
   */
  lemma StayingBehindBreaks(s: Fleet, m: string, t: string, landed: Fleet, unlinked: Fleet, over: Fleet)
    requires m in s.machines && t in s.machines[m].view.rows && IsSpareOf(s.machines[m].view.rows[t], m)
    requires Consistent(s) && PublishedBehind(s, m, t, landed, unlinked, over)
    ensures m in over.machines && t in FreeSpares(over.machines[m].view, m, over.machines[m].spool)
    ensures t in over.tip.rows && over.tip.rows[t].kind.Session?
    ensures Consistent(unlinked) && !Careful(unlinked, Unlock(m)) && !Consistent(over)
  {
    hide RowProblem, RowsFit, Next, Careful, Consistent, FreeSpares;
    BehindLeaves(s, m, t, landed, unlinked, over);
    AlwaysCareful(s, m, t, landed);
    StepStandsIff(s, PublishLand(m, t), landed);
    StepStandsIff(landed, Unlink(m), unlinked);
    StepStandsIff(unlinked, Unlock(m), over);
    SpareIsFree(over.machines[m].view, m, over.machines[m].spool, t);
    SoldSpareBreaks(over, m, t);
  }

  lemma AlwaysCareful(s: Fleet, m: string, t: string, landed: Fleet)
    ensures Careful(s, PublishLand(m, t)) && Careful(landed, Unlink(m))
  {
  }

  lemma BehindLeaves(s: Fleet, m: string, t: string, landed: Fleet, unlinked: Fleet, over: Fleet)
    requires m in s.machines && PublishedBehind(s, m, t, landed, unlinked, over)
    ensures m in over.machines && over.machines[m].view == s.machines[m].view && over.machines[m].lock.Open?
    ensures t !in over.machines[m].spool
    ensures t in over.tip.rows && over.tip.rows[t].kind.Session?
  {
    hide RowProblem, PublishEntry;
    PublishOutcome(s.tip, m, t, s.machines[m].spool[t]);
  }

  lemma SpareIsFree(view: Tree, m: string, spool: map<string, Row>, t: string)
    requires t in view.rows && IsSpareOf(view.rows[t], m) && t !in spool
    ensures t in FreeSpares(view, m, spool)
  {
  }

  lemma SoldSpareBreaks(s: Fleet, m: string, t: string)
    requires m in s.machines && Exposed(s.machines[m])
    requires t in s.machines[m].view.rows && IsSpareOf(s.machines[m].view.rows[t], m)
    requires t !in s.machines[m].spool && t in s.tip.rows && s.tip.rows[t].kind.Session?
    ensures !Consistent(s)
  {
    hide RowProblem, RowsFit, EntryStands, LockStands;
    assert !ViewStands(s.tip, m, s.machines[m], t);
  }

  /** The steps that may alter a spare of machine `m`: its own publications and reconciles, and a reassignment. */
  predicate MayAlterSpares(e: Event, m: string) {
    || ((e.PublishLand? || e.ReleaseLand? || e.LateLand?) && e.m == m)
    || (e.Land? && e.op.ReassignOp?)
  }

  lemma SpareStays(s: Fleet, e: Event, s': Fleet, m: string, t: string)
    requires Consistent(s) && Next(s, e, s') && !MayAlterSpares(e, m)
    requires t in s.tip.rows && IsSpareOf(s.tip.rows[t], m)
    ensures Get(s'.tip.rows, t) == Some(s.tip.rows[t])
  {
    hide RowProblem, Guard, Choices, RowsFit, MachineStands, Apply;
    match e {
      case Land(k, op) => UnwrittenSpareStays(s, k, op, t);
      case PublishLand(k, token) => UnderLockWritesOwn(s.tip, k, PublishOp(token), s.machines[k].spool, t);
      case ReleaseLand(k, op) => UnderLockWritesOwn(s.tip, k, op, s.machines[k].spool, t);
      case LateLand(k, op, read) =>
        SentIsLocked(s, k, op, read);
        UnderLockWritesOwn(s.tip, k, op, read, t);
      case _ =>
    }
  }

  lemma UnwrittenSpareStays(s: Fleet, k: string, op: Op, t: string)
    requires Consistent(s) && k in s.machines && MayLand(s, k, op) && !UnderLock(op) && !op.ReassignOp?
    requires t in s.tip.rows && s.tip.rows[t].kind.Spare?
    ensures Get(Apply(s.tip, ChangeOf(s, k, op)).rows, t) == Some(s.tip.rows[t])
  {
    hide RowProblem, RowsFit, MachineStands, Choices, Guard;
    if t in ChangeOf(s, k, op).rows {
      WrittenSpare(op, k, s.tip, s.machines[k].spool, ChangeOf(s, k, op), t);
    }
  }

  lemma {:induction false} SparesStay(states: seq<Fleet>, events: seq<Event>, i: nat, n: nat, m: string, t: string)
    requires IsRun(states, events) && Start(states[0]) && i <= n < |states|
    requires forall j | 0 <= j < n :: Careful(states[j], events[j])
    requires forall j | i <= j < n :: !MayAlterSpares(events[j], m)
    requires t in states[i].tip.rows && IsSpareOf(states[i].tip.rows[t], m)
    ensures Get(states[n].tip.rows, t) == Some(states[i].tip.rows[t])
  {
    hide Careful, Next, Start, MayAlterSpares, IsSpareOf;
    if i < n {
      SparesStay(states, events, i, n - 1, m, t);
      EveryStateConsistent(states, events, n - 1);
      SpareStays(states[n - 1], events[n - 1], states[n], m, t);
    }
  }

  /**
   * Setting the private ref to an older tip, as a late `update-ref` does, is careful if since that tip its machine has
   * landed no publication and no reconcile and nobody has reassigned a name; and so is unlocking with the ref there.
   */
  lemma LateMoveIsCareful(states: seq<Fleet>, events: seq<Event>, i: nat, n: nat, m: string)
    requires IsRun(states, events) && Start(states[0]) && i <= n < |states|
    requires forall j | 0 <= j < n :: Careful(states[j], events[j])
    requires forall j | i <= j < n :: !MayAlterSpares(events[j], m)
    ensures Careful(states[n], MoveRef(m, states[i].tip))
    ensures m in states[n].machines && states[n].machines[m].view == states[i].tip ==> Careful(states[n], Unlock(m))
  {
    hide Next, Start, MayAlterSpares, IsSpareOf, Needs, ReliedOn, Altered, Guard, Choices, Apply;
    forall t | t in states[i].tip.rows && IsSpareOf(states[i].tip.rows[t], m)
      ensures Get(states[n].tip.rows, t) == Some(states[i].tip.rows[t])
    {
      SparesStay(states, events, i, n, m, t);
    }
  }

  /** Reservations, database edits and list publications are careful in every state. */
  lemma ReservationsAreCareful(s: Fleet, m: string, op: Op)
    requires m in s.machines
    requires op.ReserveOp? || op.HandOp? || op.LabelOp? || op.MigrateOp? || op.AddOp? || op.RemoveOp? || op.SyncOp?
    ensures Careful(s, Land(m, op))
  {
    hide RowProblem, RowsFit, MachineStands, Choices, Guard, ReliedOn;
    if MayLand(s, m, op) {
      forall t ensures t !in Altered(s, m, op) {
        if t in ChangeOf(s, m, op).rows {
          WritesOnlyNew(op, m, s.tip, s.machines[m].spool, ChangeOf(s, m, op), t);
        }
      }
    }
  }

  lemma WritesOnlyNew(op: Op, m: string, tip: Tree, spool: map<string, Row>, change: Change, t: string)
    requires op.ReserveOp? || op.HandOp? || op.LabelOp? || op.MigrateOp? || op.AddOp? || op.RemoveOp? || op.SyncOp?
    requires Choices(op, m, tip, spool) && Guard(op, m, tip, spool) == Write(change) && t in change.rows
    ensures t !in tip.rows
  {
    hide RowProblem;
    match op {
      case ReserveOp(slot, vocabulary, spoolRead, maxLength, pick, tier, spares, now) =>
        ReservePickedIsNew(tip, slot, vocabulary, spoolRead, maxLength, pick, tier, spares, now);
      case MigrateOp(slot, vocabulary, maxLength, oldTitle, chosen, pick, tier, words, now) =>
        var name := ReserveMigrationDeclares(tip, slot, vocabulary, maxLength, oldTitle, chosen, pick, tier, words,
                                             now, change);
      case _ =>
    }
  }

  /**
   * Completing, holding and releasing a rename, and releasing a name by hand, alter no spare: each is careful, and so
   * leaves the fleet consistent, exactly when no machine still has the altered row in its spool.
   */
  lemma LedgerIsCarefulIff(s: Fleet, m: string, op: Op)
    requires Consistent(s) && m in s.machines && MayLand(s, m, op)
    requires op.CompleteOp? || op.MarkOp? || op.ReleaseFailedOp? || op.ReleaseOp?
    ensures Careful(s, Land(m, op)) <==> forall t | t in Altered(s, m, op) :: !Spooled(s, t)
    ensures Consistent(Landed(s, m, op, s.machines[m].lock)) <==> forall t | t in Altered(s, m, op) :: !Spooled(s, t)
  {
    hide RowProblem, Choices, Guard, Apply, Altered, Consistent, Landed, ReliedOn, Spooled;
    LandStandsIff(s, m, op);
    forall t | t in Altered(s, m, op) ensures ReliedOn(s, t) <==> Spooled(s, t) {
      AlteredIsNoSpare(s, m, op, t);
      OnlySpooledReliesOn(s, t);
    }
  }

  lemma AlteredIsNoSpare(s: Fleet, m: string, op: Op, t: string)
    requires Consistent(s) && m in s.machines && MayLand(s, m, op) && t in Altered(s, m, op)
    requires op.CompleteOp? || op.MarkOp? || op.ReleaseFailedOp? || op.ReleaseOp?
    ensures t in s.tip.rows && !s.tip.rows[t].kind.Spare?
  {
    hide RowProblem, RowsFit, MachineStands, Choices, Guard;
    WrittenSpare(op, m, s.tip, s.machines[m].spool, ChangeOf(s, m, op), t);
  }

  /** A row that is no spare is counted on by spool entries alone. */
  lemma OnlySpooledReliesOn(s: Fleet, t: string)
    requires Consistent(s) && t in s.tip.rows && !s.tip.rows[t].kind.Spare?
    ensures ReliedOn(s, t) <==> Spooled(s, t)
  {
    hide RowProblem, RowsFit, MachineStands, Needs;
    forall k | k in s.machines ensures Needs(k, s.machines[k], t) <==> t in s.machines[k].spool {
      NeedsItsOwn(s.tip, k, s.machines[k], t);
    }
  }

  /** What a machine counts on is its own: a spare of its own, or the row its spooled entry stands on. */
  lemma NeedsItsOwn(tip: Tree, k: string, machine: Machine, t: string)
    requires MachineStands(tip, k, machine) && t in tip.rows
    ensures !tip.rows[t].kind.Spare? ==> (Needs(k, machine, t) <==> t in machine.spool)
    ensures Needs(k, machine, t) ==> tip.rows[t].machine == Some(k)
  {
    hide RowProblem, RowsFit;
    assert t in machine.spool ==> EntryStands(tip, k, t, machine.spool[t]);
    assert Exposed(machine) && t in machine.view.rows ==> ViewStands(tip, k, machine, t);
  }

  /**
   * A reassignment is careful, and so leaves the fleet consistent, exactly when the row names that machine already or
   * the machine it names has the row neither spooled nor being taken nor on offer to its next offline launch.
   */
  lemma ReassignIsCarefulIff(s: Fleet, m: string, name: string, seen: Row, to: string)
    requires Consistent(s) && m in s.machines && MayLand(s, m, ReassignOp(name, seen, to))
    ensures
      var op := ReassignOp(name, seen, to);
      var free := forall k | k in s.machines && seen.machine == Some(k) :: !Needs(k, s.machines[k], name);
      && (Careful(s, Land(m, op)) <==> seen.machine == Some(to) || free)
      && (Consistent(Landed(s, m, op, s.machines[m].lock)) <==> seen.machine == Some(to) || free)
  {
    hide RowProblem, Choices, Guard, Apply, Altered, Consistent, Landed, Needs;
    LandStandsIff(s, m, ReassignOp(name, seen, to));
    ReassignAlters(s, m, name, seen, to);
    forall k | k in s.machines && Needs(k, s.machines[k], name) ensures seen.machine == Some(k) {
      StoodAt(s, k);
      NeedsItsOwn(s.tip, k, s.machines[k], name);
    }
  }

  lemma ReassignAlters(s: Fleet, m: string, name: string, seen: Row, to: string)
    requires m in s.machines && MayLand(s, m, ReassignOp(name, seen, to))
    ensures Get(s.tip.rows, name) == Some(seen)
    ensures Altered(s, m, ReassignOp(name, seen, to)) == if seen.machine == Some(to) then {} else {name}
  {
    hide RowProblem;
  }
}

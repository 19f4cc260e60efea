/** One step of the fleet at a time: a careful step keeps the views, the spools, the locks and the tip in agreement. */
module FleetSteps {
  import opened Wrappers
  import opened StringOrder
  import opened Rows
  import opened Registry
  import opened Allocation
  import opened Release
  import opened Ledger
  import opened Spool
  import opened Operations
  import opened Fleet

  /** What machine `m` counts on of `t` is as it was: its entry stands, and its lock and its view find the same row. */
  ghost predicate Kept(tip: Tree, after: Tree, m: string, machine: Machine, t: string) {
    && (t in machine.spool ==> EntryStands(after, m, t, machine.spool[t]))
    && (IsTaking(machine, t) || machine.lock == Publishing(Some(t)) ==> Get(after.rows, t) == Get(tip.rows, t))
    && OfferKept(tip, after, m, machine, t)
  }

  /** A spare this view offers is as it was. */
  predicate OfferKept(tip: Tree, after: Tree, m: string, machine: Machine, t: string) {
    Exposed(machine) && Offers(m, machine, t) ==> Get(after.rows, t) == Get(tip.rows, t)
  }

  /** A machine as its own landing leaves it: it knows the new tip, its lock is as given, its ref has not moved. */
  function Left(machine: Machine, after: Tree, lock: Lock): Machine {
    machine.(seen := machine.seen + {after}, lock := lock)
  }

  /** A machine stands after a landing exactly when its entries, its lock and what its view still offers do. */
  lemma LeftStands(tip: Tree, after: Tree, m: string, machine: Machine, lock: Lock)
    requires MachineStands(tip, m, machine) && RowsFit(after)
    requires Exposed(Left(machine, after, lock)) == Exposed(machine)
    ensures MachineStands(after, m, Left(machine, after, lock))
            <==> (&& (forall t | t in machine.spool :: EntryStands(after, m, t, machine.spool[t]))
                  && LockStands(after, m, Left(machine, after, lock))
                  && forall t | t in machine.view.rows :: OfferKept(tip, after, m, machine, t))
  {
    hide RowProblem, RowsFit, EntryStands, LockStands;
    var left := Left(machine, after, lock);
    if Exposed(machine) {
      forall t | t in machine.view.rows
        ensures ViewStands(after, m, left, t) <==> OfferKept(tip, after, m, machine, t)
      {
        assert ViewStands(tip, m, machine, t);
      }
    }
  }

  /** A lock that stood still stands when what it counts on is kept. */
  lemma LockKept(tip: Tree, after: Tree, m: string, machine: Machine)
    requires LockStands(tip, m, machine) && forall t :: Kept(tip, after, m, machine, t)
    ensures LockStands(after, m, machine)
  {
    hide RowProblem, EntryStands, OfferKept;
    match machine.lock {
      case Taking(spare) => assert Kept(tip, after, m, machine, spare.token);
      case Publishing(done) =>
        if done.Some? {
          assert Kept(tip, after, m, machine, done.value);
        }
      case _ =>
    }
  }

  lemma SameRowIsKept(tip: Tree, after: Tree, m: string, machine: Machine, t: string)
    requires MachineStands(tip, m, machine)
    requires t in tip.rows ==> Get(after.rows, t) == Some(tip.rows[t])
    ensures Kept(tip, after, m, machine, t)
  {
    hide RowProblem, RowsFit;
    assert t in machine.spool ==> EntryStands(tip, m, t, machine.spool[t]);
    assert Exposed(machine) && t in machine.view.rows ==> ViewStands(tip, m, machine, t);
  }

  /** What a machine counts on is its own, so another machine's row may go. */
  lemma OthersRowIsKept(tip: Tree, after: Tree, m: string, machine: Machine, t: string, writer: string)
    requires MachineStands(tip, m, machine) && m != writer
    requires t in tip.rows && tip.rows[t].machine == Some(writer)
    ensures Kept(tip, after, m, machine, t)
  {
    hide RowProblem, RowsFit;
    assert t in machine.spool ==> EntryStands(tip, m, t, machine.spool[t]);
    assert Exposed(machine) && t in machine.view.rows ==> ViewStands(tip, m, machine, t);
  }

  lemma ItsLockStands(tip: Tree, m: string, machine: Machine)
    requires MachineStands(tip, m, machine)
    ensures LockStands(tip, m, machine)
  {
  }

  /** A machine for which all is kept stands. */
  lemma KeptStands(tip: Tree, after: Tree, m: string, machine: Machine)
    requires MachineStands(tip, m, machine) && RowsFit(after)
    requires forall t :: Kept(tip, after, m, machine, t)
    ensures MachineStands(after, m, machine)
  {
    hide RowProblem, RowsFit, MachineStands, EntryStands, LockStands, OfferKept, Left;
    ItsLockStands(tip, m, machine);
    LockKept(tip, after, m, machine);
    forall t | t in machine.spool ensures EntryStands(after, m, t, machine.spool[t]) {
      assert Kept(tip, after, m, machine, t);
    }
    forall t | t in machine.view.rows ensures OfferKept(tip, after, m, machine, t) {
      assert Kept(tip, after, m, machine, t);
    }
    LockOfLeft(tip, after, m, machine);
    LeftStands(tip, after, m, machine, machine.lock);
    LeftAlone(after, m, machine, after);
  }

  lemma LockOfLeft(tip: Tree, after: Tree, m: string, machine: Machine)
    ensures LockStands(after, m, Left(machine, after, machine.lock)) == LockStands(after, m, machine)
    ensures Exposed(Left(machine, after, machine.lock)) == Exposed(machine)
  {
    hide RowProblem;
  }

  /** Knowing one more tip whose rows fit changes nothing about a machine. */
  lemma LeftAlone(tip: Tree, m: string, machine: Machine, known: Tree)
    requires RowsFit(known)
    ensures MachineStands(tip, m, Left(machine, known, machine.lock)) <==> MachineStands(tip, m, machine)
  {
    hide RowProblem, RowsFit, EntryStands;
    var left := Left(machine, known, machine.lock);
    if MachineStands(tip, m, left) || MachineStands(tip, m, machine) {
      assert forall tree | tree in machine.seen :: tree in left.seen;
      forall t | t in machine.view.rows ensures ViewStands(tip, m, left, t) == ViewStands(tip, m, machine, t) {
      }
    }
  }

  /** The commit leaves a held row as it was just when it does not alter it. */
  lemma UnalteredIsSame(s: Fleet, m: string, op: Op, t: string)
    requires m in s.machines && MayLand(s, m, op) && t in s.tip.rows
    ensures Get(Apply(s.tip, ChangeOf(s, m, op)).rows, t) == Some(s.tip.rows[t]) <==> t !in Altered(s, m, op)
  {
    hide RowProblem, Guard, Choices;
  }

  lemma AlteredIsHeld(s: Fleet, m: string, op: Op, t: string)
    requires m in s.machines && MayLand(s, m, op) && t in Altered(s, m, op)
    ensures t in s.tip.rows
  {
    hide RowProblem, Guard, Choices;
  }

  /** A landing leaves the fleet consistent exactly when it leaves every machine standing. */
  lemma FleetStands(s: Fleet, m: string, op: Op, lock: Lock)
    requires Consistent(s) && m in s.machines && MayLand(s, m, op)
    ensures
      var after := Apply(s.tip, ChangeOf(s, m, op));
      Consistent(Landed(s, m, op, lock))
      <==> (&& MachineStands(after, m, Left(s.machines[m], after, lock))
            && forall k | k in s.machines && k != m :: MachineStands(after, k, s.machines[k]))
  {
    hide RowProblem, Guard, Choices, RowsFit, MachineStands, Apply;
    RowsStayFitAt(s, m, op);
    var s' := Landed(s, m, op, lock);
    assert s'.machines[m] == Left(s.machines[m], s'.tip, lock);
    assert forall k | k in s.machines && k != m :: s'.machines[k] == s.machines[k];
  }

  /** Outside the spool lock a landing leaves the locks as they were. */
  lemma EveryMachineStands(s: Fleet, m: string, op: Op)
    requires Consistent(s) && m in s.machines && MayLand(s, m, op)
    ensures
      var after := Apply(s.tip, ChangeOf(s, m, op));
      Consistent(Landed(s, m, op, s.machines[m].lock))
      <==> forall k | k in s.machines :: MachineStands(after, k, s.machines[k])
  {
    hide RowProblem, Guard, Choices, RowsFit, MachineStands, Apply, Left, Landed, Consistent;
    RowsStayFitAt(s, m, op);
    FleetStands(s, m, op, s.machines[m].lock);
    LeftAlone(Apply(s.tip, ChangeOf(s, m, op)), m, s.machines[m], Apply(s.tip, ChangeOf(s, m, op)));
  }

  /** Whom a commit leaves standing at one token, outside the spool lock. */
  lemma UnreliedIsKept(s: Fleet, m: string, op: Op, k: string, t: string)
    requires Consistent(s) && m in s.machines && MayLand(s, m, op) && Careful(s, Land(m, op))
    requires k in s.machines
    ensures Kept(s.tip, Apply(s.tip, ChangeOf(s, m, op)), k, s.machines[k], t)
  {
    hide RowProblem, Guard, Choices, RowsFit, MachineStands, Apply, Altered, EntryStands;
    if t in Altered(s, m, op) {
      assert !ReliedOn(s, t);
      assert !Needs(k, s.machines[k], t);
      PublishedIsSpooled(s, k, t);
    } else {
      if t in s.tip.rows {
        UnalteredIsSame(s, m, op, t);
      }
      SameRowIsKept(s.tip, Apply(s.tip, ChangeOf(s, m, op)), k, s.machines[k], t);
    }
  }

  lemma PublishedIsSpooled(s: Fleet, k: string, t: string)
    requires Consistent(s) && k in s.machines
    ensures s.machines[k].lock == Publishing(Some(t)) ==> t in s.machines[k].spool
  {
    hide RowProblem, RowsFit, EntryStands, ViewsStand;
    assert MachineStands(s.tip, k, s.machines[k]);
  }

  /** Outside the spool lock, a commit that alters no row somebody counts on keeps the fleet consistent. */
  lemma LandStands(s: Fleet, m: string, op: Op)
    requires Consistent(s) && m in s.machines && MayLand(s, m, op) && Careful(s, Land(m, op))
    ensures Consistent(Landed(s, m, op, s.machines[m].lock))
  {
    hide RowProblem, Guard, Choices, RowsFit, MachineStands, Apply, Careful, Kept, Landed;
    var after := Apply(s.tip, ChangeOf(s, m, op));
    RowsStayFitAt(s, m, op);
    forall k | k in s.machines ensures MachineStands(after, k, s.machines[k]) {
      forall t ensures Kept(s.tip, after, k, s.machines[k], t) {
        UnreliedIsKept(s, m, op, k, t);
      }
      KeptStands(s.tip, after, k, s.machines[k]);
    }
    EveryMachineStands(s, m, op);
  }

  /** Altering a row somebody counts on breaks the agreement. */
  lemma CarelessLandBreaks(s: Fleet, m: string, op: Op, k: string, t: string)
    requires Consistent(s) && m in s.machines && MayLand(s, m, op) && !UnderLock(op)
    requires t in Altered(s, m, op) && k in s.machines && Needs(k, s.machines[k], t)
    ensures !Consistent(Landed(s, m, op, s.machines[m].lock))
  {
    hide RowProblem, Guard, Choices, RowsFit, MachineStands, Apply, Altered, EntryStands, Consistent, Landed, Offers,
         Exposed;
    var after, machine := Apply(s.tip, ChangeOf(s, m, op)), s.machines[k];
    AlteredIsHeld(s, m, op, t);
    UnalteredIsSame(s, m, op, t);
    EveryMachineStands(s, m, op);
    StoodAt(s, k);
    if MachineStands(after, k, machine) {
      if t in machine.spool {
        SpooledRowBreaks(s, m, op, k, t);
        ItsEntryStands(after, k, machine, t);
      } else {
        NeededIsSame(s.tip, after, k, machine, t);
      }
    }
  }

  lemma ItsEntryStands(tip: Tree, m: string, machine: Machine, t: string)
    requires MachineStands(tip, m, machine) && t in machine.spool
    ensures EntryStands(tip, m, t, machine.spool[t])
  {
    hide RowProblem, RowsFit, EntryStands, LockStands, ViewsStand;
  }

  /** A machine that takes or offers a spare and stands on both tips finds the same row on both. */
  lemma NeededIsSame(tip: Tree, after: Tree, m: string, machine: Machine, t: string)
    requires MachineStands(tip, m, machine) && MachineStands(after, m, machine)
    requires t !in machine.spool && Needs(m, machine, t)
    ensures Get(after.rows, t) == Get(tip.rows, t)
  {
    hide RowProblem, RowsFit, EntryStands;
    if !IsTaking(machine, t) {
      assert ViewStands(tip, m, machine, t) && ViewStands(after, m, machine, t);
    }
  }

  lemma StoodAt(s: Fleet, k: string)
    requires Consistent(s) && k in s.machines
    ensures MachineStands(s.tip, k, s.machines[k])
  {
    hide RowsFit, MachineStands;
  }

  /** No operation but a publication or a reconcile turns a row into another that a spooled entry stands on. */
  lemma SpooledRowBreaks(s: Fleet, m: string, op: Op, k: string, t: string)
    requires Consistent(s) && m in s.machines && MayLand(s, m, op) && !UnderLock(op)
    requires k in s.machines && t in s.machines[k].spool && t in Altered(s, m, op)
    ensures !EntryStands(Apply(s.tip, ChangeOf(s, m, op)), k, t, s.machines[k].spool[t])
  {
    hide RowProblem, Guard, Choices, RowsFit, ViewsStand, LockStands, Apply, Altered;
    AlteredIsHeld(s, m, op, t);
    UnalteredIsSame(s, m, op, t);
    assert MachineStands(s.tip, k, s.machines[k]);
    assert EntryStands(s.tip, k, t, s.machines[k].spool[t]);
    var effect := OpEffect(op, m, s.tip, s.machines[m].spool, ChangeOf(s, m, op), t);
  }

  /** Outside the spool lock the condition is exact. */
  lemma LandStandsIff(s: Fleet, m: string, op: Op)
    requires Consistent(s) && m in s.machines && MayLand(s, m, op) && !UnderLock(op)
    ensures Consistent(Landed(s, m, op, s.machines[m].lock)) <==> forall t | t in Altered(s, m, op) :: !ReliedOn(s, t)
  {
    hide RowProblem, Guard, Choices, RowsFit, Consistent, Apply, Altered, Needs, Landed;
    if Careful(s, Land(m, op)) {
      LandStands(s, m, op);
    } else {
      var t :| t in Altered(s, m, op) && ReliedOn(s, t);
      var k :| k in s.machines && Needs(k, s.machines[k], t);
      CarelessLandBreaks(s, m, op, k, t);
    }
  }

  /** A machine under the spool lock writes only rows nobody holds or its own. */
  lemma UnderLockWritesOwn(tip: Tree, m: string, op: Op, read: map<string, Row>, t: string)
    requires RowsFit(tip) && MayLandOn(tip, m, op, read) && UnderLock(op) && t in tip.rows
    ensures Get(Apply(tip, ChangeOn(tip, m, op, read)).rows, t) == Some(tip.rows[t]) || tip.rows[t].machine == Some(m)
  {
    hide RowProblem, Guard, Choices, RowsFit, Apply;
    var effect := OpEffect(op, m, tip, read, ChangeOn(tip, m, op, read), t);
    if op.ReconcileOp? && effect.Dropped? {
      DroppedIsOwn(op, m, tip, read, ChangeOn(tip, m, op, read), t);
    }
  }

  lemma DroppedIsOwn(op: Op, m: string, tip: Tree, spool: map<string, Row>, change: Change, t: string)
    requires op.ReconcileOp? && Guard(op, m, tip, spool) == Write(change) && t in tip.rows
    requires Get(Apply(tip, change).rows, t).None?
    ensures tip.rows[t].machine == Some(m)
  {
    hide RowProblem, ReconcileRelease, Apply, PublishedPolicy, Renaming;
    AfterRelease(tip, m, op.hostAlias, op.candidates, op.spareRows, spool, op.added, op.now, change, t);
  }

  /** So every other machine stands. */
  lemma OthersStand(s: Fleet, m: string, op: Op, read: map<string, Row>)
    requires Consistent(s) && m in s.machines && MayLandOn(s.tip, m, op, read) && UnderLock(op)
    ensures forall k | k in s.machines && k != m ::
              MachineStands(Apply(s.tip, ChangeOn(s.tip, m, op, read)), k, s.machines[k])
  {
    hide RowProblem, Guard, Choices, RowsFit, MachineStands, Apply, Kept, UnderLock, SentStands;
    var after := Apply(s.tip, ChangeOn(s.tip, m, op, read));
    RowsStayFit(op, m, s.tip, read, ChangeOn(s.tip, m, op, read));
    forall k | k in s.machines && k != m ensures MachineStands(after, k, s.machines[k]) {
      forall t ensures Kept(s.tip, after, k, s.machines[k], t) {
        if t in s.tip.rows {
          UnderLockWritesOwn(s.tip, m, op, read, t);
        }
        if t in s.tip.rows && Get(after.rows, t) != Some(s.tip.rows[t]) {
          OthersRowIsKept(s.tip, after, k, s.machines[k], t, m);
        } else {
          SameRowIsKept(s.tip, after, k, s.machines[k], t);
        }
      }
      KeptStands(s.tip, after, k, s.machines[k]);
    }
  }

  /** Under the lock no offline launch reads the view, so a landing leaves a consistent fleet when its entries stand. */
  lemma LockedLandingStands(s: Fleet, m: string, op: Op, lock: Lock)
    requires Consistent(s) && m in s.machines && MayLand(s, m, op) && UnderLock(op)
    requires !Exposed(s.machines[m]) && !lock.Open? && !lock.Taking?
    ensures
      var after := Apply(s.tip, ChangeOf(s, m, op));
      Consistent(Landed(s, m, op, lock))
      <==> (&& (forall t | t in s.machines[m].spool :: EntryStands(after, m, t, s.machines[m].spool[t]))
            && LockStands(after, m, Left(s.machines[m], after, lock)))
  {
    hide RowProblem, Guard, Choices, RowsFit, MachineStands, Apply, EntryStands, LockStands, Landed, Consistent;
    var after := Apply(s.tip, ChangeOf(s, m, op));
    RowsStayFitAt(s, m, op);
    OthersStand(s, m, op, s.machines[m].spool);
    FleetStands(s, m, op, lock);
    StoodAt(s, m);
    LeftStands(s.tip, after, m, s.machines[m], lock);
  }

  /** A publication that lands keeps the fleet consistent: the ref lags until it moves, but no launch reads it yet. */
  lemma PublishStands(s: Fleet, m: string, token: string)
    requires Consistent(s) && m in s.machines && MayLand(s, m, PublishOp(token))
    requires s.machines[m].lock == Publishing(None)
    ensures Consistent(Landed(s, m, PublishOp(token), Publishing(Some(token))))
  {
    hide RowProblem, Guard, Choices, RowsFit, Apply, EntryStands, Landed, Consistent;
    LockedLandingStands(s, m, PublishOp(token), Publishing(Some(token)));
    PublishedAt(s, m, token, token);
    forall t | t in s.machines[m].spool
      ensures EntryStands(Apply(s.tip, ChangeOf(s, m, PublishOp(token))), m, t, s.machines[m].spool[t])
    {
      PublishedAt(s, m, token, t);
    }
  }

  lemma PublishedAt(s: Fleet, m: string, token: string, t: string)
    requires Consistent(s) && m in s.machines && MayLand(s, m, PublishOp(token))
    ensures
      var after, spool := Apply(s.tip, ChangeOf(s, m, PublishOp(token))), s.machines[m].spool;
      && token in spool && Get(after.rows, token) == Some(spool[token])
      && (t in spool ==> EntryStands(after, m, t, spool[t]))
  {
    hide RowProblem, RowsFit, ViewsStand, LockStands, PublishEntry, Apply;
    assert MachineStands(s.tip, m, s.machines[m]);
    var spool := s.machines[m].spool;
    PublishOutcome(s.tip, m, token, spool[token]);
    assert t in spool ==> EntryStands(s.tip, m, t, spool[t]);
    assert EntryStands(s.tip, m, token, spool[token]);
  }

  /** What a release leaves of one spooled entry. */
  lemma ReleasedAt(s: Fleet, m: string, op: Op, t: string)
    requires Consistent(s) && m in s.machines && op.ReconcileOp? && MayLand(s, m, op) && t in s.machines[m].spool
    ensures EntryStands(Apply(s.tip, ChangeOf(s, m, op)), m, t, s.machines[m].spool[t])
            <==> (t in Released(s.tip, m, op.candidates) ==> Respares(op, m, t, s.machines[m].spool[t]))
  {
    hide RowProblem, RowsFit, LockStands, ViewsStand, Apply, ReconcileRelease, ReconcileChoices, PublishedPolicy,
         Renaming, OnlyActivationDiffers, OverLimits;
    var machine := s.machines[m];
    AfterRelease(s.tip, m, op.hostAlias, op.candidates, op.spareRows, machine.spool, op.added, op.now,
                 ChangeOf(s, m, op), t);
    if t in op.added {
      AddedWasFree(s.tip, m, op.hostAlias, op.vocabulary, op.candidates, op.spareRows, machine.spool, op.added, t);
    }
    assert MachineStands(s.tip, m, machine);
    assert EntryStands(s.tip, m, t, machine.spool[t]);
  }

  /** A release keeps the fleet consistent exactly when it makes every spooled token it lets go the same spare again. */
  lemma ReleaseStandsIff(s: Fleet, m: string, op: Op)
    requires Consistent(s) && m in s.machines && op.ReconcileOp? && MayLand(s, m, op) && s.machines[m].lock.Releasing?
    ensures Consistent(Landed(s, m, op, Releasing))
            <==> forall t | t in Released(s.tip, m, op.candidates) && t in s.machines[m].spool ::
                   Respares(op, m, t, s.machines[m].spool[t])
  {
    hide RowProblem, Guard, Choices, RowsFit, Apply, EntryStands, Respares, StillReleasable, Landed, Consistent;
    var machine := s.machines[m];
    LockedLandingStands(s, m, op, Releasing);
    forall t | t in machine.spool
      ensures EntryStands(Apply(s.tip, ChangeOf(s, m, op)), m, t, machine.spool[t])
              <==> (t in Released(s.tip, m, op.candidates) ==> Respares(op, m, t, machine.spool[t]))
    {
      ReleasedAt(s, m, op, t);
    }
  }

  /** A late landing leaves every machine as it was, and all but its own standing. */
  lemma LateStands(s: Fleet, m: string, op: Op, read: map<string, Row>)
    requires Consistent(s) && m in s.machines && MayLandOn(s.tip, m, op, read) && UnderLock(op)
    ensures
      var after := Apply(s.tip, ChangeOn(s.tip, m, op, read));
      && RowsFit(after)
      && (Consistent(Fleet(after, s.machines, {})) <==> MachineStands(after, m, s.machines[m]))
  {
    hide RowProblem, Guard, Choices, RowsFit, MachineStands, Apply, UnderLock, SentStands;
    RowsStayFit(op, m, s.tip, read, ChangeOn(s.tip, m, op, read));
    OthersStand(s, m, op, read);
  }

  /** A publication still on its way would turn a spare into the very entry that is spooled. */
  lemma SentEntry(s: Fleet, m: string, token: string, read: map<string, Row>)
    requires Consistent(s) && Sent(m, PublishOp(token), read) in s.sent
    ensures m in s.machines && MayLandOn(s.tip, m, PublishOp(token), read)
    ensures token in s.machines[m].spool && token in read && s.machines[m].spool[token] == read[token]
    ensures token in s.tip.rows && s.tip.rows[token].kind.Spare? && IsSpareOf(s.tip.rows[token], m)
    ensures Apply(s.tip, ChangeOn(s.tip, m, PublishOp(token), read)).rows == s.tip.rows[token := read[token]]
  {
    hide RowProblem, RowsFit, MachineStands, Apply;
    assert SentStands(s.tip, s.machines, Sent(m, PublishOp(token), read));
    PublishOutcome(s.tip, m, token, read[token]);
  }

  /** A publication may land late: its entry is still spooled, so nobody is offered its spare. */
  lemma LatePublicationStands(s: Fleet, m: string, token: string, read: map<string, Row>)
    requires Consistent(s) && Sent(m, PublishOp(token), read) in s.sent
    ensures m in s.machines && MayLandOn(s.tip, m, PublishOp(token), read)
    ensures Consistent(Fleet(Apply(s.tip, ChangeOn(s.tip, m, PublishOp(token), read)), s.machines, {}))
  {
    hide RowProblem, Guard, Choices, RowsFit, MachineStands, Apply, EntryStands, SentStands, Consistent;
    SentEntry(s, m, token, read);
    LateStands(s, m, PublishOp(token), read);
    StoodAt(s, m);
    var after, machine := Apply(s.tip, ChangeOn(s.tip, m, PublishOp(token), read)), s.machines[m];
    forall t ensures Kept(s.tip, after, m, machine, t) {
      if t == token {
        SoldIsKept(s.tip, after, m, machine, t);
      } else {
        SameRowIsKept(s.tip, after, m, machine, t);
      }
    }
    KeptStands(s.tip, after, m, machine);
  }

  lemma SoldIsKept(tip: Tree, after: Tree, m: string, machine: Machine, t: string)
    requires MachineStands(tip, m, machine) && t in machine.spool && Get(after.rows, t) == Some(machine.spool[t])
    requires t in tip.rows && tip.rows[t].kind.Spare?
    ensures Kept(tip, after, m, machine, t)
  {
    hide RowProblem, RowsFit;
    assert EntryStands(tip, m, t, machine.spool[t]);
  }

  /** What a late release makes of a row it alters: the same token's spare, or nothing. */
  lemma LateReleaseAt(tip: Tree, m: string, op: Op, read: map<string, Row>, t: string)
    requires RowsFit(tip) && op.ReconcileOp? && MayLandOn(tip, m, op, read)
    requires t in AlteredOn(tip, ChangeOn(tip, m, op, read))
    ensures t in tip.rows
    ensures
      var row := Get(Apply(tip, ChangeOn(tip, m, op, read)).rows, t);
      row != Get(tip.rows, t) && row == if t in op.added then Some(SpareRow(t, op.hostAlias, m, op.now)) else None
  {
    hide RowProblem, RowsFit, Choices, ReconcileRelease, PublishedPolicy, StillReleasable, SpareStillOver;
    var change := ChangeOn(tip, m, op, read);
    AfterRelease(tip, m, op.hostAlias, op.candidates, op.spareRows, read, op.added, op.now, change, t);
  }

  /** A row a late release alters leaves its machine standing on that token exactly when `LateKeeps` says so. */
  lemma LateKeepsIff(tip: Tree, m: string, op: Op, read: map<string, Row>, machine: Machine, t: string)
    requires RowsFit(tip) && op.ReconcileOp? && MayLandOn(tip, m, op, read) && MachineStands(tip, m, machine)
    requires t in AlteredOn(tip, ChangeOn(tip, m, op, read))
    ensures Kept(tip, Apply(tip, ChangeOn(tip, m, op, read)), m, machine, t) <==> LateKeeps(m, op, machine, t)
  {
    hide RowProblem, RowsFit, Choices, Guard, Apply, AlteredOn;
    LateReleaseAt(tip, m, op, read, t);
    assert t in machine.spool ==> EntryStands(tip, m, t, machine.spool[t]);
  }

  /** What a machine keeps standing on both tips is kept, token by token. */
  lemma StandsKept(tip: Tree, after: Tree, m: string, machine: Machine, t: string)
    requires MachineStands(tip, m, machine) && MachineStands(after, m, machine)
    ensures Kept(tip, after, m, machine, t)
  {
    hide RowProblem, RowsFit;
    if Exposed(machine) && Offers(m, machine, t) {
      assert ViewStands(tip, m, machine, t) && ViewStands(after, m, machine, t);
    }
  }

  /**
   * A release that lands late, its writer gone, keeps the fleet consistent exactly when of the rows it alters its
   * machine counts by then on none but spooled ones that it makes the same spare of again.
   */
  lemma LateReleaseStandsIff(s: Fleet, m: string, op: Op, read: map<string, Row>)
    requires Consistent(s) && m in s.machines && op.ReconcileOp? && MayLandOn(s.tip, m, op, read)
    ensures Consistent(Fleet(Apply(s.tip, ChangeOn(s.tip, m, op, read)), s.machines, {}))
            <==> forall t | t in AlteredOn(s.tip, ChangeOn(s.tip, m, op, read)) :: LateKeeps(m, op, s.machines[m], t)
  {
    hide RowProblem, Guard, Choices, RowsFit, MachineStands, Apply, Kept, LateKeeps, SentStands, Consistent, AlteredOn;
    LateStands(s, m, op, read);
    ItsRowsFit(s);
    StoodAt(s, m);
    var after, machine := Apply(s.tip, ChangeOn(s.tip, m, op, read)), s.machines[m];
    forall t | t in AlteredOn(s.tip, ChangeOn(s.tip, m, op, read))
      ensures Kept(s.tip, after, m, machine, t) <==> LateKeeps(m, op, machine, t)
    {
      LateKeepsIff(s.tip, m, op, read, machine, t);
    }
    forall t | t !in AlteredOn(s.tip, ChangeOn(s.tip, m, op, read)) ensures Kept(s.tip, after, m, machine, t) {
      UnalteredStays(s.tip, m, op, read, t);
      SameRowIsKept(s.tip, after, m, machine, t);
    }
    if MachineStands(after, m, machine) {
      forall t ensures Kept(s.tip, after, m, machine, t) {
        StandsKept(s.tip, after, m, machine, t);
      }
    } else if forall t :: Kept(s.tip, after, m, machine, t) {
      KeptStands(s.tip, after, m, machine);
    }
  }

  lemma ItsRowsFit(s: Fleet)
    requires Consistent(s)
    ensures RowsFit(s.tip)
  {
  }

  lemma UnalteredStays(tip: Tree, m: string, op: Op, read: map<string, Row>, t: string)
    requires MayLandOn(tip, m, op, read) && t !in AlteredOn(tip, ChangeOn(tip, m, op, read))
    ensures t in tip.rows ==> Get(Apply(tip, ChangeOn(tip, m, op, read)).rows, t) == Some(tip.rows[t])
  {
    hide RowProblem, Guard, Choices;
  }

  lemma SameButLock(tip: Tree, m: string, machine: Machine, lock: Lock, t: string)
    ensures ViewStands(tip, m, machine.(lock := lock), t) == ViewStands(tip, m, machine, t)
  {
  }

  lemma RowsStayFitAt(s: Fleet, writer: string, op: Op)
    requires Consistent(s) && writer in s.machines && MayLand(s, writer, op)
    ensures RowsFit(Apply(s.tip, ChangeOf(s, writer, op)))
  {
    hide RowProblem, Guard, Choices, RowsFit, MachineStands, Apply;
    RowsStayFit(op, writer, s.tip, s.machines[writer].spool, ChangeOf(s, writer, op));
  }

  /** The entries whose publication is still on its way are in this machine's spool as they are in its own. */
  ghost predicate SentKept(s: Fleet, m: string, machine: Machine)
    requires m in s.machines
  {
    forall x | x in s.sent && x.m == m && x.op.PublishOp? ::
      Get(machine.spool, x.op.token) == Get(s.machines[m].spool, x.op.token)
  }

  /** A change to one machine alone keeps the fleet consistent exactly when that machine stands. */
  lemma OneMachineStands(s: Fleet, m: string, machine: Machine)
    requires Consistent(s) && m in s.machines && SentKept(s, m, machine)
    ensures Consistent(WithMachine(s, m, machine)) <==> MachineStands(s.tip, m, machine)
  {
    hide RowsFit, MachineStands, MayLandOn;
    var s' := WithMachine(s, m, machine);
    assert s'.machines[m] == machine;
    forall x | x in s.sent ensures SentStands(s.tip, s'.machines, x) {
      assert SentStands(s.tip, s.machines, x);
    }
  }

  lemma TakeReadStands(s: Fleet, m: string, token: string)
    requires Consistent(s) && m in s.machines && Exposed(s.machines[m])
    requires FirstSpare(s.machines[m].view, m, s.machines[m].spool, token)
    ensures MachineStands(s.tip, m, s.machines[m].(lock := Taking(s.machines[m].view.rows[token])))
    ensures s.machines[m].view.rows[token].token == token
    ensures Get(s.tip.rows, token) == Some(s.machines[m].view.rows[token])
  {
    hide RowProblem, EntryStands, ComesBefore;
    var machine := s.machines[m];
    assert MachineStands(s.tip, m, machine);
    assert ViewStands(s.tip, m, machine, token);
    assert RowFits(token, machine.view.rows[token]);
    forall t | t in machine.view.rows
      ensures ViewStands(s.tip, m, machine.(lock := Taking(machine.view.rows[token])), t)
    {
      SameButLock(s.tip, m, machine, Taking(machine.view.rows[token]), t);
    }
  }

  lemma TakeWriteStands(s: Fleet, m: string, slot: Slot, now: string)
    requires Consistent(s) && m in s.machines && s.machines[m].lock.Taking?
    requires RowProblem(Activate(s.machines[m].lock.spare, slot, now)).None?
    ensures MachineStands(s.tip, m, s.machines[m].(
                spool := s.machines[m].spool[s.machines[m].lock.spare.token
                                             := Activate(s.machines[m].lock.spare, slot, now)],
                lock := Open))
  {
    hide RowProblem, RowsFit;
    var machine := s.machines[m];
    var spare := machine.lock.spare;
    assert MachineStands(s.tip, m, machine);
    assert RowFits(spare.token, spare) && IsSpareOf(spare, m);
    ActivationPasses(spare, slot, now);
    var taken := machine.(spool := machine.spool[spare.token := Activate(spare, slot, now)], lock := Open);
    forall t | t in taken.spool ensures EntryStands(s.tip, m, t, taken.spool[t]) {
      assert t != spare.token ==> EntryStands(s.tip, m, t, machine.spool[t]);
    }
    forall t | t in taken.view.rows ensures ViewStands(s.tip, m, taken, t) {
      assert ViewStands(s.tip, m, machine, t);
    }
  }

  /** An offline launch adds an entry that no publication on its way is about. */
  lemma TakeKeepsSent(s: Fleet, m: string, row: Row)
    requires Consistent(s) && m in s.machines && s.machines[m].lock.Taking?
    ensures SentKept(s, m, s.machines[m].(spool := s.machines[m].spool[s.machines[m].lock.spare.token := row],
                                          lock := Open))
  {
    hide RowProblem, RowsFit, MachineStands, MayLandOn;
    StoodAt(s, m);
    ItsLockStands(s.tip, m, s.machines[m]);
    forall x | x in s.sent && x.m == m && x.op.PublishOp? ensures x.op.token in s.machines[m].spool {
      SentEntry(s, m, x.op.token, x.read);
    }
  }

  /** An entry is unlinked once its row is no spare, so no publication on its way is about it. */
  lemma UnlinkKeepsSent(s: Fleet, m: string)
    requires Consistent(s) && m in s.machines && s.machines[m].lock.Publishing? && s.machines[m].lock.done.Some?
    ensures SentKept(s, m, s.machines[m].(spool := s.machines[m].spool - {s.machines[m].lock.done.value},
                                          lock := Publishing(None)))
  {
    hide RowProblem, RowsFit, MachineStands, MayLandOn, EntryStands;
    StoodAt(s, m);
    ItsLockStands(s.tip, m, s.machines[m]);
    ItsEntryStands(s.tip, m, s.machines[m], s.machines[m].lock.done.value);
    EntryIsNoSpare(s.tip, m, s.machines[m].lock.done.value, s.machines[m].spool[s.machines[m].lock.done.value]);
    forall x | x in s.sent && x.m == m && x.op.PublishOp? ensures x.op.token != s.machines[m].lock.done.value {
      SentEntry(s, m, x.op.token, x.read);
    }
  }

  lemma EntryIsNoSpare(tip: Tree, m: string, t: string, entry: Row)
    requires EntryStands(tip, m, t, entry)
    ensures !entry.kind.Spare?
  {
    hide RowProblem;
  }

  lemma UnlinkStands(s: Fleet, m: string)
    requires Consistent(s) && m in s.machines && s.machines[m].lock.Publishing? && s.machines[m].lock.done.Some?
    ensures MachineStands(s.tip, m, s.machines[m].(
                spool := s.machines[m].spool - {s.machines[m].lock.done.value}, lock := Publishing(None)))
  {
    hide RowProblem, RowsFit;
    var machine := s.machines[m];
    var done := machine.lock.done.value;
    assert MachineStands(s.tip, m, machine);
    assert EntryStands(s.tip, m, done, machine.spool[done]);
    var unlinked := machine.(spool := machine.spool - {done}, lock := Publishing(None));
    forall t | t in unlinked.spool ensures EntryStands(s.tip, m, t, unlinked.spool[t]) {
      assert EntryStands(s.tip, m, t, machine.spool[t]);
    }
  }

  /** Taking or releasing a lock that promises nothing: what the view then exposes has to stand. */
  lemma IdleLockStandsIff(s: Fleet, m: string, lock: Lock)
    requires Consistent(s) && m in s.machines && (lock.Open? || lock.Releasing? || lock == Publishing(None))
    ensures MachineStands(s.tip, m, s.machines[m].(lock := lock))
            <==> (lock.Open? && !Exposed(s.machines[m]) ==> OffersStand(s.tip, m, s.machines[m], s.machines[m].view))
  {
    hide RowProblem, RowsFit, EntryStands;
    var machine := s.machines[m];
    assert MachineStands(s.tip, m, machine);
    OffersAreTheView(s.tip, m, machine.(lock := lock));
    if Exposed(machine) {
      OffersAreTheView(s.tip, m, machine);
    }
  }

  /** A view stands exactly when all it offers does. */
  lemma OffersAreTheView(tip: Tree, m: string, machine: Machine)
    ensures ViewsStand(tip, m, machine) <==> OffersStand(tip, m, machine, machine.view)
    ensures forall lock: Lock :: OffersStand(tip, m, machine.(lock := lock), machine.view)
                                 == OffersStand(tip, m, machine, machine.view)
  {
    if ViewsStand(tip, m, machine) {
      forall t | t in machine.view.rows && IsSpareOf(machine.view.rows[t], m) && t !in machine.spool
        ensures Get(tip.rows, t) == Some(machine.view.rows[t])
      {
        assert ViewStands(tip, m, machine, t);
      }
    }
  }

  /** An entry found published may be unlinked exactly when it is so at the tip too. */
  lemma SeenStandsIff(s: Fleet, m: string, t: string)
    requires Consistent(s) && m in s.machines && t in s.machines[m].spool && !Exposed(s.machines[m])
    ensures MachineStands(s.tip, m, s.machines[m].(lock := Publishing(Some(t))))
            <==> Get(s.tip.rows, t) == Some(s.machines[m].spool[t])
  {
    hide RowProblem, RowsFit, EntryStands, ViewsStand;
    assert MachineStands(s.tip, m, s.machines[m]);
  }

  lemma FetchStands(s: Fleet, m: string)
    requires Consistent(s) && m in s.machines
    ensures MachineStands(s.tip, m, s.machines[m].(seen := s.machines[m].seen + {s.tip}))
  {
    hide RowProblem, RowsFit, MachineStands;
    LeftAlone(s.tip, m, s.machines[m], s.tip);
    assert Left(s.machines[m], s.tip, s.machines[m].lock) == s.machines[m].(seen := s.machines[m].seen + {s.tip});
  }

  /**
   * Setting the private ref, to whichever tip: while no one publishes or reconciles it keeps the fleet consistent
   * exactly when each spare that tree offers, and that is not spooled, is still that row at the tip.
   */
  lemma MoveRefStandsIff(s: Fleet, m: string, tree: Tree)
    requires Consistent(s) && m in s.machines && tree in s.machines[m].seen
    ensures Consistent(WithMachine(s, m, s.machines[m].(view := tree)))
            <==> (Exposed(s.machines[m]) ==> OffersStand(s.tip, m, s.machines[m], tree))
  {
    hide RowProblem, RowsFit, EntryStands, Consistent;
    StoodAt(s, m);
    var moved := s.machines[m].(view := tree);
    OneMachineStands(s, m, moved);
    OffersAreTheView(s.tip, m, moved);
  }

  /** Unlocking after a publication or a reconcile, by a crash or not, is safe exactly when the ref has caught up. */
  lemma UnlockStandsIff(s: Fleet, m: string)
    requires Consistent(s) && m in s.machines
    ensures Consistent(WithMachine(s, m, s.machines[m].(lock := Open)))
            <==> (!Exposed(s.machines[m]) ==> OffersStand(s.tip, m, s.machines[m], s.machines[m].view))
  {
    hide RowProblem, RowsFit, MachineStands, Consistent, OffersStand;
    IdleLockStandsIff(s, m, Open);
    OneMachineStands(s, m, s.machines[m].(lock := Open));
  }

  lemma SentStays(s: Fleet, m: string, op: Op)
    requires Consistent(s) && m in s.machines && UnderLock(op) && MayLand(s, m, op)
    ensures Consistent(s.(sent := s.sent + {Sent(m, op, s.machines[m].spool)}))
  {
    hide RowProblem, RowsFit, MachineStands, Guard, Choices;
  }

  /** The other steps keep the fleet consistent whatever they do. */
  lemma LocalStepStands(s: Fleet, e: Event, s': Fleet)
    requires Consistent(s) && Next(s, e, s')
    requires e.FetchRead? || e.TakeRead? || e.TakeWrite? || e.PublishOpen? || e.Unlink? || e.ReleaseOpen?
    ensures Consistent(s')
  {
    hide RowProblem, RowsFit, MachineStands, Choices, Guard, Apply, FirstSpare, Consistent;
    match e {
      case FetchRead(m) => FetchStands(s, m);
      case TakeRead(m, token) => TakeReadStands(s, m, token);
      case TakeWrite(m, slot, now) =>
        TakeWriteStands(s, m, slot, now);
        TakeKeepsSent(s, m, Activate(s.machines[m].lock.spare, slot, now));
      case Unlink(m) =>
        UnlinkStands(s, m);
        UnlinkKeepsSent(s, m);
      case PublishOpen(m) => IdleLockStandsIff(s, m, Publishing(None));
      case ReleaseOpen(m) => IdleLockStandsIff(s, m, Releasing);
    }
    assert s' == WithMachine(s, e.m, s'.machines[e.m]);
    OneMachineStands(s, e.m, s'.machines[e.m]);
  }

  /** The condition is exact: a step from a consistent fleet leads to a consistent one just when it is careful. */
  lemma StepStandsIff(s: Fleet, e: Event, s': Fleet)
    requires Consistent(s) && Next(s, e, s')
    ensures Consistent(s') <==> Careful(s, e)
  {
    hide RowProblem, RowsFit, Consistent, MachineStands, Choices, Guard, Apply, FirstSpare, Landed, AlteredOn, ReliedOn,
         Released, OffersStand, LateKeeps;
    match e {
      case Land(m, op) => LandStandsIff(s, m, op);
      case Unanswered(m, op) => SentStays(s, m, op);
      case LateLand(m, op, read) => LateLandStandsIff(s, m, op, read);
      case PublishLand(m, token) => PublishStands(s, m, token);
      case ReleaseLand(m, op) => ReleaseStandsIff(s, m, op);
      case MoveRef(m, tree) => MoveRefStandsIff(s, m, tree);
      case Unlock(m) => UnlockStandsIff(s, m);
      case PublishSeen(m, token, tree) =>
        SeenStandsIff(s, m, token);
        OneMachineStands(s, m, s'.machines[m]);
        assert s' == WithMachine(s, m, s'.machines[m]);
      case _ => LocalStepStands(s, e, s');
    }
  }

  lemma LateLandStandsIff(s: Fleet, m: string, op: Op, read: map<string, Row>)
    requires Consistent(s) && Sent(m, op, read) in s.sent && MayLandOn(s.tip, m, op, read)
    ensures m in s.machines
    ensures Consistent(Fleet(Apply(s.tip, ChangeOn(s.tip, m, op, read)), s.machines, {}))
            <==> Careful(s, LateLand(m, op, read))
  {
    hide RowProblem, RowsFit, Consistent, MachineStands, MayLandOn, Apply, AlteredOn, LateKeeps, Guard;
    SentIsLocked(s, m, op, read);
    if op.PublishOp? {
      LatePublicationStands(s, m, op.token, read);
    } else {
      LateReleaseStandsIff(s, m, op, read);
    }
  }

  lemma SentIsLocked(s: Fleet, m: string, op: Op, read: map<string, Row>)
    requires Consistent(s) && Sent(m, op, read) in s.sent
    ensures m in s.machines && UnderLock(op)
  {
    hide RowProblem, RowsFit, MachineStands, MayLandOn;
    assert SentStands(s.tip, s.machines, Sent(m, op, read));
  }

  /** Outside the spool lock no operation alters a spare, reassignment aside. */
  lemma WrittenSpare(op: Op, m: string, tip: Tree, spool: map<string, Row>, change: Change, t: string)
    requires RowsFit(tip) && Choices(op, m, tip, spool) && Guard(op, m, tip, spool) == Write(change)
    requires !UnderLock(op) && t in change.rows && t in tip.rows
    ensures tip.rows[t].kind.Spare? ==> op.ReassignOp? && t == op.name
  {
    hide RowProblem;
    ValidRowFields(tip.rows[t]);
    match op {
      case ReserveOp(slot, vocabulary, spoolRead, maxLength, pick, tier, spares, now) =>
        ReservePickedIsNew(tip, slot, vocabulary, spoolRead, maxLength, pick, tier, spares, now);
      case MigrateOp(slot, vocabulary, maxLength, oldTitle, chosen, pick, tier, words, now) =>
        var name := ReserveMigrationDeclares(tip, slot, vocabulary, maxLength, oldTitle, chosen, pick, tier, words,
                                             now, change);
      case MarkOp(_, _) => ValidRowFields(change.rows[t].value);
      case _ =>
    }
  }
}

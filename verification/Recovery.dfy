/** Settling recorded renames from what is on disk, as a reconcile does it. */
module Recovery {
  import opened Wrappers
  import opened Text
  import opened Rows
  import opened Registry
  import opened Ledger
  import opened Spool

  /** The artifacts this host still finds under each title, in the checkout of each repository. */
  type Disk = map<(string, string), seq<Artifact>>

  function Under(disk: Disk, repo: string, title: string): seq<Artifact> {
    if (repo, title) in disk then disk[(repo, title)] else []
  }

  /** The token a rename goes to. */
  function TokenOf(tree: Tree, key: string): string
    requires key in tree.migrations
  {
    LastSegment(tree.migrations[key].newTitle)
  }

  /** The checkout a pass looks into for a rename: that of its new row's repository, as the pass's snapshot has it. */
  function RepoOf(snapshot: Tree, key: string): string
    requires key in snapshot.migrations
  {
    var token := TokenOf(snapshot, key);
    if token in snapshot.rows && snapshot.rows[token].repo.Some? then snapshot.rows[token].repo.value else ""
  }

  function UnderNew(snapshot: Tree, disk: Disk, key: string): seq<Artifact>
    requires key in snapshot.migrations
  {
    Under(disk, RepoOf(snapshot, key), snapshot.migrations[key].newTitle)
  }

  function UnderOld(snapshot: Tree, disk: Disk, key: string): seq<Artifact>
    requires key in snapshot.migrations
  {
    Under(disk, RepoOf(snapshot, key), key)
  }

  /** The tip after a guard ran on it, and whether it raised. */
  function Ran(tip: Tree, build: Build): (Tree, bool) {
    match build
    case Refuse(_) => (tip, true)
    case Skip => (tip, false)
    case Write(change) => (Apply(tip, change), false)
  }

  /** What `recover_intents` does for one record of its snapshot, on the tip it finds, with no rename to resume. */
  function SettleOne(snapshot: Tree, tip: Tree, machine: string, disk: Disk, now: string, key: string): (Tree, bool)
    requires key in snapshot.migrations
  {
    var underNew, underOld := UnderNew(snapshot, disk, key), UnderOld(snapshot, disk, key);
    if !Standing(snapshot, machine, key) then (tip, false)
    else if underNew != [] && underOld == [] then Ran(tip, CompleteMigration(tip, key, machine, now))
    else if underNew != [] && underOld != [] then Ran(tip, MarkIncomplete(tip, key, machine, underNew))
    else (tip, false)
  }

  /** `recover_intents` over the records of its snapshot in the given order, until one raises. */
  function Settle(snapshot: Tree, tip: Tree, machine: string, disk: Disk, now: string, order: seq<string>): (Tree, bool)
    requires forall key | key in order :: key in snapshot.migrations
    decreases |order|
  {
    if order == [] then (tip, false)
    else
      var (next, raised) := SettleOne(snapshot, tip, machine, disk, now, order[0]);
      if raised then (next, true) else Settle(snapshot, next, machine, disk, now, order[1..])
  }

  predicate Standing(tree: Tree, machine: string, key: string)
    requires key in tree.migrations
  {
    tree.migrations[key].status.Intent? && tree.migrations[key].machine == machine
  }

  /** This machine's intent, with something under its new title: completed when nothing is left under the old one. */
  predicate ToSettle(tree: Tree, machine: string, disk: Disk, key: string)
    requires key in tree.migrations
  {
    Standing(tree, machine, key) && UnderNew(tree, disk, key) != []
  }

  /** `recover_intents`. */
  method RecoverIntents(ref: SharedRef, machine: string, disk: Disk, now: string, order: seq<string>)
    returns (settled: seq<string>, raised: bool)
    requires forall key | key in order :: key in ref.tip.migrations
    modifies ref
    ensures (ref.tip, raised) == Settle(old(ref.tip), old(ref.tip), machine, disk, now, order)
    ensures forall key | key in settled :: key in order && ToSettle(old(ref.tip), machine, disk, key)
    ensures !raised ==> forall key | key in order && ToSettle(old(ref.tip), machine, disk, key) :: key in settled
  {
    hide RowProblem, CompleteMigration, MarkIncomplete;
    var snapshot := ref.tip;
    settled, raised := [], false;
    for i := 0 to |order|
      invariant !raised
      invariant Settle(snapshot, snapshot, machine, disk, now, order)
             == Settle(snapshot, ref.tip, machine, disk, now, order[i..])
      invariant forall key | key in settled :: key in order && ToSettle(snapshot, machine, disk, key)
      invariant forall k | 0 <= k < i && ToSettle(snapshot, machine, disk, order[k]) :: order[k] in settled
    {
      var key := order[i];
      assert order[i..][0] == key && order[i..][1..] == order[i + 1..];
      var underNew, underOld := UnderNew(snapshot, disk, key), UnderOld(snapshot, disk, key);
      if Standing(snapshot, machine, key) && underNew != [] {
        var build := if underOld == [] then CompleteMigration(ref.tip, key, machine, now)
                     else MarkIncomplete(ref.tip, key, machine, underNew);
        if build.Refuse? {
          raised := true;
          return;
        }
        if build.Write? {
          ref.tip := Apply(ref.tip, build.change);
        }
        settled := settled + [key];
      }
    }
  }

  /**
   * What one record of the snapshot comes to: nothing unless it is this machine's intent and something stands under its
   * new title, looked for in the repository of its new row; then a completion when nothing stands under the old title,
   * and a hold with what was found otherwise.
   */
  lemma SettleOneSays(snapshot: Tree, tip: Tree, machine: string, disk: Disk, now: string, key: string)
    requires key in snapshot.migrations
    ensures
      var record := snapshot.migrations[key];
      var row := Get(snapshot.rows, LastSegment(record.newTitle));
      var repo := if row.Some? && row.value.repo.Some? then row.value.repo.value else "";
      var left, found := Get(disk, (repo, key)), Get(disk, (repo, record.newTitle));
      var ours := record.status.Intent? && record.machine == machine && found.Some? && found.value != [];
      var build := if left.None? || left.value == [] then CompleteMigration(tip, key, machine, now)
                   else if found.Some? then MarkIncomplete(tip, key, machine, found.value) else Skip;
      SettleOne(snapshot, tip, machine, disk, now, key)
      == (if ours && build.Write? then Apply(tip, build.change) else tip, ours && build.Refuse?)
  {
    hide CompleteMigration, MarkIncomplete, Apply, LastSegment;
  }

  /** This machine's standing renames go to names that differ, as their rows being held makes sure. */
  ghost predicate NewNamesDiffer(tree: Tree, machine: string) {
    forall k, l | k in tree.migrations && l in tree.migrations && k != l
                  && Standing(tree, machine, k) && Standing(tree, machine, l) ::
      LastSegment(tree.migrations[k].newTitle) != LastSegment(tree.migrations[l].newTitle)
  }

  /** The row a rename goes to can be held for it. */
  predicate HasRow(tree: Tree, key: string)
    requires key in tree.migrations
  {
    TokenOf(tree, key) in tree.rows && !tree.rows[TokenOf(tree, key)].kind.Spare?
  }

  /** The row a rename goes to is its own, so the rename can complete. */
  predicate OwnsRow(tree: Tree, key: string)
    requires key in tree.migrations
  {
    HasRow(tree, key) && tree.rows[TokenOf(tree, key)].title == Some(tree.migrations[key].newTitle)
  }

  /** Completing this rename deletes the row of its old title. */
  predicate DropsOld(tree: Tree, machine: string, key: string) {
    && LastSegment(key) in tree.rows
    && tree.rows[LastSegment(key)].title == Some(key)
    && tree.rows[LastSegment(key)].machine == Some(machine)
  }

  /** Nothing is left to do for this record: not ours, its row gone, nothing under its new title, or already held. */
  ghost predicate Settled(tree: Tree, machine: string, disk: Disk, key: string) {
    && key in tree.migrations
    && (|| !Standing(tree, machine, key)
        || TokenOf(tree, key) !in tree.rows
        || UnderNew(tree, disk, key) == []
        || (&& UnderOld(tree, disk, key) != []
            && var row := tree.rows[TokenOf(tree, key)];
               row.state.MigrationIncomplete? && row.recovery == Some(UnderNew(tree, disk, key))))
  }

  lemma SettledChangesNothing(tree: Tree, machine: string, disk: Disk, now: string, key: string)
    requires Settled(tree, machine, disk, key)
    ensures SettleOne(tree, tree, machine, disk, now, key).0 == tree
  {
    hide RowProblem, LastSegment;
    var token := TokenOf(tree, key);
    if Standing(tree, machine, key) && UnderNew(tree, disk, key) != [] && token in tree.rows {
      ApplyRowChange(tree, map[token := Some(tree.rows[token])]);
      assert Written(tree.rows, map[token := Some(tree.rows[token])]) == tree.rows;
    }
  }

  /** With no row of its own kind to write, settling a record writes nothing. */
  lemma NoRowChangesNothing(tree: Tree, machine: string, disk: Disk, now: string, key: string)
    requires key in tree.migrations && (Standing(tree, machine, key) ==> !HasRow(tree, key))
    ensures SettleOne(tree, tree, machine, disk, now, key).0 == tree
  {
    hide LastSegment;
  }

  /** A row as settling leaves it: only its state and what is held in it may differ. */
  predicate KeptRow(before: Row, after: Row) {
    after == before.(state := after.state, recovery := after.recovery)
  }

  /** How settling one record may change the tree: its own record, the state of its new row, and a dropped old row. */
  ghost predicate OwnChange(tip: Tree, next: Tree, machine: string, key: string)
    requires key in tip.migrations
  {
    || next == tip
    || (&& Standing(tip, machine, key)
        && next.migrations.Keys == tip.migrations.Keys
        && (forall k | k in tip.migrations && k != key :: next.migrations[k] == tip.migrations[k])
        && next.migrations[key].newTitle == tip.migrations[key].newTitle
        && (next.migrations[key] == tip.migrations[key] || next.migrations[key].status.Complete?)
        && (forall t | t in next.rows :: t in tip.rows && KeptRow(tip.rows[t], next.rows[t]))
        && (forall t | t in next.rows && t != TokenOf(tip, key) :: next.rows[t] == tip.rows[t])
        && (forall t | t in tip.rows && t !in next.rows ::
              OwnsRow(tip, key) && DropsOld(tip, machine, key) && t == LastSegment(key)))
  }

  lemma SettlingIsOwnChange(snapshot: Tree, tip: Tree, machine: string, disk: Disk, now: string, key: string)
    requires key in snapshot.migrations && Get(tip.migrations, key) == Some(snapshot.migrations[key])
    ensures
      var next := SettleOne(snapshot, tip, machine, disk, now, key).0;
      && OwnChange(tip, next, machine, key)
      && (UnderOld(snapshot, disk, key) != [] ==> forall t | t in tip.rows :: t in next.rows)
  {
    hide RowProblem, CompleteMigration, MarkIncomplete, OwnChange, Apply;
    assert OwnChange(tip, tip, machine, key) by { NoChange(tip, machine, key); }
    if ToSettle(snapshot, machine, disk, key) {
      if UnderOld(snapshot, disk, key) == [] {
        CompletingIsOwnChange(tip, machine, now, key);
      } else {
        HoldingIsOwnChange(tip, machine, key, UnderNew(snapshot, disk, key));
      }
    }
  }

  lemma NoChange(tip: Tree, machine: string, key: string)
    requires key in tip.migrations
    ensures OwnChange(tip, tip, machine, key)
  {
  }

  lemma CompletingIsOwnChange(tip: Tree, machine: string, now: string, key: string)
    requires key in tip.migrations && Standing(tip, machine, key)
    ensures CompleteMigration(tip, key, machine, now).Write? ==>
              OwnChange(tip, Apply(tip, CompleteMigration(tip, key, machine, now).change), machine, key)
  {
    hide RowProblem, LastSegment, CompleteMigration, DropsOld;
    if CompleteMigration(tip, key, machine, now).Write? {
      CompletionWrites(tip, machine, now, key);
      var change := CompleteMigration(tip, key, machine, now).change;
      assert Written(tip.migrations, change.migrations).Keys == tip.migrations.Keys;
    }
  }

  /** A completion writes its new row, active, and its record, and may delete the row of the old title. */
  lemma CompletionWrites(tip: Tree, machine: string, now: string, key: string)
    requires key in tip.migrations && CompleteMigration(tip, key, machine, now).Write?
    ensures
      var change, token := CompleteMigration(tip, key, machine, now).change, TokenOf(tip, key);
      && OwnsRow(tip, key)
      && (forall t | t in change.rows && change.rows[t].Some? ::
            t == token && change.rows[t] == Some(tip.rows[token].(state := Active, recovery := None)))
      && (forall t | t in change.rows && change.rows[t].None? :: DropsOld(tip, machine, key) && t == LastSegment(key))
      && change.migrations.Keys == {key} && change.migrations[key].Some?
      && change.migrations[key].value.newTitle == tip.migrations[key].newTitle
      && change.migrations[key].value.status.Complete?
  {
    hide RowProblem, LastSegment;
    CheckedIsNoSpare(tip.rows[TokenOf(tip, key)]);
  }

  /** A spare has no title, so a row that may be written with one is none. */
  lemma CheckedIsNoSpare(row: Row)
    ensures row.title.Some? && RowProblem(row.(state := Active, recovery := None)).None? ==> !row.kind.Spare?
  {
  }

  lemma HoldingIsOwnChange(tip: Tree, machine: string, key: string, survivors: seq<Artifact>)
    requires key in tip.migrations && Standing(tip, machine, key)
    ensures MarkIncomplete(tip, key, machine, survivors).Write? ==>
              var next := Apply(tip, MarkIncomplete(tip, key, machine, survivors).change);
              OwnChange(tip, next, machine, key) && next.rows.Keys == tip.rows.Keys
  {
    hide RowProblem, LastSegment;
    if MarkIncomplete(tip, key, machine, survivors).Write? {
      ApplyRowChange(tip, MarkIncomplete(tip, key, machine, survivors).change.rows);
    }
  }

  /** Settling another record, bound for another name, leaves a settled record settled. */
  lemma OtherStaysSettled(tip: Tree, next: Tree, machine: string, disk: Disk, key: string, other: string)
    requires key in tip.migrations && OwnChange(tip, next, machine, key)
    requires other != key && Settled(tip, machine, disk, other) && NewNamesDiffer(tip, machine)
    ensures Settled(next, machine, disk, other)
  {
    hide LastSegment;
  }

  /** A completion of this rename in the pass deleted the row of `t`. */
  ghost predicate Dropped(snapshot: Tree, machine: string, disk: Disk, l: string, t: string) {
    && l in snapshot.migrations && Standing(snapshot, machine, l)
    && OwnsRow(snapshot, l) && DropsOld(snapshot, machine, l) && LastSegment(l) == t
    && UnderOld(snapshot, disk, l) == []
  }

  /** What a pass has done to its snapshot once it has settled `done`. */
  ghost predicate Follows(snapshot: Tree, tip: Tree, machine: string, disk: Disk, done: seq<string>) {
    && tip.migrations.Keys == snapshot.migrations.Keys
    && (forall k | k in snapshot.migrations :: tip.migrations[k].newTitle == snapshot.migrations[k].newTitle)
    && (forall k | k in snapshot.migrations && k !in done :: tip.migrations[k] == snapshot.migrations[k])
    && (forall t | t in tip.rows :: t in snapshot.rows && KeptRow(snapshot.rows[t], tip.rows[t]))
    && (forall t | t in snapshot.rows && t !in tip.rows ::
          exists l | l in done :: Dropped(snapshot, machine, disk, l, t))
    && (forall k | k in tip.migrations && Standing(tip, machine, k) :: Standing(snapshot, machine, k))
  }

  lemma OneMoreFollows(snapshot: Tree, tip: Tree, next: Tree, machine: string, disk: Disk, done: seq<string>,
                       key: string)
    requires Follows(snapshot, tip, machine, disk, done) && key in snapshot.migrations && key !in done
    requires OwnChange(tip, next, machine, key)
    requires UnderOld(snapshot, disk, key) != [] ==> forall t | t in tip.rows :: t in next.rows
    ensures Follows(snapshot, next, machine, disk, done + [key])
  {
    hide LastSegment, Dropped, OwnsRow, DropsOld, Under;
    forall t | t in snapshot.rows && t !in next.rows
      ensures exists l | l in done + [key] :: Dropped(snapshot, machine, disk, l, t)
    {
      if t in tip.rows {
        DroppedNow(snapshot, tip, next, machine, disk, done, key, t);
        assert key in done + [key];
      } else {
        var l :| l in done && Dropped(snapshot, machine, disk, l, t);
        assert l in done + [key];
      }
    }
  }

  lemma DroppedNow(snapshot: Tree, tip: Tree, next: Tree, machine: string, disk: Disk, done: seq<string>, key: string,
                   t: string)
    requires Follows(snapshot, tip, machine, disk, done) && key in snapshot.migrations && key !in done
    requires OwnChange(tip, next, machine, key) && t in tip.rows && t !in next.rows
    requires UnderOld(snapshot, disk, key) == []
    ensures Dropped(snapshot, machine, disk, key, t)
  {
    hide LastSegment, Under;
  }

  lemma NamesStillDiffer(snapshot: Tree, tip: Tree, machine: string, disk: Disk, done: seq<string>)
    requires Follows(snapshot, tip, machine, disk, done) && NewNamesDiffer(snapshot, machine)
    ensures NewNamesDiffer(tip, machine)
  {
    hide LastSegment;
  }

  /** The pass found something for this rename, but has dropped the row it goes to. */
  ghost predicate RowDropped(snapshot: Tree, tip: Tree, machine: string, disk: Disk, key: string) {
    && key in snapshot.migrations && ToSettle(snapshot, machine, disk, key)
    && TokenOf(snapshot, key) in snapshot.rows && TokenOf(snapshot, key) !in tip.rows
    && RepoOf(snapshot, key) != ""
  }

  lemma SameCheckout(snapshot: Tree, tip: Tree, machine: string, disk: Disk, key: string, done: seq<string>)
    requires Follows(snapshot, tip, machine, disk, done) && key in snapshot.migrations && key !in done
    ensures tip.migrations.Keys == snapshot.migrations.Keys && tip.migrations[key] == snapshot.migrations[key]
    ensures TokenOf(snapshot, key) in tip.rows ==> RepoOf(tip, key) == RepoOf(snapshot, key)
    ensures RowDropped(snapshot, tip, machine, disk, key) || RepoOf(tip, key) == RepoOf(snapshot, key)
            || !ToSettle(snapshot, machine, disk, key)
  {
    hide LastSegment;
  }

  /** A record that went through is settled. */
  lemma SettledUnlessRaised(snapshot: Tree, tip: Tree, machine: string, disk: Disk, now: string, key: string)
    requires key in snapshot.migrations && Get(tip.migrations, key) == Some(snapshot.migrations[key])
    requires TokenOf(snapshot, key) in tip.rows ==> RepoOf(tip, key) == RepoOf(snapshot, key)
    ensures
      var (next, raised) := SettleOne(snapshot, tip, machine, disk, now, key);
      if raised then next == tip else Settled(next, machine, disk, key)
  {
    hide RowProblem, LastSegment;
  }

  /** One that raised raises again, unless the pass has dropped its row. */
  lemma SettledOrRaises(snapshot: Tree, tip: Tree, machine: string, disk: Disk, now: string, key: string, later: string,
                        done: seq<string>)
    requires Follows(snapshot, tip, machine, disk, done) && key in snapshot.migrations && key !in done
    ensures
      var (next, raised) := SettleOne(snapshot, tip, machine, disk, now, key);
      if raised then
        && next == tip && SettleOne(tip, tip, machine, disk, later, key).0 == tip
        && (SettleOne(tip, tip, machine, disk, later, key).1 || RowDropped(snapshot, tip, machine, disk, key))
      else Settled(next, machine, disk, key)
  {
    hide RowProblem, LastSegment, Follows, SettleOne, Settled, RowDropped, RepoOf;
    SameCheckout(snapshot, tip, machine, disk, key, done);
    SettledUnlessRaised(snapshot, tip, machine, disk, now, key);
    if RepoOf(tip, key) == RepoOf(snapshot, key) {
      RaisesAgain(snapshot, tip, machine, disk, now, key, later);
    } else {
      NoRowChangesNothing(tip, machine, disk, later, key);
      RaisedIsToSettle(snapshot, tip, machine, disk, now, key);
    }
  }

  lemma RaisesAgain(snapshot: Tree, tip: Tree, machine: string, disk: Disk, now: string, key: string, later: string)
    requires key in snapshot.migrations && Get(tip.migrations, key) == Some(snapshot.migrations[key])
    requires RepoOf(tip, key) == RepoOf(snapshot, key)
    ensures SettleOne(snapshot, tip, machine, disk, now, key).1 ==>
              SettleOne(tip, tip, machine, disk, later, key) == (tip, true)
  {
    hide RowProblem, LastSegment, RepoOf;
  }

  lemma RaisedIsToSettle(snapshot: Tree, tip: Tree, machine: string, disk: Disk, now: string, key: string)
    requires key in snapshot.migrations
    ensures SettleOne(snapshot, tip, machine, disk, now, key).1 ==> ToSettle(snapshot, machine, disk, key)
  {
    hide CompleteMigration, MarkIncomplete, RepoOf;
  }

  /**
   * Completing the rename `l` drops the row that the rename `k` goes to, although it is not the row `l` came from in
   * the same checkout: a pass that then finds something under the new title of `k` raises, and once the row is gone
   * the next pass looks for it elsewhere.
   */
  ghost predicate Strands(tree: Tree, machine: string, l: string, k: string) {
    && l != k && l in tree.migrations && k in tree.migrations
    && Standing(tree, machine, l) && Standing(tree, machine, k)
    && OwnsRow(tree, l) && DropsOld(tree, machine, l) && LastSegment(l) == TokenOf(tree, k)
    && RepoOf(tree, k) != ""
    && (tree.migrations[k].newTitle != l || RepoOf(tree, k) != RepoOf(tree, l))
  }

  /** A third rename that a pass can still settle once it has gone over `k` and found nothing. */
  ghost predicate Awaits(tree: Tree, machine: string, k: string, c: string)
    requires k in tree.migrations
  {
    && c in tree.migrations && Standing(tree, machine, c) && HasRow(tree, c)
    && (c == tree.migrations[k].newTitle && RepoOf(tree, c) == "" ==> OwnsRow(tree, c))
  }

  ghost predicate Stranded(tree: Tree, machine: string, l: string, k: string, c: string) {
    c != l && c != k && Strands(tree, machine, l, k) && Awaits(tree, machine, k, c)
  }

  /** No rename that is passed over on a second pass keeps another waiting on the first. */
  ghost predicate NoneStranded(tree: Tree, machine: string) {
    forall l, k, c :: !Stranded(tree, machine, l, k, c)
  }

  /** A rename that starts from the new title of another goes to a row of the same repository. */
  ghost predicate ChainsStay(tree: Tree, machine: string) {
    forall k | k in tree.migrations && Standing(tree, machine, k) ::
      var next := tree.migrations[k].newTitle;
      next in tree.migrations && Standing(tree, machine, next) ==> RepoOf(tree, next) == RepoOf(tree, k)
  }

  /** Renames that own their rows strand none, if those that follow on each other stay in one checkout. */
  lemma OwnersStrandNone(tree: Tree, machine: string)
    requires forall k | k in tree.migrations && Standing(tree, machine, k) :: OwnsRow(tree, k)
    requires ChainsStay(tree, machine)
    ensures NoneStranded(tree, machine)
  {
    hide LastSegment, RepoOf;
  }

  /** The pass raised at a record whose row it had dropped: that record is stranded. */
  lemma DroppedIsStranded(snapshot: Tree, tip: Tree, machine: string, disk: Disk, done: seq<string>, key: string)
    returns (l: string)
    requires Follows(snapshot, tip, machine, disk, done) && key in snapshot.migrations && key !in done
    requires RowDropped(snapshot, tip, machine, disk, key)
    ensures l in done && Strands(snapshot, machine, l, key)
  {
    hide LastSegment, Under, RepoOf, OwnsRow, DropsOld;
    l :| l in done && Dropped(snapshot, machine, disk, l, TokenOf(snapshot, key));
  }

  /** A record after a stranded one changes nothing on the next pass. */
  lemma AfterStranded(snapshot: Tree, tip: Tree, machine: string, disk: Disk, later: string, done: seq<string>,
                      l: string, k: string, c: string)
    requires Follows(snapshot, tip, machine, disk, done) && NoneStranded(snapshot, machine)
    requires Strands(snapshot, machine, l, k) && TokenOf(snapshot, k) !in tip.rows && k !in done
    requires c in snapshot.migrations && c != l && c != k && c !in done
    requires !SettleOne(tip, tip, machine, disk, later, k).1
    ensures SettleOne(tip, tip, machine, disk, later, c).0 == tip
  {
    hide LastSegment, RowProblem;
    assert !Stranded(snapshot, machine, l, k, c);
    UndoneIsSame(snapshot, tip, machine, disk, done, c);
    if !Standing(snapshot, machine, c) || !HasRow(snapshot, c) {
      RowsComeFrom(snapshot, tip, machine, disk, done, c);
      NoRowChangesNothing(tip, machine, disk, later, c);
    } else {
      UndoneIsSame(snapshot, tip, machine, disk, done, k);
      NothingUnderNew(tip, machine, disk, later, k);
      OnlyCompletes(snapshot, tip, machine, disk, later, done, c);
    }
  }

  lemma RowsComeFrom(snapshot: Tree, tip: Tree, machine: string, disk: Disk, done: seq<string>, c: string)
    requires Follows(snapshot, tip, machine, disk, done) && c in snapshot.migrations
    ensures HasRow(tip, c) ==> HasRow(snapshot, c)
    ensures OwnsRow(tip, c) ==> OwnsRow(snapshot, c)
    ensures RepoOf(snapshot, c) == "" ==> RepoOf(tip, c) == ""
  {
    hide LastSegment;
  }

  /** Passed over with its row gone, a rename has nothing under its new title outside every checkout. */
  lemma NothingUnderNew(tip: Tree, machine: string, disk: Disk, later: string, k: string)
    requires k in tip.migrations && Standing(tip, machine, k) && TokenOf(tip, k) !in tip.rows
    requires !SettleOne(tip, tip, machine, disk, later, k).1
    ensures Under(disk, "", tip.migrations[k].newTitle) == []
  {
    hide LastSegment, RowProblem;
  }

  lemma OnlyCompletes(snapshot: Tree, tip: Tree, machine: string, disk: Disk, later: string, done: seq<string>,
                      c: string)
    requires Follows(snapshot, tip, machine, disk, done) && c in snapshot.migrations
    requires RepoOf(snapshot, c) == "" && Under(disk, "", c) == [] && !OwnsRow(snapshot, c)
    ensures SettleOne(tip, tip, machine, disk, later, c).0 == tip
  {
    hide LastSegment, RowProblem, Follows;
    RowsComeFrom(snapshot, tip, machine, disk, done, c);
    UndoneIsSame(snapshot, tip, machine, disk, done, c);
    OnlyOwnersComplete(tip, machine, later, c);
  }

  lemma OnlyOwnersComplete(tip: Tree, machine: string, now: string, key: string)
    requires key in tip.migrations && !OwnsRow(tip, key)
    ensures !CompleteMigration(tip, key, machine, now).Write?
  {
    hide LastSegment, RowProblem;
    if TokenOf(tip, key) in tip.rows {
      CheckedIsNoSpare(tip.rows[TokenOf(tip, key)]);
    }
  }

  /** Going over these records once more on `tree` changes nothing, up to the first that raises. */
  ghost predicate StaysPut(tree: Tree, machine: string, disk: Disk, now: string, order: seq<string>)
    decreases |order|
  {
    order == []
    || (&& order[0] in tree.migrations
        && SettleOne(tree, tree, machine, disk, now, order[0]).0 == tree
        && (SettleOne(tree, tree, machine, disk, now, order[0]).1 || StaysPut(tree, machine, disk, now, order[1..])))
  }

  lemma {:induction false} StaysPutSettles(tree: Tree, machine: string, disk: Disk, now: string, order: seq<string>)
    requires forall key | key in order :: key in tree.migrations
    requires StaysPut(tree, machine, disk, now, order)
    ensures Settle(tree, tree, machine, disk, now, order).0 == tree
    decreases |order|
  {
    hide SettleOne;
    if order != [] && !SettleOne(tree, tree, machine, disk, now, order[0]).1 {
      StaysPutSettles(tree, machine, disk, now, order[1..]);
    }
  }

  ghost predicate Distinct(order: seq<string>) {
    forall i, j | 0 <= i < j < |order| :: order[i] != order[j]
  }

  /** What one pass leaves: going over it again changes nothing. */
  lemma {:induction false} PassLeaves(snapshot: Tree, tip: Tree, machine: string, disk: Disk, now: string,
                                      later: string, done: seq<string>, order: seq<string>)
    requires Distinct(done + order) && forall key | key in order :: key in snapshot.migrations
    requires Follows(snapshot, tip, machine, disk, done)
    requires forall key | key in done :: Settled(tip, machine, disk, key)
    requires NewNamesDiffer(snapshot, machine) && NoneStranded(snapshot, machine)
    ensures
      var last := Settle(snapshot, tip, machine, disk, now, order).0;
      && last.migrations.Keys == tip.migrations.Keys
      && StaysPut(last, machine, disk, later, done + order)
    decreases |order|
  {
    hide RowProblem, SettleOne, Settled, OwnChange, NewNamesDiffer, Follows, NoneStranded;
    if order == [] {
      SettledStaysPut(tip, machine, disk, later, done, order);
    } else {
      var key := order[0];
      var (next, raised) := SettleOne(snapshot, tip, machine, disk, now, key);
      assert key !in done by { FirstIsNew(done, order); }
      UndoneIsSame(snapshot, tip, machine, disk, done, key);
      SettledOrRaises(snapshot, tip, machine, disk, now, key, later, done);
      if raised {
        RestStaysPut(snapshot, tip, machine, disk, later, done, order);
        SettledStaysPut(tip, machine, disk, later, done, order);
      } else {
        SettlingIsOwnChange(snapshot, tip, machine, disk, now, key);
        OneMoreFollows(snapshot, tip, next, machine, disk, done, key);
        NamesStillDiffer(snapshot, tip, machine, disk, done);
        forall other | other in done ensures Settled(next, machine, disk, other) {
          OtherStaysSettled(tip, next, machine, disk, key, other);
        }
        assert done + order == (done + [key]) + order[1..];
        PassLeaves(snapshot, next, machine, disk, now, later, done + [key], order[1..]);
        UndoneIsSame(snapshot, next, machine, disk, done + [key], key);
      }
    }
  }

  lemma UndoneIsSame(snapshot: Tree, tip: Tree, machine: string, disk: Disk, done: seq<string>, key: string)
    requires Follows(snapshot, tip, machine, disk, done) && key in snapshot.migrations
    ensures tip.migrations.Keys == snapshot.migrations.Keys
    ensures key !in done ==> tip.migrations[key] == snapshot.migrations[key]
  {
  }

  lemma FirstIsNew(done: seq<string>, order: seq<string>)
    requires order != [] && Distinct(done + order)
    ensures order[0] !in done && forall c | c in order[1..] :: c != order[0] && c !in done
  {
    assert (done + order)[|done|] == order[0];
    forall i | 0 <= i < |done| ensures done[i] != order[0] && forall c | c in order[1..] :: c != done[i] {
      assert (done + order)[i] == done[i];
      forall j | 0 <= j < |order[1..]| ensures order[1..][j] != done[i] {
        assert (done + order)[|done| + 1 + j] == order[1..][j];
      }
    }
    forall j | 0 <= j < |order[1..]| ensures order[1..][j] != order[0] {
      assert (done + order)[|done| + 1 + j] == order[1..][j];
    }
  }

  /** Where a pass raised, the next one raises again, or it finds nothing there and nothing after. */
  lemma RestStaysPut(snapshot: Tree, tip: Tree, machine: string, disk: Disk, later: string, done: seq<string>,
                     order: seq<string>)
    requires order != [] && Distinct(done + order) && forall key | key in order :: key in snapshot.migrations
    requires Follows(snapshot, tip, machine, disk, done) && NoneStranded(snapshot, machine)
    requires SettleOne(tip, tip, machine, disk, later, order[0]).0 == tip
    requires SettleOne(tip, tip, machine, disk, later, order[0]).1 || RowDropped(snapshot, tip, machine, disk, order[0])
    ensures StaysPut(tip, machine, disk, later, order)
  {
    hide RowProblem, SettleOne, Settled, NoneStranded, Strands;
    FirstIsNew(done, order);
    UndoneIsSame(snapshot, tip, machine, disk, done, order[0]);
    if !SettleOne(tip, tip, machine, disk, later, order[0]).1 {
      var l := DroppedIsStranded(snapshot, tip, machine, disk, done, order[0]);
      forall c | c in order[1..] ensures c in tip.migrations && SettleOne(tip, tip, machine, disk, later, c).0 == tip {
        AfterStranded(snapshot, tip, machine, disk, later, done, l, order[0], c);
      }
      UnchangedStaysPut(tip, machine, disk, later, order[1..]);
    }
  }

  lemma {:induction false} UnchangedStaysPut(tree: Tree, machine: string, disk: Disk, now: string, order: seq<string>)
    requires forall c | c in order :: c in tree.migrations && SettleOne(tree, tree, machine, disk, now, c).0 == tree
    ensures StaysPut(tree, machine, disk, now, order)
    decreases |order|
  {
    hide SettleOne;
    if order != [] {
      UnchangedStaysPut(tree, machine, disk, now, order[1..]);
    }
  }

  /** Records that are settled, then some that stay put. */
  lemma {:induction false} SettledStaysPut(tree: Tree, machine: string, disk: Disk, now: string,
                                           done: seq<string>, order: seq<string>)
    requires forall key | key in done :: Settled(tree, machine, disk, key)
    requires StaysPut(tree, machine, disk, now, order)
    ensures StaysPut(tree, machine, disk, now, done + order)
    decreases |done|
  {
    hide SettleOne, Settled;
    if done != [] {
      assert (done + order)[0] == done[0] && (done + order)[1..] == done[1..] + order;
      assert done[0] in tree.migrations by { SettledIsRecorded(tree, machine, disk, done[0]); }
      SettledChangesNothing(tree, machine, disk, now, done[0]);
      SettledStaysPut(tree, machine, disk, now, done[1..], order);
    } else {
      assert done + order == order;
    }
  }

  lemma SettledIsRecorded(tree: Tree, machine: string, disk: Disk, key: string)
    requires Settled(tree, machine, disk, key)
    ensures key in tree.migrations
  {
  }

  /** With the disk unchanged, a second pass, at any later time, leaves the very tree that the first left. */
  ghost predicate Repeats(tree: Tree, machine: string, disk: Disk, now: string, later: string, order: seq<string>)
    requires forall key | key in order :: key in tree.migrations
  {
    var once := Settle(tree, tree, machine, disk, now, order).0;
    (forall key | key in order :: key in once.migrations) && Settle(once, once, machine, disk, later, order).0 == once
  }

  /** Recovery is idempotent, whether or not a pass stops at a record it refuses, where no rename strands another. */
  lemma RecoverTwice(tree: Tree, machine: string, disk: Disk, now: string, later: string, order: seq<string>)
    requires Distinct(order) && forall key | key in order :: key in tree.migrations
    requires NewNamesDiffer(tree, machine) && NoneStranded(tree, machine)
    ensures Repeats(tree, machine, disk, now, later, order)
  {
    hide SettleOne, Settled, NoneStranded, NewNamesDiffer, LastSegment;
    assert [] + order == order;
    PassLeaves(tree, tree, machine, disk, now, later, [], order);
    StaysPutSettles(Settle(tree, tree, machine, disk, now, order).0, machine, disk, later, order);
  }

  /** A completion is written at most once: after it, completing the same record writes nothing. */
  lemma CompletedOnce(tip: Tree, key: string, machine: string, now: string, other: string, later: string)
    requires CompleteMigration(tip, key, machine, now).Write?
    ensures
      var after := Apply(tip, CompleteMigration(tip, key, machine, now).change);
      && CompleteMigration(after, key, other, later).Skip?
      && after.migrations[key].newTitle == tip.migrations[key].newTitle
      && LastSegment(tip.migrations[key].newTitle) in tip.rows
  {
    hide RowProblem;
  }

  /** A valid row that is no spare stays valid as its migration is held and completed. */
  lemma HeldAndCompletedStayValid(row: Row, survivors: seq<Artifact>)
    requires RowProblem(row).None? && !row.kind.Spare?
    ensures RowProblem(row.(state := MigrationIncomplete, recovery := Some(survivors))).None?
    ensures RowProblem(row.(state := Active, recovery := None)).None?
  {
  }

  /** A spare cannot be held for a rename. */
  lemma SpareIsNotHeld(row: Row, survivors: seq<Artifact>)
    requires row.kind.Spare?
    ensures RowProblem(row.(state := MigrationIncomplete, recovery := Some(survivors))).Some?
  {
  }

  predicate IsHeld(tree: Tree, disk: Disk, key: string)
    requires key in tree.migrations
  {
    UnderOld(tree, disk, key) != []
  }

  function Holding(tree: Tree, key: string, survivors: seq<Artifact>): Tree
    requires key in tree.migrations && TokenOf(tree, key) in tree.rows
  {
    var token := TokenOf(tree, key);
    tree.(rows := tree.rows[token :=
            tree.rows[token].(state := MigrationIncomplete, recovery := Some(survivors))])
  }

  function Completing(tree: Tree, machine: string, now: string, key: string): Tree
    requires key in tree.migrations && TokenOf(tree, key) in tree.rows
  {
    var token := TokenOf(tree, key);
    tree.(
      rows := tree.rows[token := tree.rows[token].(state := Active, recovery := None)]
              - (if DropsOld(tree, machine, key) then {LastSegment(key)} else {}),
      migrations := tree.migrations[key := tree.migrations[key].(status := Complete, completedAt := Some(now))])
  }

  /** Settling a record with artifacts on both sides. */
  lemma HeldStep(snapshot: Tree, tip: Tree, machine: string, disk: Disk, now: string, key: string)
    requires RowsFit(tip) && key in snapshot.migrations && Get(tip.migrations, key) == Some(snapshot.migrations[key])
    requires ToSettle(snapshot, machine, disk, key) && IsHeld(snapshot, disk, key)
    ensures SettleOne(snapshot, tip, machine, disk, now, key)
            == if HasRow(tip, key) then (Holding(tip, key, UnderNew(snapshot, disk, key)), false) else (tip, true)
    ensures HasRow(tip, key) ==> RowsFit(Holding(tip, key, UnderNew(snapshot, disk, key)))
  {
    hide RowProblem, LastSegment;
    var token, survivors := TokenOf(tip, key), UnderNew(snapshot, disk, key);
    if token in tip.rows {
      assert RowFits(token, tip.rows[token]);
      if tip.rows[token].kind.Spare? {
        SpareIsNotHeld(tip.rows[token], survivors);
      } else {
        HeldAndCompletedStayValid(tip.rows[token], survivors);
        var row := tip.rows[token].(state := MigrationIncomplete, recovery := Some(survivors));
        ApplyRowChange(tip, map[token := Some(row)]);
        assert Written(tip.rows, map[token := Some(row)]) == tip.rows[token := row];
        UpdatedFits(tip, token, row);
      }
    }
  }

  lemma UpdatedFits(tip: Tree, token: string, row: Row)
    requires RowsFit(tip) && RowFits(token, row)
    ensures RowsFit(tip.(rows := tip.rows[token := row]))
  {
    hide RowFits;
  }

  /** Settling a record with artifacts under the new title only. */
  lemma CompletingStep(snapshot: Tree, tip: Tree, machine: string, disk: Disk, now: string, key: string)
    requires RowsFit(tip) && key in snapshot.migrations && Get(tip.migrations, key) == Some(snapshot.migrations[key])
    requires ToSettle(snapshot, machine, disk, key) && !IsHeld(snapshot, disk, key)
    ensures SettleOne(snapshot, tip, machine, disk, now, key)
            == if OwnsRow(tip, key) then (Completing(tip, machine, now, key), false) else (tip, true)
    ensures OwnsRow(tip, key) ==> RowsFit(Completing(tip, machine, now, key))
  {
    hide RowProblem;
    var token := TokenOf(tip, key);
    if token in tip.rows {
      assert RowFits(token, tip.rows[token]);
      ValidRowFields(tip.rows[token]);
      if OwnsRow(tip, key) {
        HeldAndCompletedStayValid(tip.rows[token], []);
        CompletedTree(tip, machine, now, key);
        UpdatedFits(tip, token, tip.rows[token].(state := Active, recovery := None));
      }
    }
  }

  lemma CompletedTree(tip: Tree, machine: string, now: string, key: string)
    requires key in tip.migrations && tip.migrations[key].status.Intent? && tip.migrations[key].machine == machine
    requires OwnsRow(tip, key)
    requires RowProblem(tip.rows[TokenOf(tip, key)].(state := Active, recovery := None)).None?
    ensures CompleteMigration(tip, key, machine, now).Write?
    ensures Apply(tip, CompleteMigration(tip, key, machine, now).change) == Completing(tip, machine, now, key)
  {
    hide RowProblem, LastSegment;
    var change := CompleteMigration(tip, key, machine, now).change;
    assert Written(tip.rows, change.rows) == Completing(tip, machine, now, key).rows;
    assert Written(tip.migrations, change.migrations) == Completing(tip, machine, now, key).migrations;
    WrittenNothing(tip.manual);
  }

  /** A record already complete is passed over. */
  lemma CompleteStep(snapshot: Tree, tip: Tree, machine: string, disk: Disk, now: string, key: string)
    requires key in snapshot.migrations && !snapshot.migrations[key].status.Intent?
    ensures SettleOne(snapshot, tip, machine, disk, now, key) == (tip, false)
  {
    hide CompleteMigration, MarkIncomplete;
  }

  /** A pass over two records. */
  lemma TwoSettled(snapshot: Tree, tip: Tree, machine: string, disk: Disk, now: string, k: string, l: string)
    requires k in snapshot.migrations && l in snapshot.migrations
    ensures
      var (next, raised) := SettleOne(snapshot, tip, machine, disk, now, k);
      Settle(snapshot, tip, machine, disk, now, [k, l]).0
      == if raised then next else SettleOne(snapshot, next, machine, disk, now, l).0
  {
    hide SettleOne;
    var next := SettleOne(snapshot, tip, machine, disk, now, k).0;
    assert [k, l][1..] == [l] && [l][1..] == [];
    assert Settle(snapshot, next, machine, disk, now, [l]).0 == SettleOne(snapshot, next, machine, disk, now, l).0;
  }

  /** Two standing renames with something under each new title, whose titles end in one name. */
  ghost predicate ShareName(tree: Tree, machine: string, disk: Disk, k: string, l: string) {
    && k != l && k in tree.migrations && l in tree.migrations
    && ToSettle(tree, machine, disk, k) && ToSettle(tree, machine, disk, l)
    && TokenOf(tree, k) == TokenOf(tree, l)
  }

  /** The first record is held, and the second completes on the same row. */
  predicate UndoneBy(tree: Tree, disk: Disk, k: string, l: string)
    requires k in tree.migrations && l in tree.migrations
  {
    IsHeld(tree, disk, k) && !IsHeld(tree, disk, l) && OwnsRow(tree, l)
  }

  /** A pass over the pair, and the pass after it. */
  ghost predicate Idempotent(tree: Tree, machine: string, disk: Disk, now: string, later: string, k: string, l: string)
    requires k in tree.migrations && l in tree.migrations
  {
    Repeats(tree, machine, disk, now, later, [k, l])
  }

  /** What a later snapshot finds for the rename `key`, with its row still there, is what this one finds. */
  ghost predicate Alike(tree: Tree, next: Tree, key: string) {
    && key in tree.migrations && key in next.migrations
    && next.migrations[key].newTitle == tree.migrations[key].newTitle
    && RepoOf(next, key) == RepoOf(tree, key)
  }

  lemma AlikeFinds(tree: Tree, next: Tree, disk: Disk, key: string)
    requires Alike(tree, next, key)
    ensures UnderNew(next, disk, key) == UnderNew(tree, disk, key)
    ensures IsHeld(next, disk, key) == IsHeld(tree, disk, key)
  {
  }

  lemma HoldingIsAlike(tree: Tree, key: string, survivors: seq<Artifact>, other: string)
    requires key in tree.migrations && TokenOf(tree, key) in tree.rows && other in tree.migrations
    ensures Alike(tree, Holding(tree, key, survivors), other)
    ensures OwnsRow(Holding(tree, key, survivors), other) == OwnsRow(tree, other)
    ensures HasRow(Holding(tree, key, survivors), other) == HasRow(tree, other)
  {
    hide LastSegment;
  }

  /** A rename that completes has left its old title, so its completion keeps the row it goes to. */
  lemma CompletingIsAlike(tree: Tree, machine: string, disk: Disk, now: string, key: string, other: string)
    requires key in tree.migrations && other in tree.migrations && TokenOf(tree, other) == TokenOf(tree, key)
    requires ToSettle(tree, machine, disk, key) && !IsHeld(tree, disk, key) && OwnsRow(tree, key)
    ensures Alike(tree, Completing(tree, machine, now, key), other)
    ensures HasRow(Completing(tree, machine, now, key), other)
    ensures OwnsRow(Completing(tree, machine, now, key), other) == OwnsRow(tree, other)
  {
    hide LastSegment;
  }

  /** What the first record of the pair refuses it refuses again. */
  lemma FirstRaises(tree: Tree, machine: string, disk: Disk, now: string, later: string, k: string, l: string)
    requires RowsFit(tree) && ShareName(tree, machine, disk, k, l)
    requires if IsHeld(tree, disk, k) then !HasRow(tree, k) else !OwnsRow(tree, k)
    ensures Idempotent(tree, machine, disk, now, later, k, l)
  {
    hide RowProblem, SettleOne, Settle, RowsFit, LastSegment;
    TwoSettled(tree, tree, machine, disk, now, k, l);
    TwoSettled(tree, tree, machine, disk, later, k, l);
    if IsHeld(tree, disk, k) {
      HeldStep(tree, tree, machine, disk, now, k);
      HeldStep(tree, tree, machine, disk, later, k);
    } else {
      CompletingStep(tree, tree, machine, disk, now, k);
      CompletingStep(tree, tree, machine, disk, later, k);
    }
  }

  /** Both held: the second's survivors stand, and stand again. */
  lemma BothHeld(tree: Tree, machine: string, disk: Disk, now: string, later: string, k: string, l: string)
    requires RowsFit(tree) && ShareName(tree, machine, disk, k, l)
    requires IsHeld(tree, disk, k) && IsHeld(tree, disk, l) && HasRow(tree, k)
    ensures Idempotent(tree, machine, disk, now, later, k, l)
  {
    hide RowProblem, SettleOne, Settle, RowsFit, LastSegment, UnderNew, UnderOld, RepoOf;
    var mine, theirs := UnderNew(tree, disk, k), UnderNew(tree, disk, l);
    TwoSettled(tree, tree, machine, disk, now, k, l);
    HeldStep(tree, tree, machine, disk, now, k);
    var first := Holding(tree, k, mine);
    HeldStep(tree, first, machine, disk, now, l);
    var once := Holding(first, l, theirs);
    assert once == Holding(tree, l, theirs);
    HoldingIsAlike(tree, l, theirs, k);
    HoldingIsAlike(tree, l, theirs, l);
    AlikeFinds(tree, once, disk, k);
    AlikeFinds(tree, once, disk, l);
    TwoSettled(once, once, machine, disk, later, k, l);
    HeldStep(once, once, machine, disk, later, k);
    HeldStep(once, Holding(once, k, mine), machine, disk, later, l);
    assert Holding(Holding(once, k, mine), l, theirs).rows == once.rows;
  }

  /** The first completes; whatever the second does, it does again or has done for good. */
  lemma FirstCompletes(tree: Tree, machine: string, disk: Disk, now: string, later: string, k: string, l: string)
    requires RowsFit(tree) && ShareName(tree, machine, disk, k, l)
    requires !IsHeld(tree, disk, k) && OwnsRow(tree, k)
    ensures Idempotent(tree, machine, disk, now, later, k, l)
  {
    hide RowProblem, SettleOne, Settle, RowsFit, LastSegment, UnderNew, UnderOld, RepoOf, DropsOld;
    TwoSettled(tree, tree, machine, disk, now, k, l);
    CompletingStep(tree, tree, machine, disk, now, k);
    var first := Completing(tree, machine, now, k);
    CompletingIsAlike(tree, machine, disk, now, k, l);
    if IsHeld(tree, disk, l) {
      HeldStep(tree, first, machine, disk, now, l);
      var once := Holding(first, l, UnderNew(tree, disk, l));
      HoldingIsAlike(first, l, UnderNew(tree, disk, l), l);
      AlikeFinds(tree, once, disk, l);
      TwoSettled(once, once, machine, disk, later, k, l);
      CompleteStep(once, once, machine, disk, later, k);
      HeldStep(once, once, machine, disk, later, l);
      assert Holding(once, l, UnderNew(tree, disk, l)).rows == once.rows;
    } else {
      CompletingStep(tree, first, machine, disk, now, l);
      var once := if OwnsRow(first, l) then Completing(first, machine, now, l) else first;
      TwoSettled(once, once, machine, disk, later, k, l);
      CompleteStep(once, once, machine, disk, later, k);
      if OwnsRow(first, l) {
        CompleteStep(once, once, machine, disk, later, l);
      } else {
        AlikeFinds(tree, first, disk, l);
        CompletingStep(once, once, machine, disk, later, l);
      }
    }
  }

  /** The first is held and the second completes after it: the next pass holds the row again. */
  lemma HeldThenCompletes(tree: Tree, machine: string, disk: Disk, now: string, later: string, k: string, l: string)
    requires RowsFit(tree) && ShareName(tree, machine, disk, k, l)
    requires IsHeld(tree, disk, k) && !IsHeld(tree, disk, l) && HasRow(tree, k) && OwnsRow(tree, l)
    ensures !Idempotent(tree, machine, disk, now, later, k, l)
  {
    hide RowProblem, SettleOne, Settle, RowsFit, LastSegment, UnderNew, UnderOld, RepoOf, DropsOld;
    var survivors := UnderNew(tree, disk, k);
    TwoSettled(tree, tree, machine, disk, now, k, l);
    HeldStep(tree, tree, machine, disk, now, k);
    var first := Holding(tree, k, survivors);
    HoldingIsAlike(tree, k, survivors, k);
    HoldingIsAlike(tree, k, survivors, l);
    AlikeFinds(tree, first, disk, l);
    CompletingStep(tree, first, machine, disk, now, l);
    var once := Completing(first, machine, now, l);
    CompletingIsAlike(first, machine, disk, now, l, k);
    AlikeFinds(tree, once, disk, k);
    TwoSettled(once, once, machine, disk, later, k, l);
    HeldStep(once, once, machine, disk, later, k);
    var again := Holding(once, k, survivors);
    CompleteStep(once, again, machine, disk, later, l);
    assert again.rows[TokenOf(tree, k)] != once.rows[TokenOf(tree, k)];
  }

  /** The first is held, and the second refuses to complete on its row, each time. */
  lemma HeldThenRefuses(tree: Tree, machine: string, disk: Disk, now: string, later: string, k: string, l: string)
    requires RowsFit(tree) && ShareName(tree, machine, disk, k, l)
    requires IsHeld(tree, disk, k) && !IsHeld(tree, disk, l) && HasRow(tree, k) && !OwnsRow(tree, l)
    ensures Idempotent(tree, machine, disk, now, later, k, l)
  {
    hide RowProblem, SettleOne, Settle, RowsFit, LastSegment, UnderNew, UnderOld, RepoOf;
    var survivors := UnderNew(tree, disk, k);
    TwoSettled(tree, tree, machine, disk, now, k, l);
    HeldStep(tree, tree, machine, disk, now, k);
    var first := Holding(tree, k, survivors);
    HoldingIsAlike(tree, k, survivors, k);
    HoldingIsAlike(tree, k, survivors, l);
    AlikeFinds(tree, first, disk, k);
    AlikeFinds(tree, first, disk, l);
    CompletingStep(tree, first, machine, disk, now, l);
    TwoSettled(first, first, machine, disk, later, k, l);
    HeldStep(first, first, machine, disk, later, k);
    var again := Holding(first, k, survivors);
    assert again.rows == first.rows;
    CompletingStep(first, again, machine, disk, later, l);
  }

  /**
   * The condition on names is needed, and this is all of it for a pair: when two standing renames go to titles with one
   * last segment, a second pass changes the tree again exactly when the first of them in the pass is held and the
   * second completes on the same row. In the other order, with both held, or with both complete, it is idempotent.
   */
  lemma SharedNameUnsettlesIff(tree: Tree, machine: string, disk: Disk, now: string, later: string, k: string,
                               l: string)
    requires RowsFit(tree) && ShareName(tree, machine, disk, k, l)
    ensures Idempotent(tree, machine, disk, now, later, k, l)
            <==> !UndoneBy(tree, disk, k, l)
  {
    hide RowProblem, SettleOne, Settle, RowsFit, LastSegment, Idempotent;
    if if IsHeld(tree, disk, k) then !HasRow(tree, k) else !OwnsRow(tree, k) {
      FirstRaises(tree, machine, disk, now, later, k, l);
    } else if !IsHeld(tree, disk, k) {
      FirstCompletes(tree, machine, disk, now, later, k, l);
    } else if IsHeld(tree, disk, l) {
      BothHeld(tree, machine, disk, now, later, k, l);
    } else if OwnsRow(tree, l) {
      HeldThenCompletes(tree, machine, disk, now, later, k, l);
    } else {
      HeldThenRefuses(tree, machine, disk, now, later, k, l);
    }
  }

  /** A pass over three records. */
  lemma ThreeSettled(snapshot: Tree, tip: Tree, machine: string, disk: Disk, now: string, l: string, k: string,
                     c: string)
    requires l in snapshot.migrations && k in snapshot.migrations && c in snapshot.migrations
    ensures
      var (next, raised) := SettleOne(snapshot, tip, machine, disk, now, l);
      Settle(snapshot, tip, machine, disk, now, [l, k, c]).0
      == if raised then next else Settle(snapshot, next, machine, disk, now, [k, c]).0
  {
    hide SettleOne;
    assert [l, k, c][1..] == [k, c];
  }

  /** What the first pass finds for a stranded rename, and where the second looks. */
  ghost predicate Misled(tree: Tree, machine: string, disk: Disk, l: string, k: string, c: string) {
    && Stranded(tree, machine, l, k, c)
    && UnderNew(tree, disk, l) != [] && !IsHeld(tree, disk, l)
    && UnderNew(tree, disk, k) != [] && Under(disk, "", tree.migrations[k].newTitle) == []
    && UnderNew(tree, disk, c) != []
    && if IsHeld(tree, disk, c) then tree.rows[TokenOf(tree, c)].recovery != Some(UnderNew(tree, disk, c))
       else OwnsRow(tree, c)
  }

  /** The row `k` goes to is dropped, and those of the others are not. */
  lemma DropsTheRow(tree: Tree, machine: string, now: string, l: string, k: string, c: string)
    requires NewNamesDiffer(tree, machine) && Stranded(tree, machine, l, k, c)
    ensures
      var next := Completing(tree, machine, now, l);
      && next.migrations.Keys == tree.migrations.Keys
      && TokenOf(next, k) !in next.rows && RepoOf(next, k) == "" && !HasRow(next, k)
      && next.migrations[k] == tree.migrations[k] && next.migrations[c] == tree.migrations[c]
      && next.migrations[l].status.Complete?
      && TokenOf(next, c) in next.rows && next.rows[TokenOf(next, c)] == tree.rows[TokenOf(tree, c)]
      && Alike(tree, next, c) && HasRow(next, c) && OwnsRow(next, c) == OwnsRow(tree, c)
  {
    hide LastSegment;
    assert TokenOf(tree, k) != TokenOf(tree, l) && TokenOf(tree, c) != TokenOf(tree, k);
  }

  /** The first pass completes `l`, dropping the row of `k`, and raises at `k`. */
  lemma FirstPassRaises(tree: Tree, machine: string, disk: Disk, now: string, l: string, k: string, c: string)
    requires RowsFit(tree) && NewNamesDiffer(tree, machine) && Misled(tree, machine, disk, l, k, c)
    ensures Settle(tree, tree, machine, disk, now, [l, k, c]).0 == Completing(tree, machine, now, l)
    ensures RowsFit(Completing(tree, machine, now, l))
  {
    hide RowProblem, SettleOne, Settle, RowsFit, LastSegment, UnderNew, UnderOld, RepoOf, DropsOld, NewNamesDiffer,
         Completing;
    ThreeSettled(tree, tree, machine, disk, now, l, k, c);
    CompletingStep(tree, tree, machine, disk, now, l);
    var next := Completing(tree, machine, now, l);
    DropsTheRow(tree, machine, now, l, k, c);
    TwoSettled(tree, next, machine, disk, now, k, c);
    if IsHeld(tree, disk, k) {
      HeldStep(tree, next, machine, disk, now, k);
    } else {
      CompletingStep(tree, next, machine, disk, now, k);
    }
  }

  lemma FindsNothing(tree: Tree, machine: string, disk: Disk, now: string, k: string)
    requires k in tree.migrations && RepoOf(tree, k) == "" && Under(disk, "", tree.migrations[k].newTitle) == []
    ensures SettleOne(tree, tree, machine, disk, now, k) == (tree, false)
  {
    hide CompleteMigration, MarkIncomplete;
  }

  /**
   * The condition on stranded renames is needed. The first pass completes `l` and with it drops the row of `k`, finds
   * something under the new title of `k`, raises on the missing row, and never reaches `c`. The second has no row to
   * say in which checkout to look for `k`, finds nothing, passes it over, and settles `c`.
   */
  lemma StrandedUnsettles(tree: Tree, machine: string, disk: Disk, now: string, later: string, l: string, k: string,
                          c: string)
    requires RowsFit(tree) && NewNamesDiffer(tree, machine) && Misled(tree, machine, disk, l, k, c)
    ensures !Repeats(tree, machine, disk, now, later, [l, k, c])
  {
    hide RowProblem, SettleOne, Settle, RowsFit, LastSegment, UnderNew, UnderOld, RepoOf, DropsOld, NewNamesDiffer;
    var once := Completing(tree, machine, now, l);
    FirstPassRaises(tree, machine, disk, now, l, k, c);
    DropsTheRow(tree, machine, now, l, k, c);
    AlikeFinds(tree, once, disk, c);
    ThreeSettled(once, once, machine, disk, later, l, k, c);
    TwoSettled(once, once, machine, disk, later, k, c);
    CompleteStep(once, once, machine, disk, later, l);
    FindsNothing(once, machine, disk, later, k);
    if IsHeld(tree, disk, c) {
      HeldStep(once, once, machine, disk, later, c);
      assert Holding(once, c, UnderNew(tree, disk, c)).rows[TokenOf(once, c)] != once.rows[TokenOf(once, c)];
    } else {
      CompletingStep(once, once, machine, disk, later, c);
      assert Completing(once, machine, later, c).migrations[c] != once.migrations[c];
    }
  }

  const FOUND := [Artifact("worktree", "there")]

  /** What to find under the third title, so that holding it changes its row. */
  function Survivors(row: Row): seq<Artifact> {
    if row.recovery == Some(FOUND) then FOUND + FOUND else FOUND
  }

  /** A disk on which a stranded rename misleads the second pass. */
  lemma StrandingDisk(tree: Tree, machine: string, l: string, k: string, c: string) returns (disk: Disk)
    requires NewNamesDiffer(tree, machine) && Stranded(tree, machine, l, k, c)
    ensures Misled(tree, machine, disk, l, k, c)
  {
    hide LastSegment, RepoOf;
    var survivors := Survivors(tree.rows[TokenOf(tree, c)]);
    disk := map[
      (RepoOf(tree, l), tree.migrations[l].newTitle) := FOUND,
      (RepoOf(tree, k), tree.migrations[k].newTitle) := FOUND];
    if c != tree.migrations[k].newTitle || RepoOf(tree, c) != "" {
      disk := disk[(RepoOf(tree, c), c) := FOUND];
    }
    disk := disk[(RepoOf(tree, c), tree.migrations[c].newTitle) := survivors];
    assert TokenOf(tree, k) != TokenOf(tree, l) && TokenOf(tree, c) != TokenOf(tree, k);
    assert TokenOf(tree, c) != TokenOf(tree, l);
  }

  /** Recovery of these renames is idempotent whatever is on disk, whenever it runs and in whatever order. */
  ghost predicate AlwaysRepeats(tree: Tree, machine: string) {
    forall disk: Disk, now, later, order: seq<string>
      | Distinct(order) && forall key | key in order :: key in tree.migrations ::
      Repeats(tree, machine, disk, now, later, order)
  }

  /** While standing renames go to different names, recovery is idempotent on every disk just when none is stranded. */
  lemma RecoverTwiceIff(tree: Tree, machine: string)
    requires RowsFit(tree) && NewNamesDiffer(tree, machine)
    ensures AlwaysRepeats(tree, machine) <==> NoneStranded(tree, machine)
  {
    hide RowsFit, NewNamesDiffer, Repeats, Stranded;
    if NoneStranded(tree, machine) {
      forall disk: Disk, now, later, order: seq<string>
        | Distinct(order) && forall key | key in order :: key in tree.migrations
        ensures Repeats(tree, machine, disk, now, later, order)
      {
        RecoverTwice(tree, machine, disk, now, later, order);
      }
    } else {
      var l, k, c :| Stranded(tree, machine, l, k, c);
      var disk := StrandingDisk(tree, machine, l, k, c);
      ThreeAreDistinct(tree, machine, l, k, c);
      StrandedUnsettles(tree, machine, disk, "", "", l, k, c);
    }
  }

  lemma ThreeAreDistinct(tree: Tree, machine: string, l: string, k: string, c: string)
    requires Stranded(tree, machine, l, k, c)
    ensures Distinct([l, k, c]) && forall key | key in [l, k, c] :: key in tree.migrations
  {
  }
}

/** One isolated template update: nothing an earlier run left is lost, and neither is a failed update. */
module IsolatedUpdate {
  import opened Wrappers
  import opened Anchors

  /** A linked checkout: its HEAD, what its index stages, the files on disk, and what it is in the middle of. */
  datatype Checkout = Checkout(head: Commit, index: Files, files: Files, ignored: set<string>, inProgress: set<string>)
  {
    /** The tree `add -A` and `write-tree` make in a copy of the index: an untracked ignored file is not in it. */
    function Snapshot(): Files {
      files - set p | p in files && p !in index && p in ignored
    }

    /** `git status --porcelain` prints nothing. */
    predicate Clean() {
      && index == head.tree
      && (forall p | p in index :: p in files && files[p] == index[p])
      && (forall p | p in files :: p in index || p in ignored)
    }

    /** `git reset --hard HEAD`. */
    function Reset(): Checkout { this.(index := head.tree, files := (files - index.Keys) + head.tree) }

    /** `git clean -fd`. */
    function Cleaned(): Checkout { this.(files := files - set p | p in files && p !in index && p !in ignored) }
  }

  /** This tree is the checkout's content as it is on disk, but for untracked ignored files. */
  ghost predicate HasContent(tree: Files, c: Checkout) {
    forall p :: Get(tree, p) == if p in c.files && (p in c.index || p !in c.ignored) then Some(c.files[p]) else None
  }

  lemma SnapshotHasContent(c: Checkout)
    ensures HasContent(c.Snapshot(), c)
  {
  }

  /**
   * What a reset and a clean leave: HEAD's files as HEAD has them, and of the others just those that were neither
   * tracked nor shown by `git status`, as they were.
   */
  lemma ResetThenCleanedAt(c: Checkout, p: string)
    ensures
      var after := c.Reset().Cleaned();
      && after == c.(index := c.head.tree, files := after.files)
      && Get(after.files, p)
         == if p in c.head.tree then Some(c.head.tree[p])
            else if p in c.files && p !in c.index && p in c.ignored then Some(c.files[p])
            else None
  {
  }

  /** A clean checkout holds only what its HEAD holds, ignored files aside. */
  lemma CleanIsHead(c: Checkout)
    requires c.Clean()
    ensures c.Snapshot() == c.head.tree
  {
    assert c.Snapshot().Keys == c.head.tree.Keys;
  }

  /** A snapshot is all of the checkout exactly when every untracked file is one Git does not ignore. */
  lemma SnapshotIsWhole(c: Checkout)
    ensures c.Snapshot() == c.files <==> forall p | p in c.files :: p in c.index || p !in c.ignored
  {
    if forall p | p in c.files :: p in c.index || p !in c.ignored {
      assert c.Snapshot().Keys == c.files.Keys;
    }
  }

  lemma ResetThenCleaned(c: Checkout)
    ensures c.Reset().Cleaned().Clean()
  {
  }

  /** Every commit reachable from `c`, as `rev-list` counts them. */
  function Ancestors(c: Commit): set<Commit>
    decreases c
  {
    {c} + AncestorsOfAll(c.parents)
  }

  function AncestorsOfAll(cs: seq<Commit>): set<Commit>
    decreases cs
  {
    if cs == [] then {} else Ancestors(cs[0]) + AncestorsOfAll(cs[1..])
  }

  /** `rev-list --count base..tip`. */
  function Ahead(base: Commit, tip: Commit): nat { |Ancestors(tip) - Ancestors(base)| }

  lemma {:induction false} AncestorsReached(c: Commit, d: Commit)
    ensures d in Ancestors(c) <==> Reaches(c, d)
    decreases c, 0
  {
    AncestorsOfAllReached(c.parents, d);
  }

  lemma {:induction false} AncestorsOfAllReached(cs: seq<Commit>, d: Commit)
    ensures d in AncestorsOfAll(cs) <==> exists i | 0 <= i < |cs| :: Reaches(cs[i], d)
    decreases cs, 1
  {
    if cs != [] {
      AncestorsReached(cs[0], d);
      AncestorsOfAllReached(cs[1..], d);
      assert forall i | 1 <= i < |cs| :: cs[i] == cs[1..][i - 1];
      assert (exists i | 0 <= i < |cs[1..]| :: Reaches(cs[1..][i], d)) ==> exists i | 1 <= i < |cs| :: Reaches(cs[i], d)
      by {
        if i :| 0 <= i < |cs[1..]| && Reaches(cs[1..][i], d) {
          assert Reaches(cs[i + 1], d);
        }
      }
    }
  }

  /** A tip is no commits ahead of its base exactly when the base reaches it. */
  lemma NothingAhead(base: Commit, tip: Commit)
    ensures Ahead(base, tip) == 0 <==> Reaches(base, tip)
  {
    AncestorsReached(base, tip);
    AncestorsReached(tip, tip);
    if Reaches(base, tip) {
      forall d | d in Ancestors(tip) ensures d in Ancestors(base) {
        AncestorsReached(tip, d);
        AncestorsReached(base, d);
        ReachesThrough(base, tip, d);
      }
      assert Ancestors(tip) - Ancestors(base) == {};
    } else {
      assert tip in Ancestors(tip) - Ancestors(base);
    }
  }

  /** What a run finds at the worktree's place: its registration, its directory, and its branch. */
  datatype Leftover = Leftover(registered: bool, checkout: Option<Checkout>, branch: Option<Commit>)

  const NOTHING := Leftover(false, None, None)

  /** What `_leftover_hold_reason` reads; None is a command that failed or timed out. */
  datatype Readings = Readings(
    registered: Option<bool>,
    present: bool,
    branchTip: Option<Option<Commit>>,
    base: Option<Commit>,
    gitDir: bool,
    markers: set<string>,
    clean: Option<bool>,
    headAhead: Option<nat>,
    branchAhead: Option<nat>)

  /** Each reading that did not fail is what is there. */
  ghost predicate Accurate(r: Readings, left: Leftover) {
    && (r.registered.Some? ==> r.registered.value == left.registered)
    && r.present == left.checkout.Some?
    && (r.branchTip.Some? ==> r.branchTip.value == left.branch)
    && (left.checkout.Some? ==>
          var c := left.checkout.value;
          && r.markers == c.inProgress
          && (r.clean.Some? ==> r.clean.value == c.Clean())
          && (r.base.Some? && r.headAhead.Some? ==> r.headAhead.value == Ahead(r.base.value, c.head)))
    && (left.branch.Some? && r.base.Some? && r.branchAhead.Some? ==>
          r.branchAhead.value == Ahead(r.base.value, left.branch.value))
  }

  datatype Hold =
    | ListUnread | BranchUnread | Unregistered | DirectoryMissing | BaseUnread | GitDirUnread
    | InProgress(markers: set<string>) | StatusUnread | Dirty | CommitsUncounted | HeadAhead(commits: nat)
    | BranchUncounted | BranchAhead(commits: nat)

  /** `_leftover_hold_reason`. */
  function HoldReason(r: Readings): Option<Hold> {
    if r.registered.None? then Some(ListUnread)
    else if r.branchTip.None? then Some(BranchUnread)
    else if !r.registered.value && !r.present && r.branchTip.value.None? then None
    else if r.present && !r.registered.value then Some(Unregistered)
    else if r.registered.value && !r.present then Some(DirectoryMissing)
    else if r.base.None? then Some(BaseUnread)
    else
      var checkoutHold :=
        if !r.registered.value then None
        else if !r.gitDir then Some(GitDirUnread)
        else if r.markers != {} then Some(InProgress(r.markers))
        else if r.clean.None? then Some(StatusUnread)
        else if !r.clean.value then Some(Dirty)
        else if r.headAhead.None? then Some(CommitsUncounted)
        else if r.headAhead.value != 0 then Some(HeadAhead(r.headAhead.value))
        else None;
      if checkoutHold.Some? then checkoutHold
      else if r.branchTip.value.None? then None
      else if r.branchAhead.None? then Some(BranchUncounted)
      else if r.branchAhead.value != 0 then Some(BranchAhead(r.branchAhead.value))
      else None
  }

  /**
   * Removing this loses nothing Git tracks or would add: a clean checkout in the middle of nothing, and no commit the
   * base does not have. Its untracked ignored files go with it.
   */
  ghost predicate Disposable(left: Leftover, base: Commit) {
    && left.registered == left.checkout.Some?
    && (left.checkout.Some? ==>
          var c := left.checkout.value;
          c.inProgress == {} && c.Clean() && HasContent(c.head.tree, c) && Reaches(base, c.head))
    && (left.branch.Some? ==> Reaches(base, left.branch.value))
  }

  /** What the removal of a disposable checkout loses is exactly its untracked ignored files. */
  lemma RemovalLosesOnlyIgnored(left: Leftover, base: Commit, p: string)
    requires Disposable(left, base) && left.checkout.Some? && p in left.checkout.value.files
    ensures
      var c := left.checkout.value;
      && Reaches(base, c.head)
      && (Get(c.head.tree, p) == Some(c.files[p]) <==> !(p !in c.index && p in c.ignored))
  {
  }

  /** The reason given for keeping an earlier run's leavings is there: what was found, or what could not be read. */
  lemma HoldSays(r: Readings)
    ensures
      match HoldReason(r)
      case None => true
      case Some(hold) =>
        match hold
        case ListUnread => r.registered.None?
        case BranchUnread => r.branchTip.None?
        case Unregistered => r.present && r.registered == Some(false)
        case DirectoryMissing => !r.present && r.registered == Some(true)
        case BaseUnread => r.base.None?
        case GitDirUnread => !r.gitDir
        case InProgress(markers) => markers == r.markers != {}
        case StatusUnread => r.clean.None?
        case Dirty => r.clean == Some(false)
        case CommitsUncounted => r.headAhead.None?
        case HeadAhead(commits) => commits > 0 && r.headAhead == Some(commits)
        case BranchUncounted => r.branchAhead.None?
        case BranchAhead(commits) => commits > 0 && r.branchAhead == Some(commits)
  {
  }

  predicate AllRead(r: Readings) {
    && r.registered.Some? && r.branchTip.Some? && r.base.Some? && r.gitDir && r.clean.Some?
    && r.headAhead.Some? && r.branchAhead.Some?
  }

  /** The earlier run's leavings are let go only when they are disposable; when all can be read, exactly then. */
  lemma HoldsUnlessDisposable(r: Readings, left: Leftover, base: Commit)
    requires Accurate(r, left) && (r.base.Some? ==> r.base.value == base)
    ensures HoldReason(r).None? ==> Disposable(left, base)
    ensures AllRead(r) ==> (HoldReason(r).None? <==> Disposable(left, base))
  {
    if left.checkout.Some? {
      NothingAhead(base, left.checkout.value.head);
      if left.checkout.value.Clean() {
        CleanIsHead(left.checkout.value);
        SnapshotHasContent(left.checkout.value);
      }
    }
    if left.branch.Some? {
      NothingAhead(base, left.branch.value);
    }
  }

  /** This commit holds the checkout's content on its HEAD. */
  ghost predicate Keeps(snapshot: Commit, c: Checkout) {
    snapshot.parents != [] && snapshot.parents[0] == c.head && HasContent(snapshot.tree, c)
  }

  /** `ref` reaches a commit that holds this checkout's content on its HEAD. */
  ghost predicate Anchored(backups: map<string, Commit>, ref: string, c: Checkout) {
    ref in backups && exists snapshot :: Reaches(backups[ref], snapshot) && Keeps(snapshot, c)
  }

  /** Backup refs only grow. */
  ghost predicate BackupsGrow(before: map<string, Commit>, after: map<string, Commit>, ref: string) {
    && Grown(Get(before, ref), Get(after, ref))
    && forall r | r != ref :: Get(after, r) == Get(before, r)
  }

  /** Another run's anchor on the same ref, between two steps of this one. */
  datatype Rival = Rival(head: Commit, tree: Files)

  function AfterRivals(tip: Option<Commit>, rivals: seq<Rival>): Option<Commit>
    decreases |rivals|
  {
    if rivals == [] then tip else AfterRivals(Some(Anchor(tip, rivals[0].head, rivals[0].tree)), rivals[1..])
  }

  lemma {:induction false} RivalsGrow(tip: Option<Commit>, rivals: seq<Rival>)
    ensures Grown(tip, AfterRivals(tip, rivals))
    decreases |rivals|
  {
    if rivals != [] {
      var next := Anchor(tip, rivals[0].head, rivals[0].tree);
      AnchorReaches(tip, rivals[0].head, rivals[0].tree);
      RivalsGrow(Some(next), rivals[1..]);
      if tip.Some? {
        ReachesThrough(AfterRivals(tip, rivals).value, next, tip.value);
      }
    }
  }

  lemma AnchoredStays(before: map<string, Commit>, after: map<string, Commit>, ref: string, c: Checkout)
    requires Anchored(before, ref, c) && BackupsGrow(before, after, ref)
    ensures Anchored(after, ref, c)
  {
    var snapshot :| Reaches(before[ref], snapshot) && Keeps(snapshot, c);
    ReachesThrough(after[ref], before[ref], snapshot);
  }

  /**
   * What befalls one recovery: how many of the steps that may raise succeed, what other runs anchor meanwhile,
   * and what an interrupted or failed destructive command leaves.
   */
  datatype Fate = Fate(
    steps: nat,
    beforeSwap: seq<Rival>,
    beforeVerify: seq<Rival>,
    beforeCheck: seq<Rival>,
    listed: bool,
    partial: Option<Checkout>,
    residue: Leftover,
    filed: bool)

  datatype Status = Updated | NoChange | Conflict | ParityFail | PushFail | Failed
  {
    predicate Recovers() { this.Conflict? || this.ParityFail? || this.PushFail? }
  }

  /** One run's surroundings: what it reads, what its update leaves and reports, and what befalls its recovery. */
  datatype Run = Run(
    readings: Readings,
    base: Commit,
    leftoverResidue: Leftover,
    added: bool,
    left: Checkout,
    status: Status,
    statusRead: bool,
    ahead: Option<nat>,
    ref: string,
    fate: Fate)

  /** No step raises, no other run anchors meanwhile, and there is an update to keep. */
  predicate Untroubled(run: Run) {
    && run.statusRead
    && (run.status.PushFail? ==> run.ahead.Some? && run.ahead.value > 0)
    && run.fate.steps >= 16
    && run.fate.beforeSwap == [] && run.fate.beforeVerify == [] && run.fate.beforeCheck == []
    && run.fate.listed && run.fate.residue == NOTHING && run.fate.filed
  }

  datatype Outcome = Kept(why: Hold) | AddFailed | Recovered(status: Status) | RecoveryFail | Finished(status: Status)

  class Project {
    var place: Leftover
    var backups: map<string, Commit>

    /** Other runs anchor their own failed updates on the ref. */
    method Rivals(ref: string, rivals: seq<Rival>)
      modifies this`backups
      ensures Get(backups, ref) == AfterRivals(old(Get(backups, ref)), rivals)
      ensures BackupsGrow(old(backups), backups, ref)
    {
      RivalsGrow(Get(backups, ref), rivals);
      var tip := AfterRivals(Get(backups, ref), rivals);
      if tip.Some? {
        backups := backups[ref := tip.value];
      }
    }

    /** `_anchor_failed_update`: seven reads of the checkout, the commit, the swap, and the check of what it wrote. */
    method AnchorFailedUpdate(ref: string, fate: Fate) returns (raised: bool)
      modifies this`backups
      ensures BackupsGrow(old(backups), backups, ref)
      ensures !raised ==> place.checkout.Some? && Anchored(backups, ref, place.checkout.value)
      ensures !raised ==>
                ref in backups && Keeps(backups[ref], place.checkout.value)
      ensures place.checkout.Some? && fate.steps >= 10 && fate.beforeSwap == [] && fate.beforeVerify == [] ==> !raised
    {
      raised := true;
      if place.checkout.None? || fate.steps < 8 {
        return;
      }
      var checkout := place.checkout.value;
      var previous := Get(backups, ref);
      var commit := Anchor(previous, checkout.head, checkout.Snapshot());
      Rivals(ref, fate.beforeSwap);
      if fate.steps < 9 || Get(backups, ref) != previous {
        return;
      }
      AnchorReaches(previous, checkout.head, checkout.Snapshot());
      backups := backups[ref := commit];
      SnapshotHasContent(checkout);
      assert Keeps(commit, checkout);
      ghost var swapped := backups;
      Rivals(ref, fate.beforeVerify);
      if swapped != backups {
        AnchoredStays(swapped, backups, ref, checkout);
      }
      GrowthChains(old(backups), swapped, backups, ref);
      raised := fate.steps < 10 || backups[ref] != commit;
    }

    /** `_check_recovery_target`; true when it raises. */
    predicate TargetMoved(ref: string, listed: bool)
      reads this
    {
      || !listed || !place.registered || place.checkout.None? || ref !in backups
      || backups[ref].parents == [] || place.checkout.value.head != backups[ref].parents[0]
    }

    /** `_clean_anchored_pushfail`, once its target is checked; an interrupted step leaves anything. */
    method CleanAnchored(fate: Fate) returns (raised: bool)
      requires place.checkout.Some?
      modifies this`place
      ensures place.registered == old(place.registered) && place.branch == old(place.branch)
      ensures raised <==> fate.steps < 15
      ensures !raised ==> place.checkout == Some(old(place.checkout).value.Reset().Cleaned())
    {
      if fate.steps < 14 {
        place := place.(checkout := fate.partial);
        return true;
      }
      var cleaned := place.checkout.value.Reset().Cleaned();
      ResetThenCleaned(place.checkout.value);
      place := place.(checkout := Some(cleaned));
      raised := fate.steps < 15 || !cleaned.Clean();
    }

    /** The recovery of a failed update: anchor it, file it, check the target, and only then destroy anything. */
    method Recover(run: Run) returns (outcome: Outcome)
      requires place.checkout == Some(run.left) && run.status.Recovers()
      modifies this
      ensures outcome.Recovered? || outcome.RecoveryFail?
      ensures outcome.Recovered? ==> outcome.status == run.status
      ensures BackupsGrow(old(backups), backups, run.ref)
      ensures place == old(place) || Anchored(backups, run.ref, run.left)
      ensures place != old(place) ==>
                && old(place).registered && run.fate.listed
                && run.ref in backups && backups[run.ref].parents != [] && backups[run.ref].parents[0] == run.left.head
      ensures outcome.Recovered? ==> place == NOTHING && Anchored(backups, run.ref, run.left)
      ensures old(place).registered && Untroubled(run) ==> outcome.Recovered?
      ensures outcome.Recovered? && run.status.PushFail? ==> run.ahead.Some? && run.ahead.value > 0
    {
      outcome := RecoveryFail;
      if !run.statusRead || (run.status.PushFail? && run.ahead.None?) {
        return;
      }
      var keepCommit := run.status.PushFail? && run.ahead.value > 0;
      var raised := AnchorFailedUpdate(run.ref, run.fate);
      if raised {
        return;
      }
      ghost var anchored := backups;
      Rivals(run.ref, run.fate.beforeCheck);
      AnchoredStays(anchored, backups, run.ref, run.left);
      GrowthChains(old(backups), anchored, backups, run.ref);
      if run.fate.steps < 13 || TargetMoved(run.ref, run.fate.listed) {
        return;
      }
      if keepCommit {
        raised := CleanAnchored(run.fate);
        if raised {
          return;
        }
      }
      place := run.fate.residue;
      if run.fate.steps < 16 || place != NOTHING || !run.fate.filed || (run.status.PushFail? && !keepCommit) {
        return;
      }
      outcome := Recovered(run.status);
    }

    /**
     * `_update_one_isolated`: an earlier run's leavings are kept as they were unless they are disposable, and
     * whatever fails afterwards, a conflicted, incomplete or unpushed update stays in its checkout or is anchored.
     */
    method UpdateOneIsolated(run: Run) returns (outcome: Outcome)
      requires Accurate(run.readings, place)
      requires run.readings.base.Some? ==> run.readings.base.value == run.base
      modifies this
      ensures outcome.Kept? <==> HoldReason(run.readings).Some?
      ensures outcome.Kept? ==> place == old(place) && backups == old(backups)
      ensures !outcome.Kept? ==> Disposable(old(place), run.base)
      ensures BackupsGrow(old(backups), backups, run.ref)
      ensures outcome.RecoveryFail? || outcome.Recovered? <==>
                HoldReason(run.readings).None? && run.added && run.status in {Conflict, ParityFail, PushFail}
      ensures outcome.RecoveryFail? || outcome.Recovered? ==>
                place.checkout == Some(run.left) || Anchored(backups, run.ref, run.left)
      ensures outcome.Recovered? ==> place == NOTHING && Anchored(backups, run.ref, run.left)
      ensures HoldReason(run.readings).None? && run.added && run.status.Recovers() && Untroubled(run) ==>
                outcome.Recovered?
    {
      HoldsUnlessDisposable(run.readings, place, run.base);
      var hold := HoldReason(run.readings);
      if hold.Some? {
        return Kept(hold.value);
      }
      place := run.leftoverResidue;
      if !run.added {
        place := run.fate.residue;
        return AddFailed;
      }
      place := Leftover(true, Some(run.left), Some(run.left.head));
      if run.status.Recovers() {
        outcome := Recover(run);
      } else {
        place := run.fate.residue;
        outcome := Finished(run.status);
      }
    }
  }

  lemma GrowthChains(a: map<string, Commit>, b: map<string, Commit>, c: map<string, Commit>, ref: string)
    requires BackupsGrow(a, b, ref) && BackupsGrow(b, c, ref)
    ensures BackupsGrow(a, c, ref)
  {
    if ref in a {
      ReachesThrough(c[ref], b[ref], a[ref]);
    }
  }
}

/** Releasing names: the two absence probes, a reconcile's release commit, and the by-hand commands. */
module Release {
  import opened Wrappers
  import opened Rows
  import opened Registry
  import opened Picker

  /** A rename recorded as an intent still needs this row, as its old or its new title. */
  predicate Renaming(tree: Tree, row: Row) {
    exists key | key in tree.migrations ::
      && tree.migrations[key].status.Intent?
      && (row.title == Some(tree.migrations[key].oldTitle) || row.title == Some(tree.migrations[key].newTitle))
  }

  datatype Probe = Present | Absent | Unknown

  datatype Absence = Absence(worktree: Probe, transcript: Probe)
  {
    predicate Releasable() { worktree.Absent? && transcript.Absent? }
  }

  /** What a probe of one row reads on this host: the disk, git's worktree list, and each client's own store. */
  datatype Evidence = Evidence(
    directoryExists: bool,
    repoExists: bool,
    registered: Option<bool>,
    stores: map<string, Probe>)

  predicate Filled(text: Option<string>) { text.Some? && text.value != "" }

  /** `probe_absence`. */
  function ProbeAbsence(row: Row, seen: Evidence): Absence {
    var worktree :=
      if !Filled(row.worktree) || !Filled(row.repo) then Absent
      else if seen.directoryExists then Present
      else if !seen.repoExists then Absent
      else if seen.registered.None? then Unknown
      else if seen.registered.value then Present
      else Absent;
    Absence(worktree, if row.client.Some? && row.client.value in seen.stores then seen.stores[row.client.value]
                      else Unknown)
  }

  /**
   * Both probes find the row's session gone: a worktree it names is neither on disk nor, as far as Git could be asked,
   * registered, and its client's store answers that there is no transcript.
   */
  ghost predicate Gone(row: Row, seen: Evidence) {
    && (row.worktree.Some? && row.worktree.value != "" && row.repo.Some? && row.repo.value != "" ==>
          !seen.directoryExists && (seen.repoExists ==> seen.registered == Some(false)))
    && row.client.Some? && Get(seen.stores, row.client.value) == Some(Probe.Absent)
  }

  /** What the worktree probe answers, and when the two probes let a row go. */
  lemma ProbeAbsenceIff(row: Row, seen: Evidence)
    ensures
      var named := row.worktree.Some? && row.worktree.value != "" && row.repo.Some? && row.repo.value != "";
      var worktree := ProbeAbsence(row, seen).worktree;
      && (worktree.Present? <==>
            named && (seen.directoryExists || (seen.repoExists && seen.registered == Some(true))))
      && (worktree.Unknown? <==> named && !seen.directoryExists && seen.repoExists && seen.registered.None?)
    ensures ProbeAbsence(row, seen).Releasable() <==> Gone(row, seen)
    ensures ProbeAbsence(row, seen).transcript
            == if row.client.Some? && row.client.value in seen.stores then seen.stores[row.client.value] else Unknown
  {
  }

  /** No standing rename names this row's title, as the old one or the new one. */
  ghost predicate Unrenamed(tree: Tree, row: Row) {
    forall key | key in tree.migrations && tree.migrations[key].status.Intent? ::
      row.title != Some(tree.migrations[key].oldTitle) && row.title != Some(tree.migrations[key].newTitle)
  }

  predicate OverLimits(name: string, policy: Policy) {
    !(policy.minLength <= |name| <= policy.maxLength)
  }

  /** The rows a reconcile of `machine` may release: those its probes found gone on both counts. */
  predicate Releasable(tested: Tree, machine: string, title: Option<string>, seen: map<string, Evidence>, t: string) {
    && t in tested.rows
    && t in seen
    && tested.rows[t].machine == Some(machine)
    && !tested.rows[t].kind.Spare?
    && (title.Some? ==> tested.rows[t].title == title)
    && !tested.rows[t].state.MigrationIncomplete?
    && !Renaming(tested, tested.rows[t])
    && ProbeAbsence(tested.rows[t], seen[t]).Releasable()
  }

  /** A reconcile may release exactly a session it tests, held for no rename, part of none, that both probes miss. */
  lemma ReleasableIff(tested: Tree, machine: string, title: Option<string>, seen: map<string, Evidence>, t: string)
    ensures Releasable(tested, machine, title, seen, t)
            <==> (&& Considered(tested, machine, title, t) && t in seen
                  && !tested.rows[t].state.MigrationIncomplete? && Unrenamed(tested, tested.rows[t])
                  && Gone(tested.rows[t], seen[t]))
  {
    if t in tested.rows && t in seen {
      ProbeAbsenceIff(tested.rows[t], seen[t]);
    }
  }

  /** The rows a reconcile tests: this machine's, spares aside, of the given title if there is one. */
  predicate Considered(tested: Tree, machine: string, title: Option<string>, t: string) {
    && t in tested.rows
    && tested.rows[t].machine == Some(machine)
    && !tested.rows[t].kind.Spare?
    && (title.Some? ==> tested.rows[t].title == title)
  }

  /** The release candidates, each with the content it was tested at. */
  method TestRows(tested: Tree, machine: string, title: Option<string>, seen: map<string, Evidence>)
    returns (candidates: map<string, Row>, held: set<string>)
    requires tested.rows.Keys <= seen.Keys
    ensures forall t :: t in candidates <==> Releasable(tested, machine, title, seen, t)
    ensures forall t | t in candidates :: t in tested.rows && candidates[t] == tested.rows[t]
    ensures forall t :: t in held <==>
              Considered(tested, machine, title, t) && !Releasable(tested, machine, title, seen, t)
    ensures forall t :: t in candidates <==>
              && Considered(tested, machine, title, t) && !tested.rows[t].state.MigrationIncomplete?
              && Unrenamed(tested, tested.rows[t]) && Gone(tested.rows[t], seen[t])
    ensures forall t | Considered(tested, machine, title, t) && !Unrenamed(tested, tested.rows[t]) ::
              t in held && t !in candidates
  {
    candidates, held := map[], {};
    var todo := tested.rows.Keys;
    while todo != {}
      invariant todo <= tested.rows.Keys
      invariant forall t :: t in candidates <==> Releasable(tested, machine, title, seen, t) && t !in todo
      invariant forall t | t in candidates :: t in tested.rows && candidates[t] == tested.rows[t]
      invariant forall t :: t in held <==>
          Considered(tested, machine, title, t) && !Releasable(tested, machine, title, seen, t) && t !in todo
      decreases todo
    {
      var t :| t in todo;
      var row := tested.rows[t];
      todo := todo - {t};
      if row.machine != Some(machine) || row.kind.Spare? || (title.Some? && row.title != title) {
      } else if row.state.MigrationIncomplete? || Renaming(tested, row) {
        held := held + {t};
      } else if ProbeAbsence(row, seen[t]).Releasable() {
        candidates := candidates[t := row];
      } else {
        held := held + {t};
      }
    }
    forall t
      ensures Releasable(tested, machine, title, seen, t)
              <==> (&& Considered(tested, machine, title, t) && !tested.rows[t].state.MigrationIncomplete?
                    && Unrenamed(tested, tested.rows[t]) && Gone(tested.rows[t], seen[t]))
    {
      ReleasableIff(tested, machine, title, seen, t);
    }
  }

  /** The candidates the second snapshot still holds exactly as tested. */
  method KeepUnchanged(candidates: map<string, Row>, locked: Tree) returns (kept: map<string, Row>)
    ensures forall t :: t in kept <==> t in candidates && t in locked.rows && locked.rows[t] == candidates[t]
    ensures forall t | t in kept :: kept[t] == candidates[t]
  {
    kept := map[];
    var todo := candidates.Keys;
    while todo != {}
      invariant todo <= candidates.Keys
      invariant forall t :: t in kept <==>
          t in candidates && t !in todo && t in locked.rows && locked.rows[t] == candidates[t]
      invariant forall t | t in kept :: kept[t] == candidates[t]
      decreases todo
    {
      var t :| t in todo;
      todo := todo - {t};
      if t in locked.rows && locked.rows[t] == candidates[t] {
        kept := kept[t := candidates[t]];
      }
    }
  }

  /** The candidates the tip of the release still allows to go. */
  predicate StillReleasable(tip: Tree, machine: string, candidates: map<string, Row>, t: string) {
    && t in candidates
    && t in tip.rows
    && tip.rows[t] == candidates[t]
    && tip.rows[t].machine == Some(machine)
    && !tip.rows[t].state.MigrationIncomplete?
    && !Renaming(tip, tip.rows[t])
  }

  predicate SpareStillOver(tip: Tree, machine: string, spares: map<string, Row>, spool: map<string, Row>,
                           policy: Policy, t: string) {
    && t in spares
    && t in tip.rows
    && IsSpareOf(tip.rows[t], machine)
    && tip.rows[t] == spares[t]
    && t !in spool
    && OverLimits(t, policy)
  }

  /**
   * This machine's spares outside the limits that no offline launch has taken, each as last read; a reconcile of one
   * title looks for none.
   */
  method FindOverLimit(locked: Tree, machine: string, title: Option<string>, spool: map<string, Row>, policy: Policy)
    returns (spares: map<string, Row>)
    ensures forall t :: t in spares <==>
              && title.None? && t in locked.rows
              && IsSpareOf(locked.rows[t], machine) && t !in spool && OverLimits(t, policy)
    ensures forall t | t in spares :: spares[t] == locked.rows[t]
    ensures forall t | t in spares :: SpareStillOver(locked, machine, spares, spool, policy, t)
  {
    spares := map[];
    if title.Some? {
      return;
    }
    var todo := locked.rows.Keys;
    while todo != {}
      invariant todo <= locked.rows.Keys
      invariant forall t :: t in spares <==>
          && t in locked.rows && t !in todo
          && IsSpareOf(locked.rows[t], machine) && t !in spool && OverLimits(t, policy)
      invariant forall t | t in spares :: spares[t] == locked.rows[t]
      decreases todo
    {
      var t :| t in todo;
      todo := todo - {t};
      if IsSpareOf(locked.rows[t], machine) && t !in spool && OverLimits(t, policy) {
        spares := spares[t := locked.rows[t]];
      }
    }
  }

  function Released(tip: Tree, machine: string, candidates: map<string, Row>): set<string> {
    set t | t in candidates && StillReleasable(tip, machine, candidates, t)
  }

  function SparesOut(tip: Tree, machine: string, spares: map<string, Row>, spool: map<string, Row>,
                     policy: Policy): set<string> {
    set t | t in spares && SpareStillOver(tip, machine, spares, spool, policy, t)
  }

  function Remaining(tip: Tree, out: set<string>): Tree {
    tip.(rows := tip.rows - out)
  }

  /** The slot a reconcile's top-up is made for. */
  function TopUpSlot(hostAlias: string, machine: string): Slot {
    Slot("", "", hostAlias, None, machine, "", true)
  }

  function Deletions(out: set<string>): map<string, Option<Row>> {
    if out == {} then map[] else map t | t in out :: None
  }

  /** The tokens a release commit lets go. */
  function Outgoing(tip: Tree, machine: string, candidates: map<string, Row>, spares: map<string, Row>,
                    spool: map<string, Row>, policy: Policy): (out: set<string>)
    ensures forall t :: t in out <==>
        StillReleasable(tip, machine, candidates, t) || SpareStillOver(tip, machine, spares, spool, policy, t)
  {
    Released(tip, machine, candidates) + SparesOut(tip, machine, spares, spool, policy)
  }

  /** A reconcile's release commit on `tip`, given the spares its top-up picked. */
  function ReconcileRelease(tip: Tree, machine: string, hostAlias: string, candidates: map<string, Row>,
                            spares: map<string, Row>, spool: map<string, Row>, added: seq<string>, now: string): Build
  {
    if PublishedPolicy(tip).Err? then Refuse(PublishedPolicy(tip).why)
    else
      var policy := PublishedPolicy(tip).value;
      var slot := TopUpSlot(hostAlias, machine);
      var out := Outgoing(tip, machine, candidates, spares, spool, policy);
      var writes := Deletions(out) + SpareRows(slot, added, now);
      if Shortfall(Remaining(tip, out), policy, machine) > 0 && Generated(tip) == {} then Refuse(NoNameList)
      else if FirstBadSpare(slot, added, now).Some? then Refuse(BadRow(FirstBadSpare(slot, added, now).value))
      else if writes == map[] then Skip
      else Write(RowChange(writes))
  }

  /** The top-ups a reconcile may pick on `tip`: any batch with every row it keeps and every spooled token held. */
  ghost predicate ReconcileChoices(tip: Tree, machine: string, hostAlias: string, vocabulary: Vocabulary,
                                   candidates: map<string, Row>, spares: map<string, Row>, spool: map<string, Row>,
                                   added: seq<string>) {
    PublishedPolicy(tip).Ok? ==>
      var policy := PublishedPolicy(tip).value;
      var out := Outgoing(tip, machine, candidates, spares, spool, policy);
      SpareBatch(Remaining(tip, out), policy, TopUpSlot(hostAlias, machine), vocabulary,
                 tip.rows.Keys + spool.Keys - out, added)
  }

  /** Why a reconcile's guard may refuse: no policy, no list to top up from, or a picked spare whose row is invalid. */
  ghost predicate ReconcileRefusal(tip: Tree, machine: string, hostAlias: string, vocabulary: Vocabulary,
                                   candidates: map<string, Row>, spares: map<string, Row>, spool: map<string, Row>,
                                   added: seq<string>, now: string, why: Refusal) {
    if PublishedPolicy(tip).Err? then why == PublishedPolicy(tip).why
    else
      var policy := PublishedPolicy(tip).value;
      var out := Outgoing(tip, machine, candidates, spares, spool, policy);
      if why.BadRow? then
        RefusedAt(Remaining(tip, out), policy, TopUpSlot(hostAlias, machine), vocabulary,
                  tip.rows.Keys + spool.Keys - out, added, now, why.problem)
      else why == NoNameList && Shortfall(Remaining(tip, out), policy, machine) > 0 && Generated(tip) == {}
  }

  /** The tokens a release commit lets go, one candidate and one spare at a time. */
  method FindOutgoing(tip: Tree, machine: string, candidates: map<string, Row>, spares: map<string, Row>,
                      spool: map<string, Row>, policy: Policy) returns (out: set<string>)
    ensures out == Outgoing(tip, machine, candidates, spares, spool, policy)
  {
    hide RowProblem, Renaming;
    out := {};
    var todo := candidates.Keys;
    while todo != {}
      invariant todo <= candidates.Keys
      invariant forall t :: t in out <==> t !in todo && StillReleasable(tip, machine, candidates, t)
      decreases todo
    {
      var t :| t in todo;
      todo := todo - {t};
      if StillReleasable(tip, machine, candidates, t) {
        out := out + {t};
      }
    }
    todo := spares.Keys;
    while todo != {}
      invariant todo <= spares.Keys
      invariant forall t :: t in out <==>
          StillReleasable(tip, machine, candidates, t)
          || (t !in todo && SpareStillOver(tip, machine, spares, spool, policy, t))
      decreases todo
    {
      var t :| t in todo;
      todo := todo - {t};
      if SpareStillOver(tip, machine, spares, spool, policy, t) {
        out := out + {t};
      }
    }
  }

  /** The guard a reconcile runs on every tip it tries to release on. */
  method ReconcileGuard(tip: Tree, machine: string, hostAlias: string, vocabulary: Vocabulary,
                        candidates: map<string, Row>, spares: map<string, Row>, spool: map<string, Row>, now: string)
    returns (build: Build, added: seq<string>)
    ensures build.Write? || build.Skip? ==>
              && ReconcileChoices(tip, machine, hostAlias, vocabulary, candidates, spares, spool, added)
              && build == ReconcileRelease(tip, machine, hostAlias, candidates, spares, spool, added, now)
    ensures build.Refuse? ==>
              ReconcileRefusal(tip, machine, hostAlias, vocabulary, candidates, spares, spool, added, now, build.why)
  {
    hide RowProblem, SpareBatch, EachPicked, Shortfall, RefusedAt, Outgoing;
    added := [];
    if PublishedPolicy(tip).Err? {
      build := Refuse(PublishedPolicy(tip).why);
      return;
    }
    var policy := PublishedPolicy(tip).value;
    var out := FindOutgoing(tip, machine, candidates, spares, spool, policy);
    var slot := TopUpSlot(hostAlias, machine);
    var writes, refusal;
    writes, added, refusal :=
      SpareWrites(Remaining(tip, out), policy, slot, vocabulary, tip.rows.Keys + spool.Keys - out, now);
    if refusal.Some? {
      build := Refuse(refusal.value);
      return;
    }
    writes := Deletions(out) + writes;
    build := if writes == map[] then Skip else Write(RowChange(writes));
  }

  /** What may happen to the row of one token in a release commit, against the tree its probes tested. */
  ghost predicate AllowedChange(tested: Tree, tip: Tree, after: Tree, machine: string, title: Option<string>,
                                seen: map<string, Evidence>, spool: map<string, Row>, policy: Policy, t: string) {
    var before, now := Get(tip.rows, t), Get(after.rows, t);
    || before == now
    // (a) a session both probes found gone, unchanged since, that no standing intent names: removed or made a spare
    || (&& Considered(tested, machine, title, t) && t in seen
        && before == Some(tested.rows[t]) && !before.value.state.MigrationIncomplete?
        && Gone(before.value, seen[t]) && Unrenamed(tested, before.value) && Unrenamed(tip, before.value)
        && (now.None? || IsSpareOf(now.value, machine)))
    // (b) one of this machine's own spares, outside the limits and not taken offline: removed for good
    || (&& before.Some? && IsSpareOf(before.value, machine) && !(policy.minLength <= |t| <= policy.maxLength)
        && t !in spool && now.None?)
    // (c) a token nobody held: a new spare of this machine
    || (before.None? && t !in spool && now.Some? && IsSpareOf(now.value, machine))
  }

  lemma WritesAt(rows: map<string, Row>, out: set<string>, slot: Slot, added: seq<string>, now: string, t: string)
    ensures Get(Written(rows, Deletions(out) + SpareRows(slot, added, now)), t) ==
            if t in added then Some(SpareRow(t, slot.hostAlias, slot.machine, now))
            else if t in out then None
            else Get(rows, t)
  {
    assert t in added <==> t in SpareRows(slot, added, now);
  }

  /** What a release commit leaves at each token: its top-up, nothing, or what was there. */
  lemma AfterRelease(tip: Tree, machine: string, hostAlias: string, candidates: map<string, Row>,
                     spares: map<string, Row>, spool: map<string, Row>, added: seq<string>, now: string,
                     change: Change, t: string)
    requires ReconcileRelease(tip, machine, hostAlias, candidates, spares, spool, added, now) == Write(change)
    ensures PublishedPolicy(tip).Ok?
    ensures Apply(tip, change) == tip.(rows := Apply(tip, change).rows)
    ensures Get(Apply(tip, change).rows, t) ==
            if t in added then Some(SpareRow(t, hostAlias, machine, now))
            else if t in Outgoing(tip, machine, candidates, spares, spool, PublishedPolicy(tip).value) then None
            else Get(tip.rows, t)
  {
    var out := Outgoing(tip, machine, candidates, spares, spool, PublishedPolicy(tip).value);
    var slot := TopUpSlot(hostAlias, machine);
    ApplyRowChange(tip, Deletions(out) + SpareRows(slot, added, now));
    WritesAt(tip.rows, out, slot, added, now, t);
  }

  /** Nothing a reconcile commits lies outside its frame, whatever ran between its test and its release. */
  lemma ReleaseFrame(tested: Tree, tip: Tree, machine: string, title: Option<string>, seen: map<string, Evidence>,
                     hostAlias: string, vocabulary: Vocabulary, candidates: map<string, Row>,
                     spares: map<string, Row>, spool: map<string, Row>, added: seq<string>, now: string,
                     change: Change, t: string)
    requires forall c | c in candidates ::
        Releasable(tested, machine, title, seen, c) && candidates[c] == tested.rows[c]
    requires ReconcileChoices(tip, machine, hostAlias, vocabulary, candidates, spares, spool, added)
    requires ReconcileRelease(tip, machine, hostAlias, candidates, spares, spool, added, now) == Write(change)
    ensures PublishedPolicy(tip).Ok?
    ensures Apply(tip, change) == tip.(rows := Apply(tip, change).rows)
    ensures AllowedChange(tested, tip, Apply(tip, change), machine, title, seen, spool, PublishedPolicy(tip).value, t)
    ensures t in tip.rows && tip.rows[t].machine != Some(machine) ==>
              Get(Apply(tip, change).rows, t) == Some(tip.rows[t])
  {
    hide RowProblem, ReconcileRelease, ReconcileChoices, Releasable, Gone, PublishedPolicy, Apply;
    AfterRelease(tip, machine, hostAlias, candidates, spares, spool, added, now, change, t);
    if t in added {
      AddedWasFree(tip, machine, hostAlias, vocabulary, candidates, spares, spool, added, t);
    }
    if t in candidates {
      ReleasableIff(tested, machine, title, seen, t);
    }
  }

  /** A release commit lets go exactly the candidates and over-limit spares that still stand as they were read. */
  lemma OutgoingIff(tip: Tree, machine: string, candidates: map<string, Row>, spares: map<string, Row>,
                    spool: map<string, Row>, policy: Policy, t: string)
    ensures t in Outgoing(tip, machine, candidates, spares, spool, policy)
            <==> (&& t in tip.rows && tip.rows[t].machine == Some(machine)
                  && (|| (&& Get(candidates, t) == Some(tip.rows[t]) && !tip.rows[t].state.MigrationIncomplete?
                          && Unrenamed(tip, tip.rows[t]))
                      || (&& Get(spares, t) == Some(tip.rows[t]) && tip.rows[t].kind.Spare? && t !in spool
                          && (|t| < policy.minLength || policy.maxLength < |t|))))
  {
  }

  /** No reconcile touches a row that a standing rename names, as its old title or its new one. */
  lemma RenamedRowStays(tip: Tree, machine: string, hostAlias: string, vocabulary: Vocabulary,
                        candidates: map<string, Row>, spares: map<string, Row>, spool: map<string, Row>,
                        added: seq<string>, now: string, change: Change, key: string, t: string)
    requires RowsFit(tip) && ReconcileChoices(tip, machine, hostAlias, vocabulary, candidates, spares, spool, added)
    requires ReconcileRelease(tip, machine, hostAlias, candidates, spares, spool, added, now) == Write(change)
    requires key in tip.migrations && tip.migrations[key].status.Intent? && t in tip.rows
    requires || tip.rows[t].title == Some(tip.migrations[key].oldTitle)
             || tip.rows[t].title == Some(tip.migrations[key].newTitle)
    ensures Get(Apply(tip, change).rows, t) == Get(tip.rows, t)
  {
    hide RowProblem, ReconcileRelease, ReconcileChoices, PublishedPolicy, Apply, Renaming;
    AfterRelease(tip, machine, hostAlias, candidates, spares, spool, added, now, change, t);
    OutgoingIff(tip, machine, candidates, spares, spool, PublishedPolicy(tip).value, t);
    assert RowFits(t, tip.rows[t]);
    ValidRowFields(tip.rows[t]);
    if t in added {
      AddedWasFree(tip, machine, hostAlias, vocabulary, candidates, spares, spool, added, t);
    }
  }

  /** A reconcile tops this machine's spares up, those it lets go not counted. */
  lemma ReconcileTopsUp(tip: Tree, machine: string, hostAlias: string, vocabulary: Vocabulary,
                        candidates: map<string, Row>, spares: map<string, Row>, spool: map<string, Row>,
                        added: seq<string>, now: string, change: Change)
    requires ReconcileChoices(tip, machine, hostAlias, vocabulary, candidates, spares, spool, added)
    requires ReconcileRelease(tip, machine, hostAlias, candidates, spares, spool, added, now) == Write(change)
    ensures PublishedPolicy(tip).Ok?
    ensures
      var policy := PublishedPolicy(tip).value;
      var out := Outgoing(tip, machine, candidates, spares, spool, policy);
      ToppedUp(tip.(rows := tip.rows - out), policy, TopUpSlot(hostAlias, machine), vocabulary,
               tip.rows.Keys + spool.Keys - out, added, Apply(tip, change).rows)
  {
    hide RowProblem, ReconcileRelease, Apply, SpareBatch, ToppedUp, PublishedPolicy, Outgoing;
    AfterRelease(tip, machine, hostAlias, candidates, spares, spool, added, now, change, "");
    var policy := PublishedPolicy(tip).value;
    var out := Outgoing(tip, machine, candidates, spares, spool, policy);
    var remaining, slot := Remaining(tip, out), TopUpSlot(hostAlias, machine);
    var after := Apply(tip, change).rows;
    forall t ensures t in SparesAt(after, machine) <==> t in SparesAt(remaining.rows, machine) + Elements(added) {
      AfterRelease(tip, machine, hostAlias, candidates, spares, spool, added, now, change, t);
    }
    assert slot.machine == machine;
    BatchTopsUp(remaining, policy, slot, vocabulary, tip.rows.Keys + spool.Keys - out, added, after);
  }

  /** A topped-up token is inside the limits, and nobody held it once the release's own rows are gone. */
  lemma AddedWasFree(tip: Tree, machine: string, hostAlias: string, vocabulary: Vocabulary,
                     candidates: map<string, Row>, spares: map<string, Row>, spool: map<string, Row>,
                     added: seq<string>, t: string)
    requires PublishedPolicy(tip).Ok? && t in added
    requires ReconcileChoices(tip, machine, hostAlias, vocabulary, candidates, spares, spool, added)
    ensures !OverLimits(t, PublishedPolicy(tip).value)
    ensures StillReleasable(tip, machine, candidates, t) || (t !in tip.rows && t !in spool)
  {
    var policy := PublishedPolicy(tip).value;
    var out := Outgoing(tip, machine, candidates, spares, spool, policy);
    var i :| 0 <= i < |added| && added[i] == t;
    BatchIsFresh(Remaining(tip, out), policy, TopUpSlot(hostAlias, machine), vocabulary,
                 tip.rows.Keys + spool.Keys - out, added, i);
    assert t in out || (t !in tip.rows && t !in spool);
  }

  /** `release_name`'s checks on the row it read. */
  function ReleaseNameChecks(seen: Option<Row>, machine: string, evidence: Evidence): Option<Refusal> {
    if seen.None? then Some(RowMissing)
    else if seen.value.machine != Some(machine) then Some(NotThisMachine)
    else if seen.value.state.MigrationIncomplete? then Some(StillHeld)
    else if !ProbeAbsence(seen.value, evidence).Releasable() then Some(StillHeld)
    else None
  }

  /** `release_name`'s guard on the tip: the row must be as it was tested. */
  function ReleaseName(tip: Tree, name: string, tested: Row): Build {
    if name !in tip.rows || tip.rows[name] != tested then Refuse(RowChanged)
    else Write(RowChange(map[name := None]))
  }

  /** `reassign_name`'s guard on the tip. */
  function Reassign(tip: Tree, name: string, seen: Row, to: string): Build {
    if name !in tip.rows || tip.rows[name] != seen then Refuse(RowChanged)
    else
      var row := seen.(machine := Some(to));
      CheckedWrite(row, RowChange(map[name := Some(row)]))
  }

  /** A reconcile's guard writes nothing exactly when it lets nothing go and adds nothing. */
  lemma ReconcileSkipsIff(tip: Tree, machine: string, hostAlias: string, candidates: map<string, Row>,
                          spares: map<string, Row>, spool: map<string, Row>, added: seq<string>, now: string)
    ensures
      var build := ReconcileRelease(tip, machine, hostAlias, candidates, spares, spool, added, now);
      && (PublishedPolicy(tip).Err? ==> build == Refuse(PublishedPolicy(tip).why))
      && (PublishedPolicy(tip).Ok? && !build.Refuse? ==>
            (build.Skip? <==>
               added == [] && Outgoing(tip, machine, candidates, spares, spool, PublishedPolicy(tip).value) == {}))
  {
    hide RowProblem, PublishedPolicy, Outgoing, Shortfall;
    if PublishedPolicy(tip).Ok? {
      var out := Outgoing(tip, machine, candidates, spares, spool, PublishedPolicy(tip).value);
      var writes := Deletions(out) + SpareRows(TopUpSlot(hostAlias, machine), added, now);
      if t :| t in out {
        assert t in writes;
      }
      if added != [] {
        assert added[0] in writes;
      }
    }
  }

  /** A row may be released by hand exactly on its own machine, held for no rename, when both probes miss it. */
  lemma ReleaseNameIff(seen: Option<Row>, machine: string, evidence: Evidence)
    ensures ReleaseNameChecks(seen, machine, evidence).None?
            <==> (&& seen.Some? && seen.value.machine == Some(machine) && !seen.value.state.MigrationIncomplete?
                  && Gone(seen.value, evidence))
    ensures ReleaseNameChecks(seen, machine, evidence) == Some(RowMissing) <==> seen.None?
    ensures ReleaseNameChecks(seen, machine, evidence) == Some(NotThisMachine)
            <==> seen.Some? && seen.value.machine != Some(machine)
  {
    if seen.Some? {
      ProbeAbsenceIff(seen.value, evidence);
    }
  }

  /** By hand, a row that still stands as it was read is deleted, or names its new machine, and nothing else changes. */
  lemma ByHandSays(tip: Tree, name: string, read: Row, to: string)
    ensures ReleaseName(tip, name, read).Write? <==> Get(tip.rows, name) == Some(read)
    ensures ReleaseName(tip, name, read).Write? ==>
              Apply(tip, ReleaseName(tip, name, read).change) == tip.(rows := tip.rows - {name})
    ensures Reassign(tip, name, read, to).Write?
            <==> Get(tip.rows, name) == Some(read) && RowProblem(read.(machine := Some(to))).None?
    ensures Reassign(tip, name, read, to).Write? ==>
              Apply(tip, Reassign(tip, name, read, to).change)
              == tip.(rows := tip.rows[name := read.(machine := Some(to))])
  {
    hide RowProblem;
    ApplyRowChange(tip, map[name := None]);
    ApplyRowChange(tip, map[name := Some(read.(machine := Some(to)))]);
    assert Written(tip.rows, map[name := None]) == tip.rows - {name};
    assert Written(tip.rows, map[name := Some(read.(machine := Some(to)))])
        == tip.rows[name := read.(machine := Some(to))];
  }
}

# ai-cli-utils: a verified model of the name registry and of failed-update recovery

A Dafny 4.11 model of the parts of `ai-cli-utils` whose correctness rests on more than one function, with proofs of
what they promise. `dafny verify dfyconfig.toml` checks all of it.

## What is modelled

**The session-name registry** (`src/ai_cli/name_registry.py`, `src/ai_cli/migrate_names.py`) is a small database held on
one git ref and written by many machines: each fetches the tip, runs a whole guard on it, commits, and pushes without
force.

- `Rows`, `Registry`: rows with `row_problem`'s per-kind rules in its order, a tip as maps by directory, one commit as a
  set of writes.
- `Picker`, `Allocation`, `Release`, `Ledger`, `Spool`, `PolicyHistory.SyncNames`: every guard as a function from a tip
  to "refuse, write nothing, or write this". Random picks are parameters bound by a `...Choices` predicate that says
  exactly which picks the source can make on that tip. The source's loops are methods proved against those functions.
- `Operations`, `History`: all the writing operations as one datatype, what one commit does at one token, and what every
  tip of every history keeps.
- `Optimistic`, `Transact`: any number of optimistic writers as a transition system with lost, rejected, locked-out and
  late pushes, which refines the locked registry; and the two `transact` methods themselves.
- `Fleet`, `FleetSteps`, `FleetSafety`, `FleetRuns`: machines with a private ref, a spool and a spool lock around a
  shared tip. A push and the `update-ref` after it are two steps, as are the two halves of a fetch, and any of them may
  come late, as the commands of several processes of one machine interleave; a push that was not answered may land once
  its writer has gone. The proof that while every step is careful no session name is ever held twice, the proof that
  careful is exactly what a step must be for all of these to stay in agreement, and five runs in which a single careless
  step ends in a name held twice.
- `Probes`, `MigrateName`, `Renames`, `Recovery`: the rename protocol with crashes, over whole runs, and its recovery.
- `BatchReader`: the offset loop over `git cat-file --batch`.

**Names** (`src/ai_cli/name_list.py`): `Edits` proves the one-edit test exact; `Greedy` proves the greedy one-edit-free
subset independent, maximal and at least as large as the sum of 1/(degree + 1).

**Failed template updates** (`src/ai_cli/copier_update.py`, `src/ai_cli/copier_recovery.py`): `Anchors` is a commit DAG
under a compare-and-set ref with concurrent callers, `IsolatedUpdate` the recovery sequence with every step able to
fail, `Conflicts` the automatic resolution of conflicts, `DiffHunks` the zero-context diff parser.

**Tab colours** (`src/ai_cli/iterm2.py`): `ColourLeases`.

`Wrappers`, `Text` and `StringOrder` hold what these share.

## Where the code falls short of a plain promise

Each is modelled as the code is, with a lemma for the failing case and one for the condition under which it holds.

- *A name is held once.* A step keeps tips, private refs, spools and locks in agreement exactly when it is careful
  (`FleetSteps.StepStandsIff`). Landing a publication always is, late or not, and so is every reservation. These may not
  be:
  - *Setting the private ref.* `_push` runs `update-ref` as a second command, without the value it expects to replace,
    and a reservation does so outside the spool lock. Run late, it can set the ref back to a commit in which a spare
    published since is free, and the next offline launch takes that name again (`FleetRuns.LateRefIsTakenTwice`). While
    no one publishes or reconciles, setting the ref is safe exactly when each spare that the tree offers, and that is
    not spooled, is still that row at the tip (`FleetSteps.MoveRefStandsIff`). It is if since that tip the machine has
    landed no publication and no reconcile, and nobody has reassigned a name (`FleetSafety.LateMoveIsCareful`).
  - *Letting go of the spool lock* after a publication or a reconcile is safe exactly when the private ref offers no
    spare that has changed (`FleetSteps.UnlockStandsIff`). It may offer one when `update-ref` failed, which `_push`
    ignores, or the push was not heard of (`FleetSafety.StayingBehindBreaks`, `FleetRuns.StaleViewIsTakenTwice`,
    `FleetRuns.UnheardDropIsTakenTwice`).
  - *A reconcile's release* may let go of a row whose published entry is still in the spool: it publishes its spool
    first, but an offline launch and an unheard publication may come between that and its tests, and the session may be
    gone by then (`FleetRuns.ReleaseOfSpooledIsSharedLater`). It is safe exactly when it makes the same spare again of
    each spooled token it lets go (`FleetSteps.ReleaseStandsIff`). If its push times out and lands after the lock has
    been let go, an offline launch may have taken a spare that it drops (`FleetRuns.LateDropIsSharedLater`); then it is
    safe exactly when of the rows it alters the machine counts on none but spooled ones made spares again
    (`FleetSteps.LateReleaseStandsIff`).
  - *Changes by hand.* Completing, holding or releasing a rename, and releasing a name, are careful exactly when they
    alter no spooled row (`FleetSafety.LedgerIsCarefulIff`); reassigning a name exactly when its row names the new
    machine already, or the machine it names neither spools it, nor is taking it, nor offers it
    (`FleetSafety.ReassignIsCarefulIff`).
- *"Lost the race N times in a row."* A push refused with `cannot lock ref` counts as lost, so a call can end contended
  although no other commit landed. At least `attempts` minus those refusals did (`Optimistic.OutcomeTellsTheLog`,
  `Optimistic.ContendedWithoutACommit`).
- *Recovery is idempotent.* While this machine's standing renames go to different names, it is, on every disk and in
  every order, exactly when none is stranded (`Recovery.RecoverTwiceIff`). One is when completing a second rename drops
  the row it goes to, which is not where that second rename came from in the same checkout: a pass looks for artifacts
  in the repository of the snapshot's row, so the first pass raises there and the next, with no row, looks elsewhere,
  finds nothing and goes on to a third (`Recovery.StrandedUnsettles`). Renames that each hold their own row alone go to
  different names, and none is stranded if those that follow on each other stay in one repository
  (`Renames.HeldRenamesRepeat`). For two renames bound for one name, a second pass changes the tree exactly when the
  first of them in the pass is held and the second completes on the same row (`Recovery.SharedNameUnsettlesIff`).
  `mark_migration_incomplete` compares no titles, so it can hold a row another rename owns
  (`Renames.HeldCompletesOnItsOwnRow`).
- *A rename's new row stays held.* A second reservation for the same old title, or completing a rename of the new title,
  drops the protection (`Renames.SecondReservationUnprotects`, `Renames.ChainedCompletionDrops`).
- *An activation passes `row_problem`.* Exactly when the launch supplies no text that reads as an absolute path
  (`Rows.ActivationPasses`).
- *The diff parser reads back what was printed.* `splitlines` ends a line at a form feed, a lone carriage return and
  seven other characters besides a newline, and removed lines that start with `--` and added lines that start with `++`
  are taken for file headers. The hunks come back exactly just when no line breaks inside and none has its mark doubled
  (`DiffHunks.ExactIffReadable`), as long as no hunk heading hides a file header or a changed line behind such a break
  (`DiffHunks.HeadingAddsLine`).
- *A snapshot holds the worktree.* `add -A` leaves untracked ignored files out; it is the whole checkout exactly when
  there are none (`IsolatedUpdate.SnapshotIsWhole`). An earlier run's leavings that are let go lose exactly those files
  (`IsolatedUpdate.RemovalLosesOnlyIgnored`).
- `_update_one_isolated` documents that recovery failures keep the checkout. Two of them return `recoveryfail` with the
  checkout already removed: a failed issue filing, and a push failure with no commit to keep. What always holds is that
  the content is in the checkout or anchored (`IsolatedUpdate.Project.UpdateOneIsolated`).
- A policy published from no commit is never replaced, since every later checkout is incomparable with it
  (`PolicyHistory.PolicyOnlyMovesForward`).

## Model

| member | source | states |
|---|---|---|
| Edits.OneEditExact | src/ai_cli/name_list.py:284-298 | the test accepts two names exactly when they differ and one substitution, insertion, deletion or adjacent swap turns the first into the second, at any length |
| Edits.Symmetric | src/ai_cli/name_list.py:284-298 | the order of the two names does not matter |
| Greedy.OneEditFreeSubset | src/ai_cli/name_list.py:301-316 | the result is sorted without duplicates, drawn from the names, no two of it one edit apart, every other name next to a chosen one, and at least as large as the sum of 1/(degree + 1) over all names |
| Greedy.Choose | src/ai_cli/name_list.py:308-315 | the loop over the names in ascending degree excludes exactly the chosen names and their neighbours, and keeps the chosen count above the shares of what is excluded |
| Greedy.Sorted | src/ai_cli/name_list.py:307-316 | each name once, in ascending order of rank, then name |
| Greedy.ChoiceWeighsAtMostOne | src/ai_cli/name_list.py:311-315 | what one choice newly excludes has shares of at most one in all, when no name left has a lower degree |
| Greedy.SharesAtLeast | src/ai_cli/name_list.py:301-306 | the lower bound is never less than the number of names over the largest degree plus one |
| Rows.ActivationPasses | src/ai_cli/name_registry.py:245-321 | an activated spare passes `row_problem` exactly when the slot supplies no absolute path, and differs from the spare only in the activation fields |
| Rows.ProblemFreeIff | src/ai_cli/name_registry.py:273-321 | a row passes the ordered checks exactly when it has every field its kind needs, lacks every field its kind must leave empty, holds its schema, state and reservation time, and none of its texts is an absolute path |
| Rows.TitleForEndsInName | src/ai_cli/name_registry.py:803-811 | the last hyphen segment of a title is its name, label or not |
| Rows.SessionRowSays | src/ai_cli/name_registry.py:166-200 | a new session's row holds the slot's repository, alias, host, label, machine and client in their own fields, is titled by the two aliases, the label and the name, and its worktree is named after that title |
| Rows.SpareRowSays | src/ai_cli/name_registry.py:203-208 | a new spare's row says whose it is and when it was reserved, and nothing else |
| Rows.LabelRowSays | src/ai_cli/name_registry.py:211-242 | the same for a dropped label, under its last token |
| Rows.ActivationIsReservation | src/ai_cli/name_registry.py:245-270 | an activated spare is the very row an online launch would have reserved under that name, but for its source, tier, reservation time, host alias and machine, which are the spare's |
| Rows.ActivationKeeps | src/ai_cli/name_registry.py:1379-1383 | an activation is one that agrees on each of the ten other fields |
| Rows.ReportsTheField | src/ai_cli/name_registry.py:302-307 | the field a refusal names is one the row lacks, or fills against its kind |
| Text.AbsolutePathIff | src/ai_cli/name_registry.py:285-286 | a text is absolute from the root, from a home, from a drive's root or from a network share |
| Text.WordsIff | src/ai_cli/name_registry.py:300-301 | tokens and labels by the code points of their letters and digits |
| Registry.TitlesAreUnique | src/ai_cli/name_registry.py:289-321 | two held rows never share a title |
| Registry.EmptyChangesNothing | src/ai_cli/name_registry.py:631-641 | a change is dropped as empty exactly when it leaves every tree as it is |
| Registry.PublishedPolicyIff | src/ai_cli/name_registry.py:351-388 | the policy in force is the published one when its schema and all its keys are known |
| Picker.ShortestExists | src/ai_cli/session_naming.py:584-601 | a pick fails only when every name of the database is filtered out |
| Picker.PickIff | src/ai_cli/session_naming.py:547-601 | what a reservation may pick, said of the tree, the policy and the host's own words: a lower-case name inside the limits, on none of the lists to avoid, neither held nor spooled nor one edit from either, generated or added by hand and passing, with no clashing title, and none such shorter; or none exists |
| Picker.SpareBatchIff | src/ai_cli/name_registry.py:968-1003 | a batch of spares in the same terms: each the shortest such name with the earlier ones held too, as many as are missing unless no such name is left |
| Picker.SpareWrites | src/ai_cli/name_registry.py:968-1003 | the batch is what a sequence of picks, each with the earlier ones held, can give, up to the shortfall or the end of the pool; a bad row refuses it |
| Picker.BatchIsFresh | src/ai_cli/name_registry.py:978-1002 | each name of a batch is inside the limits, free, new in the batch, and not one edit from a held token or an earlier pick |
| Allocation.ReservePickedIsNew | src/ai_cli/name_registry.py:1018-1039 | every row the commit writes is under a token nobody held, valid, and titled by its token |
| Allocation.ReservePickedSays | src/ai_cli/name_registry.py:1018-1039 | at each token, what the commit leaves: the picked name's session row, a new spare, or what was there; the pick is free for the slot and as short as any |
| Allocation.ReservationTopsUp | src/ai_cli/name_registry.py:968-1003 | after it the machine's spares are those it had and the batch, never more than the policy asks for unless they were before, and that many unless no free name is left |
| Allocation.ReservePickedRefuses | src/ai_cli/name_registry.py:1018-1039 | what it refuses, in order: no policy, no list, no free name, an invalid row |
| Allocation.HandChosenIsNew | src/ai_cli/name_registry.py:1115-1142 | the same for a name chosen by hand, already known or added |
| Allocation.CheckHandChosenSays | src/ai_cli/name_registry.py:1046-1086 | the verdict on a hand-chosen name, and the order in which the reasons count |
| Allocation.ReserveHandChosenIff | src/ai_cli/name_registry.py:1046-1142 | a hand-chosen name is reserved exactly when nothing held is in its way, it is no ordinary word, inside the limits, and known or added; the tree then holds its session row and, when added, its record |
| Allocation.AddNameIff | src/ai_cli/name_registry.py:1153-1182 | a name is added exactly when it is new, inside the limits and no ordinary word, and is available then |
| Allocation.RemoveNameIff | src/ai_cli/name_registry.py:1185-1201 | a name is removed exactly when it was added by hand and nobody holds it |
| Allocation.LabelIsNew | src/ai_cli/name_registry.py:1238-1262 | the same for a label's last token |
| Allocation.ReserveLabelIff | src/ai_cli/name_registry.py:1238-1262 | a label is reserved exactly when nobody holds its last token and its row is valid |
| Release.TestRows | src/ai_cli/name_registry.py:1676-1693 | the candidates are exactly this machine's sessions held for no rename, standing in none as old or new title, whose worktree is neither on disk nor registered and whose client's store answers absent, each with the content tested; the held are exactly the others it considered, a row of a standing rename among them |
| Release.ProbeAbsenceIff | src/ai_cli/name_registry.py:1594-1619 | what the worktree probe answers and when both probes let a row go, from the row's fields and what was read alone |
| Release.ReleasableIff | src/ai_cli/name_registry.py:1676-1693 | the same condition for one row |
| Release.KeepUnchanged | src/ai_cli/name_registry.py:1697-1700 | a candidate stays only with unchanged content |
| Release.FindOverLimit | src/ai_cli/name_registry.py:1701-1706 | the spares a reconcile may drop are exactly this machine's over-limit spares not taken offline, none when it reconciles one title |
| Release.ReconcileGuard | src/ai_cli/name_registry.py:1711-1757 | the guard's loops compute the release commit, top-up included, and refuse only for a missing policy, a missing list or an invalid spare |
| Release.ReleaseFrame | src/ai_cli/name_registry.py:1645-1762 | a release commit touches only sessions tested, gone and unchanged that no standing rename names, this machine's own over-limit spares not taken offline, and tokens nobody held; rows of other machines stay, whatever ran between test and release |
| Release.RenamedRowStays | src/ai_cli/name_registry.py:1632-1637 | a row whose title is the old or the new title of a standing rename is left as it was by every reconcile |
| Release.OutgoingIff | src/ai_cli/name_registry.py:1717-1741 | a token is let go exactly when it is a candidate that still stands as tested, or an over-limit spare that does, not taken offline |
| Release.ReconcileSkipsIff | src/ai_cli/name_registry.py:1714-1757 | the guard writes nothing exactly when it lets nothing go and adds nothing |
| Release.AfterRelease | src/ai_cli/name_registry.py:1711-1757 | at each token the commit leaves its top-up, nothing, or what was there |
| Release.AddedWasFree | src/ai_cli/name_registry.py:1742-1754 | a topped-up token is inside the limits, and was free or let go by this very commit |
| Release.ReconcileTopsUp | src/ai_cli/name_registry.py:1742-1757 | after a release the machine's spares are those it keeps and the batch, as many as the policy asks for unless they were more or no free name is left |
| Release.ReleaseNameIff | src/ai_cli/name_registry.py:1765-1782 | a row is released by hand exactly on its own machine, held for no rename, when both probes find its session gone |
| Release.ByHandSays | src/ai_cli/name_registry.py:1784-1814 | by hand, a row that stands as it was read is deleted, or names its new machine, and nothing else changes |
| Ledger.ReserveMigrationDeclares | src/ai_cli/name_registry.py:1900-1930 | one commit holds a new valid row under the new title and records the intent from the old one |
| Ledger.MigrationReserves | src/ai_cli/name_registry.py:1900-1930 | the row is the slot's session row, under a free name or a hand-chosen one that may be used |
| Ledger.ReserveMigrationIff | src/ai_cli/name_registry.py:1900-1930 | when a rename is declared |
| Ledger.CompleteMigrationIff | src/ai_cli/name_registry.py:1944-1964 | when a completion is written, when it is skipped, and the tree it leaves |
| Ledger.ReleaseFailedIff | src/ai_cli/name_registry.py:1972-1981 | when a failed rename is released, and the tree that leaves |
| Ledger.MarkIncompleteIff | src/ai_cli/name_registry.py:1989-2001 | when a rename is held, and the tree that leaves |
| Spool.First | src/ai_cli/name_registry.py:1336-1345 | the shortest free spare, the first of those in order |
| Spool.FirstSpareIff | src/ai_cli/name_registry.py:1334-1345 | the spare an offline launch takes, said of the view and the spool: no other is shorter, and none as short comes before it |
| StringOrder.PrecedesIff | src/ai_cli/name_registry.py:1336-1339 | the order of names of one length is the lexicographic one |
| Spool.Host.TakeSpare | src/ai_cli/name_registry.py:1326-1358 | spools the first free spare of the last fetched view as this slot's session, with its repository, alias, label, client and title, the row an online launch would have reserved; otherwise changes nothing, when none is free or its activation is invalid |
| Spool.PublishOutcome | src/ai_cli/name_registry.py:1371-1387 | publishing refuses exactly when the row is neither the activation nor the spare it activates; otherwise the row becomes the activation, and only that row |
| Spool.Host.PublishSpool | src/ai_cli/name_registry.py:1361-1392 | stopped after any number of pushes and unlinks, the tip's rows overlaid with the spool are what they were; done, the spool is empty; it raises only on a row another writer changed |
| Spool.Host.PublishAgainAfterCrash | src/ai_cli/name_registry.py:1361-1392 | a pass cut short anywhere and repeated ends in the tree and the empty spool of one whole pass |
| Spool.TakenIsPublishable | src/ai_cli/name_registry.py:1345-1387 | what an offline launch spools is publishable on every tip that still holds the spare |
| Operations.OpEffect | src/ai_cli/name_registry.py:1006-2003 | every commit of every operation leaves a token alone or has one of seven effects there, and which operations may have which |
| Operations.ReleaseOpTested | src/ai_cli/name_registry.py:1765-1782 | a release by hand lands only for a row its own machine found gone, held for no rename |
| Operations.RowsStayFit | src/ai_cli/name_registry.py:324-328 | every commit keeps each row valid, under its own token, with a title ending in it |
| Operations.TitlesStay | src/ai_cli/name_registry.py:1006-2003 | a held row's title changes only when its own machine activates the spare it was, or a reconcile makes a spare of a row it releases |
| Operations.HandOpSays | src/ai_cli/name_registry.py:1106-1262 | in each operation's own terms, what adding, removing or publishing names and reserving by hand or by label leave |
| Operations.LedgerOpSays | src/ai_cli/name_registry.py:1938-2003 | the same for completing, releasing and holding a rename |
| History.EveryTipFits | src/ai_cli/name_registry.py:289-328 | every tip of every history keeps that invariant |
| History.StaysUnconfusable | src/ai_cli/name_registry.py:968-1066 | one commit under a non-zero edit distance keeps every two held names apart |
| History.EveryTipUnconfusable | src/ai_cli/name_registry.py:968-1066 | while the published edit distance is never zero, no tip holds two names of non-label rows one edit apart, spares and activations included |
| Optimistic.RefinesLockedRegistry | src/ai_cli/name_registry.py:631-705 | under any interleaving, with pushes that land after their call gave up, the ref's history is a sequence of the locked registry's atomic steps, each the change its author's guard decided on the very tip before it |
| Optimistic.OutcomeTellsTheLog | src/ai_cli/name_registry.py:618-641 | a returned change landed exactly once, contended and raised mean not at all, unreachable means at most once, then or later, and contended bounds how many other commits landed |
| Optimistic.AttemptsAreSpent | src/ai_cli/name_registry.py:631-641 | a call pushes again after each refusal until its attempts are used up, and ends contended just when they are |
| Optimistic.ContendedWithoutACommit | src/ai_cli/name_registry.py:95-95 | a run that ends contended although no commit landed |
| Transact.LocalRegistry.Transact | src/ai_cli/name_registry.py:687-705 | one atomic step: refuse, change nothing, or replace the tree by the guard's change; whatever the guard writes is in the tree |
| Transact.LocalRegistry.WriteFiles | src/ai_cli/name_registry.py:693-704 | the files after all writes, in whatever order they are made |
| Transact.Remote.Transact | src/ai_cli/name_registry.py:631-641 | the retry loop in any weather: what each outcome says about the log, with exactly one own commit decided on the tip just below it when it returns, and nothing written only when the guard wrote nothing or a change that alters no tree; a calm first attempt settles it, and unreachable needs an unanswered step |
| FleetSteps.StepStandsIff | src/ai_cli/name_registry.py:538-641 | from agreement of the private refs, the spools, the locks and the tip, a step keeps it exactly when it is careful, a late `update-ref` and a crash under the lock included |
| FleetSteps.LandStandsIff | src/ai_cli/name_registry.py:631-641 | a commit outside the spool lock keeps it exactly when it alters no row that is spooled, being taken, or offered to an offline launch |
| FleetSteps.PublishStands | src/ai_cli/name_registry.py:1361-1391 | a publication that lands always keeps it: its ref lags, but no launch reads it under the lock |
| FleetSteps.LatePublicationStands | src/ai_cli/name_registry.py:509-523 | a publication whose push timed out and that lands once its writer has let the lock go keeps it too |
| FleetSteps.MoveRefStandsIff | src/ai_cli/name_registry.py:618-625 | setting the private ref, however late, keeps it exactly when the lock is held to publish or reconcile, or each spare the tree offers and that is not spooled is still that row at the tip |
| FleetSteps.UnlockStandsIff | src/ai_cli/name_registry.py:1281-1320 | letting go of the lock after a publication or a reconcile, or crashing under it, keeps it exactly when each spare the private ref offers is still that row at the tip |
| FleetSteps.ReleaseStandsIff | src/ai_cli/name_registry.py:1711-1757 | a release that lands keeps it exactly when each spooled token it lets go is made the same spare again |
| FleetSteps.LateReleaseStandsIff | src/ai_cli/name_registry.py:509-523 | a release that lands once its writer has let the lock go keeps it exactly when each row it alters is one its machine has no use for by then, or is spooled, made the same spare again and not about to be unlinked |
| FleetSafety.EveryStateConsistent | src/ai_cli/name_registry.py:1326-1761 | every state of a run of careful steps is consistent: each spool entry is its machine's spare or that very activation at the tip |
| FleetSafety.OneSessionPerToken | src/ai_cli/name_registry.py:1326-1761 | in a run of careful steps no two sessions, published or spooled, on any machines, ever hold one token |
| FleetSafety.OfflineTakeIsFree | src/ai_cli/name_registry.py:1333-1345 | after careful steps, the spare an offline launch picks from a private ref however stale is that spare at the tip, and no session holds it |
| FleetSafety.LateMoveIsCareful | src/ai_cli/name_registry.py:618-625 | over any run of careful steps, setting the ref to an older tip, or unlocking with it there, is careful if since then the machine has landed no publication and no reconcile and no name was reassigned |
| FleetSafety.ReservationsAreCareful | src/ai_cli/name_registry.py:1006-1262 | reservations, database edits and list publications are always careful |
| FleetSafety.LedgerIsCarefulIff | src/ai_cli/name_registry.py:1765-1790 | completing, holding and releasing a rename and releasing a name by hand are careful, and keep the agreement, exactly when they alter no spooled row |
| FleetSafety.ReassignIsCarefulIff | src/ai_cli/name_registry.py:1793-1814 | reassigning a name is careful, and keeps the agreement, exactly when the row names that machine already, or its present machine neither spools it, nor is taking it, nor offers it |
| FleetSafety.DroppingSpooledBreaks | src/ai_cli/name_registry.py:1389-1391 | dropping a spooled token breaks the agreement, for every such commit |
| FleetSafety.StayingBehindBreaks | src/ai_cli/name_registry.py:623-625 | after a publication is unlinked with the ref still behind, unlocking is the careless step: the published name is free in the next offline view |
| FleetRuns.ReleaseOfSpooledIsSharedLater | src/ai_cli/name_registry.py:1670-1761 | a whole run, careful but for the release: a reconcile's pass over an empty spool, an offline launch and its unheard publication, then the release of that row, tested and found gone by both probes, and another machine's session under the same name |
| FleetRuns.UnheardDropIsTakenTwice | src/ai_cli/name_registry.py:1726-1740 | a whole run, careful but for the unlocking, in which a reconcile that lets go of nothing spooled drops an over-limit spare unheard, and two machines then hold its name |
| FleetRuns.StaleViewIsTakenTwice | src/ai_cli/name_registry.py:623-625 | a whole run, careful but for the unlocking, in which a private ref left behind lets one host launch two sessions under one name |
| FleetRuns.LateRefIsTakenTwice | src/ai_cli/name_registry.py:618-625 | a whole run, careful but for the late `update-ref` of a reservation, in which a publication that moved the ref is undone there and its name is taken again |
| FleetRuns.LateDropIsSharedLater | src/ai_cli/name_registry.py:1726-1761 | a whole run, careful but for a late landing, in which a reconcile drops an over-limit spare that an offline launch has taken since, and two machines hold its name |
| MigrateName.MigrateToName | src/ai_cli/migrate_names.py:102-149 | stopped anywhere, with any run of the whole fleet between its reservation and its settlement, either nothing was reserved, or the new row stands or was completed, or its moves failed and left no worktree and no tmux session under the new title, or an event that ends the protection came in between |
| MigrateName.StandsMeanwhile | src/ai_cli/migrate_names.py:121-149 | through any run that starts with the reservation the rename stands, unless one of the named events ended its protection |
| MigrateName.SettlingKeeps | src/ai_cli/migrate_names.py:125-148 | settling a rename that stands leaves its row held, held with the survivors, or active and complete |
| MigrateName.ReleaseUndoesReservation | src/ai_cli/name_registry.py:1969-1983 | a release undoes its reservation, and gives back the very tree unless the title had an earlier record |
| MigrateName.CompletionKeepsNewTitle | src/ai_cli/name_registry.py:1944-1964 | completing leaves the new row held and active, unless it was a rename from a title to itself |
| MigrateName.SettlementSays | src/ai_cli/migrate_names.py:125-148 | on any tip, what each settlement that does not raise leaves: a complete record, no record, or a held row with the survivors |
| Renames.NewRowOutlives | src/ai_cli/migrate_names.py:102-189 | over whole runs of crashes, failures, recoveries, reconciles and other commits, the intent and its new row stand until the rename completes, its own probe sees nothing under the new title, its own rollback undoes all, or one of three acts by hand |
| Renames.ReservationIsWatched | src/ai_cli/name_registry.py:1887-1935 | the reservation starts that protection, when no other rename of the old title is under way and every recorded intent's new name is held |
| Renames.StepKeepsWatch | src/ai_cli/name_registry.py:1632-1637 | each single event keeps it or is one of those that end it |
| Renames.ReconcileSpares | src/ai_cli/name_registry.py:1719-1730 | a reconcile leaves the row of a standing rename exactly as it was |
| Renames.StaysSole | src/ai_cli/name_registry.py:1900-1930 | no later rename is bound for a title that is held |
| Probes.ArtifactsUnder | src/ai_cli/migrate_names.py:72-90 | the list holds exactly the worktree, the engines' sessions and the records of the stores it can read; it is empty exactly when all of these are missing, and misses nothing but records of unreadable stores |
| Probes.ListStore | src/ai_cli/migrate_names.py:86-89 | each path of one store, once |
| Renames.ReleaseFollowsEmptyProbe | src/ai_cli/migrate_names.py:125-134 | in every run, a release of a failed rename comes after its own probe, at which its machine had no worktree and no tmux session under the new title, or after its own rollback |
| Renames.ProbeDecides | src/ai_cli/migrate_names.py:125-134 | a probe that sees nothing, or a rollback, lets its rename be released, and one that sees something does not |
| Renames.HeldRenamesDiffer | src/ai_cli/name_registry.py:1900-1930 | while every standing rename holds its own row and is the only one bound for it, all go to different names |
| Renames.HeldRenamesRepeat | src/ai_cli/migrate_names.py:152-189 | while, besides, a rename that follows on another stays in its repository, recovery is idempotent on every disk and in every order |
| Renames.SecondReservationUnprotects | src/ai_cli/name_registry.py:1929-1930 | reserving the same old title again leaves the first new row to be released |
| Renames.ChainedCompletionDrops | src/ai_cli/name_registry.py:1959-1963 | completing a rename of the new title deletes the row the first rename needs |
| Renames.HeldCompletesOnItsOwnRow | src/ai_cli/name_registry.py:1986-2003 | a held rename can complete afterwards exactly when the held row carries its own new title |
| Recovery.RecoverIntents | src/ai_cli/migrate_names.py:152-189 | the loop over the intents, each probed in the repository of its row in the snapshot, settles the registry as one pass does, up to the record that raises, and reports exactly this machine's intents with artifacts under the new title |
| Recovery.SettleOneSays | src/ai_cli/migrate_names.py:167-188 | what one record comes to, from what stands under its two titles in the repository of its row in the snapshot |
| Recovery.RecoverTwice | src/ai_cli/migrate_names.py:152-189 | while this machine's standing renames go to different names and none is stranded, a second pass on an unchanged disk leaves the very tree of the first, in any mix of artifact states and even after a raise |
| Recovery.RecoverTwiceIff | src/ai_cli/migrate_names.py:167-189 | while they go to different names, that holds for every disk and order exactly when none is stranded |
| Recovery.StrandedUnsettles | src/ai_cli/migrate_names.py:171-176 | for every such tree and disk: the first pass drops a row and raises at the rename that goes to it, the second looks for that rename in another place, passes it over and settles a third |
| Recovery.StrandingDisk | src/ai_cli/migrate_names.py:171-176 | every stranded rename has a disk on which that happens |
| Recovery.CompletedOnce | src/ai_cli/name_registry.py:1938-1966 | after a completion, completing the record again writes nothing, whoever asks and whenever |
| Recovery.SharedNameUnsettlesIff | src/ai_cli/migrate_names.py:167-188 | for two standing renames bound for one name, a second pass changes the tree exactly when the first in the pass is held and the second completes on the same row; not in the other order, nor with both held or both complete |
| Recovery.HeldAndCompletedStayValid | src/ai_cli/name_registry.py:312-315 | holding and completing keep every valid row but a spare valid |
| PolicyHistory.PublishesIff | src/ai_cli/name_registry.py:1420-1495 | a checkout publishes when there is no list, and over a list exactly when its commit strictly descends from a published one it has, and its digest differs; what it publishes is its own names, policy, commit and digest |
| PolicyHistory.AncestryIff | src/ai_cli/name_registry.py:1420-1432 | the four states of the ancestry test |
| PolicyHistory.PolicyOnlyMovesForward | src/ai_cli/name_registry.py:1459-1495 | over any run, a published policy commit changes only to a strict descendant, and where it is the same so is the whole list |
| PolicyHistory.PublicationsAreBounded | src/ai_cli/name_registry.py:1476-1495 | publications after the first are at most the depth gained in the policy repository |
| PolicyHistory.NoLineIsLonger | src/ai_cli/name_registry.py:1428-1431 | no line of descent is longer than the depth of its last commit |
| PolicyHistory.LongestLine | src/ai_cli/name_registry.py:1428-1431 | and one is that long |
| PolicyHistory.NoTwoReplaceEachOther | src/ai_cli/name_registry.py:1459-1484 | after one checkout replaced another's list, the other does not replace it back |
| PolicyHistory.OthersKeepListing | src/ai_cli/name_registry.py:1485-1495 | no other operation touches the published list |
| BatchReader.Read | src/ai_cli/name_registry.py:574-582 | the offset loop gives each path the bytes of its record and stops where the last one ends |
| BatchReader.ReaderInvertsBatch | src/ai_cli/name_registry.py:573-582 | on a printed batch it returns each blob's exact bytes, newlines included, and consumes the buffer whole |
| BatchReader.RecordReads | src/ai_cli/name_registry.py:577-581 | one record reads back wherever it stands |
| BatchReader.DecimalParses | src/ai_cli/name_registry.py:578-578 | the size field parses to the size printed |
| BatchReader.BytesAre | src/ai_cli/name_registry.py:578-578 | the white space and the digits of a header |
| DiffHunks.ParseDiffHunks | src/ai_cli/copier_update.py:451-481 | the line loop computes the fold of its state over the diff's lines |
| DiffHunks.ParserUndoesPrinter | src/ai_cli/copier_update.py:451-481 | of a printed diff it reads every path, and every hunk with its lines cut at their first break and without those whose mark is doubled, as long as what a break hides is no line it acts on, but for a further heading in a heading |
| DiffHunks.ExactIffReadable | src/ai_cli/copier_update.py:463-477 | while no heading hides a file header or a changed line, the hunks come back exactly just when none of their lines breaks inside or has its mark doubled |
| DiffHunks.ExactNeedsReadable | src/ai_cli/copier_update.py:463-477 | for any files and headings, exact hunks need that much |
| DiffHunks.ReadsOnlyClean | src/ai_cli/copier_update.py:463-477 | of any text, the parser reads only lines without breaks and without a doubled mark |
| DiffHunks.HeadingAddsLine | src/ai_cli/copier_update.py:463-477 | a heading that hides an added line behind a form feed gives its hunk that line, for every such heading |
| DiffHunks.LinesComeBack | src/ai_cli/copier_update.py:463-463 | splitting printed lines gives them back, when none holds a line break of any kind |
| DiffHunks.LineBreaksAre | src/ai_cli/copier_update.py:463-463 | the ten characters that end a line |
| DiffHunks.HeaderPath | src/ai_cli/copier_update.py:464-470 | a file header gives its path, when the old path has no space |
| Anchors.AnchorReaches | src/ai_cli/copier_recovery.py:81-84 | an anchor has HEAD as first parent, reaches the earlier snapshot, and is a new commit |
| Anchors.AnchorParents | src/ai_cli/copier_recovery.py:81-83 | its parents are HEAD and the earlier snapshot, each once |
| Anchors.AnchorsAccumulate | src/ai_cli/copier_recovery.py:56-88 | every commit the ref ever named stays reachable from it, over any interleaving of callers |
| Anchors.WinnersStay | src/ai_cli/copier_recovery.py:81-88 | a caller whose swap won has its tree and its HEAD reachable from the ref for good |
| Anchors.NeverComesBack | src/ai_cli/copier_recovery.py:85-85 | the ref never returns to a value it left |
| Anchors.OneWinnerPerValue | src/ai_cli/copier_recovery.py:85-85 | of all callers that read one value, at most one swap wins |
| IsolatedUpdate.SnapshotIsWhole | src/ai_cli/copier_recovery.py:75-80 | the snapshot is the whole checkout exactly when every untracked file is one Git does not ignore |
| IsolatedUpdate.SnapshotHasContent | src/ai_cli/copier_recovery.py:70-80 | the snapshot holds every file as it is on disk, tracked, staged or new, but untracked ignored ones, and no other |
| IsolatedUpdate.NothingAhead | src/ai_cli/copier_update.py:981-983 | a commit count of zero means exactly that the base reaches the tip |
| IsolatedUpdate.HoldsUnlessDisposable | src/ai_cli/copier_update.py:943-1009 | a leftover is let go only when it is clean but for ignored files, in the middle of nothing and has no commit beyond the base; when everything can be read, exactly then |
| IsolatedUpdate.HoldSays | src/ai_cli/copier_update.py:943-1009 | the reason given for keeping an earlier run's leavings is what was found, or what could not be read |
| IsolatedUpdate.RemovalLosesOnlyIgnored | src/ai_cli/copier_update.py:943-1009 | of a leftover let go, every file is in a commit of the base but the untracked ignored ones, which the removal deletes |
| IsolatedUpdate.ResetThenCleaned | src/ai_cli/copier_recovery.py:125-128 | a reset and a clean leave nothing in the status |
| IsolatedUpdate.ResetThenCleanedAt | src/ai_cli/copier_recovery.py:125-126 | they leave HEAD's files as HEAD has them and the untracked ignored ones as they were |
| IsolatedUpdate.Project.AnchorFailedUpdate | src/ai_cli/copier_recovery.py:56-88 | unless it raises, the ref names a commit on the checkout's HEAD that holds every file as it is on disk but untracked ignored ones; backup refs only grow, whatever other runs anchor between its steps; undisturbed, it does not raise |
| IsolatedUpdate.Project.CleanAnchored | src/ai_cli/copier_recovery.py:122-128 | unless interrupted, the checkout is reset and cleaned |
| IsolatedUpdate.Project.Recover | src/ai_cli/copier_update.py:1420-1486 | whichever step raises, the checkout is untouched or its content and HEAD are anchored; nothing is destroyed unless the checkout is still registered and on the HEAD the ref was anchored on; recovered means removed and anchored; untroubled, it recovers |
| IsolatedUpdate.Project.UpdateOneIsolated | src/ai_cli/copier_update.py:1338-1492 | an earlier run's leavings stay as they were unless they hold nothing but what the base has and untracked ignored files, and a conflicted, incomplete or unpushed update is in its checkout or anchored, whatever fails |
| Conflicts.ResolveUnchanged | src/ai_cli/copier_update.py:1077-1146 | only conflicted files that HEAD has exactly as the previous template renders them are overwritten, each with the new version and all of them when nothing fails, or with anything by the one copy that raises; nothing is written unless the conflict is anchored; the conflicts left are the others, in order |
| Conflicts.TakeNew | src/ai_cli/copier_update.py:1126-1145 | the copies made before one raises, the stages cleared, and whatever the raising copy leaves in its own file are all that changes |
| Conflicts.FindUnedited | src/ai_cli/copier_update.py:1104-1117 | the files found are exactly the conflicted ones the project never edited |
| Conflicts.WithoutJoins | src/ai_cli/copier_update.py:1146-1146 | the conflicts left are the others, each as often and in the order they came |
| ColourLeases.Slot | src/ai_cli/iterm2.py:384-404 | the slot is inside the palette, and, with avoidance, unoccupied exactly when some palette slot is |
| ColourLeases.SlotPrefers | src/ai_cli/iterm2.py:384-399 | a human-named session without a pinned colour takes its name's slot while it is free; otherwise, with avoidance, the pinned colour's while it is free, and else the first free one |
| ColourLeases.SlotIsOwn | src/ai_cli/iterm2.py:384-404 | without avoidance a session takes its index, its name's number or the first slot, wrapped to the palette |
| ColourLeases.FullPaletteFallsBack | src/ai_cli/iterm2.py:371-399 | with every slot taken it takes the one its hash wraps to |
| ColourLeases.LeaseFile.Assign | src/ai_cli/iterm2.py:325-413 | leases the slot the preferences give to this session, keeps every other live lease as it is, drops every dead one, and returns the palette's colour there |
| ColourLeases.LeaseFile.Release | src/ai_cli/iterm2.py:416-431 | drops this session's lease and no other |
| ColourLeases.SomeSlotIsFree | src/ai_cli/iterm2.py:374-399 | fewer live leases than palette entries leave a free slot, even when some leases lie outside the palette |
| ColourLeases.AssignKeepsDistinct | src/ai_cli/iterm2.py:376-409 | an assignment keeps the leases distinct exactly when no other live lease holds its slot |
| ColourLeases.LeasesStayDistinct | src/ai_cli/iterm2.py:325-431 | over any run of assignments with room, releases, deaths and assignments under a name again, leases stay pairwise distinct |
| ColourLeases.RestartKeepsColour | src/ai_cli/iterm2.py:384-389 | a human-named session without a pinned colour gets the same colour whenever it starts and finds its slot free |
| ColourLeases.PinnedColour | src/ai_cli/iterm2.py:390-399 | with avoidance, a pinned colour is given whenever it is free, and otherwise the first free slot |
| ColourLeases.NumbersTellNamesApart | src/ai_cli/session_naming.py:629-638 | distinct lower-case names have distinct numbers |
| ColourLeases.NumbersAre | src/ai_cli/session_naming.py:629-638 | the numeral is base 27 with `a` as one, an index base ten |

## Left out

Assumptions of the registry model:

- A push lands atomically on the tip its guard ran on. A guard run on an older tree, which the private ref may show, has
  its push rejected, so of such guards only the publisher's finding that an entry is already published is modelled.
- Rows, records and lists are records compared field by field. JSON with missing or unknown fields, `writer` strings,
  `started_at`, pick statistics and commit messages are not modelled; a blob comparison is a record comparison.
- `pick_name`'s letter tiers: a pick is any candidate of the shortest length, of which the tiers choose among some.
- `Text.IsAbsolutePath` takes any two leading separators as a Windows network path.
- A crash of the local registry between two files of one change: its step is atomic here, as its lock intends.
- Titles and tokens are compared as strings; encoding of paths in the tree is not modelled.
- A ref rewritten by force.

Members stated with a condition, or weaker than a plain promise:

- FleetSafety.OneSessionPerToken: holds of runs in which each step is `Careful`, which is exactly what keeps the fleet
  in agreement.
- Recovery.RecoverTwice: no `resume` is given, as in a reconcile, and nobody else writes meanwhile; it needs standing
  renames bound for different names, none of them stranded.
- MigrateName.MigrateToName: the dry-run checks and the moves themselves are one success or failure.
- IsolatedUpdate.Project.UpdateOneIsolated: nobody edits the checkout while it is being recovered, a checkout's index
  has one stage per path, and what a transient failure leaves is discarded as the source intends.
- Conflicts.ResolveUnchanged: file contents are compared as Git stores them; modes are not modelled.
- DiffHunks.ParserUndoesPrinter: paths print unquoted, the old path holds no space, and neither path holds a line break;
  behind a break, the hunk headings hide no file header and no changed line, and other header lines no line the parser
  acts on.
- BatchReader.Read: a size field with a sign or underscores, which Git never prints, counts as malformed.
- ColourLeases.LeaseFile.Assign: a lease file that cannot be read counts as empty in the source and loses live leases;
  here it can always be read. Letters and digits are ASCII.
- Greedy.OneEditFreeSubset: the library sort is a selection by least key.

Not modelled at all:

- git, tmux, osascript, network and lock plumbing, policy files and their discovery, the word list's download.
- `filter_names` and the list generator, `check_names`, `dry_run_snapshot`, offline lookups of known names: filters and
  reports of a few lines each.
- The session inventory, transcripts, and the moves of a rename.
- The template run, its parity check, dependency installs, issue filing and the push of an anchor to the origin.
- The rest of the iTerm2 integration, configuration, notifications and messaging.

/** Whole runs of the registry: what every reachable tip keeps, whichever machines wrote it. */
module History {
  import opened Wrappers
  import opened Text
  import opened Edits
  import opened Rows
  import opened Registry
  import opened Picker
  import opened Allocation
  import opened Release
  import opened Operations

  /** One commit: who ran what, with the spool its guard read. */
  datatype Commit = Commit(machine: string, op: Op, spool: map<string, Row>)

  ghost predicate Lands(tip: Tree, commit: Commit, after: Tree) {
    && Choices(commit.op, commit.machine, tip, commit.spool)
    && Guard(commit.op, commit.machine, tip, commit.spool).Write?
    && after == Apply(tip, Guard(commit.op, commit.machine, tip, commit.spool).change)
  }

  /** A history of the ref: each tip is its predecessor with exactly one operation's change. */
  ghost predicate IsHistory(tips: seq<Tree>, commits: seq<Commit>) {
    && |tips| == |commits| + 1
    && forall i | 0 <= i < |commits| :: Lands(tips[i], commits[i], tips[i + 1])
  }

  /** Every tip of a history that starts with fitting rows has fitting rows. */
  lemma {:induction false} EveryTipFits(tips: seq<Tree>, commits: seq<Commit>, n: nat)
    requires IsHistory(tips, commits) && RowsFit(tips[0]) && n < |tips|
    ensures RowsFit(tips[n])
  {
    hide RowsFit, Choices, Guard, Apply;
    if n > 0 {
      EveryTipFits(tips, commits, n - 1);
      var commit := commits[n - 1];
      assert Lands(tips[n - 1], commit, tips[n]);
      RowsStayFit(commit.op, commit.machine, tips[n - 1], commit.spool,
                  Guard(commit.op, commit.machine, tips[n - 1], commit.spool).change);
    }
  }

  /** No two held names are one edit apart, dropped labels' tokens aside. */
  ghost predicate NoneConfusable(tree: Tree) {
    forall t, u | t in tree.rows && u in tree.rows && !tree.rows[t].kind.Label? && !tree.rows[u].kind.Label? ::
      !OneEditApart(t, u)
  }

  /** The names a commit picks or accepts anew. */
  function Newcomers(op: Op): set<string> {
    match op
    case ReserveOp(_, _, _, _, pick, _, spares, _) =>
      (if pick.Some? then {pick.value} else {}) + Elements(spares)
    case HandOp(name, _, _, _, _, _, _) => {name}
    case MigrateOp(_, _, _, _, chosen, pick, _, _, _) =>
      if chosen.Some? then {chosen.value} else if pick.Some? then {pick.value} else {}
    case ReconcileOp(_, _, _, _, added, _) => Elements(added)
    case _ => {}
  }

  /** The newcomers are apart from one another and from every row that stays. */
  ghost predicate NewcomersApart(picked: set<string>, staying: set<string>) {
    && (forall n, t | n in picked && t in staying :: !OneEditApart(n, t))
    && (forall n, m | n in picked && m in picked :: !OneEditApart(n, m))
  }

  /** A batch of spares is apart from the held tokens and within itself. */
  lemma BatchApart(tree: Tree, policy: Policy, slot: Slot, vocabulary: Vocabulary, held: set<string>,
                   added: seq<string>)
    requires SpareBatch(tree, policy, slot, vocabulary, held, added) && policy.maxEditDistance != 0
    ensures NewcomersApart(Elements(added), held)
  {
    hide SpareBatch, OneEditApart, LowerWord;
    forall n, t | n in Elements(added) && t in held ensures !OneEditApart(n, t) {
      var i :| 0 <= i < |added| && added[i] == n;
      BatchIsFresh(tree, policy, slot, vocabulary, held, added, i);
    }
    forall n, m | n in Elements(added) && m in Elements(added) ensures !OneEditApart(n, m) {
      var i :| 0 <= i < |added| && added[i] == n;
      var j :| 0 <= j < |added| && added[j] == m;
      BatchIsFresh(tree, policy, slot, vocabulary, held, added, i);
      BatchIsFresh(tree, policy, slot, vocabulary, held, added, j);
      Symmetric(n, m);
      OneEditExact(n, n);
    }
  }

  lemma OneNewcomer(name: string, staying: set<string>)
    requires !NearHeld(name, staying)
    ensures NewcomersApart({name}, staying)
  {
    OneEditExact(name, name);
  }

  lemma TwoGroups(first: set<string>, second: set<string>, staying: set<string>)
    requires NewcomersApart(first, staying) && NewcomersApart(second, staying + first)
    ensures NewcomersApart(first + second, staying)
  {
    forall n, m | n in first + second && m in first + second ensures !OneEditApart(n, m) {
      Symmetric(n, m);
    }
  }

  /** Every guard that takes a name in keeps it apart from every token it leaves held. */
  lemma GuardKeepsApart(op: Op, machine: string, tip: Tree, spool: map<string, Row>, change: Change)
    requires Choices(op, machine, tip, spool) && Guard(op, machine, tip, spool) == Write(change)
    requires PublishedPolicy(tip).Ok? ==> PublishedPolicy(tip).value.maxEditDistance != 0
    ensures NewcomersApart(Newcomers(op), tip.rows.Keys * Apply(tip, change).rows.Keys - Newcomers(op))
  {
    hide OneEditApart, RowProblem, LowerWord;
    match op {
      case ReserveOp(slot, vocabulary, spoolRead, maxLength, pick, tier, spares, now) =>
        ReserveApart(op, machine, tip, spool, change);
      case HandOp(name, slot, add, via, addedBy, words, now) => HandApart(op, machine, tip, spool, change);
      case MigrateOp(slot, vocabulary, maxLength, oldTitle, chosen, pick, tier, words, now) =>
        MigrationApart(op, machine, tip, spool, change);
      case ReconcileOp(hostAlias, vocabulary, candidates, spareRows, added, now) =>
        ReconcileApart(op, machine, tip, spool, change);
      case _ =>
    }
  }

  lemma ReserveApart(op: Op, machine: string, tip: Tree, spool: map<string, Row>, change: Change)
    requires op.ReserveOp? && Choices(op, machine, tip, spool) && Guard(op, machine, tip, spool) == Write(change)
    requires PublishedPolicy(tip).Ok? ==> PublishedPolicy(tip).value.maxEditDistance != 0
    ensures NewcomersApart(Newcomers(op), tip.rows.Keys)
  {
    hide OneEditApart, RowProblem, PrefixPair, LowerWord, SpareBatch, FirstBadSpare;
    var policy := PublishedPolicy(tip).value;
    var held := PickRequest(tip, policy, op.slot, op.vocabulary, op.spoolRead, op.maxLength).held;
    OneNewcomer(op.pick.value, held);
    BatchApart(tip, policy, op.slot, op.vocabulary, held + {op.pick.value}, op.spares);
    TwoGroups({op.pick.value}, Elements(op.spares), held);
  }

  lemma HandApart(op: Op, machine: string, tip: Tree, spool: map<string, Row>, change: Change)
    requires op.HandOp? && Guard(op, machine, tip, spool) == Write(change)
    requires PublishedPolicy(tip).Ok? ==> PublishedPolicy(tip).value.maxEditDistance != 0
    ensures NewcomersApart({op.name}, tip.rows.Keys)
  {
    hide OneEditApart, RowProblem;
    SessionRowFits(op.slot, op.name, change.rows[op.name].value.source.value, None, op.now);
    OneNewcomer(op.name, tip.rows.Keys);
  }

  lemma MigrationApart(op: Op, machine: string, tip: Tree, spool: map<string, Row>, change: Change)
    requires op.MigrateOp? && Choices(op, machine, tip, spool) && Guard(op, machine, tip, spool) == Write(change)
    requires PublishedPolicy(tip).Ok? ==> PublishedPolicy(tip).value.maxEditDistance != 0
    ensures NewcomersApart(Newcomers(op), tip.rows.Keys)
  {
    hide OneEditApart, RowProblem, PrefixPair, IsCommonWord;
    var name := if op.chosen.Some? then op.chosen.value else op.pick.value;
    OneNewcomer(name, tip.rows.Keys);
  }

  lemma ReconcileApart(op: Op, machine: string, tip: Tree, spool: map<string, Row>, change: Change)
    requires op.ReconcileOp? && Choices(op, machine, tip, spool) && Guard(op, machine, tip, spool) == Write(change)
    requires PublishedPolicy(tip).Ok? ==> PublishedPolicy(tip).value.maxEditDistance != 0
    ensures NewcomersApart(Newcomers(op), tip.rows.Keys * Apply(tip, change).rows.Keys - Newcomers(op))
  {
    var policy := PublishedPolicy(tip).value;
    var out := Outgoing(tip, machine, op.candidates, op.spareRows, spool, policy);
    BatchApart(Remaining(tip, out), policy, TopUpSlot(op.hostAlias, machine), op.vocabulary,
               tip.rows.Keys + spool.Keys - out, op.added);
    forall t | t in tip.rows.Keys * Apply(tip, change).rows.Keys - Newcomers(op) ensures t !in out {
      hide OneEditApart, ReconcileRelease, ReconcileChoices, RowProblem, Apply;
      AfterRelease(tip, machine, op.hostAlias, op.candidates, op.spareRows, spool, op.added, op.now, change, t);
    }
  }

  /** A row that is no newcomer and not a label was held before and was not a label then. */
  lemma StayersStay(op: Op, machine: string, tip: Tree, spool: map<string, Row>, change: Change, t: string)
    requires RowsFit(tip) && Choices(op, machine, tip, spool) && Guard(op, machine, tip, spool) == Write(change)
    requires t in Apply(tip, change).rows && !Apply(tip, change).rows[t].kind.Label? && t !in Newcomers(op)
    ensures t in tip.rows && !tip.rows[t].kind.Label?
  {
    hide RowProblem, Guard, Choices, Apply;
    if op.ReconcileOp? {
      TopUpIsNewcomer(op, machine, tip, spool, change, t);
    } else {
      var effect := OpEffect(op, machine, tip, spool, change, t);
      if effect.Fresh? {
        FreshIsNewcomer(op, machine, tip, spool, change, t);
      }
    }
  }

  lemma TopUpIsNewcomer(op: Op, machine: string, tip: Tree, spool: map<string, Row>, change: Change, t: string)
    requires op.ReconcileOp? && Guard(op, machine, tip, spool) == Write(change)
    requires t in Apply(tip, change).rows && t !in op.added
    ensures t in tip.rows && Apply(tip, change).rows[t] == tip.rows[t]
  {
    hide RowProblem, ReconcileRelease, Apply;
    AfterRelease(tip, machine, op.hostAlias, op.candidates, op.spareRows, spool, op.added, op.now, change, t);
  }

  lemma FreshIsNewcomer(op: Op, machine: string, tip: Tree, spool: map<string, Row>, change: Change, t: string)
    requires op.ReserveOp? || op.HandOp? || op.LabelOp? || op.MigrateOp?
    requires Guard(op, machine, tip, spool) == Write(change) && t !in tip.rows
    requires t in Apply(tip, change).rows && !Apply(tip, change).rows[t].kind.Label?
    ensures t in Newcomers(op)
  {
    hide RowProblem, PublishedPolicy, FirstBadSpare, CheckHandChosen, OutsideLimits;
    assert t in change.rows;
  }

  /** One commit under a policy with an edit distance keeps every pair of names apart. */
  lemma StaysUnconfusable(op: Op, machine: string, tip: Tree, spool: map<string, Row>, change: Change)
    requires RowsFit(tip) && Choices(op, machine, tip, spool) && Guard(op, machine, tip, spool) == Write(change)
    requires PublishedPolicy(tip).Ok? ==> PublishedPolicy(tip).value.maxEditDistance != 0
    requires NoneConfusable(tip)
    ensures NoneConfusable(Apply(tip, change))
  {
    hide OneEditApart, Guard, Choices, Apply, RowsFit, Newcomers;
    var after := Apply(tip, change);
    GuardKeepsApart(op, machine, tip, spool, change);
    forall t, u | t in after.rows && u in after.rows && !after.rows[t].kind.Label? && !after.rows[u].kind.Label?
      ensures !OneEditApart(t, u)
    {
      if t !in Newcomers(op) {
        StayersStay(op, machine, tip, spool, change, t);
      }
      if u !in Newcomers(op) {
        StayersStay(op, machine, tip, spool, change, u);
      }
      Symmetric(t, u);
    }
  }

  /** While the published edit distance is never zero, no reachable tip holds two names one slip apart. */
  lemma {:induction false} EveryTipUnconfusable(tips: seq<Tree>, commits: seq<Commit>, n: nat)
    requires IsHistory(tips, commits) && RowsFit(tips[0]) && NoneConfusable(tips[0]) && n < |tips|
    requires forall i | 0 <= i < n ::
        PublishedPolicy(tips[i]).Ok? ==> PublishedPolicy(tips[i]).value.maxEditDistance != 0
    ensures NoneConfusable(tips[n])
  {
    hide RowsFit, Choices, Guard, Apply, NoneConfusable;
    if n > 0 {
      EveryTipUnconfusable(tips, commits, n - 1);
      EveryTipFits(tips, commits, n - 1);
      var commit := commits[n - 1];
      assert Lands(tips[n - 1], commit, tips[n]);
      StaysUnconfusable(commit.op, commit.machine, tips[n - 1], commit.spool,
                        Guard(commit.op, commit.machine, tips[n - 1], commit.spool).change);
    }
  }
}

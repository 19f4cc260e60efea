/**
 * Optimistic writes to the shared ref. Any number of writers fetch the tip, run a whole guard on it, and push a commit
 * on top of it without force; a push lands only when its parent is still the tip.
 */
module Optimistic {
  import opened Registry

  /** What a guard may decide on a tree; a guard that picks at random may decide several things. */
  type Rule = (Tree, Build) -> bool

  /** How one `transact` ends. */
  datatype Outcome =
    | Returned(change: Change)
    | ReturnedNone
    | Raised(why: Refusal)
    | Contended
    | Unreachable

  /**
   * `Holding` is a commit built on the tip of the first `parent` log entries and not yet pushed. `Sent` is one whose
   * push got no answer: the call has ended unreachable, and the commit may have landed, land later, or never.
   */
  datatype Phase =
    | Ready
    | Holding(parent: nat, change: Change)
    | Sent(parent: nat, change: Change)
    | Done(outcome: Outcome)
  {
    predicate HasCommit() { Holding? || Sent? }
  }

  /** One call of `transact`: attempts allowed and lost, losses to a locked ref, and the log's length when it began. */
  datatype Writer = Writer(attempts: nat, lost: nat, locked: nat, began: nat, phase: Phase)

  /** One commit on the ref, with the call that made it. */
  datatype Entry = Entry(author: nat, change: Change)

  datatype World = World(base: Tree, log: seq<Entry>, writers: map<nat, Writer>)
  {
    function Tip(): Tree { Replay(base, log) }
  }

  function Replay(base: Tree, log: seq<Entry>): Tree {
    if log == [] then base else Apply(Replay(base, log[..|log| - 1]), log[|log| - 1].change)
  }

  /** How many commits of a log one call made. */
  function Commits(log: seq<Entry>, author: nat): (n: nat)
    ensures n <= |log|
  {
    if log == [] then 0
    else Commits(log[..|log| - 1], author) + if log[|log| - 1].author == author then 1 else 0
  }

  datatype Move =
    | Begin(p: nat, attempts: nat)
    | FetchAndBuild(p: nat, build: Build)
    | FetchFails(p: nat)
    | PushLands(p: nat)
    | PushRejected(p: nat, refLocked: bool)
    | PushLost(p: nat)
    | LandsLate(p: nat)

  function AfterLoss(writer: Writer, refLocked: bool): Writer {
    var lost := writer.lost + 1;
    writer.(lost := lost, locked := writer.locked + if refLocked then 1 else 0,
            phase := if lost < writer.attempts then Ready else Done(Contended))
  }

  function Decided(build: Build, length: nat): Phase {
    match build
    case Refuse(why) => Done(Raised(why))
    case Skip => Done(ReturnedNone)
    case Write(change) => if change.Empty() then Done(ReturnedNone) else Holding(length, change)
  }

  function WithWriter(w: World, p: nat, writer: Writer): World { w.(writers := w.writers[p := writer]) }

  /**
   * One move of the world. A rejected push lost the race, or met the lock another push holds on the remote ref. A push
   * nobody heard of lands when it will, if no other commit has by then.
   */
  ghost predicate Moves(rules: nat -> Rule, w: World, move: Move, w': World) {
    match move
    case Begin(p, attempts) =>
      && p !in w.writers
      && w' == WithWriter(w, p, Writer(attempts, 0, 0, |w.log|, if attempts > 0 then Ready else Done(Contended)))
    case FetchAndBuild(p, build) =>
      && p in w.writers && w.writers[p].phase.Ready?
      && rules(p)(w.Tip(), build)
      && w' == WithWriter(w, p, w.writers[p].(phase := Decided(build, |w.log|)))
    case FetchFails(p) =>
      && p in w.writers && w.writers[p].phase.Ready?
      && w' == WithWriter(w, p, w.writers[p].(phase := Done(Unreachable)))
    case PushLands(p) =>
      && p in w.writers && w.writers[p].phase.Holding? && w.writers[p].phase.parent == |w.log|
      && w' == WithWriter(w, p, w.writers[p].(phase := Done(Returned(w.writers[p].phase.change))))
               .(log := w.log + [Entry(p, w.writers[p].phase.change)])
    case PushRejected(p, refLocked) =>
      && p in w.writers && w.writers[p].phase.Holding?
      && (refLocked || w.writers[p].phase.parent < |w.log|)
      && w' == WithWriter(w, p, AfterLoss(w.writers[p], refLocked))
    case PushLost(p) =>
      && p in w.writers && w.writers[p].phase.Holding?
      && w' == WithWriter(w, p, w.writers[p].(phase := Sent(w.writers[p].phase.parent, w.writers[p].phase.change)))
    case LandsLate(p) =>
      && p in w.writers && w.writers[p].phase.Sent? && w.writers[p].phase.parent == |w.log|
      && w' == WithWriter(w, p, w.writers[p].(phase := Done(Unreachable)))
               .(log := w.log + [Entry(p, w.writers[p].phase.change)])
  }

  /** The atomic step of the locked registry: read the tree, run the guard, write its change. */
  ghost predicate AtomicStep(rule: Rule, tree: Tree, change: Change, after: Tree) {
    rule(tree, Write(change)) && !change.Empty() && after == Apply(tree, change)
  }

  /** A log every entry of which is an atomic step of its author on the tip before it. */
  ghost predicate IsLocalRun(rules: nat -> Rule, base: Tree, log: seq<Entry>) {
    forall i | 0 <= i < |log| ::
      AtomicStep(rules(log[i].author), Replay(base, log[..i]), log[i].change, Replay(base, log[..i + 1]))
  }

  /** What a call's outcome says about the log. */
  ghost predicate Accounted(w: World, p: nat, writer: Writer) {
    && writer.began <= |w.log|
    && writer.locked <= writer.lost <= writer.attempts
    && Commits(w.log[..writer.began], p) == 0
    && match writer.phase
       case Ready =>
         && Commits(w.log, p) == 0
         && writer.lost < writer.attempts
         && writer.began + writer.lost <= |w.log| + writer.locked
       case Holding(parent, change) =>
         && Commits(w.log, p) == 0
         && writer.lost < writer.attempts
         && writer.began + writer.lost <= parent + writer.locked
         && parent <= |w.log|
       case Sent(parent, change) => Commits(w.log, p) == 0 && parent <= |w.log|
       case Done(outcome) => EndAccounted(w, p, writer, outcome)
  }

  ghost predicate EndAccounted(w: World, p: nat, writer: Writer, outcome: Outcome) {
    match outcome
    case Returned(change) => Commits(w.log, p) == 1 && Entry(p, change) in w.log
    case Contended =>
      && Commits(w.log, p) == 0
      && writer.lost == writer.attempts
      && writer.began + writer.lost <= |w.log| + writer.locked
    case Unreachable => Commits(w.log, p) <= 1
    case _ => Commits(w.log, p) == 0
  }

  /** A commit waiting to be pushed, or on its way, is what its guard decided on the tip it was built on. */
  ghost predicate Built(rules: nat -> Rule, w: World, p: nat, writer: Writer) {
    writer.phase.HasCommit() && writer.phase.parent <= |w.log| ==>
      && rules(p)(Replay(w.base, w.log[..writer.phase.parent]), Write(writer.phase.change))
      && !writer.phase.change.Empty()
  }

  ghost predicate Inv(rules: nat -> Rule, w: World) {
    && IsLocalRun(rules, w.base, w.log)
    && (forall i | 0 <= i < |w.log| :: w.log[i].author in w.writers)
    && (forall p | p in w.writers :: Accounted(w, p, w.writers[p]) && Built(rules, w, p, w.writers[p]))
  }

  lemma {:induction false} NoCommitsOf(log: seq<Entry>, author: nat)
    requires forall i | 0 <= i < |log| :: log[i].author != author
    ensures Commits(log, author) == 0
  {
    if log != [] {
      NoCommitsOf(log[..|log| - 1], author);
    }
  }

  lemma LogGrows(log: seq<Entry>, entry: Entry, author: nat)
    ensures Commits(log + [entry], author) == Commits(log, author) + if entry.author == author then 1 else 0
  {
    assert (log + [entry])[..|log|] == log;
  }

  /** Appending one atomic step keeps the log a run of atomic steps. */
  lemma LocalRunGrows(rules: nat -> Rule, base: Tree, log: seq<Entry>, entry: Entry)
    requires IsLocalRun(rules, base, log)
    requires rules(entry.author)(Replay(base, log), Write(entry.change)) && !entry.change.Empty()
    ensures IsLocalRun(rules, base, log + [entry])
  {
    hide Apply;
    var longer := log + [entry];
    assert longer[..|log|] == log && longer[..|log| + 1] == longer;
    assert Replay(base, longer) == Apply(Replay(base, log), entry.change) by {
      assert longer[..|longer| - 1] == log;
    }
    forall i | 0 <= i < |longer|
      ensures AtomicStep(rules(longer[i].author), Replay(base, longer[..i]), longer[i].change,
                         Replay(base, longer[..i + 1]))
    {
      if i < |log| {
        assert longer[..i] == log[..i] && longer[..i + 1] == log[..i + 1];
      }
    }
  }

  /** A writer other than the one that appended keeps its account. */
  lemma BystanderAccounted(rules: nat -> Rule, w: World, w': World, entry: Entry, p: nat, writer: Writer)
    requires w'.log == w.log + [entry] && w'.base == w.base && entry.author != p
    requires Accounted(w, p, writer) && Built(rules, w, p, writer)
    ensures Accounted(w', p, writer) && Built(rules, w', p, writer)
  {
    LogGrows(w.log, entry, p);
    assert w'.log[..writer.began] == w.log[..writer.began];
    if writer.phase.HasCommit() {
      assert w'.log[..writer.phase.parent] == w.log[..writer.phase.parent];
    }
  }

  lemma SameLogAccounted(rules: nat -> Rule, w: World, w': World, p: nat, writer: Writer)
    requires w'.log == w.log && w'.base == w.base
    requires Accounted(w, p, writer) && Built(rules, w, p, writer)
    ensures Accounted(w', p, writer) && Built(rules, w', p, writer)
  {
  }

  /** A move that only changes one call's own record. */
  lemma OneWriterMoved(rules: nat -> Rule, w: World, p: nat, writer: Writer)
    requires Inv(rules, w) && Accounted(w, p, writer) && Built(rules, w, p, writer)
    ensures Inv(rules, WithWriter(w, p, writer))
  {
    hide IsLocalRun, Replay, Accounted, Built;
    var w' := WithWriter(w, p, writer);
    SameLogAccounted(rules, w, w', p, writer);
    forall q | q in w'.writers ensures Accounted(w', q, w'.writers[q]) && Built(rules, w', q, w'.writers[q]) {
      if q != p {
        SameLogAccounted(rules, w, w', q, w.writers[q]);
      }
    }
  }

  lemma BeginKeeps(rules: nat -> Rule, w: World, p: nat, attempts: nat)
    requires Inv(rules, w) && p !in w.writers
    ensures Inv(rules,
                WithWriter(w, p, Writer(attempts, 0, 0, |w.log|, if attempts > 0 then Ready else Done(Contended))))
  {
    hide Replay, IsLocalRun;
    NoCommitsOf(w.log, p);
    assert w.log[..|w.log|] == w.log;
    OneWriterMoved(rules, w, p, Writer(attempts, 0, 0, |w.log|, if attempts > 0 then Ready else Done(Contended)));
  }

  lemma FetchKeeps(rules: nat -> Rule, w: World, p: nat, build: Build)
    requires Inv(rules, w) && p in w.writers && w.writers[p].phase.Ready? && rules(p)(w.Tip(), build)
    ensures Inv(rules, WithWriter(w, p, w.writers[p].(phase := Decided(build, |w.log|))))
  {
    hide Replay, IsLocalRun;
    assert w.log[..|w.log|] == w.log;
    assert Accounted(w, p, w.writers[p]);
    OneWriterMoved(rules, w, p, w.writers[p].(phase := Decided(build, |w.log|)));
  }

  lemma GivingUpKeeps(rules: nat -> Rule, w: World, p: nat)
    requires Inv(rules, w) && p in w.writers && w.writers[p].phase.Ready?
    ensures Inv(rules, WithWriter(w, p, w.writers[p].(phase := Done(Unreachable))))
  {
    hide Replay, IsLocalRun;
    assert Accounted(w, p, w.writers[p]);
    OneWriterMoved(rules, w, p, w.writers[p].(phase := Done(Unreachable)));
  }

  lemma SendingKeeps(rules: nat -> Rule, w: World, p: nat)
    requires Inv(rules, w) && p in w.writers && w.writers[p].phase.Holding?
    ensures
      var phase := w.writers[p].phase;
      Inv(rules, WithWriter(w, p, w.writers[p].(phase := Sent(phase.parent, phase.change))))
  {
    hide Replay, IsLocalRun;
    var phase := w.writers[p].phase;
    assert Accounted(w, p, w.writers[p]) && Built(rules, w, p, w.writers[p]);
    OneWriterMoved(rules, w, p, w.writers[p].(phase := Sent(phase.parent, phase.change)));
  }

  lemma LosingKeeps(rules: nat -> Rule, w: World, p: nat, refLocked: bool)
    requires Inv(rules, w) && p in w.writers && w.writers[p].phase.Holding?
    requires refLocked || w.writers[p].phase.parent < |w.log|
    ensures Inv(rules, WithWriter(w, p, AfterLoss(w.writers[p], refLocked)))
  {
    hide Replay, IsLocalRun;
    assert Accounted(w, p, w.writers[p]);
    OneWriterMoved(rules, w, p, AfterLoss(w.writers[p], refLocked));
  }

  /** A push that lands, whether its writer hears of it or has given up. */
  lemma LandingKeeps(rules: nat -> Rule, w: World, p: nat, outcome: Outcome)
    requires Inv(rules, w) && p in w.writers && w.writers[p].phase.HasCommit()
    requires w.writers[p].phase.parent == |w.log|
    requires outcome == Returned(w.writers[p].phase.change) || outcome.Unreachable?
    ensures Inv(rules, WithWriter(w, p, w.writers[p].(phase := Done(outcome)))
                       .(log := w.log + [Entry(p, w.writers[p].phase.change)]))
  {
    hide IsLocalRun, Replay, Built, Accounted;
    var writer := w.writers[p];
    var entry := Entry(p, writer.phase.change);
    var w' := WithWriter(w, p, writer.(phase := Done(outcome))).(log := w.log + [entry]);
    OwnLandingAccounted(rules, w, w', p, writer, outcome);
    forall q | q in w'.writers ensures Accounted(w', q, w'.writers[q]) && Built(rules, w', q, w'.writers[q]) {
      if q != p {
        BystanderAccounted(rules, w, w', entry, q, w.writers[q]);
      }
    }
  }

  lemma OwnLandingAccounted(rules: nat -> Rule, w: World, w': World, p: nat, writer: Writer, outcome: Outcome)
    requires IsLocalRun(rules, w.base, w.log) && w'.base == w.base
    requires Accounted(w, p, writer) && Built(rules, w, p, writer)
    requires writer.phase.HasCommit() && writer.phase.parent == |w.log|
    requires w'.log == w.log + [Entry(p, writer.phase.change)]
    requires outcome == Returned(writer.phase.change) || outcome.Unreachable?
    ensures Accounted(w', p, writer.(phase := Done(outcome))) && Built(rules, w', p, writer.(phase := Done(outcome)))
    ensures IsLocalRun(rules, w'.base, w'.log)
  {
    hide Replay;
    var entry := Entry(p, writer.phase.change);
    assert w.log[..|w.log|] == w.log;
    LocalRunGrows(rules, w.base, w.log, entry);
    LogGrows(w.log, entry, p);
    assert w'.log[..writer.began] == w.log[..writer.began];
    assert entry == w'.log[|w.log|];
  }

  lemma MoveKeeps(rules: nat -> Rule, w: World, move: Move, w': World)
    requires Inv(rules, w) && Moves(rules, w, move, w')
    ensures Inv(rules, w')
  {
    hide Inv, Replay;
    match move {
      case Begin(p, attempts) => BeginKeeps(rules, w, p, attempts);
      case FetchAndBuild(p, build) => FetchKeeps(rules, w, p, build);
      case FetchFails(p) => GivingUpKeeps(rules, w, p);
      case PushLands(p) => LandingKeeps(rules, w, p, Returned(w.writers[p].phase.change));
      case PushRejected(p, refLocked) => LosingKeeps(rules, w, p, refLocked);
      case PushLost(p) => SendingKeeps(rules, w, p);
      case LandsLate(p) => LandingKeeps(rules, w, p, Unreachable);
    }
  }

  ghost predicate IsRun(rules: nat -> Rule, worlds: seq<World>, moves: seq<Move>) {
    && |worlds| == |moves| + 1
    && worlds[0].log == [] && worlds[0].writers == map[]
    && forall i | 0 <= i < |moves| :: Moves(rules, worlds[i], moves[i], worlds[i + 1])
  }

  lemma {:induction false} RunKeeps(rules: nat -> Rule, worlds: seq<World>, moves: seq<Move>, n: nat)
    requires IsRun(rules, worlds, moves) && n < |worlds|
    ensures Inv(rules, worlds[n])
    ensures worlds[n].base == worlds[0].base
  {
    hide Inv;
    if n > 0 {
      RunKeeps(rules, worlds, moves, n - 1);
      MoveKeeps(rules, worlds[n - 1], moves[n - 1], worlds[n]);
    } else {
      assert Inv(rules, worlds[0]) by { EmptyWorld(rules, worlds[0]); }
    }
  }

  lemma EmptyWorld(rules: nat -> Rule, w: World)
    requires w.log == [] && w.writers == map[]
    ensures Inv(rules, w)
  {
  }

  /**
   * However the writers interleave, the ref's history is a sequence of the locked registry's atomic steps:
   * each tip is its predecessor with exactly the change its author's guard decided on that predecessor.
   */
  lemma RefinesLockedRegistry(rules: nat -> Rule, worlds: seq<World>, moves: seq<Move>, n: nat)
    requires IsRun(rules, worlds, moves) && n < |worlds|
    ensures IsLocalRun(rules, worlds[0].base, worlds[n].log)
    ensures worlds[n].Tip() == Replay(worlds[0].base, worlds[n].log)
  {
    RunKeeps(rules, worlds, moves, n);
  }

  ghost predicate Told(w: World, p: nat, writer: Writer, outcome: Outcome) {
    match outcome
    case Returned(change) => Commits(w.log, p) == 1 && Entry(p, change) in w.log
    case Contended =>
      && Commits(w.log, p) == 0
      && |w.log| - writer.began >= writer.attempts - writer.locked
      && forall i | 0 <= i < |w.log| :: w.log[i].author != p
    case Unreachable => Commits(w.log, p) <= 1
    case _ => Commits(w.log, p) == 0
  }

  /**
   * What each ending tells its caller. Contended means the call wrote nothing and, for every attempt not lost to a
   * locked ref, another writer's commit landed after the call began.
   */
  lemma OutcomeTellsTheLog(rules: nat -> Rule, worlds: seq<World>, moves: seq<Move>, n: nat, p: nat)
    requires IsRun(rules, worlds, moves) && n < |worlds|
    requires p in worlds[n].writers
    ensures
      var writer := worlds[n].writers[p];
      && (writer.phase.Done? ==> Told(worlds[n], p, writer, writer.phase.outcome))
      && (writer.phase.Sent? ==> Told(worlds[n], p, writer, Unreachable))
  {
    RunKeeps(rules, worlds, moves, n);
    assert Accounted(worlds[n], p, worlds[n].writers[p]);
    if Commits(worlds[n].log, p) == 0 {
      NoEntryOf(worlds[n].log, p);
    }
  }

  /** How many pushes of this call the first `n` moves refused, all of them or those met by a locked ref. */
  function Refusals(moves: seq<Move>, n: nat, p: nat, onlyLocked: bool): nat
    requires n <= |moves|
  {
    if n == 0 then 0
    else
      var move := moves[n - 1];
      Refusals(moves, n - 1, p, onlyLocked)
      + if move.PushRejected? && move.p == p && (onlyLocked ==> move.refLocked) then 1 else 0
  }

  /** A call pushes again after each refusal until it has used its attempts, and is contended just when it has. */
  lemma {:induction false} AttemptsAreSpent(rules: nat -> Rule, worlds: seq<World>, moves: seq<Move>, n: nat, p: nat)
    requires IsRun(rules, worlds, moves) && n < |worlds|
    ensures p !in worlds[n].writers ==> Refusals(moves, n, p, false) == Refusals(moves, n, p, true) == 0
    ensures p in worlds[n].writers ==>
              var writer, refused := worlds[n].writers[p], Refusals(moves, n, p, false);
              && refused == writer.lost <= writer.attempts && Refusals(moves, n, p, true) == writer.locked
              && (writer.phase == Done(Contended) <==> refused == writer.attempts)
  {
    hide IsLocalRun, Replay;
    if n > 0 {
      AttemptsAreSpent(rules, worlds, moves, n - 1, p);
      assert Moves(rules, worlds[n - 1], moves[n - 1], worlds[n]);
    }
  }

  lemma {:induction false} NoEntryOf(log: seq<Entry>, author: nat)
    requires Commits(log, author) == 0
    ensures forall i | 0 <= i < |log| :: log[i].author != author
  {
    if log != [] {
      NoEntryOf(log[..|log| - 1], author);
    }
  }

  /**
   * The source's message says that every attempt lost to another writer. A push refused because the remote ref was
   * locked counts as lost too, so a call can end Contended although no other commit ever landed.
   */
  lemma ContendedWithoutACommit(rule: Rule, change: Change, base: Tree)
    returns (worlds: seq<World>, moves: seq<Move>)
    requires rule(base, Write(change)) && !change.Empty()
    ensures IsRun(_ => rule, worlds, moves)
    ensures 0 in worlds[|moves|].writers && worlds[|moves|].writers[0].phase == Done(Contended)
    ensures worlds[|moves|].writers[0].attempts == 1 && worlds[|moves|].log == []
  {
    var w0 := World(base, [], map[]);
    var w1 := WithWriter(w0, 0, Writer(1, 0, 0, 0, Ready));
    var w2 := WithWriter(w1, 0, w1.writers[0].(phase := Holding(0, change)));
    var w3 := WithWriter(w2, 0, AfterLoss(w2.writers[0], true));
    worlds := [w0, w1, w2, w3];
    moves := [Begin(0, 1), FetchAndBuild(0, Write(change)), PushRejected(0, true)];
    assert Moves(_ => rule, w0, moves[0], w1);
    assert Moves(_ => rule, w1, moves[1], w2);
    assert Moves(_ => rule, w2, moves[2], w3);
  }
}

/** Five short runs, each with one careless step, in which two sessions come to hold one name. */
module FleetRuns {
  import opened Wrappers
  import opened Text
  import opened StringOrder
  import opened Edits
  import opened Rows
  import opened Registry
  import opened Picker
  import opened Allocation
  import opened Release
  import opened Spool
  import opened Operations
  import opened Fleet
  import opened FleetSafety

  const HERE := "m1"
  const THERE := "m2"
  const NAME := "ada"
  const LONG := "adele"
  const LIST := Listing({NAME}, Generation(Some(Policy(1, {}, 3, 4, {}, 0, 1, {}, {})), None, ""))
  const FIRST := Slot("repo", "repo", "box", None, HERE, "claude-code", false)
  const SECOND := Slot("repo", "repo", "box", Some("again"), HERE, "claude-code", false)
  const ELSEWHERE := Slot("repo", "repo", "den", None, THERE, "claude-code", false)
  const SPARE := SpareRow(NAME, "box", HERE, "t")
  const LONG_SPARE := SpareRow(LONG, "box", HERE, "t")
  const GONE := Evidence(false, true, Some(false), map["claude-code" := Probe.Absent])

  function TipWith(rows: map<string, Row>): Tree { Tree(rows, map[], map[], Some(LIST)) }

  const SPARE_TIP := TipWith(map[NAME := SPARE])
  const LONG_TIP := TipWith(map[LONG := LONG_SPARE])

  /** This host in a fleet of two, whose other host knows these tips and has set its private ref to none of them. */
  function Two(tip: Tree, here: Machine, known: set<Tree>): Fleet {
    Fleet(tip, map[HERE := here, THERE := Machine(EmptyTree, known, map[], Open)], {})
  }

  /** This host with its spool lock free. */
  function Idle(view: Tree, seen: set<Tree>, spool: map<string, Row>): Machine { Machine(view, seen, spool, Open) }

  const FRESH := Idle(EmptyTree, {}, map[])

  lemma SpareIsValid()
    ensures RowProblem(SPARE).None? && RowFits(NAME, SPARE) && IsSpareOf(SPARE, HERE)
    ensures RowProblem(LONG_SPARE).None? && RowFits(LONG, LONG_SPARE) && IsSpareOf(LONG_SPARE, HERE)
  {
  }

  lemma TitlesAre()
    ensures FIRST.TitleFor(NAME) == "repo-box-ada" && FIRST.TitleFor(LONG) == "repo-box-adele"
    ensures SECOND.TitleFor(NAME) == "repo-box-again-ada"
    ensures ELSEWHERE.TitleFor(NAME) == "repo-den-ada"
  {
  }

  lemma ActivationsAreValid()
    ensures RowProblem(Activate(SPARE, FIRST, "t")).None? && RowProblem(Activate(SPARE, SECOND, "t")).None?
    ensures RowProblem(Activate(LONG_SPARE, FIRST, "t")).None?
    ensures RowFits(NAME, Activate(SPARE, FIRST, "t"))
    ensures OnlyActivationDiffers(SPARE, Activate(SPARE, FIRST, "t"))
  {
    hide RowProblem;
    SpareIsValid();
    TitlesAre();
    ActivationPasses(SPARE, FIRST, "t");
    ActivationPasses(SPARE, SECOND, "t");
    ActivationPasses(LONG_SPARE, FIRST, "t");
  }

  lemma SessionElsewhereIsValid()
    ensures RowProblem(SessionRow(ELSEWHERE, NAME, "custom", None, "t")).None?
  {
    TitlesAre();
  }

  /** Steps that are careful wherever they are taken. */
  predicate Calm(s: Fleet, e: Event) {
    match e
    case MoveRef(_, tree) => tree == s.tip
    case Unlock(m) => m in s.machines && s.machines[m].view == s.tip
    case Land(_, op) => op.HandOp? || op.LabelOp?
    case PublishSeen(_, _, _) => false
    case ReleaseLand(_, _) => false
    case LateLand(_, _, _) => false
    case _ => true
  }

  lemma CalmIsCareful(s: Fleet, e: Event)
    requires Calm(s, e)
    ensures Careful(s, e)
  {
    hide RowProblem, Choices, Guard, Apply, Altered, ReliedOn;
    if e.Land? && e.m in s.machines {
      ReservationsAreCareful(s, e.m, e.op);
    }
  }

  ghost predicate CarefulStep(s: Fleet, e: Event, s': Fleet) { Next(s, e, s') && Careful(s, e) }

  /** A run from one state to another, of which every step is careful, except for the one numbered `n` if it has one. */
  ghost predicate Leads(from: Fleet, states: seq<Fleet>, events: seq<Event>, n: nat, to: Fleet) {
    && |states| == |events| + 1
    && IsRun(states, events)
    && states[0] == from && states[|events|] == to
    && forall i | 0 <= i < |events| && i != n :: Careful(states[i], events[i])
  }

  /** One run after another, the first careful throughout. */
  lemma Joined(from: Fleet, states: seq<Fleet>, events: seq<Event>, mid: Fleet, more: seq<Fleet>, rest: seq<Event>,
               n: nat, to: Fleet) returns (all: seq<Fleet>)
    requires Leads(from, states, events, |events|, mid) && Leads(mid, more, rest, n, to)
    ensures all == states + more[1..]
    ensures Leads(from, all, events + rest, |events| + n, to)
    ensures forall i | 0 <= i < |more| :: all[|events| + i] == more[i]
  {
    hide Next, Careful;
    all := states + more[1..];
    forall i | 0 <= i < |events + rest| ensures Next(all[i], (events + rest)[i], all[i + 1]) {
      assert i < |events| ==> all[i + 1] == states[i + 1];
      assert i >= |events| ==> Next(more[i - |events|], rest[i - |events|], more[i - |events| + 1]);
    }
  }

  lemma HereOnly(tip: Tree, here: Machine, known: set<Tree>, next: Machine)
    ensures WithMachine(Two(tip, here, known), HERE, next) == Two(tip, next, known)
  {
    assert map[HERE := here, THERE := Machine(EmptyTree, known, map[], Open)][HERE := next]
        == map[HERE := next, THERE := Machine(EmptyTree, known, map[], Open)];
  }

  lemma Starts(tip: Tree)
    requires RowsFit(tip)
    ensures Start(Two(tip, FRESH, {}))
  {
    hide RowsFit;
  }

  lemma Fetches(tip: Tree, here: Machine, known: set<Tree>)
    ensures CarefulStep(Two(tip, here, known), FetchRead(HERE), Two(tip, here.(seen := here.seen + {tip}), known))
  {
    hide RowProblem, Careful;
    HereOnly(tip, here, known, here.(seen := here.seen + {tip}));
    CalmIsCareful(Two(tip, here, known), FetchRead(HERE));
  }

  /** The private ref is set to a tip this host knows, which is careful when it is the tip. */
  lemma Moves(tip: Tree, here: Machine, known: set<Tree>, tree: Tree)
    requires tree in here.seen
    ensures Next(Two(tip, here, known), MoveRef(HERE, tree), Two(tip, here.(view := tree), known))
    ensures tree == tip ==> Careful(Two(tip, here, known), MoveRef(HERE, tree))
  {
    hide RowProblem, Careful;
    HereOnly(tip, here, known, here.(view := tree));
    if tree == tip {
      CalmIsCareful(Two(tip, here, known), MoveRef(HERE, tree));
    }
  }

  lemma Opens(tip: Tree, here: Machine, known: set<Tree>)
    requires here.lock.Open?
    ensures CarefulStep(Two(tip, here, known), PublishOpen(HERE), Two(tip, here.(lock := Publishing(None)), known))
    ensures CarefulStep(Two(tip, here, known), ReleaseOpen(HERE), Two(tip, here.(lock := Releasing), known))
  {
    hide RowProblem, Careful;
    HereOnly(tip, here, known, here.(lock := Publishing(None)));
    HereOnly(tip, here, known, here.(lock := Releasing));
    CalmIsCareful(Two(tip, here, known), PublishOpen(HERE));
    CalmIsCareful(Two(tip, here, known), ReleaseOpen(HERE));
  }

  /** The lock is let go, which is careful when the private ref shows the tip. */
  lemma Unlocks(tip: Tree, here: Machine, known: set<Tree>)
    ensures Next(Two(tip, here, known), Unlock(HERE), Two(tip, here.(lock := Open), known))
    ensures here.view == tip ==> Careful(Two(tip, here, known), Unlock(HERE))
  {
    hide RowProblem, Careful;
    HereOnly(tip, here, known, here.(lock := Open));
    if here.view == tip {
      CalmIsCareful(Two(tip, here, known), Unlock(HERE));
    }
  }

  lemma Unlinks(tip: Tree, here: Machine, known: set<Tree>)
    requires here.lock == Publishing(Some(NAME)) && here.spool.Keys == {NAME}
    ensures CarefulStep(Two(tip, here, known), Unlink(HERE),
                        Two(tip, here.(spool := map[], lock := Publishing(None)), known))
  {
    hide RowProblem, Careful;
    assert here.spool - {NAME} == map[];
    HereOnly(tip, here, known, here.(spool := map[], lock := Publishing(None)));
    CalmIsCareful(Two(tip, here, known), Unlink(HERE));
  }

  /** The view still shows the spare and the spool is empty: an offline launch may take it, whatever the tip holds. */
  lemma Takes(tip: Tree, here: Machine, known: set<Tree>, spare: Row, slot: Slot)
    requires here.lock.Open? && here.spool == map[] && FreeSpares(here.view, HERE, map[]) == {spare.token}
    requires here.view.rows[spare.token] == spare && RowProblem(Activate(spare, slot, "t")).None?
    ensures
      var taking := Two(tip, here.(lock := Taking(spare)), known);
      && CarefulStep(Two(tip, here, known), TakeRead(HERE, spare.token), taking)
      && CarefulStep(taking, TakeWrite(HERE, slot, "t"),
                     Two(tip, here.(spool := map[spare.token := Activate(spare, slot, "t")]), known))
  {
    hide RowProblem, Activate, Careful;
    PrecedesTotal(spare.token, spare.token);
    var activated := Activate(spare, slot, "t");
    HereOnly(tip, here, known, here.(lock := Taking(spare)));
    HereOnly(tip, here.(lock := Taking(spare)), known, here.(spool := map[spare.token := activated]));
    assert map[][spare.token := activated] == map[spare.token := activated];
    CalmIsCareful(Two(tip, here, known), TakeRead(HERE, spare.token));
    CalmIsCareful(Two(tip, here.(lock := Taking(spare)), known), TakeWrite(HERE, slot, "t"));
  }

  /** A commit of this host lands on the tip; its private ref has yet to move. */
  lemma LandsHere(tip: Tree, here: Machine, known: set<Tree>, op: Op, after: Tree)
    requires Choices(op, HERE, tip, here.spool) && Guard(op, HERE, tip, here.spool).Write?
    requires Apply(tip, Guard(op, HERE, tip, here.spool).change) == after
    ensures op.LabelOp? ==>
              CarefulStep(Two(tip, here, known), Land(HERE, op), Two(after, here.(seen := here.seen + {after}), known))
    ensures here.lock.Releasing? && op.ReconcileOp? ==>
              Next(Two(tip, here, known), ReleaseLand(HERE, op), Two(after, here.(seen := here.seen + {after}), known))
    ensures here.lock == Publishing(None) && op == PublishOp(NAME) ==>
              CarefulStep(Two(tip, here, known), PublishLand(HERE, NAME),
                          Two(after, here.(seen := here.seen + {after}, lock := Publishing(Some(NAME))), known))
  {
    hide RowProblem, Choices, Guard, Apply, Careful;
    HereOnly(tip, here, known, here.(seen := here.seen + {after}));
    HereOnly(tip, here, known, here.(seen := here.seen + {after}, lock := Publishing(Some(NAME))));
    CalmIsCareful(Two(tip, here, known), PublishLand(HERE, NAME));
    if op.LabelOp? {
      CalmIsCareful(Two(tip, here, known), Land(HERE, op));
    }
  }

  /** A reservation of the other host lands. */
  lemma LandsThere(tip: Tree, here: Machine, known: set<Tree>, op: Op, after: Tree)
    requires Choices(op, THERE, tip, map[]) && Guard(op, THERE, tip, map[]).Write? && (op.HandOp? || op.LabelOp?)
    requires Apply(tip, Guard(op, THERE, tip, map[]).change) == after
    ensures CarefulStep(Two(tip, here, known), Land(THERE, op), Two(after, here, known + {after}))
  {
    hide RowProblem, Choices, Guard, Apply, Careful;
    assert map[HERE := here, THERE := Machine(EmptyTree, known, map[], Open)]
        [THERE := Machine(EmptyTree, known + {after}, map[], Open)]
        == map[HERE := here, THERE := Machine(EmptyTree, known + {after}, map[], Open)];
    CalmIsCareful(Two(tip, here, known), Land(THERE, op));
  }

  /** The spare's activation can be published over it on any tip. */
  lemma Published(tip: Tree, others: map<string, Row>)
    requires tip == TipWith(map[NAME := SPARE] + others) && NAME !in others
    ensures
      var row := Activate(SPARE, FIRST, "t");
      var spool, op := map[NAME := row], PublishOp(NAME);
      && Choices(op, HERE, tip, spool) && Guard(op, HERE, tip, spool).Write?
      && Apply(tip, Guard(op, HERE, tip, spool).change) == TipWith(spool + others)
  {
    hide RowProblem, Activate, PublishEntry, Apply;
    var row := Activate(SPARE, FIRST, "t");
    SpareIsValid();
    ActivationsAreValid();
    RowIsSession();
    PublishOutcome(tip, HERE, NAME, row);
    assert tip.rows[NAME] == SPARE;
    assert tip.rows[NAME := row] == map[NAME := row] + others;
  }

  lemma RowIsSession()
    ensures Activate(SPARE, FIRST, "t").kind.Session? && Activate(SPARE, FIRST, "t").machine == Some(HERE)
    ensures Activate(SPARE, FIRST, "t") != SPARE && !Activate(SPARE, FIRST, "t").state.MigrationIncomplete?
    ensures Activate(SPARE, SECOND, "t") != Activate(SPARE, FIRST, "t")
  {
    TitlesAre();
  }

  /** A reconcile that tested the published session's row. */
  function TestedGone(): Op {
    ReconcileOp("box", Vocabulary(None, {}, {}), map[NAME := Activate(SPARE, FIRST, "t")], map[], [], "t")
  }

  lemma LetsGo(spool: map<string, Row>)
    ensures
      var tip := TipWith(map[NAME := Activate(SPARE, FIRST, "t")]);
      Outgoing(tip, HERE, TestedGone().candidates, map[], spool, LIST.generation.policy.value) == {NAME}
  {
    hide RowProblem, Activate;
    RowIsSession();
    assert StillReleasable(TipWith(map[NAME := Activate(SPARE, FIRST, "t")]), HERE, TestedGone().candidates, NAME);
  }

  lemma ReleaseChoices(spool: map<string, Row>)
    ensures Choices(TestedGone(), HERE, TipWith(map[NAME := Activate(SPARE, FIRST, "t")]), spool)
  {
    hide RowProblem, Activate, Picked, Exhausted, Outgoing;
    RowIsSession();
  }

  lemma ReleaseGuard(spool: map<string, Row>)
    ensures
      var tip := TipWith(map[NAME := Activate(SPARE, FIRST, "t")]);
      && Guard(TestedGone(), HERE, tip, spool).Write?
      && Apply(tip, Guard(TestedGone(), HERE, tip, spool).change) == TipWith(map[])
  {
    hide RowProblem, Activate, Outgoing, Apply;
    var tip := TipWith(map[NAME := Activate(SPARE, FIRST, "t")]);
    LetsGo(spool);
    var writes := Deletions({NAME}) + SpareRows(TopUpSlot("box", HERE), [], "t");
    assert writes == map[NAME := None];
    ApplyRowChange(tip, writes);
    assert Written(tip.rows, writes) == map[];
  }

  function ByHand(): Op { HandOp(NAME, ELSEWHERE, false, "", "", {}, "t") }

  lemma ReservesElsewhere()
    ensures
      var tip, op := TipWith(map[]), ByHand();
      && Choices(op, THERE, tip, map[]) && Guard(op, THERE, tip, map[]).Write?
      && Apply(tip, Guard(op, THERE, tip, map[]).change)
         == TipWith(map[NAME := SessionRow(ELSEWHERE, NAME, "custom", None, "t")])
  {
    hide RowProblem, SessionRow, OneEditApart;
    SessionElsewhereIsValid();
    var tip := TipWith(map[]);
    var row := SessionRow(ELSEWHERE, NAME, "custom", None, "t");
    assert CheckHandChosen(tip, LIST.generation.policy.value, NAME, ELSEWHERE, {}).VerdictOk?;
    WrittenNothing(tip.manual);
    WrittenNothing(tip.migrations);
    assert Written(tip.rows, map[NAME := Some(row)]) == map[NAME := row];
  }

  /** What the reconcile tested is what its probes found gone. */
  lemma TestedIsGone()
    ensures
      var tested := TipWith(map[NAME := Activate(SPARE, FIRST, "t")]);
      forall c | c in TestedGone().candidates ::
        Releasable(tested, HERE, None, map[NAME := GONE], c) && TestedGone().candidates[c] == tested.rows[c]
  {
    hide RowProblem;
    RowIsSession();
  }

  lemma TipsFit()
    ensures RowsFit(SPARE_TIP) && RowsFit(LONG_TIP)
    ensures FreeSpares(SPARE_TIP, HERE, map[]) == {NAME} && FreeSpares(LONG_TIP, HERE, map[]) == {LONG}
  {
    hide RowProblem;
    SpareIsValid();
  }

  lemma SessionsHold()
    ensures !SessionRow(ELSEWHERE, NAME, "custom", None, "t").kind.Spare?
    ensures SessionRow(ELSEWHERE, NAME, "custom", None, "t").machine == Some(THERE)
  {
  }

  const MINE := Activate(SPARE, FIRST, "t")
  const AGAIN := Activate(SPARE, SECOND, "t")
  const FETCHED := Idle(SPARE_TIP, {SPARE_TIP}, map[])
  const SOLD_TIP := TipWith(map[NAME := MINE])
  const SOLD := Idle(SPARE_TIP, {SPARE_TIP} + {SOLD_TIP}, map[NAME := MINE])

  /** The tip is fetched, by two commands that follow each other. */
  lemma Begins(tip: Tree) returns (states: seq<Fleet>, events: seq<Event>)
    requires RowsFit(tip)
    ensures Start(Two(tip, FRESH, {}))
    ensures Leads(Two(tip, FRESH, {}), states, events, 2, Two(tip, Idle(tip, {tip}, map[]), {})) && |events| == 2
  {
    hide RowProblem, Next, Careful, RowsFit;
    var known := FRESH.(seen := {} + {tip});
    states := [Two(tip, FRESH, {}), Two(tip, known, {}), Two(tip, known.(view := tip), {})];
    events := [FetchRead(HERE), MoveRef(HERE, tip)];
    Fetches(tip, FRESH, {});
    Moves(tip, known, {}, tip);
    assert known.(view := tip) == Idle(tip, {tip}, map[]);
  }

  /** The spare is taken offline and published over whatever else is held, and the private ref has yet to follow. */
  lemma Sells(tip: Tree, sold: Tree, others: map<string, Row>, seen: set<Tree>)
    returns (states: seq<Fleet>, events: seq<Event>)
    requires NAME !in others && FreeSpares(tip, HERE, map[]) == {NAME}
    requires tip == TipWith(map[NAME := SPARE] + others) && sold == TipWith(map[NAME := MINE] + others)
    ensures Leads(Two(tip, Idle(tip, seen, map[]), {}), states, events, 4,
                  Two(sold, Machine(tip, seen + {sold}, map[NAME := MINE], Publishing(Some(NAME))), {}))
    ensures |events| == 4
  {
    hide RowProblem, Next, Careful, Activate, Choices, Guard, Apply;
    var fetched, taken := Idle(tip, seen, map[]), Idle(tip, seen, map[NAME := MINE]);
    states := [
      Two(tip, fetched, {}), Two(tip, fetched.(lock := Taking(SPARE)), {}), Two(tip, taken, {}),
      Two(tip, taken.(lock := Publishing(None)), {}),
      Two(sold, Machine(tip, seen + {sold}, map[NAME := MINE], Publishing(Some(NAME))), {})];
    events := [TakeRead(HERE, NAME), TakeWrite(HERE, FIRST, "t"), PublishOpen(HERE), PublishLand(HERE, NAME)];
    ActivationsAreValid();
    assert tip.rows[NAME] == SPARE;
    Takes(tip, fetched, {}, SPARE, FIRST);
    Opens(tip, taken, {});
    Published(tip, others);
    LandsHere(tip, taken.(lock := Publishing(None)), {}, PublishOp(NAME), sold);
  }

  lemma SellsAlone() returns (states: seq<Fleet>, events: seq<Event>)
    ensures Leads(Two(SPARE_TIP, FETCHED, {}), states, events, 4,
                  Two(SOLD_TIP, SOLD.(lock := Publishing(Some(NAME))), {}))
    ensures |events| == 4
  {
    hide RowProblem, Leads, Activate, FreeSpares;
    TipsFit();
    assert map[NAME := SPARE] + map[] == map[NAME := SPARE] && map[NAME := MINE] + map[] == map[NAME := MINE];
    states, events := Sells(SPARE_TIP, SOLD_TIP, map[], {SPARE_TIP});
  }

  /** Unlocking with the entry still spooled offers nothing that has changed. */
  lemma SpooledIsNotOffered()
    ensures Careful(Two(SOLD_TIP, SOLD.(lock := Publishing(Some(NAME))), {}), Unlock(HERE))
  {
    hide RowProblem, Activate;
  }

  const THEIRS := SessionRow(ELSEWHERE, NAME, "custom", None, "t")
  const GONE_TIP := TipWith(map[])
  const SHARED_TIP := TipWith(map[NAME := THEIRS])
  const RELEASED := SOLD.(seen := SOLD.seen + {GONE_TIP}, lock := Releasing)

  /** The publication is not heard of; a reconcile releases the row with its entry still spooled. */
  lemma ReleasedAndShared() returns (states: seq<Fleet>, events: seq<Event>)
    ensures Leads(Two(SOLD_TIP, SOLD.(lock := Publishing(Some(NAME))), {}), states, events, 2,
                  Two(SHARED_TIP, RELEASED, {SHARED_TIP}))
    ensures |events| == 4 && states[1].tip == SOLD_TIP && events[2] == ReleaseLand(HERE, TestedGone())
  {
    hide RowProblem, Next, Careful, Activate, SessionRow, Choices, Guard, Apply;
    states := [
      Two(SOLD_TIP, SOLD.(lock := Publishing(Some(NAME))), {}), Two(SOLD_TIP, SOLD, {}),
      Two(SOLD_TIP, SOLD.(lock := Releasing), {}), Two(GONE_TIP, RELEASED, {}),
      Two(SHARED_TIP, RELEASED, {SHARED_TIP})];
    events := [Unlock(HERE), ReleaseOpen(HERE), ReleaseLand(HERE, TestedGone()), Land(THERE, ByHand())];
    Unlocks(SOLD_TIP, SOLD.(lock := Publishing(Some(NAME))), {});
    SpooledIsNotOffered();
    Opens(SOLD_TIP, SOLD, {});
    ReleaseChoices(SOLD.spool);
    ReleaseGuard(SOLD.spool);
    LandsHere(SOLD_TIP, SOLD.(lock := Releasing), {}, TestedGone(), GONE_TIP);
    ReservesElsewhere();
    LandsThere(GONE_TIP, RELEASED, {}, ByHand(), SHARED_TIP);
    assert {} + {SHARED_TIP} == {SHARED_TIP};
  }

  /** A reconcile's pass over an empty spool. */
  lemma EmptyPass() returns (states: seq<Fleet>, events: seq<Event>)
    ensures Leads(Two(SPARE_TIP, FETCHED, {}), states, events, 2, Two(SPARE_TIP, FETCHED, {}))
    ensures events == [PublishOpen(HERE), Unlock(HERE)]
  {
    hide RowProblem, Next, Careful;
    states := [
      Two(SPARE_TIP, FETCHED, {}), Two(SPARE_TIP, FETCHED.(lock := Publishing(None)), {}), Two(SPARE_TIP, FETCHED, {})];
    events := [PublishOpen(HERE), Unlock(HERE)];
    Opens(SPARE_TIP, FETCHED, {});
    Unlocks(SPARE_TIP, FETCHED.(lock := Publishing(None)), {});
  }

  /**
   * A reconcile publishes an empty spool. Then an offline launch takes the spare, and its publication lands unheard, so
   * its entry stays spooled. The reconcile tests the published row, both probes find its session gone, and it releases
   * the row, the one careless step; another machine reserves the name.
   */
  lemma ReleaseOfSpooledIsSharedLater()
    returns (states: seq<Fleet>, events: seq<Event>, release: Op, mine: Row, theirs: Row)
    ensures |states| == 13 && |events| == 12
    ensures Start(states[0]) && Leads(states[0], states, events, 10, states[12])
    ensures events[2] == PublishOpen(HERE) && events[3] == Unlock(HERE)
    ensures events[10] == ReleaseLand(HERE, release) && release.ReconcileOp?
    ensures forall c | c in release.candidates ::
              && Releasable(states[9].tip, HERE, None, map[NAME := GONE], c)
              && release.candidates[c] == states[9].tip.rows[c]
    ensures Holds(states[12], NAME, HERE, mine) && Holds(states[12], NAME, THERE, theirs)
  {
    hide RowProblem, Next, Careful, Activate, SessionRow, Releasable, RowsFit, Start, IsRun, FreeSpares;
    mine, theirs, release := MINE, THEIRS, TestedGone();
    TipsFit();
    var begin, first := Begins(SPARE_TIP);
    var pass, second := EmptyPass();
    var sale, third := SellsAlone();
    var shared, fourth := ReleasedAndShared();
    var s0, s4, s8 := Two(SPARE_TIP, FRESH, {}), Two(SPARE_TIP, FETCHED, {}), shared[0];
    var late := Joined(s4, sale, third, s8, shared, fourth, 2, shared[4]);
    var later := Joined(s4, pass, second, s4, late, third + fourth, 6, shared[4]);
    states := Joined(s0, begin, first, s4, later, second + (third + fourth), 8, shared[4]);
    events := first + (second + (third + fourth));
    assert states[9] == later[7] == late[5] == shared[1];
    TestedIsGone();
    SessionsHold();
  }

  /** Unlinked and unlocked with the ref still behind; the published name is taken again. */
  lemma TakenAgain() returns (states: seq<Fleet>, events: seq<Event>)
    ensures Leads(Two(SOLD_TIP, SOLD.(lock := Publishing(Some(NAME))), {}), states, events, 1,
                  Two(SOLD_TIP, SOLD.(spool := map[NAME := AGAIN]), {}))
    ensures events == [Unlink(HERE), Unlock(HERE), TakeRead(HERE, NAME), TakeWrite(HERE, SECOND, "t")]
  {
    hide RowProblem, Next, Careful, Activate;
    var bare := SOLD.(spool := map[]);
    states := [
      Two(SOLD_TIP, SOLD.(lock := Publishing(Some(NAME))), {}), Two(SOLD_TIP, bare.(lock := Publishing(None)), {}),
      Two(SOLD_TIP, bare, {}), Two(SOLD_TIP, bare.(lock := Taking(SPARE)), {}),
      Two(SOLD_TIP, bare.(spool := map[NAME := AGAIN]), {})];
    events := [Unlink(HERE), Unlock(HERE), TakeRead(HERE, NAME), TakeWrite(HERE, SECOND, "t")];
    TipsFit();
    ActivationsAreValid();
    Unlinks(SOLD_TIP, SOLD.(lock := Publishing(Some(NAME))), {});
    Unlocks(SOLD_TIP, bare.(lock := Publishing(None)), {});
    Takes(SOLD_TIP, bare, {}, SPARE, SECOND);
  }

  /**
   * A publication lands and is unlinked, but the lock is let go with the private ref still behind, the one careless
   * step; the next offline launch takes the published name again.
   */
  lemma StaleViewIsTakenTwice() returns (states: seq<Fleet>, events: seq<Event>, first: Row, second: Row)
    ensures |states| == 11 && |events| == 10
    ensures Start(states[0]) && Leads(states[0], states, events, 7, states[10])
    ensures events[7] == Unlock(HERE) && first != second
    ensures Holds(states[10], NAME, HERE, first) && Holds(states[10], NAME, HERE, second)
  {
    hide RowProblem, Next, Careful, Activate, RowsFit, Start, IsRun, FreeSpares;
    first, second := MINE, AGAIN;
    TipsFit();
    RowIsSession();
    var begin, opening := Begins(SPARE_TIP);
    var sale, sold := SellsAlone();
    var end, ending := TakenAgain();
    var late := Joined(Two(SPARE_TIP, FETCHED, {}), sale, sold, end[0], end, ending, 1, end[4]);
    states := Joined(Two(SPARE_TIP, FRESH, {}), begin, opening, late[0], late, sold + ending, 5, end[4]);
    events := opening + (sold + ending);
  }

  function LabelsHere(): Op { LabelOp(FIRST, LONG, "t") }

  const LABEL := LabelRow(FIRST, LONG, "t")
  const LATER_TIP := TipWith(map[NAME := SPARE] + map[LONG := LABEL])
  const BOTH_TIP := TipWith(map[NAME := MINE] + map[LONG := LABEL])

  lemma LabelHereIsValid()
    ensures RowProblem(LABEL).None?
  {
    hide LastSegment;
    LastSegmentOfWhole(LONG);
    assert LabelTitle(FIRST, LONG) == "repo-box-adele";
    assert LONG[0] in LONG && LabelWord(LONG);
  }

  lemma ReservesHere()
    ensures
      && Choices(LabelsHere(), HERE, SPARE_TIP, map[]) && Guard(LabelsHere(), HERE, SPARE_TIP, map[]).Write?
      && Apply(SPARE_TIP, Guard(LabelsHere(), HERE, SPARE_TIP, map[]).change) == LATER_TIP
    ensures FreeSpares(LATER_TIP, HERE, map[]) == {NAME}
  {
    hide RowProblem, LastSegment, Activate;
    LastSegmentOfWhole(LONG);
    LabelHereIsValid();
    ApplyRowChange(SPARE_TIP, map[LONG := Some(LABEL)]);
    assert Written(SPARE_TIP.rows, map[LONG := Some(LABEL)]) == map[NAME := SPARE] + map[LONG := LABEL];
    assert !IsSpareOf(LABEL, HERE);
  }

  const RESERVED := FETCHED.(seen := FETCHED.seen + {LATER_TIP})
  const LANDED := Machine(LATER_TIP, RESERVED.seen + {BOTH_TIP}, map[NAME := MINE], Publishing(Some(NAME)))
  const SETTLED := Idle(BOTH_TIP, RESERVED.seen + {BOTH_TIP}, map[])

  /** A reservation lands, and another process fetches it. */
  lemma Reserves() returns (states: seq<Fleet>, events: seq<Event>)
    ensures Leads(Two(SPARE_TIP, FETCHED, {}), states, events, 2,
                  Two(LATER_TIP, Idle(LATER_TIP, RESERVED.seen, map[]), {}))
    ensures events == [Land(HERE, LabelsHere()), MoveRef(HERE, LATER_TIP)] && states[1].tip == LATER_TIP
  {
    hide RowProblem, Next, Careful, LabelRow, Choices, Guard, Apply;
    states := [
      Two(SPARE_TIP, FETCHED, {}), Two(LATER_TIP, RESERVED, {}),
      Two(LATER_TIP, Idle(LATER_TIP, RESERVED.seen, map[]), {})];
    events := [Land(HERE, LabelsHere()), MoveRef(HERE, LATER_TIP)];
    ReservesHere();
    LandsHere(SPARE_TIP, FETCHED, {}, LabelsHere(), LATER_TIP);
    Moves(LATER_TIP, RESERVED, {}, LATER_TIP);
  }

  /** The publisher moves the private ref, unlinks and unlocks. */
  lemma Settles() returns (states: seq<Fleet>, events: seq<Event>)
    ensures Leads(Two(BOTH_TIP, LANDED, {}), states, events, 3, Two(BOTH_TIP, SETTLED, {}))
    ensures events == [MoveRef(HERE, BOTH_TIP), Unlink(HERE), Unlock(HERE)]
  {
    hide RowProblem, Next, Careful, Activate, LabelRow;
    var moved := LANDED.(view := BOTH_TIP);
    states := [
      Two(BOTH_TIP, LANDED, {}), Two(BOTH_TIP, moved, {}), Two(BOTH_TIP, SETTLED.(lock := Publishing(None)), {}),
      Two(BOTH_TIP, SETTLED, {})];
    events := [MoveRef(HERE, BOTH_TIP), Unlink(HERE), Unlock(HERE)];
    Moves(BOTH_TIP, LANDED, {}, BOTH_TIP);
    Unlinks(BOTH_TIP, moved, {});
    Unlocks(BOTH_TIP, SETTLED.(lock := Publishing(None)), {});
  }

  /** The reservation's `update-ref` sets the ref back, and the next offline launch takes the spare shown there. */
  lemma SetsBack() returns (states: seq<Fleet>, events: seq<Event>)
    ensures Leads(Two(BOTH_TIP, SETTLED, {}), states, events, 0,
                  Two(BOTH_TIP, Idle(LATER_TIP, SETTLED.seen, map[NAME := AGAIN]), {}))
    ensures events == [MoveRef(HERE, LATER_TIP), TakeRead(HERE, NAME), TakeWrite(HERE, SECOND, "t")]
  {
    hide RowProblem, Next, Careful, Activate, LabelRow, Choices, Guard, Apply;
    var late := Idle(LATER_TIP, SETTLED.seen, map[]);
    states := [
      Two(BOTH_TIP, SETTLED, {}), Two(BOTH_TIP, late, {}), Two(BOTH_TIP, late.(lock := Taking(SPARE)), {}),
      Two(BOTH_TIP, late.(spool := map[NAME := AGAIN]), {})];
    events := [MoveRef(HERE, LATER_TIP), TakeRead(HERE, NAME), TakeWrite(HERE, SECOND, "t")];
    ActivationsAreValid();
    ReservesHere();
    Moves(BOTH_TIP, SETTLED, {}, LATER_TIP);
    Takes(BOTH_TIP, late, {}, SPARE, SECOND);
  }

  /** The reservation, and the sale by another process that has fetched it. */
  lemma ReservesThenSells() returns (states: seq<Fleet>, events: seq<Event>)
    ensures Leads(Two(SPARE_TIP, FETCHED, {}), states, events, 6, Two(BOTH_TIP, LANDED, {})) && |events| == 6
    ensures events[0] == Land(HERE, LabelsHere()) && states[1].tip == LATER_TIP
  {
    hide RowProblem, Next, Careful, Activate, LabelRow, IsRun, FreeSpares;
    ReservesHere();
    var reserve, reserved := Reserves();
    var sale, sold := Sells(LATER_TIP, BOTH_TIP, map[LONG := LABEL], RESERVED.seen);
    states := Joined(reserve[0], reserve, reserved, sale[0], sale, sold, 4, sale[4]);
    events := reserved + sold;
    assert states[1] == reserve[1];
  }

  /** The end of the publication, and the late `update-ref` of the reservation. */
  lemma SettlesThenSetsBack() returns (states: seq<Fleet>, events: seq<Event>)
    ensures Leads(Two(BOTH_TIP, LANDED, {}), states, events, 3,
                  Two(BOTH_TIP, Idle(LATER_TIP, SETTLED.seen, map[NAME := AGAIN]), {}))
    ensures |events| == 6 && events[3] == MoveRef(HERE, LATER_TIP)
  {
    hide RowProblem, Next, Careful, Activate, LabelRow, IsRun;
    var settle, settled := Settles();
    var back, setBack := SetsBack();
    states := Joined(settle[0], settle, settled, back[0], back, setBack, 0, back[3]);
    events := settled + setBack;
  }

  /**
   * One process of this host lands a reservation and is held up before its `update-ref`. Another publishes an activated
   * spare, moves the private ref to that commit and unlinks the entry, all of it careful. Then the first one's late
   * `update-ref` sets the ref back to the reservation, where the spare is free, and the next offline launch takes it.
   */
  lemma LateRefIsTakenTwice() returns (states: seq<Fleet>, events: seq<Event>, first: Row, second: Row)
    ensures |states| == 15 && |events| == 14
    ensures Start(states[0]) && Leads(states[0], states, events, 11, states[14])
    ensures events[2] == Land(HERE, LabelsHere()) && events[11] == MoveRef(HERE, states[3].tip)
    ensures first != second
    ensures Holds(states[14], NAME, HERE, first) && Holds(states[14], NAME, HERE, second)
  {
    hide RowProblem, Next, Careful, Activate, LabelRow, RowsFit, Start, IsRun, FreeSpares;
    first, second := MINE, AGAIN;
    TipsFit();
    RowIsSession();
    var begin, opening := Begins(SPARE_TIP);
    var middle, sold := ReservesThenSells();
    var end, ending := SettlesThenSetsBack();
    var late := Joined(middle[0], middle, sold, end[0], end, ending, 3, end[6]);
    states := Joined(begin[0], begin, opening, middle[0], late, sold + ending, 9, end[6]);
    events := opening + (sold + ending);
    assert states[3] == late[1] == middle[1];
  }

  /** A reconcile that drops the one spare outside the limits and lets go of nothing else. */
  function DropsLong(): Op {
    ReconcileOp("box", Vocabulary(None, {}, {}), map[], map[LONG := LONG_SPARE], [], "t")
  }

  lemma DropsOut()
    ensures Outgoing(LONG_TIP, HERE, map[], DropsLong().spareRows, map[], LIST.generation.policy.value) == {LONG}
  {
    hide RowProblem;
    assert SpareStillOver(LONG_TIP, HERE, DropsLong().spareRows, map[], LIST.generation.policy.value, LONG);
  }

  lemma DropsChoices()
    ensures Choices(DropsLong(), HERE, LONG_TIP, map[])
  {
    hide RowProblem, Picked, Exhausted, Outgoing;
  }

  lemma DropsGuard()
    ensures Guard(DropsLong(), HERE, LONG_TIP, map[]).Write?
    ensures Apply(LONG_TIP, Guard(DropsLong(), HERE, LONG_TIP, map[]).change) == TipWith(map[])
  {
    hide RowProblem, Outgoing, Apply;
    DropsOut();
    var writes := Deletions({LONG}) + SpareRows(TopUpSlot("box", HERE), [], "t");
    assert writes == map[LONG := None];
    ApplyRowChange(LONG_TIP, writes);
    assert Written(LONG_TIP.rows, writes) == map[];
  }

  function Labels(): Op { LabelOp(ELSEWHERE, LONG, "t") }

  lemma LabelsElsewhere()
    ensures
      var row, tip := LabelRow(ELSEWHERE, LONG, "t"), TipWith(map[]);
      && Choices(Labels(), THERE, tip, map[]) && Guard(Labels(), THERE, tip, map[]).Write?
      && Apply(tip, Guard(Labels(), THERE, tip, map[]).change) == TipWith(map[LONG := row])
      && !row.kind.Spare? && row.machine == Some(THERE)
  {
    hide RowProblem, LastSegment;
    var row := LabelRow(ELSEWHERE, LONG, "t");
    LastSegmentOfWhole(LONG);
    LabelIsValid();
    ApplyRowChange(TipWith(map[]), map[LONG := Some(row)]);
    assert Written(map[], map[LONG := Some(row)]) == map[LONG := row];
  }

  lemma LabelIsValid()
    ensures RowProblem(LabelRow(ELSEWHERE, LONG, "t")).None?
  {
    hide LastSegment;
    LastSegmentOfWhole(LONG);
    assert LabelTitle(ELSEWHERE, LONG) == "repo-den-adele";
    assert LONG[0] in LONG && LabelWord(LONG);
  }

  lemma DropIsCareful(s: Fleet)
    ensures Careful(s, ReleaseLand(HERE, DropsLong()))
  {
    hide RowProblem;
  }

  const LANDED_BEHIND := Machine(LONG_TIP, {LONG_TIP} + {GONE_TIP}, map[], Releasing)
  const LABEL_TIP := TipWith(map[LONG := LabelRow(ELSEWHERE, LONG, "t")])

  /** The spare is dropped, and the private ref has yet to follow. */
  lemma Drops() returns (states: seq<Fleet>, events: seq<Event>)
    ensures Leads(Two(LONG_TIP, Idle(LONG_TIP, {LONG_TIP}, map[]), {}), states, events, 2,
                  Two(GONE_TIP, LANDED_BEHIND, {}))
    ensures events == [ReleaseOpen(HERE), ReleaseLand(HERE, DropsLong())]
  {
    hide RowProblem, Next, Careful, Choices, Guard, Apply;
    var fetched := Idle(LONG_TIP, {LONG_TIP}, map[]);
    states := [
      Two(LONG_TIP, fetched, {}), Two(LONG_TIP, fetched.(lock := Releasing), {}), Two(GONE_TIP, LANDED_BEHIND, {})];
    events := [ReleaseOpen(HERE), ReleaseLand(HERE, DropsLong())];
    Opens(LONG_TIP, fetched, {});
    DropsChoices();
    DropsGuard();
    LandsHere(LONG_TIP, fetched.(lock := Releasing), {}, DropsLong(), GONE_TIP);
    DropIsCareful(states[1]);
  }

  /** The reconcile ends with the ref where it was; the dropped name becomes a label elsewhere, and a session here. */
  lemma LabelledThenTaken() returns (states: seq<Fleet>, events: seq<Event>)
    ensures Leads(Two(GONE_TIP, LANDED_BEHIND, {}), states, events, 0,
                  Two(LABEL_TIP, Idle(LONG_TIP, {LONG_TIP} + {GONE_TIP}, map[LONG := Activate(LONG_SPARE, FIRST, "t")]),
                      {} + {LABEL_TIP}))
    ensures events == [Unlock(HERE), Land(THERE, Labels()), TakeRead(HERE, LONG), TakeWrite(HERE, FIRST, "t")]
  {
    hide RowProblem, Next, Careful, Activate, LabelRow, Choices, Guard, Apply;
    var behind, known := LANDED_BEHIND.(lock := Open), {} + {LABEL_TIP};
    states := [
      Two(GONE_TIP, LANDED_BEHIND, {}), Two(GONE_TIP, behind, {}), Two(LABEL_TIP, behind, known),
      Two(LABEL_TIP, behind.(lock := Taking(LONG_SPARE)), known),
      Two(LABEL_TIP, behind.(spool := map[LONG := Activate(LONG_SPARE, FIRST, "t")]), known)];
    events := [Unlock(HERE), Land(THERE, Labels()), TakeRead(HERE, LONG), TakeWrite(HERE, FIRST, "t")];
    TipsFit();
    ActivationsAreValid();
    LabelsElsewhere();
    Unlocks(GONE_TIP, LANDED_BEHIND, {});
    LandsThere(GONE_TIP, behind, {}, Labels(), LABEL_TIP);
    Takes(LABEL_TIP, behind, known, LONG_SPARE, FIRST);
  }

  /**
   * A reconcile drops a spare outside the limits, lets go of no session and of nothing spooled, and ends without having
   * moved the private ref, as it does when its push times out: its unlocking is the one careless step. Another machine
   * takes the name as a label, and the next offline launch takes it from the stale view.
   */
  lemma UnheardDropIsTakenTwice() returns (states: seq<Fleet>, events: seq<Event>, mine: Row, theirs: Row)
    ensures |states| == 9 && |events| == 8
    ensures Start(states[0]) && Leads(states[0], states, events, 4, states[8])
    ensures events[3] == ReleaseLand(HERE, DropsLong()) && events[4] == Unlock(HERE)
    ensures Holds(states[8], LONG, HERE, mine) && Holds(states[8], LONG, THERE, theirs)
  {
    hide RowProblem, Next, Careful, Activate, LabelRow, RowsFit, Start, IsRun, FreeSpares;
    mine, theirs := Activate(LONG_SPARE, FIRST, "t"), LabelRow(ELSEWHERE, LONG, "t");
    TipsFit();
    LabelsElsewhere();
    var begin, opening := Begins(LONG_TIP);
    var drop, dropped := Drops();
    var end, ending := LabelledThenTaken();
    var late := Joined(drop[0], drop, dropped, end[0], end, ending, 0, end[4]);
    states := Joined(Two(LONG_TIP, FRESH, {}), begin, opening, late[0], late, dropped + ending, 2, end[4]);
    events := opening + (dropped + ending);
  }

  /** What an unlocking or an offline launch does it does with a push on its way too. */
  lemma WhileSent(s: Fleet, e: Event, s': Fleet, sent: set<Sent>)
    requires CarefulStep(s, e, s') && (e.Unlock? || e.TakeRead? || e.TakeWrite?)
    ensures CarefulStep(s.(sent := sent), e, s'.(sent := sent))
  {
    hide RowProblem, Activate;
  }

  const DROP := Sent(HERE, DropsLong(), map[])
  const ASKED := Idle(LONG_TIP, {LONG_TIP}, map[])
  const LONG_TAKEN := Idle(LONG_TIP, {LONG_TIP}, map[LONG := Activate(LONG_SPARE, FIRST, "t")])

  /** The push that drops the spare is not answered, and the reconcile ends with the commit on its way. */
  lemma SendsAndUnlocks() returns (states: seq<Fleet>, events: seq<Event>)
    ensures Leads(Two(LONG_TIP, ASKED, {}), states, events, 3, Two(LONG_TIP, ASKED, {}).(sent := {DROP}))
    ensures events == [ReleaseOpen(HERE), Unanswered(HERE, DropsLong()), Unlock(HERE)]
  {
    hide RowProblem, Next, Careful, Choices, Guard, Apply;
    var locked := Two(LONG_TIP, ASKED.(lock := Releasing), {});
    states := [
      Two(LONG_TIP, ASKED, {}), locked, locked.(sent := {DROP}), Two(LONG_TIP, ASKED, {}).(sent := {DROP})];
    events := [ReleaseOpen(HERE), Unanswered(HERE, DropsLong()), Unlock(HERE)];
    Opens(LONG_TIP, ASKED, {});
    DropsChoices();
    DropsGuard();
    Sends(locked, DropsLong());
    Unlocks(LONG_TIP, ASKED.(lock := Releasing), {});
    WhileSent(locked, Unlock(HERE), Two(LONG_TIP, ASKED, {}), {DROP});
  }

  lemma Sends(s: Fleet, op: Op)
    requires HERE in s.machines && op.ReconcileOp? && s.machines[HERE].lock.Releasing? && s.sent == {}
    requires MayLand(s, HERE, op)
    ensures CarefulStep(s, Unanswered(HERE, op), s.(sent := {Sent(HERE, op, s.machines[HERE].spool)}))
  {
    hide RowProblem, Choices, Guard, Careful;
    assert s.sent + {Sent(HERE, op, s.machines[HERE].spool)} == {Sent(HERE, op, s.machines[HERE].spool)};
    CalmIsCareful(s, Unanswered(HERE, op));
  }

  /** Meanwhile an offline launch takes the spare. Then the push lands, and the name is free at the tip. */
  lemma TakenThenDropped() returns (states: seq<Fleet>, events: seq<Event>)
    ensures Leads(Two(LONG_TIP, ASKED, {}).(sent := {DROP}), states, events, 2,
                  Two(LABEL_TIP, LONG_TAKEN, {} + {LABEL_TIP}))
    ensures |events| == 4 && events[2] == LateLand(HERE, DropsLong(), map[])
  {
    hide RowProblem, Next, Careful, Activate, LabelRow, Choices, Guard, Apply;
    var before, taking := Two(LONG_TIP, ASKED, {}), Two(LONG_TIP, ASKED.(lock := Taking(LONG_SPARE)), {});
    var taken := Two(LONG_TIP, LONG_TAKEN, {});
    states := [
      before.(sent := {DROP}), taking.(sent := {DROP}), taken.(sent := {DROP}), Two(GONE_TIP, LONG_TAKEN, {}),
      Two(LABEL_TIP, LONG_TAKEN, {} + {LABEL_TIP})];
    events := [
      TakeRead(HERE, LONG), TakeWrite(HERE, FIRST, "t"), LateLand(HERE, DropsLong(), map[]), Land(THERE, Labels())];
    TipsFit();
    ActivationsAreValid();
    Takes(LONG_TIP, ASKED, {}, LONG_SPARE, FIRST);
    WhileSent(before, TakeRead(HERE, LONG), taking, {DROP});
    WhileSent(taking, TakeWrite(HERE, FIRST, "t"), taken, {DROP});
    LandsLate(taken);
    LabelsElsewhere();
    LandsThere(GONE_TIP, LONG_TAKEN, {}, Labels(), LABEL_TIP);
  }

  lemma LandsLate(s: Fleet)
    requires s.tip == LONG_TIP && HERE in s.machines
    ensures Next(s.(sent := {DROP}), LateLand(HERE, DropsLong(), map[]), Fleet(GONE_TIP, s.machines, {}))
  {
    hide RowProblem, Choices, Guard, Apply;
    DropsChoices();
    DropsGuard();
  }

  /**
   * A reconcile drops a spare outside the limits, and its push is not answered in time. It ends, and an offline launch
   * takes the spare from the private ref, which is not behind. Then the push lands after all, the one careless step,
   * and another machine takes the name as a label.
   */
  lemma LateDropIsSharedLater() returns (states: seq<Fleet>, events: seq<Event>, mine: Row, theirs: Row)
    ensures |states| == 10 && |events| == 9
    ensures Start(states[0]) && Leads(states[0], states, events, 7, states[9])
    ensures events[3] == Unanswered(HERE, DropsLong()) && events[7] == LateLand(HERE, DropsLong(), map[])
    ensures Holds(states[9], LONG, HERE, mine) && Holds(states[9], LONG, THERE, theirs)
  {
    hide RowProblem, Next, Careful, Activate, LabelRow, RowsFit, Start, IsRun, FreeSpares;
    mine, theirs := Activate(LONG_SPARE, FIRST, "t"), LabelRow(ELSEWHERE, LONG, "t");
    TipsFit();
    LabelsElsewhere();
    var begin, opening := Begins(LONG_TIP);
    var send, sent := SendsAndUnlocks();
    var end, ending := TakenThenDropped();
    var late := Joined(send[0], send, sent, end[0], end, ending, 2, end[4]);
    states := Joined(begin[0], begin, opening, late[0], late, sent + ending, 5, end[4]);
    events := opening + (sent + ending);
  }
}

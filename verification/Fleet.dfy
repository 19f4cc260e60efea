/**
 * The whole fleet: the shared tip, and on each machine its private ref, its spool and its spool lock.
 * A commit lands atomically on the tip its guard ran on, even after its writer gave up on it; everything else, the
 * private ref's move included, may happen at any later time, as other processes of the machine come in between.
 */
module Fleet {
  import opened Wrappers
  import opened Rows
  import opened Registry
  import opened Release
  import opened Spool
  import opened Operations

  /** Who holds a machine's spool lock, and how far it has got. */
  datatype Lock =
    | Open
    | Taking(spare: Row)
    | Publishing(done: Option<string>)
    | Releasing

  /**
   * One machine: the commit its private ref is on, the tips its processes have fetched or pushed, any of which a late
   * command may still set the ref to, and its spool with the spool lock.
   */
  datatype Machine = Machine(view: Tree, seen: set<Tree>, spool: map<string, Row>, lock: Lock)

  /** A push that got no answer, with the spool its guard read: it may still land, until another commit does. */
  datatype Sent = Sent(m: string, op: Op, read: map<string, Row>)

  datatype Fleet = Fleet(tip: Tree, machines: map<string, Machine>, sent: set<Sent>)

  datatype Event =
    | FetchRead(m: string)
    | MoveRef(m: string, tree: Tree)
    | Land(m: string, op: Op)
    | Unanswered(m: string, op: Op)
    | LateLand(m: string, op: Op, read: map<string, Row>)
    | TakeRead(m: string, token: string)
    | TakeWrite(m: string, slot: Slot, now: string)
    | PublishOpen(m: string)
    | PublishLand(m: string, token: string)
    | PublishSeen(m: string, token: string, tree: Tree)
    | Unlink(m: string)
    | ReleaseOpen(m: string)
    | ReleaseLand(m: string, op: Op)
    | Unlock(m: string)

  predicate UnderLock(op: Op) { op.ReconcileOp? || op.PublishOp? }

  ghost predicate MayLandOn(tip: Tree, m: string, op: Op, read: map<string, Row>) {
    Choices(op, m, tip, read) && Guard(op, m, tip, read).Write?
  }

  function ChangeOn(tip: Tree, m: string, op: Op, read: map<string, Row>): Change
    requires Guard(op, m, tip, read).Write?
  {
    Guard(op, m, tip, read).change
  }

  ghost predicate MayLand(s: Fleet, m: string, op: Op)
    requires m in s.machines
  {
    MayLandOn(s.tip, m, op, s.machines[m].spool)
  }

  function ChangeOf(s: Fleet, m: string, op: Op): Change
    requires m in s.machines && Guard(op, m, s.tip, s.machines[m].spool).Write?
  {
    ChangeOn(s.tip, m, op, s.machines[m].spool)
  }

  function WithMachine(s: Fleet, m: string, machine: Machine): Fleet {
    s.(machines := s.machines[m := machine])
  }

  /** After `op` landed from `m`, its lock then as given: its ref has not moved, and nothing sent before can land. */
  function Landed(s: Fleet, m: string, op: Op, lock: Lock): Fleet
    requires m in s.machines && Guard(op, m, s.tip, s.machines[m].spool).Write?
  {
    var tip := Apply(s.tip, ChangeOf(s, m, op));
    Fleet(tip, s.machines[m := s.machines[m].(seen := s.machines[m].seen + {tip}, lock := lock)], {})
  }

  /**
   * One step of the fleet. A fetch is `FetchRead` and then `MoveRef`, a push a landing and then `MoveRef`, unless it is
   * not heard of or its `update-ref` fails. `Unanswered` is a push under the lock that times out: it may have landed
   * already, as a `PublishLand` or a `ReleaseLand`, or land late. `PublishSeen` finds an entry already published, in
   * whatever tree the private ref showed once the fetch was done. `Unlock` is a normal end, an exception or a crash.
   */
  ghost predicate Next(s: Fleet, e: Event, s': Fleet) {
    && e.m in s.machines
    && var machine := s.machines[e.m];
       match e
       case FetchRead(m) => s' == WithMachine(s, m, machine.(seen := machine.seen + {s.tip}))
       case MoveRef(m, tree) => tree in machine.seen && s' == WithMachine(s, m, machine.(view := tree))
       case Land(m, op) => !UnderLock(op) && MayLand(s, m, op) && s' == Landed(s, m, op, machine.lock)
       case Unanswered(m, op) =>
         && (if op.PublishOp? then machine.lock == Publishing(None) else op.ReconcileOp? && machine.lock.Releasing?)
         && MayLand(s, m, op)
         && s' == s.(sent := s.sent + {Sent(m, op, machine.spool)})
       case LateLand(m, op, read) =>
         && Sent(m, op, read) in s.sent
         && MayLandOn(s.tip, m, op, read)
         && s' == Fleet(Apply(s.tip, ChangeOn(s.tip, m, op, read)), s.machines, {})
       case TakeRead(m, token) =>
         && machine.lock.Open?
         && FirstSpare(machine.view, m, machine.spool, token)
         && s' == WithMachine(s, m, machine.(lock := Taking(machine.view.rows[token])))
       case TakeWrite(m, slot, now) =>
         && machine.lock.Taking?
         && RowProblem(Activate(machine.lock.spare, slot, now)).None?
         && s' == WithMachine(s, m, machine.(
             spool := machine.spool[machine.lock.spare.token := Activate(machine.lock.spare, slot, now)],
             lock := Open))
       case PublishOpen(m) => machine.lock.Open? && s' == WithMachine(s, m, machine.(lock := Publishing(None)))
       case PublishLand(m, token) =>
         && machine.lock == Publishing(None)
         && MayLand(s, m, PublishOp(token))
         && s' == Landed(s, m, PublishOp(token), Publishing(Some(token)))
       case PublishSeen(m, token, tree) =>
         && machine.lock == Publishing(None)
         && tree in machine.seen
         && token in machine.spool && Get(tree.rows, token) == Some(machine.spool[token])
         && s' == WithMachine(s, m, machine.(lock := Publishing(Some(token))))
       case Unlink(m) =>
         && machine.lock.Publishing? && machine.lock.done.Some?
         && s' == WithMachine(s, m, machine.(spool := machine.spool - {machine.lock.done.value},
                                             lock := Publishing(None)))
       case ReleaseOpen(m) => machine.lock.Open? && s' == WithMachine(s, m, machine.(lock := Releasing))
       case ReleaseLand(m, op) =>
         machine.lock.Releasing? && op.ReconcileOp? && MayLand(s, m, op) && s' == Landed(s, m, op, Releasing)
       case Unlock(m) => s' == WithMachine(s, m, machine.(lock := Open))
  }

  /** An offline launch may come to read this machine's view before anything else unlocks. */
  predicate Exposed(machine: Machine) { machine.lock.Open? || machine.lock.Taking? }

  /** A spool entry and the row it stands for at the tip. */
  ghost predicate EntryStands(tip: Tree, m: string, t: string, entry: Row) {
    && RowFits(t, entry)
    && entry.kind.Session?
    && entry.machine == Some(m)
    && t in tip.rows
    && (|| tip.rows[t] == entry
        || (IsSpareOf(tip.rows[t], m) && OnlyActivationDiffers(tip.rows[t], entry)))
  }

  /** A spare an offline launch could take from this view is still that spare at the tip. */
  ghost predicate ViewStands(tip: Tree, m: string, machine: Machine, t: string) {
    t in machine.view.rows && IsSpareOf(machine.view.rows[t], m) && t !in machine.spool ==>
      Get(tip.rows, t) == Some(machine.view.rows[t])
  }

  /** A spare being taken is at the tip as it was read, and so is an entry about to be unlinked. */
  ghost predicate LockStands(tip: Tree, m: string, machine: Machine) {
    match machine.lock
    case Taking(spare) =>
      && IsSpareOf(spare, m)
      && RowFits(spare.token, spare)
      && spare.token !in machine.spool
      && Get(tip.rows, spare.token) == Some(spare)
    case Publishing(done) =>
      done.Some? ==> done.value in machine.spool && Get(tip.rows, done.value) == Some(machine.spool[done.value])
    case _ => true
  }

  ghost predicate ViewsStand(tip: Tree, m: string, machine: Machine) {
    forall t | t in machine.view.rows :: ViewStands(tip, m, machine, t)
  }

  ghost predicate MachineStands(tip: Tree, m: string, machine: Machine) {
    && RowsFit(machine.view)
    && (forall tree | tree in machine.seen :: RowsFit(tree))
    && (forall t | t in machine.spool :: EntryStands(tip, m, t, machine.spool[t]))
    && (Exposed(machine) ==> ViewsStand(tip, m, machine))
    && LockStands(tip, m, machine)
  }

  /** What was sent under a spool lock was decided on this tip, and a publication's entry is still spooled. */
  ghost predicate SentStands(tip: Tree, machines: map<string, Machine>, x: Sent) {
    && x.m in machines && UnderLock(x.op) && MayLandOn(tip, x.m, x.op, x.read)
    && (x.op.PublishOp? ==> Get(machines[x.m].spool, x.op.token) == Get(x.read, x.op.token))
  }

  /** The stale views, the spools, the locks, what is on its way and the tip agree. */
  ghost predicate Consistent(s: Fleet) {
    && RowsFit(s.tip)
    && (forall m | m in s.machines :: MachineStands(s.tip, m, s.machines[m]))
    && (forall x | x in s.sent :: SentStands(s.tip, s.machines, x))
  }

  ghost predicate Spooled(s: Fleet, t: string) {
    exists m | m in s.machines :: t in s.machines[m].spool
  }

  /** This machine's view offers `t` to its next offline launch. */
  predicate Offers(m: string, machine: Machine, t: string) {
    t in machine.view.rows && IsSpareOf(machine.view.rows[t], m) && t !in machine.spool
  }

  /** An offline launch is taking `t`. */
  predicate IsTaking(machine: Machine, t: string) {
    machine.lock.Taking? && machine.lock.spare.token == t
  }

  /** This machine counts on the row of `t`: it is spooled, being taken, or offered to the next offline launch. */
  predicate Needs(m: string, machine: Machine, t: string) {
    || t in machine.spool
    || IsTaking(machine, t)
    || (Exposed(machine) && Offers(m, machine, t))
  }

  ghost predicate ReliedOn(s: Fleet, t: string) {
    exists m | m in s.machines :: Needs(m, s.machines[m], t)
  }

  /** The held rows a commit alters. */
  function AlteredOn(tip: Tree, change: Change): set<string> {
    set t | t in change.rows && t in tip.rows && change.rows[t] != Some(tip.rows[t])
  }

  function Altered(s: Fleet, m: string, op: Op): set<string>
    requires m in s.machines && Guard(op, m, s.tip, s.machines[m].spool).Write?
  {
    AlteredOn(s.tip, ChangeOf(s, m, op))
  }

  /** The release makes a spare of `t` that the spooled entry could still have activated. */
  predicate Respares(op: Op, m: string, t: string, entry: Row) {
    op.ReconcileOp? && t in op.added && OnlyActivationDiffers(SpareRow(t, op.hostAlias, m, op.now), entry)
  }

  /** Every spare that `tree` would offer this machine's offline launches is still that row at the tip. */
  ghost predicate OffersStand(tip: Tree, m: string, machine: Machine, tree: Tree) {
    forall t | t in tree.rows && IsSpareOf(tree.rows[t], m) && t !in machine.spool ::
      Get(tip.rows, t) == Some(tree.rows[t])
  }

  /** A late release may alter a row counted on if it makes the same spare of it again, and its entry stays spooled. */
  ghost predicate LateKeeps(m: string, op: Op, machine: Machine, t: string) {
    Needs(m, machine, t) ==>
      t in machine.spool && Respares(op, m, t, machine.spool[t]) && machine.lock != Publishing(Some(t))
  }

  /**
   * What uniqueness asks of a step: no commit alters a row somebody counts on; a release, in time or late, lets go of
   * no row whose entry is spooled, unless it makes the same spare of it again, and a late one drops no spare that is
   * by then taken or on offer; an entry found published is so at the tip; and the private ref, when it is set while no
   * one publishes or reconciles, or as one of those unlocks, shows no spare that has changed since.
   */
  ghost predicate Careful(s: Fleet, e: Event) {
    e.m in s.machines ==>
      var machine := s.machines[e.m];
      match e
      case Land(m, op) => MayLand(s, m, op) ==> forall t | t in Altered(s, m, op) :: !ReliedOn(s, t)
      case LateLand(m, op, read) =>
        op.ReconcileOp? && MayLandOn(s.tip, m, op, read) ==>
          forall t | t in AlteredOn(s.tip, ChangeOn(s.tip, m, op, read)) :: LateKeeps(m, op, machine, t)
      case PublishSeen(m, token, _) => token in machine.spool ==> Get(s.tip.rows, token) == Some(machine.spool[token])
      case ReleaseLand(m, op) =>
        op.ReconcileOp? ==>
          forall t | t in Released(s.tip, m, op.candidates) && t in machine.spool ::
            Respares(op, m, t, machine.spool[t])
      case MoveRef(m, tree) => Exposed(machine) ==> OffersStand(s.tip, m, machine, tree)
      case Unlock(m) => !Exposed(machine) ==> OffersStand(s.tip, m, machine, machine.view)
      case _ => true
  }
}

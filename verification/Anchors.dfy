/** Backup anchors: snapshots of failed updates, chained under one ref by compare-and-set. */
module Anchors {
  import opened Wrappers

  type Files = map<string, string>

  /** A commit is its content: the tree, the parents in order, and the message. */
  datatype Commit = Commit(tree: Files, parents: seq<Commit>, message: string)

  /** `d` is `c` or one of its ancestors. */
  predicate Reaches(c: Commit, d: Commit)
    decreases c
  {
    c == d || exists i | 0 <= i < |c.parents| :: Reaches(c.parents[i], d)
  }

  function Size(c: Commit): nat
    decreases c
  {
    1 + SizeOfAll(c.parents)
  }

  function SizeOfAll(cs: seq<Commit>): nat
    decreases cs
  {
    if cs == [] then 0 else Size(cs[0]) + SizeOfAll(cs[1..])
  }

  lemma {:induction false} PartIsSmaller(cs: seq<Commit>, i: nat)
    requires i < |cs|
    ensures Size(cs[i]) <= SizeOfAll(cs)
  {
    if i > 0 {
      PartIsSmaller(cs[1..], i - 1);
    }
  }

  lemma {:induction false} AncestorsAreSmaller(c: Commit, d: Commit)
    requires Reaches(c, d) && c != d
    ensures Size(d) < Size(c)
    decreases c
  {
    var i :| 0 <= i < |c.parents| && Reaches(c.parents[i], d);
    PartIsSmaller(c.parents, i);
    if c.parents[i] != d {
      AncestorsAreSmaller(c.parents[i], d);
    }
  }

  lemma {:induction false} ReachesThrough(c: Commit, d: Commit, e: Commit)
    requires Reaches(c, d) && Reaches(d, e)
    ensures Reaches(c, e)
    decreases c
  {
    if c != d {
      var i :| 0 <= i < |c.parents| && Reaches(c.parents[i], d);
      ReachesThrough(c.parents[i], d, e);
    }
  }

  const MESSAGE := "Backup failed template update"

  /** The commit `_anchor_failed_update` makes: HEAD first, then the earlier snapshot unless that is HEAD itself. */
  function Anchor(previous: Option<Commit>, head: Commit, tree: Files): Commit {
    Commit(tree, [head] + if previous.Some? && previous.value != head then [previous.value] else [], MESSAGE)
  }

  /** `c` is a snapshot of this tree on this HEAD. */
  predicate IsSnapshot(c: Commit, head: Commit, tree: Files) {
    c.tree == tree && c.parents != [] && c.parents[0] == head
  }

  /** An anchor reaches its HEAD and every earlier snapshot, and is none of them. */
  lemma AnchorReaches(previous: Option<Commit>, head: Commit, tree: Files)
    ensures IsSnapshot(Anchor(previous, head, tree), head, tree)
    ensures Reaches(Anchor(previous, head, tree), head)
    ensures previous.Some? ==>
              Reaches(Anchor(previous, head, tree), previous.value) && Anchor(previous, head, tree) != previous.value
  {
    var c := Anchor(previous, head, tree);
    assert Reaches(c.parents[0], head);
    PartIsSmaller(c.parents, 0);
    if previous.Some? && previous.value != head {
      assert Reaches(c.parents[1], previous.value);
      PartIsSmaller(c.parents, 1);
    }
  }

  /** Its parents are HEAD and then the earlier snapshot, which is named once even where that is HEAD itself. */
  lemma AnchorParents(previous: Option<Commit>, head: Commit, tree: Files)
    ensures
      var parents := Anchor(previous, head, tree).parents;
      && (forall d :: d in parents <==> d == head || previous == Some(d))
      && (forall i, j | 0 <= i < j < |parents| :: parents[i] != parents[j])
  {
  }

  /** `update-ref`: the new value when the ref is still at the expected one. */
  function UpdateRef(tip: Option<Commit>, value: Commit, expected: Option<Commit>): Option<Commit> {
    if tip == expected then Some(value) else tip
  }

  /** A call that has read the ref and its worktree and not yet swapped. */
  datatype Caller = Caller(previous: Option<Commit>, head: Commit, tree: Files)

  /** One backup ref and the calls under way on it. */
  datatype State = State(tip: Option<Commit>, callers: map<nat, Caller>)

  datatype Step = Begin(id: nat, head: Commit, tree: Files) | Swap(id: nat) | Fail(id: nat)

  ghost predicate Next(before: State, step: Step, after: State) {
    match step
    case Begin(id, head, tree) => after == before.(callers := before.callers[id := Caller(before.tip, head, tree)])
    case Swap(id) =>
      && id in before.callers
      && var caller := before.callers[id];
         after == State(UpdateRef(before.tip, Anchor(caller.previous, caller.head, caller.tree), caller.previous),
                        before.callers - {id})
    case Fail(id) => after == before.(callers := before.callers - {id})
  }

  ghost predicate IsRun(states: seq<State>, steps: seq<Step>) {
    && |states| == |steps| + 1
    && forall i | 0 <= i < |steps| :: Next(states[i], steps[i], states[i + 1])
  }

  /** The swap of step `i` finds the ref where its caller read it. */
  ghost predicate Wins(states: seq<State>, steps: seq<Step>, i: nat)
    requires IsRun(states, steps) && i < |steps|
  {
    steps[i].Swap? && steps[i].id in states[i].callers && states[i].tip == states[i].callers[steps[i].id].previous
  }

  /** `later` is `earlier`, or reaches it. */
  predicate Grown(earlier: Option<Commit>, later: Option<Commit>) {
    earlier.Some? ==> later.Some? && Reaches(later.value, earlier.value)
  }

  lemma StepGrows(before: State, step: Step, after: State)
    requires Next(before, step, after)
    ensures Grown(before.tip, after.tip)
  {
    if step.Swap? {
      var caller := before.callers[step.id];
      AnchorReaches(caller.previous, caller.head, caller.tree);
    }
  }

  /** Anchors accumulate: every commit the ref ever named stays reachable from it, whoever swaps it. */
  lemma {:induction false} AnchorsAccumulate(states: seq<State>, steps: seq<Step>, i: nat, j: nat)
    requires IsRun(states, steps) && i <= j < |states|
    ensures Grown(states[i].tip, states[j].tip)
  {
    hide Next;
    if i < j {
      AnchorsAccumulate(states, steps, i, j - 1);
      StepGrows(states[j - 1], steps[j - 1], states[j]);
      if states[i].tip.Some? {
        ReachesThrough(states[j].tip.value, states[j - 1].tip.value, states[i].tip.value);
      }
    }
  }

  /** A call whose swap won has its snapshot and its HEAD reachable from the ref for good. */
  lemma WinnersStay(states: seq<State>, steps: seq<Step>, i: nat, j: nat) returns (snapshot: Commit)
    requires IsRun(states, steps) && i < j < |states| && Wins(states, steps, i)
    ensures
      var caller := states[i].callers[steps[i].id];
      && IsSnapshot(snapshot, caller.head, caller.tree)
      && states[j].tip.Some?
      && Reaches(states[j].tip.value, snapshot)
      && Reaches(states[j].tip.value, caller.head)
  {
    var caller := states[i].callers[steps[i].id];
    snapshot := Anchor(caller.previous, caller.head, caller.tree);
    assert Next(states[i], steps[i], states[i + 1]);
    AnchorReaches(caller.previous, caller.head, caller.tree);
    AnchorsAccumulate(states, steps, i + 1, j);
    ReachesThrough(states[j].tip.value, snapshot, caller.head);
  }

  /** The ref never comes back to a value it left, so its compare-and-set cannot be fooled. */
  lemma NeverComesBack(states: seq<State>, steps: seq<Step>, i: nat, j: nat, k: nat)
    requires IsRun(states, steps) && i <= j <= k < |states| && states[j].tip != states[i].tip
    ensures states[k].tip != states[i].tip
  {
    AnchorsAccumulate(states, steps, i, j);
    AnchorsAccumulate(states, steps, j, k);
    if states[k].tip == states[i].tip && states[i].tip.Some? {
      AncestorsAreSmaller(states[j].tip.value, states[i].tip.value);
      AncestorsAreSmaller(states[k].tip.value, states[j].tip.value);
    }
  }

  /** Of all the calls that read the same value of the ref, at most one swap wins. */
  lemma OneWinnerPerValue(states: seq<State>, steps: seq<Step>, i: nat, j: nat)
    requires IsRun(states, steps) && i < j < |steps| && Wins(states, steps, i) && Wins(states, steps, j)
    ensures states[i].callers[steps[i].id].previous != states[j].callers[steps[j].id].previous
  {
    var caller := states[i].callers[steps[i].id];
    assert Next(states[i], steps[i], states[i + 1]);
    AnchorReaches(caller.previous, caller.head, caller.tree);
    NeverComesBack(states, steps, i, i + 1, j);
  }
}

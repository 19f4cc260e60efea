/** Publishing a newer policy: the four-state ancestry test, and what it makes of whole runs of `sync_names`. */
module PolicyHistory {
  import opened Wrappers
  import opened Rows
  import opened Registry
  import opened Picker
  import opened Allocation
  import opened Operations
  import opened History

  /** The policy repository's commits, numbered so that each commit's parents come before it. */
  type Dag = d: seq<seq<nat>> | forall c, i | 0 <= c < |d| && 0 <= i < |d[c]| :: d[c][i] < c witness []

  predicate AllBelow(ps: seq<nat>, below: nat) { forall i | 0 <= i < |ps| :: ps[i] < below }

  function Parents(dag: Dag, c: nat): (ps: seq<nat>)
    ensures AllBelow(ps, c)
  {
    if c < |dag| then dag[c] else []
  }

  /** `git merge-base --is-ancestor`: `a` is `c` or reachable from it through parents. */
  predicate IsAncestor(dag: Dag, a: nat, c: nat)
    decreases c
  {
    a == c || exists i | 0 <= i < |Parents(dag, c)| :: IsAncestor(dag, a, Parents(dag, c)[i])
  }

  predicate IsStrictAncestor(dag: Dag, a: nat, c: nat) { a != c && IsAncestor(dag, a, c) }

  datatype Ancestry = Same | LocalNewer | LocalOlder | Incomparable

  /** One checkout at one `sync_names`: its policy commit and digest, the commits it has, and the list it generates. */
  datatype Checkout = Checkout(
    commit: Option<nat>, digest: string, known: set<nat>, names: set<string>, policy: Option<Policy>)

  /** `ancestry_state`. */
  function AncestryState(dag: Dag, checkout: Checkout, ref: Option<nat>): Ancestry {
    if checkout.commit.None? || ref.None? then Incomparable
    else if ref == checkout.commit then Ancestry.Same
    else if ref.value !in checkout.known then Incomparable
    else if IsAncestor(dag, ref.value, checkout.commit.value) then LocalNewer
    else if IsAncestor(dag, checkout.commit.value, ref.value) then LocalOlder
    else Incomparable
  }

  /** The four states: the same commit, a later one, an earlier one that is known, or no comparison. */
  lemma AncestryIff(dag: Dag, checkout: Checkout, published: Option<nat>)
    ensures
      var state := AncestryState(dag, checkout, published);
      var comparable := checkout.commit.Some? && published.Some?;
      && (state.Same? <==> comparable && published == checkout.commit)
      && (state.LocalNewer?
          <==> (&& comparable && published.value in checkout.known
                && IsStrictAncestor(dag, published.value, checkout.commit.value)))
      && (state.LocalOlder?
          <==> (&& comparable && published.value in checkout.known
                && IsStrictAncestor(dag, checkout.commit.value, published.value)))
  {
    hide IsAncestor;
    if checkout.commit.Some? && published.Some? && IsAncestor(dag, published.value, checkout.commit.value)
       && IsAncestor(dag, checkout.commit.value, published.value) {
      AncestorsAreLower(dag, published.value, checkout.commit.value);
      AncestorsAreLower(dag, checkout.commit.value, published.value);
    }
  }

  /** `sync_names`' guard on the shared registry. */
  function SyncNames(dag: Dag, tip: Tree, checkout: Checkout): Build {
    var state := if tip.listing.None? then LocalNewer
                 else AncestryState(dag, checkout, tip.listing.value.generation.policyCommit);
    var differs := tip.listing.None? || tip.listing.value.generation.policyDigest != checkout.digest;
    if state.LocalNewer? && differs then
      Write(Change(map[], map[], map[],
                   Some(Listing(checkout.names, Generation(checkout.policy, checkout.commit, checkout.digest)))))
    else Skip
  }

  /** Every publication of this history was decided by `sync_names` in some checkout of the policy repository. */
  ghost predicate SyncedBy(dag: Dag, tips: seq<Tree>, commits: seq<Commit>, checkouts: seq<Checkout>) {
    && IsHistory(tips, commits)
    && |checkouts| == |commits|
    && forall i | 0 <= i < |commits| && commits[i].op.SyncOp? ::
         SyncNames(dag, tips[i], checkouts[i])
         == Guard(commits[i].op, commits[i].machine, tips[i], commits[i].spool)
  }

  function PolicyCommit(tip: Tree): Option<nat>
    requires tip.listing.Some?
  {
    tip.listing.value.generation.policyCommit
  }

  /** `later` is `earlier`, or a strict descendant of it. */
  predicate Forward(dag: Dag, earlier: Option<nat>, later: Option<nat>) {
    earlier == later || (earlier.Some? && later.Some? && IsStrictAncestor(dag, earlier.value, later.value))
  }

  lemma {:induction false} AncestorsAreLower(dag: Dag, a: nat, c: nat)
    requires IsAncestor(dag, a, c)
    ensures a <= c
    decreases c
  {
    if a != c {
      var i :| 0 <= i < |Parents(dag, c)| && IsAncestor(dag, a, Parents(dag, c)[i]);
      AncestorsAreLower(dag, a, Parents(dag, c)[i]);
    }
  }

  lemma {:induction false} AncestorsChain(dag: Dag, a: nat, b: nat, c: nat)
    requires IsAncestor(dag, a, b) && IsAncestor(dag, b, c)
    ensures IsAncestor(dag, a, c)
    decreases c
  {
    if b != c {
      var i :| 0 <= i < |Parents(dag, c)| && IsAncestor(dag, b, Parents(dag, c)[i]);
      AncestorsChain(dag, a, b, Parents(dag, c)[i]);
    }
  }

  lemma ForwardChains(dag: Dag, a: Option<nat>, b: Option<nat>, c: Option<nat>)
    requires Forward(dag, a, b) && Forward(dag, b, c)
    ensures Forward(dag, a, c)
    ensures a == c ==> a == b
  {
    if a != b && b != c {
      AncestorsChain(dag, a.value, b.value, c.value);
      AncestorsAreLower(dag, a.value, b.value);
      AncestorsAreLower(dag, b.value, c.value);
    }
  }

  /** Only `sync_names` touches the published list. */
  lemma OthersKeepListing(op: Op, machine: string, tip: Tree, spool: map<string, Row>, change: Change)
    requires !op.SyncOp? && Guard(op, machine, tip, spool) == Write(change)
    ensures Apply(tip, change).listing == tip.listing
  {
    hide RowProblem, FirstBadSpare, CheckHandChosen, PublishedPolicy;
  }

  /** One commit leaves the list alone, or moves its policy to a strict descendant; a list is never withdrawn. */
  lemma StepForward(dag: Dag, tips: seq<Tree>, commits: seq<Commit>, checkouts: seq<Checkout>, i: nat)
    requires SyncedBy(dag, tips, commits, checkouts) && i < |commits| && tips[i].listing.Some?
    ensures tips[i + 1].listing.Some?
    ensures
      if commits[i].op.SyncOp? then
        && PolicyCommit(tips[i]).Some? && PolicyCommit(tips[i + 1]).Some?
        && IsStrictAncestor(dag, PolicyCommit(tips[i]).value, PolicyCommit(tips[i + 1]).value)
      else tips[i + 1].listing == tips[i].listing
  {
    hide Choices, IsAncestor;
    var commit := commits[i];
    assert Lands(tips[i], commit, tips[i + 1]);
    if !commit.op.SyncOp? {
      hide Guard, Apply;
      OthersKeepListing(commit.op, commit.machine, tips[i], commit.spool,
                        Guard(commit.op, commit.machine, tips[i], commit.spool).change);
    }
  }

  /**
   * Published policy only moves forward: once a list exists, every later tip has one, its policy commit is the same or
   * a strict descendant, and wherever the commit is the same so is the whole list, so no two checkouts can flip it to
   * and fro. A list published from no commit stays for good.
   */
  lemma {:induction false} PolicyOnlyMovesForward(dag: Dag, tips: seq<Tree>, commits: seq<Commit>,
                                                  checkouts: seq<Checkout>, i: nat, j: nat)
    requires SyncedBy(dag, tips, commits, checkouts) && i <= j < |tips| && tips[i].listing.Some?
    ensures tips[j].listing.Some?
    ensures Forward(dag, PolicyCommit(tips[i]), PolicyCommit(tips[j]))
    ensures PolicyCommit(tips[i]) == PolicyCommit(tips[j]) ==> tips[i].listing == tips[j].listing
  {
    hide SyncedBy, IsAncestor;
    assert |tips| == |commits| + 1 by { Lengths(dag, tips, commits, checkouts); }
    if i < j {
      PolicyOnlyMovesForward(dag, tips, commits, checkouts, i, j - 1);
      StepForward(dag, tips, commits, checkouts, j - 1);
      ForwardChains(dag, PolicyCommit(tips[i]), PolicyCommit(tips[j - 1]), PolicyCommit(tips[j]));
    }
  }

  lemma Lengths(dag: Dag, tips: seq<Tree>, commits: seq<Commit>, checkouts: seq<Checkout>)
    requires SyncedBy(dag, tips, commits, checkouts)
    ensures |tips| == |commits| + 1
  {
  }

  /** The greatest of `depths`. */
  function Deepest(dag: Dag, ps: seq<nat>, below: nat): nat
    requires AllBelow(ps, below)
    decreases below, |ps|
  {
    if ps == [] then 0
    else
      var first, rest := Depth(dag, ps[0]), Deepest(dag, ps[1..], below);
      if first < rest then rest else first
  }

  /** The number of commits on the longest line of descent that ends at `c`. */
  function Depth(dag: Dag, c: nat): nat
    decreases c, |Parents(dag, c)| + 1
  {
    1 + Deepest(dag, Parents(dag, c), c)
  }

  lemma {:induction false} DeepestIsHighest(dag: Dag, ps: seq<nat>, below: nat, i: nat)
    requires AllBelow(ps, below) && i < |ps|
    ensures Depth(dag, ps[i]) <= Deepest(dag, ps, below)
    decreases |ps|
  {
    if i > 0 {
      DeepestIsHighest(dag, ps[1..], below, i - 1);
    }
  }

  lemma {:induction false} DescendantsAreDeeper(dag: Dag, a: nat, c: nat)
    requires IsStrictAncestor(dag, a, c)
    ensures Depth(dag, a) < Depth(dag, c)
    decreases c
  {
    var i :| 0 <= i < |Parents(dag, c)| && IsAncestor(dag, a, Parents(dag, c)[i]);
    DeepestIsHighest(dag, Parents(dag, c), c, i);
    if a != Parents(dag, c)[i] {
      DescendantsAreDeeper(dag, a, Parents(dag, c)[i]);
    }
  }

  /** A line of descent: each commit is a strict ancestor of the next. */
  ghost predicate IsLine(dag: Dag, line: seq<nat>) {
    forall i | 0 <= i < |line| - 1 :: IsStrictAncestor(dag, line[i], line[i + 1])
  }

  /** `Depth` is exactly the length of the longest line of descent ending at a commit. */
  lemma {:induction false} NoLineIsLonger(dag: Dag, line: seq<nat>)
    requires line != [] && IsLine(dag, line)
    ensures |line| <= Depth(dag, line[|line| - 1])
    decreases |line|
  {
    if |line| > 1 {
      var shorter := line[..|line| - 1];
      assert IsLine(dag, shorter) by {
        forall i | 0 <= i < |shorter| - 1 ensures IsStrictAncestor(dag, shorter[i], shorter[i + 1]) {
          assert IsStrictAncestor(dag, line[i], line[i + 1]);
        }
      }
      NoLineIsLonger(dag, shorter);
      assert IsStrictAncestor(dag, line[|line| - 2], line[|line| - 1]);
      DescendantsAreDeeper(dag, line[|line| - 2], line[|line| - 1]);
    }
  }

  lemma {:induction false} DeepestIsReached(dag: Dag, ps: seq<nat>, below: nat) returns (i: nat)
    requires AllBelow(ps, below) && ps != []
    ensures i < |ps| && Depth(dag, ps[i]) == Deepest(dag, ps, below)
    decreases |ps|
  {
    i := 0;
    if |ps| > 1 && Depth(dag, ps[0]) < Deepest(dag, ps[1..], below) {
      i := DeepestIsReached(dag, ps[1..], below);
      i := i + 1;
    }
  }

  lemma {:induction false} LongestLine(dag: Dag, c: nat) returns (line: seq<nat>)
    ensures IsLine(dag, line) && |line| == Depth(dag, c) && line[|line| - 1] == c
    decreases c
  {
    if Parents(dag, c) == [] {
      line := [c];
    } else {
      var i := DeepestIsReached(dag, Parents(dag, c), c);
      var p := Parents(dag, c)[i];
      line := LongestLine(dag, p);
      assert IsAncestor(dag, p, Parents(dag, c)[i]);
      assert IsStrictAncestor(dag, p, c);
      line := line + [c];
    }
  }

  /** How many of the commits from tip `i` to tip `j` published a list. */
  function Publications(commits: seq<Commit>, i: nat, j: nat): nat
    requires i <= j <= |commits|
    decreases j - i
  {
    if i == j then 0 else Publications(commits, i, j - 1) + if commits[j - 1].op.SyncOp? then 1 else 0
  }

  function DepthOf(dag: Dag, commit: Option<nat>): nat {
    if commit.None? then 0 else Depth(dag, commit.value)
  }

  /** Each publication after the first climbs the policy repository's history; its longest line bounds their number. */
  lemma {:induction false} PublicationsAreBounded(dag: Dag, tips: seq<Tree>, commits: seq<Commit>,
                                                  checkouts: seq<Checkout>, i: nat, j: nat)
    requires SyncedBy(dag, tips, commits, checkouts) && i <= j <= |commits| && j < |tips| && tips[i].listing.Some?
    ensures tips[j].listing.Some?
    ensures Publications(commits, i, j) + DepthOf(dag, PolicyCommit(tips[i]))
            <= DepthOf(dag, PolicyCommit(tips[j]))
    decreases j
  {
    hide SyncedBy, IsAncestor, Depth;
    assert |tips| == |commits| + 1 by { Lengths(dag, tips, commits, checkouts); }
    if i < j {
      PublicationsAreBounded(dag, tips, commits, checkouts, i, j - 1);
      StepForward(dag, tips, commits, checkouts, j - 1);
      if commits[j - 1].op.SyncOp? {
        DescendantsAreDeeper(dag, PolicyCommit(tips[j - 1]).value, PolicyCommit(tips[j]).value);
      }
    }
  }

  /**
   * Who publishes its own list: any checkout while there is none, and then one whose commit strictly descends from a
   * published one it has, with another digest.
   */
  lemma PublishesIff(dag: Dag, tip: Tree, checkout: Checkout)
    ensures SyncNames(dag, tip, checkout).Write?
            <==> (tip.listing.Some? ==>
                    && PolicyCommit(tip).Some? && checkout.commit.Some?
                    && PolicyCommit(tip).value in checkout.known
                    && IsStrictAncestor(dag, PolicyCommit(tip).value, checkout.commit.value)
                    && tip.listing.value.generation.policyDigest != checkout.digest)
    ensures !SyncNames(dag, tip, checkout).Refuse?
    ensures SyncNames(dag, tip, checkout).Write? ==>
              Apply(tip, SyncNames(dag, tip, checkout).change) == tip.(listing := Some(ListOf(checkout)))
  {
    WrittenNothing(tip.rows);
    WrittenNothing(tip.manual);
    WrittenNothing(tip.migrations);
  }

  /** The list a checkout generates: its own names, policy, policy commit and digest. */
  function ListOf(checkout: Checkout): Listing {
    Listing(checkout.names, Generation(checkout.policy, checkout.commit, checkout.digest))
  }

  /** Of two checkouts, at most one would replace what the other published. */
  lemma NoTwoReplaceEachOther(dag: Dag, tip: Tree, first: Checkout, second: Checkout)
    requires tip.listing.Some?
    requires SyncNames(dag, tip, first).Write?
    requires SyncNames(dag, Apply(tip, SyncNames(dag, tip, first).change), second).Write?
    ensures
      var after := Apply(tip, SyncNames(dag, tip, first).change);
      SyncNames(dag, Apply(after, SyncNames(dag, after, second).change), first).Skip?
  {
    hide IsAncestor;
    AncestorsAreLower(dag, first.commit.value, second.commit.value);
    if IsAncestor(dag, second.commit.value, first.commit.value) {
      AncestorsAreLower(dag, second.commit.value, first.commit.value);
    }
  }
}

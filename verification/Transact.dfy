/** The two `transact` methods: the locked local registry, and the retry loop of the shared one. */
module Transact {
  import opened Wrappers
  import opened Registry
  import opened Optimistic

  /** The registry of one host: the tree as files, rewritten one by one under a lock. */
  class LocalRegistry {
    var tree: Tree

    constructor (tree: Tree)
      ensures this.tree == tree
    {
      this.tree := tree;
    }

    /** One directory's files after the writes, made in any order. */
    static method WriteFiles<V>(files: map<string, V>, writes: map<string, Option<V>>) returns (r: map<string, V>)
      ensures r == Written(files, writes)
    {
      r := files;
      var todo := writes.Keys;
      while todo != {}
        invariant todo <= writes.Keys
        invariant forall k :: k in r <==> if k in writes && k !in todo then writes[k].Some? else k in files
        invariant forall k | k in r :: r[k] == if k in writes && k !in todo then writes[k].value else files[k]
        decreases todo
      {
        var k :| k in todo;
        todo := todo - {k};
        if writes[k].Some? {
          r := r[k := writes[k].value];
        } else {
          r := r - {k};
        }
      }
    }

    /** `LocalRegistry.transact`: one atomic step. */
    method Transact(guard: Tree -> Build) returns (outcome: Outcome)
      modifies this
      ensures
        var build := guard(old(tree));
        match build
        case Refuse(why) => outcome == Raised(why) && tree == old(tree)
        case Skip => outcome == ReturnedNone && tree == old(tree)
        case Write(change) =>
          if change.Empty() then outcome == ReturnedNone && tree == old(tree)
          else outcome == Returned(change) && AtomicStep((t, b) => b == guard(t), old(tree), change, tree)
      ensures guard(old(tree)).Write? ==> tree == Apply(old(tree), guard(old(tree)).change)
    {
      var build := guard(tree);
      if build.Write? {
        EmptyChangesNothing(build.change);
      }
      match build {
        case Refuse(why) => return Raised(why);
        case Skip => return ReturnedNone;
        case Write(change) =>
          if change.Empty() {
            return ReturnedNone;
          }
          var rows := WriteFiles(tree.rows, change.rows);
          var manual := WriteFiles(tree.manual, change.manual);
          var migrations := WriteFiles(tree.migrations, change.migrations);
          tree := Tree(rows, manual, migrations, if change.listing.Some? then change.listing else tree.listing);
          return Returned(change);
      }
    }
  }

  /** How the remote answers a push whose parent is still its tip. */
  datatype Push = Answered | RefLocked | Silent(landed: bool)

  /** What one attempt meets: commits that land before its fetch, the fetch, commits before its push, the push. */
  datatype Weather = Weather(before: seq<Change>, fetched: bool, between: seq<Change>, push: Push)

  /** Nothing lands between the fetch and the push, and the remote answers both. */
  predicate Calm(weather: Weather) { weather.fetched && weather.between == [] && weather.push.Answered? }

  function By(author: nat, changes: seq<Change>): (r: seq<Entry>)
    ensures |r| == |changes| && forall i | 0 <= i < |r| :: r[i].author == author
  {
    seq(|changes|, i requires 0 <= i < |changes| => Entry(author, changes[i]))
  }

  /** The log has grown since `before`, without a commit of this call. */
  ghost predicate NoneOwn(before: seq<Entry>, log: seq<Entry>, me: nat) {
    before <= log && Commits(log[|before|..], me) == 0
  }

  /** The log has grown since `before` and ends in this call's one commit, decided on the tip just below it. */
  ghost predicate OneOwn(base: Tree, before: seq<Entry>, log: seq<Entry>, me: nat, guard: Tree -> Build,
                         change: Change) {
    && log != [] && log[|log| - 1] == Entry(me, change)
    && NoneOwn(before, log[..|log| - 1], me)
    && guard(Replay(base, log[..|log| - 1])) == Write(change)
    && !change.Empty()
  }

  lemma {:induction false} OthersLand(before: seq<Entry>, log: seq<Entry>, me: nat, changes: seq<Change>)
    requires NoneOwn(before, log, me)
    ensures NoneOwn(before, log + By(me + 1, changes), me)
    decreases |changes|
  {
    var longer := log + By(me + 1, changes);
    if changes == [] {
      assert longer == log;
    } else {
      var since := longer[|before|..];
      assert longer[..|longer| - 1] == log + By(me + 1, changes[..|changes| - 1]);
      OthersLand(before, log, me, changes[..|changes| - 1]);
      assert since[..|since| - 1] == (log + By(me + 1, changes[..|changes| - 1]))[|before|..];
    }
  }

  lemma OwnLands(base: Tree, before: seq<Entry>, log: seq<Entry>, me: nat, guard: Tree -> Build, change: Change)
    requires NoneOwn(before, log, me) && guard(Replay(base, log)) == Write(change) && !change.Empty()
    ensures OneOwn(base, before, log + [Entry(me, change)], me, guard, change)
  {
    assert (log + [Entry(me, change)])[..|log|] == log;
  }

  class Remote {
    const base: Tree
    var log: seq<Entry>

    constructor (base: Tree)
      ensures this.base == base && log == []
    {
      this.base, log := base, [];
    }

    function Tip(): Tree
      reads this
    {
      Replay(base, log)
    }

    /**
     * `GitRegistry.transact` for the call `me`, in any weather; `locked` counts the attempts a locked ref refused.
     */
    method Transact(me: nat, attempts: nat, guard: Tree -> Build, weather: seq<Weather>)
      returns (outcome: Outcome, locked: nat)
      requires |weather| >= attempts
      modifies this`log
      ensures outcome.Returned? ==> OneOwn(base, old(log), log, me, guard, outcome.change)
      ensures outcome.ReturnedNone? ==>
                && NoneOwn(old(log), log, me)
                && (guard(Tip()).Skip?
                    || (guard(Tip()).Write? && forall tree :: Apply(tree, guard(Tip()).change) == tree))
      ensures outcome.Raised? ==> NoneOwn(old(log), log, me) && guard(Tip()) == Refuse(outcome.why)
      ensures outcome.Contended? ==>
                NoneOwn(old(log), log, me) && locked <= attempts <= |log| - |old(log)| + locked
      ensures outcome.Unreachable? ==>
                NoneOwn(old(log), log, me) || exists change :: OneOwn(base, old(log), log, me, guard, change)
      ensures outcome.Unreachable? ==>
                exists i | 0 <= i < attempts :: !weather[i].fetched || weather[i].push.Silent?
      ensures attempts > 0 && Calm(weather[0]) ==> !outcome.Contended? && !outcome.Unreachable?
    {
      hide Replay, Commits, NoneOwn, OneOwn, By;
      locked := 0;
      assert NoneOwn(log, log, me) by { NothingSince(log, me); }
      for attempt := 0 to attempts
        invariant NoneOwn(old(log), log, me)
        invariant locked <= attempt <= |log| - |old(log)| + locked
        invariant attempt > 0 ==> !Calm(weather[0])
      {
        var now := weather[attempt];
        OthersLand(old(log), log, me, now.before);
        log := log + By(me + 1, now.before);
        if !now.fetched {
          return Unreachable, locked;
        }
        var parent := log;
        var build := guard(Tip());
        if build.Refuse? {
          return Raised(build.why), locked;
        }
        if build.Skip? || build.change.Empty() {
          if build.Write? {
            EmptyChangesNothing(build.change);
          }
          return ReturnedNone, locked;
        }
        OthersLand(old(log), log, me, now.between);
        log := log + By(me + 1, now.between);
        if |log| == |parent| && now.push.RefLocked? {
          locked := locked + 1;
        } else if |log| == |parent| {
          assert log == parent;
          OwnLands(base, old(log), log, me, guard, build.change);
          if now.push.Answered? {
            log := log + [Entry(me, build.change)];
            return Returned(build.change), locked;
          }
          if now.push.landed {
            log := log + [Entry(me, build.change)];
          }
          return Unreachable, locked;
        }
      }
      return Contended, locked;
    }
  }

  lemma NothingSince(log: seq<Entry>, me: nat)
    ensures NoneOwn(log, log, me)
  {
    assert log[|log|..] == [];
  }
}

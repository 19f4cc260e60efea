/** What a host still finds under a title: its worktree, its tmux sessions, and each client's records. */
module Probes {
  import opened Wrappers
  import opened Rows

  const ENGINES := ["c", "g", "p", "cx"]
  const WORKTREE := "worktree"
  const TMUX := "tmux"

  /** One client's store: its records for a title, some perhaps listed twice, and whether it can be read. */
  datatype Store = Store(client: string, records: seq<string>, readable: bool)

  /** What a host holds under a title. */
  datatype Holdings = Holdings(title: string, worktree: Option<string>, live: set<string>, stores: seq<Store>)
  {
    predicate Valid() { forall i | 0 <= i < |stores| :: stores[i].client !in {WORKTREE, TMUX} }

    /** Everything there is, whether or not its store can be read. */
    function There(): set<Artifact> {
      Outside(this) + RecordsOf(stores)
    }
  }

  predicate IsSession(title: string, name: string) {
    exists i | 0 <= i < |ENGINES| :: name == ENGINES[i] + "-" + title || name == ENGINES[i] + "-r-" + title
  }

  /** The worktree and the tmux sessions. */
  function Outside(h: Holdings): set<Artifact> {
    (if h.worktree.Some? then {Artifact(WORKTREE, h.worktree.value)} else {})
    + set name | name in h.live && IsSession(h.title, name) :: Artifact(TMUX, name)
  }

  function Records(store: Store): set<Artifact> {
    set path | path in store.records :: Artifact(store.client, path)
  }

  function RecordsOf(stores: seq<Store>): set<Artifact> {
    if stores == [] then {} else RecordsOf(stores[..|stores| - 1]) + Records(stores[|stores| - 1])
  }

  function ReadableRecords(stores: seq<Store>): set<Artifact> {
    if stores == [] then {}
    else
      var last := stores[|stores| - 1];
      ReadableRecords(stores[..|stores| - 1]) + if last.readable then Records(last) else {}
  }

  /** Worktrees and tmux sessions are always seen; a client store that cannot be read is skipped. */
  predicate Sees(found: set<Artifact>, there: set<Artifact>) {
    found <= there && forall a | a in there && a.kind in {WORKTREE, TMUX} :: a in found
  }

  /** Each path of one store, once. */
  method ListStore(store: Store) returns (found: seq<Artifact>)
    ensures Elements(found) == Records(store)
    ensures forall i, j | 0 <= i < j < |found| :: found[i] != found[j]
  {
    found := [];
    for i := 0 to |store.records|
      invariant forall a :: a in found <==> exists k | 0 <= k < i :: a == Artifact(store.client, store.records[k])
      invariant forall k, l | 0 <= k < l < |found| :: found[k] != found[l]
    {
      var artifact := Artifact(store.client, store.records[i]);
      if artifact !in found {
        found := found + [artifact];
      }
    }
  }

  /** The live sessions under the title, engine by engine. */
  method ListSessions(h: Holdings) returns (found: seq<Artifact>)
    ensures forall a :: a in found <==> a.kind == TMUX && a.identifier in h.live && IsSession(h.title, a.identifier)
  {
    found := [];
    for i := 0 to |ENGINES|
      invariant forall a :: a in found <==>
          && a.kind == TMUX && a.identifier in h.live
          && exists k | 0 <= k < i ::
               a.identifier == ENGINES[k] + "-" + h.title || a.identifier == ENGINES[k] + "-r-" + h.title
    {
      var plain, remote := ENGINES[i] + "-" + h.title, ENGINES[i] + "-r-" + h.title;
      if plain in h.live {
        found := found + [Artifact(TMUX, plain)];
      }
      if remote in h.live {
        found := found + [Artifact(TMUX, remote)];
      }
    }
  }

  /**
   * `artifacts_under`: exactly the worktree, the sessions, and the records of the stores it can read. It misses nothing
   * but records of a store it cannot read, so an empty list means that nothing else is there.
   */
  method ArtifactsUnder(h: Holdings) returns (found: seq<Artifact>)
    requires h.Valid()
    ensures Elements(found) == Outside(h) + ReadableRecords(h.stores)
    ensures Sees(Elements(found), h.There())
    ensures found == [] <==>
              && h.worktree.None? && (forall name | name in h.live :: !IsSession(h.title, name))
              && forall i | 0 <= i < |h.stores| && h.stores[i].readable :: h.stores[i].records == []
  {
    found := if h.worktree.Some? then [Artifact(WORKTREE, h.worktree.value)] else [];
    var sessions := ListSessions(h);
    found := found + sessions;
    assert Elements(found) == Outside(h);
    for i := 0 to |h.stores|
      invariant Elements(found) == Outside(h) + ReadableRecords(h.stores[..i])
    {
      assert h.stores[..i + 1][..i] == h.stores[..i];
      if h.stores[i].readable {
        var listed := ListStore(h.stores[i]);
        assert Elements(found + listed) == Elements(found) + Elements(listed);
        found := found + listed;
      }
    }
    assert h.stores[..|h.stores|] == h.stores;
    ReadableAreThere(h.stores);
    RecordsAreStored(h.stores);
    assert found == [] <==> Elements(found) == {} by {
      assert found != [] ==> found[0] in Elements(found);
    }
    NothingReadable(h.stores);
    OutsideIsEmpty(h);
  }

  lemma OutsideIsEmpty(h: Holdings)
    ensures Outside(h) == {} <==> h.worktree.None? && forall name | name in h.live :: !IsSession(h.title, name)
  {
    hide IsSession;
    if name :| name in h.live && IsSession(h.title, name) {
      assert Artifact(TMUX, name) in Outside(h);
    }
    if h.worktree.Some? {
      assert Artifact(WORKTREE, h.worktree.value) in Outside(h);
    }
  }

  lemma {:induction false} ReadableAreThere(stores: seq<Store>)
    ensures ReadableRecords(stores) <= RecordsOf(stores)
  {
    if stores != [] {
      ReadableAreThere(stores[..|stores| - 1]);
    }
  }

  lemma {:induction false} RecordsAreStored(stores: seq<Store>)
    requires forall i | 0 <= i < |stores| :: stores[i].client !in {WORKTREE, TMUX}
    ensures forall a | a in RecordsOf(stores) :: a.kind !in {WORKTREE, TMUX}
  {
    if stores != [] {
      RecordsAreStored(stores[..|stores| - 1]);
    }
  }

  lemma {:induction false} NothingReadable(stores: seq<Store>)
    ensures ReadableRecords(stores) == {}
            <==> forall i | 0 <= i < |stores| && stores[i].readable :: stores[i].records == []
  {
    if stores != [] {
      var last := stores[|stores| - 1];
      NothingReadable(stores[..|stores| - 1]);
      if last.records != [] {
        assert Artifact(last.client, last.records[0]) in Records(last);
      }
    }
  }
}

/** The registry's content at one tip, the changes one commit makes to it, and the policy it publishes. */
module Registry {
  import opened Wrappers
  import opened Rows

  /** The published naming policy, as far as allocation reads it. */
  datatype Policy = Policy(
    schema: int,
    unknownKeys: set<string>,
    minLength: int,
    maxLength: int,
    denylist: set<string>,
    offlineSpares: int,
    maxEditDistance: int,
    extraWords: set<string>,
    keepNames: set<string>)

  const POLICY_SCHEMA := 1

  /** How the list was generated; `policyCommit` numbers a commit of the policy repository. */
  datatype Generation = Generation(policy: Option<Policy>, policyCommit: Option<nat>, policyDigest: string)

  datatype Listing = Listing(names: set<string>, generation: Generation)

  datatype ManualName = ManualName(addedBy: string, via: string, reason: Option<string>)

  datatype Status = Intent | Complete | OtherStatus

  datatype Migration = Migration(
    oldTitle: string,
    newTitle: string,
    machine: string,
    client: string,
    status: Status,
    completedAt: Option<string>)

  datatype Tree = Tree(
    rows: map<string, Row>,
    manual: map<string, ManualName>,
    migrations: map<string, Migration>,
    listing: Option<Listing>)
  {
    /** Every name that may be used. */
    function Available(): set<string> {
      (if listing.Some? then listing.value.names else {}) + manual.Keys
    }

    /** The tokens of this machine's spare rows. */
    function SparesOf(machine: string): set<string> {
      set t | t in rows && IsSpareOf(rows[t], machine)
    }

    function HeldTitles(): set<string> {
      set t | t in rows && rows[t].title.Some? :: rows[t].title.value
    }
  }

  const EmptyTree := Tree(map[], map[], map[], None)

  datatype Refusal =
    | NoNameList
    | PolicyUnknown
    | PoolExhausted
    | NameHeld
    | NameConfusable
    | NameIsWord
    | NameUnknown
    | NameOutsideLimits
    | NameGenerated
    | BadRow(problem: Problem)
    | RowChanged
    | RowMissing
    | NotThisMachine
    | StillHeld
    | NotASpare
    | NoMigration
    | UnknownHost

  datatype Result<+T> = Ok(value: T) | Err(why: Refusal)

  /** `snapshot.policy`: refused when none is usable or a newer version wrote it. */
  function PublishedPolicy(tree: Tree): Result<Policy> {
    if tree.listing.None? || tree.listing.value.generation.policy.None? then Err(NoNameList)
    else
      var policy := tree.listing.value.generation.policy.value;
      if policy.schema != POLICY_SCHEMA || policy.unknownKeys != {} then Err(PolicyUnknown) else Ok(policy)
  }

  /** One commit's writes, by directory: a key's new value, or None to delete it. */
  datatype Change = Change(
    rows: map<string, Option<Row>>,
    manual: map<string, Option<ManualName>>,
    migrations: map<string, Option<Migration>>,
    listing: Option<Listing>)
  {
    predicate Empty() {
      rows == map[] && manual == map[] && migrations == map[] && listing.None?
    }
  }

  function RowChange(rows: map<string, Option<Row>>): Change { Change(rows, map[], map[], None) }

  /** One directory after its writes. */
  function Written<K(!new), V>(files: map<K, V>, writes: map<K, Option<V>>): (r: map<K, V>)
    ensures forall k :: k in r <==> if k in writes then writes[k].Some? else k in files
    ensures forall k | k in r :: r[k] == if k in writes then writes[k].value else files[k]
  {
    map k | k in files.Keys + writes.Keys && (k in writes ==> writes[k].Some?) ::
      if k in writes then writes[k].value else files[k]
  }

  /** The tree of the commit `_commit` builds on `tree`. */
  function Apply(tree: Tree, change: Change): Tree {
    Tree(Written(tree.rows, change.rows), Written(tree.manual, change.manual),
         Written(tree.migrations, change.migrations),
         if change.listing.Some? then change.listing else tree.listing)
  }

  lemma WrittenNothing<K(!new), V>(files: map<K, V>)
    ensures Written(files, map[]) == files
  {
    assert forall k | k in files :: k in Written(files, map[]);
  }

  /** A change of rows alone leaves every other part of the tree as it was. */
  lemma ApplyRowChange(tree: Tree, writes: map<string, Option<Row>>)
    ensures Apply(tree, RowChange(writes)) == tree.(rows := Written(tree.rows, writes))
  {
    WrittenNothing(tree.manual);
    WrittenNothing(tree.migrations);
  }

  /** A change that writes nothing is one that changes no tree, whatever that tree is: such a change may be dropped. */
  lemma EmptyChangesNothing(change: Change)
    ensures change.Empty() <==> forall tree :: Apply(tree, change) == tree
  {
    if change.Empty() {
      forall tree ensures Apply(tree, change) == tree {
        WrittenNothing(tree.rows);
        WrittenNothing(tree.manual);
        WrittenNothing(tree.migrations);
      }
    } else if change.rows != map[] {
      var k :| k in change.rows;
      var files := WrittenShows(change.rows, k, SpareRow("", "", "", ""));
      assert Apply(EmptyTree.(rows := files), change) != EmptyTree.(rows := files);
    } else if change.manual != map[] {
      var k :| k in change.manual;
      var files := WrittenShows(change.manual, k, ManualName("", "", None));
      assert Apply(EmptyTree.(manual := files), change) != EmptyTree.(manual := files);
    } else if change.migrations != map[] {
      var k :| k in change.migrations;
      var files := WrittenShows(change.migrations, k, Migration("", "", "", "", Intent, None));
      assert Apply(EmptyTree.(migrations := files), change) != EmptyTree.(migrations := files);
    } else {
      assert Apply(EmptyTree, change) != EmptyTree;
    }
  }

  /** Any write changes some directory. */
  lemma WrittenShows<V>(writes: map<string, Option<V>>, k: string, v: V) returns (files: map<string, V>)
    requires k in writes
    ensures Written(files, writes) != files
  {
    files := if writes[k].Some? then map[] else map[k := v];
    assert k in Written(files, writes) <==> k !in files;
  }

  /** The policy in force is the published one, if this version knows its schema and every key of it. */
  lemma PublishedPolicyIff(tree: Tree, policy: Policy)
    ensures PublishedPolicy(tree) == Ok(policy)
            <==> (&& tree.listing.Some? && tree.listing.value.generation.policy == Some(policy)
                  && policy.schema == 1 && policy.unknownKeys == {})
    ensures PublishedPolicy(tree) == Err(NoNameList)
            <==> tree.listing.None? || tree.listing.value.generation.policy.None?
  {
  }

  /** What a guard decides on one snapshot: refuse, write nothing, or publish a change. */
  datatype Build = Refuse(why: Refusal) | Skip | Write(change: Change)

  /** `checked_row` around a write. */
  function CheckedWrite(row: Row, change: Change): Build {
    if RowProblem(row).Some? then Refuse(BadRow(RowProblem(row).value)) else Write(change)
  }

  /** The invariant every tip keeps: each row is valid, under its own token, with a title that ends in it. */
  ghost predicate RowsFit(tree: Tree) {
    forall t | t in tree.rows :: RowFits(t, tree.rows[t])
  }

  /** Two held rows never share a title. */
  lemma TitlesAreUnique(tree: Tree, t: string, u: string)
    requires RowsFit(tree) && t in tree.rows && u in tree.rows
    requires tree.rows[t].title.Some? && tree.rows[t].title == tree.rows[u].title
    ensures t == u
  {
    assert RowFits(t, tree.rows[t]) && RowFits(u, tree.rows[u]);
  }
}

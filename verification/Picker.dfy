/** Which names the picker may hand out, and the batch of spares a commit adds. */
module Picker {
  import opened Wrappers
  import opened Text
  import opened Edits
  import opened Rows
  import opened Registry

  /** Everything a pick depends on. `checked` holds the hand-added names that pass the static filters. */
  datatype Request = Request(
    generated: set<string>,
    manual: set<string>,
    checked: set<string>,
    held: set<string>,
    heldTitles: set<string>,
    stem: string,
    titlePrefix: string,
    minLength: int,
    maxLength: int,
    reservedWords: set<string>,
    denylist: set<string>,
    maxEditDistance: int)
  {
    function Database(): set<string> { generated + manual }
  }

  /** What this host knows besides the registry: the dictionary when loaded, the shipped non-names, its aliases. */
  datatype Vocabulary = Vocabulary(words: Option<set<string>>, nonNames: set<string>, aliases: set<string>)

  predicate PrefixPair(title: string, heldTitles: set<string>, stem: string) {
    exists held | held in heldTitles ::
      held != title && StartsWith(held, stem + "-") && (StartsWith(held, title) || StartsWith(title, held))
  }

  predicate NearHeld(name: string, held: set<string>) {
    exists token | token in held :: OneEditApart(name, token)
  }

  /** `name_candidates`: the name survives every filter. */
  predicate Candidate(request: Request, name: string) {
    && name in request.Database()
    && LowerWord(name)
    && request.minLength <= |name| <= request.maxLength
    && name !in request.denylist
    && (name !in request.generated ==> name in request.checked)
    && name !in request.held
    && !(request.maxEditDistance != 0 && NearHeld(name, request.held))
    && name !in request.reservedWords
    && !PrefixPair(request.titlePrefix + name, request.heldTitles, request.stem)
  }

  /** What `pick_name` may return: a candidate no other candidate is shorter than. */
  predicate Picked(request: Request, name: string) {
    && Candidate(request, name)
    && forall other | other in request.Database() && Candidate(request, other) :: |name| <= |other|
  }

  predicate Exhausted(request: Request) {
    forall name | name in request.Database() :: !Candidate(request, name)
  }

  /** `pick_name`, for any outcome of its random choice. */
  ghost predicate PickOutcome(request: Request, pick: Option<string>) {
    if pick.Some? then Picked(request, pick.value) else Exhausted(request)
  }

  predicate IsCommonWord(name: string, policy: Policy, words: set<string>) {
    name !in policy.keepNames && (name in words || name in policy.extraWords)
  }

  predicate PassesStatic(name: string, policy: Policy, words: set<string>, nonNames: set<string>) {
    && LowerWord(name)
    && policy.minLength <= |name| <= policy.maxLength
    && name !in policy.denylist
    && name !in nonNames
    && !IsCommonWord(name, policy, words)
  }

  /** The hand-added names a pick may use: none unless the dictionary is at hand. */
  function CheckedManual(tree: Tree, policy: Policy, vocabulary: Vocabulary): set<string> {
    if vocabulary.words.None? then {}
    else set n | n in tree.manual && PassesStatic(n, policy, vocabulary.words.value, vocabulary.nonNames)
  }

  function Generated(tree: Tree): set<string> {
    if tree.listing.Some? then tree.listing.value.names else {}
  }

  /** `pick_request`, for the tokens and titles of the rows plus those of the spool it was given. */
  function PickRequest(tree: Tree, policy: Policy, slot: Slot, vocabulary: Vocabulary, spool: map<string, Row>,
                       maxLength: Option<int>): Request {
    Request(Generated(tree), tree.manual.Keys, CheckedManual(tree, policy, vocabulary),
            tree.rows.Keys + spool.Keys,
            tree.HeldTitles() + (set t | t in spool && spool[t].title.Some? :: spool[t].title.value),
            slot.Stem(), slot.TitlePrefix(), policy.minLength,
            if maxLength.Some? && maxLength.value != 0 && maxLength.value < policy.maxLength then maxLength.value
            else policy.maxLength,
            vocabulary.aliases + {slot.repoAlias, slot.hostAlias}, policy.denylist, policy.maxEditDistance)
  }

  /** The request each spare is picked by: no titles, no shorter limit. */
  function SpareRequest(tree: Tree, policy: Policy, slot: Slot, vocabulary: Vocabulary, held: set<string>): Request {
    Request(Generated(tree), tree.manual.Keys, CheckedManual(tree, policy, vocabulary), held, {},
            slot.Stem(), slot.Stem() + "-", policy.minLength, policy.maxLength,
            vocabulary.aliases + {slot.repoAlias, slot.hostAlias}, policy.denylist, policy.maxEditDistance)
  }

  function Shortfall(tree: Tree, policy: Policy, machine: string): nat {
    var missing := policy.offlineSpares - |tree.SparesOf(machine)|;
    if missing > 0 then missing else 0
  }

  /** A name added by hand may be picked while the dictionary is at hand and no list of words speaks against it. */
  ghost predicate HandAddedPasses(policy: Policy, vocabulary: Vocabulary, name: string) {
    && vocabulary.words.Some? && name !in vocabulary.nonNames
    && (name in policy.keepNames || (name !in vocabulary.words.value && name !in policy.extraWords))
  }

  /**
   * A name a host may hand out, said of the database, the policy and what it knows: lower-case letters inside the
   * limits, on no list of words to avoid, neither held nor one edit from a held token, and generated, or added by hand
   * and passing.
   */
  ghost predicate Free(tree: Tree, policy: Policy, slot: Slot, vocabulary: Vocabulary, held: set<string>,
                       name: string) {
    && name != "" && (forall c | c in name :: 'a' <= c <= 'z')
    && policy.minLength <= |name| <= policy.maxLength
    && name !in policy.denylist && name !in vocabulary.aliases && name != slot.repoAlias && name != slot.hostAlias
    && name !in held
    && (policy.maxEditDistance != 0 ==> forall token | token in held :: !OneEditApart(name, token))
    && (|| (tree.listing.Some? && name in tree.listing.value.names)
        || (name in tree.manual && HandAddedPasses(policy, vocabulary, name)))
  }

  /** One of two different titles of one stem starts with the other. */
  ghost predicate Clash(own: string, other: Option<string>, stem: string) {
    other.Some? && other.value != own && stem + "-" <= other.value && (other.value <= own || own <= other.value)
  }

  /** A free name for this slot: within the length asked for, and its title clashes with none held or spooled. */
  ghost predicate FreeFor(tree: Tree, policy: Policy, slot: Slot, vocabulary: Vocabulary, spool: map<string, Row>,
                          maxLength: Option<int>, name: string) {
    && Free(tree, policy, slot, vocabulary, tree.rows.Keys + spool.Keys, name)
    && (maxLength.Some? && maxLength.value != 0 ==> |name| <= maxLength.value)
    && (forall t | t in tree.rows :: !Clash(slot.TitleFor(name), tree.rows[t].title, slot.Stem()))
    && (forall t | t in spool :: !Clash(slot.TitleFor(name), spool[t].title, slot.Stem()))
  }

  lemma CandidateIff(tree: Tree, policy: Policy, slot: Slot, vocabulary: Vocabulary, spool: map<string, Row>,
                     maxLength: Option<int>, name: string)
    ensures Candidate(PickRequest(tree, policy, slot, vocabulary, spool, maxLength), name)
            <==> FreeFor(tree, policy, slot, vocabulary, spool, maxLength, name)
  {
    hide OneEditApart;
    var request := PickRequest(tree, policy, slot, vocabulary, spool, maxLength);
    var own := request.titlePrefix + name;
    assert own == slot.TitleFor(name);
    forall t | t in tree.rows && tree.rows[t].title.Some? ensures tree.rows[t].title.value in request.heldTitles {
      assert tree.rows[t].title.value in tree.HeldTitles();
    }
    forall t | t in spool && spool[t].title.Some? ensures spool[t].title.value in request.heldTitles {
    }
    assert PrefixPair(own, request.heldTitles, request.stem)
      <==> exists other | other in request.heldTitles :: Clash(own, Some(other), slot.Stem());
  }

  lemma SpareCandidateIff(tree: Tree, policy: Policy, slot: Slot, vocabulary: Vocabulary, held: set<string>,
                          name: string)
    ensures Candidate(SpareRequest(tree, policy, slot, vocabulary, held), name)
            <==> Free(tree, policy, slot, vocabulary, held, name)
  {
    hide OneEditApart;
  }

  /** What `pick_name` returns for a reservation: a free name no other free one is shorter than, or none if none is. */
  lemma PickIff(tree: Tree, policy: Policy, slot: Slot, vocabulary: Vocabulary, spool: map<string, Row>,
                maxLength: Option<int>, pick: Option<string>)
    ensures PickOutcome(PickRequest(tree, policy, slot, vocabulary, spool, maxLength), pick)
            <==> if pick.Some? then
                   && FreeFor(tree, policy, slot, vocabulary, spool, maxLength, pick.value)
                   && forall other | FreeFor(tree, policy, slot, vocabulary, spool, maxLength, other) ::
                        |pick.value| <= |other|
                 else forall name :: !FreeFor(tree, policy, slot, vocabulary, spool, maxLength, name)
  {
    hide Candidate, FreeFor;
    var request := PickRequest(tree, policy, slot, vocabulary, spool, maxLength);
    forall name
      ensures Candidate(request, name) <==> FreeFor(tree, policy, slot, vocabulary, spool, maxLength, name)
      ensures Candidate(request, name) ==> name in request.Database()
    {
      CandidateIff(tree, policy, slot, vocabulary, spool, maxLength, name);
      CandidateIsKnown(request, name);
    }
  }

  lemma CandidateIsKnown(request: Request, name: string)
    ensures Candidate(request, name) ==> name in request.Database()
  {
  }

  /** Each name is picked with the ones before it held. */
  ghost predicate EachPicked(tree: Tree, policy: Policy, slot: Slot, vocabulary: Vocabulary, held: set<string>,
                             added: seq<string>) {
    forall i | 0 <= i < |added| ::
      Picked(SpareRequest(tree, policy, slot, vocabulary, held + Elements(added[..i])), added[i])
  }

  lemma OneMorePicked(tree: Tree, policy: Policy, slot: Slot, vocabulary: Vocabulary, held: set<string>,
                      added: seq<string>, name: string)
    requires EachPicked(tree, policy, slot, vocabulary, held, added)
    requires Picked(SpareRequest(tree, policy, slot, vocabulary, held + Elements(added)), name)
    ensures EachPicked(tree, policy, slot, vocabulary, held, added + [name])
  {
    var longer := added + [name];
    forall i | 0 <= i < |longer|
      ensures Picked(SpareRequest(tree, policy, slot, vocabulary, held + Elements(longer[..i])), longer[i])
    {
      assert longer[..i] == added[..i];
      assert added[..|added|] == added;
    }
  }

  /**
   * A batch `_spare_writes` may add: each name picked with the earlier ones held, as many as are missing,
   * fewer only when the pool runs out.
   */
  ghost predicate SpareBatch(tree: Tree, policy: Policy, slot: Slot, vocabulary: Vocabulary, held: set<string>,
                             added: seq<string>) {
    && |added| <= Shortfall(tree, policy, slot.machine)
    && EachPicked(tree, policy, slot, vocabulary, held, added)
    && (|added| < Shortfall(tree, policy, slot.machine) ==>
          Exhausted(SpareRequest(tree, policy, slot, vocabulary, held + Elements(added))))
  }

  /**
   * A batch of spares: each name free, with the earlier ones held too, and no free one shorter; as many as are missing,
   * unless no free name is left.
   */
  lemma SpareBatchIff(tree: Tree, policy: Policy, slot: Slot, vocabulary: Vocabulary, held: set<string>,
                      added: seq<string>)
    ensures SpareBatch(tree, policy, slot, vocabulary, held, added)
            <==> (&& |added| <= Shortfall(tree, policy, slot.machine)
                  && (forall i | 0 <= i < |added| ::
                        ShortestFree(tree, policy, slot, vocabulary, held + Elements(added[..i]), added[i]))
                  && (|added| < Shortfall(tree, policy, slot.machine) ==>
                        forall name :: !Free(tree, policy, slot, vocabulary, held + Elements(added), name)))
  {
    hide Candidate, Free;
    forall i | 0 <= i < |added|
      ensures Picked(SpareRequest(tree, policy, slot, vocabulary, held + Elements(added[..i])), added[i])
              <==> ShortestFree(tree, policy, slot, vocabulary, held + Elements(added[..i]), added[i])
    {
      SparePickIff(tree, policy, slot, vocabulary, held + Elements(added[..i]), added[i]);
    }
    SpareExhaustedIff(tree, policy, slot, vocabulary, held + Elements(added));
  }

  ghost predicate ShortestFree(tree: Tree, policy: Policy, slot: Slot, vocabulary: Vocabulary, held: set<string>,
                               name: string) {
    && Free(tree, policy, slot, vocabulary, held, name)
    && forall other | Free(tree, policy, slot, vocabulary, held, other) :: |name| <= |other|
  }

  lemma SparePickIff(tree: Tree, policy: Policy, slot: Slot, vocabulary: Vocabulary, held: set<string>, name: string)
    ensures Picked(SpareRequest(tree, policy, slot, vocabulary, held), name)
            <==> ShortestFree(tree, policy, slot, vocabulary, held, name)
  {
    hide Candidate, Free;
    var request := SpareRequest(tree, policy, slot, vocabulary, held);
    forall other
      ensures Candidate(request, other) <==> Free(tree, policy, slot, vocabulary, held, other)
      ensures Candidate(request, other) ==> other in request.Database()
    {
      SpareCandidateIff(tree, policy, slot, vocabulary, held, other);
      CandidateIsKnown(request, other);
    }
  }

  lemma SpareExhaustedIff(tree: Tree, policy: Policy, slot: Slot, vocabulary: Vocabulary, held: set<string>)
    ensures Exhausted(SpareRequest(tree, policy, slot, vocabulary, held))
            <==> forall name :: !Free(tree, policy, slot, vocabulary, held, name)
  {
    hide Candidate, Free;
    var request := SpareRequest(tree, policy, slot, vocabulary, held);
    forall other
      ensures Candidate(request, other) <==> Free(tree, policy, slot, vocabulary, held, other)
      ensures Candidate(request, other) ==> other in request.Database()
    {
      SpareCandidateIff(tree, policy, slot, vocabulary, held, other);
      CandidateIsKnown(request, other);
    }
  }

  /** The rows a batch writes. */
  function SpareRows(slot: Slot, added: seq<string>, now: string): (r: map<string, Option<Row>>)
    ensures r.Keys == Elements(added)
  {
    if added == [] then map[] else map t | t in added :: Some(SpareRow(t, slot.hostAlias, slot.machine, now))
  }

  /** The first name of a batch whose row breaks its invariants, as a problem. */
  function FirstBadSpare(slot: Slot, spares: seq<string>, now: string): (r: Option<Problem>)
    ensures r.None? <==> AllValid(SpareRows(slot, spares, now))
  {
    if spares == [] then None
    else
      var problem := RowProblem(SpareRow(spares[0], slot.hostAlias, slot.machine, now));
      assert spares[0] in SpareRows(slot, spares, now);
      assert forall t :: t in spares <==> t == spares[0] || t in spares[1..];
      assert forall t | t in spares[1..] :: SpareRows(slot, spares, now)[t] == SpareRows(slot, spares[1..], now)[t];
      if problem.Some? then problem else FirstBadSpare(slot, spares[1..], now)
  }

  /** Every write puts a valid row in place. */
  predicate AllValid(writes: map<string, Option<Row>>) {
    forall t | t in writes :: writes[t].Some? && RowProblem(writes[t].value).None?
  }

  /** The next name picked after `added` makes a row that breaks its invariants. */
  ghost predicate RefusedAt(tree: Tree, policy: Policy, slot: Slot, vocabulary: Vocabulary, held: set<string>,
                            added: seq<string>, now: string, problem: Problem) {
    exists name :: Picked(SpareRequest(tree, policy, slot, vocabulary, held + Elements(added)), name)
                   && RowProblem(SpareRow(name, slot.hostAlias, slot.machine, now)) == Some(problem)
  }

  /** `_spare_writes`. The random choice is any picked name; a row that breaks its invariants refuses the commit. */
  method SpareWrites(tree: Tree, policy: Policy, slot: Slot, vocabulary: Vocabulary, held: set<string>, now: string)
    returns (writes: map<string, Option<Row>>, added: seq<string>, refusal: Option<Refusal>)
    ensures refusal.None? ==> SpareBatch(tree, policy, slot, vocabulary, held, added)
    ensures refusal.None? ==> Shortfall(tree, policy, slot.machine) == 0 || Generated(tree) != {}
    ensures writes == SpareRows(slot, added, now) && AllValid(writes)
    ensures EachPicked(tree, policy, slot, vocabulary, held, added)
    ensures refusal == Some(NoNameList) ==> Shortfall(tree, policy, slot.machine) > 0 && Generated(tree) == {}
    ensures refusal.Some? && refusal != Some(NoNameList) ==>
              refusal.value.BadRow?
              && RefusedAt(tree, policy, slot, vocabulary, held, added, now, refusal.value.problem)
  {
    writes, added, refusal := map[], [], None;
    var shortfall := Shortfall(tree, policy, slot.machine);
    if shortfall > 0 && Generated(tree) == {} {
      refusal := Some(NoNameList);
      return;
    }
    while |added| < shortfall
      invariant |added| <= shortfall && refusal.None?
      invariant EachPicked(tree, policy, slot, vocabulary, held, added)
      invariant writes == SpareRows(slot, added, now) && AllValid(writes)
      decreases shortfall - |added|
    {
      var request := SpareRequest(tree, policy, slot, vocabulary, held + Elements(added));
      if Exhausted(request) {
        return;
      }
      ShortestExists(request);
      var name :| name in request.Database() && Picked(request, name);
      var row := SpareRow(name, slot.hostAlias, slot.machine, now);
      var problem := RowProblem(row);
      if problem.Some? {
        assert RefusedAt(tree, policy, slot, vocabulary, held, added, now, problem.value);
        refusal := Some(BadRow(problem.value));
        return;
      }
      OneMorePicked(tree, policy, slot, vocabulary, held, added, name);
      OneMoreRow(slot, added, name, now);
      writes, added := writes[name := Some(row)], added + [name];
    }
  }

  lemma OneMoreRow(slot: Slot, added: seq<string>, name: string, now: string)
    ensures SpareRows(slot, added + [name], now)
            == SpareRows(slot, added, now)[name := Some(SpareRow(name, slot.hostAlias, slot.machine, now))]
  {
  }

  /** Whenever some candidate survives, a shortest one does. */
  lemma ShortestExists(request: Request)
    requires !Exhausted(request)
    ensures exists name :: name in request.Database() && Picked(request, name)
  {
    var name :| name in request.Database() && Candidate(request, name);
    ShortestFrom(request, name);
  }

  lemma {:induction false} ShortestFrom(request: Request, name: string)
    requires Candidate(request, name)
    ensures exists best :: best in request.Database() && Picked(request, best)
    decreases |name|
  {
    if !Picked(request, name) {
      var shorter :| shorter in request.Database() && Candidate(request, shorter) && |shorter| < |name|;
      ShortestFrom(request, shorter);
    }
  }

  /** Every name of a batch is free of the held tokens and of every other name in it. */
  lemma BatchIsFresh(tree: Tree, policy: Policy, slot: Slot, vocabulary: Vocabulary, held: set<string>,
                     added: seq<string>, i: nat)
    requires SpareBatch(tree, policy, slot, vocabulary, held, added) && i < |added|
    ensures LowerWord(added[i]) && added[i] !in held
    ensures policy.minLength <= |added[i]| <= policy.maxLength
    ensures policy.maxEditDistance != 0 ==> !NearHeld(added[i], held)
    ensures forall j | 0 <= j < i :: added[j] != added[i]
    ensures policy.maxEditDistance != 0 ==> forall j | 0 <= j < i :: !OneEditApart(added[i], added[j])
  {
    var request := SpareRequest(tree, policy, slot, vocabulary, held + Elements(added[..i]));
    assert Picked(request, added[i]);
    forall j | 0 <= j < i
      ensures added[j] != added[i]
      ensures policy.maxEditDistance != 0 ==> !OneEditApart(added[i], added[j])
    {
      assert added[..i][j] in Elements(added[..i]);
      assert added[j] in request.held;
    }
  }

  /** The tokens of a machine's spares. */
  ghost function SparesAt(rows: map<string, Row>, machine: string): set<string> {
    set t | t in rows && rows[t].kind.Spare? && rows[t].machine == Some(machine)
  }

  /**
   * A commit that leaves this machine's spares and the batch it adds: they never exceed what the policy asks for unless
   * they did before, and they reach it unless no free name is left.
   */
  ghost predicate ToppedUp(tree: Tree, policy: Policy, slot: Slot, vocabulary: Vocabulary, held: set<string>,
                           added: seq<string>, after: map<string, Row>) {
    var had, has := SparesAt(tree.rows, slot.machine), SparesAt(after, slot.machine);
    && has == had + Elements(added) && |has| == |had| + |added|
    && (|has| <= policy.offlineSpares || added == [])
    && (|has| < policy.offlineSpares ==>
          forall name :: !Free(tree, policy, slot, vocabulary, held + Elements(added), name))
  }

  lemma OneMoreElement(front: seq<string>, last: string)
    ensures Elements(front + [last]) == Elements(front) + {last}
  {
  }

  lemma {:induction false} DistinctCount(tokens: set<string>, added: seq<string>)
    requires forall i | 0 <= i < |added| :: added[i] !in tokens
    requires forall i, j | 0 <= i < j < |added| :: added[i] != added[j]
    ensures |tokens + Elements(added)| == |tokens| + |added|
    decreases |added|
  {
    if added == [] {
      assert tokens + Elements(added) == tokens;
    } else {
      var front, last := added[..|added| - 1], added[|added| - 1];
      assert forall i | 0 <= i < |front| :: front[i] == added[i];
      DistinctCount(tokens, front);
      OneMoreElement(front, last);
      assert added == front + [last];
      assert tokens + Elements(added) == (tokens + Elements(front)) + {last};
      assert last !in front;
    }
  }

  lemma BatchTopsUp(tree: Tree, policy: Policy, slot: Slot, vocabulary: Vocabulary, held: set<string>,
                    added: seq<string>, after: map<string, Row>)
    requires SpareBatch(tree, policy, slot, vocabulary, held, added)
    requires forall t | t in tree.rows && IsSpareOf(tree.rows[t], slot.machine) :: t in held
    requires SparesAt(after, slot.machine) == SparesAt(tree.rows, slot.machine) + Elements(added)
    ensures ToppedUp(tree, policy, slot, vocabulary, held, added, after)
  {
    hide SpareBatch, Free, Exhausted;
    SpareBatchIff(tree, policy, slot, vocabulary, held, added);
    var had := SparesAt(tree.rows, slot.machine);
    assert had == tree.SparesOf(slot.machine);
    forall i | 0 <= i < |added| ensures added[i] !in had && forall j | 0 <= j < i :: added[j] != added[i] {
      BatchIsFresh(tree, policy, slot, vocabulary, held, added, i);
    }
    DistinctCount(had, added);
  }
}

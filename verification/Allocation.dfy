/** The guards that reserve names and edit the name database, each run whole on one snapshot. */
module Allocation {
  import opened Wrappers
  import opened Text
  import opened Edits
  import opened Rows
  import opened Registry
  import opened Picker

  /** `reserve_picked`'s guard, given the name its pick returned and the spares it topped up. */
  function ReservePicked(tree: Tree, slot: Slot, pick: Option<string>, tier: string, spares: seq<string>,
                         now: string): Build {
    if PublishedPolicy(tree).Err? then Refuse(PublishedPolicy(tree).why)
    else if tree.listing.value.names == {} then Refuse(NoNameList)
    else if pick.None? then Refuse(PoolExhausted)
    else
      var row := SessionRow(slot, pick.value, "picked", Some(tier), now);
      var writes := map[pick.value := Some(row)] + SpareRows(slot, spares, now);
      if RowProblem(row).Some? then Refuse(BadRow(RowProblem(row).value))
      else if FirstBadSpare(slot, spares, now).Some? then Refuse(BadRow(FirstBadSpare(slot, spares, now).value))
      else Write(RowChange(writes))
  }

  /** The choices `reserve_picked` can make on `tree`: any pick, then any batch with the picked name held too. */
  ghost predicate PickedChoices(tree: Tree, slot: Slot, vocabulary: Vocabulary, spool: map<string, Row>,
                                maxLength: Option<int>, pick: Option<string>, spares: seq<string>) {
    PublishedPolicy(tree).Ok? ==>
      var policy := PublishedPolicy(tree).value;
      var request := PickRequest(tree, policy, slot, vocabulary, spool, maxLength);
      && PickOutcome(request, pick)
      && (pick.Some? ==>
            SpareBatch(tree, policy, slot, vocabulary, request.held + {pick.value}, spares))
  }

  datatype Verdict = VerdictOk | VerdictUnknown | Refused(why: Refusal)

  predicate OutsideLimits(name: string, policy: Policy) {
    !LowerWord(name) || |name| > policy.maxLength || |name| < policy.minLength
  }

  /** `check_hand_chosen`: held, then confusable, then word, then unknown, then limits. */
  function CheckHandChosen(tree: Tree, policy: Policy, name: string, slot: Slot, words: set<string>): Verdict {
    if name in tree.rows then Refused(NameHeld)
    else if LowerWord(name) && policy.maxEditDistance != 0 && NearHeld(name, tree.rows.Keys) then
      Refused(NameConfusable)
    else if LowerWord(name) && PrefixPair(slot.TitleFor(name), tree.HeldTitles(), slot.Stem()) then
      Refused(NameConfusable)
    else if LowerWord(name) && IsCommonWord(name, policy, words) then Refused(NameIsWord)
    else if name !in tree.Available() then VerdictUnknown
    else if OutsideLimits(name, policy) then Refused(NameOutsideLimits)
    else VerdictOk
  }

  /** `reserve_hand_chosen`'s guard. */
  function ReserveHandChosen(tree: Tree, name: string, slot: Slot, add: bool, via: string, addedBy: string,
                             words: set<string>, now: string): Build {
    if PublishedPolicy(tree).Err? then Refuse(PublishedPolicy(tree).why)
    else
      var policy := PublishedPolicy(tree).value;
      var verdict := CheckHandChosen(tree, policy, name, slot, words);
      if verdict.Refused? then Refuse(verdict.why)
      else if verdict.VerdictUnknown? && !add then Refuse(NameUnknown)
      else if verdict.VerdictUnknown? && OutsideLimits(name, policy) then Refuse(NameOutsideLimits)
      else
        var row := SessionRow(slot, name, if verdict.VerdictUnknown? then "manual" else "custom", None, now);
        CheckedWrite(row, Change(map[name := Some(row)],
                                 if verdict.VerdictUnknown? then map[name := Some(ManualName(addedBy, via, None))]
                                 else map[], map[], None))
  }

  /** `reserve_label`'s guard: only the exact token is checked. */
  function ReserveLabel(tree: Tree, slot: Slot, text: string, now: string): Build {
    var token := LastSegment(text);
    if token in tree.rows then Refuse(NameHeld)
    else
      var row := LabelRow(slot, text, now);
      CheckedWrite(row, RowChange(map[token := Some(row)]))
  }

  /** `add_name`'s guard. */
  function AddName(tree: Tree, name: string, addedBy: string, reason: Option<string>, words: set<string>): Build {
    if PublishedPolicy(tree).Err? then Refuse(PublishedPolicy(tree).why)
    else
      var policy := PublishedPolicy(tree).value;
      if OutsideLimits(name, policy) then Refuse(NameOutsideLimits)
      else if IsCommonWord(name, policy, words) then Refuse(NameIsWord)
      else if name in tree.Available() then Skip
      else Write(Change(map[], map[name := Some(ManualName(addedBy, "add-name", reason))], map[], None))
  }

  /** `remove_name`'s guard. */
  function RemoveName(tree: Tree, name: string): Build {
    if name in tree.rows then Refuse(NameHeld)
    else if name in tree.manual then Write(Change(map[], map[name := None], map[], None))
    else if name in Generated(tree) then Refuse(NameGenerated)
    else Refuse(NameUnknown)
  }

  /** The rows a change writes are all new: none of their tokens was held. */
  ghost predicate OnlyNewRows(tree: Tree, change: Change) {
    forall t | t in change.rows :: t !in tree.rows && change.rows[t].Some? && RowFits(t, change.rows[t].value)
  }

  lemma SpareRowFits(name: string, hostAlias: string, machine: string, now: string)
    requires RowProblem(SpareRow(name, hostAlias, machine, now)).None?
    ensures RowFits(name, SpareRow(name, hostAlias, machine, now))
  {
  }

  lemma SessionRowFits(slot: Slot, name: string, source: string, tier: Option<string>, now: string)
    requires RowProblem(SessionRow(slot, name, source, tier, now)).None?
    ensures RowFits(name, SessionRow(slot, name, source, tier, now))
  {
    assert LowerWord(name);
    TitleForEndsInName(slot, name);
  }

  lemma LabelRowFits(slot: Slot, text: string, now: string)
    requires RowProblem(LabelRow(slot, text, now)).None?
    ensures RowFits(LastSegment(text), LabelRow(slot, text, now))
  {
    LastSegmentAfterHyphen(slot.Stem(), text);
  }

  lemma BatchRowsFit(tree: Tree, policy: Policy, slot: Slot, vocabulary: Vocabulary, held: set<string>,
                     spares: seq<string>, now: string)
    requires SpareBatch(tree, policy, slot, vocabulary, held, spares) && AllValid(SpareRows(slot, spares, now))
    ensures forall t | t in spares :: t !in held && RowFits(t, SpareRow(t, slot.hostAlias, slot.machine, now))
  {
    hide RowProblem, SpareBatch;
    forall t | t in spares ensures t !in held && RowFits(t, SpareRow(t, slot.hostAlias, slot.machine, now)) {
      var i :| 0 <= i < |spares| && spares[i] == t;
      BatchIsFresh(tree, policy, slot, vocabulary, held, spares, i);
      assert SpareRows(slot, spares, now)[t].value == SpareRow(t, slot.hostAlias, slot.machine, now);
      SpareRowFits(t, slot.hostAlias, slot.machine, now);
    }
  }

  /** Every row a reservation writes is new, valid and under its own token. */
  lemma ReservePickedIsNew(tree: Tree, slot: Slot, vocabulary: Vocabulary, spool: map<string, Row>,
                           maxLength: Option<int>, pick: Option<string>, tier: string,
                           spares: seq<string>, now: string)
    requires PickedChoices(tree, slot, vocabulary, spool, maxLength, pick, spares)
    requires ReservePicked(tree, slot, pick, tier, spares, now).Write?
    ensures OnlyNewRows(tree, ReservePicked(tree, slot, pick, tier, spares, now).change)
  {
    hide RowProblem, SpareBatch, SessionRow, SpareRow;
    var policy := PublishedPolicy(tree).value;
    var request := PickRequest(tree, policy, slot, vocabulary, spool, maxLength);
    SessionRowFits(slot, pick.value, "picked", Some(tier), now);
    BatchRowsFit(tree, policy, slot, vocabulary, request.held + {pick.value}, spares, now);
  }

  lemma HandChosenIsNew(tree: Tree, name: string, slot: Slot, add: bool, via: string, addedBy: string,
                        words: set<string>, now: string)
    requires ReserveHandChosen(tree, name, slot, add, via, addedBy, words, now).Write?
    ensures OnlyNewRows(tree, ReserveHandChosen(tree, name, slot, add, via, addedBy, words, now).change)
  {
    var policy := PublishedPolicy(tree).value;
    var verdict := CheckHandChosen(tree, policy, name, slot, words);
    SessionRowFits(slot, name, if verdict.VerdictUnknown? then "manual" else "custom", None, now);
  }

  lemma LabelIsNew(tree: Tree, slot: Slot, text: string, now: string)
    requires ReserveLabel(tree, slot, text, now).Write?
    ensures OnlyNewRows(tree, ReserveLabel(tree, slot, text, now).change)
  {
    LabelRowFits(slot, text, now);
  }

  /**
   * A reservation's commit: the picked name's session row, as many new spares as are missing, and nothing else. The
   * picked name is free for the slot and as short as any that is.
   */
  lemma ReservePickedSays(tree: Tree, slot: Slot, vocabulary: Vocabulary, spool: map<string, Row>,
                          maxLength: Option<int>, pick: Option<string>, tier: string, spares: seq<string>,
                          now: string, t: string)
    requires PickedChoices(tree, slot, vocabulary, spool, maxLength, pick, spares)
    requires ReservePicked(tree, slot, pick, tier, spares, now).Write?
    ensures PublishedPolicy(tree).Ok? && pick.Some?
    ensures
      var policy := PublishedPolicy(tree).value;
      var after := Apply(tree, ReservePicked(tree, slot, pick, tier, spares, now).change);
      && after == tree.(rows := after.rows)
      && Get(after.rows, t) == (if t == pick.value then Some(SessionRow(slot, t, "picked", Some(tier), now))
                                else if t in spares then Some(SpareRow(t, slot.hostAlias, slot.machine, now))
                                else Get(tree.rows, t))
      && FreeFor(tree, policy, slot, vocabulary, spool, maxLength, pick.value)
      && (forall other | FreeFor(tree, policy, slot, vocabulary, spool, maxLength, other) :: |pick.value| <= |other|)
  {
    hide RowProblem, SpareBatch, SessionRow, SpareRow, FreeFor, Candidate;
    hide ReservePicked, PublishedPolicy, Apply, PickOutcome;
    ReservePickedWrites(tree, slot, pick, tier, spares, now);
    var policy := PublishedPolicy(tree).value;
    PickIff(tree, policy, slot, vocabulary, spool, maxLength, pick);
    var writes := map[pick.value := Some(SessionRow(slot, pick.value, "picked", Some(tier), now))]
                  + SpareRows(slot, spares, now);
    ApplyRowChange(tree, writes);
    PickIsNoSpare(tree, policy, slot, vocabulary, PickRequest(tree, policy, slot, vocabulary, spool, maxLength).held,
                  pick.value, spares);
    assert t in spares <==> t in SpareRows(slot, spares, now);
  }

  /** Without a policy, a list or a free name, a reservation is refused, for the first of these it lacks. */
  lemma ReservePickedRefuses(tree: Tree, slot: Slot, pick: Option<string>, tier: string, spares: seq<string>,
                             now: string)
    ensures
      var build := ReservePicked(tree, slot, pick, tier, spares, now);
      && !build.Skip?
      && (PublishedPolicy(tree).Err? ==> build == Refuse(PublishedPolicy(tree).why))
      && (PublishedPolicy(tree).Ok? && tree.listing.value.names == {} ==> build == Refuse(NoNameList))
      && (PublishedPolicy(tree).Ok? && tree.listing.value.names != {} ==>
            && (build == Refuse(PoolExhausted) <==> pick.None?)
            && (build.Write?
                <==> (&& pick.Some? && RowProblem(SessionRow(slot, pick.value, "picked", Some(tier), now)).None?
                      && forall t | t in spares :: RowProblem(SpareRow(t, slot.hostAlias, slot.machine, now)).None?)))
  {
    hide RowProblem, SessionRow, SpareRow, PublishedPolicy;
    assert forall t | t in spares :: t in SpareRows(slot, spares, now);
  }

  lemma PickIsNoSpare(tree: Tree, policy: Policy, slot: Slot, vocabulary: Vocabulary, held: set<string>, pick: string,
                      spares: seq<string>)
    requires SpareBatch(tree, policy, slot, vocabulary, held + {pick}, spares)
    ensures pick !in spares && forall t | t in spares :: t !in held
  {
    hide SpareBatch;
    forall i | 0 <= i < |spares| ensures spares[i] !in held + {pick} {
      BatchIsFresh(tree, policy, slot, vocabulary, held + {pick}, spares, i);
    }
  }

  /** It tops this machine's spares up. */
  lemma ReservationTopsUp(tree: Tree, slot: Slot, vocabulary: Vocabulary, spool: map<string, Row>,
                          maxLength: Option<int>, pick: Option<string>, tier: string, spares: seq<string>, now: string)
    requires PickedChoices(tree, slot, vocabulary, spool, maxLength, pick, spares)
    requires ReservePicked(tree, slot, pick, tier, spares, now).Write?
    ensures PublishedPolicy(tree).Ok? && pick.Some?
    ensures ToppedUp(tree, PublishedPolicy(tree).value, slot, vocabulary, tree.rows.Keys + spool.Keys + {pick.value},
                     spares, Apply(tree, ReservePicked(tree, slot, pick, tier, spares, now).change).rows)
  {
    hide RowProblem, SpareBatch, FreeFor, Candidate, ToppedUp, Apply, ReservePicked, PublishedPolicy, Exhausted;
    ReservePickedWrites(tree, slot, pick, tier, spares, now);
    var policy, held := PublishedPolicy(tree).value, tree.rows.Keys + spool.Keys + {pick.value};
    var after := Apply(tree, ReservePicked(tree, slot, pick, tier, spares, now).change).rows;
    PickIsNoSpare(tree, policy, slot, vocabulary, tree.rows.Keys + spool.Keys, pick.value, spares);
    PickIff(tree, policy, slot, vocabulary, spool, maxLength, pick);
    assert pick.value !in tree.rows by { FreeIsNotHeld(tree, policy, slot, vocabulary, spool, maxLength, pick.value); }
    forall t
      ensures t in SparesAt(after, slot.machine) <==> t in SparesAt(tree.rows, slot.machine) + Elements(spares)
    {
      ReservePickedSays(tree, slot, vocabulary, spool, maxLength, pick, tier, spares, now, t);
    }
    BatchTopsUp(tree, policy, slot, vocabulary, held, spares, after);
  }

  lemma FreeIsNotHeld(tree: Tree, policy: Policy, slot: Slot, vocabulary: Vocabulary, spool: map<string, Row>,
                      maxLength: Option<int>, name: string)
    ensures FreeFor(tree, policy, slot, vocabulary, spool, maxLength, name) ==> name !in tree.rows
  {
  }

  lemma ReservePickedWrites(tree: Tree, slot: Slot, pick: Option<string>, tier: string, spares: seq<string>,
                            now: string)
    requires ReservePicked(tree, slot, pick, tier, spares, now).Write?
    ensures PublishedPolicy(tree).Ok? && pick.Some?
    ensures ReservePicked(tree, slot, pick, tier, spares, now).change
            == RowChange(map[pick.value := Some(SessionRow(slot, pick.value, "picked", Some(tier), now))]
                         + SpareRows(slot, spares, now))
  {
    hide RowProblem, SessionRow, PublishedPolicy;
  }

  /** An ordinary word, which a name chosen by hand may not be unless the policy keeps it. */
  ghost predicate OrdinaryWord(name: string, policy: Policy, words: set<string>) {
    (name in words || name in policy.extraWords) && !(name in policy.keepNames)
  }

  ghost predicate InLimits(name: string, policy: Policy) {
    && name != "" && (forall c | c in name :: 'a' <= c <= 'z')
    && policy.minLength <= |name| <= policy.maxLength
  }

  /** Nothing held stands in the way of this name for this slot: not itself, no near token, no clashing title. */
  ghost predicate NothingInTheWay(tree: Tree, policy: Policy, slot: Slot, name: string) {
    && name !in tree.rows
    && (policy.maxEditDistance != 0 ==> forall token | token in tree.rows :: !OneEditApart(name, token))
    && forall t | t in tree.rows :: !Clash(slot.TitleFor(name), tree.rows[t].title, slot.Stem())
  }

  lemma TitlesClear(tree: Tree, slot: Slot, name: string)
    ensures PrefixPair(slot.TitleFor(name), tree.HeldTitles(), slot.Stem())
            <==> exists t | t in tree.rows :: Clash(slot.TitleFor(name), tree.rows[t].title, slot.Stem())
  {
    forall t | t in tree.rows && tree.rows[t].title.Some? ensures tree.rows[t].title.value in tree.HeldTitles() {
    }
  }

  /** A name chosen by hand is accepted exactly when nothing is in its way, it is no ordinary word, and it is known. */
  lemma CheckHandChosenIff(tree: Tree, policy: Policy, name: string, slot: Slot, words: set<string>)
    ensures
      var clear := NothingInTheWay(tree, policy, slot, name) && !OrdinaryWord(name, policy, words);
      var known := (tree.listing.Some? && name in tree.listing.value.names) || name in tree.manual;
      var verdict := CheckHandChosen(tree, policy, name, slot, words);
      && (verdict.VerdictOk? <==> clear && known && InLimits(name, policy))
      && (verdict.VerdictUnknown? && InLimits(name, policy) <==> clear && !known && InLimits(name, policy))
      && (name in tree.rows ==> verdict == Refused(NameHeld))
  {
    hide OneEditApart;
    TitlesClear(tree, slot, name);
    hide PrefixPair, Clash;
  }

  /** Why a name chosen by hand is refused: held, too near or clashing, a word; then unknown, then the limits. */
  lemma CheckHandChosenSays(tree: Tree, policy: Policy, name: string, slot: Slot, words: set<string>)
    ensures
      var lower := name != "" && forall c | c in name :: 'a' <= c <= 'z';
      var near := policy.maxEditDistance != 0 && exists token | token in tree.rows :: OneEditApart(name, token);
      var clash := exists t | t in tree.rows :: Clash(slot.TitleFor(name), tree.rows[t].title, slot.Stem());
      var known := (tree.listing.Some? && name in tree.listing.value.names) || name in tree.manual;
      CheckHandChosen(tree, policy, name, slot, words)
      == if name in tree.rows then Refused(NameHeld)
         else if lower && (near || clash) then Refused(NameConfusable)
         else if lower && OrdinaryWord(name, policy, words) then Refused(NameIsWord)
         else if !known then VerdictUnknown
         else if !InLimits(name, policy) then Refused(NameOutsideLimits)
         else VerdictOk
  {
    hide OneEditApart;
    TitlesClear(tree, slot, name);
    hide PrefixPair, Clash;
  }

  /** Whatever refuses a hand-chosen reservation is given as its reason, the policy first and a bad row last. */
  lemma ReserveHandChosenRefuses(tree: Tree, name: string, slot: Slot, add: bool, via: string, addedBy: string,
                                 words: set<string>, now: string)
    ensures
      var build := ReserveHandChosen(tree, name, slot, add, via, addedBy, words, now);
      && (PublishedPolicy(tree).Err? ==> build == Refuse(PublishedPolicy(tree).why))
      && (PublishedPolicy(tree).Ok? ==>
            var policy := PublishedPolicy(tree).value;
            var verdict := CheckHandChosen(tree, policy, name, slot, words);
            && (verdict.Refused? ==> build == Refuse(verdict.why))
            && (verdict.VerdictUnknown? && !add ==> build == Refuse(NameUnknown))
            && (verdict.VerdictUnknown? && add && !InLimits(name, policy) ==> build == Refuse(NameOutsideLimits)))
  {
    hide RowProblem, SessionRow, CheckHandChosen, PublishedPolicy;
    if PublishedPolicy(tree).Ok? {
      OutsideIff(name, PublishedPolicy(tree).value);
    }
  }

  /**
   * A hand-chosen reservation writes exactly when the name may be used and its row is valid: the session row, and, for
   * a name the database lacks and the caller adds, that name's record.
   */
  lemma ReserveHandChosenIff(tree: Tree, name: string, slot: Slot, add: bool, via: string, addedBy: string,
                             words: set<string>, now: string)
    ensures
      var build := ReserveHandChosen(tree, name, slot, add, via, addedBy, words, now);
      var known := (tree.listing.Some? && name in tree.listing.value.names) || name in tree.manual;
      var row := SessionRow(slot, name, if known then "custom" else "manual", None, now);
      && (build.Write?
          <==> (&& PublishedPolicy(tree).Ok?
                && var policy := PublishedPolicy(tree).value;
                   && NothingInTheWay(tree, policy, slot, name) && !OrdinaryWord(name, policy, words)
                   && InLimits(name, policy) && (known || add) && RowProblem(row).None?))
      && (build.Write? ==>
            Apply(tree, build.change)
            == tree.(rows := tree.rows[name := row],
                     manual := if known then tree.manual else tree.manual[name := ManualName(addedBy, via, None)]))
      && !build.Skip?
  {
    hide RowProblem, SessionRow, NothingInTheWay, CheckHandChosen, OrdinaryWord, PublishedPolicy;
    if PublishedPolicy(tree).Ok? {
      CheckHandChosenIff(tree, PublishedPolicy(tree).value, name, slot, words);
      OutsideIff(name, PublishedPolicy(tree).value);
      VerdictKnows(tree, PublishedPolicy(tree).value, name, slot, words);
      var known := name in tree.Available();
      ReservedTree(tree, name, SessionRow(slot, name, if known then "custom" else "manual", None, now), known,
                   ManualName(addedBy, via, None));
      hide Apply;
    }
  }

  lemma ReservedTree(tree: Tree, name: string, row: Row, known: bool, record: ManualName)
    ensures Apply(tree, Change(map[name := Some(row)], if known then map[] else map[name := Some(record)], map[], None))
            == tree.(rows := tree.rows[name := row],
                     manual := if known then tree.manual else tree.manual[name := record])
  {
    assert Written(tree.rows, map[name := Some(row)]) == tree.rows[name := row];
    assert Written(tree.manual, map[name := Some(record)]) == tree.manual[name := record];
    WrittenNothing(tree.manual);
    WrittenNothing(tree.migrations);
  }

  lemma OutsideIff(name: string, policy: Policy)
    ensures OutsideLimits(name, policy) <==> !InLimits(name, policy)
  {
  }

  lemma VerdictKnows(tree: Tree, policy: Policy, name: string, slot: Slot, words: set<string>)
    ensures
      var verdict := CheckHandChosen(tree, policy, name, slot, words);
      var known := (tree.listing.Some? && name in tree.listing.value.names) || name in tree.manual;
      (verdict.VerdictUnknown? ==> !known) && (verdict.VerdictOk? ==> known)
  {
    hide OneEditApart, PrefixPair;
  }

  /** Adding a name by hand: written when it is new, in the limits and no ordinary word, and then it is available. */
  lemma AddNameIff(tree: Tree, name: string, addedBy: string, reason: Option<string>, words: set<string>)
    ensures
      var build := AddName(tree, name, addedBy, reason, words);
      var known := (tree.listing.Some? && name in tree.listing.value.names) || name in tree.manual;
      var allowed := PublishedPolicy(tree).Ok? && InLimits(name, PublishedPolicy(tree).value)
                     && !OrdinaryWord(name, PublishedPolicy(tree).value, words);
      && (build.Write? <==> allowed && !known) && (build.Skip? <==> allowed && known)
      && (PublishedPolicy(tree).Err? ==> build == Refuse(PublishedPolicy(tree).why))
      && (PublishedPolicy(tree).Ok? && !allowed ==>
            build == Refuse(if InLimits(name, PublishedPolicy(tree).value) then NameIsWord else NameOutsideLimits))
      && (build.Write? ==>
            && Apply(tree, build.change)
               == tree.(manual := tree.manual[name := ManualName(addedBy, "add-name", reason)])
            && name in Apply(tree, build.change).Available())
  {
    hide PublishedPolicy;
    var build := AddName(tree, name, addedBy, reason, words);
    if build.Write? {
      assert Written(tree.manual, build.change.manual)
          == tree.manual[name := ManualName(addedBy, "add-name", reason)];
      WrittenNothing(tree.rows);
      WrittenNothing(tree.migrations);
    }
  }

  /** Removing a name: written when it was added by hand and nobody holds it, and then its record is gone. */
  lemma RemoveNameIff(tree: Tree, name: string)
    ensures
      var build := RemoveName(tree, name);
      && (build.Write? <==> name in tree.manual && name !in tree.rows) && !build.Skip?
      && (build == Refuse(NameHeld) <==> name in tree.rows)
      && (build == Refuse(NameGenerated)
          <==> (&& name !in tree.rows && name !in tree.manual
                && tree.listing.Some? && name in tree.listing.value.names))
      && (build.Refuse? ==> build.why in {NameHeld, NameGenerated, NameUnknown})
      && (build.Write? ==> Apply(tree, build.change) == tree.(manual := tree.manual - {name}))
  {
    var build := RemoveName(tree, name);
    if build.Write? {
      assert Written(tree.manual, build.change.manual) == tree.manual - {name};
      WrittenNothing(tree.rows);
      WrittenNothing(tree.migrations);
    }
  }

  /** A dropped label is reserved when nobody holds its last token and its row is valid. */
  lemma ReserveLabelIff(tree: Tree, slot: Slot, text: string, now: string)
    ensures
      var build, token, row := ReserveLabel(tree, slot, text, now), LastSegment(text), LabelRow(slot, text, now);
      && (build.Write? <==> token !in tree.rows && RowProblem(row).None?) && !build.Skip?
      && (token in tree.rows ==> build == Refuse(NameHeld))
      && (build.Write? ==> Apply(tree, build.change) == tree.(rows := tree.rows[token := row]))
  {
    hide RowProblem, LabelRow;
    var build, token := ReserveLabel(tree, slot, text, now), LastSegment(text);
    if build.Write? {
      ApplyRowChange(tree, build.change.rows);
      assert Written(tree.rows, build.change.rows) == tree.rows[token := LabelRow(slot, text, now)];
    }
  }
}

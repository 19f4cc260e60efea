/** Offline launches: taking a spare from the last fetched tip, and publishing what was taken. */
module Spool {
  import opened Wrappers
  import opened StringOrder
  import opened Rows
  import opened Registry

  /** The guard `publish_spool` runs for one spool entry. */
  function PublishEntry(tip: Tree, machine: string, token: string, activation: Row): Build {
    if token in tip.rows && tip.rows[token] == activation then Skip
    else if token !in tip.rows || !IsSpareOf(tip.rows[token], machine) then Refuse(NotASpare)
    else if !OnlyActivationDiffers(tip.rows[token], activation) then Refuse(RowChanged)
    else CheckedWrite(activation, RowChange(map[token := Some(activation)]))
  }

  /** What a spool entry must find on the tip to be published: its own activation, or the spare it activates. */
  ghost predicate Publishable(tip: Tree, machine: string, token: string, activation: Row) {
    && token in tip.rows
    && RowProblem(activation).None?
    && (|| tip.rows[token] == activation
        || (IsSpareOf(tip.rows[token], machine) && OnlyActivationDiffers(tip.rows[token], activation)))
  }

  /** Publishing an entry refuses exactly when another writer changed its row; otherwise the row becomes the entry. */
  lemma PublishOutcome(tip: Tree, machine: string, token: string, activation: Row)
    requires RowProblem(activation).None?
    ensures PublishEntry(tip, machine, token, activation).Refuse? <==> !Publishable(tip, machine, token, activation)
    ensures PublishEntry(tip, machine, token, activation).Write? ==>
              Apply(tip, PublishEntry(tip, machine, token, activation).change)
              == tip.(rows := tip.rows[token := activation])
    ensures PublishEntry(tip, machine, token, activation).Skip? <==> Get(tip.rows, token) == Some(activation)
  {
    var writes := map[token := Some(activation)];
    ApplyRowChange(tip, writes);
    assert Written(tip.rows, writes) == tip.rows[token := activation];
  }

  /** The spares an offline launch may take: this machine's, in the view it last fetched, not already in its spool. */
  function FreeSpares(view: Tree, machine: string, spool: map<string, Row>): set<string> {
    set t | t in view.rows && IsSpareOf(view.rows[t], machine) && t !in spool
  }

  /** The spare an offline launch takes: the shortest free one, the first of them in order. */
  predicate FirstSpare(view: Tree, machine: string, spool: map<string, Row>, token: string) {
    && token in FreeSpares(view, machine, spool)
    && forall other | other in FreeSpares(view, machine, spool) :: ComesBefore(token, other)
  }

  /** It is a spare of this machine in the view, not spooled, shorter than any other, or as short and not after it. */
  lemma FirstSpareIff(view: Tree, machine: string, spool: map<string, Row>, token: string)
    ensures FirstSpare(view, machine, spool, token)
            <==> (&& token in view.rows && token !in spool
                  && view.rows[token].kind.Spare? && view.rows[token].machine == Some(machine)
                  && forall other | other in view.rows && other !in spool
                                    && view.rows[other].kind.Spare? && view.rows[other].machine == Some(machine) ::
                       |token| < |other| || (|token| == |other| && Precedes(token, other)))
  {
    hide Precedes;
    PrecedesTotal(token, token);
    assert forall other ::
        (other in FreeSpares(view, machine, spool)
         <==> other in view.rows && other !in spool && IsSpareOf(view.rows[other], machine));
  }

  /** The least token of a set. */
  method First(free: set<string>) returns (first: string)
    requires free != {}
    ensures first in free && forall other | other in free :: ComesBefore(first, other)
  {
    first :| first in free;
    PrecedesTotal(first, first);
    var todo := free - {first};
    while todo != {}
      invariant todo <= free && first in free - todo
      invariant forall other | other in free - todo :: ComesBefore(first, other)
      decreases todo
    {
      var t :| t in todo;
      PrecedesTotal(t, first);
      PrecedesTotal(t, t);
      if !ComesBefore(first, t) {
        forall other | other in free - todo ensures ComesBefore(t, other) {
          if |t| == |first| == |other| {
            PrecedesTransitive(t, first, other);
          }
        }
        first := t;
      }
      todo := todo - {t};
    }
  }

  /** The registry's ref, as one host sees it between its fetch and its push. */
  class SharedRef {
    var tip: Tree

    constructor (tip: Tree)
      ensures this.tip == tip
    {
      this.tip := tip;
    }
  }

  ghost predicate AllPublishable(tip: Tree, machine: string, spool: map<string, Row>) {
    forall t | t in spool :: Publishable(tip, machine, t, spool[t])
  }

  ghost predicate SubMap(part: map<string, Row>, whole: map<string, Row>) {
    part.Keys <= whole.Keys && forall t | t in part :: part[t] == whole[t]
  }

  lemma PushKeepsOverlay(tip: Tree, machine: string, spool: map<string, Row>, t: string)
    requires t in spool
    ensures tip.rows[t := spool[t]] + spool == tip.rows + spool
    ensures AllPublishable(tip, machine, spool) ==>
              AllPublishable(tip.(rows := tip.rows[t := spool[t]]), machine, spool)
  {
  }

  lemma UnlinkKeepsOverlay(rows: map<string, Row>, spool: map<string, Row>, t: string)
    requires t in spool && Get(rows, t) == Some(spool[t])
    ensures rows + (spool - {t}) == rows + spool
    ensures |spool - {t}| == |spool| - 1
  {
    assert (spool - {t}).Keys == spool.Keys - {t};
  }

  /** How a pass over the spool ends: done, stopped by a crash, or raised because another writer changed a row. */
  datatype Pass = Finished | Crashed | Raised(token: string, why: Refusal)

  /**
   * What an offline launch spools: this slot's session, titled for it, and, if the spare was valid, the row an online
   * launch would have reserved, but for what the spare's own reservation decided.
   */
  ghost predicate Activated(spare: Row, row: Row, slot: Slot, now: string) {
    && row.kind.Session? && row.repo == Some(slot.repo) && row.repoAlias == Some(slot.repoAlias)
    && row.labelText == slot.labelText && row.client == Some(slot.client) && row.activatedAt == Some(now)
    && TitledFor(row, slot, spare.token)
    && (RowProblem(spare).None? && spare.kind.Spare? ==>
          row == SessionRow(slot, spare.token, "spare", None, now).(
                   reservedAt := spare.reservedAt, hostAlias := spare.hostAlias, machine := spare.machine))
  }

  lemma TakenIsActivated(spare: Row, slot: Slot, now: string)
    ensures Activated(spare, Activate(spare, slot, now), slot, now)
  {
    hide RowProblem;
    SessionRowSays(slot, spare.token, "spare", None, now);
    if RowProblem(spare).None? && spare.kind.Spare? {
      ActivationIsReservation(spare, slot, now);
    }
  }

  /** One host: the tip it last fetched, and the activations it has not published yet. */
  class Host {
    const machine: string
    var view: Tree
    var spool: map<string, Row>

    constructor (machine: string, view: Tree)
      ensures this.machine == machine && this.view == view && spool == map[]
    {
      this.machine, this.view, this.spool := machine, view, map[];
    }

    /** `take_spare`, under the spool lock: refused when no spare is free or its activation breaks its invariants. */
    method TakeSpare(slot: Slot, now: string) returns (taken: Option<string>)
      modifies this`spool
      ensures taken.None? ==>
                && spool == old(spool)
                && forall t | FirstSpare(view, machine, spool, t) ::
                     RowProblem(Activate(view.rows[t], slot, now)).Some?
      ensures taken.Some? ==>
                && FirstSpare(view, machine, old(spool), taken.value)
                && spool == old(spool)[taken.value := Activate(view.rows[taken.value], slot, now)]
                && RowProblem(spool[taken.value]).None?
      ensures taken.Some? ==> Activated(view.rows[taken.value], spool[taken.value], slot, now)
    {
      var free := FreeSpares(view, machine, spool);
      if free == {} {
        return None;
      }
      var first := First(free);
      var row := Activate(view.rows[first], slot, now);
      if RowProblem(row).Some? {
        forall t | FirstSpare(view, machine, spool, t) ensures t == first {
          PrecedesTotal(t, first);
        }
        return None;
      }
      spool := spool[first := row];
      TakenIsActivated(view.rows[first], slot, now);
      return Some(first);
    }

    /**
     * `publish_spool`, under the spool lock, stopping after `effects` pushes and unlinks as a crash may.
     * Wherever it stops, the rows on the tip overlaid with the spool are what they were.
     */
    method PublishSpool(ref: SharedRef, effects: nat) returns (pass: Pass)
      requires forall t | t in spool :: RowProblem(spool[t]).None?
      modifies this`spool, ref
      ensures ref.tip == old(ref.tip).(rows := ref.tip.rows)
      ensures ref.tip.rows + spool == old(ref.tip.rows) + old(spool)
      ensures SubMap(spool, old(spool))
      ensures pass.Finished? ==> spool == map[]
      ensures pass.Raised? ==>
                pass.token in spool && !Publishable(ref.tip, machine, pass.token, spool[pass.token])
      ensures AllPublishable(old(ref.tip), machine, old(spool)) ==>
                !pass.Raised? && AllPublishable(ref.tip, machine, spool)
      ensures effects >= 2 * |old(spool)| ==> !pass.Crashed?
    {
      hide RowProblem, PublishEntry, Publishable, Apply;
      var left := effects;
      while spool != map[]
        invariant ref.tip == old(ref.tip).(rows := ref.tip.rows)
        invariant ref.tip.rows + spool == old(ref.tip.rows) + old(spool)
        invariant SubMap(spool, old(spool))
        invariant AllPublishable(old(ref.tip), machine, old(spool)) ==> AllPublishable(ref.tip, machine, spool)
        invariant effects >= 2 * |old(spool)| ==> left >= 2 * |spool|
        decreases |spool|
      {
        var t :| t in spool;
        var build := PublishEntry(ref.tip, machine, t, spool[t]);
        PublishOutcome(ref.tip, machine, t, spool[t]);
        if build.Refuse? {
          return Raised(t, build.why);
        }
        if build.Write? {
          if left == 0 {
            return Crashed;
          }
          PushKeepsOverlay(ref.tip, machine, spool, t);
          ref.tip, left := Apply(ref.tip, build.change), left - 1;
        }
        if left == 0 {
          return Crashed;
        }
        UnlinkKeepsOverlay(ref.tip.rows, spool, t);
        spool, left := spool - {t}, left - 1;
      }
      return Finished;
    }

    /** A pass cut short anywhere and then run again leaves the tree and the spool one uninterrupted pass leaves. */
    method PublishAgainAfterCrash(ref: SharedRef, crashAfter: nat) returns (pass: Pass)
      requires AllPublishable(ref.tip, machine, spool)
      modifies this`spool, ref
      ensures pass.Finished? && spool == map[]
      ensures ref.tip == old(ref.tip).(rows := old(ref.tip.rows) + old(spool))
    {
      hide RowProblem;
      pass := PublishSpool(ref, crashAfter);
      pass := PublishSpool(ref, 2 * |spool|);
    }
  }

  /** What `take_spare` spools is publishable on every tip that still holds the spare it took. */
  lemma TakenIsPublishable(tip: Tree, machine: string, spare: Row, slot: Slot, now: string)
    requires RowFits(spare.token, spare) && IsSpareOf(spare, machine)
    requires Get(tip.rows, spare.token) == Some(spare) && SlotStoresNoPath(slot, spare.token, now)
    ensures Publishable(tip, machine, spare.token, Activate(spare, slot, now))
    ensures RowFits(spare.token, Activate(spare, slot, now))
  {
    ActivationPasses(spare, slot, now);
  }
}

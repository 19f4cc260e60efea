/** Registry rows: their per-kind invariants, their builders, and what activating a spare changes. */
module Rows {
  import opened Wrappers
  import opened Text

  datatype Kind = Session | Spare | Label | OtherKind(text: string)
  datatype State = Active | MigrationIncomplete | OtherState(text: string)

  /** One artifact a failed rename left under its new title. */
  datatype Artifact = Artifact(kind: string, identifier: string)

  datatype Row = Row(
    schema: int,
    kind: Kind,
    name: Option<string>,
    token: string,
    title: Option<string>,
    repo: Option<string>,
    repoAlias: Option<string>,
    hostAlias: Option<string>,
    labelText: Option<string>,
    machine: Option<string>,
    client: Option<string>,
    source: Option<string>,
    tier: Option<string>,
    reservedAt: Option<string>,
    activatedAt: Option<string>,
    worktree: Option<string>,
    state: State,
    recovery: Option<seq<Artifact>>)

  const ROW_SCHEMA := 1
  const WORKTREE_DIR := ".worktrees"

  /** Why a row breaks its kind's invariants; `row_problem` reports the first that applies. */
  datatype Problem =
    | UnknownKind
    | UnknownSchema
    | BadToken
    | Missing(field: string)
    | Filled(field: string)
    | NameDiffersFromToken
    | SpareSource
    | UnknownState
    | RecoveryMismatch
    | NoReservedAt
    | AbsolutePath

  /** The first field this kind of row needs and `row` lacks. */
  function MissingField(row: Row): Option<string> {
    if row.kind.OtherKind? then None
    else if !row.kind.Label? && row.name.None? then Some("name")
    else if !row.kind.Spare? && row.title.None? then Some("title")
    else if !row.kind.Spare? && row.repo.None? then Some("repo")
    else if !row.kind.Spare? && row.repoAlias.None? then Some("repo_alias")
    else if row.hostAlias.None? then Some("host_alias")
    else if row.kind.Label? && row.labelText.None? then Some("label")
    else if row.machine.None? then Some("machine")
    else if !row.kind.Spare? && row.client.None? then Some("client")
    else if !row.kind.Label? && row.source.None? then Some("source")
    else if !row.kind.Spare? && row.activatedAt.None? then Some("activated_at")
    else None
  }

  /** The first field this kind of row must leave empty and `row` fills. */
  function ForbiddenField(row: Row): Option<string> {
    match row.kind
    case Spare =>
      if row.title.Some? then Some("title")
      else if row.repo.Some? then Some("repo")
      else if row.repoAlias.Some? then Some("repo_alias")
      else if row.labelText.Some? then Some("label")
      else if row.client.Some? then Some("client")
      else if row.tier.Some? then Some("tier")
      else if row.activatedAt.Some? then Some("activated_at")
      else if row.worktree.Some? then Some("worktree")
      else if row.recovery.Some? then Some("recovery")
      else None
    case Label =>
      if row.name.Some? then Some("name")
      else if row.tier.Some? then Some("tier")
      else None
    case _ => None
  }

  predicate IsPath(text: Option<string>) { text.Some? && IsAbsolutePath(text.value) }

  /** Some text value of the row is an absolute path. */
  predicate StoresPath(row: Row) {
    || IsAbsolutePath(row.token)
    || IsPath(row.name) || IsPath(row.title) || IsPath(row.repo) || IsPath(row.repoAlias)
    || IsPath(row.hostAlias) || IsPath(row.labelText) || IsPath(row.machine) || IsPath(row.client)
    || IsPath(row.source) || IsPath(row.tier) || IsPath(row.reservedAt) || IsPath(row.activatedAt)
    || IsPath(row.worktree)
  }

  predicate ValidToken(row: Row) {
    if row.kind.Label? then LabelWord(row.token) else LowerWord(row.token)
  }

  /** `row_problem`: the checks in the source's order. */
  function RowProblem(row: Row): Option<Problem> {
    var missing, filled := MissingField(row), ForbiddenField(row);
    if row.kind.OtherKind? then Some(UnknownKind)
    else if row.schema != ROW_SCHEMA then Some(UnknownSchema)
    else if !ValidToken(row) then Some(BadToken)
    else if missing.Some? then Some(Missing(missing.value))
    else if filled.Some? then Some(Filled(filled.value))
    else if !row.kind.Label? && row.name != Some(row.token) then Some(NameDiffersFromToken)
    else if row.kind.Spare? && row.source != Some("spare") then Some(SpareSource)
    else if row.state.OtherState? then Some(UnknownState)
    else if row.state.MigrationIncomplete? != row.recovery.Some? then Some(RecoveryMismatch)
    else if row.reservedAt.None? || row.reservedAt.value == "" then Some(NoReservedAt)
    else if StoresPath(row) then Some(AbsolutePath)
    else None
  }

  /** Where a new session's title comes from and who will hold its row. */
  datatype Slot = Slot(
    repo: string,
    repoAlias: string,
    hostAlias: string,
    labelText: Option<string>,
    machine: string,
    client: string,
    worktree: bool)
  {
    function Stem(): string { repoAlias + "-" + hostAlias }

    predicate Labelled() { labelText.Some? && labelText.value != "" }

    function TitlePrefix(): string {
      if Labelled() then Stem() + "-" + labelText.value + "-" else Stem() + "-"
    }

    function TitleFor(name: string): string { TitlePrefix() + name }

    function WorktreeFor(title: string): Option<string> {
      if worktree then Some(WORKTREE_DIR + "/" + title) else None
    }
  }

  lemma TitleForEndsInName(slot: Slot, name: string)
    requires '-' !in name
    ensures LastSegment(slot.TitleFor(name)) == name
  {
    var prefix := slot.TitlePrefix();
    assert slot.TitleFor(name) == prefix[..|prefix| - 1] + "-" + name;
    LastSegmentAfterHyphen(prefix[..|prefix| - 1], name);
    LastSegmentOfWhole(name);
  }

  function SessionRow(slot: Slot, name: string, source: string, tier: Option<string>, now: string): Row {
    var title := slot.TitleFor(name);
    Row(ROW_SCHEMA, Session, Some(name), name, Some(title), Some(slot.repo), Some(slot.repoAlias),
        Some(slot.hostAlias), slot.labelText, Some(slot.machine), Some(slot.client), Some(source), tier,
        Some(now), Some(now), slot.WorktreeFor(title), Active, None)
  }

  function SpareRow(name: string, hostAlias: string, machine: string, now: string): Row {
    Row(ROW_SCHEMA, Spare, Some(name), name, None, None, None, Some(hostAlias), None, Some(machine), None,
        Some("spare"), None, Some(now), None, None, Active, None)
  }

  function LabelTitle(slot: Slot, text: string): string { slot.Stem() + "-" + text }

  function LabelRow(slot: Slot, text: string, now: string): Row {
    var title := LabelTitle(slot, text);
    Row(ROW_SCHEMA, Label, None, LastSegment(text), Some(title), Some(slot.repo), Some(slot.repoAlias),
        Some(slot.hostAlias), Some(text), Some(slot.machine), Some(slot.client), Some("custom"), None,
        Some(now), Some(now), slot.WorktreeFor(title), Active, None)
  }

  /** `activate_spare`. */
  function Activate(spare: Row, slot: Slot, now: string): Row {
    var title := slot.TitleFor(spare.token);
    spare.(kind := Session, title := Some(title), repo := Some(slot.repo), repoAlias := Some(slot.repoAlias),
           labelText := slot.labelText, client := Some(slot.client), activatedAt := Some(now),
           worktree := slot.WorktreeFor(title))
  }

  /** A new session's row: every field comes from the slot, the name, how it was chosen, and the time. */
  lemma SessionRowSays(slot: Slot, name: string, source: string, tier: Option<string>, now: string)
    ensures
      var row := SessionRow(slot, name, source, tier, now);
      && row.kind.Session? && row.token == name && row.name == Some(name)
      && row.repo == Some(slot.repo) && row.repoAlias == Some(slot.repoAlias) && row.hostAlias == Some(slot.hostAlias)
      && row.labelText == slot.labelText && row.machine == Some(slot.machine) && row.client == Some(slot.client)
      && row.source == Some(source) && row.tier == tier && row.reservedAt == row.activatedAt == Some(now)
      && row.schema == 1 && row.state.Active? && row.recovery.None?
      && TitledFor(row, slot, name)
  {
    var middle := if slot.Labelled() then slot.labelText.value + "-" else "";
    assert slot.TitlePrefix() == slot.repoAlias + "-" + slot.hostAlias + "-" + middle;
    assert WORKTREE_DIR + "/" == ".worktrees/";
  }

  /** The title joins the two aliases, the label if there is one, and the name; the worktree is named after it. */
  ghost predicate TitledFor(row: Row, slot: Slot, name: string) {
    var middle := if slot.labelText.Some? && slot.labelText.value != "" then slot.labelText.value + "-" else "";
    var title := slot.repoAlias + "-" + slot.hostAlias + "-" + middle + name;
    && row.title == Some(title)
    && row.worktree == if slot.worktree then Some(".worktrees/" + title) else None
  }

  /** A new spare's row says only whose it is and when it was reserved. */
  lemma SpareRowSays(name: string, hostAlias: string, machine: string, now: string)
    ensures
      var row := SpareRow(name, hostAlias, machine, now);
      && row.kind.Spare? && row.token == name && row.name == Some(name)
      && row.hostAlias == Some(hostAlias) && row.machine == Some(machine)
      && row.source == Some("spare") && row.reservedAt == Some(now)
      && row.title.None? && row.repo.None? && row.repoAlias.None? && row.labelText.None? && row.client.None?
      && row.tier.None? && row.activatedAt.None? && row.worktree.None?
      && row.schema == 1 && row.state.Active? && row.recovery.None?
  {
  }

  /** A dropped label's row: titled by the two aliases and the label, under the label's last token. */
  lemma LabelRowSays(slot: Slot, text: string, now: string)
    ensures
      var row, title := LabelRow(slot, text, now), slot.repoAlias + "-" + slot.hostAlias + "-" + text;
      && row.kind.Label? && row.token == LastSegment(text) && row.name.None? && row.labelText == Some(text)
      && row.repo == Some(slot.repo) && row.repoAlias == Some(slot.repoAlias) && row.hostAlias == Some(slot.hostAlias)
      && row.machine == Some(slot.machine) && row.client == Some(slot.client)
      && row.source == Some("custom") && row.tier.None? && row.reservedAt == row.activatedAt == Some(now)
      && row.schema == 1 && row.state.Active? && row.recovery.None?
      && row.title == Some(title) && row.worktree == if slot.worktree then Some(".worktrees/" + title) else None
  {
    assert WORKTREE_DIR + "/" == ".worktrees/";
  }

  /**
   * What an offline launch makes of a spare is the very row an online launch with that name would have reserved, but
   * for what only the reservation decides: how the name was chosen, when, and for which host.
   */
  lemma ActivationIsReservation(spare: Row, slot: Slot, now: string)
    requires RowProblem(spare).None? && spare.kind.Spare?
    ensures Activate(spare, slot, now)
            == SessionRow(slot, spare.token, "spare", None, now).(
                 reservedAt := spare.reservedAt, hostAlias := spare.hostAlias, machine := spare.machine)
  {
  }

  /** Agreement on every field outside `SPARE_ACTIVATION_FIELDS`. */
  predicate OnlyActivationDiffers(before: Row, after: Row) {
    before == after.(kind := before.kind, title := before.title, repo := before.repo,
                     repoAlias := before.repoAlias, labelText := before.labelText, client := before.client,
                     activatedAt := before.activatedAt, worktree := before.worktree)
  }

  /** An activation keeps every other field. */
  lemma ActivationKeeps(before: Row, after: Row)
    ensures OnlyActivationDiffers(before, after)
            <==> (&& after.schema == before.schema && after.name == before.name && after.token == before.token
                  && after.hostAlias == before.hostAlias && after.machine == before.machine
                  && after.source == before.source && after.tier == before.tier
                  && after.reservedAt == before.reservedAt
                  && after.state == before.state && after.recovery == before.recovery)
  {
  }

  /** A row that belongs at `token`: it passes `row_problem`, sits under its own token, and its title ends in it. */
  predicate RowFits(token: string, row: Row) {
    && RowProblem(row).None?
    && row.token == token
    && (row.title.Some? ==> LastSegment(row.title.value) == token)
  }

  predicate IsSpareOf(row: Row, machine: string) {
    row.kind.Spare? && row.machine == Some(machine)
  }

  /** What a caller can check before taking a spare: no text the slot supplies looks like an absolute path. */
  predicate SlotStoresNoPath(slot: Slot, token: string, now: string) {
    && !IsAbsolutePath(slot.TitleFor(token))
    && !IsAbsolutePath(slot.repo)
    && !IsAbsolutePath(slot.repoAlias)
    && (slot.labelText.Some? ==> !IsAbsolutePath(slot.labelText.value))
    && !IsAbsolutePath(slot.client)
    && !IsAbsolutePath(now)
  }

  /** What each kind of row says about itself: the fields it has, and those it lacks. */
  predicate KindHolds(row: Row) {
    match row.kind
    case Session =>
      && row.name == Some(row.token) && LowerWord(row.token)
      && row.title.Some? && row.repo.Some? && row.repoAlias.Some? && row.hostAlias.Some? && row.machine.Some?
      && row.client.Some? && row.source.Some? && row.activatedAt.Some?
    case Spare =>
      && row.name == Some(row.token) && LowerWord(row.token)
      && row.hostAlias.Some? && row.machine.Some? && row.source == Some("spare")
      && row.title.None? && row.repo.None? && row.repoAlias.None? && row.labelText.None? && row.client.None?
      && row.tier.None? && row.activatedAt.None? && row.worktree.None? && row.recovery.None?
    case Label =>
      && LabelWord(row.token) && row.name.None? && row.tier.None?
      && row.title.Some? && row.repo.Some? && row.repoAlias.Some? && row.hostAlias.Some? && row.labelText.Some?
      && row.machine.Some? && row.client.Some? && row.activatedAt.Some?
    case OtherKind(_) => false
  }

  /** Every text field of a row. */
  function Texts(row: Row): seq<Option<string>> {
    [Some(row.token), row.name, row.title, row.repo, row.repoAlias, row.hostAlias, row.labelText, row.machine,
     row.client, row.source, row.tier, row.reservedAt, row.activatedAt, row.worktree]
  }

  lemma StoresPathIff(row: Row)
    ensures StoresPath(row) <==> exists text | text in Texts(row) :: text.Some? && IsAbsolutePath(text.value)
  {
    hide IsAbsolutePath;
    var all := Texts(row);
    assert all[0] == Some(row.token) && all[1] == row.name && all[2] == row.title && all[3] == row.repo;
    assert all[4] == row.repoAlias && all[5] == row.hostAlias && all[6] == row.labelText && all[7] == row.machine;
    assert all[8] == row.client && all[9] == row.source && all[10] == row.tier && all[11] == row.reservedAt;
    assert all[12] == row.activatedAt && all[13] == row.worktree;
  }

  /** A row passes `row_problem`'s ordered checks exactly when it is all its kind asks for. */
  lemma ProblemFreeIff(row: Row)
    ensures RowProblem(row).None?
            <==> (&& row.schema == ROW_SCHEMA && KindHolds(row) && !row.state.OtherState?
                  && (row.state.MigrationIncomplete? <==> row.recovery.Some?)
                  && row.reservedAt.Some? && row.reservedAt.value != ""
                  && forall text | text in Texts(row) :: text.Some? ==> !IsAbsolutePath(text.value))
  {
    StoresPathIff(row);
    hide StoresPath, Texts, LowerWord, LabelWord;
  }

  predicate Fills(row: Row, field: string) {
    match field
    case "name" => row.name.Some?
    case "title" => row.title.Some?
    case "repo" => row.repo.Some?
    case "repo_alias" => row.repoAlias.Some?
    case "host_alias" => row.hostAlias.Some?
    case "label" => row.labelText.Some?
    case "machine" => row.machine.Some?
    case "client" => row.client.Some?
    case "source" => row.source.Some?
    case "tier" => row.tier.Some?
    case "activated_at" => row.activatedAt.Some?
    case "worktree" => row.worktree.Some?
    case _ => row.recovery.Some?
  }

  /** A field reported missing is one the row lacks, and one reported as barred is one it fills. */
  lemma ReportsTheField(row: Row)
    ensures MissingField(row).Some? ==>
              MissingField(row).value != "recovery" && !Fills(row, MissingField(row).value)
    ensures ForbiddenField(row).Some? ==> Fills(row, ForbiddenField(row).value)
    ensures ForbiddenField(row) == Some("recovery") ==> row.recovery.Some?
  {
  }

  /** What every operation needs to know of a valid row. */
  lemma ValidRowFields(row: Row)
    requires RowProblem(row).None?
    ensures row.machine.Some?
    ensures row.kind.Spare? ==> row.title.None? && row.client.None? && row.recovery.None? && row.worktree.None?
    ensures !row.kind.Spare? ==> row.title.Some? && row.client.Some?
    ensures !row.kind.Label? ==> LowerWord(row.token)
  {
  }

  lemma WorktreePathIsRelative(title: string)
    ensures !IsAbsolutePath(WORKTREE_DIR + "/" + title)
  {
    var path := WORKTREE_DIR + "/" + title;
    assert path[0] == '.' && path[1] == 'w';
  }

  /**
   * The activation `take_spare` builds passes `row_problem` exactly when the slot supplies no absolute path,
   * and it changes nothing outside the activation fields.
   */
  lemma ActivationPasses(spare: Row, slot: Slot, now: string)
    requires RowProblem(spare).None? && spare.kind.Spare?
    ensures RowProblem(Activate(spare, slot, now)).None? <==> SlotStoresNoPath(slot, spare.token, now)
    ensures OnlyActivationDiffers(spare, Activate(spare, slot, now))
    ensures LastSegment(slot.TitleFor(spare.token)) == spare.token
  {
    WorktreePathIsRelative(slot.TitleFor(spare.token));
    TitleForEndsInName(slot, spare.token);
  }
}

/** Taking the template's new version of a conflicted file the project never edited, once the conflict is anchored. */
module Conflicts {
  import opened Wrappers
  import opened Anchors
  import opened IsolatedUpdate

  /** The template rendered at the recorded commit and at its tip; None when either rendering failed. */
  datatype Renderings = Renderings(previous: Files, current: Files)

  /** Never edited here: the committed content is the previous template's, and both renderings have the file. */
  predicate Unedited(head: Commit, r: Renderings, readable: set<string>, path: string) {
    && path in r.previous && path in r.current
    && path in readable && path in head.tree && head.tree[path] == r.previous[path]
  }

  /** The checkout with the template's new version of `path`, its unmerged stages cleared back to HEAD if `cleared`. */
  function Taken(c: Checkout, r: Renderings, path: string, cleared: bool): Checkout
    requires path in r.current && path in c.head.tree
  {
    c.(files := c.files[path := r.current[path]],
       index := if cleared then c.index[path := c.head.tree[path]] else c.index)
  }

  function Without(conflicts: seq<string>, resolved: set<string>): (rest: seq<string>)
    ensures forall p :: p in rest <==> p in conflicts && p !in resolved
  {
    if conflicts == [] then []
    else (if conflicts[0] in resolved then [] else [conflicts[0]]) + Without(conflicts[1..], resolved)
  }

  /** All that taking new versions may have done to the checkout; a copy that raised left anything in `torn`. */
  ghost predicate OnlyTaken(before: Checkout, after: Checkout, r: Renderings, written: set<string>,
                            resolved: set<string>, torn: set<string>) {
    && after == before.(files := after.files, index := after.index)
    && written <= r.current.Keys * before.head.tree.Keys && resolved <= written
    && (forall p | p !in torn ::
          Get(after.files, p) == if p in written then Get(r.current, p) else Get(before.files, p))
    && (forall p :: Get(after.index, p) == if p in resolved then Get(before.head.tree, p) else Get(before.index, p))
  }

  lemma TakenIsOnlyTaken(before: Checkout, c: Checkout, r: Renderings, written: set<string>, resolved: set<string>,
                         path: string, cleared: bool)
    requires OnlyTaken(before, c, r, written, resolved, {}) && path in r.current && path in before.head.tree
    ensures OnlyTaken(before, Taken(c, r, path, cleared), r, written + {path},
                      if cleared then resolved + {path} else resolved, {})
  {
  }

  lemma TornIsOnlyTaken(before: Checkout, c: Checkout, r: Renderings, written: set<string>, resolved: set<string>,
                        path: string, left: string)
    requires OnlyTaken(before, c, r, written, resolved, {})
    ensures OnlyTaken(before, c.(files := c.files[path := left]), r, written, resolved, {path})
  {
  }

  /**
   * HEAD has the file, readable and exactly as the previous template renders it, and the current template has it too.
   */
  ghost predicate NeverEdited(c: Checkout, r: Renderings, readable: set<string>, p: string) {
    && p in readable && p in r.current
    && Get(c.head.tree, p).Some? && Get(c.head.tree, p) == Get(r.previous, p)
  }

  /** The conflicted files the project never edited, in order. */
  method FindUnedited(conflicts: seq<string>, head: Commit, r: Renderings, readable: set<string>)
    returns (unedited: seq<string>)
    ensures forall p :: p in unedited <==> p in conflicts && Unedited(head, r, readable, p)
  {
    unedited := [];
    for i := 0 to |conflicts|
      invariant forall p :: p in unedited <==> p in conflicts[..i] && Unedited(head, r, readable, p)
    {
      assert conflicts[..i + 1] == conflicts[..i] + [conflicts[i]];
      if Unedited(head, r, readable, conflicts[i]) {
        unedited := unedited + [conflicts[i]];
      }
    }
  }

  /**
   * Writes the new versions one by one, until a copy raises. `copies` is how many succeed before that, `left` what the
   * raising copy leaves in its file, when it got as far as opening it.
   */
  method TakeNew(project: Project, unedited: seq<string>, r: Renderings, copies: nat, left: Option<string>,
                 cleared: set<string>)
    returns (resolved: set<string>, raised: bool, ghost written: set<string>, ghost torn: set<string>)
    requires project.place.checkout.Some?
    requires forall p | p in unedited :: p in r.current && p in project.place.checkout.value.head.tree
    modifies project`place
    ensures project.place == old(project.place).(checkout := project.place.checkout)
    ensures project.place.checkout.Some?
    ensures OnlyTaken(old(project.place).checkout.value, project.place.checkout.value, r, written, resolved, torn)
    ensures resolved == written * cleared
    ensures raised <==> copies < |unedited|
    ensures forall p :: p in written <==> p in unedited[..if raised then copies else |unedited|]
    ensures torn == if raised && left.Some? then {unedited[copies]} else {}
  {
    ghost var before := project.place.checkout.value;
    resolved, raised, written, torn := {}, false, {}, {};
    for i := 0 to |unedited|
      invariant i <= copies
      invariant project.place == old(project.place).(checkout := project.place.checkout)
      invariant project.place.checkout.Some?
      invariant forall p :: p in written <==> p in unedited[..i]
      invariant resolved == written * cleared
      invariant OnlyTaken(before, project.place.checkout.value, r, written, resolved, {})
    {
      var path, checkout := unedited[i], project.place.checkout.value;
      if copies <= i {
        raised := true;
        if left.Some? {
          TornIsOnlyTaken(before, checkout, r, written, resolved, path, left.value);
          torn := {path};
          project.place := project.place.(
            checkout := Some(checkout.(files := checkout.files[path := left.value])));
        }
        return;
      }
      TakenIsOnlyTaken(before, checkout, r, written, resolved, path, path in cleared);
      hide OnlyTaken, Taken;
      project.place := project.place.(checkout := Some(Taken(checkout, r, path, path in cleared)));
      assert unedited[..i + 1] == unedited[..i] + [path];
      written := written + {path};
      resolved := if path in cleared then resolved + {path} else resolved;
    }
    assert unedited[..|unedited|] == unedited;
  }

  /**
   * `_resolve_unchanged_conflicts`: only files the project never edited are overwritten, each with the template's new
   * version, and nothing is written unless the conflicted state is anchored. `copies` is how many copies succeed
   * before one raises, `left` what that one leaves in its file, `cleared` the paths whose unmerged stages could be
   * cleared.
   */
  method ResolveUnchanged(project: Project, conflicts: seq<string>, renderings: Option<Renderings>,
                          readable: set<string>, ref: string, fate: Fate, copies: nat, left: Option<string>,
                          cleared: set<string>)
    returns (rest: seq<string>, raised: bool, ghost written: set<string>, ghost torn: set<string>)
    requires project.place.checkout.Some?
    modifies project
    ensures project.place == old(project.place).(checkout := project.place.checkout)
    ensures project.place.checkout.Some?
    ensures BackupsGrow(old(project.backups), project.backups, ref)
    ensures project.place != old(project.place) ==>
              Anchored(project.backups, ref, old(project.place).checkout.value)
    ensures forall p | p in written + torn ::
              renderings.Some? && p in conflicts
              && NeverEdited(old(project.place).checkout.value, renderings.value, readable, p)
    ensures renderings.Some? ==>
              OnlyTaken(old(project.place).checkout.value, project.place.checkout.value, renderings.value, written,
                        written * cleared, torn)
    ensures |torn| <= 1 && (torn != {} ==> raised)
    ensures renderings.Some? && !raised && fate.steps >= 10 && fate.beforeSwap == [] && fate.beforeVerify == [] ==>
              forall p :: p in written <==>
                p in conflicts && NeverEdited(old(project.place).checkout.value, renderings.value, readable, p)
    ensures renderings.None? ==> project.place == old(project.place) && rest == conflicts && !raised
    ensures !raised ==> rest == Without(conflicts, written * cleared)
  {
    rest, raised, written, torn := conflicts, false, {}, {};
    WithoutNothing(conflicts);
    assert written * cleared == {};
    if renderings.None? {
      return;
    }
    var r := renderings.value;
    var before := project.place.checkout.value;
    var unedited := FindUnedited(conflicts, before.head, r, readable);
    if unedited == [] {
      return;
    }
    var failed := project.AnchorFailedUpdate(ref, fate);
    if failed {
      return;
    }
    var resolved;
    resolved, raised, written, torn := TakeNew(project, unedited, r, copies, left, cleared);
    if raised {
      assert unedited[copies] in unedited;
      return;
    }
    rest := Without(conflicts, resolved);
  }

  /** The conflicts left are the others, each as often and in the order they came. */
  lemma {:induction false} WithoutJoins(first: seq<string>, second: seq<string>, resolved: set<string>)
    ensures Without(first + second, resolved) == Without(first, resolved) + Without(second, resolved)
    ensures forall p :: Without([p], resolved) == if p in resolved then [] else [p]
  {
    if first == [] {
      assert first + second == second;
    } else {
      assert (first + second)[1..] == first[1..] + second;
      WithoutJoins(first[1..], second, resolved);
    }
  }

  lemma {:induction false} WithoutNothing(conflicts: seq<string>)
    ensures Without(conflicts, {}) == conflicts
  {
    if conflicts != [] {
      WithoutNothing(conflicts[1..]);
    }
  }
}

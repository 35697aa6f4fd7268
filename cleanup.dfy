/** The interactive cleanup (`interactive_cleanup` after the scan): the
    chosen categories' items are summed up, nothing is touched on a dry run
    or without a yes, and otherwise every item is handled on its own: the
    `[Docker]` item by a prune when the engine runs, a `com.apple.` name never,
    a real directory by a tree removal and anything else by an unlink, each
    failure being classified and reported without stopping the batch.

    What the outside world answers while one item is handled (is the engine
    running, did the prune succeed, is the path a real directory, what did
    the removal raise) is an `ItemWorld`; `world(k)` answers for the `k`-th
    selected item. */
module Cleanup {
  import opened Wrappers
  import opened FsTree
  import opened Text
  import opened Scan
  import Selection

  /** What `shutil.rmtree` or `Path.unlink` raised: an `OSError` with its
      `errno` and its text `str(e)`. */
  datatype RemovalError = OsError(errno: nat, message: string)

  const EPERM: nat := 1
  const EACCES: nat := 13

  /** Python raises an `OSError` whose errno is `EPERM` or `EACCES` as a
      `PermissionError`. */
  predicate IsPermissionError(e: RemovalError) {
    e.errno == EPERM || e.errno == EACCES
  }

  datatype ItemWorld = ItemWorld(
    dockerRunning: bool,
    pruneSucceeds: bool,
    isRealDir: bool,
    removal: Option<RemovalError>)

  /** The calls the cleanup makes on the outside world. */
  datatype Action = Prune | RemoveTree(path: Path) | Unlink(path: Path)

  /** The message reported for one item. */
  datatype Outcome =
    | DockerStopped      // the engine is not running: the prune is skipped
    | Pruned
    | PruneFailed
    | ProtectedSkipped   // a `com.apple.` name
    | Deleted
    | PermissionSkipped  // "Permisos restringidos"
    | MacOsProtected     // "Protegido por macOS"
    | Failed(message: string)

  /** One item's call, if any, and its report. */
  datatype Handled = Handled(action: Option<Action>, outcome: Outcome)

  const NotPermitted := "Operation not permitted"

  /** `needle in haystack` for strings. */
  predicate Contains(haystack: string, needle: string) {
    exists i :: 0 <= i <= |haystack| && StartsWith(haystack[i..], needle)
  }

  /** The report for a removal that returned or raised `e`: the
      `PermissionError` handler comes first, the other `OSError`s are told
      apart by their text. */
  function Classify(e: Option<RemovalError>): (o: Outcome)
    ensures o == Deleted <==> e.None?
    ensures o == PermissionSkipped <==> e.Some? && IsPermissionError(e.value)
    ensures o == MacOsProtected <==>
              e.Some? && !IsPermissionError(e.value) && Contains(e.value.message, NotPermitted)
    ensures o.Failed? <==>
              e.Some? && !IsPermissionError(e.value) && !Contains(e.value.message, NotPermitted)
    ensures o.Failed? ==> o.message == e.value.message
  {
    match e
    case None => Deleted
    case Some(err) =>
      if IsPermissionError(err) then PermissionSkipped
      else if Contains(err.message, NotPermitted) then MacOsProtected
      else Failed(err.message)
  }

  /** How the loop handles the item at `p`: a removal only ever targets `p`
      itself, never the `[Docker]` item or a protected name; a prune happens
      exactly for the `[Docker]` item while the engine runs; and an item is
      reported deleted only when a removal was called and raised nothing. */
  function Handle(p: Path, w: ItemWorld): (h: Handled)
    ensures h.action.Some? && !h.action.value.Prune? ==>
              h.action.value.path == p && p != DockerSentinel && !StartsWith(Name(p), ProtectedPrefix)
    ensures h.action == Some(Prune) <==> p == DockerSentinel && w.dockerRunning
    ensures h.outcome == Deleted <==>
              h.action.Some? && !h.action.value.Prune? && w.removal.None?
  {
    if p == DockerSentinel then
      if !w.dockerRunning then Handled(None, DockerStopped)
      else Handled(Some(Prune), if w.pruneSucceeds then Pruned else PruneFailed)
    else if StartsWith(Name(p), ProtectedPrefix) then Handled(None, ProtectedSkipped)
    else
      Handled(Some(if w.isRealDir then RemoveTree(p) else Unlink(p)), Classify(w.removal))
  }

  /** The reports for `items`, the `k`-th handled in the world `world(k)`. */
  function Outcomes(items: seq<PathItem>, world: nat -> ItemWorld): seq<Outcome> {
    if items == [] then []
    else
      var k := |items| - 1;
      Outcomes(items[..k], world) + [Handle(items[k].path, world(k)).outcome]
  }

  /** The calls made for `items`, in order. */
  function Actions(items: seq<PathItem>, world: nat -> ItemWorld): seq<Action> {
    if items == [] then []
    else
      var k := |items| - 1;
      var h := Handle(items[k].path, world(k));
      Actions(items[..k], world) + (if h.action.Some? then [h.action.value] else [])
  }

  /** The deletion loop. */
  method DeleteItems(items: seq<PathItem>, world: nat -> ItemWorld)
    returns (actions: seq<Action>, outcomes: seq<Outcome>)
    ensures actions == Actions(items, world)
    ensures outcomes == Outcomes(items, world)
  {
    actions, outcomes := [], [];
    for k := 0 to |items|
      invariant actions == Actions(items[..k], world)
      invariant outcomes == Outcomes(items[..k], world)
    {
      assert items[..k + 1][..k] == items[..k];
      var p := items[k].path;
      var w := world(k);
      if p == DockerSentinel {
        if !w.dockerRunning {
          outcomes := outcomes + [DockerStopped];
          continue;
        }
        actions := actions + [Prune];
        outcomes := outcomes + [if w.pruneSucceeds then Pruned else PruneFailed];
        continue;
      }
      if StartsWith(Name(p), ProtectedPrefix) {
        outcomes := outcomes + [ProtectedSkipped];
        continue;
      }
      if w.isRealDir {
        actions := actions + [RemoveTree(p)];
      } else {
        actions := actions + [Unlink(p)];
      }
      match w.removal {
        case None =>
          outcomes := outcomes + [Deleted];
        case Some(e) =>
          if IsPermissionError(e) {
            outcomes := outcomes + [PermissionSkipped];
          } else if Contains(e.message, NotPermitted) {
            outcomes := outcomes + [MacOsProtected];
          } else {
            outcomes := outcomes + [Failed(e.message)];
          }
      }
    }
    assert items[..|items|] == items;
  }

  // ---------------------------------------------------------------------
  // Properties of the deletion loop

  /** No failure stops the batch: every item gets a report, and the `k`-th
      report depends only on the `k`-th item and its own world. */
  lemma {:induction false} EveryItemReported(items: seq<PathItem>, world: nat -> ItemWorld)
    ensures |Outcomes(items, world)| == |items|
    ensures forall k :: 0 <= k < |items| ==> Outcomes(items, world)[k] == Handle(items[k].path, world(k)).outcome
  {
    if items != [] {
      var init := items[..|items| - 1];
      EveryItemReported(init, world);
      assert forall k :: 0 <= k < |init| ==> init[k] == items[k];
    }
  }

  /** Every call made is the call one of the items asks for, and every call
      an item asks for is made. */
  lemma {:induction false} ActionsOfItems(items: seq<PathItem>, world: nat -> ItemWorld)
    ensures forall a :: a in Actions(items, world) <==>
              exists k :: 0 <= k < |items| && Handle(items[k].path, world(k)).action == Some(a)
  {
    if items != [] {
      ActionsOfItems(items[..|items| - 1], world);
      forall a ensures a in Actions(items, world) <==>
                       exists k :: 0 <= k < |items| && Handle(items[k].path, world(k)).action == Some(a)
      {
        ActionsSnoc(items, world, a);
        AskedSnoc(items, world, a);
      }
    }
  }

  /** A call is among the calls for `items` when it is among those for all
      but the last item, or the last item asks for it. */
  lemma ActionsSnoc(items: seq<PathItem>, world: nat -> ItemWorld, a: Action)
    requires items != []
    ensures var last := |items| - 1;
            a in Actions(items, world) <==>
              a in Actions(items[..last], world) || Handle(items[last].path, world(last)).action == Some(a)
  {
  }

  /** Some item asks for a call when one of all but the last does, or the
      last does. */
  lemma AskedSnoc(items: seq<PathItem>, world: nat -> ItemWorld, a: Action)
    requires items != []
    ensures var last := |items| - 1;
            (exists k :: 0 <= k < |items| && Handle(items[k].path, world(k)).action == Some(a)) <==>
              (exists k :: 0 <= k < last && Handle(items[..last][k].path, world(k)).action == Some(a))
              || Handle(items[last].path, world(last)).action == Some(a)
  {
    var last := |items| - 1;
    if k :| 0 <= k < |items| && Handle(items[k].path, world(k)).action == Some(a) {
      if k < last {
        assert items[..last][k] == items[k];
      }
    }
    if k :| 0 <= k < last && Handle(items[..last][k].path, world(k)).action == Some(a) {
      assert items[..last][k] == items[k];
    }
  }

  /** The cleanup never calls anything on a `com.apple.` name or on the
      `[Docker]` item's path, removes only selected paths, and prunes only
      for a `[Docker]` item while the engine runs. */
  lemma NothingUnselectedOrProtectedTouched(items: seq<PathItem>, world: nat -> ItemWorld)
    ensures forall a :: a in Actions(items, world) && !a.Prune? ==>
              a.path != DockerSentinel
              && !StartsWith(Name(a.path), ProtectedPrefix)
              && exists k :: 0 <= k < |items| && items[k].path == a.path
    ensures Prune in Actions(items, world) ==>
              exists k :: 0 <= k < |items| && items[k].path == DockerSentinel && world(k).dockerRunning
  {
    ActionsOfItems(items, world);
    forall a | a in Actions(items, world) && !a.Prune?
      ensures a.path != DockerSentinel && !StartsWith(Name(a.path), ProtectedPrefix)
      ensures exists k :: 0 <= k < |items| && items[k].path == a.path
    {
      var k :| 0 <= k < |items| && Handle(items[k].path, world(k)).action == Some(a);
    }
  }

  /** Each ordinary item is routed by what it is: a real directory to a tree
      removal, anything else (a file, a link) to an unlink; a protected name
      is reported as skipped and the `[Docker]` item never reaches either. */
  lemma Routing(p: Path, w: ItemWorld)
    ensures p == DockerSentinel ==> Handle(p, w).action != Some(RemoveTree(p)) && Handle(p, w).action != Some(Unlink(p))
    ensures p != DockerSentinel && StartsWith(Name(p), ProtectedPrefix) ==>
              Handle(p, w) == Handled(None, ProtectedSkipped)
    ensures p != DockerSentinel && !StartsWith(Name(p), ProtectedPrefix) ==>
              Handle(p, w).action == Some(if w.isRealDir then RemoveTree(p) else Unlink(p))
              && (Handle(p, w).outcome == Deleted <==> w.removal.None?)
  {
  }

  /** Any other `OSError` whose text says "Operation not permitted"
      somewhere is reported as protected by the system, whereas an `EPERM`
      error, whose text is exactly that phrase, is a `PermissionError` and is
      caught by the first handler: the system-protection report is reached
      only through an error that is not a `PermissionError`. */
  lemma FailureClassified(errno: nat, pre: string, post: string)
    ensures var e := OsError(errno, pre + NotPermitted + post);
            Classify(Some(e)) == if errno == EPERM || errno == EACCES then PermissionSkipped else MacOsProtected
  {
    var m := pre + NotPermitted + post;
    assert m[|pre|..][..|NotPermitted|] == NotPermitted;
  }

  // ---------------------------------------------------------------------
  // The session

  /** `selected_items`: the items of the chosen categories, category by
      category in the order of `indices`. */
  function SelectedItems(categories: seq<CategoryValue>, indices: seq<nat>): seq<PathItem>
    requires forall i :: i in indices ==> i < |categories|
  {
    if indices == [] then []
    else
      var init := indices[..|indices| - 1];
      assert forall i :: i in init ==> i in indices;
      assert indices[|indices| - 1] in indices;
      SelectedItems(categories, init) + categories[indices[|indices| - 1]].items
  }

  method SelectItems(categories: seq<CategoryValue>, indices: seq<nat>) returns (items: seq<PathItem>)
    requires forall i :: i in indices ==> i < |categories|
    ensures items == SelectedItems(categories, indices)
  {
    items := [];
    for j := 0 to |indices|
      invariant forall i :: i in indices[..j] ==> i in indices
      invariant items == SelectedItems(categories, indices[..j])
    {
      assert indices[..j + 1][..j] == indices[..j];
      assert indices[j] in indices;
      items := items + categories[indices[j]].items;
    }
    assert indices[..|indices|] == indices;
  }

  /** The sum of the chosen categories' `total_size`. */
  function ChosenSize(categories: seq<CategoryValue>, indices: seq<nat>): nat
    requires forall i :: i in indices ==> i < |categories|
  {
    if indices == [] then 0
    else
      var init := indices[..|indices| - 1];
      assert forall i :: i in init ==> i in indices;
      assert indices[|indices| - 1] in indices;
      ChosenSize(categories, init) + SumSizes(categories[indices[|indices| - 1]].items)
  }

  /** The summary's total is the sum of the sizes the category list showed
      for the chosen categories. */
  lemma {:induction false} SummaryTotal(categories: seq<CategoryValue>, indices: seq<nat>)
    requires forall i :: i in indices ==> i < |categories|
    ensures SumSizes(SelectedItems(categories, indices)) == ChosenSize(categories, indices)
  {
    if indices != [] {
      var init := indices[..|indices| - 1];
      assert forall i :: i in init ==> i in indices;
      assert indices[|indices| - 1] in indices;
      SummaryTotal(categories, init);
      SumSizesAppend(SelectedItems(categories, init), categories[indices[|indices| - 1]].items);
    }
  }

  /** How a session ends. */
  datatype Session =
    | NoCategories
    | NothingSelected
    | DryRun(items: seq<PathItem>, total: nat)
    | Cancelled(items: seq<PathItem>, total: nat)
    | Cleaned(items: seq<PathItem>, total: nat, actions: seq<Action>, outcomes: seq<Outcome>)

  /** The session over the discovered `categories`, when the operator's
      accepted selection line is `line` and the confirmation is `answer`. */
  function CleanupSession(categories: seq<CategoryValue>, line: string, dryRun: bool,
                          answer: string, world: nat -> ItemWorld): Session
    requires Selection.Selected(line, |categories|, true).Some?
  {
    if categories == [] then NoCategories
    else
      var indices := Selection.Selected(line, |categories|, true).value;
      Selection.SelectionInRange(line, |categories|, true);
      if indices == [] then NothingSelected
      else
        var items := SelectedItems(categories, indices);
        var total := SumSizes(items);
        if dryRun then DryRun(items, total)
        else if !Selection.Confirm(answer) then Cancelled(items, total)
        else Cleaned(items, total, Actions(items, world), Outcomes(items, world))
  }

  /** `interactive_cleanup` from the category list on; `line` is the first
      selection line the prompt accepts. */
  method InteractiveCleanup(categories: seq<CategoryValue>, line: string, dryRun: bool,
                            answer: string, world: nat -> ItemWorld) returns (s: Session)
    requires Selection.Selected(line, |categories|, true).Some?
    ensures s == CleanupSession(categories, line, dryRun, answer, world)
  {
    if categories == [] {
      return NoCategories;
    }
    var chosen := Selection.SelectIndices(line, |categories|, true);
    var indices := chosen.value;
    Selection.SelectionInRange(line, |categories|, true);
    if indices == [] {
      return NothingSelected;
    }
    var items := SelectItems(categories, indices);
    var total := SumSizes(items);
    if dryRun {
      return DryRun(items, total);
    }
    if !Selection.Confirm(answer) {
      return Cancelled(items, total);
    }
    var actions, outcomes := DeleteItems(items, world);
    return Cleaned(items, total, actions, outcomes);
  }

  /** The calls a session makes. */
  function SessionActions(s: Session): seq<Action> {
    if s.Cleaned? then s.actions else []
  }

  /** Nothing is touched on a dry run, or when the answer is not a yes. */
  lemma NoConsentNoAction(categories: seq<CategoryValue>, line: string, dryRun: bool,
                          answer: string, world: nat -> ItemWorld)
    requires Selection.Selected(line, |categories|, true).Some?
    requires dryRun || !Selection.Confirm(answer)
    ensures SessionActions(CleanupSession(categories, line, dryRun, answer, world)) == []
  {
  }

  /** A session that cleans has asked for consent, and then every item of
      the chosen categories, and only those, is handled; the summary shows
      their total size. */
  lemma CleanedSession(categories: seq<CategoryValue>, line: string, dryRun: bool,
                       answer: string, world: nat -> ItemWorld)
    requires Selection.Selected(line, |categories|, true).Some?
    requires CleanupSession(categories, line, dryRun, answer, world).Cleaned?
    ensures !dryRun && Selection.Confirm(answer)
    ensures var s := CleanupSession(categories, line, dryRun, answer, world);
            var indices := Selection.Selected(line, |categories|, true).value;
            (forall i :: i in indices ==> i < |categories|)
            && s.items == SelectedItems(categories, indices)
            && s.total == ChosenSize(categories, indices)
            && |s.outcomes| == |s.items|
  {
    var indices := Selection.Selected(line, |categories|, true).value;
    Selection.SelectionInRange(line, |categories|, true);
    SummaryTotal(categories, indices);
    EveryItemReported(SelectedItems(categories, indices), world);
  }
}

/**
 * The label and field-mask logic of "record update". With labels to append or delete
 * the record's labels are fetched; those whose display name is to be deleted are dropped
 * and the rest kept in order; each append name not already among the kept labels is
 * looked up (or created) and added. Update labels are then added after them, except
 * that an update list holding only the empty string clears every label. The field mask
 * names what the request changes.
 */
module RecordUpdate {
  import opened Wrappers

  /** A label: its resource name and its display name. */
  datatype Label = Label(name: string, displayName: string)

  /** GetByDisplayNameOrCreate: the label with that display name, or the call's error. */
  type LabelLookup = string -> Result<Label, string>

  // ---------------------------------------------------------------------------
  // PreRun

  /** An --update-labels flag that was given but holds no value becomes [""], the "clear" request. */
  function EffectiveUpdateLabels(changed: bool, updateLabelStrs: seq<string>): (r: seq<string>)
    ensures changed && updateLabelStrs == [] ==> r == [""]
    ensures !(changed && updateLabelStrs == []) ==> r == updateLabelStrs
    ensures r != []  <==> changed || updateLabelStrs != []
  {
    if changed && |updateLabelStrs| == 0 then updateLabelStrs + [""] else updateLabelStrs
  }

  // ---------------------------------------------------------------------------
  // Specification of the label list

  /** The record's labels whose display name is not to be deleted, in record order. */
  function Kept(labels: seq<Label>, deleted: set<string>): (r: seq<Label>)
    ensures |r| <= |labels|
    ensures forall l :: l in r <==> l in labels && l.displayName !in deleted
    decreases |labels|
  {
    if labels == [] then []
    else
      var last := labels[|labels| - 1];
      Kept(labels[..|labels| - 1], deleted) + (if last.displayName in deleted then [] else [last])
  }

  /** The display names of a list of labels. */
  function Names(labels: seq<Label>): (r: set<string>)
    ensures forall l :: l in labels ==> l.displayName in r
    decreases |labels|
  {
    if labels == [] then {}
    else
      var last := labels[|labels| - 1];
      assert forall l :: l in labels ==> l in labels[..|labels| - 1] || l == last;
      Names(labels[..|labels| - 1]) + {last.displayName}
  }

  lemma {:induction false} NamesOnlyOfLabels(labels: seq<Label>, n: string)
    requires n in Names(labels)
    ensures exists l :: l in labels && l.displayName == n
    decreases |labels|
  {
    var last := labels[|labels| - 1];
    if n != last.displayName {
      NamesOnlyOfLabels(labels[..|labels| - 1], n);
      var l :| l in labels[..|labels| - 1] && l.displayName == n;
      assert l in labels;
    }
  }

  /** The append names that are looked up: those not in `present`, in order, repeats included. */
  function ToAppend(names: seq<string>, present: set<string>): (r: seq<string>)
    ensures |r| <= |names|
    decreases |names|
  {
    if names == [] then []
    else
      var last := names[|names| - 1];
      ToAppend(names[..|names| - 1], present) + (if last in present then [] else [last])
  }

  /** Looking up each name in order: all the labels, or the first lookup's error. */
  function Resolve(names: seq<string>, lookup: LabelLookup): (r: Result<seq<Label>, string>)
    ensures r.Ok? ==> |r.value| == |names|
    decreases |names|
  {
    if names == [] then Ok([])
    else
      var init := names[..|names| - 1];
      var last := names[|names| - 1];
      match Resolve(init, lookup)
      case Err(e) => Err(e)
      case Ok(ls) =>
        match lookup(last)
        case Err(e) => Err(e)
        case Ok(l) => Ok(ls + [l])
  }

  /** The list after the append/delete step, when that step runs: the kept labels, then the added ones. */
  function AppendStep(current: Result<seq<Label>, string>, appendStrs: seq<string>, deleteStrs: seq<string>,
                      lookup: LabelLookup): (r: Result<seq<Label>, string>)
  {
    match current
    case Err(e) => Err(e)
    case Ok(labels) =>
      var kept := Kept(labels, set d | d in deleteStrs);
      match Resolve(ToAppend(appendStrs, Names(kept)), lookup)
      case Err(e) => Err(e)
      case Ok(added) => Ok(kept + added)
  }

  /**
   * The labels sent with the update, or the error that ends the command. `current` is the
   * record fetched by Get, consulted only when there are labels to append or delete.
   */
  function MergedLabels(current: Result<seq<Label>, string>, appendStrs: seq<string>, deleteStrs: seq<string>,
                        updateStrs: seq<string>, lookup: LabelLookup): (r: Result<seq<Label>, string>)
  {
    var base := if |appendStrs| > 0 || |deleteStrs| > 0 then AppendStep(current, appendStrs, deleteStrs, lookup) else Ok([]);
    match base
    case Err(e) => Err(e)
    case Ok(labels) =>
      if updateStrs == [""] then Ok([])
      else
        match Resolve(updateStrs, lookup)
        case Err(e) => Err(e)
        case Ok(extra) => Ok(labels + extra)
  }

  // ---------------------------------------------------------------------------
  // Helper facts about the specification

  lemma ToAppendSnoc(xs: seq<string>, x: string, present: set<string>)
    ensures ToAppend(xs + [x], present) == ToAppend(xs, present) + (if x in present then [] else [x])
  {
    assert (xs + [x])[..|xs|] == xs;
  }

  lemma {:induction false} ToAppendConcat(xs: seq<string>, ys: seq<string>, present: set<string>)
    ensures ToAppend(xs + ys, present) == ToAppend(xs, present) + ToAppend(ys, present)
    decreases |ys|
  {
    if ys == [] {
      assert xs + ys == xs;
    } else {
      var ys' := ys[..|ys| - 1];
      var y := ys[|ys| - 1];
      assert xs + ys == (xs + ys') + [y];
      assert ys == ys' + [y];
      ToAppendConcat(xs, ys', present);
      ToAppendSnoc(xs + ys', y, present);
      ToAppendSnoc(ys', y, present);
    }
  }

  lemma {:induction false} NotInNames(labels: seq<Label>, n: string)
    requires forall l :: l in labels ==> l.displayName != n
    ensures n !in Names(labels)
    decreases |labels|
  {
    if labels != [] {
      assert forall l :: l in labels[..|labels| - 1] ==> l in labels;
      NotInNames(labels[..|labels| - 1], n);
    }
  }

  lemma ResolveSnoc(xs: seq<string>, x: string, lookup: LabelLookup)
    ensures Resolve(xs + [x], lookup) ==
      match Resolve(xs, lookup)
      case Err(e) => Err(e)
      case Ok(v) => (match lookup(x) case Err(e) => Err(e) case Ok(l) => Ok(v + [l]))
  {
    assert (xs + [x])[..|xs|] == xs;
  }

  lemma AppendSkips(names: seq<string>, i: nat, present: set<string>, lookup: LabelLookup)
    requires i < |names| && names[i] in present
    ensures ToAppend(names[..i + 1], present) == ToAppend(names[..i], present)
  {
    assert names[..i + 1] == names[..i] + [names[i]];
    ToAppendSnoc(names[..i], names[i], present);
  }

  lemma AppendAdds(names: seq<string>, i: nat, present: set<string>, lookup: LabelLookup, l: Label)
    requires i < |names| && names[i] !in present && lookup(names[i]) == Ok(l)
    requires Resolve(ToAppend(names[..i], present), lookup).Ok?
    ensures Resolve(ToAppend(names[..i + 1], present), lookup) ==
      Ok(Resolve(ToAppend(names[..i], present), lookup).value + [l])
  {
    assert names[..i + 1] == names[..i] + [names[i]];
    ToAppendSnoc(names[..i], names[i], present);
    ResolveSnoc(ToAppend(names[..i], present), names[i], lookup);
  }

  lemma {:induction false} ResolveErrExtends(xs: seq<string>, ys: seq<string>, lookup: LabelLookup)
    requires Resolve(xs, lookup).Err?
    ensures Resolve(xs + ys, lookup) == Resolve(xs, lookup)
    decreases |ys|
  {
    if ys == [] {
      assert xs + ys == xs;
    } else {
      var ys' := ys[..|ys| - 1];
      ResolveErrExtends(xs, ys', lookup);
      assert xs + ys == (xs + ys') + [ys[|ys| - 1]];
      ResolveSnoc(xs + ys', ys[|ys| - 1], lookup);
    }
  }

  lemma AppendFailsHere(names: seq<string>, i: nat, present: set<string>, lookup: LabelLookup)
    requires i < |names| && names[i] !in present && lookup(names[i]).Err?
    requires Resolve(ToAppend(names[..i], present), lookup).Ok?
    ensures Resolve(ToAppend(names[..i + 1], present), lookup) == Err(lookup(names[i]).error)
  {
    assert names[..i + 1] == names[..i] + [names[i]];
    ToAppendSnoc(names[..i], names[i], present);
    ResolveSnoc(ToAppend(names[..i], present), names[i], lookup);
  }

  /** A failed lookup of an append name that is not present is the error of the whole step. */
  lemma AppendFailsAt(names: seq<string>, i: nat, present: set<string>, lookup: LabelLookup)
    requires i < |names| && names[i] !in present && lookup(names[i]).Err?
    requires Resolve(ToAppend(names[..i], present), lookup).Ok?
    ensures Resolve(ToAppend(names, present), lookup) == Err(lookup(names[i]).error)
  {
    AppendFailsHere(names, i, present, lookup);
    assert names == names[..i + 1] + names[i + 1..];
    ToAppendConcat(names[..i + 1], names[i + 1..], present);
    ResolveErrExtends(ToAppend(names[..i + 1], present), ToAppend(names[i + 1..], present), lookup);
  }

  /** Exactly the names not present are looked up. */
  lemma {:induction false} ToAppendMembers(names: seq<string>, present: set<string>)
    ensures forall x :: x in ToAppend(names, present) <==> x in names && x !in present
    decreases |names|
  {
    if names != [] {
      var init := names[..|names| - 1];
      ToAppendMembers(init, present);
      assert names == init + [names[|names| - 1]];
    }
  }

  lemma {:induction false} ToAppendAllPresent(names: seq<string>, present: set<string>)
    requires forall x :: x in names ==> x in present
    ensures ToAppend(names, present) == []
    decreases |names|
  {
    if names != [] {
      assert forall x :: x in names[..|names| - 1] ==> x in names;
      ToAppendAllPresent(names[..|names| - 1], present);
    }
  }

  lemma KeptPrefix(labels: seq<Label>, i: nat, deleted: set<string>)
    requires i < |labels|
    ensures Kept(labels[..i + 1], deleted) ==
      Kept(labels[..i], deleted) + (if labels[i].displayName in deleted then [] else [labels[i]])
  {
    assert labels[..i + 1][..i] == labels[..i];
  }

  lemma NamesSnoc(labels: seq<Label>, l: Label)
    ensures Names(labels + [l]) == Names(labels) + {l.displayName}
  {
    assert (labels + [l])[..|labels|] == labels;
  }

  /** When the rest of the names resolve, an error at `i` is the error of the whole list. */
  lemma {:induction false} ResolveFailsAt(names: seq<string>, i: nat, lookup: LabelLookup)
    requires i < |names| && Resolve(names[..i], lookup).Ok? && lookup(names[i]).Err?
    ensures Resolve(names, lookup) == Err(lookup(names[i]).error)
    decreases |names|
  {
    var init := names[..|names| - 1];
    if i < |names| - 1 {
      assert init[..i] == names[..i];
      assert init[i] == names[i];
      ResolveFailsAt(init, i, lookup);
    } else {
      assert init == names[..i];
    }
  }

  lemma ResolveSnocOk(names: seq<string>, i: nat, lookup: LabelLookup, l: Label)
    requires i < |names| && Resolve(names[..i], lookup).Ok? && lookup(names[i]) == Ok(l)
    ensures Resolve(names[..i + 1], lookup) == Ok(Resolve(names[..i], lookup).value + [l])
  {
    assert names[..i + 1][..i] == names[..i];
  }

  // ---------------------------------------------------------------------------
  // The command's label step

  /** The set of display names to delete, built from the flag's list. */
  method DeleteSet(deleteStrs: seq<string>) returns (deleteSet: set<string>)
    ensures forall d :: d in deleteSet <==> d in deleteStrs
  {
    deleteSet := {};
    for i := 0 to |deleteStrs|
      invariant forall d :: d in deleteSet <==> d in deleteStrs[..i]
    {
      assert deleteStrs[..i + 1] == deleteStrs[..i] + [deleteStrs[i]];
      deleteSet := deleteSet + {deleteStrs[i]};
    }
    assert deleteStrs[..|deleteStrs|] == deleteStrs;
  }

  /** The loop over the record's labels: the ones not deleted, and the set of their display names. */
  method KeepLabels(recordLabels: seq<Label>, deleteSet: set<string>) returns (labels: seq<Label>, labelSet: set<string>)
    ensures labels == Kept(recordLabels, deleteSet)
    ensures labelSet == Names(labels)
  {
    labels, labelSet := [], {};
    for i := 0 to |recordLabels|
      invariant labels == Kept(recordLabels[..i], deleteSet)
      invariant labelSet == Names(labels)
    {
      var lbl := recordLabels[i];
      KeptPrefix(recordLabels, i, deleteSet);
      if lbl.displayName in deleteSet {
        continue;
      }
      NamesSnoc(labels, lbl);
      labelSet := labelSet + {lbl.displayName};
      labels := labels + [lbl];
    }
    assert recordLabels[..|recordLabels|] == recordLabels;
  }

  /** The loop over the append names: each one not in `labelSet` is looked up and added to `labels`. */
  method AppendLabels(labels: seq<Label>, labelSet: set<string>, appendStrs: seq<string>, lookup: LabelLookup)
    returns (r: Result<seq<Label>, string>)
    ensures r == (match Resolve(ToAppend(appendStrs, labelSet), lookup)
                  case Err(e) => Err(e)
                  case Ok(added) => Ok(labels + added))
  {
    var out := labels;
    ghost var added: seq<Label> := [];
    for i := 0 to |appendStrs|
      invariant out == labels + added
      invariant Resolve(ToAppend(appendStrs[..i], labelSet), lookup) == Ok(added)
    {
      var labelStr := appendStrs[i];
      if labelStr in labelSet {
        AppendSkips(appendStrs, i, labelSet, lookup);
        continue;
      }
      var appendLabel := lookup(labelStr);
      if appendLabel.Err? {
        AppendFailsAt(appendStrs, i, labelSet, lookup);
        return Err(appendLabel.error);
      }
      AppendAdds(appendStrs, i, labelSet, lookup, appendLabel.value);
      added := added + [appendLabel.value];
      out := out + [appendLabel.value];
    }
    assert appendStrs[..|appendStrs|] == appendStrs;
    return Ok(out);
  }

  /** The loop over the update names: each one is looked up and added to `labels`. */
  method AddUpdateLabels(labels: seq<Label>, updateStrs: seq<string>, lookup: LabelLookup)
    returns (r: Result<seq<Label>, string>)
    ensures r == (match Resolve(updateStrs, lookup) case Err(e) => Err(e) case Ok(extra) => Ok(labels + extra))
  {
    var out := labels;
    ghost var extra: seq<Label> := [];
    for i := 0 to |updateStrs|
      invariant out == labels + extra
      invariant Resolve(updateStrs[..i], lookup) == Ok(extra)
    {
      var updateLabel := lookup(updateStrs[i]);
      if updateLabel.Err? {
        ResolveFailsAt(updateStrs, i, lookup);
        return Err(updateLabel.error);
      }
      ResolveSnocOk(updateStrs, i, lookup, updateLabel.value);
      extra := extra + [updateLabel.value];
      out := out + [updateLabel.value];
    }
    assert updateStrs[..|updateStrs|] == updateStrs;
    return Ok(out);
  }

  /**
   * The labels of NewUpdateCommand's Run: the delete set, the kept record labels, the
   * added append labels, then the update labels or the clearing. An error from Get or
   * from a label lookup ends the command.
   */
  method MergeLabels(current: Result<seq<Label>, string>, appendStrs: seq<string>, deleteStrs: seq<string>,
                     updateStrs: seq<string>, lookup: LabelLookup) returns (r: Result<seq<Label>, string>)
    ensures r == MergedLabels(current, appendStrs, deleteStrs, updateStrs, lookup)
  {
    var labels: seq<Label> := [];
    if |appendStrs| > 0 || |deleteStrs| > 0 {
      var deleteSet := DeleteSet(deleteStrs);
      assert deleteSet == set d | d in deleteStrs;
      if current.Err? {
        return Err(current.error);
      }
      var labelSet;
      labels, labelSet := KeepLabels(current.value, deleteSet);
      var appended := AppendLabels(labels, labelSet, appendStrs, lookup);
      if appended.Err? {
        return Err(appended.error);
      }
      labels := appended.value;
    }
    if |updateStrs| == 1 && updateStrs[0] == "" {
      assert updateStrs == [""];
      return Ok([]);
    }
    r := AddUpdateLabels(labels, updateStrs, lookup);
  }

  // ---------------------------------------------------------------------------
  // The field mask

  /** Where a path sits in the mask's fixed order. */
  function Rank(path: string): int {
    if path == "title" then 0 else if path == "description" then 1 else 2
  }

  /**
   * The update's field mask: "title" when a title is given, "description" when a
   * description is given, "labels" when any label list is non-empty, in that order.
   */
  method FieldMask(title: string, description: string, appendStrs: seq<string>, updateStrs: seq<string>,
                   deleteStrs: seq<string>) returns (paths: seq<string>)
    ensures "title" in paths <==> title != ""
    ensures "description" in paths <==> description != ""
    ensures "labels" in paths <==> |appendStrs| > 0 || |updateStrs| > 0 || |deleteStrs| > 0
    ensures forall p :: p in paths ==> p in ["title", "description", "labels"]
    ensures forall i, j :: 0 <= i < j < |paths| ==> Rank(paths[i]) < Rank(paths[j])
  {
    paths := [];
    if title != "" {
      paths := paths + ["title"];
    }
    if description != "" {
      paths := paths + ["description"];
    }
    if |appendStrs| > 0 || |updateStrs| > 0 || |deleteStrs| > 0 {
      paths := paths + ["labels"];
    }
  }

  // ---------------------------------------------------------------------------
  // What the label step promises

  /** An update list of only the empty string clears the labels, whatever was appended. */
  lemma ClearingUpdateEmptiesLabels(current: Result<seq<Label>, string>, appendStrs: seq<string>,
                                    deleteStrs: seq<string>, lookup: LabelLookup)
    ensures var r := MergedLabels(current, appendStrs, deleteStrs, [""], lookup);
      r.Ok? ==> r.value == []
    ensures appendStrs == [] && deleteStrs == [] ==> MergedLabels(current, appendStrs, deleteStrs, [""], lookup) == Ok([])
  {
  }

  /** "--update-labels" given with no value: the labels are cleared and "labels" is in the mask. */
  lemma ExplicitEmptyUpdateClears(current: Result<seq<Label>, string>, lookup: LabelLookup)
    ensures MergedLabels(current, [], [], EffectiveUpdateLabels(true, []), lookup) == Ok([])
    ensures EffectiveUpdateLabels(true, []) != []
  {
  }

  /** Without labels to append or delete, the update labels replace the record's, which are not fetched. */
  lemma UpdateOnlyReplaces(current: Result<seq<Label>, string>, updateStrs: seq<string>, lookup: LabelLookup)
    requires updateStrs != [""]
    ensures MergedLabels(current, [], [], updateStrs, lookup) == Resolve(updateStrs, lookup)
  {
    match Resolve(updateStrs, lookup)
    case Err(e) =>
    case Ok(extra) => assert [] + extra == extra;
  }

  /** Deleting only: the record's labels minus the deleted display names, in record order. */
  lemma DeleteOnlyKeepsTheRest(labels: seq<Label>, deleteStrs: seq<string>, lookup: LabelLookup)
    requires deleteStrs != []
    ensures var r := MergedLabels(Ok(labels), [], deleteStrs, [], lookup);
      r == Ok(Kept(labels, set d | d in deleteStrs)) &&
      forall l :: l in r.value <==> l in labels && l.displayName !in deleteStrs
  {
    var kept := Kept(labels, set d | d in deleteStrs);
    assert ToAppend([], Names(kept)) == [];
    assert kept + [] == kept;
  }

  /** Appending display names the record already has changes nothing and looks nothing up. */
  lemma AppendingPresentLabelsIsNoOp(labels: seq<Label>, appendStrs: seq<string>, lookup: LabelLookup)
    requires appendStrs != []
    requires forall a :: a in appendStrs ==> exists l :: l in labels && l.displayName == a
    ensures MergedLabels(Ok(labels), appendStrs, [], [], lookup) == Ok(labels)
  {
    var kept := Kept(labels, set d | d in []);
    KeptNothingDeleted(labels);
    assert (set d: string | d in []) == {};
    assert forall a :: a in appendStrs ==> a in Names(kept) by {
      forall a | a in appendStrs
        ensures a in Names(kept)
      {
        var l :| l in labels && l.displayName == a;
        assert l in kept;
      }
    }
    ToAppendAllPresent(appendStrs, Names(kept));
    assert kept + [] == kept;
    assert labels + [] == labels;
  }

  lemma {:induction false} KeptNothingDeleted(labels: seq<Label>)
    ensures Kept(labels, {}) == labels
    decreases |labels|
  {
    if labels != [] {
      KeptNothingDeleted(labels[..|labels| - 1]);
      assert labels[..|labels| - 1] + [labels[|labels| - 1]] == labels;
    }
  }

  /**
   * Each new append name is looked up and added as often as it is listed: the set of
   * display names on the record is not extended while appending.
   */
  lemma RepeatedAppendAddsTwice(labels: seq<Label>, a: string, l: Label, lookup: LabelLookup)
    requires forall x :: x in labels ==> x.displayName != a
    requires lookup(a) == Ok(l)
    ensures MergedLabels(Ok(labels), [a, a], [], [], lookup) == Ok(labels + [l, l])
  {
    var noDeletes: seq<string> := [];
    assert (set d | d in noDeletes) == {};
    KeptNothingDeleted(labels);
    NotInNames(labels, a);
    var present := Names(labels);
    assert [a] == [] + [a] && [a, a] == [a] + [a];
    ToAppendSnoc([], a, present);
    ToAppendSnoc([a], a, present);
    assert ToAppend([a, a], present) == [a, a];
    var none: seq<string> := [];
    assert Resolve(none, lookup) == Ok([]);
    ResolveSnoc(none, a, lookup);
    assert [] + [l] == [l] && [l] + [l] == [l, l];
    assert Resolve([a], lookup) == Ok([l]);
    ResolveSnoc([a], a, lookup);
    assert Resolve([a, a], lookup) == Ok([l, l]);
    assert AppendStep(Ok(labels), [a, a], noDeletes, lookup) == Ok(labels + [l, l]);
    assert Resolve([], lookup) == Ok([]);
    assert labels + [l, l] + [] == labels + [l, l];
  }

  /** Deleting and appending the same name drops the record's label and adds the looked-up one at the end. */
  lemma DeleteThenAppendMovesToEnd(labels: seq<Label>, a: string, l: Label, lookup: LabelLookup)
    requires lookup(a) == Ok(l)
    ensures MergedLabels(Ok(labels), [a], [a], [], lookup) == Ok(Kept(labels, {a}) + [l])
  {
    var kept := Kept(labels, {a});
    assert (set d | d in [a]) == {a};
    NotInNames(kept, a);
    assert [a] == [] + [a];
    ToAppendSnoc([], a, Names(kept));
    assert ToAppend([a], Names(kept)) == [a];
    var none: seq<string> := [];
    assert Resolve(none, lookup) == Ok([]);
    ResolveSnoc(none, a, lookup);
    assert [] + [l] == [l];
    assert Resolve([a], lookup) == Ok([l]);
    assert AppendStep(Ok(labels), [a], [a], lookup) == Ok(kept + [l]);
    assert Resolve([], lookup) == Ok([]);
    assert kept + [l] + [] == kept + [l];
  }
}

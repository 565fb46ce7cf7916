/**
 * The pure part of every store action in src/store/formStore.ts: the map,
 * filter and merge that compute the next form document from the current one.
 * `FormStore.Store` applies these to its `currentForm`.
 */
module FormOps {
  import opened Wrappers
  import opened FormTypes
  import opened Seqs
  import Strings

  // ---------------------------------------------------------------- lookups

  /** `fields.findIndex(f => f.id === id)`: the first position holding `id`, or -1. */
  function FieldIndex(fields: seq<FormField>, id: string): (r: int)
    ensures -1 <= r < |fields|
    ensures r == -1 <==> forall k :: 0 <= k < |fields| ==> fields[k].id != id
    ensures r >= 0 ==> fields[r].id == id && forall k :: 0 <= k < r ==> fields[k].id != id
  {
    FirstIndex(fields, (f: FormField) => f.id == id)
  }

  /**
   * The id list and the index search agree: an id is listed exactly when the
   * search finds it, and the list holds it at the position the search reports.
   */
  lemma IdsOfFieldIndex(fields: seq<FormField>, id: string)
    ensures id in IdsOf(fields) <==> FieldIndex(fields, id) >= 0
    ensures FieldIndex(fields, id) >= 0 ==> IdsOf(fields)[FieldIndex(fields, id)] == id
  {
  }

  /** `fields.find(f => f.id === id)`. */
  function FindField(fields: seq<FormField>, id: string): Option<FormField>
  {
    var i := FieldIndex(fields, id);
    if i >= 0 then Some(fields[i]) else None
  }

  /** `steps.findIndex(s => s.id === id)`. */
  function StepIndex(steps: seq<FormStep>, id: string): (r: int)
    ensures -1 <= r < |steps|
    ensures r == -1 <==> forall k :: 0 <= k < |steps| ==> steps[k].id != id
    ensures r >= 0 ==> steps[r].id == id && forall k :: 0 <= k < r ==> steps[k].id != id
  {
    FirstIndex(steps, (s: FormStep) => s.id == id)
  }

  /** `steps.find(s => s.id === id)`. */
  function FindStep(steps: seq<FormStep>, id: string): Option<FormStep>
  {
    var i := StepIndex(steps, id);
    if i >= 0 then Some(steps[i]) else None
  }

  /** No two fields of the list share an id. */
  predicate DistinctIds(fields: seq<FormField>) {
    forall a, b :: 0 <= a < b < |fields| ==> fields[a].id != fields[b].id
  }

  /** How many steps carry the id `id`. */
  function Occurrences(steps: seq<FormStep>, id: string): nat
  {
    if steps == [] then 0 else Occurrences(steps[..|steps| - 1], id) + (if steps[|steps| - 1].id == id then 1 else 0)
  }

  /** `steps.reduce((total, step) => total + step.fields.length, 0)`. */
  function FieldCount(steps: seq<FormStep>): nat
  {
    if steps == [] then 0 else FieldCount(steps[..|steps| - 1]) + |steps[|steps| - 1].fields|
  }

  /** The field total is the number of fields in the flattened list of all fields. */
  lemma {:induction false} FieldCountIsAllFields(steps: seq<FormStep>)
    ensures FieldCount(steps) == |AllFields(steps)|
  {
    if steps != [] {
      FieldCountIsAllFields(steps[..|steps| - 1]);
    }
  }

  // ---------------------------------------------------------------- fields

  /** `{ ...fieldData, id, order }`: the field `addField` creates. */
  function NewField(draft: FieldDraft, id: string, order: int): FormField
  {
    FormField(id, draft.fieldType, draft.labelText, draft.placeholder, draft.required,
              draft.helpText, draft.options, draft.validation, order)
  }

  /** `steps.find(s => s.id === stepId)?.fields.length || 0`: the order given to a new field. */
  function PriorCount(steps: seq<FormStep>, stepId: string): nat
  {
    match FindStep(steps, stepId)
    case Some(s) => |s.fields|
    case None => 0
  }

  /**
   * `addField`'s document change: every step with id `stepId` gets the new
   * field appended last, with order equal to the field count of the first such
   * step; all other steps stay as they were, and only `updatedAt` changes
   * besides the steps.
   */
  function AddField(form: Form, stepId: string, draft: FieldDraft, fieldId: string, now: int): (r: Form)
    ensures r == form.(steps := r.steps, updatedAt := now)
    ensures |r.steps| == |form.steps|
    ensures forall i :: 0 <= i < |form.steps| && form.steps[i].id != stepId ==> r.steps[i] == form.steps[i]
    ensures forall i :: 0 <= i < |form.steps| && form.steps[i].id == stepId ==>
      && r.steps[i] == form.steps[i].(fields := r.steps[i].fields)
      && |r.steps[i].fields| == |form.steps[i].fields| + 1
      && r.steps[i].fields[..|form.steps[i].fields|] == form.steps[i].fields
      && r.steps[i].fields[|form.steps[i].fields|] == NewField(draft, fieldId, PriorCount(form.steps, stepId))
    ensures StepIndex(form.steps, stepId) >= 0 ==>
      var s := r.steps[StepIndex(form.steps, stepId)];
      s.fields[|s.fields| - 1].order == |s.fields| - 1
  {
    var field := NewField(draft, fieldId, PriorCount(form.steps, stepId));
    var steps := seq(|form.steps|, i requires 0 <= i < |form.steps| =>
      if form.steps[i].id == stepId then form.steps[i].(fields := form.steps[i].fields + [field]) else form.steps[i]);
    form.(steps := steps, updatedAt := now)
  }

  /**
   * Each step with id `stepId` gains one field and no other step changes, so
   * the form's field total grows by the number of such steps (by one when step
   * ids are unique).
   */
  lemma AddFieldCount(form: Form, stepId: string, draft: FieldDraft, fieldId: string, now: int)
    ensures FieldCount(AddField(form, stepId, draft, fieldId, now).steps) == FieldCount(form.steps) + Occurrences(form.steps, stepId)
  {
    GrowthCount(form.steps, AddField(form, stepId, draft, fieldId, now).steps, stepId);
  }

  lemma {:induction false} GrowthCount(a: seq<FormStep>, b: seq<FormStep>, id: string)
    requires |a| == |b|
    requires forall i :: 0 <= i < |a| ==> |b[i].fields| == |a[i].fields| + (if a[i].id == id then 1 else 0)
    ensures FieldCount(b) == FieldCount(a) + Occurrences(a, id)
  {
    if a != [] {
      GrowthCount(a[..|a| - 1], b[..|b| - 1], id);
    }
  }

  /** `{ ...field, ...updates }`: every property the patch gives wins. */
  function MergeField(f: FormField, p: FieldPatch): FormField
  {
    FormField(
      p.id.GetOr(f.id), p.fieldType.GetOr(f.fieldType), p.labelText.GetOr(f.labelText),
      p.placeholder.GetOr(f.placeholder), p.required.GetOr(f.required), p.helpText.GetOr(f.helpText),
      p.options.GetOr(f.options), p.validation.GetOr(f.validation), p.order.GetOr(f.order))
  }

  /** A patch with no properties. */
  const NoFieldChanges := FieldPatch(None, None, None, None, None, None, None, None, None)

  /** Merging an empty patch changes nothing, and merging the same patch twice is merging it once. */
  lemma MergeFieldLaws(f: FormField, p: FieldPatch)
    ensures MergeField(f, NoFieldChanges) == f
    ensures MergeField(MergeField(f, p), p) == MergeField(f, p)
  {
  }

  /**
   * `updateField`'s document change: every field whose id is `fieldId`, in
   * every step, has the patch merged in; every other field, the shape of every
   * step and everything but `updatedAt` stay as they were.
   */
  function UpdateField(form: Form, fieldId: string, patch: FieldPatch, now: int): (r: Form)
    ensures r == form.(steps := r.steps, updatedAt := now)
    ensures |r.steps| == |form.steps|
    ensures forall i :: 0 <= i < |form.steps| ==>
      r.steps[i] == form.steps[i].(fields := r.steps[i].fields) && |r.steps[i].fields| == |form.steps[i].fields|
    ensures forall i, k :: 0 <= i < |form.steps| && 0 <= k < |form.steps[i].fields| && form.steps[i].fields[k].id != fieldId ==>
      r.steps[i].fields[k] == form.steps[i].fields[k]
    ensures forall i, k :: 0 <= i < |form.steps| && 0 <= k < |form.steps[i].fields| && form.steps[i].fields[k].id == fieldId ==>
      r.steps[i].fields[k] == MergeField(form.steps[i].fields[k], patch)
  {
    var steps := seq(|form.steps|, i requires 0 <= i < |form.steps| =>
      var fs := form.steps[i].fields;
      form.steps[i].(fields := seq(|fs|, k requires 0 <= k < |fs| => if fs[k].id == fieldId then MergeField(fs[k], patch) else fs[k])));
    form.(steps := steps, updatedAt := now)
  }

  /** `fields.filter(field => field.id !== id)`. */
  function WithoutField(fields: seq<FormField>, id: string): seq<FormField>
  {
    Filter(fields, (f: FormField) => f.id != id)
  }

  /**
   * `deleteField`'s document change: no field with id `fieldId` is left in any
   * step; every other field stays, in its step and in its relative order, with
   * its `order` value untouched (the remaining orders are not renumbered).
   */
  function DeleteField(form: Form, fieldId: string, now: int): (r: Form)
    ensures r == form.(steps := r.steps, updatedAt := now)
    ensures |r.steps| == |form.steps|
    ensures forall i :: 0 <= i < |form.steps| ==> r.steps[i] == form.steps[i].(fields := WithoutField(form.steps[i].fields, fieldId))
    ensures forall i, k :: 0 <= i < |r.steps| && 0 <= k < |r.steps[i].fields| ==>
      r.steps[i].fields[k].id != fieldId && r.steps[i].fields[k] in form.steps[i].fields
    ensures forall i, k :: 0 <= i < |form.steps| && 0 <= k < |form.steps[i].fields| && form.steps[i].fields[k].id != fieldId ==>
      form.steps[i].fields[k] in r.steps[i].fields
  {
    var steps := seq(|form.steps|, i requires 0 <= i < |form.steps| =>
      form.steps[i].(fields := WithoutField(form.steps[i].fields, fieldId)));
    form.(steps := steps, updatedAt := now)
  }

  /** Deleting an id that no field carries leaves every step exactly as it was. */
  lemma DeleteAbsentField(form: Form, fieldId: string, now: int)
    requires forall i, k :: 0 <= i < |form.steps| && 0 <= k < |form.steps[i].fields| ==> form.steps[i].fields[k].id != fieldId
    ensures DeleteField(form, fieldId, now).steps == form.steps
  {
    var r := DeleteField(form, fieldId, now);
    forall i | 0 <= i < |form.steps|
      ensures r.steps[i] == form.steps[i]
    {
      FilterAll(form.steps[i].fields, (f: FormField) => f.id != fieldId);
    }
  }

  /** How many of `ids` name a field of the list. */
  function FoundCount(fields: seq<FormField>, ids: seq<string>): nat
  {
    if ids == [] then 0 else FoundCount(fields, ids[..|ids| - 1]) + (if FieldIndex(fields, ids[|ids| - 1]) >= 0 then 1 else 0)
  }

  /**
   * `fieldIds.map((id, index) => field ? { ...field, order: index } : null).filter(Boolean)`:
   * for each id, in the order of `ids`, the first field carrying it, with its
   * `order` set to the id's position in `ids`; ids naming no field are dropped.
   * The contract pins the result down: each element is a field of the list
   * re-numbered to a position of `ids` holding its id, the positions strictly
   * increase, and there is one element per id that names a field.
   */
  function Reordered(fields: seq<FormField>, ids: seq<string>): (r: seq<FormField>)
    ensures |r| == FoundCount(fields, ids) <= |ids|
    ensures forall k :: 0 <= k < |r| ==> 0 <= r[k].order < |ids| && ids[r[k].order] == r[k].id
    ensures forall k :: 0 <= k < |r| ==> FieldIndex(fields, r[k].id) >= 0 && r[k] == fields[FieldIndex(fields, r[k].id)].(order := r[k].order)
    ensures forall k, l :: 0 <= k < l < |r| ==> r[k].order < r[l].order
  {
    if ids == [] then []
    else
      var j := |ids| - 1;
      var front := Reordered(fields, ids[..j]);
      var i := FieldIndex(fields, ids[j]);
      if i >= 0 then front + [fields[i].(order := j)] else front
  }

  /** When every id names a field, the result has one field per id, in the order of `ids`, numbered 0, 1, 2, ... */
  lemma {:induction false} ReorderedAllFound(fields: seq<FormField>, ids: seq<string>)
    requires forall j :: 0 <= j < |ids| ==> FieldIndex(fields, ids[j]) >= 0
    ensures |Reordered(fields, ids)| == |ids|
    ensures forall k :: 0 <= k < |ids| ==> Reordered(fields, ids)[k] == fields[FieldIndex(fields, ids[k])].(order := k)
  {
    if ids != [] {
      var j := |ids| - 1;
      ReorderedAllFound(fields, ids[..j]);
    }
  }

  /**
   * When `ids` is a rearrangement of the ids of fields that are unique, the
   * reordered list holds exactly the same fields, now in the order of `ids`,
   * with `order` values 0 .. n-1.
   */
  lemma ReorderedPermutation(fields: seq<FormField>, ids: seq<string>)
    requires DistinctIds(fields)
    requires multiset(ids) == multiset(IdsOf(fields))
    ensures |Reordered(fields, ids)| == |fields|
    ensures IdsOf(Reordered(fields, ids)) == ids
    ensures forall k :: 0 <= k < |fields| ==> Reordered(fields, ids)[k].order == k
    ensures forall m :: 0 <= m < |fields| ==> exists k :: 0 <= k < |fields| && Reordered(fields, ids)[k] == fields[m].(order := k)
  {
    assert |ids| == |multiset(ids)| == |multiset(IdsOf(fields))| == |fields|;
    EveryIdFound(fields, ids);
    ReorderedAllFound(fields, ids);
    var r := Reordered(fields, ids);
    forall m | 0 <= m < |fields|
      ensures exists k :: 0 <= k < |fields| && r[k] == fields[m].(order := k)
    {
      var k := PositionOf(fields, ids, m);
      assert r[k] == fields[m].(order := k);
    }
  }

  lemma EveryIdFound(fields: seq<FormField>, ids: seq<string>)
    requires multiset(ids) == multiset(IdsOf(fields))
    ensures forall j :: 0 <= j < |ids| ==> FieldIndex(fields, ids[j]) >= 0
  {
    forall j | 0 <= j < |ids|
      ensures FieldIndex(fields, ids[j]) >= 0
    {
      assert ids[j] in multiset(IdsOf(fields));
      var m :| 0 <= m < |fields| && IdsOf(fields)[m] == ids[j];
    }
  }

  /** Where the id of field `m` stands in `ids`, and that the lookup of it finds field `m` again. */
  lemma PositionOf(fields: seq<FormField>, ids: seq<string>, m: nat) returns (k: nat)
    requires DistinctIds(fields)
    requires multiset(ids) == multiset(IdsOf(fields))
    requires m < |fields|
    ensures k < |ids| && ids[k] == fields[m].id && FieldIndex(fields, ids[k]) == m
  {
    assert IdsOf(fields)[m] in multiset(ids);
    k :| 0 <= k < |ids| && ids[k] == fields[m].id;
  }

  /**
   * `reorderFields`' document change: every step with id `stepId` has its
   * field list replaced by `Reordered(fields, ids)`; all other steps stay.
   */
  function ReorderFields(form: Form, stepId: string, ids: seq<string>, now: int): (r: Form)
    ensures r == form.(steps := r.steps, updatedAt := now)
    ensures |r.steps| == |form.steps|
    ensures forall i :: 0 <= i < |form.steps| && form.steps[i].id != stepId ==> r.steps[i] == form.steps[i]
    ensures forall i :: 0 <= i < |form.steps| && form.steps[i].id == stepId ==>
      r.steps[i] == form.steps[i].(fields := Reordered(form.steps[i].fields, ids))
  {
    var steps := seq(|form.steps|, i requires 0 <= i < |form.steps| =>
      if form.steps[i].id == stepId then form.steps[i].(fields := Reordered(form.steps[i].fields, ids)) else form.steps[i]);
    form.(steps := steps, updatedAt := now)
  }

  // ---------------------------------------------------------------- steps

  /** The title `addStep` gives its new step: `Step ${steps.length + 1}`. */
  function StepTitle(n: nat): string
  {
    "Step " + Strings.IntToString(n)
  }

  /**
   * `addStep`'s document change: a new empty step is appended last, titled
   * `Step n+1` with order n (n the prior step count); the settings become
   * multi-step; every earlier step stays.
   */
  function AddStep(form: Form, stepId: string, now: int): (r: Form)
    ensures r == form.(steps := r.steps, settings := form.settings.(multiStep := true), updatedAt := now)
    ensures |r.steps| == |form.steps| + 1
    ensures r.steps[..|form.steps|] == form.steps
    ensures r.steps[|form.steps|] == FormStep(stepId, StepTitle(|form.steps| + 1), [], |form.steps|)
    ensures FieldCount(r.steps) == FieldCount(form.steps)
  {
    var step := FormStep(stepId, StepTitle(|form.steps| + 1), [], |form.steps|);
    var r := form.(steps := form.steps + [step], settings := form.settings.(multiStep := true), updatedAt := now);
    assert r.steps[..|form.steps|] == form.steps;
    r
  }

  /** `{ ...step, ...updates }`. */
  function MergeStep(s: FormStep, p: StepPatch): FormStep
  {
    FormStep(p.id.GetOr(s.id), p.title.GetOr(s.title), p.fields.GetOr(s.fields), p.order.GetOr(s.order))
  }

  /** `updateStep`'s document change: steps with id `stepId` get the patch merged in; the others stay. */
  function UpdateStep(form: Form, stepId: string, patch: StepPatch, now: int): (r: Form)
    ensures r == form.(steps := r.steps, updatedAt := now)
    ensures |r.steps| == |form.steps|
    ensures forall i :: 0 <= i < |form.steps| ==>
      r.steps[i] == if form.steps[i].id == stepId then MergeStep(form.steps[i], patch) else form.steps[i]
  {
    var steps := seq(|form.steps|, i requires 0 <= i < |form.steps| =>
      if form.steps[i].id == stepId then MergeStep(form.steps[i], patch) else form.steps[i]);
    form.(steps := steps, updatedAt := now)
  }

  /**
   * `deleteStep`'s document change: every step with id `stepId` is removed,
   * the others stay in their relative order with their own `order` values.
   */
  function DeleteStep(form: Form, stepId: string, now: int): (r: Form)
    ensures r == form.(steps := r.steps, updatedAt := now)
    ensures forall k :: 0 <= k < |r.steps| ==> r.steps[k].id != stepId && r.steps[k] in form.steps
    ensures forall k :: 0 <= k < |form.steps| && form.steps[k].id != stepId ==> form.steps[k] in r.steps
    ensures |r.steps| == |form.steps| - Occurrences(form.steps, stepId)
    ensures r.steps == Filter(form.steps, (s: FormStep) => s.id != stepId)
  {
    var keep := (s: FormStep) => s.id != stepId;
    FilterLength(form.steps, keep);
    OccurrencesComplement(form.steps, stepId, keep);
    form.(steps := Filter(form.steps, keep), updatedAt := now)
  }

  /**
   * Deleting a step keeps the survivors in their order: deleting from a
   * concatenation is the concatenation of the deletions.
   */
  lemma DeleteStepKeepsOrder(form: Form, front: seq<FormStep>, back: seq<FormStep>, stepId: string, now: int)
    requires form.steps == front + back
    ensures DeleteStep(form, stepId, now).steps
         == DeleteStep(form.(steps := front), stepId, now).steps + DeleteStep(form.(steps := back), stepId, now).steps
  {
    FilterAppend(front, back, (s: FormStep) => s.id != stepId);
  }

  lemma {:induction false} OccurrencesComplement(steps: seq<FormStep>, id: string, keep: FormStep -> bool)
    requires forall s :: keep(s) == (s.id != id)
    ensures CountWhere(steps, keep) == |steps| - Occurrences(steps, id)
  {
    if steps != [] {
      OccurrencesComplement(steps[..|steps| - 1], id, keep);
    }
  }

  // ---------------------------------------------------------------- responses

  /** `responses.filter(response => response.formId === formId)`. */
  function ResponsesFor(responses: seq<FormResponse>, formId: string): (r: seq<FormResponse>)
    ensures forall k :: 0 <= k < |r| ==> r[k].formId == formId && r[k] in responses
    ensures forall k :: 0 <= k < |responses| && responses[k].formId == formId ==> responses[k] in r
  {
    Filter(responses, (x: FormResponse) => x.formId == formId)
  }

  /**
   * A response added to the log shows up last among its own form's responses
   * and leaves every other form's list as it was.
   */
  lemma ResponsesForAppend(responses: seq<FormResponse>, x: FormResponse, formId: string)
    ensures ResponsesFor(responses + [x], formId)
         == ResponsesFor(responses, formId) + (if x.formId == formId then [x] else [])
  {
    FilterAppend(responses, [x], (y: FormResponse) => y.formId == formId);
    assert Filter([x], (y: FormResponse) => y.formId == formId) == (if x.formId == formId then [x] else []) by {
      assert [x][1..] == [];
    }
  }

  /** The number of matching responses, counted independently of the filter. */
  lemma ResponsesForCount(responses: seq<FormResponse>, formId: string)
    ensures |ResponsesFor(responses, formId)| == CountWhere(responses, (x: FormResponse) => x.formId == formId)
  {
    FilterLength(responses, (x: FormResponse) => x.formId == formId);
  }
}

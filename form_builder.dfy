/**
 * The two pieces of logic in src/components/FormBuilder.tsx: `handleDragEnd`,
 * which turns a finished drag into store calls, and `formatLastSaved`, which
 * turns the time since the last save into a short message.
 */
module FormBuilder {
  import opened Wrappers
  import opened FormTypes
  import opened Strings
  import opened FormOps

  // ---------------------------------------------------------------- drag end

  /** A store action `handleDragEnd` dispatches. */
  datatype StoreCall =
    | AddFieldCall(stepId: string, draft: FieldDraft)
    | ReorderCall(stepId: string, ids: seq<string>)

  /** Palette items carry ids with this prefix. */
  const TemplatePrefix := "template_"
  /** Step drop zones carry ids with this prefix. */
  const StepPrefix := "step_"

  /** `{ ...draft, ...props }`: the properties a patch gives replace the draft's; `id` and `order` are not part of a draft. */
  function SpreadOver(draft: FieldDraft, props: FieldPatch): FieldDraft
  {
    FieldDraft(
      props.fieldType.GetOr(draft.fieldType), props.labelText.GetOr(draft.labelText),
      props.placeholder.GetOr(draft.placeholder), props.required.GetOr(draft.required),
      props.helpText.GetOr(draft.helpText), props.options.GetOr(draft.options),
      props.validation.GetOr(draft.validation))
  }

  /**
   * The field data a palette drop hands to `addField`: the template's type, the
   * default label if it is truthy or else the template's label, the default
   * `required` if truthy or else false, and then every default property spread
   * over these.
   */
  function DraftOf(t: FieldTemplate): FieldDraft
  {
    var dp := t.defaultProps;
    var base := FieldDraft(
      t.fieldType,
      if dp.labelText.Some? && dp.labelText.value != "" then dp.labelText.value else t.labelText,
      None,
      dp.required == Some(true),
      None, None, None);
    SpreadOver(base, dp)
  }

  /**
   * Because the defaults are spread last, the `||` fallbacks only matter for
   * properties the defaults leave out: a given label wins even when empty, and
   * a given `required` wins even when false.
   */
  lemma DraftOfDefaults(t: FieldTemplate)
    ensures DraftOf(t).labelText == t.defaultProps.labelText.GetOr(t.labelText)
    ensures DraftOf(t).required == t.defaultProps.required.GetOr(false)
    ensures DraftOf(t).fieldType == t.defaultProps.fieldType.GetOr(t.fieldType)
    ensures DraftOf(t).placeholder == t.defaultProps.placeholder.GetOr(None)
    ensures DraftOf(t).validation == t.defaultProps.validation.GetOr(None)
  {
  }

  /** Where `splice(to, 0, x)` inserts into a list of `n - 1` elements: `to`, clamped to the end. */
  function InsertAt(n: nat, to: nat): (at: nat)
    requires n >= 1
    ensures at < n
    ensures at == to || (to >= n - 1 && at == n - 1)
  {
    if to < n - 1 then to else n - 1
  }

  /**
   * `const [x] = ids.splice(from, 1); ids.splice(to, 0, x)`: take the element at
   * `from` out and put it back in at `to`. The result is a rearrangement of
   * `s` holding the moved element at the insertion point.
   */
  function Moved(s: seq<string>, from: nat, to: nat): (r: seq<string>)
    requires from < |s|
    ensures |r| == |s|
    ensures multiset(r) == multiset(s)
    ensures r[InsertAt(|s|, to)] == s[from]
  {
    var rest := s[..from] + s[from + 1..];
    var at := InsertAt(|s|, to);
    assert s == s[..from] + [s[from]] + s[from + 1..];
    assert multiset(s) == multiset(rest) + multiset{s[from]};
    assert rest == rest[..at] + rest[at..];
    rest[..at] + [s[from]] + rest[at..]
  }

  /** Where element `k` of a move comes from: untouched outside the stretch between the two positions, shifted by one inside it. */
  function MovedSource(from: nat, at: nat, k: nat): nat
  {
    if k == at then from
    else if from <= at && from <= k < at then k + 1
    else if at < from && at < k <= from then k - 1
    else k
  }

  /** A move, element by element. */
  lemma MovedElements(s: seq<string>, from: nat, to: nat)
    requires from < |s|
    ensures var at := InsertAt(|s|, to);
      forall k :: 0 <= k < |s| ==> MovedSource(from, at, k) < |s| && Moved(s, from, to)[k] == s[MovedSource(from, at, k)]
  {
    var rest := s[..from] + s[from + 1..];
    var at := InsertAt(|s|, to);
    var r := Moved(s, from, to);
    assert r == rest[..at] + [s[from]] + rest[at..];
    forall k | 0 <= k < |s|
      ensures MovedSource(from, at, k) < |s| && r[k] == s[MovedSource(from, at, k)]
    {
      if k < at {
        assert r[k] == rest[k];
      } else if k > at {
        assert r[k] == rest[k - 1];
      }
    }
  }

  /** Apart from the moved element, a move keeps every element in its relative order. */
  lemma MovedKeepsOthers(s: seq<string>, from: nat, to: nat)
    requires from < |s|
    ensures var r, at := Moved(s, from, to), InsertAt(|s|, to);
      r[..at] + r[at + 1..] == s[..from] + s[from + 1..]
  {
    var rest := s[..from] + s[from + 1..];
    var at := InsertAt(|s|, to);
    var r := Moved(s, from, to);
    assert r == rest[..at] + [s[from]] + rest[at..];
    assert r[..at] == rest[..at];
    assert r[at + 1..] == rest[at..];
  }

  /** Moving an element to a position past the end puts it last and keeps the others in order. */
  lemma MovedToEnd(s: seq<string>, from: nat)
    requires from < |s|
    ensures Moved(s, from, |s|) == s[..from] + s[from + 1..] + [s[from]]
  {
    var rest := s[..from] + s[from + 1..];
    assert InsertAt(|s|, |s|) == |rest|;
    assert rest[..|rest|] == rest && rest[|rest|..] == [];
  }

  /**
   * The two `splice` calls on the copied id array, done in place: the elements
   * between the two positions shift by one and the moved id lands at the
   * insertion point.
   */
  method MoveInPlace(a: array<string>, from: nat, to: nat)
    requires from < a.Length
    modifies a
    ensures a[..] == Moved(old(a[..]), from, to)
  {
    ghost var s := a[..];
    var at := InsertAt(a.Length, to);
    var x := a[from];
    if from <= at {
      var i := from;
      while i < at
        invariant from <= i <= at
        invariant forall k :: 0 <= k < from ==> a[k] == s[k]
        invariant forall k :: from <= k < i ==> a[k] == s[k + 1]
        invariant forall k :: i <= k < a.Length ==> a[k] == s[k]
      {
        a[i] := a[i + 1];
        i := i + 1;
      }
    } else {
      var i := from;
      while i > at
        invariant at <= i <= from
        invariant forall k :: 0 <= k <= i ==> a[k] == s[k]
        invariant forall k :: i < k <= from ==> a[k] == s[k - 1]
        invariant forall k :: from < k < a.Length ==> a[k] == s[k]
      {
        a[i] := a[i - 1];
        i := i - 1;
      }
    }
    a[at] := x;
    MovedElements(s, from, to);
    assert forall k :: 0 <= k < a.Length ==> a[k] == s[MovedSource(from, at, k)];
  }

  /**
   * Dropping an existing field on a step zone: the step whose id is `overId`
   * gets its id list with the dragged field moved to the end, provided the
   * dragged field is in that step.
   */
  function StepDrop(form: Form, activeId: string, overId: string): (r: seq<StoreCall>)
    ensures |r| <= 1
    ensures r != [] <==>
      && StartsWith(overId, StepPrefix)
      && StepIndex(form.steps, overId) >= 0
      && FieldIndex(form.steps[StepIndex(form.steps, overId)].fields, activeId) >= 0
    ensures r != [] ==> r[0].ReorderCall? && r[0].stepId == overId
  {
    if !StartsWith(overId, StepPrefix) then []
    else match FindStep(form.steps, overId)
      case None => []
      case Some(step) =>
        var oldIndex := FieldIndex(step.fields, activeId);
        if oldIndex == -1 then []
        else [ReorderCall(overId, Moved(IdsOf(step.fields), oldIndex, |step.fields|))]
  }

  /**
   * Dropping a field on another field of the step under the step cursor: that
   * step's id list with the dragged id moved to the target's position,
   * provided both ids are in the step.
   */
  function FieldDrop(form: Form, currentStepIndex: int, activeId: string, overId: string): (r: seq<StoreCall>)
    ensures |r| <= 1
    ensures r != [] <==>
      && activeId != overId
      && 0 <= currentStepIndex < |form.steps|
      && FieldIndex(form.steps[currentStepIndex].fields, activeId) >= 0
      && FieldIndex(form.steps[currentStepIndex].fields, overId) >= 0
    ensures r != [] ==> r[0].ReorderCall? && r[0].stepId == form.steps[currentStepIndex].id
  {
    if activeId == overId || !(0 <= currentStepIndex < |form.steps|) then []
    else
      var step := form.steps[currentStepIndex];
      var oldIndex := FieldIndex(step.fields, activeId);
      var newIndex := FieldIndex(step.fields, overId);
      if oldIndex == -1 || newIndex == -1 then []
      else [ReorderCall(step.id, Moved(IdsOf(step.fields), oldIndex, newIndex))]
  }

  /**
   * The store calls `handleDragEnd` makes, in order. A drop with no target or
   * with no form makes none; a palette item makes at most one `addField`; an
   * existing field can make a step-zone reorder and then a field-on-field
   * reorder, both worked out from the form as it was when the drag ended.
   */
  function DragEnd(form: Option<Form>, currentStepIndex: int, activeId: string,
                   over: Option<string>, template: Option<FieldTemplate>): (r: seq<StoreCall>)
    ensures over.None? || form.None? ==> r == []
    ensures |r| <= 2
  {
    if over.None? || form.None? then []
    else if StartsWith(activeId, TemplatePrefix) then
      if template.Some? && StartsWith(over.value, StepPrefix) then [AddFieldCall(over.value, DraftOf(template.value))] else []
    else StepDrop(form.value, activeId, over.value) + FieldDrop(form.value, currentStepIndex, activeId, over.value)
  }

  /**
   * Dragging an existing field (one whose id lacks the palette prefix) onto a
   * target of a loaded form makes exactly the step-zone call, if any, followed
   * by the field-on-field call, if any.
   */
  lemma FieldDragCalls(form: Form, currentStepIndex: int, activeId: string, overId: string, template: Option<FieldTemplate>)
    requires !StartsWith(activeId, TemplatePrefix)
    ensures DragEnd(Some(form), currentStepIndex, activeId, Some(overId), template)
         == StepDrop(form, activeId, overId) + FieldDrop(form, currentStepIndex, activeId, overId)
  {
  }

  /** A reorder call whose ids are a rearrangement of the field ids of a step carrying the call's step id. */
  predicate PermutesStep(form: Form, c: StoreCall)
  {
    && c.ReorderCall?
    && exists i :: 0 <= i < |form.steps| && form.steps[i].id == c.stepId && multiset(c.ids) == multiset(IdsOf(form.steps[i].fields))
  }

  /**
   * A palette drag adds exactly one field, to the step it was dropped on, when
   * the drop zone is a step and the template is known, and does nothing
   * otherwise; the new field's label and `required` follow the defaults.
   */
  lemma PaletteDrop(form: Option<Form>, currentStepIndex: int, activeId: string,
                    over: Option<string>, template: Option<FieldTemplate>)
    requires StartsWith(activeId, TemplatePrefix)
    ensures var r := DragEnd(form, currentStepIndex, activeId, over, template);
      && |r| <= 1
      && (|r| == 1 <==> form.Some? && over.Some? && template.Some? && StartsWith(over.value, StepPrefix))
      && (|r| == 1 ==>
            && r[0].AddFieldCall? && r[0].stepId == over.value
            && r[0].draft.labelText == template.value.defaultProps.labelText.GetOr(template.value.labelText)
            && r[0].draft.required == template.value.defaultProps.required.GetOr(false))
  {
    if template.Some? {
      DraftOfDefaults(template.value);
    }
  }

  /**
   * A drag of an existing field only ever reorders: each call it makes is a
   * rearrangement of the ids of a step with the call's step id. So, when that
   * step's ids are unique, `reorderFields` keeps every field of it
   * (`FormOps.ReorderedPermutation`).
   */
  lemma FieldDragPermutes(form: Form, currentStepIndex: int, activeId: string, overId: string, template: Option<FieldTemplate>)
    requires !StartsWith(activeId, TemplatePrefix)
    ensures var r := DragEnd(Some(form), currentStepIndex, activeId, Some(overId), template);
      forall k :: 0 <= k < |r| ==> PermutesStep(form, r[k])
  {
    var sd := StepDrop(form, activeId, overId);
    var fd := FieldDrop(form, currentStepIndex, activeId, overId);
    StepDropPermutes(form, activeId, overId);
    FieldDropPermutes(form, currentStepIndex, activeId, overId);
    assert DragEnd(Some(form), currentStepIndex, activeId, Some(overId), template) == sd + fd;
  }

  lemma StepDropPermutes(form: Form, activeId: string, overId: string)
    ensures forall k :: 0 <= k < |StepDrop(form, activeId, overId)| ==> PermutesStep(form, StepDrop(form, activeId, overId)[k])
  {
    var sd := StepDrop(form, activeId, overId);
    if sd != [] {
      var i := StepIndex(form.steps, overId);
      assert form.steps[i].id == sd[0].stepId;
      assert multiset(sd[0].ids) == multiset(IdsOf(form.steps[i].fields));
    }
  }

  lemma FieldDropPermutes(form: Form, currentStepIndex: int, activeId: string, overId: string)
    ensures forall k :: 0 <= k < |FieldDrop(form, currentStepIndex, activeId, overId)| ==>
      PermutesStep(form, FieldDrop(form, currentStepIndex, activeId, overId)[k])
  {
    var fd := FieldDrop(form, currentStepIndex, activeId, overId);
    if fd != [] {
      assert form.steps[currentStepIndex].id == fd[0].stepId;
      assert multiset(fd[0].ids) == multiset(IdsOf(form.steps[currentStepIndex].fields));
    }
  }

  /** A drop on a step zone moves the dragged field to the end of that step: it comes last and the rest keep their order. */
  lemma StepDropMovesToEnd(form: Form, activeId: string, overId: string)
    requires StepDrop(form, activeId, overId) != []
    ensures var c := StepDrop(form, activeId, overId)[0];
      var fields := FindStep(form.steps, overId).value.fields;
      var i := FieldIndex(fields, activeId);
      && c.stepId == overId
      && c.ids == IdsOf(fields)[..i] + IdsOf(fields)[i + 1..] + [activeId]
  {
    var fields := FindStep(form.steps, overId).value.fields;
    MovedToEnd(IdsOf(fields), FieldIndex(fields, activeId));
  }

  /**
   * A drop on another field reorders the step under the cursor: the dragged id
   * takes the target's old position and every other id keeps its relative order.
   */
  lemma FieldDropTakesTargetPlace(form: Form, currentStepIndex: int, activeId: string, overId: string)
    requires FieldDrop(form, currentStepIndex, activeId, overId) != []
    ensures var c := FieldDrop(form, currentStepIndex, activeId, overId)[0];
      var fields := form.steps[currentStepIndex].fields;
      var from, to := FieldIndex(fields, activeId), FieldIndex(fields, overId);
      && c.stepId == form.steps[currentStepIndex].id
      && c.ids == Moved(IdsOf(fields), from, to)
      && 0 <= to < |c.ids| && c.ids[to] == activeId
      && c.ids[..to] + c.ids[to + 1..] == IdsOf(fields)[..from] + IdsOf(fields)[from + 1..]
  {
    var fields := form.steps[currentStepIndex].fields;
    MovedKeepsOthers(IdsOf(fields), FieldIndex(fields, activeId), FieldIndex(fields, overId));
  }

  /** Copies the field ids into a fresh array (`[...step.fields.map(f => f.id)]`). */
  method IdArray(fields: seq<FormField>) returns (a: array<string>)
    ensures fresh(a)
    ensures a[..] == IdsOf(fields)
  {
    a := new string[|fields|];
    forall k | 0 <= k < |fields| {
      a[k] := fields[k].id;
    }
  }

  /** `handleDragEnd`: the store calls a drag makes, computed with the in-place array moves. */
  method HandleDragEnd(form: Option<Form>, currentStepIndex: int, activeId: string,
                       over: Option<string>, template: Option<FieldTemplate>) returns (calls: seq<StoreCall>)
    ensures calls == DragEnd(form, currentStepIndex, activeId, over, template)
  {
    calls := [];
    if over.None? || form.None? {
      return;
    }
    var overId := over.value;
    var f := form.value;
    if StartsWith(activeId, TemplatePrefix) {
      if template.Some? && StartsWith(overId, StepPrefix) {
        calls := [AddFieldCall(overId, DraftOf(template.value))];
      }
      return;
    }
    if StartsWith(overId, StepPrefix) {
      var found := FindStep(f.steps, overId);
      if found.Some? {
        var step := found.value;
        var oldIndex := FieldIndex(step.fields, activeId);
        if oldIndex != -1 {
          var ids := IdArray(step.fields);
          MoveInPlace(ids, oldIndex, |step.fields|);
          calls := calls + [ReorderCall(overId, ids[..])];
        }
      }
    }
    assert calls == StepDrop(f, activeId, overId);
    if activeId != overId && 0 <= currentStepIndex < |f.steps| {
      var step := f.steps[currentStepIndex];
      var oldIndex := FieldIndex(step.fields, activeId);
      var newIndex := FieldIndex(step.fields, overId);
      if oldIndex != -1 && newIndex != -1 {
        var ids := IdArray(step.fields);
        MoveInPlace(ids, oldIndex, newIndex);
        calls := calls + [ReorderCall(step.id, ids[..])];
      }
    }
  }

  // ---------------------------------------------------------------- last saved

  const MinuteMs := 60000
  const HourMs := 3600000

  /**
   * `formatLastSaved`: "Never" without a save, otherwise the whole minutes
   * since it (`Math.floor(diff / 60000)`; Dafny's `/` rounds down for a
   * positive divisor, as `Math.floor` does) as "Just now", "1 minute ago" or
   * "N minutes ago" below an hour, and the whole hours as "1 hour ago" or
   * "N hours ago" from there on. A save in the future gives a negative count.
   */
  function FormatLastSaved(lastSaved: Option<int>, now: int): (r: string)
    ensures r == "Never" <==> lastSaved.None?
  {
    match lastSaved
    case None => "Never"
    case Some(saved) =>
      var minutes := (now - saved) / MinuteMs;
      if minutes == 0 then "Just now"
      else if minutes == 1 then "1 minute ago"
      else if minutes < 60 then IntToString(minutes) + " minutes ago"
      else
        var hours := minutes / 60;
        if hours == 1 then "1 hour ago" else IntToString(hours) + " hours ago"
  }

  /** A stretch of elapsed milliseconds, from `lo` inclusive to `hi` exclusive. */
  datatype Span = Span(lo: int, hi: int)

  predicate EndsWith(s: string, suffix: string) {
    |suffix| <= |s| && s[|s| - |suffix|..] == suffix
  }

  /** What a message says about the elapsed time: the reading a user gives it. */
  function Elapsed(msg: string): Option<Span>
  {
    if msg == "Just now" then Some(Span(0, MinuteMs))
    else if msg == "1 minute ago" then Some(Span(MinuteMs, 2 * MinuteMs))
    else if msg == "1 hour ago" then Some(Span(HourMs, 2 * HourMs))
    else if EndsWith(msg, " minutes ago") && IsNumeral(msg[..|msg| - 12]) then
      var n := ParseInt(msg[..|msg| - 12]);
      Some(Span(n * MinuteMs, (n + 1) * MinuteMs))
    else if EndsWith(msg, " hours ago") && IsNumeral(msg[..|msg| - 10]) then
      var n := ParseInt(msg[..|msg| - 10]);
      Some(Span(n * HourMs, (n + 1) * HourMs))
    else None
  }

  /**
   * The message is truthful: read back, it names a stretch that contains the
   * actual elapsed time, a minute wide below an hour and an hour wide above.
   */
  lemma FormatLastSavedTruthful(saved: int, now: int)
    ensures var e := Elapsed(FormatLastSaved(Some(saved), now));
      && e.Some?
      && e.value.lo <= now - saved < e.value.hi
      && e.value.hi - e.value.lo == (if now - saved < HourMs then MinuteMs else HourMs)
  {
    var diff := now - saved;
    var minutes := diff / MinuteMs;
    assert minutes * MinuteMs <= diff < (minutes + 1) * MinuteMs;
    var msg := FormatLastSaved(Some(saved), now);
    if minutes == 0 || minutes == 1 {
    } else if minutes < 60 {
      MinutesReadBack(minutes);
    } else {
      var hours := minutes / 60;
      assert hours * 60 <= minutes < (hours + 1) * 60;
      assert hours * HourMs <= diff < (hours + 1) * HourMs;
      if hours != 1 {
        HoursReadBack(hours);
      }
    }
  }

  lemma MinutesReadBack(n: int)
    requires n != 0 && n != 1
    ensures Elapsed(IntToString(n) + " minutes ago") == Some(Span(n * MinuteMs, (n + 1) * MinuteMs))
  {
    var msg := IntToString(n) + " minutes ago";
    assert msg[..|msg| - 12] == IntToString(n);
    assert msg[|msg| - 12..] == " minutes ago";
    IntToStringShape(n);
    IntToStringRoundTrip(n);
  }

  lemma HoursReadBack(n: int)
    requires n >= 2
    ensures Elapsed(IntToString(n) + " hours ago") == Some(Span(n * HourMs, (n + 1) * HourMs))
  {
    var msg := IntToString(n) + " hours ago";
    assert msg[..|msg| - 10] == IntToString(n);
    assert msg[|msg| - 10..] == " hours ago";
    assert msg[|msg| - 6] == 'r';
    IntToStringShape(n);
    IntToStringRoundTrip(n);
  }
}

/**
 * The form-document store of src/store/formStore.ts as a class: its fields
 * are the store's state and its methods the store's actions, each updating
 * the fields the way the action's `set` call does. Fresh ids and the current
 * time (`Date.now()`, `new Date()`) are parameters. Writes to local storage
 * are not modelled.
 */
module FormStore {
  import opened Wrappers
  import opened FormTypes
  import FormOps
  import History
  import Validation

  /** The whole state of the store, as one value; used to say what an action leaves unchanged. */
  datatype StoreState = StoreState(
    currentForm: Option<Form>,
    selectedFieldId: Option<string>,
    previewMode: DevicePreview,
    isPreviewMode: bool,
    theme: Theme,
    currentStepIndex: int,
    history: seq<Form>,
    historyIndex: int,
    autoSaveEnabled: bool,
    responses: seq<FormResponse>,
    validationErrors: map<string, string>)

  class Store {
    var currentForm: Option<Form>
    var selectedFieldId: Option<string>
    var previewMode: DevicePreview
    var isPreviewMode: bool
    var theme: Theme
    var currentStepIndex: int
    var history: seq<Form>
    var historyIndex: int
    var autoSaveEnabled: bool
    var responses: seq<FormResponse>
    var validationErrors: map<string, string>

    function State(): StoreState
      reads this
    {
      StoreState(currentForm, selectedFieldId, previewMode, isPreviewMode, theme, currentStepIndex,
                 history, historyIndex, autoSaveEnabled, responses, validationErrors)
    }

    /** The undo/redo history as a cursor value. */
    function Cursor(): History.Cursor<Form>
      reads this
    {
      History.Cursor(history, historyIndex)
    }

    /** The store invariant: the history holds at most 20 snapshots and the cursor is on one of them, or -1 when empty. */
    predicate Valid()
      reads this
    {
      History.Valid(Cursor())
    }

    /** Whether the step cursor points at a step of the current form. */
    predicate StepInRange()
      reads this
    {
      currentForm.Some? && 0 <= currentStepIndex < |currentForm.value.steps|
    }

    /** The initial state of the store; `stored` is the response log read from local storage at start-up. */
    constructor (stored: seq<FormResponse>)
      ensures Valid() && Cursor() == History.Empty()
      ensures State() == StoreState(None, None, Desktop, false, Light, 0, [], -1, true, stored, map[])
    {
      currentForm := None;
      selectedFieldId := None;
      previewMode := Desktop;
      isPreviewMode := false;
      theme := Light;
      currentStepIndex := 0;
      history := [];
      historyIndex := -1;
      autoSaveEnabled := true;
      responses := stored;
      validationErrors := map[];
    }

    /** `setCurrentForm`. */
    method SetCurrentForm(form: Form)
      modifies this
      ensures State() == old(State()).(currentForm := Some(form))
    {
      currentForm := Some(form);
    }

    /**
     * `saveToHistory`: with a current form, cut the history after the cursor,
     * push a snapshot of the form and keep the last 20; the cursor then sits on
     * the new snapshot. Without a current form nothing happens.
     */
    method SaveToHistory()
      requires Valid()
      modifies this
      ensures Valid()
      ensures old(currentForm).None? ==> State() == old(State())
      ensures old(currentForm).Some? ==>
        && Cursor() == History.Save(old(Cursor()), old(currentForm).value)
        && State() == old(State()).(history := history, historyIndex := historyIndex)
      ensures old(currentForm).Some? ==> |history| <= 20 && historyIndex == |history| - 1 && history[historyIndex] == currentForm.value
    {
      if currentForm.None? {
        return;
      }
      var newHistory := history[..historyIndex + 1];
      newHistory := newHistory + [currentForm.value];
      history := if |newHistory| > 20 then newHistory[|newHistory| - 20..] else newHistory;
      historyIndex := if |newHistory| - 1 < 19 then |newHistory| - 1 else 19;
    }

    /** `undo`: when the cursor is past the first snapshot, step back and show that snapshot; otherwise nothing. */
    method Undo()
      requires Valid()
      modifies this
      ensures Valid()
      ensures Cursor() == History.Undo(old(Cursor()))
      ensures old(historyIndex) > 0 ==>
        State() == old(State()).(currentForm := Some(history[historyIndex]), historyIndex := old(historyIndex) - 1)
      ensures old(historyIndex) <= 0 ==> State() == old(State())
    {
      if historyIndex > 0 {
        var previousForm := history[historyIndex - 1];
        currentForm := Some(previousForm);
        historyIndex := historyIndex - 1;
      }
    }

    /** `redo`: when the cursor is before the last snapshot, step forward and show that snapshot; otherwise nothing. */
    method Redo()
      requires Valid()
      modifies this
      ensures Valid()
      ensures Cursor() == History.Redo(old(Cursor()))
      ensures old(historyIndex) < |old(history)| - 1 ==>
        State() == old(State()).(currentForm := Some(history[historyIndex]), historyIndex := old(historyIndex) + 1)
      ensures old(historyIndex) >= |old(history)| - 1 ==> State() == old(State())
    {
      if historyIndex < |history| - 1 {
        var nextForm := history[historyIndex + 1];
        currentForm := Some(nextForm);
        historyIndex := historyIndex + 1;
      }
    }

    /**
     * `addField`: without a form nothing happens; otherwise the field is
     * appended to the step(s) with id `stepId` and a snapshot is saved (also
     * when no step has that id).
     */
    method AddField(stepId: string, draft: FieldDraft, fieldId: string, now: int)
      requires Valid()
      modifies this
      ensures Valid()
      ensures old(currentForm).None? ==> State() == old(State())
      ensures old(currentForm).Some? ==>
        var form := FormOps.AddField(old(currentForm).value, stepId, draft, fieldId, now);
        && Cursor() == History.Save(old(Cursor()), form)
        && State() == old(State()).(currentForm := Some(form), history := history, historyIndex := historyIndex)
    {
      if currentForm.None? {
        return;
      }
      currentForm := Some(FormOps.AddField(currentForm.value, stepId, draft, fieldId, now));
      SaveToHistory();
    }

    /** `updateField`: the patch is merged into the matching fields; no snapshot is taken. */
    method UpdateField(fieldId: string, patch: FieldPatch, now: int)
      modifies this
      ensures old(currentForm).None? ==> State() == old(State())
      ensures old(currentForm).Some? ==>
        State() == old(State()).(currentForm := Some(FormOps.UpdateField(old(currentForm).value, fieldId, patch, now)))
      ensures history == old(history) && historyIndex == old(historyIndex)
    {
      if currentForm.None? {
        return;
      }
      currentForm := Some(FormOps.UpdateField(currentForm.value, fieldId, patch, now));
    }

    /**
     * `deleteField`: the field disappears from every step, the selection is
     * cleared exactly when it was the deleted field, and a snapshot is saved.
     */
    method DeleteField(fieldId: string, now: int)
      requires Valid()
      modifies this
      ensures Valid()
      ensures old(currentForm).None? ==> State() == old(State())
      ensures old(currentForm).Some? ==>
        var form := FormOps.DeleteField(old(currentForm).value, fieldId, now);
        && Cursor() == History.Save(old(Cursor()), form)
        && State() == old(State()).(currentForm := Some(form), selectedFieldId := selectedFieldId,
                                    history := history, historyIndex := historyIndex)
      ensures old(currentForm).Some? ==>
        selectedFieldId == if old(selectedFieldId) == Some(fieldId) then None else old(selectedFieldId)
    {
      if currentForm.None? {
        return;
      }
      var updated := FormOps.DeleteField(currentForm.value, fieldId, now);
      selectedFieldId := if selectedFieldId == Some(fieldId) then None else selectedFieldId;
      currentForm := Some(updated);
      SaveToHistory();
    }

    /** `reorderFields`: the step's fields are rebuilt from the id list; no snapshot is taken. */
    method ReorderFields(stepId: string, ids: seq<string>, now: int)
      modifies this
      ensures old(currentForm).None? ==> State() == old(State())
      ensures old(currentForm).Some? ==>
        State() == old(State()).(currentForm := Some(FormOps.ReorderFields(old(currentForm).value, stepId, ids, now)))
    {
      if currentForm.None? {
        return;
      }
      currentForm := Some(FormOps.ReorderFields(currentForm.value, stepId, ids, now));
    }

    /** `selectField`. */
    method SelectField(fieldId: Option<string>)
      modifies this
      ensures State() == old(State()).(selectedFieldId := fieldId)
    {
      selectedFieldId := fieldId;
    }

    /** `setPreviewMode`. */
    method SetPreviewMode(mode: DevicePreview)
      modifies this
      ensures State() == old(State()).(previewMode := mode)
    {
      previewMode := mode;
    }

    /** `togglePreview`. */
    method TogglePreview()
      modifies this
      ensures State() == old(State()).(isPreviewMode := !old(isPreviewMode))
    {
      isPreviewMode := !isPreviewMode;
    }

    /** `toggleTheme`. */
    method ToggleTheme()
      modifies this
      ensures State() == old(State()).(theme := if old(theme) == Light then Dark else Light)
    {
      theme := if theme == Light then Dark else Light;
    }

    /** `toggleAutoSave`. */
    method ToggleAutoSave()
      modifies this
      ensures State() == old(State()).(autoSaveEnabled := !old(autoSaveEnabled))
    {
      autoSaveEnabled := !autoSaveEnabled;
    }

    /** `addStep`: an empty step `Step n+1` is appended, the form becomes multi-step, and a snapshot is saved. */
    method AddStep(stepId: string, now: int)
      requires Valid()
      modifies this
      ensures Valid()
      ensures old(currentForm).None? ==> State() == old(State())
      ensures old(currentForm).Some? ==>
        var form := FormOps.AddStep(old(currentForm).value, stepId, now);
        && Cursor() == History.Save(old(Cursor()), form)
        && State() == old(State()).(currentForm := Some(form), history := history, historyIndex := historyIndex)
    {
      if currentForm.None? {
        return;
      }
      currentForm := Some(FormOps.AddStep(currentForm.value, stepId, now));
      SaveToHistory();
    }

    /** `updateStep`: the patch is merged into the matching steps; no snapshot is taken. */
    method UpdateStep(stepId: string, patch: StepPatch, now: int)
      modifies this
      ensures old(currentForm).None? ==> State() == old(State())
      ensures old(currentForm).Some? ==>
        State() == old(State()).(currentForm := Some(FormOps.UpdateStep(old(currentForm).value, stepId, patch, now)))
    {
      if currentForm.None? {
        return;
      }
      currentForm := Some(FormOps.UpdateStep(currentForm.value, stepId, patch, now));
    }

    /**
     * `deleteStep`: the matching steps are removed, the step cursor goes back
     * to 0 whatever it was, and a snapshot is saved.
     */
    method DeleteStep(stepId: string, now: int)
      requires Valid()
      modifies this
      ensures Valid()
      ensures old(currentForm).None? ==> State() == old(State())
      ensures old(currentForm).Some? ==>
        var form := FormOps.DeleteStep(old(currentForm).value, stepId, now);
        && Cursor() == History.Save(old(Cursor()), form)
        && State() == old(State()).(currentForm := Some(form), currentStepIndex := 0,
                                    history := history, historyIndex := historyIndex)
    {
      if currentForm.None? {
        return;
      }
      currentForm := Some(FormOps.DeleteStep(currentForm.value, stepId, now));
      currentStepIndex := 0;
      SaveToHistory();
    }

    /** `setCurrentStep`: the index is taken as given, without a range check. */
    method SetCurrentStep(index: int)
      modifies this
      ensures State() == old(State()).(currentStepIndex := index)
    {
      currentStepIndex := index;
    }

    /**
     * `nextStep`: move forward only when there is a form and a later step;
     * so a cursor on a step stays on a step.
     */
    method NextStep()
      modifies this
      ensures var moves := old(currentForm).Some? && old(currentStepIndex) < |old(currentForm).value.steps| - 1;
        State() == old(State()).(currentStepIndex := if moves then old(currentStepIndex) + 1 else old(currentStepIndex))
      ensures old(StepInRange()) ==> StepInRange()
    {
      if currentForm.Some? && currentStepIndex < |currentForm.value.steps| - 1 {
        currentStepIndex := currentStepIndex + 1;
      }
    }

    /** `previousStep`: move back only when the cursor is above 0; so a cursor on a step stays on a step. */
    method PreviousStep()
      modifies this
      ensures State() == old(State()).(currentStepIndex := if old(currentStepIndex) > 0 then old(currentStepIndex) - 1 else old(currentStepIndex))
      ensures old(StepInRange()) ==> StepInRange()
    {
      if currentStepIndex > 0 {
        currentStepIndex := currentStepIndex - 1;
      }
    }

    /**
     * The in-memory half of `addResponse`: the response, stamped with its id
     * and time, goes last in the log, so it shows up last among its form's
     * responses and no other form's list changes.
     */
    method AddResponse(formId: string, data: map<string, Value>, responseId: string, now: int)
      modifies this
      ensures State() == old(State()).(responses := old(responses) + [FormResponse(responseId, formId, data, now)])
      ensures forall id ::
                FormOps.ResponsesFor(responses, id) ==
                FormOps.ResponsesFor(old(responses), id) + (if id == formId then [FormResponse(responseId, formId, data, now)] else [])
    {
      var response := FormResponse(responseId, formId, data, now);
      responses := responses + [response];
      forall id
        ensures FormOps.ResponsesFor(responses, id) == FormOps.ResponsesFor(old(responses), id) + (if id == formId then [response] else [])
      {
        FormOps.ResponsesForAppend(old(responses), response, id);
      }
    }

    /** `getResponsesForForm`: the responses of form `formId`, in the order they were added. */
    method GetResponsesForForm(formId: string) returns (rs: seq<FormResponse>)
      ensures rs == FormOps.ResponsesFor(responses, formId)
      ensures forall k :: 0 <= k < |rs| ==> rs[k].formId == formId
    {
      rs := FormOps.ResponsesFor(responses, formId);
    }

    /** `validateField` on the current form. */
    method ValidateField(fieldId: string, value: Value, test: (string, string) -> bool) returns (error: Option<string>)
      ensures error == Validation.ValidateField(currentForm, fieldId, value, test)
      ensures currentForm.None? ==> error.None?
    {
      error := Validation.ValidateField(currentForm, fieldId, value, test);
    }

    /**
     * `validateForm`: false without a form (and nothing changes); otherwise
     * `validationErrors` becomes the map from each failing field id to its
     * message, and the result is true exactly when that map is empty.
     */
    method ValidateForm(test: (string, string) -> bool) returns (isValid: bool)
      modifies this
      ensures old(currentForm).None? ==> !isValid && State() == old(State())
      ensures old(currentForm).Some? ==>
        var form := old(currentForm).value;
        && State() == old(State()).(validationErrors := Validation.ErrorsOf(form, AllFields(form.steps), test))
        && (isValid <==> Validation.AllPass(form, AllFields(form.steps), test))
        && (isValid <==> validationErrors == map[])
    {
      if currentForm.None? {
        return false;
      }
      var errors;
      isValid, errors := Validation.CollectErrors(currentForm.value, test);
      validationErrors := errors;
      Validation.ValidIffNoErrors(currentForm.value, test);
    }

    /** `clearValidationErrors`. */
    method ClearValidationErrors()
      modifies this
      ensures State() == old(State()).(validationErrors := map[])
    {
      validationErrors := map[];
    }
  }

  /**
   * `undo()` and then `redo()` with a snapshot before the cursor: the cursor
   * comes back to where it was and the form shown becomes the snapshot under
   * it. The pair therefore restores the store exactly when the form shown was
   * that snapshot.
   */
  method UndoThenRedo(s: Store)
    requires s.Valid() && s.historyIndex > 0
    modifies s
    ensures s.Valid()
    ensures s.State() == old(s.State()).(currentForm := Some(old(s.history)[old(s.historyIndex)]))
    ensures s.State() == old(s.State()) <==> old(s.currentForm) == Some(old(s.history)[old(s.historyIndex)])
  {
    s.Undo();
    s.Redo();
  }

  /**
   * `updateField` saves no snapshot, so an undo and a redo right after it
   * bring back the form as it was before the edit: the relabelled form is
   * lost. The same holds for `reorderFields`, `updateStep` and
   * `setCurrentForm`, which save none either.
   */
  method UndoRedoDropsUnsavedEdit(s: Store, fieldId: string, newLabel: string, now: int, i: nat, k: nat)
    returns (edited: Form)
    requires s.Valid() && s.historyIndex > 0 && s.currentForm == Some(s.history[s.historyIndex])
    requires i < |s.history[s.historyIndex].steps| && k < |s.history[s.historyIndex].steps[i].fields|
    requires s.history[s.historyIndex].steps[i].fields[k].id == fieldId
    requires s.history[s.historyIndex].steps[i].fields[k].labelText != newLabel
    modifies s
    ensures edited == FormOps.UpdateField(old(s.currentForm).value, fieldId, FormOps.NoFieldChanges.(labelText := Some(newLabel)), now)
    ensures s.State() == old(s.State())
    ensures s.currentForm != Some(edited)
  {
    s.UpdateField(fieldId, FormOps.NoFieldChanges.(labelText := Some(newLabel)), now);
    edited := s.currentForm.value;
    assert edited.steps[i].fields[k].labelText == newLabel;
    UndoThenRedo(s);
  }
}

/**
 * The document model of the form builder (src/types/form.ts): a form is an
 * ordered list of steps, a step an ordered list of fields. Dates are kept as
 * millisecond timestamps (`Date.getTime()`), supplied by the caller.
 */
module FormTypes {
  import opened Wrappers

  datatype FieldType = Text | Textarea | Dropdown | Checkbox | Date

  /** The optional `validation` block of a field; a missing key is `None`. */
  datatype ValidationRule = ValidationRule(minLength: Option<int>, maxLength: Option<int>, pattern: Option<string>)

  // `label` is a Dafny keyword, so that property is called `labelText` throughout.
  datatype FormField = FormField(
    id: string,
    fieldType: FieldType,
    labelText: string,
    placeholder: Option<string>,
    required: bool,
    helpText: Option<string>,
    options: Option<seq<string>>,
    validation: Option<ValidationRule>,
    order: int)

  datatype FormStep = FormStep(id: string, title: string, fields: seq<FormField>, order: int)

  datatype Theme = Light | Dark

  datatype Settings = Settings(multiStep: bool, showProgress: bool, submitButtonText: string, theme: Theme)

  datatype Form = Form(
    id: string,
    title: string,
    description: Option<string>,
    steps: seq<FormStep>,
    settings: Settings,
    createdAt: int,
    updatedAt: int)

  /**
   * A submitted value. Inputs produce strings, checkboxes booleans, and a
   * field the user never touched has no value (`undefined`).
   */
  datatype Value = Str(s: string) | Bool(b: bool) | Missing

  /** JavaScript truthiness of a submitted value: `''`, `false` and `undefined` are falsy. */
  predicate Truthy(v: Value) {
    match v
    case Str(s) => s != ""
    case Bool(b) => b
    case Missing => false
  }

  /** A response maps field ids to values; a key that is absent reads as `undefined`. */
  datatype FormResponse = FormResponse(id: string, formId: string, data: map<string, Value>, submittedAt: int)

  datatype DevicePreview = Desktop | Tablet | Mobile

  /** `Omit<FormField, 'id' | 'order'>`: what a caller hands to `addField`. */
  datatype FieldDraft = FieldDraft(
    fieldType: FieldType,
    labelText: string,
    placeholder: Option<string>,
    required: bool,
    helpText: Option<string>,
    options: Option<seq<string>>,
    validation: Option<ValidationRule>)

  /** `Partial<FormField>`: each property is either absent (`None`) or given (`Some`). */
  datatype FieldPatch = FieldPatch(
    id: Option<string>,
    fieldType: Option<FieldType>,
    labelText: Option<string>,
    placeholder: Option<Option<string>>,
    required: Option<bool>,
    helpText: Option<Option<string>>,
    options: Option<Option<seq<string>>>,
    validation: Option<Option<ValidationRule>>,
    order: Option<int>)

  /** `Partial<FormStep>`. */
  datatype StepPatch = StepPatch(id: Option<string>, title: Option<string>, fields: Option<seq<FormField>>, order: Option<int>)

  /** A palette entry (src/constants/fieldTemplates.ts). */
  datatype FieldTemplate = FieldTemplate(fieldType: FieldType, labelText: string, icon: string, defaultProps: FieldPatch)

  /** The ids of a list of fields, in order (`fields.map(f => f.id)`). */
  function IdsOf(fields: seq<FormField>): (r: seq<string>)
    ensures |r| == |fields|
    ensures forall k :: 0 <= k < |fields| ==> r[k] == fields[k].id
  {
    seq(|fields|, k requires 0 <= k < |fields| => fields[k].id)
  }

  /** `steps.flatMap(step => step.fields)`: every field, in step order and then field order. */
  function AllFields(steps: seq<FormStep>): (r: seq<FormField>)
    ensures forall i, k :: 0 <= i < |steps| && 0 <= k < |steps[i].fields| ==> steps[i].fields[k] in r
  {
    if steps == [] then [] else AllFields(steps[..|steps| - 1]) + steps[|steps| - 1].fields
  }

  /** Conversely, every field in the flattened list belongs to one of the steps. */
  lemma {:induction false} AllFieldsFromSteps(steps: seq<FormStep>, f: FormField)
    requires f in AllFields(steps)
    ensures exists i :: 0 <= i < |steps| && f in steps[i].fields
  {
    var last := |steps| - 1;
    if f !in steps[last].fields {
      AllFieldsFromSteps(steps[..last], f);
      var i :| 0 <= i < last && f in steps[..last][i].fields;
      assert f in steps[i].fields;
    }
  }
}

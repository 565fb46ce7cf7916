/**
 * The data side of src/components/ResponsesDashboard.tsx: which responses the
 * dashboard shows, the CSV text it exports and the JSON export's response
 * count. The locale rendering of a timestamp is a parameter; the download
 * itself is not modelled.
 */
module ResponsesDashboard {
  import opened Wrappers
  import opened FormTypes
  import opened Strings
  import opened Seqs
  import opened FormOps

  /** `formResponses`: nothing without a form, otherwise that form's responses in log order. */
  function FormResponses(form: Option<Form>, responses: seq<FormResponse>): (r: seq<FormResponse>)
    ensures form.None? ==> r == []
    ensures form.Some? ==> r == ResponsesFor(responses, form.value.id)
    ensures form.Some? ==> forall k :: 0 <= k < |r| ==> r[k].formId == form.value.id && r[k] in responses
    ensures form.Some? ==> forall k :: 0 <= k < |responses| && responses[k].formId == form.value.id ==> responses[k] in r
  {
    if form.None? then [] else ResponsesFor(responses, form.value.id)
  }

  // ---------------------------------------------------------------- CSV

  /** `response.data[field.id]`: an absent key reads as `undefined`. */
  function Lookup(data: map<string, Value>, id: string): Value
  {
    if id in data then data[id] else Missing
  }

  /** The text a value leaves in a joined row after `value || ''`: falsy values leave nothing. */
  function CellText(v: Value): (r: string)
    ensures r == "" <==> !Truthy(v)
  {
    match v
    case Str(s) => s
    case Bool(b) => if b then "true" else ""
    case Missing => ""
  }

  /** Every field label, in step order and then field order. */
  function Labels(fields: seq<FormField>): (r: seq<string>)
    ensures |r| == |fields|
    ensures forall k :: 0 <= k < |fields| ==> r[k] == fields[k].labelText
  {
    seq(|fields|, k requires 0 <= k < |fields| => fields[k].labelText)
  }

  /** The header cells: `Response ID`, `Submitted At`, then one label per field of the form. */
  function Header(form: Form): (r: seq<string>)
    ensures |r| == 2 + FieldCount(form.steps)
    ensures r[0] == "Response ID" && r[1] == "Submitted At"
  {
    FieldCountIsAllFields(form.steps);
    ["Response ID", "Submitted At"] + Labels(AllFields(form.steps))
  }

  /** The cells of one response: its id, its rendered time, then its value for each field in header order. */
  function Row(form: Form, response: FormResponse, stamp: int -> string): (r: seq<string>)
    ensures |r| == |Header(form)|
    ensures r[0] == response.id && r[1] == stamp(response.submittedAt)
  {
    FieldCountIsAllFields(form.steps);
    var fields := AllFields(form.steps);
    [response.id, stamp(response.submittedAt)]
      + seq(|fields|, k requires 0 <= k < |fields| => CellText(Lookup(response.data, fields[k].id)))
  }

  /**
   * Each row lines up with the header: it has as many cells, and the cell
   * under a field's label holds that response's value for that field (empty
   * when the value is missing or falsy).
   */
  lemma RowMatchesHeader(form: Form, response: FormResponse, stamp: int -> string)
    ensures var fields := AllFields(form.steps);
      var h, r := Header(form), Row(form, response, stamp);
      && |r| == |h|
      && r[0] == response.id && r[1] == stamp(response.submittedAt)
      && forall k :: 2 <= k < |h| ==>
           && h[k] == fields[k - 2].labelText
           && r[k] == CellText(Lookup(response.data, fields[k - 2].id))
           && (r[k] == "" <==> !Truthy(Lookup(response.data, fields[k - 2].id)))
  {
    FieldCountIsAllFields(form.steps);
  }

  /** The lines of the export: the joined header, then one joined row per response. */
  function Lines(form: Form, matching: seq<FormResponse>, stamp: int -> string): (r: seq<string>)
    ensures |r| == 1 + |matching|
  {
    [Join(Header(form), ',')] + seq(|matching|, k requires 0 <= k < |matching| => Join(Row(form, matching[k], stamp), ','))
  }

  /**
   * `exportToCSV`'s content: nothing without a form or without responses to
   * it; otherwise the lines joined with newlines, cells joined with commas,
   * and no quoting.
   */
  function ExportToCSV(form: Option<Form>, responses: seq<FormResponse>, stamp: int -> string): (r: Option<string>)
    ensures r.None? <==> form.None? || ResponsesFor(responses, form.value.id) == []
  {
    if form.None? then None
    else
      var matching := ResponsesFor(responses, form.value.id);
      if matching == [] then None else Some(Join(Lines(form.value, matching, stamp), '\n'))
  }

  /** No cell of the export contains `c`. */
  predicate CellsFree(form: Form, matching: seq<FormResponse>, stamp: int -> string, c: char)
  {
    && FreeOf(Header(form), c)
    && forall k :: 0 <= k < |matching| ==> FreeOf(Row(form, matching[k], stamp), c)
  }

  /**
   * When no cell holds a line break, the export has exactly one line for the
   * header and one per matching response; when no cell holds a comma either,
   * splitting each line at commas gives back the header and the rows.
   */
  lemma ExportReadsBack(form: Form, responses: seq<FormResponse>, stamp: int -> string)
    requires ResponsesFor(responses, form.id) != []
    requires CellsFree(form, ResponsesFor(responses, form.id), stamp, '\n')
    ensures var matching := ResponsesFor(responses, form.id);
      var lines := Split(ExportToCSV(Some(form), responses, stamp).value, '\n');
      && |lines| == 1 + |matching|
      && (CellsFree(form, matching, stamp, ',') ==>
            && Split(lines[0], ',') == Header(form)
            && forall k :: 0 <= k < |matching| ==> Split(lines[k + 1], ',') == Row(form, matching[k], stamp))
  {
    var matching := ResponsesFor(responses, form.id);
    var lines := Lines(form, matching, stamp);
    assert FreeOf(lines, '\n') by {
      forall i | 0 <= i < |lines|
        ensures '\n' !in lines[i]
      {
        if i == 0 {
          JoinFree(Header(form), ',', '\n');
        } else {
          assert lines[i] == Join(Row(form, matching[i - 1], stamp), ',');
          JoinFree(Row(form, matching[i - 1], stamp), ',', '\n');
        }
      }
    }
    SplitJoin(lines, '\n');
    if CellsFree(form, matching, stamp, ',') {
      SplitJoin(Header(form), ',');
      forall k | 0 <= k < |matching|
        ensures Split(lines[k + 1], ',') == Row(form, matching[k], stamp)
      {
        RowMatchesHeader(form, matching[k], stamp);
        SplitJoin(Row(form, matching[k], stamp), ',');
      }
    }
  }

  /**
   * Without quoting, a label holding a comma splits into two cells on reading,
   * so the header of a one-field form reads back as four cells over three
   * columns (section 2 of RFC 4180 asks for such a field to be quoted).
   */
  lemma CommaInLabelShiftsColumns()
    ensures |Header(CommaForm())| == 3 && |Split(Join(Header(CommaForm()), ','), ',')| == 4
  {
    var a, b, c, d := "Response ID", "Submitted At", "City", " Country";
    CommaFormHeader();
    assert "City, Country" == c + [','] + d;
    JoinThree(a, b, c + [','] + d, ',');
    assert Join(Header(CommaForm()), ',') == a + [','] + (b + [','] + (c + [','] + d));
    assert ',' !in a && ',' !in b && ',' !in c && ',' !in d;
    SplitWithoutSeparator(d, ',');
    SplitAtSeparator(c, ',', d);
    SplitAtSeparator(b, ',', c + [','] + d);
    SplitAtSeparator(a, ',', b + [','] + (c + [','] + d));
  }

  lemma JoinThree(x: string, y: string, z: string, sep: char)
    ensures Join([x, y, z], sep) == x + [sep] + (y + [sep] + z)
  {
    assert [x, y, z][1..] == [y, z];
    assert [y, z][1..] == [z];
    assert Join([z], sep) == z;
    assert Join([y, z], sep) == y + [sep] + z;
  }

  /** A one-step form with one field whose label holds a comma. */
  function CommaForm(): Form
  {
    var field := FormField("f1", Text, "City, Country", None, false, None, None, None, 0);
    Form("form_1", "Survey", None, [FormStep("step_1", "Step 1", [field], 0)], Settings(false, false, "Submit", Light), 0, 0)
  }

  lemma CommaFormHeader()
    ensures Header(CommaForm()) == ["Response ID", "Submitted At", "City, Country"]
  {
    var steps := CommaForm().steps;
    assert steps[..0] == [];
    assert AllFields(steps) == steps[0].fields;
  }

  // ---------------------------------------------------------------- JSON

  /** The object `exportToJSON` serialises; `exportedAt` is the export time, as rendered. */
  datatype JsonExport = JsonExport(formId: string, formTitle: string, exportedAt: string,
                                   totalResponses: nat, responses: seq<FormResponse>)

  /**
   * `exportToJSON`'s object: nothing without a form or without responses to
   * it; otherwise `totalResponses` counts exactly the responses listed, which
   * are the responses whose form id is the form's.
   */
  function ExportToJSON(form: Option<Form>, responses: seq<FormResponse>, exportedAt: string): (r: Option<JsonExport>)
    ensures r.None? <==> form.None? || ResponsesFor(responses, form.value.id) == []
    ensures r.Some? ==>
      && r.value.formId == form.value.id
      && r.value.totalResponses == |r.value.responses| >= 1
      && r.value.totalResponses == CountWhere(responses, (x: FormResponse) => x.formId == form.value.id)
      && forall k :: 0 <= k < |r.value.responses| ==> r.value.responses[k].formId == form.value.id
  {
    if form.None? then None
    else
      var matching := ResponsesFor(responses, form.value.id);
      ResponsesForCount(responses, form.value.id);
      if matching == [] then None
      else Some(JsonExport(form.value.id, form.value.title, exportedAt, |matching|, matching))
  }
}

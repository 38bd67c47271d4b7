/** The task form's client-side validation and state: which fields are
    required and how each is checked, the values the form starts from, and
    how typing, leaving a field and submitting update the form data, the
    set of touched fields and the error messages. */
module TaskForm {
  import opened Wrappers
  import opened JsString

  /** Field name to current value. */
  type FormData = map<string, string>

  const RequiredFields: seq<string> := ["title", "description", "category", "dueDate"]

  const FormFields: set<string> := {"title", "description", "category", "priority", "dueDate", "status"}

  /** The error for one field's value, "" when there is none. Title,
      description and category fail when blank after trimming; the due date
      fails only when exactly empty; no other field ever fails. Each
      failure has its own "... is required" message. */
  function ValidateField(name: string, value: string): (error: string)
    ensures name == "title" ==> error == (if AllWhitespace(value) then "Title is required" else "")
    ensures name == "description" ==> error == (if AllWhitespace(value) then "Description is required" else "")
    ensures name == "category" ==> error == (if AllWhitespace(value) then "Category is required" else "")
    ensures name == "dueDate" ==> error == (if value == "" then "Due date is required" else "")
    ensures name !in RequiredFields ==> error == ""
  {
    if name == "title" then (if Trim(value) == "" then "Title is required" else "")
    else if name == "description" then (if Trim(value) == "" then "Description is required" else "")
    else if name == "category" then (if Trim(value) == "" then "Category is required" else "")
    else if name == "dueDate" then (if value == "" then "Due date is required" else "")
    else ""
  }

  /** The values of the task being edited, as the form reads them; the due
      date is already rendered as a calendar-date string. */
  datatype TaskValues = TaskValues(
    title: Option<string>,
    description: Option<string>,
    category: Option<string>,
    priority: Option<string>,
    dueDate: Option<string>,
    status: Option<string>)

  /** The form holds the task's value for `key` when that value is
      non-empty, and `fallback` otherwise. */
  predicate CopiedOr(data: FormData, key: string, v: Option<string>, fallback: string) {
    && key in data
    && (Truthy(v) ==> data[key] == v.value)
    && (!Truthy(v) ==> data[key] == fallback)
  }

  /** The form data the form starts from and resets to: the edited task's
      values where they are non-empty, and otherwise empty strings, with
      priority Medium and status Pending. */
  function FormDefaults(task: Option<TaskValues>): (data: FormData)
    ensures data.Keys == FormFields
    ensures task.None? ==>
      data == map["title" := "", "description" := "", "category" := "", "priority" := "Medium", "dueDate" := "", "status" := "Pending"]
    ensures task.Some? ==>
      && CopiedOr(data, "title", task.value.title, "")
      && CopiedOr(data, "description", task.value.description, "")
      && CopiedOr(data, "category", task.value.category, "")
      && CopiedOr(data, "priority", task.value.priority, "Medium")
      && CopiedOr(data, "dueDate", task.value.dueDate, "")
      && CopiedOr(data, "status", task.value.status, "Pending")
    ensures forall f | f in FormFields :: data[f] != "" || f in RequiredFields
  {
    match task
    case None =>
      map["title" := "", "description" := "", "category" := "", "priority" := "Medium", "dueDate" := "", "status" := "Pending"]
    case Some(t) =>
      map["title" := OrElse(t.title, ""), "description" := OrElse(t.description, ""),
          "category" := OrElse(t.category, ""), "priority" := OrElse(t.priority, "Medium"),
          "dueDate" := OrElse(t.dueDate, ""), "status" := OrElse(t.status, "Pending")]
  }

  /** Submitting is allowed when every required field passes validation. */
  predicate CanSubmit(data: FormData)
    requires forall f | f in RequiredFields :: f in data
    ensures CanSubmit(data) ==> forall f | f in RequiredFields :: data[f] != ""
  {
    forall f | f in RequiredFields :: ValidateField(f, data[f]) == ""
  }

  /** Submission needs a non-blank title, description and category and a
      non-empty due date; priority and status never block it. */
  lemma CanSubmitIff(data: FormData)
    requires forall f | f in RequiredFields :: f in data
    ensures CanSubmit(data) <==>
      && !AllWhitespace(data["title"]) && !AllWhitespace(data["description"])
      && !AllWhitespace(data["category"]) && data["dueDate"] != ""
  {
    assert RequiredFields[0] == "title" && RequiredFields[1] == "description";
    assert RequiredFields[2] == "category" && RequiredFields[3] == "dueDate";
  }

  /** A blank new form fails every required field. */
  lemma BlankFormFailsEveryRequiredField()
    ensures forall f | f in RequiredFields :: ValidateField(f, FormDefaults(None)[f]) != ""
  {
  }

  /** Each field's validation message, "" for a field that passes. */
  function Messages(data: FormData): (messages: map<string, string>)
    ensures messages.Keys == data.Keys
    ensures forall f | f in data :: messages[f] == ValidateField(f, data[f])
  {
    map f | f in data :: ValidateField(f, data[f])
  }

  /** `errors` holds exactly the fields among `fields` whose message is
      non-empty, each with that message. */
  ghost predicate ErrorsOf(errors: map<string, string>, messages: map<string, string>, fields: seq<string>)
    requires forall f | f in fields :: f in messages
  {
    && (forall f :: f in errors <==> f in fields && messages[f] != "")
    && (forall f | f in errors :: errors[f] == messages[f])
  }

  /** Checking one more field extends the errors by that field's failure. */
  lemma ErrorsOfStep(errors: map<string, string>, messages: map<string, string>, fields: seq<string>, field: string)
    requires forall f | f in fields :: f in messages
    requires field in messages
    requires ErrorsOf(errors, messages, fields)
    ensures var error := messages[field];
      ErrorsOf(if error != "" then errors[field := error] else errors, messages, fields + [field])
  {
    var error := messages[field];
    var next := if error != "" then errors[field := error] else errors;
    var fields' := fields + [field];
    forall f
      ensures f in next <==> f in fields' && messages[f] != ""
    {
      assert f in fields' <==> f in fields || f == field;
    }
  }

  /** The errors a submit reports, built one required field at a time:
      exactly the failing required fields, each with its message. */
  method CollectErrors(data: FormData) returns (newErrors: map<string, string>)
    requires forall f | f in RequiredFields :: f in data
    ensures forall f :: f in newErrors <==> f in RequiredFields && ValidateField(f, data[f]) != ""
    ensures forall f | f in newErrors :: newErrors[f] == ValidateField(f, data[f])
  {
    ghost var messages := Messages(data);
    newErrors := map[];
    var i := 0;
    while i < |RequiredFields|
      invariant 0 <= i <= |RequiredFields|
      invariant ErrorsOf(newErrors, messages, RequiredFields[..i])
    {
      var field := RequiredFields[i];
      var error := ValidateField(field, data[field]);
      ErrorsOfStep(newErrors, messages, RequiredFields[..i], field);
      if error != "" {
        newErrors := newErrors[field := error];
      }
      PrefixGrows(RequiredFields, i);
      i := i + 1;
    }
    assert RequiredFields[..|RequiredFields|] == RequiredFields;
    ErrorsOfData(newErrors, data, RequiredFields);
  }

  lemma PrefixGrows(fields: seq<string>, i: nat)
    requires i < |fields|
    ensures fields[..i + 1] == fields[..i] + [fields[i]]
  {
  }

  /** Errors collected from the validation messages are the failing fields
      of the form data. */
  lemma ErrorsOfData(errors: map<string, string>, data: FormData, fields: seq<string>)
    requires forall f | f in fields :: f in data
    requires ErrorsOf(errors, Messages(data), fields)
    ensures forall f :: f in errors <==> f in fields && ValidateField(f, data[f]) != ""
    ensures forall f | f in errors :: errors[f] == ValidateField(f, data[f])
  {
  }

  /** A map holding exactly the failing required fields, each with its
      message, is the map built from the failing required fields. */
  lemma ErrorsMapIs(m: map<string, string>, data: FormData)
    requires forall f | f in RequiredFields :: f in data
    requires forall f :: f in m <==> f in RequiredFields && ValidateField(f, data[f]) != ""
    requires forall f | f in m :: m[f] == ValidateField(f, data[f])
    ensures m == (map f | f in RequiredFields && ValidateField(f, data[f]) != "" :: ValidateField(f, data[f]))
  {
  }

  /** A field has a truthy error message. */
  predicate HasError(errors: map<string, string>, name: string) {
    name in errors && errors[name] != ""
  }

  class FormState {
    var formData: FormData
    var touched: set<string>
    var errors: map<string, string>

    ghost predicate Valid()
      reads this
    {
      forall f | f in RequiredFields :: f in formData
    }

    /** The form's first render: defaults, nothing touched, no errors. */
    constructor (task: Option<TaskValues>)
      ensures Valid()
      ensures formData == FormDefaults(task) && touched == {} && errors == map[]
    {
      formData := FormDefaults(task);
      touched := {};
      errors := map[];
    }

    /** A new task (or none) was passed in: back to the defaults. */
    method Reset(task: Option<TaskValues>)
      modifies this
      ensures Valid()
      ensures formData == FormDefaults(task) && touched == {} && errors == map[]
    {
      formData := FormDefaults(task);
      touched := {};
      errors := map[];
    }

    /** Typing: the field takes the new value; its error is recomputed only
        if it already shows one and the field was touched. */
    method HandleChange(name: string, value: string)
      requires Valid()
      modifies this
      ensures Valid()
      ensures formData == old(formData)[name := value]
      ensures touched == old(touched)
      ensures errors == if HasError(old(errors), name) && name in old(touched)
                        then old(errors)[name := ValidateField(name, value)]
                        else old(errors)
    {
      formData := formData[name := value];
      if HasError(errors, name) && name in touched {
        var error := ValidateField(name, value);
        errors := errors[name := error];
      }
    }

    /** Leaving a field: it becomes touched and its error is recomputed. */
    method HandleBlur(name: string, value: string)
      requires Valid()
      modifies this
      ensures Valid()
      ensures formData == old(formData)
      ensures touched == old(touched) + {name}
      ensures errors == old(errors)[name := ValidateField(name, value)]
    {
      touched := touched + {name};
      var error := ValidateField(name, value);
      errors := errors[name := error];
    }

    /** Submitting: the form data is handed on exactly when every required
        field is valid; otherwise the errors become exactly the failing
        fields, the touched set becomes exactly the required fields, and
        nothing is handed on. */
    method HandleSubmit() returns (submitted: Option<FormData>)
      requires Valid()
      modifies this
      ensures Valid()
      ensures formData == old(formData)
      ensures submitted.Some? <==> CanSubmit(old(formData))
      ensures submitted.Some? ==> submitted.value == old(formData) && errors == old(errors) && touched == old(touched)
      ensures submitted.None? ==>
        && (forall f :: f in touched <==> f in RequiredFields)
        && errors == (map f | f in RequiredFields && ValidateField(f, formData[f]) != "" :: ValidateField(f, formData[f]))
        && (forall f :: HasError(errors, f) <==> f in RequiredFields && ValidateField(f, formData[f]) != "")
    {
      var newErrors := CollectErrors(formData);
      if |newErrors| > 0 {
        errors := newErrors;
        touched := set f | f in RequiredFields;
        ErrorsMapIs(newErrors, formData);
        return None;
      }
      assert newErrors.Keys == {};
      submitted := Some(formData);
    }
  }
}

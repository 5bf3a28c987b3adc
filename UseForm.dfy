/** The form-state hook of the front end (frontend/src/hooks/useForm.js): the field values, the
    error messages and the touched flags of one form, and the handlers that update them. React's
    state setters are modelled as plain assignments made in the order the handler calls them. */
module UseForm {
  import opened Wrappers
  import opened Js

  /** The outcome of the awaited `onSubmit(values)`. */
  datatype SubmitOutcome = Resolved | Rejected

  class FormState {
    /** The `initialValues` argument; `{}` when it is not given. */
    const initialValues: Obj
    /** The optional `validate(values)` argument: an object of error messages per field. */
    const validate: Option<Obj -> Obj>

    var values: Obj
    var errors: Obj
    var touched: map<string, bool>
    var isSubmitting: bool

    constructor (initialValues: Obj, validate: Option<Obj -> Obj>)
      ensures this.initialValues == initialValues && this.validate == validate
      ensures values == initialValues && errors == map[] && touched == map[] && !isSubmitting
    {
      this.initialValues := initialValues;
      this.validate := validate;
      values := initialValues;
      errors := map[];
      touched := map[];
      isSubmitting := false;
    }

    /** `handleChange(e)`: a checkbox stores `checked`, any other input its `value`; an error
        shown for the field is replaced by `null`. */
    method HandleChange(name: string, value: Value, isCheckbox: bool, checked: bool)
      modifies this
      ensures values == old(values)[name := if isCheckbox then Bool(checked) else value]
      ensures Truthy(Get(old(errors), name)) ==> errors == old(errors)[name := Null]
      ensures !Truthy(Get(old(errors), name)) ==> errors == old(errors)
      ensures touched == old(touched) && isSubmitting == old(isSubmitting)
    {
      values := values[name := if isCheckbox then Bool(checked) else value];
      if Truthy(Get(errors, name)) {
        errors := errors[name := Null];
      }
    }

    /** `handleBlur(e)`: the field becomes touched and, with a validator, takes the validator's
        message for it (`undefined` when it has none). */
    method HandleBlur(name: string)
      modifies this
      ensures touched == old(touched)[name := true]
      ensures validate.None? ==> errors == old(errors)
      ensures validate.Some? ==> errors == old(errors)[name := Get(validate.value(values), name)]
      ensures values == old(values) && isSubmitting == old(isSubmitting)
    {
      touched := touched[name := true];
      if validate.Some? {
        var validationErrors := validate.value(values);
        errors := errors[name := Get(validationErrors, name)];
      }
    }

    method SetFieldValue(name: string, value: Value)
      modifies this
      ensures values == old(values)[name := value]
      ensures errors == old(errors) && touched == old(touched) && isSubmitting == old(isSubmitting)
    {
      values := values[name := value];
    }

    method SetFieldError(name: string, error: Value)
      modifies this
      ensures errors == old(errors)[name := error]
      ensures values == old(values) && touched == old(touched) && isSubmitting == old(isSubmitting)
    {
      errors := errors[name := error];
    }

    method SetFieldTouched(name: string, isTouched: bool := true)
      modifies this
      ensures touched == old(touched)[name := isTouched]
      ensures values == old(values) && errors == old(errors) && isSubmitting == old(isSubmitting)
    {
      touched := touched[name := isTouched];
    }

    /** `validateForm()`: with no validator the form is valid and nothing changes; otherwise
        the errors become the validator's result, and the form is valid iff it has no key. */
    method ValidateForm() returns (valid: bool)
      modifies this
      ensures validate.None? ==> valid && errors == old(errors)
      ensures validate.Some? ==> errors == validate.value(values) && (valid <==> errors.Keys == {})
      ensures values == old(values) && touched == old(touched) && isSubmitting == old(isSubmitting)
    {
      if validate.None? {
        return true;
      }
      var validationErrors := validate.value(values);
      errors := validationErrors;
      valid := |validationErrors.Keys| == 0;
    }

    /** `resetForm()`. */
    method ResetForm()
      modifies this
      ensures values == initialValues && errors == map[] && touched == map[] && !isSubmitting
    {
      values := initialValues;
      errors := map[];
      touched := map[];
      isSubmitting := false;
    }

    /** The synchronous part of `handleSubmit(onSubmit)(e)`, up to the `await`. A valid form
        starts submitting and hands its values to `onSubmit`; an invalid one marks every field
        that has a value as touched and calls nothing. */
    method SubmitStart() returns (submitted: Option<Obj>)
      modifies this
      ensures validate.Some? ==> errors == validate.value(old(values))
      ensures validate.None? ==> errors == old(errors)
      ensures submitted.Some? <==> IsValidFor(old(values))
      ensures submitted.Some? ==> submitted.value == old(values) && isSubmitting && touched == old(touched)
      ensures submitted.None? ==> touched == AllTouched(old(values)) && isSubmitting == old(isSubmitting)
      ensures values == old(values)
    {
      var isValid := ValidateForm();
      if isValid {
        isSubmitting := true;
        submitted := Some(values);
      } else {
        touched := AllTouched(values);
        submitted := None;
      }
    }

    /** The `finally` of a valid submit: submitting ends whatever `onSubmit` did, and a
        rejection is passed on to the caller. */
    method SubmitSettle(outcome: SubmitOutcome) returns (rethrown: bool)
      modifies this
      ensures !isSubmitting
      ensures rethrown <==> outcome == Rejected
      ensures values == old(values) && errors == old(errors) && touched == old(touched)
    {
      isSubmitting := false;
      rethrown := outcome == Rejected;
    }

    /** `isValid`: what the validator thinks of the given values. */
    predicate IsValidFor(vs: Obj)
      reads this
    {
      validate.None? || validate.value(vs).Keys == {}
    }

    /** `hasError(name)`: the field shows an error exactly when what `getError` gives for it is
        set. */
    function HasError(name: string): (r: bool)
      reads this
      ensures r <==> Truthy(GetError(name))
    {
      name in touched && touched[name] && Truthy(Get(errors, name))
    }

    /** `getError(name)`: the field's error once it is touched, the empty string before. */
    function GetError(name: string): (r: Value)
      reads this
      ensures !(name in touched && touched[name]) ==> r == Str("")
      ensures name in touched && touched[name] ==> r == Get(errors, name)
    {
      if name in touched && touched[name] then Get(errors, name) else Str("")
    }

    /** The `value` that `getFieldProps(name)` passes on: `values[name] ?? ''`. */
    function FieldValue(name: string): (r: Value)
      reads this
      ensures r != Undefined && r != Null
      ensures Get(values, name) != Undefined && Get(values, name) != Null ==> r == Get(values, name)
    {
      match Get(values, name)
      case Undefined => Str("")
      case Null => Str("")
      case v => v
    }

    /** `isDirty`: the values differ from the initial ones: a field was added or removed, or a
        field holds another value. */
    function IsDirty(): (r: bool)
      reads this
      ensures r <==> values.Keys != initialValues.Keys
                     || exists k :: k in values && k in initialValues && values[k] != initialValues[k]
    {
      values != initialValues
    }

    /** `isPristine`: the opposite of `isDirty`. */
    function IsPristine(): (r: bool)
      reads this
      ensures r <==> !IsDirty()
    {
      values == initialValues
    }
  }

  /** `Object.keys(values).reduce((acc, key) => ({...acc, [key]: true}), {})`. */
  function AllTouched(values: Obj): (r: map<string, bool>)
    ensures r.Keys == values.Keys
    ensures forall k :: k in r ==> r[k]
  {
    map k | k in values :: true
  }

  /** Editing a field makes the form dirty exactly when the new value differs from the initial
      one, and `resetForm()` makes it pristine again. */
  method EditThenReset(initialValues: Obj, validate: Option<Obj -> Obj>, name: string, value: Value)
    returns (dirtyAfterEdit: bool, pristineAfterReset: bool)
    ensures dirtyAfterEdit <==> !(name in initialValues && initialValues[name] == value)
    ensures pristineAfterReset
  {
    var form := new FormState(initialValues, validate);
    form.HandleChange(name, value, false, false);
    dirtyAfterEdit := form.IsDirty();
    form.ResetForm();
    pristineAfterReset := form.IsPristine();
  }

  /** A submit the validator refuses calls nothing and shows a field's error exactly when the
      field has a value: only the fields of `values` are marked as touched. */
  method SubmitInvalidForm(initialValues: Obj, validate: Obj -> Obj, name: string)
    returns (submitted: Option<Obj>, shown: bool)
    requires Truthy(Get(validate(initialValues), name))
    ensures submitted.None?
    ensures shown <==> name in initialValues
  {
    var form := new FormState(initialValues, Some(validate));
    submitted := form.SubmitStart();
    shown := form.HasError(name);
  }
}


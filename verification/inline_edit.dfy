/** The reusable inline-edit hook (src/hooks/useInlineEdits.ts). */
module InlineEditHook {
  import opened JsValues
  import opened Validators

  /** One call of the `onSave(id, field, value)` callback. */
  datatype SaveCall = SaveCall(id: string, field: string, value: Value)

  /** The state of one `useInlineEdit` instance. The props `id`, `field`,
      `validateField` and whether `onCancel` is given are fixed per instance;
      the `value` prop can change between renders (`PropChanged`).

      The `onSave` callback belongs to the caller: `SaveEdit` reports the call
      it makes (if any) and is given the reply that call returns. */
  class InlineEdit {
    const id: string
    const field: string
    const validateField: (string, Value) -> Option<ValidationError>
    const hasOnCancel: bool
    var value: Value
    var editing: bool
    var editValue: Value
    var errors: seq<ValidationError>

    constructor (id: string, field: string, value: Value,
                 validateField: (string, Value) -> Option<ValidationError>, hasOnCancel: bool)
      ensures this.id == id && this.field == field && this.value == value
      ensures this.validateField == validateField && this.hasOnCancel == hasOnCancel
      ensures !editing && editValue == value && errors == []
    {
      this.id := id;
      this.field := field;
      this.value := value;
      this.validateField := validateField;
      this.hasOnCancel := hasOnCancel;
      editing := false;
      editValue := value;
      errors := [];
    }

    /** The effect on `[value]`: a new prop value overwrites the edited value,
        even in the middle of an edit. */
    method PropChanged(v: Value)
      modifies this
      ensures value == v
      ensures editValue == if v != old(value) then v else old(editValue)
      ensures editing == old(editing) && errors == old(errors)
    {
      if v != value {
        value := v;
        editValue := v;
      }
    }

    /** `startEditing()`. */
    method StartEditing()
      modifies this
      ensures editing && editValue == value && errors == []
      ensures value == old(value)
    {
      editing := true;
      editValue := value;
      errors := [];
    }

    /** `cancelEdit()`: leaves edit mode showing the current prop value (not a
        snapshot taken when the edit started); says whether `onCancel` ran. */
    method CancelEdit() returns (cancelled: bool)
      modifies this
      ensures !editing && editValue == value && errors == []
      ensures value == old(value)
      ensures cancelled == hasOnCancel
    {
      editing := false;
      editValue := value;
      errors := [];
      cancelled := hasOnCancel;
    }

    /** `handleChange(val)`: takes the new value and its validation result. */
    method HandleChange(v: Value)
      modifies this
      ensures editValue == v
      ensures errors == match validateField(field, v) case None => [] case Some(e) => [e]
      ensures editing == old(editing) && value == old(value)
    {
      editValue := v;
      var error := validateField(field, v);
      errors := if error.Some? then [error.value] else [];
    }

    /** `saveEdit()`: with pending errors nothing happens at all; otherwise
        `onSave(id, field, editValue)` is called once, and a non-empty error
        list it returns replaces the errors (the edit stays open) while a null
        or empty reply closes the edit. */
    method SaveEdit(reply: Option<seq<ValidationError>>) returns (call: Option<SaveCall>)
      modifies this
      ensures old(errors) != [] ==>
        call == None && editing == old(editing) && editValue == old(editValue) && errors == old(errors)
      ensures old(errors) == [] ==> call == Some(SaveCall(id, field, old(editValue)))
      ensures old(errors) == [] && reply.Some? && reply.value != [] ==>
        editing == old(editing) && errors == reply.value
      ensures old(errors) == [] && (reply.None? || reply.value == []) ==>
        !editing && errors == []
      ensures editValue == old(editValue) && value == old(value)
    {
      if |errors| > 0 {
        return None;
      }
      call := Some(SaveCall(id, field, editValue));
      if reply.Some? && |reply.value| > 0 {
        errors := reply.value;
        return;
      }
      editing := false;
    }

    /** `handleKeyDown`: Enter saves, Escape cancels, any other key does nothing. */
    method HandleKeyDown(key: string, reply: Option<seq<ValidationError>>)
      returns (call: Option<SaveCall>, cancelled: bool)
      modifies this
      ensures key == "Enter" ==> !cancelled
      ensures key == "Enter" && old(errors) != [] ==>
        call == None && editing == old(editing) && editValue == old(editValue) && errors == old(errors)
      ensures key == "Enter" && old(errors) == [] ==> call == Some(SaveCall(id, field, old(editValue)))
      ensures key == "Enter" && old(errors) == [] && reply.Some? && reply.value != [] ==>
        editing == old(editing) && errors == reply.value
      ensures key == "Enter" && old(errors) == [] && (reply.None? || reply.value == []) ==>
        !editing && errors == []
      ensures key == "Enter" ==> editValue == old(editValue)
      ensures key == "Escape" ==>
        call == None && cancelled == hasOnCancel && !editing && editValue == value && errors == []
      ensures key != "Enter" && key != "Escape" ==>
        && call == None && !cancelled
        && editing == old(editing) && editValue == old(editValue) && errors == old(errors)
      ensures value == old(value)
    {
      call, cancelled := None, false;
      if key == "Enter" {
        call := SaveEdit(reply);
      } else if key == "Escape" {
        cancelled := CancelEdit();
      }
    }
  }

  /** The hook as the product card uses it, with the store's validator. */
  function StoreValidator(h: Host): (string, Value) -> Option<ValidationError> {
    (f: string, v: Value) => ValidateProduct(h, f, v)
  }

  /** Starting an edit, typing an invalid value and cancelling brings back the
      prop value with no errors, however invalid the typed value was. */
  method CancelAfterInvalidChange(h: Host, id: string, field: string, shown: Value, typed: Value)
    returns (editing: bool, editValue: Value, errors: seq<ValidationError>)
    requires ValidateProduct(h, field, typed).Some?
    ensures !editing && editValue == shown && errors == []
  {
    var e := new InlineEdit(id, field, shown, StoreValidator(h), false);
    e.StartEditing();
    e.HandleChange(typed);
    assert e.errors != [];
    var _ := e.CancelEdit();
    editing, editValue, errors := e.editing, e.editValue, e.errors;
  }

  /** Saving while the typed value is invalid calls nothing and keeps the
      edit open with the typed value and its error. */
  method SaveWithPendingErrors(h: Host, id: string, field: string, shown: Value, typed: Value,
                               reply: Option<seq<ValidationError>>)
    returns (call: Option<SaveCall>, editing: bool, editValue: Value, errors: seq<ValidationError>)
    requires ValidateProduct(h, field, typed).Some?
    ensures call == None && editing && editValue == typed
    ensures errors == [ValidateProduct(h, field, typed).value]
  {
    var e := new InlineEdit(id, field, shown, StoreValidator(h), false);
    e.StartEditing();
    e.HandleChange(typed);
    call := e.SaveEdit(reply);
    editing, editValue, errors := e.editing, e.editValue, e.errors;
  }

  /** Typing the same value twice leaves the same state as typing it once. */
  method ChangeTwice(h: Host, id: string, field: string, shown: Value, typed: Value)
    returns (once: (bool, Value, seq<ValidationError>), twice: (bool, Value, seq<ValidationError>))
    ensures once == twice
    ensures once.1 == typed && |once.2| <= 1
  {
    var e := new InlineEdit(id, field, shown, StoreValidator(h), false);
    e.StartEditing();
    e.HandleChange(typed);
    once := (e.editing, e.editValue, e.errors);
    e.HandleChange(typed);
    twice := (e.editing, e.editValue, e.errors);
  }

  /** Starting an edit and saving at once calls `onSave` with the shown value. */
  method SaveRightAfterStart(h: Host, id: string, field: string, shown: Value)
    returns (call: Option<SaveCall>, editing: bool)
    ensures call == Some(SaveCall(id, field, shown))
    ensures !editing
  {
    var e := new InlineEdit(id, field, shown, StoreValidator(h), false);
    e.StartEditing();
    call := e.SaveEdit(None);
    editing := e.editing;
  }
}

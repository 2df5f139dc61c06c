/**
 * The in-place text editor of src/components/EditableText.tsx: the text is
 * shown until it is double-clicked, then edited in a text area; leaving the
 * area or pressing Enter without Shift hands the text to the owner. The
 * owner's `value` is a property of the component that the owner may change
 * at any time.
 */
module EditableText {
  import opened Options

  class Field {
    /** The owner's current value (the `value` property). */
    var value: string
    var isEditing: bool
    /** The text shown, and edited while the text area is open. */
    var text: string

    constructor (value: string)
      ensures this.value == value && text == value && !isEditing
    {
      this.value := value;
      text := value;
      isEditing := false;
    }

    /** A render with a new `value`: the shown text follows it only when it differs from the last one, mid-edit or not. */
    method ValueChanged(newValue: string)
      modifies this
      ensures value == newValue
      ensures text == if newValue != old(value) then newValue else old(text)
      ensures isEditing == old(isEditing)
    {
      if newValue != value {
        text := newValue;
      }
      value := newValue;
    }

    /** Double-clicking the shown text opens the text area. */
    method DoubleClick()
      requires !isEditing
      modifies this
      ensures isEditing && text == old(text) && value == old(value)
    {
      isEditing := true;
    }

    /** Typing in the open text area. */
    method Type(newText: string)
      requires isEditing
      modifies this
      ensures text == newText && isEditing && value == old(value)
    {
      text := newText;
    }

    /** Leaving the text area closes it and hands the edited text to the owner. */
    method Blur() returns (committed: string)
      requires isEditing
      modifies this
      ensures committed == text && text == old(text)
      ensures !isEditing && value == old(value)
    {
      isEditing := false;
      committed := text;
    }

    /** A key in the text area: Enter without Shift behaves as leaving it; any other key hands nothing over. */
    method KeyDown(key: string, shift: bool) returns (committed: Option<string>)
      requires isEditing
      modifies this
      ensures committed.Some? <==> key == "Enter" && !shift
      ensures committed.Some? ==> committed.value == old(text) && !isEditing
      ensures committed.None? ==> isEditing
      ensures text == old(text) && value == old(value)
    {
      if key == "Enter" && !shift {
        var t := Blur();
        committed := Some(t);
      } else {
        committed := None;
      }
    }
  }

  /** Editing and pressing Enter hands over exactly what was typed, and the editor shows it afterwards. */
  method EditWithEnter(value: string, typed: string) returns (committed: Option<string>, shown: string, editing: bool)
    ensures committed == Some(typed) && shown == typed && !editing
  {
    var f := new Field(value);
    f.DoubleClick();
    f.Type(typed);
    committed := f.KeyDown("Enter", false);
    shown := f.text;
    editing := f.isEditing;
  }

  /** Shift+Enter keeps the text area open and hands nothing over. */
  method ShiftEnter(value: string, typed: string) returns (committed: Option<string>, editing: bool)
    ensures committed == None && editing
  {
    var f := new Field(value);
    f.DoubleClick();
    f.Type(typed);
    committed := f.KeyDown("Enter", true);
    editing := f.isEditing;
  }

  /**
   * An owner that changes `value` while the text area is open discards what
   * was typed so far: leaving the area then hands over the owner's new
   * value, not the typed text.
   */
  method OwnerChangeMidEdit(value: string, typed: string, newValue: string) returns (committed: string)
    requires newValue != value
    ensures committed == newValue
  {
    var f := new Field(value);
    f.DoubleClick();
    f.Type(typed);
    f.ValueChanged(newValue);
    committed := f.Blur();
  }

  /**
   * An owner that does not take the handed-over text (its `value` stays the
   * same) leaves the editor showing the typed text rather than its value.
   */
  method OwnerIgnoresEdit(value: string, typed: string) returns (shown: string, ownerValue: string)
    ensures shown == typed && ownerValue == value
  {
    var f := new Field(value);
    f.DoubleClick();
    f.Type(typed);
    var committed := f.Blur();
    f.ValueChanged(value);
    shown := f.text;
    ownerValue := f.value;
  }
}

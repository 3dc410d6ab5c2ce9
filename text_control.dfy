// The editable text field the controller writes into: its value and its
// selection, with the setters the HTML Living Standard defines for text
// controls (section 4.10.18.8, "APIs for the text control selections", and
// the input element's value setter in "value" mode).

module TextControl {

  function Min(a: int, b: int): int
  {
    if a <= b then a else b
  }

  /** A snapshot of a text field: its value (a `char` stands for a UTF-16
      code unit outside the surrogate range) and the selection [selStart, selEnd). */
  datatype FieldState = FieldState(value: string, selStart: nat, selEnd: nat)
  {
    /** The selection lies inside the value. */
    predicate Valid()
    {
      selStart <= selEnd <= |value|
    }
  }

  /** "Set the selection range": offsets past the end point at the end, and
      when the end does not lie after the start both ends collapse onto the end. */
  function WithSelectionRange(st: FieldState, start: nat, end: nat): (r: FieldState)
    ensures r.Valid() && r.value == st.value
    ensures r.selEnd == Min(end, |st.value|)
    ensures r.selStart == Min(Min(start, end), |st.value|)
    ensures start <= end <= |st.value| ==> r.selStart == start && r.selEnd == end
  {
    var len := |st.value|;
    var s := if start > len then len else start;
    var e := if end > len then len else end;
    if e <= s then FieldState(st.value, e, e) else FieldState(st.value, s, e)
  }

  /** Assigning `selectionEnd`: keeps the current start and sets the range. */
  function WithSelectionEnd(st: FieldState, end: nat): (r: FieldState)
    ensures r.Valid() && r.value == st.value
    ensures r.selEnd == Min(end, |st.value|)
    ensures r.selStart == Min(Min(st.selStart, end), |st.value|)
  {
    WithSelectionRange(st, st.selStart, end)
  }

  /** Assigning `selectionStart`: pushes the end forward when it lies before
      the new start, then sets the range. */
  function WithSelectionStart(st: FieldState, start: nat): (r: FieldState)
    ensures r.Valid() && r.value == st.value
    ensures r.selStart == Min(start, |st.value|)
    ensures r.selEnd == Min(if st.selEnd < start then start else st.selEnd, |st.value|)
  {
    WithSelectionRange(st, start, if st.selEnd < start then start else st.selEnd)
  }

  /** Assigning `value`: when the value really changes, the caret moves to the
      end of the new value and nothing stays selected. */
  function WithValue(st: FieldState, v: string): (r: FieldState)
    ensures r.value == v
    ensures st.Valid() ==> r.Valid()
    ensures v != st.value ==> r.selStart == r.selEnd == |v|
    ensures v == st.value ==> r == st
  {
    if v == st.value then st else FieldState(v, |v|, |v|)
  }

  /** The text field the controller's input target refers to. */
  class TextField {
    var value: string
    var selStart: nat
    var selEnd: nat

    /** The field's current value and selection as one snapshot. */
    function State(): FieldState
      reads this
    {
      FieldState(value, selStart, selEnd)
    }

    ghost predicate Valid()
      reads this
    {
      State().Valid()
    }

    constructor (initial: string, start: nat, end: nat)
      requires start <= end <= |initial|
      ensures Valid() && State() == FieldState(initial, start, end)
    {
      value, selStart, selEnd := initial, start, end;
    }

    /** `input.value = v`. */
    method SetValue(v: string)
      requires Valid()
      modifies this
      ensures Valid() && State() == WithValue(old(State()), v)
    {
      if v != value {
        value := v;
        selStart, selEnd := |v|, |v|;
      }
    }

    /** `input.setSelectionRange(start, end)`, clamping both offsets to the
        length of the value. */
    method SetSelectionRange(start: nat, end: nat)
      requires Valid()
      modifies this`selStart, this`selEnd
      ensures Valid() && State() == WithSelectionRange(old(State()), start, end)
    {
      var len := |value|;
      var s := if start > len then len else start;
      var e := if end > len then len else end;
      if e <= s {
        selStart, selEnd := e, e;
      } else {
        selStart, selEnd := s, e;
      }
    }

    /** `input.selectionEnd = end`. */
    method SetSelectionEnd(end: nat)
      requires Valid()
      modifies this`selStart, this`selEnd
      ensures Valid() && State() == WithSelectionEnd(old(State()), end)
    {
      SetSelectionRange(selStart, end);
    }

    /** `input.selectionStart = start`. */
    method SetSelectionStart(start: nat)
      requires Valid()
      modifies this`selStart, this`selEnd
      ensures Valid() && State() == WithSelectionStart(old(State()), start)
    {
      var end := if selEnd < start then start else selEnd;
      SetSelectionRange(start, end);
    }
  }
}

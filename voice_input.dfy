// The voice-input controller: it splices each event's final transcript into
// the text field at the selection, moves the selection past the inserted
// text, and toggles recording on and off.
//
// The interim transcript is never written into the field: the update only
// selects as many characters after the caret as the interim transcript is
// long, and those are characters that were already there. The next splice
// removes them (see InterimSelectionConsumed).

module VoiceInput {
  import opened Transcripts
  import opened TextControl

  /** `v` with the range [s, e) replaced by `inserted`. */
  function Spliced(v: string, s: nat, e: nat, inserted: string): (r: string)
    requires s <= e <= |v|
    ensures |r| == |v| - (e - s) + |inserted|
    ensures r[..s] == v[..s]
    ensures r[s..s + |inserted|] == inserted
    ensures r[s + |inserted|..] == v[e..]
  {
    v[..s] + inserted + v[e..]
  }

  /** The field after `updateInputValue(finalT, interimT)`: the field's value
      is assigned, then `selectionEnd` and `selectionStart` are set to the
      caret after the inserted text, then `setSelectionRange` selects as many
      characters after the caret as the interim transcript has. */
  function Updated(st: FieldState, finalT: string, interimT: string): (r: FieldState)
    requires st.Valid()
    ensures r.Valid()
    ensures r.value == Spliced(st.value, st.selStart, st.selEnd, finalT)
    ensures r.selStart == st.selStart + |finalT|
    ensures r.selEnd == Min(st.selStart + |finalT| + |interimT|, |r.value|)
  {
    var caret := st.selStart + |finalT|;
    var written := WithValue(st, st.value[..st.selStart] + finalT + st.value[st.selEnd..]);
    var collapsed := WithSelectionStart(WithSelectionEnd(written, caret), caret);
    WithSelectionRange(collapsed, caret, caret + |interimT|)
  }

  /** The field after handling each event of `events` in turn. */
  function Session(st: FieldState, events: seq<RecognitionEvent>): (r: FieldState)
    requires st.Valid()
    ensures r.Valid()
    decreases |events|
  {
    if events == [] then st
    else
      var t := Extraction(events[0]);
      Session(Updated(st, t.finalTranscript, t.interimTranscript), events[1..])
  }

  /** Total length of the final transcripts of `events`. */
  function FinalLength(events: seq<RecognitionEvent>): nat
  {
    if events == [] then 0 else |Extraction(events[0]).finalTranscript| + FinalLength(events[1..])
  }

  /** Undoing a splice: splicing the cut text back over the inserted text
      restores the original value. */
  lemma SpliceUndo(v: string, s: nat, e: nat, inserted: string)
    requires s <= e <= |v|
    ensures Spliced(Spliced(v, s, e, inserted), s, s + |inserted|, v[s..e]) == v
  {
  }

  /** The interim transcript never reaches the value: two updates that differ
      only in it write the same value and the same selection start. */
  lemma InterimNeverWritten(st: FieldState, finalT: string, interim1: string, interim2: string)
    requires st.Valid()
    ensures Updated(st, finalT, interim1).value == Updated(st, finalT, interim2).value
    ensures Updated(st, finalT, interim1).selStart == Updated(st, finalT, interim2).selStart
  {
  }

  /** What the selection left by an interim-only update covers: characters of
      the value that were already after the caret, up to the interim
      transcript's length; the next update deletes exactly those. */
  lemma InterimSelectionConsumed(st: FieldState, interimT: string, finalT: string, nextInterim: string)
    requires st.Valid() && st.selStart == st.selEnd
    ensures var mid := Updated(st, "", interimT);
      var stop := Min(st.selStart + |interimT|, |st.value|);
      mid.value == st.value &&
      mid.value[mid.selStart..mid.selEnd] == st.value[st.selStart..stop] &&
      Updated(mid, finalT, nextInterim).value == st.value[..st.selStart] + finalT + st.value[stop..]
  {
  }

  /** Over any sequence of events the selection start only moves forward, by
      exactly the total length of the final transcripts, and the text before
      the initial selection start is never touched. */
  lemma {:induction false} SessionCaret(st: FieldState, events: seq<RecognitionEvent>)
    requires st.Valid()
    ensures Session(st, events).selStart == st.selStart + FinalLength(events)
    ensures Session(st, events).value[..st.selStart] == st.value[..st.selStart]
    decreases |events|
  {
    if events != [] {
      var t := Extraction(events[0]);
      var next := Updated(st, t.finalTranscript, t.interimTranscript);
      SessionCaret(next, events[1..]);
      assert next.value[..st.selStart] == st.value[..st.selStart];
      assert Session(st, events).value[..st.selStart] == next.value[..next.selStart][..st.selStart];
    }
  }

  /** A user selection "XYZ" in "abcXYZdef" is replaced by the final
      transcript "Q", and the caret lands right after it. */
  lemma SelectionReplaceExample()
    ensures Updated(FieldState("abcXYZdef", 3, 6), "Q", "") == FieldState("abcQdef", 4, 4)
  {
  }

  /** A final "cat " followed by an interim "dog" and an empty event leaves
      "cat " once, and no "dog". */
  lemma FinalTextPermanenceExample()
    ensures Updated(Updated(Updated(FieldState("", 0, 0), "cat ", ""), "", "dog"), "", "").value == "cat "
  {
  }

  /** The Stimulus controller attached to the voice-input form. */
  class VoiceInputController {
    /** The input target. */
    const input: TextField
    /** Whether a speech recognizer could be constructed on `connect()`. */
    const recognitionAvailable: bool
    /** Whether recording is in progress. */
    var speaking: bool

    /** `connect()`: keeps the recognizer (or its absence) and starts idle. */
    constructor Connect(input: TextField, recognitionAvailable: bool)
      ensures this.input == input && this.recognitionAvailable == recognitionAvailable
      ensures !speaking
    {
      this.input := input;
      this.recognitionAvailable := recognitionAvailable;
      speaking := false;
    }

    /** `onerror`: the error is logged and recording stops. */
    method HandleSpeechRecognitionError()
      requires recognitionAvailable
      modifies this`speaking
      ensures !speaking
    {
      StopRecording();
    }

    /** `onresult`: extract the two transcripts and update the field. */
    method HandleSpeechRecognitionResult(event: RecognitionEvent)
      requires input.Valid()
      modifies input
      ensures input.Valid()
      ensures input.State() == Updated(old(input.State()), Extraction(event).finalTranscript,
                                       Extraction(event).interimTranscript)
    {
      var t := ExtractTranscripts(event);
      UpdateInputValue(t.finalTranscript, t.interimTranscript);
    }

    /** Replace the selection with `finalT` and select `|interimT|` characters
        after the inserted text, clamped to the end of the value. */
    method UpdateInputValue(finalT: string, interimT: string)
      requires input.Valid()
      modifies input
      ensures input.Valid()
      ensures input.State() == Updated(old(input.State()), finalT, interimT)
      ensures input.selStart >= old(input.selStart)
      ensures |input.value| == |old(input.value)| - (old(input.selEnd) - old(input.selStart)) + |finalT|
    {
      var selectionStart := input.selStart;
      var selectionEnd := input.selEnd;
      var currentValue := input.value;
      var beforeSelection := currentValue[..selectionStart];
      var afterSelection := currentValue[selectionEnd..];
      var updatedValue := beforeSelection + finalT + afterSelection;
      input.SetValue(updatedValue);
      input.SetSelectionEnd(selectionStart + |finalT|);
      input.SetSelectionStart(selectionStart + |finalT|);
      var updatedSelectionStart := selectionStart + |finalT|;
      var updatedSelectionEnd := updatedSelectionStart + |interimT|;
      input.SetSelectionRange(updatedSelectionStart, updatedSelectionEnd);
    }

    /** The start button: toggles recording when a recognizer exists, and
        does nothing otherwise. */
    method Record()
      modifies this`speaking
      ensures recognitionAvailable ==> speaking == !old(speaking)
      ensures !recognitionAvailable ==> speaking == old(speaking)
    {
      if !recognitionAvailable {
        return;
      }
      if speaking {
        StopRecording();
      } else {
        StartRecording();
      }
    }

    /** Starts the recognizer and marks recording as in progress. */
    method StartRecording()
      requires recognitionAvailable
      modifies this`speaking
      ensures speaking
    {
      speaking := true;
    }

    /** Stops the recognizer and marks recording as over. */
    method StopRecording()
      requires recognitionAvailable
      modifies this`speaking
      ensures !speaking
    {
      speaking := false;
    }
  }
}

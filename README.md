# Voice input controller, modelled in Dafny

This project models the text logic of the `voice-input` Stimulus controller of
the speech-recognition demo application. The controller receives result events
from the browser's speech recognizer (the W3C Web Speech API). It extracts the
final and the interim transcript of each event, splices the final transcript
into the input field at the current selection, and then moves the selection
past the inserted text. A start button toggles recording on and off.

Modules:

- `Transcripts` (`transcripts.dfy`): a recognition event is a `resultIndex` and
  a sequence of result slots. Each slot is `(isFinal, top)`, where `top` is the
  transcript of alternative 0. `Joined` is the reference definition of a
  transcript: the in-order concatenation of the top alternatives of one kind.
  `ExtractTranscripts` is the source's loop with its two accumulators, proved
  equal to `Extraction`.
- `TextControl` (`text_control.dfy`): the input field as a class `TextField`
  with `value`, `selStart` and `selEnd`, under `selStart <= selEnd <= |value|`.
  It has the setters the HTML Living Standard defines. `setSelectionRange`
  clamps both offsets to the length of the value, and collapses the selection
  onto the end when the end is not after the start (section 4.10.18.8, "APIs
  for the text control selections"). Assigning `selectionStart` or
  `selectionEnd` goes through the same range setting. Assigning a value that
  differs from the old one puts the caret at the end. `FieldState` is the
  value-level snapshot of the field, and the `With…` functions specify the
  setters.
- `VoiceInput` (`voice_input.dfy`): `Spliced` and `Updated` specify
  `updateInputValue`. `Session` folds the per-event update over a sequence of
  events. The class `VoiceInputController` holds the input target, whether a
  recognizer exists, and the `speaking` flag.

Strings are `seq<char>`, and lengths and offsets count `char`s where
JavaScript's `.length` and `substring` count UTF-16 code units. The two agree
for text inside the Basic Multilingual Plane. A Dafny `char` cannot be a
surrogate code unit, so text with characters outside that plane (an emoji, for
one) is not represented; see "## Left out".

The model follows the code where it departs from its own comments, which speak
of updating the value "with the final and interim transcripts" (line 73) and of
clearing the interim transcript (line 88). The interim transcript is never
written into the field (line 83 inserts only the final transcript). The selection set at line 92
therefore covers up to `|interim|` characters that were already after the
caret, clamped to the end of the value. The next event's splice deletes those
characters. `InterimSelectionConsumed` states this.

## Model

| member | source | states |
|---|---|---|
| `Transcripts.Visited` | app/javascript/controllers/voice_input_controller.js:59 | the visited slots are those from `resultIndex` to the end, and there are none when `resultIndex` is at or past the end |
| `Transcripts.ExtractTranscripts` | app/javascript/controllers/voice_input_controller.js:55-71 | the loop's two accumulators equal the final and interim transcripts of `Extraction`: the concatenation of the top alternatives of the visited final slots and of the visited non-final slots |
| `Transcripts.JoinedAppend` | app/javascript/controllers/voice_input_controller.js:59-65 | a transcript of a concatenation of slot runs is the concatenation of their transcripts, so slot order is kept and nothing is dropped or reordered |
| `Transcripts.JoinedPartition` | app/javascript/controllers/voice_input_controller.js:60-64 | every slot goes to exactly one output: `\|final\| + \|interim\|` is the sum of the lengths of the top alternatives |
| `Transcripts.JoinedSlotAt` | app/javascript/controllers/voice_input_controller.js:59-64 | each slot's top alternative appears unchanged in its transcript, right after what the earlier slots of the same kind contribute |
| `Transcripts.JoinedEmpty` | app/javascript/controllers/voice_input_controller.js:59-64 | a transcript is empty if and only if every slot of that kind has an empty top alternative |
| `Transcripts.ExtractionOfEmptyRange` | app/javascript/controllers/voice_input_controller.js:59 | when `resultIndex >= \|results\|` both transcripts are empty |
| `Transcripts.ExtractionPartition` | app/javascript/controllers/voice_input_controller.js:59-65 | the two transcripts of an event are together as long as the top alternatives of its visited slots |
| `TextControl.WithSelectionRange` | app/javascript/controllers/voice_input_controller.js:92 | `setSelectionRange` leaves the value alone and keeps the selection valid; the end becomes `min(end, \|value\|)`, the start `min(start, end, \|value\|)`; a request inside the value is honoured exactly |
| `TextControl.WithSelectionEnd` | app/javascript/controllers/voice_input_controller.js:85-86 | assigning `selectionEnd` keeps the value and a valid selection; the end becomes the requested offset clamped to the length, and the start becomes `min(selStart, end, \|value\|)` |
| `TextControl.WithSelectionStart` | app/javascript/controllers/voice_input_controller.js:85-86 | assigning `selectionStart` keeps the value and a valid selection; the start becomes the requested offset clamped to the length, and the end becomes `min(max(selEnd, start), \|value\|)` |
| `TextControl.WithValue` | app/javascript/controllers/voice_input_controller.js:84 | assigning the value stores it; a changed value puts the caret at its end, an unchanged one leaves the field as it was |
| `TextControl.TextField.SetValue` | app/javascript/controllers/voice_input_controller.js:84 | the field's new state is `WithValue` of the old one |
| `TextControl.TextField.SetSelectionRange` | app/javascript/controllers/voice_input_controller.js:92 | the field's new state is `WithSelectionRange` of the old one; the value is not touched |
| `TextControl.TextField.SetSelectionEnd` | app/javascript/controllers/voice_input_controller.js:85-86 | the field's new state is `WithSelectionEnd` of the old one |
| `TextControl.TextField.SetSelectionStart` | app/javascript/controllers/voice_input_controller.js:85-86 | the field's new state is `WithSelectionStart` of the old one |
| `VoiceInput.Spliced` | app/javascript/controllers/voice_input_controller.js:79-83 | the new value has length `\|old\| - (e - s) + \|final\|`, keeps `old[..s]` as its prefix and `old[e..]` as its suffix, and holds the final transcript in between |
| `VoiceInput.Updated` | app/javascript/controllers/voice_input_controller.js:74-93 | after the update the value is the splice of the final transcript over the old selection; `selStart == s + \|final\|`; `selEnd == min(s + \|final\| + \|interim\|, \|value\|)`; the selection stays valid |
| `VoiceInput.Session` | app/javascript/controllers/voice_input_controller.js:48-52 | handling any sequence of result events keeps the selection inside the value |
| `VoiceInput.SpliceUndo` | app/javascript/controllers/voice_input_controller.js:80-83 | splicing the removed text back over the inserted final transcript restores the old value |
| `VoiceInput.InterimNeverWritten` | app/javascript/controllers/voice_input_controller.js:83-84 | the interim transcript affects neither the new value nor the new selection start |
| `VoiceInput.InterimSelectionConsumed` | app/javascript/controllers/voice_input_controller.js:80-92 | after an interim-only update at a caret, the selection covers the existing characters after the caret, up to the interim length; the next update deletes exactly those characters |
| `VoiceInput.SessionCaret` | app/javascript/controllers/voice_input_controller.js:48-52 | over any sequence of events the selection start moves forward by exactly the total length of the final transcripts, and the text before the initial selection start is never changed |
| `VoiceInput.SelectionReplaceExample` | app/javascript/controllers/voice_input_controller.js:74-93 | the selection "XYZ" of "abcXYZdef" replaced by the final transcript "Q" gives "abcQdef" with the caret at 4 |
| `VoiceInput.FinalTextPermanenceExample` | app/javascript/controllers/voice_input_controller.js:74-93 | a final "cat " followed by an interim "dog" and an empty event leaves exactly "cat " |
| `VoiceInput.VoiceInputController.Connect` | app/javascript/controllers/voice_input_controller.js:7-11 | a connected controller keeps its input and whether a recognizer exists, and is not speaking |
| `VoiceInput.VoiceInputController.HandleSpeechRecognitionError` | app/javascript/controllers/voice_input_controller.js:42-45 | after a recognition error the controller is not speaking |
| `VoiceInput.VoiceInputController.HandleSpeechRecognitionResult` | app/javascript/controllers/voice_input_controller.js:48-52 | a result event updates the field with the event's extracted final and interim transcripts |
| `VoiceInput.VoiceInputController.UpdateInputValue` | app/javascript/controllers/voice_input_controller.js:74-93 | the field's new state is `Updated` of the old one, so the selection start never decreases and the length changes by `\|final\| - (e - s)` |
| `VoiceInput.VoiceInputController.Record` | app/javascript/controllers/voice_input_controller.js:96-110 | with a recognizer the button flips `speaking`; without one nothing changes |
| `VoiceInput.VoiceInputController.StartRecording` | app/javascript/controllers/voice_input_controller.js:113-117 | recording starts and `speaking` is set |
| `VoiceInput.VoiceInputController.StopRecording` | app/javascript/controllers/voice_input_controller.js:120-124 | recording stops and `speaking` is cleared |

## Left out

- Constructing the recognizer and detecting whether the browser has one (lines 13-25) is not modelled. The controller takes `recognitionAvailable` as a parameter instead.
- Setting the recognizer's `continuous`, `interimResults` and `lang` properties (lines 27-31) is browser configuration with no effect on the text logic.
- Wiring the `onstart`, `onerror`, `onend` and `onresult` callbacks (lines 33-40) is left out. Only the handlers' effects are modelled. `onstart` and `onend` only log.
- The recognizer's `start()` and `stop()` calls are calls into the browser. They have no visible effect here.
- `console.log`/`console.error` output and the start button's label text are left out. They are logging and UI. The error code passed to the error handler is only logged, so the handler takes no parameter.
- Value sanitization on assignment (an `<input type=text>` strips line breaks) is not modelled, because the target element's type is not known. The value is stored as given.
- Text containing surrogate code units (characters outside the Basic Multilingual Plane, such as emoji) is not representable, because a Dafny `char` cannot hold a surrogate. Every lemma here holds for any `char` values and speaks only of lengths, offsets and concatenation, so the results carry over to code-unit sequences.
- Fields whose `selectionStart` is `null`, and user edits that happen between reading and writing the field, are left out. Both are DOM concerns outside the controller's logic.
- The selection direction that `setSelectionRange` also sets is not modelled. The controller never reads it.
- Calling the recording methods without a recognizer is excluded by a precondition on `StartRecording`, `StopRecording` and `HandleSpeechRecognitionError`. In JavaScript, calling `start()` or `stop()` on `null` throws. The error handler is only ever installed on an existing recognizer.

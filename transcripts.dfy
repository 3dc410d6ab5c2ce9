// Transcript extraction: turning one speech-recognition result event into the
// finalized text and the still-changing (interim) text it carries.

module Transcripts {

  /** One result slot of a recognition event: whether the recognizer has
      finalized it, and the transcript of its top-ranked alternative.
      A `char` stands for one UTF-16 code unit; surrogate code units have no
      `char`, so text outside the Basic Multilingual Plane is not represented. */
  datatype ResultSlot = ResultSlot(isFinal: bool, top: string)

  /** A recognition event: the index of the first new or changed slot, and all
      result slots of the session so far. */
  datatype RecognitionEvent = RecognitionEvent(resultIndex: nat, results: seq<ResultSlot>)

  /** What the extraction returns for one event. */
  datatype TranscriptPair = TranscriptPair(finalTranscript: string, interimTranscript: string)

  /** The slots the extraction visits: from `resultIndex` to the end, none when
      `resultIndex` lies past the end. */
  function Visited(event: RecognitionEvent): (r: seq<ResultSlot>)
    ensures |r| == if event.resultIndex <= |event.results| then |event.results| - event.resultIndex else 0
    ensures forall k :: 0 <= k < |r| ==> r[k] == event.results[event.resultIndex + k]
  {
    if event.resultIndex <= |event.results| then event.results[event.resultIndex..] else []
  }

  /** What one slot contributes to the transcript of the kind `wantFinal`. */
  function Piece(slot: ResultSlot, wantFinal: bool): string
  {
    if slot.isFinal == wantFinal then slot.top else ""
  }

  /** The in-order concatenation of the top alternatives of those slots whose
      `isFinal` flag equals `wantFinal`: no trimming, reordering or dedup. */
  function Joined(slots: seq<ResultSlot>, wantFinal: bool): string
  {
    if slots == [] then "" else Piece(slots[0], wantFinal) + Joined(slots[1..], wantFinal)
  }

  /** Sum of the lengths of the top alternatives of `slots`. */
  function TotalLength(slots: seq<ResultSlot>): nat
  {
    if slots == [] then 0 else |slots[0].top| + TotalLength(slots[1..])
  }

  /** The specification of the extraction: final and interim transcripts of the
      visited slots. */
  function Extraction(event: RecognitionEvent): (t: TranscriptPair)
  {
    TranscriptPair(Joined(Visited(event), true), Joined(Visited(event), false))
  }

  /** Joining distributes over concatenation of slot sequences. */
  lemma {:induction false} JoinedAppend(a: seq<ResultSlot>, b: seq<ResultSlot>, wantFinal: bool)
    ensures Joined(a + b, wantFinal) == Joined(a, wantFinal) + Joined(b, wantFinal)
  {
    if a == [] {
      assert a + b == b;
    } else {
      assert (a + b)[1..] == a[1..] + b;
      JoinedAppend(a[1..], b, wantFinal);
    }
  }

  /** Appending one slot appends its piece. */
  lemma JoinedSnoc(done: seq<ResultSlot>, slot: ResultSlot, wantFinal: bool)
    ensures Joined(done + [slot], wantFinal) == Joined(done, wantFinal) + Piece(slot, wantFinal)
  {
    JoinedAppend(done, [slot], wantFinal);
    assert [slot][1..] == [];
  }

  /** Every slot contributes to exactly one of the two transcripts. */
  lemma {:induction false} JoinedPartition(slots: seq<ResultSlot>)
    ensures |Joined(slots, true)| + |Joined(slots, false)| == TotalLength(slots)
  {
    if slots != [] {
      JoinedPartition(slots[1..]);
    }
  }

  /** Slot `i` of the wanted kind appears, unchanged, in the joined transcript
      right after what the slots before it contribute. */
  lemma JoinedSlotAt(slots: seq<ResultSlot>, i: nat, wantFinal: bool)
    requires i < |slots| && slots[i].isFinal == wantFinal
    ensures var offset := |Joined(slots[..i], wantFinal)|;
      offset + |slots[i].top| <= |Joined(slots, wantFinal)| &&
      Joined(slots, wantFinal)[offset..offset + |slots[i].top|] == slots[i].top
  {
    assert slots == slots[..i] + ([slots[i]] + slots[i + 1..]);
    JoinedAppend(slots[..i], [slots[i]] + slots[i + 1..], wantFinal);
    JoinedAppend([slots[i]], slots[i + 1..], wantFinal);
    assert Joined([slots[i]], wantFinal) == slots[i].top by {
      assert [slots[i]][1..] == [];
    }
  }

  /** A joined transcript is empty exactly when every slot of that kind has an
      empty top alternative. */
  lemma {:induction false} JoinedEmpty(slots: seq<ResultSlot>, wantFinal: bool)
    ensures Joined(slots, wantFinal) == "" <==>
      forall i :: 0 <= i < |slots| && slots[i].isFinal == wantFinal ==> slots[i].top == ""
  {
    if slots != [] {
      JoinedEmpty(slots[1..], wantFinal);
      assert forall i :: 1 <= i < |slots| ==> slots[i] == slots[1..][i - 1];
    }
  }

  /** An event whose `resultIndex` is at or past the end yields two empty transcripts. */
  lemma ExtractionOfEmptyRange(event: RecognitionEvent)
    requires event.resultIndex >= |event.results|
    ensures Extraction(event) == TranscriptPair("", "")
  {
  }

  /** The two transcripts together are exactly as long as the visited top alternatives. */
  lemma ExtractionPartition(event: RecognitionEvent)
    ensures |Extraction(event).finalTranscript| + |Extraction(event).interimTranscript|
         == TotalLength(Visited(event))
  {
    JoinedPartition(Visited(event));
  }

  /** The extraction loop: walks the slots from `resultIndex` to the end and
      appends each top alternative to the final or the interim accumulator. */
  method ExtractTranscripts(event: RecognitionEvent) returns (t: TranscriptPair)
    ensures t == Extraction(event)
  {
    var finalTranscript, interimTranscript := "", "";
    var i := event.resultIndex;
    while i < |event.results|
      invariant event.resultIndex <= i
      invariant i <= |event.results| || i == event.resultIndex
      invariant i <= |event.results| ==>
        finalTranscript == Joined(event.results[event.resultIndex..i], true) &&
        interimTranscript == Joined(event.results[event.resultIndex..i], false)
      // a `resultIndex` past the end: the loop never runs and both stay empty
      invariant |event.results| < i ==> finalTranscript == "" && interimTranscript == ""
    {
      ghost var done := event.results[event.resultIndex..i];
      assert event.results[event.resultIndex..i + 1] == done + [event.results[i]];
      JoinedSnoc(done, event.results[i], true);
      JoinedSnoc(done, event.results[i], false);
      if event.results[i].isFinal {
        finalTranscript := finalTranscript + event.results[i].top;
      } else {
        interimTranscript := interimTranscript + event.results[i].top;
      }
      i := i + 1;
    }
    if event.resultIndex <= |event.results| {
      assert event.results[event.resultIndex..i] == Visited(event);
    }
    t := TranscriptPair(finalTranscript, interimTranscript);
  }
}

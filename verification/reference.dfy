/** The reference (I0) lifecycle of the analyser's capture loop: I0 starts unset,
    key 'r' records a copy of the current intensity profile, key 'q' ends the
    loop, and any other key (or none) leaves I0 as it was. */
module Reference {

  /** I0: not yet recorded, or the recorded intensity profile. Sequences are
      values, so a recorded profile is a copy that later frames cannot alter. */
  datatype Reference = Unset | Recorded(i0: seq<real>)

  /** The loop starts with I0 unset. */
  const Start: Reference := Unset

  /** `ord('r')` and `ord('q')`. */
  const KeyRecord: int := 114
  const KeyQuit: int := 113

  /** `cv2.waitKey(1) & 0xFF`: the low byte of the key code, so "no key" (-1)
      reads as 255. Python's `&` on a negative int acts on its two's complement,
      which is the floor remainder modulo 256; Dafny's `%` agrees for a positive
      divisor. */
  function KeyByte(raw: int): (k: int)
    ensures 0 <= k < 256
    ensures 0 <= raw < 256 ==> k == raw
    ensures (raw - k) % 256 == 0
  {
    raw % 256
  }

  /** One pass through the key handling at the end of a loop iteration. */
  datatype KeyStep = KeyStep(reference: Reference, quit: bool)

  /** Key handling: 'r' records a copy of the current intensity (replacing any
      earlier I0), 'q' quits with I0 untouched, anything else changes nothing. */
  function OnKey(ref: Reference, key: int, intensity: seq<real>): (s: KeyStep)
    ensures s.quit <==> key == KeyQuit
    ensures key == KeyRecord ==> s.reference == Recorded(intensity)
    ensures key != KeyRecord ==> s.reference == ref
    ensures ref.Recorded? ==> s.reference.Recorded?
  {
    if key == KeyRecord then KeyStep(Recorded(intensity), false)
    else if key == KeyQuit then KeyStep(ref, true)
    else KeyStep(ref, false)
  }

  /** One loop iteration's input: the frame's intensity profile and the raw code
      `cv2.waitKey` returned after it was shown (-1 for no key). */
  datatype Event = Event(intensity: seq<real>, code: int)
  {
    /** The key byte the loop compares against 'r' and 'q'. */
    function Key(): int
    {
      KeyByte(code)
    }
  }

  /** I0 after the loop has processed the events in order, stopping at the first
      'q': either the starting I0 or the intensity of some 'r' event. */
  function Replay(ref: Reference, events: seq<Event>): (r: Reference)
    decreases |events|
    ensures r == ref || exists k :: 0 <= k < |events| && events[k].Key() == KeyRecord && r == Recorded(events[k].intensity)
  {
    if |events| == 0 then ref
    else
      var s := OnKey(ref, events[0].Key(), events[0].intensity);
      if s.quit then s.reference
      else
        var r := Replay(s.reference, events[1..]);
        assert forall k :: 0 <= k < |events| - 1 ==> events[1..][k] == events[k + 1];
        r
  }

  /** Once recorded, I0 never returns to unset. */
  lemma {:induction false} ReplayNeverUnsets(ref: Reference, events: seq<Event>)
    requires ref.Recorded?
    decreases |events|
    ensures Replay(ref, events).Recorded?
  {
    if |events| > 0 {
      ReplayNeverUnsets(OnKey(ref, events[0].Key(), events[0].intensity).reference, events[1..]);
    }
  }

  /** Without a quit the loop ends with the intensity of the LAST 'r' event as I0
      (each later 'r' overwrites the earlier), or with the starting reference if
      there was no 'r' at all: the independent backward-search definition below. */
  function LastRecorded(ref: Reference, events: seq<Event>): Reference
  {
    if |events| == 0 then ref
    else if events[|events| - 1].Key() == KeyRecord then Recorded(events[|events| - 1].intensity)
    else LastRecorded(ref, events[..|events| - 1])
  }

  /** Replaying one more event that is not a quit is one more key step. */
  lemma {:induction false} ReplaySnoc(ref: Reference, events: seq<Event>, e: Event)
    requires forall k :: 0 <= k < |events| ==> events[k].Key() != KeyQuit
    requires e.Key() != KeyQuit
    decreases |events|
    ensures Replay(ref, events + [e]) == OnKey(Replay(ref, events), e.Key(), e.intensity).reference
  {
    if |events| > 0 {
      var s := OnKey(ref, events[0].Key(), events[0].intensity);
      assert (events + [e])[1..] == events[1..] + [e];
      ReplaySnoc(s.reference, events[1..], e);
    }
  }

  /** Without a 'q', the forward replay and the backward search agree: the last
      'r' wins. */
  lemma {:induction false} ReplayIsLastRecorded(ref: Reference, events: seq<Event>)
    requires forall k :: 0 <= k < |events| ==> events[k].Key() != KeyQuit
    ensures Replay(ref, events) == LastRecorded(ref, events)
  {
    if |events| > 0 {
      var front, e := events[..|events| - 1], events[|events| - 1];
      assert events == front + [e];
      ReplayIsLastRecorded(ref, front);
      ReplaySnoc(ref, front, e);
    }
  }

  /** Events after the first 'q' are never processed. */
  lemma {:induction false} ReplayStopsAtQuit(ref: Reference, events: seq<Event>, q: nat)
    requires q < |events| && events[q].Key() == KeyQuit
    requires forall k :: 0 <= k < q ==> events[k].Key() != KeyQuit
    decreases q
    ensures Replay(ref, events) == Replay(ref, events[..q])
  {
    if q > 0 {
      var s := OnKey(ref, events[0].Key(), events[0].intensity);
      assert events[1..][..q - 1] == events[..q][1..];
      ReplayStopsAtQuit(s.reference, events[1..], q - 1);
    }
  }

  /** A session without an 'r' never records I0. */
  lemma {:induction false} ReplayWithoutRecord(ref: Reference, events: seq<Event>)
    requires forall k :: 0 <= k < |events| ==> events[k].Key() != KeyRecord
    decreases |events|
    ensures Replay(ref, events) == ref
  {
    if |events| > 0 {
      ReplayWithoutRecord(ref, events[1..]);
    }
  }

  /** From the loop's start, I0 is recorded at the end exactly when some 'r' came
      before the first 'q' (or anywhere, if there was no 'q'). */
  lemma {:induction false} RecordedFromStartIff(events: seq<Event>, q: nat)
    requires q <= |events|
    requires forall k :: 0 <= k < q ==> events[k].Key() != KeyQuit
    requires q < |events| ==> events[q].Key() == KeyQuit
    ensures Replay(Start, events).Recorded? <==> exists k :: 0 <= k < q && events[k].Key() == KeyRecord
  {
    if q < |events| {
      ReplayStopsAtQuit(Start, events, q);
    } else {
      assert events[..q] == events;
    }
    var front := events[..q];
    ReplayIsLastRecorded(Start, front);
    LastRecordedIff(Start, front);
  }

  /** The backward search ends with a recorded I0 exactly when the start was
      recorded or some event was an 'r'. */
  lemma {:induction false} LastRecordedIff(ref: Reference, events: seq<Event>)
    ensures LastRecorded(ref, events).Recorded? <==>
              ref.Recorded? || exists k :: 0 <= k < |events| && events[k].Key() == KeyRecord
  {
    if |events| > 0 {
      var front := events[..|events| - 1];
      LastRecordedIff(ref, front);
      assert forall k :: 0 <= k < |front| ==> front[k] == events[k];
    }
  }
}

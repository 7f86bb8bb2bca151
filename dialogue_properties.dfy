/**
 * What DialogueManager.cs promises about its sentence index, its cooldown gate and its
 * trigger/on flags, stated over the step functions of module Dialogue.
 */
module DialogueProperties {
  import opened Dialogue

  // ---------------------------------------------------------------------------
  // The cooldown gate and the sentence index
  // ---------------------------------------------------------------------------

  /** While the cooldown runs, NextSentence is refused: no change, no call, not the last sentence. */
  lemma NextSentenceGatedByCooldown(sentences: seq<Sentence>, st: DialogueState)
    requires st.currentSentence >= 0 && st.coolDownTimer > 0.0
    ensures NextSentenceStep(sentences, st) == (Transition(st, []), false)
  {
  }

  /** Once the cooldown has run out, NextSentence moves the index on by exactly one. */
  lemma NextSentenceAdvancesByOne(sentences: seq<Sentence>, st: DialogueState)
    requires st.currentSentence >= 0 && st.coolDownTimer <= 0.0
    ensures NextSentenceStep(sentences, st).0.after.currentSentence == st.currentSentence + 1
  {
  }

  /**
   * NextSentence reports the last sentence exactly when the cooldown has run out and the
   * moved index is past the end of the list; the dialogue is then off and no trigger is held.
   */
  lemma LastSentenceExactlyAtEnd(sentences: seq<Sentence>, st: DialogueState)
    requires st.currentSentence >= 0
    ensures NextSentenceStep(sentences, st).1
      <==> st.coolDownTimer <= 0.0 && st.currentSentence + 1 > |sentences| - 1
    ensures NextSentenceStep(sentences, st).1 ==>
      !NextSentenceStep(sentences, st).0.after.dialogueIsOn && !NextSentenceStep(sentences, st).0.after.triggerHeld
    ensures NextSentenceStep(sentences, st).1 ==>
      NextSentenceStep(sentences, st).0.effects[|NextSentenceStep(sentences, st).0.effects| - 1] == ManagerEvent(End)
  {
  }

  /**
   * An accepted NextSentence that is not the last lands on an index inside the list, shows
   * that sentence, takes its skip delay as the cooldown and leaves the flags alone.
   */
  lemma NextSentenceStaysInRange(sentences: seq<Sentence>, st: DialogueState)
    requires st.currentSentence >= 0 && st.coolDownTimer <= 0.0
    requires !NextSentenceStep(sentences, st).1
    ensures var after := NextSentenceStep(sentences, st).0.after;
      0 <= after.currentSentence < |sentences|
      && after.coolDownTimer == sentences[after.currentSentence].skipDelayTime
      && after.dialogueIsOn == st.dialogueIsOn && after.triggerHeld == st.triggerHeld
    ensures ShowSentence(st.currentSentence + 1) in NextSentenceStep(sentences, st).0.effects
  {
  }

  /** StartDialogue rewinds to the first sentence and arms the cooldown with its delay. */
  lemma StartDialogueRewinds(sentences: seq<Sentence>, st: DialogueState)
    requires |sentences| > 0
    ensures StartDialogueStep(sentences, st).after
      == st.(currentSentence := 0, coolDownTimer := sentences[0].skipDelayTime)
    ensures ShowSentence(0) in StartDialogueStep(sentences, st).effects
  {
  }

  /** Update lowers a positive cooldown by the frame time and leaves any other state alone. */
  lemma UpdateRunsDownCooldown(st: DialogueState, deltaTime: real)
    ensures st.coolDownTimer > 0.0 ==>
      UpdateStep(st, deltaTime) == st.(coolDownTimer := st.coolDownTimer - deltaTime)
    ensures st.coolDownTimer <= 0.0 ==> UpdateStep(st, deltaTime) == st
  {
  }

  /** A frame at least as long as a positive cooldown opens the gate. */
  lemma LongFrameOpensGate(st: DialogueState, deltaTime: real)
    requires st.coolDownTimer <= deltaTime
    ensures UpdateStep(st, deltaTime).coolDownTimer <= 0.0
  {
  }

  // ---------------------------------------------------------------------------
  // The flags
  // ---------------------------------------------------------------------------

  /** OnInteract acts only with a trigger held and no dialogue on; afterwards the dialogue is on. */
  lemma OnInteractGuard(st: DialogueState)
    ensures OnInteractStep(st).effects != [] <==> st.triggerHeld && !st.dialogueIsOn
    ensures st.triggerHeld ==> OnInteractStep(st).after.dialogueIsOn
    ensures OnInteractStep(st).after == st.(dialogueIsOn := OnInteractStep(st).after.dialogueIsOn)
  {
  }

  /** OnTriggerStay takes a trigger only when none is held, the mode is Input and the component is found. */
  lemma OnTriggerStayGuard(triggerState: TriggerState, st: DialogueState, componentFound: bool)
    ensures OnTriggerStayStep(triggerState, st, componentFound).after.triggerHeld
      <==> st.triggerHeld || (triggerState == Input && componentFound)
    ensures OnTriggerStayStep(triggerState, st, componentFound).after
      == st.(triggerHeld := OnTriggerStayStep(triggerState, st, componentFound).after.triggerHeld)
  {
  }

  /** OnTriggerEnter starts a dialogue only in Collision mode, and never while one is on. */
  lemma OnTriggerEnterGuard(triggerState: TriggerState, st: DialogueState, componentFound: bool)
    ensures triggerState == Input || st.dialogueIsOn || !componentFound
      ==> OnTriggerEnterStep(triggerState, st, componentFound) == Transition(st, [])
    ensures triggerState == Collision && !st.dialogueIsOn && componentFound
      ==> (OnTriggerEnterStep(triggerState, st, componentFound).after.dialogueIsOn
           && OnTriggerEnterStep(triggerState, st, componentFound).after.triggerHeld)
  {
  }

  /** StopDialogue always ends with the dialogue off and no trigger, and the UI cleared. */
  lemma StopDialogueEnds(st: DialogueState)
    ensures !StopDialogueStep(st).after.dialogueIsOn && !StopDialogueStep(st).after.triggerHeld
    ensures StopDialogueStep(st).after.currentSentence == st.currentSentence
    ensures StopDialogueStep(st).after.coolDownTimer == st.coolDownTimer
    ensures ClearText in StopDialogueStep(st).effects
  {
  }

  /** Leaving the trigger with the component found stops the dialogue. */
  lemma OnTriggerExitStops(st: DialogueState)
    ensures !OnTriggerExitStep(st, true).after.dialogueIsOn && !OnTriggerExitStep(st, true).after.triggerHeld
  {
  }

  // ---------------------------------------------------------------------------
  // CurrentSentenceLength
  // ---------------------------------------------------------------------------

  /** The query's index is in range after StartDialogue and after every advance that is not the last. */
  lemma LengthQuerySafeDuringDialogue(sentences: seq<Sentence>, st: DialogueState)
    requires st.currentSentence >= 0 && |sentences| > 0
    ensures 0 <= StartDialogueStep(sentences, st).after.currentSentence < |sentences|
    ensures !NextSentenceStep(sentences, st).1 && st.currentSentence < |sentences|
      ==> 0 <= NextSentenceStep(sentences, st).0.after.currentSentence < |sentences|
  {
  }

  /** Once the last sentence has been reported the index is past the end, so the query would fail. */
  lemma LengthQueryUnsafeAfterEnd(sentences: seq<Sentence>, st: DialogueState)
    requires st.currentSentence >= 0 && |sentences| > 0
    requires NextSentenceStep(sentences, st).1
    ensures NextSentenceStep(sentences, st).0.after.currentSentence >= |sentences|
  {
  }

  /** The UTF-16 length of a concatenation is the sum of the lengths of its parts. */
  lemma {:induction false} Utf16LengthOfConcat(a: string, b: string)
    ensures Utf16Length(a + b) == Utf16Length(a) + Utf16Length(b)
    decreases |a|
  {
    if |a| > 0 {
      assert (a + b)[0] == a[0];
      assert (a + b)[1..] == a[1..] + b;
      Utf16LengthOfConcat(a[1..], b);
    } else {
      assert a + b == b;
    }
  }

  /** The UTF-16 length equals the number of characters exactly when none lies above U+FFFF. */
  lemma {:induction false} Utf16LengthIsCharCount(s: string)
    ensures Utf16Length(s) == |s| <==> forall i | 0 <= i < |s| :: s[i] as int <= 0xFFFF
    decreases |s|
  {
    if |s| > 0 {
      Utf16LengthIsCharCount(s[1..]);
      assert forall i | 1 <= i < |s| :: s[i] == s[1..][i - 1];
    }
  }

  /** A sentence made of one character outside the Basic Multilingual Plane has length 2. */
  lemma SeedlingCountsTwo()
    ensures Utf16Length("\U{1F331}") == 2
  {
  }

  // ---------------------------------------------------------------------------
  // A whole dialogue
  // ---------------------------------------------------------------------------

  /** `rounds` frames of Update(deltaTime) each followed by a press of NextSentence: the flags it reports. */
  function Rounds(sentences: seq<Sentence>, st: DialogueState, deltaTime: real, rounds: nat): (reported: seq<bool>)
    requires st.currentSentence >= 0
    ensures |reported| == rounds
    decreases rounds
  {
    if rounds == 0 then []
    else
      var step := NextSentenceStep(sentences, UpdateStep(st, deltaTime));
      [step.1] + Rounds(sentences, step.0.after, deltaTime, rounds - 1)
  }

  /** No sentence waits longer than one frame. */
  predicate FrameCoversDelays(sentences: seq<Sentence>, deltaTime: real)
  {
    forall j | 0 <= j < |sentences| :: sentences[j].skipDelayTime <= deltaTime
  }

  /**
   * From sentence `i`, with its delay as the cooldown and frames longer than every delay,
   * the remaining rounds report "not last" until the final one, which reports "last".
   */
  lemma {:induction false} RemainingRoundsEndOnce(sentences: seq<Sentence>, st: DialogueState, deltaTime: real)
    requires 0 <= st.currentSentence < |sentences|
    requires st.coolDownTimer == sentences[st.currentSentence].skipDelayTime
    requires FrameCoversDelays(sentences, deltaTime)
    ensures var reported := Rounds(sentences, st, deltaTime, |sentences| - st.currentSentence);
      reported[|reported| - 1] && forall k | 0 <= k < |reported| - 1 :: !reported[k]
    decreases |sentences| - st.currentSentence
  {
    var n := |sentences| - st.currentSentence;
    var step := NextSentenceStep(sentences, UpdateStep(st, deltaTime));
    assert UpdateStep(st, deltaTime).coolDownTimer <= 0.0;
    var reported := Rounds(sentences, st, deltaTime, n);
    assert reported == [step.1] + Rounds(sentences, step.0.after, deltaTime, n - 1);
    if st.currentSentence + 1 < |sentences| {
      assert !step.1;
      RemainingRoundsEndOnce(sentences, step.0.after, deltaTime);
    } else {
      assert step.1;
    }
  }

  /**
   * A dialogue of n sentences, started with StartDialogue and pressed on once per long
   * enough frame, reports its last sentence on the n-th press and not before.
   */
  lemma DialogueEndsOnLastPress(sentences: seq<Sentence>, st: DialogueState, deltaTime: real)
    requires |sentences| > 0 && FrameCoversDelays(sentences, deltaTime)
    ensures var reported := Rounds(sentences, StartDialogueStep(sentences, st).after, deltaTime, |sentences|);
      reported[|sentences| - 1] && forall k | 0 <= k < |sentences| - 1 :: !reported[k]
  {
    RemainingRoundsEndOnce(sentences, StartDialogueStep(sentences, st).after, deltaTime);
  }
}

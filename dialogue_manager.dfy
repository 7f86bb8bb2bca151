/**
 * The sentence-progression state machine of DialogueManager.cs.
 *
 * Each operation is first a function from the manager's state to its next state and
 * the outward calls it makes (UnityEvents and the dialogue UI), then a method of the
 * class DialogueManager that performs it in place and is proved to agree with it.
 * Audio playback is not modelled; the UnityEvents and the UI calls are recorded in a
 * ghost log. `TryGetComponent<DialogueTrigger>` becomes a boolean parameter: the
 * source looks the component up on the manager's own game object, never on the
 * collider it is handed.
 */
module Dialogue {

  /** How a dialogue is started: on entering the trigger, or by input while inside it. */
  datatype TriggerState = Collision | Input

  /** NPC_Sentence: the text and the time before it may be skipped. */
  datatype Sentence = Sentence(sentence: string, skipDelayTime: real)

  datatype Stage = Start | Next | End

  /**
   * `string.Length` in C#: the number of UTF-16 code units. A character above U+FFFF is
   * stored as a surrogate pair and counts twice.
   */
  function Utf16Length(s: string): (n: nat)
    ensures |s| <= n <= 2 * |s|
  {
    if |s| == 0 then 0 else (if s[0] as int > 0xFFFF then 2 else 1) + Utf16Length(s[1..])
  }

  /** An outward call the manager makes. */
  datatype Effect =
    | TriggerEvent(stage: Stage)          // the held DialogueTrigger's start/next/end UnityEvent
    | ManagerEvent(stage: Stage)          // the manager's own start/next/end UnityEvent
    | UIStartDialogue                     // DialogueUIController.StartDialogue(this)
    | ShowInteractionUI(visible: bool)
    | ShowSentence(index: nat)            // the UI shows sentences[index], whose event then fires
    | ClearText

  /** The manager's fields; `triggerHeld` stands for `dialogueTrigger != null`. */
  datatype DialogueState = DialogueState(currentSentence: int, coolDownTimer: real, dialogueIsOn: bool, triggerHeld: bool)

  /** The state after an operation and the calls it made, in order. */
  datatype Transition = Transition(after: DialogueState, effects: seq<Effect>)

  /** The field initialisers: index 0, no cooldown, dialogue off, no trigger. */
  const InitialState: DialogueState := DialogueState(0, 0.0, false, false)

  // ---------------------------------------------------------------------------
  // The operations as functions of the state
  // ---------------------------------------------------------------------------

  /** Update: the cooldown runs down by the frame time while it is positive. */
  function UpdateStep(st: DialogueState, deltaTime: real): DialogueState
  {
    if st.coolDownTimer > 0.0 then st.(coolDownTimer := st.coolDownTimer - deltaTime) else st
  }

  /** StopDialogue: end event of the held trigger, clear the UI, dialogue off, trigger dropped. */
  function StopDialogueStep(st: DialogueState): Transition
  {
    Transition(st.(dialogueIsOn := false, triggerHeld := false),
      (if st.triggerHeld then [TriggerEvent(End)] else []) + [ClearText])
  }

  /** OnInteract: with a trigger held and no dialogue on, start events, hand over to the UI, dialogue on. */
  function OnInteractStep(st: DialogueState): Transition
  {
    if st.triggerHeld && !st.dialogueIsOn then
      Transition(st.(dialogueIsOn := true),
        [TriggerEvent(Start), ManagerEvent(Start), UIStartDialogue, ShowInteractionUI(false)])
    else
      Transition(st, [])
  }

  /** OnTriggerEnter: in Collision mode with no dialogue on, a found component is held and the dialogue starts. */
  function OnTriggerEnterStep(triggerState: TriggerState, st: DialogueState, componentFound: bool): Transition
  {
    if triggerState == Collision && !st.dialogueIsOn && componentFound then
      Transition(st.(triggerHeld := true, dialogueIsOn := true),
        [TriggerEvent(Start), ManagerEvent(Start), UIStartDialogue])
    else
      Transition(st, [])
  }

  /** OnTriggerStay: in Input mode with no trigger held, a found component is held and the prompt shown. */
  function OnTriggerStayStep(triggerState: TriggerState, st: DialogueState, componentFound: bool): Transition
  {
    if st.triggerHeld then
      Transition(st, [])
    else if triggerState == Input && componentFound then
      Transition(st.(triggerHeld := true), [ShowInteractionUI(true)])
    else
      Transition(st, [])
  }

  /** OnTriggerExit: when the component is found, hide the prompt and stop the dialogue. */
  function OnTriggerExitStep(st: DialogueState, componentFound: bool): Transition
  {
    if componentFound then
      var stop := StopDialogueStep(st);
      Transition(stop.after, [ShowInteractionUI(false)] + stop.effects)
    else
      Transition(st, [])
  }

  /** StartDialogue: back to the first sentence, shown, with its skip delay as the cooldown. */
  function StartDialogueStep(sentences: seq<Sentence>, st: DialogueState): Transition
    requires |sentences| > 0
  {
    Transition(st.(currentSentence := 0, coolDownTimer := sentences[0].skipDelayTime),
      (if st.triggerHeld then [TriggerEvent(Start)] else []) + [ShowSentence(0)])
  }

  /**
   * NextSentence: refused while the cooldown runs; otherwise the index moves on, and
   * either the list is exhausted (the dialogue stops and the last sentence is reported)
   * or the next sentence is shown and its skip delay becomes the cooldown.
   * The second component is the `lastSentence` out-parameter.
   */
  function NextSentenceStep(sentences: seq<Sentence>, st: DialogueState): (r: (Transition, bool))
    requires st.currentSentence >= 0
    ensures r.0.after.currentSentence >= 0
  {
    if st.coolDownTimer > 0.0 then
      (Transition(st, []), false)
    else
      var index := st.currentSentence + 1;
      var advanced := st.(currentSentence := index);
      var nextEffects := (if st.triggerHeld then [TriggerEvent(Next)] else []) + [ManagerEvent(Next)];
      if index > |sentences| - 1 then
        var stop := StopDialogueStep(advanced);
        (Transition(stop.after, nextEffects + stop.effects + [ManagerEvent(End)]), true)
      else
        (Transition(advanced.(coolDownTimer := sentences[index].skipDelayTime),
           nextEffects + [ShowSentence(index)]), false)
  }

  // ---------------------------------------------------------------------------
  // The component
  // ---------------------------------------------------------------------------

  class DialogueManager {
    const sentences: seq<Sentence>
    const triggerState: TriggerState

    var currentSentence: int
    var coolDownTimer: real
    var dialogueIsOn: bool
    var triggerHeld: bool

    /** The UnityEvents invoked and the UI calls made so far. */
    ghost var log: seq<Effect>

    /** The sentence index is only ever reset to 0 or incremented. */
    ghost predicate Valid()
      reads this
    {
      currentSentence >= 0
    }

    function State(): DialogueState
      reads this
    {
      DialogueState(currentSentence, coolDownTimer, dialogueIsOn, triggerHeld)
    }

    constructor (sentences: seq<Sentence>, triggerState: TriggerState)
      ensures Valid()
      ensures this.sentences == sentences && this.triggerState == triggerState
      ensures State() == InitialState && log == []
    {
      this.sentences := sentences;
      this.triggerState := triggerState;
      currentSentence := 0;
      coolDownTimer := 0.0;
      dialogueIsOn := false;
      triggerHeld := false;
      log := [];
    }

    method Update(deltaTime: real)
      modifies this`coolDownTimer
      ensures State() == UpdateStep(old(State()), deltaTime)
    {
      if coolDownTimer > 0.0 {
        coolDownTimer := coolDownTimer - deltaTime;
      }
    }

    method OnInteract()
      modifies this`dialogueIsOn, this`log
      ensures State() == OnInteractStep(old(State())).after
      ensures log == old(log) + OnInteractStep(old(State())).effects
    {
      if triggerHeld && !dialogueIsOn {
        // the inner null test of the source repeats the outer one
        log := log + [TriggerEvent(Start)];
        log := log + [ManagerEvent(Start)];
        log := log + [UIStartDialogue];
        log := log + [ShowInteractionUI(false)];
        dialogueIsOn := true;
      }
    }

    method OnTriggerEnter(componentFound: bool)
      modifies this`triggerHeld, this`dialogueIsOn, this`log
      ensures State() == OnTriggerEnterStep(triggerState, old(State()), componentFound).after
      ensures log == old(log) + OnTriggerEnterStep(triggerState, old(State()), componentFound).effects
    {
      if triggerState == Collision && !dialogueIsOn {
        if componentFound {
          triggerHeld := true;
          log := log + [TriggerEvent(Start)];
          log := log + [ManagerEvent(Start)];
          log := log + [UIStartDialogue];
          dialogueIsOn := true;
        }
      }
    }

    method OnTriggerStay(componentFound: bool)
      modifies this`triggerHeld, this`log
      ensures State() == OnTriggerStayStep(triggerState, old(State()), componentFound).after
      ensures log == old(log) + OnTriggerStayStep(triggerState, old(State()), componentFound).effects
    {
      if triggerHeld {
        return;
      }
      if triggerState == Input && !triggerHeld {
        if componentFound {
          log := log + [ShowInteractionUI(true)];
          triggerHeld := true;
        }
      }
    }

    method OnTriggerExit(componentFound: bool)
      modifies this`dialogueIsOn, this`triggerHeld, this`log
      ensures State() == OnTriggerExitStep(old(State()), componentFound).after
      ensures log == old(log) + OnTriggerExitStep(old(State()), componentFound).effects
    {
      if componentFound {
        log := log + [ShowInteractionUI(false)];
        StopDialogue();
      }
    }

    /** Indexes the first sentence, so the list must not be empty. */
    method StartDialogue()
      requires |sentences| > 0
      modifies this`currentSentence, this`coolDownTimer, this`log
      ensures Valid()
      ensures State() == StartDialogueStep(sentences, old(State())).after
      ensures log == old(log) + StartDialogueStep(sentences, old(State())).effects
    {
      if triggerHeld {
        log := log + [TriggerEvent(Start)];
      }
      currentSentence := 0;
      ShowCurrentSentence();
      coolDownTimer := sentences[currentSentence].skipDelayTime;
    }

    method NextSentence() returns (lastSentence: bool)
      requires Valid()
      modifies this
      ensures Valid()
      ensures State() == NextSentenceStep(sentences, old(State())).0.after
      ensures log == old(log) + NextSentenceStep(sentences, old(State())).0.effects
      ensures lastSentence == NextSentenceStep(sentences, old(State())).1
    {
      if coolDownTimer > 0.0 {
        lastSentence := false;
        return;
      }
      currentSentence := currentSentence + 1;
      if triggerHeld {
        log := log + [TriggerEvent(Next)];
      }
      log := log + [ManagerEvent(Next)];
      if currentSentence > |sentences| - 1 {
        StopDialogue();
        lastSentence := true;
        log := log + [ManagerEvent(End)];
        return;
      }
      lastSentence := false;
      ShowCurrentSentence();
      coolDownTimer := sentences[currentSentence].skipDelayTime;
    }

    method StopDialogue()
      modifies this`dialogueIsOn, this`triggerHeld, this`log
      ensures State() == StopDialogueStep(old(State())).after
      ensures log == old(log) + StopDialogueStep(old(State())).effects
    {
      if triggerHeld {
        log := log + [TriggerEvent(End)];
      }
      log := log + [ClearText];
      dialogueIsOn := false;
      triggerHeld := false;
    }

    /** The UI shows the current sentence, whose own event then fires. */
    method ShowCurrentSentence()
      requires 0 <= currentSentence < |sentences|
      modifies this`log
      ensures log == old(log) + [ShowSentence(currentSentence)]
    {
      log := log + [ShowSentence(currentSentence)];
    }

    /** The length in UTF-16 code units of the current sentence's text, or 0 when there are no sentences. */
    function CurrentSentenceLength(): (length: nat)
      reads this
      requires |sentences| == 0 || 0 <= currentSentence < |sentences|
      ensures |sentences| == 0 ==> length == 0
      ensures |sentences| > 0 ==> length == Utf16Length(sentences[currentSentence].sentence)
      ensures |sentences| > 0 ==>
        |sentences[currentSentence].sentence| <= length <= 2 * |sentences[currentSentence].sentence|
    {
      if |sentences| <= 0 then 0 else Utf16Length(sentences[currentSentence].sentence)
    }
  }
}

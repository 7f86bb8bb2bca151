# Day/night clock and dialogue state machine, in Dafny

This project models two components of a small Unity game.

**TimeService** (`Assets/Scripts/Time/TimeService.cs`) is an accelerated day/night clock. It holds an
absolute `DateTime`, `currentTime`, that `UpdateTime` advances by `deltaTime * timeMultiplier`
seconds. It classifies the time of day as day or night (`IsDayTime`) and into one of four phases
(`GetTimeOfDay`), and `CalculateSunAngle` computes the sun's rotation. The angle sweeps 0 to 180
degrees over the day arc (sunrise to sunset) and 180 to 360 degrees over the night arc (sunset to
sunrise, across midnight). `CalculateDifference` is the wrap-around difference of two times of day.

**DialogueManager** (`Assets/Scripts/Dialogue/DialogueManager.cs`) steps an NPC through a list of
sentences. `StartDialogue` rewinds to the first sentence. `NextSentence` moves on once the skip
cooldown has run out, and reports when the list is exhausted. `Update` runs the cooldown down. The
collider callbacks and the interact input pick up a `DialogueTrigger`, start the dialogue and stop it.

Files:

- `time_service.dfy` (module `Time`): the settings, the millisecond conversions, the pure
  computations and the class `TimeService`.
- `time_properties.dfy` (module `TimeProperties`): the properties of the clock, the classifiers
  and the sun angle, plus a client method that drives the service.
- `dialogue_manager.dfy` (module `Dialogue`): each operation as a step function from the state to
  the next state plus the outward calls it makes, and the class `DialogueManager`. Each method of
  the class is proved to agree with its step function.
- `dialogue_properties.dfy` (module `DialogueProperties`): the properties of the step functions.
  These include a whole dialogue that ends on the n-th accepted press.

Representation choices:

- A `DateTime` or `TimeSpan` is an `int` number of milliseconds. The .NET Framework class library
  used by Unity's Mono runtime rounds `DateTime.AddSeconds` and `TimeSpan.FromHours` to the nearest
  millisecond, halves away from zero. `Time.RoundToNearest` models that rounding.
- `currentTime` counts milliseconds from `DateTime.MinValue`. `DateTime.Now.Date` is the
  constructor parameter `today`, a day number.
- Floats (settings, frame delta, cooldown, angle) are `real`s. The sun angle is an `Angle`, which is
  either `Degrees(v)` or `NotANumber`. The quotient at `TimeService.cs:66` is a double. When sunrise
  equals sunset it divides by zero: x/0 is an infinity, which `Mathf.Lerp` clamps to an end of the
  range, and 0/0 is NaN.
- `Mathf.Lerp` is Unity's interpolation with the parameter clamped to [0, 1].
- Each `Observable<T>` is represented by the value it stores. The model keeps the stored value, not
  the wrapper.
- In `DialogueManager`, `dialogueTrigger != null` is the flag `triggerHeld`. The UnityEvents and the
  `DialogueUIController` calls are appended, in order, to a ghost `log` of `Effect`s.
  `gameObject.TryGetComponent<DialogueTrigger>` is the parameter `componentFound`. The source looks
  the component up on the manager's own game object, not on the collider `other`, so the collider
  plays no part.

The source behaves as follows, and the model does the same:

- The initial phase is `Night`, although the clock starts at `morningHour`. It starts exactly on
  that boundary (`TimeService.cs:30`), and every phase window is open at both ends
  (`TimeService.cs:77-89`).
  Every boundary instant except the night boundary gets a different answer than half-open windows
  would give (`TimeProperties.BoundariesFallToNight`).
- The three observables are never refreshed. `UpdateTime` assigns only `currentTime`
  (`TimeService.cs:51`), so no sunrise, sunset, hour or phase notification is ever raised
  (`TimeProperties.DefaultStartThenOneSecond`).
- Neither the settings nor the delta is checked. A negative delta moves the clock back.
- With sunrise at 5:00 and sunset at 17:00, the angle at noon is 105 degrees (7/12 of the day arc).

## Model

| member | source | states |
|---|---|---|
| `Time.RoundToNearest` | Assets/Scripts/Time/TimeService.cs:51 | The millisecond count that `AddSeconds`/`FromHours` produce lies within half a millisecond of the exact value and has the value's sign |
| `Time.CalculateDifference` | Assets/Scripts/Time/TimeService.cs:95-99 | For two times of day the difference lies in [0, 24h) and leads from `from` to `to` modulo 24h; it is 0 for equal times |
| `Time.Lerp` | Assets/Scripts/Time/TimeService.cs:68 | `Mathf.Lerp` stays between its ends and hits each end when the clamped parameter is 0 or 1 |
| `Time.WholeDaysKeepTimeOfDay` | Assets/Scripts/Time/TimeService.cs:30 | Adding whole days (the start date) to an instant leaves its time of day unchanged |
| `Time.MorningBoundaryIsNight` | Assets/Scripts/Time/TimeService.cs:77 | A time exactly at `morningTime` is classified `Night` when morning is the first boundary |
| `Time.TimeService.constructor` | Assets/Scripts/Time/TimeService.cs:27-47 | The clock starts at `today` plus `morningHour`. The six boundary spans are `FromHours` of the settings. The observables hold `IsDayTime()`, the hour and `GetTimeOfDay()` of that instant. The time of day is `morningTime`, and the stored phase is `Night` |
| `Time.TimeService.TimeOfDay` | Assets/Scripts/Time/TimeService.cs:73 | The time of day of the clock lies in [0, 24h) |
| `Time.TimeService.Hour` | Assets/Scripts/Time/TimeService.cs:40 | The hour of the clock lies in 0..23 |
| `Time.TimeService.UpdateTime` | Assets/Scripts/Time/TimeService.cs:49-52 | The clock advances by exactly `deltaTime * timeMultiplier` seconds, rounded to milliseconds. Nothing else changes: the three observables keep their values |
| `TimeProperties.RoundToNearestMonotone` | Assets/Scripts/Time/TimeService.cs:31-37 | Rounding to milliseconds never reverses the order of two quantities |
| `TimeProperties.RoundToNearestOfInteger` | Assets/Scripts/Time/TimeService.cs:51 | A whole number of milliseconds is kept exactly |
| `TimeProperties.FromHoursMonotone` | Assets/Scripts/Time/TimeService.cs:34-37 | Boundary hours in order give boundary spans in the same order |
| `TimeProperties.FromWholeHours` | Assets/Scripts/Time/TimeService.cs:31-37 | A whole number of hours becomes exactly that many hours of milliseconds |
| `TimeProperties.ZeroDeltaAddsNothing` | Assets/Scripts/Time/TimeService.cs:49-52 | `UpdateTime(0)` adds nothing, whatever the multiplier |
| `TimeProperties.DeltaSignIsKept` | Assets/Scripts/Time/TimeService.cs:51 | With a non-negative multiplier, a non-negative delta never moves the clock back and a non-positive one never moves it forward |
| `TimeProperties.OneSecondAtDefaultMultiplier` | Assets/Scripts/Time/TimeService.cs:51 | At the default multiplier of 1000, one real second is 16 minutes 40 seconds of clock time |
| `TimeProperties.DifferenceIsUnique` | Assets/Scripts/Time/TimeService.cs:95-99 | `CalculateDifference` is the only offset in [0, 24h) that leads from `from` to `to` modulo 24h |
| `TimeProperties.DifferenceThereAndBack` | Assets/Scripts/Time/TimeService.cs:95-99 | The differences from `a` to `b` and from `b` to `a` add up to a whole day, or to 0 when `a == b` |
| `TimeProperties.SunriseAndSunsetAreNotDayTime` | Assets/Scripts/Time/TimeService.cs:73 | `IsDayTime` is false at exactly sunrise and at exactly sunset |
| `TimeProperties.PhaseWindows` | Assets/Scripts/Time/TimeService.cs:75-93 | With ordered boundaries, each named phase is returned iff the time is strictly inside its window, and `Night` iff it is strictly inside none |
| `TimeProperties.BoundariesFallToNight` | Assets/Scripts/Time/TimeService.cs:75-93 | The result differs from half-open windows exactly at the morning, afternoon and evening boundaries. Every boundary gives `Night` |
| `TimeProperties.InitialPhaseIsNight` | Assets/Scripts/Time/TimeService.cs:30-41 | When morning is the first boundary hour, the phase at the starting instant is `Night` |
| `TimeProperties.DefaultPhasesAtElevenAndNineteen` | Assets/Scripts/Time/TimeService.cs:75-93 | With boundaries 6/10/14/18, 11:00 is `Afternoon` and 19:00 is `Night` |
| `TimeProperties.SunAngleFollowsArc` | Assets/Scripts/Time/TimeService.cs:54-68 | Given sunrise < sunset, the current arc has positive length (no division by zero) and the elapsed time is at most that length (no clamping). The angle is the arc's start angle plus that fraction of 180 degrees |
| `TimeProperties.SunAngleDuringDay` | Assets/Scripts/Time/TimeService.cs:54-68 | By day the angle is strictly between 0 and 180 |
| `TimeProperties.SunAngleAtNight` | Assets/Scripts/Time/TimeService.cs:54-68 | Outside the day the angle lies in [180, 360] |
| `TimeProperties.SunAngleAtSunset` | Assets/Scripts/Time/TimeService.cs:54-68 | At exactly sunset the angle is 180 |
| `TimeProperties.SunAngleAtSunrise` | Assets/Scripts/Time/TimeService.cs:54-68 | At exactly sunrise the angle is 360 |
| `TimeProperties.SunAngleRisesThroughDay` | Assets/Scripts/Time/TimeService.cs:54-68 | Between sunrise and sunset a later time has a strictly larger angle |
| `TimeProperties.SunAngleRisesThroughNight` | Assets/Scripts/Time/TimeService.cs:54-68 | At night, across midnight, more time since sunset gives a strictly larger angle |
| `TimeProperties.SunAngleWithoutDay` | Assets/Scripts/Time/TimeService.cs:63-68 | When sunrise equals sunset, the angle is NaN at that instant and 360 at every other |
| `TimeProperties.DefaultSunAngleAtNoon` | Assets/Scripts/Time/TimeService.cs:54-68 | With sunrise 5:00 and sunset 17:00, the angle at noon is 105 degrees |
| `TimeProperties.DefaultSunAngleAtEleven` | Assets/Scripts/Time/TimeService.cs:54-68 | With the same settings, the angle at 23:00 is 270 degrees |
| `TimeProperties.FullDayKeepsClockReadings` | Assets/Scripts/Time/TimeService.cs:49-93 | When a frame's `deltaTime * timeMultiplier` rounds to exactly 24 hours, `UpdateTime` moves the clock on by one day. The time of day, the hour, `IsDayTime`, `GetTimeOfDay` and `CalculateSunAngle` are all unchanged |
| `TimeProperties.DefaultStartThenOneSecond` | Assets/Scripts/Time/TimeService.cs:39-52 | With the default settings and one second of play, the clock reads 6:16:40 and is in `Morning`, while the stored phase is still `Night` |
| `Dialogue.Utf16Length` | Assets/Scripts/Dialogue/DialogueManager.cs:264 | `string.Length` counts UTF-16 code units: at least one and at most two per character |
| `Dialogue.NextSentenceStep` | Assets/Scripts/Dialogue/DialogueManager.cs:162-212 | The sentence index never becomes negative |
| `Dialogue.DialogueManager.constructor` | Assets/Scripts/Dialogue/DialogueManager.cs:16-19 | Index 0, no cooldown, dialogue off, no trigger held, nothing logged |
| `Dialogue.DialogueManager.Update` | Assets/Scripts/Dialogue/DialogueManager.cs:46-53 | The new state is `UpdateStep` of the old; only the cooldown can change |
| `Dialogue.DialogueManager.OnInteract` | Assets/Scripts/Dialogue/DialogueManager.cs:55-76 | The new state and the appended calls are those of `OnInteractStep` |
| `Dialogue.DialogueManager.OnTriggerEnter` | Assets/Scripts/Dialogue/DialogueManager.cs:79-99 | The new state and the appended calls are those of `OnTriggerEnterStep` |
| `Dialogue.DialogueManager.OnTriggerStay` | Assets/Scripts/Dialogue/DialogueManager.cs:102-119 | The new state and the appended calls are those of `OnTriggerStayStep` |
| `Dialogue.DialogueManager.OnTriggerExit` | Assets/Scripts/Dialogue/DialogueManager.cs:121-132 | The new state and the appended calls are those of `OnTriggerExitStep` |
| `Dialogue.DialogueManager.StartDialogue` | Assets/Scripts/Dialogue/DialogueManager.cs:134-160 | With a non-empty list, the new state and the appended calls are those of `StartDialogueStep`, and the index is valid |
| `Dialogue.DialogueManager.NextSentence` | Assets/Scripts/Dialogue/DialogueManager.cs:162-212 | The new state, the appended calls and `lastSentence` are those of `NextSentenceStep`. Every sentence index it reads is in range |
| `Dialogue.DialogueManager.StopDialogue` | Assets/Scripts/Dialogue/DialogueManager.cs:214-234 | The new state and the appended calls are those of `StopDialogueStep` |
| `Dialogue.DialogueManager.ShowCurrentSentence` | Assets/Scripts/Dialogue/DialogueManager.cs:249-257 | With the index in range, the UI is asked to show exactly the current sentence |
| `Dialogue.DialogueManager.CurrentSentenceLength` | Assets/Scripts/Dialogue/DialogueManager.cs:259-265 | 0 for an empty list. Otherwise it is the current sentence's `Utf16Length`, which lies between the sentence's character count and twice that. The index must be in range |
| `DialogueProperties.NextSentenceGatedByCooldown` | Assets/Scripts/Dialogue/DialogueManager.cs:165-169 | While the cooldown is positive, `NextSentence` changes nothing, makes no call and reports `lastSentence = false` |
| `DialogueProperties.NextSentenceAdvancesByOne` | Assets/Scripts/Dialogue/DialogueManager.cs:172 | Once the cooldown is not positive, the index goes up by exactly one |
| `DialogueProperties.LastSentenceExactlyAtEnd` | Assets/Scripts/Dialogue/DialogueManager.cs:183-192 | `lastSentence` is reported iff the cooldown has run out and the moved index exceeds `Count - 1`. The dialogue is then off, no trigger is held, and the end event is the last call |
| `DialogueProperties.NextSentenceStaysInRange` | Assets/Scripts/Dialogue/DialogueManager.cs:195-211 | After an accepted advance that is not the last, the index lies in [0, Count). The cooldown is that sentence's skip delay, the sentence is shown, and the flags are unchanged |
| `DialogueProperties.StartDialogueRewinds` | Assets/Scripts/Dialogue/DialogueManager.cs:143-159 | `StartDialogue` sets the index to 0 and the cooldown to sentence 0's skip delay, shows sentence 0, and changes nothing else |
| `DialogueProperties.UpdateRunsDownCooldown` | Assets/Scripts/Dialogue/DialogueManager.cs:49-52 | A positive cooldown goes down by the frame time; otherwise nothing changes |
| `DialogueProperties.LongFrameOpensGate` | Assets/Scripts/Dialogue/DialogueManager.cs:49-52 | A frame at least as long as the cooldown leaves it non-positive |
| `DialogueProperties.OnInteractGuard` | Assets/Scripts/Dialogue/DialogueManager.cs:58-75 | `OnInteract` acts iff a trigger is held and no dialogue is on. With a trigger held the dialogue is on afterwards, and only `dialogueIsOn` can change |
| `DialogueProperties.OnTriggerStayGuard` | Assets/Scripts/Dialogue/DialogueManager.cs:104-117 | Afterwards a trigger is held iff one already was, or the mode is `Input` and the component was found. Nothing else changes |
| `DialogueProperties.OnTriggerEnterGuard` | Assets/Scripts/Dialogue/DialogueManager.cs:81-97 | In `Input` mode, with a dialogue on, or with no component, nothing happens. Otherwise the trigger is held and the dialogue is on |
| `DialogueProperties.StopDialogueEnds` | Assets/Scripts/Dialogue/DialogueManager.cs:214-234 | `StopDialogue` always ends with the dialogue off, no trigger held and the text cleared. The index and the cooldown are kept |
| `DialogueProperties.OnTriggerExitStops` | Assets/Scripts/Dialogue/DialogueManager.cs:121-132 | Leaving with the component found stops the dialogue |
| `DialogueProperties.LengthQuerySafeDuringDialogue` | Assets/Scripts/Dialogue/DialogueManager.cs:259-265 | After `StartDialogue`, and after any advance that is not the last, `CurrentSentenceLength` has its index in range |
| `DialogueProperties.LengthQueryUnsafeAfterEnd` | Assets/Scripts/Dialogue/DialogueManager.cs:183 | After the last sentence has been reported, the index is past the end of a non-empty list, so `CurrentSentenceLength` would index out of range |
| `DialogueProperties.Utf16LengthOfConcat` | Assets/Scripts/Dialogue/DialogueManager.cs:264 | The UTF-16 length of `a + b` is the length of `a` plus the length of `b` |
| `DialogueProperties.Utf16LengthIsCharCount` | Assets/Scripts/Dialogue/DialogueManager.cs:264 | The UTF-16 length equals the character count iff no character lies above U+FFFF |
| `DialogueProperties.SeedlingCountsTwo` | Assets/Scripts/Dialogue/DialogueManager.cs:264 | The one-character text U+1F331 has length 2 |
| `DialogueProperties.RemainingRoundsEndOnce` | Assets/Scripts/Dialogue/DialogueManager.cs:162-212 | Start at sentence i, with its delay as the cooldown and frames at least as long as every delay. The remaining rounds of Update then NextSentence report "not last" until the final one, which reports "last" |
| `DialogueProperties.DialogueEndsOnLastPress` | Assets/Scripts/Dialogue/DialogueManager.cs:134-212 | After `StartDialogue` on n sentences, with long enough frames, the n-th press reports the last sentence and no earlier press does |

The functions below compute what the source computes. Their properties are stated by the members
in the table above.

- `Time.FromHours`: `TimeSpan.FromHours`, at `TimeService.cs:30-37`.
- `Time.SecondsToMillis`: the amount `AddSeconds` adds, at `TimeService.cs:51`.
- `Time.IsDayTimeAt`: `IsDayTime`, at `TimeService.cs:73`.
- `Time.GetTimeOfDayAt`: `GetTimeOfDay`, at `TimeService.cs:75-93`.
- `Time.Clamp01`: the clamping inside `Mathf.Lerp`, at `TimeService.cs:68`.
- `Time.LerpByQuotient`: the double quotient and the interpolation, at `TimeService.cs:66-68`.
- `Time.CalculateSunAngleAt`: `CalculateSunAngle`, at `TimeService.cs:54-69`.
- `Time.TimeService.CurrentTime`: the property at `TimeService.cs:71`.
- `Time.TimeService.IsDayTime`, `GetTimeOfDay` and `CalculateSunAngle`: the same three methods at
  `TimeService.cs:54-93`. They read the clock (`reads this`) and cannot change it. Each one applies
  the matching pure function above to `TimeOfDay()`.
- `Dialogue.UpdateStep`: `Update`, at `DialogueManager.cs:46-53`.
- `Dialogue.OnInteractStep`: `OnInteract`, at `DialogueManager.cs:55-76`.
- `Dialogue.OnTriggerEnterStep`: `OnTriggerEnter`, at `DialogueManager.cs:79-99`.
- `Dialogue.OnTriggerStayStep`: `OnTriggerStay`, at `DialogueManager.cs:102-119`.
- `Dialogue.OnTriggerExitStep`: `OnTriggerExit`, at `DialogueManager.cs:121-132`.
- `Dialogue.StartDialogueStep`: `StartDialogue`, at `DialogueManager.cs:134-160`.
- `Dialogue.StopDialogueStep`: `StopDialogue`, at `DialogueManager.cs:214-234`.
- `Dialogue.NextSentenceStep`: `NextSentence`, at `DialogueManager.cs:162-212`. It also has a row
  above.

## Left out

- The `Observable<T>` type and the event wiring (`TimeService.cs:43-46`). The source of
  `Observable<T>` is not part of this model. Because nothing ever assigns the observables after
  construction, only their stored values are modelled.
- `DateTime.Now` (`TimeService.cs:30`): the current date is the parameter `today`.
- Float arithmetic. The product `deltaTime * timeMultiplier`, the quotient of `TotalMinutes`, the
  cast to `float` and `Mathf.Lerp` are computed on exact reals. Only the millisecond rounding of
  `AddSeconds` and `FromHours` is modelled.
- The range limits of `DateTime` and `TimeSpan`. `AddSeconds` and `FromHours` throw when the result
  leaves the representable range; the model's integers are unbounded.
- `Time.TimeService.UpdateTime`: does not model the exception `AddSeconds` raises past
  `DateTime.MaxValue`, because the model's clock is unbounded.
- `TimeManager.cs`: rendering only (light intensities, skybox blend, the sun's rotation, the
  `hh:mm` text).
- In `DialogueManager.cs`:
  - Audio playback (`PlaySound`, `audioSource.Stop`) is left out.
  - `characterName` is left out.
  - The input-system subscription in `OnEnable` is left out. `OnInteract` is a method that callers
    invoke directly.
  - What `DialogueUIController` does with the calls made to it is left out. Its source is not part
    of this model; the calls are only logged.
- `Dialogue.DialogueManager.StartDialogue`: the source throws `ArgumentOutOfRangeException` on an
  empty list. The model states this as a precondition instead of modelling the exception, which
  would leave the index already reset and the trigger's start event already raised.
- `Dialogue.DialogueManager.CurrentSentenceLength`: likewise, an index out of range is a
  precondition rather than a modelled exception.
- `Dialogue.Utf16Length`: a C# string can hold an unpaired surrogate, which `Length` counts as one
  unit. A Dafny `string` cannot hold one, so such text is not modelled.
- `Debug.Log("Found Dialog!")` in `OnTriggerEnter` (`DialogueManager.cs:86`) is console output
  only, and is left out.
- `Dialogue.DialogueManager.NextSentence`: does not model the 32-bit overflow of `currentSentence`
  after 2^31 presses past the end. The index is an unbounded integer.
- The player controller, camera look, follow target, plant definitions and the `CharacterDialogue`
  asset are not part of this model. They are per-frame input handling or configuration data.

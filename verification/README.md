# QMK firmware core: a verified model

This project models the parts of the QMK keyboard firmware where most of the state, wrapping arithmetic
and bit packing is, and proves what those parts promise over every run or every input.

**Tap-hold machine** (`quantum/action_tapping.c`). `Tapping` is the machine on values: one tapping key, a
queue of waiting events, a history log. `TappingMachine` is the same code on static variables and an 8-slot
ring, each method proved equal to the value-level step. `TappingInvariant` proves conservation of events and
the four reachable states over every run, with any events, timestamps and callbacks. `TappingVerdict` states
the tap-or-hold decision without the machine, as the first decisive event, and proves the machine reaches it;
`TappingModes` compares the decision modes. `TappingRepeat` does the same for every press met after or during a
tap, and says which press is a repeated tap. `TappingOrder` proves when the events of a key keep their order,
`TappingCounts` and `TappingPairing` which tap count each release carries. `SpeculativeHold` is the table of
speculatively applied modifiers, `SpeculativeRun` that table and the machine together.

**Layers and actions** (`action_layer.c`, `action.c`, `action_code.h`, `keymap_common.c`). `ActionCode` holds
the 16-bit action layout, the keycode compiler and the interpreter, with masks as sets of bits;
`ActionMachine` is the interpreter on machine words, proved against it; `LayerMeaning` gives the layer keys
their documented meaning and proves that compiling and interpreting keeps it; `ModTap` does so for mod-tap keys
and `Keycodes` for all 65536 keycodes; `Keymaps` goes from the keycodes of a keymap to the action of a key event;
`TapToggle` follows TT keys from key events to the layer state. `LayerCache`, `LayerResolution` and `HandSwap`
prove that packed per-key memories refine plain maps, so that releases match presses.

**Deferred executor** (`Deferred`, `DeferredMachine`, `DeferredTime`), **matrix and wakeup** (`Ghosting`, `Matrix`,
`MatrixMachine`), **codecs**: `Uf2`, `Uf2Writer`, `Uf2Reader`, `Hex`, `HexImage`, `HexFormat`, `HexFile`
(util/uf2conv.py), `Eeprom` (paged writes over SPI and I2C), `Crc`. `Events`, `Packed` and `Bytes` are shared.

## What the proofs found

- Permissive hold takes "a key released while waiting, then pressed again" for a nested tap, because the
  buffer search ignores order (`RepressExample`). The decision is by nested taps only if and only if no event
  exposes such a release (`RepressIsTheOnlyDifference`).
- The events of one key can leave the machine out of order: a release can be processed before its press
  (`OrderCanFail`). They stay in order if and only if no event arrives, while an earlier one of its key waits,
  in a state that deals with it at once (`OrderKeptUnlessOvertaken`).
- A second press of a tapped key is a repeated tap if and only if it comes within the quick-tap term of the release
  and no press came while the tap was undecided or after its release; a press while a tap is held down does not
  count against it (`SecondPress`, `PassedOn`).
- A release can lose the tap count of its press: when another tap-hold key goes down during a repeated tap, the
  machine makes up a release, and the real one follows with count 0 (`MadeUpRelease`). For events dealt with in
  order, a release carries the count of its press if and only if no release was made up in between
  (`ReleaseCarriesItsCount`).
- An overflow throws presses away without settling them, so a speculatively applied modifier stays applied with
  nothing left in the machine (`ModifierStranded`, `OverflowStrands`). Without overflow none does
  (`SettledUnlessLost`, `IdleAppliesNothing`).
- Of the layer keys, `LM`, `TT` and `OSL` hold a layer while they are down, yet unlike `MO` and `LT` their
  release is not kept back during an undecided tap (`RetainedLayerKeys`).
- The documented behaviour of TT holds for every number of taps if and only if `TAPPING_TOGGLE` is between 1
  and 14: the tap count has four bits and saturates (`ToggleCountLimit`).
- A mod-tap keycode with tap code 1 is a modifier toggle; pressed and released exactly at the toggle limit it
  leaves its modifiers down (`ModTapLeavesNothing`).
- The message for a UF2 block with a bad magic number adds a string and a number, so the code raises an
  exception where it says that it skips the block. It agrees with a reader that skips if and only if there is
  nothing to skip (`SkipsOnlyWhatIsNotThere`, `BadMagicRaises`).
- After an extended segment address record the HEX format wraps the offset inside its 64K segment and the code
  does not; the addresses agree if and only if no record crosses the wrap (`AddressesAgree`, `SegmentWraps`).
- A UF2 file made of pages is read back if and only if the pages go forward by a whole number of words and by
  no more than 10 MiB (`PagesReadExactlyWhen`); for a HEX file that is a condition on its addresses
  (`HexFileKept`).
- A UF2 file with several families and none wanted gives nothing only if its last block is to be flashed; a last
  block that is not to be flashed hides the mix (`ReadsWhatIsWanted`).
- HEX pages come out strictly ascending if and only if the written addresses never go back to an earlier page
  (`PagesStrictlyAscend`).
- The copy loop of the I2C driver counts in eight bits, so it ends if and only if the chunk is shorter than
  256 bytes (`CopyLoopEnds`).

## Model

| member | source | states |
|---|---|---|
| Events.ElapsedIsTrueSpan | platforms/timer.h:28 | The 16-bit wrapped time difference is the true one for every span below 2^16 ms |
| Tapping.FindRelease | quantum/action_tapping.c:728-739 | The scan finds the first waiting release of the tapping key inside the term, or none exists |
| TappingMachine.RingPop | quantum/action_tapping.c:184 | Moving the tail forward modulo 8 drops exactly the oldest entry of the ring |
| TappingMachine.RingSet | quantum/action_tapping.c:734-735 | Writing a slot of the ring changes exactly the entry that the slot stands for |
| TappingMachine.Machine.WaitingBufferEnq | quantum/action_tapping.c:659-676 | Ticks are accepted and dropped; other records are appended unless seven are waiting, and then nothing changes |
| TappingMachine.Machine.WaitingBufferTyped | quantum/action_tapping.c:691-698 | True exactly when an opposite transition of the same key is waiting |
| TappingMachine.Machine.WaitingBufferScanTap | quantum/action_tapping.c:714-741 | The in-place scan over the ring equals the value-level scan |
| TappingMachine.Machine.ProcessUnsettled | quantum/action_tapping.c:313-479 | An event inside the term of an unsettled key: same state, record and result as the value-level branch |
| TappingMachine.Machine.ProcessTapped | quantum/action_tapping.c:505-590 | An event while the key is settled as a tap and down, inside or past the term: refines the value-level branch |
| TappingMachine.Machine.ProcessReleased | quantum/action_tapping.c:595-652 | An event after the tapping key's release: refines the value-level branch, including the saturating count |
| TappingMachine.Machine.ProcessTapping | quantum/action_tapping.c:255-653 | The in-place `process_tapping` equals the value-level machine: whole new state, written-back record, result |
| TappingMachine.Machine.ProcessHead | quantum/action_tapping.c:184-192 | Feeding the head of the ring again removes it exactly when it is consumed, otherwise writes it back |
| TappingMachine.Machine.ProcessWaitingBuffer | quantum/action_tapping.c:184-192 | The drain loop ends and equals the recursive drain |
| TappingMachine.Machine.ActionTappingProcess | quantum/action_tapping.c:150-202 | One call on ring and statics equals one value-level step, overflow included |
| TappingInvariant.ProcessTappingKeeps | quantum/action_tapping.c:255-653 | Every transition keeps the reachable-state invariant and consumes the event exactly when it reports so |
| TappingInvariant.EnqueueKeeps | quantum/action_tapping.c:166-173 | Enqueueing keeps the event; an overflow moves the pending key, the queue and the event to the lost ones |
| TappingInvariant.DrainKeeps | quantum/action_tapping.c:184-192 | Re-feeding the buffer neither loses nor duplicates an event |
| TappingInvariant.StepKeeps | quantum/action_tapping.c:150-202 | One call keeps the invariant and accounts for exactly one more occurrence of a non-tick event |
| TappingInvariant.EventConservation | quantum/action_tapping.c:150-202 | Over every run each event is logged, pending, waiting or lost as often as it was fed; extra log entries are releases of a logged repeated tap; the state is one of four |
| TappingInvariant.InvalidStateUnreachable | quantum/action_tapping.c:714-720 | No run reaches "released with count 0"; waiting presses have count 0; at most seven records wait |
| TappingVerdict.QueueHoldsPresses | quantum/action_tapping.c:691-698 | Looking for a press in the queue means "pressed since the decision started", whatever was let through meanwhile |
| TappingVerdict.DrainWaits | quantum/action_tapping.c:184-192 | While nothing is decided, draining lets exactly the releases through that need not be kept back any more, or settles the press at an exposed release under permissive hold |
| TappingVerdict.StepDecides | quantum/action_tapping.c:306-504 | One call on an undecided press has the effect of the declarative decision about that event |
| TappingVerdict.RunDecides | quantum/action_tapping.c:306-504 | After any number of calls the machine has reached the first declarative decision, or still waits with exactly the declared queue and log, however the retention of other keys changes |
| TappingVerdict.VerdictRefinement | quantum/action_tapping.c:274-504 | A tap-hold press met at reset is logged exactly once, as tap or hold as the first decisive event says, or lost to an overflow, or still undecided, whatever layers and retention do meanwhile |
| TappingVerdict.LateInTrueTime | quantum/action_tapping.c:27 | "Past the term" on the wrapping clock is true time past the term while events span below 2^16 ms |
| TappingVerdict.StepExtends | quantum/action_tapping.c:150-202 | No call takes back anything logged or lost |
| TappingModes.PlainIsDirectUnlessOverflow | quantum/action_tapping.c:306-504 | Apart from re-presses, the verdict depends on the events alone, on every prefix, if and only if nothing overflows |
| TappingModes.RepressIsTheOnlyDifference | quantum/action_tapping.c:382-385 | The decision is by nested taps only, on every prefix, if and only if no undecided prefix is followed by an event that exposes a re-pressed release |
| TappingModes.ExposedMeansRepress | quantum/action_tapping.c:691-698 | While retention stays as it is, an event exposes a release exactly if it presses the key whose release heads the queue |
| TappingModes.RepressCountsAsNestedTap | quantum/action_tapping.c:382-403 | On the machine: release and re-press of a retained key settles the press as held although no nested tap happened |
| TappingModes.RepressExample | quantum/action_tapping.c:382-403 | One such run, from the initial state, of events that a keyboard sends |
| TappingModes.PermissivePrefersHold | docs/tap_hold.md:176 | On every event sequence permissive hold decides as the default mode does, or holds |
| TappingModes.PressModePrefersHold | docs/tap_hold.md:176 | On every event sequence hold-on-other-press decides as permissive hold does, or holds |
| TappingModes.ModesInIncreasingOrderOfHold | docs/tap_hold.md:176 | The three modes are in increasing order of preference for the hold |
| TappingRepeat.RepeatLogged | quantum/action_tapping.c:604-613 | A repeat is logged at once with the next count and is then the tap that is held down |
| TappingRepeat.VerdictOfEveryPress | quantum/action_tapping.c:274-652 | A tap-hold press that is no repeat is settled by the first decisive event after it, whether it is met at rest, during a tap or after one |
| TappingRepeat.MadeUpExactly | quantum/action_tapping.c:524-544 | A tap that is cut short gets a made-up release of the same key, kind and count if and only if its count is above one |
| TappingRepeat.PassedOn | quantum/action_tapping.c:274-652 | Every other event with nothing under decision is logged at once and as it is; it interrupts the tap exactly if it is a press after its release |
| TappingRepeat.TickPasses | quantum/action_tapping.c:595-652 | A tick only ends the time in which a tap can be repeated |
| TappingRepeat.TapReleased | quantum/action_tapping.c:510-566 | A tap's release carries its count; past the term the tap cannot be repeated |
| TappingRepeat.QuietRun | quantum/action_tapping.c:595-652 | Through any events that start nothing the tap is remembered, interrupted exactly if one of them is a press |
| TappingRepeat.RepeatExactlyWhen | quantum/action_tapping.c:601-616 | A press of the tapped key inside its term is a repeat if and only if it is within the quick-tap term and no press interrupted; otherwise nothing is logged and the first decisive event decides |
| TappingRepeat.InterruptedMeansPress | quantum/action_tapping.c:447-456 | While undecided, a key is marked as interrupted exactly if another press came |
| TappingRepeat.TapEnds | quantum/action_tapping.c:313-345 | The own release inside the term logs the press with count 1, then what waited, then the release, and leaves nothing waiting |
| TappingRepeat.SecondPress | quantum/action_tapping.c:313-616 | From the first press on: the second one is a repeat if and only if it is within the quick-tap term of the release and no press came before or after the release |
| TappingRepeat.WaitingTapSettled | quantum/action_tapping.c:714-741 | A press that waited together with its own release inside the term is a tap whatever lies between them; otherwise it is under decision |
| TappingOrder.ProcessTappingInLine | quantum/action_tapping.c:255-653 | A transition adds the event it consumes behind its key's earlier events, and nothing else |
| TappingOrder.DrainInLine | quantum/action_tapping.c:184-192 | Draining never changes the order of a key's events |
| TappingOrder.AtOnceMeansHandled | quantum/action_tapping.c:255-653 | The states and events in which an incoming event is dealt with before anything that waits |
| TappingOrder.StepLine | quantum/action_tapping.c:150-202 | One call puts the event behind its key's earlier events if and only if it does not overtake one |
| TappingOrder.OrderKeptUnlessOvertaken | quantum/action_tapping.c:150-202 | Over every run without overflow, a key's events keep their order at every moment if and only if none overtakes |
| TappingOrder.LogFollowsArrival | quantum/action_tapping.c:150-202 | Then the log holds the key's first events in the order they arrived |
| TappingOrder.OrderCanFail | quantum/action_tapping.c:184-192 | Five events of three keys whose log holds a release before its press |
| TappingCounts.ProcessGood | quantum/action_tapping.c:255-653 | Every transition keeps the counts in step: what it logs of the key matches the key's status in the log, and a waiting release carries a count exactly when its tap is already logged |
| TappingPairing.DrainSound | quantum/action_tapping.c:184-192 | Draining keeps that too, marking only the first waiting release of a key |
| TappingPairing.StepSound | quantum/action_tapping.c:150-202 | So does one call in which no event of the key is dealt with before an older one |
| TappingPairing.ReleaseCarriesItsCount | quantum/action_tapping.c:150-202 | Over every such run a logged release has a logged press and carries its tap count if and only if no release was made up in between; otherwise it carries 0 |
| TappingPairing.MadeUpRelease | quantum/action_tapping.c:524-544 | Five events after which a press logged with count 2 has a real release with count 0 |
| TappingPairing.TimelyInTrueTime | quantum/action_tapping.c:27 | The wrapping clock orders events that wait together for less than 2^16 ms |
| SpeculativeHold.Find | quantum/action_tapping.c:757-765 | First entry of the key, or the number of entries when there is none |
| SpeculativeHold.Table.FindKey | quantum/action_tapping.c:757-765 | The search loop over the array equals `Find` |
| SpeculativeHold.Table.KeyPress | quantum/action_tapping.c:767-821 | A press adds one entry with the unpacked modifiers of its mod-tap keycode, or changes nothing, by all the checks of the code |
| SpeculativeHold.Table.RemoveAt | quantum/action_tapping.c:851-854 | Shifting the tail removes exactly entry i and keeps the order of the others |
| SpeculativeHold.Table.Collect | quantum/action_tapping.c:867-870 | The collected modifiers are the union over entry i and all that follow |
| SpeculativeHold.Table.KeySettled | quantum/action_tapping.c:832-892 | The whole table and mask after a settled press equal the specification |
| SpeculativeHold.HoldKeeps | quantum/action_tapping.c:840-862 | Settling as a hold keeps the mask inside the union of live entries even when entries share modifiers |
| SpeculativeHold.CancelKeeps | quantum/action_tapping.c:862-892 | Cancelling keeps it too |
| SpeculativeHold.SettleRemoves | quantum/action_tapping.c:832-892 | A settled key has no entry any more and no key gains one |
| SpeculativeHold.NoStuckModifiers | quantum/action_tapping.c:767-892 | In every run applied modifiers belong to live entries of unsettled, distinct keys, at most eight; once all keys are settled nothing is applied |
| SpeculativeHold.SettleEndsEntries | quantum/action_tapping.c:832-892 | A hold ends the entry of its key alone, a cancel that one and all later ones; exactly their modifiers leave the mask |
| SpeculativeHold.SettleWithoutEntry | quantum/action_tapping.c:837-884 | For a key without an entry a hold changes nothing and a cancel clears everything |
| SpeculativeHold.AppliedUnlessEnded | quantum/action_tapping.c:767-892 | Over every run, each modifier of a live entry is applied unless an entry with that modifier ended since |
| SpeculativeHold.AppliedExactly | quantum/action_tapping.c:767-892 | While live entries share no modifier, exactly their modifiers are applied |
| SpeculativeHold.PressApplies | quantum/action_tapping.c:767-821 | An eligible press of a new key leaves all its modifiers in effect, any other press changes nothing |
| SpeculativeHold.OneKeyAtATime | quantum/action_tapping.c:788-792 | In the one-key build at most one key is speculated at a time |
| SpeculativeRun.LoggedPressSettles | quantum/action.c:284-288 | A logged hold of a mod-tap key ends its entry alone, any other logged press the later ones too, a release none |
| SpeculativeRun.LoggedOrKept | quantum/action_tapping.c:150-202 | A press that is pending, waiting or new is logged in the call, or pending, waiting or thrown away after it |
| SpeculativeRun.LogRemoves | quantum/action.c:284-288 | Every press handed on leaves its key without an entry, whatever else is handed on in the same call |
| SpeculativeRun.SettledUnlessLost | quantum/action_tapping.c:150-202 | Over every run of machine and table, an entry's key has a press that is pending, waiting or thrown away by an overflow |
| SpeculativeRun.IdleAppliesNothing | quantum/action_tapping.c:150-202 | Without overflow, no modifier is applied once no press is pending or waiting |
| SpeculativeRun.OverflowStrands | quantum/action_tapping.c:165-171 | An overflow that logs nothing keeps every entry although it empties the machine |
| SpeculativeRun.ModifierStranded | quantum/action_tapping.c:165-171 | Nine presses after which the machine is empty and the modifier is still applied |
| SpeculativeRun.TapClearsAll | quantum/action_tapping.c:861-884 | A tap of any key without an entry clears the whole table |
| ActionMachine.ExtractModBits | quantum/quantum.c:102-125 | The second decoder finds the same eight modifier bits as compiler and interpreter, and none outside the range |
| ActionMachine.OperandMask | quantum/action.c:587-589 | The shifted and complemented word stands for exactly the layers of the specification, in all three widths |
| ActionMachine.Actions.LayerOn | quantum/action_layer.c:187-189 | Exactly the given layer is added |
| ActionMachine.Actions.LayerOff | quantum/action_layer.c:195-197 | Exactly the given layer is removed |
| ActionMachine.Actions.LayerInvert | quantum/action_layer.c:203-205 | Exactly the given layer is flipped |
| ActionMachine.Actions.LayerMove | quantum/action_layer.c:179-181 | Exactly the given layer is left on |
| ActionMachine.Actions.Operate | quantum/action_layer.c:211-227 | The word operations are intersection, union, symmetric difference and replacement of layer sets |
| ActionMachine.Actions.ProcessLayer | quantum/action.c:583-627 | Bitwise layer actions on words refine those on sets, for active and default layers |
| ActionMachine.Actions.ProcessLayerMods | quantum/action.c:628-636 | Layer and modifiers go on and off together, as specified |
| ActionMachine.Actions.ProcessLayerTap | quantum/action.c:637-750 | Layer-tap actions on words refine those on sets, for every operation code and tap count |
| ActionMachine.Actions.ProcessModifiedKey | quantum/action.c:410-437 | Strong or weak modifiers around a key, pressed and released, as specified |
| ActionMachine.Actions.ProcessModsTap | quantum/action.c:438-564 | Mod-tap actions on the registers equal the specification that `ModTap` gives its meaning, one-shot handling switched off |
| ActionMachine.Actions.ProcessSwapHands | quantum/action.c:803-822 | Of a swap-hands action only the tap key touches modifiers, when tapped |
| ModTap.ModTapMods | quantum/keymap_common.c:53-195 | The compiled action carries exactly the five-bit modifiers of the keycode, on the hand its flag names |
| ModTap.SpeculatesHoldMods | quantum/action_tapping.c:786-795 | Speculative hold unpacks exactly the modifiers that the compiled action applies when the key is held |
| ModTap.SpeculatesExactlyWhen | quantum/action_tapping.c:767-821 | From the keycode on: which press has all its hold modifiers in effect ahead of the decision, and that any other changes nothing |
| ModTap.ModTapApplied | quantum/action.c:438-564 | Held, a mod-tap key puts down and takes up exactly its modifiers; tapped, only its tap code; tap codes 0 and 1 act as one-shot and toggle |
| ModTap.ModTapLeavesNothing | quantum/action.c:438-564 | Press and release from no modifiers restore the state if and only if it is not a toggle at its limit |
| ActionMachine.Actions.ProcessAction | quantum/action.c:408-750 | The interpreter on machine words refines the interpreter on sets for all 65536 action codes |
| LayerMeaning.BitopDecodes | quantum/action_code.h:130-137 | The chunk encoding of one layer decodes to that layer's bit alone, whatever the width |
| LayerMeaning.LayerTapDecodes | quantum/action_code.h:143-147 | The five-bit layer that spills into the kind comes back whole |
| LayerMeaning.LayerOffClearsOne | quantum/action_code.h:223 | The complemented chunk with its extra bit clears exactly one layer |
| LayerMeaning.Compiled | quantum/keymap_common.c:53-195 | Which action each of TO, MO, TG, DF, TT, LT, LM and OSL compiles to, with the modifier byte of LM |
| LayerMeaning.CompiledKeysKeepTheirMeaning | quantum/action.c:583-656 | Over every run of layer keys, compile-then-interpret gives exactly the documented layer sets and modifiers and touches no other bit |
| LayerMeaning.ModsKeycodeMeaning | quantum/keymap_common.c:82-90 | For every modified keycode both decoders find the same modifiers |
| LayerMeaning.ModsKeycodeApplied | quantum/action.c:410-437 | A modified key puts down and takes up exactly the extracted modifiers, strong or weak, and its own modifier bit |
| LayerMeaning.ModsKeycodeLeavesNothing | quantum/action.c:410-437 | Press and release of any modified key from no modifiers restore the state |
| LayerMeaning.OneLayerActions | quantum/action.c:583-627 | The bitwise actions of one layer keep, add, flip or set just that layer, of the active layers at the events of their mask, of the default layers on release |
| LayerMeaning.HeldOperations | quantum/action.c:657-680 | The two layer-tap operations without a keycode macro: off while held, and alone while held |
| Keycodes.BasicCompiled | quantum/keymap_common.c:63-66 | A basic or modifier keycode becomes a key action with no modifiers and that very code |
| Keycodes.NothingCompiled | quantum/keymap_common.c:190-193 | Every keycode outside the known ranges becomes no action |
| Keycodes.LayerKeyCompiled | quantum/keymap_common.c:105-155 | Which of the seven layer and modifier keys a keycode is, with its layer |
| Keycodes.TransparentCompiled | quantum/keymap_common.c:78-80 | Exactly the transparent keycode becomes the transparent action |
| Keycodes.ModifierBits | quantum/action.c:880-930 | The eight modifier keycodes stand for the eight modifier bits in order |
| Keycodes.BasicKeyApplied | quantum/action.c:410-437 | A modifier key puts down and takes up exactly its own bit; any other basic key touches no modifier |
| Keycodes.OthersApplyNothing | quantum/action.c:408-437 | Mouse keys, the transparent keycode and unused keycodes touch neither layers nor modifiers |
| Keycodes.OneShotModApplied | quantum/action.c:438-480 | With one-shot handling off, a one-shot modifier key holds exactly its modifiers, at every tap count |
| Keycodes.SwapHandsApplied | quantum/action.c:803-822 | Of a swap-hands key only a modifier as its tap key touches modifiers, and only when tapped |
| Keycodes.TapHoldExactly | quantum/action.c:1172-1194 | Over all keycodes: exactly which are tap-hold keys |
| Keycodes.KeptBackExactly | quantum/action_tapping.c:421-445 | Over all keycodes and tap counts: exactly whose release is kept back during an undecided tap |
| TapToggle.RetainedLayerKeys | quantum/action_tapping.c:421-445 | Of the layer keys exactly MO and LT have their release kept back |
| TapToggle.RunTaps | quantum/action_tapping.c:313-345 | Clean quick taps drive the machine through exactly the expected states and tap counts, saturation included |
| TapToggle.TapsLogged | quantum/action_tapping.c:595-613 | The machine hands on exactly n press-release pairs of that key with counts 1, 2, ... up to 15 |
| TapToggle.TapsMeaning | quantum/action.c:641-652 | What n taps do to the layers, by how often the count meets the toggle limit |
| TapToggle.ToggleCountLimit | docs/feature_layers.md:19 | Toggled once TAPPING_TOGGLE taps were made, for all n, if and only if 1 <= TAPPING_TOGGLE < 15 |
| TapToggle.TapToggleEndToEnd | quantum/action.c:641-652 | From events to masks: n clean quick taps leave the layers unchanged for n below TAPPING_TOGGLE and flip exactly bit l from there on |
| LayerCache.BlendSetsOneBit | quantum/action_layer.c:255 | The xor-blend sets one bit of a byte to the wanted value and keeps the other seven |
| LayerCache.CollectSpread | quantum/action_layer.c:263-273 | A layer spread over the bit slices is collected back unchanged |
| LayerCache.Cache.UpdateEntry | quantum/action_layer.c:251-257 | Exactly one entry of the sliced cache changes, to the given layer |
| LayerCache.Cache.ReadEntry | quantum/action_layer.c:263-273 | The loop collects the entry's bits |
| LayerCache.Cache.UpdateSourceLayersCache | quantum/action_layer.c:279-290 | The packed cache is a map from matrix key to layer; an update changes that key only, positions outside change nothing |
| LayerCache.Cache.ReadSourceLayersCache | quantum/action_layer.c:296-308 | A read returns the map's value, 0 outside the matrix |
| LayerResolution.TopLayerIsHighest | quantum/action_layer.c:347-356 | The resolved layer is solid and at or above every other solid layer |
| LayerResolution.TopLayerFallsBack | quantum/action_layer.c:357-358 | Without a solid layer the key falls back to layer 0 |
| LayerResolution.PressGetsTopmost | quantum/action_layer.c:318-362 | A press gets the action of the topmost layer that says something about the key, or of layer 0, and remembers that layer for that key alone |
| LayerResolution.ReleaseGetsTopmostOfPress | quantum/action_layer.c:318-362 | The release gets the action of the layer that was topmost at its press, and changes nothing |
| LayerResolution.OutsideReleasedOnZero | quantum/action_layer.c:279-308 | Positions outside the matrix are not remembered and are released on layer 0 |
| Keymaps.KeycodeOfTopmostLayer | quantum/action_layer.c:311-362 | From keycodes on: press and release get the action of the keycode on the topmost layer that is on and not transparent at the press |
| Keymaps.TransparentFallsToZero | quantum/action_layer.c:357-358 | Where every layer that is on is transparent, the key is what layer 0 says |
| LayerResolution.Resolver.LayerSwitchGetLayer | quantum/action_layer.c:342-362 | The downward loop finds the topmost solid layer |
| LayerResolution.Resolver.StoreOrGetAction | quantum/action_layer.c:318-336 | On the packed cache: same action and same new map as the specification |
| LayerResolution.OnlyItsOwnPressCounts | quantum/action_layer.c:318-336 | Nothing but a press of the key itself changes its remembered layer, in any run |
| LayerResolution.ReleaseMatchesPress | quantum/action_layer.c:311-336 | The release gets the action of its latest press however layers switched and other keys acted in between |
| HandSwap.Swapper.ShouldSwapHands | quantum/action.c:157-163 | Presses follow the swap flag, releases the key's own bit |
| HandSwap.Swapper.SetSwapHandsState | quantum/action.c:165-174 | Exactly one packed bit changes |
| HandSwap.Swapper.ProcessHandSwap | quantum/action.c:196-209 | Mapped event and packed memory equal those of a plain map; positions outside the matrix pass through |
| HandSwap.MemoryLasts | quantum/action.c:196-209 | Without a press of the key its remembered bit lasts through any run |
| HandSwap.ReleaseFollowsPress | quantum/action.c:192-209 | A release lands where its press landed, whatever toggles swapping in between |
| HandSwap.SwappedExactlyWhenSetAtPress | quantum/action.c:192-209 | Press and release go to the other hand exactly if hands were swapped at the press, and nothing else of the events changes |
| HandSwap.OthersUntouched | quantum/action.c:192-209 | An event changes the memory of its own key alone; other kinds and places pass through |
| DeferredMachine.Scheduler.TokenCanBeUsed | quantum/deferred_exec.c:18-28 | True exactly for a non-zero token that no entry has |
| DeferredMachine.Scheduler.AllocateToken | quantum/deferred_exec.c:30-40 | The wrapping search ends and finds the next usable token, or 0 after one full turn |
| DeferredMachine.Scheduler.DeferExecAdvanced | quantum/deferred_exec.c:46-73 | In place: same table, counter and token as the specification, refusals included |
| DeferredMachine.Scheduler.ExtendDeferredExecAdvanced | quantum/deferred_exec.c:75-93 | In place: only the entry with the token gets the new deadline, and the result says whether there is one |
| DeferredMachine.Scheduler.CancelDeferredExecAdvanced | quantum/deferred_exec.c:95-116 | In place: only the entry with the token is freed |
| DeferredMachine.Scheduler.RunEntry | quantum/deferred_exec.c:127-154 | One slot of a pass, with a callback that calls back into the table |
| DeferredMachine.Scheduler.DeferredExecAdvancedTask | quantum/deferred_exec.c:118-157 | A throttled pass over the whole table equals the specification, calls in order |
| Deferred.LiveTokensDistinct | quantum/deferred_exec.c:18-157 | In every run, whatever callbacks do to the table, live tokens are pairwise distinct and below 256 |
| Deferred.SearchFailsOnlyWhenFull | quantum/deferred_exec.c:30-40 | Allocation fails only if each of the 255 tokens is live |
| Deferred.FreeSlotMeansToken | quantum/deferred_exec.c:46-73 | By counting, a table of at most 255 slots with a free slot accepts every valid request |
| Deferred.DeferRefusedExactlyWhen | quantum/deferred_exec.c:46-73 | The exact condition of a refusal, for tables of any size |
| Deferred.AcceptedFillsOneSlot | quantum/deferred_exec.c:46-73 | An accepted request fills exactly one slot, which was free, with the next unused token, its callback, its argument and the deadline now plus delay |
| Deferred.RefusedChangesNothing | quantum/deferred_exec.c:46-73 | A refused request leaves the table alone; only a vain search moves the token counter, by one |
| Deferred.CancelEndsOne | quantum/deferred_exec.c:95-116 | Cancelling frees the entry with the token and no other, and succeeds exactly if there is one |
| Deferred.ExtendMovesOne | quantum/deferred_exec.c:75-93 | Extending moves the deadline of the entry with the token and nothing else |
| Deferred.ReplacedIsLeftAlone | quantum/deferred_exec.c:138-153 | A callback that ended its own entry has no say in what its slot holds now |
| DeferredTime.DeferredCallsBack | quantum/deferred_exec.c:46-157 | From the request on: called back with its own callback and argument in the first pass at or after now plus delay, and in none before |
| DeferredTime.FirstCall | quantum/deferred_exec.c:118-157 | An entry is first called in the first pass that finds its deadline reached |
| DeferredTime.CancelledIsNeverCalled | quantum/deferred_exec.c:95-157 | A cancelled entry is gone and never called as long as no new entry is asked for |
| DeferredTime.TaskInTrueTime | quantum/deferred_exec.c:118-124 | A call makes a pass exactly if the clock moved on since the last one |
| DeferredTime.OneShotFreesSlot | quantum/deferred_exec.c:131-153 | A callback that returns 0 at its turn is called once in the pass, and at its end the slot is free unless a callback asked for a new entry |
| DeferredTime.PassUpTo | quantum/deferred_exec.c:126-155 | In a pass an entry is called at most once, exactly if it is due at its turn, and moved by the extensions any callback asks for and by the delay its own callback returns |
| DeferredTime.DueInTrueTime | quantum/deferred_exec.c:131 | The signed 32-bit difference orders true times within 2^31 ms |
| DeferredTime.PassInTrueTime | quantum/deferred_exec.c:126-155 | One pass calls the entry exactly if its true deadline is reached at its turn and keeps wrapped and true deadline in step, extensions during the pass included |
| DeferredTime.ApplyHolds | quantum/deferred_exec.c:75-93 | A request, in or between passes, leaves the entry alone or extends it to the true time plus the delay |
| DeferredTime.NoDrift | quantum/deferred_exec.c:141-146 | The intended times are start, start + d, start + 2d, ... however late the passes are |
| DeferredTime.DeadlinesAcrossWrap | quantum/deferred_exec.c:118-157 | Over any passes and requests in and between them, across the 32-bit wrap, the callback runs exactly in the passes that find its true deadline reached at its turn, once each, with its intended times; returned delays and extensions move the deadline in true time |
| Ghosting.DropsLowestBit | quantum/keyboard.c:243 | `x & (x - 1)` keeps exactly the one bits with another one bit below, for every row width |
| Ghosting.PopcountMeansTwoKeys | quantum/keyboard.c:242-245 | The bit trick holds exactly for rows with two keys or more |
| Ghosting.GetRealKeys | quantum/keyboard.c:230-240 | Exactly the pressed keys that the keymap defines |
| Ghosting.SharedColumns | quantum/keyboard.c:264 | Two rows share more than one real key exactly if two distinct columns cross them in four real pressed keys |
| Ghosting.HasGhostInRow | quantum/keyboard.c:247-269 | True if and only if another row and two columns have all four crossings real and pressed |
| Ghosting.GhostsComeInPairs | quantum/keyboard.c:247-269 | The relation is symmetric: a row is ghosted if and only if it is the partner of another one, and its partners are ghosted |
| Matrix.TaskView | quantum/keyboard.c:612-634 | The whole task acts on each key as a small machine of its own, untouched by all others |
| Matrix.EventsAlternate | quantum/keyboard.c:586-637 | After any scans, ghosted or not: exactly the recorded changes of each key are delivered, of a wakeup key those after its first recorded release, so it is silent until then and starts with a press; events strictly alternate, and any other key starts opposite to its recorded bit |
| Matrix.ScanInOrder | quantum/keyboard.c:612-634 | The events of one scan come row by row and column by column, and none while processing is off |
| MatrixMachine.Keyboard.WakeupMatrixHandleKeyEvent | platforms/suspend.c:76-80 | A release clears exactly that key's wakeup bit, a press nothing |
| MatrixMachine.Keyboard.ProcessRow | quantum/keyboard.c:620-631 | The column loop delivers and clears as the specification says |
| MatrixMachine.Keyboard.MatrixTask | quantum/keyboard.c:586-637 | In place: whole new state as specified, and the result says whether any row differs |
| MatrixMachine.Keyboard.SuspendWakeupCondition | platforms/suspend.c:46-58 | The scan becomes the wakeup matrix; true exactly if a key is down |
| MatrixMachine.Keyboard.UpdateMatrixStateAfterWakeup | platforms/suspend.c:60-70 | Newly pressed keys become wakeup keys, all pressed keys become recorded |
| MatrixMachine.NothingChanged | quantum/keyboard.c:601-604 | The short cut for an unchanged matrix agrees with the full pass |
| MatrixMachine.WakeupKeysStartWithPress | platforms/suspend.c:46-80 | A key held during the wakeup stays a silent wakeup key until a release of it is recorded; what follows alternates and starts with a press |
| Uf2.BlockFields | util/uf2conv.py:50 | All header words, the payload, the bytes behind it and the end magic of every encoded block are read back as written |
| Uf2.BlocksNumbered | util/uf2conv.py:149-205 | Every block of a file carries its own number, the number of blocks, its page and the end magic |
| Uf2Reader.ReadExactlyWhen | util/uf2conv.py:37-109 | A file is read if and only if every block has its magic, fits, and reaches on from the last flashed block or starts over |
| Uf2Reader.PagesReadExactlyWhen | util/uf2conv.py:37-109 | A file written page by page is read back if and only if its pages go forward in steps that a reader takes |
| Uf2Reader.ConvertFromUf2 | util/uf2conv.py:37-109 | The block loop returns the bytes and start address of the specification, and raises exactly for the files that cannot be read |
| Uf2Reader.SkipsOnlyWhatIsNotThere | util/uf2conv.py:51-53 | Where a reader that skips bad-magic blocks succeeds, the code agrees with it if and only if there is no such block, and raises otherwise |
| Uf2Reader.BadMagicRaises | util/uf2conv.py:51-53 | A file of one such block: skipping gives an empty result, the code raises |
| Uf2.ReadsImage | util/uf2conv.py:37-109 | Reading any file of ordered pages gives their memory image, with zeros in the gaps |
| Uf2Reader.ReadsWhatIsWanted | util/uf2conv.py:37-109 | For any mix of families, exactly the padding and the data of the wanted family are read, in order, with the start address; a mix without a wanted family gives nothing |
| Uf2Writer.RefusedExactlyWhenCut | util/uf2conv.py:121-142 | The conversion raises exactly when the family or the address of some block cannot be read back from four bytes |
| Uf2Writer.BlockOnTheWire | util/uf2conv.py:121-142 | Every byte of a written block, magic bytes and flag bit included |
| Uf2Writer.PadChunk | util/uf2conv.py:130-138 | The loop fills the last chunk up with zeros to 256 bytes |
| Uf2Writer.ConvertToUf2 | util/uf2conv.py:121-142 | Fails exactly if a header word does not fit in 32 bits; otherwise the blocks of the specification, 512 bytes each |
| Uf2Writer.WrittenIsEncoded | util/uf2conv.py:128-142 | The written file is the encoding of the binary's pages |
| Uf2Writer.Uf2RoundTrip | util/uf2conv.py:37-142 | Reading back gives the binary padded with zeros to a multiple of 256, at its base address, from 512-byte blocks |
| Hex.PlaceRecord | util/uf2conv.py:193-200 | The byte loop places a data record's bytes at consecutive addresses |
| Hex.CollectPages | util/uf2conv.py:174-200 | The record loop gives the pages of all data bytes before the end record, or raises for a record that is too short |
| Hex.StyleCarries | util/uf2conv.py:149-166 | Flags, family and the device type behind the data are as asked for |
| Hex.RefusedExactlyWhenCut | util/uf2conv.py:149-166 | Pages are refused exactly when family, device type, block count or the address of some page cannot be read back from four bytes |
| Hex.EncodePages | util/uf2conv.py:149-166 | One 512-byte block for each page, nothing for no pages; fails exactly if a word does not fit in 32 bits |
| Hex.ConvertFromHexToUf2 | util/uf2conv.py:168-205 | The whole conversion from record bytes to blocks, for every list of records |
| HexImage.LastPage | util/uf2conv.py:195-197 | All pages are aligned and the current page is the page of the last byte written |
| HexImage.PagesStrictlyAscend | util/uf2conv.py:195-197 | Block pages strictly increase if and only if addresses never go back to an earlier page |
| HexImage.PagesFaithful | util/uf2conv.py:193-200 | Every data byte is at its own address, every other byte of an emitted page is 0xFF, every written address has a page |
| HexImage.ImageOfPage | util/uf2conv.py:60-80 | A page byte is found in the rebuilt binary at its address |
| HexImage.ImageOfGap | util/uf2conv.py:68-77 | Bytes between pages are zero in the rebuilt binary |
| HexImage.HexImageKept | util/uf2conv.py:60-109 | From the written bytes on: the blocks of pages that never go back are read back as the image of faithful pages, while gaps stay within 10 MiB |
| HexImage.ImageByte | util/uf2conv.py:60-80 | Byte by byte: a written byte at its address, 0xFF elsewhere in an emitted page |
| HexFormat.AddressesAgree | util/uf2conv.py:183-190 | The scan gives the addresses of the Intel Hexadecimal Object File Format Specification if and only if no record crosses the wrap of its segment or of the 4G space |
| HexFormat.FileScanned | util/uf2conv.py:174-190 | The same for whole files, up to their end record |
| HexFormat.SegmentWraps | util/uf2conv.py:185-190 | A file of two records on which the code and the format disagree |
| HexFile.HexFileKept | util/uf2conv.py:37-205 | From records to the rebuilt binary: the conversion can be read back if and only if the pages go forward with gaps of at most 10 MiB, and then every data byte is at the address the format gives it, 0xFF in the rest of the pages used, zeros in the gaps |
| Eeprom.PageWriteIsSplice | drivers/eeprom/eeprom_i2c.c:115-119 | On a device that wraps inside a page, a write that stays in its page is a flat write |
| Eeprom.AddressRoundTrip | drivers/eeprom/eeprom_spi.c:79-88 | The big-endian address bytes decode to the target |
| Eeprom.FillAddress | drivers/eeprom/eeprom_i2c.c:49-55 | The loop fills in the address most significant byte first and nothing else |
| Eeprom.ChunkLength | drivers/eeprom/eeprom_spi.c:161-165 | A chunk is never empty, never too long and never crosses a page boundary |
| Eeprom.ProgressStopsAtBoundary | drivers/eeprom/eeprom_spi.c:167-197 | An early return leaves a prefix that is empty or ends at a page boundary |
| Eeprom.ProgressComplete | drivers/eeprom/eeprom_spi.c:160-214 | Without bus faults everything is written |
| Eeprom.WriteChunk | drivers/eeprom/eeprom_spi.c:160-213 | One turn writes exactly the chunk, or nothing when the bus gives up at any of the three points |
| Eeprom.SpiWriteBlock | drivers/eeprom/eeprom_spi.c:155-225 | The memory is the old one with exactly the reached prefix of the buffer spliced in |
| Eeprom.CopyLoopEnds | drivers/eeprom/eeprom_i2c.c:122-124 | The copy loop with its 8-bit counter ends if and only if the chunk is shorter than 256 bytes |
| Eeprom.SmallPagesSuffice | drivers/eeprom/eeprom_i2c.c:115-124 | A page below 256 bytes keeps every chunk short enough |
| Eeprom.FillPacket | drivers/eeprom/eeprom_i2c.c:121-124 | The packet is the address followed by the chunk |
| Eeprom.I2cWriteBlock | drivers/eeprom/eeprom_i2c.c:105-148 | The memory is the old one with the whole buffer spliced in |
| Crc.Crc8Loop | quantum/crc.c:59-74 | The loop build is the bit-by-bit CRC with polynomial 0x31 and initial value 0xff |
| Crc.Crc8Table | quantum/crc.c:46-57 | The table build is, for every message, the bit-by-bit CRC with polynomial 0x07 and initial value 0xff |
| Crc.KnownChecksums | quantum/crc.c:46-74 | The checksums of one known message in both builds |
| Crc.TableIsEightShifts | quantum/crc.c:27-44 | All 256 table entries are eight shifts of their index |
| Crc.OddLosesNothing | quantum/crc.c:67-70 | A shift loses nothing if and only if the polynomial is odd, as in both builds |
| Crc.AbsorbInjective | quantum/crc.c:65-71 | For every odd polynomial a byte step maps different register-byte sums to different registers |
| Crc.DifferenceLasts | quantum/crc.c:64-72 | Different registers stay different whatever bytes follow |
| Crc.SingleByteDetected | quantum/crc.c:46-74 | In messages of any length, replacing one byte always changes the checksum, in both builds |
| Crc.BurstDetected | quantum/crc.c:59-74 | So does any burst of at most eight bits across two neighbouring bytes |

## Left out

- CHORDAL_HOLD, FLOW_TAP_TERM, RETRO_SHIFT, combos and retro tapping: builds that pop the buffer inside `process_tapping` or call other features; the base build is modelled, with permissive hold and hold-on-other-press as arbitrary per-key answers.
- Order of emitted events across keys: nothing is claimed about the global order of the log; the code reorders releases of older keys (quantum/action_tapping.c:404-420).
- Mutation of the record inside `process_action` (one-shot re-release, swap-hands reset, tap cancel under hold-on-other-press): the log keeps copies.
- TappingVerdict.VerdictRefinement: the settings of the key under decision do not change while it is undecided; the press itself does not occur again with the very same timestamp.
- TappingVerdict.StepDecides: the same condition on the settings of the key under decision.
- TappingVerdict.RunDecides: the same condition on the settings of the key under decision.
- TappingRepeat.RepeatExactlyWhen: nothing waits when the second press comes; the settings of the key under decision do not change.
- TappingRepeat.SecondPress: when the tap ends fewer than seven events wait and none of them presses a tap-hold key.
- TappingRepeat.WaitingTapSettled: what later events decide about a press that waited without its release is not stated.
- TappingOrder.OrderKeptUnlessOvertaken: runs without overflow; an overflow throws away everything that waits.
- TappingPairing.ReleaseCarriesItsCount: runs without overflow, in which the key's presses and releases alternate, no event of the key overtakes or settles its key past an older one that waits, and events of the key that wait together span less than 2^16 ms; nothing is claimed of the counts otherwise.
- TapToggle.TapToggleEndToEnd: the key is TT(l) on every layer and its terms do not change during the taps.
- ActionMachine.Actions.ProcessAction: one-shot keys with one-shot handling switched off at run time; keycode remapping (magic) is off; the swap-hands flag, system, consumer and mouse actions are not part of the state.
- ActionMachine.Actions.ProcessLayerTap: `OP_ONESHOT` with one-shot handling switched off.
- ActionMachine.Actions.ProcessModsTap: `MODS_ONESHOT` with one-shot handling switched off, and no tap cancel under hold-on-other-press.
- Key reports: `register_code` is modelled for modifier codes only, since other keys live in the HID report.
- User, keyboard and module hooks on layer changes return the state they are given; the strict layer release builds are not modelled.
- ModTap.ModTapApplied: tap code 0 with one-shot handling switched off.
- LayerMeaning.CompiledKeysKeepTheirMeaning: OSL with one-shot handling switched off.
- ActionMachine.Actions.ProcessSwapHands: the swap flag and the held flag are not part of the state.
- SpeculativeHold: modifier masks are sets of bits; whether the flow term has passed and what the callback answers are inputs; reports sent meanwhile are not modelled. `SpeculativeRun` takes every answer of the press handler's checks as possible.
- LayerResolution: active and default layers are one set, as `layer_switch_get_layer` combines them; `disable_action_cache` is off.
- Encoder entries of the source-layer cache and of the hand-swap memory: both directions of an encoder share one entry, so the claims are for matrix keys.
- DeferredTime.PassUpTo: nobody cancels the entry in question and its own callback does not end it; a token reissued with the same value after a cancel is therefore outside the deadline claims, but inside `Deferred.LiveTokensDistinct`.
- DeferredTime.PassInTrueTime: the same condition, and a deadline within 2^31 ms of the clock at its turn.
- DeferredTime.DeadlinesAcrossWrap: the same conditions at every moment; the clock read inside a request is an input.
- Matrix.EventsAlternate: key processing stays switched on during the scans; matrix rows are sequences of bits; the pull of new scans, debug output and tick generation are not modelled.
- HEX text: splitting into lines and parsing hex digits is not modelled, the model starts from the bytes of each record; checksums are not looked at, as in the code; `appstartaddr` is not tracked there.
- Keycodes.NothingCompiled: system and consumer keycodes belong to a feature that is not built in here.
- HexFile.HexFileKept: records have the length their first byte says; the code does not look at that byte.
- util/uf2conv.py: drive discovery, family names, printing and C array output are not modelled; every exception is one error value.
- HexImage.HexImageKept: addresses fit in 32 bits and gaps stay within 10 MiB, which is what the reader accepts.
- Eeprom.I2cWriteBlock: every chunk is shorter than 256 bytes, since otherwise the copy loop does not end; one device address serves the whole memory; the driver ignores bus errors, so none are modelled.
- Eeprom.SpiWriteBlock: the device ignores writes while the latch is off; polling of the busy flag is one outcome per chunk.
- EEPROM reads, erasing and the write-protect pin are not modelled.
- The two CRC builds use different polynomials and nothing is claimed to relate them.
- Mouse keys, words-per-minute, joystick, leader, caps word, OS detection, encoders, LED, audio, backlight, VIA and USB, SPI, I2C, UART drivers beyond the page loops: plumbing, tables or small state that would only add easy members.

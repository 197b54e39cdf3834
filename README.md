# RMG-K netplay core, modelled in Dafny

This project models these parts of RMG-K, a Mupen64Plus front end with Kaillera netplay:

- **Joybus interceptor and frame clock** (`Source/RMG-Core/Emulation.cpp`).
  - The frame callback clears the "synced this frame" flag.
  - The PIF sync callback exchanges the local controller word with the Kaillera peers at most once per frame, on the first controller read of channel 0.
  - It caches the eight player words and rewrites the PIF channel replies.
  - The rewrite clears the error bits, forces a standard-controller descriptor for STATUS and RESET, writes the cached word big-endian for CONTROLLER_READ, and marks the pak absent for PAK_READ and PAK_WRITE.
- **Emulation session** (`Source/RMG-Core/Emulation.cpp`).
  - `CoreStartEmulation` acquires the ROM, plugins and cheats in order and unwinds only the completed steps.
  - It writes the Kaillera deterministic settings layer, then the core overlay, then the per-game overlay, in that order.
  - It applies the PIF ROM guard chain, the netplay branch, the run and the teardown, and records the error last.
  - The Stop, Pause, Resume and Reset commands check their guards before issuing.
  - The collaborators' answers are an input value. The calls issued are recorded in a ghost event log.
- **GameCube adapter plugin** (`Source/RMG-Input-GCA/main.cpp`).
  - The poll thread's per-iteration step decodes the 37-byte report.
  - `gca_reset_state` clears the controller states.
  - The slot-mapping block of `InitiateControllers` gives enabled, connected ports the control slots in ascending order.
  - `GetKeys` returns zero early for an unmapped slot or a disconnected controller.
- **On-screen display** (`Source/RMG/OnScreenDisplay.cpp`).
  - The chat queue is a bounded FIFO (first in, first out): append then trim, clear on an empty message, a clamped maximum, and expiry by age from the front.
  - The Init, Shutdown, Pause and Resume flags.
- **Adapter configuration dialog** (`Source/RMG-Input-GCA/UserInterface/MainDialog.cpp`).
  - The 14-entry button-mapping table and duplicate clearing.
  - The listen-mode state machine driven by the poll timer.
  - Loading, saving and defaulting the table through the settings store.

Modules:
- `Settings` (`settings.dfy`): the settings store, plus sequences of setting writes and copies.
- `Joybus` (`joybus.dfy`): the channel model, the big-endian codec, the rewrite and the exchange as pure functions.
- `PifSync` (`pif_sync.dfy`): the callbacks' global state as a class. `s_CachedSyncBuffer` is an `array`. Each method is proved against the `Joybus` functions.
- `Session` (`session.dfy`): the start sequence as event traces, the settings layers, and the `CoreSession` class.
- `GcaAdapter` (`gca_adapter.dfy`), `ChatDisplay` (`chat_display.dfy`) and `MappingDialog` (`mapping_dialog.dfy`).

Inputs and derived values:
- Clock readings are integer nanosecond ticks passed in as `now`.
- Every collaborator whose code is not part of this model is a parameter: an arrow for the Kaillera exchange and for `DetectGCInput`, and a record of answers for the session's calls.

### Where the code departs from its evident intent (the model follows the code)

- **The deterministic layer is overwritten.** The forced-deterministic layer is evidently meant to take precedence over the user's settings in a Kaillera session. The code writes it first, before `CoreOpenRom` (lines 365-368). The core overlay (line 434) and the game overlay (line 437) then overwrite it. Only `Core_RSP_Plugin` survives; `Session.KailleraDeterminismOverwritten` states this.
- **The player number is not rejected before acquisition.** A player number outside 1..8 would evidently be best refused before anything is acquired. The code stores the number unchecked (line 459). Only the PIF callback ignores an out-of-range number (lines 108-110).
- **A PIF open failure can be hidden.** The evident intent is that the most specific error is the one reported. When emulation runs, the code sets the execute error last (line 553). This overwrites a PIF-open failure (line 345) with the empty string on a successful run; `Session.ErrorSetLast` states this. When the engine does not run (line 548), CoreStartEmulation sets no engine error. The error left is the last one any earlier call recorded, which may be one a teardown call records itself (the comment at lines 550-552 allows for this). `Session.ErrorWithoutExecute` states this for teardown calls that record none.
- **The rewrite loop can run past the channels.** It is bounded by `MAX_PLAYERS` (8), not by the six PIF channels (see Findings).

## Model

| member | source | states |
|---|---|---|
| Joybus.DecodeEncode | Source/RMG-Core/Emulation.cpp:178-182 | Writing a cached word into `rx[0..4)` big-endian and reading it back yields the same 32-bit word |
| Joybus.EncodeDecode | Source/RMG-Core/Emulation.cpp:126-127 | Reading four reply bytes as a word and writing it back reproduces the bytes |
| Joybus.WriteWord | Source/RMG-Core/Emulation.cpp:178-182 | The word write keeps the buffer length, leaves bytes 4.. alone and decodes back to the word |
| Joybus.WriteDescriptor | Source/RMG-Core/Emulation.cpp:166-174 | The STATUS/RESET reply becomes `00 05 00`, with the rest of the buffer unchanged |
| Joybus.ClearErrorBits | Source/RMG-Core/Emulation.cpp:162 | `&= ~0xC0` leaves a value below 0x40 that differs from the input only in bits 0x40 and 0x80 |
| Joybus.RewriteChannelEffect | Source/RMG-Core/Emulation.cpp:160-193 | Per command: a channel without tx or rx is untouched; the status loses 0xC0; STATUS/RESET get the descriptor, CONTROLLER_READ the cached word, PAK_READ byte 32 = 255, PAK_WRITE byte 0 = 255, any other command no reply change |
| Joybus.RewriteChannelIdempotent | Source/RMG-Core/Emulation.cpp:158-195 | Rewriting a channel twice with the same word gives the same result as once |
| Joybus.Bound | Source/RMG-Core/Emulation.cpp:158-159 | The loop stops exactly at min(count, limit) for a positive count and at 0 otherwise: every index below the bound passes `i < count && i < limit` and the bound fails it |
| Joybus.RewrittenFrame | Source/RMG-Core/Emulation.cpp:156-195 | Only channels below min(count, limit) change; commands and reply presence are kept; count <= 0 writes nothing |
| Joybus.RewrittenIdempotent | Source/RMG-Core/Emulation.cpp:156-195 | A second poll in the same frame rewrites the channels to the same bytes |
| Joybus.SynchronizeOutcome | Source/RMG-Core/Emulation.cpp:118-154 | Without a trigger the cache is unchanged. With one, the flag is set; failure (`ret <= 0`) zeroes count and words and marks the game inactive; success sets count = ret/4 and takes the words the exchange filled, with slot 0 seeded by the local input |
| Joybus.SecondPollSameFrame | Source/RMG-Core/Emulation.cpp:118-122 | After one poll the callback no longer triggers, and repeating it changes nothing |
| Joybus.NoExchangeOnceSynced | Source/RMG-Core/Emulation.cpp:120-122 | Once the flag is set, no number of further polls exchanges again |
| Joybus.ExactlyOncePerFrame | Source/RMG-Core/Emulation.cpp:100-122 | From a cleared flag, a frame's polls exchange exactly once if Kaillera is up, the player number is in 1..8 and some poll is a channel-0 controller read, and otherwise never |
| Joybus.AsWrittenRewriteOverrunsPif | Source/RMG-Core/Emulation.cpp:147-159 | A 32-byte exchange result makes the as-written loop visit 8 channels, more than the 6 that exist |
| Joybus.BoundedRewriteFits | Source/RMG-Core/Emulation.cpp:45-49 | With the loop capped at the 6 PIF channels, every poll stays inside the channel array |
| PifSync.AsInt32 | Source/RMG-Core/Emulation.cpp:87-89 | Storing the unsigned frame index in an `int` yields the value in range congruent to it modulo 2^32 |
| PifSync.NetplaySync.constructor | Source/RMG-Core/Emulation.cpp:70-84 | Frame 0, no sync this frame, zero count and an all-zero cache |
| PifSync.NetplaySync.ResetForSession | Source/RMG-Core/Emulation.cpp:480-490 | Starting a run resets the frame counter, the flag, the count and the eight cached words |
| PifSync.NetplaySync.FrameCallback | Source/RMG-Core/Emulation.cpp:87-95 | Records the frame index (as int) and clears only the per-frame flag |
| PifSync.NetplaySync.KailleraPifSync | Source/RMG-Core/Emulation.cpp:98-197 | The callback as written (loop cap 8) equals the `Joybus.Poll` specification, and the exchange sees the local word exactly when it triggers |
| PifSync.NetplaySync.KailleraPifSyncBounded | Source/RMG-Core/Emulation.cpp:156-195 | The callback with the loop capped at 6 channels equals `Joybus.Poll` with that cap, for every exchange result |
| PifSync.NetplaySync.Intercept | Source/RMG-Core/Emulation.cpp:112-195 | The intercept body leaves the cache and the channels at `Joybus.Poll`, keeps the frame counter, and exchanges the local word only when the game is active and the read triggers |
| PifSync.NetplaySync.SyncOnControllerRead | Source/RMG-Core/Emulation.cpp:118-154 | The exchange step leaves the cache at `Joybus.Synchronize` and reports failure exactly when it triggered and `ret <= 0` |
| PifSync.NetplaySync.StoreCache | Source/RMG-Core/Emulation.cpp:141-153 | The zero and copy loops leave the eight cached words equal to the given words |
| PifSync.NetplaySync.ExchangeBuffer | Source/RMG-Core/Emulation.cpp:129-130 | The buffer handed to the exchange holds the local word in slot 0 and zeros elsewhere |
| PifSync.NetplaySync.RewriteChannels | Source/RMG-Core/Emulation.cpp:158-195 | The in-place loop over the channel array produces `Joybus.Rewritten` of the old channels |
| PifSync.TickResetAllowsOneExchange | Source/RMG-Core/Emulation.cpp:91-93 | After a frame tick, two controller reads in the frame cause exactly one exchange |
| Settings.SetEffect | Source/RMG-Core/Emulation.cpp:226 | After a set, the key reads the new value and every other key reads as before |
| Settings.CopyOneEffect | Source/RMG-Core/Emulation.cpp:226-234 | `Set(target, Get<kind>(source))` changes only the target, to the converted source value |
| Settings.CopiesFrame | Source/RMG-Core/Emulation.cpp:224-235 | A run of copies leaves every key that is not a target unchanged |
| Settings.CopiesEffect | Source/RMG-Core/Emulation.cpp:224-235 | The last copy to a target decides its value |
| Settings.CopiesAgree | Source/RMG-Core/Emulation.cpp:224-235 | Stores that agree on the sources agree on every target after the copies |
| Settings.WritesFrame | Source/RMG-Core/Emulation.cpp:267-292 | Constant writes leave unwritten keys unchanged |
| Settings.WritesLast | Source/RMG-Core/Emulation.cpp:267-292 | The last constant write to a key decides its value |
| Settings.CopiesOverwriteWrites | Source/RMG-Core/Emulation.cpp:363-437 | Copies applied after core-key writes give their targets the same values as without the writes |
| Session.TablesWellFormed | Source/RMG-Core/Emulation.cpp:224-292 | Both overlays copy from non-core sources, and the deterministic layer writes only core keys |
| Session.DeterministicSettingsEffect | Source/RMG-Core/Emulation.cpp:267-292 | The Kaillera layer sets RandomizeInterrupt false, the pure interpreter, CountPerOp 0, CountPerOpDenomPot 0, SiDmaDuration -1 and the cxd4 RSP plugin for the platform |
| Session.DeterministicSettingsFrame | Source/RMG-Core/Emulation.cpp:267-292 | The Kaillera layer changes nothing else |
| Session.CoreOverlayEffect | Source/RMG-Core/Emulation.cpp:224-235 | Each of the nine core keys takes the value of its overlay key, read as the right type |
| Session.CoreOverlayFrame | Source/RMG-Core/Emulation.cpp:224-235 | The core overlay changes no other key |
| Session.CoreOverlayKeeps | Source/RMG-Core/Emulation.cpp:224-235 | Keys that are not core keys read the same after the overlay |
| Session.GameOverlayEffect | Source/RMG-Core/Emulation.cpp:237-262 | Without ROM settings or the override flag nothing changes; otherwise the three core keys take the per-game section's values |
| Session.GameOverlayFrame | Source/RMG-Core/Emulation.cpp:258-261 | The game overlay touches only RandomizeInterrupt, CPU_Emulator and CountPerOpDenomPot |
| Session.GameOverlayRespectsAgreement | Source/RMG-Core/Emulation.cpp:237-262 | Stores that differ in one core key still agree on all other keys after the game overlay |
| Session.DeterministicLayerOverwritten | Source/RMG-Core/Emulation.cpp:363-437 | Overlays applied after the deterministic layer give the same store as without it, except for the RSP plugin |
| Session.CoreOverlayOverwritesDeterministic | Source/RMG-Core/Emulation.cpp:433-434 | After the core overlay, only the RSP plugin still shows the deterministic layer |
| Session.KailleraDeterminismOverwritten | Source/RMG-Core/Emulation.cpp:363-437 | A fully acquired Kaillera start ends with the user's overlays in force for every key but the RSP plugin |
| Session.KailleraCpuEmulatorFromOverlay | Source/RMG-Core/Emulation.cpp:259-260 | In a Kaillera start the CPU emulator is the per-game or the overlay value, not the forced pure interpreter |
| Session.CpuEmulatorAfterOverlays | Source/RMG-Core/Emulation.cpp:227-260 | The CPU emulator after both overlays is the game value when the game overrides, else the overlay value |
| Session.DeterministicLayerSurvivesFailedOpen | Source/RMG-Core/Emulation.cpp:365-374 | If the ROM does not open, a Kaillera start issues only the open, fails, and leaves the forced values in the store |
| Session.PifRomEvents | Source/RMG-Core/Emulation.cpp:295-347 | The PIF ROM is opened only with a ROM header, CPU emulator < 2, PIF use on and a readable file; an open failure records the error |
| Session.AcquireSteps | Source/RMG-Core/Emulation.cpp:371-418 | Acquisition is the six steps open ROM, ROM plugin settings, plugin check, attach, cheats (netplay or local) and ROM type, none of which executes or shuts down netplay |
| Session.FirstFailure | Source/RMG-Core/Emulation.cpp:371-425 | Every step before the first failing one succeeds, and that one fails |
| Session.UnwindReleasesInReverse | Source/RMG-Core/Emulation.cpp:376-425 | Each failure releases the completed steps in reverse; a failed plugin-settings apply also restores the plugin settings |
| Session.TeardownReleasesEverything | Source/RMG-Core/Emulation.cpp:538-546 | The normal teardown releases the same resources as a full unwind but in a different order, then resets the media loader |
| Session.NetplaySpec | Source/RMG-Core/Emulation.cpp:442-473 | No address: no netplay; "KAILLERA": ready when Kaillera is initialised; other addresses: ready when CoreInitNetplay succeeds |
| Session.RunEvents | Source/RMG-Core/Emulation.cpp:477-520 | A run registers the frame callback, resets the sync state and ends with exactly one Execute |
| Session.AfterAcquireShutdown | Source/RMG-Core/Emulation.cpp:522-536 | After acquisition, netplay is shut down exactly for a legacy address whose netplay came up |
| Session.FailedStartNeverExecutes | Source/RMG-Core/Emulation.cpp:371-425 | A failed acquisition returns false, issues no Execute and leaves the completed steps followed by their reverse release |
| Session.ExecuteOnlyWhenNetplayReady | Source/RMG-Core/Emulation.cpp:475-556 | Execute is issued exactly when acquisition completes and any requested netplay is ready; the start succeeds exactly when Execute then succeeds too |
| Session.OnlyLegacyNetplayShutsDown | Source/RMG-Core/Emulation.cpp:522-536 | A start shuts netplay down exactly after full acquisition with a legacy address whose netplay came up |
| Session.ErrorSetLast | Source/RMG-Core/Emulation.cpp:548-554 | Whenever Execute was issued, the final error is the execute error, whatever was recorded earlier |
| Session.ErrorWithoutExecute | Source/RMG-Core/Emulation.cpp:548-554 | The converse: after a full acquisition without Execute, CoreStartEmulation sets no engine error, and, when the teardown calls record no error of their own, the final error is the one the acquisition, PIF ROM and netplay calls left |
| Session.KailleraNotInitErrorSurvives | Source/RMG-Core/Emulation.cpp:449-453 | A Kaillera start without an initialised client never executes and, when the teardown calls record no error of their own, ends with the Kaillera-not-initialised error |
| Session.StopSpec | Source/RMG-Core/Emulation.cpp:559-584 | Stop succeeds exactly when hooked and the command succeeds, is issued exactly when hooked, and clears the player number exactly on success |
| Session.PauseSpec | Source/RMG-Core/Emulation.cpp:586-618 | The pause command is issued exactly when hooked, no netplay is initialised and the state query says running; success exactly when that command then succeeds; a hooked, netplay-free call on a non-running emulation ends by recording the not-running error |
| Session.ResumeSpec | Source/RMG-Core/Emulation.cpp:620-652 | The resume command is issued exactly when hooked, no netplay is initialised and the state query says paused; success exactly when that command then succeeds; a hooked, netplay-free call on a non-paused emulation ends by recording the not-paused error |
| Session.ResetSpec | Source/RMG-Core/Emulation.cpp:654-689 | The reset command is issued exactly when hooked, not paused and running; success exactly when it then succeeds; a paused emulation records the paused error after one query, a non-running one the not-running error |
| Session.StopClearsPlayerNumberOnSuccess | Source/RMG-Core/Emulation.cpp:578-581 | After Stop the player number is 0 if it succeeded and unchanged otherwise |
| Session.CoreSession.ApplyKailleraDeterministicSettings | Source/RMG-Core/Emulation.cpp:267-292 | The write sequence leaves the store at `DeterministicSettings` |
| Session.CoreSession.constructor | Source/RMG-Core/Emulation.cpp:353-357 | A session starts over the given settings store with nothing called yet |
| Session.CoreSession.CopySetting | Source/RMG-Core/Emulation.cpp:226-234 | One overlay line changes the store exactly as `Settings.CopyOne` |
| Session.CoreSession.ApplyCoreSettingsOverlay | Source/RMG-Core/Emulation.cpp:224-235 | The nine copies leave the store at `CoreOverlay` |
| Session.CoreSession.ApplyGameCoreSettingsOverlay | Source/RMG-Core/Emulation.cpp:237-262 | The guarded copies leave the store at `GameOverlay` |
| Session.CoreSession.ApplyPifRomSettings | Source/RMG-Core/Emulation.cpp:295-347 | The guard chain appends exactly `PifRomEvents` to the log |
| Session.CoreSession.Acquire | Source/RMG-Core/Emulation.cpp:371-425 | Acquisition succeeds exactly when no step fails, and logs the steps and the unwind |
| Session.CoreSession.StartNetplay | Source/RMG-Core/Emulation.cpp:442-473 | The netplay branch logs and returns `NetplaySpec` |
| Session.CoreSession.Run | Source/RMG-Core/Emulation.cpp:477-520 | The run logs `RunEvents` and returns the execute error text |
| Session.CoreSession.Start | Source/RMG-Core/Emulation.cpp:353-557 | CoreStartEmulation logs `StartTrace`, leaves the store at `StartSettings` and returns `StartResult` |
| Session.CoreSession.StartAcquired | Source/RMG-Core/Emulation.cpp:427-556 | After a full acquisition the store gets both overlays, the log gets `AfterAcquire`, and the result is true exactly when the run happens and Execute succeeds |
| Session.CoreSession.StartPrelude | Source/RMG-Core/Emulation.cpp:427-473 | The disk file is set only for a cartridge, then both overlays, the PIF ROM settings and netplay, whose readiness follows `NetplaySpec` |
| Session.CoreSession.StartFinale | Source/RMG-Core/Emulation.cpp:475-556 | The run happens only without netplay or with netplay ready; legacy netplay is shut down, resources released and the error set |
| Session.CoreSession.IsEmulationIn | Source/RMG-Core/Emulation.cpp:203-222 | The query answers true exactly when hooked and the engine reports the asked state; it queries only when hooked and records the error of a failed query |
| Session.CoreSession.Stop | Source/RMG-Core/Emulation.cpp:559-584 | CoreStopEmulation follows `StopSpec` |
| Session.CoreSession.Pause | Source/RMG-Core/Emulation.cpp:586-618 | CorePauseEmulation follows `PauseSpec` |
| Session.CoreSession.Resume | Source/RMG-Core/Emulation.cpp:620-652 | CoreResumeEmulation follows `ResumeSpec` |
| Session.CoreSession.Reset | Source/RMG-Core/Emulation.cpp:654-689 | CoreResetEmulation follows `ResetSpec` |
| GcaAdapter.ReportIndicesInBounds | Source/RMG-Input-GCA/main.cpp:251-263 | Every byte the decode loop reads lies in 1..36, and no two fields of any ports share a byte |
| GcaAdapter.DecodeReport | Source/RMG-Input-GCA/main.cpp:251-263 | The decode yields four states, port i taken from bytes i*9+1 .. i*9+9 |
| GcaAdapter.DecodeEncodeReport | Source/RMG-Input-GCA/main.cpp:251-263 | Decoding the report an adapter sends for four states gives those states back |
| GcaAdapter.DecodeIgnoresLeadingByte | Source/RMG-Input-GCA/main.cpp:251-263 | The report's leading byte does not affect the decoded states |
| GcaAdapter.QualifyingPortsMembers | Source/RMG-Input-GCA/main.cpp:536-543 | The ports the loop assigns are exactly the enabled ports with non-zero status |
| GcaAdapter.QualifyingPortsIncreasing | Source/RMG-Input-GCA/main.cpp:536-543 | The assigned ports are in range and strictly ascending |
| GcaAdapter.QualifyingPortsCount | Source/RMG-Input-GCA/main.cpp:535-543 | The final `controlSlot` equals the number of qualifying ports |
| GcaAdapter.SlotMapSuffix | Source/RMG-Input-GCA/main.cpp:534-543 | Exactly the first `controlSlot` slots are mapped; every other slot is -1 |
| GcaAdapter.SlotMapQualifies | Source/RMG-Input-GCA/main.cpp:536-543 | Every mapped slot holds an enabled port whose controller is connected |
| GcaAdapter.SlotMapCovers | Source/RMG-Input-GCA/main.cpp:536-543 | Every enabled, connected port gets a slot |
| GcaAdapter.SlotMapIncreasing | Source/RMG-Input-GCA/main.cpp:536-543 | Mapped slots hold strictly increasing ports |
| GcaAdapter.PresentFlags | Source/RMG-Input-GCA/main.cpp:545-548 | A control is marked present exactly when its slot is mapped |
| GcaAdapter.KeysComeFromQualifyingPort | Source/RMG-Input-GCA/main.cpp:463-481 | After mapping, a slot yields input only when it is mapped and its controller's status is non-zero, and then from a qualifying port |
| GcaAdapter.Adapter.constructor | Source/RMG-Input-GCA/main.cpp:75-83 | The plugin starts with zero states, nothing polled and no slot mapped |
| GcaAdapter.Adapter.ResetState | Source/RMG-Input-GCA/main.cpp:136-141 | Every controller state becomes zero |
| GcaAdapter.Adapter.PollStep | Source/RMG-Input-GCA/main.cpp:229-269 | Unplugged: states zeroed, polled set, thread stops. Failed or short transfer: nothing changes. Full report: states decoded, polled set |
| GcaAdapter.Adapter.DecodeStates | Source/RMG-Input-GCA/main.cpp:251-263 | The decode loop computes `DecodeReport` of the buffer |
| GcaAdapter.Adapter.MapPorts | Source/RMG-Input-GCA/main.cpp:534-543 | The reset-and-assign loop leaves `l_ControlToPort` equal to `SlotMap` |
| GcaAdapter.Adapter.StoreStates | Source/RMG-Input-GCA/main.cpp:265-267 | The copy under the mutex leaves the shared states equal to the decoded ones |
| GcaAdapter.Adapter.GcaInit | Source/RMG-Input-GCA/main.cpp:143-206 | The states are zeroed and the polled flag lowered on every path, before the device set-up whose success is the result |
| GcaAdapter.Adapter.InitiateControllers | Source/RMG-Input-GCA/main.cpp:512-549 | A failed init leaves zero states, the polled flag low, and the slot map and Present flags unchanged; otherwise the states are the polled ones, the slots are their `SlotMap` and Present is set from the slots |
| GcaAdapter.NoKeysAfterFailedInit | Source/RMG-Input-GCA/main.cpp:148-149 | After a failed re-init, any surviving slot map yields no input for any control |
| GcaAdapter.Adapter.GetKeys | Source/RMG-Input-GCA/main.cpp:463-481 | An unmapped slot or a zero-status controller gives no keys; otherwise the keys come from the mapped port's state |
| ChatDisplay.AgeSeconds | Source/RMG/OnScreenDisplay.cpp:220 | `duration_cast<seconds>` truncates toward zero: the age is the whole number of seconds between the two readings |
| ChatDisplay.TrimKeepsNewest | Source/RMG/OnScreenDisplay.cpp:200-203 | Trimming keeps exactly the newest min(size, max) entries, in order |
| ChatDisplay.TrimBoundedSuffix | Source/RMG/OnScreenDisplay.cpp:156-159 | The trimmed queue is a suffix of the old one and within the maximum |
| ChatDisplay.PushTrimKeepsNewest | Source/RMG/OnScreenDisplay.cpp:199-203 | After appending and trimming with max >= 1: size <= max, the new message is last, and the older survivors are the newest old entries in their order |
| ChatDisplay.ExpireDropsOldPrefix | Source/RMG/OnScreenDisplay.cpp:218-226 | Expiry drops a front run of entries whose age is at least the duration, keeps a suffix unchanged and stops at the first young entry |
| ChatDisplay.ExpireIdempotent | Source/RMG/OnScreenDisplay.cpp:218-226 | Expiring twice at the same time is the same as expiring once |
| ChatDisplay.ExpireKeepsBound | Source/RMG/OnScreenDisplay.cpp:218-226 | Expiry keeps the queue within its maximum |
| ChatDisplay.ClampMax | Source/RMG/OnScreenDisplay.cpp:132-137 | A configured maximum below 1 becomes 1; others are kept |
| ChatDisplay.OnScreenDisplay.constructor | Source/RMG/OnScreenDisplay.cpp:24-50 | Uninitialised, unpaused, empty queue, duration 6 and maximum 5 |
| ChatDisplay.OnScreenDisplay.Init | Source/RMG/OnScreenDisplay.cpp:78-97 | Succeeds exactly when not yet initialised and the renderer starts; only then does the flag rise |
| ChatDisplay.OnScreenDisplay.Shutdown | Source/RMG/OnScreenDisplay.cpp:99-113 | When initialised: clears the message and the queue and lowers both flags; otherwise nothing changes |
| ChatDisplay.OnScreenDisplay.LoadSettings | Source/RMG/OnScreenDisplay.cpp:115-159 | Reads the enabled flag, the duration and the clamped maximum, then trims the queue to that maximum |
| ChatDisplay.OnScreenDisplay.TrimQueue | Source/RMG/OnScreenDisplay.cpp:156-159 | The pop loop leaves `Trim` of the old queue |
| ChatDisplay.OnScreenDisplay.SetMessage | Source/RMG/OnScreenDisplay.cpp:175-184 | When initialised the message and its time are set; otherwise nothing changes |
| ChatDisplay.OnScreenDisplay.SetChatMessage | Source/RMG/OnScreenDisplay.cpp:186-204 | Uninitialised: no change; an empty message empties the queue; otherwise append then trim |
| ChatDisplay.OnScreenDisplay.Render | Source/RMG/OnScreenDisplay.cpp:206-228 | Uninitialised or paused: nothing changes and nothing is drawn; otherwise old entries expire and the two flags say what would be drawn |
| ChatDisplay.OnScreenDisplay.Pause | Source/RMG/OnScreenDisplay.cpp:334-337 | Only the paused flag changes, to true |
| ChatDisplay.OnScreenDisplay.Resume | Source/RMG/OnScreenDisplay.cpp:339-342 | Only the paused flag changes, to false |
| MappingDialog.ButtonOf | Source/RMG-Input-GCA/UserInterface/MainDialog.cpp:26-41 | Each mapping setting is the table entry of one button index |
| MappingDialog.SettingIdsDistinct | Source/RMG-Input-GCA/UserInterface/MainDialog.cpp:26-41 | The 14 buttons use 14 distinct settings |
| MappingDialog.SavedWrites | Source/RMG-Input-GCA/UserInterface/MainDialog.cpp:132-138 | Saving stores each button's mapping as its setting's user value |
| MappingDialog.SavedKeeps | Source/RMG-Input-GCA/UserInterface/MainDialog.cpp:132-138 | Saving leaves every setting that is not a mapping untouched |
| MappingDialog.SavedKeepsDefaults | Source/RMG-Input-GCA/UserInterface/MainDialog.cpp:132-138 | Saving never changes the built-in defaults |
| MappingDialog.LoadAfterSave | Source/RMG-Input-GCA/UserInterface/MainDialog.cpp:124-138 | Saving the table and then loading it over the same store restores the table |
| MappingDialog.SaveIdempotent | Source/RMG-Input-GCA/UserInterface/MainDialog.cpp:132-138 | Saving the same table twice leaves the store as after one save |
| MappingDialog.ClearDuplicatesMeaning | Source/RMG-Input-GCA/UserInterface/MainDialog.cpp:170-180 | Slot k is unchanged, no other slot holds x (for x not None), entries other than x are unchanged, and cleared entries become None |
| MappingDialog.AssignIsUnique | Source/RMG-Input-GCA/UserInterface/MainDialog.cpp:236-237 | After assigning a detected input and clearing its duplicates, the input sits at exactly that slot |
| MappingDialog.ListenTimesOut | Source/RMG-Input-GCA/UserInterface/MainDialog.cpp:204-221 | After a mapping click, 99 idle ticks keep listening with the timer running, and the 100th cancels listening and stops the timer |
| MappingDialog.IdleAfterCancel | Source/RMG-Input-GCA/UserInterface/MainDialog.cpp:206-210 | Once not listening, ticks only keep the timer stopped |
| MappingDialog.SettingsHandle.SetValue | Source/RMG-Input-GCA/UserInterface/MainDialog.cpp:136 | CoreSettingsSetValue replaces the store by `Set` |
| MappingDialog.MainDialog.constructor | Source/RMG-Input-GCA/UserInterface/MainDialog.cpp:21-113 | The dialog starts not listening, with the timer stopped and the table loaded from the store |
| MappingDialog.MainDialog.LoadMappings | Source/RMG-Input-GCA/UserInterface/MainDialog.cpp:124-130 | The loop loads each button's setting value into the table |
| MappingDialog.MainDialog.SaveMappings | Source/RMG-Input-GCA/UserInterface/MainDialog.cpp:132-138 | The loop leaves the store at `Saved` of the table |
| MappingDialog.MainDialog.SetDefaultMappings | Source/RMG-Input-GCA/UserInterface/MainDialog.cpp:140-146 | Each entry becomes its setting's stored default |
| MappingDialog.MainDialog.ClearDuplicateMapping | Source/RMG-Input-GCA/UserInterface/MainDialog.cpp:170-180 | The in-place loop leaves `ClearDuplicates` of the old table |
| MappingDialog.MainDialog.OnClearButtonClicked | Source/RMG-Input-GCA/UserInterface/MainDialog.cpp:156-168 | Cancels listening and stops the timer if listening; only the clicked slot changes, to None |
| MappingDialog.MainDialog.OnMappingButtonClicked | Source/RMG-Input-GCA/UserInterface/MainDialog.cpp:182-202 | Listens on the clicked index from tick 0 with the timer running and the current state as baseline; the table is unchanged |
| MappingDialog.MainDialog.OnPollTimerTimeout | Source/RMG-Input-GCA/UserInterface/MainDialog.cpp:204-244 | The listen state follows `TimerTick`. A detection assigns the input and clears its duplicates; otherwise the table is unchanged and an idle tick updates the baseline |

## Left out

- The model is of the build with `NETPLAY` defined, where the Kaillera and netplay code (Emulation.cpp:73, 90, 100-196, 362-368, 442-473, 483-536, 578-581) is compiled in. The build without it is not modelled. In that build, a non-empty address skips Execute and returns the uninitialised `m64p_ret` (Emulation.cpp:357, 556).
- USB I/O:
  - The libusb steps of `gca_init` (only its state reset is modelled, by `GcaInit`), `gca_quit`, the descriptor and control transfers, and `libusb_interrupt_transfer` itself. `PollStep` receives the transfer's return code, length and buffer.
  - `InitiateControllers`' wait for the first poll (main.cpp:525-528) is not a loop in the model. The states the poll thread has stored when the mapping takes the mutex are the parameter `polled`. `deviceReady` stands for the libusb set-up steps of `gca_init` all succeeding. A wait that never ends (no successful poll) is not modelled.
- Concurrency: the poll thread, `RomClosed`'s join, the atomics and the mutexes. Only one iteration of the poll body is modelled, and each mutex-guarded block acts atomically.
- Floating point:
  - In the adapter plugin: `scale_axis`, deadzone and sensitivity, and `load_settings` (main.cpp:276-317, 483-511). `GcaAdapter.Keys.FromState` stands for the BUTTONS value computed from a state.
  - In the on-screen display: message scale, padding, colours and window placement (OnScreenDisplay.cpp:115-131, 139-154, 229-331).
- `PortEnabled` comes from `load_settings`, so `InitiateControllers` takes it as a parameter.
- Rendering: ImGui, OpenGL and font rebuilding (OnScreenDisplay.cpp:54-72). `OnScreenDisplaySetDisplaySize` only forwards to ImGui.
- Engine commands issued through `m64p::Core.DoCommand` appear only as their success or failure result.
- The dynamic lookup of `set_pif_sync_callback` (Emulation.cpp:496-511) is left out.
- PIF file I/O is reduced to "path readable" and "open result".
- The netplay transports (`CoreInitNetplay`, `CoreShutdownNetplay`, `CoreModifyKailleraPlayValues`) have only their call contract.
- `s_LastSyncFrame` (Emulation.cpp:78, 485) is written but never read, so it is not modelled.
- The PIF channel buffers are values inside an `array<Channel>`. The channels' pointers into shared PIF RAM, and any aliasing between them, are not modelled.
- The channel model assumes each reply buffer is long enough for every byte its command's reply writes (`WellSized`), for example 33 bytes for PAK_READ, whose `rx_buf[32]` is written. The source does not check these lengths (Emulation.cpp:166-191). It relies on the Joybus frame layout in PIF RAM, which is not part of this model.
- Session.ErrorWithoutExecute, Session.KailleraNotInitErrorSurvives: only CoreStartEmulation's own CoreSetError calls are `SetError` events. The errors that collaborator calls record themselves are not modelled, including the teardown calls of lines 538-546 (CoreClearCheats, CoreDetachPlugins, CoreCloseRom, CoreApplyPluginSettings, CoreResetMediaLoader). These two lemmas therefore hold only for a teardown in which none of those calls records an error. `Session.ErrorSetLast` is unaffected, because line 553 comes after the teardown.
- `PifSync.NetplaySync.KailleraPifSync` requires the exchange to report at most six words. The as-written loop indexes channels 6 and 7, which do not exist, so its behaviour beyond six channels is undefined and is shown separately by `Joybus.AsWrittenRewriteOverrunsPif` (see Findings).
- The local-input read `(rx[0] << 24) | …` (Emulation.cpp:127) promotes `uint8_t` to `int`. For `rx[0] >= 0x80` that shift overflows a 32-bit `int` before C++20. The model takes the unsigned value the authors intended.
- Entries the code cannot reach are not modelled:
  - `GetKeys` for a `Control` outside 0..3;
  - `onClearButtonClicked` and `onMappingButtonClicked` for an index outside 0..13.

  Their callers pass only those fixed indices.
- `GCInput.hpp` and `MainDialog.hpp` are not part of this model:
  - `GCInput` is its integer value, with `None` taken as 0;
  - the dialog's initial listen state (-1, 0, timer stopped) is assumed;
  - `DetectGCInput` is an arrow parameter that includes the slider thresholds.
- The Qt widgets, button texts, icons and titles, the sliders and the dialog's OK and RestoreDefaults handling (MainDialog.cpp:246-318) are left out.
- The settings store's persistence (`CoreSettingsSave`) is left out. A setting that has neither a value nor a default reads as integer 0.
- The clocks are integer nanosecond ticks passed in as `now`.

## Findings

| source | as written | input that shows it | evidently intended | confidence | as-written member | corrected member |
|---|---|---|---|---|---|---|
| Source/RMG-Core/Emulation.cpp:159 | The rewrite loop runs while `i < s_CachedNumReceived && i < MAX_PLAYERS` (8) and indexes `pif->channels[i]`, but `struct pif` has 6 channels (line 48) | The exchange returns `ret = 32` (eight players): `s_CachedNumReceived = 8`, so the loop reads `channels[6]` and `channels[7]`, past the array | Bound the loop by the 6 PIF channels as well | not executed | Joybus.AsWrittenRewriteOverrunsPif | PifSync.NetplaySync.KailleraPifSyncBounded |

/** The emulation session of Emulation.cpp: CoreStartEmulation's ordered
    acquire / roll-back sequence, the settings layers it writes, and the
    guards of CoreStop/Pause/Resume/ResetEmulation. Every collaborator
    (ROM loader, plugins, cheats, netplay, the engine's DoCommand) is
    reduced to the answer it gives, and every call to one is recorded as an
    event in a ghost log; the properties of the session are statements
    about that log and about the settings store. */
module Session {
  import opened Settings
  import opened Joybus

  datatype EngineResult = Success | Failure(message: string)
  datatype EmuState = Stopped | Running | Paused
  /** M64CMD_CORE_STATE_QUERY: the engine's state, or the failure message. */
  datatype Query = QueryOk(state: EmuState) | QueryFailed(message: string)
  datatype RomType = Cartridge | Disk
  datatype SystemType = NTSC | PAL

  /** The calls the session makes, in the order it makes them. */
  datatype Event =
    // acquisition, in CoreStartEmulation's order
    | OpenRom(path: string) | ApplyRomPluginSettings | CheckPluginsReady
    | AttachPlugins | ApplyNetplayCheats | ApplyCheats | QueryRomType
    // release
    | ClearCheats | DetachPlugins | CloseRom | ApplyPluginSettings | ResetMediaLoader
    // configuration
    | SetDiskFile(path: string) | OpenPifRom(path: string)
    // netplay
    | SetKailleraPlayerNumber(player: int) | InitNetplay(address: string, port: int, player: int)
    | ShutdownNetplay
    // running
    | SetFrameCallback | ResetSyncState | InstallPifSyncCallback | Execute
    // engine commands
    | StateQuery | StopCommand | PauseCommand | ResumeCommand | ResetCommand(hard: bool)
    // CoreSetError, as called by CoreStartEmulation and its own helpers;
    // the collaborators' internal CoreSetError calls are not events
    | SetError(message: string)

  /** What the collaborators of CoreStartEmulation answer on one call. */
  datatype StartEnv = StartEnv(
    openRom: bool,
    romPluginSettings: bool,
    pluginsReady: bool,
    attachPlugins: bool,
    netplayCheats: bool,
    localCheats: bool,
    romType: Option<RomType>,
    /** CoreGetCurrentDefaultRomSettings: the ROM's MD5, the per-game section. */
    romSettings: Option<string>,
    /** CoreGetCurrentRomHeader: the ROM's system type. */
    romHeader: Option<SystemType>,
    /** The path is a regular file that CoreReadFile can read. */
    pifReadable: string -> bool,
    pifOpen: EngineResult,
    kailleraInit: bool,
    initNetplay: bool,
    /** The engine library exports set_pif_sync_callback. */
    pifHookAvailable: bool,
    execute: EngineResult,
    windows: bool)

  const KAILLERA: string := "KAILLERA"
  const CXD4_WINDOWS: string := "mupen64plus-rsp-cxd4.dll"
  const CXD4_POSIX: string := "mupen64plus-rsp-cxd4.so"

  const KAILLERA_NOT_INIT: string := "CoreStartEmulation: Kaillera not initialized"
  const EXECUTE_FAILED: string := "CoreStartEmulation m64p::Core.DoCommand(M64CMD_EXECUTE) Failed: "
  const PIF_OPEN_FAILED: string := "open_pif_rom m64p::Core.DoCommand(M64CMD_PIF_OPEN) Failed: "
  const STATE_QUERY_FAILED: string := "get_emulation_state m64p::Core.DoCommand(M64CMD_CORE_STATE_QUERY) Failed: "
  const STOP_FAILED: string := "CoreStopEmulation m64p::Core.DoCommand(M64CMD_STOP) Failed: "
  const PAUSE_NOT_RUNNING: string := "CorePauseEmulation Failed: cannot pause emulation when emulation isn't running!"
  const PAUSE_FAILED: string := "CorePauseEmulation m64p::Core.DoCommand(M64CMD_PAUSE) Failed: "
  const RESUME_NOT_PAUSED: string := "CoreIsEmulationPaused Failed: cannot resume emulation when emulation isn't paused!"
  const RESUME_FAILED: string := "CoreResumeEmulation m64p::Core.DoCommand(M64CMD_RESUME) Failed: "
  const RESET_PAUSED: string := "CoreResetEmulation Failed: cannot reset emulation when paused!"
  const RESET_NOT_RUNNING: string := "CoreResetEmulation Failed: cannot reset emulation when emulation isn't running!"
  const RESET_FAILED: string := "CoreResetEmulation m64p::Core.DoCommand(M64CMD_RESET) Failed: "

  // ---------------------------------------------------------------------
  // What a trace leaves behind

  /** The error CoreGetError would report after `trace`, starting from `d`. */
  function LastError(d: string, trace: seq<Event>): string
  {
    if trace == [] then d
    else if trace[|trace| - 1].SetError? then trace[|trace| - 1].message
    else LastError(d, trace[..|trace| - 1])
  }

  /** The Kaillera player number after `trace`, starting from `d`. */
  function LastPlayerNumber(d: int, trace: seq<Event>): int
  {
    if trace == [] then d
    else if trace[|trace| - 1].SetKailleraPlayerNumber? then trace[|trace| - 1].player
    else LastPlayerNumber(d, trace[..|trace| - 1])
  }

  /** Running a trace in two parts leaves the same error as running it whole. */
  lemma {:induction false} LastErrorAppend(d: string, a: seq<Event>, b: seq<Event>)
    ensures LastError(d, a + b) == LastError(LastError(d, a), b)
  {
    if b != [] {
      assert (a + b)[..|a + b| - 1] == a + b[..|b| - 1];
      LastErrorAppend(d, a, b[..|b| - 1]);
    } else {
      assert a + b == a;
    }
  }

  /** A trace without SetError leaves the error as it was. */
  lemma {:induction false} LastErrorWithoutSetError(d: string, t: seq<Event>)
    requires forall i :: 0 <= i < |t| ==> !t[i].SetError?
    ensures LastError(d, t) == d
  {
    if t != [] {
      LastErrorWithoutSetError(d, t[..|t| - 1]);
    }
  }

  lemma {:induction false} LastPlayerNumberAppend(d: int, a: seq<Event>, b: seq<Event>)
    ensures LastPlayerNumber(d, a + b) == LastPlayerNumber(LastPlayerNumber(d, a), b)
  {
    if b != [] {
      assert (a + b)[..|a + b| - 1] == a + b[..|b| - 1];
      LastPlayerNumberAppend(d, a, b[..|b| - 1]);
    } else {
      assert a + b == a;
    }
  }

  // ---------------------------------------------------------------------
  // Settings layers (lines 226-291)

  /** apply_coresettings_overlay: the nine copies, in the source's order,
      each read with the getter of the core key's type. */
  const CORE_OVERLAY: seq<Copy> := [
    Copy(Core_RandomizeInterrupt, CoreOverlay_RandomizeInterrupt, BoolKind),
    Copy(Core_CPU_Emulator, CoreOverlay_CPU_Emulator, IntKind),
    Copy(Core_DisableExtraMem, CoreOverlay_DisableExtraMem, BoolKind),
    Copy(Core_EnableDebugger, CoreOverlay_EnableDebugger, BoolKind),
    Copy(Core_CountPerOp, CoreOverlay_CountPerOp, IntKind),
    Copy(Core_CountPerOpDenomPot, CoreOverlay_CountPerOpDenomPot, IntKind),
    Copy(Core_SiDmaDuration, CoreOverlay_SiDmaDuration, IntKind),
    Copy(Core_SaveFileNameFormat, CoreOverLay_SaveFileNameFormat, IntKind),
    Copy(Core_GbCameraVideoCaptureBackend1, CoreOverlay_GbCameraVideoCaptureBackend1, StringKind)]

  /** apply_game_coresettings_overlay: the three copies from the game's section. */
  function GameCopies(section: string): seq<Copy>
  {
    [Copy(Core_RandomizeInterrupt, Game_RandomizeInterrupt(section), BoolKind),
     Copy(Core_CPU_Emulator, Game_CPU_Emulator(section), IntKind),
     Copy(Core_CountPerOpDenomPot, Game_CountPerOpDenomPot(section), IntKind)]
  }

  function RspPluginName(windows: bool): string
  {
    if windows then CXD4_WINDOWS else CXD4_POSIX
  }

  /** apply_kaillera_deterministic_settings: the six constant writes. */
  function DeterministicWrites(windows: bool): seq<Write>
  {
    [Write(Core_RandomizeInterrupt, BoolValue(false)),
     Write(Core_CPU_Emulator, IntValue(0)),
     Write(Core_CountPerOp, IntValue(0)),
     Write(Core_CountPerOpDenomPot, IntValue(0)),
     Write(Core_SiDmaDuration, IntValue(-1)),
     Write(Core_RSP_Plugin, StringValue(RspPluginName(windows)))]
  }

  /** Both overlays copy from their own keys into core keys; the
      deterministic layer writes core keys only. */
  lemma TablesWellFormed(section: string, windows: bool)
    ensures CoreFromElsewhere(CORE_OVERLAY)
    ensures CoreFromElsewhere(GameCopies(section))
    ensures forall k :: 0 <= k < |DeterministicWrites(windows)| ==> IsCoreKey(DeterministicWrites(windows)[k].key)
  {
  }

  /** apply_kaillera_deterministic_settings. */
  function DeterministicSettings(s: Store, windows: bool): Store
  {
    ApplyWrites(s, DeterministicWrites(windows))
  }

  /** apply_coresettings_overlay. */
  function CoreOverlay(s: Store): Store
  {
    ApplyCopies(s, CORE_OVERLAY)
  }

  /** The game's section overrides the core settings. */
  predicate GameOverrides(s: Store, romSettings: Option<string>)
  {
    romSettings.Some? && GetBool(s, Game_OverrideCoreSettings(romSettings.value))
  }

  /** apply_game_coresettings_overlay: nothing without ROM settings or when
      the game's section does not ask for it. */
  function GameOverlay(s: Store, romSettings: Option<string>): Store
  {
    if romSettings.None? then s
    else if !GetBool(s, Game_OverrideCoreSettings(romSettings.value)) then s
    else ApplyCopies(s, GameCopies(romSettings.value))
  }

  /** Every deterministic write is the last one to its key. */
  lemma DeterministicWritesDistinct(windows: bool)
    ensures forall j :: 0 <= j < |DeterministicWrites(windows)| ==> LastWriteOf(DeterministicWrites(windows), j)
  {
  }

  /** The deterministic layer: interrupts not randomised, the pure
      interpreter, fixed CountPerOp values, SI DMA duration -1 and the cxd4
      RSP plugin. */
  lemma DeterministicSettingsEffect(s: Store, windows: bool)
    ensures var r := DeterministicSettings(s, windows);
      && Get(r, Core_RandomizeInterrupt) == BoolValue(false)
      && Get(r, Core_CPU_Emulator) == IntValue(0)
      && Get(r, Core_CountPerOp) == IntValue(0)
      && Get(r, Core_CountPerOpDenomPot) == IntValue(0)
      && Get(r, Core_SiDmaDuration) == IntValue(-1)
      && Get(r, Core_RSP_Plugin) == StringValue(RspPluginName(windows))
  {
    var ws := DeterministicWrites(windows);
    DeterministicWritesDistinct(windows);
    WritesLast(s, ws, 0);
    WritesLast(s, ws, 1);
    WritesLast(s, ws, 2);
    WritesLast(s, ws, 3);
    WritesLast(s, ws, 4);
    WritesLast(s, ws, 5);
  }

  /** Every key the layer does not name is left as it was. */
  lemma DeterministicSettingsFrame(s: Store, windows: bool)
    ensures forall id :: NotWritten(DeterministicWrites(windows), id)
                         ==> Get(DeterministicSettings(s, windows), id) == Get(s, id)
  {
    var ws := DeterministicWrites(windows);
    forall id | NotWritten(ws, id)
      ensures Get(ApplyWrites(s, ws), id) == Get(s, id)
    {
      WritesFrame(s, ws, id);
    }
  }

  /** Every overlay copy is the last one writing its target. */
  lemma CoreOverlayTargetsDistinct()
    ensures forall j :: 0 <= j < |CORE_OVERLAY| ==> LastCopyOf(CORE_OVERLAY, j)
  {
  }

  /** The core overlay: each core key takes its overlay key's value, read
      as the core key's type. (The source reads each overlay key just
      before its write; no write touches an overlay key, so that is the
      value from before the overlay.) */
  lemma CoreOverlayEffect(s: Store)
    ensures var r := CoreOverlay(s);
      && Get(r, Core_RandomizeInterrupt) == BoolValue(GetBool(s, CoreOverlay_RandomizeInterrupt))
      && Get(r, Core_CPU_Emulator) == IntValue(GetInt(s, CoreOverlay_CPU_Emulator))
      && Get(r, Core_DisableExtraMem) == BoolValue(GetBool(s, CoreOverlay_DisableExtraMem))
      && Get(r, Core_EnableDebugger) == BoolValue(GetBool(s, CoreOverlay_EnableDebugger))
      && Get(r, Core_CountPerOp) == IntValue(GetInt(s, CoreOverlay_CountPerOp))
      && Get(r, Core_CountPerOpDenomPot) == IntValue(GetInt(s, CoreOverlay_CountPerOpDenomPot))
      && Get(r, Core_SiDmaDuration) == IntValue(GetInt(s, CoreOverlay_SiDmaDuration))
      && Get(r, Core_SaveFileNameFormat) == IntValue(GetInt(s, CoreOverLay_SaveFileNameFormat))
      && Get(r, Core_GbCameraVideoCaptureBackend1)
         == StringValue(GetString(s, CoreOverlay_GbCameraVideoCaptureBackend1))
  {
    TablesWellFormed("", false);
    CoreOverlayTargetsDistinct();
    CopiesEffect(s, CORE_OVERLAY, 0);
    CopiesEffect(s, CORE_OVERLAY, 1);
    CopiesEffect(s, CORE_OVERLAY, 2);
    CopiesEffect(s, CORE_OVERLAY, 3);
    CopiesEffect(s, CORE_OVERLAY, 4);
    CopiesEffect(s, CORE_OVERLAY, 5);
    CopiesEffect(s, CORE_OVERLAY, 6);
    CopiesEffect(s, CORE_OVERLAY, 7);
    CopiesEffect(s, CORE_OVERLAY, 8);
  }

  /** The core overlay leaves every key it does not copy to as it was. */
  lemma CoreOverlayFrame(s: Store)
    ensures forall id :: NotTarget(CORE_OVERLAY, id) ==> Get(CoreOverlay(s), id) == Get(s, id)
  {
    forall id | NotTarget(CORE_OVERLAY, id)
      ensures Get(CoreOverlay(s), id) == Get(s, id)
    {
      CopiesFrame(s, CORE_OVERLAY, id);
    }
  }

  /** In particular it leaves every key but the core keys as it was. */
  lemma CoreOverlayKeeps(s: Store, id: SettingsID)
    requires !IsCoreKey(id)
    ensures Get(CoreOverlay(s), id) == Get(s, id)
  {
    TablesWellFormed("", false);
    NonCoreNotTarget(CORE_OVERLAY, id);
    CopiesFrame(s, CORE_OVERLAY, id);
  }

  /** Every game copy is the last one writing its target. */
  lemma GameCopiesTargetsDistinct(section: string)
    ensures forall j :: 0 <= j < |GameCopies(section)| ==> LastCopyOf(GameCopies(section), j)
  {
  }

  /** The game overlay: without an override the store is unchanged;
      otherwise the three core keys take the game's values. */
  lemma GameOverlayEffect(s: Store, romSettings: Option<string>)
    ensures !GameOverrides(s, romSettings) ==> GameOverlay(s, romSettings) == s
    ensures GameOverrides(s, romSettings) ==>
      var r, section := GameOverlay(s, romSettings), romSettings.value;
      && Get(r, Core_RandomizeInterrupt) == BoolValue(GetBool(s, Game_RandomizeInterrupt(section)))
      && Get(r, Core_CPU_Emulator) == IntValue(GetInt(s, Game_CPU_Emulator(section)))
      && Get(r, Core_CountPerOpDenomPot) == IntValue(GetInt(s, Game_CountPerOpDenomPot(section)))
  {
    if GameOverrides(s, romSettings) {
      var cs := GameCopies(romSettings.value);
      TablesWellFormed(romSettings.value, false);
      GameCopiesTargetsDistinct(romSettings.value);
      CopiesEffect(s, cs, 0);
      CopiesEffect(s, cs, 1);
      CopiesEffect(s, cs, 2);
    }
  }

  /** Every key but the three game-overridable core keys is left as it was. */
  lemma GameOverlayFrame(s: Store, romSettings: Option<string>)
    ensures forall id :: id != Core_RandomizeInterrupt && id != Core_CPU_Emulator && id != Core_CountPerOpDenomPot
                         ==> Get(GameOverlay(s, romSettings), id) == Get(s, id)
  {
    if GameOverrides(s, romSettings) {
      var cs := GameCopies(romSettings.value);
      forall id | id != Core_RandomizeInterrupt && id != Core_CPU_Emulator && id != Core_CountPerOpDenomPot
        ensures Get(GameOverlay(s, romSettings), id) == Get(s, id)
      {
        assert NotTarget(cs, id);
        CopiesFrame(s, cs, id);
      }
    }
  }

  /** The PIF ROM path setting for the ROM's system type. */
  function PifRomPath(s: Store, system: SystemType): string
  {
    GetString(s, if system == NTSC then Core_PIF_NTSC else Core_PIF_PAL)
  }

  /** apply_pif_rom_settings (lines 297-345): the guard chain in order (ROM
      header, CPU emulator below the dynamic recompiler, PIF use enabled,
      file readable), then M64CMD_PIF_OPEN, whose failure sets an error. */
  function PifRomEvents(s: Store, env: StartEnv): (t: seq<Event>)
    ensures t != [] <==>
      && env.romHeader.Some?
      && GetInt(s, Core_CPU_Emulator) < 2
      && GetBool(s, Core_PIF_Use)
      && env.pifReadable(PifRomPath(s, env.romHeader.value))
    ensures t != [] ==> env.romHeader.Some? && t[0] == OpenPifRom(PifRomPath(s, env.romHeader.value))
    ensures |t| <= 2 && (|t| == 2 <==> t != [] && env.pifOpen.Failure?)
    ensures |t| == 2 ==> t[1] == SetError(PIF_OPEN_FAILED + env.pifOpen.message)
    ensures Execute !in t && ShutdownNetplay !in t
  {
    if env.romHeader.None? then []
    else if GetInt(s, Core_CPU_Emulator) >= 2 then []
    else if !GetBool(s, Core_PIF_Use) then []
    else
      var path := PifRomPath(s, env.romHeader.value);
      if !env.pifReadable(path) then []
      else if env.pifOpen.Success? then [OpenPifRom(path)]
      else [OpenPifRom(path), SetError(PIF_OPEN_FAILED + env.pifOpen.message)]
  }

  // ---------------------------------------------------------------------
  // Acquisition and roll-back (lines 371-425)

  const STEPS: nat := 6

  /** The acquisition calls of CoreStartEmulation, in order. */
  function AcquireSteps(rom: string, netplay: bool): (steps: seq<Event>)
    ensures |steps| == STEPS
    ensures Execute !in steps && ShutdownNetplay !in steps
  {
    [OpenRom(rom), ApplyRomPluginSettings, CheckPluginsReady, AttachPlugins,
     if netplay then ApplyNetplayCheats else ApplyCheats, QueryRomType]
  }

  function StepSucceeds(env: StartEnv, netplay: bool, k: nat): bool
    requires k < STEPS
  {
    if k == 0 then env.openRom
    else if k == 1 then env.romPluginSettings
    else if k == 2 then env.pluginsReady
    else if k == 3 then env.attachPlugins
    else if k == 4 then (if netplay then env.netplayCheats else env.localCheats)
    else env.romType.Some?
  }

  /** The index of the first acquisition step that fails, STEPS when none does. */
  function FirstFailure(env: StartEnv, netplay: bool): (f: nat)
    ensures f <= STEPS
    ensures forall k :: 0 <= k < f ==> StepSucceeds(env, netplay, k)
    ensures f < STEPS ==> !StepSucceeds(env, netplay, f)
  {
    if !env.openRom then 0
    else if !env.romPluginSettings then 1
    else if !env.pluginsReady then 2
    else if !env.attachPlugins then 3
    else if !(if netplay then env.netplayCheats else env.localCheats) then 4
    else if env.romType.None? then 5
    else STEPS
  }

  /** The calls each failure branch makes before returning false. */
  function Rollback(f: nat): seq<Event>
  {
    if f == 0 then []
    else if f <= 3 then [ApplyPluginSettings, CloseRom]
    else if f == 4 then [DetachPlugins, ApplyPluginSettings, CloseRom]
    else [ClearCheats, DetachPlugins, ApplyPluginSettings, CloseRom]
  }

  /** The call that releases what an acquisition step took. */
  function Release(e: Event): seq<Event>
  {
    match e
    case OpenRom(_) => [CloseRom]
    case ApplyRomPluginSettings => [ApplyPluginSettings]
    case AttachPlugins => [DetachPlugins]
    case ApplyNetplayCheats => [ClearCheats]
    case ApplyCheats => [ClearCheats]
    case _ => []
  }

  /** Releases of the acquired steps, last acquired first. */
  function ReleaseInReverse(acquired: seq<Event>): seq<Event>
  {
    if acquired == [] then []
    else Release(acquired[|acquired| - 1]) + ReleaseInReverse(acquired[..|acquired| - 1])
  }

  /** Every call an acquisition step attempted, and the branch's roll-back. */
  function AcquireTrace(rom: string, netplay: bool, env: StartEnv): seq<Event>
  {
    var f := FirstFailure(env, netplay);
    if f < STEPS then AcquireSteps(rom, netplay)[..f + 1] + Rollback(f)
    else AcquireSteps(rom, netplay)
  }

  /** Unwind symmetry: a failure at step f releases, last first, exactly
      what the steps before it acquired, and a failure of
      CoreApplyRomPluginSettings also restores the plugin settings it may
      have half applied. */
  lemma UnwindReleasesInReverse(rom: string, netplay: bool, f: nat)
    requires f < STEPS
    ensures Rollback(f) == ReleaseInReverse(AcquireSteps(rom, netplay)[..if f == 1 then 2 else f])
  {
    ReleasePrefix(rom, netplay, if f == 1 then 2 else f);
  }

  /** What releasing the first k acquisition steps, last first, calls. */
  function ReleasedAfter(k: nat): seq<Event>
  {
    if k == 0 then []
    else if k == 1 then [CloseRom]
    else if k <= 3 then [ApplyPluginSettings, CloseRom]
    else if k == 4 then [DetachPlugins, ApplyPluginSettings, CloseRom]
    else [ClearCheats, DetachPlugins, ApplyPluginSettings, CloseRom]
  }

  lemma {:induction false} ReleasePrefix(rom: string, netplay: bool, k: nat)
    requires k < STEPS
    ensures ReleaseInReverse(AcquireSteps(rom, netplay)[..k]) == ReleasedAfter(k)
  {
    var steps := AcquireSteps(rom, netplay);
    match k
    case 0 => assert steps[..0] == [];
    case 1 => ReleasePrefix(rom, netplay, 0); ReleaseStep(steps, 1); assert ReleaseInReverse(steps[..1]) == ReleasedAfter(1);
    case 2 => ReleasePrefix(rom, netplay, 1); ReleaseStep(steps, 2); assert ReleaseInReverse(steps[..2]) == ReleasedAfter(2);
    case 3 => ReleasePrefix(rom, netplay, 2); ReleaseStep(steps, 3); assert ReleaseInReverse(steps[..3]) == ReleasedAfter(3);
    case 4 => ReleasePrefix(rom, netplay, 3); ReleaseStep(steps, 4); assert ReleaseInReverse(steps[..4]) == ReleasedAfter(4);
    case 5 => ReleasePrefix(rom, netplay, 4); ReleaseStep(steps, 5); assert ReleaseInReverse(steps[..5]) == ReleasedAfter(5);
  }

  /** Releasing a prefix one step longer releases that step first. */
  lemma ReleaseStep(acquired: seq<Event>, k: nat)
    requires 0 < k <= |acquired|
    ensures ReleaseInReverse(acquired[..k]) == Release(acquired[k - 1]) + ReleaseInReverse(acquired[..k - 1])
  {
    assert acquired[..k][..k - 1] == acquired[..k - 1];
  }

  /** The release calls of the normal path (lines 536-543). */
  function Teardown(): seq<Event>
  {
    [ClearCheats, DetachPlugins, CloseRom, ApplyPluginSettings, ResetMediaLoader]
  }

  /** The normal teardown releases the same things as the latest failure
      branch, but closes the ROM before restoring the plugin settings. */
  lemma TeardownReleasesEverything()
    ensures multiset(Teardown()[..4]) == multiset(Rollback(5))
    ensures Teardown()[..4] != Rollback(5)
    ensures Teardown()[4] == ResetMediaLoader
  {
    assert Teardown()[..4] == [ClearCheats, DetachPlugins, CloseRom, ApplyPluginSettings];
    assert Teardown()[..4][2] != Rollback(5)[2];
  }

  // ---------------------------------------------------------------------
  // Netplay and running (lines 442-518)

  datatype NetplayStep = NetplayStep(events: seq<Event>, ok: bool)

  /** netplay_ret and the calls of the netplay block. */
  function NetplaySpec(address: string, port: int, player: int, env: StartEnv): (n: NetplayStep)
    ensures address == "" ==> n == NetplayStep([], false)
    ensures address == KAILLERA ==> n.ok == env.kailleraInit
    ensures address != "" && address != KAILLERA ==> n.ok == env.initNetplay
    ensures Execute !in n.events && ShutdownNetplay !in n.events
  {
    if address == "" then NetplayStep([], false)
    else if address == KAILLERA then
      if !env.kailleraInit then NetplayStep([SetError(KAILLERA_NOT_INIT)], false)
      else NetplayStep([SetKailleraPlayerNumber(player)], true)
    else NetplayStep([InitNetplay(address, port, player)], env.initNetplay)
  }

  /** The calls of the run block: the frame counter and sync cache are
      reset and the interceptor installed before the engine executes. */
  function RunEvents(env: StartEnv): (t: seq<Event>)
    ensures |t| >= 3 && t[0] == SetFrameCallback && t[1] == ResetSyncState && t[|t| - 1] == Execute
    ensures Execute in t && Execute !in t[..|t| - 1]
    ensures ShutdownNetplay !in t
  {
    [SetFrameCallback, ResetSyncState]
    + (if env.pifHookAvailable then [InstallPifSyncCallback] else [])
    + [Execute]
  }

  function ExecuteError(r: EngineResult): string
  {
    if r.Success? then "" else EXECUTE_FAILED + r.message
  }

  /** The store CoreStartEmulation leaves: the deterministic layer for a
      Kaillera session and, once acquisition is complete, both overlays. */
  function StartSettings(s: Store, address: string, env: StartEnv): Store
  {
    var s0 := if address == KAILLERA then DeterministicSettings(s, env.windows) else s;
    if FirstFailure(env, address != "") < STEPS then s0 else GameOverlay(CoreOverlay(s0), env.romSettings)
  }

  /** The engine is run when no netplay was asked for or netplay came up. */
  predicate Runs(address: string, port: int, player: int, env: StartEnv)
  {
    address == "" || NetplaySpec(address, port, player, env).ok
  }

  /** The calls after a complete acquisition (lines 427-547): the prelude
      and the finale. */
  function AfterAcquire(s1: Store, ddrom: string, address: string, port: int, player: int,
                        env: StartEnv): seq<Event>
  {
    PreludeEvents(s1, ddrom, address, port, player, env) + FinaleEvents(address, port, player, env)
  }

  /** Lines 427-474: the disk file, the PIF ROM and the netplay block. */
  function PreludeEvents(s1: Store, ddrom: string, address: string, port: int, player: int,
                         env: StartEnv): seq<Event>
  {
    (if env.romType == Some(Cartridge) then [SetDiskFile(ddrom)] else [])
    + PifRomEvents(s1, env) + NetplaySpec(address, port, player, env).events
  }

  /** Lines 476-547: the run, the netplay shutdown, the teardown and the
      final error. */
  function FinaleEvents(address: string, port: int, player: int, env: StartEnv): seq<Event>
  {
    var run := Runs(address, port, player, env);
    (if run then RunEvents(env) else [])
    + (if address != "" && NetplaySpec(address, port, player, env).ok && address != KAILLERA
       then [ShutdownNetplay] else [])
    + Teardown()
    + (if run then [SetError(ExecuteError(env.execute))] else [])
  }

  /** After a complete acquisition, the netplay shutdown is issued exactly
      for a legacy netplay session that came up. */
  lemma AfterAcquireShutdown(s1: Store, ddrom: string, address: string, port: int, player: int,
                             env: StartEnv)
    ensures ShutdownNetplay in AfterAcquire(s1, ddrom, address, port, player, env) <==>
      address != "" && address != KAILLERA && env.initNetplay
  {
    var run := Runs(address, port, player, env);
    var shutdown := address != "" && NetplaySpec(address, port, player, env).ok && address != KAILLERA;
    var final := if run then [SetError(ExecuteError(env.execute))] else [];
    assert ShutdownNetplay !in PreludeEvents(s1, ddrom, address, port, player, env);
    assert ShutdownNetplay !in Teardown() && ShutdownNetplay !in final;
    assert ShutdownNetplay !in (if run then RunEvents(env) else []);
  }

  /** The calls CoreStartEmulation makes, in order. */
  function StartTrace(s: Store, rom: string, ddrom: string, address: string, port: int, player: int,
                      env: StartEnv): seq<Event>
  {
    var acquire := AcquireTrace(rom, address != "", env);
    if FirstFailure(env, address != "") < STEPS then acquire
    else acquire + AfterAcquire(StartSettings(s, address, env), ddrom, address, port, player, env)
  }

  /** CoreStartEmulation's return value. */
  predicate StartResult(address: string, port: int, player: int, env: StartEnv)
  {
    FirstFailure(env, address != "") == STEPS && Runs(address, port, player, env) && env.execute.Success?
  }

  lemma AppendAssociative(a: seq<Event>, b: seq<Event>, c: seq<Event>)
    ensures a + b + c == a + (b + c)
  {
  }

  /** A failed acquisition returns false without running the engine: the
      trace is the attempted steps followed by their roll-back. */
  lemma FailedStartNeverExecutes(s: Store, rom: string, ddrom: string, address: string, port: int,
                                 player: int, env: StartEnv)
    requires FirstFailure(env, address != "") < STEPS
    ensures !StartResult(address, port, player, env)
    ensures var t, f, steps := StartTrace(s, rom, ddrom, address, port, player, env),
                               FirstFailure(env, address != ""), AcquireSteps(rom, address != "");
      && Execute !in t
      && t == steps[..f + 1] + ReleaseInReverse(steps[..if f == 1 then 2 else f])
  {
    var f := FirstFailure(env, address != "");
    UnwindReleasesInReverse(rom, address != "", f);
    var steps := AcquireSteps(rom, address != "");
    assert forall x :: x in steps[..f + 1] ==> x in steps;
    assert Execute !in Rollback(f);
  }

  /** The engine runs exactly when acquisition succeeded and netplay, if
      requested, came up; the return value is the run's success. */
  lemma ExecuteOnlyWhenNetplayReady(s: Store, rom: string, ddrom: string, address: string, port: int,
                                    player: int, env: StartEnv)
    ensures var ready := FirstFailure(env, address != "") == STEPS
                         && (address == "" || (if address == KAILLERA then env.kailleraInit else env.initNetplay));
      && (Execute in StartTrace(s, rom, ddrom, address, port, player, env) <==> ready)
      && (StartResult(address, port, player, env) <==> ready && env.execute.Success?)
  {
    if FirstFailure(env, address != "") < STEPS {
      FailedStartNeverExecutes(s, rom, ddrom, address, port, player, env);
    }
  }

  /** Only legacy netplay is shut down after the run; a Kaillera session
      stays connected for a restart. */
  lemma OnlyLegacyNetplayShutsDown(s: Store, rom: string, ddrom: string, address: string, port: int,
                                   player: int, env: StartEnv)
    ensures ShutdownNetplay in StartTrace(s, rom, ddrom, address, port, player, env) <==>
      FirstFailure(env, address != "") == STEPS && address != "" && address != KAILLERA && env.initNetplay
  {
    var f := FirstFailure(env, address != "");
    if f < STEPS {
      var steps := AcquireSteps(rom, address != "");
      assert forall x :: x in steps[..f + 1] ==> x in steps;
      assert ShutdownNetplay !in Rollback(f);
    } else {
      AfterAcquireShutdown(StartSettings(s, address, env), ddrom, address, port, player, env);
    }
  }

  /** The engine error is set last: once the engine has run, the error left
      behind is the run's own (empty on success), whatever the PIF ROM open
      or any earlier call reported. */
  lemma ErrorSetLast(d: string, s: Store, rom: string, ddrom: string, address: string, port: int,
                     player: int, env: StartEnv)
    requires Execute in StartTrace(s, rom, ddrom, address, port, player, env)
    ensures LastError(d, StartTrace(s, rom, ddrom, address, port, player, env)) == ExecuteError(env.execute)
  {
    ExecuteOnlyWhenNetplayReady(s, rom, ddrom, address, port, player, env);
  }

  /** The converse: the engine error is set only when the engine ran. A
      start that never executes leaves the error of its acquisition, PIF
      ROM and netplay calls, provided the teardown calls record none of
      their own (their internal errors are not events of this model). */
  lemma ErrorWithoutExecute(d: string, s: Store, rom: string, ddrom: string, address: string, port: int,
                            player: int, env: StartEnv)
    requires FirstFailure(env, address != "") == STEPS
    requires Execute !in StartTrace(s, rom, ddrom, address, port, player, env)
    ensures LastError(d, StartTrace(s, rom, ddrom, address, port, player, env))
      == LastError(d, AcquireTrace(rom, address != "", env)
                      + PreludeEvents(StartSettings(s, address, env), ddrom, address, port, player, env))
  {
    StartTraceSplit(s, rom, ddrom, address, port, player, env);
    FinaleWithoutExecuteKeepsError(d, AcquireTrace(rom, address != "", env)
                                      + PreludeEvents(StartSettings(s, address, env), ddrom, address, port, player, env),
                                   address, port, player, env);
  }

  /** A finale that does not execute sets no error. */
  lemma FinaleWithoutExecuteKeepsError(d: string, before: seq<Event>, address: string, port: int, player: int,
                                       env: StartEnv)
    requires Execute !in before + FinaleEvents(address, port, player, env)
    ensures LastError(d, before + FinaleEvents(address, port, player, env)) == LastError(d, before)
  {
    var finale := FinaleEvents(address, port, player, env);
    RunExecutes(address, port, player, env, before);
    FinaleWithoutRun(address, port, player, env);
    LastErrorAppend(d, before, finale);
    LastErrorWithoutSetError(LastError(d, before), finale);
  }

  /** After a full acquisition the start trace is the acquisition and the
      prelude, then the finale. */
  lemma StartTraceSplit(s: Store, rom: string, ddrom: string, address: string, port: int,
                        player: int, env: StartEnv)
    requires FirstFailure(env, address != "") == STEPS
    ensures StartTrace(s, rom, ddrom, address, port, player, env)
      == (AcquireTrace(rom, address != "", env)
          + PreludeEvents(StartSettings(s, address, env), ddrom, address, port, player, env))
         + FinaleEvents(address, port, player, env)
  {
    AppendAssociative(AcquireTrace(rom, address != "", env),
                      PreludeEvents(StartSettings(s, address, env), ddrom, address, port, player, env),
                      FinaleEvents(address, port, player, env));
  }

  /** Once the engine runs, Execute follows whatever came before the finale. */
  lemma RunExecutes(address: string, port: int, player: int, env: StartEnv, before: seq<Event>)
    ensures Runs(address, port, player, env) ==> Execute in before + FinaleEvents(address, port, player, env)
  {
    if Runs(address, port, player, env) {
      var t := before + FinaleEvents(address, port, player, env);
      var run := RunEvents(env);
      assert t[|before| + |run| - 1] == Execute;
    }
  }

  /** Without a run, the finale is the teardown alone. */
  lemma FinaleWithoutRun(address: string, port: int, player: int, env: StartEnv)
    ensures !Runs(address, port, player, env) ==> FinaleEvents(address, port, player, env) == Teardown()
  {
  }

  /** A Kaillera start without an initialised Kaillera client ends with
      the Kaillera error, not an engine error, when no teardown call
      records an error of its own. */
  lemma KailleraNotInitErrorSurvives(d: string, s: Store, rom: string, ddrom: string, port: int,
                                     player: int, env: StartEnv)
    requires FirstFailure(env, true) == STEPS && !env.kailleraInit
    ensures Execute !in StartTrace(s, rom, ddrom, KAILLERA, port, player, env)
    ensures LastError(d, StartTrace(s, rom, ddrom, KAILLERA, port, player, env)) == KAILLERA_NOT_INIT
  {
    ExecuteOnlyWhenNetplayReady(s, rom, ddrom, KAILLERA, port, player, env);
    ErrorWithoutExecute(d, s, rom, ddrom, KAILLERA, port, player, env);
    KailleraPreludeError(d, AcquireTrace(rom, true, env), StartSettings(s, KAILLERA, env), ddrom, port, player, env);
  }

  /** Without an initialised Kaillera client the prelude ends by setting
      the Kaillera error. */
  lemma KailleraPreludeError(d: string, before: seq<Event>, s1: Store, ddrom: string, port: int, player: int,
                             env: StartEnv)
    requires !env.kailleraInit
    ensures LastError(d, before + PreludeEvents(s1, ddrom, KAILLERA, port, player, env)) == KAILLERA_NOT_INIT
  {
    var pre := before + (if env.romType == Some(Cartridge) then [SetDiskFile(ddrom)] else []) + PifRomEvents(s1, env);
    assert before + PreludeEvents(s1, ddrom, KAILLERA, port, player, env) == pre + [SetError(KAILLERA_NOT_INIT)];
  }

  /** The deterministic Kaillera layer is written before the overlays and
      is overwritten by them: on every key but the RSP plugin, the store
      after both overlays is the one the overlays give without the layer. */
  lemma DeterministicLayerOverwritten(s: Store, windows: bool, romSettings: Option<string>)
    ensures var r := GameOverlay(CoreOverlay(DeterministicSettings(s, windows)), romSettings);
      && (forall id :: id != Core_RSP_Plugin ==> Get(r, id) == Get(GameOverlay(CoreOverlay(s), romSettings), id))
      && Get(r, Core_RSP_Plugin) == StringValue(RspPluginName(windows))
  {
    var o1 := CoreOverlay(DeterministicSettings(s, windows));
    CoreOverlayOverwritesDeterministic(s, windows);
    GameOverlayRespectsAgreement(o1, CoreOverlay(s), romSettings, Core_RSP_Plugin);
    GameOverlayFrame(o1, romSettings);
  }

  /** The core overlay alone already overwrites the deterministic layer on
      every key but the RSP plugin. */
  lemma CoreOverlayOverwritesDeterministic(s: Store, windows: bool)
    ensures var o1, p1 := CoreOverlay(DeterministicSettings(s, windows)), CoreOverlay(s);
      && (forall id :: id != Core_RSP_Plugin ==> Get(o1, id) == Get(p1, id))
      && Get(o1, Core_RSP_Plugin) == StringValue(RspPluginName(windows))
  {
    var ws := DeterministicWrites(windows);
    var d := ApplyWrites(s, ws);
    var o1, p1 := CoreOverlay(d), CoreOverlay(s);
    TablesWellFormed("", windows);
    forall id | id != Core_RSP_Plugin
      ensures Get(o1, id) == Get(p1, id)
    {
      if NotTarget(CORE_OVERLAY, id) {
        // the overlay leaves the key alone, and so does the layer
        CopiesFrame(d, CORE_OVERLAY, id);
        CopiesFrame(s, CORE_OVERLAY, id);
        DeterministicKeysOverlaid(windows, id);
        WritesFrame(s, ws, id);
      } else {
        var j :| 0 <= j < |CORE_OVERLAY| && CORE_OVERLAY[j].target == id;
        CopiesOverwriteWrites(s, ws, CORE_OVERLAY, j);
      }
    }
    CopiesFrame(d, CORE_OVERLAY, Core_RSP_Plugin);
    WritesLast(s, ws, 5);
  }

  /** Every key the deterministic layer writes but the RSP plugin is one
      the core overlay writes too. */
  lemma DeterministicKeysOverlaid(windows: bool, id: SettingsID)
    requires NotTarget(CORE_OVERLAY, id) && id != Core_RSP_Plugin
    ensures NotWritten(DeterministicWrites(windows), id)
  {
    assert CORE_OVERLAY[0].target != id && CORE_OVERLAY[1].target != id && CORE_OVERLAY[4].target != id
        && CORE_OVERLAY[5].target != id && CORE_OVERLAY[6].target != id;
  }

  /** Two stores that agree on every key but `except` still do after the
      game overlay, provided the game's section is not `except`. */
  lemma GameOverlayRespectsAgreement(a: Store, b: Store, romSettings: Option<string>, except: SettingsID)
    requires IsCoreKey(except)
    requires forall id :: id != except ==> Get(a, id) == Get(b, id)
    ensures forall id :: id != except ==> Get(GameOverlay(a, romSettings), id) == Get(GameOverlay(b, romSettings), id)
  {
    if romSettings.Some? {
      var cs := GameCopies(romSettings.value);
      TablesWellFormed(romSettings.value, false);
      assert Get(a, Game_OverrideCoreSettings(romSettings.value)) == Get(b, Game_OverrideCoreSettings(romSettings.value));
      if GameOverrides(a, romSettings) {
        assert forall i :: 0 <= i < |cs| ==> Get(a, cs[i].source) == Get(b, cs[i].source);
        forall id | id != except
          ensures Get(ApplyCopies(a, cs), id) == Get(ApplyCopies(b, cs), id)
        {
          if NotTarget(cs, id) {
            CopiesFrame(a, cs, id);
            CopiesFrame(b, cs, id);
          } else {
            var j :| 0 <= j < |cs| && cs[j].target == id;
            CopiesAgree(a, b, cs, j);
          }
        }
      }
    }
  }

  /** After a Kaillera start that got past acquisition, every setting but
      the RSP plugin is what it would have been without the deterministic
      layer; only the RSP plugin keeps the layer's value. */
  lemma KailleraDeterminismOverwritten(s: Store, env: StartEnv)
    requires FirstFailure(env, true) == STEPS
    ensures var r := StartSettings(s, KAILLERA, env);
      && (forall id :: id != Core_RSP_Plugin ==> Get(r, id) == Get(GameOverlay(CoreOverlay(s), env.romSettings), id))
      && Get(r, Core_RSP_Plugin) == StringValue(RspPluginName(env.windows))
  {
    DeterministicLayerOverwritten(s, env.windows, env.romSettings);
  }

  /** The effective CPU emulator of a Kaillera session is the game's or the
      overlay's choice, not the pure interpreter the deterministic layer
      asked for, and that is the value the PIF ROM guard reads. */
  lemma KailleraCpuEmulatorFromOverlay(s: Store, env: StartEnv)
    requires FirstFailure(env, true) == STEPS
    ensures GetInt(StartSettings(s, KAILLERA, env), Core_CPU_Emulator)
      == if GameOverrides(s, env.romSettings) then GetInt(s, Game_CPU_Emulator(env.romSettings.value))
         else GetInt(s, CoreOverlay_CPU_Emulator)
  {
    var r := GameOverlay(CoreOverlay(DeterministicSettings(s, env.windows)), env.romSettings);
    assert StartSettings(s, KAILLERA, env) == r;
    DeterministicLayerOverwritten(s, env.windows, env.romSettings);
    assert Get(r, Core_CPU_Emulator) == Get(GameOverlay(CoreOverlay(s), env.romSettings), Core_CPU_Emulator);
    CpuEmulatorAfterOverlays(s, env.romSettings);
  }

  /** Both overlays: the CPU emulator is the game's when it overrides the
      core settings, the overlay's otherwise. */
  lemma CpuEmulatorAfterOverlays(s: Store, romSettings: Option<string>)
    ensures GetInt(GameOverlay(CoreOverlay(s), romSettings), Core_CPU_Emulator)
      == if GameOverrides(s, romSettings) then GetInt(s, Game_CPU_Emulator(romSettings.value))
         else GetInt(s, CoreOverlay_CPU_Emulator)
  {
    var p1 := CoreOverlay(s);
    if romSettings.Some? {
      CoreOverlayKeeps(s, Game_OverrideCoreSettings(romSettings.value));
      CoreOverlayKeeps(s, Game_CPU_Emulator(romSettings.value));
    }
    CoreOverlayEffect(s);
    GameOverlayEffect(p1, romSettings);
    if romSettings.Some? {
      assert Get(p1, Game_OverrideCoreSettings(romSettings.value))
          == Get(s, Game_OverrideCoreSettings(romSettings.value));
      assert Get(p1, Game_CPU_Emulator(romSettings.value)) == Get(s, Game_CPU_Emulator(romSettings.value));
    }
  }

  /** The deterministic values are not rolled back when the ROM fails to open. */
  lemma DeterministicLayerSurvivesFailedOpen(s: Store, rom: string, ddrom: string, port: int, player: int,
                                             env: StartEnv)
    requires !env.openRom
    ensures StartTrace(s, rom, ddrom, KAILLERA, port, player, env) == [OpenRom(rom)]
    ensures !StartResult(KAILLERA, port, player, env)
    ensures GetInt(StartSettings(s, KAILLERA, env), Core_CPU_Emulator) == 0
    ensures !GetBool(StartSettings(s, KAILLERA, env), Core_RandomizeInterrupt)
  {
    assert AcquireSteps(rom, true)[..1] == [OpenRom(rom)];
    DeterministicSettingsEffect(s, env.windows);
  }

  // ---------------------------------------------------------------------
  // Engine commands (lines 559-689)

  datatype CommandOutcome = CommandOutcome(trace: seq<Event>, result: bool)

  /** get_emulation_state: no query without a hooked core; a failed query
      sets an error. */
  function QueryEvents(hooked: bool, q: Query): seq<Event>
  {
    if !hooked then []
    else [StateQuery] + (if q.QueryFailed? then [SetError(STATE_QUERY_FAILED + q.message)] else [])
  }

  function CommandError(prefix: string, r: EngineResult): seq<Event>
  {
    if r.Success? then [] else [SetError(prefix + r.message)]
  }

  /** CoreStopEmulation: the player number is cleared only after a
      successful stop command. */
  function StopSpec(hooked: bool, cmd: EngineResult): (o: CommandOutcome)
    ensures o.result <==> hooked && cmd.Success?
    ensures StopCommand in o.trace <==> hooked
    ensures SetKailleraPlayerNumber(0) in o.trace <==> o.result
  {
    if !hooked then CommandOutcome([], false)
    else if cmd.Failure? then CommandOutcome([StopCommand, SetError(STOP_FAILED + cmd.message)], false)
    else CommandOutcome([StopCommand, SetKailleraPlayerNumber(0)], true)
  }

  /** CorePauseEmulation: refused without a hooked core, while netplay or
      Kaillera is up, and (with an error) unless the engine is running. */
  function PauseSpec(hooked: bool, netplayInit: bool, kailleraInit: bool, q: Query,
                     cmd: EngineResult): (o: CommandOutcome)
    ensures PauseCommand in o.trace <==> hooked && !netplayInit && !kailleraInit && q == QueryOk(Running)
    ensures o.result <==> hooked && !netplayInit && !kailleraInit && q == QueryOk(Running) && cmd.Success?
    ensures hooked && !netplayInit && !kailleraInit && q != QueryOk(Running)
      ==> o.trace != [] && o.trace[|o.trace| - 1] == SetError(PAUSE_NOT_RUNNING)
  {
    if !hooked then CommandOutcome([], false)
    else if netplayInit || kailleraInit then CommandOutcome([], false)
    else if !(hooked && q == QueryOk(Running)) then
      CommandOutcome(QueryEvents(hooked, q) + [SetError(PAUSE_NOT_RUNNING)], false)
    else CommandOutcome(QueryEvents(hooked, q) + [PauseCommand] + CommandError(PAUSE_FAILED, cmd), cmd.Success?)
  }

  /** CoreResumeEmulation: the same guards, with Paused in place of Running. */
  function ResumeSpec(hooked: bool, netplayInit: bool, kailleraInit: bool, q: Query,
                      cmd: EngineResult): (o: CommandOutcome)
    ensures ResumeCommand in o.trace <==> hooked && !netplayInit && !kailleraInit && q == QueryOk(Paused)
    ensures o.result <==> hooked && !netplayInit && !kailleraInit && q == QueryOk(Paused) && cmd.Success?
    ensures hooked && !netplayInit && !kailleraInit && q != QueryOk(Paused)
      ==> o.trace != [] && o.trace[|o.trace| - 1] == SetError(RESUME_NOT_PAUSED)
  {
    if !hooked then CommandOutcome([], false)
    else if netplayInit || kailleraInit then CommandOutcome([], false)
    else if !(hooked && q == QueryOk(Paused)) then
      CommandOutcome(QueryEvents(hooked, q) + [SetError(RESUME_NOT_PAUSED)], false)
    else CommandOutcome(QueryEvents(hooked, q) + [ResumeCommand] + CommandError(RESUME_FAILED, cmd), cmd.Success?)
  }

  /** CoreResetEmulation: the paused check comes first, against the first
      state query; the running check uses a second query. Netplay does not
      block a reset. */
  function ResetSpec(hooked: bool, q1: Query, q2: Query, hard: bool, cmd: EngineResult): (o: CommandOutcome)
    ensures ResetCommand(hard) in o.trace <==> hooked && q1 != QueryOk(Paused) && q2 == QueryOk(Running)
    ensures o.result <==> hooked && q1 != QueryOk(Paused) && q2 == QueryOk(Running) && cmd.Success?
    ensures hooked && q1 == QueryOk(Paused) ==> o.trace == [StateQuery, SetError(RESET_PAUSED)]
    ensures hooked && q1 != QueryOk(Paused) && q2 != QueryOk(Running)
      ==> o.trace != [] && o.trace[|o.trace| - 1] == SetError(RESET_NOT_RUNNING)
  {
    if !hooked then CommandOutcome([], false)
    else if hooked && q1 == QueryOk(Paused) then
      CommandOutcome(QueryEvents(hooked, q1) + [SetError(RESET_PAUSED)], false)
    else if !(hooked && q2 == QueryOk(Running)) then
      CommandOutcome(QueryEvents(hooked, q1) + QueryEvents(hooked, q2) + [SetError(RESET_NOT_RUNNING)], false)
    else
      CommandOutcome(QueryEvents(hooked, q1) + QueryEvents(hooked, q2) + [ResetCommand(hard)]
                     + CommandError(RESET_FAILED, cmd), cmd.Success?)
  }

  /** After a stop, the player number is 0 exactly when the stop succeeded. */
  lemma StopClearsPlayerNumberOnSuccess(d: int, log: seq<Event>, hooked: bool, cmd: EngineResult)
    ensures LastPlayerNumber(d, log + StopSpec(hooked, cmd).trace)
      == if StopSpec(hooked, cmd).result then 0 else LastPlayerNumber(d, log)
  {
    var t := StopSpec(hooked, cmd).trace;
    LastPlayerNumberAppend(d, log, t);
    if hooked && cmd.Failure? {
      var x := LastPlayerNumber(d, log);
      assert t[..1] == [StopCommand] && [StopCommand][..0] == [];
      assert LastPlayerNumber(x, [StopCommand]) == x;
      assert LastPlayerNumber(x, t) == x;
    } else if hooked {
      assert LastPlayerNumber(LastPlayerNumber(d, log), t) == 0;
    } else {
      assert t == [];
    }
  }

  // ---------------------------------------------------------------------
  // The session as state

  class CoreSession {
    var settings: Store
    /** Every collaborator call made so far, oldest first. */
    ghost var log: seq<Event>

    constructor (store: Store)
      ensures settings == store && log == []
    {
      settings := store;
      log := [];
    }

    /** CoreGetError: the message of the latest CoreSetError. */
    ghost function Error(): string
      reads this
    {
      LastError("", log)
    }

    /** CoreGetKailleraPlayerNumber: the latest number stored. */
    ghost function KailleraPlayerNumber(): int
      reads this
    {
      LastPlayerNumber(0, log)
    }

    method ApplyKailleraDeterministicSettings(windows: bool)
      modifies this`settings
      ensures settings == DeterministicSettings(old(settings), windows)
    {
      ghost var s0, ws := settings, DeterministicWrites(windows);
      settings := Set(settings, Core_RandomizeInterrupt, BoolValue(false));
      ApplyWritesStep(s0, ws, 0);
      settings := Set(settings, Core_CPU_Emulator, IntValue(0));
      ApplyWritesStep(s0, ws, 1);
      settings := Set(settings, Core_CountPerOp, IntValue(0));
      ApplyWritesStep(s0, ws, 2);
      settings := Set(settings, Core_CountPerOpDenomPot, IntValue(0));
      ApplyWritesStep(s0, ws, 3);
      settings := Set(settings, Core_SiDmaDuration, IntValue(-1));
      ApplyWritesStep(s0, ws, 4);
      settings := Set(settings, Core_RSP_Plugin, StringValue(RspPluginName(windows)));
      ApplyWritesStep(s0, ws, 5);
      ApplyWritesAll(s0, ws);
    }

    /** CoreSettingsSetValue(c.target, CoreSettingsGet<kind>Value(c.source)). */
    method CopySetting(c: Copy)
      modifies this`settings
      ensures settings == CopyOne(old(settings), c)
    {
      var v := Get(settings, c.source);
      settings := Set(settings, c.target, Convert(v, c.kind));
    }

    /** Each value is read just before its write, as the source does. */
    method ApplyCoreSettingsOverlay()
      modifies this`settings
      ensures settings == CoreOverlay(old(settings))
    {
      ghost var s0, cs := settings, CORE_OVERLAY;
      CopySetting(Copy(Core_RandomizeInterrupt, CoreOverlay_RandomizeInterrupt, BoolKind));
      ApplyCopiesStep(s0, cs, 0);
      CopySetting(Copy(Core_CPU_Emulator, CoreOverlay_CPU_Emulator, IntKind));
      ApplyCopiesStep(s0, cs, 1);
      CopySetting(Copy(Core_DisableExtraMem, CoreOverlay_DisableExtraMem, BoolKind));
      ApplyCopiesStep(s0, cs, 2);
      CopySetting(Copy(Core_EnableDebugger, CoreOverlay_EnableDebugger, BoolKind));
      ApplyCopiesStep(s0, cs, 3);
      CopySetting(Copy(Core_CountPerOp, CoreOverlay_CountPerOp, IntKind));
      ApplyCopiesStep(s0, cs, 4);
      CopySetting(Copy(Core_CountPerOpDenomPot, CoreOverlay_CountPerOpDenomPot, IntKind));
      ApplyCopiesStep(s0, cs, 5);
      CopySetting(Copy(Core_SiDmaDuration, CoreOverlay_SiDmaDuration, IntKind));
      ApplyCopiesStep(s0, cs, 6);
      CopySetting(Copy(Core_SaveFileNameFormat, CoreOverLay_SaveFileNameFormat, IntKind));
      ApplyCopiesStep(s0, cs, 7);
      CopySetting(Copy(Core_GbCameraVideoCaptureBackend1, CoreOverlay_GbCameraVideoCaptureBackend1, StringKind));
      ApplyCopiesStep(s0, cs, 8);
      ApplyCopiesAll(s0, cs);
    }

    method ApplyGameCoreSettingsOverlay(romSettings: Option<string>)
      modifies this`settings
      ensures settings == GameOverlay(old(settings), romSettings)
    {
      if romSettings.None? {
        return;
      }
      var section := romSettings.value;
      if !GetBool(settings, Game_OverrideCoreSettings(section)) {
        return;
      }
      ghost var s0, cs := settings, GameCopies(section);
      settings := Set(settings, Core_RandomizeInterrupt, BoolValue(GetBool(settings, Game_RandomizeInterrupt(section))));
      ApplyCopiesStep(s0, cs, 0);
      settings := Set(settings, Core_CPU_Emulator, IntValue(GetInt(settings, Game_CPU_Emulator(section))));
      ApplyCopiesStep(s0, cs, 1);
      settings := Set(settings, Core_CountPerOpDenomPot, IntValue(GetInt(settings, Game_CountPerOpDenomPot(section))));
      ApplyCopiesStep(s0, cs, 2);
      ApplyCopiesAll(s0, cs);
    }

    method ApplyPifRomSettings(env: StartEnv)
      modifies this`log
      ensures log == old(log) + PifRomEvents(settings, env)
    {
      if env.romHeader.None? {
        return;
      }
      var cpuEmulator := GetInt(settings, Core_CPU_Emulator);
      if cpuEmulator >= 2 {
        return;
      }
      var usePifRom := GetBool(settings, Core_PIF_Use);
      if !usePifRom {
        return;
      }
      var path := PifRomPath(settings, env.romHeader.value);
      if !env.pifReadable(path) {
        return;
      }
      if env.pifOpen.Failure? {
        log := log + [OpenPifRom(path), SetError(PIF_OPEN_FAILED + env.pifOpen.message)];
      } else {
        log := log + [OpenPifRom(path)];
      }
    }

    /** Lines 371-425: the acquisition steps, each failure branch releasing
        what it must and returning false. */
    method Acquire(rom: string, netplay: bool, env: StartEnv) returns (ok: bool)
      modifies this`log
      ensures ok == (FirstFailure(env, netplay) == STEPS)
      ensures log == old(log) + AcquireTrace(rom, netplay, env)
    {
      ghost var steps := AcquireSteps(rom, netplay);
      if !env.openRom {
        log := log + [OpenRom(rom)];
        assert steps[..1] == [OpenRom(rom)];
        return false;
      }
      if !env.romPluginSettings {
        log := log + [OpenRom(rom), ApplyRomPluginSettings, ApplyPluginSettings, CloseRom];
        assert steps[..2] + Rollback(1) == [OpenRom(rom), ApplyRomPluginSettings, ApplyPluginSettings, CloseRom];
        return false;
      }
      if !env.pluginsReady {
        log := log + [OpenRom(rom), ApplyRomPluginSettings, CheckPluginsReady, ApplyPluginSettings, CloseRom];
        assert steps[..3] + Rollback(2) == [OpenRom(rom), ApplyRomPluginSettings, CheckPluginsReady, ApplyPluginSettings, CloseRom];
        return false;
      }
      ghost var attached := [OpenRom(rom), ApplyRomPluginSettings, CheckPluginsReady, AttachPlugins];
      if !env.attachPlugins {
        log := log + attached + [ApplyPluginSettings, CloseRom];
        assert steps[..4] == attached;
        return false;
      }
      var cheats := if netplay then ApplyNetplayCheats else ApplyCheats;
      if !(if netplay then env.netplayCheats else env.localCheats) {
        log := log + attached + [cheats, DetachPlugins, ApplyPluginSettings, CloseRom];
        assert steps[..5] == attached + [cheats];
        return false;
      }
      if env.romType.None? {
        log := log + attached + [cheats, QueryRomType, ClearCheats, DetachPlugins, ApplyPluginSettings, CloseRom];
        assert steps[..6] == attached + [cheats, QueryRomType];
        return false;
      }
      log := log + attached + [cheats, QueryRomType];
      ok := true;
    }

    /** Lines 442-472: the netplay block. */
    method StartNetplay(address: string, port: int, player: int, env: StartEnv) returns (netplayOk: bool)
      modifies this`log
      ensures netplayOk == NetplaySpec(address, port, player, env).ok
      ensures log == old(log) + NetplaySpec(address, port, player, env).events
    {
      netplayOk := false;
      if address != "" {
        if address == KAILLERA {
          if !env.kailleraInit {
            log := log + [SetError(KAILLERA_NOT_INIT)];
            netplayOk := false;
          } else {
            log := log + [SetKailleraPlayerNumber(player)];
            netplayOk := true;
          }
        } else {
          log := log + [InitNetplay(address, port, player)];
          netplayOk := env.initNetplay;
        }
      }
    }

    /** Lines 476-518: reset the frame clock and sync cache, install the
        interceptor when the engine offers the hook, execute. */
    method Run(env: StartEnv) returns (error: string)
      modifies this`log
      ensures log == old(log) + RunEvents(env)
      ensures error == ExecuteError(env.execute)
    {
      log := log + [SetFrameCallback, ResetSyncState];
      if env.pifHookAvailable {
        log := log + [InstallPifSyncCallback];
      }
      log := log + [Execute];
      error := if env.execute.Success? then "" else EXECUTE_FAILED + env.execute.message;
    }

    /** CoreStartEmulation: the deterministic layer for Kaillera, then the
        acquisition, which on failure has already rolled back. */
    method Start(rom: string, ddrom: string, address: string, port: int, player: int, env: StartEnv)
      returns (ok: bool)
      modifies this
      ensures log == old(log) + StartTrace(old(settings), rom, ddrom, address, port, player, env)
      ensures settings == StartSettings(old(settings), address, env)
      ensures ok == StartResult(address, port, player, env)
    {
      var netplay := address != "";
      if netplay && address == KAILLERA {
        ApplyKailleraDeterministicSettings(env.windows);
      }
      ghost var log0 := log;
      var acquired := Acquire(rom, netplay, env);
      if !acquired {
        return false;
      }
      ghost var log1 := log;
      ok := StartAcquired(ddrom, address, port, player, env);
      AppendAssociative(log0, AcquireTrace(rom, netplay, env), AfterAcquire(settings, ddrom, address, port, player, env));
    }

    /** Lines 427-547, run once acquisition is complete. */
    method StartAcquired(ddrom: string, address: string, port: int, player: int, env: StartEnv)
      returns (ok: bool)
      modifies this
      ensures settings == GameOverlay(CoreOverlay(old(settings)), env.romSettings)
      ensures log == old(log) + AfterAcquire(settings, ddrom, address, port, player, env)
      ensures ok == (Runs(address, port, player, env) && env.execute.Success?)
    {
      ghost var log0 := log;
      var netplayOk := StartPrelude(ddrom, address, port, player, env);
      ghost var prelude := PreludeEvents(settings, ddrom, address, port, player, env);
      ok := StartFinale(address, port, player, netplayOk, env);
      AppendAssociative(log0, prelude, FinaleEvents(address, port, player, env));
    }

    /** Lines 427-474: the disk file, both overlays, the PIF ROM and netplay. */
    method StartPrelude(ddrom: string, address: string, port: int, player: int, env: StartEnv)
      returns (netplayOk: bool)
      modifies this
      ensures settings == GameOverlay(CoreOverlay(old(settings)), env.romSettings)
      ensures log == old(log) + PreludeEvents(settings, ddrom, address, port, player, env)
      ensures netplayOk == NetplaySpec(address, port, player, env).ok
    {
      ghost var log0 := log;
      ghost var disk: seq<Event> := if env.romType == Some(Cartridge) then [SetDiskFile(ddrom)] else [];
      if env.romType == Some(Cartridge) {
        log := log + [SetDiskFile(ddrom)];
      }
      ApplyCoreSettingsOverlay();
      ApplyGameCoreSettingsOverlay(env.romSettings);
      assert log == log0 + disk;
      ApplyPifRomSettings(env);
      AppendAssociative(log0, disk, PifRomEvents(settings, env));
      assert log == log0 + (disk + PifRomEvents(settings, env));
      netplayOk := StartNetplay(address, port, player, env);
      AppendAssociative(log0, disk + PifRomEvents(settings, env), NetplaySpec(address, port, player, env).events);
    }

    /** Lines 476-547: run when netplay was not asked for or came up, then
        shut legacy netplay down, release, and set the run's error. */
    method StartFinale(address: string, port: int, player: int, netplayOk: bool, env: StartEnv)
      returns (ok: bool)
      requires netplayOk == NetplaySpec(address, port, player, env).ok
      modifies this`log
      ensures log == old(log) + FinaleEvents(address, port, player, env)
      ensures ok == (Runs(address, port, player, env) && env.execute.Success?)
    {
      ghost var log0 := log;
      var netplay := address != "";
      var run := !netplay || netplayOk;
      var error := "";
      if run {
        error := Run(env);
      }
      ghost var t := if run then RunEvents(env) else [];
      assert log == log0 + t;
      ghost var shutdown := if netplay && netplayOk && address != KAILLERA then [ShutdownNetplay] else [];
      if netplay && netplayOk && address != KAILLERA {
        log := log + [ShutdownNetplay];
      }
      AppendAssociative(log0, t, shutdown);
      t := t + shutdown;
      assert log == log0 + t;
      log := log + Teardown();
      AppendAssociative(log0, t, Teardown());
      t := t + Teardown();
      assert log == log0 + t;
      ghost var final := if run then [SetError(error)] else [];
      if run {
        log := log + [SetError(error)];
      }
      AppendAssociative(log0, t, final);
      ok := run && env.execute.Success?;
    }

    /** get_emulation_state followed by the state comparison of
        CoreIsEmulationRunning / CoreIsEmulationPaused. */
    method IsEmulationIn(hooked: bool, q: Query, st: EmuState) returns (inState: bool)
      modifies this`log
      ensures log == old(log) + QueryEvents(hooked, q)
      ensures inState == (hooked && q == QueryOk(st))
    {
      if !hooked {
        return false;
      }
      if q.QueryFailed? {
        log := log + [StateQuery, SetError(STATE_QUERY_FAILED + q.message)];
        return false;
      }
      log := log + [StateQuery];
      inState := q.state == st;
    }

    /** CoreStopEmulation. */
    method Stop(hooked: bool, cmd: EngineResult) returns (ok: bool)
      modifies this`log
      ensures log == old(log) + StopSpec(hooked, cmd).trace
      ensures ok == StopSpec(hooked, cmd).result
    {
      if !hooked {
        return false;
      }
      if cmd.Failure? {
        log := log + [StopCommand, SetError(STOP_FAILED + cmd.message)];
        return false;
      }
      log := log + [StopCommand, SetKailleraPlayerNumber(0)];
      ok := true;
    }

    /** CorePauseEmulation. */
    method Pause(hooked: bool, netplayInit: bool, kailleraInit: bool, q: Query, cmd: EngineResult)
      returns (ok: bool)
      modifies this`log
      ensures log == old(log) + PauseSpec(hooked, netplayInit, kailleraInit, q, cmd).trace
      ensures ok == PauseSpec(hooked, netplayInit, kailleraInit, q, cmd).result
    {
      if !hooked {
        return false;
      }
      if netplayInit || kailleraInit {
        return false;
      }
      var running := IsEmulationIn(hooked, q, Running);
      if !running {
        log := log + [SetError(PAUSE_NOT_RUNNING)];
        return false;
      }
      log := log + [PauseCommand] + CommandError(PAUSE_FAILED, cmd);
      ok := cmd.Success?;
    }

    /** CoreResumeEmulation. */
    method Resume(hooked: bool, netplayInit: bool, kailleraInit: bool, q: Query, cmd: EngineResult)
      returns (ok: bool)
      modifies this`log
      ensures log == old(log) + ResumeSpec(hooked, netplayInit, kailleraInit, q, cmd).trace
      ensures ok == ResumeSpec(hooked, netplayInit, kailleraInit, q, cmd).result
    {
      if !hooked {
        return false;
      }
      if netplayInit || kailleraInit {
        return false;
      }
      var paused := IsEmulationIn(hooked, q, Paused);
      if !paused {
        log := log + [SetError(RESUME_NOT_PAUSED)];
        return false;
      }
      log := log + [ResumeCommand] + CommandError(RESUME_FAILED, cmd);
      ok := cmd.Success?;
    }

    /** CoreResetEmulation. */
    method Reset(hooked: bool, q1: Query, q2: Query, hard: bool, cmd: EngineResult) returns (ok: bool)
      modifies this`log
      ensures log == old(log) + ResetSpec(hooked, q1, q2, hard, cmd).trace
      ensures ok == ResetSpec(hooked, q1, q2, hard, cmd).result
    {
      if !hooked {
        return false;
      }
      ghost var log0 := log;
      var paused := IsEmulationIn(hooked, q1, Paused);
      ghost var t := QueryEvents(hooked, q1);
      if paused {
        log := log + [SetError(RESET_PAUSED)];
        AppendAssociative(log0, t, [SetError(RESET_PAUSED)]);
        return false;
      }
      var running := IsEmulationIn(hooked, q2, Running);
      AppendAssociative(log0, t, QueryEvents(hooked, q2));
      t := t + QueryEvents(hooked, q2);
      assert log == log0 + t;
      if !running {
        log := log + [SetError(RESET_NOT_RUNNING)];
        AppendAssociative(log0, t, [SetError(RESET_NOT_RUNNING)]);
        return false;
      }
      log := log + ([ResetCommand(hard)] + CommandError(RESET_FAILED, cmd));
      AppendAssociative(log0, t, [ResetCommand(hard)] + CommandError(RESET_FAILED, cmd));
      assert t + ([ResetCommand(hard)] + CommandError(RESET_FAILED, cmd)) == t + [ResetCommand(hard)] + CommandError(RESET_FAILED, cmd);
      ok := cmd.Success?;
    }
  }
}

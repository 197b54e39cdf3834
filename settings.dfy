/** The settings store that the core, the on-screen display and the
    GameCube adapter plugin read and write (CoreSettingsGetValue /
    CoreSettingsSetValue). Persistence is not modelled: a store is a map of
    user values over a map of built-in defaults. */
module Settings {

  /** The settings identifiers used by the modelled code. Per-game settings
      live in a section named by the ROM's MD5. */
  datatype SettingsID =
    // core settings the engine reads
    | Core_RandomizeInterrupt | Core_CPU_Emulator | Core_DisableExtraMem
    | Core_EnableDebugger | Core_CountPerOp | Core_CountPerOpDenomPot
    | Core_SiDmaDuration | Core_SaveFileNameFormat
    | Core_GbCameraVideoCaptureBackend1 | Core_RSP_Plugin
    | Core_PIF_Use | Core_PIF_NTSC | Core_PIF_PAL
    // the user's global core-settings overlay
    | CoreOverlay_RandomizeInterrupt | CoreOverlay_CPU_Emulator
    | CoreOverlay_DisableExtraMem | CoreOverlay_EnableDebugger
    | CoreOverlay_CountPerOp | CoreOverlay_CountPerOpDenomPot
    | CoreOverlay_SiDmaDuration | CoreOverLay_SaveFileNameFormat
    | CoreOverlay_GbCameraVideoCaptureBackend1
    // per-game overrides
    | Game_OverrideCoreSettings(section: string)
    | Game_RandomizeInterrupt(section: string)
    | Game_CPU_Emulator(section: string)
    | Game_CountPerOpDenomPot(section: string)
    // on-screen display
    | GUI_OnScreenDisplayEnabled | GUI_OnScreenDisplayDuration
    | GUI_OnScreenDisplayMaxMessages
    // GameCube adapter plugin
    | GCAInput_Port1Enabled | GCAInput_Port2Enabled
    | GCAInput_Port3Enabled | GCAInput_Port4Enabled
    | GCAInput_Map_A | GCAInput_Map_B | GCAInput_Map_Start | GCAInput_Map_Z
    | GCAInput_Map_L | GCAInput_Map_R
    | GCAInput_Map_DpadUp | GCAInput_Map_DpadDown
    | GCAInput_Map_DpadLeft | GCAInput_Map_DpadRight
    | GCAInput_Map_CUp | GCAInput_Map_CDown
    | GCAInput_Map_CLeft | GCAInput_Map_CRight

  /** The core's own settings, as opposed to the overlays and sections
      they are copied from. */
  predicate IsCoreKey(id: SettingsID)
  {
    || id.Core_RandomizeInterrupt? || id.Core_CPU_Emulator? || id.Core_DisableExtraMem?
    || id.Core_EnableDebugger? || id.Core_CountPerOp? || id.Core_CountPerOpDenomPot?
    || id.Core_SiDmaDuration? || id.Core_SaveFileNameFormat?
    || id.Core_GbCameraVideoCaptureBackend1? || id.Core_RSP_Plugin?
    || id.Core_PIF_Use? || id.Core_PIF_NTSC? || id.Core_PIF_PAL?
  }

  datatype Value = BoolValue(b: bool) | IntValue(i: int) | StringValue(s: string)

  /** User values over defaults; an identifier in neither reads as the
      requested type's zero value. */
  datatype Store = Store(values: map<SettingsID, Value>, defaults: map<SettingsID, Value>)

  function Get(store: Store, id: SettingsID): Value
  {
    if id in store.values then store.values[id]
    else if id in store.defaults then store.defaults[id]
    else IntValue(0)
  }

  function AsBool(v: Value): bool
  {
    match v
    case BoolValue(b) => b
    case _ => false
  }

  function AsInt(v: Value): int
  {
    match v
    case IntValue(i) => i
    case _ => 0
  }

  function AsString(v: Value): string
  {
    match v
    case StringValue(s) => s
    case _ => ""
  }

  function GetBool(store: Store, id: SettingsID): bool { AsBool(Get(store, id)) }

  function GetInt(store: Store, id: SettingsID): int { AsInt(Get(store, id)) }

  function GetString(store: Store, id: SettingsID): string { AsString(Get(store, id)) }

  /** CoreSettingsGetDefaultIntValue: the built-in default, ignoring the user value. */
  function GetDefaultInt(store: Store, id: SettingsID): int
  {
    if id in store.defaults then AsInt(store.defaults[id]) else 0
  }

  /** CoreSettingsSetValue. */
  function Set(store: Store, id: SettingsID, v: Value): (r: Store)
    ensures r.defaults == store.defaults
  {
    store.(values := store.values[id := v])
  }

  /** A later read of `id` sees `v`; any other identifier reads as before. */
  lemma SetEffect(store: Store, id: SettingsID, v: Value, other: SettingsID)
    ensures Get(Set(store, id, v), other) == if other == id then v else Get(store, other)
  {
  }

  // ---------------------------------------------------------------------
  // Sequences of writes, as the core issues them one CoreSettingsSetValue
  // at a time

  /** The getter a copy reads its source with: CoreSettingsGetBoolValue,
      CoreSettingsGetIntValue or CoreSettingsGetStringValue. */
  datatype Kind = BoolKind | IntKind | StringKind

  function Convert(v: Value, kind: Kind): Value
  {
    match kind
    case BoolKind => BoolValue(AsBool(v))
    case IntKind => IntValue(AsInt(v))
    case StringKind => StringValue(AsString(v))
  }

  /** `CoreSettingsSetValue(target, CoreSettingsGet<kind>Value(source))`. */
  datatype Copy = Copy(target: SettingsID, source: SettingsID, kind: Kind)

  function CopyOne(s: Store, c: Copy): Store
  {
    Set(s, c.target, Convert(Get(s, c.source), c.kind))
  }

  lemma CopyOneEffect(s: Store, c: Copy, id: SettingsID)
    ensures Get(CopyOne(s, c), id) == if id == c.target then Convert(Get(s, c.source), c.kind) else Get(s, id)
  {
    SetEffect(s, c.target, Convert(Get(s, c.source), c.kind), id);
  }

  /** The copies performed in order, each reading the store as the earlier
      ones left it. */
  function ApplyCopies(s: Store, cs: seq<Copy>): Store
  {
    if cs == [] then s else CopyOne(ApplyCopies(s, cs[..|cs| - 1]), cs[|cs| - 1])
  }

  /** Every copy reads a key outside the core's own and writes a core key,
      so no copy reads what another writes. */
  predicate CoreFromElsewhere(cs: seq<Copy>)
  {
    forall i :: 0 <= i < |cs| ==> IsCoreKey(cs[i].target) && !IsCoreKey(cs[i].source)
  }

  predicate NotTarget(cs: seq<Copy>, id: SettingsID)
  {
    forall i :: 0 <= i < |cs| ==> cs[i].target != id
  }

  /** A table that writes core keys only writes no other key. */
  lemma NonCoreNotTarget(cs: seq<Copy>, id: SettingsID)
    requires CoreFromElsewhere(cs)
    requires !IsCoreKey(id)
    ensures NotTarget(cs, id)
  {
  }

  /** No copy after the j-th writes the j-th copy's target. */
  predicate LastCopyOf(cs: seq<Copy>, j: int)
  {
    0 <= j < |cs| && forall k :: j < k < |cs| ==> cs[k].target != cs[j].target
  }

  /** Keys that no copy writes keep their values. */
  lemma {:induction false} CopiesFrame(s: Store, cs: seq<Copy>, id: SettingsID)
    requires NotTarget(cs, id)
    ensures Get(ApplyCopies(s, cs), id) == Get(s, id)
  {
    if cs != [] {
      var init := cs[..|cs| - 1];
      assert NotTarget(init, id) by {
        assert forall i :: 0 <= i < |init| ==> init[i] == cs[i];
      }
      CopiesFrame(s, init, id);
      CopyOneEffect(ApplyCopies(s, init), cs[|cs| - 1], id);
    }
  }

  /** Copies from elsewhere into core keys behave as if every source were
      read before the first write: two stores that agree on the sources
      agree on every target afterwards. */
  lemma {:induction false} CopiesAgree(a: Store, b: Store, cs: seq<Copy>, j: int)
    requires CoreFromElsewhere(cs)
    requires forall i :: 0 <= i < |cs| ==> Get(a, cs[i].source) == Get(b, cs[i].source)
    requires 0 <= j < |cs|
    ensures Get(ApplyCopies(a, cs), cs[j].target) == Get(ApplyCopies(b, cs), cs[j].target)
    decreases |cs|
  {
    var init, last := cs[..|cs| - 1], cs[|cs| - 1];
    assert forall i :: 0 <= i < |init| ==> init[i] == cs[i];
    // the last copy reads a key no earlier copy wrote
    assert NotTarget(init, last.source);
    CopiesFrame(a, init, last.source);
    CopiesFrame(b, init, last.source);
    CopyOneEffect(ApplyCopies(a, init), last, cs[j].target);
    CopyOneEffect(ApplyCopies(b, init), last, cs[j].target);
    if cs[j].target != last.target {
      CopiesAgree(a, b, init, j);
    }
  }

  /** The target of the last copy naming it holds its source's value from
      before the copies, converted to the copy's kind. */
  lemma {:induction false} CopiesEffect(s: Store, cs: seq<Copy>, j: int)
    requires CoreFromElsewhere(cs) && LastCopyOf(cs, j)
    ensures Get(ApplyCopies(s, cs), cs[j].target) == Convert(Get(s, cs[j].source), cs[j].kind)
    decreases |cs|
  {
    var init, last := cs[..|cs| - 1], cs[|cs| - 1];
    assert forall i :: 0 <= i < |init| ==> init[i] == cs[i];
    assert NotTarget(init, last.source);
    CopiesFrame(s, init, last.source);
    CopyOneEffect(ApplyCopies(s, init), last, cs[j].target);
    if j < |cs| - 1 {
      assert NotTarget(init, cs[j].source);
      CopiesEffect(s, init, j);
    }
  }

  /** `CoreSettingsSetValue(key, value)` with a constant value. */
  datatype Write = Write(key: SettingsID, value: Value)

  function ApplyWrites(s: Store, ws: seq<Write>): Store
  {
    if ws == [] then s else Set(ApplyWrites(s, ws[..|ws| - 1]), ws[|ws| - 1].key, ws[|ws| - 1].value)
  }

  predicate NotWritten(ws: seq<Write>, id: SettingsID)
  {
    forall k :: 0 <= k < |ws| ==> ws[k].key != id
  }

  /** Write j is the last one naming its key. */
  predicate LastWriteOf(ws: seq<Write>, j: int)
  {
    0 <= j < |ws| && forall k :: j < k < |ws| ==> ws[k].key != ws[j].key
  }

  /** A key no write names keeps its value. */
  lemma {:induction false} WritesFrame(s: Store, ws: seq<Write>, id: SettingsID)
    requires NotWritten(ws, id)
    ensures Get(ApplyWrites(s, ws), id) == Get(s, id)
  {
    if ws != [] {
      var init := ws[..|ws| - 1];
      assert NotWritten(init, id) by {
        assert forall k :: 0 <= k < |init| ==> init[k] == ws[k];
      }
      WritesFrame(s, init, id);
      SetEffect(ApplyWrites(s, init), ws[|ws| - 1].key, ws[|ws| - 1].value, id);
    }
  }

  /** A key named by the writes holds the value of the last write naming it. */
  lemma {:induction false} WritesLast(s: Store, ws: seq<Write>, j: int)
    requires LastWriteOf(ws, j)
    ensures Get(ApplyWrites(s, ws), ws[j].key) == ws[j].value
    decreases |ws|
  {
    var init := ws[..|ws| - 1];
    SetEffect(ApplyWrites(s, init), ws[|ws| - 1].key, ws[|ws| - 1].value, ws[j].key);
    if j < |ws| - 1 {
      assert LastWriteOf(init, j) by {
        assert forall k :: 0 <= k < |init| ==> init[k] == ws[k];
      }
      WritesLast(s, init, j);
    }
  }

  /** Copies from elsewhere into core keys, after writes that name only
      core keys, read the same values as without the writes, so the writes
      are overwritten on every target. */
  lemma CopiesOverwriteWrites(s: Store, ws: seq<Write>, cs: seq<Copy>, j: int)
    requires CoreFromElsewhere(cs)
    requires forall k :: 0 <= k < |ws| ==> IsCoreKey(ws[k].key)
    requires 0 <= j < |cs|
    ensures Get(ApplyCopies(ApplyWrites(s, ws), cs), cs[j].target) == Get(ApplyCopies(s, cs), cs[j].target)
  {
    forall i | 0 <= i < |cs|
      ensures Get(ApplyWrites(s, ws), cs[i].source) == Get(s, cs[i].source)
    {
      WritesFrame(s, ws, cs[i].source);
    }
    CopiesAgree(ApplyWrites(s, ws), s, cs, j);
  }

  /** One more copy extends the applied prefix by one. */
  lemma ApplyCopiesStep(s: Store, cs: seq<Copy>, k: nat)
    requires k < |cs|
    ensures ApplyCopies(s, cs[..k + 1]) == CopyOne(ApplyCopies(s, cs[..k]), cs[k])
  {
    assert cs[..k + 1][..k] == cs[..k];
  }

  lemma ApplyCopiesAll(s: Store, cs: seq<Copy>)
    ensures ApplyCopies(s, cs[..|cs|]) == ApplyCopies(s, cs)
  {
    assert cs[..|cs|] == cs;
  }

  /** One more write extends the applied prefix by one. */
  lemma ApplyWritesStep(s: Store, ws: seq<Write>, k: nat)
    requires k < |ws|
    ensures ApplyWrites(s, ws[..k + 1]) == Set(ApplyWrites(s, ws[..k]), ws[k].key, ws[k].value)
  {
    assert ws[..k + 1][..k] == ws[..k];
  }

  lemma ApplyWritesAll(s: Store, ws: seq<Write>)
    ensures ApplyWrites(s, ws[..|ws|]) == ApplyWrites(s, ws)
  {
    assert ws[..|ws|] == ws;
  }
}

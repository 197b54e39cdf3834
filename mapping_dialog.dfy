/** The GameCube adapter configuration dialog (RMG-Input-GCA
    UserInterface/MainDialog.cpp): the 14-entry button-mapping table,
    duplicate clearing, the listen-mode state machine driven by the poll
    timer, and loading and saving the table through the settings store. */
module MappingDialog {
  import G = GcaAdapter
  import opened Settings

  /** N64_BUTTON_COUNT: A, B, Start, Z, L, R, the D-pad and the C buttons. */
  const N64_BUTTON_COUNT: nat := 14

  /** LISTEN_TIMEOUT_TICKS: 5 seconds of 50 ms poll ticks. */
  const LISTEN_TIMEOUT_TICKS: int := 100

  /** A GameCube input, by its enumeration value. */
  type GCInput = int

  /** GCInput::None. */
  const NONE: GCInput := 0

  /** m_MappingSettingsIDs, in N64 button order (lines 26-41). */
  const MAPPING_SETTING_IDS: seq<SettingsID> :=
    [GCAInput_Map_A, GCAInput_Map_B, GCAInput_Map_Start, GCAInput_Map_Z,
     GCAInput_Map_L, GCAInput_Map_R,
     GCAInput_Map_DpadUp, GCAInput_Map_DpadDown, GCAInput_Map_DpadLeft, GCAInput_Map_DpadRight,
     GCAInput_Map_CUp, GCAInput_Map_CDown, GCAInput_Map_CLeft, GCAInput_Map_CRight]

  predicate IsMappingKey(id: SettingsID)
  {
    || id.GCAInput_Map_A? || id.GCAInput_Map_B? || id.GCAInput_Map_Start? || id.GCAInput_Map_Z?
    || id.GCAInput_Map_L? || id.GCAInput_Map_R?
    || id.GCAInput_Map_DpadUp? || id.GCAInput_Map_DpadDown?
    || id.GCAInput_Map_DpadLeft? || id.GCAInput_Map_DpadRight?
    || id.GCAInput_Map_CUp? || id.GCAInput_Map_CDown? || id.GCAInput_Map_CLeft? || id.GCAInput_Map_CRight?
  }

  /** The button index whose mapping a setting holds. */
  function ButtonOf(id: SettingsID): (i: nat)
    requires IsMappingKey(id)
    ensures i < N64_BUTTON_COUNT && MAPPING_SETTING_IDS[i] == id
  {
    match id
    case GCAInput_Map_A => 0 case GCAInput_Map_B => 1 case GCAInput_Map_Start => 2
    case GCAInput_Map_Z => 3 case GCAInput_Map_L => 4 case GCAInput_Map_R => 5
    case GCAInput_Map_DpadUp => 6 case GCAInput_Map_DpadDown => 7
    case GCAInput_Map_DpadLeft => 8 case GCAInput_Map_DpadRight => 9
    case GCAInput_Map_CUp => 10 case GCAInput_Map_CDown => 11
    case GCAInput_Map_CLeft => 12 case GCAInput_Map_CRight => 13
  }

  /** Setting i of the table is a mapping setting and belongs to button i. */
  lemma SettingIdIndexed(j: nat)
    requires j < N64_BUTTON_COUNT
    ensures IsMappingKey(MAPPING_SETTING_IDS[j]) && ButtonOf(MAPPING_SETTING_IDS[j]) == j
  {
    assert |MAPPING_SETTING_IDS| == N64_BUTTON_COUNT;
  }

  /** Every button has its own setting. */
  lemma SettingIdsDistinct(i: nat, j: nat)
    requires i < N64_BUTTON_COUNT && j < N64_BUTTON_COUNT && i != j
    ensures MAPPING_SETTING_IDS[i] != MAPPING_SETTING_IDS[j]
  {
    SettingIdIndexed(i);
    SettingIdIndexed(j);
  }

  ////////////////////////////////////////////////////////////////////////
  // Loading and saving the table (lines 124-146)

  /** The store after saveMappings: the first n buttons' settings written
      in order, each with CoreSettingsSetValue. */
  function Saved(store: Store, m: seq<GCInput>, n: nat): Store
    requires n <= |m| && n <= N64_BUTTON_COUNT
  {
    if n == 0 then store else Set(Saved(store, m, n - 1), MAPPING_SETTING_IDS[n - 1], IntValue(m[n - 1]))
  }

  /** The table loadMappings reads from the store. */
  function Loaded(store: Store): (m: seq<GCInput>)
    ensures |m| == N64_BUTTON_COUNT
  {
    seq(N64_BUTTON_COUNT, i requires 0 <= i < N64_BUTTON_COUNT => GetInt(store, MAPPING_SETTING_IDS[i]))
  }

  /** The table setDefaultMappings produces. */
  function DefaultMappings(store: Store): (m: seq<GCInput>)
    ensures |m| == N64_BUTTON_COUNT
  {
    seq(N64_BUTTON_COUNT, i requires 0 <= i < N64_BUTTON_COUNT => GetDefaultInt(store, MAPPING_SETTING_IDS[i]))
  }

  /** Saving the first n buttons stores their mappings as user values. */
  lemma {:induction false} SavedWrites(store: Store, m: seq<GCInput>, n: nat)
    requires n <= |m| && n <= N64_BUTTON_COUNT
    ensures forall j :: 0 <= j < n ==>
      (MAPPING_SETTING_IDS[j] in Saved(store, m, n).values
       && Saved(store, m, n).values[MAPPING_SETTING_IDS[j]] == IntValue(m[j]))
  {
    if n > 0 {
      SavedWrites(store, m, n - 1);
      forall j | 0 <= j < n - 1
        ensures MAPPING_SETTING_IDS[j] != MAPPING_SETTING_IDS[n - 1]
      {
        SettingIdsDistinct(j, n - 1);
      }
    }
  }

  /** ... and leaves every other user value as it was: the buttons not
      yet written and every setting that is no mapping. */
  lemma {:induction false} SavedKeeps(store: Store, m: seq<GCInput>, n: nat, id: SettingsID)
    requires n <= |m| && n <= N64_BUTTON_COUNT && (!IsMappingKey(id) || ButtonOf(id) >= n)
    ensures id in Saved(store, m, n).values <==> id in store.values
    ensures id in store.values ==> Saved(store, m, n).values[id] == store.values[id]
  {
    if n > 0 {
      SavedKeeps(store, m, n - 1, id);
      SettingIdIndexed(n - 1);
    }
  }

  /** Saving never touches the built-in defaults. */
  lemma {:induction false} SavedKeepsDefaults(store: Store, m: seq<GCInput>, n: nat)
    requires n <= |m| && n <= N64_BUTTON_COUNT
    ensures Saved(store, m, n).defaults == store.defaults
  {
    if n > 0 {
      SavedKeepsDefaults(store, m, n - 1);
    }
  }

  /** saveMappings followed by loadMappings over the same store restores
      the table, whatever the store held before. */
  lemma LoadAfterSave(store: Store, m: seq<GCInput>)
    requires |m| == N64_BUTTON_COUNT
    ensures Loaded(Saved(store, m, N64_BUTTON_COUNT)) == m
  {
    SavedWrites(store, m, N64_BUTTON_COUNT);
  }

  /** Saving the table a second time changes nothing in the store. */
  lemma SaveIdempotent(store: Store, m: seq<GCInput>)
    requires |m| == N64_BUTTON_COUNT
    ensures Saved(Saved(store, m, N64_BUTTON_COUNT), m, N64_BUTTON_COUNT) == Saved(store, m, N64_BUTTON_COUNT)
  {
    var once := Saved(store, m, N64_BUTTON_COUNT);
    SavedWrites(store, m, N64_BUTTON_COUNT);
    SavedWrites(once, m, N64_BUTTON_COUNT);
    var twice := Saved(once, m, N64_BUTTON_COUNT);
    SavedKeepsDefaults(once, m, N64_BUTTON_COUNT);
    forall id
      ensures (id in twice.values <==> id in once.values) && (id in once.values ==> twice.values[id] == once.values[id])
    {
      if IsMappingKey(id) {
        var j := ButtonOf(id);
        assert MAPPING_SETTING_IDS[j] == id;
      } else {
        SavedKeeps(once, m, N64_BUTTON_COUNT, id);
      }
    }
    assert twice.values == once.values;
  }

  /** The store the dialog reads and writes through CoreSettingsGetIntValue,
      CoreSettingsGetDefaultIntValue and CoreSettingsSetValue. */
  class SettingsHandle {
    var current: Store

    constructor (store: Store)
      ensures current == store
    {
      current := store;
    }

    /** CoreSettingsSetValue. */
    method SetValue(id: SettingsID, v: Value)
      modifies this
      ensures current == Set(old(current), id, v)
    {
      current := Set(current, id, v);
    }
  }

  ////////////////////////////////////////////////////////////////////////
  // Duplicate clearing

  /** clearDuplicateMapping(k, x) as a function of the table. */
  function ClearDuplicates(m: seq<GCInput>, k: int, x: GCInput): (r: seq<GCInput>)
    ensures |r| == |m|
  {
    seq(|m|, i requires 0 <= i < |m| => if i != k && m[i] == x then NONE else m[i])
  }

  /** After clearing duplicates of x for slot k: slot k is unchanged, no
      other slot holds x unless x is None, and every slot that did not
      hold x is unchanged. */
  lemma ClearDuplicatesMeaning(m: seq<GCInput>, k: int, x: GCInput)
    ensures var r := ClearDuplicates(m, k, x);
      && (0 <= k < |m| ==> r[k] == m[k])
      && (x != NONE ==> forall i :: 0 <= i < |m| && i != k ==> r[i] != x)
      && (forall i :: 0 <= i < |m| && m[i] != x ==> r[i] == m[i])
      && (forall i :: 0 <= i < |m| && i != k && m[i] == x ==> r[i] == NONE)
  {
  }

  /** Assigning a detected input to slot k and clearing its duplicates
      leaves that input at slot k and nowhere else. */
  lemma AssignIsUnique(m: seq<GCInput>, k: nat, x: GCInput)
    requires k < |m| && x != NONE
    ensures var r := ClearDuplicates(m[k := x], k, x);
      r[k] == x && forall i :: 0 <= i < |m| && r[i] == x ==> i == k
  {
    ClearDuplicatesMeaning(m[k := x], k, x);
  }

  ////////////////////////////////////////////////////////////////////////
  // The listen-mode state machine

  /** m_ListeningIndex, m_ListenTickCount and whether the poll timer runs. */
  datatype Listen = Listen(index: int, ticks: int, timerActive: bool)

  /** The listen state after one poll-timer tick: `detected` says whether
      DetectGCInput reported an input. */
  function TimerTick(s: Listen, detected: bool): (r: Listen)
  {
    if s.index < 0 then s.(timerActive := false)
    else if s.ticks + 1 >= LISTEN_TIMEOUT_TICKS then Listen(-1, s.ticks + 1, false)
    else if detected then Listen(-1, s.ticks + 1, false)
    else s.(ticks := s.ticks + 1)
  }

  /** n ticks in which nothing is detected. */
  function IdleTicks(s: Listen, n: nat): Listen
  {
    if n == 0 then s else TimerTick(IdleTicks(s, n - 1), false)
  }

  /** After a mapping click, listening goes on for 99 idle ticks with the
      timer running, and the 100th idle tick ends it and stops the timer. */
  lemma {:induction false} ListenTimesOut(index: nat, n: nat)
    requires n <= LISTEN_TIMEOUT_TICKS as nat
    ensures n < LISTEN_TIMEOUT_TICKS ==> IdleTicks(Listen(index, 0, true), n) == Listen(index, n, true)
    ensures n == LISTEN_TIMEOUT_TICKS ==> IdleTicks(Listen(index, 0, true), n) == Listen(-1, n, false)
  {
    if n > 0 {
      ListenTimesOut(index, n - 1);
    }
  }

  /** Once listening has ended, further ticks only keep the timer stopped. */
  lemma {:induction false} IdleAfterCancel(s: Listen, n: nat)
    requires s.index < 0
    ensures n > 0 ==> IdleTicks(s, n) == s.(timerActive := false)
    ensures n == 0 ==> IdleTicks(s, n) == s
  {
    if n > 1 {
      IdleAfterCancel(s, n - 1);
    }
  }

  ////////////////////////////////////////////////////////////////////////
  // The dialog

  class MainDialog {
    /** m_Mappings, indexed by N64 button. */
    var mappings: array<GCInput>
    /** The listen state: m_ListeningIndex, m_ListenTickCount, the timer. */
    var listeningIndex: int
    var listenTickCount: int
    var timerActive: bool
    /** m_PrevState: the baseline controller state for detection. */
    var prevState: G.ControllerState

    ghost predicate Valid()
      reads this
    {
      mappings.Length == N64_BUTTON_COUNT && -1 <= listeningIndex < N64_BUTTON_COUNT
    }

    function ListenState(): Listen
      reads this
    {
      Listen(listeningIndex, listenTickCount, timerActive)
    }

    /** The dialog as constructed: not listening, timer stopped, the table
        loaded from the store. */
    constructor (settings: SettingsHandle)
      ensures Valid() && fresh(mappings)
      ensures ListenState() == Listen(-1, 0, false)
      ensures mappings[..] == Loaded(settings.current)
    {
      mappings := new GCInput[N64_BUTTON_COUNT];
      listeningIndex := -1;
      listenTickCount := 0;
      timerActive := false;
      prevState := G.ZERO_STATE;
      new;
      LoadMappings(settings);
    }

    /** loadMappings. */
    method LoadMappings(settings: SettingsHandle)
      requires Valid()
      modifies mappings
      ensures mappings[..] == Loaded(settings.current)
    {
      for i := 0 to N64_BUTTON_COUNT
        invariant forall j :: 0 <= j < i ==> mappings[j] == Loaded(settings.current)[j]
      {
        mappings[i] := GetInt(settings.current, MAPPING_SETTING_IDS[i]);
      }
    }

    /** saveMappings. */
    method SaveMappings(settings: SettingsHandle)
      requires Valid()
      modifies settings
      ensures settings.current == Saved(old(settings.current), mappings[..], N64_BUTTON_COUNT)
    {
      for i := 0 to N64_BUTTON_COUNT
        invariant settings.current == Saved(old(settings.current), mappings[..], i)
      {
        settings.SetValue(MAPPING_SETTING_IDS[i], IntValue(mappings[i]));
      }
    }

    /** setDefaultMappings. */
    method SetDefaultMappings(settings: SettingsHandle)
      requires Valid()
      modifies mappings
      ensures mappings[..] == DefaultMappings(settings.current)
    {
      for i := 0 to N64_BUTTON_COUNT
        invariant forall j :: 0 <= j < i ==> mappings[j] == DefaultMappings(settings.current)[j]
      {
        mappings[i] := GetDefaultInt(settings.current, MAPPING_SETTING_IDS[i]);
      }
    }

    /** clearDuplicateMapping. */
    method ClearDuplicateMapping(assignedIndex: int, input: GCInput)
      requires Valid()
      modifies mappings
      ensures mappings[..] == ClearDuplicates(old(mappings[..]), assignedIndex, input)
    {
      for i := 0 to N64_BUTTON_COUNT
        invariant forall j :: 0 <= j < i ==>
          mappings[j] == ClearDuplicates(old(mappings[..]), assignedIndex, input)[j]
        invariant forall j :: i <= j < N64_BUTTON_COUNT ==> mappings[j] == old(mappings[j])
      {
        if i != assignedIndex && mappings[i] == input {
          mappings[i] := NONE;
        }
      }
    }

    /** onClearButtonClicked: cancels listening and stops the timer when
        listening, then clears the slot. */
    method OnClearButtonClicked(index: nat)
      requires Valid() && index < N64_BUTTON_COUNT
      modifies mappings, this`listeningIndex, this`timerActive
      ensures Valid()
      ensures mappings[..] == old(mappings[..])[index := NONE]
      ensures old(listeningIndex) >= 0 ==> listeningIndex == -1 && !timerActive
      ensures old(listeningIndex) < 0 ==> listeningIndex == old(listeningIndex) && timerActive == old(timerActive)
    {
      if listeningIndex >= 0 {
        listeningIndex := -1;
        timerActive := false;
      }
      mappings[index] := NONE;
    }

    /** onMappingButtonClicked, with `current` the adapter's port-1 state
        (GCA_GetControllerState(0)). */
    method OnMappingButtonClicked(index: nat, current: G.ControllerState)
      requires Valid() && index < N64_BUTTON_COUNT
      modifies this`listeningIndex, this`listenTickCount, this`prevState, this`timerActive
      ensures Valid()
      ensures ListenState() == Listen(index, 0, true) && prevState == current
    {
      listeningIndex := index;
      listenTickCount := 0;
      prevState := current;
      if !timerActive {
        timerActive := true;
      }
    }

    /** onPollTimerTimeout, with `current` the adapter's port-1 state and
        `detect` standing for DetectGCInput at the slider thresholds. */
    method OnPollTimerTimeout(current: G.ControllerState, detect: (G.ControllerState, G.ControllerState) -> GCInput)
      requires Valid()
      modifies mappings, this`listeningIndex, this`listenTickCount, this`prevState, this`timerActive
      ensures Valid()
      ensures var detected := old(listeningIndex) >= 0 && old(listenTickCount) + 1 < LISTEN_TIMEOUT_TICKS
                              && detect(old(prevState), current) != NONE;
        && ListenState() == TimerTick(old(ListenState()), detected)
        && (detected ==> mappings[..] == ClearDuplicates(old(mappings[..])[old(listeningIndex) := detect(old(prevState), current)],
                                                          old(listeningIndex), detect(old(prevState), current)))
        && (!detected ==> mappings[..] == old(mappings[..]))
        && (old(listeningIndex) >= 0 && old(listenTickCount) + 1 < LISTEN_TIMEOUT_TICKS && !detected ==>
              prevState == current)
        && (!(old(listeningIndex) >= 0 && old(listenTickCount) + 1 < LISTEN_TIMEOUT_TICKS && !detected) ==>
              prevState == old(prevState))
    {
      if listeningIndex < 0 {
        timerActive := false;
        return;
      }
      listenTickCount := listenTickCount + 1;
      if listenTickCount >= LISTEN_TIMEOUT_TICKS {
        listeningIndex := -1;
        timerActive := false;
        return;
      }
      var detected := detect(prevState, current);
      if detected != NONE {
        var idx := listeningIndex;
        listeningIndex := -1;
        timerActive := false;
        mappings[idx] := detected;
        ClearDuplicateMapping(idx, detected);
        return;
      }
      prevState := current;
    }
  }
}

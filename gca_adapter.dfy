/** The GameCube adapter input plugin (RMG-Input-GCA main.cpp): decoding
    the adapter's 37-byte USB report into four controller states, the
    per-iteration step of the poll thread, the assignment of enabled,
    connected adapter ports to control slots, and the early-zero paths of
    GetKeys. */
module GcaAdapter {
  import J = Joybus

  type byte = J.byte

  /** NUM_CONTROLLERS: adapter ports and control slots. */
  const NUM_CONTROLLERS: nat := 4

  /** The size of one input report (readBuf[37]). */
  const REPORT_SIZE: nat := 37

  /** Bytes per port in a report, after the leading report byte. */
  const PORT_STRIDE: nat := 9

  /** libusb return codes the poll step distinguishes. */
  const LIBUSB_SUCCESS: int := 0
  const LIBUSB_ERROR_NO_DEVICE: int := -4

  /** GameCubeAdapterControllerState: the nine report bytes of one port. */
  datatype ControllerState = ControllerState(
    status: byte, buttons1: byte, buttons2: byte,
    leftStickX: byte, leftStickY: byte, rightStickX: byte, rightStickY: byte,
    leftTrigger: byte, rightTrigger: byte)

  /** `{0}`: every field zero. */
  const ZERO_STATE := ControllerState(0, 0, 0, 0, 0, 0, 0, 0, 0)

  function ZeroStates(): (z: seq<ControllerState>)
    ensures |z| == NUM_CONTROLLERS && forall i :: 0 <= i < |z| ==> z[i] == ZERO_STATE
  {
    [ZERO_STATE, ZERO_STATE, ZERO_STATE, ZERO_STATE]
  }

  ////////////////////////////////////////////////////////////////////////
  // Report decoding (lines 251-263)

  /** The report byte holding field k (1-9) of port i. */
  function ReportIndex(i: nat, k: nat): nat
  {
    i * PORT_STRIDE + k
  }

  /** Every byte the decode loop reads lies inside the report, and no two
      (port, field) pairs read the same byte. */
  lemma ReportIndicesInBounds(i: nat, k: nat, i': nat, k': nat)
    requires i < NUM_CONTROLLERS && 1 <= k <= PORT_STRIDE
    requires i' < NUM_CONTROLLERS && 1 <= k' <= PORT_STRIDE
    ensures 1 <= ReportIndex(i, k) < REPORT_SIZE
    ensures ReportIndex(i, k) == ReportIndex(i', k') ==> i == i' && k == k'
  {
    if i < i' {
      assert ReportIndex(i, k) <= i * PORT_STRIDE + PORT_STRIDE <= i' * PORT_STRIDE < ReportIndex(i', k');
    } else if i' < i {
      assert ReportIndex(i', k') <= i' * PORT_STRIDE + PORT_STRIDE <= i * PORT_STRIDE < ReportIndex(i, k);
    }
  }

  /** Port i's state: fields from readBuf[i*9+1 .. i*9+9], in order. */
  function DecodeController(buf: seq<byte>, i: nat): ControllerState
    requires |buf| == REPORT_SIZE && i < NUM_CONTROLLERS
  {
    var o := i * PORT_STRIDE;
    ControllerState(buf[o + 1], buf[o + 2], buf[o + 3], buf[o + 4], buf[o + 5],
                    buf[o + 6], buf[o + 7], buf[o + 8], buf[o + 9])
  }

  function DecodeReport(buf: seq<byte>): (states: seq<ControllerState>)
    requires |buf| == REPORT_SIZE
    ensures |states| == NUM_CONTROLLERS
    ensures forall i :: 0 <= i < NUM_CONTROLLERS ==> states[i] == DecodeController(buf, i)
  {
    [DecodeController(buf, 0), DecodeController(buf, 1), DecodeController(buf, 2), DecodeController(buf, 3)]
  }

  function StateBytes(c: ControllerState): seq<byte>
  {
    [c.status, c.buttons1, c.buttons2, c.leftStickX, c.leftStickY,
     c.rightStickX, c.rightStickY, c.leftTrigger, c.rightTrigger]
  }

  /** The report an adapter sends for four states, after its leading byte. */
  function EncodeReport(lead: byte, states: seq<ControllerState>): (buf: seq<byte>)
    requires |states| == NUM_CONTROLLERS
    ensures |buf| == REPORT_SIZE
  {
    [lead] + StateBytes(states[0]) + StateBytes(states[1]) + StateBytes(states[2]) + StateBytes(states[3])
  }

  /** Decoding the report of four states yields those states, whatever the
      leading byte. */
  lemma DecodeEncodeReport(lead: byte, states: seq<ControllerState>)
    requires |states| == NUM_CONTROLLERS
    ensures DecodeReport(EncodeReport(lead, states)) == states
  {
    var s0, s1, s2, s3 := StateBytes(states[0]), StateBytes(states[1]), StateBytes(states[2]), StateBytes(states[3]);
    var buf := EncodeReport(lead, states);
    assert buf == ([lead] + s0 + s1 + s2) + s3;
    assert buf[28..] == s3;
    assert buf[..28] == ([lead] + s0 + s1) + s2;
    assert buf[19..28] == s2;
    assert buf[..19] == ([lead] + s0) + s1;
    assert buf[10..19] == s1;
    assert buf[1..10] == s0;
  }

  /** The decode reads bytes 1-36 only: the leading byte does not matter. */
  lemma DecodeIgnoresLeadingByte(a: seq<byte>, b: seq<byte>)
    requires |a| == REPORT_SIZE && |b| == REPORT_SIZE && a[1..] == b[1..]
    ensures DecodeReport(a) == DecodeReport(b)
  {
    forall i, k | 0 <= i < NUM_CONTROLLERS && 1 <= k <= PORT_STRIDE
      ensures a[ReportIndex(i, k)] == b[ReportIndex(i, k)]
    {
      assert a[ReportIndex(i, k)] == a[1..][ReportIndex(i, k) - 1];
    }
    assert forall i :: 0 <= i < NUM_CONTROLLERS ==> DecodeController(a, i) == DecodeController(b, i);
  }

  ////////////////////////////////////////////////////////////////////////
  // Slot mapping (lines 533-548)

  /** A port qualifies when it is enabled and its controller reports a
      non-zero status. */
  predicate Qualifies(enabled: seq<bool>, states: seq<ControllerState>, p: int)
    requires |enabled| == NUM_CONTROLLERS && |states| == NUM_CONTROLLERS
  {
    0 <= p < NUM_CONTROLLERS && enabled[p] && states[p].status > 0
  }

  /** The qualifying ports below n, ascending. */
  function QualifyingPorts(enabled: seq<bool>, states: seq<ControllerState>, n: nat): (ps: seq<int>)
    requires |enabled| == NUM_CONTROLLERS && |states| == NUM_CONTROLLERS && n <= NUM_CONTROLLERS
    ensures |ps| <= n
  {
    if n == 0 then []
    else QualifyingPorts(enabled, states, n - 1) + (if Qualifies(enabled, states, n - 1) then [n - 1] else [])
  }

  /** l_ControlToPort after the mapping: the qualifying ports in order,
      then -1 for every remaining slot. */
  function SlotMap(enabled: seq<bool>, states: seq<ControllerState>): (m: seq<int>)
    requires |enabled| == NUM_CONTROLLERS && |states| == NUM_CONTROLLERS
    ensures |m| == NUM_CONTROLLERS
  {
    var ps := QualifyingPorts(enabled, states, NUM_CONTROLLERS);
    ps + seq(NUM_CONTROLLERS - |ps|, _ => -1)
  }

  /** The qualifying ports below n are exactly the ports below n that
      qualify. */
  lemma {:induction false} QualifyingPortsMembers(enabled: seq<bool>, states: seq<ControllerState>, n: nat)
    requires |enabled| == NUM_CONTROLLERS && |states| == NUM_CONTROLLERS && n <= NUM_CONTROLLERS
    ensures forall p :: p in QualifyingPorts(enabled, states, n) <==> p < n && Qualifies(enabled, states, p)
  {
    if n > 0 {
      QualifyingPortsMembers(enabled, states, n - 1);
    }
  }

  /** ... and they come in strictly increasing order. */
  lemma {:induction false} QualifyingPortsIncreasing(enabled: seq<bool>, states: seq<ControllerState>, n: nat)
    requires |enabled| == NUM_CONTROLLERS && |states| == NUM_CONTROLLERS && n <= NUM_CONTROLLERS
    ensures forall a :: 0 <= a < |QualifyingPorts(enabled, states, n)| ==> 0 <= QualifyingPorts(enabled, states, n)[a] < n
    ensures forall a, b :: 0 <= a < b < |QualifyingPorts(enabled, states, n)| ==>
      QualifyingPorts(enabled, states, n)[a] < QualifyingPorts(enabled, states, n)[b]
  {
    if n > 0 {
      QualifyingPortsIncreasing(enabled, states, n - 1);
      var ps := QualifyingPorts(enabled, states, n - 1);
      assert forall a :: 0 <= a < |ps| ==> 0 <= ps[a] < n - 1;
      if Qualifies(enabled, states, n - 1) {
        var qs := ps + [n - 1];
        assert QualifyingPorts(enabled, states, n) == qs;
        assert forall a :: 0 <= a < |ps| ==> qs[a] == ps[a];
        assert qs[|ps|] == n - 1;
      }
    }
  }

  /** The number of qualifying ports below n. */
  function CountQualifying(enabled: seq<bool>, states: seq<ControllerState>, n: nat): nat
    requires |enabled| == NUM_CONTROLLERS && |states| == NUM_CONTROLLERS && n <= NUM_CONTROLLERS
  {
    if n == 0 then 0
    else CountQualifying(enabled, states, n - 1) + (if Qualifies(enabled, states, n - 1) then 1 else 0)
  }

  lemma {:induction false} QualifyingPortsCount(enabled: seq<bool>, states: seq<ControllerState>, n: nat)
    requires |enabled| == NUM_CONTROLLERS && |states| == NUM_CONTROLLERS && n <= NUM_CONTROLLERS
    ensures |QualifyingPorts(enabled, states, n)| == CountQualifying(enabled, states, n)
  {
    if n > 0 {
      QualifyingPortsCount(enabled, states, n - 1);
    }
  }

  /** The slot map's shape: the qualifying ports, then -1 entries. */
  lemma SlotMapShape(enabled: seq<bool>, states: seq<ControllerState>)
    requires |enabled| == NUM_CONTROLLERS && |states| == NUM_CONTROLLERS
    ensures var m, ps := SlotMap(enabled, states), QualifyingPorts(enabled, states, NUM_CONTROLLERS);
      && (forall k :: 0 <= k < |ps| ==> m[k] == ps[k])
      && (forall k :: |ps| <= k < NUM_CONTROLLERS ==> m[k] == -1)
  {
  }

  /** Slot k is mapped exactly when k is below the number of qualifying
      ports, and every unmapped slot holds -1. */
  lemma SlotMapSuffix(enabled: seq<bool>, states: seq<ControllerState>)
    requires |enabled| == NUM_CONTROLLERS && |states| == NUM_CONTROLLERS
    ensures var m, c := SlotMap(enabled, states), CountQualifying(enabled, states, NUM_CONTROLLERS);
      && (forall k :: 0 <= k < NUM_CONTROLLERS ==> (m[k] >= 0 <==> k < c))
      && (forall k :: 0 <= k < NUM_CONTROLLERS && m[k] < 0 ==> m[k] == -1)
  {
    SlotMapShape(enabled, states);
    QualifyingPortsIncreasing(enabled, states, NUM_CONTROLLERS);
    QualifyingPortsCount(enabled, states, NUM_CONTROLLERS);
  }

  /** Every mapped slot holds an enabled, connected port. */
  lemma SlotMapQualifies(enabled: seq<bool>, states: seq<ControllerState>)
    requires |enabled| == NUM_CONTROLLERS && |states| == NUM_CONTROLLERS
    ensures var m := SlotMap(enabled, states);
      forall k :: 0 <= k < NUM_CONTROLLERS && m[k] >= 0 ==> Qualifies(enabled, states, m[k])
  {
    var ps := QualifyingPorts(enabled, states, NUM_CONTROLLERS);
    SlotMapShape(enabled, states);
    QualifyingPortsMembers(enabled, states, NUM_CONTROLLERS);
    assert forall k :: 0 <= k < |ps| ==> ps[k] in ps;
  }

  /** Every enabled, connected port is in some slot. */
  lemma SlotMapCovers(enabled: seq<bool>, states: seq<ControllerState>)
    requires |enabled| == NUM_CONTROLLERS && |states| == NUM_CONTROLLERS
    ensures var m := SlotMap(enabled, states);
      forall p :: Qualifies(enabled, states, p) ==> exists k :: 0 <= k < NUM_CONTROLLERS && m[k] == p
  {
    var ps := QualifyingPorts(enabled, states, NUM_CONTROLLERS);
    var m := SlotMap(enabled, states);
    SlotMapShape(enabled, states);
    QualifyingPortsMembers(enabled, states, NUM_CONTROLLERS);
    forall p | Qualifies(enabled, states, p)
      ensures exists k :: 0 <= k < NUM_CONTROLLERS && m[k] == p
    {
      var k :| 0 <= k < |ps| && ps[k] == p;
      assert m[k] == p;
    }
  }

  /** The mapped slots hold strictly increasing ports. */
  lemma SlotMapIncreasing(enabled: seq<bool>, states: seq<ControllerState>)
    requires |enabled| == NUM_CONTROLLERS && |states| == NUM_CONTROLLERS
    ensures var m := SlotMap(enabled, states);
      forall a, b :: 0 <= a < b < NUM_CONTROLLERS && m[b] >= 0 ==> m[a] < m[b]
  {
    SlotMapShape(enabled, states);
    QualifyingPortsIncreasing(enabled, states, NUM_CONTROLLERS);
  }

  /** Controls[i].Present: 1 exactly for the mapped slots. */
  function PresentFlags(m: seq<int>): (present: seq<int>)
    ensures |present| == |m|
    ensures forall i :: 0 <= i < |m| ==> present[i] == (if m[i] >= 0 then 1 else 0)
  {
    seq(|m|, i requires 0 <= i < |m| => if m[i] >= 0 then 1 else 0)
  }

  ////////////////////////////////////////////////////////////////////////
  // GetKeys (lines 463-512)

  /** The BUTTONS value GetKeys produces: zero, or the value the button
      mapping and the analog scaling compute from a controller state. */
  datatype Keys = NoKeys | FromState(state: ControllerState)

  function KeysFor(m: seq<int>, states: seq<ControllerState>, control: nat): Keys
    requires |m| == NUM_CONTROLLERS && |states| == NUM_CONTROLLERS && control < NUM_CONTROLLERS
    requires forall k :: 0 <= k < NUM_CONTROLLERS ==> m[k] < NUM_CONTROLLERS
  {
    var port := m[control];
    if port < 0 then NoKeys
    else if states[port].status == 0 then NoKeys
    else FromState(states[port])
  }

  /** After a failed gca_init the states are zero, so whatever slot map
      survives from an earlier session, no control yields input. */
  lemma NoKeysAfterFailedInit(m: seq<int>, control: nat)
    requires |m| == NUM_CONTROLLERS && control < NUM_CONTROLLERS
    requires forall k :: 0 <= k < NUM_CONTROLLERS ==> m[k] < NUM_CONTROLLERS
    ensures KeysFor(m, ZeroStates(), control) == NoKeys
  {
  }

  /** After the mapping, a control slot yields input only when it is one
      of the first CountQualifying slots, and then from the qualifying port
      of that rank while its status stays non-zero. */
  lemma KeysComeFromQualifyingPort(enabled: seq<bool>, mapped: seq<ControllerState>,
                                   states: seq<ControllerState>, control: nat)
    requires |enabled| == NUM_CONTROLLERS && |mapped| == NUM_CONTROLLERS && |states| == NUM_CONTROLLERS
    requires control < NUM_CONTROLLERS
    ensures var m := SlotMap(enabled, mapped);
      && (forall k :: 0 <= k < NUM_CONTROLLERS ==> m[k] < NUM_CONTROLLERS)
      && (m[control] >= 0 <==> control < CountQualifying(enabled, mapped, NUM_CONTROLLERS))
      && (KeysFor(m, states, control).FromState? <==> m[control] >= 0 && states[m[control]].status != 0)
      && (KeysFor(m, states, control).FromState? ==>
            Qualifies(enabled, mapped, m[control]) && KeysFor(m, states, control).state == states[m[control]])
  {
    SlotMapSuffix(enabled, mapped);
    SlotMapQualifies(enabled, mapped);
  }

  ////////////////////////////////////////////////////////////////////////
  // The adapter state

  class Adapter {
    /** l_ControllerState, shared between the poll thread and GetKeys. */
    var controllerState: array<ControllerState>
    /** l_PolledState: set once a poll has produced a state. */
    var polledState: bool
    /** l_ControlToPort: the adapter port of each control slot, -1 for none. */
    var controlToPort: array<int>

    ghost predicate Valid()
      reads this, controlToPort
    {
      && controllerState.Length == NUM_CONTROLLERS
      && controlToPort.Length == NUM_CONTROLLERS
      && forall k :: 0 <= k < NUM_CONTROLLERS ==> -1 <= controlToPort[k] < NUM_CONTROLLERS
    }

    /** The plugin's start-up values: zero states, nothing polled, no slot mapped. */
    constructor ()
      ensures Valid() && fresh(controllerState) && fresh(controlToPort)
      ensures controllerState[..] == ZeroStates() && !polledState
      ensures controlToPort[..] == [-1, -1, -1, -1]
    {
      controllerState := new ControllerState[NUM_CONTROLLERS](_ => ZERO_STATE);
      polledState := false;
      controlToPort := new int[NUM_CONTROLLERS](_ => -1);
      new;
      assert controllerState[..] == ZeroStates();
      assert controlToPort[..] == [-1, -1, -1, -1];
    }

    /** gca_reset_state (lines 136-141): every controller state zero. */
    method ResetState()
      requires Valid()
      modifies controllerState
      ensures controllerState[..] == ZeroStates()
    {
      for i := 0 to NUM_CONTROLLERS
        invariant forall j :: 0 <= j < i ==> controllerState[j] == ZERO_STATE
      {
        controllerState[i] := ZERO_STATE;
      }
    }

    /** One iteration of gca_poll_thread (lines 229-269) after the transfer
        returned `ret` with `transferred` bytes in `readBuf`. `stop` says
        the thread returns (the adapter was unplugged). */
    method PollStep(ret: int, transferred: int, readBuf: array<byte>) returns (stop: bool)
      requires Valid() && readBuf.Length == REPORT_SIZE
      modifies this`polledState, controllerState
      ensures Valid()
      ensures stop <==> ret == LIBUSB_ERROR_NO_DEVICE
      ensures ret == LIBUSB_ERROR_NO_DEVICE ==> controllerState[..] == ZeroStates() && polledState
      ensures ret != LIBUSB_ERROR_NO_DEVICE && (ret != LIBUSB_SUCCESS || transferred != REPORT_SIZE) ==>
        controllerState[..] == old(controllerState[..]) && polledState == old(polledState)
      ensures ret == LIBUSB_SUCCESS && transferred == REPORT_SIZE ==>
        controllerState[..] == DecodeReport(readBuf[..]) && polledState
    {
      if ret == LIBUSB_ERROR_NO_DEVICE {
        ResetState();
        polledState := true;
        return true;
      } else if ret != LIBUSB_SUCCESS || transferred != REPORT_SIZE {
        return false;
      }
      var state := DecodeStates(readBuf);
      StoreStates(state);
      polledState := true;
      return false;
    }

    /** `l_ControllerState = state` under the state mutex. */
    method StoreStates(state: seq<ControllerState>)
      requires Valid() && |state| == NUM_CONTROLLERS
      modifies controllerState
      ensures controllerState[..] == state
    {
      for i := 0 to NUM_CONTROLLERS
        invariant forall j :: 0 <= j < i ==> controllerState[j] == state[j]
      {
        controllerState[i] := state[i];
      }
    }

    /** The state part of gca_init (lines 143-206): the controller states
        are zeroed and the polled flag lowered first, then the device is
        opened and set up. `deviceReady` is whether every libusb step of
        that set-up succeeds; the result is gca_init's. */
    method GcaInit(deviceReady: bool) returns (ok: bool)
      requires Valid()
      modifies controllerState, this`polledState
      ensures Valid()
      ensures controllerState[..] == ZeroStates() && !polledState
      ensures ok == deviceReady
    {
      ResetState();
      polledState := false;
      ok := deviceReady;
    }

    /** The decode loop of lines 251-263 into the thread's local `state`. */
    static method DecodeStates(readBuf: array<byte>) returns (state: seq<ControllerState>)
      requires readBuf.Length == REPORT_SIZE
      ensures state == DecodeReport(readBuf[..])
    {
      state := [];
      for i := 0 to NUM_CONTROLLERS
        invariant |state| == i
        invariant forall j :: 0 <= j < i ==> state[j] == DecodeController(readBuf[..], j)
      {
        var offset := i * PORT_STRIDE;
        state := state + [ControllerState(readBuf[offset + 1], readBuf[offset + 2], readBuf[offset + 3],
                                          readBuf[offset + 4], readBuf[offset + 5], readBuf[offset + 6],
                                          readBuf[offset + 7], readBuf[offset + 8], readBuf[offset + 9])];
      }
    }

    /** InitiateControllers (lines 512-549), with the PortEnabled settings
        as `enabled`; `present` is Controls[].Present. `deviceReady` is
        passed to gca_init. The poll thread runs between gca_init and the
        mapping: `polled` is the states it has stored, with the polled flag
        raised, when the wait loop of lines 525-528 ends and the mapping
        takes the state mutex. A failed gca_init has still zeroed the
        states and lowered the flag, and maps nothing. */
    method InitiateControllers(deviceReady: bool, polled: seq<ControllerState>, enabled: seq<bool>,
                               present: array<int>)
      requires Valid() && |enabled| == NUM_CONTROLLERS && |polled| == NUM_CONTROLLERS
      requires present.Length == NUM_CONTROLLERS && present != controlToPort
      modifies controllerState, this`polledState, controlToPort, present
      ensures Valid()
      ensures !deviceReady ==>
        && controllerState[..] == ZeroStates() && !polledState
        && controlToPort[..] == old(controlToPort[..]) && present[..] == old(present[..])
      ensures deviceReady ==>
        && controllerState[..] == polled && polledState
        && controlToPort[..] == SlotMap(enabled, polled)
        && present[..] == PresentFlags(controlToPort[..])
    {
      var ok := GcaInit(deviceReady);
      if !ok {
        return;
      }
      StoreStates(polled);
      polledState := true;
      MapPorts(enabled);
      for i := 0 to NUM_CONTROLLERS
        invariant controlToPort[..] == SlotMap(enabled, polled)
        invariant controllerState[..] == polled && polledState
        invariant forall j :: 0 <= j < i ==> present[j] == (if controlToPort[j] >= 0 then 1 else 0)
      {
        present[i] := if controlToPort[i] >= 0 then 1 else 0;
      }
    }

    /** Lines 534-543: reset every slot to -1, then give each qualifying
        port, ascending, the next free slot. */
    method MapPorts(enabled: seq<bool>)
      requires Valid() && |enabled| == NUM_CONTROLLERS
      modifies controlToPort
      ensures Valid()
      ensures controlToPort[..] == SlotMap(enabled, controllerState[..])
    {
      ghost var states := controllerState[..];
      controlToPort[0], controlToPort[1], controlToPort[2], controlToPort[3] := -1, -1, -1, -1;
      var controlSlot := 0;
      for i := 0 to NUM_CONTROLLERS
        invariant controlSlot == |QualifyingPorts(enabled, states, i)|
        invariant controlToPort[..controlSlot] == QualifyingPorts(enabled, states, i)
        invariant forall k :: controlSlot <= k < NUM_CONTROLLERS ==> controlToPort[k] == -1
        invariant forall k :: 0 <= k < controlSlot ==> 0 <= controlToPort[k] < i
      {
        if enabled[i] && controllerState[i].status > 0 {
          controlToPort[controlSlot] := i;
          controlSlot := controlSlot + 1;
        }
      }
      assert controlToPort[..] == controlToPort[..controlSlot] + controlToPort[controlSlot..];
    }

    /** GetKeys (lines 463-481) for a control slot 0-3: zero when the slot
        is unmapped or the mapped controller reports status 0. */
    method GetKeys(control: nat) returns (keys: Keys)
      requires Valid() && control < NUM_CONTROLLERS
      ensures keys == KeysFor(controlToPort[..], controllerState[..], control)
      ensures controlToPort[control] < 0 ==> keys == NoKeys
      ensures controlToPort[control] >= 0 && controllerState[controlToPort[control]].status == 0 ==> keys == NoKeys
    {
      var port := controlToPort[control];
      if port < 0 {
        return NoKeys;
      }
      var state := controllerState[port];
      if state.status == 0 {
        return NoKeys;
      }
      return FromState(state);
    }
  }
}

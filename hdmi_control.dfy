/**
 * The HDMI control service: the port table built from the CEC hardware, the
 * lookups between port ids and routing paths, the poll-strategy check, the
 * dispatch of an incoming CEC message to the local devices, and the power-status
 * transitions driven by screen on/off and logical-address allocation.
 */
module HdmiControl {
  import opened Wrappers

  /** The top nibble of a physical address: the TV's input port (HDMI 1.4, section 8.7). */
  const ROUTING_PATH_TOP_MASK: bv32 := 0xF000
  const INVALID_PHYSICAL_ADDRESS: bv32 := 0xFFFF
  const INVALID_PORT_ID: int := -1
  const POLL_STRATEGY_MASK: bv32 := 0x3
  const POLL_ITERATION_STRATEGY_MASK: bv32 := 0x30000
  const ADDR_BROADCAST: int := 15
  const ADDR_UNREGISTERED: int := 15

  /** HdmiPortInfo; a physical address is the 32-bit pattern of the Java int. */
  datatype HdmiPortInfo = HdmiPortInfo(
    id: int, portType: int, address: bv32,
    cecSupported: bool, mhlSupported: bool, arcSupported: bool)

  /** `i` is the first port whose id is `portId`. */
  predicate FirstWithId(ports: seq<HdmiPortInfo>, portId: int, i: int)
  {
    0 <= i < |ports| && ports[i].id == portId && forall j | 0 <= j < i :: ports[j].id != portId
  }

  /** `i` is the first port whose address is `address`. */
  predicate FirstWithAddress(ports: seq<HdmiPortInfo>, address: bv32, i: int)
  {
    0 <= i < |ports| && ports[i].address == address && forall j | 0 <= j < i :: ports[j].address != address
  }

  /** The for-each search of getPortInfo, from position `from`: an index, or -1. */
  function IndexOfId(ports: seq<HdmiPortInfo>, portId: int, from: nat): (k: int)
    requires from <= |ports|
    decreases |ports| - from
    ensures k == -1 || from <= k < |ports|
    ensures k >= 0 ==> ports[k].id == portId && forall j | from <= j < k :: ports[j].id != portId
    ensures k == -1 <==> forall j | from <= j < |ports| :: ports[j].id != portId
  {
    if from == |ports| then -1
    else if ports[from].id == portId then from
    else IndexOfId(ports, portId, from + 1)
  }

  /** The for-each search of pathToPortId, from position `from`: an index, or -1. */
  function IndexOfAddress(ports: seq<HdmiPortInfo>, address: bv32, from: nat): (k: int)
    requires from <= |ports|
    decreases |ports| - from
    ensures k == -1 || from <= k < |ports|
    ensures k >= 0 ==> ports[k].address == address && forall j | from <= j < k :: ports[j].address != address
    ensures k == -1 <==> forall j | from <= j < |ports| :: ports[j].address != address
  {
    if from == |ports| then -1
    else if ports[from].address == address then from
    else IndexOfAddress(ports, address, from + 1)
  }

  /** getPortInfo: the first port with the id, or nothing. */
  function GetPortInfo(ports: seq<HdmiPortInfo>, portId: int): (r: Option<HdmiPortInfo>)
    ensures r.None? <==> forall i | 0 <= i < |ports| :: ports[i].id != portId
    ensures forall i | FirstWithId(ports, portId, i) :: r == Some(ports[i])
  {
    var k := IndexOfId(ports, portId, 0);
    if k < 0 then None else Some(ports[k])
  }

  /** portIdToPath: the physical address of the port, or INVALID_PHYSICAL_ADDRESS. */
  function PortIdToPath(ports: seq<HdmiPortInfo>, portId: int): (path: bv32)
    ensures (forall i | 0 <= i < |ports| :: ports[i].id != portId) ==> path == INVALID_PHYSICAL_ADDRESS
    ensures forall i | FirstWithId(ports, portId, i) :: path == ports[i].address
  {
    match GetPortInfo(ports, portId)
    case None => INVALID_PHYSICAL_ADDRESS
    case Some(info) => info.address
  }

  /** pathToPortId: the id of the port at the top of the routing path, or INVALID_PORT_ID. */
  function PathToPortId(ports: seq<HdmiPortInfo>, path: bv32): (portId: int)
    ensures (forall i | 0 <= i < |ports| :: ports[i].address != path & ROUTING_PATH_TOP_MASK) ==>
      portId == INVALID_PORT_ID
    ensures forall i | FirstWithAddress(ports, path & ROUTING_PATH_TOP_MASK, i) :: portId == ports[i].id
  {
    var k := IndexOfAddress(ports, path & ROUTING_PATH_TOP_MASK, 0);
    if k < 0 then INVALID_PORT_ID else ports[k].id
  }

  /** The first digit of the physical address a.b.c.d: the TV input the device hangs off. */
  function FirstDigit(path: bv32): bv32
  {
    (path >> 12) & 0xF
  }

  /** hasSameTopPort: the two paths go through the same input port. */
  function HasSameTopPort(path1: bv32, path2: bv32): (r: bool)
    ensures r <==> FirstDigit(path1) == FirstDigit(path2)
  {
    path1 & ROUTING_PATH_TOP_MASK == path2 & ROUTING_PATH_TOP_MASK
  }

  /** Going through the same top port is an equivalence between routing paths. */
  lemma HasSameTopPortIsEquivalence(p: bv32, q: bv32, t: bv32)
    ensures HasSameTopPort(p, p)
    ensures HasSameTopPort(p, q) == HasSameTopPort(q, p)
    ensures HasSameTopPort(p, q) && HasSameTopPort(q, t) ==> HasSameTopPort(p, t)
  {
  }

  /** The port table the HAL reports: ids and addresses distinct, addresses of top-level ports. */
  ghost predicate WellFormedPorts(ports: seq<HdmiPortInfo>)
  {
    (forall i, j | 0 <= i < j < |ports| :: ports[i].id != ports[j].id && ports[i].address != ports[j].address)
    && (forall i | 0 <= i < |ports| ::
          ports[i].id != INVALID_PORT_ID && ports[i].address & ROUTING_PATH_TOP_MASK == ports[i].address)
  }

  /** Going from a port to its path and back gives the port. */
  lemma PortIdPathRoundTrip(ports: seq<HdmiPortInfo>, i: int)
    requires WellFormedPorts(ports) && 0 <= i < |ports|
    ensures PathToPortId(ports, PortIdToPath(ports, ports[i].id)) == ports[i].id
  {
    assert FirstWithId(ports, ports[i].id, i);
    assert FirstWithAddress(ports, ports[i].address, i);
  }

  /** Going from a path to its port and back gives the top of the path. */
  lemma PathPortIdRoundTrip(ports: seq<HdmiPortInfo>, path: bv32)
    requires WellFormedPorts(ports)
    requires PathToPortId(ports, path) != INVALID_PORT_ID
    ensures PortIdToPath(ports, PathToPortId(ports, path)) == path & ROUTING_PATH_TOP_MASK
  {
    var k := IndexOfAddress(ports, path & ROUTING_PATH_TOP_MASK, 0);
    assert k >= 0;
    assert FirstWithAddress(ports, path & ROUTING_PATH_TOP_MASK, k);
    assert FirstWithId(ports, ports[k].id, k);
  }

  /** Paths through the same top port resolve to the same port id. */
  lemma SameTopPortSamePortId(ports: seq<HdmiPortInfo>, path1: bv32, path2: bv32)
    requires HasSameTopPort(path1, path2)
    ensures PathToPortId(ports, path1) == PathToPortId(ports, path2)
  {
  }

  /** The for-each of isConnectedToArcPort, from position `from`. */
  function ArcPortFrom(ports: seq<HdmiPortInfo>, physicalAddress: bv32, from: nat): (r: bool)
    requires from <= |ports|
    decreases |ports| - from
    ensures r <==> exists i | from <= i < |ports| ::
      HasSameTopPort(ports[i].address, physicalAddress) && ports[i].arcSupported
  {
    if from == |ports| then false
    else if HasSameTopPort(ports[from].address, physicalAddress) && ports[from].arcSupported then true
    else ArcPortFrom(ports, physicalAddress, from + 1)
  }

  /** isConnectedToArcPort: some ARC-capable port is the top of the device's path. */
  function IsConnectedToArcPort(ports: seq<HdmiPortInfo>, physicalAddress: bv32): (r: bool)
    ensures r <==> exists i | 0 <= i < |ports| ::
      HasSameTopPort(ports[i].address, physicalAddress) && ports[i].arcSupported
  {
    ArcPortFrom(ports, physicalAddress, 0)
  }

  /** On a well-formed table, being on an ARC port is the ARC flag of the port the path resolves to. */
  lemma ArcPortIsPortOfPath(ports: seq<HdmiPortInfo>, physicalAddress: bv32)
    requires WellFormedPorts(ports)
    ensures IsConnectedToArcPort(ports, physicalAddress) <==>
      PathToPortId(ports, physicalAddress) != INVALID_PORT_ID
      && GetPortInfo(ports, PathToPortId(ports, physicalAddress)).Some?
      && GetPortInfo(ports, PathToPortId(ports, physicalAddress)).value.arcSupported
  {
    var top := physicalAddress & ROUTING_PATH_TOP_MASK;
    var k := IndexOfAddress(ports, top, 0);
    if k >= 0 {
      assert FirstWithAddress(ports, top, k);
      assert FirstWithId(ports, ports[k].id, k);
      forall i | 0 <= i < |ports| && HasSameTopPort(ports[i].address, physicalAddress)
        ensures i == k
      {
        assert ports[i].address == top;
      }
    } else {
      forall i | 0 <= i < |ports| ensures !HasSameTopPort(ports[i].address, physicalAddress) {
        assert ports[i].address & ROUTING_PATH_TOP_MASK == ports[i].address;
      }
    }
  }

  /** checkPollStrategy: both a pick strategy and an iteration strategy must be set; the rest is dropped. */
  function CheckPollStrategy(pickStrategy: bv32): (r: Result<bv32, Exception>)
    ensures r.Failure? <==>
      pickStrategy & POLL_STRATEGY_MASK == 0 || pickStrategy & POLL_ITERATION_STRATEGY_MASK == 0
    ensures r.Failure? ==> r.error == IllegalArgumentException
    ensures r.Success? ==>
      r.value & POLL_STRATEGY_MASK == pickStrategy & POLL_STRATEGY_MASK
      && r.value & POLL_ITERATION_STRATEGY_MASK == pickStrategy & POLL_ITERATION_STRATEGY_MASK
      && r.value & !(POLL_STRATEGY_MASK | POLL_ITERATION_STRATEGY_MASK) == 0
  {
    var strategy := pickStrategy & POLL_STRATEGY_MASK;
    if strategy == 0 then Failure(IllegalArgumentException)
    else
      var iterationStrategy := pickStrategy & POLL_ITERATION_STRATEGY_MASK;
      if iterationStrategy == 0 then Failure(IllegalArgumentException)
      else Success(strategy | iterationStrategy)
  }

  /** A strategy that passed the check passes it again unchanged. */
  lemma CheckPollStrategyIdempotent(pickStrategy: bv32)
    requires CheckPollStrategy(pickStrategy).Success?
    ensures CheckPollStrategy(CheckPollStrategy(pickStrategy).value) == CheckPollStrategy(pickStrategy)
  {
  }

  /** One CEC port combined with the MHL entry of the same id, when there is one. */
  function MergeWithMhl(cec: HdmiPortInfo, mhl: seq<HdmiPortInfo>): HdmiPortInfo
  {
    var k := IndexOfId(mhl, cec.id, 0);
    if k >= 0 then
      HdmiPortInfo(cec.id, cec.portType, cec.address, cec.cecSupported, mhl[k].mhlSupported, cec.arcSupported)
    else cec
  }

  /**
   * initPortInfo: nothing without CEC port information; otherwise every CEC port in
   * order, taking only the MHL support flag from the first MHL entry of the same id.
   */
  function InitPortInfo(cecPortInfo: Option<seq<HdmiPortInfo>>, mhlPortInfo: seq<HdmiPortInfo>): (ports: seq<HdmiPortInfo>)
    ensures cecPortInfo.None? ==> ports == []
    ensures cecPortInfo.Some? ==> |ports| == |cecPortInfo.value|
    ensures cecPortInfo.Some? ==> forall i | 0 <= i < |ports| ::
      var cec := cecPortInfo.value[i];
      ports[i].id == cec.id && ports[i].portType == cec.portType && ports[i].address == cec.address
      && ports[i].cecSupported == cec.cecSupported && ports[i].arcSupported == cec.arcSupported
      && ((forall j | 0 <= j < |mhlPortInfo| :: mhlPortInfo[j].id != cec.id) ==>
            ports[i].mhlSupported == cec.mhlSupported)
      && (forall j | FirstWithId(mhlPortInfo, cec.id, j) :: ports[i].mhlSupported == mhlPortInfo[j].mhlSupported)
  {
    match cecPortInfo
    case None => []
    case Some(cec) => seq(|cec|, i requires 0 <= i < |cec| => MergeWithMhl(cec[i], mhlPortInfo))
  }

  /** The MHL table is always empty in this service, so the port table is the CEC table itself. */
  lemma InitPortInfoIsCecTable(cec: seq<HdmiPortInfo>)
    ensures InitPortInfo(Some(cec), []) == cec
  {
    assert forall i | 0 <= i < |cec| :: InitPortInfo(Some(cec), [])[i] == cec[i];
  }

  /** The combined table is well formed whenever the CEC table is. */
  lemma InitPortInfoKeepsWellFormed(cec: seq<HdmiPortInfo>, mhl: seq<HdmiPortInfo>)
    requires WellFormedPorts(cec)
    ensures WellFormedPorts(InitPortInfo(Some(cec), mhl))
  {
  }

  /**
   * dispatchMessageToLocalDevice. `accepts[i]` is what the i-th local device's
   * dispatchMessage answers; `offered` is how many devices were given the message.
   * A directed message stops at the first device that takes it; a broadcast goes to all.
   */
  method DispatchMessageToLocalDevice(accepts: seq<bool>, destination: int) returns (handled: bool, offered: nat)
    ensures handled <==> destination != ADDR_BROADCAST && exists i | 0 <= i < |accepts| :: accepts[i]
    ensures handled ==>
      (1 <= offered <= |accepts| && accepts[offered - 1] && forall j | 0 <= j < offered - 1 :: !accepts[j])
    ensures !handled ==> offered == |accepts|
  {
    var i := 0;
    while i < |accepts|
      invariant 0 <= i <= |accepts|
      invariant destination != ADDR_BROADCAST ==> forall j | 0 <= j < i :: !accepts[j]
    {
      if accepts[i] && destination != ADDR_BROADCAST {
        return true, i + 1;
      }
      i := i + 1;
    }
    return false, i;
  }

  /** mPowerStatus; HdmiControlManager numbers them 0 to 3. */
  datatype PowerStatus = On | Standby | TransientToOn | TransientToStandby
  {
    function Code(): int
    {
      match this
      case On => 0
      case Standby => 1
      case TransientToOn => 2
      case TransientToStandby => 3
    }
  }

  predicate IsPowerOnOrTransient(s: PowerStatus) { s == On || s == TransientToOn }
  predicate IsPowerStandbyOrTransient(s: PowerStatus) { s == Standby || s == TransientToStandby }

  /** What moves the power status. */
  datatype PowerEvent = ScreenOff | ScreenOn | PendingActionsCleared | AllocationCompleted

  /**
   * The power status after an event: screen off and on start the transient states
   * (and are ignored when already heading that way), pending actions cleared ends
   * the way to standby, and completed address allocation ends the way to on.
   */
  function PowerAfter(s: PowerStatus, e: PowerEvent): (r: PowerStatus)
    ensures e == ScreenOff ==> IsPowerStandbyOrTransient(r) && (IsPowerStandbyOrTransient(s) ==> r == s)
    ensures e == ScreenOn ==> IsPowerOnOrTransient(r) && (IsPowerOnOrTransient(s) ==> r == s)
    ensures r == Standby && s != Standby ==> s == TransientToStandby && e == PendingActionsCleared
    ensures r == On && s != On ==> s == TransientToOn && e == AllocationCompleted
    ensures e == PendingActionsCleared ==>
      (s == TransientToStandby ==> r == Standby) && (s != TransientToStandby ==> r == s)
    ensures e == AllocationCompleted ==>
      (s == TransientToOn ==> r == On) && (s != TransientToOn ==> r == s)
  {
    match e
    case ScreenOff => if IsPowerOnOrTransient(s) then TransientToStandby else s
    case ScreenOn => if IsPowerStandbyOrTransient(s) then TransientToOn else s
    case PendingActionsCleared => if s == TransientToStandby then Standby else s
    case AllocationCompleted => if s == TransientToOn then On else s
  }

  /** The set of distinct device types in a configuration list. */
  function TypeSet(types: seq<int>): set<int>
  {
    set i | 0 <= i < |types| :: types[i]
  }

  lemma {:induction false} DistinctTypesCardinality(types: seq<int>)
    requires forall i, j | 0 <= i < j < |types| :: types[i] != types[j]
    ensures |TypeSet(types)| == |types|
    decreases |types|
  {
    if types != [] {
      var init := types[..|types| - 1];
      DistinctTypesCardinality(init);
      assert TypeSet(types) == TypeSet(init) + {types[|types| - 1]};
      assert types[|types| - 1] !in TypeSet(init);
    }
  }

  lemma {:induction false} TypeSetCardinalityBound(types: seq<int>)
    ensures |TypeSet(types)| <= |types|
    decreases |types|
  {
    if types != [] {
      var init := types[..|types| - 1];
      TypeSetCardinalityBound(init);
      assert TypeSet(types) == TypeSet(init) + {types[|types| - 1]};
    }
  }

  lemma SubsetOfSameSize(a: set<int>, b: set<int>)
    requires a <= b && |a| == |b|
    ensures a == b
  {
    assert |b - a| == |b| - |a|;
  }

  /**
   * The allocation round completes (finished.size() == deviceTypes.size()) exactly
   * when every configured type has reported, provided the configured types are
   * distinct; with a repeated type it never completes.
   */
  lemma AllocationCompletion(types: seq<int>, finished: map<int, int>)
    requires finished.Keys <= TypeSet(types)
    ensures (forall i, j | 0 <= i < j < |types| :: types[i] != types[j]) ==>
      (|finished| == |types| <==> finished.Keys == TypeSet(types))
    ensures (exists i, j | 0 <= i < j < |types| :: types[i] == types[j]) ==> |finished| < |types|
  {
    if forall i, j | 0 <= i < j < |types| :: types[i] != types[j] {
      DistinctTypesCardinality(types);
      assert |finished.Keys| == |finished|;
      if |finished| == |types| {
        SubsetOfSameSize(finished.Keys, TypeSet(types));
      }
    } else {
      var i, j :| 0 <= i < j < |types| && types[i] == types[j];
      RepeatedTypeShrinksSet(types, i, j);
      assert |finished.Keys| == |finished|;
      assert |TypeSet(types) - finished.Keys| == |TypeSet(types)| - |finished.Keys|;
    }
  }

  lemma RepeatedTypeShrinksSet(types: seq<int>, i: int, j: int)
    requires 0 <= i < j < |types| && types[i] == types[j]
    ensures |TypeSet(types)| < |types|
  {
    var without := types[..j] + types[j + 1..];
    assert TypeSet(types) == TypeSet(without) by {
      forall x | x in TypeSet(types) ensures x in TypeSet(without) {
        var m :| 0 <= m < |types| && types[m] == x;
        if m < j { assert without[m] == x; }
        else if m == j { assert without[i] == x; }
        else { assert without[m - 1] == x; }
      }
      forall x | x in TypeSet(without) ensures x in TypeSet(types) {
        var m :| 0 <= m < |without| && without[m] == x;
        if m < j { assert types[m] == x; } else { assert types[m + 1] == x; }
      }
    }
    TypeSetCardinalityBound(without);
  }

  /** Calls the service makes on the CEC controller, the local devices and the power manager. */
  datatype ServiceCall =
    | SetCecServiceControl(enabled: bool)
    | ClearLogicalAddress
    | AllocateLogicalAddress(deviceType: int)
    | DevicesTransitionToStandby(standbyMessageReceived: bool)
    | DevicesStandBy(standbyMessageReceived: bool)
    | NotifyAddressAllocated(devices: map<int, int>)
    | GoToSleep

  /** The allocation requests initializeLocalDevices issues, one per configured type in order. */
  function AllocationRequests(types: seq<int>): (calls: seq<ServiceCall>)
    ensures |calls| == |types|
    ensures forall i | 0 <= i < |types| :: calls[i] == AllocateLogicalAddress(types[i])
  {
    seq(|types|, i requires 0 <= i < |types| => AllocateLogicalAddress(types[i]))
  }

  class HdmiControlService {
    const hasCecController: bool
    const hasMhlController: bool
    /** config_hdmiCecLogicalDeviceType. */
    const localDeviceTypes: seq<int>
    var powerStatus: PowerStatus
    var standbyMessageReceived: bool
    var portInfo: seq<HdmiPortInfo>
    /** `finished` of the current allocation round: device type to logical address. */
    var finished: map<int, int>
    /** `devices` of the current allocation round: logical address to device type. */
    var devices: map<int, int>
    var receiverRegistered: bool
    var calls: seq<ServiceCall>

    /** The allocation round initializeLocalDevices starts. */
    function InitializeCalls(): seq<ServiceCall>
      reads this
    {
      [ClearLogicalAddress] + AllocationRequests(localDeviceTypes)
    }

    /** Construction followed by onStart. `cecPorts` is what the CEC HAL reports. */
    constructor(hasCec: bool, hasMhl: bool, deviceTypes: seq<int>, cecPorts: Option<seq<HdmiPortInfo>>)
      ensures hasCecController == hasCec && hasMhlController == hasMhl && localDeviceTypes == deviceTypes
      ensures powerStatus == TransientToOn && !standbyMessageReceived
      ensures portInfo == InitPortInfo(if hasCec then cecPorts else None, [])
      ensures finished == map[] && devices == map[]
      ensures receiverRegistered == (hasCec || hasMhl)
      ensures calls == if hasCec then [SetCecServiceControl(true)] + InitializeCalls() else []
    {
      hasCecController := hasCec;
      hasMhlController := hasMhl;
      localDeviceTypes := deviceTypes;
      powerStatus := TransientToOn;
      standbyMessageReceived := false;
      finished := map[];
      devices := map[];
      calls := [];
      portInfo := [];
      receiverRegistered := false;
      new;
      if hasCec {
        calls := [SetCecServiceControl(true), ClearLogicalAddress] + AllocationRequests(localDeviceTypes);
      }
      portInfo := InitPortInfo(if hasCec then cecPorts else None, []);
      receiverRegistered := hasCec || hasMhl;
    }

    /**
     * onAllocated of one allocation request: record the type as finished, keep the
     * device when it got an address, and when every request has answered leave
     * TRANSIENT_TO_ON for ON and tell the devices their addresses.
     */
    method OnAllocated(deviceType: int, logicalAddress: int)
      modifies this`finished, this`devices, this`powerStatus, this`calls
      ensures finished == old(finished)[deviceType := logicalAddress]
      ensures devices == if logicalAddress == ADDR_UNREGISTERED then old(devices)
                           else old(devices)[logicalAddress := deviceType]
      ensures |localDeviceTypes| == |finished| ==>
        powerStatus == PowerAfter(old(powerStatus), AllocationCompleted)
        && calls == old(calls) + [NotifyAddressAllocated(devices)]
      ensures |localDeviceTypes| != |finished| ==> powerStatus == old(powerStatus) && calls == old(calls)
    {
      if logicalAddress != ADDR_UNREGISTERED {
        devices := devices[logicalAddress := deviceType];
      }
      finished := finished[deviceType := logicalAddress];
      if |localDeviceTypes| == |finished| {
        if powerStatus == TransientToOn {
          powerStatus := On;
        }
        calls := calls + [NotifyAddressAllocated(devices)];
      }
    }

    /** standby: remember that a CEC <Standby> asked for it, then ask the power manager to sleep. */
    method Standby()
      modifies this`standbyMessageReceived, this`calls
      ensures standbyMessageReceived && calls == old(calls) + [GoToSleep]
    {
      standbyMessageReceived := true;
      calls := calls + [GoToSleep];
    }

    /** The receiver's ACTION_SCREEN_OFF: onStandby when on or heading on. */
    method OnScreenOff() returns (outcome: Outcome)
      requires receiverRegistered
      modifies this`powerStatus, this`calls
      ensures powerStatus == PowerAfter(old(powerStatus), ScreenOff)
      ensures IsPowerOnOrTransient(old(powerStatus)) && hasCecController ==>
        outcome == Done && calls == old(calls) + [DevicesTransitionToStandby(standbyMessageReceived)]
      ensures IsPowerOnOrTransient(old(powerStatus)) && !hasCecController ==>
        outcome == Thrown(NullPointerException) && calls == old(calls)
      ensures !IsPowerOnOrTransient(old(powerStatus)) ==> outcome == Done && calls == old(calls)
    {
      outcome := Done;
      if IsPowerOnOrTransient(powerStatus) {
        powerStatus := TransientToStandby;
        if !hasCecController {
          return Thrown(NullPointerException);
        }
        calls := calls + [DevicesTransitionToStandby(standbyMessageReceived)];
      }
    }

    /** The receiver's ACTION_SCREEN_ON: onWakeUp when in standby or heading there. */
    method OnScreenOn()
      requires receiverRegistered
      modifies this`powerStatus, this`calls, this`finished, this`devices
      ensures powerStatus == PowerAfter(old(powerStatus), ScreenOn)
      ensures IsPowerStandbyOrTransient(old(powerStatus)) && hasCecController ==>
        calls == old(calls) + [SetCecServiceControl(true)] + InitializeCalls()
        && finished == map[] && devices == map[]
      ensures !(IsPowerStandbyOrTransient(old(powerStatus)) && hasCecController) ==>
        calls == old(calls) && finished == old(finished) && devices == old(devices)
    {
      if IsPowerStandbyOrTransient(powerStatus) {
        powerStatus := TransientToOn;
        if hasCecController {
          calls := calls + [SetCecServiceControl(true)] + InitializeCalls();
          finished := map[];
          devices := map[];
        }
      }
    }

    /** onPendingActionsCleared: the way to standby ends, the devices go to standby, the flag resets. */
    method OnPendingActionsCleared() returns (outcome: Outcome)
      modifies this`powerStatus, this`calls, this`standbyMessageReceived
      ensures powerStatus == PowerAfter(old(powerStatus), PendingActionsCleared)
      ensures old(powerStatus) == TransientToStandby && hasCecController ==>
        outcome == Done && !standbyMessageReceived
        && calls == old(calls) + [DevicesStandBy(old(standbyMessageReceived)), SetCecServiceControl(false)]
      ensures old(powerStatus) == TransientToStandby && !hasCecController ==>
        outcome == Thrown(NullPointerException)
        && standbyMessageReceived == old(standbyMessageReceived) && calls == old(calls)
      ensures old(powerStatus) != TransientToStandby ==>
        outcome == Done && standbyMessageReceived == old(standbyMessageReceived) && calls == old(calls)
    {
      if powerStatus != TransientToStandby {
        return Done;
      }
      powerStatus := PowerStatus.Standby;
      if !hasCecController {
        return Thrown(NullPointerException);
      }
      calls := calls + [DevicesStandBy(standbyMessageReceived)];
      standbyMessageReceived := false;
      calls := calls + [SetCecServiceControl(false)];
      return Done;
    }
  }
}

/** The non-recursive logic of the Processor resource: status of
    accelerators, cores and threads, the high-speed core list, validation of
    an AppliedOperatingConfig PATCH, and the lookup of a single processor. */
module Processor {
  import opened Wrappers
  import opened Dbus
  import opened Messages
  import opened Strings
  import Paths
  import Numbers

  const CPU_INTERFACE := "xyz.openbmc_project.Inventory.Item.Cpu"
  const ACCELERATOR_INTERFACE := "xyz.openbmc_project.Inventory.Item.Accelerator"
  const CPU_CORE_INTERFACE := "xyz.openbmc_project.Inventory.Item.CpuCore"
  const CPU_THREAD_INTERFACE := "xyz.openbmc_project.Inventory.Item.CpuThread"
  const OPERATIONAL_STATUS_INTERFACE := "xyz.openbmc_project.State.Decorator.OperationalStatus"
  const ITEM_INTERFACE := "xyz.openbmc_project.Inventory.Item"
  const OPERATING_CONFIG_INTERFACE := "xyz.openbmc_project.Control.Processor.CurrentOperatingConfig"

  datatype Status = Status(state: string, health: string)

  // ---------------------------------------------------------------------
  // Accelerator status

  /** unpackPropertiesNoThrow for one bool property: none when absent, an
      error when an entry of that name holds another type, otherwise the
      value of the last entry of that name. */
  function UnpackBool(props: PropertyMap, name: string): (r: Result<Option<bool>, Error>)
    ensures r.Err? <==> exists i :: 0 <= i < |props| && props[i].0 == name && !props[i].1.Bool?
    ensures r == Ok(None) <==> forall i :: 0 <= i < |props| ==> props[i].0 != name
    ensures r.Ok? && r.value.Some? ==> exists i :: 0 <= i < |props| && props[i] == (name, Bool(r.value.value))
  {
    var v :- Unpack(props, name, (v: Value) => v.Bool?);
    Ok(if v.Some? then Some(v.value.b) else None)
  }

  /** The Status the accelerator handler writes from Present and
      Functional: Absent exactly when Present is false, and Critical exactly
      when Functional is false while the state is still Enabled. */
  function AcceleratorStatus(present: Option<bool>, functional: Option<bool>): (s: Status)
    ensures s.state == "Absent" <==> present == Some(false)
    ensures s.state == "Enabled" <==> present != Some(false)
    ensures s.health == "Critical" <==> functional == Some(false) && present != Some(false)
    ensures s.health == "OK" <==> !(functional == Some(false) && present != Some(false))
  {
    var state := if present.Some? && !present.value then "Absent" else "Enabled";
    var health := if functional.Some? && !functional.value && state == "Enabled" then "Critical" else "OK";
    Status(state, health)
  }

  /** getAcceleratorDataByService: a failed property fetch or a wrongly typed
      property is an internal error; otherwise the status above. */
  function AcceleratorData(reply: Reply<PropertyMap>): (r: Result<Status, Error>)
    ensures reply.Fail? ==> r == Err(InternalError)
    ensures reply.Answer? ==>
              (r.Ok? <==> UnpackBool(reply.value, "Functional").Ok? && UnpackBool(reply.value, "Present").Ok?)
    ensures r.Err? ==> r.error == InternalError
    ensures reply.Answer? && r.Ok? ==> (r.value.state == "Absent" <==> UnpackBool(reply.value, "Present") == Ok(Some(false)))
    ensures reply.Answer? && r.Ok? ==>
              (r.value.health == "Critical" <==>
                 UnpackBool(reply.value, "Functional") == Ok(Some(false))
                 && UnpackBool(reply.value, "Present") != Ok(Some(false)))
  {
    match reply
    case Fail(_) => Err(InternalError)
    case Answer(props) =>
      var functional :- UnpackBool(props, "Functional");
      var present :- UnpackBool(props, "Present");
      Ok(AcceleratorStatus(present, functional))
  }

  // ---------------------------------------------------------------------
  // Core and thread properties (getCpuCoreDataByService and
  // getCoreThreadDataByService)

  /** What the core and thread handlers gather from an object's interfaces.
      Present and Functional start out false. */
  datatype SubProcessorFields = SubProcessorFields(
    name: string, present: bool, functional: bool, microcode: Option<string>)

  const INITIAL_FIELDS := SubProcessorFields("SubProcessor", false, false, None)

  /** The type a property must have, when the handlers read it: Functional
      on OperationalStatus, Present and PrettyName on Item, Microcode on the
      item-specific interface (CpuCore or CpuThread). */
  predicate WellTypedProperty(itemIface: string, iface: string, key: string, v: Value) {
    && (iface == OPERATIONAL_STATUS_INTERFACE && key == "Functional" ==> v.Bool?)
    && (iface == ITEM_INTERFACE && key == "Present" ==> v.Bool?)
    && (iface == ITEM_INTERFACE && key == "PrettyName" ==> v.Str?)
    && ((iface == itemIface && iface != OPERATIONAL_STATUS_INTERFACE && iface != ITEM_INTERFACE
         && key == "Microcode") ==> v.U32?)
  }

  predicate WellTypedProperties(itemIface: string, iface: string, props: PropertyMap) {
    forall j :: 0 <= j < |props| ==> WellTypedProperty(itemIface, iface, props[j].0, props[j].1)
  }

  predicate WellTyped(itemIface: string, ifaces: InterfaceMap) {
    forall i :: 0 <= i < |ifaces| ==> WellTypedProperties(itemIface, ifaces[i].0, ifaces[i].1)
  }

  /** The microcode text: "0x" and eight upper-case hex digits. */
  function MicrocodeInfo(value: nat): (r: string)
    ensures |r| == 10 && r[..2] == "0x"
    ensures forall i :: 2 <= i < |r| ==> Numbers.IsHexDigit(r[i])
  {
    "0x" + Numbers.IntToHexString(value, 8)
  }

  /** Any 32-bit microcode value is recovered from its text. */
  lemma MicrocodeRoundTrip(value: nat)
    requires value < 0x1_0000_0000
    ensures Numbers.HexValue(MicrocodeInfo(value)[2..]) == value
  {
    assert Numbers.Pow16(8) == 0x1_0000_0000;
    assert MicrocodeInfo(value)[2..] == Numbers.IntToHexString(value, 8);
    Numbers.HexRoundTrip(value, 8);
  }

  function ApplyProperty(f: SubProcessorFields, itemIface: string, iface: string, key: string, v: Value)
    : (r: Result<SubProcessorFields, Error>)
    ensures r.Ok? <==> WellTypedProperty(itemIface, iface, key, v)
  {
    if iface == OPERATIONAL_STATUS_INTERFACE then
      if key == "Functional" then
        if v.Bool? then Ok(f.(functional := v.b)) else Err(InternalError)
      else Ok(f)
    else if iface == ITEM_INTERFACE then
      if key == "Present" then
        if v.Bool? then Ok(f.(present := v.b)) else Err(InternalError)
      else if key == "PrettyName" then
        if v.Str? then Ok(f.(name := v.s)) else Err(InternalError)
      else Ok(f)
    else if iface == itemIface then
      if key == "Microcode" then
        if v.U32? then Ok(f.(microcode := Some(MicrocodeInfo(v.n)))) else Err(InternalError)
      else Ok(f)
    else Ok(f)
  }

  function ApplyProperties(f: SubProcessorFields, itemIface: string, iface: string, props: PropertyMap)
    : (r: Result<SubProcessorFields, Error>)
    ensures r.Ok? <==> WellTypedProperties(itemIface, iface, props)
    decreases |props|
  {
    if |props| == 0 then Ok(f)
    else
      assert forall j :: 1 <= j < |props| ==> props[j] == props[1..][j - 1];
      match ApplyProperty(f, itemIface, iface, props[0].0, props[0].1)
      case Err(e) => Err(e)
      case Ok(f') => ApplyProperties(f', itemIface, iface, props[1..])
  }

  /** Walk the interfaces in order; the first wrongly typed property stops
      the handler with an internal error. */
  function ReadSubProcessorFields(f: SubProcessorFields, itemIface: string, ifaces: InterfaceMap)
    : (r: Result<SubProcessorFields, Error>)
    ensures r.Ok? <==> WellTyped(itemIface, ifaces)
    ensures r.Err? ==> r.error == InternalError
    decreases |ifaces|
  {
    if |ifaces| == 0 then Ok(f)
    else
      assert forall i :: 1 <= i < |ifaces| ==> ifaces[i] == ifaces[1..][i - 1];
      match ApplyProperties(f, itemIface, ifaces[0].0, ifaces[0].1)
      case Err(e) => Err(InternalError)
      case Ok(f') => ReadSubProcessorFields(f', itemIface, ifaces[1..])
  }

  /** The status a core or thread reports: unlike an accelerator, Absent and
      Critical are decided independently, and a missing property counts as
      false. */
  function SubProcessorStatus(f: SubProcessorFields): (s: Status)
    ensures s.state == "Absent" <==> !f.present
    ensures s.state == "Enabled" <==> f.present
    ensures s.health == "Critical" <==> !f.functional
    ensures s.health == "OK" <==> f.functional
  {
    Status(if f.present then "Enabled" else "Absent", if f.functional then "OK" else "Critical")
  }

  /** An object that publishes neither Present nor Functional is reported
      Absent and Critical. */
  lemma NoStatusPropertiesMeansAbsentAndCritical(itemIface: string, ifaces: InterfaceMap)
    requires forall i :: 0 <= i < |ifaces| ==> ifaces[i].0 != OPERATIONAL_STATUS_INTERFACE && ifaces[i].0 != ITEM_INTERFACE
    requires WellTyped(itemIface, ifaces)
    ensures ReadSubProcessorFields(INITIAL_FIELDS, itemIface, ifaces).Ok?
    ensures SubProcessorStatus(ReadSubProcessorFields(INITIAL_FIELDS, itemIface, ifaces).value) == Status("Absent", "Critical")
  {
    NoStatusPropertiesKeepFlags(INITIAL_FIELDS, itemIface, ifaces);
  }

  lemma {:induction false} NoStatusPropertiesKeepFlags(f: SubProcessorFields, itemIface: string, ifaces: InterfaceMap)
    requires forall i :: 0 <= i < |ifaces| ==> ifaces[i].0 != OPERATIONAL_STATUS_INTERFACE && ifaces[i].0 != ITEM_INTERFACE
    requires WellTyped(itemIface, ifaces)
    ensures ReadSubProcessorFields(f, itemIface, ifaces).Ok?
    ensures ReadSubProcessorFields(f, itemIface, ifaces).value.present == f.present
    ensures ReadSubProcessorFields(f, itemIface, ifaces).value.functional == f.functional
    decreases |ifaces|
  {
    if |ifaces| > 0 {
      NoStatusPropertiesKeepFlagsInInterface(f, itemIface, ifaces[0].0, ifaces[0].1);
      var f' := ApplyProperties(f, itemIface, ifaces[0].0, ifaces[0].1).value;
      assert forall i :: 1 <= i < |ifaces| ==> ifaces[i] == ifaces[1..][i - 1];
      NoStatusPropertiesKeepFlags(f', itemIface, ifaces[1..]);
    }
  }

  lemma {:induction false} NoStatusPropertiesKeepFlagsInInterface(
    f: SubProcessorFields, itemIface: string, iface: string, props: PropertyMap)
    requires iface != OPERATIONAL_STATUS_INTERFACE && iface != ITEM_INTERFACE
    requires WellTypedProperties(itemIface, iface, props)
    ensures ApplyProperties(f, itemIface, iface, props).Ok?
    ensures ApplyProperties(f, itemIface, iface, props).value.present == f.present
    ensures ApplyProperties(f, itemIface, iface, props).value.functional == f.functional
    decreases |props|
  {
    if |props| > 0 {
      var f' := ApplyProperty(f, itemIface, iface, props[0].0, props[0].1).value;
      assert forall j :: 1 <= j < |props| ==> props[j] == props[1..][j - 1];
      NoStatusPropertiesKeepFlagsInInterface(f', itemIface, iface, props[1..]);
    }
  }

  // ---------------------------------------------------------------------
  // HighSpeedCoreIDs

  /** One BaseSpeedPrioritySettings entry: base frequency and its cores. */
  type SpeedGroup = (nat, seq<nat>)

  /** highSpeedCoreIdsHandler: the cores of the first group whose base speed
      is strictly the highest; groups at speed 0 never qualify, and no
      qualifying group gives an empty list. */
  method HighSpeedCoreIds(groups: seq<SpeedGroup>) returns (cores: seq<nat>, chosen: Option<nat>)
    ensures chosen.None? <==> forall i :: 0 <= i < |groups| ==> groups[i].0 == 0
    ensures chosen.None? ==> cores == []
    ensures chosen.Some? ==> chosen.value < |groups| && cores == groups[chosen.value].1
    ensures chosen.Some? ==> groups[chosen.value].0 > 0
    ensures chosen.Some? ==> forall i :: 0 <= i < |groups| ==> groups[i].0 <= groups[chosen.value].0
    ensures chosen.Some? ==> forall i :: 0 <= i < chosen.value ==> groups[i].0 < groups[chosen.value].0
  {
    var highest: nat := 0;
    chosen := None;
    var k := 0;
    while k < |groups|
      invariant 0 <= k <= |groups|
      invariant chosen.None? ==> highest == 0 && forall i :: 0 <= i < k ==> groups[i].0 == 0
      invariant chosen.Some? ==> chosen.value < k && highest == groups[chosen.value].0 > 0
      invariant forall i :: 0 <= i < k ==> groups[i].0 <= highest
      invariant chosen.Some? ==> forall i :: 0 <= i < chosen.value ==> groups[i].0 < highest
    {
      if groups[k].0 > highest {
        highest := groups[k].0;
        chosen := Some(k);
      }
      k := k + 1;
    }
    cores := if chosen.Some? then groups[chosen.value].1 else [];
  }

  // ---------------------------------------------------------------------
  // AppliedOperatingConfig PATCH

  function ConfigPrefix(processorId: string): string {
    "/redfish/v1/Systems/system/Processors/" + processorId + "/OperatingConfigs/"
  }

  /** The first service implementing CurrentOperatingConfig, if any. */
  function ControlService(services: ServiceMap): (r: Option<string>)
    ensures r.None? <==> !ServiceMapHas(services, OPERATING_CONFIG_INTERFACE)
    ensures r.Some? ==> exists i :: 0 <= i < |services| && services[i].0 == r.value
                                   && OPERATING_CONFIG_INTERFACE in services[i].1
                                   && forall k :: 0 <= k < i ==> OPERATING_CONFIG_INTERFACE !in services[k].1
    decreases |services|
  {
    if |services| == 0 then None
    else if OPERATING_CONFIG_INTERFACE in services[0].1 then Some(services[0].0)
    else
      assert forall i :: 1 <= i < |services| ==> services[i] == services[1..][i - 1];
      var rest := ControlService(services[1..]);
      assert rest.Some? ==> exists i :: 0 <= i < |services| && services[i].0 == rest.value
                                   && OPERATING_CONFIG_INTERFACE in services[i].1
                                   && forall k :: 0 <= k < i ==> OPERATING_CONFIG_INTERFACE !in services[k].1 by {
        if rest.Some? {
          var j :| 0 <= j < |services[1..]| && services[1..][j].0 == rest.value
                   && OPERATING_CONFIG_INTERFACE in services[1..][j].1
                   && forall k :: 0 <= k < j ==> OPERATING_CONFIG_INTERFACE !in services[1..][k].1;
          assert forall k :: 0 <= k < j + 1 ==> OPERATING_CONFIG_INTERFACE !in services[k].1 by {
            forall k | 0 <= k < j + 1 ensures OPERATING_CONFIG_INTERFACE !in services[k].1 {
              if k > 0 { assert services[k] == services[1..][k - 1]; }
            }
          }
        }
      }
      rest
  }

  /** patchAppliedOperatingConfig: the service to call and the D-Bus path of
      the requested configuration. The URI must lie strictly below the
      processor's OperatingConfigs collection; the configuration's path is
      the CPU's path joined with the rest of the URI. */
  function AppliedConfigTarget(processorId: string, uri: string, cpuPath: Path, services: ServiceMap)
    : (r: Result<(string, Path), Error>)
    ensures r.Ok? <==> ServiceMapHas(services, OPERATING_CONFIG_INTERFACE)
                       && StartsWith(uri, ConfigPrefix(processorId))
                       && |uri| > |ConfigPrefix(processorId)|
    ensures ServiceMapHas(services, OPERATING_CONFIG_INTERFACE) && r.Err? ==>
              r.error == PropertyValueIncorrect("AppliedOperatingConfig/@odata.id", uri)
    ensures !ServiceMapHas(services, OPERATING_CONFIG_INTERFACE) ==> r == Err(InternalError)
    ensures r.Ok? ==> Some(r.value.0) == ControlService(services)
    ensures r.Ok? ==> r.value.1 == Paths.Join(cpuPath, uri[|ConfigPrefix(processorId)|..])
  {
    var service :- ControlService(services).ToResult(InternalError);
    var prefix := ConfigPrefix(processorId);
    if !StartsWith(uri, prefix) || |prefix| == |uri| then
      Err(PropertyValueIncorrect("AppliedOperatingConfig/@odata.id", uri))
    else
      Ok((service, Paths.Join(cpuPath, uri[|prefix|..])))
  }

  /** The URI of a configuration, accepted and mapped back to the D-Bus
      object below the CPU whose filename is the configuration's name. */
  lemma AppliedConfigRoundTrip(processorId: string, name: string, cpuPath: Path, services: ServiceMap)
    requires ServiceMapHas(services, OPERATING_CONFIG_INTERFACE)
    requires |name| > 0 && '/' !in name
    ensures AppliedConfigTarget(processorId, ConfigPrefix(processorId) + name, cpuPath, services).Ok?
    ensures Paths.Filename(AppliedConfigTarget(processorId, ConfigPrefix(processorId) + name, cpuPath, services).value.1) == name
  {
    var prefix := ConfigPrefix(processorId);
    StartsWithConcat(prefix, name);
    assert (prefix + name)[|prefix|..] == name;
    Paths.FilenameOfJoin(cpuPath, name);
  }

  /** The collection URI itself, with nothing after the prefix, is refused. */
  lemma AppliedConfigRejectsBarePrefix(processorId: string, cpuPath: Path, services: ServiceMap)
    requires ServiceMapHas(services, OPERATING_CONFIG_INTERFACE)
    ensures AppliedConfigTarget(processorId, ConfigPrefix(processorId), cpuPath, services)
         == Err(PropertyValueIncorrect("AppliedOperatingConfig/@odata.id", ConfigPrefix(processorId)))
  {
  }

  // ---------------------------------------------------------------------
  // Lookup of one processor (getProcessorObject)

  predicate IsProcessorObject(services: ServiceMap) {
    ServiceMapHas(services, CPU_INTERFACE) || ServiceMapHas(services, ACCELERATOR_INTERFACE)
  }

  /** The object the handler picks, as written: the first whose path ENDS
      WITH the requested id and that implements Cpu or Accelerator. */
  function FindProcessorAsWritten(reply: Reply<Listing>, processorId: string): (r: Result<(Path, ServiceMap), Error>)
    ensures reply.Fail? ==> r == Err(InternalError)
    ensures reply.Answer? && r.Ok? ==>
              r.value in reply.value && EndsWith(r.value.0, processorId) && IsProcessorObject(r.value.1)
    ensures reply.Answer? ==> (r.Err? <==> forall i :: 0 <= i < |reply.value| ==>
                             !(EndsWith(reply.value[i].0, processorId) && IsProcessorObject(reply.value[i].1)))
    ensures reply.Answer? && r.Ok? ==>
              exists i :: 0 <= i < |reply.value| && reply.value[i] == r.value
                && forall k :: 0 <= k < i ==>
                     !(EndsWith(reply.value[k].0, processorId) && IsProcessorObject(reply.value[k].1))
  {
    match reply
    case Fail(_) => Err(InternalError)
    case Answer(listing) => FirstProcessor(listing, processorId, (p: Path) => EndsWith(p, processorId))
  }

  /** The intended rule: the object's filename IS the requested id. */
  function FindProcessor(reply: Reply<Listing>, processorId: string): (r: Result<(Path, ServiceMap), Error>)
    ensures reply.Fail? ==> r == Err(InternalError)
    ensures reply.Answer? && r.Ok? ==>
              r.value in reply.value && Paths.Filename(r.value.0) == processorId && IsProcessorObject(r.value.1)
    ensures reply.Answer? ==> (r.Err? <==> forall i :: 0 <= i < |reply.value| ==>
                             !(Paths.Filename(reply.value[i].0) == processorId && IsProcessorObject(reply.value[i].1)))
    ensures reply.Answer? && r.Ok? ==>
              exists i :: 0 <= i < |reply.value| && reply.value[i] == r.value
                && forall k :: 0 <= k < i ==>
                     !(Paths.Filename(reply.value[k].0) == processorId && IsProcessorObject(reply.value[k].1))
    ensures r.Err? ==> r.error == InternalError || r.error == ResourceNotFound("Processor", processorId)
  {
    match reply
    case Fail(_) => Err(InternalError)
    case Answer(listing) => FirstProcessor(listing, processorId, (p: Path) => Paths.Filename(p) == processorId)
  }

  function FirstProcessor(listing: Listing, processorId: string, matches: Path -> bool)
    : (r: Result<(Path, ServiceMap), Error>)
    ensures r.Ok? ==> r.value in listing && matches(r.value.0) && IsProcessorObject(r.value.1)
    ensures r.Err? <==> forall i :: 0 <= i < |listing| ==> !(matches(listing[i].0) && IsProcessorObject(listing[i].1))
    ensures r.Err? ==> r.error == ResourceNotFound("Processor", processorId)
    ensures r.Ok? ==>
              exists i :: 0 <= i < |listing| && listing[i] == r.value
                && forall k :: 0 <= k < i ==> !(matches(listing[k].0) && IsProcessorObject(listing[k].1))
    decreases |listing|
  {
    if |listing| == 0 then Err(ResourceNotFound("Processor", processorId))
    else if matches(listing[0].0) && IsProcessorObject(listing[0].1) then Ok(listing[0])
    else
      assert forall i :: 1 <= i < |listing| ==> listing[i] == listing[1..][i - 1];
      var r := FirstProcessor(listing[1..], processorId, matches);
      assert r.Ok? ==>
               exists i :: 0 <= i < |listing| && listing[i] == r.value
                 && forall k :: 0 <= k < i ==> !(matches(listing[k].0) && IsProcessorObject(listing[k].1)) by {
        if r.Ok? {
          var j :| 0 <= j < |listing[1..]| && listing[1..][j] == r.value
                   && forall k :: 0 <= k < j ==> !(matches(listing[1..][k].0) && IsProcessorObject(listing[1..][k].1));
          assert listing[j + 1] == r.value;
        }
      }
      r
  }

  /** The ends_with rule serves a processor under an id that is not its
      name: a request for "pu0" is answered with the object cpu0. */
  lemma EndsWithMatchesWrongProcessor()
    ensures var listing := [("/inventory/cpu0",
                             [("xyz.openbmc_project.Inventory.Manager", [CPU_INTERFACE])])];
            && FindProcessorAsWritten(Answer(listing), "pu0").Ok?
            && FindProcessor(Answer(listing), "pu0") == Err(ResourceNotFound("Processor", "pu0"))
  {
    var path := "/inventory/cpu0";
    var services: ServiceMap := [("xyz.openbmc_project.Inventory.Manager", [CPU_INTERFACE])];
    assert path == "/inventory" + "/" + "cpu0";
    Paths.FilenameOfJoin("/inventory", "cpu0");
    assert EndsWith(path, "pu0");
    assert ServiceMapHas(services, CPU_INTERFACE) by {
      assert CPU_INTERFACE in services[0].1;
    }
  }

  /** Whenever the filename rule finds an object, the as-written rule finds
      one too (not necessarily the same: an earlier object may merely end
      with the id). */
  lemma FilenameMatchImpliesEndsWith(p: Path, processorId: string)
    requires Paths.Filename(p) == processorId
    ensures EndsWith(p, processorId)
  {
  }
}

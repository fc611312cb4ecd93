/** The Memory (DIMM) resource: translation of the D-Bus DeviceType
    enumeration, the hexadecimal identifiers, the KiB-to-MiB sizes, the
    suffix classifiers, which objects of an ObjectManager dump become DIMM
    members and at which position, the attribution of persistent-memory
    partitions to their DIMM, and the scan for the services to query. */
module Memory {
  import opened Wrappers
  import opened Dbus
  import opened Messages
  import opened Strings
  import Paths
  import Numbers

  const DIMM_INTERFACE := "xyz.openbmc_project.Inventory.Item.Dimm"
  const PARTITION_INTERFACE := "xyz.openbmc_project.Inventory.Item.PersistentMemory.Partition"
  const DEVICE_TYPE_PREFIX := "xyz.openbmc_project." + "Inventory.Item.Dimm." + "DeviceType."

  // ---------------------------------------------------------------------
  // MemoryDeviceType

  /** The Redfish MemoryDeviceType values the translation can produce. */
  const DEVICE_TYPE_NAMES: set<string> := {
    "DDR", "DDR2", "DDR3", "DDR4", "DDR4E_SDRAM", "DDR5", "LPDDR4_SDRAM",
    "LPDDR3_SDRAM", "DDR2_SDRAM_FB_DIMM", "DDR2_SDRAM_FB_DIMM_PROBE",
    "DDR_SGRAM", "ROM", "SDRAM", "EDO", "FastPageMode", "PipelinedNibble",
    "Logical", "HBM", "HBM2", "HBM3"
  }

  /** The enumeration value a Redfish name is translated from: the name
      itself, except for the one value whose D-Bus spelling lacks the final
      letter. */
  function DeviceTypeValue(name: string): string {
    if name == "DDR2_SDRAM_FB_DIMM_PROBE" then "DDR2_SDRAM_FB_DIMM_PROB" else name
  }

  /** The D-Bus DeviceType a Redfish name is translated from. */
  function DeviceTypeOf(name: string): string {
    DEVICE_TYPE_PREFIX + DeviceTypeValue(name)
  }

  lemma DeviceTypeOfHasPrefix(name: string)
    ensures StartsWith(DeviceTypeOf(name), DEVICE_TYPE_PREFIX)
    ensures DeviceTypeOf(name)[|DEVICE_TYPE_PREFIX|..] == DeviceTypeValue(name)
  {
    var v := DeviceTypeValue(name);
    assert (DEVICE_TYPE_PREFIX + v)[..|DEVICE_TYPE_PREFIX|] == DEVICE_TYPE_PREFIX;
    assert (DEVICE_TYPE_PREFIX + v)[|DEVICE_TYPE_PREFIX|..] == v;
  }

  /** The table of translateMemoryTypeToRedfish on the enumeration value
      (the text after the prefix): the Redfish name whose value it is, and
      "" for every other value. */
  function TranslateValue(v: string): (r: string)
    ensures r != "" ==> r in DEVICE_TYPE_NAMES && DeviceTypeValue(r) == v
    ensures r == "" ==> forall name :: name in DEVICE_TYPE_NAMES ==> DeviceTypeValue(name) != v
  {
    if v == "DDR" then "DDR"
    else if v == "DDR2" then "DDR2"
    else if v == "DDR3" then "DDR3"
    else if v == "DDR4" then "DDR4"
    else if v == "DDR4E_SDRAM" then "DDR4E_SDRAM"
    else if v == "DDR5" then "DDR5"
    else if v == "LPDDR4_SDRAM" then "LPDDR4_SDRAM"
    else if v == "LPDDR3_SDRAM" then "LPDDR3_SDRAM"
    else if v == "DDR2_SDRAM_FB_DIMM" then "DDR2_SDRAM_FB_DIMM"
    else if v == "DDR2_SDRAM_FB_DIMM_PROB" then "DDR2_SDRAM_FB_DIMM_PROBE"
    else if v == "DDR_SGRAM" then "DDR_SGRAM"
    else if v == "ROM" then "ROM"
    else if v == "SDRAM" then "SDRAM"
    else if v == "EDO" then "EDO"
    else if v == "FastPageMode" then "FastPageMode"
    else if v == "PipelinedNibble" then "PipelinedNibble"
    else if v == "Logical" then "Logical"
    else if v == "HBM" then "HBM"
    else if v == "HBM2" then "HBM2"
    else if v == "HBM3" then "HBM3"
    else ""
  }

  /** translateMemoryTypeToRedfish: the Redfish name of a listed D-Bus
      DeviceType, and "" for every other string. */
  function TranslateMemoryType(memoryType: string): (r: string)
    ensures r != "" ==> r in DEVICE_TYPE_NAMES && DeviceTypeOf(r) == memoryType
    ensures r == "" ==> forall name :: name in DEVICE_TYPE_NAMES ==> DeviceTypeOf(name) != memoryType
  {
    if !StartsWith(memoryType, DEVICE_TYPE_PREFIX) then
      assert forall name :: name in DEVICE_TYPE_NAMES ==> DeviceTypeOf(name) != memoryType by {
        forall name | name in DEVICE_TYPE_NAMES
          ensures DeviceTypeOf(name) != memoryType
        {
          DeviceTypeOfHasPrefix(name);
        }
      }
      ""
    else
      var v := memoryType[|DEVICE_TYPE_PREFIX|..];
      assert memoryType == DEVICE_TYPE_PREFIX + v;
      var r := TranslateValue(v);
      assert r == "" ==> forall name :: name in DEVICE_TYPE_NAMES ==> DeviceTypeOf(name) != memoryType by {
        if r == "" {
          forall name | name in DEVICE_TYPE_NAMES
            ensures DeviceTypeOf(name) != memoryType
          {
            DeviceTypeOfHasPrefix(name);
          }
        }
      }
      r
  }

  /** Distinct Redfish names come from distinct D-Bus values. */
  lemma DeviceTypeOfInjective(a: string, b: string)
    requires a in DEVICE_TYPE_NAMES && b in DEVICE_TYPE_NAMES
    requires DeviceTypeOf(a) == DeviceTypeOf(b)
    ensures a == b
  {
    DeviceTypeOfHasPrefix(a);
    DeviceTypeOfHasPrefix(b);
  }

  /** Every Redfish name is produced, from exactly its D-Bus value. */
  lemma TranslateRoundTrip(name: string)
    requires name in DEVICE_TYPE_NAMES
    ensures TranslateMemoryType(DeviceTypeOf(name)) == name
  {
    var r := TranslateMemoryType(DeviceTypeOf(name));
    if r != "" {
      DeviceTypeOfInjective(r, name);
    }
  }

  /** The single rename of the table: D-Bus's ..._PROB is Redfish's
      DDR2_SDRAM_FB_DIMM_PROBE; every other name is the D-Bus value's own. */
  lemma ProbeRename()
    ensures TranslateMemoryType(DEVICE_TYPE_PREFIX + "DDR2_SDRAM_FB_DIMM_PROB") == "DDR2_SDRAM_FB_DIMM_PROBE"
    ensures forall name :: name in DEVICE_TYPE_NAMES && name != "DDR2_SDRAM_FB_DIMM_PROBE" ==>
              TranslateMemoryType(DEVICE_TYPE_PREFIX + name) == name
  {
    TranslateRoundTrip("DDR2_SDRAM_FB_DIMM_PROBE");
    forall name | name in DEVICE_TYPE_NAMES && name != "DDR2_SDRAM_FB_DIMM_PROBE"
      ensures TranslateMemoryType(DEVICE_TYPE_PREFIX + name) == name
    {
      TranslateRoundTrip(name);
    }
  }

  /** Different translated names come from different D-Bus values. */
  lemma TranslateInjective(a: string, b: string)
    requires TranslateMemoryType(a) != ""
    requires TranslateMemoryType(a) == TranslateMemoryType(b)
    ensures a == b
  {
  }

  /** MemoryType: DRAM for a type mentioning DDR, otherwise IntelOptane for
      one ending in Logical, otherwise not reported. */
  function MemoryType(memoryType: string): (r: Option<string>)
    ensures r == Some("DRAM") <==> Contains(memoryType, "DDR")
    ensures r == Some("IntelOptane") <==> !Contains(memoryType, "DDR") && EndsWith(memoryType, "Logical")
    ensures r.None? <==> !Contains(memoryType, "DDR") && !EndsWith(memoryType, "Logical")
  {
    if Contains(memoryType, "DDR") then Some("DRAM")
    else if EndsWith(memoryType, "Logical") then Some("IntelOptane")
    else None
  }

  /** Every device type whose Redfish name mentions DDR is reported as
      DRAM. */
  lemma DdrDeviceTypesAreDram(name: string)
    requires Contains(name, "DDR")
    ensures MemoryType(DeviceTypeOf(name)) == Some("DRAM")
  {
    var v := if name == "DDR2_SDRAM_FB_DIMM_PROBE" then "DDR2_SDRAM_FB_DIMM_PROB" else name;
    assert DeviceTypeOf(name) == DEVICE_TYPE_PREFIX + v;
    if name == "DDR2_SDRAM_FB_DIMM_PROBE" {
      assert v[0..3] == "DDR";
      ContainsAt(v, "DDR", 0);
    }
    ContainsSuffix(DEVICE_TYPE_PREFIX, v, "DDR");
  }

  /** The Logical device type is reported as IntelOptane: its D-Bus value
      ends with Logical and nowhere mentions DDR. */
  lemma LogicalIsIntelOptane()
    ensures MemoryType(DeviceTypeOf("Logical")) == Some("IntelOptane")
  {
    var v := DEVICE_TYPE_PREFIX + "Logical";
    assert DeviceTypeOf("Logical") == v;
    EndsWithConcat(DEVICE_TYPE_PREFIX, "Logical");
    LogicalValueHasNoR();
    if Contains(v, "DDR") {
      ContainsHasChar(v, "DDR", 2);
    }
  }

  lemma LogicalValueHasNoR()
    ensures 'R' !in DEVICE_TYPE_PREFIX + "Logical"
  {
    assert 'R' !in "xyz.openbmc_project.";
    assert 'R' !in "Inventory.Item.Dimm.";
    assert 'R' !in "DeviceType.";
    assert 'R' !in "Logical";
  }

  /** Every character of a contained needle occurs in the string. */
  lemma {:induction false} ContainsHasChar(s: string, needle: string, j: nat)
    requires j < |needle| && Contains(s, needle)
    ensures needle[j] in s
    decreases |s|
  {
    if StartsWith(s, needle) {
      assert s[j] == needle[j];
    } else {
      ContainsHasChar(s[1..], needle, j);
      var k :| 0 <= k < |s[1..]| && s[1..][k] == needle[j];
      assert s[k + 1] == needle[j];
    }
  }

  /** A needle found in the tail of a string is found in the string. */
  lemma {:induction false} ContainsSuffix(prefix: string, s: string, needle: string)
    requires Contains(s, needle)
    ensures Contains(prefix + s, needle)
    decreases |prefix|
  {
    if |prefix| > 0 {
      assert (prefix + s)[1..] == prefix[1..] + s;
      ContainsSuffix(prefix[1..], s, needle);
    } else {
      assert prefix + s == s;
    }
  }

  // ---------------------------------------------------------------------
  // Identifiers and sizes

  type Uint16 = n: nat | n < 0x1_0000

  /** dimmPropToHex: "0x" and four upper-case hex digits when the value is
      present, nothing otherwise; the digits read back as the value. */
  function DimmPropToHex(value: Option<Uint16>): (r: Option<string>)
    ensures r.Some? <==> value.Some?
    ensures r.Some? ==> |r.value| == 6 && StartsWith(r.value, "0x")
    ensures r.Some? ==> (forall i :: 2 <= i < 6 ==> Numbers.IsHexDigit(r.value[i]))
                        && Numbers.HexValue(r.value[2..]) == value.value
  {
    match value
    case None => None
    case Some(v) =>
      assert Numbers.Pow16(4) == 0x1_0000;
      Numbers.HexRoundTrip(v, 4);
      var s := "0x" + Numbers.IntToHexString(v, 4);
      assert s[2..] == Numbers.IntToHexString(v, 4);
      Some(s)
  }

  /** A size property reported in MiB: the KiB value shifted right by ten,
      none when the property is absent, an internal error when it is not a
      64-bit unsigned value. */
  function SizeMiB(props: PropertyMap, kibName: string): (r: Result<Option<nat>, Error>)
    ensures r.Err? <==> exists i :: 0 <= i < |props| && props[i].0 == kibName && !props[i].1.U64?
    ensures r.Err? ==> r.error == InternalError
    ensures r == Ok(None) <==> forall i :: 0 <= i < |props| ==> props[i].0 != kibName
    ensures r.Ok? && r.value.Some? ==>
              exists i :: 0 <= i < |props| && props[i].0 == kibName && props[i].1.U64?
                          && r.value.value * 1024 <= props[i].1.n < r.value.value * 1024 + 1024
  {
    var v :- Unpack(props, kibName, (v: Value) => v.U64?);
    Ok(if v.Some? then Some(Numbers.KiBToMiB(v.value.n)) else None)
  }

  /** The KiB-valued properties of the PersistentMemory interface, with the
      name each is reported under in MiB. */
  const PERSISTENT_MEMORY_SIZES: seq<(string, string)> := [
    ("VolatileRegionSizeLimitInKiB", "VolatileRegionSizeLimitMiB"),
    ("PmRegionSizeLimitInKiB", "PersistentRegionSizeLimitMiB"),
    ("VolatileSizeInKiB", "VolatileSizeMiB"),
    ("PmSizeInKiB", "NonVolatileSizeMiB"),
    ("CacheSizeInKB", "CacheSizeMiB"),
    ("VoltaileRegionMaxSizeInKib", "VolatileRegionSizeMaxMiB"),
    ("PmRegionMaxSizeInKiB", "PersistentRegionSizeMaxMiB"),
    ("AllocationIncrementInKiB", "AllocationIncrementMiB"),
    ("AllocationAlignmentInKiB", "AllocationAlignmentMiB")
  ]

  /** The KiB-valued properties of the Dimm and Partition interfaces. */
  const DIMM_SIZES: seq<(string, string)> := [("MemorySizeInKB", "CapacityMiB")]
  const PARTITION_SIZES: seq<(string, string)> := [("OffsetInKiB", "OffsetMiB"), ("SizeInKiB", "SizeMiB")]

  /** The sizes written for a table of (KiB property, MiB name) rows, one
      per row in table order; an internal error when any of the properties
      has the wrong type. */
  function ReportSizes(props: PropertyMap, table: seq<(string, string)>): (r: Result<seq<Option<nat>>, Error>)
    ensures r.Err? <==> exists k :: 0 <= k < |table| && SizeMiB(props, table[k].0).Err?
    ensures r.Ok? ==> |r.value| == |table|
    ensures r.Ok? ==> forall k :: 0 <= k < |table| ==> SizeMiB(props, table[k].0) == Ok(r.value[k])
    decreases |table|
  {
    if |table| == 0 then Ok([])
    else
      var here :- SizeMiB(props, table[0].0);
      var rest := ReportSizes(props, table[1..]);
      assert forall k :: 1 <= k < |table| ==> table[k] == table[1..][k - 1];
      if rest.Err? then rest
      else Ok([here] + rest.value)
  }

  // ---------------------------------------------------------------------
  // Type checking of a DIMM's properties

  /** The C++ types the DIMM handlers unpack properties as; size_t is
      64 bits wide. */
  datatype PropType = BoolType | StringType | U8Type | U16Type | U64Type | U16ArrayType | U32ArrayType

  predicate HasType(v: Value, t: PropType) {
    match t
    case BoolType => v.Bool?
    case StringType => v.Str?
    case U8Type => v.U8?
    case U16Type => v.U16?
    case U64Type => v.U64?
    case U16ArrayType => v.U16Array?
    case U32ArrayType => v.U32Array?
  }

  function TypeTest(t: PropType): Value -> bool {
    v => HasType(v, t)
  }

  /** The properties assembleDimmProperties unpacks, with their types. */
  const DIMM_PROPERTIES: seq<(string, PropType)> := [
    ("MemoryDataWidth", U16Type), ("MemorySizeInKB", U64Type), ("PartNumber", StringType),
    ("SerialNumber", StringType), ("Manufacturer", StringType), ("RevisionCode", U16Type),
    ("Present", BoolType), ("MemoryTotalWidth", U16Type), ("ECC", StringType),
    ("FormFactor", StringType), ("AllowedSpeedsMT", U16ArrayType), ("MemoryAttributes", U8Type),
    ("MemoryConfiguredSpeedInMhz", U16Type), ("MemoryType", StringType), ("Channel", StringType),
    ("MemoryController", StringType), ("Slot", StringType), ("Socket", StringType),
    ("SparePartNumber", StringType), ("Model", StringType), ("LocationCode", StringType)
  ]

  /** The properties getPersistentMemoryProperties unpacks, with their types. */
  const PERSISTENT_MEMORY_PROPERTIES: seq<(string, PropType)> := [
    ("ModuleManufacturerID", U16Type), ("ModuleProductID", U16Type),
    ("SubsystemVendorID", U16Type), ("SubsystemDeviceID", U16Type),
    ("VolatileRegionSizeLimitInKiB", U64Type), ("PmRegionSizeLimitInKiB", U64Type),
    ("VolatileSizeInKiB", U64Type), ("PmSizeInKiB", U64Type), ("CacheSizeInKB", U64Type),
    ("VoltaileRegionMaxSizeInKib", U64Type), ("PmRegionMaxSizeInKiB", U64Type),
    ("AllocationIncrementInKiB", U64Type), ("AllocationAlignmentInKiB", U64Type),
    ("VolatileRegionNumberLimit", U64Type), ("PmRegionNumberLimit", U64Type),
    ("SpareDeviceCount", U64Type), ("IsSpareDeviceInUse", BoolType),
    ("IsRankSpareEnabled", BoolType), ("MaxAveragePowerLimitmW", U32ArrayType),
    ("ConfigurationLocked", BoolType), ("AllowedMemoryModes", StringType),
    ("MemoryMedia", StringType), ("ConfigurationLockCapable", BoolType),
    ("DataLockCapable", BoolType), ("PassphraseCapable", BoolType),
    ("MaxPassphraseCount", U64Type), ("PassphraseLockLimit", U64Type)
  ]

  /** Some entry of the map carries the name of a row of the table and a
      value of another type. */
  predicate Mistyped(props: PropertyMap, table: seq<(string, PropType)>) {
    exists i, k :: 0 <= i < |props| && 0 <= k < |table| && props[i].0 == table[k].0 && !HasType(props[i].1, table[k].1)
  }

  /** unpackPropertiesNoThrow over a table: the value unpacked for each row,
      in table order; an internal error when a property is mistyped. */
  function UnpackAll(props: PropertyMap, table: seq<(string, PropType)>): (r: Result<seq<Option<Value>>, Error>)
    ensures r.Err? <==> Mistyped(props, table)
    ensures r.Err? ==> r.error == InternalError
    ensures r.Ok? ==> |r.value| == |table|
    ensures r.Ok? ==> forall k :: 0 <= k < |table| ==> Unpack(props, table[k].0, TypeTest(table[k].1)) == Ok(r.value[k])
    decreases |table|
  {
    if |table| == 0 then Ok([])
    else
      assert forall k :: 1 <= k < |table| ==> table[k] == table[1..][k - 1];
      var here := Unpack(props, table[0].0, TypeTest(table[0].1));
      if here.Err? then
        var i :| 0 <= i < |props| && props[i].0 == table[0].0 && !TypeTest(table[0].1)(props[i].1);
        assert props[i].0 == table[0].0 && !HasType(props[i].1, table[0].1);
        Err(InternalError)
      else
        var rest := UnpackAll(props, table[1..]);
        if rest.Err? then
          assert Mistyped(props, table) by {
            var i, k :| 0 <= i < |props| && 0 <= k < |table[1..]| && props[i].0 == table[1..][k].0
                        && !HasType(props[i].1, table[1..][k].1);
            assert props[i].0 == table[k + 1].0 && !HasType(props[i].1, table[k + 1].1);
          }
          rest
        else
          assert !Mistyped(props, table) by {
            forall i, k | 0 <= i < |props| && 0 <= k < |table| && props[i].0 == table[k].0
              ensures HasType(props[i].1, table[k].1)
            {
              if k == 0 {
                assert TypeTest(table[0].1)(props[i].1);
              } else {
                assert table[k] == table[1..][k - 1];
              }
            }
          }
          Ok([here.value] + rest.value)
  }

  /** Each size of the table is a 64-bit row of the type table. */
  predicate SizesTyped(sizes: seq<(string, string)>, table: seq<(string, PropType)>) {
    forall k :: 0 <= k < |sizes| ==> (sizes[k].0, U64Type) in table
  }

  /** When no property of the type table is mistyped, the sizes it lists
      are reported without an error. */
  lemma SizesReported(props: PropertyMap, sizes: seq<(string, string)>, table: seq<(string, PropType)>)
    requires SizesTyped(sizes, table)
    requires !Mistyped(props, table)
    ensures ReportSizes(props, sizes).Ok?
  {
  }

  /** CapacityMiB comes from a 64-bit row of the Dimm table. */
  lemma DimmSizesTyped()
    ensures SizesTyped(DIMM_SIZES, DIMM_PROPERTIES)
  {
  }

  /** Every persistent-memory size comes from a 64-bit row of its table. */
  lemma PersistentMemorySizesTyped()
    ensures SizesTyped(PERSISTENT_MEMORY_SIZES, PERSISTENT_MEMORY_PROPERTIES)
  {
  }

  /** The properties of one interface are refused: a property of either
      type table is mistyped. */
  predicate Refused(props: PropertyMap) {
    Mistyped(props, DIMM_PROPERTIES) || Mistyped(props, PERSISTENT_MEMORY_PROPERTIES)
  }

  /** The sizes assembleDimmProperties writes for one interface's
      properties: CapacityMiB, then the persistent-memory sizes in the
      order of PERSISTENT_MEMORY_SIZES. */
  datatype DimmSizes = DimmSizes(capacityMiB: Option<nat>, persistentMiB: seq<Option<nat>>)

  /** assembleDimmProperties with getPersistentMemoryProperties: an internal
      error when a property of either type table is mistyped; otherwise the
      sizes both tables' KiB properties give in MiB. */
  function AssembleDimmProperties(props: PropertyMap): (r: Result<DimmSizes, Error>)
    ensures r.Err? <==> Refused(props)
    ensures r.Err? ==> r.error == InternalError
    ensures r.Ok? ==> ReportSizes(props, DIMM_SIZES) == Ok([r.value.capacityMiB])
    ensures r.Ok? ==> ReportSizes(props, PERSISTENT_MEMORY_SIZES) == Ok(r.value.persistentMiB)
  {
    var _ :- UnpackAll(props, DIMM_PROPERTIES);
    var _ :- UnpackAll(props, PERSISTENT_MEMORY_PROPERTIES);
    DimmSizesTyped();
    PersistentMemorySizesTyped();
    SizesReported(props, DIMM_SIZES, DIMM_PROPERTIES);
    SizesReported(props, PERSISTENT_MEMORY_SIZES, PERSISTENT_MEMORY_PROPERTIES);
    var capacity := ReportSizes(props, DIMM_SIZES).value;
    assert |capacity| == 1 && capacity == [capacity[0]];
    Ok(DimmSizes(capacity[0], ReportSizes(props, PERSISTENT_MEMORY_SIZES).value))
  }

  /** An interface of a reported object whose properties the handler
      refuses: assembleDimmProperties runs on every interface of the
      object, not only on the Dimm interface. */
  predicate ObjectMistyped(ifaces: InterfaceMap) {
    exists j :: 0 <= j < |ifaces| && Refused(ifaces[j].1)
  }

  /** An object is refused exactly when the assembly of one of its
      interfaces fails. */
  lemma RefusedInterfaces(ifaces: InterfaceMap)
    ensures ObjectMistyped(ifaces) <==> exists j :: 0 <= j < |ifaces| && AssembleDimmProperties(ifaces[j].1).Err?
  {
  }

  /** The assembly loop over one object's interfaces, for an assembly step
      f: the result of each interface in order, or an internal error when
      any step fails (the handler writes the error and carries on, so the
      response fails). */
  method AssembleEach(ifaces: InterfaceMap, f: PropertyMap -> Result<DimmSizes, Error>)
    returns (r: Result<seq<DimmSizes>, Error>)
    ensures r.Err? <==> exists j :: 0 <= j < |ifaces| && f(ifaces[j].1).Err?
    ensures r.Err? ==> r.error == InternalError
    ensures r.Ok? ==> |r.value| == |ifaces| && forall j :: 0 <= j < |ifaces| ==> f(ifaces[j].1) == Ok(r.value[j])
  {
    var sizes: seq<DimmSizes> := [];
    var failed := false;
    var j := 0;
    while j < |ifaces|
      invariant 0 <= j <= |ifaces|
      invariant failed <==> exists m :: 0 <= m < j && f(ifaces[m].1).Err?
      invariant !failed ==> |sizes| == j && forall m :: 0 <= m < j ==> f(ifaces[m].1) == Ok(sizes[m])
    {
      var here := f(ifaces[j].1);
      if here.Err? {
        failed := true;
      } else if !failed {
        sizes := sizes + [here.value];
      }
      j := j + 1;
    }
    if failed {
      return Err(InternalError);
    }
    return Ok(sizes);
  }

  /** The assembly of one reported object: the sizes of each interface in
      order, or an internal error when any interface is refused. */
  method AssembleObject(ifaces: InterfaceMap) returns (r: Result<seq<DimmSizes>, Error>)
    ensures r.Err? <==> ObjectMistyped(ifaces)
    ensures r.Err? ==> r.error == InternalError
    ensures r.Ok? ==> |r.value| == |ifaces|
                      && forall j :: 0 <= j < |ifaces| ==> AssembleDimmProperties(ifaces[j].1) == Ok(r.value[j])
  {
    r := AssembleEach(ifaces, AssembleDimmProperties);
    RefusedInterfaces(ifaces);
  }

  /** The objects of a list of reported objects that the assembly refuses. */
  predicate SomeObjectMistyped(objects: ManagedObjects) {
    exists k :: 0 <= k < |objects| && ObjectMistyped(objects[k].1)
  }

  // ---------------------------------------------------------------------
  // Suffix classifiers

  const MEMORY_MODES: seq<string> := ["Volatile", "PMEM", "Block"]
  const MEMORY_MEDIA: seq<string> := ["DRAM", "NAND", "Intel3DXPoint"]
  const ECC_VALUES: seq<string> := ["NoECC", "SingleBitECC", "MultiBitECC", "AddressParity"]
  const MODULE_TYPES: seq<string> := [
    "RDIMM", "UDIMM", "SO_DIMM", "LRDIMM", "Mini_RDIMM", "Mini_UDIMM",
    "SO_RDIMM_72b", "SO_UDIMM_72b", "SO_DIMM_16b", "SO_DIMM_32b", "Die"
  ]

  /** The first value of the list the D-Bus string ends with, or none: how
      OperatingMemoryModes, MemoryMedia, ErrorCorrection and BaseModuleType
      are classified. */
  function FirstSuffixMatch(s: string, values: seq<string>): (r: Option<string>)
    ensures r.None? <==> forall i :: 0 <= i < |values| ==> !EndsWith(s, values[i])
    ensures r.Some? ==> exists i :: 0 <= i < |values| && values[i] == r.value && EndsWith(s, values[i])
                                    && forall j :: 0 <= j < i ==> !EndsWith(s, values[j])
    decreases |values|
  {
    if |values| == 0 then None
    else if EndsWith(s, values[0]) then Some(values[0])
    else
      var r := FirstSuffixMatch(s, values[1..]);
      assert forall i :: 1 <= i < |values| ==> values[i] == values[1..][i - 1];
      r
  }

  /** No value of the list ends with another. */
  predicate SuffixFree(values: seq<string>) {
    forall i, j :: 0 <= i < |values| && 0 <= j < |values| && i != j ==> !EndsWith(values[i], values[j])
  }

  /** Two suffixes of one string: the shorter is a suffix of the longer. */
  lemma SuffixOfSuffix(s: string, a: string, b: string)
    requires EndsWith(s, a) && EndsWith(s, b) && |a| <= |b|
    ensures EndsWith(b, a)
  {
    assert b[|b| - |a|..] == s[|s| - |a|..];
  }

  /** Over a suffix-free list, a D-Bus value that ends with a listed value
      is classified as exactly that value. */
  lemma ExactValueMatches(prefix: string, values: seq<string>, k: nat)
    requires SuffixFree(values) && k < |values|
    ensures FirstSuffixMatch(prefix + values[k], values) == Some(values[k])
  {
    var s := prefix + values[k];
    EndsWithConcat(prefix, values[k]);
    var r := FirstSuffixMatch(s, values);
    var i :| 0 <= i < |values| && values[i] == r.value && EndsWith(s, values[i])
             && forall j :: 0 <= j < i ==> !EndsWith(s, values[j]);
    // whichever of the two matches is shorter is a suffix of the other,
    // which a suffix-free list allows only when they are the same entry
    var a, b := values[i], values[k];
    if |a| <= |b| {
      SuffixOfSuffix(s, a, b);
    } else {
      SuffixOfSuffix(s, b, a);
    }
  }

  /** A string does not end with another that differs from it at the k-th
      character from the end. */
  lemma NotSuffixAt(a: string, b: string, k: nat)
    requires k < |b| && (k < |a| ==> a[|a| - 1 - k] != b[|b| - 1 - k])
    ensures !EndsWith(a, b)
  {
    assert |b| <= |a| ==> a[|a| - |b|..][|b| - 1 - k] == a[|a| - 1 - k];
  }

  function Last(s: string): char
    requires |s| > 0
  {
    s[|s| - 1]
  }

  /** A list whose values end in pairwise different characters is
      suffix-free. */
  lemma LastCharsSuffixFree(values: seq<string>)
    requires forall i :: 0 <= i < |values| ==> |values[i]| > 0
    requires forall i, j :: 0 <= i < |values| && 0 <= j < |values| && i != j ==> Last(values[i]) != Last(values[j])
    ensures SuffixFree(values)
  {
    forall i, j | 0 <= i < |values| && 0 <= j < |values| && i != j
      ensures !EndsWith(values[i], values[j])
    {
      NotSuffixAt(values[i], values[j], 0);
    }
  }

  /** The memory modes end in 'e', 'M' and 'k'. */
  lemma MemoryModesSuffixFree()
    ensures SuffixFree(MEMORY_MODES)
  {
    assert Last(MEMORY_MODES[0]) == 'e' && Last(MEMORY_MODES[1]) == 'M' && Last(MEMORY_MODES[2]) == 'k';
    LastCharsSuffixFree(MEMORY_MODES);
  }

  /** The memory media end in 'M', 'D' and 't'. */
  lemma MemoryMediaSuffixFree()
    ensures SuffixFree(MEMORY_MEDIA)
  {
    assert Last(MEMORY_MEDIA[0]) == 'M' && Last(MEMORY_MEDIA[1]) == 'D' && Last(MEMORY_MEDIA[2]) == 't';
    LastCharsSuffixFree(MEMORY_MEDIA);
  }

  /** The ECC values are suffix-free: AddressParity differs from the others
      in the last character, NoECC in the fourth from the end, SingleBitECC
      and MultiBitECC in the seventh. */
  lemma EccValuesSuffixFree()
    ensures SuffixFree(ECC_VALUES)
  {
    forall i, j | 0 <= i < 4 && 0 <= j < 4 && i != j
      ensures !EndsWith(ECC_VALUES[i], ECC_VALUES[j])
    {
      var k := if i == 3 || j == 3 then 0 else if i == 0 || j == 0 then 3 else 6;
      NotSuffixAt(ECC_VALUES[i], ECC_VALUES[j], k);
    }
  }

  /** BaseModuleType as written: the first form factor the D-Bus value ends
      with. */
  function BaseModuleTypeAsWritten(formFactor: string): (r: Option<string>)
    ensures r.Some? ==> r.value in MODULE_TYPES && EndsWith(formFactor, r.value)
  {
    FirstSuffixMatch(formFactor, MODULE_TYPES)
  }

  /** RDIMM comes first and is a suffix of LRDIMM and Mini_RDIMM, so both
      are reported as RDIMM, whatever the enumeration prefix. */
  lemma LrdimmReportedAsRdimm(prefix: string)
    ensures BaseModuleTypeAsWritten(prefix + "LRDIMM") == Some("RDIMM")
    ensures BaseModuleTypeAsWritten(prefix + "Mini_RDIMM") == Some("RDIMM")
  {
    assert prefix + "LRDIMM" == (prefix + "L") + "RDIMM";
    EndsWithConcat(prefix + "L", "RDIMM");
    assert prefix + "Mini_RDIMM" == (prefix + "Mini_") + "RDIMM";
    EndsWithConcat(prefix + "Mini_", "RDIMM");
  }

  /** The name of an enumeration value: the text after its last '.'. */
  function EnumValueName(s: string): (r: string)
    ensures '.' !in r && EndsWith(s, r)
    ensures |r| < |s| ==> s[|s| - |r| - 1] == '.'
    decreases |s|
  {
    if |s| == 0 || s[|s| - 1] == '.' then ""
    else
      var init := EnumValueName(s[..|s| - 1]);
      EnumValueNameSnoc(s, init);
      init + [s[|s| - 1]]
  }

  /** One more character than the name of s without its last one. */
  lemma EnumValueNameSnoc(s: string, init: string)
    requires |s| > 0 && s[|s| - 1] != '.'
    requires '.' !in init && EndsWith(s[..|s| - 1], init)
    requires |init| < |s| - 1 ==> s[..|s| - 1][|s| - 1 - |init| - 1] == '.'
    ensures '.' !in init + [s[|s| - 1]] && EndsWith(s, init + [s[|s| - 1]])
    ensures |init| + 1 < |s| ==> s[|s| - |init| - 2] == '.'
  {
    var front := s[..|s| - 1];
    assert s == front + [s[|s| - 1]];
    assert s[|s| - |init| - 1..] == front[|front| - |init|..] + [s[|s| - 1]];
  }

  /** The name of prefix.Value is Value when the prefix ends with '.'. */
  lemma {:induction false} EnumValueNameOf(prefix: string, name: string)
    requires |prefix| > 0 && prefix[|prefix| - 1] == '.' && '.' !in name
    ensures EnumValueName(prefix + name) == name
    decreases |name|
  {
    var s := prefix + name;
    if |name| == 0 {
      assert s == prefix;
    } else {
      var init := name[..|name| - 1];
      assert s[..|s| - 1] == prefix + init;
      assert s[|s| - 1] == name[|name| - 1];
      EnumValueNameOf(prefix, init);
      assert name == init + [name[|name| - 1]];
    }
  }

  /** BaseModuleType, corrected: the form factor whose name is exactly the
      enumeration value's name. */
  function BaseModuleType(formFactor: string): (r: Option<string>)
    ensures r.Some? ==> r.value in MODULE_TYPES && EndsWith(formFactor, r.value)
    ensures r.None? <==> EnumValueName(formFactor) !in MODULE_TYPES
  {
    var name := EnumValueName(formFactor);
    if name in MODULE_TYPES then Some(name) else None
  }

  /** Every form factor is reported as itself. */
  lemma BaseModuleTypeExact(prefix: string, k: nat)
    requires |prefix| > 0 && prefix[|prefix| - 1] == '.'
    requires k < |MODULE_TYPES|
    ensures BaseModuleType(prefix + MODULE_TYPES[k]) == Some(MODULE_TYPES[k])
  {
    assert '.' !in MODULE_TYPES[k];
    EnumValueNameOf(prefix, MODULE_TYPES[k]);
  }

  // ---------------------------------------------------------------------
  // DIMM members

  /** One object of an ObjectManager dump: its path and interfaces. */
  type Object = (Path, InterfaceMap)

  /** An object the DIMM handlers report: its filename is non-empty, equals
      the requested id when one is given, and it has the Dimm interface. */
  predicate IsDimmObject(obj: Object, dimmId: Option<string>) {
    var id := Paths.Filename(obj.0);
    id != "" && (dimmId.None? || dimmId.value == id) && HasInterface(obj.1, DIMM_INTERFACE)
  }

  /** The test of getAllDimmsCallback as a value, for the generic filter. */
  function Keep(dimmId: Option<string>): Object -> bool {
    obj => IsDimmObject(obj, dimmId)
  }

  /** The objects among the first n of a dump that pass keep, in dump order. */
  function Reported(objects: ManagedObjects, n: nat, keep: Object -> bool): (r: ManagedObjects)
    requires n <= |objects|
    ensures |r| <= n
    decreases n
  {
    if n == 0 then []
    else Reported(objects, n - 1, keep) + (if keep(objects[n - 1]) then [objects[n - 1]] else [])
  }

  lemma {:induction false} ReportedExactly(objects: ManagedObjects, n: nat, keep: Object -> bool, x: Object)
    requires n <= |objects|
    ensures x in Reported(objects, n, keep) <==> x in objects[..n] && keep(x)
    decreases n
  {
    if n > 0 {
      assert objects[..n] == objects[..n - 1] + [objects[n - 1]];
      ReportedExactly(objects, n - 1, keep, x);
    }
  }

  /** The objects of a dump reported as DIMMs, in dump order. */
  function DimmObjects(objects: ManagedObjects, dimmId: Option<string>): (r: ManagedObjects)
    ensures |r| <= |objects|
  {
    Reported(objects, |objects|, Keep(dimmId))
  }

  /** An object is reported exactly when it is in the dump and passes the
      three checks. */
  lemma DimmObjectsExactly(objects: ManagedObjects, dimmId: Option<string>, x: Object)
    ensures x in DimmObjects(objects, dimmId) <==> x in objects && IsDimmObject(x, dimmId)
  {
    ReportedExactly(objects, |objects|, Keep(dimmId), x);
    assert objects[..|objects|] == objects;
  }

  /** Where a DIMM's properties are written: at a Members index in the
      collection, at the document root for a single DIMM. */
  datatype Pointer = Root | MemberAt(index: nat)

  /** A DIMM written to the response: where, and for which object. Its id
      is the object's filename. */
  datatype Dimm = Dimm(at: Pointer, path: Path) {
    function Id(): string {
      Paths.Filename(path)
    }
  }

  /** Where the DIMM found at a Members index is written. */
  function PointerFor(dimmId: Option<string>, index: nat): Pointer {
    if dimmId.None? then MemberAt(index) else Root
  }

  /** The DIMMs written for the first n objects of a dump: each object that
      passes keep is placed at the number of DIMMs written before it,
      counting from start. */
  function Placements(objects: ManagedObjects, n: nat, keep: Object -> bool, dimmId: Option<string>, start: nat): (r: seq<Dimm>)
    requires n <= |objects|
    decreases n
  {
    if n == 0 then []
    else
      var prev := Placements(objects, n - 1, keep, dimmId, start);
      prev + (if keep(objects[n - 1]) then [Dimm(PointerFor(dimmId, start + |prev|), objects[n - 1].0)] else [])
  }

  /** The DIMMs written are those of the kept objects, in dump order, the
      k-th at Members/(start + k); a single DIMM is written at the root. */
  lemma {:induction false} PlacementsAt(objects: ManagedObjects, n: nat, keep: Object -> bool, dimmId: Option<string>, start: nat)
    requires n <= |objects|
    ensures |Placements(objects, n, keep, dimmId, start)| == |Reported(objects, n, keep)|
    ensures forall k :: 0 <= k < |Placements(objects, n, keep, dimmId, start)| ==>
              Placements(objects, n, keep, dimmId, start)[k] == Dimm(PointerFor(dimmId, start + k), Reported(objects, n, keep)[k].0)
    decreases n
  {
    if n > 0 {
      PlacementsAt(objects, n - 1, keep, dimmId, start);
    }
  }

  /** The append loop of getAllDimmsCallback: each kept object is appended
      at the current size of Members. */
  method AppendKept(objects: ManagedObjects, keep: Object -> bool, dimmId: Option<string>, start: nat)
    returns (dimms: seq<Dimm>)
    ensures dimms == Placements(objects, |objects|, keep, dimmId, start)
  {
    dimms := [];
    var i := 0;
    while i < |objects|
      invariant 0 <= i <= |objects|
      invariant dimms == Placements(objects, i, keep, dimmId, start)
    {
      if keep(objects[i]) {
        dimms := dimms + [Dimm(PointerFor(dimmId, start + |dimms|), objects[i].0)];
      }
      i := i + 1;
    }
  }

  /** The assembly of every reported object, in order: the sizes of each
      object's interfaces, or an internal error when any object is refused. */
  method AssembleObjects(objects: ManagedObjects) returns (r: Result<seq<seq<DimmSizes>>, Error>)
    ensures r.Err? <==> SomeObjectMistyped(objects)
    ensures r.Err? ==> r.error == InternalError
    ensures r.Ok? ==> |r.value| == |objects|
  {
    var assembled: seq<seq<DimmSizes>> := [];
    var failed := false;
    var k := 0;
    while k < |objects|
      invariant 0 <= k <= |objects|
      invariant failed <==> exists m :: 0 <= m < k && ObjectMistyped(objects[m].1)
      invariant !failed ==> |assembled| == k
    {
      var here := AssembleObject(objects[k].1);
      if here.Err? {
        failed := true;
      } else if !failed {
        assembled := assembled + [here.value];
      }
      k := k + 1;
    }
    if failed {
      return Err(InternalError);
    }
    return Ok(assembled);
  }

  /** getAllDimmsCallback for one ObjectManager dump, with `start` members
      already written by earlier dumps: the reported objects become DIMMs
      in dump order, the k-th at Members/(start + k) in the collection and
      at the root for a single DIMM; a failed call is an internal error. */
  method DimmsCallback(reply: Reply<ManagedObjects>, dimmId: Option<string>, start: nat)
    returns (r: Result<seq<Dimm>, Error>)
    ensures reply.Fail? ==> r == Err(InternalError)
    ensures reply.Answer? ==> (r.Err? <==> SomeObjectMistyped(DimmObjects(reply.value, dimmId)))
    ensures r.Err? ==> r.error == InternalError
    ensures r.Ok? ==> |r.value| == |DimmObjects(reply.value, dimmId)|
    ensures r.Ok? ==> forall k :: 0 <= k < |r.value| ==>
              r.value[k] == Dimm(PointerFor(dimmId, start + k), DimmObjects(reply.value, dimmId)[k].0)
  {
    if reply.Fail? {
      return Err(InternalError);
    }
    var dimms := AppendKept(reply.value, Keep(dimmId), dimmId, start);
    PlacementsAt(reply.value, |reply.value|, Keep(dimmId), dimmId, start);
    var assembled := AssembleObjects(DimmObjects(reply.value, dimmId));
    if assembled.Err? {
      return Err(InternalError);
    }
    return Ok(dimms);
  }

  /** The (id, pointer) pairs the callback stores into dimmToPtr, in the
      order it stores them. */
  function PointerEntries(dimms: seq<Dimm>): (r: seq<(string, Pointer)>)
    ensures |r| == |dimms|
    ensures forall k :: 0 <= k < |dimms| ==> r[k] == (dimms[k].Id(), dimms[k].at)
  {
    seq(|dimms|, k requires 0 <= k < |dimms| => (dimms[k].Id(), dimms[k].at))
  }

  /** dimmToPtr after storing the entries in order: every id stored is a key,
      each key maps to a pointer stored under it, and a later store under
      the same id overwrites an earlier one. */
  function PointerMap(entries: seq<(string, Pointer)>): (m: map<string, Pointer>)
    ensures forall k :: 0 <= k < |entries| ==> entries[k].0 in m
    ensures forall id :: id in m ==> exists k :: 0 <= k < |entries| && entries[k] == (id, m[id])
    ensures |entries| > 0 ==> m[entries[|entries| - 1].0] == entries[|entries| - 1].1
    decreases |entries|
  {
    if |entries| == 0 then map[]
    else
      var init := entries[..|entries| - 1];
      var last := entries[|entries| - 1];
      var m0 := PointerMap(init);
      assert forall k :: 0 <= k < |init| ==> entries[k] == init[k];
      m0[last.0 := last.1]
  }

  /** An entry whose id is not stored again later keeps its pointer. */
  lemma {:induction false} PointerOfLastWrite(entries: seq<(string, Pointer)>, k: nat)
    requires k < |entries|
    requires forall j :: k < j < |entries| ==> entries[j].0 != entries[k].0
    ensures PointerMap(entries)[entries[k].0] == entries[k].1
    decreases |entries|
  {
    if k < |entries| - 1 {
      var init := entries[..|entries| - 1];
      assert init[k] == entries[k];
      PointerOfLastWrite(init, k);
    }
  }

  // ---------------------------------------------------------------------
  // Partitions

  /** The DIMM a partition object belongs to: the filename of its parent
      path. */
  function PartitionDimm(path: Path): string {
    Paths.Filename(Paths.ParentPath(path))
  }

  /** A partition stored below a DIMM's path belongs to that DIMM. */
  lemma PartitionOfDimm(dimmPath: Path, leaf: string)
    requires '/' !in leaf && |dimmPath| > 0
    ensures PartitionDimm(Paths.Join(dimmPath, leaf)) == Paths.Filename(dimmPath)
  {
    Paths.ParentOfJoin(dimmPath, leaf);
  }

  /** The partitions of one object that are attached: each Partition
      interface, when the object's DIMM was reported. */
  function ObjectPartitions(path: Path, ifaces: InterfaceMap, ptrs: map<string, Pointer>): (r: seq<(Pointer, PropertyMap)>)
    ensures |r| <= |ifaces|
    ensures |r| > 0 ==> PartitionDimm(path) != "" && PartitionDimm(path) in ptrs
    ensures forall k :: 0 <= k < |r| ==>
              r[k].0 == ptrs[PartitionDimm(path)] && (PARTITION_INTERFACE, r[k].1) in ifaces
    ensures PartitionDimm(path) != "" && PartitionDimm(path) in ptrs ==>
              forall j :: 0 <= j < |ifaces| && ifaces[j].0 == PARTITION_INTERFACE ==>
                (ptrs[PartitionDimm(path)], ifaces[j].1) in r
    decreases |ifaces|
  {
    if |ifaces| == 0 then []
    else
      var rest := ObjectPartitions(path, ifaces[1..], ptrs);
      assert forall j :: 1 <= j < |ifaces| ==> ifaces[j] == ifaces[1..][j - 1];
      var dimm := PartitionDimm(path);
      if ifaces[0].0 == PARTITION_INTERFACE && dimm != "" && dimm in ptrs then
        [(ptrs[dimm], ifaces[0].1)] + rest
      else rest
  }

  /** populatePartitions: every Partition interface of the dump, with the
      pointer of the DIMM it belongs to, in dump order. */
  function Partitions(objects: ManagedObjects, ptrs: map<string, Pointer>): seq<(Pointer, PropertyMap)>
    decreases |objects|
  {
    if |objects| == 0 then []
    else ObjectPartitions(objects[0].0, objects[0].1, ptrs) + Partitions(objects[1..], ptrs)
  }

  /** Every partition written is a Partition interface of some object, at
      the pointer of the reported DIMM its path names. */
  lemma {:induction false} PartitionsSound(objects: ManagedObjects, ptrs: map<string, Pointer>)
    ensures forall x :: x in Partitions(objects, ptrs) ==>
              exists i :: 0 <= i < |objects| && PartitionDimm(objects[i].0) in ptrs
                          && x.0 == ptrs[PartitionDimm(objects[i].0)]
                          && (PARTITION_INTERFACE, x.1) in objects[i].1
    decreases |objects|
  {
    if |objects| > 0 {
      var here := ObjectPartitions(objects[0].0, objects[0].1, ptrs);
      var rest := Partitions(objects[1..], ptrs);
      PartitionsSound(objects[1..], ptrs);
      forall x | x in Partitions(objects, ptrs)
        ensures exists i :: 0 <= i < |objects| && PartitionDimm(objects[i].0) in ptrs
                            && x.0 == ptrs[PartitionDimm(objects[i].0)]
                            && (PARTITION_INTERFACE, x.1) in objects[i].1
      {
        if x in here {
          var k :| 0 <= k < |here| && here[k] == x;
          assert PartitionDimm(objects[0].0) in ptrs;
        } else {
          assert x in rest;
          var i :| 0 <= i < |objects[1..]| && PartitionDimm(objects[1..][i].0) in ptrs
                   && x.0 == ptrs[PartitionDimm(objects[1..][i].0)]
                   && (PARTITION_INTERFACE, x.1) in objects[1..][i].1;
          assert objects[1..][i] == objects[i + 1];
        }
      }
    }
  }

  /** Every Partition interface of an object whose DIMM was reported is
      written, at that DIMM's pointer. */
  lemma {:induction false} PartitionsComplete(objects: ManagedObjects, ptrs: map<string, Pointer>)
    ensures forall i, j :: 0 <= i < |objects| && 0 <= j < |objects[i].1| &&
                           objects[i].1[j].0 == PARTITION_INTERFACE &&
                           PartitionDimm(objects[i].0) != "" && PartitionDimm(objects[i].0) in ptrs ==>
              (ptrs[PartitionDimm(objects[i].0)], objects[i].1[j].1) in Partitions(objects, ptrs)
    decreases |objects|
  {
    if |objects| > 0 {
      PartitionsComplete(objects[1..], ptrs);
      var r := Partitions(objects, ptrs);
      var here := ObjectPartitions(objects[0].0, objects[0].1, ptrs);
      var rest := Partitions(objects[1..], ptrs);
      assert r == here + rest;
      forall i, j | 0 <= i < |objects| && 0 <= j < |objects[i].1| &&
                    objects[i].1[j].0 == PARTITION_INTERFACE &&
                    PartitionDimm(objects[i].0) != "" && PartitionDimm(objects[i].0) in ptrs
        ensures (ptrs[PartitionDimm(objects[i].0)], objects[i].1[j].1) in r
      {
        if i > 0 {
          assert objects[1..][i - 1] == objects[i];
          assert (ptrs[PartitionDimm(objects[i].0)], objects[i].1[j].1) in rest;
        } else {
          assert (ptrs[PartitionDimm(objects[i].0)], objects[i].1[j].1) in here;
        }
      }
    }
  }

  /** The partition record written for one Partition interface: the two
      KiB-valued properties in MiB, the others as they are; an internal error
      when any has the wrong type. */
  datatype Region = Region(
    classification: Option<string>,
    offsetMiB: Option<nat>,
    regionId: Option<string>,
    passphraseEnabled: Option<bool>,
    sizeMiB: Option<nat>)

  /** The two KiB rows of a partition, reported as a table. */
  lemma PartitionSizes(props: PropertyMap)
    ensures SizeMiB(props, "OffsetInKiB").Ok? && SizeMiB(props, "SizeInKiB").Ok? ==>
              ReportSizes(props, PARTITION_SIZES)
              == Ok([SizeMiB(props, "OffsetInKiB").value, SizeMiB(props, "SizeInKiB").value])
  {
    if SizeMiB(props, "OffsetInKiB").Ok? && SizeMiB(props, "SizeInKiB").Ok? {
      var t := PARTITION_SIZES;
      assert |t| == 2 && t[0].0 == "OffsetInKiB" && t[1].0 == "SizeInKiB";
      assert forall k :: 0 <= k < |t| ==> SizeMiB(props, t[k].0).Ok?;
      var r := ReportSizes(props, t);
      assert r.Ok? && |r.value| == 2;
      assert r.value == [r.value[0], r.value[1]];
    }
  }

  function PartitionRegion(props: PropertyMap): (r: Result<Region, Error>)
    ensures r.Ok? <==> Unpack(props, "MemoryClassification", (v: Value) => v.Str?).Ok?
                       && SizeMiB(props, "OffsetInKiB").Ok?
                       && Unpack(props, "PartitionId", (v: Value) => v.Str?).Ok?
                       && Unpack(props, "PassphraseState", (v: Value) => v.Bool?).Ok?
                       && SizeMiB(props, "SizeInKiB").Ok?
    ensures r.Ok? ==> Ok(r.value.offsetMiB) == SizeMiB(props, "OffsetInKiB")
                      && Ok(r.value.sizeMiB) == SizeMiB(props, "SizeInKiB")
    ensures r.Ok? ==> ReportSizes(props, PARTITION_SIZES) == Ok([r.value.offsetMiB, r.value.sizeMiB])
    ensures r.Err? ==> r.error == InternalError
  {
    PartitionSizes(props);
    var classification :- Unpack(props, "MemoryClassification", (v: Value) => v.Str?);
    var offset :- SizeMiB(props, "OffsetInKiB");
    var regionId :- Unpack(props, "PartitionId", (v: Value) => v.Str?);
    var passphrase :- Unpack(props, "PassphraseState", (v: Value) => v.Bool?);
    var size :- SizeMiB(props, "SizeInKiB");
    Ok(Region(
      if classification.Some? then Some(classification.value.s) else None,
      offset,
      if regionId.Some? then Some(regionId.value.s) else None,
      if passphrase.Some? then Some(passphrase.value.b) else None,
      size))
  }

  // ---------------------------------------------------------------------
  // Services of a single DIMM or of all DIMMs

  /** The object is the requested DIMM, or any object when none is
      requested. */
  predicate Wanted(name: string, dimmId: Option<string>) {
    dimmId.None? || name == dimmId.value
  }

  /** The services of a service map that list the interface. */
  function ServicesWith(services: ServiceMap, iface: string): (r: set<string>)
    ensures r == {} <==> !ServiceMapHas(services, iface)
  {
    var r := set i | 0 <= i < |services| && iface in services[i].1 :: services[i].0;
    assert ServiceMapHas(services, iface) ==> r != {} by {
      if ServiceMapHas(services, iface) {
        var i :| 0 <= i < |services| && iface in services[i].1;
        assert services[i].0 in r;
      }
    }
    r
  }

  /** Services that serve the Dimm interface on the object, when wanted. */
  function DimmServicesOf(obj: (Path, ServiceMap), dimmId: Option<string>): set<string> {
    if Wanted(Paths.Filename(obj.0), dimmId) then ServicesWith(obj.1, DIMM_INTERFACE) else {}
  }

  /** Services that serve the Partition interface on the object, when the
      DIMM it belongs to is wanted. */
  function PartitionServicesOf(obj: (Path, ServiceMap), dimmId: Option<string>): set<string> {
    if Wanted(PartitionDimm(obj.0), dimmId) then ServicesWith(obj.1, PARTITION_INTERFACE) else {}
  }

  /** The object holds a wanted DIMM. */
  predicate HoldsDimm(obj: (Path, ServiceMap), dimmId: Option<string>) {
    Wanted(Paths.Filename(obj.0), dimmId) && ServiceMapHas(obj.1, DIMM_INTERFACE)
  }

  datatype Services = Services(dimm: set<string>, partition: set<string>, found: bool)

  /** One object of a mapper subtree listing. */
  type Entry = (Path, ServiceMap)

  /** What the scan of getDimmData looks at in each object, as values: whether
      it holds a wanted DIMM, and the services it contributes for DIMMs and
      for partitions. */
  datatype ScanTests = ScanTests(holds: Entry -> bool, dimm: Entry -> set<string>, partition: Entry -> set<string>)

  /** The tests for a requested DIMM, or for all of them. */
  function DimmTests(dimmId: Option<string>): ScanTests {
    ScanTests(e => HoldsDimm(e, dimmId), e => DimmServicesOf(e, dimmId), e => PartitionServicesOf(e, dimmId))
  }

  /** The scan over the mapper's subtree: services of every object are
      collected; when stop is set the scan ends after the first object that
      holds the DIMM; found says whether one did. */
  function Scan(subtree: Listing, t: ScanTests, stop: bool): Services
    decreases |subtree|
  {
    if |subtree| == 0 then Services({}, {}, false)
    else
      var obj := subtree[0];
      if stop && t.holds(obj) then Services(t.dimm(obj), t.partition(obj), true)
      else
        var rest := Scan(subtree[1..], t, stop);
        Services(t.dimm(obj) + rest.dimm, t.partition(obj) + rest.partition, t.holds(obj) || rest.found)
  }

  /** The scan reports a DIMM found exactly when some object holds it. */
  lemma {:induction false} ScanFound(subtree: Listing, t: ScanTests, stop: bool)
    ensures Scan(subtree, t, stop).found <==> exists i :: 0 <= i < |subtree| && t.holds(subtree[i])
    decreases |subtree|
  {
    if |subtree| > 0 {
      ScanFound(subtree[1..], t, stop);
      assert forall i :: 1 <= i < |subtree| ==> subtree[i] == subtree[1..][i - 1];
    }
  }

  /** Every DIMM service collected is contributed by some object. */
  lemma {:induction false} ScanSound(subtree: Listing, t: ScanTests, stop: bool)
    ensures forall s :: s in Scan(subtree, t, stop).dimm ==>
              exists i :: 0 <= i < |subtree| && s in t.dimm(subtree[i])
    decreases |subtree|
  {
    if |subtree| > 0 {
      ScanSound(subtree[1..], t, stop);
      forall s | s in Scan(subtree, t, stop).dimm
        ensures exists i :: 0 <= i < |subtree| && s in t.dimm(subtree[i])
      {
        if s !in t.dimm(subtree[0]) {
          assert s in Scan(subtree[1..], t, stop).dimm;
          var i :| 0 <= i < |subtree[1..]| && s in t.dimm(subtree[1..][i]);
          assert subtree[1..][i] == subtree[i + 1];
        }
      }
    }
  }

  /** Without stopping, the services of every object are collected. */
  lemma {:induction false} ScanComplete(subtree: Listing, t: ScanTests)
    ensures forall i :: 0 <= i < |subtree| ==>
              t.dimm(subtree[i]) <= Scan(subtree, t, false).dimm
              && t.partition(subtree[i]) <= Scan(subtree, t, false).partition
    decreases |subtree|
  {
    if |subtree| > 0 {
      ScanComplete(subtree[1..], t);
      assert forall i :: 1 <= i < |subtree| ==> subtree[i] == subtree[1..][i - 1];
    }
  }

  /** When stopping, objects after the first one holding the DIMM are not
      looked at. */
  lemma {:induction false} ScanStopsAtFirstMatch(a: Listing, b: Listing, t: ScanTests)
    requires |a| > 0 && t.holds(a[|a| - 1])
    requires forall i :: 0 <= i < |a| - 1 ==> !t.holds(a[i])
    ensures Scan(a + b, t, true) == Scan(a, t, true)
    decreases |a|
  {
    if |a| > 1 {
      assert (a + b)[1..] == a[1..] + b;
      assert forall i :: 0 <= i < |a| - 1 ==> a[1..][i] == a[i + 1];
      ScanStopsAtFirstMatch(a[1..], b, t);
    }
  }

  /** An object that does not hold the DIMM contributes no DIMM service. */
  ghost predicate OnlyHoldersServe(t: ScanTests) {
    forall e :: !t.holds(e) ==> t.dimm(e) == {}
  }

  /** When stopping, and only holders contribute DIMM services, the DIMM
      services are those of the first holder. */
  lemma {:induction false} ScanFirstMatchServices(a: Listing, t: ScanTests)
    requires OnlyHoldersServe(t)
    requires |a| > 0 && t.holds(a[|a| - 1])
    requires forall i :: 0 <= i < |a| - 1 ==> !t.holds(a[i])
    ensures Scan(a, t, true).dimm == t.dimm(a[|a| - 1])
    decreases |a|
  {
    if |a| > 1 {
      assert forall i :: 0 <= i < |a| - 1 ==> a[1..][i] == a[i + 1];
      ScanFirstMatchServices(a[1..], t);
    }
  }

  /** An object that does not hold the wanted DIMM contributes no DIMM
      service: a requested DIMM's services are those of the first object
      holding it. */
  lemma DimmTestsOnlyHoldersServe(dimmId: Option<string>)
    ensures OnlyHoldersServe(DimmTests(dimmId))
  {
    forall e: Entry | !HoldsDimm(e, dimmId)
      ensures DimmServicesOf(e, dimmId) == {}
    {
    }
  }

  /** getDimmData: a failed subtree call is an internal error; a requested
      DIMM that no object holds is not found; otherwise the services to
      query for DIMMs and partitions. */
  function DimmData(reply: Reply<Listing>, dimmId: Option<string>): (r: Result<Services, Error>)
    ensures reply.Fail? ==> r == Err(InternalError)
    ensures reply.Answer? ==>
              (r.Err? <==> dimmId.Some? && forall i :: 0 <= i < |reply.value| ==> !HoldsDimm(reply.value[i], dimmId))
    ensures reply.Answer? && r.Err? ==> r.error == ResourceNotFound("Memory", dimmId.value)
    ensures r.Ok? ==> r.value.found || dimmId.None?
    ensures r.Ok? ==> r.value == Scan(reply.value, DimmTests(dimmId), dimmId.Some?)
  {
    match reply
    case Fail(_) => Err(InternalError)
    case Answer(subtree) =>
      ScanFound(subtree, DimmTests(dimmId), dimmId.Some?);
      var services := Scan(subtree, DimmTests(dimmId), dimmId.Some?);
      if dimmId.Some? && !services.found then Err(ResourceNotFound("Memory", dimmId.value))
      else Ok(services)
  }
}

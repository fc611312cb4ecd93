# Redfish Processor, Storage, Memory and Cable resources — a Dafny model

This project models the request logic of four Redfish resource handlers of
bmcweb, the OpenBMC web server. Each handler turns D-Bus object-mapper and
property replies into Redfish JSON. The model covers the following.

- **Processor** (`processor.hpp`):
  - accelerator, core and thread status;
  - the MicrocodeInfo string;
  - the HighSpeedCoreIDs choice;
  - validation of an AppliedOperatingConfig PATCH;
  - the single-processor lookup.
- **ProcessorExpand** (`processor.hpp`): the efficient `$expand` handler of
  the processor collection. It builds processors, their cores and the cores'
  threads down to the requested expand level.
- **Storage** (`storage.hpp`):
  - LBAFormat names;
  - SecureErase parameters;
  - the unique-service and unique-name lookups;
  - the drive reset mapping.
- **StorageVolumes** (`storage.hpp`): a PATCH of a controller's
  AttachedVolumes. It validates the URIs, computes what to attach and what
  to detach with `std::set_difference`, then issues the calls in order.
- **Memory** (`memory.hpp`):
  - translation of the DeviceType enumeration;
  - the hexadecimal identifiers and KiB-to-MiB sizes;
  - the suffix classifiers;
  - which objects of an ObjectManager dump become DIMM members, and where;
  - attribution of persistent-memory partitions to their DIMM;
  - the service scan of `getDimmData`.
- **Cable** (`cable.hpp`):
  - the Cable properties;
  - the DownstreamChassis / UpstreamChassis links;
  - the GET handler's lookup.

Shared modules:

- `Wrappers`: `Option`, `Result`.
- `Messages`: the Redfish message kinds and the errno values used.
- `Dbus`: D-Bus values, property maps, mapper listings and their lookups.
- `Paths`: `object_path::filename`, `parent_path`, `operator/` and `urlFromPieces`.
- `Strings`: `starts_with`, `ends_with`, `find`, and `std::string`'s `operator<`.
- `Numbers`: decimal and hexadecimal text, and `>>`.
- `Ordering`: comparator-based sorting.

**How the model treats the original code**

- Every asynchronous D-Bus call is represented by its reply. A
  `Reply<T>` is either `Answer(value)` or `Fail(code)`.
- Each handler is a function from the replies to a `Result`. The `Err`
  of a `Result` is the Redfish message the handler writes.
- Sorting uses bmcweb's `AlphanumLess`, whose source is not part of this
  model. It appears as a comparator parameter `less`. Sortedness is proved
  whenever `less` is a strict weak order.
- Where C++ leaves an order unspecified, the model fixes one:
  - `std::sort` is modelled as insertion sort. `Ordering.SortedUnique`
    shows that, under a strict total order, any sorting algorithm gives
    the same result. Ids that `AlphanumLess` ranks as equivalent keep
    their input order here; `std::sort` leaves their order unspecified.
  - The iteration order of an `unordered_map` is the parameter
    `Backend.pick`.

## Model

| member | source | states |
|---|---|---|
| Dbus.Unpack | redfish-core/lib/cable.hpp:32-40 | unpackPropertiesNoThrow for one name: an error exactly when an entry of that name has the wrong type; none exactly when the name is absent; otherwise a well-typed entry of that name |
| Dbus.FirstNamed | redfish-core/lib/storage.hpp:1598-1607 | the find_if over a subtree: the index of the first object whose filename is the id, or the length when none has it; no earlier object has it |
| Processor.UnpackBool | redfish-core/lib/processor.hpp:452-463 | Functional/Present unpacking: error iff an entry of that name is not a bool, none iff absent, otherwise a bool the map holds under that name |
| Processor.AcceleratorStatus | redfish-core/lib/processor.hpp:465-479 | State is Absent exactly when Present is false; Health is Critical exactly when Functional is false and the accelerator is not absent; both directions |
| Processor.AcceleratorData | redfish-core/lib/processor.hpp:433-487 | a failed property read, or a Functional or Present of the wrong type, is an internal error and nothing else is; on success the state is Absent exactly when the reply says Present=false, and Health is Critical exactly when it says Functional=false while Present is not false |
| Processor.MicrocodeInfo | redfish-core/lib/processor.hpp:1076-1087 | "0x" followed by eight hexadecimal digits |
| Processor.MicrocodeRoundTrip | redfish-core/lib/processor.hpp:1396-1407 | the eight digits read back as the 32-bit Microcode value |
| Processor.ApplyProperty | redfish-core/lib/processor.hpp:1026-1091 | one property of a core/thread interface is accepted exactly when it has the type the handler requires (bool Present/Functional, uint32 Microcode, ...) |
| Processor.ApplyProperties | redfish-core/lib/processor.hpp:1026-1091 | an interface's properties are accepted exactly when every one is well typed |
| Processor.ReadSubProcessorFields | redfish-core/lib/processor.hpp:1346-1411 | the interface loop succeeds exactly when every property of every interface is well typed; a mistyped one is an internal error |
| Processor.SubProcessorStatus | redfish-core/lib/processor.hpp:1093-1100 | Absent exactly when not present, Critical exactly when not functional (both directions) |
| Processor.NoStatusPropertiesMeansAbsentAndCritical | redfish-core/lib/processor.hpp:1023-1024 | a core or thread without the OperationalStatus and Item interfaces is reported Absent and Critical, since both flags start false |
| Processor.NoStatusPropertiesKeepFlags | redfish-core/lib/processor.hpp:1346-1411 | interfaces other than OperationalStatus and Item never change the present/functional flags |
| Processor.NoStatusPropertiesKeepFlagsInInterface | redfish-core/lib/processor.hpp:1026-1045 | the same, for the properties of one such interface |
| Processor.HighSpeedCoreIds | redfish-core/lib/processor.hpp:506-537 | the chosen group has the strictly highest base speed and is the first with it, its cores are reported; no group is chosen (empty list) exactly when every base speed is 0 |
| Processor.ControlService | redfish-core/lib/processor.hpp:2243-2253 | a service is found exactly when some service lists CurrentOperatingConfig; it is the first such service in map order |
| Processor.AppliedConfigTarget | redfish-core/lib/processor.hpp:2236-2279 | no control service is an internal error; otherwise accepted exactly when the URI extends the processor's OperatingConfigs/ prefix; the Set call goes to the first service listing CurrentOperatingConfig, and the D-Bus path is the CPU path joined with the rest of the URI |
| Processor.AppliedConfigRoundTrip | redfish-core/lib/processor.hpp:2261-2278 | a URI of the form prefix + name is accepted and the config path's filename is that name |
| Processor.AppliedConfigRejectsBarePrefix | redfish-core/lib/processor.hpp:2261-2270 | the prefix itself, with no config name, is refused with PropertyValueIncorrect |
| Processor.FirstProcessor | redfish-core/lib/processor.hpp:744-785 | the object served passes the path test, carries a processor interface and no earlier object does both; ResourceNotFound exactly when there is none |
| Processor.FindProcessorAsWritten | redfish-core/lib/processor.hpp:727-785 | the lookup as written, with ends_with on the whole object path: failures are internal errors; an error exactly when no object ends with the id and has a processor interface; otherwise the first object that does |
| Processor.EndsWithMatchesWrongProcessor | redfish-core/lib/processor.hpp:747 | a request for the id "pu0" is answered with the object /inventory/cpu0, whose name is not that id, where the filename rule reports ResourceNotFound |
| Processor.FindProcessor | redfish-core/lib/processor.hpp:727-785 | the lookup with the id compared to the path's filename: failures are internal errors, not-found exactly when no object has that filename and a processor interface; otherwise the first object that has both |
| Processor.FilenameMatchImpliesEndsWith | redfish-core/lib/processor.hpp:747 | every object the corrected lookup accepts the as-written test accepts too, so the correction only removes wrong matches |
| ProcessorExpand.Filter | redfish-core/lib/processor.hpp:1700-1713 | the subtree entries kept are exactly those whose path is an association endpoint, each as often as in the subtree |
| ProcessorExpand.FilterMembership | redfish-core/lib/processor.hpp:1882-1894 | an entry survives the filter exactly when it is in the subtree and its path is an endpoint |
| ProcessorExpand.Ids | redfish-core/lib/processor.hpp:1708-1712 | one id per entry, the filename of its path, never containing '/' |
| ProcessorExpand.EntryFor | redfish-core/lib/processor.hpp:1891-1893 | the map built with insert has an entry for exactly the ids listed, and that entry is a listing entry with that filename |
| ProcessorExpand.Keys | redfish-core/lib/processor.hpp:1724-1731 | the keys of the id map are exactly the ids inserted |
| ProcessorExpand.Picked | redfish-core/lib/processor.hpp:1724-1725 | the entry begin() of the id map points at is one of the filtered entries, whichever key the map's order puts first |
| ProcessorExpand.GatherAsWritten | redfish-core/lib/processor.hpp:1631-1758 | a failed endpoints or subtree call is io_error exactly when its code is EIO and an internal error otherwise; the only other failures are an internal error and begin() on an empty id map, reached exactly when no subtree entry is an endpoint; with a non-empty map it is ready exactly when the entry begin() lands on has a service whose object dump answers, and then the dump is that answer, the filtered entries are the endpoint entries, and the ids are their filenames, '/'-free and sorted whenever the comparator is a strict weak order |
| ProcessorExpand.BeginOnEmptyMapIsUndefined | redfish-core/lib/processor.hpp:1904-1906 | a core whose only endpoint is not a thread drives the as-written handler into begin() of an empty map, while the corrected one reports an empty collection |
| ProcessorExpand.Gather | redfish-core/lib/processor.hpp:1724-1731 | never dereferences an empty map: where the as-written front would, it is an empty ready front, and everywhere else it is exactly the as-written front; its only failure is an internal error; ids are a permutation of the filtered filenames, '/'-free and sorted whenever the comparator is a strict weak order |
| ProcessorExpand.GatherReady | redfish-core/lib/processor.hpp:1724-1747 | when every filtered entry has a service whose object dump answers, both fronts are ready, whichever entry begin() lands on |
| ProcessorExpand.ThreadMember | redfish-core/lib/processor.hpp:1760-1794 | the member carries the requested id and its thread URL; at level 0 it is always a link; above, it succeeds exactly when the id has a filtered entry with a service and the thread fields read from the dump at that entry's path succeed, and then its fields are those; every failure is an internal error |
| ProcessorExpand.EachMember | redfish-core/lib/processor.hpp:1760-1794 | the member loop: succeeds exactly when every id's member does, member i being id i's, so the members' ids are the ids in order; a failure is some id's failure |
| ProcessorExpand.ThreadMembers | redfish-core/lib/processor.hpp:1760-1794 | succeeds exactly when every id's thread member does; then member i is id i's thread member, so the members' ids are the ids in order, each expanded to the level; any failure is an internal error |
| ProcessorExpand.ThreadCollection | redfish-core/lib/processor.hpp:1625-1807 | Members@odata.count is the number of members; an io_error front is an empty collection and a failed one an internal error; with a ready front it succeeds exactly when the thread members of the front's ids do, and its members are those, in the front's id order |
| ProcessorExpand.CoreNode | redfish-core/lib/processor.hpp:1307-1338 | succeeds exactly when the core fields read from its interfaces do and, when the level leaves room, the thread collection two levels down does; then a Core with its id and those fields, whose SubProcessors are expanded exactly when the level leaves room and then are that thread collection; every failure is an internal error |
| ProcessorExpand.CoreMember | redfish-core/lib/processor.hpp:1941-1973 | the member carries the requested id and its core URL; at level 0 it is a link; above, an id without a filtered entry with a service is an internal error, and otherwise the member is exactly the core read at that entry's path with that path's interfaces |
| ProcessorExpand.CoreMembers | redfish-core/lib/processor.hpp:1941-1980 | succeeds exactly when every id's core member does; then member i is id i's core member, so the members' ids are the ids in order, each expanded to the level; any failure is an internal error |
| ProcessorExpand.CoreCollection | redfish-core/lib/processor.hpp:1809-1989 | Members@odata.count is the number of members; an io_error front is an empty collection and a failed one an internal error; with a ready front it succeeds exactly when the core members of the front's ids do, and its members are those, in the front's id order |
| ProcessorExpand.CpuNode | redfish-core/lib/processor.hpp:815-828 | a processor with its id whose cores are expanded exactly when the remaining level is positive, and then are the core collection one level down; it fails exactly when that collection does, always with an internal error |
| ProcessorExpand.ProcessorMembers | redfish-core/lib/processor.hpp:2036-2048 | succeeds exactly when every id's processor, read at the path the id map holds for it, does; then member i is id i's processor, so the members' ids are the ids in order, each expanded to the level; level 1 never fails; any failure is an internal error |
| ProcessorExpand.ProcessorCollection | redfish-core/lib/processor.hpp:1990-2050 | io_error is an empty collection and other failures an internal error; with an answered subtree it succeeds exactly when the processor members of the sorted ids do, and its members are those; the members' ids are a permutation of the processor filenames, sorted whenever the comparator is a strict weak order, counted exactly, and each expanded to the level |
| ProcessorExpand.ProcessorCollectionComposes | redfish-core/lib/processor.hpp:815-828 | above level 1 every processor member is expanded, and its SubProcessors are exactly the core collection two levels down for that processor's object |
| ProcessorExpand.DuplicateProcessorIdsGiveDuplicateMembers | redfish-core/lib/processor.hpp:2024-2031 | two processor objects with the same filename give two members with that id: the id map de-duplicates, the sorted list does not |
| ProcessorExpand.DuplicateSubProcessorIdsSurvive | redfish-core/lib/processor.hpp:1708-1712 | the same for cores and threads: duplicate filenames among the filtered entries stay duplicated in the sorted ids |
| Ordering.Sort | redfish-core/lib/processor.hpp:2034 | std::sort: a permutation of its input, sorted whenever the comparator is a strict weak order |
| Ordering.SortedUnique | redfish-core/lib/processor.hpp:1901 | under a strict total order there is only one sorted arrangement of a multiset |
| Ordering.SortDeterministic | redfish-core/lib/processor.hpp:1720-1722 | under a strict total order, the sorted order does not depend on the order the input was listed in |
| Storage.ParseLbaFormatType | redfish-core/lib/storage.hpp:3610-3627 | accepted exactly when the text is "LBAFormat" followed by decimal digits whose value fits in a size_t; the result is that value |
| Storage.LbaFormatRoundTrip | redfish-core/lib/storage.hpp:3610-3627 | every emitted LBAFormatN parses back to N |
| Storage.LbaFormatCanonical | redfish-core/lib/storage.hpp:3610-3627 | a parsed name without a leading zero is exactly the name emitted for its value |
| Storage.LbaFormatLeadingZeroAccepted | redfish-core/lib/storage.hpp:3621-3626 | "LBAFormat01" is accepted as format 1 although it is not the name of format 1 |
| Storage.ParseEraseParams | redfish-core/lib/storage.hpp:1166-1204 | a missing SanitizationType is a malformed request; each of the three accepted values maps to its action, in both directions; anything else is ActionParameterValueNotInList with that value |
| Storage.ActionName | redfish-core/lib/storage.hpp:1206-1218 | the D-Bus value is a member of the DriveErase.EraseAction enumeration |
| Storage.ActionNameInjective | redfish-core/lib/storage.hpp:1206-1218 | distinct actions are sent as distinct enumeration values |
| Storage.MatchServiceName | redfish-core/lib/storage.hpp:2038-2066 | a service is returned exactly when one (service, interface) pair names the interface, and it is that pair's service |
| Storage.CountMatches | redfish-core/lib/storage.hpp:1413-1439 | the counting loop: no match exactly when no candidate matches; several exactly when two do; a unique result is the only match |
| Storage.EraseTarget | redfish-core/lib/storage.hpp:1406-1465 | ResourceNotFound exactly when no drive path has the name; two such paths are an internal error; a unique path with exactly one service is erased there through that service, and any success is such a path; the only errors are those two |
| Storage.FindChassis | redfish-core/lib/storage.hpp:1469-1525 | objects without a service are skipped; a failed subtree is an internal error; not found exactly when no remaining object has the chassis id; an internal error from an answered subtree means two remain; a unique remaining one is the result, and any result is such a one; the only errors are those two |
| Storage.ResetTransitionAsWritten | redfish-core/lib/storage.hpp:1648-1668 | PowerCycle or nothing is Powercycle, exactly "ForceReset" is Reboot, anything else ActionParameterNotSupported |
| Storage.AdvertisedForceRestartRejected | redfish-core/lib/storage.hpp:1923 | ForceRestart is advertised in ResetActionInfo but refused by the reset action |
| Storage.ResetTransition | redfish-core/lib/storage.hpp:1914-1926 | accepted exactly when the value is one ResetActionInfo advertises, ForceRestart meaning Reboot |
| Storage.SetResetType | redfish-core/lib/storage.hpp:1596-1646 | a failed subtree is an internal error; ResourceNotFound("Drive Action") exactly when no drive has that id; otherwise it succeeds exactly when the first such drive has one service, and then gives that service, that drive's path and the requested action; any other outcome is an internal error |
| Storage.ResetTargetAsWritten | redfish-core/lib/storage.hpp:1648-1687 | performDriveReset as written: an unrecognised reset type is refused before any lookup; ForceReset sets Reboot and PowerCycle or none sets Powercycle; a recognised one is exactly setResetType with that action |
| Storage.ResetMappingsDifferOnlyInSpelling | redfish-core/lib/storage.hpp:1653-1667 | the corrected mapping agrees with the written one on every value except the two spellings |
| Storage.ResetTarget | redfish-core/lib/storage.hpp:1648-1687 | performDriveReset with the corrected mapping: only an advertised reset type (or none) reaches the drive lookup, ForceRestart as Reboot and PowerCycle as Powercycle; an accepted one is exactly setResetType with that action |
| Storage.ResetTargetsDifferOnlyInSpelling | redfish-core/lib/storage.hpp:1652-1668 | the corrected handler answers ForceRestart as the handler as written answers ForceReset, and both agree on every other reset type |
| StorageVolumes.ParseVolumeUri | redfish-core/lib/storage.hpp:2628-2636 | an accepted URI is exactly /redfish/v1/Systems/system/Storage/<s>/Volumes/<v> with '/'-free segments |
| StorageVolumes.VolumeUriRoundTrip | redfish-core/lib/storage.hpp:2628-2636 | every volume URI built from '/'-free ids is accepted and yields those ids |
| StorageVolumes.ParseVolumeIds | redfish-core/lib/storage.hpp:2616-2645 | succeeds exactly when every URI names a volume of this storage, one id per URI in order; otherwise InvalidURI of an offending URI |
| StorageVolumes.PairOrderIsStrictWeakOrder | redfish-core/lib/storage.hpp:2662 | operator< on (path, URI) pairs is a strict weak order, so the sort is well defined |
| StorageVolumes.SetDifference | redfish-core/lib/storage.hpp:2716-2722 | std::set_difference: the multiset difference of its inputs, ascending |
| StorageVolumes.Reconcile | redfish-core/lib/storage.hpp:2711-2726 | detaching existing-minus-requested and attaching requested-minus-existing leaves exactly the requested volumes, and nothing is both attached and detached |
| StorageVolumes.RequestedPaths | redfish-core/lib/storage.hpp:2659-2661 | one (storage/volumes/id, URI) pair per parsed id, in order |
| StorageVolumes.Firsts | redfish-core/lib/storage.hpp:2685-2694 | the path of each pair, in order |
| StorageVolumes.FirstsMultiset | redfish-core/lib/storage.hpp:2662 | sorting the pairs permutes their paths the same way |
| StorageVolumes.CheckVolumesExist | redfish-core/lib/storage.hpp:2684-2694 | succeeds exactly when every requested path is an existing volume, giving the paths in order; otherwise InvalidURI of the first request whose path is not a volume |
| StorageVolumes.PlanAttachDetach | redfish-core/lib/storage.hpp:2609-2727 | URI errors come first; a failed volume listing is an internal error; a requested volume the storage lacks is InvalidURI, of the first missing request once the (path, URI) pairs are sorted; with all volumes present a failed attached listing is an internal error and an answered one gives a plan; the plan's requested paths are the volumes named, attaches are requested minus attached and detaches attached minus requested, as multisets |
| StorageVolumes.PlanRequests | redfish-core/lib/storage.hpp:2653-2727 | after the volume listing: a request the storage lacks is InvalidURI of the URI of the first missing request in the sorted (path, URI) pairs; with every request present a failed attached listing is an internal error and an answered one gives the plan, with requested paths and both differences as multisets |
| StorageVolumes.SortedRequests | redfish-core/lib/storage.hpp:2653-2695 | the requests are sorted as (path, URI) pairs and checked in that order: success exactly when every requested path is a volume of the storage, giving the paths ascending and as many as requested; otherwise InvalidURI of the first missing request in sorted order |
| StorageVolumes.PlanReconciles | redfish-core/lib/storage.hpp:2711-2726 | applying the plan in full leaves exactly the requested volumes attached, and no volume is both attached and detached |
| StorageVolumes.NamedErrorMessage | redfish-core/lib/storage.hpp:42-75 | each of the four named NVMe errors maps to its Redfish message, in both directions; every other name is an internal error |
| StorageVolumes.DetachesFirst | redfish-core/lib/storage.hpp:2502-2536 | no attach is issued before the last detach |
| StorageVolumes.ScheduleAt | redfish-core/lib/storage.hpp:2502-2573 | the k-th call detaches from the back of the detach list, then attaches from the back of the attach list |
| StorageVolumes.ApplyAttachDetach | redfish-core/lib/storage.hpp:2495-2607 | the calls issued are a prefix of the schedule, all but the last succeeded; success exactly when the whole schedule ran; a failed call stops the sequence with its error |
| Memory.TranslateValue | redfish-core/lib/memory.hpp:39-150 | a non-empty result is a Redfish DeviceType name translated from exactly that value; empty exactly when no name is |
| Memory.TranslateMemoryType | redfish-core/lib/memory.hpp:39-150 | the same for the full D-Bus enumeration string |
| Memory.DeviceTypeOfInjective | redfish-core/lib/memory.hpp:39-150 | different Redfish names come from different D-Bus values |
| Memory.TranslateRoundTrip | redfish-core/lib/memory.hpp:39-150 | every Redfish name is produced from its D-Bus value |
| Memory.ProbeRename | redfish-core/lib/memory.hpp:81-84 | DDR2_SDRAM_FB_DIMM_PROB becomes ..._PROBE; every other name is its D-Bus value's own name |
| Memory.TranslateInjective | redfish-core/lib/memory.hpp:39-150 | two D-Bus values with the same non-empty translation are equal |
| Memory.DdrDeviceTypesAreDram | redfish-core/lib/memory.hpp:548-551 | every device type whose name mentions DDR is reported with MemoryType DRAM |
| Memory.MemoryType | redfish-core/lib/memory.hpp:548-555 | DRAM exactly when the D-Bus type mentions DDR, IntelOptane exactly when it does not but ends with Logical, nothing otherwise |
| Memory.LogicalIsIntelOptane | redfish-core/lib/memory.hpp:552-555 | the Logical device type is reported with MemoryType IntelOptane |
| Memory.DimmPropToHex | redfish-core/lib/memory.hpp:152-161 | present exactly when the value is; "0x" and four hex digits that read back as the value |
| Memory.SizeMiB | redfish-core/lib/memory.hpp:232-284 | absent exactly when the property is; a non-uint64 value is an internal error; otherwise the KiB value divided by 1024, rounded down |
| Memory.ReportSizes | redfish-core/lib/memory.hpp:232-284 | one MiB size per listed property, in order; an error exactly when one of them is mistyped |
| Memory.FirstSuffixMatch | redfish-core/lib/memory.hpp:327-356 | none exactly when the value ends with no listed value; otherwise a listed value it ends with |
| Memory.ExactValueMatches | redfish-core/lib/memory.hpp:482-494 | over a list where no value ends with another, every enumeration value is classified as itself |
| Memory.MemoryModesSuffixFree | redfish-core/lib/memory.hpp:327-340 | the OperatingMemoryModes list is suffix-free |
| Memory.MemoryMediaSuffixFree | redfish-core/lib/memory.hpp:343-356 | the MemoryMedia list is suffix-free |
| Memory.EccValuesSuffixFree | redfish-core/lib/memory.hpp:482-494 | the ErrorCorrection list is suffix-free |
| Memory.BaseModuleTypeAsWritten | redfish-core/lib/memory.hpp:497-512 | the first listed form factor the D-Bus value ends with |
| Memory.LrdimmReportedAsRdimm | redfish-core/lib/memory.hpp:497-512 | an LRDIMM or Mini_RDIMM form factor is reported as RDIMM |
| Memory.BaseModuleType | redfish-core/lib/memory.hpp:497-512 | the listed form factor equal to the enumeration value's name, none exactly when it is not listed |
| Memory.BaseModuleTypeExact | redfish-core/lib/memory.hpp:497-512 | every form factor is reported as itself |
| Memory.ReportedExactly | redfish-core/lib/memory.hpp:778-801 | an object is kept exactly when it was examined and passes the test |
| Memory.DimmObjectsExactly | redfish-core/lib/memory.hpp:778-801 | an object becomes a member exactly when its filename is non-empty, it is the requested DIMM (if one is), and it has the Dimm interface |
| Memory.PlacementsAt | redfish-core/lib/memory.hpp:802-817 | the k-th DIMM written is the k-th kept object, at Members index start+k for the collection or at the root for one DIMM |
| Memory.AppendKept | redfish-core/lib/memory.hpp:778-850 | the append loop writes exactly the placements of the kept objects |
| Memory.DimmsCallback | redfish-core/lib/memory.hpp:765-857 | a failed dump is an internal error; an answered dump is an internal error exactly when some reported object has a refused interface; otherwise one DIMM per reported object, in dump order, each at its Members index |
| Memory.UnpackAll | redfish-core/lib/memory.hpp:421-439 | unpackPropertiesNoThrow over a type table: an internal error exactly when an entry named in the table has another type; otherwise each row's unpacked value, in order |
| Memory.AssembleDimmProperties | redfish-core/lib/memory.hpp:394-601 | an internal error exactly when a property of the Dimm table (memory.hpp:421-439) or of the persistent-memory table (memory.hpp:199-224) is mistyped; otherwise CapacityMiB and the persistent-memory sizes are those ReportSizes gives for the two size tables |
| Memory.AssembleEach | redfish-core/lib/memory.hpp:841-846 | the step runs on every interface; an internal error exactly when one step fails; otherwise each interface's result, in order |
| Memory.AssembleObject | redfish-core/lib/memory.hpp:841-846 | an internal error exactly when one of the object's interfaces, of whatever name, is refused |
| Memory.AssembleObjects | redfish-core/lib/memory.hpp:776-847 | an internal error exactly when some reported object is refused |
| Memory.PartitionSizes | redfish-core/lib/memory.hpp:633-651 | the two KiB rows of a partition, as a size table, give the offset and size in MiB |
| Memory.PointerEntries | redfish-core/lib/memory.hpp:808-817 | the (id, pointer) stored for each DIMM, in order |
| Memory.PointerMap | redfish-core/lib/memory.hpp:714 | dimmToPtr holds every id stored, each with a pointer stored for it; the last store wins |
| Memory.PointerOfLastWrite | redfish-core/lib/memory.hpp:808-817 | an id not stored again later keeps its pointer |
| Memory.PartitionOfDimm | redfish-core/lib/memory.hpp:729-733 | a partition object directly below a DIMM's path belongs to that DIMM |
| Memory.ObjectPartitions | redfish-core/lib/memory.hpp:724-740 | an object's partitions are written only under a DIMM that was reported, one per Partition interface |
| Memory.PartitionsSound | redfish-core/lib/memory.hpp:720-742 | every partition written is a Partition interface of some object, under its DIMM's pointer |
| Memory.PartitionsComplete | redfish-core/lib/memory.hpp:720-742 | every Partition interface of an object whose DIMM was reported is written |
| Memory.PartitionRegion | redfish-core/lib/memory.hpp:603-656 | an error exactly when one of the five properties is mistyped; the offset and size are reported in MiB, as ReportSizes gives them for the partition size table |
| Memory.ServicesWith | redfish-core/lib/memory.hpp:978-1008 | the set is empty exactly when no service lists the interface |
| Memory.ScanFound | redfish-core/lib/memory.hpp:974-1017 | the DIMM is found exactly when some scanned object holds it |
| Memory.ScanSound | redfish-core/lib/memory.hpp:978-991 | every DIMM service collected serves the Dimm interface on some object |
| Memory.ScanComplete | redfish-core/lib/memory.hpp:977-1016 | when every DIMM is wanted, the services of every object are collected |
| Memory.ScanStopsAtFirstMatch | redfish-core/lib/memory.hpp:1011-1015 | for a requested DIMM, objects after the first that holds it are not looked at |
| Memory.ScanFirstMatchServices | redfish-core/lib/memory.hpp:1011-1015 | for a requested DIMM, the DIMM services are exactly those of the first object holding it |
| Memory.DimmTestsOnlyHoldersServe | redfish-core/lib/memory.hpp:982-991 | an object that is not the requested DIMM contributes no DIMM service |
| Memory.DimmData | redfish-core/lib/memory.hpp:955-1025 | a failed subtree is an internal error; a requested DIMM not found is ResourceNotFound("Memory", id); otherwise the services the scan collected |
| Cable.FillCableProperties | redfish-core/lib/cable.hpp:17-61 | failures and mistyped properties are internal errors; an answer succeeds exactly when both properties unpack and the Length is not infinite; LengthMeters is written exactly when the Length is finite; CableType is written exactly when present; a length is written only when finite, a NaN is dropped silently, an infinite length is an internal error |
| Cable.EmptyPropertiesWriteNothing | redfish-core/lib/cable.hpp:42-60 | an empty property map writes neither CableType nor LengthMeters |
| Cable.InfiniteLengthFails | redfish-core/lib/cable.hpp:49-56 | an infinite Length is an internal error, even with a valid CableType |
| Cable.NotANumberLengthDropped | redfish-core/lib/cable.hpp:49-54 | a NaN Length is left out without an error and the CableType is kept |
| Cable.Calls | redfish-core/lib/cable.hpp:119-133 | a service is asked for its properties exactly when it lists the Cable interface |
| Cable.PropertyQueries | redfish-core/lib/cable.hpp:110-136 | only services listing the Cable interface are queried |
| Cable.PropertyQueriesComplete | redfish-core/lib/cable.hpp:117-135 | every service listing the Cable interface is queried |
| Cable.ChassisLinkNamesChassis | redfish-core/lib/cable.hpp:95-98 | the link built for a leaf is a member of /redfish/v1/Chassis whose id is the leaf |
| Cable.KeptExactly | redfish-core/lib/cable.hpp:86-94 | a position is kept exactly when it was examined and its endpoint passes the test |
| Cable.KeptAscending | redfish-core/lib/cable.hpp:86 | kept positions are in endpoint order |
| Cable.ImagesFollowKept | redfish-core/lib/cable.hpp:86-99 | the k-th link is built from the k-th kept endpoint |
| Cable.SourcesExactly | redfish-core/lib/cable.hpp:89-94 | an endpoint is linked exactly when its filename is non-empty, in endpoint order |
| Cable.LinksFollowSources | redfish-core/lib/cable.hpp:85-99 | one link per linked endpoint, the k-th being /redfish/v1/Chassis/ followed by that endpoint's filename |
| Cable.BuildChassisLinks | redfish-core/lib/cable.hpp:85-99 | the loop computes exactly the links above |
| Cable.AssociationCallback | redfish-core/lib/cable.hpp:69-101 | a failed read changes nothing; otherwise the property is reset to exactly the new links; every other Links property is untouched |
| Cable.AssociationResets | redfish-core/lib/cable.hpp:82-84 | links from an earlier answer are replaced, not appended to |
| Cable.AssociationRequests | redfish-core/lib/cable.hpp:186-191 | two association reads, for DownstreamChassis and UpstreamChassis |
| Cable.AssociationsUnderCable | redfish-core/lib/cable.hpp:186-191 | both association paths are children of the cable object, named downstream_chassis and upstream_chassis |
| Cable.GetCable | redfish-core/lib/cable.hpp:154-195 | EBADR is ResourceNotFound("Cable"), other failures internal errors; not found exactly when no object has the cable id as filename; otherwise the first such object, with Id the cable id |
| Cable.CableUrlRoundTrip | redfish-core/lib/cable.hpp:179-182 | the @odata.id's last segment is the Id and names the D-Bus object found |
| Cable.FirstListedCableWins | redfish-core/lib/cable.hpp:171-192 | of two objects with the cable's filename, the first listed is reported |

## Left out

- D-Bus transport, route registration, privileges and `setUpRedfishRoute`:
  every call is a reply parameter of the function that consumes it.
- Asynchronous lifetime: shared pointers, `AsyncResp`, and the
  `HealthAndPartition` destructor. The partitions are computed from the
  dump and the DIMM pointers directly.
- Health roll-up (`HealthPopulate`), task monitoring of SecureErase, and
  `log_utils::getChassisLogEntry`. None of them is part of this model.
- Floating-point values: a cable Length keeps only its class (finite, NaN
  or infinite). The number written is not modelled.
- Copying of individual fields into JSON: Name, @odata.type, part numbers
  and most DIMM properties are left out. Their type checking (an internal
  error on a mistyped property) is modelled for every property the Dimm
  and persistent-memory readers unpack. When one object is refused, the
  model returns the internal error alone; the handler also writes the
  other members.
- Escaping of path elements, percent-encoding of URLs, and
  `boost::urls::parse_relative_ref`. Paths and URLs are plain strings joined
  with '/'.
- `findStorageController`: the controller path and its service are taken as
  given. The re-population of the controller after the attach/detach calls
  is also left out.
- `handleChassisDriveReset`'s filtering of drives by chassis, and the
  collection handlers that use `getCollectionMembers`, including the cable
  collection.
- JSON that a handler writes before it reports an internal error. The model
  returns the error only.
- The other parts of `getProcessorData` (the CPU, accelerator and
  OperatingConfig readers besides those modelled) and the `expandType` test
  of the route.
- The `sortJsonArrayByKey` of the DIMM Members in `populatePartitions`.
- Several ObjectManager services for DIMMs: one dump is modelled, and `start`
  is the number of members already written.
- `size_t` is taken as 64 bits, and the expand level as a `uint8_t` of at
  least 1, as the route delegates it.

- SortDeterministic: the result does not depend on the input order only
  under a strict total order. `AlphanumLess` is modelled as a strict weak
  order, and it ranks ids such as "cpu01" and "cpu1" as equivalent. The
  source leaves the order of such ids unspecified. Here insertion sort
  keeps their input order.

## Findings

| source | as written | input that shows it | evidently intended | confidence | as-written member | corrected member |
|---|---|---|---|---|---|---|
| redfish-core/lib/processor.hpp:1724-1725 | the thread and core collection handlers take `begin()` of the id map without checking that it is non-empty | a core whose `containing` association lists only a non-thread object: the filtered map is empty and `begin()` is dereferenced | report an empty collection | not executed | ProcessorExpand.GatherAsWritten, ProcessorExpand.BeginOnEmptyMapIsUndefined | ProcessorExpand.Gather |
| redfish-core/lib/processor.hpp:747 | the processor lookup tests `ends_with(processorId)` on the whole object path | a CPU object `/inventory/cpu0` and a request for the id `pu0`: the object is served as processor `pu0` | compare the path's filename with the id | not executed | Processor.FindProcessorAsWritten, Processor.EndsWithMatchesWrongProcessor | Processor.FindProcessor |
| redfish-core/lib/storage.hpp:1657 | the drive reset accepts `ForceReset`, but ResetActionInfo (line 1923) advertises `ForceRestart` | a Reset action with `ResetType: ForceRestart` is refused with ActionParameterNotSupported | accept what is advertised | not executed | Storage.ResetTransitionAsWritten, Storage.ResetTargetAsWritten, Storage.AdvertisedForceRestartRejected | Storage.ResetTransition, Storage.ResetTarget |
| redfish-core/lib/memory.hpp:497-512 | BaseModuleType is the first listed form factor the D-Bus value ends with, and RDIMM is listed before LRDIMM and Mini_RDIMM | FormFactor `...FormFactor.LRDIMM` is reported as `RDIMM` | report the form factor whose name is the enumeration value | not executed | Memory.BaseModuleTypeAsWritten, Memory.LrdimmReportedAsRdimm | Memory.BaseModuleType |

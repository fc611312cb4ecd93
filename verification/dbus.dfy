/** The shapes of the D-Bus replies the handlers consume: object-mapper
    subtree listings, association endpoints and ObjectManager dumps. The
    transport itself is not modelled: every reply is an input. */
module Dbus {
  import opened Wrappers
  import opened Messages
  import Paths

  /** errno values the handlers compare against (Linux numbering). */
  const EIO: int := 5      // boost::system::errc::io_error
  const EBADR: int := 53

  /** A method reply: the payload, or the non-zero error code. */
  datatype Reply<+T> = Answer(value: T) | Fail(code: int)

  type Path = string

  /** MapperServiceMap: (service name, interfaces it implements on the
      object), in the mapper's order. */
  type ServiceMap = seq<(string, seq<string>)>

  /** MapperGetSubTreeResponse: (object path, service map) per object. */
  type Listing = seq<(Path, ServiceMap)>

  /** The property variant types the modelled handlers distinguish. */
  datatype Value =
    | Bool(b: bool)
    | Str(s: string)
    | U8(n: nat)
    | U16(n: nat)
    | U32(n: nat)
    | U64(n: nat)
      /** A double, of which only the class is kept. */
    | Real(cls: FloatClass)
    | U16Array(ns: seq<nat>)
    | U32Array(ns: seq<nat>)
    | OtherValue

  /** std::isfinite / std::isnan classes of a double. */
  datatype FloatClass = Finite | NotANumber | Infinite

  type PropertyMap = seq<(string, Value)>

  /** DBusInteracesMap: (interface, its properties) for one object. */
  type InterfaceMap = seq<(string, PropertyMap)>

  /** ManagedObjectType: GetManagedObjects' (object path, interfaces). */
  type ManagedObjects = seq<(Path, InterfaceMap)>

  /** Some service of the map lists the interface. */
  predicate ServiceMapHas(services: ServiceMap, iface: string) {
    exists i :: 0 <= i < |services| && iface in services[i].1
  }

  /** The object's interface map has an entry for the interface. */
  predicate HasInterface(ifaces: InterfaceMap, iface: string) {
    exists i :: 0 <= i < |ifaces| && ifaces[i].0 == iface
  }

  /** The interfaces of the first object with this path in a dump, or none:
      the handlers look objects up in a map built from the dump, and a
      missing key gives an empty interface map. */
  function InterfacesOf(objects: ManagedObjects, path: Path): (r: InterfaceMap)
    ensures (forall i :: 0 <= i < |objects| ==> objects[i].0 != path) ==> r == []
    decreases |objects|
  {
    if |objects| == 0 then []
    else if objects[0].0 == path then objects[0].1
    else InterfacesOf(objects[1..], path)
  }

  /** unpackPropertiesNoThrow for one property: none when absent, an
      internal error when an entry of that name holds a value of another
      type, otherwise the value of the last entry of that name. */
  function Unpack(props: PropertyMap, name: string, typed: Value -> bool): (r: Result<Option<Value>, Error>)
    ensures r.Err? <==> exists i :: 0 <= i < |props| && props[i].0 == name && !typed(props[i].1)
    ensures r.Err? ==> r.error == InternalError
    ensures r == Ok(None) <==> forall i :: 0 <= i < |props| ==> props[i].0 != name
    ensures r.Ok? && r.value.Some? ==>
              typed(r.value.value) && exists i :: 0 <= i < |props| && props[i] == (name, r.value.value)
    decreases |props|
  {
    if |props| == 0 then Ok(None)
    else
      var rest := Unpack(props[1..], name, typed);
      assert forall i :: 1 <= i < |props| ==> props[i] == props[1..][i - 1];
      if props[0].0 != name then rest
      else if !typed(props[0].1) then Err(InternalError)
      else if rest.Err? || rest.value.Some? then rest
      else Ok(Some(props[0].1))
  }

  /** std::find_if on the filename: the first index whose filename is id,
      or |listing| when there is none. */
  function FirstNamed(listing: Listing, id: string): (i: nat)
    ensures i <= |listing|
    ensures i < |listing| ==> Paths.Filename(listing[i].0) == id
    ensures forall k :: 0 <= k < i ==> Paths.Filename(listing[k].0) != id
  {
    FirstNamedFrom(listing, id, 0)
  }

  /** The search of FirstNamed from index `from` on. */
  function FirstNamedFrom(listing: Listing, id: string, from: nat): (i: nat)
    requires from <= |listing|
    ensures from <= i <= |listing|
    ensures i < |listing| ==> Paths.Filename(listing[i].0) == id
    ensures forall k :: from <= k < i ==> Paths.Filename(listing[k].0) != id
    decreases |listing| - from
  {
    if from == |listing| then from
    else if Paths.Filename(listing[from].0) == id then from
    else FirstNamedFrom(listing, id, from + 1)
  }
}

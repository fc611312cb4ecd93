/** The Cable resource (cable.hpp): finding a cable by id in the object
    mapper's subtree, the properties copied from its Cable interface, and
    the chassis links built from its association endpoints. */
module Cable {
  import opened Wrappers
  import opened Dbus
  import opened Messages
  import Paths

  const CABLE_INTERFACE := "xyz.openbmc_project.Inventory.Item.Cable"
  const CABLES := "/redfish/v1/Cables"
  const CHASSIS_COLLECTION := "/redfish/v1/Chassis"

  // ---------------------------------------------------------------------
  // fillCableProperties

  /** What the properties callback writes: CableType when the description
      is present, and whether LengthMeters is written. */
  datatype CableProperties = CableProperties(cableType: Option<string>, lengthWritten: bool)

  predicate IsStr(v: Value) {
    v.Str?
  }

  predicate IsReal(v: Value) {
    v.Real?
  }

  /** fillCableProperties: a failed call or a property of the wrong type is
      an internal error; an infinite length is one too, while a NaN length
      ends the callback without writing LengthMeters. */
  function FillCableProperties(reply: Reply<PropertyMap>): (r: Result<CableProperties, Error>)
    ensures reply.Fail? ==> r == Err(InternalError)
    ensures r.Err? ==> r.error == InternalError
    ensures reply.Answer? ==>
              ((exists i :: 0 <= i < |reply.value| && reply.value[i].0 == "CableTypeDescription" && !reply.value[i].1.Str?)
               ==> r.Err?)
    ensures reply.Answer? ==>
              ((exists i :: 0 <= i < |reply.value| && reply.value[i].0 == "Length" && !reply.value[i].1.Real?)
               ==> r.Err?)
    ensures r.Ok? ==> reply.Answer?
    ensures reply.Answer? ==>
              (r.Ok? <==> Unpack(reply.value, "CableTypeDescription", IsStr).Ok?
                          && Unpack(reply.value, "Length", IsReal).Ok?
                          && Unpack(reply.value, "Length", IsReal).value != Some(Real(Infinite)))
    ensures r.Ok? ==> (r.value.lengthWritten <==> Unpack(reply.value, "Length", IsReal).value == Some(Real(Finite)))
    ensures r.Ok? ==> (r.value.cableType.Some? <==>
                         exists i :: 0 <= i < |reply.value| && reply.value[i].0 == "CableTypeDescription")
    ensures r.Ok? && r.value.cableType.Some? ==>
              exists i :: 0 <= i < |reply.value| && reply.value[i] == ("CableTypeDescription", Str(r.value.cableType.value))
    ensures r.Ok? && r.value.lengthWritten ==>
              exists i :: 0 <= i < |reply.value| && reply.value[i] == ("Length", Real(Finite))
    ensures r.Ok? && !r.value.lengthWritten ==>
              (forall i :: 0 <= i < |reply.value| ==> reply.value[i].0 != "Length")
              || exists i :: 0 <= i < |reply.value| && reply.value[i] == ("Length", Real(NotANumber))
  {
    match reply
    case Fail(_) => Err(InternalError)
    case Answer(props) =>
      var description :- Unpack(props, "CableTypeDescription", IsStr);
      var length :- Unpack(props, "Length", IsReal);
      var cableType := if description.Some? then Some(description.value.s) else None;
      if length.None? then Ok(CableProperties(cableType, false))
      else
        match length.value.cls
        case Finite => Ok(CableProperties(cableType, true))
        case NotANumber => Ok(CableProperties(cableType, false))
        case Infinite => Err(InternalError)
  }

  /** When both properties are absent the callback writes nothing and
      reports no error. */
  lemma EmptyPropertiesWriteNothing()
    ensures FillCableProperties(Answer([])) == Ok(CableProperties(None, false))
  {
  }

  /** An infinite length is an internal error, whatever else is present. */
  lemma InfiniteLengthFails(cableType: string)
    ensures FillCableProperties(Answer([("CableTypeDescription", Str(cableType)), ("Length", Real(Infinite))]))
            == Err(InternalError)
  {
    var props := [("CableTypeDescription", Str(cableType)), ("Length", Real(Infinite))];
    assert Unpack(props, "Length", IsReal) == Ok(Some(Real(Infinite)));
  }

  /** A NaN length is dropped silently: no LengthMeters and no error. */
  lemma NotANumberLengthDropped(cableType: string)
    ensures FillCableProperties(Answer([("CableTypeDescription", Str(cableType)), ("Length", Real(NotANumber))]))
            == Ok(CableProperties(Some(cableType), false))
  {
    var props := [("CableTypeDescription", Str(cableType)), ("Length", Real(NotANumber))];
    assert Unpack(props, "Length", IsReal) == Ok(Some(Real(NotANumber)));
  }

  // ---------------------------------------------------------------------
  // getCableProperties

  /** Some entry of the map lists the Cable interface under this service. */
  predicate ServesCable(services: ServiceMap, service: string) {
    exists i :: 0 <= i < |services| && services[i].0 == service && CABLE_INTERFACE in services[i].1
  }

  /** The services asked for the Cable interface's properties: one
      getAllProperties call per listing of the interface, in map order. */
  function PropertyQueries(services: ServiceMap): (r: seq<string>)
    ensures forall k :: 0 <= k < |r| ==> ServesCable(services, r[k])
    decreases |services|
  {
    if |services| == 0 then []
    else
      var n := |services| - 1;
      var rest := PropertyQueries(services[..n]);
      var here := Calls(services[n].0, services[n].1);
      assert |here| > 0 ==> ServesCable(services, services[n].0) by {
        if |here| > 0 {
          assert services[n].0 == services[n].0 && CABLE_INTERFACE in services[n].1;
        }
      }
      assert forall k :: 0 <= k < |rest| ==> ServesCable(services, rest[k]) by {
        forall k | 0 <= k < |rest|
          ensures ServesCable(services, rest[k])
        {
          var i :| 0 <= i < n && services[..n][i].0 == rest[k] && CABLE_INTERFACE in services[..n][i].1;
          assert services[i] == services[..n][i];
        }
      }
      rest + here
  }

  /** One call to `service` per occurrence of the Cable interface. */
  function Calls(service: string, interfaces: seq<string>): (r: seq<string>)
    ensures forall k :: 0 <= k < |r| ==> r[k] == service
    ensures |r| > 0 <==> CABLE_INTERFACE in interfaces
    decreases |interfaces|
  {
    if |interfaces| == 0 then []
    else
      var rest := Calls(service, interfaces[1..]);
      assert interfaces == [interfaces[0]] + interfaces[1..];
      if interfaces[0] == CABLE_INTERFACE then [service] + rest else rest
  }

  /** Every service that lists the Cable interface is asked. */
  lemma {:induction false} PropertyQueriesComplete(services: ServiceMap, i: nat)
    requires i < |services| && CABLE_INTERFACE in services[i].1
    ensures services[i].0 in PropertyQueries(services)
    decreases |services|
  {
    var n := |services| - 1;
    var here := Calls(services[n].0, services[n].1);
    if i < n {
      PropertyQueriesComplete(services[..n], i);
      assert PropertyQueries(services) == PropertyQueries(services[..n]) + here;
    } else {
      assert here[0] == services[i].0;
      assert PropertyQueries(services) == PropertyQueries(services[..n]) + here;
    }
  }

  // ---------------------------------------------------------------------
  // getCableChassisAssociation

  /** The link written for a chassis leaf name. */
  function ChassisLink(leaf: string): string {
    Paths.Join(CHASSIS_COLLECTION, leaf)
  }

  /** A link names its chassis: its filename is the leaf and its parent is
      the chassis collection. */
  lemma ChassisLinkNamesChassis(leaf: string)
    requires '/' !in leaf
    ensures Paths.Filename(ChassisLink(leaf)) == leaf
    ensures Paths.ParentPath(ChassisLink(leaf)) == CHASSIS_COLLECTION
  {
    Paths.FilenameOfJoin(CHASSIS_COLLECTION, leaf);
    Paths.ParentOfJoin(CHASSIS_COLLECTION, leaf);
  }

  /** The indices i < n of the elements that pass `keep`, ascending. */
  function Kept<T>(xs: seq<T>, n: nat, keep: T -> bool): (r: seq<nat>)
    requires n <= |xs|
    ensures forall k :: 0 <= k < |r| ==> r[k] < n
    decreases n
  {
    if n == 0 then []
    else Kept(xs, n - 1, keep) + (if keep(xs[n - 1]) then [n - 1] else [])
  }

  /** The images under f of the first n elements that pass `keep`, in order. */
  function KeptImages<T, U>(xs: seq<T>, n: nat, keep: T -> bool, f: T -> U): (r: seq<U>)
    requires n <= |xs|
    ensures |r| <= n
    decreases n
  {
    if n == 0 then []
    else KeptImages(xs, n - 1, keep, f) + (if keep(xs[n - 1]) then [f(xs[n - 1])] else [])
  }

  /** One more element: its image is appended when it passes `keep`. */
  lemma KeptImagesStep<T, U>(xs: seq<T>, n: nat, keep: T -> bool, f: T -> U)
    requires n < |xs|
    ensures keep(xs[n]) ==> KeptImages(xs, n + 1, keep, f) == KeptImages(xs, n, keep, f) + [f(xs[n])]
    ensures !keep(xs[n]) ==> KeptImages(xs, n + 1, keep, f) == KeptImages(xs, n, keep, f)
  {
  }

  lemma {:induction false} KeptExactly<T>(xs: seq<T>, n: nat, keep: T -> bool, i: nat)
    requires n <= |xs|
    ensures i in Kept(xs, n, keep) <==> i < n && keep(xs[i])
    decreases n
  {
    if n > 0 {
      KeptExactly(xs, n - 1, keep, i);
    }
  }

  lemma {:induction false} KeptAscending<T>(xs: seq<T>, n: nat, keep: T -> bool)
    requires n <= |xs|
    ensures forall a, b :: 0 <= a < b < |Kept(xs, n, keep)| ==> Kept(xs, n, keep)[a] < Kept(xs, n, keep)[b]
    decreases n
  {
    if n > 0 {
      KeptAscending(xs, n - 1, keep);
    }
  }

  lemma {:induction false} ImagesFollowKept<T, U>(xs: seq<T>, n: nat, keep: T -> bool, f: T -> U)
    requires n <= |xs|
    ensures |KeptImages(xs, n, keep, f)| == |Kept(xs, n, keep)|
    ensures forall k :: 0 <= k < |KeptImages(xs, n, keep, f)| ==>
              KeptImages(xs, n, keep, f)[k] == f(xs[Kept(xs, n, keep)[k]])
    decreases n
  {
    if n > 0 {
      ImagesFollowKept(xs, n - 1, keep, f);
    }
  }

  /** An endpoint yields a link when its leaf is non-empty. */
  function Linked(): Path -> bool {
    endpoint => Paths.Filename(endpoint) != ""
  }

  /** The link of an endpoint's leaf. */
  function LinkOf(): Path -> string {
    endpoint => ChassisLink(Paths.Filename(endpoint))
  }

  /** The links of the first n endpoints, in endpoint order. */
  function ChassisLinks(endpoints: seq<Path>, n: nat): (r: seq<string>)
    requires n <= |endpoints|
    ensures |r| <= n
  {
    KeptImages(endpoints, n, Linked(), LinkOf())
  }

  /** The indices of the endpoints that yield a link. */
  function Sources(endpoints: seq<Path>): (r: seq<nat>)
    ensures forall k :: 0 <= k < |r| ==> r[k] < |endpoints|
  {
    Kept(endpoints, |endpoints|, Linked())
  }

  /** Exactly the endpoints with a non-empty leaf are sources, each once
      and in endpoint order. */
  lemma SourcesExactly(endpoints: seq<Path>, i: nat)
    ensures i in Sources(endpoints) <==> i < |endpoints| && Paths.Filename(endpoints[i]) != ""
    ensures forall a, b :: 0 <= a < b < |Sources(endpoints)| ==> Sources(endpoints)[a] < Sources(endpoints)[b]
  {
    KeptExactly(endpoints, |endpoints|, Linked(), i);
    KeptAscending(endpoints, |endpoints|, Linked());
  }

  /** The k-th link is the chassis link of the k-th source's leaf: one link
      per source, in order, and nothing else. */
  lemma LinksFollowSources(endpoints: seq<Path>)
    ensures |ChassisLinks(endpoints, |endpoints|)| == |Sources(endpoints)|
    ensures forall k :: 0 <= k < |Sources(endpoints)| ==>
              ChassisLinks(endpoints, |endpoints|)[k] == ChassisLink(Paths.Filename(endpoints[Sources(endpoints)[k]]))
  {
    ImagesFollowKept(endpoints, |endpoints|, Linked(), LinkOf());
  }

  /** The loop of the endpoints callback. */
  method BuildChassisLinks(endpoints: seq<Path>) returns (links: seq<string>)
    ensures links == ChassisLinks(endpoints, |endpoints|)
    ensures |links| <= |endpoints|
  {
    links := [];
    for i := 0 to |endpoints|
      invariant links == ChassisLinks(endpoints, i)
    {
      KeptImagesStep(endpoints, i, Linked(), LinkOf());
      // skip an endpoint whose leaf is empty
      if !Linked()(endpoints[i]) {
        continue;
      }
      links := links + [LinkOf()(endpoints[i])];
    }
  }

  /** The Links object of the response: property name to chassis links. */
  type Links = map<string, seq<string>>

  /** The endpoints callback: an error leaves Links as it was; otherwise
      the property is reset to the links of the endpoints and every other
      property is kept. */
  method AssociationCallback(links: Links, property: string, reply: Reply<seq<Path>>) returns (r: Links)
    ensures reply.Fail? ==> r == links
    ensures reply.Answer? ==> r.Keys == links.Keys + {property}
    ensures reply.Answer? ==> r[property] == ChassisLinks(reply.value, |reply.value|)
    ensures KeepsOthers(links, r, property)
  {
    match reply
    case Fail(_) =>
      r := links;
    case Answer(endpoints) =>
      var built := BuildChassisLinks(endpoints);
      r := links[property := built];
      UpdateKeepsOthers(links, property, built);
  }

  /** Every key of `before` other than k is in `after` with the same value. */
  predicate KeepsOthers<K, V(==)>(before: map<K, V>, after: map<K, V>, k: K) {
    forall p :: p in before && p != k ==> p in after && after[p] == before[p]
  }

  lemma UpdateKeepsOthers<K, V>(m: map<K, V>, k: K, v: V)
    ensures m[k := v].Keys == m.Keys + {k}
    ensures KeepsOthers(m, m[k := v], k)
  {
  }

  /** The links written on success do not depend on what the property held
      before: the list is reset, not appended to. */
  lemma AssociationResets(before: Links, property: string, endpoints: seq<Path>)
    ensures var links := ChassisLinks(endpoints, |endpoints|);
            before[property := links][property] == links
  {
  }

  // ---------------------------------------------------------------------
  // The Cable GET handler

  /** What the handler writes for a found cable, and the object it then
      reads properties and associations from. */
  datatype CableResource = CableResource(odataId: string, id: string, path: Path, services: ServiceMap)

  /** The two association lookups: (association path, Links property). */
  function AssociationRequests(c: CableResource): (r: seq<(Path, string)>)
    ensures |r| == 2
    ensures r[0].1 == "DownstreamChassis" && r[1].1 == "UpstreamChassis"
  {
    [(Paths.Join(c.path, "downstream_chassis"), "DownstreamChassis"),
     (Paths.Join(c.path, "upstream_chassis"), "UpstreamChassis")]
  }

  /** Both association objects sit directly under the cable's object and
      are told apart by their last element. */
  lemma AssociationsUnderCable(c: CableResource)
    requires |c.path| > 0
    ensures forall q :: q in AssociationRequests(c) ==> Paths.ParentPath(q.0) == c.path
    ensures Paths.Filename(AssociationRequests(c)[0].0) == "downstream_chassis"
    ensures Paths.Filename(AssociationRequests(c)[1].0) == "upstream_chassis"
  {
    Paths.FilenameOfJoin(c.path, "downstream_chassis");
    Paths.FilenameOfJoin(c.path, "upstream_chassis");
    Paths.ParentOfJoin(c.path, "downstream_chassis");
    Paths.ParentOfJoin(c.path, "upstream_chassis");
  }

  /** The GetSubTree callback: EBADR is "no such cable", any other error is
      internal, and otherwise the first object whose filename is the id is
      the cable. */
  function GetCable(reply: Reply<Listing>, cableId: string): (r: Result<CableResource, Error>)
    ensures reply == Fail(EBADR) ==> r == Err(ResourceNotFound("Cable", cableId))
    ensures reply.Fail? && reply.code != EBADR ==> r == Err(InternalError)
    ensures reply.Answer? ==>
              (r.Err? <==> forall i :: 0 <= i < |reply.value| ==> Paths.Filename(reply.value[i].0) != cableId)
    ensures reply.Answer? && r.Err? ==> r.error == ResourceNotFound("Cable", cableId)
    ensures r.Ok? ==> reply.Answer? && r.value.id == cableId && Paths.Filename(r.value.path) == cableId
    ensures r.Ok? ==>
              exists i :: 0 <= i < |reply.value| && reply.value[i] == (r.value.path, r.value.services)
                && forall k :: 0 <= k < i ==> Paths.Filename(reply.value[k].0) != cableId
  {
    match reply
    case Fail(code) =>
      if code == EBADR then Err(ResourceNotFound("Cable", cableId)) else Err(InternalError)
    case Answer(subtree) =>
      var i := FirstNamed(subtree, cableId);
      if i == |subtree| then Err(ResourceNotFound("Cable", cableId))
      else Ok(CableResource(CABLES + "/" + cableId, cableId, subtree[i].0, subtree[i].1))
  }

  /** The resource's URL leads back to the cable: its filename is the id and
      its parent is the cable collection. */
  lemma CableUrlRoundTrip(reply: Reply<Listing>, cableId: string)
    requires GetCable(reply, cableId).Ok?
    ensures var c := GetCable(reply, cableId).value;
            Paths.Filename(c.odataId) == cableId && Paths.ParentPath(c.odataId) == CABLES
  {
    var c := GetCable(reply, cableId).value;
    assert '/' !in cableId;
    assert c.odataId == Paths.Join(CABLES, cableId);
    Paths.FilenameOfJoin(CABLES, cableId);
    Paths.ParentOfJoin(CABLES, cableId);
  }

  /** Of two objects with the cable's id, the first listed is used. */
  lemma FirstListedCableWins(a: (Path, ServiceMap), b: (Path, ServiceMap), cableId: string)
    requires Paths.Filename(a.0) == cableId && Paths.Filename(b.0) == cableId
    ensures GetCable(Answer([a, b]), cableId) == Ok(CableResource(CABLES + "/" + cableId, cableId, a.0, a.1))
  {
  }
}

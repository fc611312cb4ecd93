/** The efficient $expand handler of the processor collection: processors,
    their cores (SubProcessors) and the cores' threads, built from mapper
    replies and one GetManagedObjects dump per collection, down to the
    requested expand level. Ids are sorted with the handlers' comparator,
    which is a parameter (the handlers pass AlphanumLess). */
module ProcessorExpand {
  import opened Wrappers
  import opened Dbus
  import opened Messages
  import opened Ordering
  import Paths
  import Processor

  /** The D-Bus answers the handlers receive. `pick` stands for the
      unspecified iteration order of an unordered_map: given the map's keys
      it chooses the one begin() lands on (any index, reduced modulo the
      number of keys). */
  datatype Backend = Backend(
    processors: Reply<Listing>,
    cores: Reply<Listing>,
    threads: Reply<Listing>,
    endpoints: Path -> Reply<seq<Path>>,
    managed: string -> Reply<ManagedObjects>,
    pick: seq<string> -> nat)

  /** A collection member: a bare link, or an expanded resource. */
  datatype Node =
    | Link(odataId: string)
    | Thread(odataId: string, id: string, fields: Processor.SubProcessorFields, status: Processor.Status)
    | Core(odataId: string, id: string, fields: Processor.SubProcessorFields, status: Processor.Status, sub: Sub)
    | Cpu(odataId: string, id: string, sub: Sub)

  /** A SubProcessors property: a link to the collection, or the collection. */
  datatype Sub = SubLink(odataId: string) | Expanded(collection: Collection)

  /** Members and Members@odata.count. */
  datatype Collection = Collection(members: seq<Node>, count: nat)

  // ---------------------------------------------------------------------
  // What a member at a given expand level is

  /** The three kinds of collection member. */
  datatype Kind = ThreadKind | CoreKind | CpuKind

  /** The node is what the handlers write for a member of this kind at
      expand level k: a bare link at level 0; otherwise the resource itself,
      with its status derived from its fields, and (for cores and
      processors) its SubProcessors collection expanded at level k - 1. */
  predicate Expands(n: Node, kind: Kind, k: nat)
    decreases n
  {
    match n
    case Link(_) => k == 0
    case Thread(_, _, f, st) => k >= 1 && kind == ThreadKind && st == Processor.SubProcessorStatus(f)
    case Core(_, _, f, st, sub) =>
      k >= 1 && kind == CoreKind && st == Processor.SubProcessorStatus(f) && SubExpands(sub, ThreadKind, k - 1)
    case Cpu(_, _, sub) => k >= 1 && kind == CpuKind && SubExpands(sub, CoreKind, k - 1)
  }

  /** A SubProcessors property at level k: a link at level 0, otherwise the
      collection with its count and every member at level k - 1. */
  predicate SubExpands(s: Sub, kind: Kind, k: nat)
    decreases s
  {
    match s
    case SubLink(_) => k == 0
    case Expanded(c) =>
      k >= 1 && c.count == |c.members| && forall i :: 0 <= i < |c.members| ==> Expands(c.members[i], kind, k - 1)
  }

  predicate MembersExpand(ns: seq<Node>, kind: Kind, k: nat) {
    forall i :: 0 <= i < |ns| ==> Expands(ns[i], kind, k)
  }

  /** The id a member stands for: its own Id, or the last segment of its
      link. */
  function NodeId(n: Node): string {
    match n
    case Link(u) => Paths.Filename(u)
    case Thread(_, id, _, _) => id
    case Core(_, id, _, _, _) => id
    case Cpu(_, id, _) => id
  }

  function MemberIds(ns: seq<Node>): (r: seq<string>)
    ensures |r| == |ns|
    ensures forall i :: 0 <= i < |ns| ==> r[i] == NodeId(ns[i])
  {
    if |ns| == 0 then [] else [NodeId(ns[0])] + MemberIds(ns[1..])
  }

  /** Prepending a member prepends its id and keeps the members' level. */
  lemma Prepend(n: Node, rest: seq<Node>, kind: Kind, level: nat)
    ensures MemberIds([n] + rest) == [NodeId(n)] + MemberIds(rest)
    ensures Expands(n, kind, level) && MembersExpand(rest, kind, level) ==> MembersExpand([n] + rest, kind, level)
  {
    assert ([n] + rest)[1..] == rest;
  }

  /** The member function gives, for each id it succeeds on, a node with
      that id expanded as kind at level. */
  ghost predicate MembersFit(member: string --> Result<Node, Error>, ids: seq<string>, kind: Kind, level: nat) {
    forall i :: 0 <= i < |ids| ==>
      member.requires(ids[i])
      && (member(ids[i]).Ok? ==> NodeId(member(ids[i]).value) == ids[i] && Expands(member(ids[i]).value, kind, level))
  }

  /** The members of a collection, one per id in order, each the member
      function's result for that id; the first failing id fails them all. */
  function EachMember(member: string --> Result<Node, Error>, ids: seq<string>, kind: Kind, level: nat)
    : (r: Result<seq<Node>, Error>)
    requires MembersFit(member, ids, kind, level)
    ensures r.Ok? <==> forall i :: 0 <= i < |ids| ==> member(ids[i]).Ok?
    ensures r.Ok? ==> |r.value| == |ids| && forall i :: 0 <= i < |ids| ==> member(ids[i]) == Ok(r.value[i])
    ensures r.Ok? ==> MemberIds(r.value) == ids && MembersExpand(r.value, kind, level)
    ensures r.Err? ==> exists i :: 0 <= i < |ids| && member(ids[i]) == Err(r.error)
    decreases |ids|
  {
    if |ids| == 0 then Ok([])
    else
      assert forall i :: 1 <= i < |ids| ==> ids[i] == ids[1..][i - 1];
      assert MembersFit(member, ids[1..], kind, level);
      match member(ids[0])
      case Err(e) => Err(e)
      case Ok(node) =>
        match EachMember(member, ids[1..], kind, level)
        case Err(e) =>
          assert exists i :: 0 <= i < |ids| && member(ids[i]) == Err(e) by {
            var j :| 0 <= j < |ids[1..]| && member(ids[1..][j]) == Err(e);
            assert ids[j + 1] == ids[1..][j];
          }
          Err(e)
        case Ok(rest) =>
          Prepend(node, rest, kind, level);
          Ok([node] + rest)
  }

  // ---------------------------------------------------------------------
  // Filtering and keyed lookup

  /** The subtree entries whose path is one of the association's endpoints,
      in subtree order. */
  function Filter(listing: Listing, eps: seq<Path>): (r: Listing)
    ensures forall e :: multiset(r)[e] == (if e.0 in eps then multiset(listing)[e] else 0)
    decreases |listing|
  {
    if |listing| == 0 then []
    else
      var rest := Filter(listing[..|listing| - 1], eps);
      var last := listing[|listing| - 1];
      assert listing == listing[..|listing| - 1] + [last];
      if last.0 in eps then rest + [last] else rest
  }

  lemma FilterMembership(listing: Listing, eps: seq<Path>, e: (Path, ServiceMap))
    ensures e in Filter(listing, eps) <==> e in listing && e.0 in eps
  {
    assert e in Filter(listing, eps) <==> multiset(Filter(listing, eps))[e] > 0;
    assert e in listing <==> multiset(listing)[e] > 0;
  }

  /** The id of each entry: the filename of its object path. */
  function Ids(listing: Listing): (r: seq<string>)
    ensures |r| == |listing|
    ensures forall i :: 0 <= i < |r| ==> r[i] == Paths.Filename(listing[i].0) && '/' !in r[i]
  {
    seq(|listing|, i requires 0 <= i < |listing| => Paths.Filename(listing[i].0))
  }

  /** The map from id to (path, services) the handlers build with insert:
      the first entry with that id is kept. */
  function EntryFor(listing: Listing, id: string): (r: Option<(Path, ServiceMap)>)
    ensures r.Some? <==> id in Ids(listing)
    ensures r.Some? ==> r.value in listing && Paths.Filename(r.value.0) == id
    decreases |listing|
  {
    if |listing| == 0 then None
    else if Paths.Filename(listing[0].0) == id then Some(listing[0])
    else
      assert Ids(listing) == [Paths.Filename(listing[0].0)] + Ids(listing[1..]);
      EntryFor(listing[1..], id)
  }

  /** The map's keys, each once, in order of first insertion. */
  function Keys(ids: seq<string>): (r: seq<string>)
    ensures forall x :: x in r <==> x in ids
    decreases |ids|
  {
    if |ids| == 0 then []
    else
      var k := Keys(ids[..|ids| - 1]);
      assert ids == ids[..|ids| - 1] + [ids[|ids| - 1]];
      if ids[|ids| - 1] in k then k else k + [ids[|ids| - 1]]
  }

  // ---------------------------------------------------------------------
  // The common front of the core and thread collection handlers

  /** Where the front of a collection handler ends: io_error (an empty
      collection), a failure, or the sorted ids with the filtered entries
      and the managed-object dump of one service. */
  datatype Gathered =
    | IoError
    | Failure(error: Error)
    | Ready(filtered: Listing, ids: seq<string>, dump: ManagedObjects)

  function ReplyFailure(code: int): Gathered {
    if code == EIO then IoError else Failure(InternalError)
  }

  /** The entry begin() lands on in the map built from the filtered
      entries: the map keeps the first entry per id, and `pick` chooses
      among its keys. */
  function Picked(b: Backend, filtered: Listing): (e: (Path, ServiceMap))
    requires |filtered| > 0
    ensures e in filtered
  {
    var keys := Keys(Ids(filtered));
    assert Ids(filtered)[0] in keys;
    var key := keys[b.pick(keys) % |keys|];
    EntryFor(filtered, key).value
  }

  /** The front as written: endpoints of parentPath/containing, the
      subtree, the filter, the sort, and the service of the entry begin()
      points at. When no subtree entry is an endpoint the map is empty and
      begin() is dereferenced anyway. */
  function GatherAsWritten(b: Backend, less: (string, string) -> bool, parentPath: Path, subtree: Reply<Listing>)
    : (r: Gathered)
    ensures var eps := b.endpoints(parentPath + "/containing");
            && (eps.Fail? ==> (r == IoError <==> eps.code == EIO))
            && (eps.Fail? && eps.code != EIO ==> r == Failure(InternalError))
            && (eps.Answer? && subtree.Fail? ==> (r == IoError <==> subtree.code == EIO))
            && (eps.Answer? && subtree.Fail? && subtree.code != EIO ==> r == Failure(InternalError))
    ensures r.Failure? ==> r.error == InternalError || r.error == UndefinedBehaviour
    ensures r.Failure? && r.error == UndefinedBehaviour <==>
              b.endpoints(parentPath + "/containing").Answer? && subtree.Answer?
              && |Filter(subtree.value, b.endpoints(parentPath + "/containing").value)| == 0
    ensures var eps := b.endpoints(parentPath + "/containing");
            eps.Answer? && subtree.Answer? && |Filter(subtree.value, eps.value)| > 0 ==>
              var e := Picked(b, Filter(subtree.value, eps.value));
              (r.Ready? <==> |e.1| > 0 && b.managed(e.1[0].0).Answer?)
    ensures r.Ready? ==> b.endpoints(parentPath + "/containing").Answer? && subtree.Answer?
                         && r.filtered == Filter(subtree.value, b.endpoints(parentPath + "/containing").value)
                         && |r.filtered| > 0
                         && |Picked(b, r.filtered).1| > 0
                         && b.managed(Picked(b, r.filtered).1[0].0) == Answer(r.dump)
    ensures r.Ready? ==> multiset(r.ids) == multiset(Ids(r.filtered))
    ensures r.Ready? ==> forall i :: 0 <= i < |r.ids| ==> '/' !in r.ids[i]
    ensures r.Ready? && StrictWeakOrder(less) ==> SortedBy(less, r.ids)
  {
    match b.endpoints(parentPath + "/containing")
    case Fail(code) => ReplyFailure(code)
    case Answer(eps) =>
      match subtree
      case Fail(code) => ReplyFailure(code)
      case Answer(listing) =>
        var filtered := Filter(listing, eps);
        if |filtered| == 0 then
          Failure(UndefinedBehaviour)
        else
          var entry := Picked(b, filtered);
          if |entry.1| == 0 then Failure(InternalError)
          else
            match b.managed(entry.1[0].0)
            case Fail(_) => Failure(InternalError)
            case Answer(dump) =>
              var ids := Sort(less, Ids(filtered));
              assert forall i :: 0 <= i < |ids| ==> '/' !in ids[i] by {
                forall i | 0 <= i < |ids| ensures '/' !in ids[i] {
                  assert ids[i] in multiset(Ids(filtered));
                }
              }
              Ready(filtered, ids, dump)
  }

  /** With every filtered entry served and its service's dump answered,
      the front is ready, whichever entry begin() lands on. */
  lemma GatherReady(b: Backend, less: (string, string) -> bool, parentPath: Path, subtree: Reply<Listing>)
    requires b.endpoints(parentPath + "/containing").Answer? && subtree.Answer?
    requires |Filter(subtree.value, b.endpoints(parentPath + "/containing").value)| > 0
    requires forall e :: e in Filter(subtree.value, b.endpoints(parentPath + "/containing").value) ==>
               |e.1| > 0 && b.managed(e.1[0].0).Answer?
    ensures GatherAsWritten(b, less, parentPath, subtree).Ready?
    ensures Gather(b, less, parentPath, subtree).Ready?
  {
  }

  /** The front as intended: with nothing to list, the collection is
      empty and no service is asked for its objects. */
  function Gather(b: Backend, less: (string, string) -> bool, parentPath: Path, subtree: Reply<Listing>)
    : (r: Gathered)
    ensures r.Failure? ==> r.error == InternalError
    ensures GatherAsWritten(b, less, parentPath, subtree) == Failure(UndefinedBehaviour) ==> r == Ready([], [], [])
    ensures GatherAsWritten(b, less, parentPath, subtree) != Failure(UndefinedBehaviour) ==>
              r == GatherAsWritten(b, less, parentPath, subtree)
    ensures r.Ready? ==> multiset(r.ids) == multiset(Ids(r.filtered))
    ensures r.Ready? ==> forall i :: 0 <= i < |r.ids| ==> '/' !in r.ids[i]
    ensures r.Ready? && StrictWeakOrder(less) ==> SortedBy(less, r.ids)
    ensures r.Ready? ==> b.endpoints(parentPath + "/containing").Answer? && subtree.Answer?
                         && r.filtered == Filter(subtree.value, b.endpoints(parentPath + "/containing").value)
  {
    var f := GatherAsWritten(b, less, parentPath, subtree);
    if f == Failure(UndefinedBehaviour) then Ready([], [], []) else f
  }

  /** The as-written handler reaches the unchecked begin() exactly when the
      association lists only objects of other kinds: a core whose
      "containing" endpoints are not threads. */
  lemma BeginOnEmptyMapIsUndefined(b: Backend, less: (string, string) -> bool, corePath: Path)
    requires b.endpoints(corePath + "/containing") == Answer([corePath + "/dimm0"])
    requires b.threads == Answer([(corePath + "/thread0", [("xyz.openbmc_project.Inventory.Manager", [Processor.CPU_THREAD_INTERFACE])])])
    ensures GatherAsWritten(b, less, corePath, b.threads) == Failure(UndefinedBehaviour)
    ensures Gather(b, less, corePath, b.threads) == Ready([], [], [])
  {
    var thread := (corePath + "/thread0", [("xyz.openbmc_project.Inventory.Manager", [Processor.CPU_THREAD_INTERFACE])]);
    assert (corePath + "/thread0")[|corePath|..] == "/thread0";
    assert (corePath + "/dimm0")[|corePath|..] == "/dimm0";
    assert corePath + "/thread0" != corePath + "/dimm0";
    FilterMembership([thread], [corePath + "/dimm0"], thread);
    var filtered := Filter([thread], [corePath + "/dimm0"]);
    assert |filtered| == 0 by {
      if |filtered| > 0 {
        FilterMembership([thread], [corePath + "/dimm0"], filtered[0]);
      }
    }
  }

  // ---------------------------------------------------------------------
  // Threads

  function ThreadUrl(processorId: string, coreId: string, threadId: string): string {
    Paths.UrlFromPieces(["redfish", "v1", "Systems", "system", "Processors", processorId,
                         "SubProcessors", coreId, "SubProcessors", threadId])
  }

  /** The fields a sub-processor entry's interfaces give, read from the
      dump at the entry's path. */
  function EntryFields(dump: ManagedObjects, entry: (Path, ServiceMap), iface: string)
    : Result<Processor.SubProcessorFields, Error>
  {
    Processor.ReadSubProcessorFields(Processor.INITIAL_FIELDS, iface, InterfacesOf(dump, entry.0))
  }

  /** The id names an entry of the filtered map, and that entry has a
      service. */
  predicate Served(filtered: Listing, id: string) {
    EntryFor(filtered, id).Some? && |EntryFor(filtered, id).value.1| > 0
  }

  /** One member of a thread collection: a link at level 0, otherwise the
      thread read from the dump. An id whose entry has no service is an
      internal error. */
  function ThreadMember(level: nat, processorId: string, coreId: string, filtered: Listing,
                        dump: ManagedObjects, id: string): (r: Result<Node, Error>)
    requires '/' !in id
    ensures r.Ok? ==> NodeId(r.value) == id && r.value.odataId == ThreadUrl(processorId, coreId, id)
    ensures r.Ok? ==> Expands(r.value, ThreadKind, level)
    ensures level == 0 ==> r.Ok? && r.value.Link?
    ensures level > 0 ==>
              (r.Ok? <==> Served(filtered, id)
                          && EntryFields(dump, EntryFor(filtered, id).value, Processor.CPU_THREAD_INTERFACE).Ok?)
    ensures level > 0 && r.Ok? ==>
              EntryFields(dump, EntryFor(filtered, id).value, Processor.CPU_THREAD_INTERFACE) == Ok(r.value.fields)
    ensures r.Err? ==> r.error == InternalError
  {
    var url := ThreadUrl(processorId, coreId, id);
    if level == 0 then
      Paths.FilenameOfUrl(["redfish", "v1", "Systems", "system", "Processors", processorId,
                           "SubProcessors", coreId, "SubProcessors", id]);
      Ok(Link(url))
    else
      match EntryFor(filtered, id)
      case None => Err(InternalError)
      case Some(entry) =>
        if |entry.1| == 0 then Err(InternalError)
        else
          match EntryFields(dump, entry, Processor.CPU_THREAD_INTERFACE)
          case Err(_) => Err(InternalError)
          case Ok(f) => Ok(Thread(url, id, f, Processor.SubProcessorStatus(f)))
  }

  predicate SlashFree(ids: seq<string>) {
    forall i :: 0 <= i < |ids| ==> '/' !in ids[i]
  }

  /** The members of a thread collection: one per id, in order, each the
      thread member of that id; the first failing member fails them all. */
  function ThreadMembers(level: nat, processorId: string, coreId: string, filtered: Listing,
                         dump: ManagedObjects, ids: seq<string>): (r: Result<seq<Node>, Error>)
    requires SlashFree(ids)
    ensures r.Ok? <==> forall i :: 0 <= i < |ids| ==> ThreadMember(level, processorId, coreId, filtered, dump, ids[i]).Ok?
    ensures r.Ok? ==> |r.value| == |ids|
                      && forall i :: 0 <= i < |ids| ==> ThreadMember(level, processorId, coreId, filtered, dump, ids[i]) == Ok(r.value[i])
    ensures r.Ok? ==> MemberIds(r.value) == ids
    ensures r.Ok? ==> MembersExpand(r.value, ThreadKind, level)
    ensures r.Err? ==> r.error == InternalError
  {
    EachMember(id requires '/' !in id => ThreadMember(level, processorId, coreId, filtered, dump, id), ids, ThreadKind, level)
  }

  /** getSubProcessorThreadCollectionWithExpand for the core at corePath. */
  function ThreadCollection(b: Backend, less: (string, string) -> bool, level: nat,
                            processorId: string, coreId: string, corePath: Path): (r: Result<Collection, Error>)
    ensures r.Ok? ==> r.value.count == |r.value.members|
    ensures r.Ok? ==> MembersExpand(r.value.members, ThreadKind, level)
    ensures r.Err? ==> r.error == InternalError
    ensures Gather(b, less, corePath, b.threads).IoError? ==> r == Ok(Collection([], 0))
    ensures Gather(b, less, corePath, b.threads).Failure? ==> r == Err(InternalError)
    ensures var g := Gather(b, less, corePath, b.threads);
            g.Ready? ==>
              && (r.Ok? <==> ThreadMembers(level, processorId, coreId, g.filtered, g.dump, g.ids).Ok?)
              && (r.Ok? ==> r.value.members == ThreadMembers(level, processorId, coreId, g.filtered, g.dump, g.ids).value)
              && (r.Ok? ==> MemberIds(r.value.members) == g.ids)
  {
    match Gather(b, less, corePath, b.threads)
    case IoError => Ok(Collection([], 0))
    case Failure(e) => Err(e)
    case Ready(filtered, ids, dump) =>
      var members :- ThreadMembers(level, processorId, coreId, filtered, dump, ids);
      Ok(Collection(members, |ids|))
  }

  // ---------------------------------------------------------------------
  // Cores

  function CoreUrl(processorId: string, coreId: string): string {
    Paths.UrlFromPieces(["redfish", "v1", "Systems", "system", "Processors", processorId,
                         "SubProcessors", coreId])
  }

  /** getCpuCoreDataByService: the core's own fields, and its threads one
      level further down when the level allows. */
  function CoreNode(b: Backend, less: (string, string) -> bool, level: nat, processorId: string,
                    coreId: string, corePath: Path, ifaces: InterfaceMap): (r: Result<Node, Error>)
    requires level > 0
    ensures r.Ok? <==>
              Processor.ReadSubProcessorFields(Processor.INITIAL_FIELDS, Processor.CPU_CORE_INTERFACE, ifaces).Ok?
              && (level == 1 || ThreadCollection(b, less, level - 2, processorId, coreId, corePath).Ok?)
    ensures r.Err? ==> r.error == InternalError
    ensures r.Ok? ==> r.value.Core? && r.value.id == coreId && r.value.odataId == CoreUrl(processorId, coreId)
    ensures r.Ok? ==> Expands(r.value, CoreKind, level)
    ensures r.Ok? ==> (r.value.sub.Expanded? <==> level > 1)
    ensures r.Ok? ==>
              Processor.ReadSubProcessorFields(Processor.INITIAL_FIELDS, Processor.CPU_CORE_INTERFACE, ifaces)
                == Ok(r.value.fields)
    ensures level > 1 && r.Ok? ==>
              ThreadCollection(b, less, level - 2, processorId, coreId, corePath) == Ok(r.value.sub.collection)
  {
    var sub :-
      if level - 1 > 0 then
        var threads :- ThreadCollection(b, less, level - 2, processorId, coreId, corePath);
        Ok(Expanded(threads))
      else
        Ok(SubLink(CoreUrl(processorId, coreId) + "/SubProcessors"));
    var f :- Processor.ReadSubProcessorFields(Processor.INITIAL_FIELDS, Processor.CPU_CORE_INTERFACE, ifaces);
    Ok(Core(CoreUrl(processorId, coreId), coreId, f, Processor.SubProcessorStatus(f), sub))
  }

  /** One member of a core collection: a link at level 0, otherwise the
      core read from the dump. An id whose entry has no service is an
      internal error. */
  function CoreMember(b: Backend, less: (string, string) -> bool, level: nat, processorId: string,
                      filtered: Listing, dump: ManagedObjects, id: string): (r: Result<Node, Error>)
    requires '/' !in id
    ensures r.Ok? ==> NodeId(r.value) == id && r.value.odataId == CoreUrl(processorId, id)
    ensures r.Ok? ==> Expands(r.value, CoreKind, level)
    ensures r.Err? ==> r.error == InternalError
    ensures level == 0 ==> r.Ok? && r.value.Link?
    ensures level > 0 && !Served(filtered, id) ==> r == Err(InternalError)
    ensures level > 0 && Served(filtered, id) ==>
              r == CoreNode(b, less, level, processorId, id, EntryFor(filtered, id).value.0,
                            InterfacesOf(dump, EntryFor(filtered, id).value.0))
  {
    if level == 0 then
      Paths.FilenameOfUrl(["redfish", "v1", "Systems", "system", "Processors", processorId,
                           "SubProcessors", id]);
      Ok(Link(CoreUrl(processorId, id)))
    else
      match EntryFor(filtered, id)
      case None => Err(InternalError)
      case Some(entry) =>
        if |entry.1| == 0 then Err(InternalError)
        else CoreNode(b, less, level, processorId, id, entry.0, InterfacesOf(dump, entry.0))
  }

  /** The members of a core collection: one per id, in order, each the
      core member of that id; the first failing member fails them all. */
  function CoreMembers(b: Backend, less: (string, string) -> bool, level: nat, processorId: string,
                       filtered: Listing, dump: ManagedObjects, ids: seq<string>): (r: Result<seq<Node>, Error>)
    requires SlashFree(ids)
    ensures r.Ok? <==> forall i :: 0 <= i < |ids| ==> CoreMember(b, less, level, processorId, filtered, dump, ids[i]).Ok?
    ensures r.Ok? ==> |r.value| == |ids|
                      && forall i :: 0 <= i < |ids| ==> CoreMember(b, less, level, processorId, filtered, dump, ids[i]) == Ok(r.value[i])
    ensures r.Ok? ==> MemberIds(r.value) == ids
    ensures r.Ok? ==> MembersExpand(r.value, CoreKind, level)
    ensures r.Err? ==> r.error == InternalError
  {
    EachMember(id requires '/' !in id => CoreMember(b, less, level, processorId, filtered, dump, id), ids, CoreKind, level)
  }

  /** getSubProcessorCoreCollectionWithExpand for the processor at cpuPath. */
  function CoreCollection(b: Backend, less: (string, string) -> bool, level: nat,
                          processorId: string, cpuPath: Path): (r: Result<Collection, Error>)
    ensures r.Ok? ==> r.value.count == |r.value.members|
    ensures r.Ok? ==> MembersExpand(r.value.members, CoreKind, level)
    ensures r.Err? ==> r.error == InternalError
    ensures Gather(b, less, cpuPath, b.cores).IoError? ==> r == Ok(Collection([], 0))
    ensures Gather(b, less, cpuPath, b.cores).Failure? ==> r == Err(InternalError)
    ensures var g := Gather(b, less, cpuPath, b.cores);
            g.Ready? ==>
              && (r.Ok? <==> CoreMembers(b, less, level, processorId, g.filtered, g.dump, g.ids).Ok?)
              && (r.Ok? ==> r.value.members == CoreMembers(b, less, level, processorId, g.filtered, g.dump, g.ids).value)
              && (r.Ok? ==> MemberIds(r.value.members) == g.ids)
  {
    match Gather(b, less, cpuPath, b.cores)
    case IoError => Ok(Collection([], 0))
    case Failure(e) => Err(e)
    case Ready(filtered, ids, dump) =>
      var members :- CoreMembers(b, less, level, processorId, filtered, dump, ids);
      Ok(Collection(members, |ids|))
  }

  // ---------------------------------------------------------------------
  // Processors

  function ProcessorUrl(processorId: string): string {
    Paths.UrlFromPieces(["redfish", "v1", "Systems", "system", "Processors", processorId])
  }

  /** getProcessorData's SubProcessors part: the cores one level further
      down when the level allows, a link otherwise. */
  function CpuNode(b: Backend, less: (string, string) -> bool, level: nat, processorId: string,
                   cpuPath: Path): (r: Result<Node, Error>)
    ensures r.Ok? ==> r.value.Cpu? && r.value.id == processorId && Expands(r.value, CpuKind, level + 1)
    ensures r.Ok? ==> (r.value.sub.Expanded? <==> level > 0)
    ensures level > 0 ==> (r.Ok? <==> CoreCollection(b, less, level - 1, processorId, cpuPath).Ok?)
    ensures level > 0 && r.Ok? ==> CoreCollection(b, less, level - 1, processorId, cpuPath) == Ok(r.value.sub.collection)
    ensures level == 0 ==> r.Ok?
    ensures r.Err? ==> r.error == InternalError
  {
    var sub :-
      if level > 0 then
        var cores :- CoreCollection(b, less, level - 1, processorId, cpuPath);
        Ok(Expanded(cores))
      else
        Ok(SubLink(ProcessorUrl(processorId) + "/SubProcessors"));
    Ok(Cpu(ProcessorUrl(processorId), processorId, sub))
  }

  /** The D-Bus path the processor map holds for an id (the first listed
      object with that filename). */
  function ProcessorPath(listing: Listing, id: string): Path {
    match EntryFor(listing, id) case Some(e) => e.0 case None => ""
  }

  /** The members of the processor collection: one per id, in order, each
      the processor with its cores one level down. */
  function ProcessorMembers(b: Backend, less: (string, string) -> bool, level: nat,
                            listing: Listing, ids: seq<string>): (r: Result<seq<Node>, Error>)
    requires level > 0
    ensures r.Ok? <==> forall i :: 0 <= i < |ids| ==> CpuNode(b, less, level - 1, ids[i], ProcessorPath(listing, ids[i])).Ok?
    ensures r.Ok? ==> |r.value| == |ids|
                      && forall i :: 0 <= i < |ids| ==> CpuNode(b, less, level - 1, ids[i], ProcessorPath(listing, ids[i])) == Ok(r.value[i])
    ensures r.Ok? ==> MemberIds(r.value) == ids
    ensures r.Ok? ==> MembersExpand(r.value, CpuKind, level)
    ensures r.Err? ==> r.error == InternalError
    ensures level == 1 ==> r.Ok?
  {
    EachMember(id => CpuNode(b, less, level - 1, id, ProcessorPath(listing, id)), ids, CpuKind, level)
  }

  /** getProcessorCollectionWithExpand: every processor object of the
      subtree, sorted by id; io_error gives an empty collection. The route
      only delegates a level of at least 1, and the level is a uint8. */
  function ProcessorCollection(b: Backend, less: (string, string) -> bool, level: nat)
    : (r: Result<Collection, Error>)
    requires 0 < level < 256
    ensures b.processors == Fail(EIO) ==> r == Ok(Collection([], 0))
    ensures b.processors.Fail? && b.processors.code != EIO ==> r == Err(InternalError)
    ensures r.Err? ==> r.error == InternalError
    ensures b.processors.Answer? ==>
              var ids := Sort(less, Ids(b.processors.value));
              && (r.Ok? <==> ProcessorMembers(b, less, level, b.processors.value, ids).Ok?)
              && (r.Ok? ==> r.value.members == ProcessorMembers(b, less, level, b.processors.value, ids).value)
    ensures r.Ok? ==> r.value.count == |r.value.members|
    ensures r.Ok? ==> MembersExpand(r.value.members, CpuKind, level)
    ensures r.Ok? && b.processors.Answer? ==> multiset(MemberIds(r.value.members)) == multiset(Ids(b.processors.value))
    ensures r.Ok? && b.processors.Answer? && StrictWeakOrder(less) ==> SortedBy(less, MemberIds(r.value.members))
    ensures level == 1 && b.processors.Answer? ==> r.Ok?
  {
    match b.processors
    case Fail(code) => if code == EIO then Ok(Collection([], 0)) else Err(InternalError)
    case Answer(listing) =>
      var ids := Sort(less, Ids(listing));
      var members :- ProcessorMembers(b, less, level, listing, ids);
      Ok(Collection(members, |members|))
  }

  /** Above level 1 every processor member carries its core collection,
      fetched one level down for that processor's object, and every core
      of it its thread collection two levels further down. */
  lemma ProcessorCollectionComposes(b: Backend, less: (string, string) -> bool, level: nat, k: nat)
    requires 1 < level < 256
    requires b.processors.Answer? && ProcessorCollection(b, less, level).Ok?
    requires k < |ProcessorCollection(b, less, level).value.members|
    ensures var n := ProcessorCollection(b, less, level).value.members[k];
            && n.Cpu? && n.sub.Expanded?
            && CoreCollection(b, less, level - 2, n.id, ProcessorPath(b.processors.value, n.id)) == Ok(n.sub.collection)
  {
    var listing := b.processors.value;
    var ids := Sort(less, Ids(listing));
    var members := ProcessorMembers(b, less, level, listing, ids).value;
    assert CpuNode(b, less, level - 1, ids[k], ProcessorPath(listing, ids[k])) == Ok(members[k]);
  }

  // ---------------------------------------------------------------------
  // Duplicate ids

  /** Two positions holding the same value make its multiplicity at least
      two. */
  lemma {:induction false} TwoOccurrences(s: seq<string>, i: nat, j: nat)
    requires i < j < |s| && s[i] == s[j]
    ensures multiset(s)[s[i]] >= 2
  {
    assert s == s[..i] + [s[i]] + s[i + 1..j] + [s[j]] + s[j + 1..];
    assert multiset(s) == multiset(s[..i]) + multiset{s[i]} + multiset(s[i + 1..j]) + multiset{s[j]} + multiset(s[j + 1..]);
  }

  /** The id map keeps one entry per id, but the sort list keeps every id:
      two processor objects with the same filename give two members with
      that id. */
  lemma DuplicateProcessorIdsGiveDuplicateMembers(b: Backend, less: (string, string) -> bool, level: nat, i: nat, j: nat)
    requires 0 < level < 256
    requires b.processors.Answer?
    requires i < j < |b.processors.value|
    requires Paths.Filename(b.processors.value[i].0) == Paths.Filename(b.processors.value[j].0)
    requires ProcessorCollection(b, less, level).Ok?
    ensures multiset(MemberIds(ProcessorCollection(b, less, level).value.members))[Paths.Filename(b.processors.value[i].0)] >= 2
  {
    TwoOccurrences(Ids(b.processors.value), i, j);
  }

  /** The same for cores and threads: duplicates among the filtered
      entries' filenames survive into the sorted id list. */
  lemma DuplicateSubProcessorIdsSurvive(b: Backend, less: (string, string) -> bool, parentPath: Path,
                                        subtree: Reply<Listing>, i: nat, j: nat)
    requires Gather(b, less, parentPath, subtree).Ready?
    requires i < j < |Gather(b, less, parentPath, subtree).filtered|
    requires Paths.Filename(Gather(b, less, parentPath, subtree).filtered[i].0)
          == Paths.Filename(Gather(b, less, parentPath, subtree).filtered[j].0)
    ensures multiset(Gather(b, less, parentPath, subtree).ids)[Paths.Filename(Gather(b, less, parentPath, subtree).filtered[i].0)] >= 2
  {
    TwoOccurrences(Ids(Gather(b, less, parentPath, subtree).filtered), i, j);
  }
}

/** PATCH of a storage controller's AttachedVolumes: validating the
    requested volume URIs, computing which volumes to attach and detach
    (storagePatchAttachedVolumes), and issuing the D-Bus calls one by one
    (storageApplyAttachDetach). */
module StorageVolumes {
  import opened Wrappers
  import opened Dbus
  import opened Messages
  import opened Strings
  import opened Ordering
  import Paths

  // ---------------------------------------------------------------------
  // Volume URIs

  function VolumeUri(storageId: string, volumeId: string): string {
    Paths.UrlFromPieces(["redfish", "v1", "Systems", "system", "Storage", storageId, "Volumes", volumeId])
  }

  /** readUrlSegments against /redfish/v1/Systems/system/Storage/<s>/Volumes/<v>:
      the storage id and volume id of a URI of exactly that shape. */
  function ParseVolumeUri(u: string): (r: Option<(string, string)>)
    ensures r.Some? ==> u == VolumeUri(r.value.0, r.value.1) && '/' !in r.value.0 && '/' !in r.value.1
  {
    var segs := Paths.Segments(u);
    Paths.SegmentsNoSlash(u);
    if |segs| == 9 && segs[0] == "" && segs[1] == "redfish" && segs[2] == "v1" && segs[3] == "Systems"
       && segs[4] == "system" && segs[5] == "Storage" && segs[7] == "Volumes"
    then
      Paths.UrlOfSegments(u);
      assert segs[1..] == ["redfish", "v1", "Systems", "system", "Storage", segs[6], "Volumes", segs[8]];
      Some((segs[6], segs[8]))
    else None
  }

  /** Every volume URI the service hands out is accepted and gives back its
      ids. */
  lemma VolumeUriRoundTrip(storageId: string, volumeId: string)
    requires '/' !in storageId && '/' !in volumeId
    ensures ParseVolumeUri(VolumeUri(storageId, volumeId)) == Some((storageId, volumeId))
  {
    Paths.SegmentsOfUrl(["redfish", "v1", "Systems", "system", "Storage", storageId, "Volumes", volumeId]);
  }

  /** The URI names a volume of this storage. */
  predicate AcceptedVolumeUri(storageId: string, u: string) {
    ParseVolumeUri(u).Some? && ParseVolumeUri(u).value.0 == storageId
  }

  /** The first loop of storagePatchAttachedVolumes: (volume id, URI) per
      requested URI; the first URI that is not a volume of this storage is
      reported as an invalid URI. */
  function ParseVolumeIds(storageId: string, uris: seq<string>): (r: Result<seq<(string, string)>, Error>)
    ensures r.Ok? <==> forall i :: 0 <= i < |uris| ==> AcceptedVolumeUri(storageId, uris[i])
    ensures r.Ok? ==> |r.value| == |uris|
    ensures r.Ok? ==> forall i :: 0 <= i < |uris| ==>
              r.value[i].1 == uris[i] && uris[i] == VolumeUri(storageId, r.value[i].0) && '/' !in r.value[i].0
    ensures r.Err? ==> exists i :: 0 <= i < |uris| && r.error == InvalidUri(uris[i])
                                   && !AcceptedVolumeUri(storageId, uris[i])
                                   && forall k :: 0 <= k < i ==> AcceptedVolumeUri(storageId, uris[k])
    decreases |uris|
  {
    if |uris| == 0 then Ok([])
    else
      match VolumeIdOf(storageId, uris[0])
      case Err(e) => Err(e)
      case Ok(id) =>
        var rest := ParseVolumeIds(storageId, uris[1..]);
        assert forall i :: 1 <= i < |uris| ==> uris[i] == uris[1..][i - 1];
        match rest
        case Err(e) =>
          assert exists i :: 1 <= i < |uris| && e == InvalidUri(uris[i]) && !AcceptedVolumeUri(storageId, uris[i])
                             && forall k :: 1 <= k < i ==> AcceptedVolumeUri(storageId, uris[k]);
          Err(e)
        case Ok(ids) => Ok([(id, uris[0])] + ids)
  }

  /** One URI of the loop: its volume id, or InvalidURI. */
  function VolumeIdOf(storageId: string, u: string): (r: Result<string, Error>)
    ensures r.Ok? <==> AcceptedVolumeUri(storageId, u)
    ensures r.Ok? ==> u == VolumeUri(storageId, r.value) && '/' !in r.value
    ensures r.Err? ==> r.error == InvalidUri(u)
  {
    if AcceptedVolumeUri(storageId, u) then Ok(ParseVolumeUri(u).value.1) else Err(InvalidUri(u))
  }

  // ---------------------------------------------------------------------
  // Ordering of (path, URI) pairs: std::pair's operator<

  predicate PairLess(p: (string, string), q: (string, string)) {
    StrLess(p.0, q.0) || (p.0 == q.0 && StrLess(p.1, q.1))
  }

  function PairOrder(): ((string, string), (string, string)) -> bool {
    (p: (string, string), q: (string, string)) => PairLess(p, q)
  }

  lemma PairOrderIsStrictWeakOrder()
    ensures StrictWeakOrder(PairOrder())
  {
    var less := PairOrder();
    forall x: (string, string)
      ensures !less(x, x)
    {
      StrLessIrreflexive(x.0);
      StrLessIrreflexive(x.1);
    }
    forall x: (string, string), y: (string, string), z: (string, string) | less(x, y) && less(y, z)
      ensures less(x, z)
    {
      if StrLess(x.0, y.0) && StrLess(y.0, z.0) {
        StrLessTransitive(x.0, y.0, z.0);
      } else if StrLess(x.1, y.1) && StrLess(y.1, z.1) {
        StrLessTransitive(x.1, y.1, z.1);
      }
    }
    forall x: (string, string), y: (string, string), z: (string, string) | !less(x, y) && !less(y, z)
      ensures !less(x, z)
    {
      PairNotLessTransitive(x, y, z);
    }
  }

  lemma PairNotLessTransitive(x: (string, string), y: (string, string), z: (string, string))
    requires !PairLess(x, y) && !PairLess(y, z)
    ensures !PairLess(x, z)
  {
    if x.0 != y.0 {
      StrLessConnected(x.0, y.0);
    }
    if y.0 != z.0 {
      StrLessConnected(y.0, z.0);
    }
    if x.1 != y.1 {
      StrLessConnected(x.1, y.1);
    }
    if y.1 != z.1 {
      StrLessConnected(y.1, z.1);
    }
    if PairLess(x, z) {
      if StrLess(x.0, z.0) {
        if StrLess(y.0, x.0) {
          StrLessTransitive(y.0, x.0, z.0);
        }
        if StrLess(z.0, y.0) {
          StrLessTransitive(z.0, y.0, x.0);
        }
        StrLessIrreflexive(x.0);
      } else {
        if StrLess(y.1, x.1) {
          StrLessTransitive(y.1, x.1, z.1);
        }
        if StrLess(z.1, y.1) {
          StrLessTransitive(z.1, y.1, x.1);
        }
        StrLessIrreflexive(x.1);
        StrLessIrreflexive(x.0);
      }
    }
  }

  // ---------------------------------------------------------------------
  // set_difference

  /** Sorted by std::string's operator<, duplicates allowed: the
      precondition std::set_difference places on both ranges. */
  predicate Ascending(s: seq<string>) {
    forall i, j :: 0 <= i < j < |s| ==> !StrLess(s[j], s[i])
  }

  lemma AscendingTail(s: seq<string>)
    requires Ascending(s) && |s| > 0
    ensures Ascending(s[1..])
    ensures forall x :: x in multiset(s[1..]) ==> !StrLess(x, s[0])
  {
    forall x | x in multiset(s[1..])
      ensures !StrLess(x, s[0])
    {
      assert x in s[1..];
    }
  }

  /** A value below the head of an ascending sequence does not occur in it. */
  lemma BelowHeadAbsent(x: string, s: seq<string>)
    requires Ascending(s) && |s| > 0 && StrLess(x, s[0])
    ensures multiset(s)[x] == 0
  {
    if x in s {
      var j :| 0 <= j < |s| && s[j] == x;
      if j == 0 {
        StrLessIrreflexive(x);
      }
    }
  }

  /** std::set_difference: the elements of a not matched by an element of
      b, merging the two ascending ranges. */
  function SetDifference(a: seq<string>, b: seq<string>): (r: seq<string>)
    requires Ascending(a) && Ascending(b)
    ensures multiset(r) == multiset(a) - multiset(b)
    ensures Ascending(r)
    decreases |a| + |b|
  {
    if |a| == 0 then []
    else if |b| == 0 then a
    else
      AscendingTail(a);
      AscendingTail(b);
      if StrLess(a[0], b[0]) then
        var rest := SetDifference(a[1..], b);
        DifferenceKeepsHead(a, b, rest);
        [a[0]] + rest
      else if StrLess(b[0], a[0]) then
        DifferenceSkipsHead(a, b);
        SetDifference(a, b[1..])
      else
        NeitherLessIsEqual(a[0], b[0]);
        DifferenceDropsBothHeads(a, b);
        SetDifference(a[1..], b[1..])
  }

  /** A value no greater than any element of an ascending sequence can be
      put in front of it. */
  lemma ConsAscending(x: string, rest: seq<string>)
    requires Ascending(rest)
    requires forall y :: y in multiset(rest) ==> !StrLess(y, x)
    ensures Ascending([x] + rest)
  {
    var r := [x] + rest;
    forall i, j | 0 <= i < j < |r|
      ensures !StrLess(r[j], r[i])
    {
      assert r[j] == rest[j - 1];
      if i == 0 {
        assert rest[j - 1] in multiset(rest);
      } else {
        assert r[i] == rest[i - 1];
      }
    }
  }

  /** Subtracting a multiset without x commutes with adding x. */
  lemma AddAbsent(x: string, m: multiset<string>, n: multiset<string>)
    requires n[x] == 0
    ensures (multiset{x} + m) - n == multiset{x} + (m - n)
  {
    forall y
      ensures ((multiset{x} + m) - n)[y] == (multiset{x} + (m - n))[y]
    {
    }
  }

  /** a's head is below b's: it is in the difference, and before the rest. */
  lemma DifferenceKeepsHead(a: seq<string>, b: seq<string>, rest: seq<string>)
    requires Ascending(a) && Ascending(b) && |a| > 0 && |b| > 0 && StrLess(a[0], b[0])
    requires multiset(rest) == multiset(a[1..]) - multiset(b) && Ascending(rest)
    ensures multiset([a[0]] + rest) == multiset(a) - multiset(b)
    ensures Ascending([a[0]] + rest)
  {
    AscendingTail(a);
    BelowHeadAbsent(a[0], b);
    assert a == [a[0]] + a[1..];
    AddAbsent(a[0], multiset(a[1..]), multiset(b));
    forall x | x in multiset(rest)
      ensures !StrLess(x, a[0])
    {
      assert x in multiset(a[1..]);
    }
    ConsAscending(a[0], rest);
  }

  /** b's head is below a's: it matches nothing in a. */
  lemma DifferenceSkipsHead(a: seq<string>, b: seq<string>)
    requires Ascending(a) && |a| > 0 && |b| > 0 && StrLess(b[0], a[0])
    ensures multiset(a) - multiset(b[1..]) == multiset(a) - multiset(b)
  {
    BelowHeadAbsent(b[0], a);
    assert b == [b[0]] + b[1..];
    assert multiset(b) == multiset{b[0]} + multiset(b[1..]);
  }

  /** Equal heads match each other. */
  lemma DifferenceDropsBothHeads(a: seq<string>, b: seq<string>)
    requires |a| > 0 && |b| > 0 && a[0] == b[0]
    ensures multiset(a[1..]) - multiset(b[1..]) == multiset(a) - multiset(b)
  {
    assert a == [a[0]] + a[1..];
    assert b == [b[0]] + b[1..];
    assert multiset(a) == multiset{a[0]} + multiset(a[1..]);
    assert multiset(b) == multiset{a[0]} + multiset(b[1..]);
  }

  /** Attaching what is requested but not there and detaching what is there
      but not requested leaves exactly the requested volumes, and no volume
      is both attached and detached. */
  lemma Reconcile(existing: multiset<Path>, requested: multiset<Path>)
    ensures (existing - (existing - requested)) + (requested - existing) == requested
    ensures (requested - existing) * (existing - requested) == multiset{}
  {
    var left := (existing - (existing - requested)) + (requested - existing);
    forall x
      ensures left[x] == requested[x]
    {
    }
    assert left == requested;
    var both := (requested - existing) * (existing - requested);
    forall x
      ensures both[x] == 0
    {
    }
    assert both == multiset{};
  }

  // ---------------------------------------------------------------------
  // The plan

  function VolumePath(storagePath: Path, volumeId: string): Path {
    Paths.Join(Paths.Join(storagePath, "volumes"), volumeId)
  }

  function RequestedPaths(storagePath: Path, ids: seq<(string, string)>): (r: seq<(Path, string)>)
    ensures |r| == |ids|
    ensures forall i :: 0 <= i < |ids| ==> r[i] == (VolumePath(storagePath, ids[i].0), ids[i].1)
  {
    seq(|ids|, i requires 0 <= i < |ids| => (VolumePath(storagePath, ids[i].0), ids[i].1))
  }

  function Firsts(pairs: seq<(Path, string)>): (r: seq<Path>)
    ensures |r| == |pairs|
    ensures forall i :: 0 <= i < |pairs| ==> r[i] == pairs[i].0
  {
    seq(|pairs|, i requires 0 <= i < |pairs| => pairs[i].0)
  }

  lemma FirstsConcat(u: seq<(Path, string)>, v: seq<(Path, string)>)
    ensures Firsts(u + v) == Firsts(u) + Firsts(v)
  {
  }

  /** Removing the element at j removes it once from the multiset. */
  lemma RemoveAt<T>(s: seq<T>, j: nat)
    requires j < |s|
    ensures multiset(s) == multiset(s[..j] + s[j + 1..]) + multiset{s[j]}
  {
    assert s == s[..j] + [s[j]] + s[j + 1..];
  }

  /** Removing the entry at j removes its path once. */
  lemma FirstsRemove(b: seq<(Path, string)>, j: nat)
    requires j < |b|
    ensures multiset(b[..j] + b[j + 1..]) == multiset(b) - multiset{b[j]}
    ensures multiset(Firsts(b)) == multiset(Firsts(b[..j] + b[j + 1..])) + multiset{b[j].0}
  {
    RemoveAt(b, j);
    var f := Firsts(b);
    RemoveAt(f, j);
    assert Firsts(b[..j] + b[j + 1..]) == f[..j] + f[j + 1..];
  }

  /** Reordering the pairs reorders their paths the same way. */
  lemma {:induction false} FirstsMultiset(a: seq<(Path, string)>, b: seq<(Path, string)>)
    requires multiset(a) == multiset(b)
    ensures multiset(Firsts(a)) == multiset(Firsts(b))
    decreases |a|
  {
    if |a| == 0 {
      assert |multiset(b)| == 0;
    } else {
      var n := |a| - 1;
      var x := a[n];
      assert a == a[..n] + [x];
      assert multiset(a) == multiset(a[..n]) + multiset{x};
      assert x in multiset(b);
      var j :| 0 <= j < |b| && b[j] == x;
      FirstsRemove(b, j);
      var b' := b[..j] + b[j + 1..];
      assert multiset(a[..n]) == multiset(a) - multiset{x};
      assert multiset(b') == multiset(b) - multiset{x};
      assert multiset(a[..n]) == multiset(b');
      FirstsMultiset(a[..n], b');
      FirstsConcat(a[..n], [x]);
      assert Firsts([x]) == [x.0];
      assert Firsts(a) == Firsts(a[..n]) + [x.0];
      assert multiset(Firsts(a)) == multiset(Firsts(a[..n])) + multiset{x.0};
    }
  }

  /** Every requested path names a volume of the storage. */
  predicate VolumesExist(updates: seq<(Path, string)>, volPaths: seq<Path>) {
    forall i :: 0 <= i < |updates| ==> updates[i].0 in volPaths
  }

  /** Request i is the first whose path is not a volume of the storage. */
  predicate FirstMissing(updates: seq<(Path, string)>, volPaths: seq<Path>, i: int) {
    0 <= i < |updates| && updates[i].0 !in volPaths
    && forall k :: 0 <= k < i ==> updates[k].0 in volPaths
  }

  /** Past a request that names a volume, the first missing request of the
      rest is the first missing one of the whole list. */
  lemma FirstMissingShift(updates: seq<(Path, string)>, volPaths: seq<Path>, j: int)
    requires |updates| > 0 && updates[0].0 in volPaths
    requires FirstMissing(updates[1..], volPaths, j)
    ensures FirstMissing(updates, volPaths, j + 1) && updates[j + 1] == updates[1..][j]
  {
    forall k | 0 <= k < j + 1
      ensures updates[k].0 in volPaths
    {
      if k > 0 {
        assert updates[k] == updates[1..][k - 1];
      }
    }
  }

  /** The "early check": every requested path must be a volume of the
      storage; the first one that is not is reported by its URI. */
  function CheckVolumesExist(updates: seq<(Path, string)>, volPaths: seq<Path>): (r: Result<seq<Path>, Error>)
    ensures r.Ok? <==> VolumesExist(updates, volPaths)
    ensures r.Ok? ==> r.value == Firsts(updates)
    ensures r.Err? ==> exists i :: FirstMissing(updates, volPaths, i) && r.error == InvalidUri(updates[i].1)
    decreases |updates|
  {
    if |updates| == 0 then Ok([])
    else if updates[0].0 !in volPaths then
      assert FirstMissing(updates, volPaths, 0);
      Err(InvalidUri(updates[0].1))
    else
      match CheckVolumesExist(updates[1..], volPaths)
      case Err(e) =>
        assert exists i :: FirstMissing(updates, volPaths, i) && e == InvalidUri(updates[i].1) by {
          var j :| FirstMissing(updates[1..], volPaths, j) && e == InvalidUri(updates[1..][j].1);
          FirstMissingShift(updates, volPaths, j);
        }
        Err(e)
      case Ok(rest) =>
        VolumesExistCons(updates, volPaths);
        assert Firsts(updates) == [updates[0].0] + Firsts(updates[1..]);
        Ok([updates[0].0] + rest)
  }

  /** A list whose head names a volume has all its paths named exactly
      when its tail does. */
  lemma VolumesExistCons(updates: seq<(Path, string)>, volPaths: seq<Path>)
    requires |updates| > 0 && updates[0].0 in volPaths
    ensures VolumesExist(updates, volPaths) <==> VolumesExist(updates[1..], volPaths)
  {
    if VolumesExist(updates[1..], volPaths) {
      forall i | 0 <= i < |updates|
        ensures updates[i].0 in volPaths
      {
        if i > 0 {
          assert updates[i] == updates[1..][i - 1];
        }
      }
    }
  }

  /** Two arrangements of the same requests name the same volumes. */
  lemma PermutedRequests(a: seq<(Path, string)>, b: seq<(Path, string)>, volPaths: seq<Path>)
    requires multiset(a) == multiset(b)
    ensures VolumesExist(a, volPaths) <==> VolumesExist(b, volPaths)
    ensures forall i :: 0 <= i < |a| ==> a[i] in b
  {
    forall i | 0 <= i < |a|
      ensures a[i] in b
    {
      assert a[i] in multiset(a);
    }
    forall i | 0 <= i < |b|
      ensures b[i] in a
    {
      assert b[i] in multiset(b);
    }
  }

  /** What storagePatchAttachedVolumes computes before applying it: the
      requested paths (sorted), the attached ones (sorted), and the two
      differences. */
  datatype Plan = Plan(requested: seq<Path>, existing: seq<Path>, attaches: seq<Path>, detaches: seq<Path>)

  /** The plan once the storage's volumes are known: the requests sorted
      and checked, then the attached volumes sorted and the differences
      taken. */
  function PlanRequests(unsorted: seq<(Path, string)>, vols: seq<Path>, attached: Reply<seq<Path>>)
    : (r: Result<Plan, Error>)
    ensures VolumesExist(unsorted, vols) && attached.Fail? ==> r == Err(InternalError)
    ensures VolumesExist(unsorted, vols) && attached.Answer? ==> r.Ok?
    ensures !VolumesExist(unsorted, vols) ==>
              exists i :: 0 <= i < |unsorted| && unsorted[i].0 !in vols && r == Err(InvalidUri(unsorted[i].1))
    ensures !VolumesExist(unsorted, vols) ==>
              exists k :: FirstMissing(Sort(PairOrder(), unsorted), vols, k)
                          && r == Err(InvalidUri(Sort(PairOrder(), unsorted)[k].1))
    ensures r.Ok? ==> attached.Answer?
    ensures r.Ok? ==> |r.value.requested| == |unsorted| && forall p :: p in r.value.requested ==> p in vols
    ensures r.Ok? ==> multiset(r.value.requested) == multiset(Firsts(unsorted))
    ensures r.Ok? ==> multiset(r.value.existing) == multiset(attached.value)
    ensures r.Ok? ==> multiset(r.value.attaches) == multiset(r.value.requested) - multiset(attached.value)
    ensures r.Ok? ==> multiset(r.value.detaches) == multiset(attached.value) - multiset(r.value.requested)
  {
    var requested :- SortedRequests(unsorted, vols);
    Differences(requested, attached)
  }

  /** The requests sorted as (path, URI) pairs, then checked one by one
      against the storage's volumes; the result is their paths. */
  function SortedRequests(unsorted: seq<(Path, string)>, vols: seq<Path>): (r: Result<seq<Path>, Error>)
    ensures r.Ok? <==> VolumesExist(unsorted, vols)
    ensures r.Err? ==>
              exists i :: 0 <= i < |unsorted| && unsorted[i].0 !in vols && r.error == InvalidUri(unsorted[i].1)
    ensures r.Err? ==>
              exists k :: FirstMissing(Sort(PairOrder(), unsorted), vols, k)
                          && r.error == InvalidUri(Sort(PairOrder(), unsorted)[k].1)
    ensures r.Ok? ==> Ascending(r.value) && |r.value| == |unsorted| && forall p :: p in r.value ==> p in vols
    ensures r.Ok? ==> multiset(r.value) == multiset(Firsts(unsorted))
  {
    PairOrderIsStrictWeakOrder();
    var updates := Sort(PairOrder(), unsorted);
    PermutedRequests(updates, unsorted, vols);
    match CheckVolumesExist(updates, vols)
    case Err(e) =>
      var k :| 0 <= k < |updates| && updates[k].0 !in vols && e == InvalidUri(updates[k].1);
      var i :| 0 <= i < |unsorted| && unsorted[i] == updates[k];
      Err(e)
    case Ok(requested) =>
      FirstsMultiset(updates, unsorted);
      SortedPairsAscending(updates);
      Ok(requested)
  }

  /** Pairs sorted by std::pair's operator< have their paths ascending. */
  lemma SortedPairsAscending(updates: seq<(Path, string)>)
    requires SortedBy(PairOrder(), updates)
    ensures Ascending(Firsts(updates))
  {
    var paths := Firsts(updates);
    forall i, j | 0 <= i < j < |paths|
      ensures !StrLess(paths[j], paths[i])
    {
      assert !PairOrder()(updates[j], updates[i]);
    }
  }

  /** The last step of the plan: the attached volumes sorted, and the two
      set differences with the sorted requests. */
  function Differences(requested: seq<Path>, attached: Reply<seq<Path>>): (r: Result<Plan, Error>)
    requires Ascending(requested)
    ensures attached.Fail? ==> r == Err(InternalError)
    ensures attached.Answer? ==> r.Ok? && r.value.requested == requested
    ensures r.Ok? ==> multiset(r.value.existing) == multiset(attached.value)
    ensures r.Ok? ==> multiset(r.value.attaches) == multiset(requested) - multiset(attached.value)
    ensures r.Ok? ==> multiset(r.value.detaches) == multiset(attached.value) - multiset(requested)
  {
    match attached
    case Fail(_) => Err(InternalError)
    case Answer(ex) =>
      StringLessIsStrictTotalOrder();
      var existing := Sort(StringLess(), ex);
      assert Ascending(existing) by {
        assert SortedBy(StringLess(), existing);
        forall i, j | 0 <= i < j < |existing|
          ensures !StrLess(existing[j], existing[i])
        {
          assert !StringLess()(existing[j], existing[i]);
        }
      }
      Ok(Plan(requested, existing, SetDifference(requested, existing), SetDifference(existing, requested)))
  }

  /** storagePatchAttachedVolumes up to the apply step: parse the URIs, read
      the storage's volumes, check every request against them, read the
      controller's attached volumes and plan the differences. */
  function PlanAttachDetach(storageId: string, controllerPath: Path, uris: seq<string>,
                            volPaths: Reply<seq<Path>>, attached: Reply<seq<Path>>): (r: Result<Plan, Error>)
    ensures ParseVolumeIds(storageId, uris).Err? ==> r == Err(ParseVolumeIds(storageId, uris).error)
    ensures ParseVolumeIds(storageId, uris).Ok? && volPaths.Fail? ==> r == Err(InternalError)
    ensures ParseVolumeIds(storageId, uris).Ok? && volPaths.Answer? ==>
              var wanted := RequestedPaths(Paths.ParentPath(Paths.ParentPath(controllerPath)),
                                           ParseVolumeIds(storageId, uris).value);
              if VolumesExist(wanted, volPaths.value) then
                (attached.Fail? ==> r == Err(InternalError)) && (attached.Answer? ==> r.Ok?)
              else
                && (exists i :: 0 <= i < |uris| && wanted[i].0 !in volPaths.value && r == Err(InvalidUri(uris[i])))
                && (exists k :: FirstMissing(Sort(PairOrder(), wanted), volPaths.value, k)
                                && r == Err(InvalidUri(Sort(PairOrder(), wanted)[k].1)))
    ensures r.Ok? ==> volPaths.Answer? && attached.Answer?
    ensures r.Ok? ==> |r.value.requested| == |uris|
                      && forall p :: p in r.value.requested ==> p in volPaths.value
    ensures r.Ok? ==> multiset(r.value.requested) ==
              multiset(Firsts(RequestedPaths(Paths.ParentPath(Paths.ParentPath(controllerPath)),
                                             ParseVolumeIds(storageId, uris).value)))
    ensures r.Ok? ==> multiset(r.value.existing) == multiset(attached.value)
    ensures r.Ok? ==> multiset(r.value.attaches) == multiset(r.value.requested) - multiset(attached.value)
    ensures r.Ok? ==> multiset(r.value.detaches) == multiset(attached.value) - multiset(r.value.requested)
  {
    var ids :- ParseVolumeIds(storageId, uris);
    var unsorted := RequestedPaths(Paths.ParentPath(Paths.ParentPath(controllerPath)), ids);
    match volPaths
    case Fail(_) => Err(InternalError)
    case Answer(vols) => PlanRequests(unsorted, vols, attached)
  }

  /** After the plan is applied in full, the controller has exactly the
      requested volumes attached. */
  lemma PlanReconciles(storageId: string, controllerPath: Path, uris: seq<string>,
                       volPaths: Reply<seq<Path>>, attached: Reply<seq<Path>>)
    requires PlanAttachDetach(storageId, controllerPath, uris, volPaths, attached).Ok?
    ensures var p := PlanAttachDetach(storageId, controllerPath, uris, volPaths, attached).value;
            (multiset(attached.value) - multiset(p.detaches)) + multiset(p.attaches) == multiset(p.requested)
    ensures var p := PlanAttachDetach(storageId, controllerPath, uris, volPaths, attached).value;
            multiset(p.attaches) * multiset(p.detaches) == multiset{}
  {
    var p := PlanAttachDetach(storageId, controllerPath, uris, volPaths, attached).value;
    Reconcile(multiset(attached.value), multiset(p.requested));
  }

  // ---------------------------------------------------------------------
  // Applying the plan (storageApplyAttachDetach)

  datatype VolumeOp = Detach(volume: Path) | Attach(volume: Path)

  /** How one AttachVolume/DetachVolume call ended: success, an error the
      NVMe daemon named, or a transport error code. */
  datatype CallOutcome = CallOk | NamedError(name: string) | CallFailed(code: int)

  /** storageAddDbusError: the Redfish message for a named D-Bus error. */
  function NamedErrorMessage(name: string): (e: Error)
    ensures e == CreateLimitReachedForResource <==> name == "xyz.openbmc_project.Common.Error.TooManyResources"
    ensures e == PropertyValueError("") <==> name == "xyz.openbmc_project.Common.Error.InvalidArgument"
    ensures e == OperationFailed <==>
              (name == "xyz.openbmc_project.Common.Error.DeviceOperationFailed"
               || name == "xyz.openbmc_project.Common.Error.UnsupportedRequest")
    ensures e == InternalError <==> name !in ["xyz.openbmc_project.Common.Error.TooManyResources",
                                             "xyz.openbmc_project.Common.Error.InvalidArgument",
                                             "xyz.openbmc_project.Common.Error.DeviceOperationFailed",
                                             "xyz.openbmc_project.Common.Error.UnsupportedRequest"]
  {
    if name == "xyz.openbmc_project.Common.Error.TooManyResources" then CreateLimitReachedForResource
    else if name == "xyz.openbmc_project.Common.Error.InvalidArgument" then PropertyValueError("")
    else if name == "xyz.openbmc_project.Common.Error.DeviceOperationFailed" then OperationFailed
    else if name == "xyz.openbmc_project.Common.Error.UnsupportedRequest" then OperationFailed
    else InternalError
  }

  /** The error a failed call leaves in the response: a named error takes
      precedence over the error code. */
  function OutcomeError(o: CallOutcome): Error
    requires o != CallOk
  {
    match o
    case NamedError(name) => NamedErrorMessage(name)
    case CallFailed(_) => InternalError
  }

  /** The order of the calls: every detach, taken from the back of its
      list, then every attach, also from the back. */
  function Schedule(attaches: seq<Path>, detaches: seq<Path>): (s: seq<VolumeOp>)
    ensures |s| == |detaches| + |attaches|
  {
    seq(|detaches|, i requires 0 <= i < |detaches| => Detach(detaches[|detaches| - 1 - i]))
    + seq(|attaches|, i requires 0 <= i < |attaches| => Attach(attaches[|attaches| - 1 - i]))
  }

  /** No attach is issued before a detach. */
  lemma DetachesFirst(attaches: seq<Path>, detaches: seq<Path>, i: nat, j: nat)
    requires i < j < |Schedule(attaches, detaches)|
    requires Schedule(attaches, detaches)[j].Detach?
    ensures Schedule(attaches, detaches)[i].Detach?
    ensures j < |detaches|
  {
  }

  /** The k-th call of the schedule. */
  lemma ScheduleAt(attaches: seq<Path>, detaches: seq<Path>, k: nat)
    requires k < |detaches| + |attaches|
    ensures Schedule(attaches, detaches)[k] ==
              if k < |detaches| then Detach(detaches[|detaches| - 1 - k])
              else Attach(attaches[|attaches| - 1 - (k - |detaches|)])
  {
  }

  /** The calls issued when the i-th one is the first to fail. */
  lemma StoppedCalls(ops: seq<VolumeOp>, outcome: (nat, VolumeOp) -> CallOutcome, i: nat)
    requires 0 < i <= |ops|
    requires forall k :: 0 <= k < i - 1 ==> outcome(k, ops[k]) == CallOk
    requires outcome(i - 1, ops[i - 1]) != CallOk
    ensures ops[..i] <= ops
    ensures forall k :: 0 <= k < i - 1 ==> outcome(k, ops[..i][k]) == CallOk
    ensures !(forall k :: 0 <= k < i ==> outcome(k, ops[..i][k]) == CallOk)
    ensures ops[..i][i - 1] == ops[i - 1]
  {
    assert ops[..i][i - 1] == ops[i - 1];
  }

  /** The pseudo-recursive apply loop. `outcome(k, op)` is how the k-th
      call ends. The calls follow Schedule; the first failure stops the
      loop and becomes the response's error. */
  method ApplyAttachDetach(attaches: seq<Path>, detaches: seq<Path>, outcome: (nat, VolumeOp) -> CallOutcome)
    returns (issued: seq<VolumeOp>, result: Result<(), Error>)
    ensures issued <= Schedule(attaches, detaches)
    ensures forall k :: 0 <= k < |issued| - 1 ==> outcome(k, issued[k]) == CallOk
    ensures result.Ok? <==> issued == Schedule(attaches, detaches)
                            && forall k :: 0 <= k < |issued| ==> outcome(k, issued[k]) == CallOk
    ensures result.Err? ==> |issued| > 0 && outcome(|issued| - 1, issued[|issued| - 1]) != CallOk
                            && result.error == OutcomeError(outcome(|issued| - 1, issued[|issued| - 1]))
  {
    // nd detaches and na attaches are still to be issued, each from the
    // back of its list; i calls have been issued
    var sched := Schedule(attaches, detaches);
    var nd, na, i := |detaches|, |attaches|, 0;
    while nd > 0 || na > 0
      invariant 0 <= nd <= |detaches| && 0 <= na <= |attaches|
      invariant nd > 0 ==> na == |attaches|
      invariant i == (|detaches| - nd) + (|attaches| - na)
      invariant forall k :: 0 <= k < i ==> outcome(k, sched[k]) == CallOk
      decreases nd + na
    {
      var op;
      if nd > 0 {
        op := Detach(detaches[nd - 1]);
        nd := nd - 1;
      } else {
        op := Attach(attaches[na - 1]);
        na := na - 1;
      }
      ScheduleAt(attaches, detaches, i);
      assert op == sched[i];
      var o := outcome(i, op);
      i := i + 1;
      if o != CallOk {
        StoppedCalls(sched, outcome, i);
        return sched[..i], Err(OutcomeError(o));
      }
    }
    return sched, Ok(());
  }
}

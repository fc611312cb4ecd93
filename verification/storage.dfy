/** Request validation and lookups of the Storage, StorageController and
    Drive resources: LBA format names, SecureErase parameters, the unique
    service and unique-name lookups, and the drive reset mapping. */
module Storage {
  import opened Wrappers
  import opened Dbus
  import opened Messages
  import opened Strings
  import Numbers
  import Paths

  // ---------------------------------------------------------------------
  // LBA format names

  const LBA_FORMAT_PREFIX := "LBAFormat"

  /** The LBAFormatType name the storage handlers emit for format index n. */
  function LbaFormatName(n: nat): (r: string)
    ensures StartsWith(r, LBA_FORMAT_PREFIX) && |r| > |LBA_FORMAT_PREFIX|
  {
    StartsWithConcat(LBA_FORMAT_PREFIX, Numbers.ToDecimal(n));
    LBA_FORMAT_PREFIX + Numbers.ToDecimal(n)
  }

  /** parseLbaFormatType: "LBAFormat" followed by a size_t in decimal that
      from_chars consumes completely. */
  function ParseLbaFormatType(ty: string): (r: Option<nat>)
    ensures r.Some? <==> StartsWith(ty, LBA_FORMAT_PREFIX)
                         && |ty| > |LBA_FORMAT_PREFIX|
                         && Numbers.AllDigits(ty[|LBA_FORMAT_PREFIX|..])
                         && Numbers.DecimalValue(ty[|LBA_FORMAT_PREFIX|..]) < Numbers.SIZE_T_LIMIT
    ensures r.Some? ==> r.value == Numbers.DecimalValue(ty[|LBA_FORMAT_PREFIX|..])
  {
    if !StartsWith(ty, LBA_FORMAT_PREFIX) then None
    else Numbers.FromChars(ty[|LBA_FORMAT_PREFIX|..])
  }

  /** Every emitted name parses back to its index. */
  lemma LbaFormatRoundTrip(n: nat)
    requires n < Numbers.SIZE_T_LIMIT
    ensures ParseLbaFormatType(LbaFormatName(n)) == Some(n)
  {
    assert LbaFormatName(n)[|LBA_FORMAT_PREFIX|..] == Numbers.ToDecimal(n);
    Numbers.DecimalRoundTrip(n);
  }

  /** A parsed name without leading zeros is the name emitted for its
      value; with leading zeros ("LBAFormat01") it parses but is not one. */
  lemma LbaFormatCanonical(ty: string)
    requires ParseLbaFormatType(ty).Some?
    requires |ty| > |LBA_FORMAT_PREFIX| + 1 ==> ty[|LBA_FORMAT_PREFIX|] != '0'
    ensures LbaFormatName(ParseLbaFormatType(ty).value) == ty
  {
    var digits := ty[|LBA_FORMAT_PREFIX|..];
    Numbers.CanonicalDecimal(digits);
    assert ty == LBA_FORMAT_PREFIX + digits;
  }

  lemma LbaFormatLeadingZeroAccepted()
    ensures ParseLbaFormatType("LBAFormat01") == Some(1)
    ensures LbaFormatName(1) != "LBAFormat01"
  {
    assert "LBAFormat01"[|LBA_FORMAT_PREFIX|..] == "01";
    assert Numbers.DecimalValue("01") == Numbers.DecimalValue("0") * 10 + 1;
    assert Numbers.ToDecimal(1) == "1";
  }

  // ---------------------------------------------------------------------
  // SecureErase parameters (EraseParams)

  datatype EraseAction = CryptoErase | BlockErase | Overwrite

  /** EraseParams::parse. `sanitizationType` is None when readJsonAction
      did not find a string SanitizationType in the body. */
  function ParseEraseParams(sanitizationType: Option<string>): (r: Result<EraseAction, Error>)
    ensures sanitizationType.None? ==> r == Err(MalformedRequest)
    ensures r == Ok(BlockErase) <==> sanitizationType == Some("BlockErase")
    ensures r == Ok(CryptoErase) <==> sanitizationType == Some("CryptographicErase")
    ensures r == Ok(Overwrite) <==> sanitizationType == Some("Overwrite")
    ensures sanitizationType.Some? && r.Err? ==>
              r.error == ActionParameterValueNotInList(sanitizationType.value, "SanitizationType", "Drive.SecureErase")
  {
    match sanitizationType
    case None => Err(MalformedRequest)
    case Some(s) =>
      if s == "BlockErase" then Ok(BlockErase)
      else if s == "CryptographicErase" then Ok(CryptoErase)
      else if s == "Overwrite" then Ok(Overwrite)
      else Err(ActionParameterValueNotInList(s, "SanitizationType", "Drive.SecureErase"))
  }

  /** EraseParams::actionName: the D-Bus EraseAction enumeration value. */
  function ActionName(a: EraseAction): (r: string)
    ensures StartsWith(r, "xyz.openbmc_project.Inventory.Item.DriveErase.EraseAction.")
  {
    match a
    case CryptoErase => "xyz.openbmc_project.Inventory.Item.DriveErase.EraseAction.CryptoErase"
    case BlockErase => "xyz.openbmc_project.Inventory.Item.DriveErase.EraseAction.BlockErase"
    case Overwrite => "xyz.openbmc_project.Inventory.Item.DriveErase.EraseAction.Overwrite"
  }

  /** Distinct actions are sent to D-Bus as distinct names. */
  lemma ActionNameInjective(a: EraseAction, b: EraseAction)
    requires ActionName(a) == ActionName(b)
    ensures a == b
  {
  }

  // ---------------------------------------------------------------------
  // Exactly-one service (matchServiceName)

  /** The number of (service, interface) pairs naming iface. */
  function PairCount(services: ServiceMap, iface: string): nat
    decreases |services|
  {
    if |services| == 0 then 0
    else PairCount(services[..|services| - 1], iface) + multiset(services[|services| - 1].1)[iface]
  }

  /** matchServiceName: the service when exactly one pair names the
      interface, none when zero or several do. */
  method MatchServiceName(services: ServiceMap, iface: string) returns (r: Option<string>)
    ensures r.Some? <==> PairCount(services, iface) == 1
    ensures r.Some? ==> exists i :: 0 <= i < |services| && services[i].0 == r.value && iface in services[i].1
  {
    var found := 0;
    var matched := "";
    var matchIndex := -1;
    var k := 0;
    while k < |services|
      invariant 0 <= k <= |services|
      invariant found == PairCount(services[..k], iface)
      invariant found > 0 ==> 0 <= matchIndex < k && services[matchIndex].0 == matched && iface in services[matchIndex].1
    {
      var interfaces := services[k].1;
      var m := 0;
      var inner := 0;
      while m < |interfaces|
        invariant 0 <= m <= |interfaces|
        invariant inner == multiset(interfaces[..m])[iface]
        invariant inner > 0 ==> iface in interfaces
      {
        assert interfaces[..m + 1] == interfaces[..m] + [interfaces[m]];
        if interfaces[m] == iface {
          inner := inner + 1;
        }
        m := m + 1;
      }
      assert interfaces[..m] == interfaces;
      if inner > 0 {
        matched := services[k].0;
        matchIndex := k;
      }
      found := found + inner;
      assert services[..k + 1][..k] == services[..k];
      k := k + 1;
    }
    assert services[..k] == services;
    r := if found == 1 then Some(matched) else None;
  }

  // ---------------------------------------------------------------------
  // Unique-name lookups (matchAndEraseDrive, findChassisDrive)

  datatype Lookup = NoMatch | Unique(index: nat) | Several

  /** The counting loop of the name lookups: how many candidates match,
      and the last one that did. */
  method CountMatches(matches: seq<bool>) returns (r: Lookup)
    ensures r == NoMatch <==> forall i :: 0 <= i < |matches| ==> !matches[i]
    ensures r.Unique? ==> r.index < |matches| && matches[r.index]
                          && forall i :: 0 <= i < |matches| && matches[i] ==> i == r.index
    ensures r == Several <==> exists i, j :: 0 <= i < j < |matches| && matches[i] && matches[j]
  {
    var found := 0;
    var last := 0;
    var k := 0;
    while k < |matches|
      invariant 0 <= k <= |matches|
      invariant found == 0 <==> forall i :: 0 <= i < k ==> !matches[i]
      invariant found > 0 ==> last < k && matches[last]
      invariant found == 1 ==> forall i :: 0 <= i < k && matches[i] ==> i == last
      invariant found > 1 <==> exists i, j :: 0 <= i < j < k && matches[i] && matches[j]
    {
      if matches[k] {
        if found > 0 {
          assert last < k && matches[last] && matches[k];
        }
        found := found + 1;
        last := k;
      }
      k := k + 1;
    }
    r := if found > 1 then Several else if found == 0 then NoMatch else Unique(last);
  }

  /** Position i is the only one of the paths whose filename is name. */
  predicate UniquelyNamed(paths: seq<Path>, name: string, i: int) {
    && 0 <= i < |paths| && Paths.Filename(paths[i]) == name
    && forall j :: 0 <= j < |paths| && Paths.Filename(paths[j]) == name ==> j == i
  }

  /** Entry i is the only entry of the listing named name that has a
      service. */
  predicate UniqueServedNamed(listing: Listing, name: string, i: int) {
    && 0 <= i < |listing| && Paths.Filename(listing[i].0) == name && |listing[i].1| > 0
    && forall j :: (0 <= j < |listing| && Paths.Filename(listing[j].0) == name && |listing[j].1| > 0) ==> j == i
  }

  /** matchAndEraseDrive: the drive path whose filename is the requested
      name, then its only service. Several matches or services are an
      internal error; none is resourceNotFound. */
  method EraseTarget(drivePaths: seq<Path>, driveName: string, services: Reply<ServiceMap>)
    returns (r: Result<(string, Path), Error>)
    ensures r == Err(ResourceNotFound("#Drive.v1_7_0.Drive", driveName)) <==>
              forall i :: 0 <= i < |drivePaths| ==> Paths.Filename(drivePaths[i]) != driveName
    ensures (exists i, j :: 0 <= i < j < |drivePaths| && Paths.Filename(drivePaths[i]) == driveName
                                                       && Paths.Filename(drivePaths[j]) == driveName) ==>
              r == Err(InternalError)
    ensures r.Ok? ==> exists i :: 0 <= i < |drivePaths| && drivePaths[i] == r.value.1
                                  && Paths.Filename(drivePaths[i]) == driveName
                                  && forall j :: 0 <= j < |drivePaths| && Paths.Filename(drivePaths[j]) == driveName ==> j == i
    ensures r.Ok? ==> services.Answer? && |services.value| == 1 && r.value.0 == services.value[0].0
    ensures services.Fail? || |services.value| != 1 ==> r.Err?
    ensures forall i :: UniquelyNamed(drivePaths, driveName, i) && services.Answer? && |services.value| == 1 ==>
              r == Ok((services.value[0].0, drivePaths[i]))
    ensures r.Err? ==> r.error == InternalError || r.error == ResourceNotFound("#Drive.v1_7_0.Drive", driveName)
  {
    var matches := seq(|drivePaths|, i requires 0 <= i < |drivePaths| => Paths.Filename(drivePaths[i]) == driveName);
    assert forall i :: 0 <= i < |drivePaths| ==> (matches[i] <==> Paths.Filename(drivePaths[i]) == driveName);
    var lookup := CountMatches(matches);
    match lookup {
      case Several =>
        r := Err(InternalError);
      case NoMatch =>
        r := Err(ResourceNotFound("#Drive.v1_7_0.Drive", driveName));
      case Unique(i) =>
        assert matches[i];
        if services.Fail? || |services.value| != 1 {
          r := Err(InternalError);
        } else {
          r := Ok((services.value[0].0, drivePaths[i]));
        }
    }
  }

  /** findChassisDrive: the chassis object whose filename is chassisId;
      objects with no service are skipped before counting. */
  method FindChassis(subtree: Reply<Listing>, chassisId: string) returns (r: Result<Path, Error>)
    ensures subtree.Fail? ==> r == Err(InternalError)
    ensures subtree.Answer? ==>
              (r == Err(ResourceNotFound("#Chassis.v1_14_0.Chassis", chassisId)) <==>
               forall i :: 0 <= i < |subtree.value| ==>
                 !(Paths.Filename(subtree.value[i].0) == chassisId && |subtree.value[i].1| > 0))
    ensures r.Ok? ==> subtree.Answer?
    ensures r.Ok? ==>
              exists i :: 0 <= i < |subtree.value| && subtree.value[i].0 == r.value
                && Paths.Filename(r.value) == chassisId && |subtree.value[i].1| > 0
                && forall j :: (0 <= j < |subtree.value| && Paths.Filename(subtree.value[j].0) == chassisId
                                && |subtree.value[j].1| > 0) ==> j == i
    ensures subtree.Answer? && r.Err? && r.error == InternalError ==>
              exists i, j :: 0 <= i < j < |subtree.value|
                && Paths.Filename(subtree.value[i].0) == chassisId && |subtree.value[i].1| > 0
                && Paths.Filename(subtree.value[j].0) == chassisId && |subtree.value[j].1| > 0
    ensures subtree.Answer? ==>
              forall i :: UniqueServedNamed(subtree.value, chassisId, i) ==> r == Ok(subtree.value[i].0)
    ensures subtree.Answer? &&
            (exists i, j :: 0 <= i < j < |subtree.value|
               && Paths.Filename(subtree.value[i].0) == chassisId && |subtree.value[i].1| > 0
               && Paths.Filename(subtree.value[j].0) == chassisId && |subtree.value[j].1| > 0) ==>
              r == Err(InternalError)
    ensures r.Err? ==> r.error == InternalError || r.error == ResourceNotFound("#Chassis.v1_14_0.Chassis", chassisId)
  {
    if subtree.Fail? {
      return Err(InternalError);
    }
    var listing := subtree.value;
    var matches := seq(|listing|, i requires 0 <= i < |listing| =>
                         Paths.Filename(listing[i].0) == chassisId && |listing[i].1| > 0);
    assert forall i :: 0 <= i < |listing| ==>
             (matches[i] <==> Paths.Filename(listing[i].0) == chassisId && |listing[i].1| > 0);
    var lookup := CountMatches(matches);
    match lookup {
      case Several => r := Err(InternalError);
      case NoMatch => r := Err(ResourceNotFound("#Chassis.v1_14_0.Chassis", chassisId));
      case Unique(i) =>
        assert matches[i];
        r := Ok(listing[i].0);
    }
  }

  // ---------------------------------------------------------------------
  // Drive reset (performDriveReset, setResetType)

  const POWERCYCLE := "xyz.openbmc_project.State.Drive.Transition.Powercycle"
  const REBOOT := "xyz.openbmc_project.State.Drive.Transition.Reboot"

  /** The ResetType values ResetActionInfo advertises. */
  const ADVERTISED_RESET_TYPES: seq<string> := ["PowerCycle", "ForceRestart"]

  /** performDriveReset's mapping as written: it recognises "ForceReset",
      which is not a value it advertises. */
  function ResetTransitionAsWritten(resetType: Option<string>): (r: Result<string, Error>)
    ensures r == Ok(POWERCYCLE) <==> resetType.None? || resetType == Some("PowerCycle")
    ensures r == Ok(REBOOT) <==> resetType == Some("ForceReset")
    ensures r.Err? ==> r.error == ActionParameterNotSupported(resetType.value, "ResetType")
  {
    if resetType.None? || resetType.value == "PowerCycle" then Ok(POWERCYCLE)
    else if resetType.value == "ForceReset" then Ok(REBOOT)
    else Err(ActionParameterNotSupported(resetType.value, "ResetType"))
  }

  /** A client that sends what ResetActionInfo offers is refused. */
  lemma AdvertisedForceRestartRejected()
    ensures "ForceRestart" in ADVERTISED_RESET_TYPES
    ensures ResetTransitionAsWritten(Some("ForceRestart")) ==
            Err(ActionParameterNotSupported("ForceRestart", "ResetType"))
  {
  }

  /** The mapping as intended: exactly the advertised values (or none,
      meaning PowerCycle) are accepted, ForceRestart meaning a reboot. */
  function ResetTransition(resetType: Option<string>): (r: Result<string, Error>)
    ensures r.Ok? <==> resetType.None? || resetType.value in ADVERTISED_RESET_TYPES
    ensures r == Ok(POWERCYCLE) <==> resetType.None? || resetType == Some("PowerCycle")
    ensures r == Ok(REBOOT) <==> resetType == Some("ForceRestart")
    ensures r.Err? ==> r.error == ActionParameterNotSupported(resetType.value, "ResetType")
  {
    if resetType.None? || resetType.value == "PowerCycle" then Ok(POWERCYCLE)
    else if resetType.value == "ForceRestart" then Ok(REBOOT)
    else Err(ActionParameterNotSupported(resetType.value, "ResetType"))
  }

  /** Both mappings agree on every value except the two spellings. */
  lemma ResetMappingsDifferOnlyInSpelling(resetType: Option<string>)
    requires resetType != Some("ForceReset") && resetType != Some("ForceRestart")
    ensures ResetTransition(resetType) == ResetTransitionAsWritten(resetType)
  {
  }

  /** setResetType: the first drive whose filename is driveId, which must
      have exactly one service; the result is (service, path, action). */
  function SetResetType(subtree: Reply<Listing>, driveId: string, action: string)
    : (r: Result<(string, Path, string), Error>)
    ensures subtree.Fail? ==> r == Err(InternalError)
    ensures r.Ok? ==> r.value.2 == action && subtree.Answer?
    ensures r.Ok? ==>
              exists i :: 0 <= i < |subtree.value|
                && subtree.value[i].0 == r.value.1 && Paths.Filename(r.value.1) == driveId
                && |subtree.value[i].1| == 1 && subtree.value[i].1[0].0 == r.value.0
                && forall k :: 0 <= k < i ==> Paths.Filename(subtree.value[k].0) != driveId
    ensures subtree.Answer? ==>
              (r == Err(ResourceNotFound("Drive Action", driveId)) <==>
                 forall i :: 0 <= i < |subtree.value| ==> Paths.Filename(subtree.value[i].0) != driveId)
    ensures r.Err? ==> r.error == InternalError || r.error == ResourceNotFound("Drive Action", driveId)
    ensures subtree.Answer? && FirstNamed(subtree.value, driveId) < |subtree.value| ==>
              var e := subtree.value[FirstNamed(subtree.value, driveId)];
              && (r.Ok? <==> |e.1| == 1)
              && (r.Ok? ==> r.value == (e.1[0].0, e.0, action))
              && (r.Err? ==> r.error == InternalError)
  {
    match subtree
    case Fail(_) => Err(InternalError)
    case Answer(listing) =>
      var i := FirstNamed(listing, driveId);
      if i == |listing| then Err(ResourceNotFound("Drive Action", driveId))
      else if |listing[i].1| != 1 then Err(InternalError)
      else Ok((listing[i].1[0].0, listing[i].0, action))
  }

  /** performDriveReset as written: the ResetType is mapped first, and only
      a recognised one reaches setResetType; "ForceReset" sets Reboot. */
  function ResetTargetAsWritten(subtree: Reply<Listing>, driveId: string, resetType: Option<string>)
    : (r: Result<(string, Path, string), Error>)
    ensures ResetTransitionAsWritten(resetType).Err? ==> r == Err(ActionParameterNotSupported(resetType.value, "ResetType"))
    ensures r.Ok? ==> (r.value.2 == REBOOT <==> resetType == Some("ForceReset"))
    ensures r.Ok? ==> (r.value.2 == POWERCYCLE <==> resetType.None? || resetType == Some("PowerCycle"))
    ensures ResetTransitionAsWritten(resetType).Ok? ==>
              r == SetResetType(subtree, driveId, ResetTransitionAsWritten(resetType).value)
  {
    var action :- ResetTransitionAsWritten(resetType);
    SetResetType(subtree, driveId, action)
  }

  /** performDriveReset with the corrected mapping: the advertised
      "ForceRestart" sets Reboot, and "ForceReset" is refused. */
  function ResetTarget(subtree: Reply<Listing>, driveId: string, resetType: Option<string>)
    : (r: Result<(string, Path, string), Error>)
    ensures ResetTransition(resetType).Err? ==> r == Err(ActionParameterNotSupported(resetType.value, "ResetType"))
    ensures r.Ok? ==> resetType.None? || resetType.value in ADVERTISED_RESET_TYPES
    ensures r.Ok? ==> (r.value.2 == REBOOT <==> resetType == Some("ForceRestart"))
    ensures r.Ok? ==> (r.value.2 == POWERCYCLE <==> resetType.None? || resetType == Some("PowerCycle"))
    ensures ResetTransition(resetType).Ok? ==>
              r == SetResetType(subtree, driveId, ResetTransition(resetType).value)
  {
    var action :- ResetTransition(resetType);
    SetResetType(subtree, driveId, action)
  }

  /** The corrected handler does for "ForceRestart" what the handler as
      written does for "ForceReset", and the two agree on everything else. */
  lemma ResetTargetsDifferOnlyInSpelling(subtree: Reply<Listing>, driveId: string, resetType: Option<string>)
    ensures ResetTarget(subtree, driveId, Some("ForceRestart")) == ResetTargetAsWritten(subtree, driveId, Some("ForceReset"))
    ensures resetType != Some("ForceReset") && resetType != Some("ForceRestart") ==>
              ResetTarget(subtree, driveId, resetType) == ResetTargetAsWritten(subtree, driveId, resetType)
  {
    if resetType != Some("ForceReset") && resetType != Some("ForceRestart") {
      ResetMappingsDifferOnlyInSpelling(resetType);
    }
  }
}

/** The support registry: which features exist, how they run, and on which platforms. */
module Registry {
  import opened Wrappers
  import opened FlowModel

  datatype ParseStatus = Parseable | Omitted | UnknownParseStatus(name: string)

  datatype RuntimeStatus = PlannedV1 | PlatformLimited | Deferred | Excluded | UnknownRuntimeStatus(name: string)

  datatype Entry = Entry(
    kind: FeatureKind,
    name: string,
    parseStatus: ParseStatus,
    runtimeStatus: RuntimeStatus,
    platforms: seq<string>,
    reason: string)

  datatype Catalog = Catalog(version: string, entries: seq<Entry>)

  /** The driver surface selected before preflight. */
  datatype ExecutionPlatform = Android | IOSSimulator | Web | UnknownSelection(name: string)

  const REGISTRY_VERSION_V0 := "flowbaton.support/v0"

  function PlatformName(platform: ExecutionPlatform): string {
    match platform
    case Android => "android"
    case IOSSimulator => "ios-simulator"
    case Web => "web"
    case UnknownSelection(name) => name
  }

  predicate ValidPlatformName(name: string) {
    name in ["all-hosts", "android", "ios-simulator", "ios-physical", "web"]
  }

  type Key = (FeatureKind, string)

  function KeyOf(entry: Entry): Key {
    (entry.kind, entry.name)
  }

  /** The first entry of the catalog with this kind and name. */
  function Lookup(entries: seq<Entry>, kind: FeatureKind, name: string): (found: Option<Entry>)
    ensures found.Some? ==> found.value in entries && KeyOf(found.value) == (kind, name)
    ensures found.None? ==> forall entry :: entry in entries ==> KeyOf(entry) != (kind, name)
  {
    if entries == [] then None
    else if entries[0].kind == kind && entries[0].name == name then Some(entries[0])
    else Lookup(entries[1..], kind, name)
  }

  datatype RegistryError =
    | UnsupportedVersion
    | DuplicateEntry(key: Key)
    | UndeclaredEntry(key: Key)
    | InvalidEntry(key: Key)
    | MissingEntry(key: Key)

  predicate DistinctNames(names: seq<string>) {
    forall i, j :: 0 <= i < j < |names| ==> names[i] != names[j]
  }

  /** The statuses, reason and platforms of one entry agree with each other. */
  ghost predicate CoherentEntry(entry: Entry) {
    && !entry.kind.UnknownFeature?
    && !Blank(entry.name)
    && !entry.parseStatus.UnknownParseStatus?
    && !entry.runtimeStatus.UnknownRuntimeStatus?
    && (entry.parseStatus.Omitted? <==> entry.runtimeStatus.Excluded?)
    && (entry.runtimeStatus.Deferred? || entry.runtimeStatus.Excluded? || entry.runtimeStatus.PlatformLimited?
        ==> !Blank(entry.reason))
    && (entry.runtimeStatus.PlatformLimited? ==> entry.platforms != [])
    && (forall i :: 0 <= i < |entry.platforms| ==>
          entry.platforms[i] in {"web", "android", "ios-simulator", "ios-physical", "all-hosts"})
    && DistinctNames(entry.platforms)
  }

  /** Reports whether one entry is coherent, checking its platforms one by one. */
  method ValidateEntry(entry: Entry) returns (ok: bool)
    ensures ok <==> CoherentEntry(entry)
  {
    if entry.kind.UnknownFeature? || Blank(entry.name)
       || entry.parseStatus.UnknownParseStatus? || entry.runtimeStatus.UnknownRuntimeStatus?
    {
      return false;
    }
    if entry.parseStatus.Omitted? && !entry.runtimeStatus.Excluded? {
      return false;
    }
    if entry.parseStatus.Parseable? && entry.runtimeStatus.Excluded? {
      return false;
    }
    if (entry.runtimeStatus.Deferred? || entry.runtimeStatus.Excluded? || entry.runtimeStatus.PlatformLimited?)
       && Blank(entry.reason)
    {
      return false;
    }
    if entry.runtimeStatus.PlatformLimited? && |entry.platforms| == 0 {
      return false;
    }
    var seen: set<string> := {};
    for i := 0 to |entry.platforms|
      invariant forall k :: 0 <= k < i ==>
                  entry.platforms[k] in {"web", "android", "ios-simulator", "ios-physical", "all-hosts"}
      invariant forall j, k :: 0 <= j < k < i ==> entry.platforms[j] != entry.platforms[k]
      invariant seen == set k | 0 <= k < i :: entry.platforms[k]
    {
      var platform := entry.platforms[i];
      if !ValidPlatformName(platform) {
        return false;
      }
      if platform in seen {
        return false;
      }
      seen := seen + {platform};
    }
    ok := true;
  }

  /** What a valid catalog is: exactly the required keys, once each, all coherent. */
  ghost predicate ValidCatalog(catalog: Catalog, required: set<Key>) {
    && catalog.version == REGISTRY_VERSION_V0
    && (forall i, j :: 0 <= i < j < |catalog.entries| ==> KeyOf(catalog.entries[i]) != KeyOf(catalog.entries[j]))
    && (forall i :: 0 <= i < |catalog.entries| ==> CoherentEntry(catalog.entries[i]))
    && (set i | 0 <= i < |catalog.entries| :: KeyOf(catalog.entries[i])) == required
  }

  ghost predicate Repeated(entries: seq<Entry>, key: Key) {
    exists i, j :: 0 <= i < j < |entries| && KeyOf(entries[i]) == KeyOf(entries[j]) == key
  }

  /** Fails closed on a missing, duplicate, undeclared or contradictory entry. */
  method Validate(catalog: Catalog, required: set<Key>) returns (error: Option<RegistryError>)
    ensures error.None? <==> ValidCatalog(catalog, required)
    ensures error.Some? && error.value.MissingEntry? ==>
              error.value.key in required && forall e :: e in catalog.entries ==> KeyOf(e) != error.value.key
    ensures error.Some? && error.value.UndeclaredEntry? ==> error.value.key !in required
    ensures error.Some? && error.value.UnsupportedVersion? <==> catalog.version != REGISTRY_VERSION_V0
    ensures error.Some? && error.value.DuplicateEntry? ==> Repeated(catalog.entries, error.value.key)
    ensures error.Some? && error.value.InvalidEntry? ==>
              exists e :: e in catalog.entries && KeyOf(e) == error.value.key && !CoherentEntry(e)
  {
    if catalog.version != REGISTRY_VERSION_V0 {
      return Some(UnsupportedVersion);
    }
    var seen: set<Key> := {};
    for i := 0 to |catalog.entries|
      invariant forall j, k :: 0 <= j < k < i ==> KeyOf(catalog.entries[j]) != KeyOf(catalog.entries[k])
      invariant forall k :: 0 <= k < i ==> CoherentEntry(catalog.entries[k])
      invariant seen == set k | 0 <= k < i :: KeyOf(catalog.entries[k])
      invariant seen <= required
    {
      var entry := catalog.entries[i];
      var key := KeyOf(entry);
      ghost var all := set k | 0 <= k < |catalog.entries| :: KeyOf(catalog.entries[k]);
      assert key in all;
      if key in seen {
        return Some(DuplicateEntry(key));
      }
      seen := seen + {key};
      if key !in required {
        return Some(UndeclaredEntry(key));
      }
      var ok := ValidateEntry(entry);
      if !ok {
        return Some(InvalidEntry(key));
      }
    }
    if required - seen != {} {
      var key :| key in required - seen;
      return Some(MissingEntry(key));
    }
    error := None;
  }

  predicate SupportsPlatform(entry: Entry, platform: ExecutionPlatform) {
    PlatformName(platform) in entry.platforms || "all-hosts" in entry.platforms
  }

  /** The catalog's name for the devices of a selected platform. */
  ghost predicate Spells(name: string, platform: ExecutionPlatform) {
    match platform
    case Android => name == "android"
    case IOSSimulator => name == "ios-simulator"
    case Web => name == "web"
    case UnknownSelection(given) => name == given
  }

  /** The list names the selected platform. */
  ghost predicate Lists(platforms: seq<string>, platform: ExecutionPlatform) {
    exists i :: 0 <= i < |platforms| && Spells(platforms[i], platform)
  }

  lemma ListsExactlyWhenNamed(platforms: seq<string>, platform: ExecutionPlatform)
    ensures PlatformName(platform) in platforms <==> Lists(platforms, platform)
  {
    assert forall name :: Spells(name, platform) <==> name == PlatformName(platform);
  }

  /** A feature may be used when the catalog classifies it as runnable on the selected platform. */
  ghost predicate Supported(catalog: Catalog, kind: FeatureKind, name: string, platform: Option<ExecutionPlatform>) {
    exists entry :: entry in catalog.entries && KeyOf(entry) == (kind, name)
      && !entry.parseStatus.Omitted?
      && !entry.runtimeStatus.Deferred?
      && !entry.runtimeStatus.Excluded?
      && (platform.Some? ==> Lists(entry.platforms, platform.value) || "all-hosts" in entry.platforms)
  }

  function UnsupportedFeature(catalog: Catalog, kind: FeatureKind, name: string, source: SourceInfo,
                              platform: Option<ExecutionPlatform>): (violation: Option<Violation>)
    ensures violation.Some? ==>
              violation.value.feature == Some((kind, name)) && violation.value.chain == []
              && violation.value.code in {UnsupportedCapability, UnsupportedPlatform}
    ensures violation.None? ==> Supported(catalog, kind, name, platform)
  {
    var found := Lookup(catalog.entries, kind, name);
    assert found.Some? && platform.Some? && SupportsPlatform(found.value, platform.value) ==>
        Lists(found.value.platforms, platform.value) || "all-hosts" in found.value.platforms by {
      if found.Some? && platform.Some? {
        ListsExactlyWhenNamed(found.value.platforms, platform.value);
      }
    }
    if found.None? then
      Some(Violation(UnsupportedCapability, Some((kind, name)), source, [], None))
    else if found.value.parseStatus.Omitted? || found.value.runtimeStatus.Deferred?
        || found.value.runtimeStatus.Excluded? then
      Some(Violation(UnsupportedCapability, Some((kind, name)), source, [], None))
    else if platform.Some? && !SupportsPlatform(found.value, platform.value) then
      Some(Violation(UnsupportedPlatform, Some((kind, name)), source, [], None))
    else
      None
  }

  /** On a valid catalog the lookup is exact: a feature is refused if and only if no runnable entry exists.
      The code tells whether it would run on some other platform. */
  lemma {:induction false} RefusedExactlyWhenUnsupported(
      catalog: Catalog, required: set<Key>, kind: FeatureKind, name: string, source: SourceInfo,
      platform: Option<ExecutionPlatform>)
    requires ValidCatalog(catalog, required)
    ensures UnsupportedFeature(catalog, kind, name, source, platform).None? <==>
              Supported(catalog, kind, name, platform)
    ensures UnsupportedFeature(catalog, kind, name, source, platform).Some? ==>
              var violation := UnsupportedFeature(catalog, kind, name, source, platform).value;
              && violation.source == source && violation.cause.None?
              && (violation.code.UnsupportedPlatform? <==> Supported(catalog, kind, name, None))
    ensures Lookup(catalog.entries, kind, name).Some? <==> (kind, name) in required
  {
    hide Lists;
    var found := Lookup(catalog.entries, kind, name);
    if found.Some? && platform.Some? {
      ListsExactlyWhenNamed(found.value.platforms, platform.value);
    }
    assert (kind, name) in required <==>
        exists i :: 0 <= i < |catalog.entries| && KeyOf(catalog.entries[i]) == (kind, name);
    if found.Some? {
      forall entry | entry in catalog.entries && KeyOf(entry) == (kind, name)
        ensures entry == found.value
      {
        SameKeySameEntry(catalog, required, entry, found.value);
      }
    }
  }

  lemma SameKeySameEntry(catalog: Catalog, required: set<Key>, a: Entry, b: Entry)
    requires ValidCatalog(catalog, required)
    requires a in catalog.entries && b in catalog.entries && KeyOf(a) == KeyOf(b)
    ensures a == b
  {
    var i :| 0 <= i < |catalog.entries| && catalog.entries[i] == a;
    var j :| 0 <= j < |catalog.entries| && catalog.entries[j] == b;
    assert i == j;
  }
}

/** The memo that preflight reads flows through. Whatever the source loader would answer later,
    the first answer for a path is the one everybody sees. */
module RecordingLoader {
  import opened Wrappers
  import opened FlowModel

  /** A source of flows. Its answer may depend on how often it has been asked before. */
  datatype BaseLoader = BaseLoader(
    canonical: (nat, string) -> Result<string, LoadError>,
    load: (nat, string) -> Result<Flow, LoadError>)

  type CanonicalTable = map<string, Result<string, LoadError>>
  type FlowTable = map<string, Result<Flow, LoadError>>

  /** The successful, non-blank canonical answers. */
  function AliasesOf(canonical: CanonicalTable): map<string, string> {
    map raw | raw in canonical && Aliased(canonical, raw) :: if Aliased(canonical, raw) then canonical[raw].value
        else ""
  }

  predicate Aliased(canonical: CanonicalTable, raw: string) {
    raw in canonical && canonical[raw].Success? && !Blank(canonical[raw].value)
  }

  class Recorder {
    const base: BaseLoader
    var canonical: CanonicalTable
    var flows: FlowTable
    /** How many questions have reached the source loader. */
    var calls: nat

    /** Each recorded answer was given by the source loader, and no question reached it twice. */
    ghost predicate Valid()
      reads this
    {
      && calls == |canonical| + |flows|
      && (forall path :: path in canonical ==> exists t :: 0 <= t < calls && canonical[path] == base.canonical(t, path))
      && (forall path :: path in flows ==> exists t :: 0 <= t < calls && flows[path] == base.load(t, path))
    }

    constructor (base: BaseLoader)
      ensures Valid() && this.base == base && canonical == map[] && flows == map[] && calls == 0
    {
      this.base := base;
      canonical := map[];
      flows := map[];
      calls := 0;
    }

    method Canonical(path: string) returns (answer: Result<string, LoadError>)
      requires Valid()
      modifies this
      ensures Valid()
      ensures flows == old(flows)
      ensures path in canonical && canonical[path] == answer
      ensures path in old(canonical) ==> canonical == old(canonical) && calls == old(calls)
      ensures path !in old(canonical) ==>
                canonical == old(canonical)[path := base.canonical(old(calls), path)] && calls == old(calls) + 1
    {
      if path in canonical {
        return canonical[path];
      }
      answer := base.canonical(calls, path);
      canonical := canonical[path := answer];
      calls := calls + 1;
    }

    method Load(path: string) returns (answer: Result<Flow, LoadError>)
      requires Valid()
      modifies this
      ensures Valid()
      ensures canonical == old(canonical)
      ensures path in flows && flows[path] == answer
      ensures path in old(flows) ==> flows == old(flows) && calls == old(calls)
      ensures path !in old(flows) ==>
                flows == old(flows)[path := base.load(old(calls), path)] && calls == old(calls) + 1
    {
      if path in flows {
        return flows[path];
      }
      answer := base.load(calls, path);
      flows := flows[path := answer];
      calls := calls + 1;
    }

    method Recorded(path: string) returns (flow: Option<Flow>)
      ensures flow == if path in flows && flows[path].Success? then Some(flows[path].value) else None
    {
      if path in flows && flows[path].Success? {
        return Some(flows[path].value);
      }
      flow := None;
    }

    /** Freezes the canonical answers into an alias table. */
    method Aliases() returns (aliases: map<string, string>)
      ensures aliases == AliasesOf(canonical)
    {
      aliases := map[];
      var pending := canonical.Keys;
      while pending != {}
        invariant pending <= canonical.Keys
        invariant aliases == AliasesOf(canonical) - pending
        decreases |pending|
      {
        var raw :| raw in pending;
        pending := pending - {raw};
        if canonical[raw].Success? && !Blank(canonical[raw].value) {
          aliases := aliases[raw := canonical[raw].value];
        }
      }
    }
  }
}

/** The service listing: one summary per service with a live instance. */
module ServiceList {
  import opened Base
  import opened Types
  import opened Sorting
  import opened Pagination

  datatype ServiceSummary = ServiceSummary(
    namespace: string, environment: string, service: string, activeInstances: nat, latestRevision: nat)

  datatype ListQuery = ListQuery(namespace: string, environment: string, pageSize: nat, pageToken: Option<string>)
  {
    predicate Valid() {
      !Blank(namespace) && !Blank(environment)
    }
  }

  datatype ListResult = ListResult(revision: nat, page: Page<ServiceSummary>)

  /** The instances the listing counts. */
  function Counted(instances: map<InstanceKey, Instance>, q: ListQuery, now: U64): set<Instance> {
    set k | k in instances && instances[k].key.namespace == q.namespace
         && instances[k].key.environment == q.environment && instances[k].LiveAt(now) :: instances[k]
  }

  function OfService(instances: set<Instance>, service: string): set<Instance> {
    set i | i in instances && i.key.service == service
  }

  function ServicesOf(instances: set<Instance>): set<string> {
    set i | i in instances :: i.key.service
  }

  ghost function LatestRevision(instances: set<Instance>): (r: nat)
    ensures forall i :: i in instances ==> i.revision <= r
    ensures instances != {} ==> exists i :: i in instances && i.revision == r
    ensures instances == {} ==> r == 0
  {
    if instances == {} then 0 else
      var i :| i in instances;
      var rest := LatestRevision(instances - {i});
      if i.revision > rest then i.revision else rest
  }

  ghost function Summarize(instances: set<Instance>, q: ListQuery, service: string): ServiceSummary {
    var mine := OfService(instances, service);
    ServiceSummary(q.namespace, q.environment, service, |mine|, LatestRevision(mine))
  }

  /** One entry per service: how many instances, and the latest of their revisions. */
  ghost function Summaries(instances: set<Instance>, q: ListQuery): map<string, ServiceSummary> {
    map service | service in ServicesOf(instances) :: Summarize(instances, q, service)
  }

  predicate ServiceLe(a: ServiceSummary, b: ServiceSummary) {
    StringLe(a.service, b.service)
  }

  function NameOf(s: ServiceSummary): string {
    s.service
  }

  ghost function SortedSummaries(services: map<string, ServiceSummary>): seq<ServiceSummary> {
    SortBy(ServiceLe, Listing(services.Values))
  }

  ghost function List(s: Store, q: ListQuery, now: U64): Result<ListResult, DiscoveryError> {
    if !q.Valid() then Err(InvalidArgument)
    else
      var sorted := SortedSummaries(Summaries(Counted(s.instances, q, now), q));
      Ok(ListResult(s.revision, Paginate(sorted, q.pageSize, q.pageToken, NameOf)))
  }

  lemma ServiceLeIsPreorder()
    ensures Preorder(ServiceLe)
  {
    forall a, b ensures ServiceLe(a, b) || ServiceLe(b, a) {
      StringLeTotal(a.service, b.service);
    }
    forall a, b, c | ServiceLe(a, b) && ServiceLe(b, c) ensures ServiceLe(a, c) {
      StringLeTransitive(a.service, b.service, c.service);
    }
  }

  /** Listing the map's values in any order sorts to the same list. */
  lemma SummariesSortUniquely(services: map<string, ServiceSummary>, values: seq<ServiceSummary>)
    requires forall name :: name in services ==> services[name].service == name
    requires Enumerates(values, services.Values)
    ensures SortBy(ServiceLe, values) == SortedSummaries(services)
  {
    EnumerationsHaveNoRepeats(values, services.Values);
    forall i, j | 0 <= i < |values| && 0 <= j < |values| && ServiceLe(values[i], values[j]) && ServiceLe(values[j], values[i])
      ensures values[i] == values[j]
    {
      StringLeTotal(values[i].service, values[j].service);
      assert values[i] in services.Values && values[j] in services.Values;
    }
    ServiceLeIsPreorder();
    SortIgnoresInputOrder(ServiceLe, values, Listing(services.Values));
  }

  /** One round of the loop of `list_services`. */
  function Count(services: map<string, ServiceSummary>, q: ListQuery, i: Instance): map<string, ServiceSummary> {
    var service := i.key.service;
    var summary := if service in services then services[service]
                   else ServiceSummary(q.namespace, q.environment, service, 0, 0);
    var latest := if i.revision > summary.latestRevision then i.revision else summary.latestRevision;
    services[service := summary.(activeInstances := summary.activeInstances + 1, latestRevision := latest)]
  }

  lemma OwnSummaryGrows(instances: set<Instance>, q: ListQuery, i: Instance)
    requires i !in instances
    ensures Summarize(instances + {i}, q, i.key.service) == Count(Summaries(instances, q), q, i)[i.key.service]
  {
    var service := i.key.service;
    var mine := OfService(instances, service);
    assert OfService(instances + {i}, service) == mine + {i};
    assert service !in ServicesOf(instances) ==> mine == {};
  }

  lemma OtherSummariesStay(instances: set<Instance>, q: ListQuery, i: Instance, other: string)
    requires other != i.key.service
    ensures Summarize(instances + {i}, q, other) == Summarize(instances, q, other)
  {
    assert OfService(instances + {i}, other) == OfService(instances, other);
  }

  lemma EntryGrows(instances: set<Instance>, q: ListQuery, i: Instance, name: string)
    requires i !in instances && name in ServicesOf(instances + {i})
    ensures name in Count(Summaries(instances, q), q, i)
    ensures Summarize(instances + {i}, q, name) == Count(Summaries(instances, q), q, i)[name]
  {
    if name == i.key.service {
      OwnSummaryGrows(instances, q, i);
    } else {
      OtherSummariesStay(instances, q, i, name);
      assert name in ServicesOf(instances);
    }
  }

  /** Counting one more instance changes its own service's entry and no other. */
  lemma SummariesGrow(instances: set<Instance>, q: ListQuery, i: Instance)
    requires i !in instances
    ensures Summaries(instances + {i}, q) == Count(Summaries(instances, q), q, i)
  {
    var a, b := Summaries(instances + {i}, q), Count(Summaries(instances, q), q, i);
    assert ServicesOf(instances + {i}) == ServicesOf(instances) + {i.key.service};
    assert a.Keys == b.Keys;
    forall name | name in a ensures a[name] == b[name] {
      EntryGrows(instances, q, i, name);
    }
  }
}

/** Discovery reads: candidate instances, label filters, ordering, weighted shuffling and paging. */
module Discovery {
  import opened Base
  import opened Types
  import opened Sorting
  import opened Registry
  import opened Runs
  import opened Pagination

  // ---------- queries ----------

  datatype LabelFilterOp = Eq | NotEq | In | Exists

  function Split(s: string, separator: char): (parts: seq<string>)
    ensures |parts| >= 1
  {
    if s == "" then [""]
    else
      var rest := Split(s[1..], separator);
      if s[0] == separator then [""] + rest else [[s[0]] + rest[0]] + rest[1..]
  }

  ghost function JoinParts(parts: seq<string>, separator: char): string
    requires parts != []
  {
    if |parts| == 1 then parts[0] else parts[0] + [separator] + JoinParts(parts[1..], separator)
  }

  /** Splitting cuts at every separator and loses nothing. */
  lemma {:induction false} SplitIsExact(s: string, separator: char)
    ensures JoinParts(Split(s, separator), separator) == s
    ensures forall i :: 0 <= i < |Split(s, separator)| ==> separator !in Split(s, separator)[i]
  {
    if s != "" {
      SplitIsExact(s[1..], separator);
      var rest, parts := Split(s[1..], separator), Split(s, separator);
      if s[0] == separator {
        assert parts[1..] == rest;
        assert parts[0] + [separator] + JoinParts(rest, separator) == [s[0]] + s[1..];
      } else {
        assert parts[1..] == rest[1..];
        assert s == [s[0]] + s[1..];
        if |rest| > 1 {
          assert [s[0]] + rest[0] + [separator] + JoinParts(rest[1..], separator)
              == [s[0]] + (rest[0] + [separator] + JoinParts(rest[1..], separator));
        }
      }
    }
  }

  datatype LabelFilter = LabelFilter(key: string, op: LabelFilterOp, value: string)
  {
    predicate Matches(metadata: map<string, string>) {
      match op
      case Eq => key in metadata && metadata[key] == value
      case NotEq => !(key in metadata && metadata[key] == value)
      case In => key in metadata && metadata[key] in Split(value, ',')
      case Exists => key in metadata
    }
  }

  /** What the filters mean to each other: inequality is the complement of equality, a list is any of its values, and
      existence is equality with something. */
  lemma FiltersAgree(key: string, value: string, values: seq<string>, metadata: map<string, string>)
    requires values != [] && forall i :: 0 <= i < |values| ==> ',' !in values[i]
    ensures LabelFilter(key, Eq, value).Matches(metadata) <==> (key, value) in metadata.Items
    ensures LabelFilter(key, NotEq, value).Matches(metadata) <==> !LabelFilter(key, Eq, value).Matches(metadata)
    ensures LabelFilter(key, In, JoinParts(values, ',')).Matches(metadata) <==>
            exists i :: 0 <= i < |values| && LabelFilter(key, Eq, values[i]).Matches(metadata)
    ensures LabelFilter(key, Exists, value).Matches(metadata) <==>
            exists v :: LabelFilter(key, Eq, v).Matches(metadata)
  {
    SplitJoined(values, ',');
    if key in metadata {
      assert LabelFilter(key, Eq, metadata[key]).Matches(metadata);
    }
  }

  lemma {:induction false} SplitJoined(parts: seq<string>, separator: char)
    requires parts != [] && forall i :: 0 <= i < |parts| ==> separator !in parts[i]
    ensures Split(JoinParts(parts, separator), separator) == parts
    decreases |parts|, |parts[0]|
  {
    var s := JoinParts(parts, separator);
    if parts[0] != "" {
      var shorter := [parts[0][1..]] + parts[1..];
      assert separator !in parts[0];
      assert forall i :: 0 <= i < |shorter| ==> separator !in shorter[i];
      SplitJoined(shorter, separator);
      assert shorter[1..] == parts[1..];
      assert s == [parts[0][0]] + JoinParts(shorter, separator);
      assert s[1..] == JoinParts(shorter, separator) && s[0] == parts[0][0];
      assert parts[0] == [parts[0][0]] + parts[0][1..];
      assert parts == [parts[0]] + parts[1..];
    } else if |parts| > 1 {
      SplitJoined(parts[1..], separator);
      assert s[0] == separator && s[1..] == JoinParts(parts[1..], separator);
      assert parts == [""] + parts[1..];
    } else {
      assert parts == [""];
    }
  }

  datatype SortOrder = ByInstanceId | ByPriority | ByWeight | WeightedRandom

  datatype DiscoverQuery = DiscoverQuery(
    namespace: string, environment: string, service: string, healthyOnly: bool, protocol: Option<string>,
    labels: seq<LabelFilter>, sortBy: Option<SortOrder>, pageSize: nat, pageToken: Option<string>)
  {
    predicate Valid() {
      !Blank(namespace) && !Blank(environment) && !Blank(service) && (protocol.Some? ==> !Blank(protocol.value))
    }

    function Order(): SortOrder {
      if sortBy.None? then ByInstanceId else sortBy.value
    }
  }

  datatype DiscoverResult = DiscoverResult(revision: nat, page: Page<Instance>)

  /** What the store hands to the shared post-processing. */
  predicate Candidate(q: DiscoverQuery, i: Instance, now: U64) {
    && i.key.namespace == q.namespace && i.key.environment == q.environment && i.key.service == q.service
    && (q.protocol.Some? ==> i.profile.protocol == q.protocol.value)
    && i.LiveAt(now)
    && (q.healthyOnly ==> i.status.IsDiscoverable())
  }

  function CandidatesIn(instances: map<InstanceKey, Instance>, q: DiscoverQuery, now: U64): set<Instance> {
    set k | k in instances && Candidate(q, instances[k], now) :: instances[k]
  }

  function Candidates(s: Store, q: DiscoverQuery, now: U64): set<Instance> {
    CandidatesIn(s.instances, q, now)
  }

  predicate Labelled(q: DiscoverQuery, i: Instance) {
    forall n :: 0 <= n < |q.labels| ==> q.labels[n].Matches(i.profile.metadata)
  }

  /** Every live instance the query asks for. */
  function Wanted(s: Store, q: DiscoverQuery, now: U64): set<Instance> {
    set i | i in Candidates(s, q, now) && Labelled(q, i)
  }

  function RetainLabelled(q: DiscoverQuery, instances: seq<Instance>): seq<Instance> {
    if instances == [] then [] else
      var n := |instances| - 1;
      RetainLabelled(q, instances[..n]) + if Labelled(q, instances[n]) then [instances[n]] else []
  }

  // ---------- orders ----------

  predicate InstanceIdLe(a: Instance, b: Instance) {
    StringLe(a.key.instanceId, b.key.instanceId)
  }

  /** Lower priority first, then higher weight, then id. */
  predicate PriorityLe(a: Instance, b: Instance) {
    a.profile.priority < b.profile.priority
    || (a.profile.priority == b.profile.priority && WeightLe(a, b))
  }

  /** Higher weight first, then id. */
  predicate WeightLe(a: Instance, b: Instance) {
    a.profile.weight > b.profile.weight || (a.profile.weight == b.profile.weight && InstanceIdLe(a, b))
  }

  predicate PriorityOnlyLe(a: Instance, b: Instance) {
    a.profile.priority <= b.profile.priority
  }

  function Le(order: SortOrder): (Instance, Instance) -> bool {
    match order
    case ByInstanceId => InstanceIdLe
    case ByPriority => PriorityLe
    case ByWeight => WeightLe
    case WeightedRandom => PriorityOnlyLe
  }

  function IdOf(i: Instance): string {
    i.key.instanceId
  }

  lemma OrdersArePreorders(order: SortOrder)
    ensures Preorder(Le(order))
  {
    var le := Le(order);
    forall a, b ensures le(a, b) || le(b, a) {
      StringLeTotal(IdOf(a), IdOf(b));
    }
    forall a, b, c | le(a, b) && le(b, c)
      ensures le(a, c)
    {
      if InstanceIdLe(a, b) && InstanceIdLe(b, c) {
        StringLeTransitive(IdOf(a), IdOf(b), IdOf(c));
      }
    }
  }

  // ---------- weighted shuffle ----------

  function TotalWeight(instances: seq<Instance>): nat {
    if instances == [] then 0
    else TotalWeight(instances[..|instances| - 1]) + instances[|instances| - 1].profile.weight
  }

  /** The first index whose cumulative weight exceeds the target. */
  function Pick(instances: seq<Instance>, target: nat): (p: nat)
    requires target < TotalWeight(instances)
    ensures p < |instances| && instances[p].profile.weight > 0
  {
    var n := |instances| - 1;
    if target < TotalWeight(instances[..n]) then Pick(instances[..n], target) else n
  }

  function RemoveAt<T>(s: seq<T>, i: nat): seq<T>
    requires i < |s|
  {
    s[..i] + s[i + 1..]
  }

  /** The draws still to make, for any hash of (remaining, placed). */
  function Draw(hash: (nat, nat) -> nat, remaining: seq<Instance>, placed: nat): seq<Instance>
    decreases |remaining|
  {
    var total := TotalWeight(remaining);
    if total == 0 then remaining
    else
      var p := Pick(remaining, hash(|remaining|, placed) % total);
      [remaining[p]] + Draw(hash, RemoveAt(remaining, p), placed + 1)
  }

  function Shuffle(hash: (nat, nat) -> nat, instances: seq<Instance>): seq<Instance> {
    Draw(hash, instances, 0)
  }

  function ZeroWeight(instances: seq<Instance>): seq<Instance> {
    if instances == [] then [] else
      var n := |instances| - 1;
      ZeroWeight(instances[..n]) + if instances[n].profile.weight == 0 then [instances[n]] else []
  }

  ghost predicate PositiveFirst(instances: seq<Instance>) {
    forall i, j :: 0 <= i < j < |instances| && instances[j].profile.weight > 0 ==> instances[i].profile.weight > 0
  }

  lemma {:induction false} ZeroWeightConcat(a: seq<Instance>, b: seq<Instance>)
    ensures ZeroWeight(a + b) == ZeroWeight(a) + ZeroWeight(b)
  {
    if b == [] {
      assert a + b == a;
    } else {
      var n := |b| - 1;
      assert (a + b)[..|a| + n] == a + b[..n];
      ZeroWeightConcat(a, b[..n]);
    }
  }

  lemma {:induction false} NoWeightAllZero(instances: seq<Instance>)
    requires TotalWeight(instances) == 0
    ensures forall i :: 0 <= i < |instances| ==> instances[i].profile.weight == 0
  {
    if instances != [] {
      NoWeightAllZero(instances[..|instances| - 1]);
    }
  }

  lemma WeightedLeavesNoTrace(a: seq<Instance>, x: Instance, b: seq<Instance>)
    requires x.profile.weight > 0
    ensures ZeroWeight(a + [x] + b) == ZeroWeight(a + b)
    ensures ZeroWeight([x] + b) == ZeroWeight(b)
  {
    ZeroWeightConcat([x], b);
    ZeroWeightConcat(a + [x], b);
    ZeroWeightConcat(a, [x]);
    ZeroWeightConcat(a, b);
    assert ZeroWeight([x]) == [];
  }

  lemma {:induction false} DrawPermutes(hash: (nat, nat) -> nat, remaining: seq<Instance>, placed: nat)
    ensures multiset(Draw(hash, remaining, placed)) == multiset(remaining)
    decreases |remaining|
  {
    var total := TotalWeight(remaining);
    if total != 0 {
      var p := Pick(remaining, hash(|remaining|, placed) % total);
      assert remaining == remaining[..p] + [remaining[p]] + remaining[p + 1..];
      DrawPermutes(hash, RemoveAt(remaining, p), placed + 1);
    }
  }

  lemma {:induction false} DrawPutsPositiveFirst(hash: (nat, nat) -> nat, remaining: seq<Instance>, placed: nat)
    ensures PositiveFirst(Draw(hash, remaining, placed))
    decreases |remaining|
  {
    var total := TotalWeight(remaining);
    if total == 0 {
      NoWeightAllZero(remaining);
    } else {
      var p := Pick(remaining, hash(|remaining|, placed) % total);
      DrawPutsPositiveFirst(hash, RemoveAt(remaining, p), placed + 1);
    }
  }

  lemma {:induction false} DrawKeepsZeroOrder(hash: (nat, nat) -> nat, remaining: seq<Instance>, placed: nat)
    ensures ZeroWeight(Draw(hash, remaining, placed)) == ZeroWeight(remaining)
    decreases |remaining|
  {
    var total := TotalWeight(remaining);
    if total != 0 {
      var p := Pick(remaining, hash(|remaining|, placed) % total);
      var x, a, b := remaining[p], remaining[..p], remaining[p + 1..];
      assert remaining == a + [x] + b;
      DrawKeepsZeroOrder(hash, a + b, placed + 1);
      WeightedLeavesNoTrace(a, x, b);
      WeightedLeavesNoTrace(a, x, Draw(hash, a + b, placed + 1));
    }
  }

  /** The shuffle is a permutation, puts every positive weight before every zero weight, and keeps the zero-weight
      instances in their original order, whatever the hash. */
  lemma ShuffleIsFair(hash: (nat, nat) -> nat, instances: seq<Instance>)
    ensures var shuffled := Shuffle(hash, instances);
            && multiset(shuffled) == multiset(instances)
            && PositiveFirst(shuffled)
            && ZeroWeight(shuffled) == ZeroWeight(instances)
  {
    DrawPermutes(hash, instances, 0);
    DrawPutsPositiveFirst(hash, instances, 0);
    DrawKeepsZeroOrder(hash, instances, 0);
  }

  // ---------- the answer ----------

  /** `finalize_discover_instances` on the candidates in the order the map yielded them. */
  function Finalize(hash: (nat, nat) -> nat, found: seq<Instance>, q: DiscoverQuery): Page<Instance> {
    var sorted := SortBy(Le(q.Order()), RetainLabelled(q, found));
    if q.Order().WeightedRandom? then
      var shuffled := Shuffle(hash, sorted);
      var size := NormalizePageSize(q.pageSize);
      Page(if |shuffled| > size then shuffled[..size] else shuffled, None)
    else Paginate(sorted, q.pageSize, q.pageToken, IdOf)
  }

  lemma {:induction false} ZeroWeightIsPart(instances: seq<Instance>)
    ensures forall i :: i in ZeroWeight(instances) ==> i in instances
    ensures Sorted(PriorityOnlyLe, instances) ==> Sorted(PriorityOnlyLe, ZeroWeight(instances))
  {
    if instances != [] {
      var n := |instances| - 1;
      ZeroWeightIsPart(instances[..n]);
      var before := ZeroWeight(instances[..n]);
      if Sorted(PriorityOnlyLe, instances) {
        forall i | 0 <= i < |before| ensures PriorityOnlyLe(before[i], instances[n]) {
          assert before[i] in instances[..n];
        }
      }
    }
  }

  /** What a weighted-random answer promises: one page, without a token, of a list of every wanted instance in which
      positive weights come before zero weights and the latter are in order of priority. */
  ghost predicate FairPage(s: Store, q: DiscoverQuery, now: U64, page: Page<Instance>) {
    exists all :: FairOrder(s, q, now, all) && page == Page(Take(all, NormalizePageSize(q.pageSize)), None)
  }

  ghost predicate FairOrder(s: Store, q: DiscoverQuery, now: U64, all: seq<Instance>) {
    && Enumerates(all, Wanted(s, q, now)) && PositiveFirst(all)
    && (forall i, j :: 0 <= i < j < |ZeroWeight(all)| ==>
          ZeroWeight(all)[i].profile.priority <= ZeroWeight(all)[j].profile.priority)
  }

  /** The wanted instances by priority, which are then shuffled. */
  lemma PrioritizedEnumeratesWanted(s: Store, q: DiscoverQuery, now: U64, found: seq<Instance>)
    requires Enumerates(found, Candidates(s, q, now))
    ensures var sorted := SortBy(PriorityOnlyLe, RetainLabelled(q, found));
            Enumerates(sorted, Wanted(s, q, now)) && Sorted(PriorityOnlyLe, sorted)
  {
    RetainEnumeratesWanted(s, q, now, found);
    assert Preorder(PriorityOnlyLe);
    SortBySorts(PriorityOnlyLe, RetainLabelled(q, found));
  }

  lemma ShuffledIsFair(s: Store, q: DiscoverQuery, now: U64, hash: (nat, nat) -> nat, sorted: seq<Instance>)
    requires Enumerates(sorted, Wanted(s, q, now)) && Sorted(PriorityOnlyLe, sorted)
    ensures FairOrder(s, q, now, Shuffle(hash, sorted))
  {
    ShuffleIsFair(hash, sorted);
    ZeroWeightIsPart(sorted);
  }

  lemma WeightedPage(hash: (nat, nat) -> nat, found: seq<Instance>, q: DiscoverQuery)
    requires q.Order().WeightedRandom?
    ensures var all := Shuffle(hash, SortBy(PriorityOnlyLe, RetainLabelled(q, found)));
            Finalize(hash, found, q) == Page(Take(all, NormalizePageSize(q.pageSize)), None)
  {
  }

  lemma FairOrderMakesFairPage(s: Store, q: DiscoverQuery, now: U64, all: seq<Instance>, page: Page<Instance>)
    requires FairOrder(s, q, now, all) && page == Page(Take(all, NormalizePageSize(q.pageSize)), None)
    ensures FairPage(s, q, now, page)
  {
  }

  /** Weighted-random discovery keeps that promise for any hash and any order the map yields. */
  lemma WeightedPageIsFair(s: Store, q: DiscoverQuery, now: U64, hash: (nat, nat) -> nat, found: seq<Instance>)
    requires q.Order().WeightedRandom? && Enumerates(found, Candidates(s, q, now))
    ensures FairPage(s, q, now, Finalize(hash, found, q))
  {
    var sorted := SortBy(PriorityOnlyLe, RetainLabelled(q, found));
    PrioritizedEnumeratesWanted(s, q, now, found);
    ShuffledIsFair(s, q, now, hash, sorted);
    WeightedPage(hash, found, q);
    FairOrderMakesFairPage(s, q, now, Shuffle(hash, sorted), Finalize(hash, found, q));
  }

  lemma {:induction false} PrefixWeighsLess(instances: seq<Instance>, n: nat)
    requires n <= |instances|
    ensures TotalWeight(instances[..n]) <= TotalWeight(instances)
  {
    if n < |instances| {
      var m := |instances| - 1;
      assert instances[..m][..n] == instances[..n];
      PrefixWeighsLess(instances[..m], n);
    } else {
      assert instances[..n] == instances;
    }
  }

  /** The scan for the first cumulative weight above the target finds the pick. */
  lemma {:induction false} FirstAboveIsPick(instances: seq<Instance>, target: nat, p: nat)
    requires p < |instances|
    requires TotalWeight(instances[..p]) <= target < TotalWeight(instances[..p + 1])
    ensures target < TotalWeight(instances) && Pick(instances, target) == p
  {
    PrefixWeighsLess(instances, p + 1);
    var n := |instances| - 1;
    if p < n {
      assert instances[..n][..p] == instances[..p] && instances[..n][..p + 1] == instances[..p + 1];
      FirstAboveIsPick(instances[..n], target, p);
    } else {
      assert instances[..p + 1] == instances;
    }
  }

  /** Of the targets below the total weight, each instance is picked by exactly as many, in a row, as its weight. */
  lemma PickIsProportional(instances: seq<Instance>, target: nat, p: nat)
    requires target < TotalWeight(instances) && p < |instances|
    ensures Pick(instances, target) == p <==> TotalWeight(instances[..p]) <= target < TotalWeight(instances[..p + 1])
    ensures TotalWeight(instances[..p + 1]) - TotalWeight(instances[..p]) == instances[p].profile.weight
  {
    assert instances[..p + 1][..p] == instances[..p];
    if TotalWeight(instances[..p]) <= target < TotalWeight(instances[..p + 1]) {
      FirstAboveIsPick(instances, target, p);
    }
    if Pick(instances, target) == p {
      PickIsInside(instances, target);
    }
  }

  /** Every draw is the hash's: the next instance is the one in whose share of the total weight the hash falls, and the
      rest is drawn in the same way. */
  lemma DrawFollowsHash(hash: (nat, nat) -> nat, remaining: seq<Instance>, placed: nat, p: nat)
    requires p < |remaining| && TotalWeight(remaining) > 0
    requires TotalWeight(remaining[..p]) <= hash(|remaining|, placed) % TotalWeight(remaining) < TotalWeight(remaining[..p + 1])
    ensures Draw(hash, remaining, placed)
         == [remaining[p]] + Draw(hash, remaining[..p] + remaining[p + 1..], placed + 1)
  {
    FirstAboveIsPick(remaining, hash(|remaining|, placed) % TotalWeight(remaining), p);
  }

  lemma {:induction false} PickIsInside(instances: seq<Instance>, target: nat)
    requires target < TotalWeight(instances)
    ensures var p := Pick(instances, target);
            TotalWeight(instances[..p]) <= target < TotalWeight(instances[..p + 1])
  {
    var n := |instances| - 1;
    if target < TotalWeight(instances[..n]) {
      PickIsInside(instances[..n], target);
      var p := Pick(instances[..n], target);
      assert instances[..n][..p] == instances[..p] && instances[..n][..p + 1] == instances[..p + 1];
    } else {
      assert instances[..n + 1] == instances;
    }
  }

  /** `weighted_shuffle_discover_instances`. */
  method WeightedShuffle(hash: (nat, nat) -> nat, instances: seq<Instance>) returns (result: seq<Instance>)
    ensures result == Shuffle(hash, instances)
  {
    if TotalWeight(instances) == 0 {
      return instances;
    }
    var remaining := instances;
    result := [];
    while remaining != []
      invariant result + Draw(hash, remaining, |result|) == Shuffle(hash, instances)
      decreases |remaining|
    {
      var currentWeight := TotalWeight(remaining);
      if currentWeight == 0 {
        result := result + remaining;
        remaining := [];
        break;
      }
      var target := hash(|remaining|, |result|) % currentWeight;
      var selected := SelectIndex(remaining, target);
      assert result + ([remaining[selected]] + Draw(hash, RemoveAt(remaining, selected), |result| + 1))
          == result + [remaining[selected]] + Draw(hash, RemoveAt(remaining, selected), |result| + 1);
      result, remaining := result + [remaining[selected]], RemoveAt(remaining, selected);
    }
  }

  method SelectIndex(remaining: seq<Instance>, target: nat) returns (selected: nat)
    requires target < TotalWeight(remaining)
    ensures selected == Pick(remaining, target)
  {
    var cumulative := 0;
    selected := 0;
    for idx := 0 to |remaining|
      invariant cumulative == TotalWeight(remaining[..idx]) <= target
      invariant idx == |remaining| ==> remaining[..idx] == remaining
    {
      assert remaining[..idx + 1][..idx] == remaining[..idx];
      cumulative := cumulative + remaining[idx].profile.weight;
      if cumulative > target {
        FirstAboveIsPick(remaining, target, idx);
        selected := idx;
        break;
      }
    }
  }

  /** `finalize_discover_instances`. */
  method FinalizeDiscoverInstances(hash: (nat, nat) -> nat, found: seq<Instance>, q: DiscoverQuery)
    returns (page: Page<Instance>)
    ensures page == Finalize(hash, found, q)
  {
    var instances := [];
    for i := 0 to |found|
      invariant instances == RetainLabelled(q, found[..i])
    {
      assert found[..i + 1][..i] == found[..i];
      if forall n :: 0 <= n < |q.labels| ==> q.labels[n].Matches(found[i].profile.metadata) {
        instances := instances + [found[i]];
      }
    }
    assert found[..|found|] == found;
    instances := SortBy(Le(q.Order()), instances);
    if q.Order().WeightedRandom? {
      instances := WeightedShuffle(hash, instances);
      var pageSize := NormalizePageSize(q.pageSize);
      if |instances| > pageSize {
        instances := instances[..pageSize];
      }
      return Page(instances, None);
    }
    page := Paginate(instances, q.pageSize, q.pageToken, IdOf);
  }

  lemma {:induction false} RetainCounts(q: DiscoverQuery, instances: seq<Instance>, x: Instance)
    ensures multiset(RetainLabelled(q, instances))[x] == if Labelled(q, x) then multiset(instances)[x] else 0
  {
    if instances != [] {
      var n := |instances| - 1;
      RetainCounts(q, instances[..n], x);
      assert instances == instances[..n] + [instances[n]];
    }
  }

  lemma RetainEnumeratesWanted(s: Store, q: DiscoverQuery, now: U64, found: seq<Instance>)
    requires Enumerates(found, Candidates(s, q, now))
    ensures Enumerates(RetainLabelled(q, found), Wanted(s, q, now))
  {
    var kept, wanted := RetainLabelled(q, found), Wanted(s, q, now);
    forall x
      ensures multiset(kept)[x] == multiset(wanted)[x]
    {
      RetainCounts(q, found, x);
      assert multiset(found)[x] == multiset(Candidates(s, q, now))[x];
      assert x in wanted <==> x in Candidates(s, q, now) && Labelled(q, x);
    }
  }

  lemma WantedIdsAreDistinct(s: Store, q: DiscoverQuery, now: U64, found: seq<Instance>)
    requires Keyed(s) && Enumerates(found, Wanted(s, q, now))
    ensures DistinctKeys(found, IdOf)
    ensures !q.Order().WeightedRandom? ==> Separates(Le(q.Order()), found)
  {
    EnumerationsHaveNoRepeats(found, Wanted(s, q, now));
    forall i | 0 <= i < |found|
      ensures found[i].key in s.instances && s.instances[found[i].key] == found[i] && IdOf(found[i]) != ""
    {
      assert found[i] in Candidates(s, q, now);
      assert !Blank(IdOf(found[i]));
    }
    forall i, j | 0 <= i < |found| && 0 <= j < |found| && IdOf(found[i]) == IdOf(found[j])
      ensures found[i] == found[j]
    {
      assert found[i] in Candidates(s, q, now) && found[j] in Candidates(s, q, now);
      assert found[i].key == found[j].key;
    }
    if !q.Order().WeightedRandom? {
      var le := Le(q.Order());
      forall i, j | 0 <= i < |found| && 0 <= j < |found| && le(found[i], found[j]) && le(found[j], found[i])
        ensures found[i] == found[j]
      {
        StringLeTotal(IdOf(found[i]), IdOf(found[j]));
      }
    }
  }

  /** The one sorted list behind every page. */
  ghost function SortedWanted(s: Store, q: DiscoverQuery, now: U64): seq<Instance> {
    SortBy(Le(q.Order()), Listing(Wanted(s, q, now)))
  }

  lemma SortedWantedIsCanonical(s: Store, q: DiscoverQuery, now: U64)
    requires Keyed(s) && !q.Order().WeightedRandom?
    ensures var sorted := SortedWanted(s, q, now);
            && Enumerates(sorted, Wanted(s, q, now)) && Sorted(Le(q.Order()), sorted) && DistinctKeys(sorted, IdOf)
  {
    var listing := Listing(Wanted(s, q, now));
    OrdersArePreorders(q.Order());
    SortBySorts(Le(q.Order()), listing);
    WantedIdsAreDistinct(s, q, now, SortedWanted(s, q, now));
  }

  /** What the orders promise of any earlier and later instance of the list. */
  lemma SortedWantedIsOrdered(s: Store, q: DiscoverQuery, now: U64, i: nat, j: nat)
    requires Keyed(s) && !q.Order().WeightedRandom? && i < j < |SortedWanted(s, q, now)|
    ensures var a, b := SortedWanted(s, q, now)[i], SortedWanted(s, q, now)[j];
            var byId := StringLe(a.key.instanceId, b.key.instanceId) && a.key.instanceId != b.key.instanceId;
            && (q.sortBy.None? || q.sortBy == Some(ByInstanceId) ==> byId)
            && (q.sortBy == Some(ByWeight) ==>
                  && a.profile.weight >= b.profile.weight
                  && (a.profile.weight == b.profile.weight ==> byId))
            && (q.sortBy == Some(ByPriority) ==>
                  && a.profile.priority <= b.profile.priority
                  && (a.profile.priority == b.profile.priority ==> a.profile.weight >= b.profile.weight)
                  && (a.profile.priority == b.profile.priority && a.profile.weight == b.profile.weight ==> byId))
  {
    SortedWantedIsCanonical(s, q, now);
    var sorted := SortedWanted(s, q, now);
    assert Le(q.Order())(sorted[i], sorted[j]) && IdOf(sorted[i]) != IdOf(sorted[j]);
  }

  /** Whatever order the map yields, a page is cut from the same sorted list. */
  lemma FinalizeIgnoresMapOrder(s: Store, q: DiscoverQuery, now: U64, hash: (nat, nat) -> nat, found: seq<Instance>)
    requires Keyed(s) && !q.Order().WeightedRandom?
    requires Enumerates(found, Candidates(s, q, now))
    ensures Finalize(hash, found, q) == Paginate(SortedWanted(s, q, now), q.pageSize, q.pageToken, IdOf)
  {
    var kept, listing := RetainLabelled(q, found), Listing(Wanted(s, q, now));
    RetainEnumeratesWanted(s, q, now, found);
    OrdersArePreorders(q.Order());
    WantedIdsAreDistinct(s, q, now, listing);
    SortIgnoresInputOrder(Le(q.Order()), listing, kept);
  }

  /** Pages fetched one after another, each from its own map order and with the previous page's token. */
  ghost predicate Walk(s: Store, q: DiscoverQuery, now: U64, hash: (nat, nat) -> nat,
                       orders: seq<seq<Instance>>, pages: seq<Page<Instance>>)
  {
    && pages != [] && |orders| == |pages|
    && (forall i {:trigger TokenAt(pages, i)} :: 0 <= i < |pages| ==>
          && Enumerates(orders[i], Candidates(s, q, now))
          && (i > 0 ==> TokenAt(pages, i).Some?)
          && pages[i] == Finalize(hash, orders[i], q.(pageToken := TokenAt(pages, i))))
  }

  lemma PageComesFromSortedList(s: Store, q: DiscoverQuery, now: U64, hash: (nat, nat) -> nat,
                                found: seq<Instance>, token: Option<string>)
    requires Keyed(s) && !q.Order().WeightedRandom? && Enumerates(found, Candidates(s, q, now))
    ensures Finalize(hash, found, q.(pageToken := token)) == Paginate(SortedWanted(s, q, now), q.pageSize, token, IdOf)
  {
    var q' := q.(pageToken := token);
    assert Candidates(s, q', now) == Candidates(s, q, now);
    assert Wanted(s, q', now) == Wanted(s, q, now);
    FinalizeIgnoresMapOrder(s, q', now, hash, found);
  }

  lemma WalkFollowsSortedList(s: Store, q: DiscoverQuery, now: U64, hash: (nat, nat) -> nat,
                              orders: seq<seq<Instance>>, pages: seq<Page<Instance>>)
    requires Keyed(s) && !q.Order().WeightedRandom? && Walk(s, q, now, hash, orders, pages)
    ensures Follows(SortedWanted(s, q, now), q.pageSize, IdOf, pages)
  {
    forall i {:trigger TokenAt(pages, i)} | 0 <= i < |pages|
      ensures (i > 0 ==> TokenAt(pages, i).Some?)
           && pages[i] == Paginate(SortedWanted(s, q, now), q.pageSize, TokenAt(pages, i), IdOf)
    {
      PageComesFromSortedList(s, q, now, hash, orders[i], TokenAt(pages, i));
    }
  }

  /** Following the tokens over an unchanged store yields every wanted instance exactly once, in the one sorted
      order, and ends: a walk with a next token is still strictly inside the list. */
  lemma WalkYieldsEverythingOnce(s: Store, q: DiscoverQuery, now: U64, hash: (nat, nat) -> nat,
                                 orders: seq<seq<Instance>>, pages: seq<Page<Instance>>)
    requires Keyed(s) && !q.Order().WeightedRandom? && Walk(s, q, now, hash, orders, pages)
    ensures var sorted := SortedWanted(s, q, now);
            var fetched := Span(|pages|, NormalizePageSize(q.pageSize));
            && Enumerates(sorted, Wanted(s, q, now)) && Sorted(Le(q.Order()), sorted)
            && (if pages[|pages| - 1].nextToken.None? then Join(pages) == sorted
                else fetched < |Wanted(s, q, now)| && Join(pages) == Take(sorted, fetched))
  {
    var sorted := SortedWanted(s, q, now);
    SortedWantedIsCanonical(s, q, now);
    assert |sorted| == |Wanted(s, q, now)| by { EnumerationsHaveNoRepeats(sorted, Wanted(s, q, now)); }
    assert Follows(sorted, q.pageSize, IdOf, pages) by { WalkFollowsSortedList(s, q, now, hash, orders, pages); }
    FollowedPagesArePrefix(sorted, q.pageSize, IdOf, pages);
  }
}

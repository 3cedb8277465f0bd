/** model/DinnerInstance.py, `DinnerInstance.__init__`: validation of the
    events, the in-place sort of the address tuples, the groups, the hosts
    of each round and the travel-time table. */
module Instance {
  import opened Common
  import opened Locations
  import opened StableSort
  import opened Groups
  import opened Travel

  /** A DinnerInstance object. Groups are named by their position in
      `groups`; `hostsByEvents` maps each main round to the positions of its
      hosts, in list order. */
  datatype DinnerInstance = DinnerInstance(
    countryCode: string,
    cityAddress: string,
    cityLocation: Location,
    events: seq<string>,
    groups: seq<Group>,
    hostsByEvents: map<int, seq<nat>>,
    afterParty: Option<Location>,
    allLocations: seq<Location>,
    travelTimes: TravelTimes)

  const FewEventsMessage: string :=
    "There must be a " + "starting and ending event and at least one main event in between."

  function NoHostMessage(event: string): string
  {
    "There must be at least one host for event " + event + "."
  }

  /** The sort key of line 47, the third entry of an address tuple. */
  function EventKey(a: GroupAddress): int
  {
    a.hostEventId
  }

  function HostEventId(g: Group): int
  {
    g.hostEventId
  }

  /** The main rounds 1..E-2, the keys of `hosts_by_events`. */
  predicate IsRound(e: int, eventCount: nat)
  {
    1 <= e <= eventCount - 2
  }

  /** The positions, below `k` and in increasing order, of the groups that
      host round `e`. */
  function Bucket(groups: seq<Group>, k: nat, e: int): (r: seq<nat>)
    requires k <= |groups|
    ensures forall m :: 0 <= m < |r| ==> r[m] < k && groups[r[m]].hostEventId == e
  {
    if k == 0 then []
    else Bucket(groups, k - 1, e) + (if groups[k - 1].hostEventId == e then [k - 1] else [])
  }

  /** A bucket lists every host of its round exactly once, in list order. */
  lemma {:induction false} BucketMeaning(groups: seq<Group>, k: nat, e: int)
    requires k <= |groups|
    ensures forall m1, m2 :: 0 <= m1 < m2 < |Bucket(groups, k, e)| ==> Bucket(groups, k, e)[m1] < Bucket(groups, k, e)[m2]
    ensures forall i :: 0 <= i < k && groups[i].hostEventId == e ==>
              exists m :: 0 <= m < |Bucket(groups, k, e)| && Bucket(groups, k, e)[m] == i
  {
    if k > 0 {
      BucketMeaning(groups, k - 1, e);
      var p := Bucket(groups, k - 1, e);
      assert Bucket(groups, k, e) == p + (if groups[k - 1].hostEventId == e then [k - 1] else []);
      forall i | 0 <= i < k && groups[i].hostEventId == e
        ensures exists m :: 0 <= m < |Bucket(groups, k, e)| && Bucket(groups, k, e)[m] == i
      {
        if i == k - 1 {
          assert Bucket(groups, k, e)[|p|] == i;
        } else {
          var m :| 0 <= m < |p| && p[m] == i;
          assert Bucket(groups, k, e)[m] == i;
        }
      }
    }
  }

  predicate InRounds(groups: seq<Group>, eventCount: nat)
  {
    forall i :: 0 <= i < |groups| ==> IsRound(groups[i].hostEventId, eventCount)
  }

  /** The buckets once the groups below k have joined them. */
  function BucketsAt(groups: seq<Group>, k: nat, eventCount: nat): (r: map<int, seq<nat>>)
    requires k <= |groups|
    ensures forall e :: e in r <==> IsRound(e, eventCount)
    ensures forall e :: e in r ==> r[e] == Bucket(groups, k, e)
  {
    map e | 1 <= e <= eventCount - 2 && IsRound(e, eventCount) :: Bucket(groups, k, e)
  }

  /** One step of the loop of lines 53–54: group i joins the bucket of its
      round. */
  lemma BucketsStep(groups: seq<Group>, i: nat, eventCount: nat)
    requires i < |groups| && IsRound(groups[i].hostEventId, eventCount)
    ensures var id := groups[i].hostEventId;
            BucketsAt(groups, i + 1, eventCount) ==
              BucketsAt(groups, i, eventCount)[id := BucketsAt(groups, i, eventCount)[id] + [i]]
  {
    var id := groups[i].hostEventId;
    var before, after := BucketsAt(groups, i, eventCount), BucketsAt(groups, i + 1, eventCount);
    var next := before[id := before[id] + [i]];
    forall e | e in next ensures after[e] == next[e] {
      assert Bucket(groups, i + 1, e) == Bucket(groups, i, e) + (if id == e then [i] else []);
    }
    assert after.Keys == next.Keys;
  }

  /** Line 52: every main round starts with an empty host list. */
  lemma EmptyBuckets(groups: seq<Group>, eventCount: nat)
    ensures (map e | 1 <= e <= eventCount - 2 && IsRound(e, eventCount) :: []) == BucketsAt(groups, 0, eventCount)
  {
  }

  /** Line 54 on a group whose round has no bucket: the first such group
      raises the KeyError. */
  lemma MissingKey(groups: seq<Group>, i: nat, eventCount: nat)
    requires i < |groups| && RoundsBelow(groups, i, eventCount) && !IsRound(groups[i].hostEventId, eventCount)
    ensures !InRounds(groups, eventCount)
    ensures exists i' :: 0 <= i' < |groups| && !IsRound(groups[i'].hostEventId, eventCount) &&
              (forall j :: 0 <= j < i' ==> IsRound(groups[j].hostEventId, eventCount)) &&
              KeyError(groups[i].hostEventId) == KeyError(groups[i'].hostEventId)
  {
    RoundsBelowMeaning(groups, i, eventCount);
  }

  /** Lines 52–54: each group joins the bucket of its round, in list order;
      a round outside 1..E-2 is a missing key. */
  method FillBuckets(groups: seq<Group>, events: seq<string>) returns (r: Result<map<int, seq<nat>>>)
    ensures r.Success? <==> InRounds(groups, |events|)
    ensures r.Failure? ==>
              exists i :: 0 <= i < |groups| && !IsRound(groups[i].hostEventId, |events|) &&
                (forall j :: 0 <= j < i ==> IsRound(groups[j].hostEventId, |events|)) &&
                r.error == KeyError(groups[i].hostEventId)
    ensures r.Success? ==> r.value == BucketsAt(groups, |groups|, |events|)
  {
    var buckets: map<int, seq<nat>> := map e | 1 <= e <= |events| - 2 && IsRound(e, |events|) :: [];
    EmptyBuckets(groups, |events|);
    var i := 0;
    while i < |groups|
      invariant i <= |groups|
      invariant buckets == BucketsAt(groups, i, |events|)
      invariant RoundsBelow(groups, i, |events|)
    {
      var id := groups[i].hostEventId;
      if id !in buckets {
        MissingKey(groups, i, |events|);
        return Failure(KeyError(id));
      }
      BucketsStep(groups, i, |events|);
      buckets := buckets[id := buckets[id] + [i]];
      i := i + 1;
    }
    RoundsBelowMeaning(groups, i, |events|);
    assert InRounds(groups, |events|);
    r := Success(buckets);
  }

  /** The groups below k all host a main round. */
  predicate RoundsBelow(groups: seq<Group>, k: nat, eventCount: nat)
    requires k <= |groups|
  {
    k == 0 || (RoundsBelow(groups, k - 1, eventCount) && IsRound(groups[k - 1].hostEventId, eventCount))
  }

  lemma {:induction false} RoundsBelowMeaning(groups: seq<Group>, k: nat, eventCount: nat)
    requires k <= |groups|
    ensures RoundsBelow(groups, k, eventCount) <==> forall j :: 0 <= j < k ==> IsRound(groups[j].hostEventId, eventCount)
  {
    if k > 0 {
      RoundsBelowMeaning(groups, k - 1, eventCount);
    }
  }

  /** Lines 52–57: the buckets, and then every round must have a host; the
      first round without one is named in the error. */
  method BucketGroups(groups: seq<Group>, events: seq<string>) returns (r: Result<map<int, seq<nat>>>)
    ensures !InRounds(groups, |events|) <==> r.Failure? && r.error.KeyError?
    ensures r.Failure? && r.error.KeyError? ==>
              exists i :: 0 <= i < |groups| && !IsRound(groups[i].hostEventId, |events|) &&
                (forall j :: 0 <= j < i ==> IsRound(groups[j].hostEventId, |events|)) &&
                r.error == KeyError(groups[i].hostEventId)
    ensures InRounds(groups, |events|) ==>
              (r.Success? <==> forall e :: IsRound(e, |events|) ==> |Bucket(groups, |groups|, e)| != 0)
    ensures r.Failure? && !r.error.KeyError? ==>
              exists e :: FirstEmptyBucket(groups, |events|, e) && 0 <= e < |events| &&
                r.error == ValueError(NoHostMessage(events[e]))
    ensures r.Success? ==>
              (forall e :: e in r.value <==> IsRound(e, |events|)) &&
              forall e :: e in r.value ==> r.value[e] == Bucket(groups, |groups|, e)
  {
    r := FillBuckets(groups, events);
    if r.Failure? {
      return;
    }
    var buckets := r.value;
    var e := 1;
    while e < |events| - 1
      invariant 1 <= e && (e <= |events| - 1 || |events| < 3)
      invariant forall e' :: 1 <= e' < e ==> |Bucket(groups, |groups|, e')| != 0
    {
      assert e in buckets;
      if |buckets[e]| == 0 {
        return Failure(ValueError(NoHostMessage(events[e])));
      }
      e := e + 1;
    }
  }

  /** The address tuple that reaches `from_dict` (line 51): the address is
      prefixed with the city address. */
  function Prefixed(cityAddress: string, a: seq<GroupAddress>): (r: seq<GroupAddress>)
    ensures |r| == |a|
    ensures forall k :: 0 <= k < |a| ==>
              r[k] == GroupAddress(a[k].name, cityAddress + ", " + a[k].address, a[k].hostEventId)
  {
    seq(|a|, k requires 0 <= k < |a| => GroupAddress(a[k].name, cityAddress + ", " + a[k].address, a[k].hostEventId))
  }

  function CityLookup(geocoder: Geocoder, countryCode: string, cityAddress: string): Result<Location>
  {
    FromAddress(geocoder, GeocodeQuery(countryCode, cityAddress, None), 0)
  }

  /** The geocoding of the (sorted) group addresses; Location objects get
      identities 1, 2, … in creation order, after the city's 0. */
  function GroupLookups(geocoder: Geocoder, countryCode: string, cityAddress: string, city: Location,
                        sorted: seq<GroupAddress>): seq<Result<Location>>
  {
    Lookups(geocoder, countryCode, city, Prefixed(cityAddress, sorted), 1)
  }

  function Coordinates(s: seq<Location>): (r: seq<Coordinates>)
    ensures |r| == |s| && forall i :: 0 <= i < |s| ==> r[i] == s[i].coordinates
  {
    seq(|s|, i requires 0 <= i < |s| => s[i].coordinates)
  }

  /** The table has an entry for every ordered pair of these Locations. */
  predicate TableCovers(table: map<Coordinates, map<Coordinates, nat>>, s: seq<Location>)
  {
    forall i, j :: 0 <= i < |s| && 0 <= j < |s| ==>
      s[i].coordinates in table && s[j].coordinates in table[s[i].coordinates]
  }

  /** The group locations followed by the party location, if any: every
      Location that `solve` looks up in the table. */
  function Visited(inst: DinnerInstance): seq<Location>
  {
    LocationsOf(inst.groups) + (if inst.afterParty.Some? then [inst.afterParty.value] else [])
  }

  /** Lines 59–61: the distinct group locations, then the party's. */
  function WithParty(groups: seq<Group>, afterParty: Option<Location>): (r: seq<Location>)
    ensures |r| == |GetLocations(groups)| + (if afterParty.Some? then 1 else 0)
  {
    GetLocations(groups) + (if afterParty.Some? then [afterParty.value] else [])
  }

  /** Line 62: the service's answer for these Locations. */
  function MatrixFor(matrixService: MatrixService, all: seq<Location>): seq<seq<nat>>
  {
    matrixService(TransportMode, RequestBody(Coordinates(all)))
  }

  /** Line 58: the after-party, geocoded with the city as focus as the
      Location object `id`; nothing is looked up without a party address. */
  function PartyLookup(geocoder: Geocoder, countryCode: string, cityAddress: string, city: Location,
                       id: nat, partyAddress: Option<string>): (r: Result<Option<Location>>)
    ensures r.Success? ==> (r.value.Some? <==> partyAddress.Some?)
    ensures r.Success? && r.value.Some? ==> r.value.value.id == id
    ensures r.Failure? ==> r.error.RuntimeError? || r.error.IndexError? || r.error.TypeError?
  {
    if partyAddress.None? then Success(None)
    else
      var query := GeocodeQuery(countryCode, cityAddress + ", " + partyAddress.value, Some(city.coordinates));
      FromAddressErrors(geocoder, query, id);
      var party := FromAddress(geocoder, query, id);
      if party.Failure? then Failure(party.error) else Success(Some(party.value))
  }

  /** What a successfully constructed instance satisfies. */
  ghost predicate Valid(inst: DinnerInstance)
  {
    && |inst.events| >= 3
    && InRounds(inst.groups, |inst.events|)
    && SortedBy(inst.groups, HostEventId)
    && (forall e :: e in inst.hostsByEvents <==> IsRound(e, |inst.events|))
    && (forall e :: e in inst.hostsByEvents ==>
          inst.hostsByEvents[e] == Bucket(inst.groups, |inst.groups|, e) && |inst.hostsByEvents[e]| != 0)
    && inst.allLocations == WithParty(inst.groups, inst.afterParty)
    && TableCovers(inst.travelTimes.table, Visited(inst))
  }

  /** Every location in the table: the listed Locations cover every group's
      coordinates and the party's. */
  lemma VisitedCovered(groups: seq<Group>, afterParty: Option<Location>, matrix: seq<seq<nat>>)
    requires var all := GetLocations(groups) + (if afterParty.Some? then [afterParty.value] else []);
             RowsFit(all, matrix, |all|)
    ensures var all := GetLocations(groups) + (if afterParty.Some? then [afterParty.value] else []);
            TableCovers(TableOf(all, matrix, |all|),
                        LocationsOf(groups) + (if afterParty.Some? then [afterParty.value] else []))
  {
    var all := GetLocations(groups) + (if afterParty.Some? then [afterParty.value] else []);
    var visited := LocationsOf(groups) + (if afterParty.Some? then [afterParty.value] else []);
    var table := TableOf(all, matrix, |all|);
    TableKeys(all, matrix);
    GetLocationsCoversGroups(groups);
    forall i | 0 <= i < |visited| ensures visited[i].coordinates in CoordsOf(all) {
      if i < |groups| {
        var k :| 0 <= k < |GetLocations(groups)| && GetLocations(groups)[k].coordinates == groups[i].location.coordinates;
        assert all[k] == GetLocations(groups)[k];
      } else {
        assert all[|all| - 1] == visited[i];
      }
    }
  }

  /** The two ValueError messages of `__init__` can be told apart. */
  lemma MessagesDiffer(event: string)
    ensures NoHostMessage(event) != FewEventsMessage
  {
    assert NoHostMessage(event)[15] == 't';
    assert FewEventsMessage[15] == ' ';
  }

  /** `from_dict` keeps the tuples' order and event ids, so the groups are
      sorted by event id as the tuples were. */
  lemma GroupsKeepOrder(cityAddress: string, sorted: seq<GroupAddress>, resolved: seq<Location>)
    requires |sorted| == |resolved| && SortedBy(sorted, EventKey)
    ensures var groups := CanonicalGroups(Prefixed(cityAddress, sorted), resolved);
            && (forall k :: 0 <= k < |sorted| ==> groups[k].hostEventId == sorted[k].hostEventId)
            && SortedBy(groups, HostEventId)
  {
    var groups := CanonicalGroups(Prefixed(cityAddress, sorted), resolved);
    CanonicalGroupsShareFirstSeen(Prefixed(cityAddress, sorted), resolved);
    forall i, j | 0 <= i < j < |groups| ensures HostEventId(groups[i]) <= HostEventId(groups[j]) {
      assert EventKey(sorted[i]) <= EventKey(sorted[j]);
    }
  }

  /** Lines 58–62: the party location, the location list and the table of
      travel times, each failing with the error its call raises. */
  method Locate(geocoder: Geocoder, matrixService: MatrixService, countryCode: string,
                cityAddress: string, city: Location, groups: seq<Group>, partyAddress: Option<string>)
    returns (r: Result<(Option<Location>, seq<Location>, TravelTimes)>)
    ensures var party := PartyLookup(geocoder, countryCode, cityAddress, city, |groups| + 1, partyAddress);
            party.Failure? ==> r == Failure(party.error)
    ensures var party := PartyLookup(geocoder, countryCode, cityAddress, city, |groups| + 1, partyAddress);
            party.Success? ==>
              var all := WithParty(groups, party.value);
              && (r.Success? <==> Fits(all, MatrixFor(matrixService, all)))
              && (r.Failure? ==> r.error == IndexError)
              && (r.Success? ==> r.value.0 == party.value && r.value.1 == all &&
                                 Measures(all, MatrixFor(matrixService, all), r.value.2))
    ensures r.Failure? ==> r.error.RuntimeError? || r.error.IndexError? || r.error.TypeError?
    ensures r.Success? ==>
              var (afterParty, allLocations, travelTimes) := r.value;
              && (afterParty.Some? <==> partyAddress.Some?)
              && TableCovers(travelTimes.table, LocationsOf(groups) + (if afterParty.Some? then [afterParty.value] else []))
  {
    var party := PartyLookup(geocoder, countryCode, cityAddress, city, |groups| + 1, partyAddress);
    if party.Failure? {
      return Failure(party.error);
    }
    var afterParty := party.value;
    var allLocations := GetLocations(groups);
    if afterParty.Some? {
      allLocations := allLocations + [afterParty.value];
    }
    assert allLocations == WithParty(groups, afterParty);
    var matrix := matrixService(TransportMode, RequestBody(Coordinates(allLocations)));
    var travelTimes := Build(allLocations, matrix);
    if travelTimes.Failure? {
      return Failure(travelTimes.error);
    }
    VisitedCovered(groups, afterParty, matrix);
    r := Success((afterParty, allLocations, travelTimes.value));
  }

  /** The pieces that `__init__` assembles make a valid instance. */
  lemma AssembledValid(inst: DinnerInstance)
    requires |inst.events| >= 3 && InRounds(inst.groups, |inst.events|)
    requires SortedBy(inst.groups, HostEventId)
    requires forall e :: e in inst.hostsByEvents <==> IsRound(e, |inst.events|)
    requires forall e :: e in inst.hostsByEvents ==> inst.hostsByEvents[e] == Bucket(inst.groups, |inst.groups|, e)
    requires forall e :: IsRound(e, |inst.events|) ==> |Bucket(inst.groups, |inst.groups|, e)| != 0
    requires inst.allLocations == WithParty(inst.groups, inst.afterParty)
    requires TableCovers(inst.travelTimes.table, Visited(inst))
    ensures Valid(inst)
  {
  }

  /** On a valid instance the rounds' host lists share the groups out: each
      group is listed in the round it hosts, each listed position is a group
      of that round, and each list is strictly increasing, so no group is
      listed twice. */
  lemma HostsCoverGroups(inst: DinnerInstance)
    requires Valid(inst)
    ensures forall i :: 0 <= i < |inst.groups| ==>
              inst.groups[i].hostEventId in inst.hostsByEvents && i in inst.hostsByEvents[inst.groups[i].hostEventId]
    ensures forall e, m :: e in inst.hostsByEvents && 0 <= m < |inst.hostsByEvents[e]| ==>
              inst.hostsByEvents[e][m] < |inst.groups| && inst.groups[inst.hostsByEvents[e][m]].hostEventId == e
    ensures forall e, m1, m2 :: e in inst.hostsByEvents && 0 <= m1 < m2 < |inst.hostsByEvents[e]| ==>
              inst.hostsByEvents[e][m1] < inst.hostsByEvents[e][m2]
  {
    forall e | e in inst.hostsByEvents {
      BucketMeaning(inst.groups, |inst.groups|, e);
    }
    forall i | 0 <= i < |inst.groups|
      ensures inst.groups[i].hostEventId in inst.hostsByEvents && i in inst.hostsByEvents[inst.groups[i].hostEventId]
    {
      var e := inst.groups[i].hostEventId;
      assert IsRound(e, |inst.events|);
      BucketMeaning(inst.groups, |inst.groups|, e);
    }
  }

  // ---- The outcome of `__init__` on the sorted tuples ----

  /** Every tuple names a main round. */
  predicate TuplesInRounds(sorted: seq<GroupAddress>, eventCount: nat)
  {
    forall k :: 0 <= k < |sorted| ==> IsRound(sorted[k].hostEventId, eventCount)
  }

  /** Some tuple names round e. */
  predicate Hosted(sorted: seq<GroupAddress>, e: int)
  {
    exists k :: 0 <= k < |sorted| && sorted[k].hostEventId == e
  }

  ghost predicate AllHosted(sorted: seq<GroupAddress>, eventCount: nat)
  {
    forall e :: IsRound(e, eventCount) ==> Hosted(sorted, e)
  }

  /** Tuple k is the first that names no main round. */
  predicate FirstOutOfRounds(sorted: seq<GroupAddress>, eventCount: nat, k: int)
  {
    && 0 <= k < |sorted| && !IsRound(sorted[k].hostEventId, eventCount)
    && forall j :: 0 <= j < k ==> IsRound(sorted[j].hostEventId, eventCount)
  }

  /** Round e is the first main round no tuple names. */
  predicate FirstUnhosted(sorted: seq<GroupAddress>, eventCount: nat, e: int)
  {
    IsRound(e, eventCount) && !Hosted(sorted, e) && forall e' :: 1 <= e' < e ==> Hosted(sorted, e')
  }

  /** `error` is the error of the first lookup that failed. */
  predicate FirstFailure(lookups: seq<Result<Location>>, error: Error)
  {
    exists i :: 0 <= i < |lookups| && lookups[i] == Failure(error) && forall j :: 0 <= j < i ==> lookups[j].Success?
  }

  /** What lines 48–62 make of the sorted tuples once the city is known and
      the event list accepted: the error of the first lookup that fails; else
      the KeyError of the first tuple outside the main rounds; else the
      ValueError of the first round no group hosts; else the party lookup's
      error; else an IndexError from an answer too small for the table; else
      the instance, with every field as `__init__` sets it. */
  ghost predicate AssembleOutcome(geocoder: Geocoder, matrixService: MatrixService, countryCode: string,
                                  cityAddress: string, city: Location, events: seq<string>,
                                  sorted: seq<GroupAddress>, partyAddress: Option<string>,
                                  r: Result<DinnerInstance>)
  {
    var lookups := GroupLookups(geocoder, countryCode, cityAddress, city, sorted);
    if !AllSucceeded(lookups) then r.Failure? && FirstFailure(lookups, r.error)
    else if !TuplesInRounds(sorted, |events|) then
      exists k :: FirstOutOfRounds(sorted, |events|, k) && 0 <= k < |sorted| &&
                  r == Failure(KeyError(sorted[k].hostEventId))
    else if !AllHosted(sorted, |events|) then
      exists e :: FirstUnhosted(sorted, |events|, e) && 0 <= e < |events| &&
                  r == Failure(ValueError(NoHostMessage(events[e])))
    else
      var groups := CanonicalGroups(Prefixed(cityAddress, sorted), Values(lookups));
      var party := PartyLookup(geocoder, countryCode, cityAddress, city, |sorted| + 1, partyAddress);
      if party.Failure? then r == Failure(party.error)
      else
        var all := WithParty(groups, party.value);
        if !Fits(all, MatrixFor(matrixService, all)) then r == Failure(IndexError)
        else
          && r.Success?
          && r.value.countryCode == countryCode && r.value.cityAddress == cityAddress
          && r.value.cityLocation == city && r.value.events == events
          && r.value.groups == groups
          && r.value.afterParty == party.value && r.value.allLocations == all
          && Measures(all, MatrixFor(matrixService, all), r.value.travelTimes)
          && Valid(r.value)
  }

  /** A bucket is empty exactly when no tuple names its round. */
  lemma BucketEmptyIff(groups: seq<Group>, sorted: seq<GroupAddress>, e: int)
    requires |groups| == |sorted| && forall k :: 0 <= k < |sorted| ==> groups[k].hostEventId == sorted[k].hostEventId
    ensures |Bucket(groups, |groups|, e)| == 0 <==> !Hosted(sorted, e)
  {
    var b := Bucket(groups, |groups|, e);
    if |b| != 0 {
      assert sorted[b[0]].hostEventId == e;
    } else {
      BucketMeaning(groups, |groups|, e);
      forall k | 0 <= k < |sorted| ensures sorted[k].hostEventId != e {
        assert groups[k].hostEventId == sorted[k].hostEventId;
      }
    }
  }

  /** The bucket checks on the groups, read on the tuples they came from. */
  lemma TuplesMatchGroups(groups: seq<Group>, sorted: seq<GroupAddress>, eventCount: nat)
    requires |groups| == |sorted| && forall k :: 0 <= k < |sorted| ==> groups[k].hostEventId == sorted[k].hostEventId
    ensures InRounds(groups, eventCount) <==> TuplesInRounds(sorted, eventCount)
    ensures forall e :: |Bucket(groups, |groups|, e)| == 0 <==> !Hosted(sorted, e)
  {
    forall e ensures |Bucket(groups, |groups|, e)| == 0 <==> !Hosted(sorted, e) {
      BucketEmptyIff(groups, sorted, e);
    }
  }

  /** Round e is the first main round whose bucket is empty. */
  predicate FirstEmptyBucket(groups: seq<Group>, eventCount: nat, e: int)
  {
    IsRound(e, eventCount) && |Bucket(groups, |groups|, e)| == 0 &&
    forall e' :: 1 <= e' < e ==> |Bucket(groups, |groups|, e')| != 0
  }

  /** A failed lookup of lines 48–51, as the outcome. */
  lemma LookupFailureOutcome(geocoder: Geocoder, matrixService: MatrixService, countryCode: string,
                             cityAddress: string, city: Location, events: seq<string>,
                             sorted: seq<GroupAddress>, partyAddress: Option<string>, error: Error)
    requires var lookups := GroupLookups(geocoder, countryCode, cityAddress, city, sorted);
             exists i :: 0 <= i < |lookups| && lookups[i] == Failure(error) &&
                         forall j :: 0 <= j < i ==> lookups[j].Success?
    ensures AssembleOutcome(geocoder, matrixService, countryCode, cityAddress, city, events, sorted, partyAddress,
                            Failure(error))
    ensures !error.KeyError? && !error.ValueError?
  {
    var lookups := GroupLookups(geocoder, countryCode, cityAddress, city, sorted);
    var i :| 0 <= i < |lookups| && lookups[i] == Failure(error) && forall j :: 0 <= j < i ==> lookups[j].Success?;
    FromAddressErrors(geocoder, GroupQuery(countryCode, city, Prefixed(cityAddress, sorted)[i]), 1 + i);
  }

  /** A failed bucket check of lines 52–57, as the outcome on the tuples. */
  lemma BucketFailureOutcome(geocoder: Geocoder, matrixService: MatrixService, countryCode: string,
                             cityAddress: string, city: Location, events: seq<string>,
                             sorted: seq<GroupAddress>, partyAddress: Option<string>,
                             groups: seq<Group>, r: Result<map<int, seq<nat>>>)
    requires AllSucceeded(GroupLookups(geocoder, countryCode, cityAddress, city, sorted))
    requires |groups| == |sorted| && forall k :: 0 <= k < |sorted| ==> groups[k].hostEventId == sorted[k].hostEventId
    requires r.Failure?
    requires !InRounds(groups, |events|) <==> r.Failure? && r.error.KeyError?
    requires r.Failure? && r.error.KeyError? ==>
              exists i :: 0 <= i < |groups| && !IsRound(groups[i].hostEventId, |events|) &&
                (forall j :: 0 <= j < i ==> IsRound(groups[j].hostEventId, |events|)) &&
                r.error == KeyError(groups[i].hostEventId)
    requires InRounds(groups, |events|) ==>
              (r.Success? <==> forall e :: IsRound(e, |events|) ==> |Bucket(groups, |groups|, e)| != 0)
    requires r.Failure? && !r.error.KeyError? ==>
              exists e :: FirstEmptyBucket(groups, |events|, e) && 0 <= e < |events| &&
                r.error == ValueError(NoHostMessage(events[e]))
    ensures AssembleOutcome(geocoder, matrixService, countryCode, cityAddress, city, events, sorted, partyAddress,
                            Failure(r.error))
    ensures r.error.KeyError? ==>
              exists k :: FirstOutOfRounds(sorted, |events|, k) && 0 <= k < |sorted| &&
                          r.error == KeyError(sorted[k].hostEventId)
    ensures r.error.ValueError? ==>
              exists e :: FirstUnhosted(sorted, |events|, e) && 0 <= e < |events| &&
                          r.error == ValueError(NoHostMessage(events[e]))
  {
    TuplesMatchGroups(groups, sorted, |events|);
    if r.error.KeyError? {
      var i :| 0 <= i < |groups| && !IsRound(groups[i].hostEventId, |events|) &&
               (forall j :: 0 <= j < i ==> IsRound(groups[j].hostEventId, |events|)) &&
               r.error == KeyError(groups[i].hostEventId);
      assert FirstOutOfRounds(sorted, |events|, i);
    } else {
      var e :| FirstEmptyBucket(groups, |events|, e) && 0 <= e < |events| &&
               r.error == ValueError(NoHostMessage(events[e]));
      assert FirstUnhosted(sorted, |events|, e);
      assert !AllHosted(sorted, |events|);
    }
  }

  /** Past the bucket checks, the outcome is that of lines 58–62. */
  lemma LocateOutcome(geocoder: Geocoder, matrixService: MatrixService, countryCode: string,
                      cityAddress: string, city: Location, events: seq<string>,
                      sorted: seq<GroupAddress>, partyAddress: Option<string>,
                      groups: seq<Group>, r: Result<DinnerInstance>)
    requires AllSucceeded(GroupLookups(geocoder, countryCode, cityAddress, city, sorted))
    requires groups == CanonicalGroups(Prefixed(cityAddress, sorted),
                                       Values(GroupLookups(geocoder, countryCode, cityAddress, city, sorted)))
    requires TuplesInRounds(sorted, |events|) && AllHosted(sorted, |events|)
    requires var party := PartyLookup(geocoder, countryCode, cityAddress, city, |groups| + 1, partyAddress);
             && (party.Failure? ==> r == Failure(party.error))
             && (party.Success? ==>
                   var all := WithParty(groups, party.value);
                   && (r.Success? <==> Fits(all, MatrixFor(matrixService, all)))
                   && (r.Failure? ==> r.error == IndexError)
                   && (r.Success? ==>
                         && r.value.countryCode == countryCode && r.value.cityAddress == cityAddress
                         && r.value.cityLocation == city && r.value.events == events
                         && r.value.groups == groups
                         && r.value.afterParty == party.value && r.value.allLocations == all
                         && Measures(all, MatrixFor(matrixService, all), r.value.travelTimes)
                         && Valid(r.value)))
    ensures AssembleOutcome(geocoder, matrixService, countryCode, cityAddress, city, events, sorted, partyAddress, r)
  {
  }

  /** Lines 48–62, once the city is known, the event list accepted and the
      tuples sorted. A KeyError or a ValueError can only come from the
      bucket checks. */
  method Assemble(geocoder: Geocoder, matrixService: MatrixService, countryCode: string,
                  cityAddress: string, city: Location, events: seq<string>, sorted: seq<GroupAddress>,
                  partyAddress: Option<string>)
    returns (r: Result<DinnerInstance>)
    requires |events| >= 3 && SortedBy(sorted, EventKey)
    ensures AssembleOutcome(geocoder, matrixService, countryCode, cityAddress, city, events, sorted, partyAddress, r)
    ensures r.Failure? && r.error.KeyError? ==>
              exists k :: FirstOutOfRounds(sorted, |events|, k) && 0 <= k < |sorted| &&
                          r.error == KeyError(sorted[k].hostEventId)
    ensures r.Failure? && r.error.ValueError? ==>
              exists e :: FirstUnhosted(sorted, |events|, e) && 0 <= e < |events| &&
                          r.error == ValueError(NoHostMessage(events[e]))
  {
    ghost var lookups := GroupLookups(geocoder, countryCode, cityAddress, city, sorted);
    var fromDict, _ := FromDict(geocoder, countryCode, city, Prefixed(cityAddress, sorted), 1);
    if fromDict.Failure? {
      LookupFailureOutcome(geocoder, matrixService, countryCode, cityAddress, city, events, sorted, partyAddress,
                           fromDict.error);
      return Failure(fromDict.error);
    }
    var groups := fromDict.value;
    GroupsKeepOrder(cityAddress, sorted, Values(lookups));
    TuplesMatchGroups(groups, sorted, |events|);
    var buckets := BucketGroups(groups, events);
    if buckets.Failure? {
      BucketFailureOutcome(geocoder, matrixService, countryCode, cityAddress, city, events, sorted, partyAddress,
                           groups, buckets);
      return Failure(buckets.error);
    }
    assert AllHosted(sorted, |events|);
    var located := Locate(geocoder, matrixService, countryCode, cityAddress, city, groups, partyAddress);
    if located.Failure? {
      r := Failure(located.error);
    } else {
      var (afterParty, allLocations, travelTimes) := located.value;
      var inst := DinnerInstance(countryCode, cityAddress, city, events, groups, buckets.value,
                                 afterParty, allLocations, travelTimes);
      AssembledValid(inst);
      r := Success(inst);
    }
    LocateOutcome(geocoder, matrixService, countryCode, cityAddress, city, events, sorted, partyAddress, groups, r);
  }

  /** `DinnerInstance.__init__`. The geocoder and the matrix service stand for
      the HTTP calls; the authentication key is not modelled. The caller's
      address list is sorted in place once the event list has been
      accepted. The ValueError of line 45 is raised exactly when the city is
      found and there are fewer than three events. */
  method NewInstance(geocoder: Geocoder, matrixService: MatrixService, countryCode: string,
                     cityAddress: string, events: seq<string>, addresses: array<GroupAddress>,
                     partyAddress: Option<string>)
    returns (r: Result<DinnerInstance>)
    modifies addresses
    ensures CityLookup(geocoder, countryCode, cityAddress).Failure? ==>
              r == Failure(CityLookup(geocoder, countryCode, cityAddress).error) && addresses[..] == old(addresses[..])
    ensures CityLookup(geocoder, countryCode, cityAddress).Success? && |events| < 3 ==>
              r == Failure(ValueError(FewEventsMessage)) && addresses[..] == old(addresses[..])
    ensures CityLookup(geocoder, countryCode, cityAddress).Success? && |events| >= 3 ==>
              && addresses[..] == SortBy(old(addresses[..]), EventKey)
              && AssembleOutcome(geocoder, matrixService, countryCode, cityAddress,
                                 CityLookup(geocoder, countryCode, cityAddress).value, events, addresses[..],
                                 partyAddress, r)
    ensures r == Failure(ValueError(FewEventsMessage)) <==>
              CityLookup(geocoder, countryCode, cityAddress).Success? && |events| < 3
    ensures r.Success? ==> Valid(r.value) && r.value.events == events
    ensures r.Failure? && r.error.KeyError? ==>
              exists k :: FirstOutOfRounds(addresses[..], |events|, k) && 0 <= k < addresses.Length &&
                          r.error == KeyError(addresses[k].hostEventId)
  {
    var city := CityLookup(geocoder, countryCode, cityAddress);
    if city.Failure? {
      FromAddressErrors(geocoder, GeocodeQuery(countryCode, cityAddress, None), 0);
      return Failure(city.error);
    }
    if |events| < 3 {
      return Failure(ValueError(FewEventsMessage));
    }
    SortInPlace(addresses, EventKey);
    SortBySorted(old(addresses[..]), EventKey);
    r := Assemble(geocoder, matrixService, countryCode, cityAddress, city.value, events, addresses[..], partyAddress);
    if r.Failure? && r.error.ValueError? {
      var e :| FirstUnhosted(addresses[..], |events|, e) && 0 <= e < |events| &&
               r.error == ValueError(NoHostMessage(events[e]));
      MessagesDiffer(events[e]);
    }
  }
}

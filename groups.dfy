/** model/Group.py: a participating group, the canonicalisation of group
    locations in `from_dict`, and `get_locations`. */
module Groups {
  import opened Common
  import opened Locations

  /** A Group object. Group defines no `__eq__`, so two groups are the same
      only if they are the same object; the model identifies a group by its
      position in the group list, never by its fields. */
  datatype Group = Group(name: string, location: Location, hostEventId: int)

  /** One input tuple (group name, address, host event id). */
  datatype GroupAddress = GroupAddress(name: string, address: string, hostEventId: int)

  /** `Group.__init__` stores its three arguments unchanged. */
  function NewGroup(name: string, location: Location, hostEventId: int): (g: Group)
    ensures g.name == name && g.location == location && g.hostEventId == hostEventId
  {
    Group(name, location, hostEventId)
  }

  /** The first Location in `s` whose coordinates are `c`. */
  function FirstWith(s: seq<Location>, c: Coordinates): (r: Location)
    requires Seen(s, c)
    ensures r.coordinates == c
    ensures exists k :: 0 <= k < |s| && s[k] == r && forall k' :: 0 <= k' < k ==> s[k'].coordinates != c
  {
    var init := s[..|s| - 1];
    if Seen(init, c) then
      var r := FirstWith(init, c);
      assert forall k :: 0 <= k < |init| ==> s[k] == init[k];
      r
    else
      s[|s| - 1]
  }

  lemma FirstWithExtend(s: seq<Location>, l: Location, c: Coordinates)
    requires Seen(s + [l], c)
    ensures Seen(s, c) ==> FirstWith(s + [l], c) == FirstWith(s, c)
    ensures !Seen(s, c) ==> FirstWith(s + [l], c) == l
  {
    assert (s + [l])[..|s|] == s;
  }

  /** The query `from_dict` sends for one address: focused on the city. */
  function GroupQuery(countryCode: string, city: Location, a: GroupAddress): GeocodeQuery
  {
    GeocodeQuery(countryCode, a.address, Some(city.coordinates))
  }

  /** What the geocoder makes of each address, in list order; the i-th
      Location object created gets identity `firstId + i`. */
  function Lookups(geocoder: Geocoder, countryCode: string, city: Location,
                   addresses: seq<GroupAddress>, firstId: nat): (r: seq<Result<Location>>)
    ensures |r| == |addresses|
    ensures forall i :: 0 <= i < |r| && r[i].Success? ==> r[i].value.id == firstId + i
  {
    seq(|addresses|, i requires 0 <= i < |addresses| =>
      FromAddress(geocoder, GroupQuery(countryCode, city, addresses[i]), firstId + i))
  }

  predicate AllSucceeded(rs: seq<Result<Location>>)
  {
    forall i :: 0 <= i < |rs| ==> rs[i].Success?
  }

  function Values(rs: seq<Result<Location>>): (r: seq<Location>)
    requires AllSucceeded(rs)
    ensures |r| == |rs| && forall i :: 0 <= i < |rs| ==> r[i] == rs[i].value
  {
    seq(|rs|, i requires 0 <= i < |rs| && AllSucceeded(rs) => rs[i].value)
  }

  /** The `locations` dict after the loop has met the Locations in `s`, in
      order: a Location is inserted only if no equal key is there yet. */
  function Registry(s: seq<Location>): map<Coordinates, Location>
  {
    if s == [] then map[]
    else
      var m := Registry(s[..|s| - 1]);
      var l := s[|s| - 1];
      if l.coordinates in m then m else m[l.coordinates := l]
  }

  /** The dict holds one key per distinct coordinate pair met, and the value
      under each is the first Location met with those coordinates. */
  lemma {:induction false} RegistryHoldsFirstSeen(s: seq<Location>)
    ensures Registry(s).Keys == CoordsOf(s)
    ensures forall c :: c in Registry(s) ==> Seen(s, c) && Registry(s)[c] == FirstWith(s, c)
  {
    if s != [] {
      var init, l := s[..|s| - 1], s[|s| - 1];
      assert s == init + [l];
      RegistryHoldsFirstSeen(init);
      assert CoordsOf(s) == CoordsOf(init) + {l.coordinates};
      forall c | c in Registry(s) ensures Seen(s, c) && Registry(s)[c] == FirstWith(s, c) {
        assert c in CoordsOf(s);
        FirstWithExtend(init, l, c);
      }
    }
  }

  /** The groups the loop has built from the tuples `a` and the Locations
      `s` that the geocoder returned for them. */
  function CanonicalGroups(a: seq<GroupAddress>, s: seq<Location>): (r: seq<Group>)
    requires |a| == |s|
    ensures |r| == |a|
  {
    if a == [] then []
    else
      var l := s[|s| - 1];
      RegistryHoldsFirstSeen(s);
      assert l.coordinates in CoordsOf(s);
      CanonicalGroups(a[..|a| - 1], s[..|s| - 1]) +
        [NewGroup(a[|a| - 1].name, Registry(s)[l.coordinates], a[|a| - 1].hostEventId)]
  }

  /** Every built group keeps its name and host event id and gets the first
      Location object with its own coordinates. */
  lemma {:induction false} CanonicalGroupsShareFirstSeen(a: seq<GroupAddress>, s: seq<Location>)
    requires |a| == |s|
    ensures forall k :: 0 <= k < |a| ==>
              && CanonicalGroups(a, s)[k].name == a[k].name
              && CanonicalGroups(a, s)[k].hostEventId == a[k].hostEventId
              && Seen(s, s[k].coordinates)
              && CanonicalGroups(a, s)[k].location == FirstWith(s, s[k].coordinates)
  {
    if a != [] {
      var init, l := s[..|s| - 1], s[|s| - 1];
      assert s == init + [l];
      var r, p := CanonicalGroups(a, s), CanonicalGroups(a[..|a| - 1], init);
      CanonicalGroupsShareFirstSeen(a[..|a| - 1], init);
      RegistryHoldsFirstSeen(s);
      assert l.coordinates in CoordsOf(s);
      assert r == p + [NewGroup(a[|a| - 1].name, Registry(s)[l.coordinates], a[|a| - 1].hostEventId)];
      forall k | 0 <= k < |a| ensures Seen(s, s[k].coordinates) {
        assert s[k].coordinates in CoordsOf(s);
      }
      forall k | 0 <= k < |a| - 1
        ensures r[k].name == a[k].name && r[k].hostEventId == a[k].hostEventId
        ensures r[k].location == FirstWith(s, s[k].coordinates)
      {
        assert r[k] == p[k] && s[k] == init[k] && a[k] == a[..|a| - 1][k];
        FirstWithExtend(init, l, s[k].coordinates);
      }
    }
  }

  /** One more tuple and its Location: one more group, and the dict gains
      the Location's coordinates unless they are there already. */
  lemma CanonicalGroupsStep(a: seq<GroupAddress>, s: seq<Location>, x: GroupAddress, l: Location)
    requires |a| == |s|
    ensures Registry(s + [l]) == if l.coordinates in Registry(s) then Registry(s) else Registry(s)[l.coordinates := l]
    ensures l.coordinates in Registry(s + [l])
    ensures CanonicalGroups(a + [x], s + [l]) ==
            CanonicalGroups(a, s) + [NewGroup(x.name, Registry(s + [l])[l.coordinates], x.hostEventId)]
  {
    assert (s + [l])[..|s|] == s;
    assert (a + [x])[..|a|] == a;
  }

  /** `Group.from_dict`: one Group per tuple, in order, with name and host
      event id copied; each location is looked up in the `locations` dict,
      keyed by coordinates (its `__hash__`/`__eq__`), so that a group gets the
      first Location object with its coordinates. The first geocoding
      failure aborts the loop. `locations` is the dict as the loop leaves it. */
  method FromDict(geocoder: Geocoder, countryCode: string, city: Location,
                  addresses: seq<GroupAddress>, firstId: nat)
    returns (r: Result<seq<Group>>, locations: map<Coordinates, Location>)
    ensures var lookups := Lookups(geocoder, countryCode, city, addresses, firstId);
            r.Success? <==> AllSucceeded(lookups)
    ensures var lookups := Lookups(geocoder, countryCode, city, addresses, firstId);
            r.Failure? ==>
              exists i :: 0 <= i < |lookups| && lookups[i] == Failure(r.error) &&
                          forall j :: 0 <= j < i ==> lookups[j].Success?
    ensures var lookups := Lookups(geocoder, countryCode, city, addresses, firstId);
            r.Success? ==>
              var resolved := Values(lookups);
              && r.value == CanonicalGroups(addresses, resolved)
              && locations == Registry(resolved)
  {
    ghost var lookups := Lookups(geocoder, countryCode, city, addresses, firstId);
    var groups: seq<Group> := [];
    locations := map[];
    ghost var resolved: seq<Location> := [];
    var i := 0;
    while i < |addresses|
      invariant 0 <= i <= |addresses|
      invariant |resolved| == i && forall k :: 0 <= k < i ==> lookups[k] == Success(resolved[k])
      invariant groups == CanonicalGroups(addresses[..i], resolved)
      invariant locations == Registry(resolved)
    {
      var location := FromAddress(geocoder, GroupQuery(countryCode, city, addresses[i]), firstId + i);
      assert location == lookups[i];
      if location.Failure? {
        return Failure(location.error), locations;
      }
      var l := location.value;
      if l.coordinates !in locations {
        locations := locations[l.coordinates := l];
      }
      assert addresses[..i + 1] == addresses[..i] + [addresses[i]];
      CanonicalGroupsStep(addresses[..i], resolved, addresses[i], l);
      resolved := resolved + [l];
      groups := groups + [NewGroup(addresses[i].name, locations[l.coordinates], addresses[i].hostEventId)];
      i := i + 1;
    }
    assert addresses[..i] == addresses;
    assert resolved == Values(lookups);
    r := Success(groups);
  }

  /** What `from_dict` promises, in terms of the Locations the geocoder
      returned: names and event ids copied, each group given the first-seen
      Location with its coordinates, and the dict holding one key per
      distinct coordinate pair. */
  lemma FromDictMeaning(addresses: seq<GroupAddress>, resolved: seq<Location>)
    requires |addresses| == |resolved|
    ensures forall k :: 0 <= k < |addresses| ==>
              && CanonicalGroups(addresses, resolved)[k].name == addresses[k].name
              && CanonicalGroups(addresses, resolved)[k].hostEventId == addresses[k].hostEventId
              && Seen(resolved, resolved[k].coordinates)
              && CanonicalGroups(addresses, resolved)[k].location == FirstWith(resolved, resolved[k].coordinates)
    ensures Registry(resolved).Keys == CoordsOf(resolved)
    ensures |Registry(resolved)| == |CoordsOf(resolved)|
  {
    CanonicalGroupsShareFirstSeen(addresses, resolved);
    RegistryHoldsFirstSeen(resolved);
  }

  predicate DistinctIds(s: seq<Location>)
  {
    forall i, j :: 0 <= i < j < |s| ==> s[i].id != s[j].id
  }

  /** Two groups built by `from_dict` share one Location object exactly when
      their addresses resolved to equal coordinates. */
  lemma SharedIffEqualCoordinates(resolved: seq<Location>, i: nat, j: nat)
    requires DistinctIds(resolved)
    requires i < |resolved| && j < |resolved|
    requires Seen(resolved, resolved[i].coordinates) && Seen(resolved, resolved[j].coordinates)
    ensures FirstWith(resolved, resolved[i].coordinates).id == FirstWith(resolved, resolved[j].coordinates).id
            <==> resolved[i].coordinates == resolved[j].coordinates
  {
    var a := FirstWith(resolved, resolved[i].coordinates);
    var b := FirstWith(resolved, resolved[j].coordinates);
    if a.id == b.id {
      var ka :| 0 <= ka < |resolved| && resolved[ka] == a;
      var kb :| 0 <= kb < |resolved| && resolved[kb] == b;
      assert ka == kb;
    }
  }

  function LocationsOf(groups: seq<Group>): (r: seq<Location>)
    ensures |r| == |groups| && forall i :: 0 <= i < |groups| ==> r[i] == groups[i].location
  {
    seq(|groups|, i requires 0 <= i < |groups| => groups[i].location)
  }

  /** No group before position `i` has the coordinates of group `i`. */
  predicate FirstOccurrence(groups: seq<Group>, i: nat)
    requires i < |groups|
  {
    forall j :: 0 <= j < i ==> groups[j].location.coordinates != groups[i].location.coordinates
  }

  /** `Group.get_locations`: the set of the groups' locations, as a list.
      A Python set keeps the first of several equal elements; the model lists
      them in first-seen order. */
  function GetLocations(groups: seq<Group>): seq<Location>
  {
    if groups == [] then []
    else
      GetLocations(groups[..|groups| - 1]) +
        (if FirstOccurrence(groups, |groups| - 1) then [groups[|groups| - 1].location] else [])
  }

  /** Every listed Location is the location of a group that is the first with
      its coordinates. */
  lemma {:induction false} GetLocationsFromFirstOccurrences(groups: seq<Group>)
    ensures forall k :: 0 <= k < |GetLocations(groups)| ==>
              exists i :: 0 <= i < |groups| && FirstOccurrence(groups, i) &&
                          GetLocations(groups)[k] == groups[i].location
  {
    if groups == [] {
      assert GetLocations(groups) == [];
    } else {
      var init := groups[..|groups| - 1];
      GetLocationsFromFirstOccurrences(init);
      var p, r := GetLocations(init), GetLocations(groups);
      var last := |groups| - 1;
      assert r == p + (if FirstOccurrence(groups, last) then [groups[last].location] else []);
      forall k | 0 <= k < |r|
        ensures exists i :: 0 <= i < |groups| && FirstOccurrence(groups, i) && r[k] == groups[i].location
      {
        if k == |p| {
          assert FirstOccurrence(groups, last) && r[k] == groups[last].location;
        } else {
          var i :| 0 <= i < |init| && FirstOccurrence(init, i) && p[k] == init[i].location;
          assert groups[i] == init[i] && r[k] == p[k];
          assert FirstOccurrence(groups, i);
        }
      }
    }
  }

  /** `get_locations` contains nothing that is not some group's location,
      and no two equal Locations (equal coordinates). */
  lemma {:induction false} GetLocationsDistinct(groups: seq<Group>)
    ensures forall k :: 0 <= k < |GetLocations(groups)| ==>
              exists i :: 0 <= i < |groups| && GetLocations(groups)[k] == groups[i].location
    ensures forall k1, k2 :: 0 <= k1 < k2 < |GetLocations(groups)| ==>
              GetLocations(groups)[k1].coordinates != GetLocations(groups)[k2].coordinates
  {
    GetLocationsFromFirstOccurrences(groups);
    if groups == [] {
      assert GetLocations(groups) == [];
    } else {
      var init := groups[..|groups| - 1];
      GetLocationsDistinct(init);
      GetLocationsFromFirstOccurrences(init);
      var p, r := GetLocations(init), GetLocations(groups);
      var last := |groups| - 1;
      assert r == p + (if FirstOccurrence(groups, last) then [groups[last].location] else []);
      forall k1, k2 | 0 <= k1 < k2 < |r| ensures r[k1].coordinates != r[k2].coordinates {
        if k2 == |p| {
          var i :| 0 <= i < |init| && FirstOccurrence(init, i) && p[k1] == init[i].location;
          assert groups[i] == init[i] && r[k1] == p[k1];
        } else {
          assert r[k1] == p[k1] && r[k2] == p[k2];
        }
      }
    }
  }

  /** `get_locations` contains a Location equal to (same coordinates as,
      see `SameIffEqualCoordinates`) every group's location. */
  lemma {:induction false} GetLocationsCoversGroups(groups: seq<Group>)
    ensures forall i :: 0 <= i < |groups| ==>
              exists k :: 0 <= k < |GetLocations(groups)| &&
                          GetLocations(groups)[k].coordinates == groups[i].location.coordinates
  {
    if groups != [] {
      var init := groups[..|groups| - 1];
      GetLocationsCoversGroups(init);
      var p, r := GetLocations(init), GetLocations(groups);
      var last := |groups| - 1;
      assert r == p + (if FirstOccurrence(groups, last) then [groups[last].location] else []);
      forall i | 0 <= i < |groups|
        ensures exists k :: 0 <= k < |r| && r[k].coordinates == groups[i].location.coordinates
      {
        if i < last {
          assert groups[i] == init[i];
          var k :| 0 <= k < |p| && p[k].coordinates == init[i].location.coordinates;
          assert r[k] == p[k];
        } else if FirstOccurrence(groups, last) {
          assert r[|p|] == groups[i].location;
        } else {
          var j :| 0 <= j < last && groups[j].location.coordinates == groups[last].location.coordinates;
          assert groups[j] == init[j];
          var k :| 0 <= k < |p| && p[k].coordinates == init[j].location.coordinates;
          assert r[k] == p[k];
        }
      }
      assert r == GetLocations(groups);
    }
  }

  lemma FirstWithAt(s: seq<Location>, i: nat)
    requires i < |s|
    requires forall j :: 0 <= j < i ==> s[j].coordinates != s[i].coordinates
    ensures Seen(s, s[i].coordinates) && FirstWith(s, s[i].coordinates) == s[i]
  {
    assert Seen(s, s[i].coordinates);
    var r := FirstWith(s, s[i].coordinates);
    var k :| 0 <= k < |s| && s[k] == r && forall k' :: 0 <= k' < k ==> s[k'].coordinates != s[i].coordinates;
    assert !(k < i) && !(i < k);
  }

  /** Each listed Location is the first group location with its coordinates:
      the element a Python set keeps. */
  lemma GetLocationsKeepsFirst(groups: seq<Group>)
    ensures forall k :: 0 <= k < |GetLocations(groups)| ==>
              Seen(LocationsOf(groups), GetLocations(groups)[k].coordinates) &&
              GetLocations(groups)[k] == FirstWith(LocationsOf(groups), GetLocations(groups)[k].coordinates)
  {
    GetLocationsFromFirstOccurrences(groups);
    var r := GetLocations(groups);
    forall k | 0 <= k < |r|
      ensures Seen(LocationsOf(groups), r[k].coordinates)
      ensures r[k] == FirstWith(LocationsOf(groups), r[k].coordinates)
    {
      var i :| 0 <= i < |groups| && FirstOccurrence(groups, i) && r[k] == groups[i].location;
      FirstWithAt(LocationsOf(groups), i);
    }
  }

  /** For groups whose locations are canonical (each is the first Location
      with its coordinates, as `from_dict` makes them), `get_locations`
      contains every group's own Location object. */
  lemma GetLocationsOfCanonical(groups: seq<Group>, i: nat)
    requires i < |groups|
    requires groups[i].location == FirstWith(LocationsOf(groups), groups[i].location.coordinates)
    ensures exists k :: 0 <= k < |GetLocations(groups)| && GetLocations(groups)[k] == groups[i].location
  {
    var r := GetLocations(groups);
    GetLocationsKeepsFirst(groups);
    GetLocationsCoversGroups(groups);
    var k :| 0 <= k < |r| && r[k].coordinates == groups[i].location.coordinates;
    assert r[k] == groups[i].location;
  }
}

/** model/TravelTimes.py: the body of the travel-time matrix request and the
    table of travel times, with its maximum, built from the service's answer. */
module Travel {
  import opened Common
  import opened Locations

  /** The metric requested (line 45 picks "duration") and the transport
      profile (line 46 picks "foot-walking"). */
  const Measurement: string := "duration"
  const TransportMode: string := "foot-walking"

  /** The JSON body of the matrix request: every coordinate as a (lon, lat)
      pair, every location as a destination, and the one metric. */
  datatype MatrixRequest = MatrixRequest(locations: seq<(Coord, Coord)>, destinations: seq<int>, metrics: seq<string>)

  /** The matrix service: given the profile and the body, the rows of the
      answer's "durations" entry, in seconds. An external collaborator. */
  type MatrixService = (string, MatrixRequest) -> seq<seq<nat>>

  function RequestBody(coords: seq<Coordinates>): (r: MatrixRequest)
    ensures |r.locations| == |coords| && |r.destinations| == |coords|
    ensures forall i :: 0 <= i < |coords| ==> r.locations[i] == (coords[i].lon, coords[i].lat)
    ensures forall i :: 0 <= i < |coords| ==> r.destinations[i] == i
    ensures r.metrics == [Measurement]
  {
    MatrixRequest(seq(|coords|, i requires 0 <= i < |coords| => (coords[i].lon, coords[i].lat)),
                  seq(|coords|, i => i),
                  [Measurement])
  }

  /** The service reads each pair as [lon, lat]: swapping it back gives the
      original coordinates, in the original order. */
  lemma RequestBodyRoundTrip(coords: seq<Coordinates>)
    ensures var body := RequestBody(coords);
            seq(|body.locations|, i requires 0 <= i < |body.locations| =>
              Coordinates(body.locations[i].1, body.locations[i].0)) == coords
  {
  }

  /** A TravelTimes object: the nested dict keyed by Locations (so by their
      coordinates), the largest travel time and a pair of Locations with it. */
  datatype TravelTimes = TravelTimes(table: map<Coordinates, map<Coordinates, nat>>,
                                     maxTravelTime: nat,
                                     maxPair: (Location, Location))

  /** The answer covers every pair of list indices. */
  predicate Fits(locations: seq<Location>, matrix: seq<seq<nat>>)
  {
    0 < |locations| <= |matrix| && forall i :: 0 <= i < |locations| ==> |locations| <= |matrix[i]|
  }

  /** The last index of the list whose Location equals one at `c`: the row
      (or column) that survives in the dict. */
  function LastIndex(s: seq<Location>, c: Coordinates): (k: nat)
    requires Seen(s, c)
    ensures k < |s| && s[k].coordinates == c
    ensures forall k' :: k < k' < |s| ==> s[k'].coordinates != c
  {
    if s[|s| - 1].coordinates == c then |s| - 1
    else
      assert Seen(s[..|s| - 1], c) by {
        var k :| 0 <= k < |s| && s[k].coordinates == c;
        assert s[..|s| - 1][k] == s[k];
      }
      LastIndex(s[..|s| - 1], c)
  }

  /** Row-major order of matrix positions. */
  predicate Before(p: nat, q: nat, i: nat, j: nat)
  {
    p < i || (p == i && q < j)
  }

  /** The inner dict after the first `m` columns of `row` have been stored. */
  function RowOf(locations: seq<Location>, row: seq<nat>, m: nat): map<Coordinates, nat>
    requires m <= |locations| && m <= |row|
  {
    if m == 0 then map[]
    else RowOf(locations, row, m - 1)[locations[m - 1].coordinates := row[m - 1]]
  }

  /** The first `k` rows are in the answer and each covers every column. */
  predicate RowsFit(locations: seq<Location>, matrix: seq<seq<nat>>, k: nat)
  {
    k <= |locations| && k <= |matrix| && forall p :: 0 <= p < k ==> |locations| <= |matrix[p]|
  }

  /** The outer dict after the first `k` rows have been stored: line 27
      installs a fresh inner dict for each row. */
  function TableOf(locations: seq<Location>, matrix: seq<seq<nat>>, k: nat): map<Coordinates, map<Coordinates, nat>>
    requires RowsFit(locations, matrix, k)
  {
    if k == 0 then map[]
    else TableOf(locations, matrix, k - 1)[locations[k - 1].coordinates := RowOf(locations, matrix[k - 1], |locations|)]
  }

  /** What appending one Location does to the coordinates seen and to the
      last index of each. */
  lemma AppendLocation(prefix: seq<Location>, last: Location)
    ensures CoordsOf(prefix + [last]) == CoordsOf(prefix) + {last.coordinates}
    ensures forall c :: Seen(prefix + [last], c) <==> Seen(prefix, c) || c == last.coordinates
    ensures LastIndex(prefix + [last], last.coordinates) == |prefix|
    ensures forall c :: c != last.coordinates && Seen(prefix, c) ==>
              LastIndex(prefix + [last], c) == LastIndex(prefix, c)
  {
    var s := prefix + [last];
    assert s[..|s| - 1] == prefix;
    forall c | Seen(prefix, c) ensures Seen(s, c) {
      var k :| 0 <= k < |prefix| && prefix[k].coordinates == c;
      assert s[k] == prefix[k];
    }
    forall c | Seen(s, c) && c != last.coordinates ensures Seen(prefix, c) {
      var k :| 0 <= k < |s| && s[k].coordinates == c;
      assert prefix[k] == s[k];
    }
    assert Seen(s, last.coordinates) by {
      assert s[|prefix|] == last;
    }
  }

  lemma {:induction false} RowOfMeaning(locations: seq<Location>, row: seq<nat>, m: nat)
    requires m <= |locations| && m <= |row|
    ensures RowOf(locations, row, m).Keys == CoordsOf(locations[..m])
    ensures forall c :: c in RowOf(locations, row, m) ==>
              Seen(locations[..m], c) && RowOf(locations, row, m)[c] == row[LastIndex(locations[..m], c)]
  {
    if m > 0 {
      RowOfMeaning(locations, row, m - 1);
      var prefix, last := locations[..m - 1], locations[m - 1];
      assert locations[..m] == prefix + [last];
      AppendLocation(prefix, last);
      var r, r' := RowOf(locations, row, m), RowOf(locations, row, m - 1);
      assert r == r'[last.coordinates := row[m - 1]];
      forall c | c in r ensures Seen(locations[..m], c) && r[c] == row[LastIndex(locations[..m], c)] {
        if c != last.coordinates {
          assert r[c] == r'[c];
        }
      }
    }
  }

  lemma {:induction false} TableOfMeaning(locations: seq<Location>, matrix: seq<seq<nat>>, k: nat)
    requires RowsFit(locations, matrix, k)
    ensures TableOf(locations, matrix, k).Keys == CoordsOf(locations[..k])
    ensures forall c :: c in TableOf(locations, matrix, k) ==>
              Seen(locations[..k], c) &&
              TableOf(locations, matrix, k)[c] == RowOf(locations, matrix[LastIndex(locations[..k], c)], |locations|)
  {
    if k > 0 {
      var n := |locations|;
      assert RowsFit(locations, matrix, k - 1);
      TableOfMeaning(locations, matrix, k - 1);
      var prefix, last := locations[..k - 1], locations[k - 1];
      assert locations[..k] == prefix + [last];
      AppendLocation(prefix, last);
      var t, t' := TableOf(locations, matrix, k), TableOf(locations, matrix, k - 1);
      assert t == t'[last.coordinates := RowOf(locations, matrix[k - 1], n)];
      forall c | c in t
        ensures Seen(locations[..k], c) && t[c] == RowOf(locations, matrix[LastIndex(locations[..k], c)], n)
      {
        if c != last.coordinates {
          assert t[c] == t'[c];
        }
      }
    }
  }

  /** One entry of the finished table: it is read from the last row and the
      last column of a Location equal to the key. */
  lemma TableAt(locations: seq<Location>, matrix: seq<seq<nat>>, i: nat, j: nat)
    requires RowsFit(locations, matrix, |locations|)
    requires i < |locations| && j < |locations|
    ensures Seen(locations, locations[i].coordinates) && Seen(locations, locations[j].coordinates)
    ensures var table := TableOf(locations, matrix, |locations|);
            locations[i].coordinates in table &&
            table[locations[i].coordinates].Keys == CoordsOf(locations) &&
            table[locations[i].coordinates][locations[j].coordinates] ==
              matrix[LastIndex(locations, locations[i].coordinates)][LastIndex(locations, locations[j].coordinates)]
  {
    var n := |locations|;
    assert locations[..n] == locations;
    TableOfMeaning(locations, matrix, n);
    var ci, cj := locations[i].coordinates, locations[j].coordinates;
    assert Seen(locations, ci) && Seen(locations, cj);
    assert ci in CoordsOf(locations);
    RowOfMeaning(locations, matrix[LastIndex(locations, ci)], n);
    assert cj in CoordsOf(locations);
  }

  /** The whole table: one row per distinct Location, one entry per distinct
      Location in each row. */
  lemma TableKeys(locations: seq<Location>, matrix: seq<seq<nat>>)
    requires RowsFit(locations, matrix, |locations|)
    ensures var table := TableOf(locations, matrix, |locations|);
            table.Keys == CoordsOf(locations) &&
            forall c :: c in table ==> table[c].Keys == CoordsOf(locations)
  {
    var n := |locations|;
    assert locations[..n] == locations;
    TableOfMeaning(locations, matrix, n);
    forall c | c in TableOf(locations, matrix, n)
      ensures TableOf(locations, matrix, n)[c].Keys == CoordsOf(locations)
    {
      RowOfMeaning(locations, matrix[LastIndex(locations, c)], n);
    }
  }

  /** What `TravelTimes.__init__` stores for `locations` and the service's
      answer `matrix`: the table of lines 25–32, and the largest entry with
      the first pair of Locations, in row-major order, that has it. */
  predicate Measures(locations: seq<Location>, matrix: seq<seq<nat>>, tt: TravelTimes)
  {
    var n := |locations|;
    && RowsFit(locations, matrix, n)
    && tt.table == TableOf(locations, matrix, n)
    && (forall i, j :: 0 <= i < n && 0 <= j < n ==> matrix[i][j] <= tt.maxTravelTime)
    && exists bi, bj :: 0 <= bi < n && 0 <= bj < n &&
         matrix[bi][bj] == tt.maxTravelTime &&
         tt.maxPair == (locations[bi], locations[bj]) &&
         forall i, j :: 0 <= i < n && 0 <= j < n && Before(i, j, bi, bj) ==> matrix[i][j] < tt.maxTravelTime
  }

  /** `TravelTimes.__init__` after the service call: `matrix` is the answer
      to `RequestBody` of the locations' coordinates. Indexing fails with an
      IndexError when the list is empty (lines 23–24) or the answer is too
      small for the loop. The maximum starts at entry [0][0] and moves on a
      strictly larger entry only, so it ends at the first such position. */
  method Build(locations: seq<Location>, matrix: seq<seq<nat>>) returns (r: Result<TravelTimes>)
    ensures r.Failure? <==> !Fits(locations, matrix)
    ensures r.Failure? ==> r.error == IndexError
    ensures r.Success? ==> Measures(locations, matrix, r.value)
  {
    if |matrix| == 0 || |matrix[0]| == 0 || |locations| == 0 {
      return Failure(IndexError);
    }
    var n := |locations|;
    var table: map<Coordinates, map<Coordinates, nat>> := map[];
    var maxTravelTime := matrix[0][0];
    var bi, bj := 0, 0;
    var i := 0;
    while i < n
      invariant i <= n && RowsFit(locations, matrix, i)
      invariant table == TableOf(locations, matrix, i)
      invariant bi < |matrix| && bj < |matrix[bi]| && bi < n && bj < n
      invariant maxTravelTime == matrix[bi][bj]
      invariant (bi == 0 && bj == 0) || Before(bi, bj, i, 0)
      invariant forall p, q :: 0 <= p < i && 0 <= q < n ==> matrix[p][q] <= maxTravelTime
      invariant forall p, q :: 0 <= p < i && 0 <= q < n && Before(p, q, bi, bj) ==> matrix[p][q] < maxTravelTime
    {
      if i >= |matrix| {
        return Failure(IndexError);
      }
      var c1 := locations[i].coordinates;
      table := table[c1 := map[]];
      var j := 0;
      while j < n
        invariant j <= n && j <= |matrix[i]|
        invariant table == TableOf(locations, matrix, i)[c1 := RowOf(locations, matrix[i], j)]
        invariant bi < |matrix| && bj < |matrix[bi]| && bi < n && bj < n
        invariant maxTravelTime == matrix[bi][bj]
        invariant (bi == 0 && bj == 0) || Before(bi, bj, i, j)
        invariant forall p, q :: 0 <= p < i && 0 <= q < n ==> matrix[p][q] <= maxTravelTime
        invariant forall q :: 0 <= q < j ==> matrix[i][q] <= maxTravelTime
        invariant forall p, q :: 0 <= p < i && 0 <= q < n && Before(p, q, bi, bj) ==> matrix[p][q] < maxTravelTime
        invariant forall q :: 0 <= q < j && Before(i, q, bi, bj) ==> matrix[i][q] < maxTravelTime
      {
        if j >= |matrix[i]| {
          return Failure(IndexError);
        }
        var entry := matrix[i][j];
        table := table[c1 := table[c1][locations[j].coordinates := entry]];
        if entry > maxTravelTime {
          maxTravelTime := entry;
          bi, bj := i, j;
        }
        j := j + 1;
      }
      i := i + 1;
    }
    r := Success(TravelTimes(table, maxTravelTime, (locations[bi], locations[bj])));
  }

  /** With pairwise-distinct Locations the table is the matrix itself. */
  lemma DistinctLocationsTable(locations: seq<Location>, matrix: seq<seq<nat>>)
    requires RowsFit(locations, matrix, |locations|)
    requires forall i, j :: 0 <= i < j < |locations| ==> locations[i].coordinates != locations[j].coordinates
    ensures forall i, j :: 0 <= i < |locations| && 0 <= j < |locations| ==>
              locations[i].coordinates in TableOf(locations, matrix, |locations|) &&
              locations[j].coordinates in TableOf(locations, matrix, |locations|)[locations[i].coordinates] &&
              TableOf(locations, matrix, |locations|)[locations[i].coordinates][locations[j].coordinates] == matrix[i][j]
  {
    forall i, j | 0 <= i < |locations| && 0 <= j < |locations|
      ensures locations[i].coordinates in TableOf(locations, matrix, |locations|) &&
              locations[j].coordinates in TableOf(locations, matrix, |locations|)[locations[i].coordinates] &&
              TableOf(locations, matrix, |locations|)[locations[i].coordinates][locations[j].coordinates] == matrix[i][j]
    {
      TableAt(locations, matrix, i, j);
      assert locations[j].coordinates in CoordsOf(locations);
      var a, b := LastIndex(locations, locations[i].coordinates), LastIndex(locations, locations[j].coordinates);
      assert !(a < i) && !(a > i) && !(b < j) && !(b > j);
    }
  }

  /** When two list entries are equal Locations, the later one's row and
      column are what the table keeps. */
  lemma LaterDuplicateWins(locations: seq<Location>, matrix: seq<seq<nat>>, i: nat, k: nat, j: nat)
    requires RowsFit(locations, matrix, |locations|)
    requires i < k < |locations| && j < |locations|
    requires locations[i].coordinates == locations[k].coordinates
    requires forall k' :: k < k' < |locations| ==> locations[k'].coordinates != locations[k].coordinates
    requires forall j' :: j < j' < |locations| ==> locations[j'].coordinates != locations[j].coordinates
    ensures var table := TableOf(locations, matrix, |locations|);
            locations[i].coordinates in table && locations[j].coordinates in table[locations[i].coordinates] &&
            table[locations[i].coordinates][locations[j].coordinates] == matrix[k][j]
  {
    TableAt(locations, matrix, i, j);
    assert locations[j].coordinates in CoordsOf(locations);
    var a := LastIndex(locations, locations[k].coordinates);
    assert !(a < k);
    var b := LastIndex(locations, locations[j].coordinates);
    assert !(b < j);
  }
}

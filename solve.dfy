/** model/DinnerInstance.py, `DinnerInstance.solve` as a whole: what it reads
    from the instance, the solver it selects (lines 186–190), and the
    decoding of the solver's values into each group's hosts (line 195). */
module Solve {
  import opened Common
  import opened Locations
  import opened StableSort
  import opened Groups
  import opened Travel
  import opened Instance
  import opened Linear
  import opened Formulation
  import opened Emit
  import opened Meaning

  /** Every travel time `solve` looks up is in the table. */
  lemma Covered(inst: DinnerInstance)
    requires Valid(inst)
    ensures forall i, j :: 0 <= i < |inst.groups| && 0 <= j < |inst.groups| ==>
              inst.groups[i].location.coordinates in inst.travelTimes.table &&
              inst.groups[j].location.coordinates in inst.travelTimes.table[inst.groups[i].location.coordinates]
    ensures inst.afterParty.Some? ==>
              forall i :: 0 <= i < |inst.groups| ==>
                inst.afterParty.value.coordinates in inst.travelTimes.table[inst.groups[i].location.coordinates]
  {
    var visited := Visited(inst);
    var n := |inst.groups|;
    assert forall i :: 0 <= i < n ==> visited[i] == inst.groups[i].location;
    if inst.afterParty.Some? {
      assert visited[n] == inst.afterParty.value;
    }
  }

  /** The travel time from group i's location to group j's. */
  function TravelTime(inst: DinnerInstance, i: nat, j: nat): nat
    requires Valid(inst) && i < |inst.groups| && j < |inst.groups|
  {
    Covered(inst);
    inst.travelTimes.table[inst.groups[i].location.coordinates][inst.groups[j].location.coordinates]
  }

  /** The travel time from group i's location to the party. */
  function PartyTime(inst: DinnerInstance, i: nat): nat
    requires Valid(inst) && inst.afterParty.Some? && i < |inst.groups|
  {
    Covered(inst);
    inst.travelTimes.table[inst.groups[i].location.coordinates][inst.afterParty.value.coordinates]
  }

  /** `hosts_by_events[e]` for the rounds e = 1..E-2, as a list. */
  function HostLists(hostsByEvents: map<int, seq<nat>>, rounds: nat): (r: seq<seq<nat>>)
    requires forall e :: 1 <= e <= rounds ==> e in hostsByEvents
    ensures |r| == rounds && forall k :: 0 <= k < rounds ==> r[k] == hostsByEvents[k + 1]
  {
    seq(rounds, k requires 0 <= k < rounds => hostsByEvents[k + 1])
  }

  function Times(inst: DinnerInstance): (r: seq<seq<nat>>)
    requires Valid(inst)
    ensures |r| == |inst.groups| && forall i :: 0 <= i < |r| ==> |r[i]| == |inst.groups|
  {
    var n := |inst.groups|;
    seq(n, i requires 0 <= i < n => seq(n, j requires 0 <= j < n => TravelTime(inst, i, j)))
  }

  function PartyTimes(inst: DinnerInstance): (r: seq<nat>)
    requires Valid(inst) && inst.afterParty.Some?
    ensures |r| == |inst.groups|
  {
    var n := |inst.groups|;
    seq(n, i requires 0 <= i < n => PartyTime(inst, i))
  }

  /** What `solve` reads from a constructed instance. */
  function SetupOf(inst: DinnerInstance): (s: Setup)
    requires Valid(inst)
    ensures Ok(s) && s.n == |inst.groups| && s.rounds == |inst.events| - 2
    ensures forall e :: 1 <= e <= s.rounds ==> Hosts(s, e) == Bucket(inst.groups, |inst.groups|, e)
    ensures s.party.Some? <==> inst.afterParty.Some?
  {
    var hosts := HostLists(inst.hostsByEvents, |inst.events| - 2);
    var s := Setup(|inst.groups|, |inst.events| - 2, hosts, Times(inst),
                   if inst.afterParty.None? then None else Some(PartyTimes(inst)));
    assert forall e :: 1 <= e <= s.rounds ==> Hosts(s, e) == hosts[e - 1];
    s
  }

  // ---- Solver selection (lines 186–190) ----

  const DefaultSolver: string := "PULP_CBC_CMD"

  /** Lines 186–190 as written: the requested solver whenever PuLP lists
      it (`listed` stands for `listSolvers()`), CBC otherwise. Line 189 tests
      the solver object's `available` method without calling it, and a
      method object is always true, so availability plays no part. */
  function SelectSolver(prioritized: Option<string>, listed: seq<string>): (r: string)
    ensures r == DefaultSolver || (prioritized == Some(r) && r in listed)
    ensures prioritized.Some? && prioritized.value in listed ==> r == prioritized.value
  {
    if prioritized.Some? && prioritized.value in listed then prioritized.value
    else DefaultSolver
  }

  /** Lines 186–190 as the docstring (lines 77–78) describes them: the
      requested solver when it is listed and `available(name)` says it can
      run, CBC otherwise. */
  function SelectSolverCorrected(prioritized: Option<string>, listed: seq<string>, available: string -> bool): (r: string)
    ensures r == DefaultSolver || (prioritized == Some(r) && r in listed && available(r))
    ensures prioritized.Some? && prioritized.value in listed && available(prioritized.value) ==> r == prioritized.value
  {
    if prioritized.Some? && prioritized.value in listed && available(prioritized.value) then prioritized.value
    else DefaultSolver
  }

  /** The two selections differ exactly when the requested solver is listed
      but cannot run (and is not CBC itself). */
  lemma SelectionsDiffer(prioritized: Option<string>, listed: seq<string>, available: string -> bool)
    ensures SelectSolver(prioritized, listed) != SelectSolverCorrected(prioritized, listed, available) <==>
            prioritized.Some? && prioritized.value in listed && !available(prioritized.value) &&
            prioritized.value != DefaultSolver
  {
  }

  /** As written, a listed solver that cannot run is handed the problem. */
  lemma UnavailableSolverSelected(name: string, listed: seq<string>, available: string -> bool)
    requires name in listed && !available(name) && name != DefaultSolver
    ensures !available(SelectSolver(Some(name), listed))
    ensures SelectSolverCorrected(Some(name), listed, available) == DefaultSolver
  {
  }

  // ---- Decoding (line 195) ----

  /** The sort key of line 195, on group positions. */
  function HostKey(groups: seq<Group>): nat -> int
  {
    (h: nat) => if h < |groups| then groups[h].hostEventId else 0
  }

  /** The positions 0..k-1, the order of `self.groups`. */
  function Range(k: nat): (r: seq<nat>)
    ensures |r| == k && forall i :: 0 <= i < k ==> r[i] == i
  {
    seq(k, i requires 0 <= i => i)
  }

  /** Line 195 for group g: the hosts whose x exceeds 0.99, sorted by
      their event. */
  function Visits(groups: seq<Group>, a: Assignment, g: nat): seq<nat>
  {
    SortBy(PickedFrom(a, g, Range(|groups|)), HostKey(groups))
  }

  /** Line 195: the hosts of every group, in group order. */
  function Decode(groups: seq<Group>, a: Assignment): (r: seq<seq<nat>>)
    ensures |r| == |groups|
  {
    seq(|groups|, g requires 0 <= g => Visits(groups, a, g))
  }

  /** The hosts picked from 0..k-1 are increasing positions, each picked. */
  lemma {:induction false} PickedRange(a: Assignment, g: nat, k: nat)
    ensures forall i, j :: 0 <= i < j < |PickedFrom(a, g, Range(k))| ==>
              PickedFrom(a, g, Range(k))[i] < PickedFrom(a, g, Range(k))[j]
    ensures forall i :: 0 <= i < |PickedFrom(a, g, Range(k))| ==>
              PickedFrom(a, g, Range(k))[i] < k && Picks(a, g, PickedFrom(a, g, Range(k))[i])
    ensures forall h :: 0 <= h < k && Picks(a, g, h) ==>
              exists i :: 0 <= i < |PickedFrom(a, g, Range(k))| && PickedFrom(a, g, Range(k))[i] == h
  {
    if k > 0 {
      assert Range(k)[..k - 1] == Range(k - 1);
      PickedRange(a, g, k - 1);
      var q := PickedFrom(a, g, Range(k - 1));
      var p := PickedFrom(a, g, Range(k));
      if Picks(a, g, k - 1) {
        assert p == q + [k - 1];
      } else {
        assert p == q;
      }
      forall h | 0 <= h < k && Picks(a, g, h) ensures exists i :: 0 <= i < |p| && p[i] == h {
        if h == k - 1 {
          assert p[|q|] == h;
        } else {
          var i :| 0 <= i < |q| && q[i] == h;
          assert p[i] == h;
        }
      }
    }
  }

  /** The picked hosts of one event are the picked hosts of its bucket. */
  lemma {:induction false} PickedOfEvent(groups: seq<Group>, a: Assignment, g: nat, k: nat, e: int)
    requires k <= |groups|
    ensures WithKey(PickedFrom(a, g, Range(k)), HostKey(groups), e) == PickedFrom(a, g, Bucket(groups, k, e))
  {
    if k > 0 {
      assert Range(k)[..k - 1] == Range(k - 1);
      PickedOfEvent(groups, a, g, k - 1, e);
      var tail: seq<nat> := if Picks(a, g, k - 1) then [k - 1] else [];
      WithKeyAppend<nat>(PickedFrom(a, g, Range(k - 1)), tail, HostKey(groups), e);
      var b := Bucket(groups, k - 1, e);
      var added := if groups[k - 1].hostEventId == e then [k - 1] else [];
      assert Bucket(groups, k, e) == b + added;
      PickedFromAppend(a, g, b, added);
      assert tail != [] ==> WithKey(tail, HostKey(groups), e) == (if HostKey(groups)(k - 1) == e then tail else []);
    }
  }

  lemma {:induction false} PickedFromAppend(a: Assignment, g: nat, hs: seq<nat>, more: seq<nat>)
    ensures PickedFrom(a, g, hs + more) == PickedFrom(a, g, hs) + PickedFrom(a, g, more)
  {
    if |more| == 0 {
      assert hs + more == hs;
    } else {
      assert (hs + more)[..|hs + more| - 1] == hs + more[..|more| - 1];
      PickedFromAppend(a, g, hs, more[..|more| - 1]);
    }
  }

  /** The picked hosts of group g, when one host of each round is picked:
      sorted by event, one per round, in round order. */
  lemma PickedShape(groups: seq<Group>, eventCount: nat, a: Assignment, g: nat)
    requires eventCount >= 3 && InRounds(groups, eventCount) && SortedBy(groups, HostEventId)
    requires forall e :: 1 <= e <= eventCount - 2 ==> |PickedFrom(a, g, Bucket(groups, |groups|, e))| == 1
    ensures var p := PickedFrom(a, g, Range(|groups|));
            && SortedBy(p, HostKey(groups))
            && |p| == eventCount - 2
            && (forall m :: 0 <= m < |p| ==> p[m] < |groups| && HostKey(groups)(p[m]) == m + 1 && Picks(a, g, p[m]))
  {
    var n, r := |groups|, eventCount - 2;
    var key := HostKey(groups);
    var p := PickedFrom(a, g, Range(n));
    PickedRange(a, g, n);
    assert SortedBy(p, key) by {
      forall i, j | 0 <= i < j < |p| ensures key(p[i]) <= key(p[j]) {
        assert HostEventId(groups[p[i]]) <= HostEventId(groups[p[j]]);
      }
    }
    forall e | 1 <= e <= r ensures |WithKey(p, key, e)| == 1 {
      PickedOfEvent(groups, a, g, n, e);
    }
    assert forall i :: 0 <= i < |p| ==> IsRound(groups[p[i]].hostEventId, eventCount);
    OnePerKey(p, key, r);
  }

  /** The picked hosts of group g, when one host of each round is picked and
      the group itself is: one per round, in round order, g in its own. */
  lemma PickedPerRound(groups: seq<Group>, eventCount: nat, a: Assignment, g: nat)
    requires eventCount >= 3 && InRounds(groups, eventCount) && SortedBy(groups, HostEventId)
    requires g < |groups| && Picks(a, g, g)
    requires forall e :: 1 <= e <= eventCount - 2 ==> |PickedFrom(a, g, Bucket(groups, |groups|, e))| == 1
    ensures var p := PickedFrom(a, g, Range(|groups|));
            && |p| == eventCount - 2
            && (forall m :: 0 <= m < |p| ==> p[m] < |groups| && groups[p[m]].hostEventId == m + 1 && Picks(a, g, p[m]))
            && p[groups[g].hostEventId - 1] == g
            && SortBy(p, HostKey(groups)) == p
  {
    var p := PickedFrom(a, g, Range(|groups|));
    PickedShape(groups, eventCount, a, g);
    KeyOrder(groups, p);
    SortBySortedIsIdentity(p, HostKey(groups));
    var i := PickedIndex(a, g, |groups|);
    OwnPlace(groups, p, g, i);
  }

  lemma KeyOrder(groups: seq<Group>, p: seq<nat>)
    requires forall m :: 0 <= m < |p| ==> p[m] < |groups| && HostKey(groups)(p[m]) == m + 1
    ensures forall m :: 0 <= m < |p| ==> groups[p[m]].hostEventId == m + 1
  {
    forall m | 0 <= m < |p| ensures groups[p[m]].hostEventId == m + 1 {
      assert HostKey(groups)(p[m]) == m + 1;
    }
  }

  /** Where a picked host sits among the picked hosts. */
  lemma PickedIndex(a: Assignment, g: nat, n: nat) returns (i: nat)
    requires g < n && Picks(a, g, g)
    ensures i < |PickedFrom(a, g, Range(n))| && PickedFrom(a, g, Range(n))[i] == g
  {
    PickedRange(a, g, n);
    i :| 0 <= i < |PickedFrom(a, g, Range(n))| && PickedFrom(a, g, Range(n))[i] == g;
  }

  /** In a list of one host per round in round order, a host sits at the
      place of the round it hosts. */
  lemma OwnPlace(groups: seq<Group>, p: seq<nat>, g: nat, i: nat)
    requires i < |p| && p[i] == g
    requires forall m :: 0 <= m < |p| ==> p[m] < |groups| && groups[p[m]].hostEventId == m + 1
    ensures 0 <= groups[g].hostEventId - 1 < |p| && p[groups[g].hostEventId - 1] == g
  {
    assert groups[p[i]].hostEventId == i + 1;
  }

  /** What a solution of the instance's problem gives line 195 to work
      with, stated on the instance. */
  lemma SolutionRounds(inst: DinnerInstance, a: Assignment, g: nat)
    requires Valid(inst) && Feasible(SetupOf(inst), a) && g < |inst.groups|
    ensures a(X(g, g)) == 1.0
    ensures forall e :: 1 <= e <= |inst.events| - 2 ==> |PickedFrom(a, g, Bucket(inst.groups, |inst.groups|, e))| == 1
    ensures forall h :: 0 <= h < |inst.groups| ==> Bit(a(X(g, h)))
  {
    var s := SetupOf(inst);
    FeasibleRounds(s, a);
    DomainsGive(s, a);
  }

  /** Line 195 for a group assigned one host per round and itself. */
  lemma DecodeOf(groups: seq<Group>, eventCount: nat, a: Assignment, g: nat)
    requires eventCount >= 3 && InRounds(groups, eventCount) && SortedBy(groups, HostEventId)
    requires g < |groups| && a(X(g, g)) == 1.0
    requires forall e :: 1 <= e <= eventCount - 2 ==> |PickedFrom(a, g, Bucket(groups, |groups|, e))| == 1
    requires forall h :: 0 <= h < |groups| ==> Bit(a(X(g, h)))
    ensures var v := Decode(groups, a)[g];
            && |v| == eventCount - 2
            && (forall m :: 0 <= m < |v| ==> v[m] < |groups| && groups[v[m]].hostEventId == m + 1)
            && (forall m :: 0 <= m < |v| ==> a(X(g, v[m])) == 1.0)
            && v[groups[g].hostEventId - 1] == g
  {
    PickedPerRound(groups, eventCount, a, g);
    var p := PickedFrom(a, g, Range(|groups|));
    var v := Decode(groups, a)[g];
    assert v == p;
    forall m | 0 <= m < |v| ensures a(X(g, v[m])) == 1.0 {
      assert Picks(a, g, p[m]) && Bit(a(X(g, p[m])));
    }
  }

  /** Line 195 on a solution: each group's list has one host per main event,
      in event order, every one of them assigned to the group, and the
      group itself in the place of the event it hosts. */
  lemma DecodeMeaning(inst: DinnerInstance, a: Assignment, g: nat)
    requires Valid(inst) && Feasible(SetupOf(inst), a) && g < |inst.groups|
    ensures var v := Decode(inst.groups, a)[g];
            && |v| == |inst.events| - 2
            && (forall m :: 0 <= m < |v| ==> v[m] < |inst.groups| && inst.groups[v[m]].hostEventId == m + 1)
            && (forall m :: 0 <= m < |v| ==> a(X(g, v[m])) == 1.0)
            && v[inst.groups[g].hostEventId - 1] == g
  {
    SolutionRounds(inst, a, g);
    DecodeOnValid(inst, a, g);
  }

  /** `DecodeOf` on a constructed instance. */
  lemma DecodeOnValid(inst: DinnerInstance, a: Assignment, g: nat)
    requires Valid(inst) && g < |inst.groups| && a(X(g, g)) == 1.0
    requires forall e :: 1 <= e <= |inst.events| - 2 ==> |PickedFrom(a, g, Bucket(inst.groups, |inst.groups|, e))| == 1
    requires forall h :: 0 <= h < |inst.groups| ==> Bit(a(X(g, h)))
    ensures var v := Decode(inst.groups, a)[g];
            && |v| == |inst.events| - 2
            && (forall m :: 0 <= m < |v| ==> v[m] < |inst.groups| && inst.groups[v[m]].hostEventId == m + 1)
            && (forall m :: 0 <= m < |v| ==> a(X(g, v[m])) == 1.0)
            && v[inst.groups[g].hostEventId - 1] == g
  {
    DecodeOf(inst.groups, |inst.events|, a, g);
  }

  // ---- The method ----

  /** `DinnerInstance.solve`. `run` stands for PuLP's solver run: the values
      the named solver reports for the problem. The status of the run is
      not looked at, as in the code. */
  method SolveInstance(inst: DinnerInstance, tooFew: int, tooMany: int, encounters: int,
                       prioritized: Option<string>, listed: seq<string>,
                       run: (Problem, string) -> Assignment)
    returns (problem: Problem, solver: string, solution: seq<seq<nat>>)
    requires Valid(inst)
    ensures forall v :: v in problem.variables <==> Declared(SetupOf(inst), v)
    ensures forall v :: v in problem.variables ==> problem.variables[v] == DomainOf(v)
    ensures problem.objective == Objective(SetupOf(inst), tooFew, tooMany, encounters)
    ensures problem.constraints == Constraints(SetupOf(inst))
    ensures solver == SelectSolver(prioritized, listed)
    ensures solution == Decode(inst.groups, run(problem, solver))
  {
    problem := BuildProblem(SetupOf(inst), tooFew, tooMany, encounters);
    solver := SelectSolver(prioritized, listed);
    solution := Decode(inst.groups, run(problem, solver));
  }
}

/** model/DinnerInstance.py, `DinnerInstance.solve` (lines 97–183) as the
    loops run: the variable dicts are filled and the rows are added to the
    problem one at a time. Each method is proved to produce exactly the
    family that Formulation defines. */
module Emit {
  import opened Common
  import opened Linear
  import opened Formulation

  /** Lines 98–101: the dict x, one binary per (group, host). */
  method DeclareX(n: nat) returns (x: map<Var, Domain>)
    ensures forall v :: v in x <==> v.X? && v.group < n && v.host < n
    ensures forall v :: v in x ==> x[v] == DomainOf(v)
  {
    x := map[];
    var g := 0;
    while g < n
      invariant g <= n
      invariant forall v :: v in x <==> v.X? && v.group < g && v.host < n
      invariant forall v :: v in x ==> x[v] == DomainOf(v)
    {
      var h := 0;
      while h < n
        invariant h <= n
        invariant forall v :: v in x <==> v.X? && ((v.group < g && v.host < n) || (v.group == g && v.host < h))
        invariant forall v :: v in x ==> x[v] == DomainOf(v)
      {
        x := x[X(g, h) := Domain(Binary, None)];
        h := h + 1;
      }
      g := g + 1;
    }
  }

  /** Lines 104–106: the dict t, one non-negative continuous variable per
      leg 0..E-2. */
  method DeclareT(rounds: nat) returns (t: map<Var, Domain>)
    ensures forall v :: v in t <==> v.T? && v.leg <= rounds
    ensures forall v :: v in t ==> t[v] == DomainOf(v)
  {
    t := map[];
    var e := 0;
    while e < rounds + 1
      invariant e <= rounds + 1
      invariant forall v :: v in t <==> v.T? && v.leg < e
      invariant forall v :: v in t ==> t[v] == DomainOf(v)
    {
      t := t[T(e) := Domain(Continuous, Some(0))];
      e := e + 1;
    }
  }

  /** Lines 109–113: the dict y, one binary per pair g1 < g2 and host. */
  method DeclareY(n: nat) returns (y: map<Var, Domain>)
    ensures forall v :: v in y <==> v.Y? && v.first < v.second < n && v.host < n
    ensures forall v :: v in y ==> y[v] == DomainOf(v)
  {
    y := map[];
    var g1 := 0;
    while g1 < PairBound(n)
      invariant g1 <= PairBound(n)
      invariant forall v :: v in y <==> v.Y? && v.first < g1 && v.first < v.second < n && v.host < n
      invariant forall v :: v in y ==> y[v] == DomainOf(v)
    {
      var g2 := g1 + 1;
      while g2 < n
        invariant g1 < g2 <= n
        invariant forall v :: v in y <==> v.Y? && v.first < v.second < n && v.host < n &&
                                          (v.first < g1 || (v.first == g1 && v.second < g2))
        invariant forall v :: v in y ==> y[v] == DomainOf(v)
      {
        var h := 0;
        while h < n
          invariant h <= n
          invariant forall v :: v in y <==> v.Y? && v.first < v.second < n && v.host < n &&
                                            (v.first < g1 || (v.first == g1 && v.second < g2) ||
                                             (v.first == g1 && v.second == g2 && v.host < h))
          invariant forall v :: v in y ==> y[v] == DomainOf(v)
        {
          y := y[Y(g1, g2, h) := Domain(Binary, None)];
          h := h + 1;
        }
        g2 := g2 + 1;
      }
      g1 := g1 + 1;
    }
  }

  /** Lines 116–123: the dict z: binaries z[1, h] and z[2, h], and an
      integer z[3, g1, g2] per pair, with no lower bound. */
  method DeclareZ(n: nat) returns (z: map<Var, Domain>)
    ensures forall v :: v in z <==> ((v.Z1? && v.host < n) || (v.Z2? && v.host < n) ||
                                    (v.Z3? && v.first < v.second < n))
    ensures forall v :: v in z ==> z[v] == DomainOf(v)
  {
    z := map[];
    var h := 0;
    while h < n
      invariant h <= n
      invariant forall v :: v in z <==> v.Z1? && v.host < h
      invariant forall v :: v in z ==> z[v] == DomainOf(v)
    {
      z := z[Z1(h) := Domain(Binary, None)];
      h := h + 1;
    }
    h := 0;
    while h < n
      invariant h <= n
      invariant forall v :: v in z <==> (v.Z1? && v.host < n) || (v.Z2? && v.host < h)
      invariant forall v :: v in z ==> z[v] == DomainOf(v)
    {
      z := z[Z2(h) := Domain(Binary, None)];
      h := h + 1;
    }
    var g1 := 0;
    while g1 < PairBound(n)
      invariant g1 <= PairBound(n)
      invariant forall v :: v in z <==> ((v.Z1? && v.host < n) || (v.Z2? && v.host < n) ||
                                      (v.Z3? && v.first < g1 && v.first < v.second < n))
      invariant forall v :: v in z ==> z[v] == DomainOf(v)
    {
      var g2 := g1 + 1;
      while g2 < n
        invariant g1 < g2 <= n
        invariant forall v :: v in z <==> ((v.Z1? && v.host < n) || (v.Z2? && v.host < n) ||
                                        (v.Z3? && v.first < v.second < n &&
                                         (v.first < g1 || (v.first == g1 && v.second < g2))))
        invariant forall v :: v in z ==> z[v] == DomainOf(v)
      {
        z := z[Z3(g1, g2) := Domain(Integer, None)];
        g2 := g2 + 1;
      }
      g1 := g1 + 1;
    }
  }

  /** All four dicts: exactly the declared variables, each with its domain. */
  method DeclareVariables(s: Setup) returns (variables: map<Var, Domain>)
    ensures forall v :: v in variables <==> Declared(s, v)
    ensures forall v :: v in variables ==> variables[v] == DomainOf(v)
  {
    var x := DeclareX(s.n);
    var t := DeclareT(s.rounds);
    var y := DeclareY(s.n);
    var z := DeclareZ(s.n);
    variables := x + t + y + z;
  }

  /** Lines 143–145 for one group and one main event e. */
  method EmitLinks(s: Setup, g: nat, e: nat) returns (cs: seq<Constraint>)
    requires Ok(s) && 1 <= e < s.rounds
    ensures cs == LinkRowsFrom(s, g, e, |Hosts(s, e)|)
  {
    var hs1, hs2 := Hosts(s, e), Hosts(s, e + 1);
    cs := [];
    var i := 0;
    while i < |hs1|
      invariant i <= |hs1|
      invariant cs == LinkRowsFrom(s, g, e, i)
    {
      ghost var before := cs;
      var j := 0;
      while j < |hs2|
        invariant j <= |hs2|
        invariant cs == before + LinkRowsTo(s, g, e, hs1[i], j)
      {
        cs := cs + [LinkRow(s, g, e, hs1[i], hs2[j])];
        j := j + 1;
      }
      i := i + 1;
    }
  }

  /** Lines 137–156 for one group. */
  method EmitTravelOf(s: Setup, g: nat) returns (cs: seq<Constraint>)
    requires Ok(s) && g < s.n
    ensures cs == TravelRowsOf(s, g)
  {
    cs := [Leg0Row(s, g)];
    var e := 1;
    while e < s.rounds
      invariant 1 <= e <= s.rounds
      invariant cs == [Leg0Row(s, g)] + LinkRows(s, g, e - 1)
    {
      var links := EmitLinks(s, g, e);
      cs := cs + links;
      e := e + 1;
    }
    cs := cs + [FinalRow(s, g)];
  }

  /** Lines 136–156: the travel-time rows of every group. */
  method EmitTravel(s: Setup) returns (cs: seq<Constraint>)
    requires Ok(s)
    ensures cs == TravelRows(s, s.n)
  {
    cs := [];
    var g := 0;
    while g < s.n
      invariant g <= s.n
      invariant cs == TravelRows(s, g)
    {
      var rows := EmitTravelOf(s, g);
      cs := cs + rows;
      g := g + 1;
    }
  }

  /** Lines 159–163. */
  method EmitRounds(s: Setup) returns (cs: seq<Constraint>)
    requires Ok(s)
    ensures cs == RoundRows(s, s.n)
  {
    cs := [];
    var g := 0;
    while g < s.n
      invariant g <= s.n
      invariant cs == RoundRows(s, g)
    {
      ghost var before := cs;
      var e := 1;
      while e < s.rounds + 1
        invariant 1 <= e <= s.rounds + 1
        invariant cs == before + RoundRowsOf(s, g, e - 1)
      {
        cs := cs + [RoundRow(s, g, e)];
        e := e + 1;
      }
      g := g + 1;
    }
  }

  /** Lines 166–167. */
  method EmitSelf(n: nat) returns (cs: seq<Constraint>)
    ensures cs == SelfRows(n)
  {
    cs := [];
    var g := 0;
    while g < n
      invariant g <= n && cs == SelfRows(g)
    {
      cs := cs + [SelfRow(g)];
      g := g + 1;
    }
  }

  /** Lines 170–171. */
  method EmitCapacity(n: nat) returns (cs: seq<Constraint>)
    ensures cs == CapacityRows(n, n)
  {
    cs := [];
    var h := 0;
    while h < n
      invariant h <= n && cs == CapacityRows(n, h)
    {
      cs := cs + [CapacityRow(n, h)];
      h := h + 1;
    }
  }

  /** Lines 175–177 for one g1: the rows for every later partner and every
      host. */
  method EmitMeetOf(n: nat, g1: nat) returns (cs: seq<Constraint>)
    ensures cs == MeetRowsOf(n, g1, n)
  {
    cs := [];
    var g2 := g1 + 1;
    while g2 < n
      invariant g1 < g2 && (g2 <= n || g2 == g1 + 1)
      invariant cs == MeetRowsOf(n, g1, g2)
    {
      ghost var before := cs;
      var h := 0;
      while h < n
        invariant h <= n
        invariant cs == before + MeetRowsAt(g1, g2, h)
      {
        cs := cs + [MeetRow(g1, g2, h)];
        h := h + 1;
      }
      g2 := g2 + 1;
    }
  }

  /** Lines 174–177. */
  method EmitMeet(n: nat) returns (cs: seq<Constraint>)
    ensures cs == MeetRows(n, PairBound(n))
  {
    cs := [];
    var g1 := 0;
    while g1 < PairBound(n)
      invariant g1 <= PairBound(n) && cs == MeetRows(n, g1)
    {
      var rows := EmitMeetOf(n, g1);
      cs := cs + rows;
      g1 := g1 + 1;
    }
  }

  /** Lines 181–183 for one g1: the inner loop over `host` adds the same
      row once per host. */
  method EmitCapsOf(n: nat, g1: nat) returns (cs: seq<Constraint>)
    ensures cs == CapRowsOf(n, g1, n)
  {
    cs := [];
    var g2 := g1 + 1;
    while g2 < n
      invariant g1 < g2 && (g2 <= n || g2 == g1 + 1)
      invariant cs == CapRowsOf(n, g1, g2)
    {
      ghost var before := cs;
      var host := 0;
      while host < n
        invariant host <= n
        invariant cs == before + CapRowsRepeated(n, g1, g2, host)
      {
        cs := cs + [CapRow(n, g1, g2)];
        host := host + 1;
      }
      g2 := g2 + 1;
    }
  }

  /** Lines 180–183. */
  method EmitCaps(n: nat) returns (cs: seq<Constraint>)
    ensures cs == CapRows(n, PairBound(n))
  {
    cs := [];
    var g1 := 0;
    while g1 < PairBound(n)
      invariant g1 <= PairBound(n) && cs == CapRows(n, g1)
    {
      var rows := EmitCapsOf(n, g1);
      cs := cs + rows;
      g1 := g1 + 1;
    }
  }

  /** Lines 97–183: the variables, the objective and all rows. */
  method BuildProblem(s: Setup, tooFew: int, tooMany: int, encounters: int) returns (p: Problem)
    requires Ok(s)
    ensures forall v :: v in p.variables <==> Declared(s, v)
    ensures forall v :: v in p.variables ==> p.variables[v] == DomainOf(v)
    ensures p.objective == Objective(s, tooFew, tooMany, encounters)
    ensures p.constraints == Constraints(s)
  {
    var variables := DeclareVariables(s);
    var travel := EmitTravel(s);
    var rounds := EmitRounds(s);
    var selfRows := EmitSelf(s.n);
    var capacity := EmitCapacity(s.n);
    var meet := EmitMeet(s.n);
    var caps := EmitCaps(s.n);
    p := Problem(variables, Objective(s, tooFew, tooMany, encounters),
                 travel + (rounds + selfRows + capacity + meet + caps));
  }
}

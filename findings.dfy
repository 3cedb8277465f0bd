/** Two places where `DinnerInstance.solve` (model/DinnerInstance.py) does
    not do what its comments say: the rows and bounds as written (in
    Formulation, used by the rest of the model) side by side with the
    corrected ones, and what each admits. */
module Findings {
  import opened Common
  import opened Linear
  import opened Formulation
  import opened Meaning

  // ---- The party leg (lines 152–156) ----

  /** Every term in `hs`'s party sum is part of it. */
  lemma {:induction false} PartySumCovers(s: Setup, hs: seq<nat>, m: nat)
    requires Ok(s) && s.party.Some? && AllBelow(hs, s.n) && m < |hs|
    ensures PartySum(s, hs) >= s.party.value[hs[m]]
    ensures forall m' :: 0 <= m' < |hs| && m' != m && s.party.value[hs[m']] > 0 ==>
              PartySum(s, hs) > s.party.value[hs[m]]
  {
    var init := hs[..|hs| - 1];
    if m < |hs| - 1 {
      PartySumCovers(s, init, m);
      forall m' | 0 <= m' < |hs| && m' != m && s.party.value[hs[m']] > 0
        ensures PartySum(s, hs) > s.party.value[hs[m]]
      {
        if m' < |hs| - 1 {
          assert init[m'] == hs[m'];
        }
      }
    } else {
      forall m' | 0 <= m' < |hs| && m' != m && s.party.value[hs[m']] > 0
        ensures PartySum(s, hs) > s.party.value[hs[m]]
      {
        PartySumCovers(s, init, m');
        assert init[m'] == hs[m'];
      }
    }
  }

  /** The corrected party leg bounds t[E - 2] by the walk from the host
      the group visits last, as the home leg does. */
  lemma FinalRowCorrectedMeaning(s: Setup, a: Assignment, g: nat, m: nat)
    requires Ok(s) && g < s.n && BitsAt(a, g, Hosts(s, s.rounds))
    requires m < |Hosts(s, s.rounds)| && a(X(g, Hosts(s, s.rounds)[m])) == 1.0
    requires forall m' :: 0 <= m' < |Hosts(s, s.rounds)| && m' != m ==> a(X(g, Hosts(s, s.rounds)[m'])) == 0.0
    ensures var h := Hosts(s, s.rounds)[m];
            Holds(a, FinalRowCorrected(s, g)) <==>
              (if s.party.None? then s.tt[h][g] else s.party.value[h]) as real <= a(T(s.rounds))
  {
    var hs := Hosts(s, s.rounds);
    if s.party.None? {
      SingleOne(a, ToHomeTerms(s, g, hs), m);
    } else {
      SingleOne(a, ToPartyTerms(s, g, hs), m);
    }
    assert SumTerms(a, Single(T(s.rounds)).terms) == a(T(s.rounds));
  }

  /** The row as written is never weaker than the corrected one. */
  lemma FinalRowStronger(s: Setup, a: Assignment, g: nat, m: nat)
    requires Ok(s) && g < s.n && s.party.Some? && BitsAt(a, g, Hosts(s, s.rounds))
    requires m < |Hosts(s, s.rounds)| && a(X(g, Hosts(s, s.rounds)[m])) == 1.0
    requires forall m' :: 0 <= m' < |Hosts(s, s.rounds)| && m' != m ==> a(X(g, Hosts(s, s.rounds)[m'])) == 0.0
    ensures Holds(a, FinalRow(s, g)) ==> Holds(a, FinalRowCorrected(s, g))
  {
    FinalRowMeaning(s, a, g, m);
    FinalRowCorrectedMeaning(s, a, g, m);
    PartySumCovers(s, Hosts(s, s.rounds), m);
  }

  /** With a second last-round host whose party walk is not zero, the row as
      written rejects the t[E - 2] that the walk the group actually makes
      needs: the leg is over-counted. */
  lemma PartyLegOvercounts(s: Setup, a: Assignment, g: nat, m: nat, other: nat)
    requires Ok(s) && g < s.n && s.party.Some? && BitsAt(a, g, Hosts(s, s.rounds))
    requires m < |Hosts(s, s.rounds)| && a(X(g, Hosts(s, s.rounds)[m])) == 1.0
    requires forall m' :: 0 <= m' < |Hosts(s, s.rounds)| && m' != m ==> a(X(g, Hosts(s, s.rounds)[m'])) == 0.0
    requires other < |Hosts(s, s.rounds)| && other != m && s.party.value[Hosts(s, s.rounds)[other]] > 0
    ensures var b := With(a, T(s.rounds), s.party.value[Hosts(s, s.rounds)[m]] as real);
            Holds(b, FinalRowCorrected(s, g)) && !Holds(b, FinalRow(s, g))
  {
    var hs := Hosts(s, s.rounds);
    var b := With(a, T(s.rounds), s.party.value[hs[m]] as real);
    assert BitsAt(b, g, hs);
    FinalRowCorrectedMeaning(s, b, g, m);
    FinalRowMeaning(s, b, g, m);
    PartySumCovers(s, hs, m);
  }

  /** One concrete setup where it happens: two groups host the only main
      round, and both live five minutes from the party. */
  lemma PartyLegExample()
    ensures var s := Setup(2, 1, [[0, 1]], [[0, 0], [0, 0]], Some([300, 300]));
            var a := With(v => if v == X(0, 0) || v == X(1, 1) then 1.0 else 0.0, T(1), 300.0);
            Ok(s) && Holds(a, FinalRowCorrected(s, 0)) && !Holds(a, FinalRow(s, 0))
  {
    var s := Setup(2, 1, [[0, 1]], [[0, 0], [0, 0]], Some([300, 300]));
    var a0: Assignment := v => if v == X(0, 0) || v == X(1, 1) then 1.0 else 0.0;
    assert Hosts(s, 1) == [0, 1];
    assert BitsAt(a0, 0, Hosts(s, 1));
    PartyLegOvercounts(s, a0, 0, 0, 1);
  }

  // ---- The lower bound of z[3, ·, ·] (line 123) ----

  /** The total coefficient of `v` in a list of terms. */
  function CoefOf(ts: seq<Term>, v: Var): int
  {
    if |ts| == 0 then 0
    else CoefOf(ts[..|ts| - 1], v) + (if ts[|ts| - 1].v == v then ts[|ts| - 1].coef else 0)
  }

  /** Changing one value moves a sum by that variable's coefficient. */
  lemma {:induction false} SumTermsWith(a: Assignment, ts: seq<Term>, v: Var, x: real)
    ensures SumTerms(With(a, v, x), ts) == SumTerms(a, ts) + (CoefOf(ts, v) as real) * (x - a(v))
  {
    if |ts| > 0 {
      var init, last := ts[..|ts| - 1], ts[|ts| - 1];
      SumTermsWith(a, init, v, x);
      if last.v == v {
        calc {
          SumTerms(With(a, v, x), ts);
          SumTerms(a, init) + (CoefOf(init, v) as real) * (x - a(v)) + (last.coef as real) * x;
          SumTerms(a, init) + (last.coef as real) * a(v) + (CoefOf(init, v) as real + last.coef as real) * (x - a(v));
        }
      }
    }
  }

  lemma {:induction false} CoefOfAppend(ts: seq<Term>, us: seq<Term>, v: Var)
    ensures CoefOf(ts + us, v) == CoefOf(ts, v) + CoefOf(us, v)
  {
    if |us| == 0 {
      assert ts + us == ts;
    } else {
      assert (ts + us)[..|ts + us| - 1] == ts + us[..|us| - 1];
      CoefOfAppend(ts, us[..|us| - 1], v);
    }
  }

  lemma {:induction false} CoefOfAbsent(ts: seq<Term>, v: Var)
    requires forall i :: 0 <= i < |ts| ==> ts[i].v != v
    ensures CoefOf(ts, v) == 0
  {
    if |ts| > 0 {
      CoefOfAbsent(ts[..|ts| - 1], v);
    }
  }

  lemma {:induction false} CoefOfOnce(ts: seq<Term>, v: Var, j: nat)
    requires j < |ts| && ts[j].v == v
    requires forall i :: 0 <= i < |ts| && i != j ==> ts[i].v != v
    ensures CoefOf(ts, v) == ts[j].coef
  {
    var init := ts[..|ts| - 1];
    if j == |ts| - 1 {
      CoefOfAbsent(init, v);
    } else {
      CoefOfOnce(init, v, j);
    }
  }

  /** z[3, g1, g2] occurs in the row of g0 once when g0 is g1, and not otherwise. */
  lemma PairRowCoef(n: nat, p: int, g0: nat, g1: nat, g2: nat)
    requires g1 < g2 < n
    ensures CoefOf(PairPenaltyRow(n, p, g0), Z3(g1, g2)) == if g1 == g0 then p else 0
  {
    var v, row := Z3(g1, g2), PairPenaltyRow(n, p, g0);
    if g1 == g0 {
      assert row[g2 - g0 - 1] == Term(p, v);
      CoefOfOnce(row, v, g2 - g0 - 1);
    } else {
      forall m | 0 <= m < |row| ensures row[m].v != v {
        assert row[m].v == Z3(g0, g0 + 1 + m);
      }
      CoefOfAbsent(row, v);
    }
  }

  /** z[3, g1, g2] occurs in the penalty sum once, with weight p. */
  lemma {:induction false} PairPenaltyCoef(n: nat, p: int, k: nat, g1: nat, g2: nat)
    requires g1 < g2 < n
    ensures CoefOf(PairPenaltyTerms(n, p, k), Z3(g1, g2)) == if g1 < k then p else 0
  {
    if k > 0 {
      var init, row := PairPenaltyTerms(n, p, k - 1), PairPenaltyRow(n, p, k - 1);
      assert PairPenaltyTerms(n, p, k) == init + row;
      PairPenaltyCoef(n, p, k - 1, g1, g2);
      CoefOfAppend(init, row, Z3(g1, g2));
      PairRowCoef(n, p, k - 1, g1, g2);
    }
  }

  /** The objective weighs z[3, g1, g2] with the encounter penalty. */
  lemma ObjectiveCoef(s: Setup, tooFew: int, tooMany: int, encounters: int, g1: nat, g2: nat)
    requires g1 < g2 < s.n
    ensures CoefOf(Objective(s, tooFew, tooMany, encounters).terms, Z3(g1, g2)) == encounters
  {
    var v := Z3(g1, g2);
    var ts := seq(s.rounds + 1, e requires 0 <= e => Term(1, T(e)));
    var few := seq(s.n, h requires 0 <= h => Term(tooFew, Z1(h)));
    var many := seq(s.n, h requires 0 <= h => Term(tooMany, Z2(h)));
    var pairs := PairPenaltyTerms(s.n, encounters, PairBound(s.n));
    CoefOfAppend(ts + few + many, pairs, v);
    CoefOfAppend(ts + few, many, v);
    CoefOfAppend(ts, few, v);
    CoefOfAbsent(ts, v);
    CoefOfAbsent(few, v);
    CoefOfAbsent(many, v);
    PairPenaltyCoef(s.n, encounters, PairBound(s.n), g1, g2);
  }

  /** A row that does not mention `v` does not see its value. */
  lemma HoldsWithout(a: Assignment, c: Constraint, v: Var, x: real)
    requires forall i :: 0 <= i < |c.lhs.terms| ==> c.lhs.terms[i].v != v
    requires forall i :: 0 <= i < |c.rhs.terms| ==> c.rhs.terms[i].v != v
    ensures Holds(With(a, v, x), c) <==> Holds(a, c)
  {
    SumTermsLocal(a, With(a, v, x), c.lhs.terms);
    SumTermsLocal(a, With(a, v, x), c.rhs.terms);
  }

  /** Setting z[3, g1, g2] leaves every travel row as it was. */
  lemma TravelWithout(s: Setup, a: Assignment, g: nat, v: Var, x: real)
    requires Ok(s) && g < s.n && v.Z3?
    ensures TravelHolds(s, With(a, v, x), g) <==> TravelHolds(s, a, g)
  {
    var b := With(a, v, x);
    HoldsWithout(a, Leg0Row(s, g), v, x);
    HoldsWithout(a, FinalRow(s, g), v, x);
    forall e, m1, m2 | 1 <= e < s.rounds && 0 <= m1 < |Hosts(s, e)| && 0 <= m2 < |NextHosts(s, e)|
      ensures Holds(b, LinkRow(s, g, e, Hosts(s, e)[m1], NextHosts(s, e)[m2])) <==>
              Holds(a, LinkRow(s, g, e, Hosts(s, e)[m1], NextHosts(s, e)[m2]))
    {
      HoldsWithout(a, LinkRow(s, g, e, Hosts(s, e)[m1], NextHosts(s, e)[m2]), v, x);
    }
  }

  /** Setting z[3, g1, g2] leaves every row except the pair's cap as it
      was. */
  lemma OthersWithout(s: Setup, a: Assignment, g1: nat, g2: nat, x: real)
    requires Ok(s)
    ensures var b := With(a, Z3(g1, g2), x);
            && (forall g, e :: 0 <= g < s.n && 1 <= e <= s.rounds ==>
                  (Holds(b, RoundRow(s, g, e)) <==> Holds(a, RoundRow(s, g, e))))
            && (forall h :: 0 <= h < s.n ==> (Holds(b, CapacityRow(s.n, h)) <==> Holds(a, CapacityRow(s.n, h))))
            && (forall f1, f2, h :: 0 <= f1 < f2 < s.n && 0 <= h < s.n ==>
                  (Holds(b, MeetRow(f1, f2, h)) <==> Holds(a, MeetRow(f1, f2, h))))
            && (forall f1, f2 :: 0 <= f1 < f2 < s.n && (f1 != g1 || f2 != g2) ==>
                  (Holds(b, CapRow(s.n, f1, f2)) <==> Holds(a, CapRow(s.n, f1, f2))))
  {
    var v := Z3(g1, g2);
    forall g, e | 0 <= g < s.n && 1 <= e <= s.rounds
      ensures Holds(With(a, v, x), RoundRow(s, g, e)) <==> Holds(a, RoundRow(s, g, e))
    {
      HoldsWithout(a, RoundRow(s, g, e), v, x);
    }
    forall h | 0 <= h < s.n
      ensures Holds(With(a, v, x), CapacityRow(s.n, h)) <==> Holds(a, CapacityRow(s.n, h))
    {
      HoldsWithout(a, CapacityRow(s.n, h), v, x);
    }
    forall f1, f2, h | 0 <= f1 < f2 < s.n && 0 <= h < s.n
      ensures Holds(With(a, v, x), MeetRow(f1, f2, h)) <==> Holds(a, MeetRow(f1, f2, h))
    {
      HoldsWithout(a, MeetRow(f1, f2, h), v, x);
    }
    forall f1, f2 | 0 <= f1 < f2 < s.n && (f1 != g1 || f2 != g2)
      ensures Holds(With(a, v, x), CapRow(s.n, f1, f2)) <==> Holds(a, CapRow(s.n, f1, f2))
    {
      HoldsWithout(a, CapRow(s.n, f1, f2), v, x);
    }
  }

  /** The value -1 for z[3, g1, g2] is within the bounds as written. */
  lemma MinusOneInDomains(s: Setup, a: Assignment, g1: nat, g2: nat)
    requires InDomains(s, a, DomainOf)
    ensures InDomains(s, With(a, Z3(g1, g2), -1.0), DomainOf)
  {
    var b := With(a, Z3(g1, g2), -1.0);
    forall w | Declared(s, w) ensures InDomain(b(w), DomainOf(w)) {
      if w == Z3(g1, g2) {
        assert (-1.0).Floor == -1;
      }
    }
  }

  /** For a pair none of whose y's is set, z[3, g1, g2] = -1 satisfies
      every row that z = 0 does. */
  lemma MinusOneSatisfies(s: Setup, a: Assignment, g1: nat, g2: nat)
    requires Ok(s) && Sat(a, Constraints(s)) && g1 < g2 < s.n
    requires forall h :: 0 <= h < s.n ==> Bit(a(Y(g1, g2, h)))
    requires Flagged(a, g1, g2, s.n) == 0
    ensures Sat(With(a, Z3(g1, g2), -1.0), Constraints(s))
  {
    var v := Z3(g1, g2);
    var b := With(a, v, -1.0);
    SatConstraints(s, a);
    SatConstraints(s, b);
    forall g | 0 <= g < s.n ensures TravelHolds(s, b, g) {
      TravelWithout(s, a, g, v, -1.0);
    }
    OthersWithout(s, a, g1, g2, -1.0);
    FlaggedLocal(a, b, g1, g2, s.n);
    CapRowMeaning(b, s.n, g1, g2);
  }

  /** As written, z[3, g1, g2] may be -1 for a pair that never meets: the
      solution stays feasible and the objective drops by the encounter
      penalty, so every pair kept apart earns a reward. The corrected bound
      excludes the value. */
  lemma NegativeEncounterPenalty(s: Setup, a: Assignment, g1: nat, g2: nat, tooFew: int, tooMany: int, encounters: int)
    requires Ok(s) && Feasible(s, a) && g1 < g2 < s.n
    requires Flagged(a, g1, g2, s.n) == 0 && a(Z3(g1, g2)) == 0.0
    ensures var b := With(a, Z3(g1, g2), -1.0);
            && Feasible(s, b)
            && Eval(b, Objective(s, tooFew, tooMany, encounters)) ==
                 Eval(a, Objective(s, tooFew, tooMany, encounters)) - encounters as real
            && !InDomain(b(Z3(g1, g2)), DomainOfCorrected(Z3(g1, g2)))
  {
    MinusOneInDomains(s, a, g1, g2);
    forall h | 0 <= h < s.n ensures Bit(a(Y(g1, g2, h))) {
      assert Declared(s, Y(g1, g2, h));
    }
    MinusOneSatisfies(s, a, g1, g2);
    ObjectiveDrops(s, a, g1, g2, tooFew, tooMany, encounters);
  }

  /** Lowering z[3, g1, g2] from 0 to -1 lowers the objective by the
      encounter penalty. */
  lemma ObjectiveDrops(s: Setup, a: Assignment, g1: nat, g2: nat, tooFew: int, tooMany: int, encounters: int)
    requires g1 < g2 < s.n && a(Z3(g1, g2)) == 0.0
    ensures Eval(With(a, Z3(g1, g2), -1.0), Objective(s, tooFew, tooMany, encounters)) ==
            Eval(a, Objective(s, tooFew, tooMany, encounters)) - encounters as real
  {
    SumTermsWith(a, Objective(s, tooFew, tooMany, encounters).terms, Z3(g1, g2), -1.0);
    ObjectiveCoef(s, tooFew, tooMany, encounters, g1, g2);
  }

  lemma {:induction false} FlaggedLocal(a: Assignment, b: Assignment, g1: nat, g2: nat, k: nat)
    requires forall h :: 0 <= h < k ==> a(Y(g1, g2, h)) == b(Y(g1, g2, h))
    ensures Flagged(a, g1, g2, k) == Flagged(b, g1, g2, k)
  {
    if k > 0 {
      FlaggedLocal(a, b, g1, g2, k - 1);
    }
  }

  /** A solution of the problem with both corrections. */
  ghost predicate FeasibleCorrected(s: Setup, a: Assignment)
    requires Ok(s)
  {
    InDomains(s, a, DomainOfCorrected) && Sat(a, ConstraintsCorrected(s))
  }

  /** The corrected bounds only narrow the declared ones. */
  lemma CorrectedDomainsNarrower(s: Setup, a: Assignment)
    requires InDomains(s, a, DomainOfCorrected)
    ensures InDomains(s, a, DomainOf)
    ensures forall g1, g2 :: 0 <= g1 < g2 < s.n ==> a(Z3(g1, g2)) >= 0.0
  {
    forall v | Declared(s, v) ensures InDomain(a(v), DomainOf(v)) {
      assert InDomain(a(v), DomainOfCorrected(v));
    }
    forall g1, g2 | 0 <= g1 < g2 < s.n ensures a(Z3(g1, g2)) >= 0.0 {
      assert Declared(s, Z3(g1, g2));
    }
  }

  /** With the bound of 0, a solution's z[3, g1, g2] is at least the
      number of extra meetings, and never negative. */
  lemma EncounterPenaltyCorrected(s: Setup, a: Assignment, g1: nat, g2: nat)
    requires Ok(s) && FeasibleCorrected(s, a) && g1 < g2 < s.n
    ensures a(Z3(g1, g2)) >= 0.0 && a(Z3(g1, g2)) >= Shared(a, g1, g2, s.n) as real - 1.0
  {
    CorrectedDomainsNarrower(s, a);
    DomainsGive(s, a);
    SatAppend(a, TravelRowsCorrected(s, s.n), OtherRows(s));
    SatOtherRows(s, a);
    EncounterCap(a, s.n, g1, g2);
  }
}

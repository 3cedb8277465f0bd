/** What the rows of `DinnerInstance.solve` (model/DinnerInstance.py,
    lines 136–183) mean when the binary variables take the values 0 and 1:
    row by row, family by family, and for the whole problem. */
module Meaning {
  import opened Common
  import opened Linear
  import opened Formulation

  predicate Bit(x: real)
  {
    x == 0.0 || x == 1.0
  }

  /** The test of line 195: the reported value of x[g, h] exceeds 0.99. */
  predicate Picks(a: Assignment, g: nat, h: nat)
  {
    a(X(g, h)) > 0.99
  }

  /** The hosts of `hs` that group g is assigned to, in the order of `hs`. */
  function PickedFrom(a: Assignment, g: nat, hs: seq<nat>): (r: seq<nat>)
    ensures |r| <= |hs|
  {
    if |hs| == 0 then []
    else PickedFrom(a, g, hs[..|hs| - 1]) + (if Picks(a, g, hs[|hs| - 1]) then [hs[|hs| - 1]] else [])
  }

  predicate BitsAt(a: Assignment, g: nat, hs: seq<nat>)
  {
    forall m :: 0 <= m < |hs| ==> Bit(a(X(g, hs[m])))
  }

  /** The number of groups below `k` assigned to host h. */
  function Guests(a: Assignment, h: nat, k: nat): nat
  {
    if k == 0 then 0 else Guests(a, h, k - 1) + (if a(X(k - 1, h)) == 1.0 then 1 else 0)
  }

  /** The number of hosts below `k` at which y[g1, g2, ·] is set. */
  function Flagged(a: Assignment, g1: nat, g2: nat, k: nat): nat
  {
    if k == 0 then 0 else Flagged(a, g1, g2, k - 1) + (if a(Y(g1, g2, k - 1)) == 1.0 then 1 else 0)
  }

  /** The number of hosts below `k` that both g1 and g2 visit. */
  function Shared(a: Assignment, g1: nat, g2: nat, k: nat): nat
  {
    if k == 0 then 0
    else Shared(a, g1, g2, k - 1) + (if a(X(g1, k - 1)) == 1.0 && a(X(g2, k - 1)) == 1.0 then 1 else 0)
  }

  /** `a` with the value of `v` replaced by `x`. */
  function With(a: Assignment, v: Var, x: real): Assignment
  {
    w => if w == v then x else a(w)
  }

  /** Every declared variable has a value of its category and bound. */
  ghost predicate InDomains(s: Setup, a: Assignment, domain: Var -> Domain)
  {
    forall v :: Declared(s, v) ==> InDomain(a(v), domain(v))
  }

  /** A solution of the rows `solve` adds. */
  ghost predicate Feasible(s: Setup, a: Assignment)
    requires Ok(s)
  {
    InDomains(s, a, DomainOf) && Sat(a, Constraints(s))
  }

  // ---- Sums of 0/1 values ----

  lemma {:induction false} VisitSum(a: Assignment, g: nat, hs: seq<nat>)
    requires BitsAt(a, g, hs)
    ensures SumTerms(a, VisitTerms(g, hs)) == |PickedFrom(a, g, hs)| as real
  {
    if |hs| > 0 {
      var init := hs[..|hs| - 1];
      assert VisitTerms(g, hs)[..|hs| - 1] == VisitTerms(g, init);
      VisitSum(a, g, init);
    }
  }

  lemma {:induction false} GuestSum(a: Assignment, n: nat, h: nat, k: nat)
    requires k <= n
    requires forall g :: 0 <= g < n ==> Bit(a(X(g, h)))
    ensures SumTerms(a, GuestTerms(n, h)[..k]) == Guests(a, h, k) as real
  {
    if k > 0 {
      assert GuestTerms(n, h)[..k][..k - 1] == GuestTerms(n, h)[..k - 1];
      GuestSum(a, n, h, k - 1);
    }
  }

  lemma {:induction false} FlaggedSum(a: Assignment, n: nat, g1: nat, g2: nat, k: nat)
    requires k <= n
    requires forall h :: 0 <= h < n ==> Bit(a(Y(g1, g2, h)))
    ensures SumTerms(a, MeetTerms(n, g1, g2)[..k]) == Flagged(a, g1, g2, k) as real
  {
    if k > 0 {
      assert MeetTerms(n, g1, g2)[..k][..k - 1] == MeetTerms(n, g1, g2)[..k - 1];
      FlaggedSum(a, n, g1, g2, k - 1);
    }
  }

  lemma {:induction false} AllZero(a: Assignment, ts: seq<Term>)
    requires forall i :: 0 <= i < |ts| ==> a(ts[i].v) == 0.0
    ensures SumTerms(a, ts) == 0.0
  {
    if |ts| > 0 {
      AllZero(a, ts[..|ts| - 1]);
    }
  }

  /** With exactly one of the variables at 1 and the rest at 0, a sum of
      terms is the coefficient of that one. */
  lemma {:induction false} SingleOne(a: Assignment, ts: seq<Term>, k: nat)
    requires k < |ts| && a(ts[k].v) == 1.0
    requires forall i :: 0 <= i < |ts| && i != k ==> a(ts[i].v) == 0.0
    ensures SumTerms(a, ts) == ts[k].coef as real
  {
    var init := ts[..|ts| - 1];
    if k == |ts| - 1 {
      AllZero(a, init);
    } else {
      SingleOne(a, init, k);
    }
  }

  /** The picked hosts are exactly the ones whose x is 1. */
  lemma {:induction false} NonePicked(a: Assignment, g: nat, hs: seq<nat>)
    requires BitsAt(a, g, hs)
    ensures |PickedFrom(a, g, hs)| == 0 <==> forall m :: 0 <= m < |hs| ==> a(X(g, hs[m])) == 0.0
  {
    if |hs| > 0 {
      NonePicked(a, g, hs[..|hs| - 1]);
    }
  }

  /** Position m of `hs` is the only one whose x is 1; the others are 0. */
  predicate OnlyOne(a: Assignment, g: nat, hs: seq<nat>, m: int)
  {
    0 <= m < |hs| && a(X(g, hs[m])) == 1.0 &&
    forall m' :: 0 <= m' < |hs| && m' != m ==> a(X(g, hs[m'])) == 0.0
  }

  /** One picked host means exactly one position of `hs` whose x is 1. */
  lemma {:induction false} ExactlyOne(a: Assignment, g: nat, hs: seq<nat>)
    requires BitsAt(a, g, hs)
    ensures |PickedFrom(a, g, hs)| == 1 <==> exists m :: OnlyOne(a, g, hs, m)
  {
    if |hs| > 0 {
      var init, last := hs[..|hs| - 1], hs[|hs| - 1];
      assert BitsAt(a, g, init) by {
        forall m | 0 <= m < |init| ensures Bit(a(X(g, init[m]))) {
          assert init[m] == hs[m];
        }
      }
      ExactlyOne(a, g, init);
      NonePicked(a, g, init);
      assert Bit(a(X(g, hs[|hs| - 1])));
      assert |PickedFrom(a, g, hs)| == |PickedFrom(a, g, init)| + (if a(X(g, last)) == 1.0 then 1 else 0);
      if |PickedFrom(a, g, hs)| == 1 {
        if a(X(g, last)) == 1.0 {
          forall m' | 0 <= m' < |hs| - 1 ensures a(X(g, hs[m'])) == 0.0 {
            assert hs[m'] == init[m'];
          }
          assert OnlyOne(a, g, hs, |hs| - 1);
        } else {
          var m :| OnlyOne(a, g, init, m);
          forall m' | 0 <= m' < |hs| - 1 ensures hs[m'] == init[m'] {
          }
          assert OnlyOne(a, g, hs, m);
        }
      }
      if m :| OnlyOne(a, g, hs, m) {
        if m == |hs| - 1 {
          forall m' | 0 <= m' < |init| ensures a(X(g, init[m'])) == 0.0 {
            assert init[m'] == hs[m'];
          }
        } else {
          assert a(X(g, hs[|hs| - 1])) == 0.0;
          forall m' | 0 <= m' < |init| ensures init[m'] == hs[m'] {
          }
          assert OnlyOne(a, g, init, m);
        }
      }
    }
  }

  // ---- Rows ----

  /** Lines 161–163: the round row holds exactly when the group is assigned
      to one host of the round. */
  lemma RoundRowMeaning(s: Setup, a: Assignment, g: nat, e: nat)
    requires Ok(s) && 1 <= e <= s.rounds && BitsAt(a, g, Hosts(s, e))
    ensures Holds(a, RoundRow(s, g, e)) <==> |PickedFrom(a, g, Hosts(s, e))| == 1
  {
    VisitSum(a, g, Hosts(s, e));
  }

  /** Line 167. */
  lemma SelfRowMeaning(a: Assignment, g: nat)
    ensures Holds(a, SelfRow(g)) <==> a(X(g, g)) == 1.0
  {
    assert SumTerms(a, Single(X(g, g)).terms) == a(X(g, g));
  }

  /** Line 171: the host's guest count is 3 - z[1, h] + z[2, h]. */
  lemma CapacityRowMeaning(a: Assignment, n: nat, h: nat)
    requires forall g :: 0 <= g < n ==> Bit(a(X(g, h)))
    ensures Holds(a, CapacityRow(n, h)) <==> Guests(a, h, n) as real == 3.0 - a(Z1(h)) + a(Z2(h))
  {
    GuestSum(a, n, h, n);
    assert GuestTerms(n, h)[..n] == GuestTerms(n, h);
    SumTwo(a, Term(-1, Z1(h)), Term(1, Z2(h)));
  }

  /** With binary z's, a satisfied capacity row puts two, three or four
      groups at the host. */
  lemma Attendance(a: Assignment, n: nat, h: nat)
    requires forall g :: 0 <= g < n ==> Bit(a(X(g, h)))
    requires Bit(a(Z1(h))) && Bit(a(Z2(h))) && Holds(a, CapacityRow(n, h))
    ensures 2 <= Guests(a, h, n) <= 4
  {
    CapacityRowMeaning(a, n, h);
  }

  lemma {:induction false} GuestsLocal(a: Assignment, b: Assignment, h: nat, k: nat)
    requires forall g :: 0 <= g < k ==> a(X(g, h)) == b(X(g, h))
    ensures Guests(a, h, k) == Guests(b, h, k)
  {
    if k > 0 {
      GuestsLocal(a, b, h, k - 1);
    }
  }

  /** Conversely, any count from two to four is allowed: some binary
      z[1, h], z[2, h] satisfy the row exactly then. */
  lemma AttendanceIff(a: Assignment, n: nat, h: nat)
    requires forall g :: 0 <= g < n ==> Bit(a(X(g, h)))
    ensures 2 <= Guests(a, h, n) <= 4 <==>
            exists z1, z2 :: Bit(z1) && Bit(z2) && Holds(With(With(a, Z1(h), z1), Z2(h), z2), CapacityRow(n, h))
  {
    var c := Guests(a, h, n);
    forall z1, z2 | Bit(z1) && Bit(z2) && Holds(With(With(a, Z1(h), z1), Z2(h), z2), CapacityRow(n, h))
      ensures 2 <= c <= 4
    {
      var b := With(With(a, Z1(h), z1), Z2(h), z2);
      GuestsLocal(a, b, h, n);
      CapacityRowMeaning(b, n, h);
    }
    if 2 <= c <= 4 {
      var z1: real := if c == 2 then 1.0 else 0.0;
      var z2: real := if c == 4 then 1.0 else 0.0;
      var b := With(With(a, Z1(h), z1), Z2(h), z2);
      assert b(Z1(h)) == z1 && b(Z2(h)) == z2;
      GuestsLocal(a, b, h, n);
      CapacityRowMeaning(b, n, h);
      assert Guests(b, h, n) == c;
      assert Bit(z1) && Bit(z2) && Holds(With(With(a, Z1(h), z1), Z2(h), z2), CapacityRow(n, h));
    }
  }

  /** Line 177: y[g1, g2, h] must be set when both groups visit h. */
  lemma MeetRowMeaning(a: Assignment, g1: nat, g2: nat, h: nat)
    requires Bit(a(X(g1, h))) && Bit(a(X(g2, h))) && Bit(a(Y(g1, g2, h)))
    ensures Holds(a, MeetRow(g1, g2, h)) <==>
            (a(X(g1, h)) == 1.0 && a(X(g2, h)) == 1.0 ==> a(Y(g1, g2, h)) == 1.0)
  {
    SumTwo(a, Term(1, X(g1, h)), Term(1, X(g2, h)));
    SumOne(a, Term(1, Y(g1, g2, h)));
  }

  /** Line 183: the set y's of a pair number at most 1 + z[3, g1, g2]. */
  lemma CapRowMeaning(a: Assignment, n: nat, g1: nat, g2: nat)
    requires forall h :: 0 <= h < n ==> Bit(a(Y(g1, g2, h)))
    ensures Holds(a, CapRow(n, g1, g2)) <==> Flagged(a, g1, g2, n) as real <= 1.0 + a(Z3(g1, g2))
  {
    FlaggedSum(a, n, g1, g2, n);
    assert MeetTerms(n, g1, g2)[..n] == MeetTerms(n, g1, g2);
    SumOne(a, Term(1, Z3(g1, g2)));
  }

  lemma {:induction false} SharedFlagged(a: Assignment, g1: nat, g2: nat, k: nat)
    requires forall h :: 0 <= h < k ==> (a(X(g1, h)) == 1.0 && a(X(g2, h)) == 1.0 ==> a(Y(g1, g2, h)) == 1.0)
    ensures Shared(a, g1, g2, k) <= Flagged(a, g1, g2, k)
  {
    if k > 0 {
      SharedFlagged(a, g1, g2, k - 1);
    }
  }

  /** Lines 177 and 183 together: two groups share at most 1 + z[3, g1, g2]
      hosts, so z[3, g1, g2] is never below -1. */
  lemma EncounterCap(a: Assignment, n: nat, g1: nat, g2: nat)
    requires forall h :: 0 <= h < n ==> Bit(a(X(g1, h))) && Bit(a(X(g2, h))) && Bit(a(Y(g1, g2, h)))
    requires forall h :: 0 <= h < n ==> Holds(a, MeetRow(g1, g2, h))
    requires Holds(a, CapRow(n, g1, g2))
    ensures Shared(a, g1, g2, n) as real <= 1.0 + a(Z3(g1, g2))
    ensures a(Z3(g1, g2)) >= -1.0
  {
    forall h | 0 <= h < n
      ensures a(X(g1, h)) == 1.0 && a(X(g2, h)) == 1.0 ==> a(Y(g1, g2, h)) == 1.0
    {
      MeetRowMeaning(a, g1, g2, h);
    }
    SharedFlagged(a, g1, g2, n);
    CapRowMeaning(a, n, g1, g2);
  }

  /** Line 145: for binary x's and a non-negative t, the product form is
      the implication "both visited, so tt ≤ t". */
  lemma LinkRowMeaning(s: Setup, a: Assignment, g: nat, e: nat, h1: nat, h2: nat)
    requires Ok(s) && h1 < s.n && h2 < s.n
    requires Bit(a(X(g, h1))) && Bit(a(X(g, h2))) && a(T(e)) >= 0.0
    ensures Holds(a, LinkRow(s, g, e, h1, h2)) <==>
            (a(X(g, h1)) == 1.0 && a(X(g, h2)) == 1.0 ==> s.tt[h1][h2] as real <= a(T(e)))
  {
    var c: int := s.tt[h1][h2];
    SumTwo(a, Term(c, X(g, h1)), Term(c, X(g, h2)));
    SumOne(a, Term(1, T(e)));
  }

  /** The one host of the round whose x is 1, when there is one. */
  lemma ChosenHost(a: Assignment, g: nat, hs: seq<nat>) returns (m: nat)
    requires BitsAt(a, g, hs) && |PickedFrom(a, g, hs)| == 1
    ensures m < |hs| && a(X(g, hs[m])) == 1.0
    ensures forall m' :: 0 <= m' < |hs| && m' != m ==> a(X(g, hs[m'])) == 0.0
  {
    ExactlyOne(a, g, hs);
    m :| OnlyOne(a, g, hs, m);
  }

  /** Lines 138–140: with one host of the first round chosen, the first leg
      bounds t[0] by the walk from home to that host. */
  lemma Leg0Meaning(s: Setup, a: Assignment, g: nat, m: nat)
    requires Ok(s) && g < s.n && BitsAt(a, g, Hosts(s, 1))
    requires m < |Hosts(s, 1)| && a(X(g, Hosts(s, 1)[m])) == 1.0
    requires forall m' :: 0 <= m' < |Hosts(s, 1)| && m' != m ==> a(X(g, Hosts(s, 1)[m'])) == 0.0
    ensures Holds(a, Leg0Row(s, g)) <==> s.tt[g][Hosts(s, 1)[m]] as real <= a(T(0))
  {
    SingleOne(a, FromHomeTerms(s, g, Hosts(s, 1)), m);
    assert SumTerms(a, Single(T(0)).terms) == a(T(0));
  }

  /** Lines 147–156: the last leg bounds t[E - 2] by the walk from the
      chosen last host home, or, with a party, by the sum of every
      last-round host's walk to the party, whichever host the group visits. */
  lemma FinalRowMeaning(s: Setup, a: Assignment, g: nat, m: nat)
    requires Ok(s) && g < s.n && BitsAt(a, g, Hosts(s, s.rounds))
    requires m < |Hosts(s, s.rounds)| && a(X(g, Hosts(s, s.rounds)[m])) == 1.0
    requires forall m' :: 0 <= m' < |Hosts(s, s.rounds)| && m' != m ==> a(X(g, Hosts(s, s.rounds)[m'])) == 0.0
    ensures var hs := Hosts(s, s.rounds);
            Holds(a, FinalRow(s, g)) <==>
              (if s.party.None? then s.tt[hs[m]][g] else PartySum(s, hs)) as real <= a(T(s.rounds))
  {
    var hs := Hosts(s, s.rounds);
    if s.party.None? {
      SingleOne(a, ToHomeTerms(s, g, hs), m);
    }
    assert SumTerms(a, Single(T(s.rounds)).terms) == a(T(s.rounds));
  }

  // ---- Families ----

  lemma SatOne(a: Assignment, cs: seq<Constraint>, c: Constraint)
    ensures Sat(a, cs + [c]) <==> Sat(a, cs) && Holds(a, c)
  {
    SatAppend(a, cs, [c]);
    assert [c][0] == c;
  }

  lemma {:induction false} SatSelfRows(a: Assignment, k: nat)
    ensures Sat(a, SelfRows(k)) <==> forall g :: 0 <= g < k ==> a(X(g, g)) == 1.0
  {
    if k > 0 {
      SatSelfRows(a, k - 1);
      SatOne(a, SelfRows(k - 1), SelfRow(k - 1));
      SelfRowMeaning(a, k - 1);
    }
  }

  lemma {:induction false} SatRoundRowsOf(s: Setup, a: Assignment, g: nat, k: nat)
    requires Ok(s) && k <= s.rounds
    ensures Sat(a, RoundRowsOf(s, g, k)) <==> forall e :: 1 <= e <= k ==> Holds(a, RoundRow(s, g, e))
  {
    if k > 0 {
      SatRoundRowsOf(s, a, g, k - 1);
      SatOne(a, RoundRowsOf(s, g, k - 1), RoundRow(s, g, k));
    }
  }

  lemma {:induction false} SatRoundRows(s: Setup, a: Assignment, k: nat)
    requires Ok(s)
    ensures Sat(a, RoundRows(s, k)) <==>
            forall g, e :: 0 <= g < k && 1 <= e <= s.rounds ==> Holds(a, RoundRow(s, g, e))
  {
    if k > 0 {
      SatRoundRows(s, a, k - 1);
      SatAppend(a, RoundRows(s, k - 1), RoundRowsOf(s, k - 1, s.rounds));
      SatRoundRowsOf(s, a, k - 1, s.rounds);
    }
  }

  lemma {:induction false} SatCapacityRows(a: Assignment, n: nat, k: nat)
    ensures Sat(a, CapacityRows(n, k)) <==> forall h :: 0 <= h < k ==> Holds(a, CapacityRow(n, h))
  {
    if k > 0 {
      SatCapacityRows(a, n, k - 1);
      SatOne(a, CapacityRows(n, k - 1), CapacityRow(n, k - 1));
    }
  }

  lemma {:induction false} SatMeetRowsAt(a: Assignment, g1: nat, g2: nat, k: nat)
    ensures Sat(a, MeetRowsAt(g1, g2, k)) <==> forall h :: 0 <= h < k ==> Holds(a, MeetRow(g1, g2, h))
  {
    if k > 0 {
      SatMeetRowsAt(a, g1, g2, k - 1);
      SatOne(a, MeetRowsAt(g1, g2, k - 1), MeetRow(g1, g2, k - 1));
    }
  }

  lemma {:induction false} SatMeetRowsOf(a: Assignment, n: nat, g1: nat, k: nat)
    ensures Sat(a, MeetRowsOf(n, g1, k)) <==> forall g2 :: g1 < g2 < k ==> Sat(a, MeetRowsAt(g1, g2, n))
  {
    if k > g1 + 1 {
      var p, q := MeetRowsOf(n, g1, k - 1), MeetRowsAt(g1, k - 1, n);
      assert MeetRowsOf(n, g1, k) == p + q;
      SatMeetRowsOf(a, n, g1, k - 1);
      SatAppend(a, p, q);
      if Sat(a, p) && Sat(a, q) {
        forall g2 | g1 < g2 < k ensures Sat(a, MeetRowsAt(g1, g2, n)) {
          if g2 == k - 1 {
            assert MeetRowsAt(g1, g2, n) == q;
          }
        }
      } else if !Sat(a, q) {
        assert !Sat(a, MeetRowsAt(g1, k - 1, n));
      } else {
        var g2 :| g1 < g2 < k - 1 && !Sat(a, MeetRowsAt(g1, g2, n));
      }
    } else {
      assert MeetRowsOf(n, g1, k) == [];
    }
  }

  lemma {:induction false} SatMeetRows(a: Assignment, n: nat, k: nat)
    ensures Sat(a, MeetRows(n, k)) <==> forall g1 :: 0 <= g1 < k ==> Sat(a, MeetRowsOf(n, g1, n))
  {
    if k > 0 {
      var p, q := MeetRows(n, k - 1), MeetRowsOf(n, k - 1, n);
      assert MeetRows(n, k) == p + q;
      SatMeetRows(a, n, k - 1);
      SatAppend(a, p, q);
      if Sat(a, p) && Sat(a, q) {
        forall g1 | 0 <= g1 < k ensures Sat(a, MeetRowsOf(n, g1, n)) {
          if g1 == k - 1 {
            assert MeetRowsOf(n, g1, n) == q;
          }
        }
      } else if !Sat(a, q) {
        assert !Sat(a, MeetRowsOf(n, k - 1, n));
      } else {
        var g1 :| 0 <= g1 < k - 1 && !Sat(a, MeetRowsOf(n, g1, n));
      }
    }
  }

  /** Lines 174–177: every meet row of every pair and host. */
  lemma SatMeetRowsAll(a: Assignment, n: nat)
    ensures Sat(a, MeetRows(n, PairBound(n))) <==>
            forall g1, g2, h :: 0 <= g1 < g2 < n && 0 <= h < n ==> Holds(a, MeetRow(g1, g2, h))
  {
    var bound := PairBound(n);
    SatMeetRows(a, n, bound);
    if Sat(a, MeetRows(n, bound)) {
      forall g1, g2, h | 0 <= g1 < g2 < n && 0 <= h < n ensures Holds(a, MeetRow(g1, g2, h)) {
        assert g1 < bound && Sat(a, MeetRowsOf(n, g1, n));
        SatMeetRowsOf(a, n, g1, n);
        assert Sat(a, MeetRowsAt(g1, g2, n));
        SatMeetRowsAt(a, g1, g2, n);
      }
    } else {
      var g1 :| 0 <= g1 < bound && !Sat(a, MeetRowsOf(n, g1, n));
      SatMeetRowsOf(a, n, g1, n);
      var g2 :| g1 < g2 < n && !Sat(a, MeetRowsAt(g1, g2, n));
      SatMeetRowsAt(a, g1, g2, n);
      var h :| 0 <= h < n && !Holds(a, MeetRow(g1, g2, h));
    }
  }

  /** Line 182 adds the same cap row once per host: the copies do not
      change which assignments satisfy the problem. */
  lemma {:induction false} SatCapRowsRepeated(a: Assignment, n: nat, g1: nat, g2: nat, k: nat)
    ensures Sat(a, CapRowsRepeated(n, g1, g2, k)) <==> k == 0 || Holds(a, CapRow(n, g1, g2))
  {
    if k > 0 {
      SatCapRowsRepeated(a, n, g1, g2, k - 1);
      SatOne(a, CapRowsRepeated(n, g1, g2, k - 1), CapRow(n, g1, g2));
    }
  }

  lemma {:induction false} SatCapRowsOf(a: Assignment, n: nat, g1: nat, k: nat)
    ensures Sat(a, CapRowsOf(n, g1, k)) <==> forall g2 :: g1 < g2 < k ==> Sat(a, CapRowsRepeated(n, g1, g2, n))
  {
    if k > g1 + 1 {
      var p, q := CapRowsOf(n, g1, k - 1), CapRowsRepeated(n, g1, k - 1, n);
      assert CapRowsOf(n, g1, k) == p + q;
      SatCapRowsOf(a, n, g1, k - 1);
      SatAppend(a, p, q);
      if Sat(a, p) && Sat(a, q) {
        forall g2 | g1 < g2 < k ensures Sat(a, CapRowsRepeated(n, g1, g2, n)) {
          if g2 == k - 1 {
            assert CapRowsRepeated(n, g1, g2, n) == q;
          }
        }
      } else if !Sat(a, q) {
        assert !Sat(a, CapRowsRepeated(n, g1, k - 1, n));
      } else {
        var g2 :| g1 < g2 < k - 1 && !Sat(a, CapRowsRepeated(n, g1, g2, n));
      }
    } else {
      assert CapRowsOf(n, g1, k) == [];
    }
  }

  lemma {:induction false} SatCapRows(a: Assignment, n: nat, k: nat)
    ensures Sat(a, CapRows(n, k)) <==> forall g1 :: 0 <= g1 < k ==> Sat(a, CapRowsOf(n, g1, n))
  {
    if k > 0 {
      var p, q := CapRows(n, k - 1), CapRowsOf(n, k - 1, n);
      assert CapRows(n, k) == p + q;
      SatCapRows(a, n, k - 1);
      SatAppend(a, p, q);
      if Sat(a, p) && Sat(a, q) {
        forall g1 | 0 <= g1 < k ensures Sat(a, CapRowsOf(n, g1, n)) {
          if g1 == k - 1 {
            assert CapRowsOf(n, g1, n) == q;
          }
        }
      } else if !Sat(a, q) {
        assert !Sat(a, CapRowsOf(n, k - 1, n));
      } else {
        var g1 :| 0 <= g1 < k - 1 && !Sat(a, CapRowsOf(n, g1, n));
      }
    }
  }

  /** Lines 180–183: every cap row of every pair. */
  lemma SatCapRowsAll(a: Assignment, n: nat)
    ensures Sat(a, CapRows(n, PairBound(n))) <==>
            forall g1, g2 :: 0 <= g1 < g2 < n ==> Holds(a, CapRow(n, g1, g2))
  {
    var bound := PairBound(n);
    SatCapRows(a, n, bound);
    if Sat(a, CapRows(n, bound)) {
      forall g1, g2 | 0 <= g1 < g2 < n ensures Holds(a, CapRow(n, g1, g2)) {
        assert g1 < bound && Sat(a, CapRowsOf(n, g1, n));
        SatCapRowsOf(a, n, g1, n);
        assert Sat(a, CapRowsRepeated(n, g1, g2, n));
        SatCapRowsRepeated(a, n, g1, g2, n);
      }
    } else {
      var g1 :| 0 <= g1 < bound && !Sat(a, CapRowsOf(n, g1, n));
      SatCapRowsOf(a, n, g1, n);
      var g2 :| g1 < g2 < n && !Sat(a, CapRowsRepeated(n, g1, g2, n));
      SatCapRowsRepeated(a, n, g1, g2, n);
    }
  }

  /** The hosts of the round after round e. */
  function NextHosts(s: Setup, e: nat): seq<nat>
    requires Ok(s) && 1 <= e < s.rounds
  {
    Hosts(s, e + 1)
  }

  /** The link rows of round e, host h1, and the first `k` hosts of round
      e + 1. */
  lemma {:induction false} SatLinkRowsTo(s: Setup, a: Assignment, g: nat, e: nat, h1: nat, k: nat)
    requires Ok(s) && 1 <= e < s.rounds && h1 < s.n && k <= |Hosts(s, e + 1)|
    ensures Sat(a, LinkRowsTo(s, g, e, h1, k)) <==>
            forall m2 :: 0 <= m2 < k ==> Holds(a, LinkRow(s, g, e, h1, NextHosts(s, e)[m2]))
  {
    assert NextHosts(s, e) == Hosts(s, e + 1);
    if k > 0 {
      SatLinkRowsTo(s, a, g, e, h1, k - 1);
      SatOne(a, LinkRowsTo(s, g, e, h1, k - 1), LinkRow(s, g, e, h1, Hosts(s, e + 1)[k - 1]));
    }
  }

  /** Every pair of consecutive hosts (h1 among the first `k` of round e,
      h2 of round e + 1). */
  predicate LinksHold(s: Setup, a: Assignment, g: nat, e: nat, k: nat)
    requires Ok(s) && 1 <= e < s.rounds && k <= |Hosts(s, e)|
  {
    forall m1, m2 :: 0 <= m1 < k && 0 <= m2 < |NextHosts(s, e)| ==>
      Holds(a, LinkRow(s, g, e, Hosts(s, e)[m1], NextHosts(s, e)[m2]))
  }

  lemma {:induction false} SatLinkRowsFrom(s: Setup, a: Assignment, g: nat, e: nat, k: nat)
    requires Ok(s) && 1 <= e < s.rounds && k <= |Hosts(s, e)|
    ensures Sat(a, LinkRowsFrom(s, g, e, k)) <==>
            forall m1 :: 0 <= m1 < k ==> Sat(a, LinkRowsTo(s, g, e, Hosts(s, e)[m1], |NextHosts(s, e)|))
  {
    if k > 0 {
      var p, q := LinkRowsFrom(s, g, e, k - 1), LinkRowsTo(s, g, e, Hosts(s, e)[k - 1], |Hosts(s, e + 1)|);
      assert LinkRowsFrom(s, g, e, k) == p + q;
      SatLinkRowsFrom(s, a, g, e, k - 1);
      SatAppend(a, p, q);
      var next := |NextHosts(s, e)|;
      if Sat(a, p) && Sat(a, q) {
        forall m1 | 0 <= m1 < k ensures Sat(a, LinkRowsTo(s, g, e, Hosts(s, e)[m1], next)) {
          if m1 == k - 1 {
            assert LinkRowsTo(s, g, e, Hosts(s, e)[m1], next) == q;
          }
        }
      } else if !Sat(a, q) {
        assert !Sat(a, LinkRowsTo(s, g, e, Hosts(s, e)[k - 1], next));
      } else {
        var m1 :| 0 <= m1 < k - 1 && !Sat(a, LinkRowsTo(s, g, e, Hosts(s, e)[m1], next));
      }
    }
  }

  /** Lines 143–145 for round e: every pair of consecutive hosts. */
  lemma SatLinksOf(s: Setup, a: Assignment, g: nat, e: nat)
    requires Ok(s) && 1 <= e < s.rounds
    ensures Sat(a, LinkRowsFrom(s, g, e, |Hosts(s, e)|)) <==> LinksHold(s, a, g, e, |Hosts(s, e)|)
  {
    var hs, next := Hosts(s, e), NextHosts(s, e);
    SatLinkRowsFrom(s, a, g, e, |hs|);
    if Sat(a, LinkRowsFrom(s, g, e, |hs|)) {
      forall m1, m2 | 0 <= m1 < |hs| && 0 <= m2 < |next| ensures Holds(a, LinkRow(s, g, e, hs[m1], next[m2])) {
        assert Sat(a, LinkRowsTo(s, g, e, hs[m1], |next|));
        SatLinkRowsTo(s, a, g, e, hs[m1], |next|);
      }
    } else {
      var m1 :| 0 <= m1 < |hs| && !Sat(a, LinkRowsTo(s, g, e, hs[m1], |next|));
      SatLinkRowsTo(s, a, g, e, hs[m1], |next|);
      var m2 :| 0 <= m2 < |next| && !Holds(a, LinkRow(s, g, e, hs[m1], next[m2]));
    }
  }

  lemma {:induction false} SatLinkRows(s: Setup, a: Assignment, g: nat, k: nat)
    requires Ok(s) && k < s.rounds
    ensures Sat(a, LinkRows(s, g, k)) <==>
            forall e :: 1 <= e <= k ==> Sat(a, LinkRowsFrom(s, g, e, |Hosts(s, e)|))
  {
    if k > 0 {
      var p, q := LinkRows(s, g, k - 1), LinkRowsFrom(s, g, k, |Hosts(s, k)|);
      assert LinkRows(s, g, k) == p + q;
      SatLinkRows(s, a, g, k - 1);
      SatAppend(a, p, q);
      if Sat(a, p) && Sat(a, q) {
        forall e | 1 <= e <= k ensures Sat(a, LinkRowsFrom(s, g, e, |Hosts(s, e)|)) {
          if e == k {
            assert LinkRowsFrom(s, g, e, |Hosts(s, e)|) == q;
          }
        }
      } else if !Sat(a, q) {
        assert !Sat(a, LinkRowsFrom(s, g, k, |Hosts(s, k)|));
      } else {
        var e :| 1 <= e <= k - 1 && !Sat(a, LinkRowsFrom(s, g, e, |Hosts(s, e)|));
      }
    }
  }

  /** Every travel row of group g holds. */
  predicate TravelHolds(s: Setup, a: Assignment, g: nat)
    requires Ok(s) && g < s.n
  {
    && Holds(a, Leg0Row(s, g))
    && (forall e :: 1 <= e < s.rounds ==> LinksHold(s, a, g, e, |Hosts(s, e)|))
    && Holds(a, FinalRow(s, g))
  }

  /** Lines 143–145 for every round but the last. */
  lemma SatLinksAll(s: Setup, a: Assignment, g: nat)
    requires Ok(s)
    ensures Sat(a, LinkRows(s, g, s.rounds - 1)) <==>
            forall e :: 1 <= e < s.rounds ==> LinksHold(s, a, g, e, |Hosts(s, e)|)
  {
    var k := s.rounds - 1;
    SatLinkRows(s, a, g, k);
    forall e | 1 <= e <= k
      ensures Sat(a, LinkRowsFrom(s, g, e, |Hosts(s, e)|)) <==> LinksHold(s, a, g, e, |Hosts(s, e)|)
    {
      SatLinksOf(s, a, g, e);
    }
  }

  lemma SatTravelRowsOf(s: Setup, a: Assignment, g: nat)
    requires Ok(s) && g < s.n
    ensures Sat(a, TravelRowsOf(s, g)) <==> TravelHolds(s, a, g)
  {
    var head := [Leg0Row(s, g)];
    var links := LinkRows(s, g, s.rounds - 1);
    assert TravelRowsOf(s, g) == head + links + [FinalRow(s, g)];
    SatOne(a, head + links, FinalRow(s, g));
    SatAppend(a, head, links);
    assert Sat(a, head) <==> Holds(a, Leg0Row(s, g)) by {
      assert head[0] == Leg0Row(s, g);
    }
    SatLinksAll(s, a, g);
  }

  lemma {:induction false} SatTravelRows(s: Setup, a: Assignment, k: nat)
    requires Ok(s) && k <= s.n
    ensures Sat(a, TravelRows(s, k)) <==> forall g :: 0 <= g < k ==> Sat(a, TravelRowsOf(s, g))
  {
    if k > 0 {
      var p, q := TravelRows(s, k - 1), TravelRowsOf(s, k - 1);
      assert TravelRows(s, k) == p + q;
      SatTravelRows(s, a, k - 1);
      SatAppend(a, p, q);
      if Sat(a, p) && Sat(a, q) {
        forall g | 0 <= g < k ensures Sat(a, TravelRowsOf(s, g)) {
          if g == k - 1 {
            assert TravelRowsOf(s, g) == q;
          }
        }
      } else if !Sat(a, q) {
        assert !Sat(a, TravelRowsOf(s, k - 1));
      } else {
        var g :| 0 <= g < k - 1 && !Sat(a, TravelRowsOf(s, g));
      }
    }
  }

  /** Lines 159–183: the families after the travel rows, each by its
      meaning. */
  lemma SatOtherRows(s: Setup, a: Assignment)
    requires Ok(s)
    ensures Sat(a, OtherRows(s)) <==>
            && (forall g, e :: 0 <= g < s.n && 1 <= e <= s.rounds ==> Holds(a, RoundRow(s, g, e)))
            && (forall g :: 0 <= g < s.n ==> a(X(g, g)) == 1.0)
            && (forall h :: 0 <= h < s.n ==> Holds(a, CapacityRow(s.n, h)))
            && (forall g1, g2, h :: 0 <= g1 < g2 < s.n && 0 <= h < s.n ==> Holds(a, MeetRow(g1, g2, h)))
            && (forall g1, g2 :: 0 <= g1 < g2 < s.n ==> Holds(a, CapRow(s.n, g1, g2)))
  {
    var n := s.n;
    var p := PairBound(n);
    var c1 := RoundRows(s, n);
    var c2 := c1 + SelfRows(n);
    var c3 := c2 + CapacityRows(n, n);
    var c4 := c3 + MeetRows(n, p);
    SatAppend(a, c4, CapRows(n, p));
    SatAppend(a, c3, MeetRows(n, p));
    SatAppend(a, c2, CapacityRows(n, n));
    SatAppend(a, c1, SelfRows(n));
    SatRoundRows(s, a, n);
    SatSelfRows(a, n);
    SatCapacityRows(a, n, n);
    SatMeetRowsAll(a, n);
    SatCapRowsAll(a, n);
  }

  /** The whole problem: the families of `solve`, each by its meaning. */
  lemma SatConstraints(s: Setup, a: Assignment)
    requires Ok(s)
    ensures Sat(a, Constraints(s)) <==>
            && (forall g :: 0 <= g < s.n ==> TravelHolds(s, a, g))
            && (forall g, e :: 0 <= g < s.n && 1 <= e <= s.rounds ==> Holds(a, RoundRow(s, g, e)))
            && (forall g :: 0 <= g < s.n ==> a(X(g, g)) == 1.0)
            && (forall h :: 0 <= h < s.n ==> Holds(a, CapacityRow(s.n, h)))
            && (forall g1, g2, h :: 0 <= g1 < g2 < s.n && 0 <= h < s.n ==> Holds(a, MeetRow(g1, g2, h)))
            && (forall g1, g2 :: 0 <= g1 < g2 < s.n ==> Holds(a, CapRow(s.n, g1, g2)))
  {
    SatAppend(a, TravelRows(s, s.n), OtherRows(s));
    SatTravelRows(s, a, s.n);
    forall g | 0 <= g < s.n ensures Sat(a, TravelRowsOf(s, g)) <==> TravelHolds(s, a, g) {
      SatTravelRowsOf(s, a, g);
    }
    SatOtherRows(s, a);
  }

  // ---- Solutions ----

  /** What the declared categories and bounds give the values. */
  lemma DomainsGive(s: Setup, a: Assignment)
    requires InDomains(s, a, DomainOf)
    ensures forall g, h :: 0 <= g < s.n && 0 <= h < s.n ==> Bit(a(X(g, h)))
    ensures forall h :: 0 <= h < s.n ==> Bit(a(Z1(h))) && Bit(a(Z2(h)))
    ensures forall g1, g2, h :: 0 <= g1 < g2 < s.n && 0 <= h < s.n ==> Bit(a(Y(g1, g2, h)))
    ensures forall e :: 0 <= e <= s.rounds ==> a(T(e)) >= 0.0
    ensures forall g1, g2 :: 0 <= g1 < g2 < s.n ==> IsInteger(a(Z3(g1, g2)))
  {
    forall g, h | 0 <= g < s.n && 0 <= h < s.n ensures Bit(a(X(g, h))) {
      assert Declared(s, X(g, h));
    }
    forall h | 0 <= h < s.n ensures Bit(a(Z1(h))) && Bit(a(Z2(h))) {
      assert Declared(s, Z1(h)) && Declared(s, Z2(h));
    }
    forall g1, g2, h | 0 <= g1 < g2 < s.n && 0 <= h < s.n ensures Bit(a(Y(g1, g2, h))) {
      assert Declared(s, Y(g1, g2, h));
    }
    forall e | 0 <= e <= s.rounds ensures a(T(e)) >= 0.0 {
      assert Declared(s, T(e));
    }
    forall g1, g2 | 0 <= g1 < g2 < s.n ensures IsInteger(a(Z3(g1, g2))) {
      assert Declared(s, Z3(g1, g2));
    }
  }

  /** Lines 159–167 on a solution: one host per round, and the group's own
      house in the round it hosts. */
  lemma FeasibleRounds(s: Setup, a: Assignment)
    requires Ok(s) && Feasible(s, a)
    ensures forall g, e :: 0 <= g < s.n && 1 <= e <= s.rounds ==> |PickedFrom(a, g, Hosts(s, e))| == 1
    ensures forall g :: 0 <= g < s.n ==> a(X(g, g)) == 1.0
  {
    DomainsGive(s, a);
    SatConstraints(s, a);
    forall g, e | 0 <= g < s.n && 1 <= e <= s.rounds ensures |PickedFrom(a, g, Hosts(s, e))| == 1 {
      RoundRowMeaning(s, a, g, e);
    }
  }

  /** Line 171 on a solution: every host receives two to four groups, three
      unless a penalty variable is set. */
  lemma FeasibleAttendance(s: Setup, a: Assignment)
    requires Ok(s) && Feasible(s, a)
    ensures forall h :: 0 <= h < s.n ==>
              Guests(a, h, s.n) as real == 3.0 - a(Z1(h)) + a(Z2(h)) && 2 <= Guests(a, h, s.n) <= 4
  {
    DomainsGive(s, a);
    SatConstraints(s, a);
    forall h | 0 <= h < s.n
      ensures Guests(a, h, s.n) as real == 3.0 - a(Z1(h)) + a(Z2(h)) && 2 <= Guests(a, h, s.n) <= 4
    {
      CapacityRowMeaning(a, s.n, h);
    }
  }

  /** Lines 174–183 on a solution: two groups meet at no more than
      1 + z[3, g1, g2] hosts, and z[3, g1, g2] is an integer of at least -1
      (the cap row admits -1 when no y of the pair is set). */
  lemma FeasibleEncounters(s: Setup, a: Assignment)
    requires Ok(s) && Feasible(s, a)
    ensures forall g1, g2 :: 0 <= g1 < g2 < s.n ==>
              && Shared(a, g1, g2, s.n) as real <= 1.0 + a(Z3(g1, g2))
              && IsInteger(a(Z3(g1, g2))) && a(Z3(g1, g2)) >= -1.0
  {
    DomainsGive(s, a);
    SatConstraints(s, a);
    forall g1, g2 | 0 <= g1 < g2 < s.n
      ensures Shared(a, g1, g2, s.n) as real <= 1.0 + a(Z3(g1, g2)) && a(Z3(g1, g2)) >= -1.0
    {
      EncounterCap(a, s.n, g1, g2);
    }
  }

  /** Lines 136–156 on a solution: every leg the group walks is bounded by
      the t of its leg; with a party, the last t is at least the sum of all
      last-round hosts' walks to the party. */
  lemma FeasibleTravel(s: Setup, a: Assignment, g: nat)
    requires Ok(s) && Feasible(s, a) && g < s.n
    ensures forall m :: 0 <= m < |Hosts(s, 1)| && a(X(g, Hosts(s, 1)[m])) == 1.0 ==>
              s.tt[g][Hosts(s, 1)[m]] as real <= a(T(0))
    ensures forall e, m1, m2 :: 1 <= e < s.rounds && 0 <= m1 < |Hosts(s, e)| && 0 <= m2 < |NextHosts(s, e)| ==>
              (a(X(g, Hosts(s, e)[m1])) == 1.0 && a(X(g, NextHosts(s, e)[m2])) == 1.0 ==>
                s.tt[Hosts(s, e)[m1]][NextHosts(s, e)[m2]] as real <= a(T(e)))
    ensures forall m :: 0 <= m < |Hosts(s, s.rounds)| && a(X(g, Hosts(s, s.rounds)[m])) == 1.0 ==>
              (if s.party.None? then s.tt[Hosts(s, s.rounds)[m]][g] else PartySum(s, Hosts(s, s.rounds))) as real
                <= a(T(s.rounds))
  {
    DomainsGive(s, a);
    SatConstraints(s, a);
    FeasibleRounds(s, a);
    assert TravelHolds(s, a, g);
    forall m | 0 <= m < |Hosts(s, 1)| && a(X(g, Hosts(s, 1)[m])) == 1.0
      ensures s.tt[g][Hosts(s, 1)[m]] as real <= a(T(0))
    {
      var k := ChosenHost(a, g, Hosts(s, 1));
      Leg0Meaning(s, a, g, k);
    }
    forall e, m1, m2 | 1 <= e < s.rounds && 0 <= m1 < |Hosts(s, e)| && 0 <= m2 < |NextHosts(s, e)|
      ensures a(X(g, Hosts(s, e)[m1])) == 1.0 && a(X(g, NextHosts(s, e)[m2])) == 1.0 ==>
                s.tt[Hosts(s, e)[m1]][NextHosts(s, e)[m2]] as real <= a(T(e))
    {
      assert LinksHold(s, a, g, e, |Hosts(s, e)|);
      LinkRowMeaning(s, a, g, e, Hosts(s, e)[m1], NextHosts(s, e)[m2]);
    }
    forall m | 0 <= m < |Hosts(s, s.rounds)| && a(X(g, Hosts(s, s.rounds)[m])) == 1.0
      ensures (if s.party.None? then s.tt[Hosts(s, s.rounds)[m]][g] else PartySum(s, Hosts(s, s.rounds))) as real
                <= a(T(s.rounds))
    {
      var k := ChosenHost(a, g, Hosts(s, s.rounds));
      FinalRowMeaning(s, a, g, k);
    }
  }
}

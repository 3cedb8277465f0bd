/** model/DinnerInstance.py, `DinnerInstance.solve` (lines 97–183): the
    variables, the objective and every constraint family, each family
    listed in the order in which its loops add its rows to the problem. */
module Formulation {
  import opened Common
  import opened Linear

  /** What `solve` reads from the instance: `n` groups (positions 0..n-1),
      `rounds` main events (E - 2 for E events), the hosts of each round
      (`hosts[e - 1]` for round e), the travel time between the locations of
      any two groups, and, with an after-party, the travel time from each
      group's location to the party. */
  datatype Setup = Setup(n: nat, rounds: nat, hosts: seq<seq<nat>>, tt: seq<seq<nat>>, party: Option<seq<nat>>)

  predicate Ok(s: Setup)
  {
    && s.rounds >= 1
    && |s.hosts| == s.rounds
    && (forall e, m :: 0 <= e < s.rounds && 0 <= m < |s.hosts[e]| ==> s.hosts[e][m] < s.n)
    && |s.tt| == s.n && (forall i :: 0 <= i < s.n ==> |s.tt[i]| == s.n)
    && (s.party.Some? ==> |s.party.value| == s.n)
  }

  /** `hosts_by_events[e]`. */
  function Hosts(s: Setup, e: nat): (r: seq<nat>)
    requires Ok(s) && 1 <= e <= s.rounds
    ensures forall m :: 0 <= m < |r| ==> r[m] < s.n
  {
    s.hosts[e - 1]
  }

  predicate AllBelow(hs: seq<nat>, n: nat)
  {
    forall m :: 0 <= m < |hs| ==> hs[m] < n
  }

  // ---- Rows ----

  /** tt[g][h] · x[g, h] for each host h of the first round (line 138). */
  function FromHomeTerms(s: Setup, g: nat, hs: seq<nat>): seq<Term>
    requires Ok(s) && g < s.n && AllBelow(hs, s.n)
  {
    seq(|hs|, m requires 0 <= m < |hs| => Term(s.tt[g][hs[m]], X(g, hs[m])))
  }

  /** tt[h][g] · x[g, h] for each host h of the last round (line 149). */
  function ToHomeTerms(s: Setup, g: nat, hs: seq<nat>): seq<Term>
    requires Ok(s) && g < s.n && AllBelow(hs, s.n)
  {
    seq(|hs|, m requires 0 <= m < |hs| => Term(s.tt[hs[m]][g], X(g, hs[m])))
  }

  /** tt[h][party] · x[g, h] for each host h of the last round: the party leg
      with the same shape as the home leg. */
  function ToPartyTerms(s: Setup, g: nat, hs: seq<nat>): seq<Term>
    requires Ok(s) && s.party.Some? && AllBelow(hs, s.n)
  {
    seq(|hs|, m requires 0 <= m < |hs| => Term(s.party.value[hs[m]], X(g, hs[m])))
  }

  /** Σ tt[h][party] over the hosts `hs`, a number (line 154). */
  function PartySum(s: Setup, hs: seq<nat>): nat
    requires Ok(s) && s.party.Some? && AllBelow(hs, s.n)
  {
    if |hs| == 0 then 0 else PartySum(s, hs[..|hs| - 1]) + s.party.value[hs[|hs| - 1]]
  }

  /** Lines 138–140: the walk from home to the first host. */
  function Leg0Row(s: Setup, g: nat): Constraint
    requires Ok(s) && g < s.n
  {
    Constraint(LinExpr(FromHomeTerms(s, g, Hosts(s, 1)), 0), Le, Single(T(0)))
  }

  /** Line 145: tt[h1][h2] · (x[g, h1] + x[g, h2] - 1) ≤ t[e]. */
  function LinkRow(s: Setup, g: nat, e: nat, h1: nat, h2: nat): Constraint
    requires Ok(s) && h1 < s.n && h2 < s.n
  {
    var c: int := s.tt[h1][h2];
    Constraint(LinExpr([Term(c, X(g, h1)), Term(c, X(g, h2))], -c), Le, Single(T(e)))
  }

  /** Lines 147–156: the walk from the last host home; with a party, as
      written, the sum of the travel times of all last-round hosts to the
      party, with no assignment variable in it. */
  function FinalRow(s: Setup, g: nat): Constraint
    requires Ok(s) && g < s.n
  {
    var hs := Hosts(s, s.rounds);
    if s.party.None? then Constraint(LinExpr(ToHomeTerms(s, g, hs), 0), Le, Single(T(s.rounds)))
    else Constraint(Const(PartySum(s, hs)), Le, Single(T(s.rounds)))
  }

  /** Lines 152–156 as the comment on line 153 means them: the walk from the
      host the group visits last to the party, weighted by the assignment
      like the home leg. */
  function FinalRowCorrected(s: Setup, g: nat): Constraint
    requires Ok(s) && g < s.n
  {
    var hs := Hosts(s, s.rounds);
    if s.party.None? then Constraint(LinExpr(ToHomeTerms(s, g, hs), 0), Le, Single(T(s.rounds)))
    else Constraint(LinExpr(ToPartyTerms(s, g, hs), 0), Le, Single(T(s.rounds)))
  }

  /** x[g, h] for each host h in `hs`. */
  function VisitTerms(g: nat, hs: seq<nat>): seq<Term>
  {
    seq(|hs|, m requires 0 <= m < |hs| => Term(1, X(g, hs[m])))
  }

  /** Lines 161–163: Σ_{h ∈ hosts(e)} x[g, h] == 1. */
  function RoundRow(s: Setup, g: nat, e: nat): Constraint
    requires Ok(s) && 1 <= e <= s.rounds
  {
    Constraint(LinExpr(VisitTerms(g, Hosts(s, e)), 0), Eq, Const(1))
  }

  /** Line 167: x[g, g] == 1. */
  function SelfRow(g: nat): Constraint
  {
    Constraint(Single(X(g, g)), Eq, Const(1))
  }

  /** x[g, h] for each group g. */
  function GuestTerms(n: nat, h: nat): seq<Term>
  {
    seq(n, g requires 0 <= g < n => Term(1, X(g, h)))
  }

  /** Line 171: Σ_g x[g, h] == 3 - z[1, h] + z[2, h]. */
  function CapacityRow(n: nat, h: nat): Constraint
  {
    Constraint(LinExpr(GuestTerms(n, h), 0), Eq, LinExpr([Term(-1, Z1(h)), Term(1, Z2(h))], 3))
  }

  /** Line 177: x[g1, h] + x[g2, h] ≤ 1 + y[g1, g2, h]. */
  function MeetRow(g1: nat, g2: nat, h: nat): Constraint
  {
    Constraint(LinExpr([Term(1, X(g1, h)), Term(1, X(g2, h))], 0), Le, LinExpr([Term(1, Y(g1, g2, h))], 1))
  }

  /** y[g1, g2, h] for each host h. */
  function MeetTerms(n: nat, g1: nat, g2: nat): seq<Term>
  {
    seq(n, h requires 0 <= h < n => Term(1, Y(g1, g2, h)))
  }

  /** Line 183: Σ_h y[g1, g2, h] ≤ 1 + z[3, g1, g2]. */
  function CapRow(n: nat, g1: nat, g2: nat): Constraint
  {
    Constraint(LinExpr(MeetTerms(n, g1, g2), 0), Le, LinExpr([Term(1, Z3(g1, g2))], 1))
  }

  // ---- Families, in loop order ----

  /** Line 145 for the first `k` hosts h2 of round e + 1. */
  function LinkRowsTo(s: Setup, g: nat, e: nat, h1: nat, k: nat): seq<Constraint>
    requires Ok(s) && 1 <= e < s.rounds && h1 < s.n && k <= |Hosts(s, e + 1)|
  {
    if k == 0 then [] else LinkRowsTo(s, g, e, h1, k - 1) + [LinkRow(s, g, e, h1, Hosts(s, e + 1)[k - 1])]
  }

  /** Lines 143–145 for the first `k` hosts h1 of round e. */
  function LinkRowsFrom(s: Setup, g: nat, e: nat, k: nat): seq<Constraint>
    requires Ok(s) && 1 <= e < s.rounds && k <= |Hosts(s, e)|
  {
    if k == 0 then []
    else LinkRowsFrom(s, g, e, k - 1) + LinkRowsTo(s, g, e, Hosts(s, e)[k - 1], |Hosts(s, e + 1)|)
  }

  /** Lines 142–145 for the main events 1..k. */
  function LinkRows(s: Setup, g: nat, k: nat): seq<Constraint>
    requires Ok(s) && k < s.rounds
  {
    if k == 0 then [] else LinkRows(s, g, k - 1) + LinkRowsFrom(s, g, k, |Hosts(s, k)|)
  }

  /** Lines 137–156 for one group. */
  function TravelRowsOf(s: Setup, g: nat): seq<Constraint>
    requires Ok(s) && g < s.n
  {
    [Leg0Row(s, g)] + LinkRows(s, g, s.rounds - 1) + [FinalRow(s, g)]
  }

  /** Lines 136–156 for the first `k` groups. */
  function TravelRows(s: Setup, k: nat): seq<Constraint>
    requires Ok(s) && k <= s.n
  {
    if k == 0 then [] else TravelRows(s, k - 1) + TravelRowsOf(s, k - 1)
  }

  /** Line 160–163 for group g and the rounds 1..k. */
  function RoundRowsOf(s: Setup, g: nat, k: nat): seq<Constraint>
    requires Ok(s) && k <= s.rounds
  {
    if k == 0 then [] else RoundRowsOf(s, g, k - 1) + [RoundRow(s, g, k)]
  }

  /** Lines 159–163 for the first `k` groups. */
  function RoundRows(s: Setup, k: nat): seq<Constraint>
    requires Ok(s)
  {
    if k == 0 then [] else RoundRows(s, k - 1) + RoundRowsOf(s, k - 1, s.rounds)
  }

  /** Lines 166–167 for the first `k` groups. */
  function SelfRows(k: nat): seq<Constraint>
  {
    if k == 0 then [] else SelfRows(k - 1) + [SelfRow(k - 1)]
  }

  /** Lines 170–171 for the first `k` hosts. */
  function CapacityRows(n: nat, k: nat): seq<Constraint>
  {
    if k == 0 then [] else CapacityRows(n, k - 1) + [CapacityRow(n, k - 1)]
  }

  /** Line 177 for the pair (g1, g2) and the first `k` hosts. */
  function MeetRowsAt(g1: nat, g2: nat, k: nat): seq<Constraint>
  {
    if k == 0 then [] else MeetRowsAt(g1, g2, k - 1) + [MeetRow(g1, g2, k - 1)]
  }

  /** Lines 175–177 for g1 and the partners g1 + 1 .. k - 1. */
  function MeetRowsOf(n: nat, g1: nat, k: nat): seq<Constraint>
  {
    if k <= g1 + 1 then [] else MeetRowsOf(n, g1, k - 1) + MeetRowsAt(g1, k - 1, n)
  }

  /** Lines 174–177 for g1 below `k`. */
  function MeetRows(n: nat, k: nat): seq<Constraint>
  {
    if k == 0 then [] else MeetRows(n, k - 1) + MeetRowsOf(n, k - 1, n)
  }

  /** Lines 182–183: the loop over `host` adds the same row once per host
      (the host of the sum is another variable); `k` copies. */
  function CapRowsRepeated(n: nat, g1: nat, g2: nat, k: nat): seq<Constraint>
  {
    if k == 0 then [] else CapRowsRepeated(n, g1, g2, k - 1) + [CapRow(n, g1, g2)]
  }

  /** Lines 181–183 for g1 and the partners g1 + 1 .. k - 1. */
  function CapRowsOf(n: nat, g1: nat, k: nat): seq<Constraint>
  {
    if k <= g1 + 1 then [] else CapRowsOf(n, g1, k - 1) + CapRowsRepeated(n, g1, k - 1, n)
  }

  /** Lines 180–183 for g1 below `k`. */
  function CapRows(n: nat, k: nat): seq<Constraint>
  {
    if k == 0 then [] else CapRows(n, k - 1) + CapRowsOf(n, k - 1, n)
  }

  /** `range(len(self.groups) - 1)` has n - 1 entries, none when n is 0. */
  function PairBound(n: nat): nat
  {
    if n == 0 then 0 else n - 1
  }

  /** The rows of lines 159–183, in order. */
  function OtherRows(s: Setup): seq<Constraint>
    requires Ok(s)
  {
    RoundRows(s, s.n) + SelfRows(s.n) + CapacityRows(s.n, s.n)
      + MeetRows(s.n, PairBound(s.n)) + CapRows(s.n, PairBound(s.n))
  }

  /** Every constraint `solve` adds, in order. */
  function Constraints(s: Setup): seq<Constraint>
    requires Ok(s)
  {
    TravelRows(s, s.n) + OtherRows(s)
  }

  /** Lines 136–156 for the first `k` groups, with the corrected party leg. */
  function TravelRowsCorrected(s: Setup, k: nat): seq<Constraint>
    requires Ok(s) && k <= s.n
  {
    if k == 0 then []
    else TravelRowsCorrected(s, k - 1) +
         ([Leg0Row(s, k - 1)] + LinkRows(s, k - 1, s.rounds - 1) + [FinalRowCorrected(s, k - 1)])
  }

  /** The constraints with the corrected party leg. */
  function ConstraintsCorrected(s: Setup): seq<Constraint>
    requires Ok(s)
  {
    TravelRowsCorrected(s, s.n) + OtherRows(s)
  }

  // ---- Variables ----

  /** The keys of the dicts x, t, y and z (lines 98–123). */
  predicate Declared(s: Setup, v: Var)
  {
    match v
    case X(g, h) => g < s.n && h < s.n
    case T(e) => e <= s.rounds
    case Y(g1, g2, h) => g1 < g2 < s.n && h < s.n
    case Z1(h) => h < s.n
    case Z2(h) => h < s.n
    case Z3(g1, g2) => g1 < g2 < s.n
  }

  /** Lines 101–123: the x's, y's, z[1, ·] and z[2, ·] are binary, the t's
      continuous from 0, and each z[3, ·, ·] an integer with no bound. */
  function DomainOf(v: Var): Domain
  {
    match v
    case T(_) => Domain(Continuous, Some(0))
    case Z3(_, _) => Domain(Integer, None)
    case _ => Domain(Binary, None)
  }

  /** The same with z[3, ·, ·] bounded below by 0, as a penalty that
      "applies if the same groups meet more than once" (line 75) needs. */
  function DomainOfCorrected(v: Var): Domain
  {
    match v
    case T(_) => Domain(Continuous, Some(0))
    case Z3(_, _) => Domain(Integer, Some(0))
    case _ => Domain(Binary, None)
  }

  // ---- Objective ----

  /** p3 · z[3, g1, g2] for g1 below `k` and every later partner g2. */
  function PairPenaltyTerms(n: nat, p: int, k: nat): seq<Term>
  {
    if k == 0 then [] else PairPenaltyTerms(n, p, k - 1) + PairPenaltyRow(n, p, k - 1)
  }

  /** p3 · z[3, g1, g2] for every partner g2 after g1. */
  function PairPenaltyRow(n: nat, p: int, g1: nat): (r: seq<Term>)
    ensures |r| == if n <= g1 + 1 then 0 else n - g1 - 1
    ensures forall m :: 0 <= m < |r| ==> r[m] == Term(p, Z3(g1, g1 + 1 + m))
  {
    seq(if n <= g1 + 1 then 0 else n - g1 - 1, m requires 0 <= m => Term(p, Z3(g1, g1 + 1 + m)))
  }

  /** Lines 130–133: the sum of the t's plus the three weighted penalty
      sums. */
  function Objective(s: Setup, tooFew: int, tooMany: int, encounters: int): LinExpr
  {
    LinExpr(seq(s.rounds + 1, e requires 0 <= e => Term(1, T(e))) + seq(s.n, h requires 0 <= h => Term(tooFew, Z1(h)))
            + seq(s.n, h requires 0 <= h => Term(tooMany, Z2(h))) + PairPenaltyTerms(s.n, encounters, PairBound(s.n)), 0)
  }

  /** The problem `solve` hands to the solver. */
  datatype Problem = Problem(variables: map<Var, Domain>, objective: LinExpr, constraints: seq<Constraint>)

  /** The defaults of `solve`'s penalty parameters. */
  const DefaultPenalty: int := 600
}

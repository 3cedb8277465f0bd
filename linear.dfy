/** The parts of a PuLP model that `DinnerInstance.solve` builds, as data:
    variable identities, linear expressions, constraints, variable
    categories, and what it means for values of the variables to satisfy
    them. */
module Linear {
  import opened Common

  /** The variables of `solve`. Groups are named by their positions in the
      group list: `X(g, h)` is x[group g, host h], `T(e)` is t[e],
      `Y(g1, g2, h)` is y[g1, g2, host h], `Z1(h)`, `Z2(h)` and `Z3(g1, g2)`
      are z[1, h], z[2, h] and z[3, g1, g2]. */
  datatype Var =
    | X(group: nat, host: nat)
    | T(leg: nat)
    | Y(first: nat, second: nat, host: nat)
    | Z1(host: nat)
    | Z2(host: nat)
    | Z3(first: nat, second: nat)

  datatype Term = Term(coef: int, v: Var)

  /** A PuLP affine expression: a list of terms plus a constant. A variable
      may occur in several terms; its coefficients add up. */
  datatype LinExpr = LinExpr(terms: seq<Term>, constant: int)

  datatype Sense = Le | Eq

  /** `lhs <= rhs` or `lhs == rhs`. */
  datatype Constraint = Constraint(lhs: LinExpr, sense: Sense, rhs: LinExpr)

  /** Values for every variable, as a solver reports them. */
  type Assignment = Var -> real

  function Const(k: int): LinExpr
  {
    LinExpr([], k)
  }

  function Single(v: Var): LinExpr
  {
    LinExpr([Term(1, v)], 0)
  }

  function SumTerms(a: Assignment, ts: seq<Term>): real
  {
    if |ts| == 0 then 0.0
    else SumTerms(a, ts[..|ts| - 1]) + (ts[|ts| - 1].coef as real) * a(ts[|ts| - 1].v)
  }

  function Eval(a: Assignment, e: LinExpr): real
  {
    SumTerms(a, e.terms) + e.constant as real
  }

  predicate Holds(a: Assignment, c: Constraint)
  {
    match c.sense
    case Le => Eval(a, c.lhs) <= Eval(a, c.rhs)
    case Eq => Eval(a, c.lhs) == Eval(a, c.rhs)
  }

  /** Every constraint of the list holds. */
  predicate Sat(a: Assignment, cs: seq<Constraint>)
  {
    forall i :: 0 <= i < |cs| ==> Holds(a, cs[i])
  }

  lemma {:induction false} SumTermsAppend(a: Assignment, s: seq<Term>, t: seq<Term>)
    ensures SumTerms(a, s + t) == SumTerms(a, s) + SumTerms(a, t)
  {
    if |t| > 0 {
      assert (s + t)[..|s + t| - 1] == s + t[..|t| - 1];
      SumTermsAppend(a, s, t[..|t| - 1]);
    } else {
      assert s + t == s;
    }
  }

  lemma SumOne(a: Assignment, t: Term)
    ensures SumTerms(a, [t]) == (t.coef as real) * a(t.v)
  {
    assert [t][..0] == [];
  }

  lemma SumTwo(a: Assignment, t: Term, u: Term)
    ensures SumTerms(a, [t, u]) == (t.coef as real) * a(t.v) + (u.coef as real) * a(u.v)
  {
    assert [t, u][..1] == [t];
    SumOne(a, t);
  }

  /** Only the values of the variables that occur matter. */
  lemma {:induction false} SumTermsLocal(a: Assignment, b: Assignment, ts: seq<Term>)
    requires forall k :: 0 <= k < |ts| ==> a(ts[k].v) == b(ts[k].v)
    ensures SumTerms(a, ts) == SumTerms(b, ts)
  {
    if |ts| > 0 {
      SumTermsLocal(a, b, ts[..|ts| - 1]);
    }
  }

  /** A list of constraints holds exactly when each part does: the order in
      which `prob +=` adds them does not matter. */
  lemma SatAppend(a: Assignment, cs: seq<Constraint>, ds: seq<Constraint>)
    ensures Sat(a, cs + ds) <==> Sat(a, cs) && Sat(a, ds)
  {
    if Sat(a, cs) && Sat(a, ds) {
      forall i | 0 <= i < |cs + ds| ensures Holds(a, (cs + ds)[i]) {
        if i >= |cs| {
          assert (cs + ds)[i] == ds[i - |cs|];
        }
      }
    }
    if Sat(a, cs + ds) {
      forall i | 0 <= i < |cs| ensures Holds(a, cs[i]) {
        assert (cs + ds)[i] == cs[i];
      }
      forall i | 0 <= i < |ds| ensures Holds(a, ds[i]) {
        assert (cs + ds)[|cs| + i] == ds[i];
      }
    }
  }

  /** `LpBinary`, `LpContinuous`, `LpInteger`, with PuLP's optional lower
      bound (a binary variable is bounded by 0 and 1 anyway). */
  datatype Category = Binary | Continuous | Integer
  datatype Domain = Domain(cat: Category, lowBound: Option<int>)

  predicate IsInteger(x: real)
  {
    x == x.Floor as real
  }

  predicate InDomain(x: real, d: Domain)
  {
    && (d.cat == Binary ==> x == 0.0 || x == 1.0)
    && (d.cat == Integer ==> IsInteger(x))
    && (d.lowBound.Some? ==> d.lowBound.value as real <= x)
  }
}

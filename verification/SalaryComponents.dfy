/**
 * Resolution of salary components to monthly amounts: a memoised depth-first walk over the
 * components' references, proved to return the one solution of the components' equations, and
 * to fail exactly when there is none that can be computed.
 */
module SalaryComponents {
  import opened Wrappers
  import opened FormulaLexer
  import opened FormulaParser
  import opened FormulaEvaluator

  const CTC_VARIABLE := "CTC"
  const BASIC_CODE := "BASIC"

  datatype Mode = Fixed | PercentOfBasic | PercentOfCtc | Formula

  datatype Component = Component(code: string, mode: Mode, value: Option<real>, formula: Option<string>)

  type Components = map<string, Component>

  datatype ResolveError =
    | UnknownComponent(code: string)
    | CircularReference(code: string)
    | BadFormula(error: FormulaError)

  /** Components by code; of two with the same code the later one counts. */
  function ByCode(components: seq<Component>): Components {
    if components == [] then map[]
    else
      var last := components[|components| - 1];
      ByCode(components[..|components| - 1])[last.code := last]
  }

  // ---- What a resolution is ----

  function Monthly(ctcAnnual: real): real {
    ctcAnnual / 12.0
  }

  /** The components whose amounts `c` reads. */
  function Deps(c: Component): set<string> {
    match c.mode
    case Fixed => {}
    case PercentOfCtc => {}
    case PercentOfBasic => {BASIC_CODE}
    case Formula =>
      var ast := Parse(c.formula.OrElse(""));
      if ast.Ok? then Refs(ast.value) - {CTC_VARIABLE} else {}
  }

  function Percent(base: real, percent: real): real {
    base * percent / 100.0
  }

  /** The defining equation of `c`: its amount, given the amounts of the components it reads. */
  function Amount(c: Component, monthlyCtc: real, amounts: map<string, real>): Result<real, FormulaError>
    requires Deps(c) <= amounts.Keys
  {
    var value := c.value.OrElse(0.0);
    match c.mode
    case Fixed => Ok(value)
    case PercentOfCtc => Ok(Percent(monthlyCtc, value))
    case PercentOfBasic => Ok(Percent(amounts[BASIC_CODE], value))
    case Formula => EvaluateFormula(c.formula.OrElse(""), amounts[CTC_VARIABLE := monthlyCtc])
  }

  /** Amounts for some components, closed under references and satisfying their equations. */
  ghost predicate Solves(all: Components, monthlyCtc: real, amounts: map<string, real>) {
    && amounts.Keys <= all.Keys
    && forall code :: code in amounts ==>
      Deps(all[code]) <= amounts.Keys && Amount(all[code], monthlyCtc, amounts) == Ok(amounts[code])
  }

  /** `rank` grows along references. */
  ghost predicate Ranks(all: Components, rank: map<string, nat>) {
    && rank.Keys == all.Keys
    && forall code, dep :: code in all && dep in Deps(all[code]) && dep in all ==> rank[dep] < rank[code]
  }

  ghost predicate Acyclic(all: Components) {
    exists rank :: Ranks(all, rank)
  }

  /** The references of the listed components form no cycle, and `amounts` satisfies every equation. */
  ghost predicate IsResolution(components: seq<Component>, ctcAnnual: real, amounts: map<string, real>) {
    var all := ByCode(components);
    Acyclic(all) && amounts.Keys == all.Keys && Solves(all, Monthly(ctcAnnual), amounts)
  }

  // ---- What can stand in the way ----

  /** Each entry is a component that references the next. */
  ghost predicate Chain(all: Components, path: seq<string>) {
    forall i :: 0 <= i < |path| - 1 ==> path[i] in all && path[i + 1] in Deps(all[path[i]])
  }

  ghost predicate CycleThrough(all: Components, code: string) {
    exists path :: |path| >= 2 && path[0] == code == path[|path| - 1] && Chain(all, path)
  }

  /** Some component's formula divides by zero once the components it reads have their amounts. */
  ghost predicate DividesByZero(all: Components, monthlyCtc: real) {
    exists amounts, code ::
      && Solves(all, monthlyCtc, amounts) && code in all && Deps(all[code]) <= amounts.Keys
      && Amount(all[code], monthlyCtc, amounts) == Err(DivisionByZero)
  }

  ghost predicate Obstacle(all: Components, monthlyCtc: real, e: ResolveError) {
    match e
    case UnknownComponent(missing) =>
      missing !in all && exists code :: code in all && missing in Deps(all[code])
    case CircularReference(code) => CycleThrough(all, code)
    case BadFormula(error) =>
      || (exists code :: code in all && all[code].mode.Formula? && Parse(all[code].formula.OrElse("")) == Err(error))
      || (error == DivisionByZero && DividesByZero(all, monthlyCtc))
  }

  ghost predicate StandsInTheWay(components: seq<Component>, ctcAnnual: real, e: ResolveError) {
    Obstacle(ByCode(components), Monthly(ctcAnnual), e)
  }

  // ---- Equations have at most one solution ----

  ghost predicate Extends(larger: map<string, real>, smaller: map<string, real>) {
    && smaller.Keys <= larger.Keys
    && forall code :: code in smaller ==> larger[code] == smaller[code]
  }

  lemma AmountReadsOnlyDeps(c: Component, monthlyCtc: real, amounts: map<string, real>, others: map<string, real>)
    requires Deps(c) <= amounts.Keys && Deps(c) <= others.Keys
    requires forall dep :: dep in Deps(c) ==> amounts[dep] == others[dep]
    ensures Amount(c, monthlyCtc, amounts) == Amount(c, monthlyCtc, others)
  {
    if c.mode.Formula? && Parse(c.formula.OrElse("")).Ok? {
      EvaluateReadsOnlyRefs(Parse(c.formula.OrElse("")).value,
        amounts[CTC_VARIABLE := monthlyCtc], others[CTC_VARIABLE := monthlyCtc]);
    }
  }

  lemma {:induction false} SolutionsAgree(all: Components, rank: map<string, nat>, monthlyCtc: real,
      a: map<string, real>, b: map<string, real>, code: string)
    requires Ranks(all, rank) && Solves(all, monthlyCtc, a) && Solves(all, monthlyCtc, b)
    requires code in a && code in b
    ensures a[code] == b[code]
    decreases rank[code]
  {
    forall dep | dep in Deps(all[code])
      ensures a[dep] == b[dep]
    {
      SolutionsAgree(all, rank, monthlyCtc, a, b, dep);
    }
    AmountReadsOnlyDeps(all[code], monthlyCtc, a, b);
  }

  lemma {:induction false} RanksFallAlong(all: Components, rank: map<string, nat>, path: seq<string>)
    requires Ranks(all, rank) && |path| >= 2 && Chain(all, path)
    requires path[|path| - 1] in all
    ensures rank[path[|path| - 1]] < rank[path[0]]
  {
    if |path| > 2 {
      assert path[1] in all && path[1] in Deps(all[path[0]]);
      RanksFallAlong(all, rank, path[1..]);
    } else {
      assert path[1] in Deps(all[path[0]]);
    }
  }

  lemma NoCycleInRanked(all: Components, rank: map<string, nat>, code: string)
    requires Ranks(all, rank)
    ensures !CycleThrough(all, code)
  {
    if CycleThrough(all, code) {
      var path :| |path| >= 2 && path[0] == code == path[|path| - 1] && Chain(all, path);
      assert path[0] in all;
      RanksFallAlong(all, rank, path);
    }
  }

  lemma NoZeroDivisionWhenSolved(all: Components, rank: map<string, nat>, monthlyCtc: real, amounts: map<string, real>)
    requires Ranks(all, rank) && amounts.Keys == all.Keys && Solves(all, monthlyCtc, amounts)
    ensures !DividesByZero(all, monthlyCtc)
  {
    forall part, code | && Solves(all, monthlyCtc, part) && code in all && Deps(all[code]) <= part.Keys
      ensures Amount(all[code], monthlyCtc, part).Ok?
    {
      assert code in amounts;
      forall dep | dep in Deps(all[code])
        ensures part[dep] == amounts[dep]
      {
        SolutionsAgree(all, rank, monthlyCtc, part, amounts, dep);
      }
      AmountReadsOnlyDeps(all[code], monthlyCtc, part, amounts);
    }
  }

  lemma NoUnknownWhenSolved(all: Components, monthlyCtc: real, amounts: map<string, real>, e: ResolveError)
    requires amounts.Keys == all.Keys && Solves(all, monthlyCtc, amounts)
    requires e.UnknownComponent? || (e.BadFormula? && !DividesByZero(all, monthlyCtc))
    ensures !Obstacle(all, monthlyCtc, e)
  {
    forall code | code in all
      ensures Deps(all[code]) <= all.Keys && Amount(all[code], monthlyCtc, amounts).Ok?
    {
      assert code in amounts;
    }
  }

  lemma NoObstacleWhenSolved(all: Components, rank: map<string, nat>, monthlyCtc: real,
      amounts: map<string, real>, e: ResolveError)
    requires Ranks(all, rank) && amounts.Keys == all.Keys && Solves(all, monthlyCtc, amounts)
    ensures !Obstacle(all, monthlyCtc, e)
  {
    if e.CircularReference? {
      NoCycleInRanked(all, rank, e.code);
    } else {
      NoZeroDivisionWhenSolved(all, rank, monthlyCtc, amounts);
      NoUnknownWhenSolved(all, monthlyCtc, amounts, e);
    }
  }

  /** Each of the reported obstacles rules a resolution out. */
  lemma ObstacleExcludesResolution(components: seq<Component>, ctcAnnual: real, e: ResolveError,
      amounts: map<string, real>)
    requires StandsInTheWay(components, ctcAnnual, e)
    ensures !IsResolution(components, ctcAnnual, amounts)
  {
    if IsResolution(components, ctcAnnual, amounts) {
      var rank :| Ranks(ByCode(components), rank);
      NoObstacleWhenSolved(ByCode(components), rank, Monthly(ctcAnnual), amounts, e);
    }
  }

  lemma ResolutionIsUnique(components: seq<Component>, ctcAnnual: real, a: map<string, real>, b: map<string, real>)
    requires IsResolution(components, ctcAnnual, a) && IsResolution(components, ctcAnnual, b)
    ensures a == b
  {
    var rank :| Ranks(ByCode(components), rank);
    forall code | code in a
      ensures a[code] == b[code]
    {
      SolutionsAgree(ByCode(components), rank, Monthly(ctcAnnual), a, b, code);
    }
  }

  lemma SolvesOneMore(all: Components, monthlyCtc: real, amounts: map<string, real>, code: string, amount: real)
    requires Solves(all, monthlyCtc, amounts) && code in all && code !in amounts
    requires Deps(all[code]) <= amounts.Keys && Amount(all[code], monthlyCtc, amounts) == Ok(amount)
    ensures Solves(all, monthlyCtc, amounts[code := amount])
  {
    var more := amounts[code := amount];
    forall c | c in more
      ensures Deps(all[c]) <= more.Keys && Amount(all[c], monthlyCtc, more) == Ok(more[c])
    {
      AmountReadsOnlyDeps(all[c], monthlyCtc, amounts, more);
    }
  }

  lemma EvaluationIsAmount(c: Component, monthlyCtc: real, vars: map<string, real>, amounts: map<string, real>)
    requires c.mode.Formula? && Parse(c.formula.OrElse("")).Ok?
    requires CTC_VARIABLE in vars && vars[CTC_VARIABLE] == monthlyCtc
    requires forall dep :: dep in Deps(c) ==> dep in amounts && dep in vars && vars[dep] == amounts[dep]
    ensures EvaluateFormula(c.formula.OrElse(""), vars) == Amount(c, monthlyCtc, amounts)
    ensures Amount(c, monthlyCtc, amounts).Err? ==> Amount(c, monthlyCtc, amounts).error == DivisionByZero
  {
    var ast := Parse(c.formula.OrElse("")).value;
    EvaluateReadsOnlyRefs(ast, vars, amounts[CTC_VARIABLE := monthlyCtc]);
    EvaluateFailsOnlyOnZero(ast, vars);
  }

  // ---- The resolver ----

  class Resolver {
    const byCode: Components
    const monthlyCtc: real
    var resolved: map<string, real>
    var visiting: set<string>
    // The codes in `visiting`, outermost call first.
    ghost var chain: seq<string>
    // When each code was resolved.
    ghost var finished: map<string, nat>
    ghost var clock: nat

    ghost predicate Valid()
      reads this
    {
      && Solves(byCode, monthlyCtc, resolved)
      && finished.Keys == resolved.Keys
      && (forall code :: code in resolved ==> finished[code] < clock)
      && (forall code, dep :: code in resolved && dep in Deps(byCode[code]) ==> finished[dep] < finished[code])
      && visiting <= byCode.Keys && visiting !! resolved.Keys
      && visiting == (set code | code in chain)
      && Chain(byCode, chain)
    }

    constructor (byCode: Components, monthlyCtc: real)
      ensures Valid() && this.byCode == byCode && this.monthlyCtc == monthlyCtc
      ensures resolved == map[] && chain == []
    {
      this.byCode := byCode;
      this.monthlyCtc := monthlyCtc;
      resolved, visiting, chain, finished, clock := map[], {}, [], map[], 0;
    }

    /** `code` is a listed component, or referenced by the component being resolved. */
    ghost predicate Requested(code: string)
      reads this
      requires visiting <= byCode.Keys && visiting == (set c | c in chain)
    {
      if chain == [] then code in byCode
      else chain[|chain| - 1] in byCode && code in Deps(byCode[chain[|chain| - 1]])
    }

    method Resolve(code: string) returns (r: Result<real, ResolveError>)
      requires Valid() && Requested(code)
      modifies this
      ensures r.Err? ==> Obstacle(byCode, monthlyCtc, r.error)
      ensures r.Ok? ==> Valid() && visiting == old(visiting) && chain == old(chain)
      ensures r.Ok? ==> Extends(resolved, old(resolved)) && code in resolved && resolved[code] == r.value
      decreases byCode.Keys - visiting, 0
    {
      if code in resolved {
        return Ok(resolved[code]);
      }
      if code !in byCode {
        return Err(UnknownComponent(code));
      }
      if code in visiting {
        CycleFound(code);
        return Err(CircularReference(code));
      }
      Enter(code);
      var result := ComputeAmount(code, byCode[code]);
      if result.Err? {
        return result;
      }
      Finish(code, result.value);
      return result;
    }

    method Enter(code: string)
      requires Valid() && Requested(code) && code in byCode && code !in resolved && code !in visiting
      modifies this`visiting, this`chain
      ensures Valid() && visiting == old(visiting) + {code} && chain == old(chain) + [code]
    {
      visiting := visiting + {code};
      chain := chain + [code];
    }

    method Finish(code: string, amount: real)
      requires Valid() && code in byCode && chain != [] && chain[|chain| - 1] == code
      requires code !in chain[..|chain| - 1]
      requires Deps(byCode[code]) <= resolved.Keys && Amount(byCode[code], monthlyCtc, resolved) == Ok(amount)
      modifies this
      ensures Valid() && chain == old(chain)[..|old(chain)| - 1] && visiting == old(visiting) - {code}
      ensures resolved == old(resolved)[code := amount] && code !in old(resolved)
    {
      SolvesOneMore(byCode, monthlyCtc, resolved, code, amount);
      visiting := visiting - {code};
      chain := chain[..|chain| - 1];
      resolved := resolved[code := amount];
      finished, clock := finished[code := clock], clock + 1;
    }

    method ComputeAmount(ghost code: string, comp: Component) returns (r: Result<real, ResolveError>)
      requires Valid() && chain != [] && chain[|chain| - 1] == code && code in byCode && byCode[code] == comp
      modifies this
      ensures r.Err? ==> Obstacle(byCode, monthlyCtc, r.error)
      ensures r.Ok? ==> Valid() && visiting == old(visiting) && chain == old(chain)
      ensures r.Ok? ==> Extends(resolved, old(resolved)) && Deps(comp) <= resolved.Keys
      ensures r.Ok? ==> Amount(comp, monthlyCtc, resolved) == Ok(r.value)
      decreases byCode.Keys - visiting, 2
    {
      var value := comp.value.OrElse(0.0);
      match comp.mode
      case Fixed => return Ok(value);
      case PercentOfCtc => return Ok(Percent(monthlyCtc, value));
      case PercentOfBasic =>
        var basic := Resolve(BASIC_CODE);
        if basic.Err? {
          return basic;
        }
        return Ok(Percent(basic.value, value));
      case Formula =>
        r := ResolveFormula(code, comp.formula.OrElse(""));
    }

    method ResolveFormula(ghost code: string, formula: string) returns (r: Result<real, ResolveError>)
      requires Valid() && chain != [] && chain[|chain| - 1] == code && code in byCode
      requires byCode[code].mode.Formula? && byCode[code].formula.OrElse("") == formula
      modifies this
      ensures r.Err? ==> Obstacle(byCode, monthlyCtc, r.error)
      ensures r.Ok? ==> Valid() && visiting == old(visiting) && chain == old(chain)
      ensures r.Ok? ==> Extends(resolved, old(resolved)) && Deps(byCode[code]) <= resolved.Keys
      ensures r.Ok? ==> Amount(byCode[code], monthlyCtc, resolved) == Ok(r.value)
      decreases byCode.Keys - visiting, 1
    {
      var refs := FormulaReferences(formula);
      if refs.Err? {
        return Err(BadFormula(refs.error));
      }
      var vars := map[CTC_VARIABLE := monthlyCtc];
      for i := 0 to |refs.value|
        invariant Valid() && visiting == old(visiting) && chain == old(chain)
        invariant Extends(resolved, old(resolved))
        invariant CTC_VARIABLE in vars && vars[CTC_VARIABLE] == monthlyCtc
        invariant forall k :: 0 <= k < i && refs.value[k] != CTC_VARIABLE ==>
                                && refs.value[k] in resolved && refs.value[k] in vars
                                && vars[refs.value[k]] == resolved[refs.value[k]]
      {
        var name := refs.value[i];
        if name != CTC_VARIABLE {
          var amount := Resolve(name);
          if amount.Err? {
            return amount;
          }
          vars := vars[name := amount.value];
        }
      }
      EvaluationIsAmount(byCode[code], monthlyCtc, vars, resolved);
      var result := EvaluateFormula(formula, vars);
      if result.Err? {
        return Err(BadFormula(result.error));
      }
      return Ok(result.value);
    }

    lemma CycleFound(code: string)
      requires Valid() && Requested(code) && code in visiting
      ensures CycleThrough(byCode, code)
    {
      var i :| 0 <= i < |chain| && chain[i] == code;
      var path := chain[i..] + [code];
      assert forall k :: 0 <= k < |path| - 1 ==> path[k] == chain[i + k];
      assert Chain(byCode, path);
    }
  }

  /** The monthly amounts of all components, or the reason why they cannot be computed. */
  method ResolveMonthlyAmounts(components: seq<Component>, ctcAnnual: real)
    returns (r: Result<map<string, real>, ResolveError>)
    ensures forall amounts :: IsResolution(components, ctcAnnual, amounts) <==> r == Ok(amounts)
    ensures r.Err? ==> StandsInTheWay(components, ctcAnnual, r.error)
    ensures r.Err? <==> exists e :: StandsInTheWay(components, ctcAnnual, e)
  {
    var byCode := ByCode(components);
    var resolver := new Resolver(byCode, Monthly(ctcAnnual));
    for i := 0 to |components|
      invariant resolver.Valid() && resolver.chain == []
      invariant resolver.byCode == byCode && resolver.monthlyCtc == Monthly(ctcAnnual)
      invariant forall k :: 0 <= k < i ==> components[k].code in resolver.resolved
    {
      CodeIsListed(components, i);
      var amount := resolver.Resolve(components[i].code);
      if amount.Err? {
        NoResolution(components, ctcAnnual, amount.error);
        return Err(amount.error);
      }
    }
    Completed(components, ctcAnnual, resolver.resolved, resolver.finished);
    return Ok(resolver.resolved);
  }

  lemma Completed(components: seq<Component>, ctcAnnual: real, resolved: map<string, real>, finished: map<string, nat>)
    requires var all := ByCode(components);
             && Solves(all, Monthly(ctcAnnual), resolved) && finished.Keys == resolved.Keys
             && (forall code, dep :: code in resolved && dep in Deps(all[code]) ==> finished[dep] < finished[code])
    requires forall k :: 0 <= k < |components| ==> components[k].code in resolved
    ensures forall amounts :: IsResolution(components, ctcAnnual, amounts) <==> amounts == resolved
    ensures forall e :: !StandsInTheWay(components, ctcAnnual, e)
  {
    CodesAreListed(components);
    assert Ranks(ByCode(components), finished);
    OnlyResolution(components, ctcAnnual, resolved);
  }

  lemma NoResolution(components: seq<Component>, ctcAnnual: real, e: ResolveError)
    requires StandsInTheWay(components, ctcAnnual, e)
    ensures forall amounts :: !IsResolution(components, ctcAnnual, amounts)
    ensures exists other :: StandsInTheWay(components, ctcAnnual, other)
  {
    forall amounts
      ensures !IsResolution(components, ctcAnnual, amounts)
    {
      ObstacleExcludesResolution(components, ctcAnnual, e, amounts);
    }
  }

  lemma OnlyResolution(components: seq<Component>, ctcAnnual: real, resolved: map<string, real>)
    requires IsResolution(components, ctcAnnual, resolved)
    ensures forall amounts :: IsResolution(components, ctcAnnual, amounts) <==> amounts == resolved
    ensures forall e :: !StandsInTheWay(components, ctcAnnual, e)
  {
    forall e | StandsInTheWay(components, ctcAnnual, e)
      ensures false
    {
      ObstacleExcludesResolution(components, ctcAnnual, e, resolved);
    }
    forall amounts | IsResolution(components, ctcAnnual, amounts)
      ensures amounts == resolved
    {
      ResolutionIsUnique(components, ctcAnnual, amounts, resolved);
    }
  }

  lemma {:induction false} CodesAreListed(components: seq<Component>)
    ensures forall code :: code in ByCode(components) <==>
      exists i :: 0 <= i < |components| && components[i].code == code
  {
    if components != [] {
      CodesAreListed(components[..|components| - 1]);
      assert components[|components| - 1].code in ByCode(components);
      forall i | 0 <= i < |components| - 1
        ensures components[i].code in ByCode(components)
      {
        assert components[..|components| - 1][i] == components[i];
      }
    }
  }

  lemma CodeIsListed(components: seq<Component>, i: nat)
    requires i < |components|
    ensures components[i].code in ByCode(components)
  {
    CodesAreListed(components);
  }

  // ---- The listing order does not matter ----

  ghost predicate DistinctCodes(components: seq<Component>) {
    forall i, j :: 0 <= i < j < |components| ==> components[i].code != components[j].code
  }

  lemma {:induction false} ByCodeFinds(components: seq<Component>, c: Component)
    requires DistinctCodes(components) && c in components
    ensures c.code in ByCode(components) && ByCode(components)[c.code] == c
  {
    var front, last := components[..|components| - 1], components[|components| - 1];
    if c != last {
      var i :| 0 <= i < |components| && components[i] == c;
      assert front[i] == c;
      ByCodeFinds(front, c);
    }
  }

  /** Two listings of the same components have the same resolution, or neither has one. */
  lemma OrderDoesNotMatter(components: seq<Component>, others: seq<Component>, ctcAnnual: real,
      amounts: map<string, real>)
    requires DistinctCodes(components) && DistinctCodes(others)
    requires multiset(components) == multiset(others)
    ensures IsResolution(components, ctcAnnual, amounts) <==> IsResolution(others, ctcAnnual, amounts)
  {
    assert forall c :: c in components <==> c in multiset(components);
    assert forall c :: c in others <==> c in multiset(others);
    CodesAreListed(components);
    CodesAreListed(others);
    forall code | code in ByCode(components) || code in ByCode(others)
      ensures code in ByCode(components) && code in ByCode(others)
      ensures ByCode(components)[code] == ByCode(others)[code]
    {
      var c: Component;
      if code in ByCode(components) {
        var i :| 0 <= i < |components| && components[i].code == code;
        c := components[i];
      } else {
        var i :| 0 <= i < |others| && others[i].code == code;
        c := others[i];
      }
      assert c in multiset(components) && c in multiset(others);
      ByCodeFinds(components, c);
      ByCodeFinds(others, c);
    }
    assert ByCode(components) == ByCode(others);
  }
}

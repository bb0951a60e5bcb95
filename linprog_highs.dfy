/** The pre- and post-processing that `_linprog_highs` wraps around the
    HiGHS solver: option sanitisation, the two-sided row bounds HiGHS
    expects, the replacement of infinite bounds by a large constant, and
    the translation of the solver's answer (status, slack split, iteration
    count). The solver itself is a function parameter. */
module LinprogHighs {
  import opened Wrappers

  /** An extended real: a finite value or one of the two infinities. */
  datatype Ext = Finite(v: real) | PosInf | NegInf

  /** `lo <= v` with lo an extended real. */
  predicate AtMost(lo: Ext, v: real)
  {
    match lo
    case Finite(b) => b <= v
    case PosInf => false
    case NegInf => true
  }

  /** `v <= hi` with hi an extended real. */
  predicate AtLeast(hi: Ext, v: real)
  {
    match hi
    case Finite(b) => v <= b
    case PosInf => true
    case NegInf => false
  }

  // ---------------------------------------------------------------------
  // _replace_inf
  // ---------------------------------------------------------------------

  /** One entry after `_replace_inf`: an infinity becomes its sign times
      CONST_INF, a finite value stays. */
  function ReplacedEntry(e: Ext, constInf: real): (r: Ext)
    ensures r.Finite?
    ensures e.Finite? ==> r == e
    ensures e == PosInf ==> r.v == constInf
    ensures e == NegInf ==> r.v == -constInf
  {
    match e
    case Finite(_) => e
    case PosInf => Finite(1.0 * constInf)
    case NegInf => Finite(-1.0 * constInf)
  }

  function ReplacedAll(s: seq<Ext>, constInf: real): (r: seq<Ext>)
    ensures |r| == |s| && forall i :: 0 <= i < |s| ==> r[i] == ReplacedEntry(s[i], constInf)
  {
    seq(|s|, i requires 0 <= i < |s| => ReplacedEntry(s[i], constInf))
  }

  /** `_replace_inf` overwrites the infinite entries of its argument in
      place (a masked assignment) and returns the same array. */
  method ReplaceInf(x: array<Ext>, constInf: real) returns (r: array<Ext>)
    modifies x
    ensures r == x
    ensures x[..] == ReplacedAll(old(x[..]), constInf)
  {
    forall i | 0 <= i < x.Length && !x[i].Finite? {
      x[i] := Finite((if x[i] == PosInf then 1.0 else -1.0) * constInf);
    }
    return x;
  }

  /** After the replacement every entry is finite, finite entries are
      untouched, and replacing again changes nothing. */
  lemma {:induction false} ReplaceInfIdempotent(s: seq<Ext>, constInf: real)
    ensures forall i :: 0 <= i < |s| ==> ReplacedAll(s, constInf)[i].Finite?
    ensures forall i :: 0 <= i < |s| && s[i].Finite? ==> ReplacedAll(s, constInf)[i] == s[i]
    ensures ReplacedAll(ReplacedAll(s, constInf), constInf) == ReplacedAll(s, constInf)
  {
  }

  /** With every activity strictly between -CONST_INF and CONST_INF, a
      replaced lower or upper bound admits exactly the activities the
      infinite one admitted. */
  lemma {:induction false} ReplacedBoundAdmitsSame(e: Ext, v: real, constInf: real)
    requires -constInf < v < constInf
    ensures AtMost(ReplacedEntry(e, constInf), v) <==> AtMost(e, v)
    ensures AtLeast(ReplacedEntry(e, constInf), v) <==> AtLeast(e, v)
  {
  }

  // ---------------------------------------------------------------------
  // _check_invalid_option_values and the option sanitisation
  // ---------------------------------------------------------------------

  /** An option outside its allowed set falls back to the default (with a
      warning, not modelled). */
  function CheckInvalidOptionValues<T(==)>(option: T, allowed: set<T>, default: T): (r: T)
    ensures r == option || r == default
    ensures option in allowed ==> r == option
    ensures option !in allowed ==> r == default
    ensures default in allowed ==> r in allowed
  {
    if option !in allowed then default else option
  }

  /** The check is idempotent when the default is itself allowed. */
  lemma {:induction false} CheckInvalidOptionValuesIdempotent<T>(option: T, allowed: set<T>, default: T)
    requires default in allowed
    ensures CheckInvalidOptionValues(CheckInvalidOptionValues(option, allowed, default), allowed, default)
            == CheckInvalidOptionValues(option, allowed, default)
  {
  }

  /** A tolerance or limit that is given and negative is dropped (None,
      the solver's default); None and non-negative values are kept. */
  function KeepNonNegative<T>(value: Option<T>, negative: T -> bool): (r: Option<T>)
    ensures r.Some? <==> value.Some? && !negative(value.value)
    ensures r.Some? ==> r == value
  {
    if value.Some? && negative(value.value) then None else value
  }

  const MessageLevels: set<int> := {0, 1, 2, 4, 7}

  /** `Some(i)` for 0 <= i < count, together with None. */
  function StrategyRange(count: nat): (r: set<Option<int>>)
    ensures None in r
    ensures forall i :: Some(i) in r <==> 0 <= i < count
  {
    {None} + set i | 0 <= i < count :: Some(i)
  }

  /** The options as the caller passes them. */
  datatype UserOptions = UserOptions(
    solver: Option<string>,
    timeLimit: Option<real>,
    presolve: bool,
    disp: bool,
    maxiter: Option<int>,
    dualFeasibilityTolerance: Option<real>,
    dualObjectiveValueUpperBound: Option<real>,
    messageLevel: int,
    primalFeasibilityTolerance: Option<real>,
    simplexCrashStrategy: Option<int>,
    simplexDualEdgeWeightStrategy: Option<int>,
    simplexPrimalEdgeWeightStrategy: Option<int>,
    simplexStrategy: Option<int>,
    simplexUpdateLimit: Option<int>)

  /** The options dictionary handed to HiGHS; sense 1 is minimisation. */
  datatype SolverOptions = SolverOptions(
    presolve: bool,
    sense: int,
    solver: Option<string>,
    timeLimit: Option<real>,
    messageLevel: int,
    dualFeasibilityTolerance: Option<real>,
    dualObjectiveValueUpperBound: Option<real>,
    primalFeasibilityTolerance: Option<real>,
    simplexCrashStrategy: Option<int>,
    simplexDualEdgeWeightStrategy: Option<int>,
    simplexPrimalEdgeWeightStrategy: Option<int>,
    simplexStrategy: Option<int>,
    simplexUpdateLimit: Option<int>,
    ipmIterationLimit: Option<int>,
    simplexIterationLimit: Option<int>)

  /** The options after sanitisation: every value HiGHS receives is within
      its documented range, the message level is 0 unless `disp` is set,
      and both iteration limits are `maxiter`. */
  predicate Sane(o: SolverOptions)
  {
    && o.sense == 1
    && o.messageLevel in MessageLevels
    && (o.dualFeasibilityTolerance.Some? ==> o.dualFeasibilityTolerance.value >= 0.0)
    && (o.primalFeasibilityTolerance.Some? ==> o.primalFeasibilityTolerance.value >= 0.0)
    && (o.simplexUpdateLimit.Some? ==> o.simplexUpdateLimit.value >= 0)
    && o.simplexCrashStrategy in StrategyRange(10)
    && o.simplexDualEdgeWeightStrategy in StrategyRange(5)
    && o.simplexPrimalEdgeWeightStrategy in StrategyRange(2)
    && o.simplexStrategy in StrategyRange(5)
    && o.ipmIterationLimit == o.simplexIterationLimit
  }

  /** The sanitisation at the head of `_linprog_highs` and the options
      dictionary built from its results. */
  function SanitizeOptions(u: UserOptions): (r: SolverOptions)
    ensures Sane(r)
    ensures !u.disp ==> r.messageLevel == 0
    ensures u.disp ==> r.messageLevel == if u.messageLevel in MessageLevels then u.messageLevel else 1
    ensures r.ipmIterationLimit == u.maxiter
    ensures r.presolve == u.presolve && r.solver == u.solver && r.timeLimit == u.timeLimit
    ensures r.dualObjectiveValueUpperBound == u.dualObjectiveValueUpperBound
  {
    var dualTol := KeepNonNegative(u.dualFeasibilityTolerance, (t: real) => t < 0.0);
    var primalTol := KeepNonNegative(u.primalFeasibilityTolerance, (t: real) => t < 0.0);
    var updateLimit := KeepNonNegative(u.simplexUpdateLimit, (l: int) => l < 0);
    var level := CheckInvalidOptionValues(u.messageLevel, MessageLevels, 1);
    var crash := CheckInvalidOptionValues(u.simplexCrashStrategy, StrategyRange(10), None);
    var dualEdge := CheckInvalidOptionValues(u.simplexDualEdgeWeightStrategy, StrategyRange(5), None);
    var primalEdge := CheckInvalidOptionValues(u.simplexPrimalEdgeWeightStrategy, StrategyRange(2), None);
    var strategy := CheckInvalidOptionValues(u.simplexStrategy, StrategyRange(5), None);
    SolverOptions(
      u.presolve, 1, u.solver, u.timeLimit,
      if u.disp then level else 0,
      dualTol, u.dualObjectiveValueUpperBound, primalTol,
      crash, dualEdge, primalEdge, strategy, updateLimit,
      u.maxiter, u.maxiter)
  }

  /** Each option is checked on its own: one that is already in range
      reaches HiGHS unchanged, whatever the other options hold. */
  lemma {:induction false} SanitizeKeepsValidOptions(u: UserOptions)
    ensures var r := SanitizeOptions(u);
      && (u.messageLevel in MessageLevels ==> r.messageLevel == (if u.disp then u.messageLevel else 0))
      && (u.dualFeasibilityTolerance.Some? && u.dualFeasibilityTolerance.value >= 0.0 ==> r.dualFeasibilityTolerance == u.dualFeasibilityTolerance)
      && (u.dualFeasibilityTolerance.None? ==> r.dualFeasibilityTolerance == None)
      && (u.primalFeasibilityTolerance.Some? && u.primalFeasibilityTolerance.value >= 0.0 ==> r.primalFeasibilityTolerance == u.primalFeasibilityTolerance)
      && (u.primalFeasibilityTolerance.None? ==> r.primalFeasibilityTolerance == None)
      && (u.simplexUpdateLimit.Some? && u.simplexUpdateLimit.value >= 0 ==> r.simplexUpdateLimit == u.simplexUpdateLimit)
      && (u.simplexUpdateLimit.None? ==> r.simplexUpdateLimit == None)
      && (u.simplexCrashStrategy in StrategyRange(10) ==> r.simplexCrashStrategy == u.simplexCrashStrategy)
      && (u.simplexDualEdgeWeightStrategy in StrategyRange(5) ==> r.simplexDualEdgeWeightStrategy == u.simplexDualEdgeWeightStrategy)
      && (u.simplexPrimalEdgeWeightStrategy in StrategyRange(2) ==> r.simplexPrimalEdgeWeightStrategy == u.simplexPrimalEdgeWeightStrategy)
      && (u.simplexStrategy in StrategyRange(5) ==> r.simplexStrategy == u.simplexStrategy)
  {
  }

  /** A negative tolerance or update limit is dropped, and an out-of-range
      message level or strategy falls back to its default. */
  lemma {:induction false} SanitizeResetsInvalidOptions(u: UserOptions)
    ensures var r := SanitizeOptions(u);
      && (u.dualFeasibilityTolerance.Some? && u.dualFeasibilityTolerance.value < 0.0 ==> r.dualFeasibilityTolerance == None)
      && (u.primalFeasibilityTolerance.Some? && u.primalFeasibilityTolerance.value < 0.0 ==> r.primalFeasibilityTolerance == None)
      && (u.simplexUpdateLimit.Some? && u.simplexUpdateLimit.value < 0 ==> r.simplexUpdateLimit == None)
      && (u.disp && u.messageLevel !in MessageLevels ==> r.messageLevel == 1)
      && (u.simplexCrashStrategy !in StrategyRange(10) ==> r.simplexCrashStrategy == None)
      && (u.simplexDualEdgeWeightStrategy !in StrategyRange(5) ==> r.simplexDualEdgeWeightStrategy == None)
      && (u.simplexPrimalEdgeWeightStrategy !in StrategyRange(2) ==> r.simplexPrimalEdgeWeightStrategy == None)
      && (u.simplexStrategy !in StrategyRange(5) ==> r.simplexStrategy == None)
  {
  }

  // ---------------------------------------------------------------------
  // Row bounds
  // ---------------------------------------------------------------------

  datatype RowBounds = RowBounds(lhs: seq<Ext>, rhs: seq<Ext>)

  /** HiGHS solves lhs <= A x <= rhs: the inequality rows come first with
      lhs = -inf and rhs = b_ub, then the equality rows with lhs = rhs =
      b_eq. */
  function AssembleBounds(bUb: seq<real>, bEq: seq<real>): (r: RowBounds)
    ensures |r.lhs| == |r.rhs| == |bUb| + |bEq|
  {
    var lhsUb := seq(|bUb|, i => NegInf);
    var rhsUb := seq(|bUb|, i requires 0 <= i < |bUb| => Finite(bUb[i]));
    var eq := seq(|bEq|, i requires 0 <= i < |bEq| => Finite(bEq[i]));
    RowBounds(lhsUb + eq, rhsUb + eq)
  }

  /** Row activities `ax` (the entries of A x) within the two-sided bounds. */
  predicate WithinRows(b: RowBounds, ax: seq<real>)
    requires |b.lhs| == |b.rhs| == |ax|
  {
    forall i :: 0 <= i < |ax| ==> AtMost(b.lhs[i], ax[i]) && AtLeast(b.rhs[i], ax[i])
  }

  /** The constraints as the caller states them: A_ub x <= b_ub and
      A_eq x == b_eq, with the inequality activities first. */
  predicate SatisfiesOriginal(bUb: seq<real>, bEq: seq<real>, ax: seq<real>)
    requires |ax| == |bUb| + |bEq|
  {
    && (forall i :: 0 <= i < |bUb| ==> ax[i] <= bUb[i])
    && (forall j :: 0 <= j < |bEq| ==> ax[|bUb| + j] == bEq[j])
  }

  /** The two-sided rows describe exactly the caller's constraints. */
  lemma {:induction false} AssembledRowsMatchConstraints(bUb: seq<real>, bEq: seq<real>, ax: seq<real>)
    requires |ax| == |bUb| + |bEq|
    ensures WithinRows(AssembleBounds(bUb, bEq), ax) <==> SatisfiesOriginal(bUb, bEq, ax)
  {
    var b := AssembleBounds(bUb, bEq);
    if WithinRows(b, ax) {
      forall j | 0 <= j < |bEq|
        ensures ax[|bUb| + j] == bEq[j]
      {
        var i := |bUb| + j;
        assert AtMost(b.lhs[i], ax[i]) && AtLeast(b.rhs[i], ax[i]);
      }
      forall i | 0 <= i < |bUb|
        ensures ax[i] <= bUb[i]
      {
        assert AtLeast(b.rhs[i], ax[i]);
      }
    }
    if SatisfiesOriginal(bUb, bEq, ax) {
      forall i | 0 <= i < |ax|
        ensures AtMost(b.lhs[i], ax[i]) && AtLeast(b.rhs[i], ax[i])
      {
        if i >= |bUb| {
          assert ax[|bUb| + (i - |bUb|)] == bEq[i - |bUb|];
        }
      }
    }
  }

  /** Replacing the infinite row bounds by +-CONST_INF keeps the feasible
      activities when every activity lies strictly inside
      (-CONST_INF, CONST_INF). */
  lemma {:induction false} ReplacedRowsMatchConstraints(bUb: seq<real>, bEq: seq<real>, ax: seq<real>, constInf: real)
    requires |ax| == |bUb| + |bEq|
    requires forall i :: 0 <= i < |ax| ==> -constInf < ax[i] < constInf
    ensures var b := AssembleBounds(bUb, bEq);
      WithinRows(RowBounds(ReplacedAll(b.lhs, constInf), ReplacedAll(b.rhs, constInf)), ax)
      <==> SatisfiesOriginal(bUb, bEq, ax)
  {
    var b := AssembleBounds(bUb, bEq);
    var rb := RowBounds(ReplacedAll(b.lhs, constInf), ReplacedAll(b.rhs, constInf));
    forall i | 0 <= i < |ax|
      ensures (AtMost(rb.lhs[i], ax[i]) && AtLeast(rb.rhs[i], ax[i]))
              <==> (AtMost(b.lhs[i], ax[i]) && AtLeast(b.rhs[i], ax[i]))
    {
      ReplacedBoundAdmitsSame(b.lhs[i], ax[i], constInf);
      ReplacedBoundAdmitsSame(b.rhs[i], ax[i], constInf);
    }
    AssembledRowsMatchConstraints(bUb, bEq, ax);
  }

  // ---------------------------------------------------------------------
  // The solver's answer
  // ---------------------------------------------------------------------

  /** The HiGHS model statuses `_linprog_highs` lists, and any other code
      the solver could report. */
  datatype ModelStatus =
    | NotSet | LoadError | ModelError | ModelEmpty | PresolveError | SolveError
    | PostsolveError | ReachedDualObjectiveValueUpperBound | PrimalInfeasible
    | PrimalUnbounded | Optimal | ReachedTimeLimit | ReachedIterationLimit
    | Unlisted(code: int)

  datatype StatusEntry = StatusEntry(code: int, message: string)

  /** The `linprog` status code the table gives each listed HiGHS status. */
  function StatusCode(s: ModelStatus): (r: int)
    ensures 0 <= r <= 4
  {
    match s
    case Optimal => 0
    case ReachedTimeLimit => 1
    case ReachedIterationLimit => 1
    case PrimalInfeasible => 2
    case PrimalUnbounded => 3
    case _ => 4
  }

  /** The message the table gives each listed HiGHS status. */
  function StatusMessage(s: ModelStatus): string
  {
    match s
    case NotSet => "HiGHS Status Code 0: HighsModelStatusNOTSET"
    case LoadError => "HiGHS Status Code 1: HighsModelStatusLOAD_ERROR"
    case ModelError => "HiGHS Status Code 2: HighsModelStatusMODEL_ERROR"
    case ModelEmpty => "HiGHS Status Code 3: HighsModelStatusMODEL_EMPTY"
    case PresolveError => "HiGHS Status Code 4: HighsModelStatusPRESOLVE_ERROR"
    case SolveError => "HiGHS Status Code 5: HighsModelStatusSOLVE_ERROR"
    case PostsolveError => "HiGHS Status Code 6: HighsModelStatusPOSTSOLVE_ERROR"
    case ReachedDualObjectiveValueUpperBound =>
      "HiGHS Status Code 10: HighsModelStatusREACHED_DUAL_OBJECTIVE_VALUE_UPPER_BOUND"
    case PrimalInfeasible => "The problem is infeasible."
    case PrimalUnbounded => "The problem is unbounded."
    case Optimal => "Optimization terminated successfully."
    case ReachedTimeLimit => "Time limit reached."
    case ReachedIterationLimit => "Iteration limit reached."
    case Unlisted(_) => ""
  }

  /** The status table: a `linprog` status code and a message per listed
      HiGHS status; an unlisted status has no entry (a KeyError). */
  function StatusOf(s: ModelStatus): (r: Option<StatusEntry>)
    ensures r.None? <==> s.Unlisted?
    ensures r.Some? ==> 0 <= r.value.code <= 4
  {
    if s.Unlisted? then None else Some(StatusEntry(StatusCode(s), StatusMessage(s)))
  }

  /** What each `linprog` code means: 0 only for an optimum, 1 for a time
      or iteration limit, 2 for infeasibility, 3 for unboundedness, 4 for
      every other listed status. */
  lemma {:induction false} StatusCodesMeaning(s: ModelStatus)
    requires !s.Unlisted?
    ensures StatusCode(s) == 0 <==> s == Optimal
    ensures StatusCode(s) == 1 <==> s == ReachedTimeLimit || s == ReachedIterationLimit
    ensures StatusCode(s) == 2 <==> s == PrimalInfeasible
    ensures StatusCode(s) == 3 <==> s == PrimalUnbounded
    ensures StatusCode(s) == 4 <==>
      s in {NotSet, LoadError, ModelError, ModelEmpty, PresolveError, SolveError, PostsolveError,
            ReachedDualObjectiveValueUpperBound}
  {
  }

  /** What `highs_wrapper` returns; an absent key is None. */
  datatype SolverResult = SolverResult(
    x: Option<seq<real>>,
    slack: Option<seq<real>>,
    fun: Option<real>,
    status: ModelStatus,
    simplexNit: Option<int>,
    ipmNit: Option<int>)

  datatype SlackSplit = SlackSplit(slack: Option<seq<real>>, con: Option<seq<real>>)

  /** The solver's slack covers all rows: the first len(b_ub) entries are
      the inequality slacks and the rest the equality residuals (Python
      slicing clamps len(b_ub) to the slack's length). */
  function SplitSlack(slack: Option<seq<real>>, nUb: nat): (r: SlackSplit)
    ensures r.slack.None? <==> slack.None?
    ensures r.con.None? <==> slack.None?
    ensures slack.Some? ==> r.slack.value + r.con.value == slack.value
    ensures slack.Some? ==> |r.slack.value| == if nUb < |slack.value| then nUb else |slack.value|
  {
    match slack
    case None => SlackSplit(None, None)
    case Some(s) =>
      var cut := if nUb < |s| then nUb else |s|;
      SlackSplit(Some(s[..cut]), Some(s[cut..]))
  }

  /** `simplex_nit or ipm_nit`: the simplex count when it is nonzero,
      otherwise the interior-point count, with 0 for an absent key. */
  function IterationCount(simplexNit: Option<int>, ipmNit: Option<int>): (r: int)
  {
    var s := if simplexNit.Some? then simplexNit.value else 0;
    if s != 0 then s else if ipmNit.Some? then ipmNit.value else 0
  }

  /** The count is the simplex one whenever that is nonzero, the
      interior-point one otherwise, and 0 only when no nonzero count was
      reported. */
  lemma {:induction false} IterationCountChoice(simplexNit: Option<int>, ipmNit: Option<int>)
    ensures simplexNit.Some? && simplexNit.value != 0 ==> IterationCount(simplexNit, ipmNit) == simplexNit.value
    ensures (simplexNit.None? || simplexNit.value == 0) && ipmNit.Some? ==> IterationCount(simplexNit, ipmNit) == ipmNit.value
    ensures IterationCount(simplexNit, ipmNit) == 0 <==>
      (simplexNit.None? || simplexNit.value == 0) && (ipmNit.None? || ipmNit.value == 0)
  {
  }

  datatype Solution = Solution(
    x: Option<seq<real>>,
    slack: Option<seq<real>>,
    fun: Option<real>,
    con: Option<seq<real>>,
    status: int,
    success: bool,
    message: string,
    nit: int)

  /** The dictionary `_linprog_highs` returns, or None when the solver
      reports a status the table does not list (a KeyError). */
  function MakeSolution(res: SolverResult, nUb: nat): (r: Option<Solution>)
    ensures r.None? <==> res.status.Unlisted?
    ensures r.Some? ==> (r.value.success <==> r.value.status == 0)
    ensures r.Some? ==> r.value.x == res.x && r.value.fun == res.fun
    ensures r.Some? ==> r.value.status == StatusCode(res.status)
    ensures r.Some? ==> r.value.nit == IterationCount(res.simplexNit, res.ipmNit)
    ensures r.Some? ==> r.value.message == StatusMessage(res.status)
    ensures r.Some? ==> r.value.slack == SplitSlack(res.slack, nUb).slack && r.value.con == SplitSlack(res.slack, nUb).con
    ensures r.Some? && res.slack.None? ==> r.value.slack.None? && r.value.con.None?
    ensures r.Some? && res.slack.Some? ==>
      && r.value.slack.Some? && r.value.con.Some?
      && r.value.slack.value + r.value.con.value == res.slack.value
      && |r.value.slack.value| == (if nUb < |res.slack.value| then nUb else |res.slack.value|)
  {
    var split := SplitSlack(res.slack, nUb);
    match StatusOf(res.status)
    case None => None
    case Some(entry) =>
      StatusCodesMeaning(res.status);
      Some(Solution(res.x, split.slack, res.fun, split.con, entry.code,
                    res.status == Optimal, entry.message,
                    IterationCount(res.simplexNit, res.ipmNit)))
  }

  /** The call `_linprog_highs` makes to HiGHS. */
  datatype HighsCall = HighsCall(
    c: seq<real>, lhs: seq<Ext>, rhs: seq<Ext>, lb: seq<Ext>, ub: seq<Ext>, options: SolverOptions)

  /** The call as a function of the problem: sanitised options, assembled
      row bounds, and every bound with its infinities replaced. */
  function PreparedCall(c: seq<real>, bUb: seq<real>, bEq: seq<real>, lb: seq<Ext>, ub: seq<Ext>,
                        u: UserOptions, constInf: real): (r: HighsCall)
    ensures Sane(r.options)
    ensures |r.lhs| == |r.rhs| == |bUb| + |bEq| && |r.lb| == |lb| && |r.ub| == |ub|
    ensures forall i :: 0 <= i < |r.lhs| ==> r.lhs[i].Finite? && r.rhs[i].Finite?
    ensures forall i :: 0 <= i < |lb| ==> r.lb[i].Finite?
    ensures forall i :: 0 <= i < |ub| ==> r.ub[i].Finite?
  {
    var b := AssembleBounds(bUb, bEq);
    HighsCall(c, ReplacedAll(b.lhs, constInf), ReplacedAll(b.rhs, constInf),
              ReplacedAll(lb, constInf), ReplacedAll(ub, constInf), SanitizeOptions(u))
  }

  /** What the prepared call means: the objective and the sanitised options
      reach HiGHS as given; its row bounds admit exactly the activities
      that satisfy the caller's constraints, and its variable bounds admit
      exactly the values the caller's bounds admit, as long as every
      activity and value lies strictly inside (-CONST_INF, CONST_INF);
      finite variable bounds are passed unchanged. */
  lemma {:induction false} PreparedCallMeaning(c: seq<real>, bUb: seq<real>, bEq: seq<real>, lb: seq<Ext>, ub: seq<Ext>,
                                               u: UserOptions, constInf: real, ax: seq<real>, x: seq<real>)
    requires |ax| == |bUb| + |bEq| && |x| == |lb| == |ub|
    requires forall i :: 0 <= i < |ax| ==> -constInf < ax[i] < constInf
    requires forall j :: 0 <= j < |x| ==> -constInf < x[j] < constInf
    ensures var r := PreparedCall(c, bUb, bEq, lb, ub, u, constInf);
      && r.c == c && r.options == SanitizeOptions(u)
      && (WithinRows(RowBounds(r.lhs, r.rhs), ax) <==> SatisfiesOriginal(bUb, bEq, ax))
      && (forall j :: 0 <= j < |x| ==>
            (AtMost(r.lb[j], x[j]) <==> AtMost(lb[j], x[j])) && (AtLeast(r.ub[j], x[j]) <==> AtLeast(ub[j], x[j])))
      && (forall j :: 0 <= j < |lb| && lb[j].Finite? ==> r.lb[j] == lb[j])
      && (forall j :: 0 <= j < |ub| && ub[j].Finite? ==> r.ub[j] == ub[j])
  {
    ReplacedRowsMatchConstraints(bUb, bEq, ax, constInf);
    forall j | 0 <= j < |x|
      ensures AtMost(ReplacedAll(lb, constInf)[j], x[j]) <==> AtMost(lb[j], x[j])
      ensures AtLeast(ReplacedAll(ub, constInf)[j], x[j]) <==> AtLeast(ub[j], x[j])
    {
      ReplacedBoundAdmitsSame(lb[j], x[j], constInf);
      ReplacedBoundAdmitsSame(ub[j], x[j], constInf);
    }
  }

  /** A fresh array holding the bounds (the `copy()` of the bounds). */
  method CopyBounds(s: seq<Ext>) returns (a: array<Ext>)
    ensures fresh(a) && a[..] == s
  {
    a := new Ext[|s|](i requires 0 <= i < |s| => s[i]);
  }

  /** `_linprog_highs`: sanitise, assemble, replace the infinities in
      place, call the solver, and translate its answer. */
  method LinprogHighs(c: seq<real>, bUb: seq<real>, bEq: seq<real>, lb: seq<Ext>, ub: seq<Ext>,
                      u: UserOptions, constInf: real, highs: HighsCall -> SolverResult)
    returns (r: Option<Solution>)
    ensures r == MakeSolution(highs(PreparedCall(c, bUb, bEq, lb, ub, u, constInf)), |bUb|)
  {
    var options := SanitizeOptions(u);
    var b := AssembleBounds(bUb, bEq);
    var rhs := CopyBounds(b.rhs);
    var lhs := CopyBounds(b.lhs);
    var lbs := CopyBounds(lb);
    var ubs := CopyBounds(ub);
    rhs := ReplaceInf(rhs, constInf);
    lhs := ReplaceInf(lhs, constInf);
    lbs := ReplaceInf(lbs, constInf);
    ubs := ReplaceInf(ubs, constInf);
    var res := highs(HighsCall(c, lhs[..], rhs[..], lbs[..], ubs[..], options));
    r := MakeSolution(res, |bUb|);
  }
}

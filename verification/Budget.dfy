/** The budget gate of src/budget.rs: saturating spend, soft and hard lines, fire-once warnings. */
module Budget {
  import opened Common

  datatype Dimension = Tokens | Turns | WallClock | Usd

  /** The order in which a check looks at the dimensions and in which a refusal picks one. */
  const ORDER: seq<Dimension> := [Tokens, Turns, WallClock, Usd]

  /** Tokens, turns and micro-dollars are u64 counts; the duration is in whole milliseconds. */
  datatype Limits = Limits(tokens: Option<nat>, turns: Option<nat>, durationMs: Option<nat>, usdMicro: Option<nat>)

  /** The soft fraction is `numerator / 10_000`, its rational form in the source. */
  datatype RawConfig = Config(limits: Limits, numerator: nat)

  predicate FitsU64(limit: Option<nat>) {
    limit.Some? ==> limit.value <= U64_MAX
  }

  predicate ValidConfig(c: RawConfig) {
    && 1 <= c.numerator <= 10_000
    && FitsU64(c.limits.tokens) && FitsU64(c.limits.turns) && FitsU64(c.limits.usdMicro)
  }

  type Config = c: RawConfig | ValidConfig(c) witness Config(Limits(None, None, None, None), 8_000)

  datatype Warn = Warn(dimension: Dimension, spent: nat, limit: nat)
  datatype HardCrossing = HardCrossing(dimension: Dimension, spent: nat, limit: nat)

  datatype Gate = Gate(tokens: nat, turns: nat, usdMicro: nat, warned: set<Dimension>)

  const FRESH: Gate := Gate(0, 0, 0, {})

  /** The soft line as the source computes it, through a saturating u128 product. */
  function SoftLine(limit: nat, numerator: nat): nat {
    var scaled := SatMul(U128_MAX, limit, numerator) / 10_000;
    if scaled <= U64_MAX then scaled else limit
  }

  /** The product never saturates, the line is the exact floor, and it never lies above the limit. */
  lemma SoftLineIsExact(limit: nat, numerator: nat)
    requires limit <= U64_MAX && 1 <= numerator <= 10_000
    ensures SatMul(U128_MAX, limit, numerator) == limit * numerator
    ensures SoftLine(limit, numerator) == limit * numerator / 10_000
    ensures SoftLine(limit, numerator) <= limit
    ensures numerator == 10_000 ==> SoftLine(limit, numerator) == limit
  {
    assert limit * numerator <= limit * 10_000;
  }

  /** A dimension's hard line in the unit it is compared in. */
  function Line(c: Config, d: Dimension): Option<nat> {
    match d
    case Tokens => c.limits.tokens
    case Turns => c.limits.turns
    case WallClock => if c.limits.durationMs.None? then None else Some(ClampU64(c.limits.durationMs.value))
    case Usd => c.limits.usdMicro
  }

  function Spent(g: Gate, elapsedMs: nat, d: Dimension): nat {
    match d
    case Tokens => g.tokens
    case Turns => g.turns
    case WallClock => ClampU64(elapsedMs)
    case Usd => g.usdMicro
  }

  // ---------------------------------------------------------------- what a check reports

  predicate AtHard(c: Config, g: Gate, elapsedMs: nat, d: Dimension) {
    Line(c, d).Some? && Spent(g, elapsedMs, d) >= Line(c, d).value
  }

  predicate AtSoft(c: Config, g: Gate, elapsedMs: nat, d: Dimension) {
    Line(c, d).Some? && Spent(g, elapsedMs, d) >= SoftLine(Line(c, d).value, c.numerator)
  }

  /** The dimensions of `ds`, in order, that reach their soft line and have not warned yet. */
  function Warns(c: Config, g: Gate, elapsedMs: nat, ds: seq<Dimension>): seq<Warn> {
    if ds == [] then []
    else
      (if AtSoft(c, g, elapsedMs, ds[0]) && ds[0] !in g.warned
       then [Warn(ds[0], Spent(g, elapsedMs, ds[0]), Line(c, ds[0]).value)] else [])
      + Warns(c, g, elapsedMs, ds[1..])
  }

  function FirstHard(c: Config, g: Gate, elapsedMs: nat, ds: seq<Dimension>): Option<HardCrossing> {
    if ds == [] then None
    else if AtHard(c, g, elapsedMs, ds[0]) then
      Some(HardCrossing(ds[0], Spent(g, elapsedMs, ds[0]), Line(c, ds[0]).value))
    else FirstHard(c, g, elapsedMs, ds[1..])
  }

  function Checked(c: Config, g: Gate, elapsedMs: nat): Gate {
    g.(warned := g.warned + set d | d in ORDER && AtSoft(c, g, elapsedMs, d))
  }

  predicate Refused(c: Config, g: Gate, elapsedMs: nat) {
    FirstHard(c, g, elapsedMs, ORDER).Some?
  }

  /** The spend has come to the limit. */
  predicate Reaches(limit: Option<nat>, spent: nat) {
    limit.Some? && limit.value <= spent
  }

  /** The spend has come to the limit's share, `numerator` parts of ten thousand, rounded down. */
  predicate Nears(limit: Option<nat>, spent: nat, numerator: nat) {
    limit.Some? && limit.value * numerator < 10_000 * (spent + 1)
  }

  function Capped(limit: Option<nat>): Option<nat> {
    if limit.Some? then Some(Min(limit.value, U64_MAX)) else None
  }

  lemma NearsIff(limit: nat, spent: nat, numerator: nat)
    requires limit <= U64_MAX && 1 <= numerator <= 10_000
    ensures spent >= SoftLine(limit, numerator) <==> limit * numerator < 10_000 * (spent + 1)
  {
    SoftLineIsExact(limit, numerator);
  }

  lemma SoftIff(c: Config, g: Gate, elapsedMs: nat, d: Dimension)
    ensures AtSoft(c, g, elapsedMs, d) <==> Nears(Line(c, d), Spent(g, elapsedMs, d), c.numerator)
  {
    if Line(c, d).Some? {
      NearsIff(Line(c, d).value, Spent(g, elapsedMs, d), c.numerator);
    }
  }

  /**
   Where the lines are, on the limits as they are configured. Elapsed and limiting milliseconds are
   compared as u64 counts.
   */
  lemma LinesAreTheLimits(c: Config, g: Gate, elapsedMs: nat)
    ensures AtHard(c, g, elapsedMs, Tokens) <==> c.limits.tokens.Some? && c.limits.tokens.value <= g.tokens
    ensures AtHard(c, g, elapsedMs, Turns) <==> c.limits.turns.Some? && c.limits.turns.value <= g.turns
    ensures AtHard(c, g, elapsedMs, Usd) <==> c.limits.usdMicro.Some? && c.limits.usdMicro.value <= g.usdMicro
    ensures AtHard(c, g, elapsedMs, WallClock) <==>
      c.limits.durationMs.Some? && (c.limits.durationMs.value <= elapsedMs || U64_MAX <= elapsedMs)
    ensures AtSoft(c, g, elapsedMs, Tokens) <==>
      c.limits.tokens.Some? && c.limits.tokens.value * c.numerator < 10_000 * (g.tokens + 1)
    ensures AtSoft(c, g, elapsedMs, Turns) <==>
      c.limits.turns.Some? && c.limits.turns.value * c.numerator < 10_000 * (g.turns + 1)
    ensures AtSoft(c, g, elapsedMs, Usd) <==>
      c.limits.usdMicro.Some? && c.limits.usdMicro.value * c.numerator < 10_000 * (g.usdMicro + 1)
    ensures AtSoft(c, g, elapsedMs, WallClock) <==>
      c.limits.durationMs.Some?
      && Min(c.limits.durationMs.value, U64_MAX) * c.numerator < 10_000 * (Min(elapsedMs, U64_MAX) + 1)
  {
    SoftIff(c, g, elapsedMs, Tokens);
    SoftIff(c, g, elapsedMs, Turns);
    SoftIff(c, g, elapsedMs, WallClock);
    SoftIff(c, g, elapsedMs, Usd);
  }

  function WarnOnce(d: Dimension, fired: bool, limit: Option<nat>, spent: nat, numerator: nat): seq<Warn> {
    if !fired && Nears(limit, spent, numerator) then [Warn(d, spent, limit.value)] else []
  }

  lemma WarnOfIs(c: Config, g: Gate, elapsedMs: nat, d: Dimension)
    ensures WarnOf(c, g, elapsedMs, d)
      == WarnOnce(d, d in g.warned, Line(c, d), Spent(g, elapsedMs, d), c.numerator)
  {
    SoftIff(c, g, elapsedMs, d);
  }

  lemma HardIsSoft(c: Config, g: Gate, elapsedMs: nat, d: Dimension)
    requires AtHard(c, g, elapsedMs, d)
    ensures AtSoft(c, g, elapsedMs, d)
  {
    SoftLineIsExact(Line(c, d).value, c.numerator);
  }

  lemma InOrder(d: Dimension)
    ensures d in ORDER
  {
    assert ORDER[0] == Tokens && ORDER[1] == Turns && ORDER[2] == WallClock && ORDER[3] == Usd;
  }

  function WarnOf(c: Config, g: Gate, elapsedMs: nat, d: Dimension): seq<Warn> {
    if AtSoft(c, g, elapsedMs, d) && d !in g.warned then [Warn(d, Spent(g, elapsedMs, d), Line(c, d).value)] else []
  }

  function HardOf(c: Config, g: Gate, elapsedMs: nat, d: Dimension): Option<HardCrossing> {
    if AtHard(c, g, elapsedMs, d) then Some(HardCrossing(d, Spent(g, elapsedMs, d), Line(c, d).value)) else None
  }

  function LatchOf(c: Config, g: Gate, elapsedMs: nat, d: Dimension): set<Dimension> {
    if AtSoft(c, g, elapsedMs, d) then {d} else {}
  }

  function OrElse<T>(a: Option<T>, b: Option<T>): Option<T> {
    if a.Some? then a else b
  }

  lemma WarnsUnfold(c: Config, g: Gate, elapsedMs: nat)
    ensures Warns(c, g, elapsedMs, ORDER) ==
      WarnOf(c, g, elapsedMs, Tokens) + WarnOf(c, g, elapsedMs, Turns)
      + WarnOf(c, g, elapsedMs, WallClock) + WarnOf(c, g, elapsedMs, Usd)
  {
    WarnsHead(c, g, elapsedMs, ORDER);
    WarnsHead(c, g, elapsedMs, [Turns, WallClock, Usd]);
    WarnsHead(c, g, elapsedMs, [WallClock, Usd]);
    WarnsHead(c, g, elapsedMs, [Usd]);
    assert ORDER[1..] == [Turns, WallClock, Usd] && [Turns, WallClock, Usd][1..] == [WallClock, Usd];
    assert [WallClock, Usd][1..] == [Usd] && [Usd][1..] == [];
    FromTheRight(WarnOf(c, g, elapsedMs, Tokens), WarnOf(c, g, elapsedMs, Turns),
                 WarnOf(c, g, elapsedMs, WallClock), WarnOf(c, g, elapsedMs, Usd));
  }

  lemma FromTheRight(t: seq<Warn>, u: seq<Warn>, v: seq<Warn>, w: seq<Warn>)
    ensures t + (u + (v + (w + []))) == t + u + v + w
  {
  }

  lemma WarnsHead(c: Config, g: Gate, elapsedMs: nat, ds: seq<Dimension>)
    requires ds != []
    ensures Warns(c, g, elapsedMs, ds) == WarnOf(c, g, elapsedMs, ds[0]) + Warns(c, g, elapsedMs, ds[1..])
  {
  }

  lemma FirstHardUnfolds(c: Config, g: Gate, elapsedMs: nat)
    ensures FirstHard(c, g, elapsedMs, ORDER) ==
      OrElse(OrElse(OrElse(HardOf(c, g, elapsedMs, Tokens), HardOf(c, g, elapsedMs, Turns)),
                    HardOf(c, g, elapsedMs, WallClock)),
             HardOf(c, g, elapsedMs, Usd))
  {
    var t1, t2, t3 := [Turns, WallClock, Usd], [WallClock, Usd], [Usd];
    assert ORDER[1..] == t1 && t1[1..] == t2 && t2[1..] == t3 && t3[1..] == [];
    assert FirstHard(c, g, elapsedMs, []) == None;
    assert FirstHard(c, g, elapsedMs, t3) == HardOf(c, g, elapsedMs, Usd);
    assert FirstHard(c, g, elapsedMs, t2) == OrElse(HardOf(c, g, elapsedMs, WallClock), FirstHard(c, g, elapsedMs, t3));
    assert FirstHard(c, g, elapsedMs, t1) == OrElse(HardOf(c, g, elapsedMs, Turns), FirstHard(c, g, elapsedMs, t2));
  }

  lemma LatchesUnfold(c: Config, g: Gate, elapsedMs: nat)
    ensures Checked(c, g, elapsedMs).warned ==
      g.warned + LatchOf(c, g, elapsedMs, Tokens) + LatchOf(c, g, elapsedMs, Turns)
      + LatchOf(c, g, elapsedMs, WallClock) + LatchOf(c, g, elapsedMs, Usd)
  {
    InOrder(Tokens);
    InOrder(Turns);
    InOrder(WallClock);
    InOrder(Usd);
  }

  function Rank(d: Dimension): nat {
    match d
    case Tokens => 0
    case Turns => 1
    case WallClock => 2
    case Usd => 3
  }

  /** A refusal names a crossed line, and no dimension before it in the order is crossed. */
  lemma RefusalNamesTheFirstCrossed(c: Config, g: Gate, elapsedMs: nat, h: HardCrossing)
    ensures FirstHard(c, g, elapsedMs, ORDER) == Some(h) <==>
      && AtHard(c, g, elapsedMs, h.dimension)
      && h.spent == Spent(g, elapsedMs, h.dimension) && Line(c, h.dimension) == Some(h.limit)
      && forall d :: AtHard(c, g, elapsedMs, d) ==> Rank(h.dimension) <= Rank(d)
  {
    FirstHardUnfolds(c, g, elapsedMs);
    match h.dimension
    case Tokens =>
    case Turns =>
    case WallClock =>
    case Usd =>
  }

  lemma RefusedIff(c: Config, g: Gate, elapsedMs: nat)
    ensures Refused(c, g, elapsedMs) <==> exists d :: AtHard(c, g, elapsedMs, d)
  {
    if Refused(c, g, elapsedMs) {
      RefusalNamesTheFirstCrossed(c, g, elapsedMs, FirstHard(c, g, elapsedMs, ORDER).value);
    } else {
      forall d ensures !AtHard(c, g, elapsedMs, d) {
        NoneCrossed(c, g, elapsedMs, ORDER);
        InOrder(d);
      }
    }
  }

  lemma {:induction false} NoneCrossed(c: Config, g: Gate, elapsedMs: nat, ds: seq<Dimension>)
    requires FirstHard(c, g, elapsedMs, ds) == None
    ensures forall d :: d in ds ==> !AtHard(c, g, elapsedMs, d)
  {
    if ds != [] {
      NoneCrossed(c, g, elapsedMs, ds[1..]);
    }
  }

  lemma {:induction false} WarnsDimensions(c: Config, g: Gate, elapsedMs: nat, ds: seq<Dimension>, w: Warn)
    ensures w in Warns(c, g, elapsedMs, ds) <==>
      && w.dimension in ds && AtSoft(c, g, elapsedMs, w.dimension) && w.dimension !in g.warned
      && w.spent == Spent(g, elapsedMs, w.dimension) && Line(c, w.dimension) == Some(w.limit)
  {
    if ds != [] {
      WarnsDimensions(c, g, elapsedMs, ds[1..], w);
    }
  }

  /** Whether this check warns for `d`. */
  ghost predicate WarnsFor(c: Config, g: Gate, elapsedMs: nat, d: Dimension) {
    exists w :: w in Warns(c, g, elapsedMs, ORDER) && w.dimension == d
  }

  lemma WarnsForIff(c: Config, g: Gate, elapsedMs: nat, d: Dimension)
    ensures WarnsFor(c, g, elapsedMs, d) <==> AtSoft(c, g, elapsedMs, d) && d !in g.warned
  {
    InOrder(d);
    if WarnsFor(c, g, elapsedMs, d) {
      var w :| w in Warns(c, g, elapsedMs, ORDER) && w.dimension == d;
      WarnsDimensions(c, g, elapsedMs, ORDER, w);
    }
    if AtSoft(c, g, elapsedMs, d) && d !in g.warned {
      WarnsDimensions(c, g, elapsedMs, ORDER, Warn(d, Spent(g, elapsedMs, d), Line(c, d).value));
    }
  }

  // ---------------------------------------------------------------- runs

  datatype Event = Begin | Usage(input: nat, output: nat) | Cost(micro: nat) | TurnEnd | Check(elapsedMs: nat)

  function Step(c: Config, g: Gate, e: Event): Gate {
    match e
    case Begin => FRESH
    case Usage(i, o) => g.(tokens := SatAdd(U64_MAX, SatAdd(U64_MAX, g.tokens, i), o))
    case Cost(m) => g.(usdMicro := SatAdd(U64_MAX, g.usdMicro, m))
    case TurnEnd => g.(turns := SatAdd(U64_MAX, g.turns, 1))
    case Check(t) => Checked(c, g, t)
  }

  function After(c: Config, events: seq<Event>): Gate {
    if events == [] then FRESH else Step(c, After(c, events[..|events| - 1]), events[|events| - 1])
  }

  ghost predicate NoBegin(run: seq<Event>) {
    Begin !in run
  }

  /** `begin` forgets everything before it, so every run is a run over a fresh gate. */
  lemma {:induction false} BeginRestarts(c: Config, before: seq<Event>, run: seq<Event>)
    ensures After(c, before + [Begin] + run) == After(c, run)
    decreases |run|
  {
    var all := before + [Begin] + run;
    if run == [] {
      assert all[|all| - 1] == Begin;
    } else {
      assert all[..|all| - 1] == before + [Begin] + run[..|run| - 1];
      BeginRestarts(c, before, run[..|run| - 1]);
    }
  }

  /** The unbounded sums of what a run observed. */
  function TokenSum(run: seq<Event>): nat {
    if run == [] then 0
    else
      var e := run[|run| - 1];
      TokenSum(run[..|run| - 1]) + if e.Usage? then e.input + e.output else 0
  }

  function TurnSum(run: seq<Event>): nat {
    if run == [] then 0
    else TurnSum(run[..|run| - 1]) + if run[|run| - 1].TurnEnd? then 1 else 0
  }

  function CostSum(run: seq<Event>): nat {
    if run == [] then 0
    else
      var e := run[|run| - 1];
      CostSum(run[..|run| - 1]) + if e.Cost? then e.micro else 0
  }

  /** However often it saturated, each counter is the true sum clamped once. */
  lemma {:induction false} CountersAreClampedSums(c: Config, run: seq<Event>)
    requires NoBegin(run)
    ensures After(c, run).tokens == ClampU64(TokenSum(run))
    ensures After(c, run).turns == ClampU64(TurnSum(run))
    ensures After(c, run).usdMicro == ClampU64(CostSum(run))
    decreases |run|
  {
    if run != [] {
      assert run[|run| - 1] in run;
      CountersAreClampedSums(c, run[..|run| - 1]);
    }
  }

  /** Some check among the first `n` events saw `d` at or above its soft line. */
  ghost predicate SoftSeen(c: Config, run: seq<Event>, n: nat, d: Dimension)
    requires n <= |run|
  {
    exists i :: 0 <= i < n && run[i].Check? && AtSoft(c, After(c, run[..i]), run[i].elapsedMs, d)
  }

  lemma SoftSeenStep(c: Config, run: seq<Event>, n: nat, d: Dimension)
    requires n < |run|
    ensures SoftSeen(c, run, n + 1, d) <==>
      SoftSeen(c, run, n, d) || (run[n].Check? && AtSoft(c, After(c, run[..n]), run[n].elapsedMs, d))
  {
  }

  lemma StepLatches(c: Config, g: Gate, e: Event, d: Dimension)
    requires e != Begin
    ensures d in Step(c, g, e).warned <==> d in g.warned || (e.Check? && AtSoft(c, g, e.elapsedMs, d))
  {
    InOrder(d);
  }

  /** A latch is set exactly when some check of the run saw the soft line reached. */
  lemma {:induction false} LatchedIffSoftSeen(c: Config, run: seq<Event>, n: nat, d: Dimension)
    requires n <= |run| && NoBegin(run)
    ensures d in After(c, run[..n]).warned <==> SoftSeen(c, run, n, d)
  {
    if n > 0 {
      var prefix := run[..n];
      assert prefix[..n - 1] == run[..n - 1] && prefix[n - 1] == run[n - 1];
      assert run[n - 1] in run;
      LatchedIffSoftSeen(c, run, n - 1, d);
      SoftSeenStep(c, run, n - 1, d);
      StepLatches(c, After(c, run[..n - 1]), run[n - 1], d);
    }
  }

  /** A check warns for a dimension exactly when it is the run's first to see its soft line reached. */
  lemma WarnsExactlyOnce(c: Config, run: seq<Event>, i: nat, d: Dimension)
    requires i < |run| && NoBegin(run) && run[i].Check?
    ensures WarnsFor(c, After(c, run[..i]), run[i].elapsedMs, d) <==>
      AtSoft(c, After(c, run[..i]), run[i].elapsedMs, d) && !SoftSeen(c, run, i, d)
  {
    WarnsForIff(c, After(c, run[..i]), run[i].elapsedMs, d);
    LatchedIffSoftSeen(c, run, i, d);
  }

  /** No refusal without a warning: the dimension warned at this check or at an earlier one. */
  lemma {:induction false} RefusedOnlyAfterWarning(c: Config, run: seq<Event>, i: nat, d: Dimension)
    requires i < |run| && NoBegin(run) && run[i].Check?
    requires AtHard(c, After(c, run[..i]), run[i].elapsedMs, d)
    ensures exists j :: 0 <= j <= i && run[j].Check? && WarnsFor(c, After(c, run[..j]), run[j].elapsedMs, d)
  {
    HardIsSoft(c, After(c, run[..i]), run[i].elapsedMs, d);
    FirstSoftWarns(c, run, i, d);
  }

  lemma {:induction false} FirstSoftWarns(c: Config, run: seq<Event>, i: nat, d: Dimension)
    requires i < |run| && NoBegin(run) && run[i].Check?
    requires AtSoft(c, After(c, run[..i]), run[i].elapsedMs, d)
    ensures exists j :: 0 <= j <= i && run[j].Check? && WarnsFor(c, After(c, run[..j]), run[j].elapsedMs, d)
    decreases i
  {
    WarnsExactlyOnce(c, run, i, d);
    if SoftSeen(c, run, i, d) {
      var k :| 0 <= k < i && run[k].Check? && AtSoft(c, After(c, run[..k]), run[k].elapsedMs, d);
      FirstSoftWarns(c, run, k, d);
    }
  }

  lemma {:induction false} CountersGrow(c: Config, run: seq<Event>, i: nat, k: nat)
    requires i <= k <= |run| && NoBegin(run)
    ensures After(c, run[..i]).tokens <= After(c, run[..k]).tokens
    ensures After(c, run[..i]).turns <= After(c, run[..k]).turns
    ensures After(c, run[..i]).usdMicro <= After(c, run[..k]).usdMicro
    decreases k
  {
    if i < k {
      CountersGrow(c, run, i, k - 1);
      CountersAreClampedSums(c, run[..k - 1]);
      assert run[..k][..k - 1] == run[..k - 1];
      assert run[k - 1] in run;
    }
  }

  /** Once refused, every later check of the run with the clock not run back is refused too. */
  lemma RefusalIsSticky(c: Config, run: seq<Event>, i: nat, k: nat)
    requires i < k < |run| && NoBegin(run) && run[i].Check? && run[k].Check?
    requires run[i].elapsedMs <= run[k].elapsedMs
    requires Refused(c, After(c, run[..i]), run[i].elapsedMs)
    ensures Refused(c, After(c, run[..k]), run[k].elapsedMs)
  {
    CountersGrow(c, run, i, k);
    RefusedIff(c, After(c, run[..i]), run[i].elapsedMs);
    var d :| AtHard(c, After(c, run[..i]), run[i].elapsedMs, d);
    assert AtHard(c, After(c, run[..k]), run[k].elapsedMs, d);
    RefusedIff(c, After(c, run[..k]), run[k].elapsedMs);
  }

  /**
   The USD line of a gate that prices nothing is inert, except where its line is zero: it
   refuses if and only if the limit is zero micro-dollars, and it reaches its soft line if and
   only if the limit's fraction rounds down to zero.
   */
  lemma UnpricedUsdLine(c: Config, run: seq<Event>, elapsedMs: nat)
    requires NoBegin(run) && CostSum(run) == 0
    ensures AtHard(c, After(c, run), elapsedMs, Usd) <==> c.limits.usdMicro == Some(0)
    ensures AtSoft(c, After(c, run), elapsedMs, Usd) <==>
      c.limits.usdMicro.Some? && c.limits.usdMicro.value * c.numerator < 10_000
  {
    CountersAreClampedSums(c, run);
    if c.limits.usdMicro.Some? {
      SoftLineIsExact(c.limits.usdMicro.value, c.numerator);
    }
  }

  // ---------------------------------------------------------------- the check, send, observe protocol

  /** One round of the engine: a check, and if it allows the request, the response it observes. */
  datatype Round = Round(elapsedMs: nat, input: nat, output: nat, micro: nat, completed: bool)

  function RoundEvents(r: Round): seq<Event> {
    [Check(r.elapsedMs), Usage(r.input, r.output), Cost(r.micro)] + if r.completed then [TurnEnd] else []
  }

  /** The events of the rounds that are served: the first refusal ends the run. */
  function Served(c: Config, rounds: seq<Round>): seq<Event> {
    if rounds == [] then []
    else
      var before := Served(c, rounds[..|rounds| - 1]);
      var r := rounds[|rounds| - 1];
      if Stopped(c, rounds[..|rounds| - 1]) || Refused(c, After(c, before), r.elapsedMs) then before
      else before + RoundEvents(r)
  }

  predicate Stopped(c: Config, rounds: seq<Round>) {
    rounds != [] &&
    (Stopped(c, rounds[..|rounds| - 1])
     || Refused(c, After(c, Served(c, rounds[..|rounds| - 1])), rounds[|rounds| - 1].elapsedMs))
  }

  function LastUsage(run: seq<Event>): nat {
    if run == [] then 0
    else if run[|run| - 1].Usage? then run[|run| - 1].input + run[|run| - 1].output
    else LastUsage(run[..|run| - 1])
  }

  function LastCost(run: seq<Event>): nat {
    if run == [] then 0
    else if run[|run| - 1].Cost? then run[|run| - 1].micro
    else LastCost(run[..|run| - 1])
  }

  lemma AppendEvent(run: seq<Event>, e: Event)
    ensures TokenSum(run + [e]) == TokenSum(run) + if e.Usage? then e.input + e.output else 0
    ensures TurnSum(run + [e]) == TurnSum(run) + if e.TurnEnd? then 1 else 0
    ensures LastUsage(run + [e]) == if e.Usage? then e.input + e.output else LastUsage(run)
    ensures CostSum(run + [e]) == CostSum(run) + if e.Cost? then e.micro else 0
    ensures LastCost(run + [e]) == if e.Cost? then e.micro else LastCost(run)
  {
    assert (run + [e])[..|run|] == run;
  }

  lemma AppendRound(run: seq<Event>, r: Round)
    ensures TokenSum(run + RoundEvents(r)) == TokenSum(run) + r.input + r.output
    ensures TurnSum(run + RoundEvents(r)) == TurnSum(run) + if r.completed then 1 else 0
    ensures LastUsage(run + RoundEvents(r)) == r.input + r.output
    ensures CostSum(run + RoundEvents(r)) == CostSum(run) + r.micro && LastCost(run + RoundEvents(r)) == r.micro
    ensures NoBegin(run) ==> NoBegin(run + RoundEvents(r))
  {
    var a := run + [Check(r.elapsedMs)];
    var b := a + [Usage(r.input, r.output)];
    var d := b + [Cost(r.micro)];
    AppendEvent(run, Check(r.elapsedMs));
    AppendEvent(a, Usage(r.input, r.output));
    AppendEvent(b, Cost(r.micro));
    AppendEvent(d, TurnEnd);
    assert run + RoundEvents(r) == if r.completed then d + [TurnEnd] else d;
  }

  /**
   Under the protocol, completed turns never exceed the turn limit, and the true token spend and
   the true cost exceed their limits less one by at most what the last response served added.
   */
  lemma {:induction false} ProtocolStaysWithinLimits(c: Config, rounds: seq<Round>)
    ensures var run := Served(c, rounds);
      && NoBegin(run)
      && (c.limits.turns.Some? ==> TurnSum(run) <= c.limits.turns.value)
      && (c.limits.tokens.Some? && run != [] ==> TokenSum(run) <= c.limits.tokens.value - 1 + LastUsage(run))
      && (c.limits.usdMicro.Some? && run != [] ==> CostSum(run) <= c.limits.usdMicro.value - 1 + LastCost(run))
    decreases |rounds|
  {
    if rounds != [] {
      var before, r := Served(c, rounds[..|rounds| - 1]), rounds[|rounds| - 1];
      ProtocolStaysWithinLimits(c, rounds[..|rounds| - 1]);
      if Served(c, rounds) != before {
        AppendRound(before, r);
        CountersAreClampedSums(c, before);
        RefusedIff(c, After(c, before), r.elapsedMs);
        assert !AtHard(c, After(c, before), r.elapsedMs, Tokens);
        assert !AtHard(c, After(c, before), r.elapsedMs, Turns);
        assert !AtHard(c, After(c, before), r.elapsedMs, Usd);
      }
    }
  }

  // ---------------------------------------------------------------- the imperative gate

  function Mask(d: Dimension): bv8 {
    match d
    case Tokens => 1 << 0
    case Turns => 1 << 1
    case WallClock => 1 << 2
    case Usd => 1 << 3
  }

  predicate Fired(bits: bv8, d: Dimension) {
    bits & Mask(d) != 0
  }

  function Latched(bits: bv8): (s: set<Dimension>)
    ensures forall d :: d in s <==> Fired(bits, d)
  {
    (if Fired(bits, Tokens) then {Tokens} else {}) + (if Fired(bits, Turns) then {Turns} else {})
    + (if Fired(bits, WallClock) then {WallClock} else {}) + (if Fired(bits, Usd) then {Usd} else {})
  }

  /** Each dimension owns its own bit: setting one latch leaves the other three as they were. */
  lemma TakeSetsOneLatch(bits: bv8, d: Dimension)
    ensures Latched(bits | Mask(d)) == Latched(bits) + {d}
    ensures Latched(0) == {}
  {
    forall e: Dimension
      ensures Fired(bits | Mask(d), e) <==> Fired(bits, e) || e == d
    {
      match d {
        case Tokens => match e { case Tokens => case Turns => case WallClock => case Usd => }
        case Turns => match e { case Tokens => case Turns => case WallClock => case Usd => }
        case WallClock => match e { case Tokens => case Turns => case WallClock => case Usd => }
        case Usd => match e { case Tokens => case Turns => case WallClock => case Usd => }
      }
    }
  }

  /** What a check answers and latches, on the gate's own counters. */
  lemma CheckInRaw(c: Config, g: Gate, elapsedMs: nat)
    ensures var l := c.limits; var ms, duration := Min(elapsedMs, U64_MAX), Capped(l.durationMs);
      FirstHard(c, g, elapsedMs, ORDER) ==
        if Reaches(l.tokens, g.tokens) then Some(HardCrossing(Tokens, g.tokens, l.tokens.value))
        else if Reaches(l.turns, g.turns) then Some(HardCrossing(Turns, g.turns, l.turns.value))
        else if Reaches(duration, ms) then Some(HardCrossing(WallClock, ms, duration.value))
        else if Reaches(l.usdMicro, g.usdMicro) then Some(HardCrossing(Usd, g.usdMicro, l.usdMicro.value))
        else None
    ensures var l := c.limits; var ms, duration := Min(elapsedMs, U64_MAX), Capped(l.durationMs);
      Warns(c, g, elapsedMs, ORDER) == WarnOnce(Tokens, Tokens in g.warned, l.tokens, g.tokens, c.numerator)
        + WarnOnce(Turns, Turns in g.warned, l.turns, g.turns, c.numerator)
        + WarnOnce(WallClock, WallClock in g.warned, duration, ms, c.numerator)
        + WarnOnce(Usd, Usd in g.warned, l.usdMicro, g.usdMicro, c.numerator)
    ensures var l, warned := c.limits, Checked(c, g, elapsedMs).warned;
      && (Tokens in warned <==> Tokens in g.warned || Nears(l.tokens, g.tokens, c.numerator))
      && (Turns in warned <==> Turns in g.warned || Nears(l.turns, g.turns, c.numerator))
      && (WallClock in warned <==>
            WallClock in g.warned || Nears(Capped(l.durationMs), Min(elapsedMs, U64_MAX), c.numerator))
      && (Usd in warned <==> Usd in g.warned || Nears(l.usdMicro, g.usdMicro, c.numerator))
  {
    FirstHardUnfolds(c, g, elapsedMs);
    WarnsUnfold(c, g, elapsedMs);
    LatchesUnfold(c, g, elapsedMs);
    forall d
      ensures WarnOf(c, g, elapsedMs, d)
        == WarnOnce(d, d in g.warned, Line(c, d), Spent(g, elapsedMs, d), c.numerator)
      ensures AtSoft(c, g, elapsedMs, d) <==> Nears(Line(c, d), Spent(g, elapsedMs, d), c.numerator)
    {
      WarnOfIs(c, g, elapsedMs, d);
      SoftIff(c, g, elapsedMs, d);
    }
  }

  class BudgetGate {
    const config: Config
    const priced: bool
    var spentTokens: nat
    var turns: nat
    var bits: bv8
    var spentUsdMicro: nat

    ghost function View(): Gate
      reads this
    {
      Gate(spentTokens, turns, spentUsdMicro, Latched(bits))
    }

    constructor (config: Config, priced: bool)
      ensures this.config == config && this.priced == priced && View() == FRESH
      ensures spentTokens == turns == spentUsdMicro == 0 && forall d :: !Fired(bits, d)
    {
      this.config := config;
      this.priced := priced;
      spentTokens, turns, spentUsdMicro, bits := 0, 0, 0, 0;
      new;
      TakeSetsOneLatch(0, Tokens);
    }

    method Begin()
      modifies this
      ensures View() == Step(config, old(View()), Event.Begin)
      ensures spentTokens == turns == spentUsdMicro == 0 && forall d :: !Fired(bits, d)
    {
      spentTokens, turns, spentUsdMicro, bits := 0, 0, 0, 0;
      TakeSetsOneLatch(0, Tokens);
    }

    method ObserveUsage(input: nat, output: nat)
      modifies this
      ensures View() == Step(config, old(View()), Usage(input, output))
      ensures spentTokens == Min(Min(old(spentTokens) + input, U64_MAX) + output, U64_MAX)
      ensures turns == old(turns) && spentUsdMicro == old(spentUsdMicro) && bits == old(bits)
    {
      spentTokens := SatAdd(U64_MAX, SatAdd(U64_MAX, spentTokens, input), output);
    }

    /** `cost` is the table's estimate; an unreported or unpriced response accrues nothing. */
    method ObserveCost(reported: bool, cost: Option<nat>)
      modifies this
      ensures View() == if priced && reported && cost.Some? then Step(config, old(View()), Cost(cost.value))
                        else old(View())
      ensures spentUsdMicro == if priced && reported && cost.Some? then Min(old(spentUsdMicro) + cost.value, U64_MAX)
                               else old(spentUsdMicro)
      ensures spentTokens == old(spentTokens) && turns == old(turns) && bits == old(bits)
    {
      if !priced || !reported || cost.None? {
        return;
      }
      spentUsdMicro := SatAdd(U64_MAX, spentUsdMicro, cost.value);
    }

    method ObserveTurnEnd()
      modifies this
      ensures View() == Step(config, old(View()), TurnEnd)
      ensures turns == Min(old(turns) + 1, U64_MAX)
      ensures spentTokens == old(spentTokens) && spentUsdMicro == old(spentUsdMicro) && bits == old(bits)
    {
      turns := SatAdd(U64_MAX, turns, 1);
    }

    method Take(d: Dimension) returns (first: bool)
      modifies this`bits
      ensures first <==> d !in old(Latched(bits))
      ensures Latched(bits) == old(Latched(bits)) + {d}
    {
      TakeSetsOneLatch(bits, d);
      first := !Fired(bits, d);
      bits := bits | Mask(d);
    }

    /** An enabled line against its spend; the source repeats this block once per dimension. */
    method CheckLine(d: Dimension, spent: nat, limit: nat, warns: seq<Warn>, hard: Option<HardCrossing>)
      returns (warns': seq<Warn>, hard': Option<HardCrossing>)
      requires limit <= U64_MAX
      modifies this`bits
      ensures var soft := spent >= SoftLine(limit, config.numerator);
        && Latched(bits) == old(Latched(bits)) + (if soft then {d} else {})
        && warns' == warns + if soft && d !in old(Latched(bits)) then [Warn(d, spent, limit)] else []
      ensures hard' == if hard.None? && spent >= limit then Some(HardCrossing(d, spent, limit)) else hard
    {
      SoftLineIsExact(limit, config.numerator);
      warns', hard' := warns, hard;
      if spent >= limit {
        var first := Take(d);
        if first {
          warns' := warns + [Warn(d, spent, limit)];
        }
        if hard.None? {
          hard' := Some(HardCrossing(d, spent, limit));
        }
      } else if !Fired(bits, d) && spent >= SoftLine(limit, config.numerator) {
        var _ := Take(d);
        warns' := warns + [Warn(d, spent, limit)];
      }
    }

    /** The line of a dimension, and what has been spent on it. */
    method LineAndSpend(ghost g: Gate, elapsedMs: nat, d: Dimension) returns (limit: Option<nat>, spent: nat)
      requires g.tokens == spentTokens && g.turns == turns && g.usdMicro == spentUsdMicro
      ensures limit == Line(config, d) && spent == Spent(g, elapsedMs, d) && FitsU64(limit)
    {
      match d {
        case Tokens => limit, spent := config.limits.tokens, spentTokens;
        case Turns => limit, spent := config.limits.turns, turns;
        case WallClock => limit, spent := Line(config, WallClock), ClampU64(elapsedMs);
        case Usd => limit, spent := config.limits.usdMicro, spentUsdMicro;
      }
    }

    /** One dimension's block of a check: nothing for a disabled line. */
    method CheckDimension(ghost g: Gate, elapsedMs: nat, d: Dimension, warns: seq<Warn>, hard: Option<HardCrossing>)
      returns (warns': seq<Warn>, hard': Option<HardCrossing>)
      requires g.tokens == spentTokens && g.turns == turns && g.usdMicro == spentUsdMicro
      requires Fired(bits, d) <==> d in g.warned
      modifies this`bits
      ensures Latched(bits) == old(Latched(bits)) + LatchOf(config, g, elapsedMs, d)
      ensures warns' == warns + WarnOf(config, g, elapsedMs, d)
      ensures hard' == OrElse(hard, HardOf(config, g, elapsedMs, d))
    {
      var limit, spent := LineAndSpend(g, elapsedMs, d);
      warns', hard' := warns, hard;
      if limit.Some? {
        warns', hard' := CheckLine(d, spent, limit.value, warns, hard);
      }
    }

    method CheckTwo(ghost g: Gate, elapsedMs: nat, d: Dimension, e: Dimension, warns: seq<Warn>,
                    hard: Option<HardCrossing>)
      returns (warns': seq<Warn>, hard': Option<HardCrossing>)
      requires g.tokens == spentTokens && g.turns == turns && g.usdMicro == spentUsdMicro
      requires d != e && (Fired(bits, d) <==> d in g.warned) && (Fired(bits, e) <==> e in g.warned)
      modifies this`bits
      ensures Latched(bits) == old(Latched(bits)) + LatchOf(config, g, elapsedMs, d) + LatchOf(config, g, elapsedMs, e)
      ensures warns' == warns + WarnOf(config, g, elapsedMs, d) + WarnOf(config, g, elapsedMs, e)
      ensures hard' == OrElse(OrElse(hard, HardOf(config, g, elapsedMs, d)), HardOf(config, g, elapsedMs, e))
    {
      warns', hard' := CheckDimension(g, elapsedMs, d, warns, hard);
      warns', hard' := CheckDimension(g, elapsedMs, e, warns', hard');
    }

    /** The four blocks, one after the other. */
    method CheckAll(elapsedMs: nat) returns (warns: seq<Warn>, hard: Option<HardCrossing>)
      modifies this`bits
      ensures View() == Step(config, old(View()), Check(elapsedMs))
      ensures warns == Warns(config, old(View()), elapsedMs, ORDER)
      ensures hard == FirstHard(config, old(View()), elapsedMs, ORDER)
    {
      ghost var g := View();
      WarnsUnfold(config, g, elapsedMs);
      FirstHardUnfolds(config, g, elapsedMs);
      LatchesUnfold(config, g, elapsedMs);
      warns, hard := CheckTwo(g, elapsedMs, Tokens, Turns, [], None);
      warns, hard := CheckTwo(g, elapsedMs, WallClock, Usd, warns, hard);
    }

    method PreRequest(elapsedMs: nat) returns (warns: seq<Warn>, hard: Option<HardCrossing>)
      modifies this`bits
      ensures View() == Step(config, old(View()), Check(elapsedMs))
      ensures warns == Warns(config, old(View()), elapsedMs, ORDER)
      ensures hard == FirstHard(config, old(View()), elapsedMs, ORDER)
      ensures var l := config.limits; var ms, duration := Min(elapsedMs, U64_MAX), Capped(l.durationMs);
        hard == if Reaches(l.tokens, spentTokens) then Some(HardCrossing(Tokens, spentTokens, l.tokens.value))
                else if Reaches(l.turns, turns) then Some(HardCrossing(Turns, turns, l.turns.value))
                else if Reaches(duration, ms) then Some(HardCrossing(WallClock, ms, duration.value))
                else if Reaches(l.usdMicro, spentUsdMicro) then
                  Some(HardCrossing(Usd, spentUsdMicro, l.usdMicro.value))
                else None
      ensures var l := config.limits; var ms, duration := Min(elapsedMs, U64_MAX), Capped(l.durationMs);
        var n := config.numerator;
        warns == WarnOnce(Tokens, Fired(old(bits), Tokens), l.tokens, spentTokens, n)
          + WarnOnce(Turns, Fired(old(bits), Turns), l.turns, turns, n)
          + WarnOnce(WallClock, Fired(old(bits), WallClock), duration, ms, n)
          + WarnOnce(Usd, Fired(old(bits), Usd), l.usdMicro, spentUsdMicro, n)
      ensures var l := config.limits; var n := config.numerator;
        && (Fired(bits, Tokens) <==> Fired(old(bits), Tokens) || Nears(l.tokens, spentTokens, n))
        && (Fired(bits, Turns) <==> Fired(old(bits), Turns) || Nears(l.turns, turns, n))
        && (Fired(bits, WallClock) <==>
              Fired(old(bits), WallClock) || Nears(Capped(l.durationMs), Min(elapsedMs, U64_MAX), n))
        && (Fired(bits, Usd) <==> Fired(old(bits), Usd) || Nears(l.usdMicro, spentUsdMicro, n))
    {
      CheckInRaw(config, View(), elapsedMs);
      warns, hard := CheckAll(elapsedMs);
    }
  }
}

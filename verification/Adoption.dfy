/**
 The size of an adopted history (src/engine/core/machine.rs:801-818 and 1274-1289, and the driver's
 verdict in src/engine/bare/compact.rs): the machine coalesces what the manager measured. When can
 that bring it over the limit its pass met?
 */
module Adoption {
  import opened Arithmetic
  import opened Common
  import opened Messages
  import opened Pins
  import opened Compaction
  import opened Tokens

  // ---------------------------------------------------------------- what is adopted

  /** A provider's report: its input figure, and the raw payload of the request it describes. */
  datatype UsageAnchor = UsageAnchor(input: nat, raw: nat)

  /** How the driver reads a count: the calibration in thousandths, the request's overhead, and the last report. */
  datatype Gauge = Gauge(anchor: Option<UsageAnchor>, ratioBp: nat, overhead: nat) {
    predicate Valid() {
      && 250 <= ratioBp <= 4000 && overhead <= U64_MAX
      && (anchor.Some? ==> 0 < anchor.value.input <= U64_MAX && 0 < anchor.value.raw <= U64_MAX)
    }
  }

  /** A loop no provider has reported to yet, whose requests carry nothing but the history. */
  const FRESH := Gauge(None, 1000, 0)

  function Calibrated(g: Gauge, tokens: nat): nat {
    SatMul(U64_MAX, tokens, g.ratioBp) / 1000
  }

  /** The figure the driver compares: with a report, the report and what has grown since. */
  function Figure(g: Gauge, tokens: nat): nat {
    var raw := SatAdd(U64_MAX, tokens, g.overhead);
    match g.anchor
    case None => Calibrated(g, raw)
    case Some(report) => SatAdd(U64_MAX, report.input, Calibrated(g, SatSub(raw, report.raw)))
  }

  /** A step's pass forgets the report first, only a manual one may keep it; every pass reserves the overhead. */
  predicate Drives(g: Gauge, reason: Reason, sizing: Sizing) {
    g.Valid() && reason != Prune && (reason != Manual ==> g.anchor == None) && g.overhead <= sizing.reserved
  }

  /** Of the answers of a pass only a rewrite that lowers the figure is adopted, and a manual one may not be longer. */
  predicate Adopts(g: Gauge, counter: Counter, messages: seq<Message>, reason: Reason,
                   answer: Result<Ensured, Overflow>)
  {
    && answer.Ok? && answer.value.Compacted?
    && Figure(g, answer.value.outcome.tokensAfter) < Figure(g, counter(messages))
    && (reason == Manual ==> |answer.value.outcome.messages| <= |messages|)
  }

  lemma CalibratedIs(g: Gauge, tokens: nat)
    requires g.Valid() && tokens * 4000 <= U64_MAX
    ensures Calibrated(g, tokens) == tokens * g.ratioBp / 1000
  {
    MulMono(g.ratioBp, 4000, tokens);
  }

  /** The figures where no product saturates: calibrated from nothing, or from the last report on. */
  lemma FigureIs(g: Gauge, tokens: nat, raw: nat, grown: nat)
    requires g.Valid() && raw == tokens + g.overhead && raw * 4000 <= U64_MAX
    requires g.anchor.Some? ==> grown == Max(raw - g.anchor.value.raw, 0)
    ensures g.anchor == None ==> Figure(g, tokens) == raw * g.ratioBp / 1000
    ensures g.anchor.Some? ==> Figure(g, tokens) == Min(g.anchor.value.input + grown * g.ratioBp / 1000, U64_MAX)
  {
    CalibratedIs(g, raw);
    if g.anchor.Some? {
      CalibratedIs(g, grown);
    }
  }

  lemma CalibratedGrows(g: Gauge, a: nat, b: nat)
    requires a <= b
    ensures Calibrated(g, a) <= Calibrated(g, b)
  {
    MulMono(a, b, g.ratioBp);
    DivMono(SatMul(U64_MAX, a, g.ratioBp), SatMul(U64_MAX, b, g.ratioBp), 1000);
  }

  /** Nothing is adopted that did not shrink by the counter itself, however the driver reads counts. */
  lemma AdoptedIsSmaller(g: Gauge, counter: Counter, messages: seq<Message>, reason: Reason,
                         answer: Result<Ensured, Overflow>)
    requires Adopts(g, counter, messages, reason, answer)
    ensures answer.value.outcome.tokensAfter < counter(messages)
  {
    var before, after := counter(messages), answer.value.outcome.tokensAfter;
    if before <= after {
      var x, y := SatAdd(U64_MAX, before, g.overhead), SatAdd(U64_MAX, after, g.overhead);
      CalibratedGrows(g, x, y);
      if g.anchor.Some? {
        CalibratedGrows(g, SatSub(x, g.anchor.value.raw), SatSub(y, g.anchor.value.raw));
      }
    }
  }

  /** Before any report, what is adopted is what shrank by the counter, and by hand only what is no longer either. */
  lemma FreshAdoptsIff(counter: Counter, messages: seq<Message>, reason: Reason, out: Outcome)
    requires counter(messages) <= U64_MAX / 1000 && out.tokensAfter <= U64_MAX / 1000
    ensures Adopts(FRESH, counter, messages, reason, Ok(Compacted(out))) <==>
      out.tokensAfter < counter(messages) && (reason != Manual || |out.messages| <= |messages|)
    ensures !Adopts(FRESH, counter, messages, reason, Ok(NoAction(out.messages)))
  {
    Uncalibrated(counter(messages));
    Uncalibrated(out.tokensAfter);
  }

  // ---------------------------------------------------------------- by any counter

  /** Whatever is adopted, coalesced it fits the limit its pass met. */
  ghost predicate AdoptedAlwaysFits(counter: Counter) {
    forall g, s, pins, messages, reason, sizing, outcome ::
      ValidSettings(s) && Drives(g, reason, sizing)
      && Adopts(g, counter, messages, reason, Pass(s, counter, pins, messages, reason, sizing, outcome)) ==>
        counter(Coalesce(MessagesOf(Pass(s, counter, pins, messages, reason, sizing, outcome).value)))
          <= SatSub(s.window, sizing.reserved)
  }

  /** A counter of 64 bits that appending never lowers, or whose counts stay where the calibration is exact. */
  ghost predicate Plain(counter: Counter) {
    && (forall messages :: counter(messages) <= U64_MAX)
    && ((forall messages, more :: counter(messages) <= counter(messages + more))
        || forall messages :: counter(messages) <= U64_MAX / 1000)
  }

  /** It always fits if and only if coalescing never raises the counter. */
  lemma AdoptedAlwaysFitsIff(counter: Counter)
    requires Plain(counter)
    ensures AdoptedAlwaysFits(counter) <==> NeverRaised(counter)
  {
    if AdoptedAlwaysFits(counter) {
      forall messages
        ensures counter(Coalesce(messages)) <= counter(messages)
      {
        if counter(Coalesce(messages)) > counter(messages) {
          RaisedIsAdopted(counter, messages);
        }
      }
    }
  }

  /** A raised history can be what is adopted in place of a longer one, under a window of exactly its size. */
  lemma RaisedIsAdopted(counter: Counter, messages: seq<Message>)
    requires Plain(counter) && counter(Coalesce(messages)) > counter(messages)
    ensures !AdoptedAlwaysFits(counter)
  {
    if forall some :: counter(some) <= U64_MAX / 1000 {
      Uncalibrated(counter(messages));
      Uncalibrated(counter(Coalesce(messages)));
      TightPass(FRESH, counter, Coalesce(messages), messages, Emergency);
    } else {
      var before := Coalesce(messages) + messages;
      assert counter(Coalesce(messages)) <= counter(before);
      GrownSince(counter(messages), counter(before));
      TightPass(Reported(counter(messages)), counter, before, messages, Manual);
    }
  }

  /** The pass over `before` whose compactor answers `after`, in a window of exactly that size. */
  function Tight(counter: Counter, before: seq<Message>, after: seq<Message>, reason: Reason)
    : Result<Ensured, Overflow>
  {
    Pass(Settings(counter(after), 100, true, Threshold, 100), counter, [], before, reason, Sizing(0, None),
         Outcome(after, 0, 0, true, None, []))
  }

  lemma TightIs(counter: Counter, before: seq<Message>, after: seq<Message>, reason: Reason)
    requires counter(after) < counter(before) && before != []
    ensures Tight(counter, before, after, reason)
      == Ok(Compacted(Outcome(after, counter(after), counter(before) - counter(after), true, None, [])))
  {
    UnchangedIffCarried(after, []);
  }

  lemma TightPass(g: Gauge, counter: Counter, before: seq<Message>, after: seq<Message>, reason: Reason)
    requires counter(after) < counter(before) && before != [] && counter(after) <= U64_MAX
    requires Drives(g, reason, Sizing(0, None)) && Figure(g, counter(after)) < Figure(g, counter(before))
    requires reason == Manual ==> |after| <= |before|
    ensures AdoptedAlwaysFits(counter) ==> counter(Coalesce(after)) <= counter(after)
  {
    TightIs(counter, before, after, reason);
    assert Adopts(g, counter, before, reason, Tight(counter, before, after, reason));
    var s := Settings(counter(after), 100, true, Threshold, 100);
    var outcome := Outcome(after, 0, 0, true, None, []);
    assert ValidSettings(s) && Tight(counter, before, after, reason)
      == Pass(s, counter, [], before, reason, Sizing(0, None), outcome);
  }

  lemma Uncalibrated(tokens: nat)
    requires tokens <= U64_MAX / 1000
    ensures Figure(FRESH, tokens) == tokens
  {
  }

  /** The gauge of a loop whose last request measured so many tokens. */
  function Reported(tokens: nat): Gauge {
    if tokens == 0 then FRESH else Gauge(Some(UsageAnchor(1, tokens)), 1000, 0)
  }

  lemma GrownSince(tokens: nat, more: nat)
    requires tokens < more <= U64_MAX
    ensures Reported(tokens).Valid() && Figure(Reported(tokens), tokens) < Figure(Reported(tokens), more)
  {
  }

  // ---------------------------------------------------------------- by a ratio counter: one history

  /** The unclamped figure of the coalesced history, from the history before. */
  function Adopted(c: RatioTokenCounter, messages: seq<Message>): int {
    Scaled(c, messages) + 2 * c.charsDen * Seams(messages) - c.perMessage * c.ratioNum * Folds(messages)
  }

  /** Coalescing adds two characters a seam and takes one overhead a fold. */
  lemma Change(c: RatioTokenCounter, messages: seq<Message>)
    ensures Scaled(c, Coalesce(messages)) == Scaled(c, messages)
      + Multiple(c.charsDen, 2 * Seams(messages)) - Multiple(Multiple(c.ratioNum, c.perMessage), Folds(messages))
  {
    var chars, count, added, folds, overhead := Sizes(c, messages);
    ChangedParts(c.charsDen, chars, added, overhead, count, folds);
  }

  /** Both figures, by the joins. */
  lemma Sizes(c: RatioTokenCounter, messages: seq<Message>)
    returns (chars: nat, count: nat, added: nat, folds: nat, overhead: nat)
    ensures added == 2 * Seams(messages) && folds == Folds(messages) && overhead == Multiple(c.ratioNum, c.perMessage)
    ensures Scaled(c, messages) == Multiple(c.charsDen, chars) + Multiple(overhead, count + folds)
    ensures Scaled(c, Coalesce(messages)) == Multiple(c.charsDen, chars + added) + Multiple(overhead, count)
  {
    CoalesceChars(messages);
    chars, count, added, folds := TotalChars(messages), |Coalesce(messages)|, 2 * Seams(messages), Folds(messages);
    overhead := Multiple(c.ratioNum, c.perMessage);
  }

  lemma ChangedParts(den: nat, chars: nat, added: nat, overhead: nat, count: nat, folds: nat)
    ensures Multiple(den, chars + added) + Multiple(overhead, count)
      == Multiple(den, chars) + Multiple(overhead, count + folds) + Multiple(den, added) - Multiple(overhead, folds)
  {
    MultipleAdds(den, chars, added);
    MultipleAdds(overhead, count, folds);
  }

  lemma AdoptedIs(c: RatioTokenCounter, messages: seq<Message>)
    ensures Scaled(c, Coalesce(messages)) == Adopted(c, messages)
  {
    Change(c, messages);
    AdoptedNumbers(c.charsDen, Seams(messages), c.ratioNum, c.perMessage, Folds(messages));
  }

  lemma AdoptedNumbers(den: nat, seams: nat, n: nat, a: nat, folds: nat)
    ensures Multiple(den, 2 * seams) - Multiple(Multiple(n, a), folds) == 2 * den * seams - a * n * folds
  {
    MultipleIs(den, 2 * seams);
    MultipleOfMultiple(n, a, folds);
    Doubled(den, seams);
  }

  lemma Doubled(den: nat, seams: nat)
    ensures den * (2 * seams) == 2 * den * seams
  {
  }

  lemma AtMostIff(x: nat, n: nat, limit: nat)
    requires n > 0
    ensures Quotient(x, n) <= limit <==> x < n * (limit + 1)
  {
    DivMod(x, n);
    if x / n <= limit {
      MulMono(x / n, limit, n);
    } else {
      MulMono(limit + 1, x / n, n);
    }
  }

  /**
   By a ratio counter, the history adopted from a pass fits the pass's limit if and only if the
   output's own figure, with two characters more a seam and one overhead less a fold, stays below
   the next token over the limit.
   */
  lemma AdoptedFitsIff(c: RatioTokenCounter, s: Settings, pins: seq<Message>, messages: seq<Message>, reason: Reason,
                       sizing: Sizing, outcome: Outcome)
    requires c.Valid() && Pass(s, Ratio(c), pins, messages, reason, sizing, outcome).Ok?
    ensures var out := MessagesOf(Pass(s, Ratio(c), pins, messages, reason, sizing, outcome).value);
      var limit := SatSub(s.window, sizing.reserved);
      RatioCount(c, Coalesce(out)) <= limit <==> Min(Adopted(c, out), U64_MAX) < c.ratioNum * (limit + 1)
  {
    var out := MessagesOf(Pass(s, Ratio(c), pins, messages, reason, sizing, outcome).value);
    AdoptedIs(c, out);
    AtMostIff(ClampU64(Scaled(c, Coalesce(out))), c.ratioNum, SatSub(s.window, sizing.reserved));
  }

  function Said(role: Role, text: string): Message {
    Message(role, [Text(text)])
  }

  /**
   A pass drops the user's turn between two of the assistant's, its output fits the window to the
   token, it is adopted, and the history adopted is two tokens over the window.
   */
  lemma AdoptedCanOutgrow(u: string, a: string, dropped: string, b: string)
    requires dropped != "" && |u| + |a| + |dropped| + |b| + 2 <= U64_MAX / 1000
    ensures var c := RatioTokenCounter(0, 1, 1);
      var before := [Said(User, u), Said(Assistant, a), Said(User, dropped), Said(Assistant, b)];
      var after := [Said(User, u), Said(Assistant, a), Said(Assistant, b)];
      var s := Settings(|u| + |a| + |b|, 100, true, Threshold, 100);
      var answer := Pass(s, Ratio(c), [], before, Emergency, Sizing(0, None), Outcome(after, 0, 0, true, None, []));
      && c.Valid() && ValidSettings(s) && Alternates(before) && Drives(FRESH, Emergency, Sizing(0, None))
      && Adopts(FRESH, Ratio(c), before, Emergency, answer) && MessagesOf(answer.value) == after
      && RatioCount(c, after) == s.window && RatioCount(c, Coalesce(after)) == s.window + 2
  {
    var c := RatioTokenCounter(0, 1, 1);
    var before := [Said(User, u), Said(Assistant, a), Said(User, dropped), Said(Assistant, b)];
    var after := [Said(User, u), Said(Assistant, a), Said(Assistant, b)];
    OutgrowCounts(u, a, dropped, b);
    Uncalibrated(RatioCount(c, before));
    Uncalibrated(RatioCount(c, after));
    TightIs(Ratio(c), before, after, Emergency);
  }

  lemma OutgrowCounts(u: string, a: string, dropped: string, b: string)
    requires |u| + |a| + |dropped| + |b| + 2 <= U64_MAX
    ensures var c := RatioTokenCounter(0, 1, 1);
      var before := [Said(User, u), Said(Assistant, a), Said(User, dropped), Said(Assistant, b)];
      var after := [Said(User, u), Said(Assistant, a), Said(Assistant, b)];
      && RatioCount(c, before) == |u| + |a| + |dropped| + |b|
      && RatioCount(c, after) == |u| + |a| + |b| && RatioCount(c, Coalesce(after)) == |u| + |a| + |b| + 2
  {
    var before := [Said(User, u), Said(Assistant, a), Said(User, dropped), Said(Assistant, b)];
    var after := [Said(User, u), Said(Assistant, a), Said(Assistant, b)];
    FourTurns(u, a, dropped, b);
    ThreeTurns(u, a, b);
    CoalesceChars(after);
    UnitRatio(before);
    UnitRatio(after);
    UnitRatio(Coalesce(after));
  }

  lemma OneTurnMore(messages: seq<Message>, role: Role, text: string)
    ensures TotalChars(messages + [Said(role, text)]) == TotalChars(messages) + |text|
  {
    CharsOfText(text);
    TotalSnoc(messages, Said(role, text));
  }

  lemma TwoTurns(u: string, a: string)
    ensures var turns := [Said(User, u), Said(Assistant, a)];
      TotalChars(turns) == |u| + |a| && Seams(turns) == 0 && RunEndsInText(turns)
  {
    var one := [Said(User, u)];
    CharsOfText(u);
    TotalOfOne(one[0]);
    FirstFolds(one[0]);
    OneTurnMore(one, Assistant, a);
    TurnFolds(one, Said(Assistant, a));
    assert one + [Said(Assistant, a)] == [Said(User, u), Said(Assistant, a)];
  }

  lemma ThreeTurns(u: string, a: string, b: string)
    ensures var turns := [Said(User, u), Said(Assistant, a), Said(Assistant, b)];
      TotalChars(turns) == |u| + |a| + |b| && Seams(turns) == 1
  {
    var two := [Said(User, u), Said(Assistant, a)];
    TwoTurns(u, a);
    OneTurnMore(two, Assistant, b);
    TextFolds(two, Said(Assistant, b));
    assert two + [Said(Assistant, b)] == [Said(User, u), Said(Assistant, a), Said(Assistant, b)];
  }

  lemma FourTurns(u: string, a: string, d: string, b: string)
    ensures TotalChars([Said(User, u), Said(Assistant, a), Said(User, d), Said(Assistant, b)]) == |u| + |a| + |d| + |b|
  {
    var two := [Said(User, u), Said(Assistant, a)];
    TwoTurns(u, a);
    OneTurnMore(two, User, d);
    OneTurnMore(two + [Said(User, d)], Assistant, b);
    assert two + [Said(User, d)] + [Said(Assistant, b)]
      == [Said(User, u), Said(Assistant, a), Said(User, d), Said(Assistant, b)];
  }

  // ---------------------------------------------------------------- by a ratio counter: every history

  /** What a fold at a seam adds to the scaled figure, less than nothing where the overhead outweighs the separator. */
  function Gain(c: RatioTokenCounter): int {
    2 * c.charsDen - Multiple(c.ratioNum, c.perMessage)
  }

  function Divided(n: nat, x: nat): nat
    requires n > 0
  {
    if x < n then 0 else Divided(n, x - n) + 1
  }

  function Left(n: nat, x: nat): (r: nat)
    requires n > 0
    ensures r < n
  {
    if x < n then x else Left(n, x - n)
  }

  function Gains(c: RatioTokenCounter, k: nat, gain: int): int {
    if k == 0 then 0 else Gains(c, k - 1, gain) + gain
  }

  /** The whole tokens in so many characters, and what they leave. */
  function Whole(c: RatioTokenCounter, t: nat): nat
    requires c.Valid()
  {
    Divided(c.ratioNum, Multiple(c.charsDen, t))
  }

  function Rest(c: RatioTokenCounter, t: nat): (r: nat)
    requires c.Valid()
    ensures r < c.ratioNum
  {
    Left(c.ratioNum, Multiple(c.charsDen, t))
  }

  /**
   `k` folds over `t` characters: what they gain crosses a token over what the characters leave, and
   that token is one the counter can still reach.
   */
  predicate Crosses(c: RatioTokenCounter, k: nat, t: nat)
    requires c.Valid()
  {
    && Rest(c, t) + Gains(c, k, Gain(c)) >= c.ratioNum
    && Multiple(c.perMessage, k + 1) + Whole(c, t) < Divided(c.ratioNum, U64_MAX)
  }

  /** Some crossing exists; the bounds make it a finite search over the three numbers of the counter. */
  predicate MayRaise(c: RatioTokenCounter)
    requires c.Valid()
  {
    exists k, t :: 1 <= k <= c.ratioNum && 0 <= t < c.ratioNum && Crosses(c, k, t)
  }

  /** A number is its whole multiples and what is left. */
  lemma {:induction false} DividedParts(n: nat, x: nat)
    requires n > 0
    ensures x == Multiple(n, Divided(n, x)) + Left(n, x)
    decreases x
  {
    if x >= n {
      DividedParts(n, x - n);
    }
  }

  lemma DividedIs(n: nat, x: nat)
    requires n > 0
    ensures Divided(n, x) == x / n && Left(n, x) == x % n
  {
    DividedParts(n, x);
    MultipleIs(n, Divided(n, x));
    QuotientIs(x, n, Divided(n, x), Left(n, x));
  }

  lemma {:induction false} GainsIs(c: RatioTokenCounter, k: nat, gain: int)
    ensures Gains(c, k, gain) == gain * k
  {
    if k > 0 {
      GainsIs(c, k - 1, gain);
      assert gain * k == gain * (k - 1) + gain;
    }
  }

  lemma WholeIs(c: RatioTokenCounter, t: nat)
    requires c.Valid()
    ensures Whole(c, t) == t * c.charsDen / c.ratioNum && Rest(c, t) == t * c.charsDen % c.ratioNum
  {
    MultipleIs(c.charsDen, t);
    DividedIs(c.ratioNum, Multiple(c.charsDen, t));
  }

  /** A crossing in plain arithmetic over the counter's three numbers. */
  lemma CrossesIff(c: RatioTokenCounter, k: nat, t: nat)
    requires c.Valid()
    ensures Crosses(c, k, t) <==>
      && t * c.charsDen % c.ratioNum + (2 * c.charsDen - c.ratioNum * c.perMessage) * k >= c.ratioNum
      && c.perMessage * (k + 1) + t * c.charsDen / c.ratioNum < U64_MAX / c.ratioNum
  {
    MultipleIs(c.perMessage, k + 1);
    MultipleIs(c.ratioNum, c.perMessage);
    GainsIs(c, k, Gain(c));
    WholeIs(c, t);
    DividedIs(c.ratioNum, U64_MAX);
  }

  // ---------------------------------------------------------------- a crossing is a raise

  /** `k + 1` assistant messages in a row, each of one text, with `t` characters in all. */
  function Run(k: nat, t: nat): seq<Message> {
    if k == 0 then [Message(Assistant, [Text(seq(t, _ => ' '))])]
    else Run(k - 1, t) + [Message(Assistant, [Text("")])]
  }

  /** One text message more after a run that ends in text: one fold more, at a seam. */
  lemma {:induction false} TextFolds(run: seq<Message>, m: Message)
    requires run != [] && run[|run| - 1].role == Assistant && RunEndsInText(run)
    requires m.role == Assistant && |m.parts| == 1 && m.parts[0].Text?
    ensures Folds(run + [m]) == Folds(run) + 1 && Seams(run + [m]) == Seams(run) + 1 && RunEndsInText(run + [m])
  {
    assert (run + [m])[..|run|] == run;
  }

  /** After anybody else's message there is nothing to fold into. */
  lemma {:induction false} TurnFolds(run: seq<Message>, m: Message)
    requires run != [] && run[|run| - 1].role != Assistant && EndsInText(m.parts)
    ensures Seams(run + [m]) == Seams(run) && RunEndsInText(run + [m])
  {
    assert (run + [m])[..|run|] == run;
  }

  lemma FirstFolds(m: Message)
    requires m.parts != [] && EndsInText(m.parts)
    ensures Folds([m]) == 0 && Seams([m]) == 0 && RunEndsInText([m])
  {
    assert [m][..0] == [];
  }

  lemma {:induction false} RunFolds(k: nat, t: nat)
    ensures |Run(k, t)| == k + 1 && Run(k, t)[k].role == Assistant && RunEndsInText(Run(k, t))
    ensures Folds(Run(k, t)) == k && Seams(Run(k, t)) == k
  {
    if k == 0 {
      FirstFolds(Run(0, t)[0]);
    } else {
      RunFolds(k - 1, t);
      TextFolds(Run(k - 1, t), Message(Assistant, [Text("")]));
    }
  }

  lemma {:induction false} RunChars(k: nat, t: nat)
    ensures TotalChars(Run(k, t)) == t
  {
    if k == 0 {
      CharsOfText(seq(t, _ => ' '));
      TotalOfOne(Run(0, t)[0]);
    } else {
      RunChars(k - 1, t);
      CharsOfText("");
      TotalSnoc(Run(k - 1, t), Message(Assistant, [Text("")]));
    }
  }

  lemma {:induction false} RunSize(k: nat, t: nat)
    ensures |Run(k, t)| == k + 1 && TotalChars(Run(k, t)) == t && Folds(Run(k, t)) == k && Seams(Run(k, t)) == k
  {
    RunFolds(k, t);
    RunChars(k, t);
  }

  /** The figure of a list over the numerator: overhead is whole tokens, and only the characters leave a remainder. */
  lemma {:induction false} FigureParts(c: RatioTokenCounter, messages: seq<Message>)
    requires c.Valid()
    ensures var t := TotalChars(messages);
      Scaled(c, messages) == Multiple(c.ratioNum, Multiple(c.perMessage, |messages|) + Whole(c, t)) + Rest(c, t)
  {
    FigureNumbers(c.ratioNum, Multiple(c.charsDen, TotalChars(messages)), c.perMessage, |messages|);
  }

  lemma FigureNumbers(n: nat, scaledChars: nat, a: nat, count: nat)
    requires n > 0
    ensures scaledChars + Multiple(Multiple(n, a), count)
      == Multiple(n, Multiple(a, count) + Divided(n, scaledChars)) + Left(n, scaledChars)
  {
    OverheadMultiple(n, a, count);
    DividedParts(n, scaledChars);
    MultipleAdds(n, Multiple(a, count), Divided(n, scaledChars));
  }

  lemma {:induction false} OverheadMultiple(n: nat, a: nat, count: nat)
    ensures Multiple(Multiple(n, a), count) == Multiple(n, Multiple(a, count))
  {
    if count > 0 {
      OverheadMultiple(n, a, count - 1);
      MultipleAdds(n, Multiple(a, count - 1), a);
    }
  }

  /** The count, without a division. */
  function Count(c: RatioTokenCounter, messages: seq<Message>): nat
    requires c.Valid()
  {
    Divided(c.ratioNum, ClampU64(Scaled(c, messages)))
  }

  lemma {:induction false} CountIs(c: RatioTokenCounter, messages: seq<Message>)
    requires c.Valid()
    ensures Count(c, messages) == RatioCount(c, messages)
  {
    DividedIs(c.ratioNum, ClampU64(Scaled(c, messages)));
  }

  /** Coalescing gains at most a fold's worth per fold, and exactly that where every fold is a seam. */
  lemma {:induction false} GainAtMost(c: RatioTokenCounter, messages: seq<Message>)
    ensures Scaled(c, Coalesce(messages)) <= Scaled(c, messages) + Gains(c, Folds(messages), Gain(c))
    ensures Seams(messages) == Folds(messages) ==>
      Scaled(c, Coalesce(messages)) == Scaled(c, messages) + Gains(c, Folds(messages), Gain(c))
  {
    Change(c, messages);
    SeamsAreFolds(messages);
    GainsMultiple(c, Folds(messages));
    MultipleGrows(c.charsDen, 2 * Seams(messages), 2 * Folds(messages));
  }

  lemma {:induction false} GainsMultiple(c: RatioTokenCounter, k: nat)
    ensures Gains(c, k, Gain(c)) == Multiple(c.charsDen, 2 * k) - Multiple(Multiple(c.ratioNum, c.perMessage), k)
  {
    if k > 0 {
      GainsMultiple(c, k - 1);
      assert Multiple(c.charsDen, 2 * k) == Multiple(c.charsDen, 2 * k - 1) + c.charsDen;
    }
  }

  lemma {:induction false} Gained(c: RatioTokenCounter, messages: seq<Message>) returns (x: nat, y: nat)
    requires c.Valid()
    ensures x == Scaled(c, messages) && Count(c, messages) == Divided(c.ratioNum, ClampU64(x))
    ensures Count(c, Coalesce(messages)) == Divided(c.ratioNum, ClampU64(y))
    ensures y <= x + Gains(c, Folds(messages), Gain(c))
    ensures Seams(messages) == Folds(messages) ==> y == x + Gains(c, Folds(messages), Gain(c))
  {
    x, y := Scaled(c, messages), Scaled(c, Coalesce(messages));
    GainAtMost(c, messages);
  }

  /** The two figures behind the two counts, and the whole tokens and the rest in the first. */
  lemma {:induction false} Figures(c: RatioTokenCounter, messages: seq<Message>)
    returns (x: nat, y: nat, q: nat, r: nat)
    requires c.Valid()
    ensures Count(c, messages) == Divided(c.ratioNum, ClampU64(x))
    ensures Count(c, Coalesce(messages)) == Divided(c.ratioNum, ClampU64(y))
    ensures x == Multiple(c.ratioNum, q) + r && r < c.ratioNum
    ensures q == Multiple(c.perMessage, |messages|) + Whole(c, TotalChars(messages))
    ensures r == Rest(c, TotalChars(messages))
    ensures y <= x + Gains(c, Folds(messages), Gain(c))
    ensures Seams(messages) == Folds(messages) ==> y == x + Gains(c, Folds(messages), Gain(c))
  {
    x, y := Gained(c, messages);
    q, r := Multiple(c.perMessage, |messages|) + Whole(c, TotalChars(messages)), Rest(c, TotalChars(messages));
    FigureParts(c, messages);
  }

  /** Where the token a crossing reaches is within u64, the count goes up. */
  lemma CrossingCounts(x: nat, y: nat, n: nat, q: nat, r: nat)
    requires x == Multiple(n, q) + r && r < n && Multiple(n, q) + n <= y && q < Divided(n, U64_MAX)
    ensures Divided(n, ClampU64(y)) > Divided(n, ClampU64(x))
  {
    DividedParts(n, U64_MAX);
    MultipleGrows(n, q + 1, Divided(n, U64_MAX));
    DividedAtLeast(n, ClampU64(y), q + 1);
    DividedBelow(n, x, q);
  }

  /** A number reaches as many multiples as it divides into. */
  lemma DividedAtLeast(n: nat, x: nat, q: nat)
    requires n > 0 && Multiple(n, q) <= x
    ensures q <= Divided(n, x)
  {
    DividedParts(n, x);
    if Divided(n, x) + 1 <= q {
      MultipleGrows(n, Divided(n, x) + 1, q);
    }
  }

  lemma DividedBelow(n: nat, x: nat, q: nat)
    requires n > 0 && x < Multiple(n, q) + n
    ensures Divided(n, x) <= q
  {
    DividedParts(n, x);
    MultipleGrows(n, Min(q + 1, Divided(n, x)), Divided(n, x));
  }

  lemma {:induction false} CrossingRaises(c: RatioTokenCounter, messages: seq<Message>)
    requires c.Valid() && messages != [] && Folds(messages) == Seams(messages) == |messages| - 1
    requires Crosses(c, |messages| - 1, TotalChars(messages))
    ensures Count(c, Coalesce(messages)) > Count(c, messages)
  {
    var x, y, q, r := Figures(c, messages);
    CrossingCounts(x, y, c.ratioNum, q, r);
  }

  // ---------------------------------------------------------------- a raise is a crossing

  lemma RaiseNumbers(x: nat, y: nat, n: nat, q: nat, r: nat, gain: int)
    requires x == Multiple(n, q) + r && r < n && y <= x + gain
    requires Divided(n, ClampU64(y)) > Divided(n, ClampU64(x))
    ensures r + gain >= n && q < Divided(n, U64_MAX)
  {
    var reached := Divided(n, ClampU64(y));
    DividedParts(n, ClampU64(y));
    DividedAtLeast(n, U64_MAX, reached);
    DividedAtLeast(n, x, q);
    MultipleGrows(n, Divided(n, ClampU64(x)) + 1, reached);
    if x <= U64_MAX {
      MultipleGrows(n, q + 1, reached);
    } else {
      DividedAtLeast(n, ClampU64(x), reached);
    }
  }

  lemma {:induction false} RaiseParts(c: RatioTokenCounter, messages: seq<Message>)
    requires c.Valid() && Count(c, Coalesce(messages)) > Count(c, messages)
    ensures Rest(c, TotalChars(messages)) + Gains(c, Folds(messages), Gain(c)) >= c.ratioNum
    ensures Multiple(c.perMessage, |messages|) + Whole(c, TotalChars(messages)) < Divided(c.ratioNum, U64_MAX)
  {
    var x, y, q, r := Figures(c, messages);
    RaiseNumbers(x, y, c.ratioNum, q, r, Gains(c, Folds(messages), Gain(c)));
  }

  /** A raise of any history is a crossing by its folds over its characters. */
  lemma {:induction false} RaiseCrosses(c: RatioTokenCounter, messages: seq<Message>)
    requires c.Valid() && Count(c, Coalesce(messages)) > Count(c, messages)
    ensures Folds(messages) >= 1 && Crosses(c, Folds(messages), TotalChars(messages))
  {
    RaiseParts(c, messages);
    SeamsAreFolds(messages);
    MultipleGrows(c.perMessage, Folds(messages) + 1, |messages|);
  }

  // ---------------------------------------------------------------- the search is complete

  lemma {:induction false} GainsSign(c: RatioTokenCounter, k: nat, gain: int)
    ensures gain <= 0 ==> Gains(c, k, gain) <= 0
    ensures gain >= 1 ==> Gains(c, k, gain) >= k
  {
    if k > 0 {
      GainsSign(c, k - 1, gain);
    }
  }

  /** As many folds as the numerator cross a token by their gain alone. */
  lemma ManyFoldsCross(c: RatioTokenCounter)
    requires c.Valid() && Gain(c) >= 1 && Multiple(c.perMessage, c.ratioNum + 1) < Divided(c.ratioNum, U64_MAX)
    ensures MayRaise(c)
  {
    GainsSign(c, c.ratioNum, Gain(c));
    assert Crosses(c, c.ratioNum, 0);
  }

  /** Whole multiples of the numerator among the characters only add whole tokens. */
  lemma Reduced(c: RatioTokenCounter, t: nat)
    requires c.Valid()
    ensures Rest(c, t % c.ratioNum) == Rest(c, t) && Whole(c, t % c.ratioNum) <= Whole(c, t)
  {
    var more := CharsSplit(c.charsDen, c.ratioNum, t);
    AddedMultiples(c.ratioNum, Multiple(c.charsDen, t % c.ratioNum), more);
  }

  lemma CharsSplit(den: nat, n: nat, t: nat) returns (more: nat)
    requires n > 0
    ensures Multiple(den, t) == Multiple(den, t % n) + Multiple(n, more)
  {
    more := t / n * den;
    DivMod(t, n);
    CharsParts(den, n, t / n, t % n);
  }

  lemma CharsParts(den: nat, n: nat, a: nat, b: nat)
    ensures Multiple(den, n * a + b) == Multiple(den, b) + Multiple(n, a * den)
  {
    MultipleAdds(den, b, n * a);
    Rotated(den, n, a);
    SameProduct(den, n * a, n, a * den);
  }

  lemma Rotated(den: nat, n: nat, a: nat)
    ensures den * (n * a) == n * (a * den)
  {
    assert den * (n * a) == den * n * a;
    assert n * (a * den) == n * a * den;
  }

  lemma SameProduct(a: nat, b: nat, c: nat, d: nat)
    requires a * b == c * d
    ensures Multiple(a, b) == Multiple(c, d)
  {
    MultipleIs(a, b);
    MultipleIs(c, d);
  }

  lemma {:induction false} AddedMultiples(n: nat, x: nat, more: nat)
    requires n > 0
    ensures Left(n, x + Multiple(n, more)) == Left(n, x)
    ensures Divided(n, x + Multiple(n, more)) == Divided(n, x) + more
  {
    if more > 0 {
      AddedMultiples(n, x, more - 1);
    }
  }

  lemma SmallCrossing(c: RatioTokenCounter, k: nat, t: nat)
    requires c.Valid() && k >= 1 && Crosses(c, k, t)
    ensures MayRaise(c)
  {
    if k <= c.ratioNum {
      Reduced(c, t);
      DivMod(t, c.ratioNum);
      assert Crosses(c, k, t % c.ratioNum);
      } else {
      GainsSign(c, k, Gain(c));
      MultipleGrows(c.perMessage, c.ratioNum + 1, k + 1);
      ManyFoldsCross(c);
    }
  }

  /** For every ratio counter, coalescing can raise a count if and only if the search finds a crossing. */
  lemma RatioNeverRaisedIff(c: RatioTokenCounter)
    requires c.Valid()
    ensures NeverRaised(Ratio(c)) <==> !MayRaise(c)
  {
    if MayRaise(c) {
      var k, t :| 1 <= k <= c.ratioNum && 0 <= t < c.ratioNum && Crosses(c, k, t);
        RunSize(k, t);
      CrossingRaises(c, Run(k, t));
      CountIs(c, Run(k, t));
      CountIs(c, Coalesce(Run(k, t)));
      assert Ratio(c)(Coalesce(Run(k, t))) > Ratio(c)(Run(k, t));
    } else {
      forall messages
        ensures Ratio(c)(Coalesce(messages)) <= Ratio(c)(messages)
      {
        CountIs(c, messages);
        CountIs(c, Coalesce(messages));
        if Count(c, Coalesce(messages)) > Count(c, messages) {
          RaiseCrosses(c, messages);
          SmallCrossing(c, Folds(messages), TotalChars(messages));
        }
      }
    }
  }

  /** A search that finds anything finds a gain, and room for the overhead of two messages. */
  lemma RaiseNeeds(c: RatioTokenCounter)
    requires c.Valid() && MayRaise(c)
    ensures Gain(c) >= 1 && Multiple(c.perMessage, 2) < Divided(c.ratioNum, U64_MAX)
  {
    var k, t :| 1 <= k <= c.ratioNum && 0 <= t < c.ratioNum && Crosses(c, k, t);
    GainsSign(c, k, Gain(c));
    MultipleGrows(c.perMessage, 2, k + 1);
  }

  /**
   Away from saturation the search is one comparison: a count can be raised if and only if a
   separator outweighs the overhead. Close to it, where two messages' overhead alone reaches the
   largest count there is, none can be.
   */
  lemma MayRaiseIff(c: RatioTokenCounter)
    requires c.Valid()
    ensures c.perMessage * (c.ratioNum + 1) < U64_MAX / c.ratioNum ==>
      (MayRaise(c) <==> 2 * c.charsDen > c.perMessage * c.ratioNum)
    ensures c.perMessage * 2 >= U64_MAX / c.ratioNum ==> !MayRaise(c)
  {
    MultipleIs(c.perMessage, c.ratioNum + 1);
    MultipleIs(c.perMessage, 2);
    DividedIs(c.ratioNum, U64_MAX);
    MultipleIs(c.ratioNum, c.perMessage);
    if MayRaise(c) {
      RaiseNeeds(c);
    }
    if Gain(c) >= 1 && Multiple(c.perMessage, c.ratioNum + 1) < Divided(c.ratioNum, U64_MAX) {
      ManyFoldsCross(c);
    }
  }

  /** So every history adopted fits, by a ratio counter, if and only if the search finds nothing. */
  lemma RatioAdoptedAlwaysFitsIff(c: RatioTokenCounter)
    requires c.Valid()
    ensures AdoptedAlwaysFits(Ratio(c)) <==> !MayRaise(c)
  {
    RatioIsPlain(c);
    AdoptedAlwaysFitsIff(Ratio(c));
    RatioNeverRaisedIff(c);
  }

  lemma RatioIsPlain(c: RatioTokenCounter)
    requires c.Valid()
    ensures Plain(Ratio(c))
  {
    forall messages
      ensures Ratio(c)(messages) <= U64_MAX
    {
      AtMostItself(ClampU64(Scaled(c, messages)), c.ratioNum);
    }
    forall messages, more
      ensures Ratio(c)(messages) <= Ratio(c)(messages + more)
    {
      AppendNeverLowers(c, messages, more);
    }
  }

  lemma AtMostItself(x: nat, n: nat)
    requires n > 0
    ensures Quotient(x, n) <= x
  {
    DivMod(x, n);
    MulMono(1, n, x / n);
  }

  /** The crate's presets: ratio 4.30 with 4 tokens a message, 3.60 with 5, 4.05 with 4 and 3.80 with 4. */
  const OPENAI := RatioTokenCounter(4, 43, 10)
  const ANTHROPIC := RatioTokenCounter(5, 36, 10)
  const GEMINI := RatioTokenCounter(4, 405, 100)
  const LOCAL_DEFAULT := RatioTokenCounter(4, 38, 10)

  /** No preset can be raised. */
  lemma PresetsNeverRaised(c: RatioTokenCounter)
    requires c == OPENAI || c == ANTHROPIC || c == GEMINI || c == LOCAL_DEFAULT
    ensures c.Valid() && AdoptedAlwaysFits(Ratio(c))
  {
    MayRaiseIff(c);
    RatioAdoptedAlwaysFitsIff(c);
  }
}

/** The circuit breaker and its fallback chain (src/fallback.rs). */
module Breaker {
  import opened Common

  datatype Phase = Primary | Fallback | Recovering

  datatype FailureKind = Transient | RateLimit

  // ---------------------------------------------------------------- names

  predicate GoodName(name: string) {
    name != [] && Trim(name) == name
  }

  function Validated(name: string): (r: Option<string>)
    ensures r.Some? ==> r.value == Trim(name) && GoodName(r.value)
    ensures r.None? <==> Trim(name) == []
  {
    if Trim(name) == [] then None else Some(Trim(name))
  }

  // ---------------------------------------------------------------- the chain

  datatype Entry = Entry(name: string, available: bool, attempts: nat, maxFail: nat)

  predicate Failed(e: Entry) {
    !e.available || e.attempts >= e.maxFail
  }

  function NewEntry(name: string): Entry {
    Entry(name, true, 0, 2)
  }

  /** A new threshold never revives an entry that has failed, and leaves the attempts of the others alone. */
  function WithMaxFail(e: Entry, maxFail: nat): (r: Entry)
    ensures Failed(e) ==> Failed(r)
    ensures !Failed(e) ==> r.attempts == e.attempts
    ensures r.name == e.name && r.available == e.available && r.maxFail == Max(maxFail, 1)
  {
    var newMax := Max(maxFail, 1);
    Entry(e.name, e.available, if Failed(e) && e.attempts < newMax then newMax else e.attempts, newMax)
  }

  function Attempted(e: Entry): Entry {
    e.(attempts := SatAdd(USIZE_MAX, e.attempts, 1))
  }

  function Cleared(e: Entry): Entry {
    e.(attempts := 0)
  }

  /** The position of the first entry under a name. */
  function IndexOf(chain: seq<Entry>, name: string): (r: Option<nat>)
    ensures r.Some? ==> r.value < |chain| && chain[r.value].name == name
    ensures forall i :: 0 <= i < (if r.Some? then r.value else |chain|) ==> chain[i].name != name
  {
    if chain == [] then None
    else if chain[0].name == name then Some(0)
    else
      match IndexOf(chain[1..], name)
      case None => None
      case Some(i) => Some(i + 1)
  }

  /** The position of the first entry that has not failed. */
  function FirstUsable(chain: seq<Entry>): (r: Option<nat>)
    ensures r.Some? ==> r.value < |chain| && !Failed(chain[r.value])
    ensures forall i :: 0 <= i < (if r.Some? then r.value else |chain|) ==> Failed(chain[i])
  {
    if chain == [] then None
    else if !Failed(chain[0]) then Some(0)
    else
      match FirstUsable(chain[1..])
      case None => None
      case Some(i) => Some(i + 1)
  }

  function FirstUsableName(chain: seq<Entry>): Option<string> {
    match FirstUsable(chain)
    case None => None
    case Some(i) => Some(chain[i].name)
  }

  function ClearAllAttempts(chain: seq<Entry>): seq<Entry> {
    seq(|chain|, i requires 0 <= i < |chain| => Cleared(chain[i]))
  }

  // ---------------------------------------------------------------- the breaker

  datatype RawConfig = Config(tripThreshold: nat, recoverySuccesses: nat, maxFail: nat)

  type Config = c: RawConfig |
      c.tripThreshold <= USIZE_MAX && c.recoverySuccesses <= USIZE_MAX && c.maxFail <= USIZE_MAX
    witness Config(3, 2, 2)

  datatype Breaker = Breaker(
    phase: Phase,
    failures: nat,
    successes: nat,
    activated: bool,
    original: Option<string>,
    chain: seq<Entry>,
    active: Option<string>,
    switchedAt: Option<nat>)

  const INITIAL: Breaker := Breaker(Primary, 0, 0, false, None, [], None, None)

  datatype Call =
    | RecordFailure(kind: FailureKind, now: nat)
    | RecordSuccess
    | ResetFailureCounter
    | ToFallback(now: nat)
    | ToRecovering
    | ToPrimary
    | SetOriginal(name: string)
    | SetFallback(name: string)
    | AddFallback(name: string)
    | InsertFallback(index: nat, name: string)
    | RemoveFallback(name: string)
    | SetChain(names: seq<string>)
    | MarkFailed(name: string)
    | ClearFailed(name: string)
    | ClearAll
    | SetAvailable(name: string, available: bool)

  function EnterFallback(s: Breaker, now: nat): Breaker {
    s.(phase := Fallback, activated := true, switchedAt := Some(now), successes := 0, failures := 0)
  }

  function EnterRecovering(s: Breaker): Breaker {
    s.(phase := Recovering, successes := 0)
  }

  function WithChain(s: Breaker, chain: seq<Entry>): Breaker {
    s.(chain := chain, active := FirstUsableName(chain))
  }

  function EnterPrimary(s: Breaker): Breaker {
    WithChain(s.(phase := Primary, switchedAt := None, successes := 0, failures := 0, activated := false),
              ClearAllAttempts(s.chain))
  }

  function CountFailure(c: Config, s: Breaker, now: nat): Breaker {
    var t := s.(failures := SatAdd(USIZE_MAX, s.failures, 1));
    if t.failures >= c.tripThreshold then EnterFallback(t, now) else t
  }

  function Fail(c: Config, s: Breaker, kind: FailureKind, now: nat): Breaker {
    match s.phase
    case Primary => CountFailure(c, s, now)
    case Fallback => s
    case Recovering =>
      match kind
      case RateLimit => EnterFallback(s, now)
      case Transient => CountFailure(c, s.(successes := 0), now)
  }

  function Succeed(c: Config, s: Breaker): Breaker {
    match s.phase
    case Primary => s.(failures := 0)
    case Fallback => s
    case Recovering =>
      var t := s.(failures := 0, successes := SatAdd(USIZE_MAX, s.successes, 1));
      if t.successes >= c.recoverySuccesses then EnterPrimary(t) else t
  }

  function FreshEntry(c: Config, name: string): Entry {
    WithMaxFail(NewEntry(name), c.maxFail)
  }

  function FreshChain(c: Config, names: seq<string>): Option<seq<Entry>> {
    if names == [] then Some([])
    else
      match Validated(names[0])
      case None => None
      case Some(name) =>
        match FreshChain(c, names[1..])
        case None => None
        case Some(rest) => Some([FreshEntry(c, name)] + rest)
  }

  /** The chain with its first entry under `name` replaced; unchanged when there is none. */
  function Updated(chain: seq<Entry>, name: string, f: Entry -> Entry): seq<Entry> {
    match IndexOf(chain, name)
    case None => chain
    case Some(i) => chain[i := f(chain[i])]
  }

  function Step(c: Config, s: Breaker, call: Call): Breaker {
    match call
    case RecordFailure(kind, now) => Fail(c, s, kind, now)
    case RecordSuccess => Succeed(c, s)
    case ResetFailureCounter => s.(failures := 0)
    case ToFallback(now) => EnterFallback(s, now)
    case ToRecovering => EnterRecovering(s)
    case ToPrimary => EnterPrimary(s)
    case SetOriginal(name) =>
      (match Validated(name)
       case None => s
       case Some(n) => s.(original := Some(n)))
    case SetFallback(name) =>
      (match Validated(name)
       case None => s
       case Some(n) => WithChain(s, [FreshEntry(c, n)]))
    case AddFallback(name) =>
      (match Validated(name)
       case None => s
       case Some(n) => WithChain(s, s.chain + [FreshEntry(c, n)]))
    case InsertFallback(index, name) =>
      (match Validated(name)
       case None => s
       case Some(n) =>
         var at := Min(index, |s.chain|);
         WithChain(s, s.chain[..at] + [FreshEntry(c, n)] + s.chain[at..]))
    case RemoveFallback(name) =>
      (match IndexOf(s.chain, name)
       case None => s
       case Some(i) => WithChain(s, s.chain[..i] + s.chain[i + 1..]))
    case SetChain(names) =>
      (match FreshChain(c, names)
       case None => s
       case Some(chain) => WithChain(s, chain))
    case MarkFailed(name) => WithChain(s, Updated(s.chain, name, Attempted))
    case ClearFailed(name) => WithChain(s, Updated(s.chain, name, Cleared))
    case ClearAll => WithChain(s, ClearAllAttempts(s.chain))
    case SetAvailable(name, available) => WithChain(s, Updated(s.chain, name, (e: Entry) => e.(available := available)))
  }

  function After(c: Config, calls: seq<Call>): Breaker {
    if calls == [] then INITIAL else Step(c, After(c, calls[..|calls| - 1]), calls[|calls| - 1])
  }

  // ---------------------------------------------------------------- history

  /** What happened, in order; failures and successes only where the breaker takes note of them. */
  datatype Event = Failure(kind: FailureKind) | Success | CounterReset | Entered(phase: Phase)

  function EventsOf(c: Config, s: Breaker, call: Call): seq<Event> {
    match call
    case RecordFailure(kind, now) =>
      if s.phase == Fallback then []
      else [Failure(kind)] + if Fail(c, s, kind, now).phase == Fallback then [Entered(Fallback)] else []
    case RecordSuccess =>
      if s.phase == Fallback then []
      else [Success] + if Succeed(c, s).phase != s.phase then [Entered(Primary)] else []
    case ResetFailureCounter => [CounterReset]
    case ToFallback(_) => [Entered(Fallback)]
    case ToRecovering => [Entered(Recovering)]
    case ToPrimary => [Entered(Primary)]
    case _ => []
  }

  function History(c: Config, calls: seq<Call>): seq<Event> {
    if calls == [] then []
    else
      var before := calls[..|calls| - 1];
      History(c, before) + EventsOf(c, After(c, before), calls[|calls| - 1])
  }

  /** Failures since the last success, counter reset, or entry to Fallback or Primary. */
  function FailureStreak(h: seq<Event>): nat {
    if h == [] then 0
    else
      match h[|h| - 1]
      case Failure(_) => FailureStreak(h[..|h| - 1]) + 1
      case Entered(Recovering) => FailureStreak(h[..|h| - 1])
      case _ => 0
  }

  /** Successes since the last failure or the last entry to any phase. */
  function SuccessStreak(h: seq<Event>): nat {
    if h == [] then 0
    else
      match h[|h| - 1]
      case Success => SuccessStreak(h[..|h| - 1]) + 1
      case CounterReset => SuccessStreak(h[..|h| - 1])
      case _ => 0
  }

  function LastEntered(h: seq<Event>): Phase {
    if h == [] then Primary
    else if h[|h| - 1].Entered? then h[|h| - 1].phase
    else LastEntered(h[..|h| - 1])
  }

  /** Fallback was entered after the last entry to Primary. */
  predicate TrippedSincePrimary(h: seq<Event>) {
    h != [] &&
    (h[|h| - 1] == Entered(Fallback) || (h[|h| - 1] != Entered(Primary) && TrippedSincePrimary(h[..|h| - 1])))
  }

  lemma HistoryAppend(h: seq<Event>, e: Event)
    ensures FailureStreak(h + [e]) ==
      if e.Failure? then FailureStreak(h) + 1 else if e == Entered(Recovering) then FailureStreak(h) else 0
    ensures SuccessStreak(h + [e]) ==
      if e.Success? then SuccessStreak(h) + 1 else if e.CounterReset? then SuccessStreak(h) else 0
    ensures LastEntered(h + [e]) == if e.Entered? then e.phase else LastEntered(h)
    ensures TrippedSincePrimary(h + [e]) <==>
      e == Entered(Fallback) || (e != Entered(Primary) && TrippedSincePrimary(h))
  {
    assert (h + [e])[..|h|] == h;
  }

  // ---------------------------------------------------------------- invariants

  ghost predicate CountersOk(c: Config, s: Breaker) {
    && (s.failures == 0 || s.successes == 0)
    && (s.phase == Fallback ==> s.failures == 0 && s.successes == 0)
    && (s.phase == Primary ==> s.successes == 0)
    && s.failures < Max(1, c.tripThreshold)
    && s.successes < Max(1, c.recoverySuccesses)
  }

  ghost predicate GoodChain(chain: seq<Entry>) {
    forall i :: 0 <= i < |chain| ==> GoodName(chain[i].name) && 1 <= chain[i].maxFail <= USIZE_MAX
  }

  ghost predicate ChainOk(s: Breaker) {
    && s.active == FirstUsableName(s.chain)
    && GoodChain(s.chain)
    && (s.original.Some? ==> GoodName(s.original.value))
  }

  ghost predicate HistoryOk(s: Breaker, h: seq<Event>) {
    && s.phase == LastEntered(h)
    && s.failures == FailureStreak(h)
    && s.successes == (if s.phase == Recovering then SuccessStreak(h) else 0)
    && s.activated == TrippedSincePrimary(h)
    && (s.switchedAt.Some? <==> s.activated)
    && (s.phase == Fallback ==> s.activated)
  }

  lemma StepKeepsCounters(c: Config, s: Breaker, call: Call)
    requires CountersOk(c, s)
    ensures CountersOk(c, Step(c, s, call))
  {
  }

  lemma {:induction false} FreshChainIsGood(c: Config, names: seq<string>)
    requires FreshChain(c, names).Some?
    ensures |FreshChain(c, names).value| == |names|
    ensures forall i :: 0 <= i < |names| ==>
      Validated(names[i]).Some? && FreshChain(c, names).value[i] == FreshEntry(c, Validated(names[i]).value)
  {
    if names != [] {
      FreshChainIsGood(c, names[1..]);
    }
  }

  lemma UpdatedIsGood(chain: seq<Entry>, name: string, f: Entry -> Entry)
    requires GoodChain(chain) && forall e :: f(e).name == e.name && f(e).maxFail == e.maxFail
    ensures GoodChain(Updated(chain, name, f))
  {
  }

  lemma InsertedIsGood(c: Config, chain: seq<Entry>, at: nat, name: string)
    requires GoodChain(chain) && at <= |chain| && GoodName(name)
    ensures GoodChain(chain[..at] + [FreshEntry(c, name)] + chain[at..])
  {
  }

  /** The calls that change entries in place, those that add one, and the one that drops one. */
  predicate EditsEntry(call: Call) {
    call.MarkFailed? || call.ClearFailed? || call.SetAvailable?
  }

  predicate AddsEntry(call: Call) {
    call.SetFallback? || call.AddFallback? || call.InsertFallback?
  }

  lemma EntryEditKeepsChain(c: Config, s: Breaker, call: Call)
    requires ChainOk(s) && EditsEntry(call)
    ensures ChainOk(Step(c, s, call))
  {
    match call
    case MarkFailed(name) => UpdatedIsGood(s.chain, name, Attempted);
    case ClearFailed(name) => UpdatedIsGood(s.chain, name, Cleared);
    case SetAvailable(name, available) => UpdatedIsGood(s.chain, name, (e: Entry) => e.(available := available));
  }

  lemma AddedEntryKeepsChain(c: Config, s: Breaker, call: Call)
    requires ChainOk(s) && AddsEntry(call)
    ensures ChainOk(Step(c, s, call))
  {
    var valid := Validated(call.name);
    if valid.Some? {
      match call
      case SetFallback(_) => InsertedIsGood(c, [], 0, valid.value);
      case AddFallback(_) => InsertedIsGood(c, s.chain, |s.chain|, valid.value);
      case InsertFallback(index, _) => InsertedIsGood(c, s.chain, Min(index, |s.chain|), valid.value);
    }
  }

  lemma RemovedEntryKeepsChain(c: Config, s: Breaker, name: string)
    requires ChainOk(s)
    ensures ChainOk(Step(c, s, RemoveFallback(name)))
  {
  }

  lemma ClearedChainIsOk(c: Config, s: Breaker)
    requires ChainOk(s)
    ensures ChainOk(Step(c, s, ClearAll))
  {
  }

  lemma SetChainKeepsChain(c: Config, s: Breaker, names: seq<string>)
    requires ChainOk(s)
    ensures ChainOk(Step(c, s, SetChain(names)))
  {
    if FreshChain(c, names).Some? {
      FreshChainIsGood(c, names);
    }
  }

  lemma SameChainIsOk(s: Breaker, t: Breaker)
    requires ChainOk(s) && t.chain == s.chain && t.active == s.active && t.original == s.original
    ensures ChainOk(t)
  {
  }

  lemma QuietCallKeepsChain(c: Config, s: Breaker, call: Call)
    requires ChainOk(s)
    requires call.RecordFailure? || call.ResetFailureCounter? || call.ToFallback? || call.ToRecovering?
    ensures ChainOk(Step(c, s, call))
  {
    SameChainIsOk(s, Step(c, s, call));
  }

  lemma StepKeepsChain(c: Config, s: Breaker, call: Call)
    requires ChainOk(s)
    ensures ChainOk(Step(c, s, call))
  {
    if EditsEntry(call) {
      EntryEditKeepsChain(c, s, call);
    } else if AddsEntry(call) {
      AddedEntryKeepsChain(c, s, call);
    } else if call.RemoveFallback? {
      RemovedEntryKeepsChain(c, s, call.name);
    } else if call.ClearAll? {
      ClearedChainIsOk(c, s);
    } else if call.SetChain? {
      SetChainKeepsChain(c, s, call.names);
    } else if call.ToPrimary? {
      EnterPrimaryKeepsChain(s);
    } else if call.RecordSuccess? {
      SuccessKeepsChain(c, s);
    } else if !call.SetOriginal? {
      QuietCallKeepsChain(c, s, call);
    }
  }

  lemma SuccessKeepsChain(c: Config, s: Breaker)
    requires ChainOk(s)
    ensures ChainOk(Succeed(c, s))
  {
    var t := s.(failures := 0, successes := SatAdd(USIZE_MAX, s.successes, 1));
    SameChainIsOk(s, t);
    EnterPrimaryKeepsChain(t);
    SameChainIsOk(s, s.(failures := 0));
  }

  lemma EnterPrimaryKeepsChain(s: Breaker)
    requires ChainOk(s)
    ensures ChainOk(EnterPrimary(s))
  {
  }

  lemma FailKeepsHistory(c: Config, s: Breaker, h: seq<Event>, kind: FailureKind, now: nat)
    requires CountersOk(c, s) && HistoryOk(s, h) && s.phase != Fallback
    ensures HistoryOk(Fail(c, s, kind, now), h + EventsOf(c, s, RecordFailure(kind, now)))
  {
    var failed := h + [Failure(kind)];
    HistoryAppend(h, Failure(kind));
    HistoryAppend(failed, Entered(Fallback));
    assert h + [Failure(kind), Entered(Fallback)] == failed + [Entered(Fallback)];
    assert h + ([Failure(kind)] + []) == failed;
  }

  lemma SucceedKeepsHistory(c: Config, s: Breaker, h: seq<Event>)
    requires CountersOk(c, s) && HistoryOk(s, h) && s.phase != Fallback
    ensures HistoryOk(Succeed(c, s), h + EventsOf(c, s, RecordSuccess))
  {
    var succeeded := h + [Success];
    HistoryAppend(h, Success);
    HistoryAppend(succeeded, Entered(Primary));
    assert h + [Success, Entered(Primary)] == succeeded + [Entered(Primary)];
    assert h + ([Success] + []) == succeeded;
  }

  lemma StepKeepsHistory(c: Config, s: Breaker, h: seq<Event>, call: Call)
    requires CountersOk(c, s) && HistoryOk(s, h)
    ensures HistoryOk(Step(c, s, call), h + EventsOf(c, s, call))
  {
    var es := EventsOf(c, s, call);
    if es == [] {
      assert h + es == h;
    } else if call.RecordFailure? {
      FailKeepsHistory(c, s, h, call.kind, call.now);
    } else if call.RecordSuccess? {
      SucceedKeepsHistory(c, s, h);
    } else {
      HistoryAppend(h, es[0]);
    }
  }

  /**
   Over every run of calls: the two counters are their full-history streaks, at most one is
   nonzero, both are zero in Fallback, each stays below its threshold, and the sticky flag says
   exactly that Fallback was entered since the last entry to Primary.
   */
  lemma {:induction false} RunInvariant(c: Config, calls: seq<Call>)
    ensures CountersOk(c, After(c, calls))
    ensures ChainOk(After(c, calls))
    ensures HistoryOk(After(c, calls), History(c, calls))
    decreases |calls|
  {
    if calls != [] {
      var before, call := calls[..|calls| - 1], calls[|calls| - 1];
      RunInvariant(c, before);
      StepKeepsCounters(c, After(c, before), call);
      StepKeepsChain(c, After(c, before), call);
      StepKeepsHistory(c, After(c, before), History(c, before), call);
    }
  }

  /** The clock reading a call comes with. */
  function TimeOf(call: Call): nat {
    match call
    case RecordFailure(_, now) => now
    case ToFallback(now) => now
    case _ => 0
  }

  /** When Fallback was last entered, by a trip or by hand, since the last entry to Primary. */
  function LastSwitch(c: Config, calls: seq<Call>): Option<nat> {
    if calls == [] then None
    else
      var before, call := calls[..|calls| - 1], calls[|calls| - 1];
      var events := EventsOf(c, After(c, before), call);
      if Entered(Fallback) in events then Some(TimeOf(call))
      else if Entered(Primary) in events then None
      else LastSwitch(c, before)
  }

  /** Over every run the switch stamp is the time of the last call that entered Fallback, none after Primary. */
  lemma {:induction false} SwitchIsStamped(c: Config, calls: seq<Call>)
    ensures After(c, calls).switchedAt == LastSwitch(c, calls)
    ensures LastEntered(History(c, calls)) == Fallback ==> LastSwitch(c, calls).Some?
    decreases |calls|
  {
    RunInvariant(c, calls);
    if calls != [] {
      var before, call := calls[..|calls| - 1], calls[|calls| - 1];
      SwitchIsStamped(c, before);
      RunInvariant(c, before);
      StampMoves(c, After(c, before), call);
    }
  }

  lemma StampMoves(c: Config, s: Breaker, call: Call)
    requires CountersOk(c, s)
    ensures var events := EventsOf(c, s, call); var t := Step(c, s, call);
      t.switchedAt == if Entered(Fallback) in events then Some(TimeOf(call))
                      else if Entered(Primary) in events then None
                      else s.switchedAt
  {
  }

  /** Whether it is time to try the primary again. */
  predicate ResumeDue(s: Breaker, now: nat, minimum: nat) {
    s.phase == Fallback && s.switchedAt.Some? && SatSub(now, s.switchedAt.value) >= minimum
  }

  /**
   It is due exactly when Fallback is the phase last entered and the minimum time has passed since the
   call that entered it, a clock behind that call counting as no time.
   */
  lemma ResumesExactlyAfterMinimum(c: Config, calls: seq<Call>, now: nat, minimum: nat)
    ensures ResumeDue(After(c, calls), now, minimum) <==>
      && LastEntered(History(c, calls)) == Fallback && LastSwitch(c, calls).Some?
      && (minimum == 0 || LastSwitch(c, calls).value + minimum <= now)
  {
    RunInvariant(c, calls);
    SwitchIsStamped(c, calls);
  }

  /** A switch by hand at one time, and an earlier, a later and the exact time to try again. */
  lemma SwitchThenResume(c: Config, calls: seq<Call>, at: nat, now: nat, minimum: nat)
    ensures ResumeDue(After(c, calls + [ToFallback(at)]), now, minimum) <==> minimum == 0 || at + minimum <= now
  {
    assert (calls + [ToFallback(at)])[..|calls|] == calls;
  }

  /** The flag is not sticky: whatever happened before, entering Primary clears it, trip or no trip. */
  lemma PrimaryForgetsTheTrip(c: Config, calls: seq<Call>, now: nat)
    ensures var s := After(c, calls + [ToFallback(now)] + [ToPrimary]);
      !s.activated && s.switchedAt == None && Entered(Fallback) in History(c, calls + [ToFallback(now)] + [ToPrimary])
  {
    var tripped := calls + [ToFallback(now)];
    assert tripped[..|calls|] == calls;
    assert (tripped + [ToPrimary])[..|tripped|] == tripped;
    assert History(c, tripped) == History(c, calls) + [Entered(Fallback)];
    assert History(c, tripped + [ToPrimary]) == History(c, tripped) + [Entered(Primary)];
  }

  // ---------------------------------------------------------------- tripping and closing

  /** A failure trips the circuit exactly when its streak reaches the threshold, or the probe is rate-limited. */
  lemma TripsExactlyAtThreshold(c: Config, calls: seq<Call>, kind: FailureKind, now: nat)
    requires After(c, calls).phase != Fallback
    ensures var s := After(c, calls);
      Step(c, s, RecordFailure(kind, now)).phase == Fallback <==>
        || FailureStreak(History(c, calls)) + 1 == Max(1, c.tripThreshold)
        || (LastEntered(History(c, calls)) == Recovering && kind == RateLimit)
  {
    RunInvariant(c, calls);
  }

  /** A probe closes the circuit exactly when the success streak reaches its threshold. */
  lemma ClosesExactlyAtThreshold(c: Config, calls: seq<Call>)
    requires After(c, calls).phase == Recovering
    ensures Step(c, After(c, calls), RecordSuccess).phase == Primary <==>
      SuccessStreak(History(c, calls)) + 1 == Max(1, c.recoverySuccesses)
  {
    RunInvariant(c, calls);
  }

  /** The answer of `record_failure`: it tripped by the threshold; a rate-limit re-trip answers false. */
  function Tripped(c: Config, s: Breaker, kind: FailureKind): bool {
    match s.phase
    case Fallback => false
    case Primary => SatAdd(USIZE_MAX, s.failures, 1) >= c.tripThreshold
    case Recovering => kind == Transient && SatAdd(USIZE_MAX, s.failures, 1) >= c.tripThreshold
  }

  lemma TrippedIff(c: Config, s: Breaker, kind: FailureKind, now: nat)
    ensures Tripped(c, s, kind) <==>
      && s.phase != Fallback && Fail(c, s, kind, now).phase == Fallback
      && !(s.phase == Recovering && kind == RateLimit)
  {
  }

  /**
   Over any run, `record_failure` reports a trip exactly when the circuit is not already in Fallback and
   the failure completes the streak the threshold asks for, a rate-limited probe aside: that one trips
   the circuit and reports nothing.
   */
  lemma ReportsTripExactlyAtThreshold(c: Config, calls: seq<Call>, kind: FailureKind)
    ensures Tripped(c, After(c, calls), kind) <==>
      && After(c, calls).phase != Fallback
      && FailureStreak(History(c, calls)) + 1 == Max(1, c.tripThreshold)
      && !(After(c, calls).phase == Recovering && kind == RateLimit)
  {
    RunInvariant(c, calls);
  }

  // ---------------------------------------------------------------- which model serves

  function ActiveModel(s: Breaker): Option<string> {
    if s.phase == Fallback then s.active else s.original
  }

  /**
   Outside Fallback the original model serves; inside it the first usable chain member does,
   and there is none exactly when every member has failed.
   */
  lemma ActiveModelIsConfigured(c: Config, calls: seq<Call>)
    ensures var s := After(c, calls);
      && (s.phase != Fallback ==> ActiveModel(s) == s.original)
      && (s.phase == Fallback ==>
            && (ActiveModel(s) == None <==> forall e :: e in s.chain ==> Failed(e))
            && (ActiveModel(s).Some? ==>
                  exists i :: 0 <= i < |s.chain| && s.chain[i].name == ActiveModel(s).value && !Failed(s.chain[i])
                              && forall j :: 0 <= j < i ==> Failed(s.chain[j])))
      && (forall e :: e in s.chain ==> (Failed(e) <==> !e.available || e.attempts >= e.maxFail))
      && (ActiveModel(s).Some? ==> GoodName(ActiveModel(s).value))
  {
    RunInvariant(c, calls);
    var s := After(c, calls);
    if s.phase == Fallback {
      match FirstUsable(s.chain)
      case None =>
        forall e | e in s.chain ensures Failed(e) {
          var i :| 0 <= i < |s.chain| && s.chain[i] == e;
        }
      case Some(i) => assert s.chain[i] in s.chain;
    }
  }

  // ---------------------------------------------------------------- changing the chain

  function Names(chain: seq<Entry>): seq<string> {
    seq(|chain|, i requires 0 <= i < |chain| => chain[i].name)
  }

  /** Removing a name that was just added where it is new restores the chain and the cached answer. */
  lemma RemoveUndoesInsert(c: Config, s: Breaker, index: nat, name: string)
    requires ChainOk(s) && GoodName(name) && name !in Names(s.chain)
    ensures Step(c, Step(c, s, InsertFallback(index, name)), RemoveFallback(name)) == s
  {
    InsertedIsFound(s.chain, Min(index, |s.chain|), FreshEntry(c, name));
  }

  lemma InsertedIsFound(chain: seq<Entry>, at: nat, e: Entry)
    requires at <= |chain| && e.name !in Names(chain)
    ensures var grown := chain[..at] + [e] + chain[at..];
      IndexOf(grown, e.name) == Some(at) && grown[..at] + grown[at + 1..] == chain
  {
    var grown := chain[..at] + [e] + chain[at..];
    forall i | 0 <= i < at
      ensures grown[i].name != e.name
    {
      assert Names(chain)[i] in Names(chain);
    }
    FirstIsAt(grown, e.name, at);
  }

  /** Adding is inserting at the end, and so is inserting anywhere past it. */
  lemma AddIsInsertAtEnd(c: Config, s: Breaker, index: nat, name: string)
    requires index >= |s.chain|
    ensures Step(c, s, AddFallback(name)) == Step(c, s, InsertFallback(index, name))
  {
    var n := |s.chain|;
    assert forall e :: s.chain[..n] + [e] + s.chain[n..] == s.chain + [e];
  }

  lemma {:induction false} FirstIsAt(chain: seq<Entry>, name: string, k: nat)
    requires k < |chain| && chain[k].name == name && forall i :: 0 <= i < k ==> chain[i].name != name
    ensures IndexOf(chain, name) == Some(k)
  {
    if k > 0 {
      FirstIsAt(chain[1..], name, k - 1);
    }
  }

  /** A chain set from valid names reads back as those names, every one of them usable; one bad name changes nothing. */
  lemma SetChainReadsBack(c: Config, s: Breaker, names: seq<string>)
    ensures var t := Step(c, s, SetChain(names));
      if forall i :: 0 <= i < |names| ==> Trim(names[i]) != [] then
        && |t.chain| == |names|
        && forall i :: 0 <= i < |names| ==> t.chain[i].name == Trim(names[i]) && !Failed(t.chain[i])
      else t == s
  {
    if forall i :: 0 <= i < |names| ==> Trim(names[i]) != [] {
      FreshChainSucceeds(c, names);
      FreshChainIsGood(c, names);
    } else {
      var i :| 0 <= i < |names| && Trim(names[i]) == [];
      FreshChainFails(c, names, i);
    }
  }

  /** Closing the circuit gives every model of the chain its full budget back, unless it was made unavailable. */
  lemma PrimaryRestoresTheChain(c: Config, s: Breaker, e: Entry)
    requires ChainOk(s) && e in Step(c, s, ToPrimary).chain
    ensures Remaining(e) == if e.available then e.maxFail else 0
    ensures Names(Step(c, s, ToPrimary).chain) == Names(s.chain)
  {
    var t := Step(c, s, ToPrimary);
    var i :| 0 <= i < |t.chain| && t.chain[i] == e;
    assert s.chain[i].maxFail >= 1;
  }

  // ---------------------------------------------------------------- serving the chain to exhaustion

  ghost predicate DistinctNames(chain: seq<Entry>) {
    forall i, j :: 0 <= i < j < |chain| ==> chain[i].name != chain[j].name
  }

  /** How many more failures an entry can take before it is skipped. */
  function Remaining(e: Entry): nat {
    if Failed(e) then 0 else e.maxFail - e.attempts
  }

  function Budget(chain: seq<Entry>): nat {
    if chain == [] then 0 else Remaining(chain[0]) + Budget(chain[1..])
  }

  function Repeat(name: string, n: nat): seq<string> {
    if n == 0 then [] else [name] + Repeat(name, n - 1)
  }

  /** Each usable model in chain order, as often as its remaining budget. */
  function ServingOrder(chain: seq<Entry>): seq<string> {
    if chain == [] then [] else Repeat(chain[0].name, Remaining(chain[0])) + ServingOrder(chain[1..])
  }

  /** One failed turn in Fallback: the failure is recorded, then the model that served is marked. */
  function FailedTurn(c: Config, s: Breaker, model: string, kind: FailureKind, now: nat): Breaker {
    Step(c, Step(c, s, RecordFailure(kind, now)), MarkFailed(model))
  }

  lemma {:induction false} MarkReaches(chain: seq<Entry>, k: nat)
    requires DistinctNames(chain) && k < |chain|
    ensures IndexOf(chain, chain[k].name) == Some(k)
  {
    if k > 0 {
      MarkReaches(chain[1..], k - 1);
    }
  }

  lemma AttemptFirst(chain: seq<Entry>)
    requires chain != [] && !Failed(chain[0]) && chain[0].maxFail <= USIZE_MAX
    ensures var after := chain[0 := Attempted(chain[0])];
      Budget(after) + 1 == Budget(chain) && [chain[0].name] + ServingOrder(after) == ServingOrder(chain)
  {
    var e, a := chain[0], Attempted(chain[0]);
    var after := chain[0 := a];
    assert after[1..] == chain[1..];
    assert Remaining(e) == Remaining(a) + 1;
    assert Repeat(e.name, Remaining(e)) == [e.name] + Repeat(e.name, Remaining(a));
    assert ([e.name] + Repeat(e.name, Remaining(a))) + ServingOrder(chain[1..])
        == [e.name] + (Repeat(e.name, Remaining(a)) + ServingOrder(chain[1..]));
  }

  /** A failed entry at the head is worth nothing: budget and order are those of the rest. */
  lemma FailedHead(chain: seq<Entry>)
    requires chain != [] && Failed(chain[0])
    ensures Budget(chain) == Budget(chain[1..]) && ServingOrder(chain) == ServingOrder(chain[1..])
  {
    assert Repeat(chain[0].name, Remaining(chain[0])) == [];
  }

  /** Marking the first usable entry costs one unit of budget and one serving of its name. */
  lemma {:induction false} AttemptDropsBudget(chain: seq<Entry>)
    requires FirstUsable(chain).Some? && chain[FirstUsable(chain).value].maxFail <= USIZE_MAX
    ensures var k := FirstUsable(chain).value; var after := chain[k := Attempted(chain[k])];
      && Budget(after) + 1 == Budget(chain)
      && [chain[k].name] + ServingOrder(after) == ServingOrder(chain)
  {
    var k := FirstUsable(chain).value;
    if k == 0 {
      AttemptFirst(chain);
    } else {
      var after := chain[k := Attempted(chain[k])];
      assert after[1..] == chain[1..][k - 1 := Attempted(chain[k])];
      AttemptDropsBudget(chain[1..]);
      FailedHead(chain);
      FailedHead(after);
    }
  }

  ghost predicate Servable(s: Breaker) {
    && s.phase == Fallback
    && s.active == FirstUsableName(s.chain)
    && DistinctNames(s.chain)
    && forall e :: e in s.chain ==> e.maxFail <= USIZE_MAX
  }

  lemma FailedTurnAdvances(c: Config, s: Breaker, kind: FailureKind, now: nat)
    requires Servable(s) && ActiveModel(s).Some?
    ensures var t := FailedTurn(c, s, ActiveModel(s).value, kind, now);
      && Servable(t)
      && Budget(t.chain) + 1 == Budget(s.chain)
      && ServingOrder(s.chain) == [ActiveModel(s).value] + ServingOrder(t.chain)
  {
    var k := FirstUsable(s.chain).value;
    assert s.chain[k] in s.chain;
    MarkReaches(s.chain, k);
    AttemptDropsBudget(s.chain);
    var t := FailedTurn(c, s, ActiveModel(s).value, kind, now);
    forall e | e in t.chain
      ensures e.maxFail <= USIZE_MAX
    {
      var i :| 0 <= i < |t.chain| && t.chain[i] == e;
      assert s.chain[i] in s.chain;
    }
  }

  /** The models that serve `turns` failing turns in a row; `None` once nothing is left to serve. */
  ghost function Serve(c: Config, s: Breaker, kinds: seq<FailureKind>, now: nat): seq<Option<string>>
    decreases |kinds|
  {
    if kinds == [] then []
    else
      var m := ActiveModel(s);
      var t := if m.Some? then FailedTurn(c, s, m.value, kinds[0], now) else Step(c, s, RecordFailure(kinds[0], now));
      [m] + Serve(c, t, kinds[1..], now)
  }

  /**
   With distinct names, a breaker in Fallback whose every turn fails serves the usable models
   in chain order, each exactly as often as its remaining budget, and then nothing, forever.
   */
  lemma {:induction false} ChainServedInOrder(c: Config, s: Breaker, kinds: seq<FailureKind>, now: nat, i: nat)
    requires Servable(s) && i < |kinds|
    ensures |Serve(c, s, kinds, now)| == |kinds|
    ensures Serve(c, s, kinds, now)[i] ==
      if i < |ServingOrder(s.chain)| then Some(ServingOrder(s.chain)[i]) else None
    decreases |kinds|
  {
    var m := ActiveModel(s);
    if m.Some? {
      var t := FailedTurn(c, s, m.value, kinds[0], now);
      FailedTurnAdvances(c, s, kinds[0], now);
      if |kinds| > 1 {
        ChainServedInOrder(c, t, kinds[1..], now, if i == 0 then 0 else i - 1);
      }
    } else {
      NothingToServe(s.chain);
      if |kinds| > 1 {
        ChainServedInOrder(c, s, kinds[1..], now, if i == 0 then 0 else i - 1);
      }
    }
  }

  /** So it is from every state a run of calls reaches, as long as the names of its chain are distinct. */
  lemma ReachedChainServedInOrder(c: Config, calls: seq<Call>, kinds: seq<FailureKind>, now: nat, i: nat)
    requires After(c, calls).phase == Fallback && DistinctNames(After(c, calls).chain) && i < |kinds|
    ensures var s := After(c, calls);
      |Serve(c, s, kinds, now)| == |kinds| && |ServingOrder(s.chain)| == Budget(s.chain)
      && Serve(c, s, kinds, now)[i] == if i < Budget(s.chain) then Some(ServingOrder(s.chain)[i]) else None
  {
    var s := After(c, calls);
    RunInvariant(c, calls);
    ServingOrderLength(s.chain);
    forall e | e in s.chain
      ensures e.maxFail <= USIZE_MAX
    {
      var j :| 0 <= j < |s.chain| && s.chain[j] == e;
    }
    ChainServedInOrder(c, s, kinds, now, i);
  }

  lemma {:induction false} NothingToServe(chain: seq<Entry>)
    requires FirstUsable(chain) == None
    ensures ServingOrder(chain) == [] && Budget(chain) == 0
  {
    if chain != [] {
      NothingToServe(chain[1..]);
    }
  }

  lemma {:induction false} ServingOrderLength(chain: seq<Entry>)
    ensures |ServingOrder(chain)| == Budget(chain)
  {
    if chain != [] {
      RepeatLength(chain[0].name, Remaining(chain[0]));
      ServingOrderLength(chain[1..]);
    }
  }

  lemma {:induction false} RepeatLength(name: string, n: nat)
    ensures |Repeat(name, n)| == n
  {
    if n > 0 {
      RepeatLength(name, n - 1);
    }
  }

  /**
   Distinctness is needed: marking reaches only the first entry under a name, so a failed turn
   moves the chain on if and only if the serving entry is the first under its name.
   */
  lemma MarkingReachesFirstNameOnly(c: Config, s: Breaker, kind: FailureKind, now: nat)
    requires s.phase == Fallback && s.active == FirstUsableName(s.chain) && FirstUsable(s.chain).Some?
    requires s.chain[FirstUsable(s.chain).value].maxFail <= USIZE_MAX
    ensures var k := FirstUsable(s.chain).value; var t := FailedTurn(c, s, s.active.value, kind, now);
      t.chain[k] != s.chain[k] <==> IndexOf(s.chain, s.active.value) == Some(k)
  {
  }

  // ---------------------------------------------------------------- the imperative manager

  ghost predicate Consistent(c: Config, s: Breaker, h: seq<Event>) {
    CountersOk(c, s) && ChainOk(s) && HistoryOk(s, h)
  }

  lemma StepKeepsConsistent(c: Config, s: Breaker, h: seq<Event>, call: Call)
    requires Consistent(c, s, h)
    ensures Consistent(c, Step(c, s, call), h + EventsOf(c, s, call))
  {
    StepKeepsCounters(c, s, call);
    StepKeepsChain(c, s, call);
    StepKeepsHistory(c, s, h, call);
  }

  lemma EndIsAnIndex(chain: seq<Entry>, e: Entry)
    ensures chain + [e] == chain[..|chain|] + [e] + chain[|chain|..]
  {
  }

  /** The manager's state under its one lock, with the history of what the breaker took note of. */
  class FallbackManager {
    const config: Config
    var phase: Phase
    var failures: nat
    var successes: nat
    var activated: bool
    var original: Option<string>
    var chain: seq<Entry>
    var active: Option<string>
    var switchedAt: Option<nat>
    ghost var history: seq<Event>

    ghost function View(): Breaker
      reads this
    {
      Breaker(phase, failures, successes, activated, original, chain, active, switchedAt)
    }

    ghost predicate Valid()
      reads this
    {
      Consistent(config, View(), history)
    }

    /** The object has made the step the call stands for, and its history the events of that step. */
    twostate predicate Made(call: Call)
      reads this
    {
      && View() == Step(config, old(View()), call)
      && history == old(history) + EventsOf(config, old(View()), call)
    }

    twostate lemma MadeKeepsValid(call: Call)
      requires old(Valid()) && Made(call)
      ensures Valid()
    {
      StepKeepsConsistent(config, old(View()), old(history), call);
    }

    constructor (config: Config)
      ensures this.config == config && View() == INITIAL && history == [] && Valid()
    {
      this.config := config;
      phase, failures, successes, activated := Primary, 0, 0, false;
      original, chain, active, switchedAt := None, [], None, None;
      history := [];
    }

    method Recompute()
      modifies this`active
      ensures active == FirstUsableName(chain)
    {
      var i := 0;
      while i < |chain| && Failed(chain[i])
        invariant 0 <= i <= |chain|
        invariant forall j :: 0 <= j < i ==> Failed(chain[j])
      {
        i := i + 1;
      }
      active := if i < |chain| then Some(chain[i].name) else None;
    }

    /** Every change of the chain is followed by a recomputation of the cached name. */
    method Install(entries: seq<Entry>)
      modifies this`chain, this`active
      ensures View() == WithChain(old(View()), entries)
    {
      chain := entries;
      Recompute();
    }

    method Find(name: string) returns (r: Option<nat>)
      ensures r == IndexOf(chain, name)
    {
      var i := 0;
      while i < |chain| && chain[i].name != name
        invariant 0 <= i <= |chain|
        invariant forall j :: 0 <= j < i ==> chain[j].name != name
      {
        i := i + 1;
      }
      r := if i < |chain| then Some(i) else None;
    }

    method ClearAttempts()
      modifies this`chain
      ensures chain == ClearAllAttempts(old(chain))
    {
      ghost var before := chain;
      for i := 0 to |chain|
        invariant |chain| == |before|
        invariant forall j :: 0 <= j < |chain| ==> chain[j] == if j < i then Cleared(before[j]) else before[j]
      {
        chain := chain[i := Cleared(chain[i])];
      }
    }

    method TripImpl(now: nat)
      modifies this
      ensures View() == EnterFallback(old(View()), now) && history == old(history)
      ensures phase == Fallback && activated && switchedAt == Some(now) && failures == 0 && successes == 0
    {
      phase, activated, switchedAt := Fallback, true, Some(now);
      successes, failures := 0, 0;
    }

    method CloseImpl()
      modifies this
      ensures View() == EnterPrimary(old(View())) && history == old(history)
      ensures phase == Primary && !activated && switchedAt == None && failures == 0 && successes == 0
      ensures |chain| == |old(chain)| && forall i :: 0 <= i < |chain| ==> chain[i] == old(chain)[i].(attempts := 0)
    {
      phase, switchedAt := Primary, None;
      successes, failures, activated := 0, 0, false;
      ClearAttempts();
      Recompute();
    }

    method RecordFailure(kind: FailureKind, now: nat) returns (tripped: bool)
      requires Valid()
      modifies this
      ensures Made(Call.RecordFailure(kind, now)) && Valid()
      ensures tripped <==> Tripped(config, old(View()), kind)
      ensures old(phase) == Fallback ==> View() == old(View())
      ensures old(phase) != Fallback ==>
        var enough := old(failures) + 1 >= config.tripThreshold;
        var refused := old(phase) == Recovering && kind == RateLimit;
        && (tripped <==> enough && !refused)
        && phase == (if enough || refused then Fallback else old(phase))
        && failures == (if enough || refused then 0 else old(failures) + 1)
        && successes == 0 && activated == (enough || refused || old(activated))
        && switchedAt == if enough || refused then Some(now) else old(switchedAt)
      ensures chain == old(chain) && active == old(active) && original == old(original)
    {
      history := history + EventsOf(config, View(), Call.RecordFailure(kind, now));
      tripped := false;
      match phase {
        case Primary =>
          failures := SatAdd(USIZE_MAX, failures, 1);
          if failures >= config.tripThreshold {
            TripImpl(now);
            tripped := true;
          }
        case Fallback =>
        case Recovering =>
          match kind {
            case RateLimit =>
              TripImpl(now);
            case Transient =>
              successes := 0;
              failures := SatAdd(USIZE_MAX, failures, 1);
              if failures >= config.tripThreshold {
                TripImpl(now);
                tripped := true;
              }
          }
      }
      MadeKeepsValid(Call.RecordFailure(kind, now));
    }

    method RecordSuccess()
      requires Valid()
      modifies this
      ensures Made(Call.RecordSuccess) && Valid()
      ensures old(phase) == Fallback ==> View() == old(View())
      ensures old(phase) != Fallback ==>
        var closes := old(phase) == Recovering && old(successes) + 1 >= config.recoverySuccesses;
        && failures == 0 && phase == (if closes then Primary else old(phase))
        && successes == (if old(phase) == Primary || closes then 0 else old(successes) + 1)
        && activated == (!closes && old(activated)) && switchedAt == (if closes then None else old(switchedAt))
        && |chain| == |old(chain)|
        && forall i :: 0 <= i < |chain| ==>
          chain[i] == if closes then old(chain)[i].(attempts := 0) else old(chain)[i]
    {
      history := history + EventsOf(config, View(), Call.RecordSuccess);
      match phase {
        case Primary =>
          failures := 0;
        case Fallback =>
        case Recovering =>
          failures := 0;
          successes := SatAdd(USIZE_MAX, successes, 1);
          if successes >= config.recoverySuccesses {
            CloseImpl();
          }
      }
      MadeKeepsValid(Call.RecordSuccess);
    }

    method ResetFailureCounter()
      requires Valid()
      modifies this
      ensures Made(Call.ResetFailureCounter) && Valid()
      ensures View() == old(View()).(failures := 0)
    {
      history := history + EventsOf(config, View(), Call.ResetFailureCounter);
      failures := 0;
      MadeKeepsValid(Call.ResetFailureCounter);
    }

    method TransitionToFallback(now: nat)
      requires Valid()
      modifies this
      ensures Made(ToFallback(now)) && Valid()
      ensures phase == Fallback && activated && switchedAt == Some(now) && failures == 0 && successes == 0
      ensures chain == old(chain) && active == old(active) && original == old(original)
    {
      history := history + EventsOf(config, View(), ToFallback(now));
      TripImpl(now);
      MadeKeepsValid(ToFallback(now));
    }

    method TransitionToRecovering()
      requires Valid()
      modifies this
      ensures Made(ToRecovering) && Valid()
      ensures View() == old(View()).(phase := Recovering, successes := 0)
    {
      history := history + EventsOf(config, View(), ToRecovering);
      phase, successes := Recovering, 0;
      MadeKeepsValid(ToRecovering);
    }

    /** Both the transition to Primary and the hard reset. */
    method TransitionToPrimary()
      requires Valid()
      modifies this
      ensures Made(ToPrimary) && Valid()
      ensures phase == Primary && !activated && switchedAt == None && failures == 0 && successes == 0
      ensures |chain| == |old(chain)| && forall i :: 0 <= i < |chain| ==> chain[i] == old(chain)[i].(attempts := 0)
      ensures original == old(original)
    {
      history := history + EventsOf(config, View(), ToPrimary);
      CloseImpl();
      MadeKeepsValid(ToPrimary);
    }

    method ShouldTryResumePrimary(now: nat, minimum: nat) returns (r: bool)
      requires Valid()
      ensures phase == Fallback ==> switchedAt.Some?
      ensures r <==> ResumeDue(View(), now, minimum)
      ensures r <==> phase == Fallback && (minimum == 0 || switchedAt.value + minimum <= now)
    {
      r := phase == Fallback && switchedAt.Some? && SatSub(now, switchedAt.value) >= minimum;
    }

    method GetActiveModel() returns (r: Option<string>)
      ensures r == ActiveModel(View()) == if phase == Fallback then active else original
    {
      match phase {
        case Primary => r := original;
        case Recovering => r := original;
        case Fallback => r := active;
      }
    }

    method SetOriginalModel(name: string) returns (ok: bool)
      requires Valid()
      modifies this
      ensures Made(SetOriginal(name)) && Valid()
      ensures ok <==> Trim(name) != ""
      ensures View() == if ok then old(View()).(original := Some(Trim(name))) else old(View())
    {
      history := history + EventsOf(config, View(), SetOriginal(name));
      var valid := Validated(name);
      if valid.None? {
        MadeKeepsValid(SetOriginal(name));
        return false;
      }
      original := valid;
      MadeKeepsValid(SetOriginal(name));
      return true;
    }

    method SetFallbackModel(name: string) returns (ok: bool)
      requires Valid()
      modifies this
      ensures Made(SetFallback(name)) && Valid()
      ensures ok <==> Trim(name) != ""
      ensures chain == if ok then [Entry(Trim(name), true, 0, Max(config.maxFail, 1))] else old(chain)
    {
      history := history + EventsOf(config, View(), SetFallback(name));
      var valid := Validated(name);
      if valid.None? {
        MadeKeepsValid(SetFallback(name));
        return false;
      }
      Install([WithMaxFail(NewEntry(valid.value), config.maxFail)]);
      MadeKeepsValid(SetFallback(name));
      return true;
    }

    method AddFallbackModel(name: string) returns (ok: bool)
      requires Valid()
      modifies this
      ensures Made(AddFallback(name)) && Valid()
      ensures ok <==> Trim(name) != ""
      ensures chain == old(chain) + if ok then [Entry(Trim(name), true, 0, Max(config.maxFail, 1))] else []
    {
      history := history + EventsOf(config, View(), AddFallback(name));
      var valid := Validated(name);
      if valid.None? {
        MadeKeepsValid(AddFallback(name));
        return false;
      }
      Install(chain + [WithMaxFail(NewEntry(valid.value), config.maxFail)]);
      MadeKeepsValid(AddFallback(name));
      return true;
    }

    method InsertFallbackModel(index: nat, name: string) returns (ok: bool)
      requires Valid()
      modifies this
      ensures Made(InsertFallback(index, name)) && Valid()
      ensures ok <==> Trim(name) != ""
      ensures ok && index < |old(chain)| ==>
        chain == old(chain)[..index] + [Entry(Trim(name), true, 0, Max(config.maxFail, 1))] + old(chain)[index..]
      ensures ok && index >= |old(chain)| ==> chain == old(chain) + [Entry(Trim(name), true, 0, Max(config.maxFail, 1))]
      ensures !ok ==> View() == old(View())
    {
      history := history + EventsOf(config, View(), InsertFallback(index, name));
      var valid := Validated(name);
      if valid.None? {
        MadeKeepsValid(InsertFallback(index, name));
        return false;
      }
      var entry := WithMaxFail(NewEntry(valid.value), config.maxFail);
      EndIsAnIndex(chain, entry);
      var grown := if index >= |chain| then chain + [entry] else chain[..index] + [entry] + chain[index..];
      Install(grown);
      MadeKeepsValid(InsertFallback(index, name));
      return true;
    }

    method RemoveFallbackModel(name: string) returns (removed: bool)
      requires Valid()
      modifies this
      ensures Made(RemoveFallback(name)) && Valid()
      ensures !removed ==> View() == old(View()) && forall i :: 0 <= i < |old(chain)| ==> old(chain)[i].name != name
      ensures removed ==>
        exists k :: 0 <= k < |old(chain)| && old(chain)[k].name == name
                    && (forall i :: 0 <= i < k ==> old(chain)[i].name != name)
                    && chain == old(chain)[..k] + old(chain)[k + 1..]
    {
      history := history + EventsOf(config, View(), RemoveFallback(name));
      var at := Find(name);
      if at.None? {
        MadeKeepsValid(RemoveFallback(name));
        return false;
      }
      Install(chain[..at.value] + chain[at.value + 1..]);
      MadeKeepsValid(RemoveFallback(name));
      return true;
    }

    method FreshEntries(names: seq<string>) returns (r: Option<seq<Entry>>)
      ensures r == FreshChain(config, names)
      ensures r.Some? <==> forall i :: 0 <= i < |names| ==> Trim(names[i]) != ""
      ensures r.Some? ==>
        && |r.value| == |names|
        && forall i :: 0 <= i < |names| ==> r.value[i] == Entry(Trim(names[i]), true, 0, Max(config.maxFail, 1))
    {
      var entries: seq<Entry> := [];
      for i := 0 to |names|
        invariant |entries| == i
        invariant forall j :: 0 <= j < i ==>
          Validated(names[j]).Some? && entries[j] == FreshEntry(config, Validated(names[j]).value)
      {
        var valid := Validated(names[i]);
        if valid.None? {
          FreshChainFails(config, names, i);
          return None;
        }
        entries := entries + [WithMaxFail(NewEntry(valid.value), config.maxFail)];
      }
      FreshChainSucceeds(config, names);
      FreshChainIsGood(config, names);
      assert entries == FreshChain(config, names).value;
      return Some(entries);
    }

    /** All names are validated before any of them is installed. */
    method SetFallbackModels(names: seq<string>) returns (ok: bool)
      requires Valid()
      modifies this
      ensures Made(Call.SetChain(names)) && Valid()
      ensures ok <==> forall i :: 0 <= i < |names| ==> Trim(names[i]) != ""
      ensures !ok ==> View() == old(View())
      ensures ok ==>
        && |chain| == |names|
        && forall i :: 0 <= i < |names| ==> chain[i] == Entry(Trim(names[i]), true, 0, Max(config.maxFail, 1))
    {
      history := history + EventsOf(config, View(), Call.SetChain(names));
      var entries := FreshEntries(names);
      if entries.None? {
        MadeKeepsValid(Call.SetChain(names));
        return false;
      }
      Install(entries.value);
      MadeKeepsValid(Call.SetChain(names));
      return true;
    }

    method MarkFallbackFailed(name: string) returns (found: bool)
      requires Valid()
      modifies this
      ensures Made(MarkFailed(name)) && Valid()
      ensures !found ==> View() == old(View()) && forall i :: 0 <= i < |old(chain)| ==> old(chain)[i].name != name
      ensures found ==>
        exists k :: 0 <= k < |old(chain)| && old(chain)[k].name == name
                    && (forall i :: 0 <= i < k ==> old(chain)[i].name != name)
                    && chain == old(chain)[k := old(chain)[k].(attempts := Min(old(chain)[k].attempts + 1, USIZE_MAX))]
    {
      history := history + EventsOf(config, View(), MarkFailed(name));
      var at := Find(name);
      found := at.Some?;
      if found {
        Install(chain[at.value := Attempted(chain[at.value])]);
      }
      MadeKeepsValid(MarkFailed(name));
    }

    method ClearFallbackFailed(name: string) returns (found: bool)
      requires Valid()
      modifies this
      ensures Made(ClearFailed(name)) && Valid()
      ensures !found ==> View() == old(View()) && forall i :: 0 <= i < |old(chain)| ==> old(chain)[i].name != name
      ensures found ==>
        exists k :: 0 <= k < |old(chain)| && old(chain)[k].name == name
                    && (forall i :: 0 <= i < k ==> old(chain)[i].name != name)
                    && chain == old(chain)[k := old(chain)[k].(attempts := 0)]
    {
      history := history + EventsOf(config, View(), ClearFailed(name));
      var at := Find(name);
      found := at.Some?;
      if found {
        Install(chain[at.value := Cleared(chain[at.value])]);
      }
      MadeKeepsValid(ClearFailed(name));
    }

    method SetFallbackAvailable(name: string, available: bool) returns (found: bool)
      requires Valid()
      modifies this
      ensures Made(SetAvailable(name, available)) && Valid()
      ensures !found ==> View() == old(View()) && forall i :: 0 <= i < |old(chain)| ==> old(chain)[i].name != name
      ensures found ==>
        exists k :: 0 <= k < |old(chain)| && old(chain)[k].name == name
                    && (forall i :: 0 <= i < k ==> old(chain)[i].name != name)
                    && chain == old(chain)[k := old(chain)[k].(available := available)]
    {
      history := history + EventsOf(config, View(), SetAvailable(name, available));
      var at := Find(name);
      found := at.Some?;
      if found {
        var entry := chain[at.value].(available := available);
        assert chain[at.value := entry] == Updated(chain, name, (e: Entry) => e.(available := available));
        Install(chain[at.value := entry]);
      }
      MadeKeepsValid(SetAvailable(name, available));
    }

    method ClearAllFallbackFailed()
      requires Valid()
      modifies this
      ensures Made(ClearAll) && Valid()
      ensures |chain| == |old(chain)| && forall i :: 0 <= i < |chain| ==> chain[i] == old(chain)[i].(attempts := 0)
    {
      history := history + EventsOf(config, View(), ClearAll);
      ClearAttempts();
      Recompute();
      MadeKeepsValid(ClearAll);
    }
  }

  lemma {:induction false} FreshChainFails(c: Config, names: seq<string>, i: nat)
    requires i < |names| && Validated(names[i]).None?
    ensures FreshChain(c, names).None?
  {
    if i > 0 {
      FreshChainFails(c, names[1..], i - 1);
    }
  }

  lemma {:induction false} FreshChainSucceeds(c: Config, names: seq<string>)
    requires forall i :: 0 <= i < |names| ==> Validated(names[i]).Some?
    ensures FreshChain(c, names).Some?
  {
    if names != [] {
      assert Validated(names[0]).Some?;
      forall i | 0 <= i < |names[1..]|
        ensures Validated(names[1..][i]).Some?
      {
        assert names[1..][i] == names[i + 1];
      }
      FreshChainSucceeds(c, names[1..]);
    }
  }
}

/**
 The context manager's compaction contract (src/compact.rs): what every pass promises whatever
 the compactor returned, which enters each operation as an arbitrary outcome.
 */
module Compaction {
  import opened Common
  import opened Messages
  import opened Pins
  import opened Arithmetic
  import Tokens

  datatype Reason = Prune | ThresholdExceeded | Emergency | Manual

  datatype Base = Context | Threshold

  datatype Settings = Settings(window: nat, threshold: nat, autoCompact: bool, base: Base, targetPct: nat)

  /** The builders clamp both percentages to 1..100. */
  predicate ValidSettings(s: Settings) {
    s.window <= U64_MAX && 1 <= s.threshold <= 100 && 1 <= s.targetPct <= 100
  }

  /** The override reaches only the compactor, whose answer is arbitrary here. */
  datatype Sizing = Sizing(reserved: nat, targetOverride: Option<nat>)

  datatype Outcome = Outcome(
    messages: seq<Message>,
    tokensAfter: nat,
    tokensSaved: nat,
    success: bool,
    error: Option<string>,
    evicted: seq<Message>)

  datatype Ensured = Compacted(outcome: Outcome) | NoAction(messages: seq<Message>)

  datatype Overflow = Overflow(
    tokensUsed: nat,
    window: nat,
    messageCount: nat,
    trigger: Reason,
    compactorError: Option<string>)

  function MessagesOf(e: Ensured): seq<Message> {
    match e
    case Compacted(outcome) => outcome.messages
    case NoAction(messages) => messages
  }

  // ---------------------------------------------------------------- the lines

  function ThresholdTokens(s: Settings): nat {
    SatMul(U64_MAX, s.window, s.threshold) / 100
  }

  function TargetTokens(s: Settings): nat {
    SatMul(U64_MAX, if s.base == Threshold then ThresholdTokens(s) else s.window, s.targetPct) / 100
  }

  function EmergencyLine(s: Settings): nat {
    SatMul(U64_MAX, s.window, 19) / 20
  }

  predicate IsEmergency(s: Settings, used: nat) {
    used >= EmergencyLine(s)
  }

  predicate ShouldCompact(s: Settings, used: nat) {
    s.autoCompact && (used >= ThresholdTokens(s) || IsEmergency(s, used))
  }

  function CompactReason(s: Settings, used: nat): Reason {
    if IsEmergency(s, used) then Emergency else ThresholdExceeded
  }

  lemma PercentShrinks(n: nat, pct: nat, whole: nat)
    requires pct <= whole && whole > 0
    ensures SatMul(U64_MAX, n, pct) / whole <= n
  {
    MulMono(pct, whole, n);
    DivMono(SatMul(U64_MAX, n, pct), n * whole, whole);
    QuotientIs(n * whole, whole, n, 0);
  }

  /**
   Saturation never lifts a line: the target lies at or under its base, every line at or under the
   window, and a history that calls for no compaction is below the emergency line.
   */
  lemma LinesAreOrdered(s: Settings, used: nat)
    requires ValidSettings(s)
    ensures TargetTokens(s) <= (if s.base == Threshold then ThresholdTokens(s) else s.window) <= s.window
    ensures EmergencyLine(s) <= s.window
    ensures s.autoCompact && !ShouldCompact(s, used) ==> used < s.window && CompactReason(s, used) == ThresholdExceeded
  {
    PercentShrinks(s.window, s.threshold, 100);
    PercentShrinks(s.window, 19, 20);
    PercentShrinks(if s.base == Threshold then ThresholdTokens(s) else s.window, s.targetPct, 100);
  }

  lemma AtLeastTheFloor(used: nat, n: nat, whole: nat)
    requires whole > 0
    ensures used >= n / whole <==> n < whole * (used + 1)
  {
    DivMod(n, whole);
    if used >= n / whole {
      MulMono(n / whole, used, whole);
    } else {
      MulMono(used + 1, n / whole, whole);
    }
  }

  /**
   When a count calls for compaction, on the settings as they are: automatic compaction is on, and the
   count has come to the threshold's percentage of the window or to nineteen twentieths of it, each
   rounded down; the second makes it an emergency. The products are u64 products.
   */
  lemma CompactsExactlyAtTheLines(s: Settings, used: nat)
    ensures ShouldCompact(s, used) <==>
      s.autoCompact
      && (Min(s.window * s.threshold, U64_MAX) < 100 * (used + 1) || Min(s.window * 19, U64_MAX) < 20 * (used + 1))
    ensures CompactReason(s, used) == if Min(s.window * 19, U64_MAX) < 20 * (used + 1) then Emergency
                                      else ThresholdExceeded
  {
    AtLeastTheFloor(used, Min(s.window * s.threshold, U64_MAX), 100);
    AtLeastTheFloor(used, Min(s.window * 19, U64_MAX), 20);
  }

  /** What the pins may count: the target's percentage of the window, or of the threshold, rounded down. */
  lemma TargetIsAShare(s: Settings, total: nat)
    requires ValidSettings(s) && s.window * 100 <= U64_MAX
    ensures s.base == Context ==> (total <= TargetTokens(s) <==> 100 * total <= s.window * s.targetPct)
    ensures s.base == Threshold ==>
      (total <= TargetTokens(s) <==> 100 * total <= s.window * s.threshold / 100 * s.targetPct)
  {
    MulMono(s.threshold, 100, s.window);
    PercentShrinks(s.window, s.threshold, 100);
    var base := if s.base == Threshold then ThresholdTokens(s) else s.window;
    MulMono(base, s.window, s.targetPct);
    MulMono(s.targetPct, 100, s.window);
    WithinTheFloor(total, base * s.targetPct, 100);
  }

  lemma WithinTheFloor(total: nat, n: nat, whole: nat)
    requires whole > 0
    ensures total <= n / whole <==> whole * total <= n
  {
    DivMod(n, whole);
    if total <= n / whole {
      MulMono(total, n / whole, whole);
    } else {
      MulMono(n / whole + 1, total, whole);
    }
  }

  // ---------------------------------------------------------------- a pass with a given reason

  predicate Progress(counter: Counter, before: seq<Message>, after: seq<Message>) {
    |after| != |before| || counter(after) < counter(before)
  }

  function Settled(counter: Counter, before: seq<Message>, outcome: Outcome): Ensured {
    if Progress(counter, before, outcome.messages)
    then Compacted(outcome.(tokensAfter := counter(outcome.messages),
                            tokensSaved := SatSub(counter(before), counter(outcome.messages))))
    else NoAction(outcome.messages)
  }

  /** What a pass answers for a history, the pins, and whatever the compactor returned. */
  function Pass(s: Settings, counter: Counter, pins: seq<Message>, messages: seq<Message>, reason: Reason,
                sizing: Sizing, outcome: Outcome)
    : Result<Ensured, Overflow>
  {
    if messages == [] then Ok(NoAction(messages))
    else if !outcome.success then
      Err(Overflow(SatAdd(U64_MAX, counter(messages), sizing.reserved), s.window, |messages|, reason, outcome.error))
    else
      var after := outcome.(messages := Backstop(outcome.messages, pins));
      var tokens := counter(after.messages);
      if tokens > SatSub(s.window, sizing.reserved)
      then Err(Overflow(SatAdd(U64_MAX, tokens, sizing.reserved), s.window, |messages|, reason, None))
      else Ok(Settled(counter, messages, after))
  }

  /**
   Every pass over a nonempty history that succeeds carries every pin, with its role and exactly
   its text, and measures at most the window less the reserve.
   */
  lemma PassKeepsTheContract(s: Settings, counter: Counter, pins: seq<Message>, messages: seq<Message>, reason: Reason,
                             sizing: Sizing, outcome: Outcome, pin: Message)
    requires messages != []
    requires Pass(s, counter, pins, messages, reason, sizing, outcome).Ok?
    ensures var out := MessagesOf(Pass(s, counter, pins, messages, reason, sizing, outcome).value);
      && (pin in pins ==> Carried(out, pin))
      && counter(out) <= SatSub(s.window, sizing.reserved)
      && (counter(out) + sizing.reserved <= s.window <==> sizing.reserved <= s.window)
  {
    if pin in pins {
      BackstopCarriesAll(outcome.messages, pins, pin);
    }
  }

  /**
   The pins reach the output whatever the compactor did, if and only if there is a history to pass:
   an empty one is handed back without any.
   */
  lemma PinsAlwaysCarriedIff(s: Settings, counter: Counter, pins: seq<Message>, messages: seq<Message>, reason: Reason,
                             sizing: Sizing)
    ensures AlwaysCarries(s, counter, pins, messages, reason, sizing) <==> messages != [] || pins == []
  {
    if messages != [] {
      forall outcome, pin | pin in pins && Pass(s, counter, pins, messages, reason, sizing, outcome).Ok?
        ensures Carried(MessagesOf(Pass(s, counter, pins, messages, reason, sizing, outcome).value), pin)
      {
        PassKeepsTheContract(s, counter, pins, messages, reason, sizing, outcome, pin);
      }
    } else if pins != [] {
      var outcome := Outcome([], 0, 0, true, None, []);
      assert pins[0] in pins && Pass(s, counter, pins, messages, reason, sizing, outcome) == Ok(NoAction([]));
      assert !Carried([], pins[0]);
    }
  }

  ghost predicate AlwaysCarries(s: Settings, counter: Counter, pins: seq<Message>, messages: seq<Message>,
                                reason: Reason, sizing: Sizing)
  {
    forall outcome, pin :: pin in pins && Pass(s, counter, pins, messages, reason, sizing, outcome).Ok? ==>
      Carried(MessagesOf(Pass(s, counter, pins, messages, reason, sizing, outcome).value), pin)
  }

  /**
   "No action" does not mean the history came back as it was: a compactor that rewrites a message
   into another of the same length gets its rewrite handed back under that name.
   */
  lemma NoActionCanRewrite(s: Settings, reason: Reason, from: string, to: string)
    requires |from| == |to| && from != to && Tokens.HeuristicCount([UserMessage(from)]) <= s.window
    ensures var outcome := Outcome([UserMessage(to)], 0, 0, true, None, []);
      Pass(s, Heuristic(), [], [UserMessage(from)], reason, Sizing(0, None), outcome)
        == Ok(NoAction([UserMessage(to)]))
  {
    Tokens.TotalOfOne(UserMessage(from));
    Tokens.TotalOfOne(UserMessage(to));
    Tokens.CharsOfText(from);
    Tokens.CharsOfText(to);
    Tokens.FramedIs([UserMessage(from)]);
    Tokens.FramedIs([UserMessage(to)]);
    UnchangedIffCarried([UserMessage(to)], []);
  }

  // ---------------------------------------------------------------- the self-driven entry point

  /** What `ensure_context_fits` answers; the pass only runs when the measure calls for it. */
  function EnsureFits(s: Settings, counter: Counter, pins: seq<Message>, messages: seq<Message>, outcome: Outcome)
    : Result<Ensured, Overflow>
  {
    var before := counter(messages);
    if !ShouldCompact(s, before) then Ok(NoAction(messages))
    else if !outcome.success then Err(Overflow(before, s.window, |messages|, CompactReason(s, before), outcome.error))
    else
      var after := outcome.(messages := Backstop(outcome.messages, pins));
      var tokens := counter(after.messages);
      if tokens > s.window
      then Err(Overflow(tokens, s.window, |after.messages|, Emergency,
                        Some("compactor failed to reduce context below window")))
      else Ok(Settled(counter, messages, after))
  }

  /**
   A history that is let through fits the window, except exactly when automatic compaction is off
   and it did not fit to begin with.
   */
  lemma LetThroughFitsIff(s: Settings, counter: Counter, pins: seq<Message>, messages: seq<Message>, outcome: Outcome)
    requires ValidSettings(s) && EnsureFits(s, counter, pins, messages, outcome).Ok?
    ensures counter(MessagesOf(EnsureFits(s, counter, pins, messages, outcome).value)) <= s.window <==>
      s.autoCompact || counter(messages) <= s.window
  {
    LinesAreOrdered(s, counter(messages));
  }

  /** Below the line the history is untouched; at or over it, whatever is let through carries every pin. */
  lemma LetThroughCarriesPins(s: Settings, counter: Counter, pins: seq<Message>, messages: seq<Message>,
                              outcome: Outcome, pin: Message)
    requires EnsureFits(s, counter, pins, messages, outcome).Ok?
    ensures var out := MessagesOf(EnsureFits(s, counter, pins, messages, outcome).value);
      if ShouldCompact(s, counter(messages)) then pin in pins ==> Carried(out, pin) else out == messages
  {
    if pin in pins {
      BackstopCarriesAll(outcome.messages, pins, pin);
    }
  }

  /**
   The answers of a pass. It refuses exactly when the compactor failed or the pinned result and the
   reserve do not fit, and then reports the request it refused, one for size with more tokens than
   the window (or as many, at the top of u64). It reports compaction exactly when the count changed
   or the measure shrank, with the manager's own two token figures. Reserving nothing it lets
   through what the self-driven entry point does, with the same answer.
   */
  lemma PassAnswers(s: Settings, counter: Counter, pins: seq<Message>, messages: seq<Message>, reason: Reason,
                    sizing: Sizing, outcome: Outcome)
    requires ValidSettings(s) && messages != []
    ensures var r := Pass(s, counter, pins, messages, reason, sizing, outcome);
      r.Err? <==>
        !outcome.success || counter(Backstop(outcome.messages, pins)) + sizing.reserved > Max(s.window, sizing.reserved)
    ensures var r := Pass(s, counter, pins, messages, reason, sizing, outcome);
      r.Err? ==>
        && r.error.window == s.window && r.error.messageCount == |messages| && r.error.trigger == reason
        && (if outcome.success
            then r.error.compactorError == None
              && (r.error.tokensUsed > s.window || r.error.tokensUsed == s.window == U64_MAX)
            else r.error.compactorError == outcome.error && r.error.tokensUsed >= Min(counter(messages), U64_MAX))
    ensures var r := Pass(s, counter, pins, messages, reason, sizing, outcome);
      r.Ok? ==> var out := MessagesOf(r.value);
        r.value.Compacted? <==> |out| != |messages| || counter(out) < counter(messages)
    ensures var r := Pass(s, counter, pins, messages, reason, sizing, outcome);
      r.Ok? && r.value.Compacted? ==> var o := r.value.outcome;
        && o.tokensAfter == counter(o.messages)
        && o.tokensSaved == Max(counter(messages) - o.tokensAfter, 0)
    ensures var forced := Pass(s, counter, pins, messages, reason, Sizing(0, None), outcome);
      var driven := EnsureFits(s, counter, pins, messages, outcome);
      ShouldCompact(s, counter(messages)) ==> (forced.Ok? <==> driven.Ok?) && (forced.Ok? ==> forced == driven)
  {
  }

  /**
   The whole answer of a pass, from what the compactor returned with the missing pins put in their
   places: refused with the figures of what failed, handed back, or handed over with both measures.
   */
  lemma PassIs(s: Settings, counter: Counter, pins: seq<Message>, messages: seq<Message>, reason: Reason,
               sizing: Sizing, outcome: Outcome)
    returns (pinned: seq<Message>, picked: seq<Message>, at: seq<nat>)
    ensures PlacedAt(outcome.messages, pins, pinned, picked, at)
    ensures Pass(s, counter, pins, messages, reason, sizing, outcome) ==
      if messages == [] then Ok(NoAction([]))
      else if !outcome.success then
        Err(Overflow(Min(counter(messages) + sizing.reserved, U64_MAX), s.window, |messages|, reason, outcome.error))
      else if counter(pinned) > Max(s.window - sizing.reserved, 0) then
        Err(Overflow(Min(counter(pinned) + sizing.reserved, U64_MAX), s.window, |messages|, reason, None))
      else if |pinned| == |messages| && counter(pinned) >= counter(messages) then Ok(NoAction(pinned))
      else Ok(Compacted(Outcome(pinned, counter(pinned), Max(counter(messages) - counter(pinned), 0), true,
                                outcome.error, outcome.evicted)))
  {
    pinned := Backstop(outcome.messages, pins);
    picked, at := BackstopPlaces(outcome.messages, pins);
  }

  /** And of the self-driven entry point. */
  lemma EnsureFitsIs(s: Settings, counter: Counter, pins: seq<Message>, messages: seq<Message>, outcome: Outcome)
    returns (pinned: seq<Message>, picked: seq<Message>, at: seq<nat>)
    ensures PlacedAt(outcome.messages, pins, pinned, picked, at)
    ensures var used := counter(messages);
      var emergency := Min(s.window * 19, U64_MAX) < 20 * (used + 1);
      var called := s.autoCompact && (emergency || Min(s.window * s.threshold, U64_MAX) < 100 * (used + 1));
      EnsureFits(s, counter, pins, messages, outcome) ==
        if !called then Ok(NoAction(messages))
        else if !outcome.success then
          Err(Overflow(used, s.window, |messages|, if emergency then Emergency else ThresholdExceeded, outcome.error))
        else if counter(pinned) > s.window then
          Err(Overflow(counter(pinned), s.window, |pinned|, Emergency,
                       Some("compactor failed to reduce context below window")))
        else if |pinned| == |messages| && counter(pinned) >= used then Ok(NoAction(pinned))
        else Ok(Compacted(Outcome(pinned, counter(pinned), Max(used - counter(pinned), 0), true,
                                  outcome.error, outcome.evicted)))
  {
    CompactsExactlyAtTheLines(s, counter(messages));
    pinned := Backstop(outcome.messages, pins);
    picked, at := BackstopPlaces(outcome.messages, pins);
  }

  // ---------------------------------------------------------------- adopting the result

  lemma {:induction false} OthersHold(messages: seq<Message>, m: Message)
    ensures m in Others(messages) <==> m in messages && m.role != Assistant
    decreases |messages|
  {
    if messages != [] {
      OthersHold(messages[..|messages| - 1], m);
      assert messages == messages[..|messages| - 1] + [messages[|messages| - 1]];
    }
  }

  /** Coalescing never raises what the counter measures. */
  ghost predicate NeverRaised(counter: Counter) {
    forall messages :: counter(Coalesce(messages)) <= counter(messages)
  }

  /** The default counter is such a one, and so is every ratio whose overhead outweighs a separator. */
  lemma CountersNeverRaised(c: Tokens.RatioTokenCounter)
    requires c.Valid()
    ensures NeverRaised(Heuristic())
    ensures 2 * c.charsDen <= c.perMessage * c.ratioNum ==> NeverRaised(Ratio(c))
  {
    forall messages
      ensures Heuristic()(Coalesce(messages)) <= Heuristic()(messages)
      ensures 2 * c.charsDen <= c.perMessage * c.ratioNum ==> Ratio(c)(Coalesce(messages)) <= Ratio(c)(messages)
    {
      Tokens.CoalesceNeverCountsMore(c, messages);
    }
  }

  /**
   The machine coalesces the history it adopts after the manager measured it. Under every counter
   each pin stated by a user is still carried; under one that coalescing never raises the result
   still fits.
   */
  lemma AdoptedHistoryKeepsTheContract(s: Settings, counter: Counter, pins: seq<Message>, messages: seq<Message>,
                                       reason: Reason, sizing: Sizing, outcome: Outcome, pin: Message)
    requires messages != [] && pin.role != Assistant
    requires Pass(s, counter, pins, messages, reason, sizing, outcome).Ok?
    ensures var adopted := Coalesce(MessagesOf(Pass(s, counter, pins, messages, reason, sizing, outcome).value));
      && (pin in pins ==> Carried(adopted, pin))
      && Alternates(adopted)
      && (NeverRaised(counter) ==> counter(adopted) <= SatSub(s.window, sizing.reserved))
  {
    var out := MessagesOf(Pass(s, counter, pins, messages, reason, sizing, outcome).value);
    PassKeepsTheContract(s, counter, pins, messages, reason, sizing, outcome, pin);
    NoAdjacentAssistants(out);
    if Carried(out, pin) {
      CoalesceCarries(out, pin);
    }
  }

  /**
   From the first statement to the adopted history: after any run of statements and removals, under
   every counter, the message registered under an id is carried by every history a pass lets through
   and the machine adopts; under a fair counter the pins alone stay within the target.
   */
  lemma RegisteredPinsReachTheHistory(counter: Counter, calls: seq<Call>, id: string, s: Settings,
                                      messages: seq<Message>, reason: Reason, sizing: Sizing, outcome: Outcome)
    requires messages != []
    ensures var pins := After(calls, counter, TargetTokens(s));
      var r := Pass(s, counter, PinMessages(pins), messages, reason, sizing, outcome);
      && (Fair(counter) ==> Fits(pins, counter, TargetTokens(s)))
      && (r.Ok? && Lookup(pins, id).Some? ==> Carried(Coalesce(MessagesOf(r.value)), Lookup(pins, id).value))
  {
    var pins := After(calls, counter, TargetTokens(s));
    RegistryInvariant(calls, counter, TargetTokens(s));
    var k := FindPin(pins, id);
    if k < |pins| && Pass(s, counter, PinMessages(pins), messages, reason, sizing, outcome).Ok? {
      assert Proper(pins[k]);
      RegisteredMessage(pins, k);
      AdoptedHistoryKeepsTheContract(s, counter, PinMessages(pins), messages, reason, sizing, outcome, pins[k].message);
    }
  }

  lemma CoalesceCarries(messages: seq<Message>, pin: Message)
    requires pin.role != Assistant && Carried(messages, pin)
    ensures Carried(Coalesce(messages), pin)
  {
    var i :| 0 <= i < |messages| && Represents(messages[i], pin);
    var out := Coalesce(messages);
    OthersAreKept(messages);
    OthersHold(messages, messages[i]);
    OthersHold(out, messages[i]);
    var j :| 0 <= j < |out| && out[j] == messages[i];
    assert Represents(out[j], pin);
  }

  // ---------------------------------------------------------------- the manager

  class ContextManager {
    const settings: Settings
    const counter: Counter
    var pins: seq<Pin>

    ghost predicate Valid()
      reads this
    {
      DistinctIds(pins)
    }

    constructor (settings: Settings, counter: Counter)
      requires ValidSettings(settings)
      ensures this.settings == settings && this.counter == counter && pins == [] && Valid()
    {
      this.settings := settings;
      this.counter := counter;
      pins := [];
    }

    method SetPin(id: string, text: string) returns (r: Result<(), PinError>)
      requires Valid()
      modifies this`pins
      ensures Valid()
      ensures var spec := Pins.SetPin(old(pins), id, text, counter, TargetTokens(settings));
        match spec
        case Err(e) => r == Err(e) && pins == old(pins)
        case Ok(out) => r == Ok(()) && pins == out
    {
      if Trim(id) == "" {
        return Err(BlankId);
      }
      if Trim(text) == "" {
        return Err(BlankContent);
      }
      var message := UserMessage(text);
      var total := counter(Sized(pins, id, message));
      var target := TargetTokens(settings);
      if target != 0 && total > target {
        return Err(TooLarge(total, target));
      }
      LatestStatementStands(pins, Pin(id, message), id);
      var index := FindPin(pins, id);
      if index < |pins| {
        pins := pins[index := Pin(id, message)];
      } else {
        pins := pins + [Pin(id, message)];
      }
      return Ok(());
    }

    method RemovePin(id: string)
      requires Valid()
      modifies this`pins
      ensures pins == Without(old(pins), id) && Valid()
    {
      var kept: seq<Pin> := [];
      for i := 0 to |pins|
        invariant kept == Without(pins[..i], id)
      {
        assert pins[..i + 1][..i] == pins[..i];
        if pins[i].id != id {
          kept := kept + [pins[i]];
        }
      }
      assert pins[..|pins|] == pins;
      RemovedIsForgotten(pins, id, id);
      pins := kept;
    }

    /** The part of a forced pass that follows the compactor's answer. */
    method CompactWithReason(messages: seq<Message>, reason: Reason, sizing: Sizing, outcome: Outcome)
      returns (r: Result<Ensured, Overflow>)
      ensures r == Pass(settings, counter, PinMessages(pins), messages, reason, sizing, outcome)
    {
      var tokensBefore := counter(messages);
      if messages == [] {
        return Ok(NoAction(messages));
      }
      if !outcome.success {
        return Err(Overflow(SatAdd(U64_MAX, tokensBefore, sizing.reserved), settings.window, |messages|, reason,
                            outcome.error));
      }
      var pinned, _ := BackstopPins(outcome.messages, PinMessages(pins));
      var tokensAfter := counter(pinned);
      if tokensAfter > SatSub(settings.window, sizing.reserved) {
        return Err(Overflow(SatAdd(U64_MAX, tokensAfter, sizing.reserved), settings.window, |messages|, reason, None));
      }
      if |pinned| == |messages| && tokensAfter >= tokensBefore {
        return Ok(NoAction(pinned));
      }
      return Ok(Compacted(outcome.(
        messages := pinned, tokensAfter := tokensAfter, tokensSaved := SatSub(tokensBefore, tokensAfter))));
    }

    method EnsureContextFits(messages: seq<Message>, outcome: Outcome) returns (r: Result<Ensured, Overflow>)
      ensures r == EnsureFits(settings, counter, PinMessages(pins), messages, outcome)
    {
      var tokensBefore := counter(messages);
      if !ShouldCompact(settings, tokensBefore) {
        return Ok(NoAction(messages));
      }
      if !outcome.success {
        return Err(Overflow(tokensBefore, settings.window, |messages|, CompactReason(settings, tokensBefore),
                            outcome.error));
      }
      var pinned, _ := BackstopPins(outcome.messages, PinMessages(pins));
      var tokensAfter := counter(pinned);
      if tokensAfter > settings.window {
        return Err(Overflow(tokensAfter, settings.window, |pinned|, Emergency,
                            Some("compactor failed to reduce context below window")));
      }
      if |pinned| == |messages| && tokensAfter >= tokensBefore {
        return Ok(NoAction(pinned));
      }
      return Ok(Compacted(outcome.(
        messages := pinned, tokensAfter := tokensAfter, tokensSaved := SatSub(tokensBefore, tokensAfter))));
    }
  }
}

/**
 What "no action" hands back (src/compact.rs, src/compact/types.rs): when the history it returns is
 the history it was given, whatever the compactor did.
 */
module NoAction {
  import opened Common
  import opened Messages
  import opened Pins
  import opened Compaction
  import Tokens

  /** Every answer "no action" of a forced pass is the history itself. */
  ghost predicate PassHandsBack(s: Settings, counter: Counter, pins: seq<Message>, messages: seq<Message>,
                                reason: Reason, sizing: Sizing)
  {
    forall outcome, out ::
      Pass(s, counter, pins, messages, reason, sizing, outcome) == Ok(NoAction(out)) ==> out == messages
  }

  /** The same of the self-driven entry point. */
  ghost predicate EnsureHandsBack(s: Settings, counter: Counter, pins: seq<Message>, messages: seq<Message>) {
    forall outcome, out :: EnsureFits(s, counter, pins, messages, outcome) == Ok(NoAction(out)) ==> out == messages
  }

  ghost predicate CarriesAll(messages: seq<Message>, pins: seq<Message>) {
    forall pin :: pin in pins ==> Carried(messages, pin)
  }

  /** Another list a compactor can get through: as many messages, no smaller, with every pin, and it fits. */
  ghost predicate Rewrite(counter: Counter, pins: seq<Message>, messages: seq<Message>, limit: nat, out: seq<Message>) {
    && out != messages && |out| == |messages|
    && counter(messages) <= counter(out) <= limit
    && CarriesAll(out, pins)
  }

  ghost predicate Rewritable(counter: Counter, pins: seq<Message>, messages: seq<Message>, limit: nat) {
    exists out :: Rewrite(counter, pins, messages, limit, out)
  }

  function Returning(messages: seq<Message>): Outcome {
    Outcome(messages, 0, 0, true, None, [])
  }

  lemma PassHandsBackIff(s: Settings, counter: Counter, pins: seq<Message>, messages: seq<Message>, reason: Reason,
                         sizing: Sizing)
    requires messages != []
    ensures PassHandsBack(s, counter, pins, messages, reason, sizing) <==>
      !Rewritable(counter, pins, messages, SatSub(s.window, sizing.reserved))
  {
    var limit := SatSub(s.window, sizing.reserved);
    if Rewritable(counter, pins, messages, limit) {
      var out :| Rewrite(counter, pins, messages, limit, out);
      UnchangedIffCarried(out, pins);
      assert Pass(s, counter, pins, messages, reason, sizing, Returning(out)) == Ok(NoAction(out));
    } else {
      forall outcome, out | Pass(s, counter, pins, messages, reason, sizing, outcome) == Ok(NoAction(out))
        ensures out == messages
      {
        BackstopCarries(outcome.messages, pins);
        assert out == messages || Rewrite(counter, pins, messages, limit, out);
      }
    }
  }

  lemma EnsureHandsBackIff(s: Settings, counter: Counter, pins: seq<Message>, messages: seq<Message>)
    ensures EnsureHandsBack(s, counter, pins, messages) <==>
      !ShouldCompact(s, counter(messages)) || !Rewritable(counter, pins, messages, s.window)
  {
    if ShouldCompact(s, counter(messages)) {
      if Rewritable(counter, pins, messages, s.window) {
        var out :| Rewrite(counter, pins, messages, s.window, out);
        UnchangedIffCarried(out, pins);
        assert EnsureFits(s, counter, pins, messages, Returning(out)) == Ok(NoAction(out));
      } else {
        forall outcome, out | EnsureFits(s, counter, pins, messages, outcome) == Ok(NoAction(out))
          ensures out == messages
        {
          BackstopCarries(outcome.messages, pins);
          assert out == messages || Rewrite(counter, pins, messages, s.window, out);
        }
      }
    }
  }

  lemma BackstopCarries(messages: seq<Message>, pins: seq<Message>)
    ensures CarriesAll(Backstop(messages, pins), pins)
  {
    forall pin | pin in pins
      ensures Carried(Backstop(messages, pins), pin)
    {
      BackstopCarriesAll(messages, pins, pin);
    }
  }

  // ---------------------------------------------------------------- a change no counter sees

  /** The list with a thinking part after its last message: no text and no message count changes. */
  function Padded(messages: seq<Message>, padding: string, signature: Option<string>): seq<Message>
    requires messages != []
  {
    var n := |messages| - 1;
    messages[..n] + [Message(messages[n].role, messages[n].parts + [Thinking(padding, signature, None)])]
  }

  lemma {:induction false} TextUnderThinking(parts: seq<Part>, padding: string, signature: Option<string>)
    ensures TextOf(parts + [Thinking(padding, signature, None)]) == TextOf(parts)
  {
    var part := Thinking(padding, signature, None);
    if parts == [] {
      assert ([] + [part])[1..] == [];
    } else {
      assert (parts + [part])[1..] == parts[1..] + [part];
      TextUnderThinking(parts[1..], padding, signature);
    }
  }

  lemma PaddedCarries(messages: seq<Message>, padding: string, signature: Option<string>, pin: Message)
    requires messages != []
    ensures Carried(Padded(messages, padding, signature), pin) <==> Carried(messages, pin)
  {
    var out, n := Padded(messages, padding, signature), |messages| - 1;
    TextUnderThinking(messages[n].parts, padding, signature);
    forall i | 0 <= i < |messages|
      ensures Represents(out[i], pin) <==> Represents(messages[i], pin)
    {
    }
  }

  lemma PaddedChars(messages: seq<Message>, padding: string, signature: Option<string>)
    requires messages != []
    ensures var out := Padded(messages, padding, signature);
      && |out| == |messages|
      && Tokens.FramedChars(out) == Tokens.FramedChars(messages) + |padding|
      && Tokens.TotalChars(out) == Tokens.TotalChars(messages) + |padding|
  {
    var n := |messages| - 1;
    var part := Thinking(padding, signature, None);
    var last := Message(messages[n].role, messages[n].parts + [part]);
    Tokens.PartsConcat(messages[n].parts, [part]);
    assert [part][1..] == [];
    assert messages == messages[..n] + [messages[n]];
    Tokens.FramedSnoc(messages[..n], messages[n]);
    Tokens.FramedSnoc(messages[..n], last);
    Tokens.TotalSnoc(messages[..n], messages[n]);
    Tokens.TotalSnoc(messages[..n], last);
  }

  /** The counter does not see an empty thinking part. */
  ghost predicate Blind(counter: Counter) {
    forall messages :: messages != [] ==> counter(Padded(messages, "", None)) == counter(messages)
  }

  lemma CountersAreBlind(c: Tokens.RatioTokenCounter)
    requires c.Valid()
    ensures Blind(Heuristic()) && Blind(Ratio(c))
  {
    forall messages: seq<Message> | messages != []
      ensures Heuristic()(Padded(messages, "", None)) == Heuristic()(messages)
      ensures Ratio(c)(Padded(messages, "", None)) == Ratio(c)(messages)
    {
      var out := Padded(messages, "", None);
      PaddedChars(messages, "", None);
      Tokens.ScaledIs(c, messages);
      Tokens.ScaledIs(c, out);
      Tokens.WeightedIs(messages, c.charsDen);
      Tokens.WeightedIs(out, c.charsDen);
    }
  }

  lemma PaddedDiffers(messages: seq<Message>, padding: string, signature: Option<string>)
    requires messages != []
    ensures Padded(messages, padding, signature) != messages
  {
    var n := |messages| - 1;
    assert |Padded(messages, padding, signature)[n].parts| == |messages[n].parts| + 1;
  }

  /**
   A history that carries its pins can be rewritten under "no action" as soon as it fits, by every
   counter that does not see an empty thinking part: both of the crate's.
   */
  lemma RewritableIffFits(counter: Counter, pins: seq<Message>, messages: seq<Message>, limit: nat)
    requires Blind(counter) && CarriesAll(messages, pins)
    ensures Rewritable(counter, pins, messages, limit) <==> messages != [] && counter(messages) <= limit
  {
    if messages != [] && counter(messages) <= limit {
      var out := Padded(messages, "", None);
      PaddedDiffers(messages, "", None);
      forall pin | pin in pins
        ensures Carried(out, pin)
      {
        PaddedCarries(messages, "", None, pin);
      }
      assert Rewrite(counter, pins, messages, limit, out);
    }
  }

  // ---------------------------------------------------------------- what the pins need

  /** The pins without those an earlier one already represents. */
  function Different(pins: seq<Message>): seq<Message> {
    if pins == [] then []
    else
      var rest, last := Different(pins[..|pins| - 1]), pins[|pins| - 1];
      rest + if Carried(rest, last) then [] else [last]
  }

  function TextChars(pins: seq<Message>): nat {
    if pins == [] then 0 else TextChars(pins[..|pins| - 1]) + |TextContent(pins[|pins| - 1])|
  }

  ghost predicate PairwiseDifferent(pins: seq<Message>) {
    forall i, j :: 0 <= i < j < |pins| ==> !Represents(pins[i], pins[j])
  }

  lemma {:induction false} DifferentIs(pins: seq<Message>)
    ensures PairwiseDifferent(Different(pins))
    ensures forall out :: CarriesAll(out, Different(pins)) <==> CarriesAll(out, pins)
    decreases |pins|
  {
    if pins != [] {
      var init, last := pins[..|pins| - 1], pins[|pins| - 1];
      DifferentIs(init);
      forall out
        ensures CarriesAll(out, Different(pins)) <==> CarriesAll(out, pins)
      {
        DifferentStep(out, init, last);
        assert pins == init + [last];
      }
    }
  }

  lemma DifferentStep(out: seq<Message>, init: seq<Message>, last: Message)
    requires CarriesAll(out, Different(init)) <==> CarriesAll(out, init)
    ensures CarriesAll(out, Different(init + [last])) <==> CarriesAll(out, init + [last])
  {
    var rest := Different(init);
    assert (init + [last])[..|init|] == init;
    if Carried(rest, last) {
      var i :| 0 <= i < |rest| && Represents(rest[i], last);
      if CarriesAll(out, rest) {
        assert Carried(out, rest[i]);
        var j :| 0 <= j < |out| && Represents(out[j], rest[i]);
        assert Represents(out[j], last);
      }
      assert rest + [] == rest;
    }
  }

  lemma {:induction false} TextWithinChars(parts: seq<Part>)
    ensures |TextOf(parts)| <= Tokens.PartsChars(parts)
  {
    if parts != [] {
      TextWithinChars(parts[1..]);
    }
  }

  /** A list that carries different pins has a message for each, with at least its characters. */
  lemma {:induction false} CarryingNeeds(out: seq<Message>, pins: seq<Message>)
    requires PairwiseDifferent(pins) && CarriesAll(out, pins)
    ensures |pins| <= |out|
    ensures TextChars(pins) + Tokens.MESSAGE_OVERHEAD_CHARS * |out| <= Tokens.FramedChars(out)
    decreases |pins|
  {
    if pins == [] {
      Tokens.FramedIs(out);
    } else {
      var init, last := pins[..|pins| - 1], pins[|pins| - 1];
      assert last in pins;
      var i :| 0 <= i < |out| && Represents(out[i], last);
      var left, right := out[..i], out[i + 1..];
      assert out == left + [out[i]] + right;
      StillCarries(out, i, init, last);
      CarryingNeeds(left + right, init);
      FramedMiddle(left, out[i], right);
      Tokens.FramedSnoc([], out[i]);
      TextWithinChars(out[i].parts);
    }
  }

  lemma StillCarries(out: seq<Message>, i: nat, init: seq<Message>, last: Message)
    requires i < |out| && Represents(out[i], last)
    requires PairwiseDifferent(init + [last]) && CarriesAll(out, init + [last])
    ensures PairwiseDifferent(init) && CarriesAll(out[..i] + out[i + 1..], init)
  {
    var pins, rest := init + [last], out[..i] + out[i + 1..];
    assert forall k :: 0 <= k < |init| ==> pins[k] == init[k];
    forall pin | pin in init
      ensures Carried(rest, pin)
    {
      var k :| 0 <= k < |init| && init[k] == pin;
      assert pin in pins && !Represents(pins[k], pins[|init|]);
      var j :| 0 <= j < |out| && Represents(out[j], pin);
      assert j != i;
      assert rest[if j < i then j else j - 1] == out[j];
    }
  }

  // ---------------------------------------------------------------- the smallest list that carries them

  function Smallest(pins: seq<Message>, n: nat): seq<Message> {
    if n == 0 then []
    else
      Smallest(pins, n - 1)
      + [if n <= |pins| then Message(pins[n - 1].role, [Text(TextContent(pins[n - 1]))]) else Message(User, [])]
  }

  lemma {:induction false} SmallestRepresents(pins: seq<Message>, n: nat)
    ensures |Smallest(pins, n)| == n
    ensures forall i :: 0 <= i < n && i < |pins| ==> Represents(Smallest(pins, n)[i], pins[i])
    decreases n
  {
    if n > 0 {
      SmallestRepresents(pins, n - 1);
      if n <= |pins| {
        OneText(TextContent(pins[n - 1]));
      }
    }
  }

  lemma {:induction false} SmallestChars(pins: seq<Message>, n: nat)
    requires |pins| <= n
    ensures Tokens.FramedChars(Smallest(pins, n)) == TextChars(pins) + Tokens.MESSAGE_OVERHEAD_CHARS * n
    decreases n
  {
    if n == |pins| {
      SmallestTexts(pins, n);
      assert pins[..n] == pins;
    } else {
      SmallestChars(pins, n - 1);
      Tokens.FramedSnoc(Smallest(pins, n - 1), Message(User, []));
    }
  }

  lemma {:induction false} SmallestTexts(pins: seq<Message>, n: nat)
    requires n <= |pins|
    ensures Tokens.FramedChars(Smallest(pins, n)) == TextChars(pins[..n]) + Tokens.MESSAGE_OVERHEAD_CHARS * n
    decreases n
  {
    if n > 0 {
      var text := TextContent(pins[n - 1]);
      SmallestTexts(pins, n - 1);
      Tokens.FramedSnoc(Smallest(pins, n - 1), Message(pins[n - 1].role, [Text(text)]));
      Tokens.CharsOfText(text);
      TextCharsPrefix(pins, n);
    }
  }

  lemma TextCharsPrefix(pins: seq<Message>, n: nat)
    requires 0 < n <= |pins|
    ensures TextChars(pins[..n]) == TextChars(pins[..n - 1]) + |TextContent(pins[n - 1])|
  {
    assert pins[..n][..n - 1] == pins[..n - 1];
  }

  lemma OneText(text: string)
    ensures TextOf([Text(text)]) == text
  {
    assert [Text(text)][1..] == [];
  }

  /** There is room for the different pins: a message for each, and their texts within the limit. */
  predicate Room(pins: seq<Message>, n: nat, limit: nat) {
    var needed := Different(pins);
    |needed| <= n && (TextChars(needed) + Tokens.MESSAGE_OVERHEAD_CHARS * n) / Tokens.CHARS_PER_TOKEN <= limit
  }

  /** By the default counter, a history can be rewritten exactly when it fits and there is room for the pins. */
  lemma RewritableIffRoom(pins: seq<Message>, messages: seq<Message>, limit: nat)
    requires messages != []
    ensures Rewritable(Heuristic(), pins, messages, limit) <==>
      Heuristic()(messages) <= limit && Room(pins, |messages|, limit)
  {
    var needed := Different(pins);
    DifferentIs(pins);
    if Rewritable(Heuristic(), pins, messages, limit) {
      var out :| Rewrite(Heuristic(), pins, messages, limit, out);
      CarryingNeeds(out, needed);
    }
    if Heuristic()(messages) <= limit && Room(pins, |messages|, limit) {
      RoomToRewrite(pins, messages, limit);
    }
  }

  lemma RoomToRewrite(pins: seq<Message>, messages: seq<Message>, limit: nat)
    requires messages != [] && Heuristic()(messages) <= limit && Room(pins, |messages|, limit)
    ensures Rewritable(Heuristic(), pins, messages, limit)
  {
    var needed, n := Different(pins), |messages|;
    var base := Smallest(needed, n);
    SmallestRepresents(needed, n);
    SmallestChars(needed, n);
    var padding := Filler(base, Heuristic()(messages));
    var signature := if Padded(base, padding, None) != messages then None else Some("");
    TwoPaddings(base, padding);
    var out := Padded(base, padding, signature);
    PaddedFits(base, Heuristic()(messages), limit, signature);
    PaddedCarriesAll(base, padding, signature, needed);
    DifferentIs(pins);
    assert Rewrite(Heuristic(), pins, messages, limit, out);
  }

  /** What brings a list up to a count: nothing where it is there already. */
  function Filler(base: seq<Message>, count: nat): string {
    seq(SatSub(4 * count, Tokens.FramedChars(base)), _ => ' ')
  }

  lemma TwoPaddings(base: seq<Message>, padding: string)
    requires base != []
    ensures Padded(base, padding, None) != Padded(base, padding, Some(""))
  {
    var n := |base| - 1;
    var a, b := Padded(base, padding, None)[n].parts, Padded(base, padding, Some(""))[n].parts;
    assert a[|a| - 1] != b[|b| - 1];
  }

  lemma PaddedFits(base: seq<Message>, count: nat, limit: nat, signature: Option<string>)
    requires base != [] && count <= limit && Heuristic()(base) <= limit
    ensures var out := Padded(base, Filler(base, count), signature);
      |out| == |base| && count <= Heuristic()(out) <= limit
  {
    PaddedChars(base, Filler(base, count), signature);
  }

  lemma PaddedCarriesAll(base: seq<Message>, padding: string, signature: Option<string>, needed: seq<Message>)
    requires base != [] && |needed| <= |base|
    requires forall i :: 0 <= i < |needed| ==> Represents(base[i], needed[i])
    ensures CarriesAll(Padded(base, padding, signature), needed)
  {
    forall pin | pin in needed
      ensures Carried(Padded(base, padding, signature), pin)
    {
      var i :| 0 <= i < |needed| && needed[i] == pin;
      assert Represents(base[i], pin);
      PaddedCarries(base, padding, signature, pin);
    }
  }

  // ---------------------------------------------------------------- when the input comes back

  /**
   By the default counter, "no action" is the history it was given whatever the compactor did, if and
   only if the history is empty, or too large to be let through at all, or there is no room in as many
   messages for the pins.
   */
  lemma NoActionIsTheInputIff(s: Settings, pins: seq<Message>, messages: seq<Message>, reason: Reason, sizing: Sizing)
    ensures var limit := SatSub(s.window, sizing.reserved);
      PassHandsBack(s, Heuristic(), pins, messages, reason, sizing) <==>
        messages == [] || Heuristic()(messages) > limit || !Room(pins, |messages|, limit)
  {
    if messages != [] {
      PassHandsBackIff(s, Heuristic(), pins, messages, reason, sizing);
      RewritableIffRoom(pins, messages, SatSub(s.window, sizing.reserved));
    }
  }

  /** For the self-driven entry point, a history that calls for no compaction joins those. */
  lemma EnsureNoActionIsTheInputIff(s: Settings, pins: seq<Message>, messages: seq<Message>)
    ensures EnsureHandsBack(s, Heuristic(), pins, messages) <==>
      || !ShouldCompact(s, Heuristic()(messages)) || messages == []
      || Heuristic()(messages) > s.window || !Room(pins, |messages|, s.window)
  {
    EnsureHandsBackIff(s, Heuristic(), pins, messages);
    if messages != [] {
      RewritableIffRoom(pins, messages, s.window);
    }
  }

  /**
   By every counter that does not see an empty thinking part, a history that carries its pins comes
   back itself if and only if it is empty or does not fit.
   */
  lemma PinnedInputComesBackIff(s: Settings, counter: Counter, pins: seq<Message>, messages: seq<Message>,
                                reason: Reason, sizing: Sizing)
    requires Blind(counter) && CarriesAll(messages, pins)
    ensures PassHandsBack(s, counter, pins, messages, reason, sizing) <==>
      messages == [] || counter(messages) > SatSub(s.window, sizing.reserved)
    ensures EnsureHandsBack(s, counter, pins, messages) <==>
      !ShouldCompact(s, counter(messages)) || messages == [] || counter(messages) > s.window
  {
    if messages != [] {
      PassHandsBackIff(s, counter, pins, messages, reason, sizing);
      RewritableIffFits(counter, pins, messages, SatSub(s.window, sizing.reserved));
    }
    EnsureHandsBackIff(s, counter, pins, messages);
    RewritableIffFits(counter, pins, messages, s.window);
  }
}

/**
 Pinned content (src/compact.rs): the registry a host states its pins in, and the splice that
 puts back what a compactor dropped.
 */
module Pins {
  import opened Common
  import opened Messages
  import Tokens

  type Counter = seq<Message> -> nat

  /** The two counters as functions of a list. */
  function Heuristic(): Counter {
    ms => Tokens.HeuristicCount(ms)
  }

  function Ratio(c: Tokens.RatioTokenCounter): Counter
    requires c.Valid()
  {
    ms => Tokens.RatioCount(c, ms)
  }

  datatype Pin = Pin(id: string, message: Message)

  datatype PinError = BlankId | BlankContent | TooLarge(total: nat, target: nat)

  // ---------------------------------------------------------------- the registry

  function PinMessages(pins: seq<Pin>): seq<Message> {
    if pins == [] then [] else PinMessages(pins[..|pins| - 1]) + [pins[|pins| - 1].message]
  }

  function Ids(pins: seq<Pin>): seq<string> {
    seq(|pins|, i requires 0 <= i < |pins| => pins[i].id)
  }

  ghost predicate DistinctIds(pins: seq<Pin>) {
    forall i, j :: 0 <= i < j < |pins| ==> pins[i].id != pins[j].id
  }

  ghost predicate Absent(pins: seq<Pin>, id: string) {
    forall i :: 0 <= i < |pins| ==> pins[i].id != id
  }

  /** The position of an id, or the length when no pin carries it. */
  function FindPin(pins: seq<Pin>, id: string): (k: nat)
    ensures k <= |pins| && (k < |pins| ==> pins[k].id == id)
    ensures forall i :: 0 <= i < k ==> pins[i].id != id
  {
    if pins == [] || pins[0].id == id then 0 else 1 + FindPin(pins[1..], id)
  }

  function Lookup(pins: seq<Pin>, id: string): Option<Message> {
    var k := FindPin(pins, id);
    if k < |pins| then Some(pins[k].message) else None
  }

  function Place(pins: seq<Pin>, pin: Pin): seq<Pin> {
    var k := FindPin(pins, pin.id);
    if k < |pins| then pins[k := pin] else pins + [pin]
  }

  function Without(pins: seq<Pin>, id: string): seq<Pin> {
    if pins == [] then []
    else
      var last := pins[|pins| - 1];
      Without(pins[..|pins| - 1], id) + if last.id == id then [] else [last]
  }

  /** The list the size guard measures: the other pins, then the new statement. */
  function Sized(pins: seq<Pin>, id: string, message: Message): seq<Message> {
    PinMessages(Without(pins, id)) + [message]
  }

  function SetPin(pins: seq<Pin>, id: string, text: string, counter: Counter, target: nat): Result<seq<Pin>, PinError> {
    if Trim(id) == "" then Err(BlankId)
    else if Trim(text) == "" then Err(BlankContent)
    else
      var total := counter(Sized(pins, id, UserMessage(text)));
      if target != 0 && total > target then Err(TooLarge(total, target))
      else Ok(Place(pins, Pin(id, UserMessage(text))))
  }

  /** The messages of the pins in order, but for the one at the position, or of all when it is past the end. */
  ghost predicate AllBut(pins: seq<Pin>, k: nat, others: seq<Message>) {
    && |others| == (if k < |pins| then |pins| - 1 else |pins|)
    && (forall i :: 0 <= i < k && i < |pins| ==> others[i] == pins[i].message)
    && (forall i :: k < i < |pins| ==> others[i - 1] == pins[i].message)
  }

  lemma {:induction false} OthersAre(pins: seq<Pin>, k: nat, rest: seq<Pin>, others: seq<Message>)
    requires k <= |pins| && rest == pins[..k] + (if k < |pins| then pins[k + 1..] else [])
    requires AllBut(pins, k, others)
    ensures PinMessages(rest) == others
  {
    MessagesAt(rest);
    forall i | 0 <= i < |rest|
      ensures PinMessages(rest)[i] == others[i]
    {
      assert PinMessages(rest)[i] == rest[i].message;
      if k <= i {
        assert rest[i] == pins[k + 1..][i - k] == pins[i + 1];
      } else {
        assert rest[i] == pins[..k][i];
      }
    }
  }

  /**
   What the guard measures: the messages of the other pins, in their order, and the new one last. And
   what is registered: a user's message of exactly the text, in the id's place or last.
   */
  lemma {:induction false} SetPinIs(pins: seq<Pin>, k: nat, id: string, text: string, counter: Counter, target: nat,
                                    others: seq<Message>)
    requires DistinctIds(pins) && k <= |pins| && (k < |pins| ==> pins[k].id == id)
    requires k == |pins| ==> forall i :: 0 <= i < |pins| ==> pins[i].id != id
    requires AllBut(pins, k, others)
    ensures var message, r := Message(User, [Text(text)]), SetPin(pins, id, text, counter, target);
      if Trim(id) == "" then r == Err(BlankId)
      else if Trim(text) == "" then r == Err(BlankContent)
      else if 0 < target < counter(others + [message]) then r == Err(TooLarge(counter(others + [message]), target))
      else r == Ok(pins[..k] + [Pin(id, message)] + if k < |pins| then pins[k + 1..] else [])
  {
    if k < |pins| {
      WithoutSplits(pins, k);
    } else {
      WithoutAbsent(pins, id);
    }
    OthersAre(pins, k, Without(pins, id), others);
    PlacedIs(pins, k, Pin(id, UserMessage(text)));
  }

  lemma UpdatedIs(pins: seq<Pin>, k: nat, pin: Pin)
    requires k < |pins|
    ensures pins[k := pin] == pins[..k] + [pin] + pins[k + 1..]
  {
  }

  lemma PlacedIs(pins: seq<Pin>, k: nat, pin: Pin)
    requires k == FindPin(pins, pin.id)
    ensures Place(pins, pin) == pins[..k] + [pin] + if k < |pins| then pins[k + 1..] else []
  {
    if k < |pins| {
      UpdatedIs(pins, k, pin);
    } else {
      assert pins[..k] == pins && pins + [pin] + [] == pins + [pin];
    }
  }

  lemma FindPinIs(pins: seq<Pin>, id: string, k: nat)
    requires DistinctIds(pins) && k < |pins| && pins[k].id == id
    ensures FindPin(pins, id) == k
  {
  }

  lemma FindPinMisses(pins: seq<Pin>, id: string)
    requires Absent(pins, id)
    ensures FindPin(pins, id) == |pins|
  {
  }

  lemma LookupIs(pins: seq<Pin>, pin: Pin)
    requires DistinctIds(pins)
    ensures Lookup(pins, pin.id) == Some(pin.message) <==> pin in pins
  {
    var k := FindPin(pins, pin.id);
    if pin in pins {
      var i :| 0 <= i < |pins| && pins[i] == pin;
      FindPinIs(pins, pin.id, i);
    }
    if Lookup(pins, pin.id) == Some(pin.message) {
      assert pins[k] == pin;
    }
  }

  /** A statement replaces its id's entry where it stands, or goes last; every other id keeps its entry. */
  lemma LatestStatementStands(pins: seq<Pin>, pin: Pin, id: string)
    requires DistinctIds(pins)
    ensures DistinctIds(Place(pins, pin))
    ensures Ids(Place(pins, pin)) == if pin.id in Ids(pins) then Ids(pins) else Ids(pins) + [pin.id]
    ensures Lookup(Place(pins, pin), id) == if id == pin.id then Some(pin.message) else Lookup(pins, id)
  {
    PlaceKeepsIds(pins, pin);
    var k, out := FindPin(pins, pin.id), Place(pins, pin);
    assert out[k] == pin;
    FindPinIs(out, pin.id, k);
    var j := FindPin(pins, id);
    if id != pin.id {
      if j < |pins| {
        FindPinIs(out, id, j);
      } else {
        FindPinMisses(out, id);
      }
    }
  }

  lemma PlaceKeepsIds(pins: seq<Pin>, pin: Pin)
    requires DistinctIds(pins)
    ensures DistinctIds(Place(pins, pin))
    ensures Ids(Place(pins, pin)) == if pin.id in Ids(pins) then Ids(pins) else Ids(pins) + [pin.id]
  {
    var k := FindPin(pins, pin.id);
    if pin.id in Ids(pins) {
      var i :| 0 <= i < |pins| && Ids(pins)[i] == pin.id;
      FindPinIs(pins, pin.id, i);
    }
    assert k < |pins| ==> Ids(pins)[k] == pin.id;
  }

  lemma {:induction false} WithoutHolds(pins: seq<Pin>, id: string, pin: Pin)
    ensures pin in Without(pins, id) <==> pin in pins && pin.id != id
    decreases |pins|
  {
    if pins != [] {
      var init, last := pins[..|pins| - 1], pins[|pins| - 1];
      WithoutHolds(init, id, pin);
      assert pins == init + [last];
    }
  }

  lemma {:induction false} WithoutDistinct(pins: seq<Pin>, id: string)
    requires DistinctIds(pins)
    ensures DistinctIds(Without(pins, id))
    decreases |pins|
  {
    if pins != [] {
      var init, last := pins[..|pins| - 1], pins[|pins| - 1];
      var kept := Without(init, id);
      WithoutDistinct(init, id);
      forall i | 0 <= i < |kept|
        ensures kept[i].id != last.id
      {
        WithoutHolds(init, id, kept[i]);
        var j :| 0 <= j < |init| && init[j] == kept[i];
        assert pins[j] == kept[i];
      }
    }
  }

  /** Removing an id forgets that pin alone. */
  lemma RemovedIsForgotten(pins: seq<Pin>, gone: string, id: string)
    requires DistinctIds(pins)
    ensures DistinctIds(Without(pins, gone))
    ensures Lookup(Without(pins, gone), id) == if id == gone then None else Lookup(pins, id)
  {
    WithoutDistinct(pins, gone);
    var out := Without(pins, gone);
    var k, j := FindPin(out, id), FindPin(pins, id);
    if k < |out| {
      WithoutHolds(pins, gone, out[k]);
      LookupIs(pins, out[k]);
    } else if j < |pins| {
      WithoutHolds(pins, gone, pins[j]);
      LookupIs(out, pins[j]);
    }
  }

  // ---------------------------------------------------------------- the size guard over whole runs

  ghost predicate SameMembers(a: seq<Message>, b: seq<Message>) {
    multiset(a) == multiset(b)
  }

  /** What the guard needs of a counter: no order, no growth by removal, nothing for nothing. */
  ghost predicate Fair(counter: Counter) {
    && counter([]) == 0
    && (forall a, b :: SameMembers(a, b) ==> counter(a) == counter(b))
    && (forall a, b: seq<Message> :: counter(a) <= counter(a + b))
  }

  lemma {:induction false} MessagesConcat(a: seq<Pin>, b: seq<Pin>)
    ensures PinMessages(a + b) == PinMessages(a) + PinMessages(b)
    decreases |b|
  {
    if b == [] {
      assert a + b == a;
    } else {
      assert (a + b)[..|a + b| - 1] == a + b[..|b| - 1];
      MessagesConcat(a, b[..|b| - 1]);
    }
  }

  lemma {:induction false} RegisteredMessage(pins: seq<Pin>, k: nat)
    requires k < |pins|
    ensures pins[k].message in PinMessages(pins)
    decreases |pins|
  {
    if k < |pins| - 1 {
      RegisteredMessage(pins[..|pins| - 1], k);
    }
  }

  lemma MessageOfOne(pin: Pin)
    ensures PinMessages([pin]) == [pin.message]
  {
    assert [pin][..0] == [];
  }

  lemma {:induction false} WithoutAbsent(pins: seq<Pin>, id: string)
    requires Absent(pins, id)
    ensures Without(pins, id) == pins
    decreases |pins|
  {
    if pins != [] {
      WithoutAbsent(pins[..|pins| - 1], id);
    }
  }

  lemma {:induction false} WithoutConcat(a: seq<Pin>, b: seq<Pin>, id: string)
    ensures Without(a + b, id) == Without(a, id) + Without(b, id)
    decreases |b|
  {
    if b == [] {
      assert a + b == a;
    } else {
      assert (a + b)[..|a + b| - 1] == a + b[..|b| - 1];
      WithoutConcat(a, b[..|b| - 1], id);
    }
  }

  lemma WithoutOne(pin: Pin)
    ensures Without([pin], pin.id) == []
  {
    assert [pin][..0] == [];
  }

  lemma WithoutMiddle(a: seq<Pin>, pin: Pin, b: seq<Pin>)
    requires Absent(a, pin.id) && Absent(b, pin.id)
    ensures Without(a + [pin] + b, pin.id) == a + b
  {
    WithoutConcat(a + [pin], b, pin.id);
    WithoutConcat(a, [pin], pin.id);
    WithoutAbsent(a, pin.id);
    WithoutAbsent(b, pin.id);
    WithoutOne(pin);
    assert a + [] == a;
  }

  lemma WithoutSplits(pins: seq<Pin>, k: nat)
    requires DistinctIds(pins) && k < |pins|
    ensures Without(pins, pins[k].id) == pins[..k] + pins[k + 1..]
  {
    AbsentAround(pins, k);
    WithoutMiddle(pins[..k], pins[k], pins[k + 1..]);
  }

  lemma AbsentAround(pins: seq<Pin>, k: nat)
    requires DistinctIds(pins) && k < |pins|
    ensures Absent(pins[..k], pins[k].id) && Absent(pins[k + 1..], pins[k].id)
    ensures pins == pins[..k] + [pins[k]] + pins[k + 1..]
  {
    var after := pins[k + 1..];
    forall i | 0 <= i < |after|
      ensures after[i].id != pins[k].id
    {
      assert after[i] == pins[k + 1 + i];
    }
  }

  /** What surrounds the entry of an id: the other pins, and the places a new statement leaves alone. */
  lemma Around(pins: seq<Pin>, pin: Pin) returns (before: seq<Pin>, after: seq<Pin>)
    requires DistinctIds(pins) && FindPin(pins, pin.id) < |pins|
    ensures pins == before + [pins[FindPin(pins, pin.id)]] + after
    ensures after == pins[FindPin(pins, pin.id) + 1..]
    ensures Without(pins, pin.id) == before + after
    ensures Place(pins, pin) == before + [pin] + after
  {
    var k := FindPin(pins, pin.id);
    before, after := pins[..k], pins[k + 1..];
    WithoutSplits(pins, k);
    PlacedIs(pins, k, pin);
  }

  lemma NothingAround(pins: seq<Pin>, pin: Pin)
    requires FindPin(pins, pin.id) == |pins|
    ensures Without(pins, pin.id) == pins && Place(pins, pin) == pins + [pin]
  {
    WithoutAbsent(pins, pin.id);
  }

  lemma ThreeParts(a: seq<Pin>, pin: Pin, b: seq<Pin>)
    ensures SameMembers(PinMessages(a + b) + [pin.message], PinMessages(a + [pin] + b))
  {
    MessagesConcat(a + [pin], b);
    MessagesConcat(a, [pin]);
    MessagesConcat(a, b);
    MessageOfOne(pin);
  }

  /** The guard measures the messages the registry would hold, in another order. */
  lemma GuardMeasuresTheSet(pins: seq<Pin>, pin: Pin)
    requires DistinctIds(pins)
    ensures SameMembers(Sized(pins, pin.id, pin.message), PinMessages(Place(pins, pin)))
  {
    if FindPin(pins, pin.id) < |pins| {
      var before, after := Around(pins, pin);
      ThreeParts(before, pin, after);
    } else {
      NothingAround(pins, pin);
      MessagesConcat(pins, [pin]);
      MessageOfOne(pin);
    }
  }

  lemma OneMore(counter: Counter, fewer: seq<Message>, m: Message, more: seq<Message>)
    requires Fair(counter) && SameMembers(fewer + [m], more)
    ensures counter(fewer) <= counter(more)
  {
    assert counter(fewer) <= counter(fewer + [m]);
  }

  lemma DroppingShrinks(a: seq<Pin>, pin: Pin, b: seq<Pin>, counter: Counter)
    requires Fair(counter)
    ensures counter(PinMessages(a + b)) <= counter(PinMessages(a + [pin] + b))
  {
    ThreeParts(a, pin, b);
    OneMore(counter, PinMessages(a + b), pin.message, PinMessages(a + [pin] + b));
  }

  lemma RemovingShrinks(pins: seq<Pin>, id: string, counter: Counter)
    requires DistinctIds(pins) && Fair(counter)
    ensures counter(PinMessages(Without(pins, id))) <= counter(PinMessages(pins))
  {
    var pin := Pin(id, UserMessage(""));
    if FindPin(pins, id) < |pins| {
      var before, after := Around(pins, pin);
      DroppingShrinks(before, pins[FindPin(pins, id)], after, counter);
    } else {
      NothingAround(pins, pin);
    }
  }

  datatype Call = Set(id: string, text: string) | Remove(id: string)

  function Apply(pins: seq<Pin>, call: Call, counter: Counter, target: nat): seq<Pin> {
    match call
    case Set(id, text) =>
      var r := SetPin(pins, id, text, counter, target);
      if r.Ok? then r.value else pins
    case Remove(id) => Without(pins, id)
  }

  function After(calls: seq<Call>, counter: Counter, target: nat): seq<Pin> {
    if calls == [] then []
    else Apply(After(calls[..|calls| - 1], counter, target), calls[|calls| - 1], counter, target)
  }

  /** A pin that says something: one user text under a label. */
  ghost predicate Proper(pin: Pin) {
    Trim(pin.id) != "" && exists text :: Trim(text) != "" && pin.message == UserMessage(text)
  }

  ghost predicate AllProper(pins: seq<Pin>) {
    forall pin :: pin in pins ==> Proper(pin)
  }

  ghost predicate Fits(pins: seq<Pin>, counter: Counter, target: nat) {
    target != 0 ==> counter(PinMessages(pins)) <= target
  }

  lemma ApplyKeeps(pins: seq<Pin>, call: Call, counter: Counter, target: nat)
    requires DistinctIds(pins) && AllProper(pins)
    ensures var out := Apply(pins, call, counter, target);
      && DistinctIds(out) && AllProper(out)
      && (Fair(counter) && Fits(pins, counter, target) ==> Fits(out, counter, target))
  {
    var out := Apply(pins, call, counter, target);
    match call
    case Set(id, text) =>
      if SetPin(pins, id, text, counter, target).Ok? {
        AcceptedKeeps(pins, id, text, counter, target);
      }
    case Remove(id) =>
      RemovedKeeps(pins, id);
      if Fair(counter) {
        RemovingShrinks(pins, id, counter);
      }
  }

  lemma AcceptedKeeps(pins: seq<Pin>, id: string, text: string, counter: Counter, target: nat)
    requires DistinctIds(pins) && AllProper(pins) && SetPin(pins, id, text, counter, target).Ok?
    ensures var out := SetPin(pins, id, text, counter, target).value;
      DistinctIds(out) && AllProper(out) && (Fair(counter) ==> Fits(out, counter, target))
  {
    var pin := Pin(id, UserMessage(text));
    assert Proper(pin);
    LatestStatementStands(pins, pin, id);
    GuardMeasuresTheSet(pins, pin);
    PlacedIsProper(pins, pin);
  }

  lemma PlacedIsProper(pins: seq<Pin>, pin: Pin)
    requires AllProper(pins) && Proper(pin)
    ensures AllProper(Place(pins, pin))
  {
  }

  lemma RemovedKeeps(pins: seq<Pin>, id: string)
    requires DistinctIds(pins) && AllProper(pins)
    ensures DistinctIds(Without(pins, id)) && AllProper(Without(pins, id))
  {
    WithoutDistinct(pins, id);
    forall pin | pin in Without(pins, id)
      ensures Proper(pin)
    {
      WithoutHolds(pins, id, pin);
    }
  }

  /**
   Over any run of statements and removals the ids stay distinct, every pin says something, and
   with a fair counter the whole set measures at most the target, unless the target is zero.
   */
  lemma {:induction false} RegistryInvariant(calls: seq<Call>, counter: Counter, target: nat)
    ensures var pins := After(calls, counter, target);
      DistinctIds(pins) && AllProper(pins) && (Fair(counter) ==> Fits(pins, counter, target))
    decreases |calls|
  {
    if calls == [] {
      assert PinMessages([]) == [];
    } else {
      RegistryInvariant(calls[..|calls| - 1], counter, target);
      ApplyKeeps(After(calls[..|calls| - 1], counter, target), calls[|calls| - 1], counter, target);
    }
  }

  lemma Cancel(init: seq<Message>, m: Message, left: seq<Message>, right: seq<Message>)
    requires multiset(init + [m]) == multiset(left + [m] + right)
    ensures SameMembers(init, left + right)
  {
    assert multiset(init) == multiset(init + [m]) - multiset{m};
    assert multiset(left + [m] + right) == multiset(left + right) + multiset{m};
  }

  lemma FramedMiddle(left: seq<Message>, m: Message, right: seq<Message>)
    ensures Tokens.FramedChars(left + [m] + right) == Tokens.FramedChars(left + right) + Tokens.FramedChars([m])
  {
    Tokens.FramedConcat(left, right);
    Tokens.FramedConcat(left + [m], right);
    Tokens.FramedConcat(left, [m]);
  }

  lemma {:induction false} FramedIgnoresOrder(a: seq<Message>, b: seq<Message>)
    requires SameMembers(a, b)
    ensures Tokens.FramedChars(a) == Tokens.FramedChars(b)
    decreases |a|
  {
    if a == [] {
      assert multiset(b) == multiset{};
      assert |multiset(b)| == |b|;
    } else {
      var init, m := a[..|a| - 1], a[|a| - 1];
      assert a == init + [m];
      assert m in multiset(b);
      var j :| 0 <= j < |b| && b[j] == m;
      var left, right := b[..j], b[j + 1..];
      assert b == left + [m] + right;
      Cancel(init, m, left, right);
      FramedIgnoresOrder(init, left + right);
      FramedMiddle(left, m, right);
      Tokens.FramedConcat(init, [m]);
    }
  }

  /** The default counter is fair. */
  lemma HeuristicIsFair()
    ensures Fair(Heuristic())
  {
    forall a: seq<Message>, b: seq<Message> | SameMembers(a, b)
      ensures Heuristic()(a) == Heuristic()(b)
    {
      FramedIgnoresOrder(a, b);
    }
    forall a: seq<Message>, b: seq<Message>
      ensures Heuristic()(a) <= Heuristic()(a + b)
    {
      Tokens.FramedConcat(a, b);
    }
  }

  lemma ScaledIgnoresOrder(c: Tokens.RatioTokenCounter, a: seq<Message>, b: seq<Message>)
    requires SameMembers(a, b)
    ensures Tokens.Scaled(c, a) == Tokens.Scaled(c, b)
  {
    assert |a| == |multiset(a)| == |multiset(b)| == |b|;
    FramedIgnoresOrder(a, b);
    Tokens.FramedIs(a);
    Tokens.FramedIs(b);
    Tokens.ScaledIs(c, a);
    Tokens.ScaledIs(c, b);
    Tokens.WeightedIs(a, c.charsDen);
    Tokens.WeightedIs(b, c.charsDen);
  }

  /** So is every ratio counter, saturation included. */
  lemma RatioIsFair(c: Tokens.RatioTokenCounter)
    requires c.Valid()
    ensures Fair(Ratio(c))
  {
    forall a: seq<Message>, b: seq<Message> | SameMembers(a, b)
      ensures Ratio(c)(a) == Ratio(c)(b)
    {
      ScaledIgnoresOrder(c, a, b);
    }
    forall a: seq<Message>, b: seq<Message>
      ensures Ratio(c)(a) <= Ratio(c)(a + b)
    {
      Tokens.AppendNeverLowers(c, a, b);
    }
    Tokens.NothingCountsNothing(c);
  }

  // ---------------------------------------------------------------- the guard under an arbitrary counter

  /** Whatever counts and whatever the target, an accepted statement leaves a set that measures within it. */
  ghost predicate AcceptedAlwaysFits(pins: seq<Pin>, id: string, text: string) {
    forall counter: Counter, target: nat ::
      SetPin(pins, id, text, counter, target).Ok? ==>
        Fits(SetPin(pins, id, text, counter, target).value, counter, target)
  }

  /** A counter that has something against one list only. */
  function Against(list: seq<Message>): Counter {
    ms => if ms == list then 2 else 0
  }

  lemma Shifted(x: seq<Message>, m: Message)
    ensures x + [m] == [m] + x <==> forall i :: 0 <= i < |x| ==> x[i] == m
  {
    if x + [m] == [m] + x {
      AllShifted(x, m, |x|);
    }
    if forall i :: 0 <= i < |x| ==> x[i] == m {
      assert x + [m] == [m] + x;
    }
  }

  lemma {:induction false} AllShifted(x: seq<Message>, m: Message, n: nat)
    requires n <= |x| && x + [m] == [m] + x
    ensures forall i :: 0 <= i < n ==> x[i] == m
    decreases n
  {
    if n > 0 {
      AllShifted(x, m, n - 1);
      assert x[n - 1] == (x + [m])[n - 1] == ([m] + x)[n - 1];
    }
  }

  lemma {:induction false} MessagesAt(pins: seq<Pin>)
    ensures |PinMessages(pins)| == |pins|
    ensures forall i :: 0 <= i < |pins| ==> PinMessages(pins)[i] == pins[i].message
    decreases |pins|
  {
    if pins != [] {
      MessagesAt(pins[..|pins| - 1]);
    }
  }

  ghost predicate AllSay(pins: seq<Pin>, message: Message) {
    forall i :: 0 <= i < |pins| ==> pins[i].message == message
  }

  /** No pin after the entry of the id says anything else than the new statement. */
  ghost predicate NothingElseFollows(pins: seq<Pin>, pin: Pin) {
    var k := FindPin(pins, pin.id);
    k < |pins| ==> AllSay(pins[k + 1..], pin.message)
  }

  lemma SamePrefix(x: seq<Message>, y: seq<Message>, z: seq<Message>)
    ensures x + y == x + z <==> y == z
  {
    assert (x + y)[|x|..] == y && (x + z)[|x|..] == z;
  }

  lemma AllSayMessages(pins: seq<Pin>, m: Message)
    ensures AllSay(pins, m) <==> PinMessages(pins) + [m] == [m] + PinMessages(pins)
  {
    MessagesAt(pins);
    Shifted(PinMessages(pins), m);
  }

  lemma MovedToTheEnd(before: seq<Pin>, pin: Pin, after: seq<Pin>)
    ensures PinMessages(before + after) + [pin.message] == PinMessages(before + [pin] + after) <==>
      AllSay(after, pin.message)
  {
    var x, y, m := PinMessages(before), PinMessages(after), pin.message;
    MessagesConcat(before, after);
    MessagesConcat(before + [pin], after);
    MessagesConcat(before, [pin]);
    MessageOfOne(pin);
    assert x + y + [m] == x + (y + [m]) && x + [m] + y == x + ([m] + y);
    SamePrefix(x, y + [m], [m] + y);
    AllSayMessages(after, m);
  }

  /** The guard measures the list in the registry's own order exactly when nothing different follows the entry. */
  lemma MeasuredInOrderIff(pins: seq<Pin>, pin: Pin)
    requires DistinctIds(pins)
    ensures Sized(pins, pin.id, pin.message) == PinMessages(Place(pins, pin)) <==> NothingElseFollows(pins, pin)
  {
    if FindPin(pins, pin.id) < |pins| {
      var before, after := Around(pins, pin);
      MovedToTheEnd(before, pin, after);
    } else {
      NothingAround(pins, pin);
      MessagesConcat(pins, [pin]);
      MessageOfOne(pin);
    }
  }

  /**
   Under an arbitrary counter, an accepted statement is within the target if and only if its id is
   new or nothing but the same message follows its entry; otherwise some counter lets it slip
   through. (A blank statement is never accepted.)
   */
  lemma AcceptedFitsIff(pins: seq<Pin>, id: string, text: string)
    requires DistinctIds(pins)
    ensures AcceptedAlwaysFits(pins, id, text) <==>
      Trim(id) == "" || Trim(text) == "" || NothingElseFollows(pins, Pin(id, UserMessage(text)))
  {
    var pin := Pin(id, UserMessage(text));
    MeasuredInOrderIff(pins, pin);
    if Trim(id) != "" && Trim(text) != "" && !NothingElseFollows(pins, pin) {
      var counter := Against(PinMessages(Place(pins, pin)));
      assert SetPin(pins, id, text, counter, 1).Ok?;
      assert !Fits(SetPin(pins, id, text, counter, 1).value, counter, 1);
    }
  }

  ghost predicate RemovalAlwaysFits(pins: seq<Pin>, id: string) {
    forall counter: Counter, target: nat :: Fits(pins, counter, target) ==> Fits(Without(pins, id), counter, target)
  }

  /** A removal keeps every counter's measure within every target if and only if it removes nothing. */
  lemma RemovalFitsIff(pins: seq<Pin>, id: string)
    requires DistinctIds(pins)
    ensures RemovalAlwaysFits(pins, id) <==> Absent(pins, id)
  {
    var k := FindPin(pins, id);
    if k < |pins| {
      WithoutSplits(pins, k);
      MessagesAt(pins);
      MessagesAt(Without(pins, id));
      var counter := Against(PinMessages(Without(pins, id)));
      assert Fits(pins, counter, 1) && !Fits(Without(pins, id), counter, 1);
    } else {
      WithoutAbsent(pins, id);
    }
  }

  /** A counter that looks at the first message only. */
  function FirstOnly(first: Message): Counter {
    ms => if ms != [] && ms[0] == first then 2 else 0
  }

  /**
   Fairness is needed: the guard measures the new statement last, the registry keeps it where it
   stood, so under a counter that looks at the order an accepted set can measure over the target.
   */
  lemma OrderCanSlipThrough(a: Pin, b: Pin, text: string)
    requires a.id != b.id && Trim(a.id) != "" && Trim(text) != "" && b.message != UserMessage(text)
    ensures var r := SetPin([a, b], a.id, text, FirstOnly(UserMessage(text)), 1);
      && r == Ok([Pin(a.id, UserMessage(text)), b])
      && FirstOnly(UserMessage(text))(PinMessages(r.value)) > 1
  {
    var pin := Pin(a.id, UserMessage(text));
    SizedOfTwo(a, b, pin.message);
    MessagesOfTwo(pin, b);
    assert FindPin([a, b], a.id) == 0;
    assert [a, b][0 := pin] == [pin, b];
  }

  lemma SizedOfTwo(a: Pin, b: Pin, message: Message)
    requires a.id != b.id
    ensures Sized([a, b], a.id, message) == [b.message, message]
  {
    OtherOfTwo(a, b);
    MessageOfOne(b);
  }

  lemma OtherOfTwo(a: Pin, b: Pin)
    requires a.id != b.id
    ensures Without([a, b], a.id) == [b]
  {
    WithoutOne(a);
    assert [a, b][..1] == [a];
  }

  lemma MessagesOfTwo(a: Pin, b: Pin)
    ensures PinMessages([a, b]) == [a.message, b.message]
  {
    MessageOfOne(a);
    MessageOfOne(b);
    MessagesConcat([a], [b]);
    assert [a] + [b] == [a, b];
  }

  // ---------------------------------------------------------------- the splice

  predicate Represents(message: Message, pin: Message) {
    message.role == pin.role && TextContent(message) == TextContent(pin)
  }

  predicate Carried(messages: seq<Message>, pin: Message) {
    exists i :: 0 <= i < |messages| && Represents(messages[i], pin)
  }

  /** The pins no message represents, in statement order. */
  function Missing(messages: seq<Message>, pins: seq<Message>): seq<Message> {
    if pins == [] then []
    else
      var last := pins[|pins| - 1];
      Missing(messages, pins[..|pins| - 1]) + if Carried(messages, last) then [] else [last]
  }

  /** How many messages stay in front of the pins: a leading system message. */
  function Head(messages: seq<Message>): nat {
    if messages != [] && messages[0].role == System then 1 else 0
  }

  /** One insertion of a whole list behind a leading system message. */
  function Splice(messages: seq<Message>, extra: seq<Message>): seq<Message> {
    messages[..Head(messages)] + extra + messages[Head(messages)..]
  }

  function Backstop(messages: seq<Message>, pins: seq<Message>): seq<Message> {
    Splice(messages, Missing(messages, pins))
  }

  /** A leading system message keeps its place, the pins come next, the rest follows unchanged. */
  lemma SpliceIs(messages: seq<Message>, extra: seq<Message>)
    ensures messages != [] && messages[0].role == System ==>
      Splice(messages, extra) == [messages[0]] + extra + messages[1..]
    ensures messages == [] || messages[0].role != System ==> Splice(messages, extra) == extra + messages
  {
    if messages != [] && messages[0].role == System {
      assert messages[..1] == [messages[0]];
    }
  }

  /** The pins picked are those at the positions, and the positions those no message represents, in order. */
  ghost predicate Picks(messages: seq<Message>, pins: seq<Message>, picked: seq<Message>, at: seq<nat>) {
    && |at| == |picked| && (forall j :: 0 <= j < |at| ==> at[j] < |pins| && picked[j] == pins[at[j]])
    && (forall i, j :: 0 <= i < j < |at| ==> at[i] < at[j])
    && (forall k: nat :: k < |pins| ==> (k in at <==> !Carried(messages, pins[k])))
  }

  lemma CarriedIsPassed(messages: seq<Message>, pins: seq<Message>, last: Message, picked: seq<Message>, at: seq<nat>)
    requires Picks(messages, pins, picked, at) && Carried(messages, last)
    ensures Picks(messages, pins + [last], picked, at)
  {
    assert |pins| !in at;
  }

  lemma MissingIsPicked(messages: seq<Message>, pins: seq<Message>, last: Message, picked: seq<Message>, at: seq<nat>)
    requires Picks(messages, pins, picked, at) && !Carried(messages, last)
    ensures Picks(messages, pins + [last], picked + [last], at + [|pins|])
  {
    assert forall k: nat :: k in at + [|pins|] <==> k in at || k == |pins|;
  }

  /** The missing pins are those at the positions no message represents, in statement order. */
  lemma {:induction false} MissingAt(messages: seq<Message>, pins: seq<Message>) returns (at: seq<nat>)
    ensures Picks(messages, pins, Missing(messages, pins), at)
    decreases |pins|
  {
    if pins == [] {
      at := [];
    } else {
      var init, last := pins[..|pins| - 1], pins[|pins| - 1];
      at := MissingAt(messages, init);
      assert pins == init + [last];
      if Carried(messages, last) {
        CarriedIsPassed(messages, init, last, Missing(messages, init), at);
      } else {
        MissingIsPicked(messages, init, last, Missing(messages, init), at);
        at := at + [|init|];
      }
    }
  }

  lemma CarriedIff(messages: seq<Message>, pin: Message)
    ensures !Carried(messages, pin) <==>
      forall i :: 0 <= i < |messages| ==>
        messages[i].role != pin.role || TextContent(messages[i]) != TextContent(pin)
  {
    if !Carried(messages, pin) {
      assert forall i :: 0 <= i < |messages| ==> !Represents(messages[i], pin);
    }
  }

  function Insert(messages: seq<Message>, at: nat, message: Message): seq<Message>
    requires at <= |messages|
  {
    messages[..at] + [message] + messages[at..]
  }

  method InsertAt(messages: seq<Message>, at: nat, extra: seq<Message>) returns (out: seq<Message>)
    requires at <= |messages|
    ensures out == messages[..at] + extra + messages[at..]
  {
    out := messages;
    for offset := 0 to |extra|
      invariant out == messages[..at] + extra[..offset] + messages[at..]
    {
      out := Insert(out, at + offset, extra[offset]);
      assert extra[..offset + 1] == extra[..offset] + [extra[offset]];
    }
    assert extra[..|extra|] == extra;
  }

  /** Inserting one by one at growing offsets is one splice, behind a leading system message. */
  method InsertAll(messages: seq<Message>, extra: seq<Message>) returns (out: seq<Message>)
    ensures out == Splice(messages, extra)
    ensures messages != [] && messages[0].role == System ==> out == [messages[0]] + extra + messages[1..]
    ensures messages == [] || messages[0].role != System ==> out == extra + messages
  {
    out := InsertAt(messages, Head(messages), extra);
    SpliceIs(messages, extra);
  }

  method PrependPinned(messages: seq<Message>, pinned: seq<Message>) returns (out: seq<Message>)
    ensures out == Splice(messages, pinned)
    ensures messages != [] && messages[0].role == System ==> out == [messages[0]] + pinned + messages[1..]
    ensures messages == [] || messages[0].role != System ==> out == pinned + messages
  {
    SpliceIs(messages, pinned);
    if pinned == [] {
      assert messages[..Head(messages)] + [] + messages[Head(messages)..] == messages;
      return messages;
    }
    out := InsertAll(messages, pinned);
  }

  /**
   The pins at these positions, which are those no message represents, stand in the output in
   statement order, right behind a leading system message or in front; the rest is as it was.
   */
  ghost predicate PlacedAt(messages: seq<Message>, pins: seq<Message>, out: seq<Message>, picked: seq<Message>,
                           at: seq<nat>)
  {
    && (messages != [] && messages[0].role == System ==> out == [messages[0]] + picked + messages[1..])
    && (messages == [] || messages[0].role != System ==> out == picked + messages)
    && |at| == |picked| && (forall j :: 0 <= j < |at| ==> at[j] < |pins| && picked[j] == pins[at[j]])
    && (forall i, j :: 0 <= i < j < |at| ==> at[i] < at[j])
    && (forall k: nat :: k < |pins| ==> (k in at <==>
          forall i :: 0 <= i < |messages| ==>
            messages[i].role != pins[k].role || TextContent(messages[i]) != TextContent(pins[k])))
  }

  lemma BackstopPlaces(messages: seq<Message>, pins: seq<Message>) returns (picked: seq<Message>, at: seq<nat>)
    ensures picked == Missing(messages, pins) && PlacedAt(messages, pins, Backstop(messages, pins), picked, at)
  {
    picked := Missing(messages, pins);
    at := MissingAt(messages, pins);
    SpliceIs(messages, picked);
    forall k: nat | k < |pins|
      ensures !Carried(messages, pins[k]) <==>
        forall i :: 0 <= i < |messages| ==>
          messages[i].role != pins[k].role || TextContent(messages[i]) != TextContent(pins[k])
    {
      CarriedIff(messages, pins[k]);
    }
  }

  method BackstopPins(messages: seq<Message>, pins: seq<Message>) returns (out: seq<Message>, count: nat)
    ensures out == Backstop(messages, pins) && count == |Missing(messages, pins)|
    ensures exists picked, at :: |picked| == count && PlacedAt(messages, pins, out, picked, at)
  {
    var missing := Missing(messages, pins);
    ghost var picked, at := BackstopPlaces(messages, pins);
    if missing == [] {
      assert messages[..Head(messages)] + [] + messages[Head(messages)..] == messages;
      return messages, 0;
    }
    out := InsertAll(messages, missing);
    count := |missing|;
  }

  lemma {:induction false} MissingHolds(messages: seq<Message>, pins: seq<Message>, pin: Message)
    ensures pin in Missing(messages, pins) <==> pin in pins && !Carried(messages, pin)
    decreases |pins|
  {
    if pins != [] {
      MissingHolds(messages, pins[..|pins| - 1], pin);
      assert pins == pins[..|pins| - 1] + [pins[|pins| - 1]];
    }
  }

  lemma SpliceCarries(messages: seq<Message>, extra: seq<Message>, pin: Message)
    ensures Carried(Splice(messages, extra), pin) <==> Carried(messages, pin) || Carried(extra, pin)
  {
    var out, h := Splice(messages, extra), Head(messages);
    if Carried(messages, pin) {
      var i :| 0 <= i < |messages| && Represents(messages[i], pin);
      assert out[if i < h then i else i + |extra|] == messages[i];
    }
    if Carried(extra, pin) {
      var i :| 0 <= i < |extra| && Represents(extra[i], pin);
      assert out[h + i] == extra[i];
    }
    if Carried(out, pin) {
      var i :| 0 <= i < |out| && Represents(out[i], pin);
      if h <= i < h + |extra| {
        assert out[i] == extra[i - h];
      } else {
        assert out[i] == messages[if i < h then i else i - |extra|];
      }
    }
  }

  /** After the backstop every pin has a message of its role with exactly its text. */
  lemma BackstopCarriesAll(messages: seq<Message>, pins: seq<Message>, pin: Message)
    requires pin in pins
    ensures Carried(Backstop(messages, pins), pin)
  {
    var missing := Missing(messages, pins);
    MissingHolds(messages, pins, pin);
    SpliceCarries(messages, missing, pin);
    if pin in missing {
      var i :| 0 <= i < |missing| && missing[i] == pin;
      assert Represents(missing[i], pin);
    }
  }

  /** The backstop leaves a list as it is exactly when it already carries every pin. */
  lemma UnchangedIffCarried(messages: seq<Message>, pins: seq<Message>)
    ensures Backstop(messages, pins) == messages <==> forall pin :: pin in pins ==> Carried(messages, pin)
  {
    var missing := Missing(messages, pins);
    assert |Backstop(messages, pins)| == |messages| + |missing|;
    if forall pin :: pin in pins ==> Carried(messages, pin) {
      if missing != [] {
        MissingHolds(messages, pins, missing[0]);
      }
      assert messages[..Head(messages)] + [] + messages[Head(messages)..] == messages;
    } else if missing == [] {
      forall pin | pin in pins
        ensures Carried(messages, pin)
      {
        MissingHolds(messages, pins, pin);
      }
    }
  }

  /** A second backstop inserts nothing. */
  lemma BackstopOnce(messages: seq<Message>, pins: seq<Message>)
    ensures Backstop(Backstop(messages, pins), pins) == Backstop(messages, pins)
  {
    forall pin | pin in pins
      ensures Carried(Backstop(messages, pins), pin)
    {
      BackstopCarriesAll(messages, pins, pin);
    }
    UnchangedIffCarried(Backstop(messages, pins), pins);
  }

  /** After a compactor has prepended the pins itself the backstop inserts nothing. */
  lemma BackstopAfterPrepend(messages: seq<Message>, pins: seq<Message>)
    ensures Backstop(Splice(messages, pins), pins) == Splice(messages, pins)
  {
    forall pin | pin in pins
      ensures Carried(Splice(messages, pins), pin)
    {
      var i :| 0 <= i < |pins| && pins[i] == pin;
      assert Represents(pins[i], pin);
      SpliceCarries(messages, pins, pin);
    }
    UnchangedIffCarried(Splice(messages, pins), pins);
  }
}

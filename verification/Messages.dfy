/**
 Messages, and the fold that joins adjacent assistant messages into one (src/message.rs).
 */
module Messages {
  import opened Common

  datatype Role = User | Assistant | System

  datatype ImageSource = ImageSource(mediaType: string, data: string)

  datatype ToolContentPart = TextPart(text: string) | ImagePart(source: ImageSource)

  datatype ToolContent = Plain(text: string) | Multipart(parts: seq<ToolContentPart>)

  /** A part of a message; the input of a tool call is its rendered JSON text. */
  datatype Part =
    | Text(text: string)
    | Image(source: ImageSource)
    | ToolCall(id: string, name: string, input: string)
    | Thinking(text: string, signature: Option<string>, redacted: Option<string>)
    | ToolResult(callId: string, name: string, output: ToolContent, isError: bool)

  datatype Message = Message(role: Role, parts: seq<Part>)

  const SEPARATOR := Text("\n\n")

  function UserMessage(text: string): Message {
    Message(User, [Text(text)])
  }

  /** The text parts joined; everything else is skipped. */
  function TextOf(parts: seq<Part>): string {
    if parts == [] then ""
    else (if parts[0].Text? then parts[0].text else "") + TextOf(parts[1..])
  }

  function TextContent(m: Message): string {
    TextOf(m.parts)
  }

  /** The tool calls among the parts, in order. */
  function CallsOf(parts: seq<Part>): seq<Part> {
    if parts == [] then []
    else (if parts[0].ToolCall? then [parts[0]] else []) + CallsOf(parts[1..])
  }

  // ---------------------------------------------------------------- joining two part lists

  predicate EndsInText(parts: seq<Part>) {
    parts != [] && parts[|parts| - 1].Text?
  }

  predicate StartsWithText(parts: seq<Part>) {
    parts != [] && parts[0].Text?
  }

  /** What goes between two part lists that meet: a separator at a text-text seam, nothing otherwise. */
  function Seam(a: seq<Part>, b: seq<Part>): seq<Part> {
    if EndsInText(a) && StartsWithText(b) then [SEPARATOR] else []
  }

  function Join(a: seq<Part>, b: seq<Part>): seq<Part> {
    a + Seam(a, b) + b
  }

  lemma JoinIsAMonoid(a: seq<Part>, b: seq<Part>, c: seq<Part>)
    ensures Join(a, []) == a && Join([], a) == a
    ensures Join(Join(a, b), c) == Join(a, Join(b, c))
  {
    if b == [] {
      assert Join(a, []) == a && Join([], c) == c;
    } else {
      SeamsSurvive(a, b, c);
      Reassociate(a, Seam(a, b), b, Seam(b, c), c);
    }
  }

  lemma SeamsSurvive(a: seq<Part>, b: seq<Part>, c: seq<Part>)
    requires b != []
    ensures Seam(Join(a, b), c) == Seam(b, c) && Seam(a, Join(b, c)) == Seam(a, b)
  {
    var ab, bc := Join(a, b), Join(b, c);
    assert ab[|ab| - 1] == b[|b| - 1] && bc[0] == b[0];
  }

  lemma Reassociate(a: seq<Part>, s: seq<Part>, b: seq<Part>, t: seq<Part>, c: seq<Part>)
    ensures (a + s + b) + t + c == a + s + (b + t + c)
  {
  }

  // ---------------------------------------------------------------- the fold

  predicate Meets(out: seq<Message>, next: seq<Message>) {
    out != [] && next != [] && out[|out| - 1].role == Assistant && next[0].role == Assistant
  }

  /** Put one list of messages after another, joining the two that meet when both are the assistant's. */
  function Glue(out: seq<Message>, next: seq<Message>): seq<Message> {
    if Meets(out, next)
    then out[..|out| - 1] + [Message(Assistant, Join(out[|out| - 1].parts, next[0].parts))] + next[1..]
    else out + next
  }

  /** One step of the pass per message, first to last. */
  function Coalesce(messages: seq<Message>): seq<Message> {
    if messages == [] then []
    else Glue(Coalesce(messages[..|messages| - 1]), [messages[|messages| - 1]])
  }

  lemma CoalesceSnoc(messages: seq<Message>, i: nat)
    requires i < |messages|
    ensures Coalesce(messages[..i + 1]) == Glue(Coalesce(messages[..i]), [messages[i]])
  {
    assert messages[..i + 1][..i] == messages[..i];
  }

  lemma JoinedInPlace(out: seq<Message>, message: Message)
    requires Meets(out, [message])
    ensures var previous := out[|out| - 1].parts;
      out[|out| - 1 := Message(Assistant, previous + Seam(previous, message.parts) + message.parts)]
        == Glue(out, [message])
    ensures Seam(out[|out| - 1].parts, message.parts) == [] ==>
      out[|out| - 1].parts + Seam(out[|out| - 1].parts, message.parts) == out[|out| - 1].parts
  {
  }

  method CoalesceAdjacentAssistants(messages: seq<Message>) returns (out: seq<Message>)
    ensures out == Coalesce(messages)
  {
    out := [];
    for i := 0 to |messages|
      invariant out == Coalesce(messages[..i])
    {
      var message := messages[i];
      CoalesceSnoc(messages, i);
      if message.role == Assistant && out != [] && out[|out| - 1].role == Assistant {
        var previous := out[|out| - 1].parts;
        if EndsInText(previous) && StartsWithText(message.parts) {
          previous := previous + [SEPARATOR];
        }
        JoinedInPlace(out, message);
        out := out[|out| - 1 := Message(Assistant, previous + message.parts)];
      } else {
        out := out + [message];
      }
    }
    assert messages[..|messages|] == messages;
  }

  // ---------------------------------------------------------------- chunk independence

  lemma GlueOne(a: seq<Message>, b: seq<Message>, m: Message)
    requires b != []
    ensures Glue(a + b, [m]) == a + Glue(b, [m])
  {
    if Meets(b, [m]) {
      assert (a + b)[..|a + b| - 1] == a + b[..|b| - 1];
    }
  }

  lemma GlueThroughTheMiddle(a: seq<Message>, b: seq<Message>, m: Message)
    requires Meets(a, b)
    ensures Glue(Glue(a, b), [m]) == Glue(a, Glue(b, [m]))
  {
    var front, rest := a[..|a| - 1], b[1..];
    var joined := Message(Assistant, Join(a[|a| - 1].parts, b[0].parts));
    if rest == [] {
      assert b == [b[0]];
      assert Glue(a, b) == front + [joined];
      GlueOne(front, [joined], m);
      JoinIsAMonoid(a[|a| - 1].parts, b[0].parts, m.parts);
    } else {
      assert Glue(a, b) == front + [joined] + rest;
      GlueOne(front + [joined], rest, m);
      assert b == [b[0]] + rest;
      GlueOne([b[0]], rest, m);
      assert Glue(b, [m])[1..] == Glue(rest, [m]);
    }
  }

  lemma GlueAssociates(a: seq<Message>, b: seq<Message>, m: Message)
    ensures Glue(Glue(a, b), [m]) == Glue(a, Glue(b, [m]))
  {
    if b == [] {
      assert Glue(a, b) == a && Glue(b, [m]) == [m];
    } else if Meets(a, b) {
      GlueThroughTheMiddle(a, b, m);
    } else {
      GlueOne(a, b, m);
      assert Glue(b, [m])[0].role == b[0].role;
    }
  }

  /** A history may be coalesced piece by piece: only the two ends that meet are joined again. */
  lemma {:induction false} CoalescePieces(a: seq<Message>, b: seq<Message>)
    ensures Coalesce(a + b) == Glue(Coalesce(a), Coalesce(b))
    decreases |b|
  {
    if b == [] {
      assert a + b == a;
    } else {
      var init, m := b[..|b| - 1], b[|b| - 1];
      assert (a + b)[..|a + b| - 1] == a + init;
      CoalescePieces(a, init);
      GlueAssociates(Coalesce(a), Coalesce(init), m);
    }
  }

  // ---------------------------------------------------------------- no two adjacent assistants

  ghost predicate Alternates(messages: seq<Message>) {
    forall i :: 0 <= i < |messages| - 1 ==> !(messages[i].role == Assistant && messages[i + 1].role == Assistant)
  }

  lemma {:induction false} NoAdjacentAssistants(messages: seq<Message>)
    ensures Alternates(Coalesce(messages))
    decreases |messages|
  {
    if messages != [] {
      NoAdjacentAssistants(messages[..|messages| - 1]);
    }
  }

  /** The pass leaves a history as it is exactly when it has no two adjacent assistant messages. */
  lemma {:induction false} UnchangedIffAlternates(messages: seq<Message>)
    ensures Coalesce(messages) == messages <==> Alternates(messages)
    decreases |messages|
  {
    NoAdjacentAssistants(messages);
    if messages != [] && Alternates(messages) {
      UnchangedIffAlternates(messages[..|messages| - 1]);
    }
  }

  lemma CoalesceIsIdempotent(messages: seq<Message>)
    ensures Coalesce(Coalesce(messages)) == Coalesce(messages)
  {
    NoAdjacentAssistants(messages);
    UnchangedIffAlternates(Coalesce(messages));
  }

  /** However a history was cut and coalesced before, coalescing the pieces again gives the same result. */
  lemma CoalesceIgnoresChunks(a: seq<Message>, b: seq<Message>)
    ensures Coalesce(Coalesce(a) + Coalesce(b)) == Coalesce(a + b)
  {
    CoalescePieces(a, b);
    CoalescePieces(Coalesce(a), Coalesce(b));
    CoalesceIsIdempotent(a);
    CoalesceIsIdempotent(b);
  }

  // ---------------------------------------------------------------- what the result is

  lemma {:induction false} EndsKeepTheirRole(messages: seq<Message>)
    ensures messages != [] ==>
      var out := Coalesce(messages);
      out != [] && out[0].role == messages[0].role && out[|out| - 1].role == messages[|messages| - 1].role
    decreases |messages|
  {
    if |messages| > 1 {
      EndsKeepTheirRole(messages[..|messages| - 1]);
    }
  }

  /** A cut that does not fall between two assistant messages cuts the result too. */
  lemma CoalesceSplits(a: seq<Message>, b: seq<Message>)
    requires !Meets(a, b)
    ensures Coalesce(a + b) == Coalesce(a) + Coalesce(b)
  {
    CoalescePieces(a, b);
    EndsKeepTheirRole(a);
    EndsKeepTheirRole(b);
  }

  predicate AllAssistant(run: seq<Message>) {
    forall i :: 0 <= i < |run| ==> run[i].role == Assistant
  }

  lemma GluePair(a: Message, b: Message)
    requires a.role == Assistant && b.role == Assistant
    ensures Glue([a], [b]) == [Message(Assistant, Join(a.parts, b.parts))]
    ensures Glue([], [b]) == [b]
  {
    var joined := Message(Assistant, Join(a.parts, b.parts));
    assert [a][..0] + [joined] + [b][1..] == [joined];
  }

  /** The part lists of a run that hold anything. */
  function Nonempty(run: seq<Message>): seq<seq<Part>> {
    if run == [] then []
    else
      var last := run[|run| - 1].parts;
      Nonempty(run[..|run| - 1]) + if last == [] then [] else [last]
  }

  /** The lists laid out one after the other, with a separator exactly where two text parts would meet. */
  function Spread(lists: seq<seq<Part>>): seq<Part> {
    if lists == [] then []
    else if |lists| == 1 then lists[0]
    else
      var n := |lists| - 1;
      Spread(lists[..n]) + Seam(lists[n - 1], lists[n]) + lists[n]
  }

  predicate LastHolds(lists: seq<seq<Part>>) {
    lists != [] ==> lists[|lists| - 1] != []
  }

  lemma SpreadEnds(lists: seq<seq<Part>>)
    requires lists != [] && LastHolds(lists)
    ensures EndsInText(Spread(lists)) == EndsInText(lists[|lists| - 1])
  {
    var last := lists[|lists| - 1];
    assert Spread(lists)[|Spread(lists)| - 1] == last[|last| - 1];
  }

  lemma SpreadSnoc(lists: seq<seq<Part>>, last: seq<Part>)
    requires LastHolds(lists)
    ensures Join(Spread(lists), last) == Spread(lists + if last == [] then [] else [last])
  {
    if last == [] {
      JoinIsAMonoid(Spread(lists), [], []);
      assert lists + [] == lists;
    } else if lists == [] {
      JoinIsAMonoid(last, [], []);
      assert Spread([last]) == last && [] + [last] == [last];
    } else {
      SpreadEnds(lists);
      SpreadLast(lists, last);
    }
  }

  lemma SpreadLast(lists: seq<seq<Part>>, last: seq<Part>)
    requires lists != [] && EndsInText(Spread(lists)) == EndsInText(lists[|lists| - 1])
    ensures Join(Spread(lists), last) == Spread(lists + [last])
  {
    var more := lists + [last];
    assert more[..|lists|] == lists && more[|lists| - 1] == lists[|lists| - 1];
  }

  lemma {:induction false} NonemptyHolds(run: seq<Message>)
    ensures LastHolds(Nonempty(run))
    decreases |run|
  {
    if run != [] {
      NonemptyHolds(run[..|run| - 1]);
    }
  }

  /**
   A run of assistant messages becomes one, holding every part in order with a separator exactly
   where one message's text meets the next one's; messages without parts do not count as neighbours.
   */
  lemma {:induction false} RunBecomesOne(run: seq<Message>)
    requires run != [] && AllAssistant(run)
    ensures Coalesce(run) == [Message(Assistant, Spread(Nonempty(run)))]
    decreases |run|
  {
    var init, last := run[..|run| - 1], run[|run| - 1];
    NonemptyHolds(init);
    SpreadSnoc(Nonempty(init), last.parts);
    if init == [] {
      GluePair(Message(Assistant, []), last);
      assert Join([], last.parts) == last.parts;
    } else {
      RunBecomesOne(init);
      GluePair(Coalesce(init)[0], last);
    }
  }

  /** Two assistant messages: the parts of both, a blank line between text and text. */
  lemma TwoBecomeOne(a: seq<Part>, b: seq<Part>)
    ensures var meet := a != [] && b != [] && a[|a| - 1].Text? && b[0].Text?;
      Coalesce([Message(Assistant, a), Message(Assistant, b)])
        == [Message(Assistant, if meet then a + [Text("\n\n")] + b else a + b)]
  {
    var two := [Message(Assistant, a), Message(Assistant, b)];
    var one := [two[0]];
    assert two[..1] == one && one[..0] == [];
    GluePair(two[0], two[0]);
    GluePair(two[0], two[1]);
    CoalesceSnoc(two, 0);
    CoalesceSnoc(two, 1);
    assert two[..2] == two && two[..0] == [];
    assert a + [] + b == a + b;
  }

  /** A message's text is its text parts one after the other, and its calls the calls among its parts. */
  lemma {:induction false} TextOfSnoc(parts: seq<Part>, p: Part)
    ensures TextOf(parts + [p]) == TextOf(parts) + if p.Text? then p.text else ""
    ensures CallsOf(parts + [p]) == CallsOf(parts) + if p.ToolCall? then [p] else []
    ensures TextOf([]) == "" && CallsOf([]) == []
  {
    if parts == [] {
      assert [p][1..] == [];
    } else {
      assert (parts + [p])[1..] == parts[1..] + [p];
      TextOfSnoc(parts[1..], p);
    }
  }

  /** The messages of the other roles. */
  function Others(messages: seq<Message>): seq<Message> {
    if messages == [] then []
    else
      var m := messages[|messages| - 1];
      Others(messages[..|messages| - 1]) + if m.role == Assistant then [] else [m]
  }

  lemma OthersSnoc(messages: seq<Message>, m: Message)
    ensures Others(messages + [m]) == Others(messages) + if m.role == Assistant then [] else [m]
  {
    assert (messages + [m])[..|messages|] == messages;
  }

  /** Every message of another role is kept, as it was and in order. */
  lemma {:induction false} OthersAreKept(messages: seq<Message>)
    ensures Others(Coalesce(messages)) == Others(messages)
    decreases |messages|
  {
    if messages != [] {
      var init, m := messages[..|messages| - 1], messages[|messages| - 1];
      var out := Coalesce(init);
      OthersAreKept(init);
      OthersSnoc(out, m);
      if Meets(out, [m]) {
        var before := out[..|out| - 1];
        OthersSnoc(before, out[|out| - 1]);
        assert before + [out[|out| - 1]] == out;
        OthersSnoc(before, Message(Assistant, Join(out[|out| - 1].parts, m.parts)));
        assert Coalesce(messages) == before + [Message(Assistant, Join(out[|out| - 1].parts, m.parts))];
      }
    }
  }

  // ---------------------------------------------------------------- what the fold costs

  /** The run a list ends with ends in text: empty messages of the run are looked past. */
  predicate RunEndsInText(messages: seq<Message>)
    decreases |messages|
  {
    messages != [] &&
    var init, last := messages[..|messages| - 1], messages[|messages| - 1];
    if last.parts != [] then EndsInText(last.parts) else Meets(init, [last]) && RunEndsInText(init)
  }

  /** How many messages are folded into the one before. */
  function Folds(messages: seq<Message>): nat
    decreases |messages|
  {
    if messages == [] then 0
    else
      var init, last := messages[..|messages| - 1], messages[|messages| - 1];
      Folds(init) + if Meets(init, [last]) then 1 else 0
  }

  /** How many separators go in: text of a run meeting the text of its next message. */
  function Seams(messages: seq<Message>): nat
    decreases |messages|
  {
    if messages == [] then 0
    else
      var init, last := messages[..|messages| - 1], messages[|messages| - 1];
      Seams(init) + if Meets(init, [last]) && RunEndsInText(init) && StartsWithText(last.parts) then 1 else 0
  }

  lemma {:induction false} SeamsAreFolds(messages: seq<Message>)
    ensures Seams(messages) <= Folds(messages) <= if messages == [] then 0 else |messages| - 1
    decreases |messages|
  {
    if messages != [] {
      SeamsAreFolds(messages[..|messages| - 1]);
    }
  }

  lemma StillMeets(messages: seq<Message>, m: Message)
    ensures Meets(Coalesce(messages), [m]) <==> Meets(messages, [m])
  {
    EndsKeepTheirRole(messages);
  }

  lemma {:induction false} RunEndIsKept(messages: seq<Message>)
    ensures RunEndsInText(messages) <==>
      Coalesce(messages) != [] && EndsInText(Coalesce(messages)[|Coalesce(messages)| - 1].parts)
    decreases |messages|
  {
    if messages != [] {
      var init, last := messages[..|messages| - 1], messages[|messages| - 1];
      RunEndIsKept(init);
      StillMeets(init, last);
      if Meets(init, [last]) {
        var before, previous, joined := Meeting(Coalesce(init), last);
        JoinEnds(previous.parts, last.parts);
      }
    }
  }

  lemma JoinEnds(a: seq<Part>, b: seq<Part>)
    ensures EndsInText(Join(a, b)) <==> if b == [] then EndsInText(a) else EndsInText(b)
  {
    if b == [] {
      JoinIsAMonoid(a, [], []);
    } else {
      assert Join(a, b)[|Join(a, b)| - 1] == b[|b| - 1];
    }
  }

  // ---------------------------------------------------------------- tool calls

  function AllCalls(messages: seq<Message>): seq<Part> {
    if messages == [] then []
    else AllCalls(messages[..|messages| - 1]) + CallsOf(messages[|messages| - 1].parts)
  }

  lemma CallsCons(p: Part, rest: seq<Part>)
    ensures CallsOf([p] + rest) == (if p.ToolCall? then [p] else []) + CallsOf(rest)
  {
    assert ([p] + rest)[1..] == rest;
  }

  lemma {:induction false} CallsConcat(a: seq<Part>, b: seq<Part>)
    ensures CallsOf(a + b) == CallsOf(a) + CallsOf(b)
  {
    if a == [] {
      assert a + b == b;
    } else {
      var rest := a[1..] + b;
      CallsConcat(a[1..], b);
      assert a + b == [a[0]] + rest && a == [a[0]] + a[1..];
      CallsCons(a[0], rest);
      CallsCons(a[0], a[1..]);
    }
  }

  lemma JoinKeepsCalls(a: seq<Part>, b: seq<Part>)
    ensures CallsOf(Join(a, b)) == CallsOf(a) + CallsOf(b)
  {
    if Seam(a, b) == [] {
      assert Join(a, b) == a + b;
      CallsConcat(a, b);
    } else {
      CallsConcat(a, [SEPARATOR] + b);
      CallsCons(SEPARATOR, b);
      assert Join(a, b) == a + ([SEPARATOR] + b);
    }
  }

  lemma AllCallsSnoc(messages: seq<Message>, m: Message)
    ensures AllCalls(messages + [m]) == AllCalls(messages) + CallsOf(m.parts)
  {
    assert (messages + [m])[..|messages|] == messages;
  }

  /** No tool call is lost, added or moved past another. */
  lemma {:induction false} CallsAreKept(messages: seq<Message>)
    ensures AllCalls(Coalesce(messages)) == AllCalls(messages)
    decreases |messages|
  {
    if messages != [] {
      var init := messages[..|messages| - 1];
      CallsAreKept(init);
      GlueKeepsCalls(Coalesce(init), messages[|messages| - 1]);
    }
  }

  lemma GlueKeepsCalls(out: seq<Message>, m: Message)
    ensures AllCalls(Glue(out, [m])) == AllCalls(out) + CallsOf(m.parts)
  {
    if Meets(out, [m]) {
      var before, last, joined := Meeting(out, m);
      JoinKeepsCalls(last.parts, m.parts);
      RejoinedCalls(before, last, joined, m);
    } else {
      AllCallsSnoc(out, m);
    }
  }

  lemma Meeting(out: seq<Message>, m: Message) returns (before: seq<Message>, last: Message, joined: Message)
    requires Meets(out, [m])
    ensures out == before + [last] && Glue(out, [m]) == before + [joined]
    ensures joined.parts == Join(last.parts, m.parts)
  {
    before, last := out[..|out| - 1], out[|out| - 1];
    joined := Message(Assistant, Join(last.parts, m.parts));
  }

  lemma RejoinedCalls(before: seq<Message>, last: Message, joined: Message, m: Message)
    requires CallsOf(joined.parts) == CallsOf(last.parts) + CallsOf(m.parts)
    ensures AllCalls(before + [joined]) == AllCalls(before + [last]) + CallsOf(m.parts)
  {
    AllCallsSnoc(before, joined);
    AllCallsSnoc(before, last);
    assert AllCalls(before) + (CallsOf(last.parts) + CallsOf(m.parts))
        == AllCalls(before) + CallsOf(last.parts) + CallsOf(m.parts);
  }
}

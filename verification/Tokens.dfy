/**
 The two token counters over one rendering of the messages (src/compact.rs): characters divided
 by four, and characters divided by a decimal ratio in saturating 64-bit arithmetic.
 */
module Tokens {
  import opened Common
  import opened Messages
  import opened Arithmetic
  import Duration

  const CHARS_PER_TOKEN: nat := 4
  const MESSAGE_OVERHEAD_CHARS: nat := 20
  const IMAGE_CHARS: nat := 256

  function ContentChars(parts: seq<ToolContentPart>): nat {
    if parts == [] then 0
    else (if parts[0].TextPart? then |parts[0].text| else IMAGE_CHARS) + ContentChars(parts[1..])
  }

  function PartChars(p: Part): nat {
    match p
    case Text(text) => |text|
    case Thinking(text, _, _) => |text|
    case Image(_) => IMAGE_CHARS
    case ToolCall(_, name, input) => |name| + |input|
    case ToolResult(_, _, Plain(text), _) => |text|
    case ToolResult(_, _, Multipart(parts), _) => ContentChars(parts)
  }

  function PartsChars(parts: seq<Part>): nat {
    if parts == [] then 0 else PartChars(parts[0]) + PartsChars(parts[1..])
  }

  /** The characters every counter estimates over. */
  function RenderedChars(m: Message): nat {
    PartsChars(m.parts)
  }

  function TotalChars(messages: seq<Message>): nat {
    if messages == [] then 0
    else TotalChars(messages[..|messages| - 1]) + RenderedChars(messages[|messages| - 1])
  }

  function FramedChars(messages: seq<Message>): nat {
    if messages == [] then 0
    else FramedChars(messages[..|messages| - 1]) + RenderedChars(messages[|messages| - 1]) + MESSAGE_OVERHEAD_CHARS
  }

  function HeuristicCount(messages: seq<Message>): nat {
    FramedChars(messages) / CHARS_PER_TOKEN
  }

  /** The ratio is `ratioNum / charsDen` characters a token; all three are 64-bit, the numerator not zero. */
  datatype RatioTokenCounter = RatioTokenCounter(perMessage: nat, ratioNum: nat, charsDen: nat) {
    predicate Valid() {
      perMessage <= U64_MAX && 0 < ratioNum <= U64_MAX && charsDen <= U64_MAX
    }
  }

  /** The characters times the ratio's denominator, without any clamping. */
  function Weighted(messages: seq<Message>, den: nat): nat {
    if messages == [] then 0
    else Weighted(messages[..|messages| - 1], den) + RenderedChars(messages[|messages| - 1]) * den
  }

  /** What the counter divides, without any clamping: the characters and the overhead of every message. */
  function Scaled(c: RatioTokenCounter, messages: seq<Message>): nat {
    Multiple(c.charsDen, TotalChars(messages)) + Multiple(Multiple(c.ratioNum, c.perMessage), |messages|)
  }

  function Quotient(x: nat, n: nat): nat
    requires n > 0
  {
    x / n
  }

  /** The unbounded figure, clamped once and floored once. */
  function RatioCount(c: RatioTokenCounter, messages: seq<Message>): nat
    requires c.Valid()
  {
    Quotient(ClampU64(Scaled(c, messages)), c.ratioNum)
  }

  // ---------------------------------------------------------------- products and quotients

  lemma SatMulTwice(p: nat, n: nat)
    ensures SatMul(U64_MAX, ClampU64(p), n) == ClampU64(p * n)
  {
    if n > 0 && p > U64_MAX {
      MulMono(1, n, U64_MAX);
      MulMono(U64_MAX, p, n);
    }
  }

  lemma SatStep(w: nat, x: nat, den: nat)
    ensures SatAdd(U64_MAX, ClampU64(w), SatMul(U64_MAX, x, den)) == ClampU64(w + x * den)
  {
  }

  lemma SatEnd(w: nat, a: nat, b: nat, k: nat)
    ensures SatAdd(U64_MAX, ClampU64(w), SatMul(U64_MAX, SatMul(U64_MAX, a, b), k)) == ClampU64(w + a * b * k)
  {
    SatMulTwice(a * b, k);
  }

  lemma DivSumParts(a: nat, b: nat, n: nat, p: nat, r: nat, q: nat, s: nat)
    requires a == n * p + r && b == n * q + s && r < n && s < n
    ensures (a + b) / n == if r + s < n then p + q else p + q + 1
  {
    Distribute(p, q, n);
    Distribute(p + q, 1, n);
    if r + s < n {
      QuotientIs(a + b, n, p + q, r + s);
    } else {
      QuotientIs(a + b, n, p + q + 1, r + s - n);
    }
  }

  /** One floor over a sum is at least the two floors, and at most one more. */
  lemma DivSum(a: nat, b: nat, n: nat)
    requires n > 0
    ensures a / n + b / n <= (a + b) / n <= a / n + b / n + 1
  {
    DivMod(a, n);
    DivMod(b, n);
    DivSumParts(a, b, n, a / n, a % n, b / n, b % n);
  }

  // ---------------------------------------------------------------- saturating at every step is clamping once

  lemma {:induction false} WeightedIs(messages: seq<Message>, den: nat)
    ensures Weighted(messages, den) == TotalChars(messages) * den
    decreases |messages|
  {
    if messages != [] {
      WeightedIs(messages[..|messages| - 1], den);
      Distribute(TotalChars(messages[..|messages| - 1]), RenderedChars(messages[|messages| - 1]), den);
    }
  }

  lemma ScaledIs(c: RatioTokenCounter, messages: seq<Message>)
    ensures Scaled(c, messages) == Weighted(messages, c.charsDen) + c.perMessage * c.ratioNum * |messages|
  {
    WeightedIs(messages, c.charsDen);
    ScaledNumbers(c.charsDen, TotalChars(messages), c.ratioNum, c.perMessage, |messages|);
  }

  lemma ScaledNumbers(den: nat, chars: nat, n: nat, a: nat, k: nat)
    ensures Multiple(den, chars) + Multiple(Multiple(n, a), k) == chars * den + a * n * k
  {
    MultipleIs(den, chars);
    MultipleOfMultiple(n, a, k);
  }

  lemma MultipleOfMultiple(n: nat, a: nat, k: nat)
    ensures Multiple(Multiple(n, a), k) == a * n * k
  {
    MultipleIs(n, a);
    MultipleIs(Multiple(n, a), k);
  }

  lemma WeightedPrefix(messages: seq<Message>, i: nat, den: nat)
    requires i < |messages|
    ensures ClampU64(Weighted(messages[..i + 1], den))
      == SatAdd(U64_MAX, ClampU64(Weighted(messages[..i], den)), SatMul(U64_MAX, RenderedChars(messages[i]), den))
  {
    assert messages[..i + 1][..i] == messages[..i];
    SatStep(Weighted(messages[..i], den), RenderedChars(messages[i]), den);
  }

  method ScaledChars(messages: seq<Message>, den: nat) returns (scaledChars: nat)
    ensures scaledChars == ClampU64(Weighted(messages, den))
  {
    scaledChars := 0;
    for i := 0 to |messages|
      invariant scaledChars == ClampU64(Weighted(messages[..i], den))
    {
      WeightedPrefix(messages, i, den);
      scaledChars := SatAdd(U64_MAX, scaledChars, SatMul(U64_MAX, RenderedChars(messages[i]), den));
    }
    assert messages[..|messages|] == messages;
  }

  lemma SatSteps(c: RatioTokenCounter, messages: seq<Message>)
    ensures SatAdd(U64_MAX, ClampU64(Weighted(messages, c.charsDen)),
                   SatMul(U64_MAX, SatMul(U64_MAX, c.perMessage, c.ratioNum), |messages|))
         == ClampU64(Scaled(c, messages))
  {
    ScaledIs(c, messages);
    SatEnd(Weighted(messages, c.charsDen), c.perMessage, c.ratioNum, |messages|);
  }

  /** Saturating at every step gives the unbounded total clamped once. */
  method Count(c: RatioTokenCounter, messages: seq<Message>) returns (tokens: nat)
    requires c.Valid()
    ensures tokens == RatioCount(c, messages)
  {
    var scaledChars := ScaledChars(messages, c.charsDen);
    SatSteps(c, messages);
    var overhead := SatMul(U64_MAX, SatMul(U64_MAX, c.perMessage, c.ratioNum), |messages|);
    tokens := Quotient(SatAdd(U64_MAX, scaledChars, overhead), c.ratioNum);
  }

  // ---------------------------------------------------------------- what the counters compute

  /** Without saturation the overhead is exact tokens a message and only the characters are floored. */
  lemma UnsaturatedIsExact(c: RatioTokenCounter, messages: seq<Message>)
    requires c.Valid() && Scaled(c, messages) <= U64_MAX
    ensures RatioCount(c, messages) == TotalChars(messages) * c.charsDen / c.ratioNum + c.perMessage * |messages|
  {
    ScaledIs(c, messages);
    WeightedIs(messages, c.charsDen);
    WholePartOf(Scaled(c, messages), TotalChars(messages) * c.charsDen, c.perMessage, c.ratioNum, |messages|);
  }

  lemma WholePartOf(scaled: nat, x: nat, a: nat, n: nat, k: nat)
    requires n > 0 && scaled == x + a * n * k && scaled <= U64_MAX
    ensures Quotient(ClampU64(scaled), n) == x / n + a * k
  {
    WholePart(x, a, n, k);
  }

  lemma WholePart(x: nat, a: nat, n: nat, k: nat)
    requires n > 0
    ensures (x + a * n * k) / n == x / n + a * k
  {
    var q, r, whole := x / n, x % n, a * k;
    DivMod(x, n);
    Reorder(a, n, k);
    Distribute(q, whole, n);
    QuotientIs(x + a * n * k, n, q + whole, r);
  }

  lemma Reorder(a: nat, n: nat, k: nat)
    ensures a * n * k == a * k * n
  {
    assert a * n * k == a * (n * k) == a * (k * n) == a * k * n;
  }

  lemma ScaledConcat(c: RatioTokenCounter, a: seq<Message>, b: seq<Message>)
    ensures Scaled(c, a + b) == Scaled(c, a) + Scaled(c, b)
  {
    TotalConcat(a, b);
    MultipleAdds(c.charsDen, TotalChars(a), TotalChars(b));
    MultipleAdds(Multiple(c.ratioNum, c.perMessage), |a|, |b|);
  }

  lemma {:induction false} TotalConcat(a: seq<Message>, b: seq<Message>)
    ensures TotalChars(a + b) == TotalChars(a) + TotalChars(b)
    decreases |b|
  {
    if b == [] {
      assert a + b == a;
    } else {
      assert (a + b)[..|a + b| - 1] == a + b[..|b| - 1];
      TotalConcat(a, b[..|b| - 1]);
    }
  }

  /**
   Counting two lists together costs at most one token more than counting them apart, and never
   less as long as the whole does not saturate.
   */
  lemma CountSplits(c: RatioTokenCounter, a: seq<Message>, b: seq<Message>)
    requires c.Valid()
    ensures RatioCount(c, a + b) <= RatioCount(c, a) + RatioCount(c, b) + 1
    ensures Scaled(c, a + b) <= U64_MAX ==> RatioCount(c, a) + RatioCount(c, b) <= RatioCount(c, a + b)
  {
    ScaledConcat(c, a, b);
    var x, y := ClampU64(Scaled(c, a)), ClampU64(Scaled(c, b));
    DivSum(x, y, c.ratioNum);
    DivMono(ClampU64(Scaled(c, a + b)), x + y, c.ratioNum);
  }

  lemma {:induction false} FramedIs(messages: seq<Message>)
    ensures FramedChars(messages) == TotalChars(messages) + MESSAGE_OVERHEAD_CHARS * |messages|
    decreases |messages|
  {
    if messages != [] {
      FramedIs(messages[..|messages| - 1]);
    }
  }

  /** Four characters a token and five tokens a message is the heuristic, on every list whose characters fit. */
  lemma HeuristicIsARatio(messages: seq<Message>)
    requires FramedChars(messages) <= U64_MAX
    ensures RatioCount(RatioTokenCounter(5, 4, 1), messages) == HeuristicCount(messages)
  {
    FramedIs(messages);
    ScaledIs(RatioTokenCounter(5, 4, 1), messages);
    WeightedIs(messages, 1);
  }

  lemma {:induction false} FramedConcat(a: seq<Message>, b: seq<Message>)
    ensures FramedChars(a + b) == FramedChars(a) + FramedChars(b)
    decreases |b|
  {
    if b == [] {
      assert a + b == a;
    } else {
      assert (a + b)[..|a + b| - 1] == a + b[..|b| - 1];
      FramedConcat(a, b[..|b| - 1]);
    }
  }

  /** Appending never lowers the count, not even where it saturates. */
  lemma AppendNeverLowers(c: RatioTokenCounter, messages: seq<Message>, more: seq<Message>)
    requires c.Valid()
    ensures RatioCount(c, messages) <= RatioCount(c, messages + more)
    ensures HeuristicCount(messages) <= HeuristicCount(messages + more)
  {
    ScaledConcat(c, messages, more);
    DivMono(ClampU64(Scaled(c, messages)), ClampU64(Scaled(c, messages + more)), c.ratioNum);
    FramedConcat(messages, more);
  }

  /** Where the exact figure passes u64 the count is the largest there is. */
  lemma SaturatedIsLargest(c: RatioTokenCounter, messages: seq<Message>)
    requires c.Valid() && TotalChars(messages) * c.charsDen + c.perMessage * c.ratioNum * |messages| >= U64_MAX
    ensures RatioCount(c, messages) == U64_MAX / c.ratioNum
  {
    ScaledIs(c, messages);
    WeightedIs(messages, c.charsDen);
  }

  /** What every kind of part counts: the characters the provider is sent, and 256 for an image wherever it is. */
  lemma CharsOfEveryPart(text: string, id: string, name: string, input: string, image: ImageSource,
                         signature: Option<string>, redacted: Option<string>, isError: bool)
    ensures PartChars(Text(text)) == |text| == PartChars(Thinking(text, signature, redacted))
    ensures PartChars(Image(image)) == 256
    ensures PartChars(ToolCall(id, name, input)) == |name + input|
    ensures PartChars(ToolResult(id, name, Plain(text), isError)) == |text|
    ensures PartChars(ToolResult(id, name, Multipart([]), isError)) == 0
  {
  }

  /** A result in several parts counts them one by one. */
  lemma {:induction false} CharsOfMultipart(id: string, name: string, parts: seq<ToolContentPart>, p: ToolContentPart,
                                            isError: bool)
    ensures PartChars(ToolResult(id, name, Multipart(parts + [p]), isError)) ==
      PartChars(ToolResult(id, name, Multipart(parts), isError))
      + if p.TextPart? then |p.text| else 256
  {
    if parts == [] {
      assert [p][1..] == [];
    } else {
      assert (parts + [p])[1..] == parts[1..] + [p];
      CharsOfMultipart(id, name, parts[1..], p, isError);
    }
  }

  /** And a list counts its messages one by one, a message its parts. */
  lemma CharsAdd(messages: seq<Message>, role: Role, parts: seq<Part>, p: Part)
    ensures TotalChars(messages + [Message(role, parts + [p])])
      == TotalChars(messages + [Message(role, parts)]) + PartChars(p)
    ensures TotalChars(messages + [Message(role, [])]) == TotalChars(messages) && TotalChars([]) == 0
  {
    TotalSnoc(messages, Message(role, parts + [p]));
    TotalSnoc(messages, Message(role, parts));
    TotalSnoc(messages, Message(role, []));
    PartsConcat(parts, [p]);
    assert [p][1..] == [];
  }

  lemma NothingCountsNothing(c: RatioTokenCounter)
    requires c.Valid()
    ensures RatioCount(c, []) == 0
  {
    DivZero(0, c.ratioNum);
  }

  // ---------------------------------------------------------------- one role's share

  function OfRole(messages: seq<Message>, role: Role): seq<Message> {
    if messages == [] then []
    else
      var m := messages[|messages| - 1];
      OfRole(messages[..|messages| - 1], role) + if m.role == role then [m] else []
  }

  function EstimateRoleTokens(messages: seq<Message>, role: Role): nat {
    HeuristicCount(OfRole(messages, role))
  }

  lemma FramedSnoc(messages: seq<Message>, m: Message)
    ensures FramedChars(messages + [m]) == FramedChars(messages) + FramedChars([m])
    ensures FramedChars([m]) == RenderedChars(m) + MESSAGE_OVERHEAD_CHARS
  {
    assert (messages + [m])[..|messages|] == messages;
    assert [m][..0] == [];
  }

  lemma OfRoleStep(messages: seq<Message>, role: Role)
    requires messages != []
    ensures var init, m := messages[..|messages| - 1], messages[|messages| - 1];
      FramedChars(OfRole(messages, role))
        == FramedChars(OfRole(init, role)) + if m.role == role then RenderedChars(m) + MESSAGE_OVERHEAD_CHARS else 0
  {
    var init, m := messages[..|messages| - 1], messages[|messages| - 1];
    FramedSnoc(OfRole(init, role), m);
    assert OfRole(init, role) + [] == OfRole(init, role);
  }

  lemma {:induction false} RolesPartition(messages: seq<Message>)
    ensures FramedChars(messages) == FramedChars(OfRole(messages, User))
      + FramedChars(OfRole(messages, Assistant)) + FramedChars(OfRole(messages, System))
    decreases |messages|
  {
    if messages != [] {
      var init, m := messages[..|messages| - 1], messages[|messages| - 1];
      RolesPartition(init);
      OfRoleStep(messages, User);
      OfRoleStep(messages, Assistant);
      OfRoleStep(messages, System);
    }
  }

  /**
   The user's share never exceeds the whole, so the telemetry's rest is what the subtraction says;
   without system messages counting the two roles apart loses at most one token.
   */
  lemma RoleSharesAddUp(messages: seq<Message>)
    ensures EstimateRoleTokens(messages, User) + SatSub(HeuristicCount(messages), EstimateRoleTokens(messages, User))
         == HeuristicCount(messages)
    ensures OfRole(messages, System) == [] ==>
      var apart := EstimateRoleTokens(messages, User) + EstimateRoleTokens(messages, Assistant);
      apart <= HeuristicCount(messages) <= apart + 1
  {
    RolesPartition(messages);
  }

  // ---------------------------------------------------------------- coalescing and counting

  lemma {:induction false} PartsConcat(a: seq<Part>, b: seq<Part>)
    ensures PartsChars(a + b) == PartsChars(a) + PartsChars(b)
  {
    if a == [] {
      assert a + b == b;
    } else {
      var rest := a[1..] + b;
      PartsConcat(a[1..], b);
      assert (a + b)[1..] == rest;
    }
  }

  lemma JoinChars(a: seq<Part>, b: seq<Part>)
    ensures PartsChars(Join(a, b))
         == PartsChars(a) + PartsChars(b) + if EndsInText(a) && StartsWithText(b) then 2 else 0
  {
    PartsConcat(a + Seam(a, b), b);
    PartsConcat(a, Seam(a, b));
    assert [SEPARATOR][1..] == [];
  }

  lemma TotalSnoc(messages: seq<Message>, m: Message)
    ensures TotalChars(messages + [m]) == TotalChars(messages) + RenderedChars(m)
  {
    assert (messages + [m])[..|messages|] == messages;
  }

  lemma GlueChars(out: seq<Message>, m: Message)
    ensures |Glue(out, [m])| == |out| + if Meets(out, [m]) then 0 else 1
    ensures TotalChars(Glue(out, [m])) == TotalChars(out) + RenderedChars(m)
      + if Meets(out, [m]) && EndsInText(out[|out| - 1].parts) && StartsWithText(m.parts) then 2 else 0
  {
    if Meets(out, [m]) {
      var before, last, joined := Meeting(out, m);
      JoinChars(last.parts, m.parts);
      TotalSnoc(before, last);
      TotalSnoc(before, joined);
    } else {
      TotalSnoc(out, m);
    }
  }

  /** What coalescing does to the size: one message less a fold, two characters more a seam. */
  lemma {:induction false} CoalesceChars(messages: seq<Message>)
    ensures |Coalesce(messages)| == |messages| - Folds(messages)
    ensures TotalChars(Coalesce(messages)) == TotalChars(messages) + 2 * Seams(messages)
    decreases |messages|
  {
    if messages != [] {
      var init, m := messages[..|messages| - 1], messages[|messages| - 1];
      CoalesceChars(init);
      StillMeets(init, m);
      RunEndIsKept(init);
      GlueChars(Coalesce(init), m);
    }
  }

  /**
   Adopting a compacted history coalesces it after it was measured. The measure still bounds it:
   always under the heuristic, and under a ratio whose overhead per message outweighs a separator.
   */
  lemma CoalesceNeverCountsMore(c: RatioTokenCounter, messages: seq<Message>)
    requires c.Valid()
    ensures HeuristicCount(Coalesce(messages)) <= HeuristicCount(messages)
    ensures 2 * c.charsDen <= c.perMessage * c.ratioNum ==> RatioCount(c, Coalesce(messages)) <= RatioCount(c, messages)
  {
    var out := Coalesce(messages);
    CoalesceChars(messages);
    SeamsAreFolds(messages);
    FramedIs(messages);
    FramedIs(out);
    if 2 * c.charsDen <= c.perMessage * c.ratioNum {
      ScaledIs(c, messages);
      WeightedIs(messages, c.charsDen);
      ScaledIs(c, out);
      WeightedIs(out, c.charsDen);
      Outweighs(TotalChars(out), |out|, TotalChars(messages), |messages|, c.charsDen, c.perMessage * c.ratioNum);
      DivMono(ClampU64(Scaled(c, out)), ClampU64(Scaled(c, messages)), c.ratioNum);
    }
  }

  lemma Outweighs(chars: nat, count: nat, moreChars: nat, moreCount: nat, den: nat, overhead: nat)
    requires count <= moreCount && chars <= moreChars + 2 * (moreCount - count) && 2 * den <= overhead
    ensures chars * den + overhead * count <= moreChars * den + overhead * moreCount
  {
    var folded := moreCount - count;
    MulMono(chars, moreChars + 2 * folded, den);
    Distribute(moreChars, 2 * folded, den);
    MulMono(2 * den, overhead, folded);
    assert 2 * folded * den == 2 * den * folded;
    Distribute(count, folded, overhead);
  }

  lemma TotalOfOne(m: Message)
    ensures TotalChars([m]) == RenderedChars(m)
  {
    assert [m][..0] == [];
  }

  lemma TotalOfTwo(a: Message, b: Message)
    ensures TotalChars([a, b]) == RenderedChars(a) + RenderedChars(b)
  {
    TotalOfOne(a);
    assert [a, b][..1] == [a];
  }

  lemma CoalesceTwo(a: Message, b: Message)
    requires a.role == Assistant && b.role == Assistant
    ensures Coalesce([a, b]) == [Message(Assistant, Join(a.parts, b.parts))]
  {
    GluePair(a, a);
    GluePair(a, b);
    assert [a, b][..1] == [a] && [a, b][..2] == [a, b] && [a, b][..0] == [];
    CoalesceSnoc([a, b], 0);
    CoalesceSnoc([a, b], 1);
  }

  lemma CharsOfText(text: string)
    ensures PartsChars([Text(text)]) == |text|
  {
    assert [Text(text)][1..] == [];
  }

  /** A ratio without overhead can count more after coalescing: a separator is two more characters. */
  lemma SeparatorsCanCost(s: string, t: string)
    requires |s| + |t| + 2 <= U64_MAX
    ensures var c, ms := RatioTokenCounter(0, 1, 1), [Message(Assistant, [Text(s)]), Message(Assistant, [Text(t)])];
      c.Valid() && RatioCount(c, ms) == |s| + |t| && RatioCount(c, Coalesce(ms)) == |s| + |t| + 2
  {
    var c, a, b := RatioTokenCounter(0, 1, 1), Message(Assistant, [Text(s)]), Message(Assistant, [Text(t)]);
    var joined := Message(Assistant, Join(a.parts, b.parts));
    CoalesceTwo(a, b);
    CharsOfText(s);
    CharsOfText(t);
    CharsOfText("\n\n");
    TotalOfTwo(a, b);
    TotalOfOne(joined);
    PartsConcat(a.parts + [SEPARATOR], b.parts);
    PartsConcat(a.parts, [SEPARATOR]);
    UnitRatio([a, b]);
    UnitRatio([joined]);
  }

  lemma UnitRatio(messages: seq<Message>)
    requires TotalChars(messages) <= U64_MAX
    ensures RatioCount(RatioTokenCounter(0, 1, 1), messages) == TotalChars(messages)
  {
    ScaledIs(RatioTokenCounter(0, 1, 1), messages);
    WeightedIs(messages, 1);
  }

  // ---------------------------------------------------------------- reading the ratio

  function Pow10(k: nat): (p: nat)
    ensures p >= 1
  {
    if k == 0 then 1 else 10 * Pow10(k - 1)
  }

  /** Where a character first occurs, the length when it does not. */
  function Find(text: string, c: char): (k: nat)
    ensures k <= |text| && c !in text[..k]
    ensures k < |text| ==> text[k] == c
  {
    if text == [] || text[0] == c then 0
    else
      var k := Find(text[1..], c);
      assert text[..1 + k] == [text[0]] + text[1..][..k];
      1 + k
  }

  /** `str::parse::<u64>`: digits, with one leading plus sign allowed. */
  function ParseU64(s: string): Option<nat> {
    var digits := if |s| > 1 && s[0] == '+' then s[1..] else s;
    if digits == [] || !Duration.AllDigits(digits) || Duration.Decimal(digits) > U64_MAX then None
    else Some(Duration.Decimal(digits))
  }

  /** A number is read from digits, after a plus sign or without one, as long as it fits. */
  lemma ParseU64Iff(s: string, n: nat)
    ensures ParseU64(s) == Some(n) <==>
      n <= U64_MAX && exists digits :: digits != "" && Duration.AllDigits(digits) && Duration.Decimal(digits) == n
                                       && (s == digits || s == "+" + digits)
  {
    if exists digits :: digits != "" && Duration.AllDigits(digits) && Duration.Decimal(digits) == n
                        && (s == digits || s == "+" + digits)
    {
      var digits :| digits != "" && Duration.AllDigits(digits) && Duration.Decimal(digits) == n
                    && (s == digits || s == "+" + digits);
      assert Duration.IsDigit(digits[0]);
      if s == "+" + digits {
        assert s[1..] == digits;
      }
    }
    if |s| > 1 && s[0] == '+' {
      assert s == "+" + s[1..];
    }
  }

  /** The numerator and denominator of a decimal rendering, when both fit a u64. */
  function DecimalRatio(text: string): Option<(nat, nat)> {
    var dot := Find(text, '.');
    RatioOf(text[..dot], if dot < |text| then text[dot + 1..] else "")
  }

  /** The same of its whole part and its fraction. */
  function RatioOf(whole: string, fraction: string): Option<(nat, nat)> {
    var w := if whole == "" then Some(0) else ParseU64(whole);
    if w.None? then None
    else if fraction == "" then Some((w.value, 1))
    else if Pow10(|fraction|) > U64_MAX then None
    else
      match ParseU64(fraction)
      case None => None
      case Some(f) =>
        match CheckedScale(w.value, Pow10(|fraction|), f)
        case None => None
        case Some(num) => Some((num, Pow10(|fraction|)))
  }

  function CheckedScale(whole: nat, den: nat, fraction: nat): Option<nat> {
    if whole * den > U64_MAX || whole * den + fraction > U64_MAX then None else Some(whole * den + fraction)
  }

  lemma {:induction false} FindIs(text: string, c: char, k: nat)
    requires k <= |text| && c !in text[..k] && (k < |text| ==> text[k] == c)
    ensures Find(text, c) == k
  {
    if k > 0 {
      assert text[..k][0] == text[0];
      assert text[1..][..k - 1] == text[..k][1..];
      FindIs(text[1..], c, k - 1);
    }
  }

  lemma Shift(w: nat, p: nat, f: nat, d: nat)
    ensures (w * p + f) * 10 + d == w * (10 * p) + (f * 10 + d)
  {
    assert w * (10 * p) == w * p * 10;
  }

  lemma {:induction false} DecimalConcat(whole: string, fraction: string)
    requires Duration.AllDigits(whole) && Duration.AllDigits(fraction)
    ensures Duration.AllDigits(whole + fraction)
    ensures Duration.Decimal(whole + fraction)
         == Duration.Decimal(whole) * Pow10(|fraction|) + Duration.Decimal(fraction)
    ensures Duration.Decimal(fraction) < Pow10(|fraction|)
    decreases |fraction|
  {
    if fraction == "" {
      assert whole + fraction == whole;
    } else {
      var n := |fraction| - 1;
      var init := fraction[..n];
      DecimalConcat(whole, init);
      assert (whole + fraction)[..|whole| + n] == whole + init;
      Shift(Duration.Decimal(whole), Pow10(n), Duration.Decimal(init), fraction[n] as int - '0' as int);
    }
  }

  lemma {:induction false} Pow10Grows(a: nat, b: nat)
    requires a <= b
    ensures Pow10(a) <= Pow10(b)
    decreases b
  {
    if a < b {
      Pow10Grows(a, b - 1);
    }
  }

  lemma Pow10Fits(k: nat)
    ensures Pow10(k) <= U64_MAX <==> k <= 19
  {
    assert Pow10(5) == 100_000;
    assert Pow10(10) == 10_000_000_000;
    assert Pow10(15) == 1_000_000_000_000_000;
    assert Pow10(19) == 10_000_000_000_000_000_000;
    if k <= 19 {
      Pow10Grows(k, 19);
    } else {
      assert Pow10(20) == 100_000_000_000_000_000_000;
      Pow10Grows(20, k);
    }
  }

  /**
   The ratio read is exactly the decimal written: all its digits as one number over the power of
   ten of its fraction. Reading fails only when one of the two does not fit.
   */
  lemma DecimalRatioIsExact(whole: string, fraction: string)
    requires Duration.AllDigits(whole) && Duration.AllDigits(fraction)
    ensures Duration.AllDigits(whole + fraction)
    ensures DecimalRatio(whole + "." + fraction) ==
      if Duration.Decimal(whole + fraction) <= U64_MAX && |fraction| <= 19
      then Some((Duration.Decimal(whole + fraction), Pow10(|fraction|))) else None
    ensures DecimalRatio(whole) ==
      if Duration.Decimal(whole) <= U64_MAX then Some((Duration.Decimal(whole), 1)) else None
  {
    WholeRatio(whole);
    AtThePoint(whole, fraction);
    DottedRatio(whole, fraction);
  }

  lemma AtThePoint(whole: string, fraction: string)
    requires Duration.AllDigits(whole)
    ensures DecimalRatio(whole + "." + fraction) == RatioOf(whole, fraction)
  {
    var text := whole + "." + fraction;
    assert text[..|whole|] == whole && text[|whole| + 1..] == fraction;
    FindIs(text, '.', |whole|);
  }

  lemma DottedRatio(whole: string, fraction: string)
    requires Duration.AllDigits(whole) && Duration.AllDigits(fraction)
    ensures Duration.AllDigits(whole + fraction)
    ensures RatioOf(whole, fraction) ==
      if Duration.Decimal(whole + fraction) <= U64_MAX && |fraction| <= 19
      then Some((Duration.Decimal(whole + fraction), Pow10(|fraction|))) else None
  {
    DecimalConcat(whole, fraction);
    Pow10Fits(|fraction|);
    assert whole + "" == whole;
    ParseDigits(whole);
    ParseDigits(fraction);
    Fits(Duration.Decimal(whole), Pow10(|fraction|), Duration.Decimal(fraction));
  }

  lemma WholeRatio(whole: string)
    requires Duration.AllDigits(whole)
    ensures DecimalRatio(whole) ==
      if Duration.Decimal(whole) <= U64_MAX then Some((Duration.Decimal(whole), 1)) else None
  {
    assert whole[..|whole|] == whole;
    FindIs(whole, '.', |whole|);
    ParseDigits(whole);
  }

  lemma ParseDigits(s: string)
    requires Duration.AllDigits(s)
    ensures s != "" ==> ParseU64(s) == if Duration.Decimal(s) <= U64_MAX then Some(Duration.Decimal(s)) else None
  {
  }

  lemma Fits(whole: nat, den: nat, fraction: nat)
    requires fraction < den
    ensures CheckedScale(whole, den, fraction) ==
      if whole * den + fraction <= U64_MAX then Some(whole * den + fraction) else None
    ensures whole * den + fraction <= U64_MAX ==> whole <= U64_MAX
    ensures den <= U64_MAX ==> fraction <= U64_MAX
  {
    MulMono(1, den, whole);
  }
}

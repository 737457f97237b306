/** The duration strings of the budget manifest (`parse_duration` in src/budget.rs). */
module Duration {
  import opened Common

  /** One number-and-unit pair as it is written. */
  datatype Pair = Pair(digits: string, unit: char)

  /** The source's failure messages, by the shape each one asks for. */
  datatype DurationError = NumberFirst | UnknownUnit | NumberTooLarge | TotalTooLarge | NotPairs

  predicate IsDigit(c: char) {
    '0' <= c <= '9'
  }

  predicate AllDigits(s: string) {
    forall i :: 0 <= i < |s| ==> IsDigit(s[i])
  }

  function Seconds(unit: char): Option<nat> {
    match unit
    case 's' => Some(1)
    case 'm' => Some(60)
    case 'h' => Some(3600)
    case _ => None
  }

  /** The unbounded decimal value of a digit string. */
  function Decimal(digits: string): nat
    requires AllDigits(digits)
  {
    if digits == [] then 0
    else Decimal(digits[..|digits| - 1]) * 10 + (digits[|digits| - 1] as int - '0' as int)
  }

  predicate ValidPair(p: Pair) {
    p.digits != [] && AllDigits(p.digits) && Seconds(p.unit).Some?
  }

  predicate ValidPairs(pairs: seq<Pair>) {
    forall i :: 0 <= i < |pairs| ==> ValidPair(pairs[i])
  }

  function Render(pairs: seq<Pair>): string {
    if pairs == [] then [] else pairs[0].digits + [pairs[0].unit] + Render(pairs[1..])
  }

  function PairSeconds(p: Pair): nat
    requires ValidPair(p)
  {
    Decimal(p.digits) * Seconds(p.unit).value
  }

  /** The total in seconds over unbounded integers. */
  function Total(pairs: seq<Pair>): nat
    requires ValidPairs(pairs)
  {
    if pairs == [] then 0 else PairSeconds(pairs[0]) + Total(pairs[1..])
  }

  /** The text is a nonempty run of pairs that adds up to `n` seconds. */
  ghost predicate Denotes(text: string, n: nat) {
    exists pairs :: pairs != [] && ValidPairs(pairs) && Render(pairs) == text && Total(pairs) == n
  }

  /** The length of the longest prefix of digits, and of the longest prefix without one. */
  function DigitRun(s: string): (k: nat)
    ensures k <= |s| && AllDigits(s[..k])
    ensures k < |s| ==> !IsDigit(s[k])
  {
    if s == [] || !IsDigit(s[0]) then 0 else 1 + DigitRun(s[1..])
  }

  function UnitRun(s: string): (k: nat)
    ensures k <= |s| && forall i :: 0 <= i < k ==> !IsDigit(s[i])
    ensures k < |s| ==> IsDigit(s[k])
  {
    if s == [] || IsDigit(s[0]) then 0 else 1 + UnitRun(s[1..])
  }

  // ---------------------------------------------------------------- the grammar is unambiguous

  lemma {:induction false} RenderAppend(a: seq<Pair>, b: seq<Pair>)
    requires ValidPairs(a) && ValidPairs(b)
    ensures ValidPairs(a + b)
    ensures Render(a + b) == Render(a) + Render(b)
    ensures Total(a + b) == Total(a) + Total(b)
  {
    if a == [] {
      assert a + b == b;
    } else {
      assert (a + b)[1..] == a[1..] + b;
      RenderAppend(a[1..], b);
    }
  }

  lemma {:induction false} DigitRunIs(s: string, k: nat)
    requires k <= |s| && AllDigits(s[..k]) && (k < |s| ==> !IsDigit(s[k]))
    ensures DigitRun(s) == k
  {
    if k > 0 {
      assert s[0] == s[..k][0];
      assert s[1..][..k - 1] == s[..k][1..];
      DigitRunIs(s[1..], k - 1);
    }
  }

  lemma Associative(a: string, b: string, c: string)
    ensures (a + b) + c == a + (b + c)
  {
  }

  lemma HeadOf(digits: string, unit: char, more: string)
    requires AllDigits(digits) && !IsDigit(unit)
    ensures var text := digits + [unit] + more;
      DigitRun(text) == |digits| && text[..|digits|] == digits && text[|digits|] == unit && text[|digits| + 1..] == more
  {
    var text := digits + [unit] + more;
    assert text[..|digits|] == digits && text[|digits| + 1..] == more;
    DigitRunIs(text, |digits|);
  }

  /** The first pair of a rendering is what the parser's two runs cut off. */
  lemma RenderHead(pairs: seq<Pair>, rest: string)
    requires pairs != [] && ValidPairs(pairs)
    ensures var text := Render(pairs) + rest; var p := pairs[0];
      && DigitRun(text) == |p.digits| < |text|
      && text[..|p.digits|] == p.digits && text[|p.digits|] == p.unit
      && text[|p.digits| + 1..] == Render(pairs[1..]) + rest
  {
    var text, p := Render(pairs) + rest, pairs[0];
    HeadOf(p.digits, p.unit, Render(pairs[1..]) + rest);
    Associative(p.digits + [p.unit], Render(pairs[1..]), rest);
    assert ValidPair(p);
  }

  lemma RenderUnit(pairs: seq<Pair>)
    requires pairs != [] && ValidPairs(pairs)
    ensures UnitRun(Render(pairs)[|pairs[0].digits|..]) == 1
  {
    var p := pairs[0];
    var tail := [p.unit] + Render(pairs[1..]);
    assert Render(pairs)[|p.digits|..] == tail;
    assert ValidPair(p) && !IsDigit(tail[0]);
    assert tail[1..] == Render(pairs[1..]);
    if pairs[1..] != [] {
      assert ValidPair(pairs[1]) && IsDigit(pairs[1].digits[0]);
      assert Render(pairs[1..])[0] == pairs[1].digits[0];
    }
  }

  /** A text that starts with the rendering of `done` has no other reading of that part. */
  lemma {:induction false} RenderCancel(done: seq<Pair>, rest: string, pairs: seq<Pair>)
    requires ValidPairs(done) && ValidPairs(pairs) && Render(pairs) == Render(done) + rest
    ensures |done| <= |pairs| && pairs[..|done|] == done && Render(pairs[|done|..]) == rest
  {
    if done == [] {
      assert Render(done) + rest == rest;
    } else {
      RenderHead(done, rest);
      RenderHead(pairs, "");
      assert Render(pairs) + "" == Render(pairs) && Render(pairs[1..]) + "" == Render(pairs[1..]);
      assert pairs[0] == done[0];
      RenderCancel(done[1..], rest, pairs[1..]);
      assert done == [done[0]] + done[1..] && pairs == [pairs[0]] + pairs[1..];
      assert pairs[|done|..] == pairs[1..][|done| - 1..];
    }
  }

  /** A duration string means one number of seconds. */
  lemma DenotesOne(text: string, n: nat, m: nat)
    requires Denotes(text, n) && Denotes(text, m)
    ensures n == m
  {
    var a :| a != [] && ValidPairs(a) && Render(a) == text && Total(a) == n;
    var b :| b != [] && ValidPairs(b) && Render(b) == text && Total(b) == m;
    assert Render(a) == Render(b) + "" && Render(b) == Render(a) + "";
    RenderCancel(a, "", b);
    RenderCancel(b, "", a);
    assert a == b;
  }

  lemma PairDenotes(p: Pair)
    requires ValidPair(p)
    ensures Denotes(p.digits + [p.unit], PairSeconds(p))
  {
    var one := [p];
    assert ValidPairs(one) && one[1..] == [];
    assert Render(one) == p.digits + [p.unit] + Render([]);
    assert Total(one) == PairSeconds(p) + Total([]);
  }

  lemma FirstPairIs(pairs: seq<Pair>, p: Pair)
    requires pairs != [] && ValidPairs(pairs) && Render(pairs) == p.digits + [p.unit]
    requires AllDigits(p.digits) && !IsDigit(p.unit)
    ensures pairs[0] == p
  {
    RenderHead(pairs, []);
    HeadOf(p.digits, p.unit, []);
    assert Render(pairs) + [] == p.digits + [p.unit] + [];
  }

  /** What one pair stands for: its number of seconds, of sixty seconds, or of sixty times sixty. */
  lemma OnePair(digits: string, unit: char, n: nat)
    requires digits != [] && AllDigits(digits) && !IsDigit(unit)
    ensures Denotes(digits + [unit], n) <==>
      || (unit == 's' && n == Decimal(digits))
      || (unit == 'm' && n == 60 * Decimal(digits))
      || (unit == 'h' && n == 60 * 60 * Decimal(digits))
  {
    var p := Pair(digits, unit);
    if ValidPair(p) {
      PairDenotes(p);
      if Denotes(digits + [unit], n) {
        DenotesOne(digits + [unit], n, PairSeconds(p));
      }
    } else if Denotes(digits + [unit], n) {
      var pairs :| pairs != [] && ValidPairs(pairs) && Render(pairs) == digits + [unit] && Total(pairs) == n;
      FirstPairIs(pairs, p);
    }
  }

  /** The number: no digit is nothing, and a further digit makes what came before it ten times as much. */
  lemma DecimalDigit(digits: string, d: char)
    requires AllDigits(digits) && IsDigit(d)
    ensures AllDigits(digits + [d]) && Decimal(digits + [d]) == 10 * Decimal(digits) + (d - '0') as int
    ensures Decimal([]) == 0
  {
    assert (digits + [d])[..|digits|] == digits;
  }


  /** Concatenating two duration strings adds their meanings. */
  lemma DenotesConcat(a: string, b: string, n: nat, m: nat)
    requires Denotes(a, n) && Denotes(b, m)
    ensures Denotes(a + b, n + m)
  {
    var pa :| pa != [] && ValidPairs(pa) && Render(pa) == a && Total(pa) == n;
    var pb :| pb != [] && ValidPairs(pb) && Render(pb) == b && Total(pb) == m;
    RenderAppend(pa, pb);
    assert pa + pb != [];
  }

  // ---------------------------------------------------------------- the parser

  /** What is read so far can only be completed by reading the rest. */
  ghost predicate Reads(text: string, done: seq<Pair>, rest: string) {
    ValidPairs(done) && text == Render(done) + rest
  }

  /** If the text has a reading at all, what is left starts with a pair. */
  lemma ReadingGoesOn(text: string, done: seq<Pair>, rest: string, pairs: seq<Pair>)
    requires Reads(text, done, rest) && rest != []
    requires ValidPairs(pairs) && Render(pairs) == text
    ensures var d := DigitRun(rest);
      0 < d < |rest| && UnitRun(rest[d..]) == 1 && Seconds(rest[d]).Some?
  {
    RenderCancel(done, rest, pairs);
    var more := pairs[|done|..];
    RenderHead(more, "");
    RenderUnit(more);
    assert Render(more) + "" == rest;
    assert ValidPair(more[0]);
  }

  lemma NoReading(text: string, done: seq<Pair>, rest: string)
    requires Reads(text, done, rest) && rest != []
    requires var d := DigitRun(rest);
      d == 0 || d == |rest| || UnitRun(rest[d..]) != 1 || Seconds(rest[d]) == None
    ensures forall n: nat :: !Denotes(text, n)
  {
    forall n: nat
      ensures !Denotes(text, n)
    {
      if Denotes(text, n) {
        var pairs :| pairs != [] && ValidPairs(pairs) && Render(pairs) == text && Total(pairs) == n;
        ReadingGoesOn(text, done, rest, pairs);
      }
    }
  }

  lemma DenotesNonEmpty(text: string, n: nat)
    requires Denotes(text, n)
    ensures text != []
  {
    var pairs :| pairs != [] && ValidPairs(pairs) && Render(pairs) == text && Total(pairs) == n;
    assert ValidPair(pairs[0]);
  }

  lemma OverflowingReading(text: string, done: seq<Pair>, rest: string, p: Pair, next: string)
    requires Reads(text, done, rest) && ValidPair(p) && rest == p.digits + [p.unit] + next
    requires Total(done) + PairSeconds(p) > U64_MAX
    ensures forall n: nat :: Denotes(text, n) ==> n > U64_MAX
  {
    forall n: nat | Denotes(text, n)
      ensures n > U64_MAX
    {
      var pairs :| pairs != [] && ValidPairs(pairs) && Render(pairs) == text && Total(pairs) == n;
      ReadsPair(text, done, rest, p, next);
      RenderCancel(done + [p], next, pairs);
      RenderAppend(done, [p]);
      RenderAppend(done + [p], pairs[|done| + 1..]);
      assert pairs == (done + [p]) + pairs[|done| + 1..];
      assert Total([p]) == PairSeconds(p);
    }
  }

  lemma ReadsPair(text: string, done: seq<Pair>, rest: string, p: Pair, next: string)
    requires Reads(text, done, rest) && ValidPair(p) && rest == p.digits + [p.unit] + next
    ensures Reads(text, done + [p], next) && Total(done + [p]) == Total(done) + PairSeconds(p)
  {
    RenderAppend(done, [p]);
    assert Render([p]) == p.digits + [p.unit] + Render([p][1..]);
    assert Render([p]) == p.digits + [p.unit];
    assert Total([p]) == PairSeconds(p) + Total([p][1..]);
    assert text == Render(done) + (Render([p]) + next) == (Render(done) + Render([p])) + next;
  }

  /**
   Accepts exactly the duration strings whose unbounded total fits a u64, and returns that
   total: the step-wise overflow checks refuse no sum that fits, and a duration string that does
   not fit is never called malformed. The source's arm for an empty
   unit is not here because the unit starts at a character that is not a digit.
   */
  method ParseDuration(text: string) returns (r: Result<nat, DurationError>)
    ensures r.Ok? ==> Denotes(text, r.value) && r.value <= U64_MAX
    ensures r.Err? ==> forall n: nat :: Denotes(text, n) ==> n > U64_MAX
    ensures r.Err? && r.error != NumberTooLarge && r.error != TotalTooLarge ==> forall n: nat :: !Denotes(text, n)
  {
    var rest := text;
    var seconds: nat := 0;
    var sawAny := false;
    ghost var done: seq<Pair> := [];
    while DigitRun(rest) < |rest|
      invariant Reads(text, done, rest)
      invariant seconds == Total(done) <= U64_MAX
      invariant sawAny <==> done != []
      decreases |rest|
    {
      var digitEnd := DigitRun(rest);
      var digits, tail := rest[..digitEnd], rest[digitEnd..];
      if digits == [] {
        NoReading(text, done, rest);
        return Err(NumberFirst);
      }
      var unitEnd := UnitRun(tail);
      var unit, next := tail[..unitEnd], tail[unitEnd..];
      if |unit| != 1 || Seconds(unit[0]).None? {
        NoReading(text, done, rest);
        return Err(UnknownUnit);
      }
      var multiplier := Seconds(unit[0]).value;
      ghost var p := Pair(digits, unit[0]);
      assert rest == p.digits + [p.unit] + next;
      var count := Decimal(digits);
      if count > U64_MAX {
        assert PairSeconds(p) >= count;
        OverflowingReading(text, done, rest, p, next);
        return Err(NumberTooLarge);
      }
      if count * multiplier > U64_MAX || seconds + count * multiplier > U64_MAX {
        OverflowingReading(text, done, rest, p, next);
        return Err(TotalTooLarge);
      }
      ReadsPair(text, done, rest, p, next);
      seconds := seconds + count * multiplier;
      sawAny := true;
      done := done + [p];
      rest := next;
    }
    if rest != [] || !sawAny {
      if rest != [] {
        NoReading(text, done, rest);
      } else {
        assert text == [];
        forall n: nat
          ensures !Denotes(text, n)
        {
          if Denotes(text, n) {
            DenotesNonEmpty(text, n);
          }
        }
      }
      return Err(NotPairs);
    }
    assert text == Render(done);
    return Ok(seconds);
  }
}

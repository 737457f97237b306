/** Values and machine arithmetic shared by every component model. */
module Common {

  datatype Option<+T> = None | Some(value: T)

  datatype Result<+T, +E> = Ok(value: T) | Err(error: E)

  const U64_MAX: nat := 0xFFFF_FFFF_FFFF_FFFF
  const USIZE_MAX: nat := U64_MAX
  const U128_MAX: nat := 0xFFFF_FFFF_FFFF_FFFF_FFFF_FFFF_FFFF_FFFF

  function Min(a: int, b: int): int {
    if a <= b then a else b
  }

  function Max(a: int, b: int): int {
    if a <= b then b else a
  }

  /** The saturating sum and product of a machine integer whose largest value is `top`. */
  function SatAdd(top: nat, a: nat, b: nat): nat {
    Min(a + b, top)
  }

  function SatMul(top: nat, a: nat, b: nat): nat {
    Min(a * b, top)
  }

  function SatSub(a: nat, b: nat): nat {
    if a <= b then 0 else a - b
  }

  /** `u64::try_from(n).unwrap_or(u64::MAX)`. */
  function ClampU64(n: nat): nat {
    Min(n, U64_MAX)
  }

  /** The characters `str::trim` removes: those with the Unicode White_Space property. */
  predicate IsWhitespace(c: char) {
    || '\U{9}' <= c <= '\U{d}' || c == ' ' || c == '\U{85}' || c == '\U{a0}' || c == '\U{1680}'
    || '\U{2000}' <= c <= '\U{200a}' || c == '\U{2028}' || c == '\U{2029}' || c == '\U{202f}' || c == '\U{205f}'
    || c == '\U{3000}'
  }

  /** The twenty-five characters of the property, one by one. */
  lemma WhitespaceIs(c: char)
    ensures IsWhitespace(c) <==>
      c in ['\U{9}', '\U{a}', '\U{b}', '\U{c}', '\U{d}', '\U{20}', '\U{85}', '\U{a0}', '\U{1680}', '\U{2000}',
            '\U{2001}', '\U{2002}', '\U{2003}', '\U{2004}', '\U{2005}', '\U{2006}', '\U{2007}', '\U{2008}',
            '\U{2009}', '\U{200a}', '\U{2028}', '\U{2029}', '\U{202f}', '\U{205f}', '\U{3000}']
  {
  }

  /** Trimming takes whitespace off both ends, all there is and nothing else. */
  lemma {:induction false} TrimIs(s: string) returns (front: string, back: string)
    ensures s == front + Trim(s) + back
    ensures forall c :: c in front || c in back ==> IsWhitespace(c)
    ensures Trim(s) != "" ==> !IsWhitespace(Trim(s)[0]) && !IsWhitespace(Trim(s)[|Trim(s)| - 1])
    decreases |s|
  {
    if s == [] {
      front, back := [], [];
    } else if IsWhitespace(s[0]) {
      front, back := TrimIs(s[1..]);
      assert s == [s[0]] + s[1..];
      front := [s[0]] + front;
    } else if IsWhitespace(s[|s| - 1]) {
      var n := |s| - 1;
      front, back := TrimIs(s[..n]);
      assert s == s[..n] + [s[n]];
      back := back + [s[n]];
    } else {
      front, back := [], [];
    }
  }

  function Trim(s: string): (t: string)
    ensures t == [] || (!IsWhitespace(t[0]) && !IsWhitespace(t[|t| - 1]))
  {
    if s == [] then []
    else if IsWhitespace(s[0]) then Trim(s[1..])
    else if IsWhitespace(s[|s| - 1]) then Trim(s[..|s| - 1])
    else s
  }
}

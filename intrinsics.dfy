/** The machine's own intrinsics that need neither the world nor the
    kernel: the constant `true` and `false`, and the conversion of a signed
    16-bit number to a new string. */
module Intrinsics {
  import opened Words
  import opened Wrappers
  import opened Heap

  /** How the dispatcher reads a 16-bit value as a condition (0x51 jumps on
      0, 0x30 pushes 1 for 0): any nonzero value is true. */
  predicate Truthy(v: u32)
  {
    v % 0x10000 != 0
  }

  /** I_true. */
  function ITrue(args: seq<u8>): (r: u32)
    ensures Truthy(r)
  {
    1
  }

  /** I_false as written: it returns 1, the same value as I_true. */
  function IFalseAsWritten(args: seq<u8>): (r: u32)
    ensures Truthy(r)
  {
    1
  }

  /** I_false as its name promises: a value every condition reads as false. */
  function IFalse(args: seq<u8>): (r: u32)
    ensures !Truthy(r)
  {
    0
  }

  /** I_false as written cannot be told apart from I_true, for any
      arguments; the corrected one is its negation. */
  lemma FalseIsTrue(args: seq<u8>)
    ensures IFalseAsWritten(args) == ITrue(args)
    ensures Truthy(ITrue(args)) && !Truthy(IFalse(args))
  {
  }

  const ZERO_CHAR: u8 := 0x30
  const MINUS_CHAR: u8 := 0x2D

  predicate IsDigit(c: u8)
  {
    ZERO_CHAR <= c < ZERO_CHAR + 10
  }

  /** The decimal digits of n, most significant first, with no leading
      zeros. */
  function Digits(n: nat): (r: seq<u8>)
    ensures |r| >= 1 && forall i :: 0 <= i < |r| ==> IsDigit(r[i])
    ensures |r| > 1 ==> r[0] != ZERO_CHAR
    decreases n
  {
    if n < 10 then [ZERO_CHAR + n] else Digits(n / 10) + [ZERO_CHAR + n % 10]
  }

  /** The text printf's "%d" gives for i. */
  function DecimalText(i: int): (r: seq<u8>)
    ensures 0 !in r
  {
    if i < 0 then [MINUS_CHAR] + Digits(-i) else Digits(i)
  }

  /** The number a sequence of decimal digits spells. */
  function DigitsValue(d: seq<u8>): nat
    requires forall i :: 0 <= i < |d| ==> IsDigit(d[i])
  {
    if d == [] then 0
    else
      assert IsDigit(d[|d| - 1]);
      10 * DigitsValue(d[..|d| - 1]) + (d[|d| - 1] as int - ZERO_CHAR as int)
  }

  /** Reading a decimal text back: an optional minus sign, then one or more
      digits. */
  function ParseDecimal(t: seq<u8>): Option<int>
  {
    if t != [] && t[0] == MINUS_CHAR then
      if |t| > 1 && forall i :: 1 <= i < |t| ==> IsDigit(t[i]) then Some(0 - DigitsValue(t[1..]) as int)
      else None
    else if t != [] && forall i :: 0 <= i < |t| ==> IsDigit(t[i]) then Some(DigitsValue(t))
    else None
  }

  lemma {:induction false} DigitsRoundTrip(n: nat)
    ensures DigitsValue(Digits(n)) == n
    decreases n
  {
    if n >= 10 {
      DigitsRoundTrip(n / 10);
      var d := Digits(n);
      assert d[..|d| - 1] == Digits(n / 10);
    }
  }

  /** Below 10^k a number has at most k digits. */
  lemma {:induction false} DigitsLength(n: nat, k: nat, bound: nat)
    requires k >= 1 && bound == Power10(k) && n < bound
    ensures |Digits(n)| <= k
    decreases k
  {
    if n >= 10 {
      DigitsLength(n / 10, k - 1, Power10(k - 1));
    }
  }

  function Power10(k: nat): (r: nat)
    ensures r >= 1
  {
    if k == 0 then 1 else 10 * Power10(k - 1)
  }

  /** The decimal text of every integer reads back as that integer. */
  lemma DecimalRoundTrip(i: int)
    ensures ParseDecimal(DecimalText(i)) == Some(i)
  {
    if i < 0 {
      DigitsRoundTrip(-i);
      assert DecimalText(i)[1..] == Digits(-i);
    } else {
      DigitsRoundTrip(i);
    }
  }

  /** I_numToStr: the first argument as a signed 16-bit number, printed in
      decimal into a new string (0 when no handle is left). The text is at
      most six characters, so the 16-byte buffer never truncates it. */
  function NumToStr(h: Heaps, args: seq<u8>): (r: (Heaps, u16))
    requires |args| >= 2
    ensures r.1 != 0 ==> GetString(r.0, r.1) == DecimalText(S16(FromLE16(args[..2])))
    ensures r.1 != 0 ==> ParseDecimal(GetString(r.0, r.1)) == Some(S16(FromLE16(args[..2])))
    ensures r.1 != 0 ==> |GetString(r.0, r.1)| <= 6
    ensures r.1 == 0 ==> r.0 == h
    ensures r.0.lists == h.lists && r.0.listIds == h.listIds
  {
    var num := S16(FromLE16(args[..2]));
    var text := DecimalText(num);
    CStrOfPlainText(text);
    DecimalRoundTrip(num);
    DigitsLength(if num < 0 then -num else num, 5, 100000);
    AssignString(h, text)
  }
}

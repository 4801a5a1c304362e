/** Shared vocabulary of the pipeline: optional values (the C++ code's
 *  nullable `shared_ptr`s), failures (its exceptions, and the native
 *  undefined behaviour that this model turns into explicit errors),
 *  the 32-bit `int` arithmetic every stage performs, and decimal text
 *  (`std::to_string` and `std::stoi`). */
module Base {

  /** A possibly-null child pointer, or any optional value. */
  datatype Option<T> = None | Some(value: T)

  /** Every way a stage of the pipeline can fail.  The first group are the
   *  exceptions the C++ code throws; the second group stand for native
   *  undefined behaviour (signed overflow, division by zero, popping an
   *  empty vector) and for running out of the fuel that bounds loops. */
  datatype Error =
    | UnexpectedCharacterInFactor        // parser: "Unexpected character in factor"
    | ExpectedIdentifier                 // parser: "Expected identifier"
    | Expected(c: char)                  // parser: "Expected '<c>'"
    | FoldDivisionByZero                 // optimizer: "Division by zero in constant folding"
    | UnknownNode                        // interpreter: "Unknown AST node"
    | UndefinedVariable(name: string)    // interpreter: "Undefined variable: <name>"
    | UnknownOperator(op: string)        // interpreter: "Unknown binary operator: <op>"
    | TypeMismatch                       // std::get on the wrong alternative of a Value
    | BadPushArgument(arg: string)       // std::stoi rejecting a PUSH argument
    | LiteralOverflow                    // an integer literal that does not fit in an int
    | Overflow                           // signed overflow of + - * /
    | DivisionByZero                     // run-time division by zero
    | StackUnderflow                     // the VM pops an empty operand stack
    | OutOfFuel                          // the bound on loop iterations or VM steps is used up

  /** A value or the failure that replaced it; usable with `:-`. */
  datatype Result<T> = Ok(value: T) | Err(error: Error) {
    predicate IsFailure() { Err? }

    function PropagateFailure<U>(): Result<U>
      requires Err?
    {
      Err(error)
    }

    function Extract(): T
      requires Ok?
    {
      value
    }
  }

  /** The outcome of a step that yields nothing (a C++ `void` function that
   *  may throw); usable with `:-` inside a function or method returning a
   *  Result. */
  datatype Status = Pass | Fail(error: Error) {
    predicate IsFailure() { Fail? }

    function PropagateFailure<U>(): Result<U>
      requires Fail?
    {
      Err(error)
    }
  }
}

/** The C++ `int` of the source: 32 bits, two's complement, with `/`
 *  truncating toward zero.  Overflow and division by zero are undefined in
 *  C++; here they are the errors Overflow and DivisionByZero. */
module MachineInt {
  import opened Base

  const IntMin: int := -0x8000_0000
  const IntMax: int := 0x7fff_ffff

  newtype int32 = x: int | -0x8000_0000 <= x < 0x8000_0000

  predicate InRange(x: int) {
    IntMin <= x <= IntMax
  }

  function Abs(x: int): nat {
    if x < 0 then -x else x
  }

  /** Division that truncates toward zero, as C++ `/` does: the remainder
   *  `a - q * b` is smaller than the divisor in magnitude and, when it is not
   *  zero, has the sign of the dividend. */
  function TDiv(a: int, b: int): (q: int)
    requires b != 0
    ensures Abs(a - q * b) < Abs(b)
    ensures a - q * b == 0 || (a - q * b < 0 <==> a < 0)
  {
    var m := Abs(a) / Abs(b);
    var q := if (a < 0) == (b < 0) then m else -m;
    TruncatedRemainder(a, b, q);
    q
  }

  /** The remainder left by the truncated quotient is the remainder of the
   *  magnitudes, carrying the dividend's sign. */
  lemma TruncatedRemainder(a: int, b: int, q: int)
    requires b != 0
    requires q == if (a < 0) == (b < 0) then Abs(a) / Abs(b) else -(Abs(a) / Abs(b))
    ensures a - q * b == if a < 0 then -(Abs(a) % Abs(b)) else Abs(a) % Abs(b)
  {
    var n, d := Abs(a), Abs(b);
    var m := n / d;
    assert n == m * d + n % d;
    if a < 0 && b < 0 {
      NegatedProduct(m, d);
      assert q * b == m * -(d as int);
    } else if a < 0 {
      NegatedProduct(m, d);
      assert q * b == -(m as int) * d;
    } else if b < 0 {
      NegatedProducts(m, d);
      assert q * b == -(m as int) * -(d as int);
    } else {
      assert q * b == m * d;
    }
  }

  lemma NegatedProduct(x: int, y: int)
    ensures x * -y == -(x * y) && -x * y == -(x * y)
  {
  }

  lemma NegatedProducts(x: int, y: int)
    ensures -x * -y == x * y
  {
  }

  /** The four arithmetic operators of the language. */
  datatype ArithOp = Add | Sub | Mul | Div

  /** The mathematical result of an arithmetic operator, before it is
   *  narrowed to 32 bits. */
  function Exact(o: ArithOp, a: int, b: int): int
    requires o == Div ==> b != 0
  {
    match o
    case Add => a + b
    case Sub => a - b
    case Mul => a * b
    case Div => TDiv(a, b)
  }

  /** `a o b` on C++ `int`s: it fails exactly on a zero divisor or on a
   *  mathematical result outside the 32-bit range, and otherwise yields
   *  that mathematical result. */
  function Apply(o: ArithOp, a: int32, b: int32): (r: Result<int32>)
    ensures r == Err(DivisionByZero) <==> o == Div && b == 0
    ensures r == Err(Overflow) <==> !(o == Div && b == 0) && !InRange(Exact(o, a as int, b as int))
    ensures r.Ok? ==> r.value as int == Exact(o, a as int, b as int)
  {
    if o == Div && b == 0 then Err(DivisionByZero)
    else
      var x := Exact(o, a as int, b as int);
      if InRange(x) then Ok(x as int32) else Err(Overflow)
  }
}

/** Decimal text of integers: `std::to_string` as the compiler uses it for
 *  PUSH arguments and label numbers, and its inverse. */
module Decimal {
  import opened Base

  predicate IsDigitChar(c: char) {
    '0' <= c <= '9'
  }

  predicate AllDigits(s: string) {
    forall i | 0 <= i < |s| :: IsDigitChar(s[i])
  }

  function DigitChar(d: nat): (c: char)
    requires d < 10
    ensures IsDigitChar(c)
  {
    ('0' as int + d) as char
  }

  function DigitValue(c: char): (d: nat)
    requires IsDigitChar(c)
    ensures d < 10
  {
    c as int - '0' as int
  }

  /** The shortest decimal numeral of a natural number (`std::to_string`). */
  function NatToString(n: nat): (s: string)
    ensures |s| > 0 && AllDigits(s)
    ensures |s| > 1 ==> s[0] != '0'
    decreases n
  {
    if n < 10 then [DigitChar(n)] else NatToString(n / 10) + [DigitChar(n % 10)]
  }

  /** `std::to_string` of an integer: a minus sign before the numeral of the
   *  magnitude when negative. */
  function IntToString(i: int): string {
    if i < 0 then "-" + NatToString(-i) else NatToString(i)
  }

  /** The value of a string of digits, most significant first. */
  function DigitsValue(s: string): nat
    requires AllDigits(s)
  {
    if |s| == 0 then 0 else DigitsValue(s[..|s| - 1]) * 10 + DigitValue(s[|s| - 1])
  }

  /** A strict decimal reader: an optional minus sign and at least one digit,
   *  nothing else. */
  function ParseDecimal(s: string): (r: Option<int>)
    ensures r.Some? ==> |s| > 0
  {
    if |s| > 1 && s[0] == '-' && AllDigits(s[1..]) then Some(-(DigitsValue(s[1..]) as int))
    else if |s| > 0 && AllDigits(s) then Some(DigitsValue(s))
    else None
  }

  /** Reading back the numeral of `n` gives `n`. */
  lemma {:induction false} NatToStringRoundTrip(n: nat)
    ensures DigitsValue(NatToString(n)) == n
    decreases n
  {
    var s := NatToString(n);
    if n >= 10 {
      NatToStringRoundTrip(n / 10);
      assert s[..|s| - 1] == NatToString(n / 10);
      assert DigitValue(s[|s| - 1]) == n % 10;
    }
  }

  /** Different naturals have different numerals. */
  lemma NatToStringInjective(a: nat, b: nat)
    requires NatToString(a) == NatToString(b)
    ensures a == b
  {
    NatToStringRoundTrip(a);
    NatToStringRoundTrip(b);
  }

  /** `to_string` followed by the reader is the identity on integers. */
  lemma IntToStringRoundTrip(i: int)
    ensures ParseDecimal(IntToString(i)) == Some(i)
  {
    var s := IntToString(i);
    if i < 0 {
      NatToStringRoundTrip(-i);
      assert s[1..] == NatToString(-i);
    } else {
      NatToStringRoundTrip(i);
      assert s[0] != '-';
    }
  }
}

/** The instruction set of ir.h: fifteen opcodes, each instruction carrying
 *  one string argument (a numeral for PUSH, a variable for LOAD and STORE,
 *  a label for LABEL, JZ and JMP, empty otherwise), and the program object
 *  the compiler appends to. */
module Ir {
  import opened Base
  import opened MachineInt
  import opened Decimal

  datatype OpCode =
    | PUSH | LOAD | STORE
    | ADD | SUB | MUL | DIV
    | GT | LT | EQ
    | JZ | JMP | LABEL | NOP | PRINT

  /** The opcodes that pop two operands and push one result. */
  predicate IsBinary(op: OpCode) {
    op in {ADD, SUB, MUL, DIV, GT, LT, EQ}
  }

  datatype IRInstr = IRInstr(op: OpCode, arg: string)

  /** An instruction without argument (the constructor's default ""). */
  function Plain(op: OpCode): IRInstr {
    IRInstr(op, "")
  }

  /** `IRProgram`: the instruction vector the compiler fills. */
  class IRProgram {
    var instructions: seq<IRInstr>

    constructor()
      ensures instructions == []
    {
      instructions := [];
    }
  }

  /** `toInt`, i.e. `std::stoi`: here a strict decimal reader, failing on
   *  text that is not a numeral of an `int`. */
  function ToInt(s: string): (r: Result<int32>)
    ensures r.Ok? <==> ParseDecimal(s).Some? && InRange(ParseDecimal(s).value)
    ensures r.Ok? ==> r.value as int == ParseDecimal(s).value
    ensures r.Err? ==> r.error == BadPushArgument(s)
  {
    match ParseDecimal(s)
    case None => Err(BadPushArgument(s))
    case Some(v) => if InRange(v) then Ok(v as int32) else Err(BadPushArgument(s))
  }

  /** The PUSH argument the compiler writes reads back as the literal. */
  lemma ToIntRoundTrip(v: int32)
    ensures ToInt(IntToString(v as int)) == Ok(v)
  {
    IntToStringRoundTrip(v as int);
  }
}

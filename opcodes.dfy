/**
 * The handlers an instruction can name, and the three opcode tables that
 * resolve a 6-bit opcode to a handler, one table per operand count.
 */
module Opcodes {
  import opened Wrappers

  /** The operation handlers. `Halt` has a body but is listed in no table. */
  datatype Handler = Nop | Ret | Call | Sjmp | Psh | Pop | Tst | Mov | Halt

  /**
   * Why decoding stopped. The C code terminates the process in both cases;
   * for an unknown opcode it first reports the opcode and its operand count.
   */
  datatype DecodeError =
    | InvalidSelector(selector: nat)
    | UnknownOpcode(arity: nat, opcode: nat)

  /** `noArgs`: the table of instructions without operand bytes. */
  function NoArgs(opcode: nat): (r: Result<Handler, DecodeError>)
    ensures r.Success? ==> Encoding(r.value) == Some((0, opcode))
    ensures r.Failure? ==> r.error == UnknownOpcode(0, opcode)
  {
    match opcode
    case 0 => Success(Nop)
    case 1 => Success(Ret)
    case 2 => Success(Call)
    case _ => Failure(UnknownOpcode(0, opcode))
  }

  /** `oneArg`: the table of instructions with one operand byte. */
  function OneArg(opcode: nat): (r: Result<Handler, DecodeError>)
    ensures r.Success? ==> Encoding(r.value) == Some((1, opcode))
    ensures r.Failure? ==> r.error == UnknownOpcode(1, opcode)
  {
    match opcode
    case 0 => Success(Sjmp)
    case 1 => Success(Psh)
    case 2 => Success(Pop)
    case _ => Failure(UnknownOpcode(1, opcode))
  }

  /** `twoArgs`: the table of instructions with two operand bytes. */
  function TwoArgs(opcode: nat): (r: Result<Handler, DecodeError>)
    ensures r.Success? ==> Encoding(r.value) == Some((2, opcode))
    ensures r.Failure? ==> r.error == UnknownOpcode(2, opcode)
  {
    match opcode
    case 0 => Success(Tst)
    case 1 => Success(Mov)
    case _ => Failure(UnknownOpcode(2, opcode))
  }

  /**
   * The decoder's second `switch`: look the opcode up in the table of its
   * operand count only. Any other count falls to the error exit.
   */
  function Resolve(arity: nat, opcode: nat): (r: Result<Handler, DecodeError>)
    ensures r.Failure? ==> r.error == (if arity <= 2 then UnknownOpcode(arity, opcode) else InvalidSelector(arity))
  {
    match arity
    case 0 => NoArgs(opcode)
    case 1 => OneArg(opcode)
    case 2 => TwoArgs(opcode)
    case _ => Failure(InvalidSelector(arity))
  }

  /** Where each handler sits in the tables: its operand count and opcode. */
  function Encoding(h: Handler): Option<(nat, nat)> {
    match h
    case Nop => Some((0, 0))
    case Ret => Some((0, 1))
    case Call => Some((0, 2))
    case Sjmp => Some((1, 0))
    case Psh => Some((1, 1))
    case Pop => Some((1, 2))
    case Tst => Some((2, 0))
    case Mov => Some((2, 1))
    case Halt => None
  }

  /** The tables and `Encoding` are inverse: a pair resolves to a handler exactly when that handler sits at that pair. */
  lemma ResolveEncoding(arity: nat, opcode: nat, h: Handler)
    ensures Resolve(arity, opcode) == Success(h) <==> Encoding(h) == Some((arity, opcode))
  {
  }

  /** Every handler that sits in a table is found there. */
  lemma EncodingResolves(h: Handler)
    requires Encoding(h).Some?
    ensures Encoding(h).value.0 <= 2 && Encoding(h).value.1 < 64
    ensures Resolve(Encoding(h).value.0, Encoding(h).value.1) == Success(h)
  {
  }

  /** `Halt` sits in no table, so no instruction decodes to it. */
  lemma HaltUnreachable(arity: nat, opcode: nat)
    ensures Resolve(arity, opcode) != Success(Halt)
  {
  }

  /** Exactly 3, 3 and 2 opcodes are defined for 0, 1 and 2 operand bytes. */
  lemma TableSizes(arity: nat, opcode: nat)
    ensures Resolve(arity, opcode).Success? <==> (arity <= 1 && opcode < 3) || (arity == 2 && opcode < 2)
  {
  }
}

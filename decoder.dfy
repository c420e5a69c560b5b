/**
 * The instruction decoder. An instruction is 1 to 3 bytes long: the top two
 * bits of its first byte (the length selector) give the number of operand
 * bytes that follow, the low six bits the opcode. With one operand byte the
 * operand word holds it in its low half; with two, the first is the high
 * half and the second the low half.
 *
 * As written, the decoder accepts only selectors 1 and 2: its first `switch`
 * has no case for selector 0, so a one-byte instruction reaches the error
 * exit although the format and the table of no-operand opcodes provide for
 * it. `DecodeSpec` and `Decode` model the code as written; `DecodeIntended`
 * is the decoder with the one-byte form accepted.
 */
module Decoder {
  import opened Wrappers
  import opened Operands
  import opened Opcodes

  /** The length selector of a first byte, `(b & 0xC0) >> 6`. */
  function Selector(b: Byte): nat {
    b / 64
  }

  /** The opcode of a first byte, `b & 0x3F`. */
  function OpcodeOf(b: Byte): nat {
    b % 64
  }

  /** A decoded instruction: the resolved handler and the operand word. */
  datatype PackedInstr = PackedInstr(handler: Handler, args: Word)

  /** A decoded instruction and the cursor position after it. */
  datatype Decoded = Decoded(instr: PackedInstr, next: nat)

  /**
   * The stream holds the first byte at the cursor and every operand byte its
   * selector announces; the C decoder reads them without a bounds check.
   */
  predicate Fits(code: seq<Byte>, cursor: nat) {
    cursor < |code| &&
    (Selector(code[cursor]) == 1 || Selector(code[cursor]) == 2 ==> cursor + Selector(code[cursor]) < |code|)
  }

  /** The instruction at `cursor`, as the decoder reads it. */
  function DecodeSpec(code: seq<Byte>, cursor: nat): (r: Result<Decoded, DecodeError>)
    requires Fits(code, cursor)
    ensures r.Success? ==>
      Encodable(r.value.instr) && cursor < r.value.next <= |code| &&
      code[cursor..r.value.next] == Encode(r.value.instr)
  {
    var first := code[cursor];
    var selector := Selector(first);
    if selector == 1 then
      var h :- Resolve(1, OpcodeOf(first));
      Success(Decoded(PackedInstr(h, code[cursor + 1]), cursor + 2))
    else if selector == 2 then
      var h :- Resolve(2, OpcodeOf(first));
      Success(Decoded(PackedInstr(h, Combine(code[cursor + 1], code[cursor + 2])), cursor + 3))
    else
      Failure(InvalidSelector(selector))
  }

  /**
   * `decode`: reads the instruction at `cursor` and returns it with the
   * advanced cursor, or the error at which the C code exits.
   */
  method Decode(code: seq<Byte>, cursor: nat) returns (r: Result<Decoded, DecodeError>)
    requires Fits(code, cursor)
    ensures r == DecodeSpec(code, cursor)
  {
    var stream := cursor;
    var opcode := code[stream] % 64;
    var numargs := code[stream] / 64;
    var operands: Word := 0;
    if numargs == 2 {
      stream := stream + 1;
      operands := code[stream] as int * 256;
    }
    if numargs == 1 || numargs == 2 {
      // case 1, entered directly or by falling through from case 2; the
      // low byte of `operands` is still zero, so `|=` adds the byte
      stream := stream + 1;
      operands := operands + code[stream];
    } else {
      return Failure(InvalidSelector(numargs));
    }
    stream := stream + 1;
    var handler :- Resolve(numargs, opcode);
    return Success(Decoded(PackedInstr(handler, operands), stream));
  }

  /** Decoding succeeds only for selectors 1 and 2, and then moves the cursor past the first byte and exactly that many operand bytes. */
  lemma DecodeLength(code: seq<Byte>, cursor: nat)
    requires Fits(code, cursor)
    ensures DecodeSpec(code, cursor).Success? ==>
      var selector := Selector(code[cursor]);
      (selector == 1 || selector == 2) && DecodeSpec(code, cursor).value.next == cursor + 1 + selector
  {
  }

  /** Selectors 3 and, as written, 0 always fail, whatever follows. */
  lemma DecodeRejectsSelectors(code: seq<Byte>, cursor: nat)
    requires Fits(code, cursor)
    requires Selector(code[cursor]) == 0 || Selector(code[cursor]) == 3
    ensures DecodeSpec(code, cursor) == Failure(InvalidSelector(Selector(code[cursor])))
  {
  }

  /** The operand word: one operand byte sits in the low half under a zero high half; two split back into the first and second byte. */
  lemma DecodeOperands(code: seq<Byte>, cursor: nat)
    requires Fits(code, cursor) && DecodeSpec(code, cursor).Success?
    ensures var args := DecodeSpec(code, cursor).value.instr.args;
      (Selector(code[cursor]) == 1 ==> args == code[cursor + 1] && SplitArgs(args) == (0, code[cursor + 1])) &&
      (Selector(code[cursor]) == 2 ==> SplitArgs(args) == (code[cursor + 1], code[cursor + 2]))
  {
  }

  /** The opcode is looked up in the table of its selector only; a miss reports that opcode and that selector. */
  lemma DecodeResolution(code: seq<Byte>, cursor: nat)
    requires Fits(code, cursor)
    requires Selector(code[cursor]) == 1 || Selector(code[cursor]) == 2
    ensures var selector, opcode := Selector(code[cursor]), OpcodeOf(code[cursor]);
      match Resolve(selector, opcode)
      case Success(h) => DecodeSpec(code, cursor).Success? && DecodeSpec(code, cursor).value.instr.handler == h
      case Failure(_) => DecodeSpec(code, cursor) == Failure(UnknownOpcode(selector, opcode))
  {
  }

  /** The decoder as evidently intended: selector 0 is a one-byte instruction with a zero operand word. */
  function DecodeIntended(code: seq<Byte>, cursor: nat): Result<Decoded, DecodeError>
    requires Fits(code, cursor)
  {
    var first := code[cursor];
    if Selector(first) == 0 then
      var h :- Resolve(0, OpcodeOf(first));
      Success(Decoded(PackedInstr(h, 0), cursor + 1))
    else
      DecodeSpec(code, cursor)
  }

  /** The two decoders differ only on selector 0, where the one as written always fails and the intended one accepts the no-operand table. */
  lemma DecodeIntendedDiffers(code: seq<Byte>, cursor: nat)
    requires Fits(code, cursor)
    ensures Selector(code[cursor]) != 0 ==> DecodeSpec(code, cursor) == DecodeIntended(code, cursor)
    ensures Selector(code[cursor]) == 0 ==>
      DecodeSpec(code, cursor).Failure? &&
      (DecodeIntended(code, cursor).Success? <==> OpcodeOf(code[cursor]) < 3)
  {
  }

  /** The operand count of a handler that sits in a table. */
  function Arity(h: Handler): nat
    requires Encoding(h).Some?
  {
    Encoding(h).value.0
  }

  /** An instruction has an encoding: its handler sits in a table and its operand word fits the operand bytes. */
  predicate Encodable(p: PackedInstr) {
    Encoding(p.handler).Some? &&
    (Arity(p.handler) == 0 ==> p.args == 0) &&
    (Arity(p.handler) == 1 ==> p.args < 256)
  }

  /** The bytes of an instruction, laid out as the format prescribes. */
  function Encode(p: PackedInstr): (bytes: seq<Byte>)
    requires Encodable(p)
    ensures |bytes| == 1 + Arity(p.handler)
    ensures Selector(bytes[0]) == Arity(p.handler) && OpcodeOf(bytes[0]) == Encoding(p.handler).value.1
  {
    var arity := Arity(p.handler);
    var first := arity * 64 + Encoding(p.handler).value.1;
    if arity == 0 then [first]
    else if arity == 1 then [first, p.args]
    else [first, SplitArgs(p.args).0, SplitArgs(p.args).1]
  }

  /** Decoding an encoded instruction with operand bytes, wherever it sits in the stream, gives it back and moves the cursor just past it. */
  lemma DecodeEncode(pre: seq<Byte>, p: PackedInstr, post: seq<Byte>)
    requires Encodable(p) && Arity(p.handler) != 0
    ensures Fits(pre + Encode(p) + post, |pre|)
    ensures DecodeSpec(pre + Encode(p) + post, |pre|) == Success(Decoded(p, |pre| + |Encode(p)|))
  {
  }

  /** As written, a one-byte instruction never decodes, wherever it sits. */
  lemma OneByteFormRejected(pre: seq<Byte>, p: PackedInstr, post: seq<Byte>)
    requires Encodable(p) && Arity(p.handler) == 0
    ensures Fits(pre + Encode(p) + post, |pre|)
    ensures DecodeSpec(pre + Encode(p) + post, |pre|) == Failure(InvalidSelector(0))
  {
  }

  /** The intended decoder gives back every encoded instruction, the one-byte form included. */
  lemma DecodeIntendedEncode(pre: seq<Byte>, p: PackedInstr, post: seq<Byte>)
    requires Encodable(p)
    ensures Fits(pre + Encode(p) + post, |pre|)
    ensures DecodeIntended(pre + Encode(p) + post, |pre|) == Success(Decoded(p, |pre| + |Encode(p)|))
  {
  }

  /** A program: its instructions' encodings one after another. */
  function EncodeProgram(ps: seq<PackedInstr>): seq<Byte>
    requires forall i | 0 <= i < |ps| :: Encodable(ps[i])
  {
    if ps == [] then [] else EncodeProgram(ps[..|ps| - 1]) + Encode(ps[|ps| - 1])
  }

  /** The encoding of the first `k` instructions is a prefix of the program's. */
  lemma {:induction false} EncodeProgramPrefix(ps: seq<PackedInstr>, k: nat)
    requires forall i | 0 <= i < |ps| :: Encodable(ps[i])
    requires k <= |ps|
    ensures |EncodeProgram(ps[..k])| <= |EncodeProgram(ps)|
    ensures EncodeProgram(ps)[..|EncodeProgram(ps[..k])|] == EncodeProgram(ps[..k])
    decreases |ps| - k
  {
    if k < |ps| {
      var init := ps[..|ps| - 1];
      assert ps[..k] == init[..k];
      EncodeProgramPrefix(init, k);
      assert EncodeProgram(ps) == EncodeProgram(init) + Encode(ps[|ps| - 1]);
    } else {
      assert ps[..k] == ps;
    }
  }

  /** A program is the encoding of the instructions before the `k`-th, that instruction's encoding, and the rest. */
  lemma ProgramAround(ps: seq<PackedInstr>, k: nat)
    requires forall i | 0 <= i < |ps| :: Encodable(ps[i])
    requires k < |ps|
    ensures EncodeProgram(ps[..k + 1]) == EncodeProgram(ps[..k]) + Encode(ps[k])
    ensures |EncodeProgram(ps[..k + 1])| <= |EncodeProgram(ps)|
    ensures EncodeProgram(ps) ==
      EncodeProgram(ps[..k]) + Encode(ps[k]) + EncodeProgram(ps)[|EncodeProgram(ps[..k + 1])|..]
  {
    assert ps[..k + 1][..k] == ps[..k];
    EncodeProgramPrefix(ps, k + 1);
  }

  /**
   * Decoding a program at the start of its `k`-th instruction gives that
   * instruction, and the cursor lands on the start of the next one. The
   * decoder as written does this for instructions with operand bytes, the
   * intended one for every instruction.
   */
  lemma {:induction false} DecodeProgram(ps: seq<PackedInstr>, k: nat)
    requires forall i | 0 <= i < |ps| :: Encodable(ps[i])
    requires k < |ps|
    ensures Fits(EncodeProgram(ps), |EncodeProgram(ps[..k])|)
    ensures DecodeIntended(EncodeProgram(ps), |EncodeProgram(ps[..k])|) ==
      Success(Decoded(ps[k], |EncodeProgram(ps[..k + 1])|))
    ensures Arity(ps[k].handler) != 0 ==>
      DecodeSpec(EncodeProgram(ps), |EncodeProgram(ps[..k])|) ==
        Success(Decoded(ps[k], |EncodeProgram(ps[..k + 1])|))
  {
    ProgramAround(ps, k);
    var pre := EncodeProgram(ps[..k]);
    var post := EncodeProgram(ps)[|EncodeProgram(ps[..k + 1])|..];
    DecodeIntendedEncode(pre, ps[k], post);
    if Arity(ps[k].handler) != 0 {
      DecodeEncode(pre, ps[k], post);
    }
  }

  /** The two decoding examples of the format: `41 05` and `81 12 34`; and the rejected one-byte `nop`, `00`. */
  method DecodeExamples() returns (psh: Result<Decoded, DecodeError>, mov: Result<Decoded, DecodeError>, nop: Result<Decoded, DecodeError>)
    ensures psh == Success(Decoded(PackedInstr(Psh, 0x0005), 2))
    ensures mov == Success(Decoded(PackedInstr(Mov, 0x1234), 3))
    ensures nop == Failure(InvalidSelector(0))
  {
    psh := Decode([0x41, 0x05], 0);
    mov := Decode([0x81, 0x12, 0x34], 0);
    nop := Decode([0x00], 0);
  }
}

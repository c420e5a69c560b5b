# A verified model of a small virtual CPU core

This project models the core of a minimal virtual CPU, written in C in
`instruction_set.c`, and proves properties of the model in Dafny.

The core has three parts.

- **The instruction decoder** (`decode` and the three opcode tables
  `noArgs`, `oneArg`, `twoArgs`). It reads a variable-length instruction
  of 1 to 3 bytes. The top two bits of the first byte, the length
  selector, give the number of operand bytes. The low six bits are the
  opcode. The operand bytes are packed into a 16-bit operand word. The
  opcode is resolved in the table for its operand count. The stream
  cursor is advanced past the instruction.
- **The operand packer** (`cpu_splitargs`). It splits an operand word into
  its high and low byte.
- **The CPU state machine**. One flat byte memory holds a stack that grows
  toward lower addresses. The stack primitives are `cpu_pushstack` and
  `cpu_popstack`. The handlers with bodies are `nop`, `halt`, `ret`, `call`
  and the empty `sjmp`. `call` and `ret` pass addresses through the stack
  as two bytes.

Files:

- `wrappers.dfy` (module `Wrappers`): `Option` and `Result`.
- `operands.dfy` (module `Operands`): the byte and word types, `Combine`
  and `SplitArgs`, and the byte split of an address.
- `opcodes.dfy` (module `Opcodes`): the handler names, the three tables,
  and their inverse `Encoding`.
- `decoder.dfy` (module `Decoder`): the decoder. `DecodeSpec` is the
  decoder as a function and `Decode` is the step-by-step method proved
  equal to it. `Encode` lays an instruction out in bytes. `DecodeIntended`
  is the decoder with the one-byte form accepted.
- `machine.dfy` (module `Machine`): class `Cpu` with its memory `array`,
  `esp`, the instruction pointer `ip` and the `halt` flag. Its methods
  change these fields in place. Client methods compose the handlers.

Modelling choices:

- Bytes are the numbers 0..255 (`Byte`); operand words are 0..65535
  (`Word`). The C masks and shifts are written as their arithmetic
  equivalents on unsigned values. For example, `b & 0x3F` is `b % 64`.
- The decoder takes the byte stream and a cursor. It returns either the
  decoded instruction with the new cursor, or a `DecodeError`. The C code
  moves the caller's pointer in place instead.
- The instruction pointer is a natural-number address. `call` keeps only
  its two low bytes, as the C masks with `& 0xff` do.
- `esp` is an integer. A push from cell 0 leaves it at -1.

Four places where `instruction_set.c` does not do what its own text
leads one to expect; the model follows the code:

- The header diagram (instruction_set.c:5-7) and the second `switch`'s
  `case 0` (instruction_set.c:58-60) provide for one-byte instructions
  with selector 0. The first `switch` has no case for selector 0, so the
  code rejects them.
- `call` is listed in the no-operand table (instruction_set.c:84). Its
  jump target comes from the stack, not from an operand byte.
- `call` pops its own jump target high byte first
  (instruction_set.c:141-142), as `ret` does (instruction_set.c:135-136),
  but pushes the return address high byte first
  (instruction_set.c:148-149). So `ret` after `call` resumes at the return
  address with its two bytes swapped.
- The handler named `halt` assigns `false` to the flag named `halt`
  (instruction_set.c:127), so it never raises it.

The corrected behaviours are modelled beside the code's, under Findings.

## Model

| member | source | states |
|---|---|---|
| `Operands.SplitArgs` | instruction_set.c:30-33 | the two bytes it returns recombine, high then low, into the word it was given |
| `Operands.Combine` | instruction_set.c:44-46 | the packed operand word is below 0x10000, its high byte (`w / 256`) is the first operand byte and its low byte (`w % 256`) the second |
| `Operands.CombineInjective` | instruction_set.c:44-46 | two byte pairs pack into the same operand word only when they are the same pair |
| `Operands.SplitCombine` | instruction_set.c:30-33 | splitting the word packed from `(hi, lo)` returns exactly `(hi, lo)` |
| `Operands.CombineBytes` | instruction_set.c:144-146 | recombining the `>> 8 & 0xff` and `& 0xff` bytes of an address gives its low 16 bits |
| `Operands.SwappedTwice` | instruction_set.c:134-152 | exchanging an address's two low bytes twice gives its low 16 bits back |
| `Operands.SwappedFixed` | instruction_set.c:134-152 | exchanging the two low bytes keeps an address's low 16 bits exactly when the two bytes are equal |
| `Opcodes.NoArgs` | instruction_set.c:77-92 | a hit is the handler that `Encoding` places at operand count 0 and this opcode (0 `nop`, 1 `ret`, 2 `call`); a miss fails with this opcode and operand count 0 |
| `Opcodes.OneArg` | instruction_set.c:94-109 | a hit is the handler that `Encoding` places at operand count 1 and this opcode (0 `sjmp`, 1 `psh`, 2 `pop`); a miss fails with this opcode and operand count 1 |
| `Opcodes.TwoArgs` | instruction_set.c:111-124 | a hit is the handler that `Encoding` places at operand count 2 and this opcode (0 `tst`, 1 `mov`); a miss fails with this opcode and operand count 2 |
| `Opcodes.Resolve` | instruction_set.c:57-69 | a failed lookup reports the opcode with its operand count, and a count above 2 is an invalid selector |
| `Opcodes.ResolveEncoding` | instruction_set.c:77-124 | an (operand count, opcode) pair resolves to a handler exactly when the tables list that handler at that pair: 0-arg {0 nop, 1 ret, 2 call}, 1-arg {0 sjmp, 1 psh, 2 pop}, 2-arg {0 tst, 1 mov} |
| `Opcodes.EncodingResolves` | instruction_set.c:77-124 | every listed handler has an operand count of at most 2 and an opcode below 64, and is found at that place |
| `Opcodes.HaltUnreachable` | instruction_set.c:77-128 | no pair resolves to `halt`: it is in no table |
| `Opcodes.TableSizes` | instruction_set.c:77-124 | lookup succeeds exactly for opcodes 0-2 with 0 or 1 operand bytes and opcodes 0-1 with 2 |
| `Decoder.DecodeSpec` | instruction_set.c:35-75 | a success decodes back from exactly `Encode` of its result: the bytes from the cursor to the new cursor are that instruction's encoding |
| `Decoder.Decode` | instruction_set.c:35-75 | the step-by-step decoder, with its fall-through from the two-operand case, returns exactly the result of `DecodeSpec` |
| `Decoder.DecodeLength` | instruction_set.c:41-52 | a successful decode has selector 1 or 2, and its new cursor is the old one plus one plus that many operand bytes |
| `Decoder.DecodeRejectsSelectors` | instruction_set.c:42-50 | selectors 3 and 0 always fail with an invalid-selector error, whatever bytes follow |
| `Decoder.DecodeOperands` | instruction_set.c:43-47 | with one operand byte the word equals it and its high byte is zero; with two, the word splits into the first byte (high) and the second (low) |
| `Decoder.DecodeResolution` | instruction_set.c:40-69 | the opcode `first & 0x3F` is looked up only in its selector's table; a hit gives that handler, a miss fails with that opcode and selector |
| `Decoder.DecodeIntendedDiffers` | instruction_set.c:5-8 | the intended decoder agrees with the code on selectors 1 to 3; on selector 0 the code always fails and the intended decoder succeeds exactly for opcodes 0-2 |
| `Decoder.Encode` | instruction_set.c:3-14 | an instruction's bytes number one plus its operand count, and the first byte carries its selector and opcode |
| `Decoder.DecodeEncode` | instruction_set.c:35-71 | an encoded instruction with operand bytes decodes back to itself, wherever it sits in the stream, with the cursor just past it |
| `Decoder.OneByteFormRejected` | instruction_set.c:42-50 | an encoded one-byte instruction never decodes: it fails with selector 0 |
| `Decoder.DecodeIntendedEncode` | instruction_set.c:3-16 | the intended decoder decodes every encoded instruction back to itself, the one-byte form included |
| `Decoder.DecodeProgram` | instruction_set.c:41-52 | in a program of encoded instructions, decoding at the start of the k-th gives it and leaves the cursor at the start of the next: always for the intended decoder, and for the code when the instruction has operand bytes |
| `Decoder.DecodeExamples` | instruction_set.c:35-75 | `41 05` decodes to `psh` with word 0x0005 and cursor 2; `81 12 34` to `mov` with word 0x1234 and cursor 3; `00` fails |
| `Machine.Cpu.PopStack` | instruction_set.c:22-24 | `esp` rises by one and the byte returned is the memory cell at the new `esp`; memory and the other registers are unchanged |
| `Machine.Cpu.PushStack` | instruction_set.c:26-28 | the cell at the old `esp` becomes the value, no other cell changes, and `esp` drops by one |
| `Machine.Cpu.Nop` | instruction_set.c:130-132 | nothing changes |
| `Machine.Cpu.Sjmp` | instruction_set.c:154-156 | nothing changes (the body is a stub) |
| `Machine.Cpu.Halt` | instruction_set.c:126-128 | only the halt flag changes, and it becomes false |
| `Machine.Cpu.HaltIntended` | instruction_set.c:126-128 | only the halt flag changes, and it becomes true |
| `Machine.Cpu.Ret` | instruction_set.c:134-138 | the instruction pointer becomes first popped byte * 256 + second popped byte, `esp` rises by 2, and memory is unchanged |
| `Machine.Cpu.Call` | instruction_set.c:140-152 | jumps to the popped target (high byte first); the cells at old `esp`+2 and `esp`+1 become the return address's high and low byte and no other cell changes; `esp` ends where it started |
| `Machine.Cpu.CallIntended` | instruction_set.c:140-152 | as `Call`, but the return address's low byte goes to old `esp`+2 and its high byte to old `esp`+1 |
| `Machine.PushThenPop` | instruction_set.c:22-28 | a push then a pop returns the pushed byte, restores `esp`, and leaves only the pushed cell changed |
| `Machine.CallThenRet` | instruction_set.c:134-152 | `call` then `ret` sets the instruction pointer to the return address with its two low bytes swapped, and `esp` ends 2 above its value before `call` |
| `Machine.CallIntendedThenRet` | instruction_set.c:134-152 | with the intended `call`, `ret` sets the instruction pointer to the return address's low 16 bits |
| `Machine.StackExample` | instruction_set.c:22-28 | pushing 0x34 then 0x12 and popping twice yields 0x12, then 0x34, with `esp` restored |
| `Machine.CallRetExample` | instruction_set.c:134-152 | a `call` from address 0x0102 answered by `ret` resumes at 0x0201 |
| `Machine.HaltExample` | instruction_set.c:126-128 | `halt` on a halted CPU leaves it not halted |

## Findings

| source | as written | input that shows it | evidently intended | confidence | as-written member | corrected member |
|---|---|---|---|---|---|---|
| instruction_set.c:42-50 | the first `switch` has no case for selector 0, so every one-byte instruction reaches the error exit | the byte `00` (`nop`) | selector 0 decodes through the no-operand table with a zero operand word, as the format comment and that table provide | high; not executed | `Decoder.OneByteFormRejected` | `Decoder.DecodeIntendedEncode` |
| instruction_set.c:148-149 | `call` pushes the return address high byte first, so the low byte ends on top, while `ret` takes the top byte as the high byte | a `call` from address 0x0102 followed by `ret` resumes at 0x0201 | `call` leaves the high byte on top, as it expects of its own jump target, so that `ret` resumes at the return address | high; not executed | `Machine.CallRetExample` | `Machine.CallIntendedThenRet` |
| instruction_set.c:127 | `halt` assigns `false` to the halt flag | `halt` on a CPU whose flag is set leaves it cleared | `halt` sets the flag to request a stop | medium; not executed | `Machine.HaltExample` | `Machine.Cpu.HaltIntended` |

## Left out

- Process termination and console output: `exit(1)` and the `printf` diagnostics become a `DecodeError` result. For an unknown opcode it carries the opcode and its operand count.
- Reading past the end of the byte stream: the C decoder does not check it. `Fits` is a precondition of the decoder, not an error path.
- Stack overflow and underflow: the C code does not check them. The stack primitives and the handlers require `esp` to keep every accessed cell inside memory.
- The cursor update in place: `decode` moves the caller's pointer. The model returns the new cursor instead.
- Host pointers: the instruction pointer is a natural-number address, and the casts between pointers and integers are not modelled.
- Signed `char`: on a platform where `char` is signed, a byte of 0x80 or more would be sign-extended by the casts to `uint16_t` and `size_t`. Bytes are modelled as unsigned.
- `cpu.h` is not part of this model. The memory capacity, the initial registers and the initial halt flag are constructor parameters. Each handler takes the 16-bit operand word, which the handlers with bodies ignore.
- `psh`, `pop`, `tst` and `mov` have no bodies in the source. They appear only as handler names in the tables.
- `sjmp` is an empty stub and is modelled as a handler that changes nothing.
- Program loading, the fetch-execute loop, and the dispatch from a decoded handler to its body are not in the source and are not modelled.

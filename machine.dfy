/**
 * The CPU state and the handlers whose bodies exist. One flat byte memory
 * holds the stack, which grows toward lower addresses: `esp` is the index of
 * the next free cell. `call` and `ret` pass addresses through that stack as
 * two bytes, and the handlers change the fields in place.
 */
module Machine {
  import opened Operands

  class Cpu {
    /** The memory; its capacity is fixed when the CPU is made. */
    const memory: array<Byte>
    /** The stack pointer: the cell the next push writes. */
    var esp: int
    /** The instruction pointer, as an address. */
    var ip: nat
    /** The halt flag. */
    var halt: bool

    /** A CPU with a loaded memory image and initial registers, as a loader would set them up. */
    constructor (image: seq<Byte>, stackPointer: int, instructionPointer: nat, halted: bool)
      ensures fresh(memory) && memory[..] == image
      ensures esp == stackPointer && ip == instructionPointer && halt == halted
    {
      memory := new Byte[|image|](i requires 0 <= i < |image| => image[i]);
      esp := stackPointer;
      ip := instructionPointer;
      halt := halted;
    }

    /** `cpu_popstack`: moves the stack pointer up one cell and reads that cell; memory is left alone. */
    method PopStack() returns (val: Byte)
      requires -1 <= esp && esp + 1 < memory.Length
      modifies this`esp
      ensures esp == old(esp) + 1
      ensures val == memory[esp]
    {
      esp := esp + 1;
      val := memory[esp];
    }

    /** `cpu_pushstack`: writes the byte at the stack pointer, then moves it down one cell; no other cell changes. */
    method PushStack(val: Byte)
      requires 0 <= esp < memory.Length
      modifies this`esp, memory
      ensures memory[..] == old(memory[..])[old(esp) := val]
      ensures esp == old(esp) - 1
    {
      memory[esp] := val;
      esp := esp - 1;
    }

    /** `nop`: changes nothing. */
    method Nop(args: Word)
      ensures unchanged(this, memory)
    {
    }

    /** `sjmp`: its body is still to be written, so it changes nothing. */
    method Sjmp(args: Word)
      ensures unchanged(this, memory)
    {
    }

    /** `halt`, as written: clears the halt flag, so it never requests a stop. */
    method Halt(args: Word)
      modifies this`halt
      ensures !halt
    {
      halt := false;
    }

    /** `halt` as evidently intended: raises the halt flag. */
    method HaltIntended(args: Word)
      modifies this`halt
      ensures halt
    {
      halt := true;
    }

    /**
     * `ret`: pops two bytes, the first as the high half of the new
     * instruction pointer and the second as its low half.
     */
    method Ret(args: Word)
      requires -1 <= esp && esp + 2 < memory.Length
      modifies this`esp, this`ip
      ensures esp == old(esp) + 2
      ensures ip == Combine(memory[old(esp) + 1], memory[old(esp) + 2])
    {
      var upper := PopStack();
      var lower := PopStack();
      ip := Combine(upper, lower);
    }

    /**
     * `call`: pops the jump target like `ret` does (high half first), pushes
     * the two low bytes of the current instruction pointer, high byte
     * first, and jumps. The return address overwrites the two cells that
     * held the target, and the stack pointer ends where it started.
     */
    method Call(args: Word)
      requires -1 <= esp && esp + 2 < memory.Length
      modifies this`esp, this`ip, memory
      ensures esp == old(esp)
      ensures ip == old(Combine(memory[esp + 1], memory[esp + 2]))
      ensures memory[..] == old(memory[..])[old(esp) + 2 := HighByte(old(ip))][old(esp) + 1 := LowByte(old(ip))]
    {
      var addressUpper := PopStack();
      var addressLower := PopStack();
      var currentAddress := ip;
      var returnLower := LowByte(currentAddress);
      var returnUpper := HighByte(currentAddress);
      PushStack(returnUpper);
      PushStack(returnLower);
      ip := Combine(addressUpper, addressLower);
    }

    /**
     * `call` as evidently intended: the return address is pushed low byte
     * first, so that its high byte is on top, where `ret` looks for it.
     */
    method CallIntended(args: Word)
      requires -1 <= esp && esp + 2 < memory.Length
      modifies this`esp, this`ip, memory
      ensures esp == old(esp)
      ensures ip == old(Combine(memory[esp + 1], memory[esp + 2]))
      ensures memory[..] == old(memory[..])[old(esp) + 2 := LowByte(old(ip))][old(esp) + 1 := HighByte(old(ip))]
    {
      var addressUpper := PopStack();
      var addressLower := PopStack();
      var currentAddress := ip;
      PushStack(LowByte(currentAddress));
      PushStack(HighByte(currentAddress));
      ip := Combine(addressUpper, addressLower);
    }
  }

  /** A push followed by a pop gives back the pushed byte and restores the stack pointer. */
  method PushThenPop(cpu: Cpu, val: Byte) returns (popped: Byte)
    requires 0 <= cpu.esp < cpu.memory.Length
    modifies cpu`esp, cpu.memory
    ensures popped == val && cpu.esp == old(cpu.esp)
    ensures cpu.memory[..] == old(cpu.memory[..])[old(cpu.esp) := val]
  {
    cpu.PushStack(val);
    popped := cpu.PopStack();
  }

  /**
   * `call` immediately followed by `ret`, as written: control comes back to
   * the return address with its two bytes exchanged, and the stack pointer
   * ends two cells above where it was before `call`.
   */
  method CallThenRet(cpu: Cpu, args: Word)
    requires -1 <= cpu.esp && cpu.esp + 2 < cpu.memory.Length
    modifies cpu`esp, cpu`ip, cpu.memory
    ensures cpu.ip == Swapped(old(cpu.ip))
    ensures cpu.esp == old(cpu.esp) + 2
    ensures cpu.memory[..] == old(cpu.memory[..])[old(cpu.esp) + 2 := HighByte(old(cpu.ip))][old(cpu.esp) + 1 := LowByte(old(cpu.ip))]
    ensures cpu.halt == old(cpu.halt)
  {
    cpu.Call(args);
    cpu.Ret(args);
  }

  /** With the intended `call`, `ret` returns to the low 16 bits of the return address. */
  method CallIntendedThenRet(cpu: Cpu, args: Word)
    requires -1 <= cpu.esp && cpu.esp + 2 < cpu.memory.Length
    modifies cpu`esp, cpu`ip, cpu.memory
    ensures cpu.ip == old(cpu.ip) % 0x1_0000
    ensures cpu.esp == old(cpu.esp) + 2
    ensures cpu.memory[..] == old(cpu.memory[..])[old(cpu.esp) + 2 := LowByte(old(cpu.ip))][old(cpu.esp) + 1 := HighByte(old(cpu.ip))]
    ensures cpu.halt == old(cpu.halt)
  {
    ghost var returnAddress := cpu.ip;
    cpu.CallIntended(args);
    cpu.Ret(args);
    CombineBytes(returnAddress);
  }

  /** Pushing 0x34 and then 0x12 and popping twice gives 0x12, then 0x34, and restores the stack pointer. */
  method StackExample() returns (first: Byte, second: Byte, restored: bool)
    ensures first == 0x12 && second == 0x34 && restored
  {
    var cpu := new Cpu([0, 0, 0, 0], 3, 0, false);
    cpu.PushStack(0x34);
    cpu.PushStack(0x12);
    first := cpu.PopStack();
    second := cpu.PopStack();
    restored := cpu.esp == 3;
  }

  /** A `call` made at address 0x0102 and answered by `ret` resumes at 0x0201. */
  method CallRetExample() returns (resumed: nat)
    ensures resumed == 0x0201
  {
    var cpu := new Cpu([0x00, 0x10, 0, 0], -1, 0x0102, false);
    cpu.Call(0);
    assert cpu.ip == 0x0010;
    cpu.Ret(0);
    resumed := cpu.ip;
  }

  /** Running `halt` on a halted CPU leaves it not halted. */
  method HaltExample() returns (halted: bool)
    ensures !halted
  {
    var cpu := new Cpu([0], 0, 0, true);
    cpu.Halt(0);
    halted := cpu.halt;
  }
}

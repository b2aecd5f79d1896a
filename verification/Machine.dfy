/** The four x86 instructions of the generated code: `mov eax, imm32`, `add eax, imm32`, `jnz rel8` and `ret`. */
module Machine {
  import opened Words

  const MOV_EAX: byte := 0xB8
  const ADD_EAX: byte := 0x05
  const JNZ: byte := 0x75
  const RET: byte := 0xC3

  datatype Cpu = Running(pc: int, eax: nat, zero: bool) | Returned(eax: nat) | Fault

  function Signed(b: byte): int { if b < 128 then b else b - 256 }

  // The little-endian 32-bit immediate at `at`.
  function Imm32(code: seq<byte>, at: nat): nat
    requires at + 4 <= |code|
  {
    FromLittleEndian(code[at..at + 4])
  }

  function Execute(code: seq<byte>, cpu: Cpu): Cpu {
    match cpu
    case Returned(_) => cpu
    case Fault => cpu
    case Running(pc, eax, zero) =>
      if pc < 0 || pc >= |code| then Fault
      else if code[pc] == MOV_EAX && pc + 5 <= |code| then Running(pc + 5, Imm32(code, pc + 1), zero)
      else if code[pc] == ADD_EAX && pc + 5 <= |code| then
        var sum := (eax + Imm32(code, pc + 1)) % WORD32;
        Running(pc + 5, sum, sum == 0)
      else if code[pc] == JNZ && pc + 2 <= |code| then
        Running(if zero then pc + 2 else pc + 2 + Signed(code[pc + 1]), eax, zero)
      else if code[pc] == RET then Returned(eax)
      else Fault
  }

  function Steps(code: seq<byte>, cpu: Cpu, n: nat): Cpu
    decreases n
  {
    if n == 0 then cpu else Steps(code, Execute(code, cpu), n - 1)
  }

  lemma {:induction false} StepsAdd(code: seq<byte>, cpu: Cpu, m: nat, n: nat)
    ensures Steps(code, cpu, m + n) == Steps(code, Steps(code, cpu, m), n)
    decreases m
  {
    if m > 0 { StepsAdd(code, Execute(code, cpu), m - 1, n); }
  }

  lemma {:induction false} FaultStays(code: seq<byte>, n: nat)
    ensures Steps(code, Fault, n) == Fault
  {
    if n > 0 { FaultStays(code, n - 1); }
  }

  lemma {:induction false} ReturnedStays(code: seq<byte>, eax: nat, n: nat)
    ensures Steps(code, Returned(eax), n) == Returned(eax)
  {
    if n > 0 { ReturnedStays(code, eax, n - 1); }
  }
}

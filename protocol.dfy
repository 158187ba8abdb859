/** The shapes of the messages that cross the boundary between the console and
    the emulator core. Only their shapes matter here: what the core does with a
    command, and how it computes a reply, belong to the core. */
module Protocol {
  import opened Common

  /** One side effect attached to a trigger. The core defines the kinds of
      action; the console never builds one (a breakpoint has none), so the
      model keeps only a name for each. */
  datatype Action = Action(name: string)

  /** A breakpoint-like condition owned by the core once sent. */
  datatype Trigger = Trigger(address: U32, msg: string, once: bool, actions: seq<Action>)

  /** The commands the console sends. `adl` overrides the addressing mode of a
      disassembly: None keeps the CPU's current mode. */
  datatype DebugCmd =
    | Continue
    | Pause
    | Step
    | StepOver
    | AddTrigger(trigger: Trigger)
    | DeleteTrigger(address: U32)
    | ListTriggers
    | GetRegisters
    | GetState
    | GetMemory(start: U32, len: U32)
    | Disassemble(adl: Option<bool>, start: U32, end: U32)
    | DisassemblePc(adl: Option<bool>)

  /** The part of the eZ80 register file that the console's logic looks at;
      the rest of it, and how it is printed, is not part of this model. */
  datatype RegisterSet = RegisterSet(pc: U32, adl: bool)

  /** One disassembled instruction: its address, its text and its bytes. */
  datatype Instruction = Instruction(loc: U32, asm: string, bytes: seq<U8>)

  /** The responses the console's handler knows: replies to commands and the
      unsolicited `HitBreakpoint` notification. */
  datatype DebugResp =
    | Memory(start: U32, data: seq<U8>)
    | HitBreakpoint
    | Breakpoints(addresses: seq<U32>)
    | Pong
    | Disassembly(adl: bool, disasm: seq<Instruction>)
    | State(registers: RegisterSet, stack: seq<U8>, pcInstruction: string)
    | Registers(registers: RegisterSet)
}

/** The target machine as the front end sees it. The instruction table, the
    per-instruction information and the capability predicates of a target
    version belong to the assembler library and are not part of this model:
    they enter as plain data (an opaque oracle) rather than being computed. */
module Evm {

  /** The instructions the front end singles out by identity; every other
      instruction is `Other`. DIFFICULTY and PREVRANDAO share one opcode,
      `Prevrandao`, and are told apart by name only. */
  datatype Opcode =
    | Dup(n: nat) | Swap(n: nat) | Push(n: nat)
    | Jump | Jumpi | Jumpdest | Pc | Msize
    | Returndatacopy | Returndatasize | Staticcall
    | Shl | Shr | Sar | Create2 | Extcodehash
    | Chainid | Selfbalance | Basefee | Blobbasefee | Blobhash
    | Mcopy | Tstore | Tload | Prevrandao | Codecopy
    | Other(code: nat)

  /** The capability predicates of a target version that the analyzer asks. */
  datatype Capability =
    | SupportsReturndata | HasStaticCall | HasBitwiseShifting | HasCreate2
    | HasExtCodeHash | HasChainId | HasSelfBalance | HasBaseFee
    | HasBlobBaseFee | HasBlobHash | HasMcopy | SupportsTransientStorage

  /** A target version: its position in the fork order (homestead = 0, ...),
      the capabilities it has and the opcodes it provides. */
  datatype EvmVersion = EvmVersion(ordinal: nat, capabilities: set<Capability>, opcodes: set<Opcode>)
  {
    predicate Has(c: Capability) {
      c in capabilities
    }

    predicate HasOpcode(op: Opcode) {
      op in opcodes
    }
  }

  /** Fork positions the front end compares against. */
  const London: nat := 8
  const Paris: nat := 9
  const Cancun: nat := 11

  /** What the instruction table says about one instruction for the
      configured version: argument and return counts, and whether it ends
      control flow and whether it does so by reverting. */
  datatype InstructionInfo = InstructionInfo(args: nat, ret: nat, terminates: bool, reverts: bool)

  /** One row of the instruction table: upper-case mnemonic, opcode, info. */
  datatype TableEntry = TableEntry(mnemonic: string, opcode: Opcode, info: InstructionInfo)
}

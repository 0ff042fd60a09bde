/** Target-capability gating of instructions (validateInstructions in
    libyul/AsmAnalysis.cpp): an instruction the configured version lacks is
    reported with a code of its own, and PC is refused in strict assembly. */
module InstructionGate {
  import opened Wrappers
  import opened Evm
  import opened Diagnostics

  /** Reference table: the capability each gated instruction needs and the
      code reported without it. */
  function Requirement(op: Opcode): (req: Option<(Capability, nat)>)
    ensures op == Tstore || op == Tload ==> req == Some((SupportsTransientStorage, 6243))
  {
    match op
    case Returndatacopy => Some((SupportsReturndata, 7756))
    case Returndatasize => Some((SupportsReturndata, 4778))
    case Staticcall => Some((HasStaticCall, 1503))
    case Shl => Some((HasBitwiseShifting, 6612))
    case Shr => Some((HasBitwiseShifting, 7458))
    case Sar => Some((HasBitwiseShifting, 2054))
    case Create2 => Some((HasCreate2, 6166))
    case Extcodehash => Some((HasExtCodeHash, 7110))
    case Chainid => Some((HasChainId, 1561))
    case Selfbalance => Some((HasSelfBalance, 7721))
    case Basefee => Some((HasBaseFee, 5430))
    case Blobbasefee => Some((HasBlobBaseFee, 6679))
    case Blobhash => Some((HasBlobHash, 8314))
    case Mcopy => Some((HasMcopy, 7755))
    case Tstore => Some((SupportsTransientStorage, 6243))
    case Tload => Some((SupportsTransientStorage, 6243))
    case _ => None
  }

  /** What the analyzer assumes of any version: return data and staticcall
      come together, and so do bitwise shifts and create2. */
  predicate Consistent(v: EvmVersion) {
    && (v.Has(SupportsReturndata) <==> v.Has(HasStaticCall))
    && (v.Has(HasBitwiseShifting) <==> v.Has(HasCreate2))
  }

  /** validateInstructions for one instruction: the diagnostic it reports,
      if any (the function's boolean result is whether it reported one).
      The version assumptions and the absence of the jump instructions are
      asserted. */
  function Gate(v: EvmVersion, op: Opcode): (r: Result<Option<Diagnostic>, Stop>)
    ensures r.Failure? <==> !Consistent(v) || op == Jump || op == Jumpi || op == Jumpdest
    ensures r.Failure? ==> r.error == Assertion
  {
    if !Consistent(v) || op == Jump || op == Jumpi || op == Jumpdest then Failure(Assertion)
    else if op == Returndatacopy && !v.Has(SupportsReturndata) then Success(Some(Diagnostic(TypeError, 7756)))
    else if op == Returndatasize && !v.Has(SupportsReturndata) then Success(Some(Diagnostic(TypeError, 4778)))
    else if op == Staticcall && !v.Has(HasStaticCall) then Success(Some(Diagnostic(TypeError, 1503)))
    else if op == Shl && !v.Has(HasBitwiseShifting) then Success(Some(Diagnostic(TypeError, 6612)))
    else if op == Shr && !v.Has(HasBitwiseShifting) then Success(Some(Diagnostic(TypeError, 7458)))
    else if op == Sar && !v.Has(HasBitwiseShifting) then Success(Some(Diagnostic(TypeError, 2054)))
    else if op == Create2 && !v.Has(HasCreate2) then Success(Some(Diagnostic(TypeError, 6166)))
    else if op == Extcodehash && !v.Has(HasExtCodeHash) then Success(Some(Diagnostic(TypeError, 7110)))
    else if op == Chainid && !v.Has(HasChainId) then Success(Some(Diagnostic(TypeError, 1561)))
    else if op == Selfbalance && !v.Has(HasSelfBalance) then Success(Some(Diagnostic(TypeError, 7721)))
    else if op == Basefee && !v.Has(HasBaseFee) then Success(Some(Diagnostic(TypeError, 5430)))
    else if op == Blobbasefee && !v.Has(HasBlobBaseFee) then Success(Some(Diagnostic(TypeError, 6679)))
    else if op == Blobhash && !v.Has(HasBlobHash) then Success(Some(Diagnostic(TypeError, 8314)))
    else if op == Mcopy && !v.Has(HasMcopy) then Success(Some(Diagnostic(TypeError, 7755)))
    else if (op == Tstore || op == Tload) && !v.Has(SupportsTransientStorage) then Success(Some(Diagnostic(TypeError, 6243)))
    else if op == Pc then Success(Some(Diagnostic(SyntaxError, 2450)))
    else Success(None)
  }

  /** The chain of checks is the table: PC is always refused, a gated
      instruction is refused exactly when the version lacks its capability,
      with the table's code, and nothing else is refused. */
  lemma GateFollowsTable(v: EvmVersion, op: Opcode)
    requires Consistent(v) && op != Jump && op != Jumpi && op != Jumpdest
    ensures op == Pc ==> Gate(v, op) == Success(Some(Diagnostic(SyntaxError, 2450)))
    ensures Requirement(op).Some? ==>
      var (c, code) := Requirement(op).value;
      Gate(v, op) == if v.Has(c) then Success(None) else Success(Some(Diagnostic(TypeError, code)))
    ensures op != Pc && Requirement(op).None? ==> Gate(v, op) == Success(None)
  {
    if Requirement(op).None? {
      Ungated(op);
    }
  }

  /** An instruction without a requirement is none of the gated ones. */
  lemma Ungated(op: Opcode)
    requires Requirement(op).None?
    ensures op != Returndatacopy && op != Returndatasize && op != Staticcall
    ensures op != Shl && op != Shr && op != Sar && op != Create2 && op != Extcodehash
    ensures op != Chainid && op != Selfbalance && op != Basefee && op != Blobbasefee
    ensures op != Blobhash && op != Mcopy && op != Tstore && op != Tload
  {
  }

  /** Every reported diagnostic is an error, so a refused instruction always
      fails the analysis. */
  lemma GateReportsErrors(v: EvmVersion, op: Opcode)
    requires Gate(v, op).Success? && Gate(v, op).value.Some?
    ensures IsError(Gate(v, op).value.value)
  {
  }
}

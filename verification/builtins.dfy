/** Descriptors of builtin functions, as a dialect hands them out
    (libyul/Dialect.h, BuiltinFunction, and the EVM extension of it that
    remembers the instruction a builtin stands for). Side effects are not
    modelled; control-flow effects are. */
module Builtins {
  import opened Wrappers
  import opened Evm

  datatype LiteralKind = Number | Boolean | String

  /** Whether a call can end the transaction, revert, or return normally. */
  datatype ControlFlowSideEffects = ControlFlowSideEffects(canTerminate: bool, canRevert: bool, canContinue: bool)

  /** The effects of a builtin nobody has said anything special about. */
  const DefaultControlFlow := ControlFlowSideEffects(false, false, true)

  datatype BuiltinFunction = BuiltinFunction(
    name: string,
    parameters: seq<string>,
    results: seq<string>,
    controlFlow: ControlFlowSideEffects,
    isMSize: bool,
    literalArguments: seq<Option<LiteralKind>>,
    instruction: Option<Opcode>)

  /** A default-constructed descriptor, what std::map's operator[] inserts. */
  const EmptyBuiltin := BuiltinFunction("", [], [], DefaultControlFlow, false, [], None)

  /** The literal-argument table is empty or has one entry per parameter. */
  predicate LiteralArgumentsShaped(f: BuiltinFunction) {
    |f.literalArguments| == 0 || |f.literalArguments| == |f.parameters|
  }
}

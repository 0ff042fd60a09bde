/** Dialects: the base dialect's defaults (libyul/Dialect.h, Dialect.cpp),
    the EVM dialect (EVMDialect.h/.cpp) and the typed EVM dialect, as one
    closed sum whose virtual member functions become matches. */
module Dialects {
  import opened Wrappers
  import opened Strings
  import opened Evm
  import opened Builtins
  import opened EvmDialect

  datatype Flavour =
    /** A dialect that overrides nothing (only the deprecated Yul dialect). */
    | Plain
    /** An EVM dialect; `typed` for the u256/bool variant. */
    | EvmFlavour(objectAccess: bool, version: EvmVersion, functions: BuiltinsMap, reserved: set<string>, typed: bool)

  datatype Dialect = Dialect(defaultType: string, boolType: string, types: set<string>, flavour: Flavour)

  /** The builtin of the given name: with object access every name of the
      verbatim family, otherwise the table. */
  function Builtin(d: Dialect, name: string): (r: Option<BuiltinFunction>)
    ensures d.flavour.Plain? ==> r == None
    ensures d.flavour.EvmFlavour? && !(d.flavour.objectAccess && ParseVerbatimName(name).Some?) ==>
      r == (if name in d.flavour.functions then Some(d.flavour.functions[name]) else None)
    ensures d.flavour.EvmFlavour? && d.flavour.objectAccess && ParseVerbatimName(name).Some? ==>
      r.Some? && r.value.name == name
  {
    match d.flavour
    case Plain => None
    case EvmFlavour(objectAccess, _, functions, _, _) =>
      if objectAccess && ParseVerbatimName(name).Some? then
        var (a, b) := ParseVerbatimName(name).value;
        ParsedVerbatimNameCanonical(name);
        Some(VerbatimFunction(d.defaultType, a, b))
      else if name in functions then Some(functions[name])
      else None
  }

  /** Table lookup without the verbatim family. */
  function BuiltinNoVerbatim(d: Dialect, name: string): Option<BuiltinFunction> {
    match d.flavour
    case Plain => None
    case EvmFlavour(_, _, functions, _, _) => if name in functions then Some(functions[name]) else None
  }

  /** Whether an identifier may not be declared. The base dialect reserves
      its builtins; the EVM dialect reserves the whole "verbatim" prefix
      under object access, and its reserved set. */
  predicate ReservedIdentifier(d: Dialect, name: string) {
    match d.flavour
    case Plain => Builtin(d, name).Some?
    case EvmFlavour(objectAccess, _, _, reserved, _) =>
      (objectAccess && StartsWith(name, "verbatim")) || name in reserved
  }

  /** The typed dialect only knows how to discard or compare its two types. */
  predicate TypeHandled(d: Dialect, t: string) {
    d.flavour.EvmFlavour? && d.flavour.typed ==> t == d.boolType || t == d.defaultType
  }

  function DiscardFunction(d: Dialect, t: string): Option<BuiltinFunction>
    requires TypeHandled(d, t)
  {
    match d.flavour
    case Plain => None
    case EvmFlavour(_, _, _, _, typed) =>
      if typed && t == d.boolType then BuiltinNoVerbatim(d, "popbool") else BuiltinNoVerbatim(d, "pop")
  }

  function EqualityFunction(d: Dialect, t: string): Option<BuiltinFunction>
    requires TypeHandled(d, t)
  {
    match d.flavour
    case Plain => None
    case EvmFlavour(_, _, _, _, typed) =>
      if typed && t == d.boolType then None else BuiltinNoVerbatim(d, "eq")
  }

  function BooleanNegationFunction(d: Dialect): Option<BuiltinFunction> {
    match d.flavour
    case Plain => None
    case EvmFlavour(_, _, _, _, typed) => BuiltinNoVerbatim(d, if typed then "not" else "iszero")
  }

  function MemoryStoreFunction(d: Dialect): Option<BuiltinFunction> {
    if d.flavour.Plain? then None else BuiltinNoVerbatim(d, "mstore")
  }

  function MemoryLoadFunction(d: Dialect): Option<BuiltinFunction> {
    if d.flavour.Plain? then None else BuiltinNoVerbatim(d, "mload")
  }

  function StorageStoreFunction(d: Dialect): Option<BuiltinFunction> {
    if d.flavour.Plain? then None else BuiltinNoVerbatim(d, "sstore")
  }

  function StorageLoadFunction(d: Dialect): Option<BuiltinFunction> {
    if d.flavour.Plain? then None else BuiltinNoVerbatim(d, "sload")
  }

  function HashFunction(d: Dialect): string {
    if d.flavour.Plain? then "" else "keccak256"
  }

  /** The table's names plus "verbatim" for EVM dialects; nothing otherwise. */
  function BuiltinNames(d: Dialect): set<string> {
    match d.flavour
    case Plain => {}
    case EvmFlavour(_, _, functions, _, _) => functions.Keys + {"verbatim"}
  }

  /** Boolean literals must have the bool type; any other literal fits any
      type (string form, Dialect.cpp). */
  predicate ValidTypeForLiteral(d: Dialect, kind: LiteralKind, t: string) {
    kind == Boolean ==> t == d.boolType
  }

  // ---------------------------------------------------------------------
  // The dialects

  /** The old "yul" dialect: u256 default, bool, and eleven integer types,
      no builtins. */
  function YulDeprecated(): (d: Dialect)
    ensures d.defaultType in d.types && d.boolType in d.types && |d.types| == 11
    ensures forall name :: Builtin(d, name).None? && !ReservedIdentifier(d, name)
  {
    var ts := {"bool", "u8", "s8", "u32", "s32", "u64", "s64", "u128", "s128", "u256", "s256"};
    assert |ts| == 11 by {
      assert "bool" != "u8";
    }
    Dialect("u256", "bool", ts, Plain)
  }

  /** EVMDialect: no types beyond the empty one. */
  function EvmDialectOf(table: seq<TableEntry>, v: EvmVersion, objectAccess: bool): Dialect {
    Dialect("", "", {""}, EvmFlavour(objectAccess, v, CreateBuiltins(table, v, objectAccess), CreateReservedIdentifiers(table, v), false))
  }

  /** EVMDialectTyped: the EVM dialect's construction followed by the
      signature rewrites; u256 by default and bool, with the reserved set of
      the untyped dialect. */
  function Typed(d: Dialect): Dialect
    requires d.flavour.EvmFlavour?
  {
    var f := d.flavour;
    Dialect(U256, Bool, {U256, Bool}, f.(functions := TypedBuiltins(f.functions), typed := true))
  }

  function EvmDialectTypedOf(table: seq<TableEntry>, v: EvmVersion, objectAccess: bool): Dialect {
    Typed(EvmDialectOf(table, v, objectAccess))
  }

  /** The front end's view of a version's opcodes agrees with the fork order. */
  predicate VersionConsistent(v: EvmVersion) {
    && (v.HasOpcode(Basefee) ==> v.ordinal >= London)
    && (v.HasOpcode(Blobhash) ==> v.ordinal >= Cancun)
    && (v.HasOpcode(Blobbasefee) ==> v.ordinal >= Cancun)
    && (v.HasOpcode(Mcopy) ==> v.ordinal >= Cancun)
    && (v.HasOpcode(Tstore) ==> v.ordinal >= Cancun)
    && (v.HasOpcode(Tload) ==> v.ordinal >= Cancun)
  }

  /** In the untyped EVM dialect every builtin of the table is reserved
      except memoryguard, which object access adds as a builtin but not as a
      reserved name. */
  lemma BuiltinsReserved(table: seq<TableEntry>, v: EvmVersion, objectAccess: bool, name: string)
    requires VersionConsistent(v)
    requires name in CreateBuiltins(table, v, objectAccess) && name != "memoryguard"
    ensures ReservedIdentifier(EvmDialectOf(table, v, objectAccess), name)
  {
    CreateBuiltinsKeys(table, v, objectAccess, name);
    if !(objectAccess && IsObjectBuiltinName(name)) {
      var i :| 0 <= i < |table| && Included(table[i], v) && ToLower(table[i].mnemonic) == name;
      IncludedNotException(table[i], v);
      assert name in ReservedFromTable(table, v);
    } else {
      assert name in ObjectReservedNames;
    }
  }

  /** An instruction the version includes is never one of the exceptions. */
  lemma IncludedNotException(e: TableEntry, v: EvmVersion)
    requires VersionConsistent(v) && Included(e, v)
    ensures !ReservedException(e, ToLower(e.mnemonic), v)
  {
  }

  /** memoryguard is a builtin under object access, yet it may be declared
      unless some instruction happens to carry that name. */
  lemma MemoryGuardNotReserved(table: seq<TableEntry>, v: EvmVersion)
    requires forall i :: 0 <= i < |table| ==> ToLower(table[i].mnemonic) != "memoryguard"
    ensures Builtin(EvmDialectOf(table, v, true), "memoryguard").Some?
    ensures !ReservedIdentifier(EvmDialectOf(table, v, true), "memoryguard")
  {
    assert "memoryguard" in ObjectBuiltinNames;
    assert "memoryguard" in CreateBuiltins(table, v, true);
    assert "memoryguard"[..9][0] == 'm';
    assert "memoryguard"[..8][0] == 'm';
    assert "memoryguard" !in CreateReservedIdentifiers(table, v);
  }

  /** With object access, every name of the verbatim family is a builtin
      and reserved; its descriptor is the one verbatimFunction builds. */
  lemma VerbatimBuiltin(d: Dialect, a: nat, b: nat)
    requires d.flavour.EvmFlavour? && d.flavour.objectAccess
    requires a < 100 && b < 100
    ensures Builtin(d, VerbatimName(a, b)) == Some(VerbatimFunction(d.defaultType, a, b))
    ensures ReservedIdentifier(d, VerbatimName(a, b))
  {
    VerbatimNameParses(a, b);
    assert VerbatimName(a, b)[..8] == "verbatim";
  }

  /** The typed dialect's discard helpers fit its two types: discarding a
      bool takes one bool, discarding a u256 one u256. */
  lemma TypedDiscardFunctions(d0: Dialect)
    requires d0.flavour.EvmFlavour?
    requires var m := d0.flavour.functions;
      "pop" in m && |m["pop"].parameters| == 1 && |m["pop"].results| == 0
    ensures var d := Typed(d0);
      && DiscardFunction(d, Bool).Some? && DiscardFunction(d, Bool).value.parameters == [Bool]
      && DiscardFunction(d, Bool).value.results == []
      && DiscardFunction(d, U256).Some? && DiscardFunction(d, U256).value.parameters == [U256]
      && DiscardFunction(d, U256).value.results == []
  {
    TypedPopAndConversions(d0.flavour.functions);
  }

  /** Equality compares two u256 values into a bool and does not exist for
      bool; boolean negation maps bool to bool. */
  lemma TypedEqualityAndNegation(d0: Dialect)
    requires d0.flavour.EvmFlavour?
    requires var m := d0.flavour.functions;
      "eq" in m && |m["eq"].parameters| == 2
    ensures var d := Typed(d0);
      && EqualityFunction(d, U256).Some? && EqualityFunction(d, U256).value.parameters == [U256, U256]
      && EqualityFunction(d, U256).value.results == [Bool]
      && EqualityFunction(d, Bool).None?
      && BooleanNegationFunction(d).Some? && BooleanNegationFunction(d).value.parameters == [Bool]
      && BooleanNegationFunction(d).value.results == [Bool]
  {
    TypedPredicates(d0.flavour.functions);
  }
}

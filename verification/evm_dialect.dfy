/** How the EVM dialects build their builtin tables
    (libyul/backends/evm/EVMDialect.cpp): one builtin per usable instruction,
    the object-access builtins, the reserved identifiers, the verbatim family
    and the signature rewrites of the typed dialect. */
module EvmDialect {
  import opened Wrappers
  import opened Strings
  import opened Evm
  import opened Builtins

  /** std::map<std::string, BuiltinFunctionForEVM>. */
  type BuiltinsMap = map<string, BuiltinFunction>

  // ---------------------------------------------------------------------
  // Descriptor constructors

  /** The descriptor of the builtin that stands for one instruction. */
  function CreateEVMFunction(name: string, e: TableEntry): (f: BuiltinFunction)
    ensures f.name == name && f.instruction == Some(e.opcode)
    ensures |f.parameters| == e.info.args && |f.results| == e.info.ret
    ensures e.info.terminates ==>
      && !f.controlFlow.canContinue
      && f.controlFlow.canRevert == e.info.reverts
      && f.controlFlow.canTerminate == !e.info.reverts
    ensures !e.info.terminates ==> f.controlFlow == DefaultControlFlow
    ensures f.isMSize <==> e.opcode == Msize
    ensures f.literalArguments == []
  {
    var cf :=
      if !e.info.terminates then DefaultControlFlow
      else if e.info.reverts then ControlFlowSideEffects(false, true, false)
      else ControlFlowSideEffects(true, false, false);
    BuiltinFunction(name, seq(e.info.args, _ => ""), seq(e.info.ret, _ => ""), cf, e.opcode == Msize, [], Some(e.opcode))
  }

  /** A builtin that is not an instruction; its literal-argument table must be
      empty or name every parameter (asserted by the source). */
  function CreateFunction(name: string, params: nat, rets: nat, literals: seq<Option<LiteralKind>>): (f: BuiltinFunction)
    requires |literals| == params || |literals| == 0
    ensures f.name == name && |f.parameters| == params && |f.results| == rets
    ensures f.literalArguments == literals && LiteralArgumentsShaped(f)
    ensures !f.isMSize && f.instruction == None && f.controlFlow == DefaultControlFlow
  {
    BuiltinFunction(name, seq(params, _ => ""), seq(rets, _ => ""), DefaultControlFlow, false, literals, None)
  }

  // ---------------------------------------------------------------------
  // Builtins

  /** prevrandao exists only from Paris on, difficulty only before it. */
  predicate PrevRandaoExcluded(name: string, v: EvmVersion) {
    (name == "prevrandao" && v.ordinal < Paris) || (name == "difficulty" && v.ordinal >= Paris)
  }

  /** Whether an instruction becomes a builtin of the dialect for `v`. */
  predicate Included(e: TableEntry, v: EvmVersion) {
    && !e.opcode.Dup? && !e.opcode.Swap? && !e.opcode.Push?
    && e.opcode != Jump && e.opcode != Jumpi && e.opcode != Jumpdest
    && v.HasOpcode(e.opcode)
    && !PrevRandaoExcluded(ToLower(e.mnemonic), v)
  }

  /** `table[i]` is the first included instruction whose lower-cased name is `k`. */
  predicate FirstIncluded(table: seq<TableEntry>, v: EvmVersion, k: string, i: int) {
    && 0 <= i < |table| && Included(table[i], v) && ToLower(table[i].mnemonic) == k
    && forall j :: 0 <= j < i ==> !(Included(table[j], v) && ToLower(table[j].mnemonic) == k)
  }

  /** Builtins for the instructions of `table`, inserted in table order with
      emplace, so the first instruction of a name wins. */
  function InstructionBuiltins(table: seq<TableEntry>, v: EvmVersion): (m: BuiltinsMap)
    ensures forall k :: k in m <==>
      exists i :: 0 <= i < |table| && Included(table[i], v) && ToLower(table[i].mnemonic) == k
    decreases |table|
  {
    if |table| == 0 then map[]
    else
      var prefix := table[..|table| - 1];
      var e := table[|table| - 1];
      var m := InstructionBuiltins(prefix, v);
      assert forall i :: 0 <= i < |prefix| ==> prefix[i] == table[i];
      var name := ToLower(e.mnemonic);
      if Included(e, v) then Emplace(m, name, CreateEVMFunction(name, e)) else m
  }

  /** Each instruction builtin is the descriptor of the first included
      instruction of its name. */
  lemma {:induction false} InstructionBuiltinsFirst(table: seq<TableEntry>, v: EvmVersion, k: string)
    requires k in InstructionBuiltins(table, v)
    ensures exists i :: FirstIncluded(table, v, k, i) && InstructionBuiltins(table, v)[k] == CreateEVMFunction(k, table[i])
    decreases |table|
  {
    var prefix := table[..|table| - 1];
    var e := table[|table| - 1];
    var m := InstructionBuiltins(prefix, v);
    assert forall i :: 0 <= i < |prefix| ==> prefix[i] == table[i];
    if k in m {
      InstructionBuiltinsFirst(prefix, v, k);
      var i :| FirstIncluded(prefix, v, k, i) && m[k] == CreateEVMFunction(k, prefix[i]);
      assert FirstIncluded(table, v, k, i);
    } else {
      assert FirstIncluded(table, v, k, |table| - 1);
    }
  }

  const ObjectBuiltinNames: set<string> :=
    {"linkersymbol", "memoryguard", "datasize", "dataoffset", "datacopy", "setimmutable", "loadimmutable"}

  predicate IsObjectBuiltinName(k: string) {
    || k == "linkersymbol" || k == "memoryguard" || k == "datasize" || k == "dataoffset"
    || k == "datacopy" || k == "setimmutable" || k == "loadimmutable"
  }

  /** The descriptor object access adds under the name `k`. */
  function ObjectBuiltin(k: string): BuiltinFunction {
    if k == "linkersymbol" then CreateFunction("linkersymbol", 1, 1, [Some(String)])
    else if k == "memoryguard" then CreateFunction("memoryguard", 1, 1, [Some(Number)])
    else if k == "datasize" then CreateFunction("datasize", 1, 1, [Some(String)])
    else if k == "dataoffset" then CreateFunction("dataoffset", 1, 1, [Some(String)])
    else if k == "datacopy" then CreateFunction("datacopy", 3, 0, [])
    else if k == "setimmutable" then CreateFunction("setimmutable", 3, 0, [None, Some(String), None])
    else CreateFunction("loadimmutable", 1, 1, [Some(String)])
  }

  /** std::map::emplace: only inserts when the key is absent. */
  function Emplace(m: BuiltinsMap, k: string, f: BuiltinFunction): BuiltinsMap {
    m[k := if k in m then m[k] else f]
  }

  /** The seven object builtins emplaced in turn: an instruction of the same
      name would keep its place. */
  function ObjectBuiltins(m: BuiltinsMap): BuiltinsMap {
    map k | k in m.Keys + ObjectBuiltinNames :: if k in m then m[k] else ObjectBuiltin(k)
  }

  function CreateBuiltins(table: seq<TableEntry>, v: EvmVersion, objectAccess: bool): BuiltinsMap {
    var m := InstructionBuiltins(table, v);
    if objectAccess then ObjectBuiltins(m) else m
  }

  /** The builtin set holds exactly the included instructions (no DUP, SWAP,
      PUSH, JUMP, JUMPI, JUMPDEST, nothing the version lacks, prevrandao only
      from Paris and difficulty only before it) plus, with object access, the
      seven object builtins; an instruction builtin is the descriptor of the
      first instruction of its name. */
  lemma CreateBuiltinsKeys(table: seq<TableEntry>, v: EvmVersion, objectAccess: bool, k: string)
    ensures k in CreateBuiltins(table, v, objectAccess) <==>
      || (exists i :: 0 <= i < |table| && Included(table[i], v) && ToLower(table[i].mnemonic) == k)
      || (objectAccess && IsObjectBuiltinName(k))
    ensures k in CreateBuiltins(table, v, objectAccess) && !IsObjectBuiltinName(k) ==>
      exists i :: FirstIncluded(table, v, k, i) && CreateBuiltins(table, v, objectAccess)[k] == CreateEVMFunction(k, table[i])
    ensures k == "prevrandao" && k in CreateBuiltins(table, v, objectAccess) ==> v.ordinal >= Paris
    ensures k == "difficulty" && k in CreateBuiltins(table, v, objectAccess) ==> v.ordinal < Paris
  {
    var m := InstructionBuiltins(table, v);
    if k in m && !(objectAccess && IsObjectBuiltinName(k)) {
      InstructionBuiltinsFirst(table, v, k);
    }
  }

  /** Every instruction builtin stands for an instruction the version has,
      and never for a stack-manipulation or jump instruction. */
  lemma BuiltinInstructionsUsable(table: seq<TableEntry>, v: EvmVersion, objectAccess: bool, k: string)
    requires k in CreateBuiltins(table, v, objectAccess) && !IsObjectBuiltinName(k)
    ensures var f := CreateBuiltins(table, v, objectAccess)[k];
      && f.instruction.Some?
      && var op := f.instruction.value;
      && !op.Dup? && !op.Swap? && !op.Push? && op != Jump && op != Jumpi && op != Jumpdest
      && v.HasOpcode(op)
  {
    CreateBuiltinsKeys(table, v, objectAccess, k);
  }

  /** With object access, the object builtins carry fixed literal-argument
      patterns: one String literal for linkersymbol, datasize, dataoffset and
      loadimmutable, one Number literal for memoryguard, a String literal in
      position 2 of setimmutable, and none for datacopy (provided no
      instruction is spelled like one of them). */
  lemma ObjectBuiltinPatterns(table: seq<TableEntry>, v: EvmVersion)
    requires forall i :: 0 <= i < |table| ==> !IsObjectBuiltinName(ToLower(table[i].mnemonic))
    ensures var m := CreateBuiltins(table, v, true);
      && "linkersymbol" in m && m["linkersymbol"].literalArguments == [Some(String)]
      && "datasize" in m && m["datasize"].literalArguments == [Some(String)]
      && "dataoffset" in m && m["dataoffset"].literalArguments == [Some(String)]
      && "loadimmutable" in m && m["loadimmutable"].literalArguments == [Some(String)]
      && "memoryguard" in m && m["memoryguard"].literalArguments == [Some(Number)]
      && "setimmutable" in m && m["setimmutable"].literalArguments == [None, Some(String), None]
      && "datacopy" in m && m["datacopy"].literalArguments == []
      && |m["setimmutable"].parameters| == 3 && |m["datacopy"].parameters| == 3
  {
    var m0 := InstructionBuiltins(table, v);
    assert forall k :: IsObjectBuiltinName(k) ==> k !in m0;
  }

  // ---------------------------------------------------------------------
  // Reserved identifiers

  /** Instruction names that are not yet reserved on older versions. */
  predicate ReservedException(e: TableEntry, name: string, v: EvmVersion) {
    || (e.opcode == Basefee && v.ordinal < London)
    || (name == "prevrandao" && v.ordinal < Paris)
    || (e.opcode == Blobhash && v.ordinal < Cancun)
    || (e.opcode == Blobbasefee && v.ordinal < Cancun)
    || (e.opcode == Mcopy && v.ordinal < Cancun)
    || (v.ordinal < Cancun && (e.opcode == Tstore || e.opcode == Tload))
  }

  const ObjectReservedNames: set<string> :=
    {"linkersymbol", "datasize", "dataoffset", "datacopy", "setimmutable", "loadimmutable"}

  function ReservedFromTable(table: seq<TableEntry>, v: EvmVersion): (r: set<string>)
    ensures forall x :: x in r <==>
      exists i :: 0 <= i < |table| && ToLower(table[i].mnemonic) == x && !ReservedException(table[i], x, v)
    decreases |table|
  {
    if |table| == 0 then {}
    else
      var prefix := table[..|table| - 1];
      var e := table[|table| - 1];
      var r := ReservedFromTable(prefix, v);
      assert forall i :: 0 <= i < |prefix| ==> prefix[i] == table[i];
      var name := ToLower(e.mnemonic);
      if !ReservedException(e, name, v) then r + {name} else r
  }

  /** Every lower-cased instruction name except the version-gated exceptions,
      plus six object builtin names. */
  function CreateReservedIdentifiers(table: seq<TableEntry>, v: EvmVersion): (r: set<string>)
    ensures forall x :: x in r <==>
      || (exists i :: 0 <= i < |table| && ToLower(table[i].mnemonic) == x && !ReservedException(table[i], x, v))
      || x in ObjectReservedNames
  {
    ReservedFromTable(table, v) + ObjectReservedNames
  }

  // ---------------------------------------------------------------------
  // The verbatim family: verbatim_<a>i_<b>o

  function VerbatimName(a: nat, b: nat): string {
    "verbatim_" + NatToString(a) + "i_" + NatToString(b) + "o"
  }

  /** The number of leading decimal digits. */
  function DigitRun(s: string): (n: nat)
    ensures n <= |s| && AllDigits(s[..n])
    ensures n < |s| ==> !IsDigit(s[n])
    decreases |s|
  {
    if |s| > 0 && IsDigit(s[0]) then
      var n := 1 + DigitRun(s[1..]);
      assert s[..n] == [s[0]] + s[1..][..n - 1];
      n
    else 0
  }

  /** A whole string matching [1-9]?[0-9]. */
  function SmallNumber(t: string): Option<nat> {
    if |t| == 1 && IsDigit(t[0]) then Some(DigitValue(t[0]))
    else if |t| == 2 && '1' <= t[0] <= '9' && IsDigit(t[1]) then Some(DigitValue(t[0]) * 10 + DigitValue(t[1]))
    else None
  }

  /** A full match of verbatim_([1-9]?[0-9])i_([1-9]?[0-9])o, with the two
      captured numbers. */
  function ParseVerbatimName(s: string): Option<(nat, nat)> {
    if !StartsWith(s, "verbatim_") then None
    else
      var r := s[9..];
      var n := DigitRun(r);
      var a := SmallNumber(r[..n]);
      if a.None? || !StartsWith(r[n..], "i_") then None
      else
        var r2 := r[n + 2..];
        var m := DigitRun(r2);
        var b := SmallNumber(r2[..m]);
        if b.None? || r2[m..] != "o" then None
        else Some((a.value, b.value))
  }

  lemma {:induction false} DigitRunOf(d: string, rest: string)
    requires AllDigits(d)
    requires |rest| == 0 || !IsDigit(rest[0])
    ensures DigitRun(d + rest) == |d|
    decreases |d|
  {
    if |d| > 0 {
      assert (d + rest)[1..] == d[1..] + rest;
      DigitRunOf(d[1..], rest);
    }
  }

  lemma SmallNumberOfString(a: nat)
    requires a < 100
    ensures SmallNumber(NatToString(a)) == Some(a)
  {
    if a >= 10 {
      assert NatToString(a) == NatToString(a / 10) + [DigitChar(a % 10)];
    }
  }

  lemma SmallNumberCanonical(t: string)
    requires SmallNumber(t).Some?
    ensures SmallNumber(t).value < 100
    ensures t == NatToString(SmallNumber(t).value)
  {
    var x := SmallNumber(t).value;
    if |t| == 1 {
      assert DigitChar(DigitValue(t[0])) == t[0];
    } else {
      assert x / 10 == DigitValue(t[0]) && x % 10 == DigitValue(t[1]);
      assert DigitChar(DigitValue(t[0])) == t[0];
      assert DigitChar(DigitValue(t[1])) == t[1];
      assert NatToString(x) == NatToString(x / 10) + [DigitChar(x % 10)];
    }
  }

  /** Every verbatim name with arities below 100 is recognised, with its arities. */
  lemma VerbatimNameParses(a: nat, b: nat)
    requires a < 100 && b < 100
    ensures ParseVerbatimName(VerbatimName(a, b)) == Some((a, b))
  {
    var sa := NatToString(a);
    var sb := NatToString(b);
    var s := VerbatimName(a, b);
    assert s[..9] == "verbatim_";
    var r := s[9..];
    assert r == sa + ("i_" + sb + "o");
    DigitRunOf(sa, "i_" + sb + "o");
    assert r[..|sa|] == sa;
    SmallNumberOfString(a);
    assert r[|sa|..] == "i_" + sb + "o";
    var r2 := r[|sa| + 2..];
    assert r2 == sb + "o";
    DigitRunOf(sb, "o");
    assert r2[..|sb|] == sb;
    SmallNumberOfString(b);
  }

  /** A name the parser accepts is put back together from its pieces. */
  lemma VerbatimPieces(s: string, n: nat, m: nat)
    requires StartsWith(s, "verbatim_") && n <= |s[9..]| && StartsWith(s[9..][n..], "i_")
    requires m <= |s[9..][n + 2..]| && s[9..][n + 2..][m..] == "o"
    ensures s == "verbatim_" + s[9..][..n] + "i_" + s[9..][n + 2..][..m] + "o"
  {
    var r := s[9..];
    var r2 := r[n + 2..];
    assert r2 == r2[..m] + "o";
    assert r[n..] == "i_" + r2;
    assert r == r[..n] + r[n..];
    assert s == s[..9] + r;
  }

  /** Every recognised name is the canonical spelling of its arities. */
  lemma ParsedVerbatimNameCanonical(s: string)
    requires ParseVerbatimName(s).Some?
    ensures var (a, b) := ParseVerbatimName(s).value;
      a < 100 && b < 100 && s == VerbatimName(a, b)
  {
    var r := s[9..];
    var n := DigitRun(r);
    SmallNumberCanonical(r[..n]);
    var r2 := r[n + 2..];
    var m := DigitRun(r2);
    SmallNumberCanonical(r2[..m]);
    VerbatimPieces(s, n, m);
  }

  /** The descriptor of verbatim_<a>i_<b>o: the bytecode String literal
      followed by `a` arguments, `b` results, all of the default type, and
      it may contain msize. */
  function VerbatimFunction(defaultType: string, a: nat, b: nat): (f: BuiltinFunction)
    ensures f.name == VerbatimName(a, b)
    ensures |f.parameters| == 1 + a && |f.results| == b
    ensures forall i :: 0 <= i < |f.parameters| ==> f.parameters[i] == defaultType
    ensures forall i :: 0 <= i < |f.results| ==> f.results[i] == defaultType
    ensures |f.literalArguments| == 1 + a && f.literalArguments[0] == Some(String)
    ensures forall i :: 1 <= i < |f.literalArguments| ==> f.literalArguments[i] == None
    ensures f.isMSize && f.instruction == None
  {
    var f := CreateFunction(VerbatimName(a, b), 1 + a, b, [Some(String)] + seq(a, _ => None));
    f.(isMSize := true, parameters := seq(1 + a, _ => defaultType), results := seq(b, _ => defaultType))
  }

  /** The memo table behind verbatimFunction, keyed by (arguments, results). */
  type VerbatimCache = map<(nat, nat), BuiltinFunction>

  ghost predicate CacheSound(c: VerbatimCache, defaultType: string) {
    forall key :: key in c ==> c[key] == VerbatimFunction(defaultType, key.0, key.1)
  }

  /** verbatimFunction with its memo table made explicit: an existing entry is
      returned as is, otherwise one is created and remembered. */
  function CachedVerbatimFunction(c: VerbatimCache, defaultType: string, a: nat, b: nat): (res: (VerbatimCache, BuiltinFunction))
    ensures (a, b) in res.0 && res.0[(a, b)] == res.1
    ensures c.Keys <= res.0.Keys && res.0.Keys <= c.Keys + {(a, b)}
    ensures forall key :: key in c ==> res.0[key] == c[key]
    ensures CacheSound(c, defaultType) ==> CacheSound(res.0, defaultType) && res.1 == VerbatimFunction(defaultType, a, b)
  {
    if (a, b) in c then (c, c[(a, b)])
    else
      var f := VerbatimFunction(defaultType, a, b);
      (c[(a, b) := f], f)
  }

  /** The same arity pair always yields the same descriptor, whatever other
      pairs were asked for in between. */
  lemma {:induction false} CachedVerbatimStable(c: VerbatimCache, dt: string, a: nat, b: nat, a2: nat, b2: nat)
    ensures var (c1, f1) := CachedVerbatimFunction(c, dt, a, b);
      var (c2, _) := CachedVerbatimFunction(c1, dt, a2, b2);
      CachedVerbatimFunction(c2, dt, a, b).1 == f1
  {
  }

  // ---------------------------------------------------------------------
  // The typed dialect's signature rewrites

  const U256 := "u256"
  const Bool := "bool"

  function Retyped(f: BuiltinFunction, t: string): BuiltinFunction {
    f.(parameters := seq(|f.parameters|, _ => t), results := seq(|f.results|, _ => t))
  }

  /** Reading an entry through operator[] (a missing key reads as a
      default descriptor, and is inserted). */
  function At(m: BuiltinsMap, k: string): BuiltinFunction {
    if k in m then m[k] else EmptyBuiltin
  }

  const Comparisons: set<string> := {"lt", "gt", "slt", "sgt", "eq"}

  /** Names the typed dialect's constructor writes to. */
  const TypedWritten: set<string> :=
    {"lt", "gt", "slt", "sgt", "eq", "bitnot", "not", "bitand", "bitor", "bitxor",
     "and", "or", "xor", "pop", "popbool", "bool_to_u256", "u256_to_bool"}

  /** The names of the typed dialect's builtins: everything the constructor
      wrote to or read through operator[], except the erased iszero. */
  function TypedNames(m: BuiltinsMap): set<string> {
    (m.Keys + TypedWritten) - {"iszero"}
  }

  /** What the typed dialect's table holds under `k` once its constructor has
      run over the untyped table `m`: all types are first set to u256, the
      comparisons then return bool; bitnot is the old not and not is the old
      iszero, as bool -> bool; bitand, bitor and bitxor are the old and, or
      and xor, which become bool x bool -> bool; popbool is pop taking a
      bool; bool_to_u256 and u256_to_bool are inserted unless present and
      then given their signatures. */
  function TypedEntry(m: BuiltinsMap, k: string): BuiltinFunction {
    var u := (name: string) => Retyped(At(m, name), U256);
    if k in Comparisons then u(k).(results := [Bool])
    else if k == "bitnot" then u("not").(name := "bitnot")
    else if k == "not" then u("iszero").(name := "not", results := [Bool], parameters := [Bool])
    else if k == "bitand" then u("and").(name := "bitand")
    else if k == "bitor" then u("or").(name := "bitor")
    else if k == "bitxor" then u("xor").(name := "bitxor")
    else if k == "and" || k == "or" || k == "xor" then u(k).(parameters := [Bool, Bool], results := [Bool])
    else if k == "popbool" then u("pop").(name := "popbool", parameters := [Bool])
    else if k == "bool_to_u256" then
      (if k in m then Retyped(m[k], U256) else CreateFunction(k, 1, 1, [])).(parameters := [Bool], results := [U256])
    else if k == "u256_to_bool" then
      (if k in m then Retyped(m[k], U256) else CreateFunction(k, 1, 1, [])).(parameters := [U256], results := [Bool])
    else u(k)
  }

  /** The builtin table of the typed dialect, derived from the untyped one. */
  function TypedBuiltins(m: BuiltinsMap): BuiltinsMap {
    map k | k in TypedNames(m) :: TypedEntry(m, k)
  }

  /** The builtins whose typed signature is not simply "everything u256". */
  predicate IsTypedRewritten(k: string) {
    k in TypedWritten || k == "iszero"
  }

  /** Comparisons return bool, iszero is gone and not is bool -> bool with
      the code of iszero. */
  lemma TypedPredicates(m: BuiltinsMap)
    ensures var r := TypedBuiltins(m);
      && "iszero" !in r
      && "lt" in r && r["lt"].results == [Bool]
      && "gt" in r && r["gt"].results == [Bool]
      && "slt" in r && r["slt"].results == [Bool]
      && "sgt" in r && r["sgt"].results == [Bool]
      && "eq" in r && r["eq"].results == [Bool]
      && "not" in r && r["not"].parameters == [Bool] && r["not"].results == [Bool]
      && ("iszero" in m ==> r["not"].name == "not" && r["not"].instruction == m["iszero"].instruction)
  {
  }

  /** and, or and xor are bool x bool -> bool. */
  lemma TypedBooleanOperators(m: BuiltinsMap)
    ensures var r := TypedBuiltins(m);
      && "and" in r && r["and"].parameters == [Bool, Bool] && r["and"].results == [Bool]
      && "or" in r && r["or"].parameters == [Bool, Bool] && r["or"].results == [Bool]
      && "xor" in r && r["xor"].parameters == [Bool, Bool] && r["xor"].results == [Bool]
  {
  }

  /** bitand, bitor, bitxor and bitnot are the u256 forms of the untyped
      and, or, xor and not under their new names. */
  lemma TypedBitCopies(m: BuiltinsMap)
    ensures var r := TypedBuiltins(m);
      && ("and" in m ==> "bitand" in r && r["bitand"] == Retyped(m["and"], U256).(name := "bitand"))
      && ("or" in m ==> "bitor" in r && r["bitor"] == Retyped(m["or"], U256).(name := "bitor"))
      && ("xor" in m ==> "bitxor" in r && r["bitxor"] == Retyped(m["xor"], U256).(name := "bitxor"))
      && ("not" in m ==> "bitnot" in r && r["bitnot"] == Retyped(m["not"], U256).(name := "bitnot"))
  {
  }

  /** pop is all-u256 and popbool is pop taking a bool; the conversions
      exist with the expected signatures. */
  lemma TypedPopAndConversions(m: BuiltinsMap)
    ensures var r := TypedBuiltins(m);
      && ("pop" in m ==> "pop" in r && r["pop"] == Retyped(m["pop"], U256))
      && ("pop" in m ==> "popbool" in r && r["popbool"] == Retyped(m["pop"], U256).(name := "popbool", parameters := [Bool]))
      && "bool_to_u256" in r && r["bool_to_u256"].parameters == [Bool] && r["bool_to_u256"].results == [U256]
      && "u256_to_bool" in r && r["u256_to_bool"].parameters == [U256] && r["u256_to_bool"].results == [Bool]
  {
  }

  /** Every builtin the typed dialect does not rewrite keeps its name and
      arity, with every parameter and return type u256, and no other name
      appears. */
  lemma TypedOthersAllU256(m: BuiltinsMap, k: string)
    requires !IsTypedRewritten(k)
    ensures k in TypedBuiltins(m) <==> k in m
    ensures k in m ==> TypedBuiltins(m)[k] == Retyped(m[k], U256)
  {
  }
}

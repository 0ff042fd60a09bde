/** The dialects the front end actually builds meet what the name
    repository's construction needs of a dialect: the deprecated Yul
    dialect unconditionally, the EVM dialect and its typed variant for any
    instruction table whose lower-cased mnemonics are non-empty and clash
    neither with the verbatim family nor with the typed dialect's type
    names (true of the EVM instruction set, whose mnemonics are upper-case
    opcode names such as ADD or SSTORE). */
module DialectsCoherent {
  import opened Wrappers
  import opened Strings
  import opened Evm
  import opened Builtins
  import opened EvmDialect
  import opened Dialects
  import Names

  /** A lower-cased mnemonic that can become a builtin label. */
  predicate SeparateMnemonic(k: string) {
    k != "" && !StartsWith(k, "verbatim") && k != "@ verbatim" && k != U256 && k != Bool
  }

  predicate SeparateMnemonics(table: seq<TableEntry>) {
    forall i :: 0 <= i < |table| ==> SeparateMnemonic(ToLower(table[i].mnemonic))
  }

  /** Every name of the verbatim family starts with "verbatim". */
  lemma VerbatimFamilyPrefix(s: string)
    requires ParseVerbatimName(s).Some?
    ensures StartsWith(s, "verbatim")
  {
    assert s[..8] == s[..9][..8];
  }

  /** The untyped EVM table holds each builtin under its own name, with
      every parameter and return of the empty type, and no key clashes with
      the verbatim family or the types. */
  lemma CreateBuiltinsShape(table: seq<TableEntry>, v: EvmVersion, objectAccess: bool, k: string)
    requires SeparateMnemonics(table) && k in CreateBuiltins(table, v, objectAccess)
    ensures var f := CreateBuiltins(table, v, objectAccess)[k];
      && f.name == k && Names.TypesIn(f, {""})
    ensures SeparateMnemonic(k) || IsObjectBuiltinName(k)
  {
    var m := InstructionBuiltins(table, v);
    if k in m {
      InstructionBuiltinsFirst(table, v, k);
      var i :| FirstIncluded(table, v, k, i) && m[k] == CreateEVMFunction(k, table[i]);
      assert SeparateMnemonic(ToLower(table[i].mnemonic));
    } else {
      assert objectAccess && IsObjectBuiltinName(k);
    }
  }

  /** None of the object builtins' names is reserved for anything else. */
  lemma ObjectNamesSeparate(k: string)
    requires IsObjectBuiltinName(k)
    ensures !StartsWith(k, "verbatim") && k != "" && k != "@ verbatim" && k != U256 && k != Bool
    ensures ParseVerbatimName(k).None?
  {
    assert k[0] != 'v';
    if |k| >= 8 {
      assert k[..8][0] == k[0];
    }
  }

  /** A table key is not a name of the verbatim family. */
  lemma KeyNotVerbatim(table: seq<TableEntry>, v: EvmVersion, objectAccess: bool, k: string)
    requires SeparateMnemonics(table) && k in CreateBuiltins(table, v, objectAccess)
    ensures ParseVerbatimName(k).None? && k != "" && k != "@ verbatim" && k != "verbatim" && k != U256 && k != Bool
  {
    CreateBuiltinsShape(table, v, objectAccess, k);
    if IsObjectBuiltinName(k) {
      ObjectNamesSeparate(k);
    } else if ParseVerbatimName(k).Some? {
      VerbatimFamilyPrefix(k);
    }
  }

  /** The deprecated Yul dialect has eleven types and no builtins. */
  lemma YulDeprecatedCoherent()
    ensures Names.Coherent(YulDeprecated())
  {
  }

  /** What an EVM dialect's table has to satisfy for the construction:
      keys that are neither empty, the placeholder label, a type nor a name
      of the verbatim family, descriptors named otherwise than "verbatim...",
      whose types are the dialect's own. */
  ghost predicate TableFits(d: Dialect)
    requires d.flavour.EvmFlavour?
  {
    var m := d.flavour.functions;
    && "" !in m && "@ verbatim" !in m && "verbatim" !in m
    && (forall k :: k in m ==> ParseVerbatimName(k).None? && k !in d.types)
    && (forall k :: k in m ==> !StartsWith(m[k].name, "verbatim") && Names.TypesIn(m[k], d.types))
  }

  /** What an EVM dialect's types have to satisfy: the default and bool
      types are among them, each is handled by the typed helpers, and none
      is the placeholder label, "verbatim" or a name of the verbatim family. */
  ghost predicate TypesFit(d: Dialect)
    requires d.flavour.EvmFlavour?
  {
    && d.defaultType in d.types && d.boolType in d.types
    && "@ verbatim" !in d.types && "verbatim" !in d.types
    && (forall t :: t in d.types ==> Dialects.TypeHandled(d, t) && ParseVerbatimName(t).None?)
  }

  /** An EVM dialect whose table and types fit is coherent. */
  lemma CoherentFromFit(d: Dialect)
    requires d.flavour.EvmFlavour? && TableFits(d) && TypesFit(d)
    ensures Names.Coherent(d)
  {
    var m := d.flavour.functions;
    assert ParseVerbatimName("").None? && ParseVerbatimName("@ verbatim").None?;
    assert ParseVerbatimName("verbatim").None?;
    forall name | Dialects.Builtin(d, name).Some?
      ensures Names.TypesIn(Dialects.Builtin(d, name).value, d.types)
    {
      if d.flavour.objectAccess && ParseVerbatimName(name).Some? {
        var (a, b) := ParseVerbatimName(name).value;
        ParsedVerbatimNameCanonical(name);
      }
    }
    forall l | l in BuiltinNames(d) ensures !Names.VerbatimLabel(d, l) {
    }
  }

  /** The untyped table's keys and descriptors fit the untyped dialect. */
  lemma EvmTableFits(table: seq<TableEntry>, v: EvmVersion, objectAccess: bool)
    requires SeparateMnemonics(table)
    ensures TableFits(EvmDialectOf(table, v, objectAccess))
  {
    var m := CreateBuiltins(table, v, objectAccess);
    forall k | k in m ensures ParseVerbatimName(k).None? && k != "" && k != "@ verbatim" {
      KeyNotVerbatim(table, v, objectAccess, k);
    }
    forall k | k in m ensures !StartsWith(m[k].name, "verbatim") && Names.TypesIn(m[k], {""}) {
      CreateBuiltinsShape(table, v, objectAccess, k);
      KeyNotVerbatim(table, v, objectAccess, k);
      if IsObjectBuiltinName(k) { ObjectNamesSeparate(k); }
    }
    if "verbatim" in m {
      CreateBuiltinsShape(table, v, objectAccess, "verbatim");
    }
  }

  /** The untyped EVM dialect, with or without object access. */
  lemma EvmDialectCoherent(table: seq<TableEntry>, v: EvmVersion, objectAccess: bool)
    requires SeparateMnemonics(table)
    ensures Names.Coherent(EvmDialectOf(table, v, objectAccess))
  {
    var d := EvmDialectOf(table, v, objectAccess);
    EvmTableFits(table, v, objectAccess);
    assert ParseVerbatimName("").None?;
    CoherentFromFit(d);
  }

  /** The typed table's descriptors are all u256 and bool; a written name
      is never one of the verbatim family's, and every descriptor is named
      after the untyped table's descriptors or by the constructor. */
  lemma TypedEntryShape(m: BuiltinsMap, k: string)
    requires forall x :: x in m ==> !StartsWith(m[x].name, "verbatim")
    ensures Names.TypesIn(TypedEntry(m, k), {U256, Bool})
    ensures k in TypedWritten || k in m ==> !StartsWith(TypedEntry(m, k).name, "verbatim")
  {
    TypedEntryTypes(m, k);
    if k in TypedWritten || k in m {
      TypedEntryName(m, k);
    }
  }

  /** Retyping to u256 leaves nothing but u256. */
  lemma RetypedIn(f: BuiltinFunction)
    ensures Names.TypesIn(Retyped(f, U256), {U256, Bool})
  {
    var g := Retyped(f, U256);
    assert forall j :: 0 <= j < |g.parameters| ==> g.parameters[j] == U256;
    assert forall j :: 0 <= j < |g.results| ==> g.results[j] == U256;
  }

  lemma TypedEntryTypes(m: BuiltinsMap, k: string)
    ensures Names.TypesIn(TypedEntry(m, k), {U256, Bool})
  {
    if k == "bool_to_u256" || k == "u256_to_bool" {
    } else if k in Comparisons || k in {"and", "or", "xor", "not", "popbool"} {
    } else if k in {"bitnot", "bitand", "bitor", "bitxor"} {
      RetypedIn(At(m, if k == "bitnot" then "not" else k[3..]));
    } else {
      RetypedIn(At(m, k));
    }
  }

  lemma TypedEntryName(m: BuiltinsMap, k: string)
    requires forall x :: x in m ==> !StartsWith(m[x].name, "verbatim")
    requires k in TypedWritten || k in m
    ensures !StartsWith(TypedEntry(m, k).name, "verbatim")
  {
    var name := TypedEntry(m, k).name;
    if k in {"bitnot", "not", "bitand", "bitor", "bitxor", "popbool"} {
      assert name[0] != 'v';
    } else if (k == "bool_to_u256" || k == "u256_to_bool") && k !in m {
      assert name[0] != 'v';
    } else {
      assert name == At(m, k).name;
    }
  }

  /** One key of the typed table. */
  lemma TypedKeyFits(table: seq<TableEntry>, v: EvmVersion, objectAccess: bool, k: string)
    requires SeparateMnemonics(table)
    requires k in TypedBuiltins(CreateBuiltins(table, v, objectAccess))
    ensures ParseVerbatimName(k).None? && k != "" && k != "@ verbatim" && k != "verbatim" && k != U256 && k != Bool
    ensures var f := TypedBuiltins(CreateBuiltins(table, v, objectAccess))[k];
      !StartsWith(f.name, "verbatim") && Names.TypesIn(f, {U256, Bool})
  {
    var m := CreateBuiltins(table, v, objectAccess);
    NamesNotVerbatim(table, v, objectAccess);
    if k in m {
      KeyNotVerbatim(table, v, objectAccess, k);
    } else {
      WrittenNotVerbatim(k);
    }
    assert TypedBuiltins(m)[k] == TypedEntry(m, k);
    TypedEntryShape(m, k);
  }

  /** No descriptor of the untyped table is named like the verbatim family. */
  lemma NamesNotVerbatim(table: seq<TableEntry>, v: EvmVersion, objectAccess: bool)
    requires SeparateMnemonics(table)
    ensures var m := CreateBuiltins(table, v, objectAccess);
      forall x :: x in m ==> !StartsWith(m[x].name, "verbatim")
  {
    var m := CreateBuiltins(table, v, objectAccess);
    forall x | x in m ensures !StartsWith(m[x].name, "verbatim") {
      CreateBuiltinsShape(table, v, objectAccess, x);
      KeyNotVerbatim(table, v, objectAccess, x);
      if IsObjectBuiltinName(x) { ObjectNamesSeparate(x); }
    }
  }

  /** The names the typed constructor adds are none of the reserved ones. */
  lemma WrittenNotVerbatim(k: string)
    requires k in TypedWritten
    ensures ParseVerbatimName(k).None? && k != "" && k != "@ verbatim" && k != "verbatim" && k != U256 && k != Bool
  {
    assert k[0] != 'v';
    NotVerbatimFamily(k);
  }

  /** A name that does not start with 'v' is outside the verbatim family. */
  lemma NotVerbatimFamily(s: string)
    ensures s == "" || s[0] != 'v' ==> ParseVerbatimName(s).None?
  {
    if ParseVerbatimName(s).Some? {
      VerbatimFamilyPrefix(s);
      assert s[..8][0] == s[0];
    }
  }

  /** The typed table's keys and descriptors fit the typed dialect. */
  lemma TypedTableFits(table: seq<TableEntry>, v: EvmVersion, objectAccess: bool)
    requires SeparateMnemonics(table)
    ensures TableFits(EvmDialectTypedOf(table, v, objectAccess))
  {
    var d := EvmDialectTypedOf(table, v, objectAccess);
    var t := d.flavour.functions;
    assert t == TypedBuiltins(CreateBuiltins(table, v, objectAccess));
    assert d.types == {U256, Bool};
    forall k | k in t ensures ParseVerbatimName(k).None? && k != "" && k != "@ verbatim" && k != "verbatim" && k !in d.types
      && !StartsWith(t[k].name, "verbatim") && Names.TypesIn(t[k], d.types)
    {
      TypedKeyFits(table, v, objectAccess, k);
    }
  }

  /** The typed EVM dialect, with or without object access. */
  lemma EvmDialectTypedCoherent(table: seq<TableEntry>, v: EvmVersion, objectAccess: bool)
    requires SeparateMnemonics(table)
    ensures Names.Coherent(EvmDialectTypedOf(table, v, objectAccess))
  {
    var d := EvmDialectTypedOf(table, v, objectAccess);
    TypedTableFits(table, v, objectAccess);
    assert ParseVerbatimName(U256).None? && ParseVerbatimName(Bool).None?;
    CoherentFromFit(d);
  }

  /** In the repository built for the EVM dialect every builtin name is
      found by nameOfBuiltin and reads back through labelOf; the names with
      a descriptor (all but the bare "verbatim") are registered with it. */
  lemma EvmRepoBuiltinRoundTrip(table: seq<TableEntry>, v: EvmVersion, objectAccess: bool, l: string)
    requires SeparateMnemonics(table) && l in BuiltinNames(EvmDialectOf(table, v, objectAccess))
    ensures Names.Coherent(EvmDialectOf(table, v, objectAccess))
    ensures var d := EvmDialectOf(table, v, objectAccess);
      Names.Coherent(d) &&
      var r := Names.Create(d);
      var h := Names.NameOfBuiltin(r, l);
      && h != Names.EmptyName && h < |r.names|
      && Names.LabelOf(r, h) == Success(l)
      && (Dialects.Builtin(d, l).Some? ==> Names.Builtin(r, h).Some? && Names.Builtin(r, h).value.data == Dialects.Builtin(d, l).value)
  {
    var d := EvmDialectOf(table, v, objectAccess);
    EvmDialectCoherent(table, v, objectAccess);
    EvmBuiltinNamed(table, v, objectAccess, l);
    Names.CreateRegistersBuiltin(d, l);
  }

  /** No builtin of the EVM dialect has the empty name. */
  lemma EvmBuiltinNamed(table: seq<TableEntry>, v: EvmVersion, objectAccess: bool, l: string)
    requires SeparateMnemonics(table) && l in BuiltinNames(EvmDialectOf(table, v, objectAccess))
    ensures l != ""
  {
    EvmTableFits(table, v, objectAccess);
  }
}

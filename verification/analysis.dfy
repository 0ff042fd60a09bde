/** The state and the leaf checks of the Yul analyzer (AsmAnalyzer in
    libyul/AsmAnalysis.cpp): what the analyzer is configured with, what it
    carries along while walking the tree, and every check that does not
    recurse into the tree. The walk itself is in module Analyzer.

    The scope tree ScopeFiller builds (libyul/Scope.cpp and ScopeFiller are
    not part of this model) is given as a finished table: the scope of each
    block, the identifiers each scope declares, and the answer of
    Scope::lookup for every (scope, name) it finds. Diagnostics carry a kind
    and a code; message texts are left out, and so are the labelOf calls
    made only to build them. */
module Analysis {
  import opened Wrappers
  import opened Strings
  import opened Evm
  import opened Builtins
  import opened Dialects
  import opened Names
  import opened Ast
  import opened Diagnostics
  import opened Literals
  import opened InstructionGate

  type ScopeId = nat

  /** Scope::Identifier: a variable with its type, or a function with its
      signature. */
  datatype Binding = Var(typ: YulName) | Fun(arguments: seq<YulName>, results: seq<YulName>)

  /** What Scope::lookup found: the scope declaring the name, and what it is. */
  datatype Found = Found(owner: ScopeId, binding: Binding)

  /** A variable's identity (the address of its Scope::Variable): the scope
      declaring it and its name. */
  datatype VarId = VarId(owner: ScopeId, name: YulName)

  /** AsmAnalysisInfo as ScopeFiller leaves it. Blocks and function
      definitions are known by their ids. */
  datatype Info = Info(
    scopes: map<nat, ScopeId>,
    identifiers: map<ScopeId, map<YulName, Binding>>,
    lookup: map<(ScopeId, YulName), Found>,
    insideFunction: set<ScopeId>,
    virtualBlocks: map<nat, nat>)

  /** Why the external resolver is asked about a name (the NonExternal
      queries are not modelled). */
  datatype IdentifierContext = LValue | RValue | Declaring

  /** The external resolver's answer: whether it knows the name, and the
      diagnostics it raised through the shared reporter. */
  datatype Reply = Reply(found: bool, raised: seq<Diagnostic>)

  type Resolver = (YulName, IdentifierContext, bool) -> Reply

  /** What the analyzer is built with: the name repository, the scopes, the
      target version, the default EVM dialect (against which unknown names
      are matched to instructions), the data object names, the optional
      resolver, the reporter's error ceiling, and formatLiteral. */
  datatype Config = Config(
    repo: Repo,
    info: Info,
    version: EvmVersion,
    defaultDialect: Dialect,
    dataNames: set<string>,
    resolver: Option<Resolver>,
    errorLimit: nat,
    formatLiteral: Literal -> string)

  /** What the walk carries: the diagnostics so far, the active variables,
      the current scope (none before the first block) and the innermost
      for loop. */
  datatype St = St(diags: seq<Diagnostic>, active: set<VarId>, scope: Option<ScopeId>, forLoop: Option<nat>)

  /** A value computed along with the state after computing it. */
  datatype Out<+T> = Out(st: St, val: T)

  const MaxU256: nat := 0xffff_ffff_ffff_ffff_ffff_ffff_ffff_ffff_ffff_ffff_ffff_ffff_ffff_ffff_ffff_ffff

  /** What an expression check leaves alone: everything but new diagnostics. */
  predicate Extends(st: St, st2: St) {
    && st2.active == st.active && st2.scope == st.scope && st2.forLoop == st.forLoop
    && st.diags <= st2.diags
  }

  /** What a statement check leaves alone: scope and loop are restored,
      diagnostics and active variables only grow. */
  predicate Advances(st: St, st2: St) {
    && st2.scope == st.scope && st2.forLoop == st.forLoop
    && st.diags <= st2.diags && st.active <= st2.active
  }

  /** The same diagnostics with one more. */
  predicate Added(st: St, st2: St, kind: Kind, code: nat) {
    st2 == st.(diags := st.diags + [Diagnostic(kind, code)])
  }

  // ---------------------------------------------------------------------
  // Reporting

  /** Reports one diagnostic through the reporter. */
  function Emit(cfg: Config, st: St, kind: Kind, code: nat): (r: Result<St, Stop>)
    ensures r.Success? ==> Added(st, r.value, kind, code)
    ensures r.Failure? ==> r.error == Fatal && kind != Warning
    ensures kind == Warning ==> r.Success?
  {
    var ds :- Report(cfg.errorLimit, st.diags, Diagnostic(kind, code));
    Success(st.(diags := ds))
  }

  /** Reports a warning; warnings do not count towards the ceiling. */
  function Warn(cfg: Config, st: St, code: nat): (st2: St)
    ensures Added(st, st2, Warning, code)
  {
    var ds := Report(cfg.errorLimit, st.diags, Diagnostic(Warning, code));
    st.(diags := ds.value)
  }

  /** Reports a diagnostic when the condition holds. */
  function EmitIf(cfg: Config, st: St, cond: bool, kind: Kind, code: nat): (r: Result<St, Stop>)
    ensures r.Success? && cond ==> Added(st, r.value, kind, code)
    ensures r.Success? && !cond ==> r.value == st
    ensures r.Failure? ==> r.error == Fatal && cond
  {
    if cond then Emit(cfg, st, kind, code) else Success(st)
  }

  /** A diagnostic appended after `mark` is found by ReportedSince, and
      later diagnostics do not hide it. */
  lemma ReportedKept(ds: seq<Diagnostic>, d: Diagnostic, ds2: seq<Diagnostic>, mark: nat)
    requires mark <= |ds| && ds + [d] <= ds2
    ensures ReportedSince(ds2, mark, d.code)
    ensures IsError(d) ==> !NoErrorSince(ds2, mark)
  {
    assert ds2[|ds|] == (ds + [d])[|ds|] == d;
  }

  /** A code reported since `mark` stays reported as diagnostics are added. */
  lemma ReportedGrows(ds: seq<Diagnostic>, ds2: seq<Diagnostic>, mark: nat, code: nat)
    requires ReportedSince(ds, mark, code) && ds <= ds2
    ensures ReportedSince(ds2, mark, code)
  {
    var i :| mark <= i < |ds| && ds[i].code == code;
    assert ds2[i] == ds[i];
  }

  /** A watcher made at `mark` is happy exactly when it was happy at an
      intermediate point and a watcher made there is happy too. */
  lemma NoErrorSinceSplit(ds: seq<Diagnostic>, ds2: seq<Diagnostic>, mark: nat)
    requires mark <= |ds| && ds <= ds2
    ensures NoErrorSince(ds2, mark) <==> NoErrorSince(ds, mark) && NoErrorSince(ds2, |ds|)
  {
    assert forall i :: mark <= i < |ds| ==> ds2[i] == ds[i];
  }

  /** A watcher that saw an error keeps seeing it. */
  lemma ErrorKept(ds: seq<Diagnostic>, ds2: seq<Diagnostic>, mark: nat)
    requires !NoErrorSince(ds, mark) && ds <= ds2
    ensures !NoErrorSince(ds2, mark)
  {
    var i :| mark <= i < |ds| && IsError(ds[i]);
    assert ds2[i] == ds[i];
  }

  // ---------------------------------------------------------------------
  // Repository and scope access

  /** labelOf, with its bounds assertion. */
  function Label(cfg: Config, h: YulName): (r: Result<string, Stop>)
    requires Links(cfg.repo)
    ensures r.Success? <==> h < |cfg.repo.names| && LabelOf(cfg.repo, h).Success?
    ensures r.Success? ==> r == LabelOf(cfg.repo, h)
  {
    if h >= |cfg.repo.names| then Failure(Assertion) else LabelOf(cfg.repo, h)
  }

  /** The scope of a block (AsmAnalyzer::scope). */
  function ScopeOf(cfg: Config, block: nat): (r: Result<ScopeId, Stop>)
    ensures r.Success? <==> block in cfg.info.scopes
    ensures r.Success? ==> r.value == cfg.info.scopes[block]
  {
    if block in cfg.info.scopes then Success(cfg.info.scopes[block]) else Failure(Assertion)
  }

  /** The current scope; dereferencing it before any block is entered fails. */
  function Current(st: St): (r: Result<ScopeId, Stop>)
    ensures r.Success? <==> st.scope.Some?
    ensures r.Success? ==> r.value == st.scope.value
  {
    if st.scope.Some? then Success(st.scope.value) else Failure(Assertion)
  }

  /** Scope::lookup from a scope. */
  function LookupIn(cfg: Config, scope: ScopeId, name: YulName): Option<Found> {
    if (scope, name) in cfg.info.lookup then Some(cfg.info.lookup[(scope, name)]) else None
  }

  /** The variable `name` a scope declares itself (identifiers.at followed by
      std::get; anything else throws). */
  function DeclaredVariable(cfg: Config, scope: ScopeId, name: YulName): (r: Result<VarId, Stop>)
    ensures r.Success? <==>
      scope in cfg.info.identifiers && name in cfg.info.identifiers[scope] && cfg.info.identifiers[scope][name].Var?
    ensures r.Success? ==> r.value == VarId(scope, name)
  {
    if scope in cfg.info.identifiers && name in cfg.info.identifiers[scope] && cfg.info.identifiers[scope][name].Var?
    then Success(VarId(scope, name))
    else Failure(Assertion)
  }

  /** Asks the resolver, if any, and records what it raised. */
  function Resolve(cfg: Config, st: St, name: YulName, context: IdentifierContext, scope: ScopeId): (r: Result<Out<bool>, Stop>)
    ensures r.Success? ==> Extends(st, r.value.st)
    ensures r.Success? && cfg.resolver.None? ==> r.value == Out(st, false)
    ensures r.Success? && cfg.resolver.Some? ==>
      var reply := cfg.resolver.value(name, context, scope in cfg.info.insideFunction);
      r.value == Out(st.(diags := st.diags + reply.raised), reply.found)
    ensures r.Failure? ==> r.error == Fatal
  {
    if cfg.resolver.None? then Success(Out(st, false))
    else
      var reply := cfg.resolver.value(name, context, scope in cfg.info.insideFunction);
      var ds :- ReportAll(cfg.errorLimit, st.diags, reply.raised);
      Success(Out(st.(diags := ds), reply.found))
  }

  // ---------------------------------------------------------------------
  // Types

  /** expectValidType: only the dialect's own types are accepted. */
  function ExpectValidType(cfg: Config, st: St, t: YulName): (r: Result<St, Stop>)
    ensures r.Success? && IsType(cfg.repo, t) ==> r.value == st
    ensures r.Success? && !IsType(cfg.repo, t) ==> Added(st, r.value, TypeError, 5473)
    ensures r.Failure? ==> r.error == Fatal && !IsType(cfg.repo, t)
  {
    EmitIf(cfg, st, !IsType(cfg.repo, t), TypeError, 5473)
  }

  /** expectType: the given type must be the expected one. */
  function ExpectType(cfg: Config, st: St, expected: YulName, given: YulName): (r: Result<St, Stop>)
    ensures r.Success? && expected == given ==> r.value == st
    ensures r.Success? && expected != given ==> Added(st, r.value, TypeError, 3781)
    ensures r.Failure? ==> r.error == Fatal && expected != given
  {
    EmitIf(cfg, st, expected != given, TypeError, 3781)
  }

  /** The check expectBoolExpression makes of its expression's type. */
  function ExpectBool(cfg: Config, st: St, t: YulName): (r: Result<St, Stop>)
    ensures r.Success? && t == cfg.repo.predefined.boolType ==> r.value == st
    ensures r.Success? && t != cfg.repo.predefined.boolType ==> Added(st, r.value, TypeError, 1733)
    ensures r.Failure? ==> r.error == Fatal && t != cfg.repo.predefined.boolType
  {
    EmitIf(cfg, st, t != cfg.repo.predefined.boolType, TypeError, 1733)
  }

  /** The parameter types against the argument types, position by position
      from `i` on: the watcher stays happy exactly when they all agree. */
  function ExpectTypes(cfg: Config, st: St, expected: seq<YulName>, given: seq<YulName>, i: nat): (r: Result<St, Stop>)
    requires |expected| == |given| && i <= |expected|
    ensures r.Success? ==> Extends(st, r.value)
    ensures r.Success? ==>
      (NoErrorSince(r.value.diags, |st.diags|) <==> forall j :: i <= j < |expected| ==> expected[j] == given[j])
    ensures r.Failure? ==> r.error == Fatal
    decreases |expected| - i
  {
    if i == |expected| then Success(st)
    else
      var st1 :- ExpectType(cfg, st, expected[i], given[i]);
      var st2 :- ExpectTypes(cfg, st1, expected, given, i + 1);
      if expected[i] != given[i] then
        ReportedKept(st.diags, Diagnostic(TypeError, 3781), st2.diags, |st.diags|);
        Success(st2)
      else
        Success(st2)
  }

  // ---------------------------------------------------------------------
  // Identifiers

  /** The text of a name expectValidIdentifier accepts without a word. */
  predicate ValidIdentifierText(cfg: Config, text: string) {
    !EndsWith(text, ".") && !HasDoubleDot(text) && !ReservedIdentifier(cfg.repo.dialect, text)
  }

  /** A declared name and type that draw no error: the type is one of the
      dialect's and the name's text is a valid identifier. */
  predicate WellDeclared(cfg: Config, v: TypedName)
    requires Links(cfg.repo)
  {
    IsType(cfg.repo, v.typ) && Label(cfg, v.name).Success? && ValidIdentifierText(cfg, Label(cfg, v.name).value)
  }

  /** expectValidIdentifier: a declared name may not end with a dot,
      contain two consecutive dots, or be reserved by the dialect. Each
      rule reports on its own. */
  function ExpectValidIdentifier(cfg: Config, st: St, name: YulName): (r: Result<St, Stop>)
    requires Links(cfg.repo)
    ensures r.Success? ==> Extends(st, r.value) && Label(cfg, name).Success?
    ensures r.Success? ==>
      var text := Label(cfg, name).value;
      var mark := |st.diags|;
      && (ReportedSince(r.value.diags, mark, 3384) <==> EndsWith(text, "."))
      && (ReportedSince(r.value.diags, mark, 7771) <==> HasDoubleDot(text))
      && (ReportedSince(r.value.diags, mark, 5017) <==> ReservedIdentifier(cfg.repo.dialect, text))
      && |r.value.diags| <= mark + 3
    ensures r.Success? ==>
      (NoErrorSince(r.value.diags, |st.diags|) <==> ValidIdentifierText(cfg, Label(cfg, name).value))
    ensures r.Failure? ==> r.error == Fatal || Label(cfg, name).Failure?
  {
    var text :- Label(cfg, name);
    var st1 :- EmitIf(cfg, st, EndsWith(text, "."), SyntaxError, 3384);
    FindDoubleDotFinds(text);
    var st2 :- EmitIf(cfg, st1, FindDoubleDot(text, 0) < |text|, SyntaxError, 7771);
    var st3 :- EmitIf(cfg, st2, ReservedIdentifier(cfg.repo.dialect, text), DeclarationError, 5017);
    IdentifierDiagnostics(st, st1, st2, st3, EndsWith(text, "."), HasDoubleDot(text), ReservedIdentifier(cfg.repo.dialect, text));
    Success(st3)
  }

  /** The bookkeeping behind ExpectValidIdentifier's contract: each rule
      adds its own diagnostic exactly when it is broken. */
  lemma IdentifierDiagnostics(st: St, st1: St, st2: St, st3: St, trailing: bool, doubled: bool, reserved: bool)
    requires if trailing then Added(st, st1, SyntaxError, 3384) else st1 == st
    requires if doubled then Added(st1, st2, SyntaxError, 7771) else st2 == st1
    requires if reserved then Added(st2, st3, DeclarationError, 5017) else st3 == st2
    ensures Extends(st, st3) && |st3.diags| <= |st.diags| + 3
    ensures ReportedSince(st3.diags, |st.diags|, 3384) <==> trailing
    ensures ReportedSince(st3.diags, |st.diags|, 7771) <==> doubled
    ensures ReportedSince(st3.diags, |st.diags|, 5017) <==> reserved
    ensures NoErrorSince(st3.diags, |st.diags|) <==> !trailing && !doubled && !reserved
  {
    var mark := |st.diags|;
    assert forall i :: mark <= i < |st3.diags| ==> st3.diags[i].code in {3384, 7771, 5017} && IsError(st3.diags[i]);
    if trailing {
      ReportedKept(st.diags, Diagnostic(SyntaxError, 3384), st3.diags, mark);
    }
    if doubled {
      ReportedKept(st1.diags, Diagnostic(SyntaxError, 7771), st3.diags, mark);
    }
    if reserved {
      ReportedKept(st2.diags, Diagnostic(DeclarationError, 5017), st3.diags, mark);
    }
  }

  /** The Identifier visit: a variable yields its type (and is reported if
      not yet active), a function yields the default type and is reported
      as used without a call, and an unknown name is left to the resolver,
      reported only if the resolver neither knows it nor raised an error. */
  function AnalyzeIdentifier(cfg: Config, st: St, name: YulName): (r: Result<Out<seq<YulName>>, Stop>)
    ensures r.Success? ==> Extends(st, r.value.st) && st.scope.Some? && name != EmptyName
    ensures r.Success? ==> match LookupIn(cfg, st.scope.value, name)
      case Some(Found(owner, Var(t))) =>
        r.value.val == [t] &&
        (if VarId(owner, name) in st.active then r.value.st == st else Added(st, r.value.st, DeclarationError, 4990))
      case Some(Found(_, Fun(_, _))) =>
        r.value.val == [cfg.repo.predefined.defaultType] && Added(st, r.value.st, TypeError, 6041)
      case None =>
        r.value.val == [cfg.repo.predefined.defaultType]
    ensures r.Failure? ==> r.error == Fatal || name == EmptyName || st.scope.None?
  {
    if name == EmptyName then Failure(Assertion)
    else
      var scope :- Current(st);
      match LookupIn(cfg, scope, name)
      case Some(Found(owner, Var(t))) =>
        var st1 :- EmitIf(cfg, st, VarId(owner, name) !in st.active, DeclarationError, 4990);
        Success(Out(st1, [t]))
      case Some(Found(_, Fun(_, _))) =>
        var st1 :- Emit(cfg, st, TypeError, 6041);
        Success(Out(st1, [cfg.repo.predefined.defaultType]))
      case None =>
        var res :- Resolve(cfg, st, name, RValue, scope);
        var st1 :- EmitIf(cfg, res.st, !res.val && NoErrorSince(res.st.diags, |st.diags|), DeclarationError, 8198);
        Success(Out(st1, [cfg.repo.predefined.defaultType]))
  }

  /** An unknown name the resolver does not know either is always reported
      by someone: the watcher of the identifier sees an error. */
  lemma UnknownIdentifierReported(cfg: Config, st: St, name: YulName)
    requires AnalyzeIdentifier(cfg, st, name).Success?
    requires LookupIn(cfg, st.scope.value, name).None?
    requires cfg.resolver.None? || !cfg.resolver.value(name, RValue, st.scope.value in cfg.info.insideFunction).found
    ensures !NoErrorSince(AnalyzeIdentifier(cfg, st, name).value.st.diags, |st.diags|)
  {
    var scope := st.scope.value;
    var res := Resolve(cfg, st, name, RValue, scope).value;
    var ds := AnalyzeIdentifier(cfg, st, name).value.st.diags;
    if NoErrorSince(res.st.diags, |st.diags|) {
      ReportedKept(res.st.diags, Diagnostic(DeclarationError, 8198), ds, |st.diags|);
    } else {
      ErrorKept(res.st.diags, ds, |st.diags|);
    }
  }

  /** A target checkAssignment accepts without error: an active variable of
      the value's type, or, for a name no scope declares, one the resolver
      accepts as an lvalue without raising an error, when the value has the
      default type. */
  predicate TargetClean(cfg: Config, scope: Option<ScopeId>, active: set<VarId>, name: YulName, valueType: YulName) {
    && scope.Some? && name != EmptyName
    && match LookupIn(cfg, scope.value, name)
      case Some(Found(_, Fun(_, _))) => false
      case Some(Found(owner, Var(t))) => VarId(owner, name) in active && t == valueType
      case None =>
        && cfg.resolver.Some?
        && var reply := cfg.resolver.value(name, LValue, scope.value in cfg.info.insideFunction);
        && reply.found && NoErrorSince(reply.raised, 0) && cfg.repo.predefined.defaultType == valueType
  }

  /** checkAssignment: the target must be an active variable of the value's
      type, or a name the resolver accepts as an lvalue (of the default
      type). The closing assertion, that a happy watcher means the
      variable's type is known, always holds. */
  function CheckAssignment(cfg: Config, st: St, name: YulName, valueType: YulName): (r: Result<St, Stop>)
    ensures r.Success? ==> Extends(st, r.value) && st.scope.Some? && name != EmptyName
    ensures r.Success? ==> match LookupIn(cfg, st.scope.value, name)
      case Some(Found(_, Fun(_, _))) => Added(st, r.value, TypeError, 2657)
      case Some(Found(owner, Var(t))) =>
        if VarId(owner, name) !in st.active then Added(st, r.value, DeclarationError, 1133)
        else if t != valueType then Added(st, r.value, TypeError, 9547)
        else r.value == st
      case None => true
    ensures r.Success? && LookupIn(cfg, st.scope.value, name).None? && cfg.resolver.None? ==>
      Added(st, r.value, DeclarationError, 4634)
    ensures r.Success? ==>
      (NoErrorSince(r.value.diags, |st.diags|) <==> TargetClean(cfg, st.scope, st.active, name, valueType))
    ensures r.Success? && cfg.resolver.None? ==> OnlyCodesSince(r.value.diags, |st.diags|, {2657, 1133, 4634, 9547})
    ensures r.Failure? ==> r.error == Fatal || name == EmptyName || st.scope.None?
  {
    if name == EmptyName then Failure(Assertion)
    else
      var scope :- Current(st);
      var mark := |st.diags|;
      var found :- match LookupIn(cfg, scope, name)
        case Some(Found(_, Fun(_, _))) =>
          var st1 :- Emit(cfg, st, TypeError, 2657);
          Success(Out(st1, (None, true)))
        case Some(Found(owner, Var(t))) =>
          if VarId(owner, name) !in st.active then
            var st1 :- Emit(cfg, st, DeclarationError, 1133);
            Success(Out(st1, (None, true)))
          else Success(Out(st, (Some(t), true)))
        case None =>
          var res :- Resolve(cfg, st, name, LValue, scope);
          if res.val then Success(Out(res.st, (Some(cfg.repo.predefined.defaultType), true)))
          else Success(Out(res.st, (None, false)));
      var (variableType, isFound) := found.val;
      var st2 :- EmitIf(cfg, found.st, !isFound && NoErrorSince(found.st.diags, mark), DeclarationError, 4634);
      var st3 :- EmitIf(cfg, st2, variableType.Some? && variableType.value != valueType, TypeError, 9547);
      AssignmentWatched(st, found.st, st2, st3, variableType, isFound);
      AssignmentClean(cfg, st, name, valueType, found, st2, st3);
      Success(st3)
  }

  /** The watcher of checkAssignment: each way a target can be wrong adds an
      error, and a clean target adds nothing. */
  lemma AssignmentClean(cfg: Config, st: St, name: YulName, valueType: YulName,
                        found: Out<(Option<YulName>, bool)>, st2: St, st3: St)
    requires st.scope.Some? && name != EmptyName
    requires match LookupIn(cfg, st.scope.value, name)
      case Some(Found(_, Fun(_, _))) => Added(st, found.st, TypeError, 2657) && found.val == (None, true)
      case Some(Found(owner, Var(t))) =>
        if VarId(owner, name) in st.active then found == Out(st, (Some(t), true))
        else Added(st, found.st, DeclarationError, 1133) && found.val == (None, true)
      case None =>
        && Resolve(cfg, st, name, LValue, st.scope.value) == Success(Out(found.st, found.val.1))
        && found.val.0 == if found.val.1 then Some(cfg.repo.predefined.defaultType) else None
    requires if !found.val.1 && NoErrorSince(found.st.diags, |st.diags|) then Added(found.st, st2, DeclarationError, 4634)
      else st2 == found.st
    requires if found.val.0.Some? && found.val.0.value != valueType then Added(st2, st3, TypeError, 9547)
      else st3 == st2
    ensures NoErrorSince(st3.diags, |st.diags|) <==> TargetClean(cfg, st.scope, st.active, name, valueType)
  {
    var mark := |st.diags|;
    assert st.diags <= found.st.diags;
    NoErrorSinceSplit(found.st.diags, st3.diags, mark);
    if !found.val.1 && NoErrorSince(found.st.diags, mark) {
      ReportedKept(found.st.diags, Diagnostic(DeclarationError, 4634), st3.diags, mark);
    }
    if found.val.0.Some? && found.val.0.value != valueType {
      ReportedKept(st2.diags, Diagnostic(TypeError, 9547), st3.diags, mark);
    }
    match LookupIn(cfg, st.scope.value, name)
    case Some(Found(_, Fun(_, _))) =>
      ReportedKept(st.diags, Diagnostic(TypeError, 2657), st3.diags, mark);
    case Some(Found(owner, Var(t))) =>
      if VarId(owner, name) !in st.active {
        ReportedKept(st.diags, Diagnostic(DeclarationError, 1133), st3.diags, mark);
      }
    case None =>
      if cfg.resolver.Some? {
        var reply := cfg.resolver.value(name, LValue, st.scope.value in cfg.info.insideFunction);
        assert found.st.diags == st.diags + reply.raised;
        assert NoErrorSince(found.st.diags, mark) <==> NoErrorSince(reply.raised, 0) by {
          assert forall i :: 0 <= i < |reply.raised| ==> found.st.diags[mark + i] == reply.raised[i];
        }
      }
  }

  /** checkAssignment's closing assertion holds: when the target's type
      stayed unknown, an error was reported, by the lookup, by the resolver
      or as 4634. */
  lemma AssignmentWatched(st: St, st1: St, st2: St, st3: St, variableType: Option<YulName>, isFound: bool)
    requires st.diags <= st1.diags && st2.diags <= st3.diags
    requires variableType.None? && isFound ==>
      Added(st, st1, TypeError, 2657) || Added(st, st1, DeclarationError, 1133)
    requires if !isFound && NoErrorSince(st1.diags, |st.diags|) then Added(st1, st2, DeclarationError, 4634) else st2 == st1
    ensures NoErrorSince(st3.diags, |st.diags|) ==> variableType.Some?
  {
    var mark := |st.diags|;
    if variableType.None? {
      if !NoErrorSince(st1.diags, mark) {
        ErrorKept(st1.diags, st3.diags, mark);
      } else if isFound {
        var d := if Added(st, st1, TypeError, 2657) then Diagnostic(TypeError, 2657) else Diagnostic(DeclarationError, 1133);
        ReportedKept(st.diags, d, st3.diags, mark);
      } else {
        ReportedKept(st1.diags, Diagnostic(DeclarationError, 4634), st3.diags, mark);
      }
    }
  }

  // ---------------------------------------------------------------------
  // Literals

  /** Whether the hint of a value, if any, reads as more than 256 bits. */
  predicate NumberTooLarge(v: LiteralValue) {
    v.Limited? && v.hint.Some? && NumberOfText(v.hint.value.text) > MaxU256
  }

  /** Whether a limited value's hint is longer than one word. */
  predicate StringTooLong(v: LiteralValue) {
    v.Limited? && v.hint.Some? && |v.hint.value.text| > 32
  }

  /** What the analyzer asserts of a boolean literal: its value is 0 or 1,
      its hint, if any, "true" or "false". */
  predicate WellFormedBoolean(v: LiteralValue) {
    && v.Limited? && (v.number == 0 || v.number == 1)
    && (v.hint.Some? ==> v.hint.value.text == "true" || v.hint.value.text == "false")
  }

  /** The Literal visit: the type must be valid; a string literal longer
      than a word and a number past 256 bits are reported (one or the
      other, by kind); a malformed boolean literal fails an assertion; and
      the type must suit the literal's kind. The result is the literal's
      type. */
  function AnalyzeLiteral(cfg: Config, st: St, lit: Literal): (r: Result<Out<seq<YulName>>, Stop>)
    ensures r.Success? ==> Extends(st, r.value.st) && r.value.val == [lit.typ]
    ensures r.Success? ==> forall i :: |st.diags| <= i < |r.value.st.diags| ==>
      r.value.st.diags[i].code in {5473, 3069, 6708, 5170}
    ensures r.Success? ==>
      var ds := r.value.st.diags;
      var mark := |st.diags|;
      && (ReportedSince(ds, mark, 5473) <==> !IsType(cfg.repo, lit.typ))
      && (ReportedSince(ds, mark, 3069) <==> lit.kind == String && StringTooLong(lit.value))
      && (ReportedSince(ds, mark, 6708) <==> lit.kind == Number && NumberTooLarge(lit.value))
      && (ReportedSince(ds, mark, 5170) <==> !ValidTypeForLiteralHandle(cfg.repo, lit.kind, lit.typ))
      && (NoErrorSince(ds, mark) <==>
            IsType(cfg.repo, lit.typ) && ValidTypeForLiteralHandle(cfg.repo, lit.kind, lit.typ)
            && !(lit.kind == String && StringTooLong(lit.value)) && !(lit.kind == Number && NumberTooLarge(lit.value)))
    ensures r.Success? && lit.kind == Boolean ==> WellFormedBoolean(lit.value)
    ensures r.Failure? ==> r.error == Fatal || (lit.kind == Boolean && !WellFormedBoolean(lit.value))
  {
    var mark := |st.diags|;
    var st1 :- ExpectValidType(cfg, st, lit.typ);
    var st2 :-
      if lit.kind == String && StringTooLong(lit.value) then Emit(cfg, st1, TypeError, 3069)
      else if lit.kind == Number && NumberTooLarge(lit.value) then Emit(cfg, st1, TypeError, 6708)
      else if lit.kind == Boolean && !WellFormedBoolean(lit.value) then Failure(Assertion)
      else Success(st1);
    var st3 :- EmitIf(cfg, st2, !ValidTypeForLiteralHandle(cfg.repo, lit.kind, lit.typ), TypeError, 5170);
    LiteralDiagnostics(st, st1, st2, st3, cfg, lit);
    Success(Out(st3, [lit.typ]))
  }

  /** The bookkeeping behind AnalyzeLiteral's contract: each of its three
      steps adds at most its own diagnostic. */
  lemma LiteralDiagnostics(st: St, st1: St, st2: St, st3: St, cfg: Config, lit: Literal)
    requires st1 == st || Added(st, st1, TypeError, 5473)
    requires st1 == st <==> IsType(cfg.repo, lit.typ)
    requires lit.kind == String && StringTooLong(lit.value) ==> Added(st1, st2, TypeError, 3069)
    requires lit.kind == Number && NumberTooLarge(lit.value) ==> Added(st1, st2, TypeError, 6708)
    requires !(lit.kind == String && StringTooLong(lit.value)) && !(lit.kind == Number && NumberTooLarge(lit.value)) ==> st2 == st1
    requires !ValidTypeForLiteralHandle(cfg.repo, lit.kind, lit.typ) ==> Added(st2, st3, TypeError, 5170)
    requires ValidTypeForLiteralHandle(cfg.repo, lit.kind, lit.typ) ==> st3 == st2
    ensures Extends(st, st3)
    ensures forall i :: |st.diags| <= i < |st3.diags| ==> st3.diags[i].code in {5473, 3069, 6708, 5170}
    ensures
      var ds := st3.diags;
      var mark := |st.diags|;
      && (ReportedSince(ds, mark, 5473) <==> !IsType(cfg.repo, lit.typ))
      && (ReportedSince(ds, mark, 3069) <==> lit.kind == String && StringTooLong(lit.value))
      && (ReportedSince(ds, mark, 6708) <==> lit.kind == Number && NumberTooLarge(lit.value))
      && (ReportedSince(ds, mark, 5170) <==> !ValidTypeForLiteralHandle(cfg.repo, lit.kind, lit.typ))
      && (NoErrorSince(ds, mark) <==>
            IsType(cfg.repo, lit.typ) && ValidTypeForLiteralHandle(cfg.repo, lit.kind, lit.typ)
            && !(lit.kind == String && StringTooLong(lit.value)) && !(lit.kind == Number && NumberTooLarge(lit.value)))
  {
    LiteralSteps(st, st1, st2, st3, !IsType(cfg.repo, lit.typ), lit.kind == String && StringTooLong(lit.value),
      lit.kind == Number && NumberTooLarge(lit.value), !ValidTypeForLiteralHandle(cfg.repo, lit.kind, lit.typ));
  }

  /** LiteralDiagnostics with the four conditions as plain flags. */
  lemma LiteralSteps(st: St, st1: St, st2: St, st3: St, noType: bool, tooLong: bool, tooLarge: bool, invalid: bool)
    requires st1 == st || Added(st, st1, TypeError, 5473)
    requires st1 == st <==> !noType
    requires !(tooLong && tooLarge)
    requires tooLong ==> Added(st1, st2, TypeError, 3069)
    requires tooLarge ==> Added(st1, st2, TypeError, 6708)
    requires !tooLong && !tooLarge ==> st2 == st1
    requires invalid ==> Added(st2, st3, TypeError, 5170)
    requires !invalid ==> st3 == st2
    ensures Extends(st, st3)
    ensures forall i :: |st.diags| <= i < |st3.diags| ==> st3.diags[i].code in {5473, 3069, 6708, 5170}
    ensures
      var ds := st3.diags;
      var mark := |st.diags|;
      && (ReportedSince(ds, mark, 5473) <==> noType)
      && (ReportedSince(ds, mark, 3069) <==> tooLong)
      && (ReportedSince(ds, mark, 6708) <==> tooLarge)
      && (ReportedSince(ds, mark, 5170) <==> invalid)
      && (NoErrorSince(ds, mark) <==> !noType && !invalid && !tooLong && !tooLarge)
  {
    var mark := |st.diags|;
    var codes: set<nat> := {5473, 3069, 6708, 5170};
    OneReport(st.diags, st1.diags, mark, noType, 5473, codes);
    OneReport(st1.diags, st2.diags, mark, tooLong || tooLarge, if tooLong then 3069 else 6708, codes);
    OneReport(st2.diags, st3.diags, mark, invalid, 5170, codes);
  }

  /** One step that reports the error `code` when `flag` holds and nothing
      otherwise, seen from a watcher set at `mark`. */
  lemma OneReport(ds: seq<Diagnostic>, ds2: seq<Diagnostic>, mark: nat, flag: bool, code: nat, codes: set<nat>)
    requires mark <= |ds|
    requires ds2 == if flag then ds + [Diagnostic(TypeError, code)] else ds
    ensures ds <= ds2
    ensures forall c :: ReportedSince(ds2, mark, c) <==> ReportedSince(ds, mark, c) || (flag && c == code)
    ensures NoErrorSince(ds2, mark) <==> NoErrorSince(ds, mark) && !flag
    ensures (forall i :: mark <= i < |ds| ==> ds[i].code in codes) && (flag ==> code in codes) ==>
      forall i :: mark <= i < |ds2| ==> ds2[i].code in codes
  {
    if flag {
      NoErrorSinceAppend(ds, mark, Diagnostic(TypeError, code));
      assert ds2[|ds|].code == code;
      assert forall i :: mark <= i < |ds| ==> ds2[i] == ds[i];
    }
  }



  /** expectUnlimitedStringLiteral: asserts a string literal of a fitting
      type whose value is kept as text, and yields its type. */
  function ExpectUnlimitedStringLiteral(cfg: Config, lit: Literal): (r: Result<YulName, Stop>)
    ensures r.Success? <==> lit.kind == String && lit.value.Unlimited?
    ensures r.Success? ==> r.value == lit.typ
    ensures r.Failure? ==> r.error == Assertion
  {
    if lit.kind == String && ValidTypeForLiteralHandle(cfg.repo, lit.kind, lit.typ) && lit.value.Unlimited?
    then Success(lit.typ)
    else Failure(Assertion)
  }

  /** LiteralValue::value(), which asserts a value that fits one word. */
  function WordOf(v: LiteralValue): (r: Result<nat, Stop>)
    ensures r.Success? <==> v.Limited?
    ensures r.Success? ==> r.value == v.number
  {
    if v.Limited? then Success(v.number) else Failure(Assertion)
  }

  /** The word valueOfStringLiteral gives the empty string: no bytes, all
      zero. */
  const EmptyStringWord: nat := 0

  /** Whether a string literal argument holds no bytecode at all. */
  predicate EmptyBytecode(v: LiteralValue) {
    match v
    case Unlimited(text) => text == ""
    case Limited(n, _) => n == EmptyStringWord
  }

  // ---------------------------------------------------------------------
  // Instructions

  /** Whether gating the instruction a label names in the default dialect
      fails an assertion. */
  predicate GateFails(cfg: Config, text: string) {
    var b := Dialects.Builtin(cfg.defaultDialect, text);
    b.Some? && b.value.instruction.Some? && Gate(cfg.version, b.value.instruction.value).Failure?
  }

  /** validateInstructions for a call: the callee's label is looked up in
      the default EVM dialect (whatever the target version), and an
      instruction found there is gated against the target version. The
      result says whether a diagnostic was reported. */
  function ValidateCall(cfg: Config, st: St, callee: YulName): (r: Result<Out<bool>, Stop>)
    requires Links(cfg.repo)
    ensures r.Success? ==> Extends(st, r.value.st) && Label(cfg, callee).Success?
    ensures r.Success? ==>
      var b := Dialects.Builtin(cfg.defaultDialect, Label(cfg, callee).value);
      if b.Some? && b.value.instruction.Some? then
        Gate(cfg.version, b.value.instruction.value).Success? &&
        match Gate(cfg.version, b.value.instruction.value).value
        case Some(d) => r.value.val && Added(st, r.value.st, d.kind, d.code)
        case None => !r.value.val && r.value.st == st
      else !r.value.val && r.value.st == st
    ensures r.Failure? ==> r.error == Fatal || Label(cfg, callee).Failure? || GateFails(cfg, Label(cfg, callee).value)
  {
    var text :- Label(cfg, callee);
    var b := Dialects.Builtin(cfg.defaultDialect, text);
    if b.Some? && b.value.instruction.Some? then
      var d :- Gate(cfg.version, b.value.instruction.value);
      match d
      case Some(diag) =>
        var st1 :- Emit(cfg, st, diag.kind, diag.code);
        Success(Out(st1, true))
      case None => Success(Out(st, false))
    else Success(Out(st, false))
  }

  /** A name the default dialect knows as an instruction the target
      version lacks is reported as unavailable, and the report is an
      error. */
  lemma ValidateCallReportsMissingInstruction(cfg: Config, st: St, callee: YulName, c: Capability, code: nat)
    requires Links(cfg.repo) && ValidateCall(cfg, st, callee).Success?
    requires var b := Dialects.Builtin(cfg.defaultDialect, Label(cfg, callee).value);
      b.Some? && b.value.instruction.Some? && Requirement(b.value.instruction.value) == Some((c, code))
    requires !cfg.version.Has(c)
    ensures Added(st, ValidateCall(cfg, st, callee).value.st, TypeError, code)
    ensures !NoErrorSince(ValidateCall(cfg, st, callee).value.st.diags, |st.diags|)
  {
    var op := Dialects.Builtin(cfg.defaultDialect, Label(cfg, callee).value).value.instruction.value;
    GateFollowsTable(cfg.version, op);
    ReportedKept(st.diags, Diagnostic(TypeError, code), ValidateCall(cfg, st, callee).value.st.diags, |st.diags|);
  }
}

/** The walk of AsmAnalyzer (libyul/AsmAnalysis.cpp) over a Yul block: the
    visit of each expression and statement kind, and analyze(), which turns
    the walk into a verdict. A visit either finishes with a new state and,
    for an expression, its types, or stops: on the reporter's FatalError or
    on a failed assertion. */
module Analyzer {
  import opened Wrappers
  import opened Evm
  import opened Builtins
  import opened Names
  import opened Ast
  import opened Diagnostics
  import opened Literals
  import opened InstructionGate
  import opened Analysis
  import opened Strings
  import opened Dialects

  /** std::reverse. */
  function Reverse<T>(s: seq<T>): (r: seq<T>)
    ensures |r| == |s|
    ensures forall i :: 0 <= i < |s| ==> r[i] == s[|s| - 1 - i]
  {
    if |s| == 0 then [] else Reverse(s[1..]) + [s[0]]
  }

  // ---------------------------------------------------------------------
  // Calls

  /** The parameter and return types of a callee, if it has any: a builtin's
      signature, or that of a function visible from the scope. */
  function Signature(cfg: Config, scope: Option<ScopeId>, f: YulName): Option<(seq<YulName>, seq<YulName>)>
    requires Links(cfg.repo)
  {
    if f < |cfg.repo.names| && Names.Builtin(cfg.repo, f).Some? then
      var b := Names.Builtin(cfg.repo, f).value;
      Some((b.parameters, b.results))
    else if scope.None? then None
    else match LookupIn(cfg, scope.value, f)
      case Some(Found(_, Fun(arguments, results))) => Some((arguments, results))
      case _ => None
  }

  /** What the head of a call settles: the signature, and the literal kinds
      a builtin demands of its arguments (none when its table is empty). */
  datatype Callee = Callee(signature: Option<(seq<YulName>, seq<YulName>)>, literals: Option<seq<Option<LiteralKind>>>)

  /** The first part of the FunctionCall visit: a builtin draws the
      selfdestruct deprecation warning, or the transient-storage warning
      the first time tstore is used on a version that has it, and is
      checked against the target version; a variable cannot be called; an
      unknown name is reported, as an instruction the target version lacks
      or as not found. */
  function CallHead(cfg: Config, st: St, f: YulName): (r: Result<Out<Callee>, Stop>)
    requires Links(cfg.repo)
    ensures r.Success? ==> Extends(st, r.value.st) && f < |cfg.repo.names|
    ensures r.Success? ==> r.value.val.signature == Signature(cfg, st.scope, f)
    ensures r.Success? && r.value.val.signature.None? ==> !NoErrorSince(r.value.st.diags, |st.diags|)
    ensures r.Success? && r.value.val.literals.Some? ==>
      Names.Builtin(cfg.repo, f).Some? && r.value.val.literals.value == Names.Builtin(cfg.repo, f).value.data.literalArguments
    ensures r.Success? && f == cfg.repo.predefined.selfdestruct && Names.Builtin(cfg.repo, f).Some? ==>
      ReportedSince(r.value.st.diags, |st.diags|, 1699)
    ensures (&& r.Success? && Names.Builtin(cfg.repo, f).Some? && f != cfg.repo.predefined.selfdestruct
             && cfg.version.Has(SupportsTransientStorage) && f == cfg.repo.predefined.tstore && !HasCode(st.diags, 2394)) ==>
      ReportedSince(r.value.st.diags, |st.diags|, 2394)
    ensures (&& r.Success? && Names.Builtin(cfg.repo, f).None? && st.scope.Some? && LookupIn(cfg, st.scope.value, f).Some?
             && LookupIn(cfg, st.scope.value, f).value.binding.Var?) ==>
      Added(st, r.value.st, TypeError, 4202)
    ensures r.Failure? ==>
      r.error == Fatal || f >= |cfg.repo.names| || Label(cfg, f).Failure? || GateFails(cfg, Label(cfg, f).value)
      || (Names.Builtin(cfg.repo, f).None? && st.scope.None?)
  {
    if f >= |cfg.repo.names| then Failure(Assertion)
    else match Names.Builtin(cfg.repo, f)
      case Some(b) =>
        var st1 :=
          if f == cfg.repo.predefined.selfdestruct then Warn(cfg, st, 1699)
          else if cfg.version.Has(SupportsTransientStorage) && f == cfg.repo.predefined.tstore && !HasCode(st.diags, 2394)
          then Warn(cfg, st, 2394)
          else st;
        var v :- ValidateCall(cfg, st1, f);
        var literals := if |b.data.literalArguments| == 0 then None else Some(b.data.literalArguments);
        if st1 != st then
          ReportedKept(st.diags, st1.diags[|st.diags|], v.st.diags, |st.diags|);
          Success(Out(v.st, Callee(Some((b.parameters, b.results)), literals)))
        else
          Success(Out(v.st, Callee(Some((b.parameters, b.results)), literals)))
      case None =>
        var scope :- Current(st);
        match LookupIn(cfg, scope, f)
        case Some(Found(_, Var(_))) =>
          var st1 :- Emit(cfg, st, TypeError, 4202);
          ReportedKept(st.diags, Diagnostic(TypeError, 4202), st1.diags, |st.diags|);
          Success(Out(st1, Callee(None, None)))
        case Some(Found(_, Fun(arguments, results))) =>
          Success(Out(st, Callee(Some((arguments, results)), None)))
        case None =>
          var v :- ValidateCall(cfg, st, f);
          var st1 :- EmitIf(cfg, v.st, !v.val, DeclarationError, 4619);
          // The source asserts that an error was reported by now.
          UnknownCalleeWatched(cfg, st, f, v, st1);
          Success(Out(st1, Callee(None, None)))
  }

  /** An unknown callee is always reported: as an instruction the target
      version lacks or refuses, or as not found. */
  lemma UnknownCalleeWatched(cfg: Config, st: St, f: YulName, v: Out<bool>, st1: St)
    requires Links(cfg.repo) && ValidateCall(cfg, st, f) == Success(v)
    requires if !v.val then Added(v.st, st1, DeclarationError, 4619) else st1 == v.st
    ensures !NoErrorSince(st1.diags, |st.diags|)
  {
    if v.val {
      var op := Dialects.Builtin(cfg.defaultDialect, Label(cfg, f).value).value.instruction.value;
      GateReportsErrors(cfg.version, op);
      var d := Gate(cfg.version, op).value.value;
      ReportedKept(st.diags, d, st1.diags, |st.diags|);
    } else {
      ReportedKept(v.st.diags, Diagnostic(DeclarationError, 4619), st1.diags, |st.diags|);
    }
  }

  /** The FunctionCall visit. A call analysed without error has a known
      signature whose parameter count matches the arguments, and yields the
      return types; otherwise it yields as many default-typed values as a
      known signature returns, or nothing. */
  function AnalyzeCall(cfg: Config, st: St, e: Expr): (r: Result<Out<seq<YulName>>, Stop>)
    requires Links(cfg.repo) && e.Call?
    ensures r.Success? ==> Extends(st, r.value.st)
    ensures r.Success? && NoErrorSince(r.value.st.diags, |st.diags|) ==>
      var sig := Signature(cfg, st.scope, e.callee);
      && sig.Some? && |e.arguments| == |sig.value.0| && r.value.val == sig.value.1
      && forall j :: 0 <= j < |e.arguments| && e.arguments[j].Lit? ==> sig.value.0[j] == e.arguments[j].literal.typ
    ensures r.Success? && !NoErrorSince(r.value.st.diags, |st.diags|) ==>
      var sig := Signature(cfg, st.scope, e.callee);
      r.value.val == if sig.Some? then seq(|sig.value.1|, _ => cfg.repo.predefined.defaultType) else []
    ensures (&& r.Success? && Signature(cfg, st.scope, e.callee).Some?
             && |e.arguments| != |Signature(cfg, st.scope, e.callee).value.0|) ==>
      ReportedSince(r.value.st.diags, |st.diags|, 7000)
    decreases e, 1, 0, 0
  {
    var f := e.callee;
    if f == EmptyName then Failure(Assertion)
    else
      var mark := |st.diags|;
      var head :- CallHead(cfg, st, f);
      var sig := head.val.signature;
      var st1 :- EmitIf(cfg, head.st, sig.Some? && |e.arguments| != |sig.value.0|, TypeError, 7000);
      var given :- ArgumentTypes(cfg, st1, e, head.val.literals);
      var st3 :-
        if sig.Some? && |sig.value.0| == |given.val| then ExpectTypes(cfg, given.st, sig.value.0, given.val, 0)
        else Success(given.st);
      // The source asserts a known signature of the right size when the
      // watcher is happy.
      CallWatched(st, head.st, st1, st3, sig, |e.arguments|);
      if NoErrorSince(st3.diags, mark) then Success(Out(st3, sig.value.1))
      else if sig.Some? then Success(Out(st3, seq(|sig.value.1|, _ => cfg.repo.predefined.defaultType)))
      else Success(Out(st3, []))
  }

  /** The bookkeeping behind AnalyzeCall's closing assertion. */
  lemma CallWatched(st: St, st0: St, st1: St, st3: St, sig: Option<(seq<YulName>, seq<YulName>)>, count: nat)
    requires st.diags <= st0.diags && st1.diags <= st3.diags
    requires sig.None? ==> !NoErrorSince(st0.diags, |st.diags|)
    requires if sig.Some? && count != |sig.value.0| then Added(st0, st1, TypeError, 7000) else st1 == st0
    ensures NoErrorSince(st3.diags, |st.diags|) ==> sig.Some? && count == |sig.value.0|
    ensures sig.Some? && count != |sig.value.0| ==> ReportedSince(st3.diags, |st.diags|, 7000)
  {
    if sig.None? {
      ErrorKept(st0.diags, st3.diags, |st.diags|);
    } else if count != |sig.value.0| {
      ReportedKept(st0.diags, Diagnostic(TypeError, 7000), st3.diags, |st.diags|);
    }
  }

  /** The argument types in argument order: the arguments are visited right
      to left and the collected types reversed, so a literal argument's
      type lands at its own position. */
  function ArgumentTypes(cfg: Config, st: St, call: Expr, literals: Option<seq<Option<LiteralKind>>>): (r: Result<Out<seq<YulName>>, Stop>)
    requires Links(cfg.repo) && call.Call? && call.callee < |cfg.repo.names|
    ensures r.Success? ==> Extends(st, r.value.st) && |r.value.val| == |call.arguments|
    ensures r.Success? ==> forall j :: 0 <= j < |call.arguments| && call.arguments[j].Lit? ==>
      r.value.val[j] == call.arguments[j].literal.typ
    decreases call, 0, |call.arguments| + 1, 0
  {
    var walked :- CallArgs(cfg, st, call, literals, |call.arguments|);
    Success(Out(walked.st, Reverse(walked.val)))
  }

  /** The arguments 1..i in the order visited, from the i-th down. */
  function CallArgs(cfg: Config, st: St, call: Expr, literals: Option<seq<Option<LiteralKind>>>, i: nat): (r: Result<Out<seq<YulName>>, Stop>)
    requires Links(cfg.repo) && call.Call? && call.callee < |cfg.repo.names| && i <= |call.arguments|
    ensures r.Success? ==> Extends(st, r.value.st) && |r.value.val| == i
    ensures r.Success? ==> forall k :: 0 <= k < i && call.arguments[i - 1 - k].Lit? ==>
      r.value.val[k] == call.arguments[i - 1 - k].literal.typ
    decreases call, 0, i, 1
  {
    if i == 0 then Success(Out(st, []))
    else
      var first :- ArgumentType(cfg, st, call, literals, i);
      var rest :- CallArgs(cfg, first.st, call, literals, i - 1);
      Success(Out(rest.st, [first.val] + rest.val))
  }

  /** The i-th argument (counting from 1). Where the builtin demands a
      literal, anything else is reported; a literal of the wrong kind is
      reported; a string literal must name a known data object for
      datasize and dataoffset, and must not be empty bytecode for the
      verbatim family, and is taken as it is. Everything else is an
      expression of one value. */
  function ArgumentType(cfg: Config, st: St, call: Expr, literals: Option<seq<Option<LiteralKind>>>, i: nat): (r: Result<Out<YulName>, Stop>)
    requires Links(cfg.repo) && call.Call? && call.callee < |cfg.repo.names| && 1 <= i <= |call.arguments|
    ensures r.Success? ==> Extends(st, r.value.st)
    ensures r.Success? && call.arguments[i - 1].Lit? ==> r.value.val == call.arguments[i - 1].literal.typ
    ensures r.Success? && literals.Some? && i <= |literals.value| && literals.value[i - 1].Some? ==>
      var kind := literals.value[i - 1].value;
      var arg := call.arguments[i - 1];
      var f := call.callee;
      && (!arg.Lit? ==> |r.value.st.diags| > |st.diags| && r.value.st.diags[|st.diags|] == Diagnostic(TypeError, 9114))
      && (arg.Lit? && kind != arg.literal.kind ==>
            |r.value.st.diags| > |st.diags| && r.value.st.diags[|st.diags|] == Diagnostic(TypeError, 5859))
      && (arg.Lit? && kind == arg.literal.kind && kind == String ==>
            && arg.literal.value.Unlimited?
            && if f == cfg.repo.predefined.datasize || f == cfg.repo.predefined.dataoffset then
                 (if cfg.formatLiteral(arg.literal) !in cfg.dataNames then Added(st, r.value.st, TypeError, 3517)
                  else r.value.st == st)
               else if IsVerbatimFunction(cfg.repo, f) && EmptyBytecode(arg.literal.value) then
                 Added(st, r.value.st, TypeError, 1844)
               else r.value.st == st)
    decreases call, 0, i, 0
  {
    var arg := call.arguments[i - 1];
    var f := call.callee;
    var kind := if literals.Some? && i <= |literals.value| then literals.value[i - 1] else None;
    if kind.None? then ExpectExpression(cfg, st, arg)
    else if !arg.Lit? then
      var st1 :- Emit(cfg, st, TypeError, 9114);
      ExpectExpression(cfg, st1, arg)
    else if kind.value != arg.literal.kind then
      var st1 :- Emit(cfg, st, TypeError, 5859);
      ExpectExpression(cfg, st1, arg)
    else if kind.value == String then
      var lit := arg.literal;
      var st1 :-
        if f == cfg.repo.predefined.datasize || f == cfg.repo.predefined.dataoffset then
          EmitIf(cfg, st, cfg.formatLiteral(lit) !in cfg.dataNames, TypeError, 3517)
        else if IsVerbatimFunction(cfg.repo, f) then EmitIf(cfg, st, EmptyBytecode(lit.value), TypeError, 1844)
        else Success(st);
      var t :- ExpectUnlimitedStringLiteral(cfg, lit);
      Success(Out(st1, t))
    else ExpectExpression(cfg, st, arg)
  }

  // ---------------------------------------------------------------------
  // Expressions

  /** The visit of an expression: its types. A literal has its own type. */
  function AnalyzeExpr(cfg: Config, st: St, e: Expr): (r: Result<Out<seq<YulName>>, Stop>)
    requires Links(cfg.repo)
    ensures r.Success? ==> Extends(st, r.value.st)
    ensures r.Success? && e.Lit? ==> r.value.val == [e.literal.typ]
    decreases e, 2, 0, 0
  {
    match e
    case Lit(lit) => AnalyzeLiteral(cfg, st, lit)
    case Ident(name) => AnalyzeIdentifier(cfg, st, name)
    case Call(_, _) => AnalyzeCall(cfg, st, e)
  }

  /** expectExpression: an expression of exactly one value (reported
      otherwise), yielding its first type or the default type. */
  function ExpectExpression(cfg: Config, st: St, e: Expr): (r: Result<Out<YulName>, Stop>)
    requires Links(cfg.repo)
    ensures r.Success? ==> Extends(st, r.value.st)
    ensures r.Success? && e.Lit? ==> r.value.val == e.literal.typ
    ensures r.Success? ==> AnalyzeExpr(cfg, st, e).Success?
    ensures r.Success? ==>
      var types := AnalyzeExpr(cfg, st, e).value;
      && types.st.diags <= r.value.st.diags
      && r.value.val == (if |types.val| == 0 then cfg.repo.predefined.defaultType else types.val[0])
      && (ReportedSince(r.value.st.diags, |types.st.diags|, 3950) <==> |types.val| != 1)
      && (NoErrorSince(r.value.st.diags, |st.diags|) <==> NoErrorSince(types.st.diags, |st.diags|) && |types.val| == 1)
    decreases e, 3, 0, 0
  {
    var types :- AnalyzeExpr(cfg, st, e);
    var st1 :- EmitIf(cfg, types.st, |types.val| != 1, TypeError, 3950);
    NoErrorSinceSplit(types.st.diags, st1.diags, |st.diags|);
    var t := if |types.val| == 0 then cfg.repo.predefined.defaultType else types.val[0];
    if |types.val| != 1 then
      ReportedKept(types.st.diags, Diagnostic(TypeError, 3950), st1.diags, |types.st.diags|);
      Success(Out(st1, t))
    else Success(Out(st1, t))
  }

  // ---------------------------------------------------------------------
  // Declarations and assignments

  /** Whether some name at position i or later repeats an earlier one. */
  predicate RepeatsFrom(names: seq<YulName>, i: nat) {
    exists j, k :: i <= j < |names| && 0 <= k < j && names[k] == names[j]
  }

  /** The duplicate check of the Assignment visit from position i on, with
      `seen` the names before i: every repeated occurrence is reported, so
      the watcher stays happy exactly when no later name repeats. */
  function Duplicates(cfg: Config, st: St, names: seq<YulName>, seen: set<YulName>, i: nat): (r: Result<St, Stop>)
    requires i <= |names| && seen == set k | 0 <= k < i :: names[k]
    ensures r.Success? ==> Extends(st, r.value)
    ensures r.Success? ==> (NoErrorSince(r.value.diags, |st.diags|) <==> !RepeatsFrom(names, i))
    ensures r.Failure? ==> r.error == Fatal
    decreases |names| - i
  {
    if i == |names| then Success(st)
    else
      var st1 :- EmitIf(cfg, st, names[i] in seen, DeclarationError, 9005);
      var seen1 := seen + {names[i]};
      assert seen1 == set k | 0 <= k < i + 1 :: names[k];
      var st2 :- Duplicates(cfg, st1, names, seen1, i + 1);
      DuplicatesStep(st, st1, st2, names, seen, i);
      Success(st2)
  }

  /** One step of Duplicates: a name already seen is a repeat and is
      reported; a fresh one changes nothing. */
  lemma DuplicatesStep(st: St, st1: St, st2: St, names: seq<YulName>, seen: set<YulName>, i: nat)
    requires i < |names| && seen == set k | 0 <= k < i :: names[k]
    requires if names[i] in seen then Added(st, st1, DeclarationError, 9005) else st1 == st
    requires st1.diags <= st2.diags
    requires NoErrorSince(st2.diags, |st1.diags|) <==> !RepeatsFrom(names, i + 1)
    ensures NoErrorSince(st2.diags, |st.diags|) <==> !RepeatsFrom(names, i)
  {
    if names[i] in seen {
      var k :| 0 <= k < i && names[k] == names[i];
      assert RepeatsFrom(names, i);
      ReportedKept(st.diags, Diagnostic(DeclarationError, 9005), st2.diags, |st.diags|);
    } else {
      assert RepeatsFrom(names, i + 1) <==> RepeatsFrom(names, i) by {
        if RepeatsFrom(names, i) {
          var j, k :| i <= j < |names| && 0 <= k < j && names[k] == names[j];
          assert forall m :: 0 <= m < i ==> names[m] in seen;
          assert RepeatsFrom(names, i + 1);
        }
      }
    }
  }

  /** The per-target checks of an Assignment, for the targets that have a
      value. */
  function AssignEach(cfg: Config, st: St, names: seq<YulName>, types: seq<YulName>, i: nat): (r: Result<St, Stop>)
    requires i <= |names|
    ensures r.Success? ==> Extends(st, r.value)
    ensures r.Success? ==> (NoErrorSince(r.value.diags, |st.diags|) <==>
      forall k :: i <= k < |names| && k < |types| ==> TargetClean(cfg, st.scope, st.active, names[k], types[k]))
    ensures r.Success? && cfg.resolver.None? ==> OnlyCodesSince(r.value.diags, |st.diags|, {2657, 1133, 4634, 9547})
    ensures r.Failure? && st.scope.Some? && (forall k :: i <= k < |names| ==> names[k] != EmptyName) ==> r.error == Fatal
    decreases |names| - i
  {
    if i == |names| then Success(st)
    else if i < |types| then
      var st1 :- CheckAssignment(cfg, st, names[i], types[i]);
      var st2 :- AssignEach(cfg, st1, names, types, i + 1);
      NoErrorSinceSplit(st1.diags, st2.diags, |st.diags|);
      Success(st2)
    else AssignEach(cfg, st, names, types, i + 1)
  }

  /** The Assignment visit: at least one target; repeated targets and a
      value count other than the target count are reported; each target
      that has a value is checked against it. The watcher stays happy
      exactly when no target repeats, the value is analysed without error,
      it has one value per target and every target accepts its value. */
  function AnalyzeAssignment(cfg: Config, st: St, names: seq<YulName>, value: Expr): (r: Result<St, Stop>)
    requires Links(cfg.repo)
    ensures r.Success? ==> Extends(st, r.value) && |names| >= 1
    ensures r.Success? && RepeatsFrom(names, 0) ==> !NoErrorSince(r.value.diags, |st.diags|)
    ensures r.Success? ==>
      && Duplicates(cfg, st, names, {}, 0).Success?
      && AnalyzeExpr(cfg, Duplicates(cfg, st, names, {}, 0).value, value).Success?
    ensures r.Success? ==>
      var st1 := Duplicates(cfg, st, names, {}, 0).value;
      var types := AnalyzeExpr(cfg, st1, value).value;
      && types.st.diags <= r.value.diags
      && (|types.val| != |names| ==>
            |r.value.diags| > |types.st.diags| && r.value.diags[|types.st.diags|] == Diagnostic(DeclarationError, 8678))
      && (cfg.resolver.None? ==> (ReportedSince(r.value.diags, |types.st.diags|, 8678) <==> |types.val| != |names|))
      && (NoErrorSince(r.value.diags, |st.diags|) <==>
            && !RepeatsFrom(names, 0)
            && NoErrorSince(types.st.diags, |st1.diags|)
            && |types.val| == |names|
            && forall k :: 0 <= k < |names| ==> TargetClean(cfg, st.scope, st.active, names[k], types.val[k]))
  {
    if |names| < 1 then Failure(Assertion)
    else
      var st1 :- Duplicates(cfg, st, names, {}, 0);
      var types :- AnalyzeExpr(cfg, st1, value);
      var st2 :- EmitIf(cfg, types.st, |types.val| != |names|, DeclarationError, 8678);
      var st3 :- AssignEach(cfg, st2, names, types.val, 0);
      AssignmentDiagnostics(st, st1, types.st, st2, st3, |types.val| != |names|, cfg.resolver.None?);
      Success(st3)
  }

  /** The bookkeeping behind AnalyzeAssignment's contract: the watcher is
      split at each stage, and the count report sits right after the
      value's diagnostics. */
  lemma AssignmentDiagnostics(st: St, st1: St, st0: St, st2: St, st3: St, mismatch: bool, quiet: bool)
    requires st.diags <= st1.diags <= st0.diags && st2.diags <= st3.diags
    requires if mismatch then Added(st0, st2, DeclarationError, 8678) else st2 == st0
    requires quiet ==> OnlyCodesSince(st3.diags, |st2.diags|, {2657, 1133, 4634, 9547})
    ensures st0.diags <= st3.diags
    ensures mismatch ==> |st3.diags| > |st0.diags| && st3.diags[|st0.diags|] == Diagnostic(DeclarationError, 8678)
    ensures quiet ==> (ReportedSince(st3.diags, |st0.diags|, 8678) <==> mismatch)
    ensures NoErrorSince(st3.diags, |st.diags|) <==>
      NoErrorSince(st1.diags, |st.diags|) && NoErrorSince(st0.diags, |st1.diags|) && !mismatch && NoErrorSince(st3.diags, |st2.diags|)
  {
    var m0 := |st0.diags|;
    NoErrorSinceSplit(st1.diags, st0.diags, |st.diags|);
    NoErrorSinceSplit(st0.diags, st3.diags, |st.diags|);
    NoErrorSinceSplit(st2.diags, st3.diags, m0);
    if mismatch {
      assert st3.diags[m0] == st2.diags[m0];
      ReportedKept(st0.diags, Diagnostic(DeclarationError, 8678), st3.diags, m0);
    }
  }

  /** The resolver's look at each declared name (to catch shadowing); what
      it answers is ignored. */
  function ResolveDeclarations(cfg: Config, st: St, vars: seq<TypedName>, scope: ScopeId, i: nat): (r: Result<St, Stop>)
    requires i <= |vars|
    ensures r.Success? ==> Extends(st, r.value)
    ensures r.Success? && cfg.resolver.None? ==> r.value == st
    ensures r.Failure? ==> r.error == Fatal
    decreases |vars| - i
  {
    if i == |vars| then Success(st)
    else
      var res :- Resolve(cfg, st, vars[i].name, Declaring, scope);
      ResolveDeclarations(cfg, res.st, vars, scope, i + 1)
  }

  /** expectValidIdentifier and expectValidType for each declared name, in
      order: the watcher stays happy exactly when every name and type is
      well declared. */
  function CheckTypedNames(cfg: Config, st: St, vars: seq<TypedName>, i: nat): (r: Result<St, Stop>)
    requires Links(cfg.repo) && i <= |vars|
    ensures r.Success? ==> Extends(st, r.value)
    ensures r.Success? ==> forall k :: i <= k < |vars| ==> Label(cfg, vars[k].name).Success?
    ensures r.Success? ==>
      (NoErrorSince(r.value.diags, |st.diags|) <==> forall k :: i <= k < |vars| ==> WellDeclared(cfg, vars[k]))
    decreases |vars| - i
  {
    if i == |vars| then Success(st)
    else
      var st1 :- ExpectValidIdentifier(cfg, st, vars[i].name);
      var st2 :- ExpectValidType(cfg, st1, vars[i].typ);
      var st3 :- CheckTypedNames(cfg, st2, vars, i + 1);
      DeclaredStep(cfg, st, st1, st2, st3, vars, i);
      Success(st3)
  }

  /** One step of the name and type checks: the watcher splits at the next
      name. */
  lemma DeclaredStep(cfg: Config, st: St, st1: St, st2: St, st3: St, vars: seq<TypedName>, i: nat)
    requires Links(cfg.repo) && i < |vars|
    requires ExpectValidIdentifier(cfg, st, vars[i].name) == Success(st1)
    requires ExpectValidType(cfg, st1, vars[i].typ) == Success(st2)
    requires st2.diags <= st3.diags
    requires NoErrorSince(st3.diags, |st2.diags|) <==> forall k :: i + 1 <= k < |vars| ==> WellDeclared(cfg, vars[k])
    ensures NoErrorSince(st3.diags, |st.diags|) <==> forall k :: i <= k < |vars| ==> WellDeclared(cfg, vars[k])
  {
    NoErrorSinceSplit(st1.diags, st2.diags, |st.diags|);
    NoErrorSinceSplit(st2.diags, st3.diags, |st.diags|);
    if !IsType(cfg.repo, vars[i].typ) {
      NoErrorSinceAppend(st1.diags, |st1.diags|, Diagnostic(TypeError, 5473));
    }
    assert NoErrorSince(st2.diags, |st.diags|) <==> WellDeclared(cfg, vars[i]);
  }

  /** The names a step activates: the one at i, then those after it. */
  lemma ActivatedStep(vars: seq<TypedName>, scope: ScopeId, i: nat)
    requires i < |vars|
    ensures (set k | i <= k < |vars| :: VarId(scope, vars[k].name))
      == {VarId(scope, vars[i].name)} + set k | i + 1 <= k < |vars| :: VarId(scope, vars[k].name)
  {
  }

  /** Each declared type against the type of the value it receives (the
      default type where values are missing): the watcher stays happy
      exactly when they all agree. */
  function CompareDeclared(cfg: Config, st: St, vars: seq<TypedName>, types: seq<YulName>, i: nat): (r: Result<St, Stop>)
    requires i <= |vars|
    ensures r.Success? ==> Extends(st, r.value)
    ensures r.Success? ==> (NoErrorSince(r.value.diags, |st.diags|) <==>
      forall k :: i <= k < |vars| ==> vars[k].typ == if k < |types| then types[k] else cfg.repo.predefined.defaultType)
    ensures r.Success? ==> forall j :: |st.diags| <= j < |r.value.diags| ==> r.value.diags[j] == Diagnostic(TypeError, 3947)
    ensures r.Failure? ==> r.error == Fatal
    decreases |vars| - i
  {
    if i == |vars| then Success(st)
    else
      var given := if i < |types| then types[i] else cfg.repo.predefined.defaultType;
      var st1 :- EmitIf(cfg, st, vars[i].typ != given, TypeError, 3947);
      var st2 :- CompareDeclared(cfg, st1, vars, types, i + 1);
      if vars[i].typ != given then
        ReportedKept(st.diags, Diagnostic(TypeError, 3947), st2.diags, |st.diags|);
        Success(st2)
      else Success(st2)
  }

  /** Marks the declared variables of a scope active. */
  function Activate(cfg: Config, st: St, vars: seq<TypedName>, scope: ScopeId, i: nat): (r: Result<St, Stop>)
    requires i <= |vars|
    ensures r.Success? ==> r.value == st.(active := r.value.active)
    ensures r.Success? ==> r.value.active == st.active + set k | i <= k < |vars| :: VarId(scope, vars[k].name)
    ensures r.Success? <==> forall k :: i <= k < |vars| ==> DeclaredVariable(cfg, scope, vars[k].name).Success?
    ensures r.Failure? ==> r.error == Assertion
    decreases |vars| - i
  {
    if i == |vars| then Success(st)
    else
      var v :- DeclaredVariable(cfg, scope, vars[i].name);
      var st1 :- Activate(cfg, st.(active := st.active + {v}), vars, scope, i + 1);
      assert st1.active == st.active + set k | i <= k < |vars| :: VarId(scope, vars[k].name) by {
        assert (set k | i <= k < |vars| :: VarId(scope, vars[k].name))
          == {v} + set k | i + 1 <= k < |vars| :: VarId(scope, vars[k].name);
      }
      Success(st1)
  }

  /** The part of a VariableDeclaration before its value: the resolver
      sees each name (in the current scope), then each name and type is
      checked. Without a resolver, the watcher stays happy exactly when
      every name and type is well declared. */
  function DeclaredNames(cfg: Config, st: St, vars: seq<TypedName>): (r: Result<St, Stop>)
    requires Links(cfg.repo)
    ensures r.Success? ==> Extends(st, r.value) && st.scope.Some?
    ensures r.Success? && NoErrorSince(r.value.diags, |st.diags|) ==> forall k :: 0 <= k < |vars| ==> WellDeclared(cfg, vars[k])
    ensures r.Success? && cfg.resolver.None? ==>
      (NoErrorSince(r.value.diags, |st.diags|) <==> forall k :: 0 <= k < |vars| ==> WellDeclared(cfg, vars[k]))
  {
    var scope :- Current(st);
    var st1 :- ResolveDeclarations(cfg, st, vars, scope, 0);
    var st2 :- CheckTypedNames(cfg, st1, vars, 0);
    NoErrorSinceSplit(st1.diags, st2.diags, |st.diags|);
    Success(st2)
  }

  /** The VariableDeclaration visit: the names are checked, the value (if
      any) must supply one value of the declared type per variable (a
      count mismatch is reported right after the value, then each variable
      whose type differs from its value's, or from the default type where
      values are missing), and only then do the variables become active,
      so the value cannot use them. */
  function AnalyzeDeclaration(cfg: Config, st: St, vars: seq<TypedName>, init: Option<Expr>): (r: Result<St, Stop>)
    requires Links(cfg.repo)
    ensures r.Success? ==> r.value.scope == st.scope && r.value.forLoop == st.forLoop && st.diags <= r.value.diags
    ensures r.Success? ==>
      (st.scope.Some? && r.value.active == st.active + set k | 0 <= k < |vars| :: VarId(st.scope.value, vars[k].name))
    ensures r.Success? ==> DeclaredNames(cfg, st, vars).Success?
    ensures r.Success? && NoErrorSince(r.value.diags, |st.diags|) ==> forall k :: 0 <= k < |vars| ==> WellDeclared(cfg, vars[k])
    ensures r.Success? && init.None? ==> r.value.diags == DeclaredNames(cfg, st, vars).value.diags
    ensures r.Success? && init.Some? ==> AnalyzeExpr(cfg, DeclaredNames(cfg, st, vars).value, init.value).Success?
    ensures r.Success? && init.Some? ==>
      var types := AnalyzeExpr(cfg, DeclaredNames(cfg, st, vars).value, init.value).value;
      var given := (k: nat) => if k < |types.val| then types.val[k] else cfg.repo.predefined.defaultType;
      && types.st.diags <= r.value.diags
      && (ReportedSince(r.value.diags, |types.st.diags|, 3812) <==> |types.val| != |vars|)
      && (ReportedSince(r.value.diags, |types.st.diags|, 3947) <==> exists k :: 0 <= k < |vars| && vars[k].typ != given(k))
      && (NoErrorSince(r.value.diags, |types.st.diags|) <==>
            |types.val| == |vars| && forall k :: 0 <= k < |vars| ==> vars[k].typ == types.val[k])
  {
    var scope :- Current(st);
    var st2 :- DeclaredNames(cfg, st, vars);
    if init.None? then Activate(cfg, st2, vars, scope, 0)
    else
      var st5 :- DeclarationValue(cfg, st2, vars, init.value);
      Activate(cfg, st5, vars, scope, 0)
  }

  /** The value of a declaration against its variables: the count, then
      each declared type against the type it receives. */
  function DeclarationValue(cfg: Config, st: St, vars: seq<TypedName>, e: Expr): (r: Result<St, Stop>)
    requires Links(cfg.repo)
    ensures r.Success? ==> Extends(st, r.value) && AnalyzeExpr(cfg, st, e).Success?
    ensures r.Success? ==>
      var types := AnalyzeExpr(cfg, st, e).value;
      var given := (k: nat) => if k < |types.val| then types.val[k] else cfg.repo.predefined.defaultType;
      && types.st.diags <= r.value.diags
      && (ReportedSince(r.value.diags, |types.st.diags|, 3812) <==> |types.val| != |vars|)
      && (ReportedSince(r.value.diags, |types.st.diags|, 3947) <==> exists k :: 0 <= k < |vars| && vars[k].typ != given(k))
      && (NoErrorSince(r.value.diags, |types.st.diags|) <==>
            |types.val| == |vars| && forall k :: 0 <= k < |vars| ==> vars[k].typ == types.val[k])
  {
    var types :- AnalyzeExpr(cfg, st, e);
    var st4 :- EmitIf(cfg, types.st, |types.val| != |vars|, DeclarationError, 3812);
    var st5 :- CompareDeclared(cfg, st4, vars, types.val, 0);
    DeclarationDiagnostics(cfg, vars, types, st4, st5);
    Success(st5)
  }

  /** The bookkeeping behind AnalyzeDeclaration's contract: after the value
      come at most the count report and then only type reports. */
  lemma DeclarationDiagnostics(cfg: Config, vars: seq<TypedName>, types: Out<seq<YulName>>, st4: St, st5: St)
    requires if |types.val| != |vars| then Added(types.st, st4, DeclarationError, 3812) else st4 == types.st
    requires st4.diags <= st5.diags
    requires NoErrorSince(st5.diags, |st4.diags|) <==>
      forall k :: 0 <= k < |vars| ==> vars[k].typ == if k < |types.val| then types.val[k] else cfg.repo.predefined.defaultType
    requires forall j :: |st4.diags| <= j < |st5.diags| ==> st5.diags[j] == Diagnostic(TypeError, 3947)
    ensures types.st.diags <= st5.diags
    ensures ReportedSince(st5.diags, |types.st.diags|, 3812) <==> |types.val| != |vars|
    ensures ReportedSince(st5.diags, |types.st.diags|, 3947) <==>
      exists k :: 0 <= k < |vars| && vars[k].typ != if k < |types.val| then types.val[k] else cfg.repo.predefined.defaultType
    ensures NoErrorSince(st5.diags, |types.st.diags|) <==>
      |types.val| == |vars| && forall k :: 0 <= k < |vars| ==> vars[k].typ == types.val[k]
  {
    var m := |types.st.diags|;
    NoErrorSinceSplit(st4.diags, st5.diags, m);
    if |types.val| != |vars| {
      ReportedKept(types.st.diags, Diagnostic(DeclarationError, 3812), st5.diags, m);
      assert st5.diags[m] == Diagnostic(DeclarationError, 3812);
    }
    if ReportedSince(st5.diags, m, 3947) {
      var j :| m <= j < |st5.diags| && st5.diags[j].code == 3947;
      assert !NoErrorSince(st5.diags, |st4.diags|);
    }
    if !NoErrorSince(st5.diags, |st4.diags|) {
      var j :| |st4.diags| <= j < |st5.diags| && IsError(st5.diags[j]);
      assert st5.diags[j].code == 3947;
    }
  }

  /** A variable declared in the current scope and not active yet is
      reported when its own declaration's value refers to it. */
  lemma OwnValueNotVisible(cfg: Config, st: St, x: YulName, t: YulName, tx: YulName)
    requires Links(cfg.repo) && st.scope.Some?
    requires LookupIn(cfg, st.scope.value, x) == Some(Found(st.scope.value, Var(tx)))
    requires VarId(st.scope.value, x) !in st.active
    requires AnalyzeDeclaration(cfg, st, [TypedName(x, t)], Some(Ident(x))).Success?
    ensures ReportedSince(AnalyzeDeclaration(cfg, st, [TypedName(x, t)], Some(Ident(x))).value.diags, |st.diags|, 4990)
  {
    var vars := [TypedName(x, t)];
    var scope := st.scope.value;
    var st1 := ResolveDeclarations(cfg, st, vars, scope, 0).value;
    var st2 := CheckTypedNames(cfg, st1, vars, 0).value;
    var types := AnalyzeExpr(cfg, st2, Ident(x)).value;
    var st4 := EmitIf(cfg, types.st, |types.val| != |vars|, DeclarationError, 3812).value;
    var st3 := CompareDeclared(cfg, st4, vars, types.val, 0).value;
    var r := Activate(cfg, st3, vars, scope, 0).value;
    assert Added(st2, types.st, DeclarationError, 4990);
    ReportedKept(st2.diags, Diagnostic(DeclarationError, 4990), r.diags, |st.diags|);
  }

  /** Checks and activates a function's parameters and return variables, one
      after the other, in the scope of its virtual block. */
  function FunctionVariables(cfg: Config, st: St, vars: seq<TypedName>, scope: ScopeId, i: nat): (r: Result<St, Stop>)
    requires Links(cfg.repo) && i <= |vars|
    ensures r.Success? ==> r.value.scope == st.scope && r.value.forLoop == st.forLoop && st.diags <= r.value.diags
    ensures r.Success? ==> r.value.active == st.active + set k | i <= k < |vars| :: VarId(scope, vars[k].name)
    ensures r.Success? ==>
      (NoErrorSince(r.value.diags, |st.diags|) <==> forall k :: i <= k < |vars| ==> WellDeclared(cfg, vars[k]))
    decreases |vars| - i
  {
    if i == |vars| then Success(st)
    else
      var st1 :- ExpectValidIdentifier(cfg, st, vars[i].name);
      var st2 :- ExpectValidType(cfg, st1, vars[i].typ);
      var v :- DeclaredVariable(cfg, scope, vars[i].name);
      var st3 :- FunctionVariables(cfg, st2.(active := st2.active + {v}), vars, scope, i + 1);
      DeclaredStep(cfg, st, st1, st2, st3, vars, i);
      ActivatedStep(vars, scope, i);
      Success(st3)
  }

  // ---------------------------------------------------------------------
  // Switch cases

  /** A case value that passes: the switch value's type, and a literal the
      Literal visit does not object to. */
  predicate CleanCase(cfg: Config, valueType: YulName, lit: Literal) {
    && valueType == lit.typ && IsType(cfg.repo, lit.typ) && ValidTypeForLiteralHandle(cfg.repo, lit.kind, lit.typ)
    && !(lit.kind == String && StringTooLong(lit.value)) && !(lit.kind == Number && NumberTooLarge(lit.value))
  }

  /** The check of one case value: its type against the switch value's, the
      Literal visit, and, if both passed, the duplicate check. `seen` holds
      the values of the earlier clean cases. */
  function CaseValue(cfg: Config, st: St, valueType: YulName, seen: set<nat>, lit: Literal): (r: Result<Out<set<nat>>, Stop>)
    ensures r.Success? ==> Extends(st, r.value.st)
    ensures r.Success? && CleanCase(cfg, valueType, lit) ==> lit.value.Limited?
    ensures r.Success? ==>
      r.value.val == if CleanCase(cfg, valueType, lit) then seen + {lit.value.number} else seen
    ensures r.Success? ==>
      (ReportedSince(r.value.st.diags, |st.diags|, 6792) <==> CleanCase(cfg, valueType, lit) && lit.value.number in seen)
  {
    var mark := |st.diags|;
    var st1 :- ExpectType(cfg, st, valueType, lit.typ);
    var out :- AnalyzeLiteral(cfg, st1, lit);
    CaseWatched(cfg, st, st1, out.st, valueType, lit);
    if NoErrorSince(out.st.diags, mark) then
      var v :- WordOf(lit.value);
      if v in seen then
        var st2 :- Emit(cfg, out.st, DeclarationError, 6792);
        ReportedKept(out.st.diags, Diagnostic(DeclarationError, 6792), st2.diags, mark);
        Success(Out(st2, seen))
      else Success(Out(out.st, seen + {v}))
    else Success(Out(out.st, seen))
  }

  /** What the watcher of a case value sees: an error exactly when the case
      is not clean, and never a duplicate report. */
  lemma CaseWatched(cfg: Config, st: St, st1: St, st2: St, valueType: YulName, lit: Literal)
    requires if valueType != lit.typ then Added(st, st1, TypeError, 3781) else st1 == st
    requires AnalyzeLiteral(cfg, st1, lit).Success? && st2 == AnalyzeLiteral(cfg, st1, lit).value.st
    ensures NoErrorSince(st2.diags, |st.diags|) <==> CleanCase(cfg, valueType, lit)
    ensures !ReportedSince(st2.diags, |st.diags|, 6792)
  {
    var mark := |st.diags|;
    if valueType != lit.typ {
      ReportedKept(st.diags, Diagnostic(TypeError, 3781), st2.diags, mark);
    }
  }

  // ---------------------------------------------------------------------
  // Statements

  /** The visit of a statement. Scope and for loop come back as they were;
      diagnostics and active variables only grow. */
  function AnalyzeStmt(cfg: Config, st: St, s: Stmt): (r: Result<St, Stop>)
    requires Links(cfg.repo)
    ensures r.Success? ==> Advances(st, r.value)
    decreases s, 2, 0
  {
    match s
    case ExpressionStatement(e) => AnalyzeExpressionStatement(cfg, st, e)
    case Assignment(names, value) => AnalyzeAssignment(cfg, st, names, value)
    case VariableDeclaration(vars, init) => AnalyzeDeclaration(cfg, st, vars, init)
    case FunctionDefinition(_, _, _, _, _) => AnalyzeFunction(cfg, st, s)
    case If(_, _) => AnalyzeIf(cfg, st, s)
    case Switch(_, _) => AnalyzeSwitch(cfg, st, s)
    case ForLoop(_, _, _, _, _) => AnalyzeFor(cfg, st, s)
    case Break => Success(st)
    case Continue => Success(st)
    case Leave => Success(st)
    case BlockStatement(b) => AnalyzeBlock(cfg, st, b)
  }

  /** The ExpressionStatement visit: an expression analysed without error
      must not leave values behind. The statement adds a report exactly
      when that happens, and is clean exactly when its expression is clean
      and yields nothing. */
  function AnalyzeExpressionStatement(cfg: Config, st: St, e: Expr): (r: Result<St, Stop>)
    requires Links(cfg.repo)
    ensures r.Success? ==> Extends(st, r.value) && AnalyzeExpr(cfg, st, e).Success?
    ensures r.Success? ==>
      var types := AnalyzeExpr(cfg, st, e).value;
      && types.st.diags <= r.value.diags
      && (ReportedSince(r.value.diags, |types.st.diags|, 3083) <==> NoErrorSince(types.st.diags, |st.diags|) && |types.val| > 0)
      && (NoErrorSince(r.value.diags, |st.diags|) <==> NoErrorSince(types.st.diags, |st.diags|) && |types.val| == 0)
  {
    var types :- AnalyzeExpr(cfg, st, e);
    var leftOver := NoErrorSince(types.st.diags, |st.diags|) && |types.val| > 0;
    var st1 :- EmitIf(cfg, types.st, leftOver, TypeError, 3083);
    NoErrorSinceSplit(types.st.diags, st1.diags, |st.diags|);
    if leftOver then
      ReportedKept(types.st.diags, Diagnostic(TypeError, 3083), st1.diags, |st.diags|);
      ReportedKept(types.st.diags, Diagnostic(TypeError, 3083), st1.diags, |types.st.diags|);
      Success(st1)
    else Success(st1)
  }

  /** The If visit: the condition must be an expression of one boolean
      value; a condition of another type is reported right after the
      condition's own diagnostics; then the body is visited. */
  function AnalyzeIf(cfg: Config, st: St, s: Stmt): (r: Result<St, Stop>)
    requires Links(cfg.repo) && s.If?
    ensures r.Success? ==> Advances(st, r.value)
    ensures r.Success? ==> ExpectExpression(cfg, st, s.condition).Success?
    ensures r.Success? ==>
      var t := ExpectExpression(cfg, st, s.condition).value;
      && t.st.diags <= r.value.diags
      && (t.val != cfg.repo.predefined.boolType ==>
            |r.value.diags| > |t.st.diags| && r.value.diags[|t.st.diags|] == Diagnostic(TypeError, 1733))
      && (NoErrorSince(r.value.diags, |st.diags|) ==>
            t.val == cfg.repo.predefined.boolType && NoErrorSince(t.st.diags, |st.diags|))
    decreases s, 1, 0
  {
    var t :- ExpectExpression(cfg, st, s.condition);
    var st1 :- ExpectBool(cfg, t.st, t.val);
    var st2 :- AnalyzeBlock(cfg, st1, s.body);
    BoolConditionKept(cfg, st, t, st1, st2);
    Success(st2)
  }

  /** The bookkeeping behind expectBoolExpression's report: it sits right
      after the condition's diagnostics and later ones do not move it. */
  lemma BoolConditionKept(cfg: Config, st: St, t: Out<YulName>, st1: St, st2: St)
    requires st.diags <= t.st.diags && st1.diags <= st2.diags
    requires ExpectBool(cfg, t.st, t.val) == Success(st1)
    ensures t.st.diags <= st2.diags
    ensures t.val != cfg.repo.predefined.boolType ==>
      |st2.diags| > |t.st.diags| && st2.diags[|t.st.diags|] == Diagnostic(TypeError, 1733)
    ensures NoErrorSince(st2.diags, |st.diags|) ==>
      t.val == cfg.repo.predefined.boolType && NoErrorSince(t.st.diags, |st.diags|)
  {
    NoErrorSinceSplit(t.st.diags, st2.diags, |st.diags|);
    if t.val != cfg.repo.predefined.boolType {
      assert st2.diags[|t.st.diags|] == st1.diags[|t.st.diags|];
      ReportedKept(t.st.diags, Diagnostic(TypeError, 1733), st2.diags, |st.diags|);
    }
  }

  /** The FunctionDefinition visit: the name is checked, the parameters and
      return variables are checked and made active in the scope of the
      function's virtual block, and the body is visited. Whatever is wrong
      with the name is reported, and a clean visit means a valid name and
      well-declared parameters and return variables. */
  function AnalyzeFunction(cfg: Config, st: St, s: Stmt): (r: Result<St, Stop>)
    requires Links(cfg.repo) && s.FunctionDefinition?
    ensures r.Success? ==> Advances(st, r.value)
    ensures r.Success? ==>
      (&& s.id in cfg.info.virtualBlocks && cfg.info.virtualBlocks[s.id] in cfg.info.scopes
       && forall v :: v in s.parameters + s.returnVariables ==>
            VarId(cfg.info.scopes[cfg.info.virtualBlocks[s.id]], v.name) in r.value.active)
    ensures r.Success? ==> s.name != EmptyName && Label(cfg, s.name).Success?
    ensures r.Success? ==>
      var text := Label(cfg, s.name).value;
      && (EndsWith(text, ".") ==> ReportedSince(r.value.diags, |st.diags|, 3384))
      && (HasDoubleDot(text) ==> ReportedSince(r.value.diags, |st.diags|, 7771))
      && (ReservedIdentifier(cfg.repo.dialect, text) ==> ReportedSince(r.value.diags, |st.diags|, 5017))
    ensures r.Success? && NoErrorSince(r.value.diags, |st.diags|) ==>
      && ValidIdentifierText(cfg, Label(cfg, s.name).value)
      && forall k :: 0 <= k < |s.parameters + s.returnVariables| ==> WellDeclared(cfg, (s.parameters + s.returnVariables)[k])
    decreases s, 1, 0
  {
    if s.name == EmptyName then Failure(Assertion)
    else
      var st1 :- ExpectValidIdentifier(cfg, st, s.name);
      var virtual :- if s.id in cfg.info.virtualBlocks then Success(cfg.info.virtualBlocks[s.id]) else Failure(Assertion);
      var scope :- ScopeOf(cfg, virtual);
      var vars := s.parameters + s.returnVariables;
      var st2 :- FunctionVariables(cfg, st1, vars, scope, 0);
      assert forall v :: v in vars ==> VarId(scope, v.name) in st2.active;
      var st3 :- AnalyzeBlock(cfg, st2, s.body);
      FunctionNameKept(cfg, st, st1, st2, st3, s.name);
      NoErrorSinceSplit(st2.diags, st3.diags, |st.diags|);
      NoErrorSinceSplit(st1.diags, st2.diags, |st.diags|);
      Success(st3)
  }

  /** The reports on a function's name survive the rest of its visit. */
  lemma FunctionNameKept(cfg: Config, st: St, st1: St, st2: St, st3: St, name: YulName)
    requires Links(cfg.repo) && ExpectValidIdentifier(cfg, st, name) == Success(st1)
    requires st1.diags <= st2.diags <= st3.diags
    ensures
      var text := Label(cfg, name).value;
      && (EndsWith(text, ".") ==> ReportedSince(st3.diags, |st.diags|, 3384))
      && (HasDoubleDot(text) ==> ReportedSince(st3.diags, |st.diags|, 7771))
      && (ReservedIdentifier(cfg.repo.dialect, text) ==> ReportedSince(st3.diags, |st.diags|, 5017))
  {
    var text := Label(cfg, name).value;
    if EndsWith(text, ".") {
      ReportedGrows(st1.diags, st3.diags, |st.diags|, 3384);
    }
    if HasDoubleDot(text) {
      ReportedGrows(st1.diags, st3.diags, |st.diags|, 7771);
    }
    if ReservedIdentifier(cfg.repo.dialect, text) {
      ReportedGrows(st1.diags, st3.diags, |st.diags|, 5017);
    }
  }

  /** The Switch visit: a switch with only a default case draws a warning;
      the value is an expression of one value; then each case value is
      checked and each body visited, in order. The value is analysed after
      the warning when there is one and straight away otherwise, so the
      switch itself adds the warning exactly when only a default case
      exists. */
  function AnalyzeSwitch(cfg: Config, st: St, s: Stmt): (r: Result<St, Stop>)
    requires Links(cfg.repo) && s.Switch?
    ensures r.Success? ==> Advances(st, r.value)
    ensures r.Success? && |s.cases| == 1 && s.cases[0].value.None? ==> ReportedSince(r.value.diags, |st.diags|, 9592)
    ensures r.Success? && |s.cases| == 1 && s.cases[0].value.None? ==>
      |r.value.diags| > |st.diags| && r.value.diags[|st.diags|] == Diagnostic(Warning, 9592)
    ensures r.Success? ==>
      var warned := st.(diags := st.diags + [Diagnostic(Warning, 9592)]);
      var before := if |s.cases| == 1 && s.cases[0].value.None? then warned else st;
      && ExpectExpression(cfg, before, s.expression).Success?
      && ExpectExpression(cfg, before, s.expression).value.st.diags <= r.value.diags
    decreases s, 1, 0
  {
    var onlyDefault := |s.cases| == 1 && s.cases[0].value.None?;
    var st1 := if onlyDefault then Warn(cfg, st, 9592) else st;
    var t :- ExpectExpression(cfg, st1, s.expression);
    var st2 :- Cases(cfg, t.st, s, t.val, {}, 0);
    if onlyDefault then
      ReportedKept(st.diags, Diagnostic(Warning, 9592), st2.diags, |st.diags|);
      assert st2.diags[|st.diags|] == st1.diags[|st.diags|];
      Success(st2)
    else Success(st2)
  }

  /** The warning on a switch with only a default case is not a property of
      the outer switch alone: a switch with a case value whose body holds
      such a switch reports it too. */
  lemma NestedSwitchWarns(cfg: Config, st: St, e: Expr, lit: Literal, id: nat, inner: Stmt)
    requires Links(cfg.repo) && inner.Switch? && |inner.cases| == 1 && inner.cases[0].value.None?
    requires AnalyzeSwitch(cfg, st, Switch(e, [Case(Some(lit), Block(id, [inner]))])).Success?
    ensures ReportedSince(AnalyzeSwitch(cfg, st, Switch(e, [Case(Some(lit), Block(id, [inner]))])).value.diags, |st.diags|, 9592)
  {
    var outer := Switch(e, [Case(Some(lit), Block(id, [inner]))]);
    var t := ExpectExpression(cfg, st, e).value;
    var checked := CaseValue(cfg, t.st, t.val, {}, lit).value;
    var done := AnalyzeBlock(cfg, checked.st, Block(id, [inner])).value;
    assert Cases(cfg, done, outer, t.val, checked.val, 1) == Success(done);
    assert AnalyzeSwitch(cfg, st, outer) == Success(done);
    BlockOfOneSwitchWarns(cfg, checked.st, id, inner);
  }

  /** A block whose one statement is a switch with only a default case
      reports the warning. */
  lemma BlockOfOneSwitchWarns(cfg: Config, st: St, id: nat, inner: Stmt)
    requires Links(cfg.repo) && inner.Switch? && |inner.cases| == 1 && inner.cases[0].value.None?
    requires AnalyzeBlock(cfg, st, Block(id, [inner])).Success?
    ensures ReportedSince(AnalyzeBlock(cfg, st, Block(id, [inner])).value.diags, |st.diags|, 9592)
  {
    var b := Block(id, [inner]);
    var inBlock := st.(scope := Some(cfg.info.scopes[id]));
    assert Statements(cfg, inBlock, b, 0).Success?;
    assert AnalyzeStmt(cfg, inBlock, inner).Success?;
    var sw := AnalyzeSwitch(cfg, inBlock, inner).value;
    assert Statements(cfg, sw, b, 1) == Success(sw);
    assert Statements(cfg, inBlock, b, 0) == Success(sw);
  }

  /** The cases of a switch from the i-th on. */
  function Cases(cfg: Config, st: St, s: Stmt, valueType: YulName, seen: set<nat>, i: nat): (r: Result<St, Stop>)
    requires Links(cfg.repo) && s.Switch? && i <= |s.cases|
    ensures r.Success? ==> Advances(st, r.value)
    decreases s, 0, |s.cases| - i
  {
    if i == |s.cases| then Success(st)
    else
      var c := s.cases[i];
      var checked :-
        if c.value.None? then Success(Out(st, seen))
        else CaseValue(cfg, st, valueType, seen, c.value.value);
      var st1 :- AnalyzeBlock(cfg, checked.st, c.body);
      Cases(cfg, st1, s, valueType, checked.val, i + 1)
  }

  /** The ForLoop visit: the init block is visited, then the condition, the
      body and the post block in the init block's scope, the body and the
      post block with this loop as the innermost; scope and loop are
      restored afterwards. */
  function AnalyzeFor(cfg: Config, st: St, s: Stmt): (r: Result<St, Stop>)
    requires Links(cfg.repo) && s.ForLoop?
    ensures r.Success? ==> Advances(st, r.value)
    ensures r.Success? ==> s.pre.id in cfg.info.scopes && AnalyzeBlock(cfg, st, s.pre).Success?
    ensures r.Success? ==>
      var inPre := AnalyzeBlock(cfg, st, s.pre).value.(scope := Some(cfg.info.scopes[s.pre.id]));
      && ExpectExpression(cfg, inPre, s.condition).Success?
      && var t := ExpectExpression(cfg, inPre, s.condition).value;
      && t.st.diags <= r.value.diags
      && (t.val != cfg.repo.predefined.boolType ==>
            |r.value.diags| > |t.st.diags| && r.value.diags[|t.st.diags|] == Diagnostic(TypeError, 1733))
      && (NoErrorSince(r.value.diags, |st.diags|) ==> t.val == cfg.repo.predefined.boolType)
    decreases s, 1, 0
  {
    var st1 :- AnalyzeBlock(cfg, st, s.pre);
    // The init block's scope exists: its visit looked it up.
    var scope := cfg.info.scopes[s.pre.id];
    var t :- ExpectExpression(cfg, st1.(scope := Some(scope)), s.condition);
    var st2 :- ExpectBool(cfg, t.st, t.val);
    var st3 :- AnalyzeBlock(cfg, st2.(forLoop := Some(s.id)), s.body);
    var st4 :- AnalyzeBlock(cfg, st3, s.post);
    BoolConditionKept(cfg, st, t, st2, st4);
    Success(st4.(scope := st.scope, forLoop := st.forLoop))
  }

  /** The Block visit: the statements are visited in the block's own scope,
      and the previous scope is restored. */
  function AnalyzeBlock(cfg: Config, st: St, b: Block): (r: Result<St, Stop>)
    requires Links(cfg.repo)
    ensures r.Success? ==> Advances(st, r.value) && b.id in cfg.info.scopes
    decreases b, 1, 0
  {
    var scope :- ScopeOf(cfg, b.id);
    var st1 :- Statements(cfg, st.(scope := Some(scope)), b, 0);
    Success(st1.(scope := st.scope))
  }

  /** The statements of a block from the i-th on. */
  function Statements(cfg: Config, st: St, b: Block, i: nat): (r: Result<St, Stop>)
    requires Links(cfg.repo) && i <= |b.statements|
    ensures r.Success? ==> Advances(st, r.value)
    decreases b, 0, |b.statements| - i
  {
    if i == |b.statements| then Success(st)
    else
      var st1 :- AnalyzeStmt(cfg, st, b.statements[i]);
      Statements(cfg, st1, b, i + 1)
  }

  // ---------------------------------------------------------------------
  // The verdict

  /** analyze: false when the scope filler failed; otherwise the walk of
      the block from no scope and no active variables, after the
      diagnostics already recorded. The verdict is whether no error was
      reported since; an abort by the reporter yields false, a failed
      assertion propagates. */
  function Analyze(cfg: Config, prior: seq<Diagnostic>, filled: bool, b: Block): (r: Result<bool, Stop>)
    requires Links(cfg.repo)
    ensures r == Success(true) <==>
      filled && AnalyzeBlock(cfg, St(prior, {}, None, None), b).Success? &&
      NoErrorSince(AnalyzeBlock(cfg, St(prior, {}, None, None), b).value.diags, |prior|)
    ensures r.Failure? ==> r.error == Assertion && filled
    ensures r.Success? && r.value ==> b.id in cfg.info.scopes
  {
    if !filled then Success(false)
    else match AnalyzeBlock(cfg, St(prior, {}, None, None), b)
      case Success(st) => Success(NoErrorSince(st.diags, |prior|))
      case Failure(Fatal) => Success(false)
      case Failure(Assertion) => Failure(Assertion)
  }
}

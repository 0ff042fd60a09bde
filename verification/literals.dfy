/** The handle forms of the dialect's literal helpers (libyul/Dialect.cpp):
    which types a literal may carry, and the zero literal of a type. */
module Literals {
  import opened Wrappers
  import opened Builtins
  import opened Dialects
  import opened Names
  import opened Ast

  /** validTypeForLiteral, handle form: a boolean literal must carry the bool
      type; any other literal fits any type. */
  predicate ValidTypeForLiteralHandle(r: Repo, kind: LiteralKind, t: YulName) {
    kind == Boolean ==> t == r.predefined.boolType
  }

  /** zeroLiteralForType: false for a bool type distinct from the default
      type, the number 0 otherwise; either way carrying the type asked
      for. */
  function ZeroLiteralForType(r: Repo, t: YulName): (l: Literal)
    ensures l.typ == t && l.value.Limited? && l.value.number == 0
    ensures l.kind == Boolean <==> t == r.predefined.boolType && t != r.predefined.defaultType
    ensures l.kind != Boolean ==> l.kind == Number && l.value.hint == Some(Hint("0"))
    ensures l.kind == Boolean ==> l.value.hint == Some(Hint("false"))
  {
    if t == r.predefined.boolType && t != r.predefined.defaultType then Literal(Boolean, Limited(0, Some(Hint("false"))), t)
    else Literal(Number, Limited(0, Some(Hint("0"))), t)
  }

  /** The zero literal of a type is a valid literal of that type. */
  lemma ZeroLiteralValid(r: Repo, t: YulName)
    ensures ValidTypeForLiteralHandle(r, ZeroLiteralForType(r, t).kind, t)
  {
  }

  /** Number and string literals fit every type, in both forms. */
  lemma NonBooleanLiteralsFitAnyType(d: Dialect, r: Repo, kind: LiteralKind, text: string, t: YulName)
    requires kind != Boolean
    ensures ValidTypeForLiteral(d, kind, text) && ValidTypeForLiteralHandle(r, kind, t)
  {
  }

  /** Where a type name's handle lies: the empty type at handle 0, any
      other type on a plain handle above 0 carrying its name. */
  predicate TypeHandle(r: Repo, t: string, h: YulName) {
    && (t == "" ==> h == EmptyName)
    && (t != "" ==> Labelled(r, h, t) && 0 < h)
  }

  /** Distinct type names have distinct handles, so the two forms agree
      whenever the bool handle is the bool type's handle. */
  lemma FormsAgree(r: Repo, kind: LiteralKind, boolType: string, t: string, h: YulName)
    requires Resolvable(r, t) && Resolvable(r, boolType)
    requires h == ResolvedType(r, t) && r.predefined.boolType == ResolvedType(r, boolType)
    requires TypeHandle(r, t, h) && TypeHandle(r, boolType, r.predefined.boolType)
    ensures (kind == Boolean ==> t == boolType) <==> ValidTypeForLiteralHandle(r, kind, h)
  {
    var b := r.predefined.boolType;
    if t != boolType && t != "" && boolType != "" {
      assert Labelled(r, h, t) && Labelled(r, b, boolType);
    }
  }

  lemma CreateTypeHandle(d: Dialect, t: string)
    requires Coherent(d) && t in d.types
    ensures Resolvable(Create(d), t) && TypeHandle(Create(d), t, ResolvedType(Create(d), t))
  {
    CreateTypesInTable(d, t);
    CreateTypes(d, t);
  }

  /** On a freshly built repository the two forms agree: a literal may carry
      a dialect type's handle exactly when it may carry the type's name. */
  lemma ValidTypeForLiteralForms(d: Dialect, kind: LiteralKind, t: string)
    requires Coherent(d) && t in d.types
    ensures Resolvable(Create(d), t)
    ensures ValidTypeForLiteral(d, kind, t) <==> ValidTypeForLiteralHandle(Create(d), kind, ResolvedType(Create(d), t))
  {
    var r := Create(d);
    CreateBoolAndDefault(d);
    CreateTypeHandle(d, t);
    CreateTypeHandle(d, d.boolType);
    FormsAgree(r, kind, d.boolType, t, ResolvedType(r, t));
  }
}

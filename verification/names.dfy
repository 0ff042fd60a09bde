/** The name repository (libyul/YulName.h, YulName.cpp): an append-only
    arena of handles. Each handle's entry either points at a label (a plain
    name) or at an older handle it was derived from. Handle 0 is the empty
    name; the dialect's types and builtins occupy fixed ranges at the start. */
module Names {
  import opened Wrappers
  import opened Strings
  import opened OrderedSets
  import opened Builtins
  import opened Dialects

  /** A handle: an index into the arena (YulNameRepository::YulName). */
  type YulName = nat

  /** The constant handle of the empty name. */
  const EmptyName: YulName := 0

  /** One arena slot: a label index when plain, the parent handle when
      derived. */
  datatype Entry = Entry(link: nat, derived: bool)

  /** A builtin as the repository hands it out: its handle, its parameter and
      return types as handles, and the dialect's descriptor. */
  datatype NamedBuiltin = NamedBuiltin(name: YulName, parameters: seq<YulName>, results: seq<YulName>, data: BuiltinFunction)

  /** Handles the repository fixes at construction (PredefinedHandles). */
  datatype Predefined = Predefined(
    verbatim: YulName, boolType: YulName, defaultType: YulName, hashFunction: YulName,
    datasize: YulName, dataoffset: YulName, selfdestruct: YulName, memoryguard: YulName,
    eq: YulName, add: YulName, sub: YulName, tstore: YulName,
    placeholderZero: YulName, placeholderOne: YulName, placeholderThirtyTwo: YulName)

  const NoPredefined := Predefined(0, 0, 0, 0, 0, 0, 0, 0, 0, 0, 0, 0, 0, 0, 0)

  /** Per-type builtin handles, indexed like the dialect's types
      (PredefinedBuiltinFunctions). */
  datatype PredefinedFunctions = PredefinedFunctions(
    discard: seq<Option<YulName>>, equality: seq<Option<YulName>>,
    booleanNegation: Option<YulName>,
    memoryStore: seq<Option<YulName>>, memoryLoad: seq<Option<YulName>>,
    storageStore: seq<Option<YulName>>, storageLoad: seq<Option<YulName>>,
    hash: seq<YulName>)

  const NoFunctions := PredefinedFunctions([], [], None, [], [], [], [], [])

  /** The handle ranges of the types and of the builtins. */
  datatype Bounds = Bounds(beginTypes: nat, endTypes: nat, beginBuiltins: nat, endBuiltins: nat)

  /** The arena's size is |names| (m_index always equals it). */
  datatype Repo = Repo(
    dialect: Dialect,
    dialectTypes: seq<(YulName, string)>,
    builtins: map<YulName, NamedBuiltin>,
    functions: PredefinedFunctions,
    ghosts: nat,
    labels: seq<string>,
    names: seq<Entry>,
    verbatimNames: map<(nat, nat), YulName>,
    predefined: Predefined,
    bounds: Bounds)

  // ---------------------------------------------------------------------
  // Invariants

  /** A derived entry points at a strictly older handle, a plain one at an
      existing label. */
  ghost predicate Links(r: Repo) {
    forall h :: 0 <= h < |r.names| ==>
      (r.names[h].derived ==> r.names[h].link < h) && (!r.names[h].derived ==> r.names[h].link < |r.labels|)
  }

  /** Some plain handle carries label `i`. */
  ghost predicate HasOwner(r: Repo, i: nat) {
    exists h: nat :: h < |r.names| && r.names[h] == Entry(i, false)
  }

  /** Every label is the label of some plain handle. */
  ghost predicate Owned(r: Repo) {
    forall i: nat :: i < |r.labels| ==> HasOwner(r, i)
  }

  /** A handle the repository made for a verbatim builtin: derived from the
      verbatim handle and registered with a descriptor. */
  predicate VerbatimAlias(r: Repo, h: YulName) {
    h < |r.names| && r.names[h] == Entry(r.predefined.verbatim, true) && h in r.builtins
  }

  ghost predicate Registered(r: Repo) {
    && (forall h :: h in r.builtins ==> h < |r.names|)
    && (forall k :: k in r.verbatimNames ==> VerbatimAlias(r, r.verbatimNames[k]))
  }

  /** Handles below endBuiltins are plain and carry the label of the same
      index. */
  ghost predicate FrozenPrefix(r: Repo) {
    && r.bounds.endBuiltins <= |r.names| && r.bounds.endBuiltins <= |r.labels|
    && forall h :: 0 <= h < r.bounds.endBuiltins ==> r.names[h] == Entry(h, false)
  }

  /** What holds at every step, during construction included. */
  ghost predicate Arena(r: Repo) {
    Links(r) && Owned(r) && Registered(r) && FrozenPrefix(r)
  }

  ghost predicate PredefinedBounded(r: Repo) {
    var p := r.predefined;
    var n := |r.names|;
    && p.verbatim < n && p.boolType < n && p.defaultType < n && p.hashFunction < n
    && p.datasize < n && p.dataoffset < n && p.selfdestruct < n && p.memoryguard < n
    && p.eq < n && p.add < n && p.sub < n && p.tstore < n
    && p.placeholderZero < n && p.placeholderOne < n && p.placeholderThirtyTwo < n
  }

  /** One entry per dialect type, or exactly one when there are none. */
  predicate TableShaped<T>(r: Repo, s: seq<T>) {
    |s| == if |r.dialectTypes| == 0 then 1 else |r.dialectTypes|
  }

  predicate OptionBounded(o: Option<YulName>, n: nat) {
    o.Some? ==> o.value < n
  }

  ghost predicate FunctionTable(r: Repo, s: seq<Option<YulName>>) {
    TableShaped(r, s) && forall i :: 0 <= i < |s| ==> OptionBounded(s[i], |r.names|)
  }

  ghost predicate FunctionsShaped(r: Repo) {
    var f := r.functions;
    && FunctionTable(r, f.discard) && FunctionTable(r, f.equality)
    && FunctionTable(r, f.memoryStore) && FunctionTable(r, f.memoryLoad)
    && FunctionTable(r, f.storageStore) && FunctionTable(r, f.storageLoad)
    && OptionBounded(f.booleanNegation, |r.names|)
    && TableShaped(r, f.hash)
  }

  /** The repository invariant once construction is over. */
  ghost predicate Valid(r: Repo) {
    var b := r.bounds;
    && Arena(r)
    && b.beginTypes <= b.endTypes == b.beginBuiltins
    && 1 <= b.endTypes
    && b.beginBuiltins <= r.predefined.verbatim < b.endBuiltins
    && |r.labels| > 0 && r.labels[0] == ""
    && (forall i :: 0 <= i < |r.dialectTypes| ==> r.dialectTypes[i].0 < b.endTypes)
    && PredefinedBounded(r)
    && FunctionsShaped(r)
  }

  // ---------------------------------------------------------------------
  // Queries

  /** nameWithinBounds. */
  predicate WithinBounds(r: Repo, h: YulName) {
    h < |r.names|
  }

  predicate IsDerivedName(r: Repo, h: YulName)
    requires h < |r.names|
  {
    r.names[h].derived
  }

  /** Follows derivation links down to a plain handle. */
  function BaseNameOf(r: Repo, h: YulName): (b: YulName)
    requires Links(r) && h < |r.names|
    ensures b <= h && !r.names[b].derived
    ensures !r.names[h].derived ==> b == h
    ensures r.names[h].derived ==> b < h
    decreases h
  {
    if r.names[h].derived then BaseNameOf(r, r.names[h].link) else h
  }

  /** Following the links from a base name goes nowhere, and a handle shares
      its base with its parent. */
  lemma {:induction false} BaseNameIdempotent(r: Repo, h: YulName)
    requires Links(r) && h < |r.names|
    ensures BaseNameOf(r, BaseNameOf(r, h)) == BaseNameOf(r, h)
    ensures r.names[h].derived ==> BaseNameOf(r, h) == BaseNameOf(r, r.names[h].link)
  {
  }

  /** The label of the plain handle a name derives from. */
  function BaseLabelOf(r: Repo, h: YulName): (s: string)
    requires Links(r) && h < |r.names|
    ensures s == r.labels[r.names[BaseNameOf(r, h)].link]
    ensures s in r.labels
  {
    r.labels[r.names[BaseNameOf(r, h)].link]
  }

  /** The base name is unchanged by appending handles. */
  lemma {:induction false} BaseNameGrows(r: Repo, r2: Repo, h: YulName)
    requires Links(r) && Links(r2) && r.names <= r2.names && h < |r.names|
    ensures BaseNameOf(r2, h) == BaseNameOf(r, h)
    decreases h
  {
    assert r2.names[h] == r.names[h];
    if r.names[h].derived {
      BaseNameGrows(r, r2, r.names[h].link);
    }
  }

  /** deriveName keeps the base label: the new handle prints, before labels
      are generated, with the label of the name it was derived from. */
  lemma DeriveNameBaseLabel(r: Repo, h: YulName)
    requires Arena(r) && h < |r.names|
    ensures var (r2, h2) := DeriveName(r, h);
      Links(r2) && h2 < |r2.names| && BaseLabelOf(r2, h2) == BaseLabelOf(r, h)
  {
    var (r2, h2) := DeriveName(r, h);
    BaseNameGrows(r, r2, h);
    assert r2.names[h2] == Entry(h, true);
  }

  /** isType: a range check against the type handles. */
  predicate IsType(r: Repo, h: YulName) {
    r.bounds.beginTypes <= h < r.bounds.endTypes
  }

  /** isBuiltinName: the base handle lies in the builtin range. */
  predicate IsBuiltinName(r: Repo, h: YulName)
    requires Links(r) && h < |r.names|
  {
    var b := BaseNameOf(r, h);
    r.bounds.beginBuiltins <= b < r.bounds.endBuiltins
  }

  /** isVerbatimFunction: the base handle is the verbatim handle. */
  predicate IsVerbatimFunction(r: Repo, h: YulName)
    requires Links(r) && h < |r.names|
  {
    BaseNameOf(r, h) == r.predefined.verbatim
  }

  /** The builtin registered for `h`, if `h` is a builtin name at all. */
  function Builtin(r: Repo, h: YulName): (f: Option<NamedBuiltin>)
    requires Links(r) && h < |r.names|
    ensures f.Some? <==> IsBuiltinName(r, h) && h in r.builtins
    ensures f.Some? ==> f.value == r.builtins[h]
  {
    if IsBuiltinName(r, h) && h in r.builtins then Some(r.builtins[h]) else None
  }

  /** labelOf: a plain handle's label, or the name of the verbatim builtin a
      verbatim alias stands for; any other derived handle has no label yet
      (an assertion in the source). */
  function LabelOf(r: Repo, h: YulName): (s: Result<string, Stop>)
    requires Links(r) && h < |r.names|
    ensures !r.names[h].derived ==> s == Success(r.labels[r.names[h].link])
    ensures r.names[h].derived && IsVerbatimFunction(r, h) && Builtin(r, h).Some? ==>
      s == Success(r.builtins[h].data.name)
    ensures s.Failure? <==> r.names[h].derived && !(IsVerbatimFunction(r, h) && Builtin(r, h).Some?)
  {
    if !r.names[h].derived then Success(r.labels[r.names[h].link])
    else if IsVerbatimFunction(r, h) then
      match Builtin(r, h)
      case Some(f) => Success(f.data.name)
      case None => Failure(Assertion)
    else Failure(Assertion)
  }

  // ---------------------------------------------------------------------
  // Lookups by text

  /** std::find over a sequence of strings: the first index holding `x`, or
      the length. */
  function FirstIndex(s: seq<string>, x: string): (i: nat)
    ensures i <= |s|
    ensures i < |s| ==> s[i] == x
    ensures forall j :: 0 <= j < i ==> s[j] != x
    decreases |s|
  {
    if |s| == 0 then 0
    else if s[0] == x then 0
    else 1 + FirstIndex(s[1..], x)
  }

  /** A find from the back: the last handle whose entry is `e`. */
  function LastEntry(names: seq<Entry>, e: Entry): (j: Option<nat>)
    ensures j.Some? ==> j.value < |names| && names[j.value] == e
    ensures j.Some? ==> forall k :: j.value < k < |names| ==> names[k] != e
    ensures j.None? ==> forall k :: 0 <= k < |names| ==> names[k] != e
    decreases |names|
  {
    if |names| == 0 then None
    else if names[|names| - 1] == e then Some(|names| - 1)
    else LastEntry(names[..|names| - 1], e)
  }

  /** nameOfLabel: the handle of the first label equal to `label` when that
      handle has the label's own index, otherwise the last plain handle
      pointing at that label; 0 when there is none. The entry at the label's
      index is read only when it exists. */
  function NameOfLabel(r: Repo, text: string): (h: YulName)
    ensures h == 0 || (h < |r.names| && r.names[h] == Entry(FirstIndex(r.labels, text), false))
    ensures text !in r.labels ==> h == 0
  {
    var i := FirstIndex(r.labels, text);
    if i == |r.labels| then 0
    else if i < |r.names| && !r.names[i].derived && r.names[i].link == i then i
    else
      match LastEntry(r.names, Entry(i, false))
      case Some(j) => j
      case None => 0
  }

  /** nameOfLabel and labelOf are inverse on the labels the repository
      holds: the handle found for a label is a plain handle whose label is
      that text. */
  lemma LabelOfNameOfLabel(r: Repo, text: string)
    requires Links(r) && Owned(r) && text in r.labels
    ensures NameOfLabel(r, text) < |r.names|
    ensures !r.names[NameOfLabel(r, text)].derived
    ensures LabelOf(r, NameOfLabel(r, text)) == Success(text)
  {
    var i := FirstIndex(r.labels, text);
    assert i < |r.labels|;
    if !(i < |r.names| && !r.names[i].derived && r.names[i].link == i) {
      assert HasOwner(r, i);
      var h: nat :| h < |r.names| && r.names[h] == Entry(i, false);
      assert LastEntry(r.names, Entry(i, false)).Some?;
    }
  }

  function NameOfBuiltinFrom(r: Repo, text: string, i: nat): (h: YulName)
    requires Arena(r)
    ensures h != 0 ==> i <= h < r.bounds.endBuiltins && r.labels[h] == text
    ensures h != 0 ==> forall k :: i <= k < h ==> r.labels[k] != text
    ensures h == 0 ==> (forall k :: i <= k < r.bounds.endBuiltins ==> r.labels[k] != text) || (i == 0 && r.labels[0] == text)
    decreases r.bounds.endBuiltins - i
  {
    if i >= r.bounds.endBuiltins then 0
    else if BaseLabelOf(r, r.names[i].link) == text then i
    else NameOfBuiltinFrom(r, text, i + 1)
  }

  /** nameOfBuiltin: the first handle of the builtin range whose label is
      `label`, or 0. */
  function NameOfBuiltin(r: Repo, text: string): (h: YulName)
    requires Arena(r)
    ensures h != 0 ==> r.bounds.beginBuiltins <= h < r.bounds.endBuiltins && r.labels[h] == text
    ensures h != 0 ==> forall k :: r.bounds.beginBuiltins <= k < h ==> r.labels[k] != text
    ensures h == 0 && r.bounds.beginBuiltins > 0 ==> forall k :: r.bounds.beginBuiltins <= k < r.bounds.endBuiltins ==> r.labels[k] != text
  {
    NameOfBuiltinFrom(r, text, r.bounds.beginBuiltins)
  }

  /** Whether nameOfType can map the type label `t` (the dialect has no
      types, or `t` is one of them). */
  predicate Resolvable(r: Repo, t: string) {
    |r.dialectTypes| == 0 || exists i :: 0 <= i < |r.dialectTypes| && r.dialectTypes[i].1 == t
  }

  function FindType(ts: seq<(YulName, string)>, t: string): (i: nat)
    ensures i <= |ts|
    ensures i < |ts| ==> ts[i].1 == t
    ensures forall j :: 0 <= j < i ==> ts[j].1 != t
    decreases |ts|
  {
    if |ts| == 0 then 0
    else if ts[0].1 == t then 0
    else 1 + FindType(ts[1..], t)
  }

  /** nameOfType: the handle of the first dialect type labelled `t`; the
      empty name when the dialect has no types; and a failed assertion for
      a label that is not one of the dialect's types. */
  function NameOfType(r: Repo, t: string): (res: Result<YulName, Stop>)
    ensures res.Success? <==> Resolvable(r, t)
    ensures res.Failure? ==> res.error == Assertion
    ensures res.Success? && |r.dialectTypes| == 0 ==> res.value == 0
    ensures res.Success? && |r.dialectTypes| > 0 ==>
      exists i :: 0 <= i < |r.dialectTypes| && r.dialectTypes[i] == (res.value, t)
        && forall j :: 0 <= j < i ==> r.dialectTypes[j].1 != t
  {
    if |r.dialectTypes| == 0 then Success(0)
    else
      var i := FindType(r.dialectTypes, t);
      if i < |r.dialectTypes| then Success(r.dialectTypes[i].0) else Failure(Assertion)
  }

  /** nameOfType where the caller has made sure the label resolves (every
      call in the repository's own construction is of this kind). */
  function ResolvedType(r: Repo, t: string): (h: YulName)
    requires Resolvable(r, t)
    ensures NameOfType(r, t) == Success(h)
    ensures |r.dialectTypes| == 0 ==> h == 0
    ensures |r.dialectTypes| > 0 ==> exists i :: 0 <= i < |r.dialectTypes| && r.dialectTypes[i] == (h, t)
  {
    NameOfType(r, t).value
  }

  /** convertBuiltinFunction: the descriptor with its types as handles. */
  function ConvertBuiltinFunction(r: Repo, h: YulName, f: BuiltinFunction): (c: NamedBuiltin)
    requires h < |r.names|
    requires forall t :: t in f.parameters || t in f.results ==> Resolvable(r, t)
    ensures c.name == h && c.data == f
    ensures |c.parameters| == |f.parameters| && |c.results| == |f.results|
    ensures forall i :: 0 <= i < |f.parameters| ==> c.parameters[i] == ResolvedType(r, f.parameters[i])
    ensures forall i :: 0 <= i < |f.results| ==> c.results[i] == ResolvedType(r, f.results[i])
  {
    NamedBuiltin(h, seq(|f.parameters|, i requires 0 <= i < |f.parameters| => ResolvedType(r, f.parameters[i])),
      seq(|f.results|, i requires 0 <= i < |f.results| => ResolvedType(r, f.results[i])), f)
  }

  // ---------------------------------------------------------------------
  // Growing the arena

  /** `r2` is `r` with handles, labels, descriptors or verbatim aliases
      added and nothing already there changed. */
  ghost predicate Grows(r: Repo, r2: Repo) {
    && r2.dialect == r.dialect && r2.dialectTypes == r.dialectTypes && r2.functions == r.functions
    && r2.predefined == r.predefined && r2.bounds == r.bounds
    && r.names <= r2.names && r.labels <= r2.labels
    && (forall h :: h in r.builtins ==> h in r2.builtins && r2.builtins[h] == r.builtins[h])
    && (forall k :: k in r.verbatimNames ==> k in r2.verbatimNames && r2.verbatimNames[k] == r.verbatimNames[k])
  }

  /** The handle is plain and carries the label `text`. */
  predicate Labelled(r: Repo, h: YulName, text: string) {
    h < |r.names| && !r.names[h].derived && r.names[h].link < |r.labels| && r.labels[r.names[h].link] == text
  }

  /** The dialect resolves `text` to a builtin of the verbatim family (one
      whose name begins with "verbatim"). */
  predicate VerbatimLabel(d: Dialect, text: string) {
    var f := Dialects.Builtin(d, text);
    f.Some? && StartsWith(f.value.name, "verbatim")
  }

  /** The parameter and return counts a verbatim builtin is keyed by. */
  function Arity(f: BuiltinFunction): (nat, nat) {
    (|f.parameters|, |f.results|)
  }

  /** What defineName needs of a builtin label: its types map to handles
      and, for the verbatim family, the verbatim handle exists. */
  ghost predicate Definable(r: Repo, text: string) {
    match Dialects.Builtin(r.dialect, text)
    case None => true
    case Some(f) =>
      && (forall t :: t in f.parameters || t in f.results ==> Resolvable(r, t))
      && (StartsWith(f.name, "verbatim") ==> r.predefined.verbatim < |r.names|)
  }

  lemma GrowsTransitive(a: Repo, b: Repo, c: Repo)
    requires Grows(a, b) && Grows(b, c)
    ensures Grows(a, c)
  {
  }

  lemma GrowsDefinable(r: Repo, r2: Repo, text: string)
    requires Grows(r, r2) && Definable(r, text)
    ensures Definable(r2, text)
  {
  }

  lemma GrowsDefinableAll(r: Repo, r2: Repo, ls: seq<string>)
    requires Grows(r, r2)
    requires forall l :: l in ls ==> Definable(r, l)
    ensures forall l :: l in ls ==> Definable(r2, l)
  {
    forall l | l in ls ensures Definable(r2, l) {
      GrowsDefinable(r, r2, l);
    }
  }

  /** Owning handles stay where they are when the arena grows. */
  lemma OwnedByPrefix(r: Repo, r2: Repo)
    requires r.names <= r2.names && r2.labels == r.labels
    ensures Owned(r) ==> Owned(r2)
  {
    if Owned(r) {
      forall i: nat | i < |r2.labels| ensures HasOwner(r2, i) {
        assert HasOwner(r, i);
        var k: nat :| k < |r.names| && r.names[k] == Entry(i, false);
        assert r2.names[k] == Entry(i, false);
      }
    }
  }

  /** Appends a plain handle with a new label. */
  function Append(r: Repo, text: string): (res: (Repo, YulName))
    requires Arena(r)
    ensures Arena(res.0) && Grows(r, res.0)
    ensures res.1 == |r.names| && |res.0.names| == |r.names| + 1 && |res.0.labels| == |r.labels| + 1
    ensures Labelled(res.0, res.1, text)
  {
    var r2 := r.(labels := r.labels + [text], names := r.names + [Entry(|r.labels|, false)]);
    assert Owned(r2) by {
      forall i: nat | i < |r2.labels| ensures HasOwner(r2, i) {
        if i < |r.labels| {
          assert HasOwner(r, i);
          var h: nat :| h < |r.names| && r.names[h] == Entry(i, false);
          assert r2.names[h] == Entry(i, false);
        } else {
          assert r2.names[|r.names|] == Entry(i, false);
        }
      }
    }
    (r2, |r.names|)
  }

  /** deriveName: a new handle whose entry points at `h`. */
  function DeriveName(r: Repo, h: YulName): (res: (Repo, YulName))
    requires h < |r.names|
    ensures res.1 == |r.names| && res.0.names == r.names + [Entry(h, true)]
    ensures Grows(r, res.0) && res.0.labels == r.labels
    ensures Arena(r) ==> Arena(res.0)
  {
    var r2 := r.(names := r.names + [Entry(h, true)]);
    OwnedByPrefix(r, r2);
    (r2, |r.names|)
  }

  /** The verbatim branch of defineName: the alias already made for the
      builtin's arity, or a new handle derived from the verbatim handle and
      registered with the converted descriptor. */
  function DefineVerbatim(r: Repo, f: BuiltinFunction): (res: (Repo, YulName))
    requires Arena(r) && r.predefined.verbatim < |r.names|
    requires forall t :: t in f.parameters || t in f.results ==> Resolvable(r, t)
    ensures Arena(res.0) && Grows(r, res.0)
    ensures |res.0.names| <= |r.names| + 1 && res.0.labels == r.labels
    ensures VerbatimAlias(res.0, res.1)
    ensures Arity(f) in res.0.verbatimNames && res.0.verbatimNames[Arity(f)] == res.1
    ensures Arity(f) !in r.verbatimNames ==> res.0.builtins[res.1].data == f
  {
    var key := Arity(f);
    if key in r.verbatimNames then (r, r.verbatimNames[key])
    else
      var (r1, h) := DeriveName(r, r.predefined.verbatim);
      assert r1.dialectTypes == r.dialectTypes;
      assert forall t :: Resolvable(r, t) ==> Resolvable(r1, t);
      var r2 := r1.(verbatimNames := r1.verbatimNames[key := h], builtins := r1.builtins[h := ConvertBuiltinFunction(r1, h, f)]);
      OwnedByPrefix(r1, r2);
      (r2, h)
  }

  /** defineName: the handle for `text`. A builtin of the verbatim family
      gets one derived handle per arity; any other builtin its handle in the
      builtin range, if there is one; any other label the handle already
      carrying it, if nameOfLabel finds one; otherwise a new plain handle. */
  function DefineName(r: Repo, text: string): (res: (Repo, YulName))
    requires Arena(r) && Definable(r, text)
    ensures Arena(res.0) && Grows(r, res.0)
    ensures res.1 < |res.0.names| && |res.0.names| <= |r.names| + 1 && |res.0.labels| <= |r.labels| + 1
    ensures !VerbatimLabel(r.dialect, text) ==> Labelled(res.0, res.1, text)
    ensures !VerbatimLabel(r.dialect, text) ==> res.0 == r || res == Append(r, text)
    ensures !VerbatimLabel(r.dialect, text) && text !in r.labels ==> res == Append(r, text)
    ensures VerbatimLabel(r.dialect, text) ==>
      var key := Arity(Dialects.Builtin(r.dialect, text).value);
      && VerbatimAlias(res.0, res.1)
      && key in res.0.verbatimNames && res.0.verbatimNames[key] == res.1
      && (key !in r.verbatimNames ==> res.0.builtins[res.1].data == Dialects.Builtin(r.dialect, text).value)
  {
    match Dialects.Builtin(r.dialect, text)
    case Some(f) =>
      if StartsWith(f.name, "verbatim") then DefineVerbatim(r, f)
      else
        var b := NameOfBuiltin(r, text);
        if b == EmptyName then Append(r, text) else (r, b)
    case None =>
      var n := NameOfLabel(r, text);
      if n != EmptyName then (r, n) else Append(r, text)
  }

  // ---------------------------------------------------------------------
  // Interning

  /** In a valid repository a non-empty label that is present is found. */
  lemma PresentLabelFound(r: Repo, text: string)
    requires Valid(r) && text != "" && text in r.labels
    ensures NameOfLabel(r, text) != EmptyName && Labelled(r, NameOfLabel(r, text), text)
  {
    var i := FirstIndex(r.labels, text);
    assert i != 0;
    assert r.names[0] == Entry(0, false);
    if !(i < |r.names| && !r.names[i].derived && r.names[i].link == i) {
      assert HasOwner(r, i);
      var k: nat :| k < |r.names| && r.names[k] == Entry(i, false);
      assert LastEntry(r.names, Entry(i, false)).Some?;
    }
  }

  /** A label appended last is found again, at the handle just made. */
  lemma AppendedLabelFound(r: Repo, text: string)
    requires Arena(r) && text !in r.labels
    ensures NameOfLabel(Append(r, text).0, text) == Append(r, text).1
  {
    var (r1, h) := Append(r, text);
    var l := |r.labels|;
    assert r1.labels == r.labels + [text];
    assert FirstIndex(r1.labels, text) == l by {
      assert forall j :: 0 <= j < l ==> r1.labels[j] == r.labels[j] != text;
      assert r1.labels[l] == text;
    }
    if l < |r.names| {
      assert r1.names[l] == r.names[l];
    }
    assert r1.names[h] == Entry(l, false);
  }

  /** defineName interns: defining a non-empty label a second time returns
      the same handle and changes nothing, for every label other than the
      verbatim family, as long as a builtin label has its handle in the
      builtin range. */
  lemma DefineNameInterns(r: Repo, text: string)
    requires Valid(r) && Definable(r, text) && text != ""
    requires !VerbatimLabel(r.dialect, text)
    requires Dialects.Builtin(r.dialect, text).None? || NameOfBuiltin(r, text) != EmptyName
    ensures var (r1, h1) := DefineName(r, text);
      Definable(r1, text) && DefineName(r1, text) == (r1, h1)
  {
    var (r1, h1) := DefineName(r, text);
    GrowsDefinable(r, r1, text);
    if Dialects.Builtin(r.dialect, text).None? && NameOfLabel(r, text) == EmptyName {
      if text in r.labels {
        PresentLabelFound(r, text);
      }
      AppendedLabelFound(r, text);
    }
  }

  /** The verbatim family is deduplicated by arity: two labels whose
      verbatim builtins have the same parameter and return counts get one
      handle. */
  lemma DefineVerbatimByArity(r: Repo, text1: string, text2: string)
    requires Arena(r) && Definable(r, text1) && Definable(r, text2)
    requires VerbatimLabel(r.dialect, text1) && VerbatimLabel(r.dialect, text2)
    requires Arity(Dialects.Builtin(r.dialect, text1).value) == Arity(Dialects.Builtin(r.dialect, text2).value)
    ensures var (r1, h1) := DefineName(r, text1);
      Definable(r1, text2) && DefineName(r1, text2) == (r1, h1)
  {
    var (r1, h1) := DefineName(r, text1);
    GrowsDefinable(r, r1, text2);
  }

  /** defineName("") is not idempotent: nameOfLabel's not-found answer is
      the empty name's own handle, so every call appends a new handle. */
  lemma EmptyLabelNotInterned(r: Repo)
    requires Valid(r) && Dialects.Builtin(r.dialect, "").None?
    ensures DefineName(r, "").1 == |r.names|
  {
    assert r.names[0] == Entry(0, false);
    assert FirstIndex(r.labels, "") == 0;
  }

  // ---------------------------------------------------------------------
  // Ghost names

  /** The label of the n-th ghost name. */
  function GhostLabel(n: nat): string {
    "GHOST[" + NatToString(n) + "]"
  }

  lemma GhostLabelInjective(a: nat, b: nat)
    requires GhostLabel(a) == GhostLabel(b)
    ensures a == b
  {
    var s := GhostLabel(a);
    assert NatToString(a) == s[6..|s| - 1];
    assert NatToString(b) == GhostLabel(b)[6..|GhostLabel(b)| - 1];
    NatToStringInjective(a, b);
  }

  /** addGhost: bumps the ghost counter and defines the label made from its
      old value. */
  function AddGhost(r: Repo): (res: (Repo, YulName))
    requires Arena(r) && Definable(r, GhostLabel(r.ghosts))
    ensures res.0.ghosts == r.ghosts + 1
    ensures res.1 < |res.0.names| && |res.0.names| <= |r.names| + 1
    ensures Arena(res.0) && Grows(r.(ghosts := r.ghosts + 1), res.0)
    ensures !VerbatimLabel(r.dialect, GhostLabel(r.ghosts)) ==> Labelled(res.0, res.1, GhostLabel(r.ghosts))
  {
    var r1 := r.(ghosts := r.ghosts + 1);
    GhostCounted(r);
    DefineName(r1, GhostLabel(r.ghosts))
  }

  /** Counting one more ghost keeps the repository an arena in which the
      ghost's label can still be defined. */
  lemma GhostCounted(r: Repo)
    requires Arena(r) && Definable(r, GhostLabel(r.ghosts))
    ensures Arena(r.(ghosts := r.ghosts + 1)) && Definable(r.(ghosts := r.ghosts + 1), GhostLabel(r.ghosts))
  {
    OwnedByPrefix(r, r.(ghosts := r.ghosts + 1));
  }

  /** Two ghosts in a row are different handles (when neither ghost label
      names a verbatim builtin). */
  lemma GhostsDistinct(r: Repo)
    requires Arena(r) && Definable(r, GhostLabel(r.ghosts))
    requires !VerbatimLabel(r.dialect, GhostLabel(r.ghosts)) && !VerbatimLabel(r.dialect, GhostLabel(r.ghosts + 1))
    requires Definable(AddGhost(r).0, GhostLabel(r.ghosts + 1))
    ensures var (r1, h1) := AddGhost(r);
      var (r2, h2) := AddGhost(r1);
      h1 != h2 && r2.ghosts == r.ghosts + 2
  {
    var (r1, h1) := AddGhost(r);
    var (r2, h2) := AddGhost(r1);
    if h1 == h2 {
      assert r2.names[h1] == r1.names[h1];
      assert r2.labels[r1.names[h1].link] == r1.labels[r1.names[h1].link];
      GhostLabelInjective(r.ghosts, r.ghosts + 1);
    }
  }

  // ---------------------------------------------------------------------
  // Construction

  /** Every handle is plain and carries the label of its own index, as
      during construction. */
  ghost predicate Iota(r: Repo) {
    |r.labels| == |r.names| && forall h :: 0 <= h < |r.names| ==> r.names[h] == Entry(h, false)
  }

  predicate TypesIn(f: BuiltinFunction, ts: set<string>) {
    (forall t :: t in f.parameters ==> t in ts) && (forall t :: t in f.results ==> t in ts)
  }

  /** What the construction needs of a dialect: its types, its builtin
      labels and the verbatim placeholder label are distinct and never
      resolve to a builtin of the verbatim family, builtins only use the
      dialect's types, the bool and default types are dialect types, and
      the per-type lookups accept every type. */
  ghost predicate Coherent(d: Dialect) {
    && (forall t :: t in d.types ==> Dialects.Builtin(d, t).None?)
    && (d.types != {} ==> forall name :: Dialects.Builtin(d, name).Some? ==> TypesIn(Dialects.Builtin(d, name).value, d.types))
    && !VerbatimLabel(d, "")
    && (forall l :: l in BuiltinNames(d) ==> !VerbatimLabel(d, l))
    && "@ verbatim" !in d.types && "@ verbatim" !in BuiltinNames(d) && Dialects.Builtin(d, "@ verbatim").None?
    && BuiltinNames(d) !! d.types
    && (d.types != {} ==> d.boolType in d.types && d.defaultType in d.types)
    && (forall t :: t in d.types ==> TypeHandled(d, t))
    && (d.types == {} ==> TypeHandled(d, ""))
  }

  /** The dialect's types are all known to nameOfType. */
  ghost predicate TypesKnown(r: Repo) {
    && (r.dialect.types == {} <==> |r.dialectTypes| == 0)
    && (forall t :: t in r.dialect.types ==> Resolvable(r, t))
    && (forall i :: 0 <= i < |r.dialectTypes| ==> r.dialectTypes[i].1 in r.dialect.types)
  }

  /** Once the types are in place every label can be defined. */
  lemma AllDefinable(r: Repo, text: string)
    requires Coherent(r.dialect) && TypesKnown(r) && r.predefined.verbatim < |r.names|
    ensures Definable(r, text)
  {
  }

  lemma TypesKnownGrows(r: Repo, r2: Repo)
    requires TypesKnown(r) && r2.dialect == r.dialect && r2.dialectTypes == r.dialectTypes
    ensures TypesKnown(r2)
  {
    forall t | t in r.dialect.types ensures Resolvable(r2, t) {
      assert Resolvable(r, t);
    }
  }

  /** The labels of `ts` other than the empty one, in order. */
  function NonEmpty(ts: seq<string>): (r: seq<string>)
    ensures forall x :: x in r ==> x in ts && x != ""
    ensures |r| <= |ts|
    decreases |ts|
  {
    if |ts| == 0 then []
    else NonEmpty(ts[..|ts| - 1]) + (if ts[|ts| - 1] == "" then [] else [ts[|ts| - 1]])
  }

  predicate Distinct(s: seq<string>) {
    forall i, j :: 0 <= i < j < |s| ==> s[i] != s[j]
  }

  /** Labels that each get a new handle when defined: no two are equal and
      none but the empty one is present yet. */
  predicate Fresh(r: Repo, ts: seq<string>) {
    Distinct(ts) && forall i :: 0 <= i < |ts| && ts[i] != "" ==> ts[i] !in r.labels
  }

  lemma FreshPrefix(r: Repo, ts: seq<string>)
    requires Fresh(r, ts) && |ts| > 0
    ensures Fresh(r, ts[..|ts| - 1])
    ensures ts[|ts| - 1] !in NonEmpty(ts[..|ts| - 1])
  {
    var prefix := ts[..|ts| - 1];
    assert forall i :: 0 <= i < |prefix| ==> prefix[i] == ts[i];
  }

  /** The construction's first step: handle 0 for the empty label. */
  function StartRepo(d: Dialect): (r: Repo)
    requires !VerbatimLabel(d, "")
    ensures Arena(r) && Iota(r) && r.labels == [""] && |r.names| == 1
    ensures r.dialect == d && r.dialectTypes == [] && r.builtins == map[] && r.verbatimNames == map[]
    ensures r.predefined == NoPredefined && r.bounds == Bounds(0, 0, 0, 0) && r.functions == NoFunctions
  {
    var r0 := Repo(d, [], map[], NoFunctions, 0, [], [], map[], NoPredefined, Bounds(0, 0, 0, 0));
    DefineName(r0, "").0
  }

  /** One pass of the types loop: the empty type is handle 0 and moves
      beginTypes to 0, any other type is defined and moves it to 1. */
  function AddType(r: Repo, t: string): (res: Repo)
    requires Arena(r) && Iota(r) && Dialects.Builtin(r.dialect, t).None?
    ensures Arena(res) && Iota(res)
    ensures res.dialect == r.dialect && res.predefined == r.predefined && res.functions == r.functions
    ensures res.builtins == r.builtins && res.verbatimNames == r.verbatimNames
    ensures res.bounds == r.bounds.(beginTypes := if t == "" then 0 else 1)
    ensures r.names <= res.names && r.labels <= res.labels
    ensures |res.dialectTypes| == |r.dialectTypes| + 1 && res.dialectTypes[..|r.dialectTypes|] == r.dialectTypes
    ensures TypeSlot(res, res.dialectTypes[|r.dialectTypes|], t)
    ensures t == "" ==> res.names == r.names
    ensures t == "" ==> res.labels == r.labels
    ensures t != "" && t !in r.labels ==> res.labels == r.labels + [t] && res.dialectTypes[|r.dialectTypes|].0 == |r.names|
  {
    if t == "" then
      var res := r.(bounds := r.bounds.(beginTypes := 0), dialectTypes := r.dialectTypes + [(EmptyName, t)]);
      OwnedByPrefix(r, res);
      res
    else
      var (r1, h) := DefineName(r, t);
      var res := r1.(bounds := r1.bounds.(beginTypes := 1), dialectTypes := r1.dialectTypes + [(h, t)]);
      OwnedByPrefix(r1, res);
      res
  }

  /** A type slot of the repository: the label, and handle 0 for the empty
      type or a handle carrying the label otherwise. */
  predicate TypeSlot(r: Repo, slot: (YulName, string), t: string) {
    slot.1 == t && (t == "" ==> slot.0 == EmptyName) && (t != "" ==> Labelled(r, slot.0, t))
  }

  lemma TypeSlotGrows(r: Repo, r2: Repo, slot: (YulName, string), t: string)
    requires TypeSlot(r, slot, t) && r.names <= r2.names && r.labels <= r2.labels
    ensures TypeSlot(r2, slot, t)
  {
    if t != "" {
      assert r2.names[slot.0] == r.names[slot.0];
      assert r2.labels[r.names[slot.0].link] == r.labels[r.names[slot.0].link];
    }
  }

  /** The types loop over `ts`, in order. New labels are appended in
      order, each to a new handle. */
  function DefineTypes(r: Repo, ts: seq<string>): (res: Repo)
    requires Arena(r) && Iota(r)
    requires forall i :: 0 <= i < |ts| ==> Dialects.Builtin(r.dialect, ts[i]).None?
    ensures Arena(res) && Iota(res)
    ensures res.dialect == r.dialect && res.predefined == r.predefined && res.functions == r.functions
    ensures res.builtins == r.builtins && res.verbatimNames == r.verbatimNames
    ensures |ts| == 0 ==> res.bounds == r.bounds
    ensures |ts| > 0 ==> res.bounds == r.bounds.(beginTypes := if ts[|ts| - 1] == "" then 0 else 1)
    ensures r.names <= res.names && r.labels <= res.labels
    ensures |res.dialectTypes| == |r.dialectTypes| + |ts| && res.dialectTypes[..|r.dialectTypes|] == r.dialectTypes
    decreases |ts|
  {
    if |ts| == 0 then r
    else
      var prefix := ts[..|ts| - 1];
      assert forall i :: 0 <= i < |prefix| ==> prefix[i] == ts[i];
      AddType(DefineTypes(r, prefix), ts[|ts| - 1])
  }

  /** Fresh type labels are appended in order. */
  lemma {:induction false} DefineTypesLabels(r: Repo, ts: seq<string>)
    requires Arena(r) && Iota(r)
    requires forall i :: 0 <= i < |ts| ==> Dialects.Builtin(r.dialect, ts[i]).None?
    requires Fresh(r, ts)
    ensures DefineTypes(r, ts).labels == r.labels + NonEmpty(ts)
    decreases |ts|
  {
    if |ts| > 0 {
      var prefix := ts[..|ts| - 1];
      assert forall i :: 0 <= i < |prefix| ==> prefix[i] == ts[i];
      var t := ts[|ts| - 1];
      FreshPrefix(r, ts);
      DefineTypesLabels(r, prefix);
      var r1 := DefineTypes(r, prefix);
      LabelsStep(r.labels, prefix, t, r1.labels, AddType(r1, t).labels);
    }
  }

  lemma LabelsStep(l0: seq<string>, prefix: seq<string>, t: string, l1: seq<string>, l2: seq<string>)
    requires l1 == l0 + NonEmpty(prefix)
    requires t == "" ==> l2 == l1
    requires t != "" && t !in l1 ==> l2 == l1 + [t]
    requires t != "" ==> t !in l0 && t !in NonEmpty(prefix)
    ensures l2 == l0 + NonEmpty(prefix + [t])
  {
    var full := prefix + [t];
    assert full[..|full| - 1] == prefix;
    assert NonEmpty(full) == NonEmpty(prefix) + (if t == "" then [] else [t]);
    if t != "" {
      assert t !in l1;
      assert l1 + [t] == l0 + (NonEmpty(prefix) + [t]);
    }
  }

  /** None of `ts` names a builtin of the dialect. */
  predicate NoBuiltinAmong(d: Dialect, ts: seq<string>) {
    forall i :: 0 <= i < |ts| ==> Dialects.Builtin(d, ts[i]).None?
  }

  /** The last pass of the types loop: it extends the repository the
      earlier passes built and gives the last type its slot. */
  lemma DefineTypesLast(r: Repo, ts: seq<string>)
    requires Arena(r) && Iota(r) && |ts| > 0
    requires forall i :: 0 <= i < |ts| ==> Dialects.Builtin(r.dialect, ts[i]).None?
    ensures NoBuiltinAmong(r.dialect, ts[..|ts| - 1])
    ensures var r1 := DefineTypes(r, ts[..|ts| - 1]);
      var res := DefineTypes(r, ts);
      && |r1.dialectTypes| == |r.dialectTypes| + |ts| - 1
      && |r1.dialectTypes| < |res.dialectTypes| && res.dialectTypes[..|r1.dialectTypes|] == r1.dialectTypes
      && r1.names <= res.names && r1.labels <= res.labels
      && TypeSlot(res, res.dialectTypes[|r1.dialectTypes|], ts[|ts| - 1])
  {
    var prefix := ts[..|ts| - 1];
    assert forall i :: 0 <= i < |prefix| ==> prefix[i] == ts[i];
  }

  /** Slots `base`, `base + 1`, ... of the repository hold the types `ts`. */
  ghost predicate SlotsHold(base: nat, r: Repo, ts: seq<string>) {
    base + |ts| <= |r.dialectTypes| && forall i :: 0 <= i < |ts| ==> TypeSlot(r, r.dialectTypes[base + i], ts[i])
  }

  /** One more pass of the types loop: the repository it yields extends
      the one before, so the earlier slots stay and the new type's slot
      follows them. */
  lemma TypeSlotsSnoc(base: nat, r1: Repo, res: Repo, ts: seq<string>)
    requires |ts| > 0 && |r1.dialectTypes| == base + |ts| - 1 < |res.dialectTypes|
    requires res.dialectTypes[..|r1.dialectTypes|] == r1.dialectTypes
    requires r1.names <= res.names && r1.labels <= res.labels
    requires SlotsHold(base, r1, ts[..|ts| - 1])
    requires TypeSlot(res, res.dialectTypes[|r1.dialectTypes|], ts[|ts| - 1])
    ensures SlotsHold(base, res, ts)
  {
    forall i | 0 <= i < |ts| ensures TypeSlot(res, res.dialectTypes[base + i], ts[i]) {
      if i < |ts| - 1 {
        assert ts[..|ts| - 1][i] == ts[i];
        assert res.dialectTypes[base + i] == res.dialectTypes[..|r1.dialectTypes|][base + i];
        TypeSlotGrows(r1, res, r1.dialectTypes[base + i], ts[i]);
      }
    }
  }

  /** Each type of the loop gets a slot holding its label and a handle
      carrying it (handle 0 for the empty type). */
  lemma {:induction false} DefineTypesSlots(r: Repo, ts: seq<string>)
    requires Arena(r) && Iota(r)
    requires forall i :: 0 <= i < |ts| ==> Dialects.Builtin(r.dialect, ts[i]).None?
    ensures SlotsHold(|r.dialectTypes|, DefineTypes(r, ts), ts)
    decreases |ts|
  {
    if |ts| > 0 {
      var prefix := ts[..|ts| - 1];
      DefineTypesLast(r, ts);
      DefineTypesSlots(r, prefix);
      TypeSlotsSnoc(|r.dialectTypes|, DefineTypes(r, prefix), DefineTypes(r, ts), ts);
    }
  }

  /** The label of the handle verbatim aliases derive from. */
  const VerbatimPlaceholder := "@ verbatim"

  /** The end of the types: the type and builtin boundaries, then the
      verbatim handle. */
  function BeginBuiltins(r: Repo): (res: Repo)
    requires Arena(r) && Iota(r) && r.bounds.endBuiltins == 0 && r.verbatimNames == map[]
    requires Dialects.Builtin(r.dialect, VerbatimPlaceholder).None? && VerbatimPlaceholder !in r.labels
    ensures Arena(res) && Iota(res)
    ensures res.labels == r.labels + [VerbatimPlaceholder]
    ensures res.bounds == r.bounds.(endTypes := |r.names|, beginBuiltins := |r.names|)
    ensures res.predefined == r.predefined.(verbatim := |r.names|)
    ensures res.dialect == r.dialect && res.dialectTypes == r.dialectTypes && res.functions == r.functions
    ensures res.builtins == r.builtins && res.verbatimNames == map[]
  {
    var r0 := r.(bounds := r.bounds.(endTypes := |r.names|, beginBuiltins := |r.names|));
    OwnedByPrefix(r, r0);
    var (r1, h) := DefineName(r0, VerbatimPlaceholder);
    var res := r1.(predefined := r1.predefined.(verbatim := h));
    OwnedByPrefix(r1, res);
    res
  }

  /** The handle `h` carries the builtin label `l` and, when the dialect
      has a builtin of that name, is registered with its descriptor. */
  predicate BuiltinSlot(r: Repo, h: YulName, l: string) {
    && Labelled(r, h, l)
    && (Dialects.Builtin(r.dialect, l).Some? ==> h in r.builtins && r.builtins[h].data == Dialects.Builtin(r.dialect, l).value)
  }

  /** One pass of the builtins loop: the empty label is skipped; any other
      is defined and, if the dialect has a builtin of that name, registered
      with its converted descriptor. */
  function AddBuiltin(r: Repo, l: string): (res: Repo)
    requires Arena(r) && Iota(r) && r.bounds.endBuiltins == 0
    requires Definable(r, l) && !VerbatimLabel(r.dialect, l)
    ensures Arena(res) && Iota(res) && Grows(r, res)
    ensures l == "" ==> res == r
    ensures l != "" && l !in r.labels ==> res.labels == r.labels + [l] && BuiltinSlot(res, |r.names|, l)
    ensures |res.names| <= |r.names| + 1
  {
    if l == "" then r
    else
      match Dialects.Builtin(r.dialect, l)
      case Some(f) =>
        assert NameOfBuiltin(r, l) == EmptyName;
        var (r1, h) := DefineName(r, l);
        assert (r1, h) == Append(r, l);
        assert r1.dialectTypes == r.dialectTypes;
        assert forall t :: Resolvable(r, t) ==> Resolvable(r1, t);
        var res := r1.(builtins := r1.builtins[h := ConvertBuiltinFunction(r1, h, f)]);
        OwnedByPrefix(r1, res);
        res
      case None => DefineName(r, l).0
  }

  /** The builtins loop over `ls`, in order. */
  function DefineBuiltins(r: Repo, ls: seq<string>): (res: Repo)
    requires Arena(r) && Iota(r) && r.bounds.endBuiltins == 0
    requires forall l :: l in ls ==> Definable(r, l) && !VerbatimLabel(r.dialect, l)
    ensures Arena(res) && Iota(res) && Grows(r, res)
    decreases |ls|
  {
    if |ls| == 0 then r
    else
      var prefix := ls[..|ls| - 1];
      assert forall l :: l in prefix ==> l in ls;
      var r1 := DefineBuiltins(r, prefix);
      GrowsDefinable(r, r1, ls[|ls| - 1]);
      AddBuiltin(r1, ls[|ls| - 1])
  }

  /** Fresh builtin labels are appended in order. */
  lemma {:induction false} DefineBuiltinsLabels(r: Repo, ls: seq<string>)
    requires Arena(r) && Iota(r) && r.bounds.endBuiltins == 0
    requires forall l :: l in ls ==> Definable(r, l) && !VerbatimLabel(r.dialect, l)
    requires Fresh(r, ls)
    ensures DefineBuiltins(r, ls).labels == r.labels + NonEmpty(ls)
    decreases |ls|
  {
    if |ls| > 0 {
      var prefix := ls[..|ls| - 1];
      assert forall i :: 0 <= i < |prefix| ==> prefix[i] == ls[i];
      var l := ls[|ls| - 1];
      FreshPrefix(r, ls);
      DefineBuiltinsLabels(r, prefix);
      var r1 := DefineBuiltins(r, prefix);
      GrowsDefinable(r, r1, l);
      LabelsStep(r.labels, prefix, l, r1.labels, AddBuiltin(r1, l).labels);
    }
  }

  lemma BuiltinSlotGrows(r: Repo, r2: Repo, h: YulName, l: string)
    requires BuiltinSlot(r, h, l) && Grows(r, r2)
    ensures BuiltinSlot(r2, h, l)
  {
    assert r2.names[h] == r.names[h];
    assert r2.labels[r.names[h].link] == r.labels[r.names[h].link];
  }

  /** Every fresh builtin label of the loop gets the handle that is next
      when the loop reaches it, registered with the dialect's descriptor
      when there is one. */
  lemma {:induction false} DefineBuiltinsSlot(r: Repo, ls: seq<string>, i: nat)
    requires Arena(r) && Iota(r) && r.bounds.endBuiltins == 0
    requires forall l :: l in ls ==> Definable(r, l) && !VerbatimLabel(r.dialect, l)
    requires Fresh(r, ls) && i < |ls| && ls[i] != ""
    ensures BuiltinSlot(DefineBuiltins(r, ls), |DefineBuiltins(r, ls[..i]).names|, ls[i])
    decreases |ls|
  {
    if i < |ls| - 1 {
      var prefix := ls[..|ls| - 1];
      FreshPrefix(r, ls);
      assert forall l :: l in prefix ==> l in ls;
      DefineBuiltinsSlot(r, prefix, i);
      EarlierBuiltinSlot(r, ls, i);
    } else {
      LastBuiltinSlot(r, ls);
    }
  }

  lemma EarlierBuiltinSlot(r: Repo, ls: seq<string>, i: nat)
    requires Arena(r) && Iota(r) && r.bounds.endBuiltins == 0
    requires forall l :: l in ls ==> Definable(r, l) && !VerbatimLabel(r.dialect, l)
    requires i < |ls| - 1
    requires var prefix := ls[..|ls| - 1];
      BuiltinSlot(DefineBuiltins(r, prefix), |DefineBuiltins(r, prefix[..i]).names|, ls[i])
    ensures BuiltinSlot(DefineBuiltins(r, ls), |DefineBuiltins(r, ls[..i]).names|, ls[i])
  {
    var prefix := ls[..|ls| - 1];
    var r1 := DefineBuiltins(r, prefix);
    var h := |DefineBuiltins(r, ls[..i]).names|;
    LastPrefix(ls, i);
    assert h == |DefineBuiltins(r, prefix[..i]).names|;
    GrowsDefinable(r, r1, ls[|ls| - 1]);
    BuiltinSlotGrows(r1, DefineBuiltins(r, ls), h, ls[i]);
  }

  /** Dropping the last label keeps the earlier prefixes and members. */
  lemma LastPrefix(ls: seq<string>, i: nat)
    requires i < |ls| - 1
    ensures var prefix := ls[..|ls| - 1];
      prefix[..i] == ls[..i] && (forall l :: l in prefix ==> l in ls)
  {
    var prefix := ls[..|ls| - 1];
    assert forall l :: l in prefix ==> l in ls;
    assert prefix[..i] == ls[..i];
  }

  lemma LastBuiltinSlot(r: Repo, ls: seq<string>)
    requires Arena(r) && Iota(r) && r.bounds.endBuiltins == 0
    requires forall l :: l in ls ==> Definable(r, l) && !VerbatimLabel(r.dialect, l)
    requires Fresh(r, ls) && |ls| > 0 && ls[|ls| - 1] != ""
    ensures BuiltinSlot(DefineBuiltins(r, ls), |DefineBuiltins(r, ls[..|ls| - 1]).names|, ls[|ls| - 1])
  {
    var prefix := ls[..|ls| - 1];
    var l := ls[|ls| - 1];
    FreshPrefix(r, ls);
    var r1 := DefineBuiltins(r, prefix);
    assert forall l :: l in prefix ==> l in ls;
    GrowsDefinable(r, r1, l);
    DefineBuiltinsLabels(r, prefix);
    assert l !in r1.labels;
  }

  /** The end of the builtins: every handle so far is frozen. */
  function EndBuiltins(r: Repo): (res: Repo)
    requires Arena(r) && Iota(r)
    ensures Arena(res) && res.bounds == r.bounds.(endBuiltins := |r.names|)
    ensures res == r.(bounds := res.bounds)
  {
    var res := r.(bounds := r.bounds.(endBuiltins := |r.names|));
    OwnedByPrefix(r, res);
    res
  }

  /** `r2` keeps what `r` says about handles: their entries, labels and
      registered builtins; boundaries and predefined handles may change. */
  ghost predicate Keeps(r: Repo, r2: Repo) {
    && r2.dialect == r.dialect
    && r.names <= r2.names && r.labels <= r2.labels
    && (forall h :: h in r.builtins ==> h in r2.builtins && r2.builtins[h] == r.builtins[h])
  }

  lemma BuiltinSlotKept(r: Repo, r2: Repo, h: YulName, l: string)
    requires BuiltinSlot(r, h, l) && Keeps(r, r2)
    ensures BuiltinSlot(r2, h, l)
  {
    assert r2.names[h] == r.names[h];
    assert r2.labels[r.names[h].link] == r.labels[r.names[h].link];
  }

  /** A predefined handle: the builtin's handle if the dialect lists the
      label among its builtin names, otherwise the label defined as any
      other. */
  function PredefinedName(r: Repo, text: string): (res: (Repo, YulName))
    requires Arena(r) && Definable(r, text) && |r.names| > 0
    ensures Arena(res.0) && Grows(r, res.0) && res.1 < |res.0.names|
    ensures text in BuiltinNames(r.dialect) ==> res == (r, NameOfBuiltin(r, text))
    ensures text !in BuiltinNames(r.dialect) ==> res == DefineName(r, text)
  {
    if text in BuiltinNames(r.dialect) then (r, NameOfBuiltin(r, text))
    else DefineName(r, text)
  }

  /** Predefined handles for `ls`, in order. */
  function PredefinedNames(r: Repo, ls: seq<string>): (res: (Repo, seq<YulName>))
    requires Arena(r) && |r.names| > 0 && forall l :: l in ls ==> Definable(r, l)
    ensures Arena(res.0) && Grows(r, res.0)
    ensures |res.1| == |ls| && forall i :: 0 <= i < |res.1| ==> res.1[i] < |res.0.names|
    decreases |ls|
  {
    if |ls| == 0 then (r, [])
    else
      var (r1, h) := PredefinedName(r, ls[0]);
      GrowsDefinableAll(r, r1, ls[1..]);
      var (r2, hs) := PredefinedNames(r1, ls[1..]);
      GrowsTransitive(r, r1, r2);
      assert h < |r2.names|;
      HandlesBelowCons(h, hs, |r2.names|);
      (r2, [h] + hs)
  }

  lemma HandlesBelowCons(h: YulName, hs: seq<YulName>, n: nat)
    requires h < n && forall i :: 0 <= i < |hs| ==> hs[i] < n
    ensures forall i :: 0 <= i < |hs| + 1 ==> ([h] + hs)[i] < n
  {
  }

  /** The handle picked for each builtin label is that builtin's handle. */
  ghost predicate BuiltinHandles(r: Repo, ls: seq<string>, hs: seq<YulName>)
    requires Arena(r)
  {
    |hs| == |ls| && forall i :: 0 <= i < |ls| && ls[i] in BuiltinNames(r.dialect) ==> hs[i] == NameOfBuiltin(r, ls[i])
  }

  /** Builtin handles found after the first predefined name are the ones
      found before it: that step only appends to the arena. */
  lemma BuiltinHandlesCons(r: Repo, r1: Repo, ls: seq<string>, h: YulName, hs: seq<YulName>)
    requires Arena(r) && Arena(r1) && Grows(r, r1) && |ls| > 0
    requires ls[0] in BuiltinNames(r.dialect) ==> h == NameOfBuiltin(r, ls[0])
    requires BuiltinHandles(r1, ls[1..], hs)
    ensures BuiltinHandles(r, ls, [h] + hs)
  {
    forall i | 0 <= i < |ls| && ls[i] in BuiltinNames(r.dialect) ensures ([h] + hs)[i] == NameOfBuiltin(r, ls[i]) {
      if i > 0 {
        assert ls[1..][i - 1] == ls[i];
        NameOfBuiltinStable(r, r1, ls[i]);
      }
    }
  }
  /** A predefined handle for a builtin name of the dialect is that
      builtin's handle. */
  lemma {:induction false} PredefinedBuiltinHandles(r: Repo, ls: seq<string>)
    requires Arena(r) && |r.names| > 0 && forall l :: l in ls ==> Definable(r, l)
    ensures BuiltinHandles(r, ls, PredefinedNames(r, ls).1)
    decreases |ls|
  {
    if |ls| > 0 {
      PredefinedNamesUnfold(r, ls);
      var (r1, h) := PredefinedName(r, ls[0]);
      PredefinedBuiltinHandles(r1, ls[1..]);
      BuiltinHandlesCons(r, r1, ls, h, PredefinedNames(r1, ls[1..]).1);
    }
  }


  lemma {:induction false} NameOfBuiltinFromStable(r: Repo, r2: Repo, text: string, i: nat)
    requires Arena(r) && Arena(r2) && r2.bounds == r.bounds && r.names <= r2.names && r.labels <= r2.labels
    ensures NameOfBuiltinFrom(r2, text, i) == NameOfBuiltinFrom(r, text, i)
    decreases r.bounds.endBuiltins - i
  {
    if i < r.bounds.endBuiltins {
      assert r2.names[i] == r.names[i];
      NameOfBuiltinFromStable(r, r2, text, i + 1);
    }
  }

  /** nameOfBuiltin only looks at frozen handles: growing the arena does
      not change its answers. */
  lemma NameOfBuiltinStable(r: Repo, r2: Repo, text: string)
    requires Arena(r) && Arena(r2) && r2.bounds == r.bounds && r.names <= r2.names && r.labels <= r2.labels
    ensures NameOfBuiltin(r2, text) == NameOfBuiltin(r, text)
  {
    NameOfBuiltinFromStable(r, r2, text, r.bounds.beginBuiltins);
  }

  /** The first predefined name, then the rest from the repository it
      leaves. */
  lemma PredefinedNamesUnfold(r: Repo, ls: seq<string>)
    requires Arena(r) && |r.names| > 0 && forall l :: l in ls ==> Definable(r, l)
    requires |ls| > 0
    ensures var r1 := PredefinedName(r, ls[0]).0;
      && Arena(r1) && Grows(r, r1) && |r1.names| > 0 && (forall l :: l in ls[1..] ==> Definable(r1, l))
      && PredefinedNames(r, ls).0 == PredefinedNames(r1, ls[1..]).0
      && PredefinedNames(r, ls).1 == [PredefinedName(r, ls[0]).1] + PredefinedNames(r1, ls[1..]).1
  {
    var r1 := PredefinedName(r, ls[0]).0;
    GrowsDefinableAll(r, r1, ls[1..]);
  }




  /** Any other predefined handle carries its label (unless the label
      names a verbatim builtin). */
  lemma {:induction false} PredefinedLabelFound(r: Repo, ls: seq<string>, i: nat)
    requires Arena(r) && |r.names| > 0 && forall l :: l in ls ==> Definable(r, l)
    requires i < |ls| && ls[i] !in BuiltinNames(r.dialect) && !VerbatimLabel(r.dialect, ls[i])
    ensures Labelled(PredefinedNames(r, ls).0, PredefinedNames(r, ls).1[i], ls[i])
    decreases |ls|
  {
    PredefinedNamesUnfold(r, ls);
    var (r1, h) := PredefinedName(r, ls[0]);
    var r2 := PredefinedNames(r1, ls[1..]).0;
    if i == 0 {
      assert r2.names[h] == r1.names[h];
      assert r2.labels[r1.names[h].link] == r1.labels[r1.names[h].link];
    } else {
      assert ls[1..][i - 1] == ls[i];
      PredefinedLabelFound(r1, ls[1..], i - 1);
    }
  }


  /** The labels whose handles the repository fixes after the builtins, in
      the order it fixes them. */
  const PredefinedLabels: seq<string> := ["dataoffset", "datasize", "selfdestruct", "tstore", "memoryguard", "eq", "add", "sub"]

  /** The predefined handles of PredefinedLabels, in that order. */
  function AssignHandles(p: Predefined, hs: seq<YulName>): (q: Predefined)
    requires |hs| == |PredefinedLabels|
    ensures [q.dataoffset, q.datasize, q.selfdestruct, q.tstore, q.memoryguard, q.eq, q.add, q.sub] == hs
    ensures q.verbatim == p.verbatim && q.boolType == p.boolType && q.defaultType == p.defaultType
    ensures q.hashFunction == p.hashFunction
  {
    p.(dataoffset := hs[0], datasize := hs[1], selfdestruct := hs[2], tstore := hs[3],
      memoryguard := hs[4], eq := hs[5], add := hs[6], sub := hs[7])
  }

  lemma GrowsKeeps(r: Repo, r2: Repo)
    requires Grows(r, r2)
    ensures Keeps(r, r2)
  {
  }

  /** The predefined handles: the bool and default types, then the
      handles of the predefined labels. */
  function Predefine(r: Repo): (res: Repo)
    requires Arena(r) && |r.names| > 0
    requires Resolvable(r, r.dialect.boolType) && Resolvable(r, r.dialect.defaultType)
    requires forall l :: l in PredefinedLabels ==> Definable(r, l)
    ensures Arena(res) && Keeps(r, res) && |res.names| > 0
    ensures res.bounds == r.bounds && res.functions == r.functions && res.dialectTypes == r.dialectTypes
    ensures res.predefined.verbatim == r.predefined.verbatim && res.predefined.hashFunction == r.predefined.hashFunction
    ensures res.names == PredefinedNames(r, PredefinedLabels).0.names
    ensures res.labels == PredefinedNames(r, PredefinedLabels).0.labels
    ensures res.predefined.boolType == ResolvedType(r, r.dialect.boolType)
    ensures res.predefined.defaultType == ResolvedType(r, r.dialect.defaultType)
    ensures var p := res.predefined;
      [p.dataoffset, p.datasize, p.selfdestruct, p.tstore, p.memoryguard, p.eq, p.add, p.sub] == PredefinedNames(r, PredefinedLabels).1
  {
    var (r1, hs) := PredefinedNames(r, PredefinedLabels);
    GrowsKeeps(r, r1);
    WithPredefined(r1, AssignHandles(r.predefined.(
      boolType := ResolvedType(r, r.dialect.boolType), defaultType := ResolvedType(r, r.dialect.defaultType)), hs))
  }

  function WithPredefined(r: Repo, p: Predefined): (res: Repo)
    requires Arena(r) && p.verbatim == r.predefined.verbatim
    ensures Arena(res) && res == r.(predefined := p)
  {
    var res := r.(predefined := p);
    OwnedByPrefix(r, res);
    res
  }

  /** The per-type lookups of the dialect that the repository tabulates. */
  datatype Lookup = Discard | Equality | MemoryStore | MemoryLoad | StorageStore | StorageLoad

  function LookupFunction(d: Dialect, k: Lookup, t: string): Option<BuiltinFunction>
    requires TypeHandled(d, t)
  {
    match k
    case Discard => DiscardFunction(d, t)
    case Equality => EqualityFunction(d, t)
    case MemoryStore => MemoryStoreFunction(d)
    case MemoryLoad => MemoryLoadFunction(d)
    case StorageStore => StorageStoreFunction(d)
    case StorageLoad => StorageLoadFunction(d)
  }

  /** The builtin's handle, looked up by the descriptor's name. */
  function HandleOf(r: Repo, f: Option<BuiltinFunction>): (h: Option<YulName>)
    requires Arena(r)
    ensures h.Some? <==> f.Some?
    ensures h.Some? ==> h.value == NameOfBuiltin(r, f.value.name)
  {
    if f.Some? then Some(NameOfBuiltin(r, f.value.name)) else None
  }

  /** The type labels the tables are built over: the dialect's types, or
      the empty type alone when there are none. */
  function TableTypes(r: Repo): (ts: seq<string>)
    ensures TableShaped(r, ts)
    ensures |r.dialectTypes| > 0 ==> forall i :: 0 <= i < |ts| ==> ts[i] == r.dialectTypes[i].1
    ensures |r.dialectTypes| == 0 ==> ts == [""]
  {
    if |r.dialectTypes| == 0 then [""] else seq(|r.dialectTypes|, i requires 0 <= i < |r.dialectTypes| => r.dialectTypes[i].1)
  }

  /** One table: for each type the handle of the dialect's builtin for it,
      if any. */
  function Table(r: Repo, ts: seq<string>, k: Lookup): (s: seq<Option<YulName>>)
    requires Arena(r) && forall t :: t in ts ==> TypeHandled(r.dialect, t)
    ensures |s| == |ts|
    ensures forall i :: 0 <= i < |ts| ==> s[i] == HandleOf(r, LookupFunction(r.dialect, k, ts[i]))
  {
    seq(|ts|, i requires 0 <= i < |ts| => HandleOf(r, LookupFunction(r.dialect, k, ts[i])))
  }

  function HashTable(r: Repo, ts: seq<string>): (s: seq<YulName>)
    requires Arena(r)
    ensures |s| == |ts| && forall i :: 0 <= i < |ts| ==> s[i] == NameOfBuiltin(r, HashFunction(r.dialect))
  {
    seq(|ts|, i => NameOfBuiltin(r, HashFunction(r.dialect)))
  }

  /** The table of one lookup. */
  function TableOf(f: PredefinedFunctions, k: Lookup): seq<Option<YulName>> {
    match k
    case Discard => f.discard
    case Equality => f.equality
    case MemoryStore => f.memoryStore
    case MemoryLoad => f.memoryLoad
    case StorageStore => f.storageStore
    case StorageLoad => f.storageLoad
  }

  /** Each table lists, per type, the handle of the builtin the dialect
      names for that type. */
  ghost predicate TablesMatch(r: Repo) {
    && Arena(r)
    && (forall t :: t in TableTypes(r) ==> TypeHandled(r.dialect, t))
    && forall k: Lookup, i :: 0 <= i < |TableTypes(r)| ==> SlotMatches(r, k, i)
  }

  ghost predicate SlotMatches(r: Repo, k: Lookup, i: nat)
    requires Arena(r) && i < |TableTypes(r)| && TypeHandled(r.dialect, TableTypes(r)[i])
  {
    i < |TableOf(r.functions, k)| && TableOf(r.functions, k)[i] == HandleOf(r, LookupFunction(r.dialect, k, TableTypes(r)[i]))
  }

  /** The per-type tables of builtin handles. */
  function FunctionTables(r: Repo): (res: Repo)
    requires Arena(r) && |r.names| > 0
    requires forall t :: t in TableTypes(r) ==> TypeHandled(r.dialect, t)
    ensures Arena(res) && FunctionsShaped(res)
    ensures res == r.(functions := res.functions)
  {
    var ts := TableTypes(r);
    var f := PredefinedFunctions(
      Table(r, ts, Discard), Table(r, ts, Equality),
      HandleOf(r, BooleanNegationFunction(r.dialect)),
      Table(r, ts, MemoryStore), Table(r, ts, MemoryLoad),
      Table(r, ts, StorageStore), Table(r, ts, StorageLoad),
      HashTable(r, ts));
    var res := r.(functions := f);
    OwnedByPrefix(r, res);
    res
  }

  /** The placeholder labels the optimiser's code transforms use. */
  const PlaceholderLabels: seq<string> := ["@ 0", "@ 1", "@ 32"]

  /** The last step: the three placeholder handles. */
  function Placeholders(r: Repo): (res: Repo)
    requires Arena(r) && forall l :: l in PlaceholderLabels ==> Definable(r, l)
    ensures Arena(res) && Keeps(r, res)
    ensures res.bounds == r.bounds && res.functions == r.functions && res.dialectTypes == r.dialectTypes
    ensures var p := res.predefined;
      && p.placeholderZero < |res.names| && p.placeholderOne < |res.names| && p.placeholderThirtyTwo < |res.names|
      && r.predefined == p.(placeholderZero := r.predefined.placeholderZero,
        placeholderOne := r.predefined.placeholderOne, placeholderThirtyTwo := r.predefined.placeholderThirtyTwo)
  {
    var (r1, h0) := DefinePlaceholder(r, "@ 0");
    var (r2, h1) := DefinePlaceholder(r1, "@ 1");
    var (r3, h32) := DefinePlaceholder(r2, "@ 32");
    GrowsTransitive(r, r1, r2);
    GrowsTransitive(r, r2, r3);
    GrowsKeeps(r, r3);
    WithPredefined(r3, r3.predefined.(placeholderZero := h0, placeholderOne := h1, placeholderThirtyTwo := h32))
  }

  /** One placeholder handle; the others stay definable. */
  function DefinePlaceholder(r: Repo, text: string): (res: (Repo, YulName))
    requires Arena(r) && text in PlaceholderLabels && forall l :: l in PlaceholderLabels ==> Definable(r, l)
    ensures Arena(res.0) && Grows(r, res.0) && res.1 < |res.0.names|
    ensures forall l :: l in PlaceholderLabels ==> Definable(res.0, l)
  {
    var (r1, h) := DefineName(r, text);
    GrowsDefinableAll(r, r1, PlaceholderLabels);
    (r1, h)
  }

  // ---------------------------------------------------------------------
  // The constructor

  /** The sorted labels of a set are fresh for a repository holding only
      the empty label. */
  lemma SortedFresh(r: Repo, s: set<string>)
    requires r.labels == [""]
    ensures Fresh(r, SortedElements(s))
  {
    IncreasingDistinct(SortedElements(s));
  }

  /** The repository after the types loop. */
  function TypesStage(d: Dialect): (r: Repo)
    requires Coherent(d)
    ensures Arena(r) && Iota(r) && r.dialect == d
    ensures r.labels == [""] + NonEmpty(SortedElements(d.types))
    ensures r.bounds.endBuiltins == 0 && r.verbatimNames == map[] && r.builtins == map[]
    ensures r.predefined == NoPredefined && r.functions == NoFunctions
    ensures |r.dialectTypes| == |d.types|
  {
    var ts := SortedElements(d.types);
    var r0 := StartRepo(d);
    SortedFresh(r0, d.types);
    DefineTypesLabels(r0, ts);
    DefineTypes(r0, ts)
  }

  /** beginTypes is 1 unless the last type is the empty one; the type and
      builtin ranges are not yet set. */
  lemma TypesStageBounds(d: Dialect)
    requires Coherent(d)
    ensures var b := TypesStage(d).bounds;
      && b.endTypes == 0 && b.beginBuiltins == 0 && b.beginTypes <= 1
      && ("" !in d.types && d.types != {} ==> b.beginTypes == 1)
      && (d.types == {""} ==> b.beginTypes == 0)
  {
    var ts := SortedElements(d.types);
    assert |ts| > 0 ==> ts[|ts| - 1] in d.types;
    assert d.types == {""} ==> ts == [""];
  }

  /** After the types loop the slots follow the sorted types. */
  lemma TypesStageSlot(d: Dialect, i: nat)
    requires Coherent(d) && i < |d.types|
    ensures TypeSlot(TypesStage(d), TypesStage(d).dialectTypes[i], SortedElements(d.types)[i])
  {
    DefineTypesSlots(StartRepo(d), SortedElements(d.types));
  }

  lemma TypesStageKnown(d: Dialect)
    requires Coherent(d)
    ensures TypesKnown(TypesStage(d))
  {
    var r := TypesStage(d);
    var ts := SortedElements(d.types);
    forall t | t in d.types ensures Resolvable(r, t) {
      var i :| 0 <= i < |ts| && ts[i] == t;
      TypesStageSlot(d, i);
    }
    forall i | 0 <= i < |r.dialectTypes| ensures r.dialectTypes[i].1 in d.types {
      TypesStageSlot(d, i);
    }
  }

  /** The repository once the verbatim handle exists. */
  function VerbatimStage(d: Dialect): (r: Repo)
    requires Coherent(d)
    ensures Arena(r) && Iota(r) && TypesKnown(r) && r.dialect == d
    ensures var r1 := TypesStage(d);
      && r.dialectTypes == r1.dialectTypes && r.functions == NoFunctions && r.verbatimNames == map[]
      && r.bounds == r1.bounds.(endTypes := |r1.names|, beginBuiltins := |r1.names|)
      && r.predefined == NoPredefined.(verbatim := |r1.names|)
      && r.labels == r1.labels + [VerbatimPlaceholder]
  {
    var r1 := TypesStage(d);
    TypesStageKnown(d);
    var r2 := BeginBuiltins(r1);
    TypesKnownGrows(r1, r2);
    r2
  }

  /** A builtin name is not among the non-empty type labels. */
  lemma NotAmongTypes(d: Dialect, l: string)
    requires BuiltinNames(d) !! d.types && l in BuiltinNames(d)
    ensures l !in NonEmpty(SortedElements(d.types))
  {
  }

  /** No builtin label but the empty one is present before the builtins
      loop: the labels so far are the types and the placeholder. */
  lemma BuiltinLabelsNew(d: Dialect)
    requires Coherent(d)
    ensures forall l :: l in BuiltinNames(d) && l != "" ==> l !in VerbatimStage(d).labels
  {
    var labels := VerbatimStage(d).labels;
    var ts := NonEmpty(SortedElements(d.types));
    assert labels == [""] + ts + [VerbatimPlaceholder];
    assert BuiltinNames(d) !! d.types && VerbatimPlaceholder !in BuiltinNames(d);
    forall l | l in BuiltinNames(d) && l != "" ensures l !in labels {
      NotAmongTypes(d, l);
      NotAmongStageLabels(ts, l);
    }
  }

  /** The labels before the builtins loop are the empty label, the types
      and the placeholder. */
  lemma NotAmongStageLabels(ts: seq<string>, l: string)
    requires l != "" && l != VerbatimPlaceholder && l !in ts
    ensures l !in [""] + ts + [VerbatimPlaceholder]
  {
  }

  lemma VerbatimStageReady(d: Dialect)
    requires Coherent(d)
    ensures var r := VerbatimStage(d);
      var ls := SortedElements(BuiltinNames(d));
      && (forall l :: l in ls ==> Definable(r, l) && !VerbatimLabel(d, l))
      && Fresh(r, ls)
  {
    var r := VerbatimStage(d);
    var ls := SortedElements(BuiltinNames(d));
    forall l | l in ls ensures Definable(r, l) {
      AllDefinable(r, l);
    }
    IncreasingDistinct(ls);
    BuiltinLabelsNew(d);
  }

  /** The repository after the builtins loop. */
  function BuiltinsStage(d: Dialect): (r: Repo)
    requires Coherent(d)
    ensures Arena(r) && Iota(r) && Grows(VerbatimStage(d), r)
  {
    VerbatimStageReady(d);
    DefineBuiltins(VerbatimStage(d), SortedElements(BuiltinNames(d)))
  }

  lemma AllDefinableFor(r: Repo, ls: seq<string>)
    requires Coherent(r.dialect) && TypesKnown(r) && r.predefined.verbatim < |r.names|
    ensures forall l :: l in ls ==> Definable(r, l)
  {
    forall l | l in ls ensures Definable(r, l) {
      AllDefinable(r, l);
    }
  }

  /** The repository once the builtin range is closed. */
  function FrozenStage(d: Dialect): (r: Repo)
    requires Coherent(d)
    ensures Arena(r) && TypesKnown(r) && r.dialect == d && |r.names| > 0
    ensures r.predefined.verbatim < |r.names|
    ensures Resolvable(r, d.boolType) && Resolvable(r, d.defaultType)
    ensures forall l :: l in PredefinedLabels ==> Definable(r, l)
    ensures var r3 := BuiltinsStage(d);
      r == r3.(bounds := r3.bounds.(endBuiltins := |r3.names|))
  {
    var r3 := BuiltinsStage(d);
    var r2 := VerbatimStage(d);
    TypesKnownGrows(r2, r3);
    var r4 := EndBuiltins(r3);
    TypesKnownGrows(r3, r4);
    AllDefinableFor(r4, PredefinedLabels);
    r4
  }

  /** Definability and resolvability only look at the types and the
      verbatim handle. */
  lemma KeepsReady(r: Repo, r2: Repo)
    requires TypesKnown(r) && Keeps(r, r2) && r2.dialectTypes == r.dialectTypes
    requires r2.predefined.verbatim == r.predefined.verbatim && r.predefined.verbatim < |r.names|
    requires Coherent(r.dialect)
    ensures TypesKnown(r2)
    ensures forall l :: l in PlaceholderLabels ==> Definable(r2, l)
  {
    TypesKnownGrows(r, r2);
    forall l | l in PlaceholderLabels ensures Definable(r2, l) {
      AllDefinable(r2, l);
    }
  }

  lemma TablesReady(r: Repo)
    requires TypesKnown(r) && Coherent(r.dialect)
    ensures forall t :: t in TableTypes(r) ==> TypeHandled(r.dialect, t)
  {
    var ts := TableTypes(r);
    forall t | t in ts ensures TypeHandled(r.dialect, t) {
      if |r.dialectTypes| > 0 {
        var i :| 0 <= i < |ts| && ts[i] == t;
        assert r.dialectTypes[i].1 in r.dialect.types;
      }
    }
  }

  /** The repository once the predefined handles are in place. */
  function PredefinedStage(d: Dialect): (r: Repo)
    requires Coherent(d)
    ensures Arena(r) && TypesKnown(r) && r.dialect == d && |r.names| > 0
    ensures r.predefined.verbatim < |r.names|
    ensures r == Predefine(FrozenStage(d))
  {
    var r4 := FrozenStage(d);
    var r5 := Predefine(r4);
    TypesKnownGrows(r4, r5);
    r5
  }

  /** The repository once the per-type tables are in place. */
  function TablesStage(d: Dialect): (r: Repo)
    requires Coherent(d)
    ensures Arena(r) && TypesKnown(r) && r.dialect == d && FunctionsShaped(r)
    ensures r.predefined.verbatim < |r.names|
    ensures r == PredefinedStage(d).(functions := r.functions)
  {
    var r5 := PredefinedStage(d);
    TablesReady(r5);
    FunctionTables(r5)
  }

  /** YulNameRepository's constructor. */
  function Create(d: Dialect): (r: Repo)
    requires Coherent(d)
    ensures Arena(r) && TypesKnown(r) && r.dialect == d
  {
    var r6 := TablesStage(d);
    KeepsReady(r6, r6);
    var r := Placeholders(r6);
    TypesKnownGrows(r6, r);
    r
  }

  // ---------------------------------------------------------------------
  // What the constructor establishes

  lemma KeepsTransitive(a: Repo, b: Repo, c: Repo)
    requires Keeps(a, b) && Keeps(b, c)
    ensures Keeps(a, c)
  {
  }

  /** The last three steps keep every handle, label and builtin of the
      frozen repository, its boundaries and its type slots. */
  lemma CreateKeepsFrozen(d: Dialect)
    requires Coherent(d)
    ensures var r := Create(d); var r4 := FrozenStage(d);
      && Keeps(r4, r) && r.bounds == r4.bounds && r.dialectTypes == r4.dialectTypes
      && r.functions == TablesStage(d).functions && Keeps(PredefinedStage(d), r)
    ensures var p := Create(d).predefined; var q := PredefinedStage(d).predefined;
      && p.verbatim == q.verbatim && p.boolType == q.boolType && p.defaultType == q.defaultType
      && p.hashFunction == q.hashFunction
      && [p.dataoffset, p.datasize, p.selfdestruct, p.tstore, p.memoryguard, p.eq, p.add, p.sub]
        == [q.dataoffset, q.datasize, q.selfdestruct, q.tstore, q.memoryguard, q.eq, q.add, q.sub]
  {
    var r6 := TablesStage(d);
    KeepsReady(r6, r6);
    var r := Placeholders(r6);
    assert Create(d) == r;
    KeepsTransitive(FrozenStage(d), PredefinedStage(d), r6);
    KeepsTransitive(FrozenStage(d), r6, r);
    KeepsTransitive(PredefinedStage(d), r6, r);
  }

  /** The frozen repository extends the types stage: the types, then the
      verbatim handle, then the builtins. */
  lemma FrozenKeepsTypes(d: Dialect)
    requires Coherent(d)
    ensures var r1 := TypesStage(d); var r4 := FrozenStage(d);
      && Keeps(r1, r4) && r4.dialectTypes == r1.dialectTypes
      && |r4.labels| == |r4.names| && |r1.names| == |r1.labels|
      && r4.bounds == Bounds(r1.bounds.beginTypes, |r1.names|, |r1.names|, |BuiltinsStage(d).names|)
      && r4.predefined == NoPredefined.(verbatim := |r1.names|)
      && |r1.names| < |r4.names|
  {
    var r1 := TypesStage(d);
    var r2 := VerbatimStage(d);
    var r3 := BuiltinsStage(d);
    assert |r2.labels| == |r1.labels| + 1;
  }

  lemma FunctionsShapedGrows(r: Repo, r2: Repo)
    requires FunctionsShaped(r) && r2.functions == r.functions && r2.dialectTypes == r.dialectTypes
    requires |r.names| <= |r2.names|
    ensures FunctionsShaped(r2)
  {
  }

  /** Every type slot's handle is below the end of the type range. */
  lemma TypeHandlesBelow(d: Dialect, i: nat)
    requires Coherent(d) && i < |TypesStage(d).dialectTypes|
    ensures TypesStage(d).dialectTypes[i].0 < |TypesStage(d).names|
  {
    TypesStageSlot(d, i);
  }

  /** The handles the predefined step fixes exist. */
  lemma PredefinedStageBounded(d: Dialect)
    requires Coherent(d)
    ensures var r5 := PredefinedStage(d); var p := r5.predefined; var n := |r5.names|;
      && p.boolType < n && p.defaultType < n && p.hashFunction == 0
      && p.datasize < n && p.dataoffset < n && p.selfdestruct < n && p.memoryguard < n
      && p.eq < n && p.add < n && p.sub < n && p.tstore < n
  {
    var r4 := FrozenStage(d);
    var r5 := PredefinedStage(d);
    FrozenKeepsTypes(d);
    var r1 := TypesStage(d);
    forall i | 0 <= i < |r4.dialectTypes| ensures r4.dialectTypes[i].0 < |r5.names| {
      TypeHandlesBelow(d, i);
    }
    var hs := PredefinedNames(r4, PredefinedLabels).1;
    assert forall i :: 0 <= i < |hs| ==> hs[i] < |r5.names|;
  }

  /** The boundaries the constructor sets: types from 0 or 1 up to the
      verbatim handle, which opens the builtin range. */
  lemma CreateBounds(d: Dialect)
    requires Coherent(d)
    ensures var r := Create(d); var b := r.bounds;
      && b.beginTypes <= b.endTypes == b.beginBuiltins && 1 <= b.endTypes
      && b.beginBuiltins == r.predefined.verbatim < b.endBuiltins
      && |r.labels| > 0 && r.labels[0] == ""
      && (forall i :: 0 <= i < |r.dialectTypes| ==> r.dialectTypes[i].0 < b.endTypes)
  {
    CreateBoundsOrder(d);
    CreateTypesBelow(d);
  }

  lemma CreateBoundsOrder(d: Dialect)
    requires Coherent(d)
    ensures var r := Create(d); var b := r.bounds;
      && b.beginTypes <= b.endTypes == b.beginBuiltins && 1 <= b.endTypes
      && b.beginBuiltins == r.predefined.verbatim < b.endBuiltins
  {
    CreateFrame(d);
    FrozenKeepsTypes(d);
    TypesStageBounds(d);
  }

  lemma CreateTypesBelow(d: Dialect)
    requires Coherent(d)
    ensures var r := Create(d);
      && |r.labels| > 0 && r.labels[0] == ""
      && (forall i :: 0 <= i < |r.dialectTypes| ==> r.dialectTypes[i].0 < r.bounds.endTypes)
  {
    var r := Create(d);
    var r1 := TypesStage(d);
    CreateFrame(d);
    FrozenKeepsTypes(d);
    AllTypeHandlesBelow(d);
    assert r.labels[0] == r1.labels[0];
  }

  /** What the last two stages leave of the frozen stage. */
  lemma CreateFrame(d: Dialect)
    requires Coherent(d)
    ensures var r := Create(d); var r4 := FrozenStage(d);
      && Keeps(r4, r) && r.bounds == r4.bounds && r.dialectTypes == r4.dialectTypes
      && r.predefined.verbatim == r4.predefined.verbatim
  {
    CreateKeepsFrozen(d);
  }

  lemma AllTypeHandlesBelow(d: Dialect)
    requires Coherent(d)
    ensures var r1 := TypesStage(d);
      forall i :: 0 <= i < |r1.dialectTypes| ==> r1.dialectTypes[i].0 < |r1.names|
  {
    var r1 := TypesStage(d);
    forall i | 0 <= i < |r1.dialectTypes| ensures r1.dialectTypes[i].0 < |r1.names| {
      TypeHandlesBelow(d, i);
    }
  }

  /** The constructor leaves a valid repository. */
  lemma CreateValid(d: Dialect)
    requires Coherent(d)
    ensures Valid(Create(d))
  {
    var r := Create(d);
    CreateBounds(d);
    CreateKeepsFrozen(d);
    PredefinedStageBounded(d);
    FunctionsShapedGrows(TablesStage(d), r);
  }

  /** Dropping labels from the end keeps the non-empty ones in front. */
  lemma {:induction false} NonEmptyPrefix(ts: seq<string>, i: nat)
    requires i <= |ts|
    ensures NonEmpty(ts[..i]) <= NonEmpty(ts)
    decreases |ts|
  {
    if i < |ts| {
      var prefix := ts[..|ts| - 1];
      assert prefix[..i] == ts[..i];
      NonEmptyPrefix(prefix, i);
    } else {
      assert ts[..i] == ts;
    }
  }

  /** No handle from `lo` up to `h` carries the label `l`. */
  ghost predicate NoEarlierLabel(r: Repo, lo: nat, h: YulName, l: string) {
    forall k :: lo <= k < h && k < |r.labels| ==> r.labels[k] != l
  }

  /** The builtins loop gives every builtin label of the dialect a handle in
      the builtin range, and no earlier handle from the verbatim handle on
      carries that label. */
  lemma BuiltinsStageSlot(d: Dialect, l: string)
    requires Coherent(d) && l in BuiltinNames(d) && l != ""
    ensures exists h :: (|VerbatimStage(d).names| <= h && BuiltinSlot(BuiltinsStage(d), h, l)
      && NoEarlierLabel(BuiltinsStage(d), |VerbatimStage(d).names| - 1, h, l))
  {
    var ls := SortedElements(BuiltinNames(d));
    var i :| 0 <= i < |ls| && ls[i] == l;
    BuiltinsStageAt(d, ls, i);
  }

  /** The repository before the builtins loop meets what the loop's slot
      lemma needs of it, for any builtin label. */
  lemma VerbatimStageSlotReady(d: Dialect, ls: seq<string>, i: nat)
    requires Coherent(d) && ls == SortedElements(BuiltinNames(d)) && i < |ls| && ls[i] != ""
    ensures var r := VerbatimStage(d);
      && Arena(r) && Iota(r) && r.bounds.endBuiltins == 0 && |r.names| > 0
      && (forall l :: l in ls ==> Definable(r, l) && !VerbatimLabel(r.dialect, l)) && Fresh(r, ls)
      && r.labels[|r.names| - 1] != ls[i]
  {
    var r := VerbatimStage(d);
    VerbatimStageReady(d);
    assert r.labels[|r.names| - 1] in r.labels;
  }

  lemma BuiltinsStageAt(d: Dialect, ls: seq<string>, i: nat)
    requires Coherent(d) && ls == SortedElements(BuiltinNames(d)) && i < |ls| && ls[i] != ""
    ensures exists h :: (|VerbatimStage(d).names| <= h && BuiltinSlot(BuiltinsStage(d), h, ls[i])
      && NoEarlierLabel(BuiltinsStage(d), |VerbatimStage(d).names| - 1, h, ls[i]))
  {
    var r := VerbatimStage(d);
    VerbatimStageSlotReady(d, ls, i);
    var h := BuiltinSlotFirst(r, ls, i);
    assert BuiltinsStage(d) == DefineBuiltins(r, ls);
    assert |r.names| <= h && BuiltinSlot(BuiltinsStage(d), h, ls[i]) && NoEarlierLabel(BuiltinsStage(d), |r.names| - 1, h, ls[i]);
  }

  /** The labels the builtins loop lays down before reaching `ls[i]` are
      the earlier builtin labels, none of them `ls[i]`, after the last
      label already present. */
  lemma BuiltinSlotFirst(r: Repo, ls: seq<string>, i: nat) returns (h: nat)
    requires Arena(r) && Iota(r) && r.bounds.endBuiltins == 0 && |r.names| > 0
    requires (forall l :: l in ls ==> Definable(r, l) && !VerbatimLabel(r.dialect, l)) && Fresh(r, ls)
    requires i < |ls| && ls[i] != "" && r.labels[|r.names| - 1] != ls[i]
    ensures (forall x :: x in ls[..i] ==> x in ls) && h == |DefineBuiltins(r, ls[..i]).names|
    ensures |r.names| <= h && BuiltinSlot(DefineBuiltins(r, ls), h, ls[i])
    ensures NoEarlierLabel(DefineBuiltins(r, ls), |r.names| - 1, h, ls[i])
  {
    assert forall x :: x in ls[..i] ==> x in ls;
    DefineBuiltinsSlot(r, ls, i);
    BuiltinLabelFirst(r, ls, i);
    h := |DefineBuiltins(r, ls[..i]).names|;
  }

  lemma BuiltinLabelFirst(r: Repo, ls: seq<string>, i: nat)
    requires Arena(r) && Iota(r) && r.bounds.endBuiltins == 0 && |r.names| > 0
    requires (forall l :: l in ls ==> Definable(r, l) && !VerbatimLabel(r.dialect, l)) && Fresh(r, ls)
    requires i < |ls| && ls[i] != "" && r.labels[|r.names| - 1] != ls[i]
    ensures NoEarlierLabel(DefineBuiltins(r, ls), |r.names| - 1, |DefineBuiltins(r, ls[..i]).names|, ls[i])
  {
    var l := ls[i];
    var pre := ls[..i];
    FreshUpTo(r, ls, i);
    var rp := DefineBuiltins(r, pre);
    DefineBuiltinsLabels(r, pre);
    DefineBuiltinsLabels(r, ls);
    NonEmptyPrefix(ls, i);
    assert |rp.names| == |r.labels| + |NonEmpty(pre)|;
    LabelsAvoid(r.labels, NonEmpty(pre), NonEmpty(ls), l, DefineBuiltins(r, ls).labels);
  }

  /** The labels before `ts[i]` are fresh too, and none of them is `ts[i]`. */
  lemma FreshUpTo(r: Repo, ts: seq<string>, i: nat)
    requires Fresh(r, ts) && i < |ts|
    ensures forall x :: x in ts[..i] ==> x in ts
    ensures Fresh(r, ts[..i]) && ts[i] !in NonEmpty(ts[..i])
  {
    var t := ts[..i + 1];
    assert forall j :: 0 <= j < |t| ==> t[j] == ts[j];
    assert t[..i] == ts[..i];
    FreshPrefix(r, t);
    assert forall j :: 0 <= j < i ==> ts[..i][j] == ts[j];
  }

  /** Labels appended after `base` avoid `l` up to the end of a prefix that
      does not hold it. */
  lemma LabelsAvoid(base: seq<string>, np: seq<string>, nl: seq<string>, l: string, labels: seq<string>)
    requires np <= nl && labels == base + nl && l !in np && |base| > 0 && base[|base| - 1] != l
    ensures forall k :: |base| - 1 <= k < |base| + |np| && k < |labels| ==> labels[k] != l
  {
    forall k | |base| - 1 <= k < |base| + |np| && k < |labels| ensures labels[k] != l {
      if k >= |base| {
        assert labels[k] == np[k - |base|];
      }
    }
  }

  /** `h` lies in the builtin range, carries `l` and is registered with
      the dialect's descriptor for `l`, if any. */
  predicate RangeSlot(r: Repo, h: YulName, l: string) {
    r.bounds.beginBuiltins <= h < r.bounds.endBuiltins && BuiltinSlot(r, h, l)
  }

  lemma FrozenStageSlot(d: Dialect, l: string)
    requires Coherent(d) && l in BuiltinNames(d) && l != ""
    ensures exists h :: RangeSlot(FrozenStage(d), h, l) && NoEarlierLabel(FrozenStage(d), FrozenStage(d).bounds.beginBuiltins, h, l)
  {
    var lo := |VerbatimStage(d).names| - 1;
    BuiltinsStageSlot(d, l);
    var h :| lo < h && BuiltinSlot(BuiltinsStage(d), h, l) && NoEarlierLabel(BuiltinsStage(d), lo, h, l);
    FrozenBounds(d);
    SlotFrozen(BuiltinsStage(d), FrozenStage(d), h, l);
  }

  /** Freezing the builtins starts their range at the verbatim placeholder
      and ends it after the last builtin. */
  lemma FrozenBounds(d: Dialect)
    requires Coherent(d)
    ensures var r4 := FrozenStage(d);
      && r4 == BuiltinsStage(d).(bounds := r4.bounds)
      && r4.bounds.beginBuiltins == |VerbatimStage(d).names| - 1
      && r4.bounds.endBuiltins == |BuiltinsStage(d).names|
  {
    var r1 := TypesStage(d);
    var r2 := VerbatimStage(d);
    FrozenKeepsTypes(d);
    assert |r2.names| == |r2.labels| == |r1.labels| + 1;
  }

  /** Fixing the end of the builtins turns a builtin slot into a slot of
      the builtins' range. */
  lemma SlotFrozen(r: Repo, r2: Repo, h: YulName, l: string)
    requires BuiltinSlot(r, h, l) && r2 == r.(bounds := r2.bounds)
    requires r2.bounds.beginBuiltins <= h && r2.bounds.endBuiltins == |r.names|
    requires NoEarlierLabel(r, r2.bounds.beginBuiltins, h, l)
    ensures RangeSlot(r2, h, l) && NoEarlierLabel(r2, r2.bounds.beginBuiltins, h, l)
  {
  }

  lemma CreateSlot(d: Dialect, l: string)
    requires Coherent(d) && l in BuiltinNames(d) && l != ""
    ensures exists h :: RangeSlot(Create(d), h, l) && NoEarlierLabel(Create(d), Create(d).bounds.beginBuiltins, h, l)
  {
    var r := Create(d);
    var r4 := FrozenStage(d);
    FrozenStageSlot(d, l);
    var h :| RangeSlot(r4, h, l) && NoEarlierLabel(r4, r4.bounds.beginBuiltins, h, l);
    CreateKeepsFrozen(d);
    FrozenKeepsTypes(d);
    RangeSlotKept(r4, r, h, l);
  }

  /** A slot and the absence of earlier ones survive a step that keeps the
      handles and the boundaries. */
  lemma RangeSlotKept(r: Repo, r2: Repo, h: YulName, l: string)
    requires RangeSlot(r, h, l) && NoEarlierLabel(r, r.bounds.beginBuiltins, h, l)
    requires Keeps(r, r2) && r2.bounds == r.bounds && |r.labels| == |r.names|
    ensures RangeSlot(r2, h, l) && NoEarlierLabel(r2, r2.bounds.beginBuiltins, h, l)
  {
    BuiltinSlotKept(r, r2, h, l);
    assert h < |r.names|;
    forall k | r.bounds.beginBuiltins <= k < h && k < |r2.labels| ensures r2.labels[k] != l {
      assert r2.labels[k] == r.labels[k];
    }
  }

  /** A handle of the builtin range is found by nameOfBuiltin and, when
      registered, handed out by builtin(). */
  lemma RangeSlotFound(r: Repo, h: YulName, l: string)
    requires Arena(r) && RangeSlot(r, h, l) && r.bounds.beginBuiltins > 0
    ensures NameOfBuiltin(r, l) != EmptyName && r.labels[NameOfBuiltin(r, l)] == l
    ensures Dialects.Builtin(r.dialect, l).Some? ==>
      Builtin(r, h).Some? && Builtin(r, h).value.data == Dialects.Builtin(r.dialect, l).value
  {
    assert r.names[h] == Entry(h, false);
    assert BaseNameOf(r, h) == h;
  }

  /** The first handle of the builtin range carrying a label is the one
      nameOfBuiltin finds. */
  lemma RangeSlotIsFound(r: Repo, h: YulName, l: string)
    requires Arena(r) && RangeSlot(r, h, l) && r.bounds.beginBuiltins > 0
    requires NoEarlierLabel(r, r.bounds.beginBuiltins, h, l)
    ensures NameOfBuiltin(r, l) == h
  {
    assert r.names[h] == Entry(h, false);
    RangeSlotFound(r, h, l);
    assert r.labels[h] == l;
  }

  /** What a first slot of the builtin range gives: nameOfBuiltin finds it,
      labelOf reads the label back, and builtin() hands out the dialect's
      descriptor. */
  lemma RangeSlotRoundTrip(r: Repo, h: YulName, l: string)
    requires Arena(r) && RangeSlot(r, h, l) && r.bounds.beginBuiltins > 0
    requires NoEarlierLabel(r, r.bounds.beginBuiltins, h, l)
    ensures NameOfBuiltin(r, l) == h && h != EmptyName && h < |r.names| && r.labels[h] == l
    ensures LabelOf(r, h) == Success(l)
    ensures Dialects.Builtin(r.dialect, l).Some? ==>
      Builtin(r, h).Some? && Builtin(r, h).value.data == Dialects.Builtin(r.dialect, l).value
  {
    RangeSlotFound(r, h, l);
    RangeSlotIsFound(r, h, l);
    assert r.names[h] == Entry(h, false);
  }

  /** After construction every builtin label of the dialect is found by
      nameOfBuiltin, the handle found reads back as the label, and the
      dialect's builtins are registered under it: builtin() on that handle
      hands out the converted descriptor. */
  lemma CreateRegistersBuiltin(d: Dialect, l: string)
    requires Coherent(d) && l in BuiltinNames(d) && l != ""
    ensures var r := Create(d);
      && NameOfBuiltin(r, l) != EmptyName && NameOfBuiltin(r, l) < |r.names| && r.labels[NameOfBuiltin(r, l)] == l
      && LabelOf(r, NameOfBuiltin(r, l)) == Success(l)
      && (Dialects.Builtin(d, l).Some? ==>
            Builtin(r, NameOfBuiltin(r, l)).Some? && Builtin(r, NameOfBuiltin(r, l)).value.data == Dialects.Builtin(d, l).value)
  {
    var r := Create(d);
    CreateSlot(d, l);
    var h :| RangeSlot(r, h, l) && NoEarlierLabel(r, r.bounds.beginBuiltins, h, l);
    CreateBounds(d);
    RangeSlotRoundTrip(r, h, l);
  }

  lemma CreateTypeSlot(d: Dialect, i: nat)
    requires Coherent(d) && i < |Create(d).dialectTypes|
    ensures TypeSlot(Create(d), Create(d).dialectTypes[i], Create(d).dialectTypes[i].1)
  {
    var r := Create(d);
    var r1 := TypesStage(d);
    CreateOverTypes(d);
    TypesStageSlot(d, i);
    TypeSlotGrows(r1, r, r1.dialectTypes[i], r1.dialectTypes[i].1);
  }

  /** The finished repository extends the types stage and keeps its type table. */
  lemma CreateOverTypes(d: Dialect)
    requires Coherent(d)
    ensures var r1 := TypesStage(d); var r := Create(d);
      && Keeps(r1, r) && r.dialectTypes == r1.dialectTypes
  {
    CreateKeepsFrozen(d);
    FrozenKeepsTypes(d);
    KeepsTransitive(TypesStage(d), FrozenStage(d), Create(d));
  }

  lemma CreateBeginTypes(d: Dialect)
    requires Coherent(d)
    ensures "" !in d.types && d.types != {} ==> Create(d).bounds.beginTypes == 1
  {
    CreateKeepsFrozen(d);
    FrozenKeepsTypes(d);
    TypesStageBounds(d);
  }

  /** Type slots that hold what the types loop put there. */
  ghost predicate TypeSlots(r: Repo) {
    forall i :: 0 <= i < |r.dialectTypes| ==> TypeSlot(r, r.dialectTypes[i], r.dialectTypes[i].1)
  }

  lemma CreateTypeSlots(d: Dialect)
    requires Coherent(d)
    ensures TypeSlots(Create(d))
    ensures |Create(d).names| > 0 && Create(d).names[0] == Entry(0, false)
  {
    var r := Create(d);
    CreateBounds(d);
    forall i | 0 <= i < |r.dialectTypes| ensures TypeSlot(r, r.dialectTypes[i], r.dialectTypes[i].1) {
      CreateTypeSlot(d, i);
    }
  }

  lemma TypeHandleOf(r: Repo, t: string)
    requires TypesKnown(r) && TypeSlots(r) && t in r.dialect.types
    requires |r.names| > 0 && |r.labels| > 0 && r.names[0] == Entry(0, false) && r.labels[0] == ""
    requires forall i :: 0 <= i < |r.dialectTypes| ==> r.dialectTypes[i].0 < r.bounds.endTypes
    requires "" !in r.dialect.types && r.dialect.types != {} ==> r.bounds.beginTypes == 1
    ensures var h := ResolvedType(r, t);
      && (t == "" ==> h == EmptyName)
      && (t != "" ==> Labelled(r, h, t) && 0 < h < r.bounds.endTypes)
      && ("" !in r.dialect.types ==> IsType(r, h))
  {
    var h := ResolvedType(r, t);
    var i :| 0 <= i < |r.dialectTypes| && r.dialectTypes[i] == (h, t);
    assert TypeSlot(r, r.dialectTypes[i], t);
  }

  /** After construction every type of the dialect names a type handle:
      the empty name for the empty type, otherwise a handle labelled with
      the type, inside the type range unless the empty type is a type too. */
  lemma CreateTypes(d: Dialect, t: string)
    requires Coherent(d) && t in d.types
    ensures var r := Create(d); var h := ResolvedType(r, t);
      && (t == "" ==> h == EmptyName)
      && (t != "" ==> Labelled(r, h, t) && 0 < h < r.bounds.endTypes)
      && ("" !in d.types ==> IsType(r, h))
  {
    CreateTypeFacts(d);
    TypeHandleOf(Create(d), t);
  }

  /** What looking up a type handle needs of the constructed repository. */
  lemma CreateTypeFacts(d: Dialect)
    requires Coherent(d)
    ensures var r := Create(d);
      && TypesKnown(r) && TypeSlots(r) && r.dialect == d
      && |r.names| > 0 && |r.labels| > 0 && r.names[0] == Entry(0, false) && r.labels[0] == ""
      && (forall i :: 0 <= i < |r.dialectTypes| ==> r.dialectTypes[i].0 < r.bounds.endTypes)
      && ("" !in d.types && d.types != {} ==> r.bounds.beginTypes == 1)
  {
    CreateBounds(d);
    CreateBeginTypes(d);
    CreateTypeSlots(d);
  }

  /** The i-th predefined handle of a repository, in the order of
      PredefinedLabels. */
  function PredefinedHandle(p: Predefined, i: nat): (h: YulName)
    requires i < |PredefinedLabels|
    ensures h == [p.dataoffset, p.datasize, p.selfdestruct, p.tstore, p.memoryguard, p.eq, p.add, p.sub][i]
  {
    [p.dataoffset, p.datasize, p.selfdestruct, p.tstore, p.memoryguard, p.eq, p.add, p.sub][i]
  }

  lemma LabelledKept(r: Repo, r2: Repo, h: YulName, l: string)
    requires Labelled(r, h, l) && Keeps(r, r2)
    ensures Labelled(r2, h, l)
  {
    assert r2.names[h] == r.names[h];
    assert r2.labels[r.names[h].link] == r.labels[r.names[h].link];
  }

  lemma PredefinedStageHandle(d: Dialect, i: nat)
    requires Coherent(d) && i < |PredefinedLabels|
    ensures var r4 := FrozenStage(d); var r5 := PredefinedStage(d);
      var l := PredefinedLabels[i]; var h := PredefinedHandle(r5.predefined, i);
      && (l in BuiltinNames(d) ==> h == NameOfBuiltin(r4, l))
      && (l !in BuiltinNames(d) && !VerbatimLabel(d, l) ==> Labelled(r5, h, l))
  {
    var r4 := FrozenStage(d);
    var l := PredefinedLabels[i];
    if l in BuiltinNames(d) {
      PredefinedBuiltinHandles(r4, PredefinedLabels);
    } else if !VerbatimLabel(d, l) {
      PredefinedLabelFound(r4, PredefinedLabels, i);
    }
  }

  /** After construction each predefined handle is the builtin's handle
      when the dialect has a builtin of that name, and otherwise a handle
      carrying the label. */
  lemma CreatePredefined(d: Dialect, i: nat)
    requires Coherent(d) && i < |PredefinedLabels|
    ensures var r := Create(d); var l := PredefinedLabels[i]; var h := PredefinedHandle(r.predefined, i);
      && (l in BuiltinNames(d) ==> h == NameOfBuiltin(r, l))
      && (l !in BuiltinNames(d) && !VerbatimLabel(d, l) ==> Labelled(r, h, l))
  {
    var r := Create(d);
    var r4 := FrozenStage(d);
    var l := PredefinedLabels[i];
    CreateKeepsFrozen(d);
    PredefinedStageHandle(d, i);
    if l in BuiltinNames(d) {
      NameOfBuiltinStable(r4, r, l);
    } else if !VerbatimLabel(d, l) {
      LabelledKept(PredefinedStage(d), r, PredefinedHandle(PredefinedStage(d).predefined, i), l);
    }
  }

  // ---------------------------------------------------------------------
  // Per-type lookups

  /** indexOfType: the position of the first type slot holding `h`; 0 when
      the dialect has no types; an assertion when `h` is not a type. */
  function IndexOfType(r: Repo, h: YulName): (i: Result<nat, Stop>)
    ensures |r.dialectTypes| == 0 ==> i == Success(0)
    ensures |r.dialectTypes| > 0 && i.Success? ==>
      i.value < |r.dialectTypes| && r.dialectTypes[i.value].0 == h
      && forall j :: 0 <= j < i.value ==> r.dialectTypes[j].0 != h
    ensures i.Failure? <==> |r.dialectTypes| > 0 && forall j :: 0 <= j < |r.dialectTypes| ==> r.dialectTypes[j].0 != h
    ensures i.Failure? ==> i.error == Assertion
  {
    if |r.dialectTypes| == 0 then Success(0)
    else
      var k := FindHandle(r.dialectTypes, h);
      if k == |r.dialectTypes| then Failure(Assertion) else Success(k)
  }

  function FindHandle(ts: seq<(YulName, string)>, h: YulName): (i: nat)
    ensures i <= |ts|
    ensures i < |ts| ==> ts[i].0 == h
    ensures forall j :: 0 <= j < i ==> ts[j].0 != h
    decreases |ts|
  {
    if |ts| == 0 then 0
    else if ts[0].0 == h then 0
    else 1 + FindHandle(ts[1..], h)
  }

  /** fetchTypedPredefinedFunction: the builtin a per-type table lists for
      the type `h`, if any. */
  function FetchTyped(r: Repo, h: YulName, table: seq<Option<YulName>>): (f: Result<Option<NamedBuiltin>, Stop>)
    requires Links(r) && h < |r.names| && FunctionTable(r, table)
    ensures f.Failure? <==> IndexOfType(r, h).Failure?
    ensures f.Success? ==> IndexOfType(r, h).value < |table|
    ensures f.Success? && table[IndexOfType(r, h).value].None? ==> f.value.None?
    ensures f.Success? && table[IndexOfType(r, h).value].Some? ==>
      f.value == Builtin(r, table[IndexOfType(r, h).value].value)
  {
    var i :- IndexOfType(r, h);
    if i >= |table| then Failure(Assertion)
    else
      match table[i]
      case None => Success(None)
      case Some(g) => Success(Builtin(r, g))
  }

  function DiscardFunctionOf(r: Repo, h: YulName): Result<Option<NamedBuiltin>, Stop>
    requires Links(r) && FunctionsShaped(r) && h < |r.names|
  {
    FetchTyped(r, h, r.functions.discard)
  }

  function EqualityFunctionOf(r: Repo, h: YulName): Result<Option<NamedBuiltin>, Stop>
    requires Links(r) && FunctionsShaped(r) && h < |r.names|
  {
    FetchTyped(r, h, r.functions.equality)
  }

  function MemoryStoreFunctionOf(r: Repo, h: YulName): Result<Option<NamedBuiltin>, Stop>
    requires Links(r) && FunctionsShaped(r) && h < |r.names|
  {
    FetchTyped(r, h, r.functions.memoryStore)
  }

  function MemoryLoadFunctionOf(r: Repo, h: YulName): Result<Option<NamedBuiltin>, Stop>
    requires Links(r) && FunctionsShaped(r) && h < |r.names|
  {
    FetchTyped(r, h, r.functions.memoryLoad)
  }

  function StorageStoreFunctionOf(r: Repo, h: YulName): Result<Option<NamedBuiltin>, Stop>
    requires Links(r) && FunctionsShaped(r) && h < |r.names|
  {
    FetchTyped(r, h, r.functions.storageStore)
  }

  function StorageLoadFunctionOf(r: Repo, h: YulName): Result<Option<NamedBuiltin>, Stop>
    requires Links(r) && FunctionsShaped(r) && h < |r.names|
  {
    FetchTyped(r, h, r.functions.storageLoad)
  }

  /** booleanNegationFunction: the builtin of the recorded handle, if any. */
  function BooleanNegationOf(r: Repo): (f: Option<NamedBuiltin>)
    requires Links(r) && FunctionsShaped(r)
    ensures r.functions.booleanNegation.None? ==> f.None?
    ensures r.functions.booleanNegation.Some? ==> f == Builtin(r, r.functions.booleanNegation.value)
  {
    match r.functions.booleanNegation
    case None => None
    case Some(g) => Builtin(r, g)
  }

  /** hashFunction: the hash handle recorded for the type `h`. The table has
      a slot for every index indexOfType can return. */
  function HashFunctionOf(r: Repo, h: YulName): (f: Result<YulName, Stop>)
    requires FunctionsShaped(r) && h < |r.names|
    ensures f.Failure? <==> IndexOfType(r, h).Failure?
    ensures f.Success? ==> f.value == r.functions.hash[IndexOfType(r, h).value]
  {
    var i :- IndexOfType(r, h);
    Success(r.functions.hash[i])
  }

  /** A handle carries at most one label, so type slots with the same handle
      hold the same type. */
  lemma SameHandleSameType(r: Repo, i: nat, j: nat)
    requires TypeSlots(r) && |r.names| > 0 && r.names[0] == Entry(0, false)
    requires |r.labels| > 0 && r.labels[0] == ""
    requires i < |r.dialectTypes| && j < |r.dialectTypes| && r.dialectTypes[i].0 == r.dialectTypes[j].0
    ensures r.dialectTypes[i].1 == r.dialectTypes[j].1
  {
    assert TypeSlot(r, r.dialectTypes[i], r.dialectTypes[i].1);
    assert TypeSlot(r, r.dialectTypes[j], r.dialectTypes[j].1);
  }

  /** indexOfType undoes nameOfType: the slot it finds for a type's handle
      holds that type. */
  lemma IndexOfNameOfType(r: Repo, t: string)
    requires TypeSlots(r) && |r.names| > 0 && r.names[0] == Entry(0, false)
    requires |r.labels| > 0 && r.labels[0] == ""
    requires Resolvable(r, t) && |r.dialectTypes| > 0
    ensures IndexOfType(r, ResolvedType(r, t)).Success?
    ensures r.dialectTypes[IndexOfType(r, ResolvedType(r, t)).value].1 == t
  {
    var h := ResolvedType(r, t);
    var j :| 0 <= j < |r.dialectTypes| && r.dialectTypes[j] == (h, t);
    var i := IndexOfType(r, h).value;
    SameHandleSameType(r, i, j);
  }

  lemma FunctionTablesSlot(r: Repo, k: Lookup, i: nat)
    requires Arena(r) && |r.names| > 0
    requires forall t :: t in TableTypes(r) ==> TypeHandled(r.dialect, t)
    requires i < |TableTypes(r)|
    ensures SlotMatches(FunctionTables(r), k, i)
  {
    var res := FunctionTables(r);
    var t := TableTypes(r)[i];
    assert TableTypes(res) == TableTypes(r);
    var f := LookupFunction(r.dialect, k, t);
    if f.Some? {
      NameOfBuiltinStable(r, res, f.value.name);
    }
  }

  /** The tables list, per type, the dialect's builtin for it. */
  lemma FunctionTablesMatch(r: Repo)
    requires Arena(r) && |r.names| > 0
    requires forall t :: t in TableTypes(r) ==> TypeHandled(r.dialect, t)
    ensures TablesMatch(FunctionTables(r))
  {
    var res := FunctionTables(r);
    assert TableTypes(res) == TableTypes(r);
    forall k: Lookup, i | 0 <= i < |TableTypes(res)| ensures SlotMatches(res, k, i) {
      FunctionTablesSlot(r, k, i);
    }
  }

  lemma SlotMatchesKept(r: Repo, r2: Repo, k: Lookup, i: nat)
    requires TablesMatch(r) && Arena(r2)
    requires r2.dialect == r.dialect && r2.dialectTypes == r.dialectTypes && r2.functions == r.functions
    requires r2.bounds == r.bounds && r.names <= r2.names && r.labels <= r2.labels
    requires i < |TableTypes(r)|
    ensures TableTypes(r2) == TableTypes(r) && SlotMatches(r2, k, i)
  {
    assert SlotMatches(r, k, i);
    var f := LookupFunction(r.dialect, k, TableTypes(r)[i]);
    if f.Some? {
      NameOfBuiltinStable(r, r2, f.value.name);
    }
  }

  /** The tables only depend on frozen handles. */
  lemma TablesMatchKept(r: Repo, r2: Repo)
    requires TablesMatch(r) && Arena(r2)
    requires r2.dialect == r.dialect && r2.dialectTypes == r.dialectTypes && r2.functions == r.functions
    requires r2.bounds == r.bounds && r.names <= r2.names && r.labels <= r2.labels
    ensures TablesMatch(r2)
  {
    assert TableTypes(r2) == TableTypes(r);
    forall k: Lookup, i | 0 <= i < |TableTypes(r2)| ensures SlotMatches(r2, k, i) {
      SlotMatchesKept(r, r2, k, i);
    }
  }

  lemma CreateTablesMatch(d: Dialect)
    requires Coherent(d)
    ensures TablesMatch(Create(d))
  {
    var r5 := PredefinedStage(d);
    TablesReady(r5);
    FunctionTablesMatch(r5);
    CreateKeepsFrozen(d);
    TablesMatchKept(TablesStage(d), Create(d));
  }

  /** The slot indexOfType finds for the handle of type `t` holds the
      handle of the builtin the dialect names for `t` under lookup `k`. */
  ghost predicate LookupAnswers(r: Repo, k: Lookup, t: string) {
    && Arena(r) && Resolvable(r, t) && TypeHandled(r.dialect, t)
    && var i := IndexOfType(r, ResolvedType(r, t));
    && i.Success? && i.value < |TableOf(r.functions, k)|
    && TableOf(r.functions, k)[i.value] == HandleOf(r, LookupFunction(r.dialect, k, t))
  }

  lemma TablesAnswer(r: Repo, k: Lookup, t: string)
    requires TablesMatch(r) && TypeSlots(r) && |r.names| > 0 && r.names[0] == Entry(0, false)
    requires |r.labels| > 0 && r.labels[0] == ""
    requires Resolvable(r, t) && t in TableTypes(r)
    ensures LookupAnswers(r, k, t)
  {
    if |r.dialectTypes| > 0 {
      IndexOfNameOfType(r, t);
      var i := IndexOfType(r, ResolvedType(r, t)).value;
      assert TableTypes(r)[i] == t;
      assert SlotMatches(r, k, i);
    } else {
      assert SlotMatches(r, k, 0);
    }
  }

  /** After construction the per-type lookups answer as the dialect does. */
  lemma CreateLookup(d: Dialect, k: Lookup, t: string)
    requires Coherent(d) && (t in d.types || (d.types == {} && t == ""))
    ensures LookupAnswers(Create(d), k, t)
  {
    var r := Create(d);
    CreateTablesMatch(d);
    CreateBounds(d);
    CreateTypeSlots(d);
    CreateTypesInTable(d, t);
    TablesAnswer(r, k, t);
  }

  lemma CreateTypesInTable(d: Dialect, t: string)
    requires Coherent(d) && (t in d.types || (d.types == {} && t == ""))
    ensures Resolvable(Create(d), t) && t in TableTypes(Create(d))
  {
    var r := Create(d);
    if |r.dialectTypes| > 0 {
      var i :| 0 <= i < |r.dialectTypes| && r.dialectTypes[i].1 == t;
      assert TableTypes(r)[i] == t;
    }
  }

  /** The bool and default type handles are the handles of the dialect's
      bool and default type names. */
  lemma CreateBoolAndDefault(d: Dialect)
    requires Coherent(d)
    ensures var r := Create(d);
      && Resolvable(r, d.boolType) && Resolvable(r, d.defaultType)
      && r.predefined.boolType == ResolvedType(r, d.boolType)
      && r.predefined.defaultType == ResolvedType(r, d.defaultType)
  {
    var r := Create(d);
    var r4 := FrozenStage(d);
    CreateKeepsFrozen(d);
    PredefinedStageTypes(d);
    SameTypesResolve(r4, r, d.boolType);
    SameTypesResolve(r4, r, d.defaultType);
  }

  /** The predefined stage resolves bool and the default type in the frozen stage's table. */
  lemma PredefinedStageTypes(d: Dialect)
    requires Coherent(d)
    ensures var r4 := FrozenStage(d); var p := PredefinedStage(d).predefined;
      && Resolvable(r4, d.boolType) && Resolvable(r4, d.defaultType)
      && p.boolType == ResolvedType(r4, d.boolType) && p.defaultType == ResolvedType(r4, d.defaultType)
  {
    assert PredefinedStage(d) == Predefine(FrozenStage(d));
  }

  /** Type resolution depends on the type table alone. */
  lemma SameTypesResolve(r: Repo, r2: Repo, t: string)
    requires r2.dialectTypes == r.dialectTypes
    ensures Resolvable(r2, t) == Resolvable(r, t)
    ensures Resolvable(r, t) ==> ResolvedType(r2, t) == ResolvedType(r, t)
  {
  }
}

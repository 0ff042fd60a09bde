/** generateLabels (libyul/YulName.cpp): gives every derived name of an AST
    a printable label of its own, built from the label of the name it
    derives from plus a counter suffix, avoiding the labels already in use
    and a set of illegal ones. The names of the AST are an input here (the
    name collector that gathers them is not part of this model). */
module LabelGeneration {
  import opened Wrappers
  import opened Strings
  import opened Names

  // ---------------------------------------------------------------------
  // Candidate labels

  /** The label tried after `k` collisions: the base label itself, then
      "<base>_1", "<base>_2", and so on. */
  function Candidate(base: string, k: nat): string {
    if k == 0 then base else base + "_" + NatToString(k)
  }

  lemma CandidateInjective(base: string, j: nat, k: nat)
    requires Candidate(base, j) == Candidate(base, k)
    ensures j == k
  {
    var n := |base| + 1;
    if j != 0 && k != 0 {
      assert NatToString(j) == Candidate(base, j)[n..];
      assert NatToString(k) == Candidate(base, k)[n..];
      NatToStringInjective(j, k);
    }
  }

  /** The first `n` candidates. */
  function Candidates(base: string, n: nat): (s: set<string>)
    ensures |s| == n
    ensures forall k :: 0 <= k < n ==> Candidate(base, k) in s
    ensures forall x :: x in s ==> exists k :: 0 <= k < n && x == Candidate(base, k)
    decreases n
  {
    if n == 0 then {}
    else
      CandidateNew(base, n - 1);
      Candidates(base, n - 1) + {Candidate(base, n - 1)}
  }

  /** The `n`-th candidate differs from every one before it. */
  lemma CandidateNew(base: string, n: nat)
    ensures forall k :: 0 <= k < n ==> Candidate(base, k) != Candidate(base, n)
  {
    forall k | 0 <= k < n
      ensures Candidate(base, k) != Candidate(base, n)
    {
      if Candidate(base, k) == Candidate(base, n) {
        CandidateInjective(base, k, n);
      }
    }
  }

  /** The collision loop from the `n`-th candidate on, once the first `n`
      have all collided. It stops: there are only |avoid| labels to collide
      with. */
  function Bump(base: string, avoid: set<string>, n: nat): (l: string)
    requires Candidates(base, n) <= avoid
    ensures l !in avoid
    ensures exists k :: n <= k && l == Candidate(base, k)
    decreases |avoid| - n
  {
    if Candidate(base, n) !in avoid then Candidate(base, n)
    else
      assert Candidates(base, n + 1) <= avoid;
      SubsetSize(Candidates(base, n + 1), avoid);
      Bump(base, avoid, n + 1)
  }

  lemma SubsetSize(a: set<string>, b: set<string>)
    requires a <= b
    ensures |a| <= |b|
  {
    assert b == a + (b - a);
  }

  /** The label chosen for a derived name whose base label is `base`: the
      first candidate that is neither in use nor illegal. */
  function FreshLabel(base: string, avoid: set<string>): (l: string)
    ensures l !in avoid
    ensures base !in avoid ==> l == base
    ensures exists k: nat :: l == Candidate(base, k) && forall j :: 0 <= j < k ==> Candidate(base, j) in avoid
  {
    BumpFirst(base, avoid, 0);
    Bump(base, avoid, 0)
  }

  /** Bump stops at the first candidate that does not collide. */
  lemma {:induction false} BumpFirst(base: string, avoid: set<string>, n: nat)
    requires Candidates(base, n) <= avoid
    ensures exists k: nat :: Bump(base, avoid, n) == Candidate(base, k) && forall j :: 0 <= j < k ==> Candidate(base, j) in avoid
    decreases |avoid| - n
  {
    if Candidate(base, n) !in avoid {
      assert forall j :: 0 <= j < n ==> Candidate(base, j) in Candidates(base, n);
    } else {
      assert Candidates(base, n + 1) <= avoid;
      SubsetSize(Candidates(base, n + 1), avoid);
      BumpFirst(base, avoid, n + 1);
    }
  }

  // ---------------------------------------------------------------------
  // The walk over the handles

  /** The least handle of a non-empty set, where std::set's iterator
      points. */
  function Least(s: set<nat>): (m: nat)
    requires s != {}
    ensures m in s && forall x :: x in s ==> m <= x
  {
    LeastExists(s);
    var m :| m in s && forall x :: x in s ==> m <= x;
    m
  }

  lemma LeastExists(s: set<nat>)
    requires s != {}
    ensures exists m :: m in s && forall x :: x in s ==> m <= x
  {
    var a :| a in s;
    LeastUpTo(s, a);
  }

  /** Descending from an element reaches the least one. */
  lemma {:induction false} LeastUpTo(s: set<nat>, b: nat)
    requires b in s
    ensures exists m :: m in s && forall x :: x in s ==> m <= x
    decreases b
  {
    if y :| y in s && y < b {
      LeastUpTo(s, y);
    } else {
      assert forall x :: x in s ==> b <= x;
    }
  }

  /** The loop over the handles `name` .. `size` - 1 with the iterator over
      the AST's names at the least element of `rest`: the handles it stops
      at, in order. The iterator moves only when the loop's handle equals
      the name it points to. */
  function Walk(name: nat, size: nat, rest: set<nat>): (w: seq<nat>)
    ensures forall i :: 0 <= i < |w| ==> w[i] in rest && name <= w[i] < size
    ensures forall i, j :: 0 <= i < j < |w| ==> w[i] < w[j]
    decreases size - name
  {
    if name >= size then []
    else if rest != {} && Least(rest) == name then [name] + Walk(name + 1, size, rest - {name})
    else Walk(name + 1, size, rest)
  }

  /** Once the iterator points below the loop's handle it never moves
      again, and the loop stops nowhere. */
  lemma {:induction false} WalkStuck(name: nat, size: nat, rest: set<nat>)
    requires rest != {} && Least(rest) < name
    ensures Walk(name, size, rest) == []
    decreases size - name
  {
    if name < size {
      WalkStuck(name + 1, size, rest);
    }
  }

  /** When every name lies in the loop's range the loop stops at each. */
  lemma {:induction false} WalkComplete(name: nat, size: nat, rest: set<nat>)
    requires forall x :: x in rest ==> name <= x < size
    ensures forall x :: x in rest ==> x in Walk(name, size, rest)
    decreases size - name
  {
    if name < size {
      if rest != {} && Least(rest) == name {
        WalkComplete(name + 1, size, rest - {name});
      } else {
        assert name !in rest;
        WalkComplete(name + 1, size, rest);
      }
    }
  }

  // ---------------------------------------------------------------------
  // The relabelling loop

  /** The loop's state: the repository, whose entries the loop rewrites in
      place, the labels in use, and the (label, handle) pairs whose labels
      are appended once the loop is over. */
  datatype Pass = Pass(r: Repo, used: set<string>, generated: seq<(string, YulName)>)

  /** The loop relabels derived names other than verbatim builtins. */
  predicate Relabelled(r: Repo, n: YulName)
    requires Links(r) && n < |r.names|
  {
    IsDerivedName(r, n) && !IsVerbatimFunction(r, n)
  }

  /** The handles of the pairs to append. */
  function Handles(g: seq<(string, YulName)>): (hs: seq<YulName>)
    ensures |hs| == |g| && forall j :: 0 <= j < |g| ==> hs[j] == g[j].1
  {
    seq(|g|, j requires 0 <= j < |g| => g[j].1)
  }

  /** One pass of the loop for the handle `n`: a derived name gets the first
      candidate built from its base label that is neither in use nor
      illegal. If a name already carries that label, `n` takes over that
      name's entry; otherwise the pair is kept for appending. */
  function Step(s: Pass, illegal: set<string>, n: YulName): (res: Pass)
    requires Links(s.r) && n < |s.r.names|
    ensures Links(res.r) && res.r == s.r.(names := res.r.names) && |res.r.names| == |s.r.names|
    ensures forall h :: 0 <= h < |s.r.names| && h != n ==> res.r.names[h] == s.r.names[h]
    ensures !Relabelled(s.r, n) ==> res == s
    ensures Relabelled(s.r, n) ==>
      var chosen := FreshLabel(BaseLabelOf(s.r, n), s.used + illegal);
      && res.used == s.used + {chosen}
      && (res.generated == s.generated + [(chosen, n)] || (res.generated == s.generated && Labelled(res.r, n, chosen)))
  {
    if Relabelled(s.r, n) then
      var chosen := FreshLabel(BaseLabelOf(s.r, n), s.used + illegal);
      var existing := NameOfLabel(s.r, chosen);
      if existing != EmptyName || n == EmptyName then
        Pass(s.r.(names := s.r.names[n := s.r.names[existing]]), s.used + {chosen}, s.generated)
      else Pass(s.r, s.used + {chosen}, s.generated + [(chosen, n)])
    else s
  }

  /** The loop over the handles of `order`, in order. */
  function Relabel(s: Pass, illegal: set<string>, order: seq<YulName>): (res: Pass)
    requires Links(s.r) && forall i :: 0 <= i < |order| ==> order[i] < |s.r.names|
    ensures Links(res.r) && res.r == s.r.(names := res.r.names) && |res.r.names| == |s.r.names|
    ensures forall h :: 0 <= h < |s.r.names| && h !in order ==> res.r.names[h] == s.r.names[h]
    ensures s.used <= res.used && s.generated <= res.generated
    decreases |order|
  {
    if |order| == 0 then s
    else
      var prefix := order[..|order| - 1];
      assert forall i :: 0 <= i < |prefix| ==> prefix[i] == order[i];
      Step(Relabel(s, illegal, prefix), illegal, order[|order| - 1])
  }

  /** Appends the kept labels, each to its handle's entry. */
  function AppendGenerated(r: Repo, g: seq<(string, YulName)>): (res: Repo)
    requires forall j :: 0 <= j < |g| ==> g[j].1 < |r.names|
    ensures res == r.(labels := res.labels, names := res.names) && |res.names| == |r.names|
    ensures |res.labels| == |r.labels| + |g| && res.labels[..|r.labels|] == r.labels
    ensures forall j :: 0 <= j < |g| ==> res.labels[|r.labels| + j] == g[j].0
    ensures forall h :: 0 <= h < |r.names| && h !in Handles(g) ==> res.names[h] == r.names[h]
    decreases |g|
  {
    if |g| == 0 then r
    else
      var (chosen, h) := g[0];
      var r1 := r.(labels := r.labels + [chosen], names := r.names[h := Entry(|r.labels|, false)]);
      assert forall j :: 0 <= j < |g[1..]| ==> g[1..][j] == g[j + 1];
      AppendGenerated(r1, g[1..])
  }

  /** Appending keeps every entry's link in range. */
  lemma {:induction false} AppendKeepsLinks(r: Repo, g: seq<(string, YulName)>)
    requires forall j :: 0 <= j < |g| ==> g[j].1 < |r.names|
    requires Links(r)
    ensures Links(AppendGenerated(r, g))
    decreases |g|
  {
    if |g| > 0 {
      var (chosen, h) := g[0];
      var r1 := r.(labels := r.labels + [chosen], names := r.names[h := Entry(|r.labels|, false)]);
      assert forall j :: 0 <= j < |g[1..]| ==> g[1..][j] == g[j + 1];
      assert Links(r1);
      AppendKeepsLinks(r1, g[1..]);
    }
  }

  /** Whether the loop's first set of used labels includes the label of
      AST name `n`: plain names and verbatim builtins count. */
  predicate Printable(r: Repo, n: YulName)
    requires Links(r) && n < |r.names|
  {
    !IsDerivedName(r, n) || IsVerbatimFunction(r, n)
  }

  /** The labels in use before the loop: those of the handles below the end
      of the builtins, and those of the AST's plain names and verbatim
      builtins (labelOf's assertion propagates). */
  function InitialUsed(r: Repo, names: set<YulName>): (u: Result<set<string>, Stop>)
    requires Links(r) && r.bounds.endBuiltins <= |r.labels| && forall n :: n in names ==> n < |r.names|
    ensures u.Success? ==> forall i :: 0 <= i < r.bounds.endBuiltins ==> r.labels[i] in u.value
    ensures u.Success? ==> forall n :: n in names && Printable(r, n) ==> LabelOf(r, n).Success? && LabelOf(r, n).value in u.value
    ensures u.Failure? <==> exists n :: n in names && Printable(r, n) && LabelOf(r, n).Failure?
  {
    if exists n :: n in names && Printable(r, n) && LabelOf(r, n).Failure? then Failure(Assertion)
    else
      Success((set i | 0 <= i < r.bounds.endBuiltins :: r.labels[i])
        + (set n | n in names && Printable(r, n) && LabelOf(r, n).Success? :: LabelOf(r, n).value))
  }

  /** The AST names the loop stops at, as written: the loop runs over the
      handles from the end of the builtins on, while the iterator walks all
      of the AST's names. */
  function OrderAsWritten(r: Repo, names: set<YulName>): (w: seq<YulName>)
    ensures forall i :: 0 <= i < |w| ==> w[i] in names && r.bounds.endBuiltins <= w[i] < |r.names|
  {
    Walk(r.bounds.endBuiltins, |r.names|, names)
  }

  /** The AST names the loop is meant to stop at: those from the end of the
      builtins on, which is where the loop starts. */
  function Order(r: Repo, names: set<YulName>): (w: seq<YulName>)
    ensures forall i :: 0 <= i < |w| ==> w[i] in names && r.bounds.endBuiltins <= w[i] < |r.names|
    ensures forall i, j :: 0 <= i < j < |w| ==> w[i] < w[j]
  {
    Walk(r.bounds.endBuiltins, |r.names|, set n | n in names && n >= r.bounds.endBuiltins)
  }

  /** generateLabels with the given walk order. */
  function GenerateWith(r: Repo, names: set<YulName>, illegal: set<string>, order: seq<YulName>): (res: Result<Repo, Stop>)
    requires Links(r) && r.bounds.endBuiltins <= |r.labels| && forall n :: n in names ==> n < |r.names|
    requires forall i :: 0 <= i < |order| ==> order[i] < |r.names|
    ensures res.Failure? <==> InitialUsed(r, names).Failure?
    ensures res.Success? ==> Links(res.value) && res.value == r.(labels := res.value.labels, names := res.value.names)
    ensures res.Success? ==> |res.value.names| == |r.names| && r.labels <= res.value.labels
  {
    var used :- InitialUsed(r, names);
    var s0 := Pass(r, used, []);
    var s := Relabel(s0, illegal, order);
    RelabelKeepsOwn(s0, illegal, order);
    AppendKeepsLinks(s.r, s.generated);
    Success(AppendGenerated(s.r, s.generated))
  }

  /** generateLabels as written. */
  function GenerateLabelsAsWritten(r: Repo, names: set<YulName>, illegal: set<string>): Result<Repo, Stop>
    requires Links(r) && r.bounds.endBuiltins <= |r.labels| && forall n :: n in names ==> n < |r.names|
  {
    GenerateWith(r, names, illegal, OrderAsWritten(r, names))
  }

  /** generateLabels with the iterator started at the first AST name the
      loop can reach. */
  function GenerateLabels(r: Repo, names: set<YulName>, illegal: set<string>): Result<Repo, Stop>
    requires Links(r) && r.bounds.endBuiltins <= |r.labels| && forall n :: n in names ==> n < |r.names|
  {
    GenerateWith(r, names, illegal, Order(r, names))
  }

  // ---------------------------------------------------------------------
  // What the loop keeps

  /** Rewriting a derived entry into a plain one cuts every derivation
      chain through it: a base name either stays or becomes the rewritten
      handle, whose old base it then shares. */
  lemma {:induction false} BaseAfterCut(r: Repo, m: YulName, e: Entry, h: YulName)
    requires Links(r) && m < |r.names| && h < |r.names| && !e.derived && e.link < |r.labels|
    ensures Links(r.(names := r.names[m := e]))
    ensures var r2 := r.(names := r.names[m := e]);
      || BaseNameOf(r2, h) == BaseNameOf(r, h)
      || (BaseNameOf(r2, h) == m && BaseNameOf(r, h) == BaseNameOf(r, m))
    decreases h
  {
    if h != m && r.names[h].derived {
      BaseAfterCut(r, m, e, r.names[h].link);
    }
  }

  /** One pass leaves the verbatim family as it was, when the handle it
      rewrites is not the verbatim handle itself. */
  lemma StepKeepsVerbatim(s: Pass, illegal: set<string>, n: YulName, h: YulName)
    requires Links(s.r) && n < |s.r.names| && h < |s.r.names| && n != s.r.predefined.verbatim
    ensures IsVerbatimFunction(Step(s, illegal, n).r, h) == IsVerbatimFunction(s.r, h)
  {
    if Relabelled(s.r, n) {
      var chosen := FreshLabel(BaseLabelOf(s.r, n), s.used + illegal);
      var existing := NameOfLabel(s.r, chosen);
      if existing != EmptyName || n == EmptyName {
        var e := s.r.names[existing];
        assert !e.derived && e.link < |s.r.labels|;
        BaseAfterCut(s.r, n, e, h);
      }
    }
  }

  /** The loop's order: increasing handles, none of them the verbatim
      handle. */
  predicate Ordered(r: Repo, order: seq<YulName>) {
    && (forall i :: 0 <= i < |order| ==> order[i] < |r.names| && order[i] != r.predefined.verbatim)
    && (forall i, j :: 0 <= i < j < |order| ==> order[i] < order[j])
  }

  lemma OrderedPrefix(r: Repo, order: seq<YulName>, k: nat)
    requires Ordered(r, order) && k <= |order|
    ensures Ordered(r, order[..k])
    ensures forall i :: k <= i < |order| ==> order[i] !in order[..k]
  {
  }

  /** The loop leaves the verbatim family as it was. */
  lemma {:induction false} RelabelKeepsVerbatim(s: Pass, illegal: set<string>, order: seq<YulName>, h: YulName)
    requires Links(s.r) && Ordered(s.r, order) && h < |s.r.names|
    ensures IsVerbatimFunction(Relabel(s, illegal, order).r, h) == IsVerbatimFunction(s.r, h)
    decreases |order|
  {
    if |order| > 0 {
      var prefix := order[..|order| - 1];
      OrderedPrefix(s.r, order, |order| - 1);
      RelabelKeepsVerbatim(s, illegal, prefix, h);
      StepKeepsVerbatim(Relabel(s, illegal, prefix), illegal, order[|order| - 1], h);
    }
  }

  /** When the loop reaches a handle, it still decides as the repository
      it started from would: the handle's entry is untouched and the
      verbatim family unchanged. */
  lemma RelabelledAtTurn(s: Pass, illegal: set<string>, order: seq<YulName>, k: nat)
    requires Links(s.r) && Ordered(s.r, order) && k < |order|
    ensures var s1 := Relabel(s, illegal, order[..k]);
      s1.r.names[order[k]] == s.r.names[order[k]]
      && Relabelled(s1.r, order[k]) == Relabelled(s.r, order[k])
  {
    OrderedPrefix(s.r, order, k);
    RelabelKeepsVerbatim(s, illegal, order[..k], order[k]);
  }

  /** The label the loop picks for each handle it relabels, in the order of
      the passes (a later pick for the same handle overrides). */
  ghost function Chosen(s: Pass, illegal: set<string>, order: seq<YulName>): map<YulName, string>
    requires Links(s.r) && forall i :: 0 <= i < |order| ==> order[i] < |s.r.names|
    decreases |order|
  {
    if |order| == 0 then map[]
    else
      var prefix := order[..|order| - 1];
      var n := order[|order| - 1];
      assert forall i :: 0 <= i < |prefix| ==> prefix[i] == order[i];
      var s1 := Relabel(s, illegal, prefix);
      if Relabelled(s1.r, n) then Chosen(s, illegal, prefix)[n := FreshLabel(BaseLabelOf(s1.r, n), s1.used + illegal)]
      else Chosen(s, illegal, prefix)
  }

  /** The loop is its last pass after the earlier ones. */
  lemma RelabelStep(s: Pass, illegal: set<string>, order: seq<YulName>)
    requires Links(s.r) && |order| > 0 && forall i :: 0 <= i < |order| ==> order[i] < |s.r.names|
    ensures var prefix := order[..|order| - 1];
      && (forall i :: 0 <= i < |prefix| ==> prefix[i] < |s.r.names|)
      && Relabel(s, illegal, order) == Step(Relabel(s, illegal, prefix), illegal, order[|order| - 1])
  {
  }

  /** The loop keeps pairs only for handles of its order. */
  lemma {:induction false} RelabelKeepsOwn(s: Pass, illegal: set<string>, order: seq<YulName>)
    requires Links(s.r) && forall i :: 0 <= i < |order| ==> order[i] < |s.r.names|
    ensures forall j :: |s.generated| <= j < |Relabel(s, illegal, order).generated| ==>
      Relabel(s, illegal, order).generated[j].1 in order && Relabel(s, illegal, order).generated[j].1 < |s.r.names|
    decreases |order|
  {
    if |order| > 0 {
      var prefix := order[..|order| - 1];
      RelabelStep(s, illegal, order);
      RelabelKeepsOwn(s, illegal, prefix);
      assert forall x :: x in prefix ==> x in order;
    }
  }

  /** The last pass of the loop, spelled out. */
  lemma RelabelLast(s: Pass, illegal: set<string>, order: seq<YulName>)
    requires Links(s.r) && |order| > 0 && forall i :: 0 <= i < |order| ==> order[i] < |s.r.names|
    ensures var prefix := order[..|order| - 1];
      && (forall i :: 0 <= i < |prefix| ==> prefix[i] < |s.r.names|)
      && Relabel(s, illegal, order) == Step(Relabel(s, illegal, prefix), illegal, order[|order| - 1])
      && var s1 := Relabel(s, illegal, prefix);
         var n := order[|order| - 1];
         Chosen(s, illegal, order) ==
           if Relabelled(s1.r, n) then Chosen(s, illegal, prefix)[n := FreshLabel(BaseLabelOf(s1.r, n), s1.used + illegal)]
           else Chosen(s, illegal, prefix)
  {
  }

  /** Every picked label is new: neither in use when the loop started nor
      illegal, and in use once it is over. */
  lemma {:induction false} ChosenFresh(s: Pass, illegal: set<string>, order: seq<YulName>)
    requires Links(s.r) && forall i :: 0 <= i < |order| ==> order[i] < |s.r.names|
    ensures var ch := Chosen(s, illegal, order);
      forall m :: m in ch ==> ch[m] in Relabel(s, illegal, order).used && ch[m] !in s.used && ch[m] !in illegal
    decreases |order|
  {
    if |order| > 0 {
      var prefix := order[..|order| - 1];
      var n := order[|order| - 1];
      RelabelLast(s, illegal, order);
      ChosenFresh(s, illegal, prefix);
      var s1 := Relabel(s, illegal, prefix);
      var ch0 := Chosen(s, illegal, prefix);
      var res := Step(s1, illegal, n);
      assert s1.used <= res.used;
      if Relabelled(s1.r, n) {
        var chosen := FreshLabel(BaseLabelOf(s1.r, n), s1.used + illegal);
        assert chosen in res.used && chosen !in s1.used && chosen !in illegal;
      }
    }
  }

  /** No two relabelled handles get the same label. */
  lemma {:induction false} ChosenDistinct(s: Pass, illegal: set<string>, order: seq<YulName>)
    requires Links(s.r) && forall i :: 0 <= i < |order| ==> order[i] < |s.r.names|
    ensures var ch := Chosen(s, illegal, order);
      forall m1, m2 :: m1 in ch && m2 in ch && m1 != m2 ==> ch[m1] != ch[m2]
    decreases |order|
  {
    if |order| > 0 {
      var prefix := order[..|order| - 1];
      var n := order[|order| - 1];
      RelabelLast(s, illegal, order);
      ChosenDistinct(s, illegal, prefix);
      ChosenFresh(s, illegal, prefix);
      var s1 := Relabel(s, illegal, prefix);
      if Relabelled(s1.r, n) {
        var chosen := FreshLabel(BaseLabelOf(s1.r, n), s1.used + illegal);
        var ch0 := Chosen(s, illegal, prefix);
        assert forall m :: m in ch0 ==> ch0[m] in s1.used;
        assert chosen !in s1.used;
      }
    }
  }

  /** The keys the last pass adds. */
  lemma ChosenLastKey(s: Pass, illegal: set<string>, order: seq<YulName>, m: YulName)
    requires Links(s.r) && |order| > 0 && forall i :: 0 <= i < |order| ==> order[i] < |s.r.names|
    ensures var prefix := order[..|order| - 1];
      var n := order[|order| - 1];
      m in Chosen(s, illegal, order) <==>
        m in Chosen(s, illegal, prefix) || (m == n && Relabelled(Relabel(s, illegal, prefix).r, n))
  {
    RelabelLast(s, illegal, order);
  }

  /** The handle whose turn it is gets a label exactly when the starting
      repository relabels it, given that the earlier passes did not pick
      one for it. */
  lemma ChosenAtTurn(s: Pass, illegal: set<string>, order: seq<YulName>)
    requires Links(s.r) && Ordered(s.r, order) && |order| > 0
    requires order[|order| - 1] !in Chosen(s, illegal, order[..|order| - 1])
    ensures order[|order| - 1] in Chosen(s, illegal, order) <==> Relabelled(s.r, order[|order| - 1])
  {
    var k := |order| - 1;
    ChosenLastKey(s, illegal, order, order[k]);
    RelabelledAtTurn(s, illegal, order, k);
  }

  /** Any other handle keeps what the earlier passes decided for it. */
  lemma ChosenElsewhere(s: Pass, illegal: set<string>, order: seq<YulName>, m: YulName)
    requires Links(s.r) && |order| > 0 && forall i :: 0 <= i < |order| ==> order[i] < |s.r.names|
    requires m != order[|order| - 1]
    ensures m in Chosen(s, illegal, order) <==> m in Chosen(s, illegal, order[..|order| - 1])
  {
    ChosenLastKey(s, illegal, order, m);
  }

  lemma InPrefix(order: seq<YulName>, m: YulName)
    requires |order| > 0 && m != order[|order| - 1]
    ensures m in order <==> m in order[..|order| - 1]
  {
    var k := |order| - 1;
    assert order == order[..k] + [order[k]];
  }

  /** The loop picks a label for exactly the handles of the order that are
      derived, non-verbatim names in the repository it starts from. */
  lemma {:induction false} ChosenKeys(s: Pass, illegal: set<string>, order: seq<YulName>, m: YulName)
    requires Links(s.r) && Ordered(s.r, order)
    ensures m in Chosen(s, illegal, order) <==> m in order && Relabelled(s.r, m)
    decreases |order|
  {
    if |order| > 0 {
      var k := |order| - 1;
      OrderedPrefix(s.r, order, k);
      ChosenKeys(s, illegal, order[..k], m);
      if m == order[k] {
        ChosenAtTurn(s, illegal, order);
      } else {
        ChosenElsewhere(s, illegal, order, m);
        InPrefix(order, m);
      }
    }
  }

  /** Where the label picked for `m` is: kept for appending, or already on
      `m`'s entry, which then is not kept. */
  predicate Placed(p: Pass, m: YulName, chosen: string) {
    || (exists j :: 0 <= j < |p.generated| && p.generated[j] == (chosen, m))
    || (Labelled(p.r, m, chosen) && m !in Handles(p.generated))
  }

  /** No handle is kept twice. */
  predicate DistinctHandles(g: seq<(string, YulName)>) {
    forall i, j :: 0 <= i < j < |g| ==> g[i].1 != g[j].1
  }

  lemma StepKeepsPlaced(s: Pass, illegal: set<string>, n: YulName, m: YulName, chosen: string)
    requires Links(s.r) && n < |s.r.names|
    requires m != n || !Relabelled(s.r, n)
    requires Placed(s, m, chosen)
    ensures Placed(Step(s, illegal, n), m, chosen)
  {
    var res := Step(s, illegal, n);
    if exists j :: 0 <= j < |s.generated| && s.generated[j] == (chosen, m) {
      var j :| 0 <= j < |s.generated| && s.generated[j] == (chosen, m);
      assert res.generated[j] == (chosen, m);
    } else if m != n {
      assert res.r.names[m] == s.r.names[m];
      assert m !in Handles(res.generated);
    }
  }

  lemma StepPlaces(s: Pass, illegal: set<string>, n: YulName)
    requires Links(s.r) && n < |s.r.names| && Relabelled(s.r, n) && n !in Handles(s.generated)
    ensures Placed(Step(s, illegal, n), n, FreshLabel(BaseLabelOf(s.r, n), s.used + illegal))
  {
    var res := Step(s, illegal, n);
    var chosen := FreshLabel(BaseLabelOf(s.r, n), s.used + illegal);
    if res.generated == s.generated + [(chosen, n)] {
      assert res.generated[|s.generated|] == (chosen, n);
    }
  }

  lemma StepDistinct(s: Pass, illegal: set<string>, n: YulName)
    requires Links(s.r) && n < |s.r.names|
    requires DistinctHandles(s.generated) && forall j :: 0 <= j < |s.generated| ==> s.generated[j].1 != n
    ensures DistinctHandles(Step(s, illegal, n).generated)
  {
  }

  /** A pass for a handle the earlier passes did not visit keeps the kept
      handles distinct. */
  lemma StepAfterDistinct(s: Pass, illegal: set<string>, prefix: seq<YulName>, n: YulName)
    requires Links(s.r) && n < |s.r.names| && n !in prefix
    requires DistinctHandles(s.generated) && forall j :: 0 <= j < |s.generated| ==> s.generated[j].1 in prefix
    ensures DistinctHandles(Step(s, illegal, n).generated)
  {
    StepDistinct(s, illegal, n);
  }

  /** Every kept handle is one of `order`. */
  predicate KeptAmong(g: seq<(string, YulName)>, order: seq<YulName>) {
    forall j :: 0 <= j < |g| ==> g[j].1 in order
  }

  /** The last pass keeps the kept handles distinct when its handle is not
      among the earlier ones. */
  lemma RelabelLastDistinct(s: Pass, illegal: set<string>, order: seq<YulName>)
    requires Links(s.r) && |order| > 0 && forall i :: 0 <= i < |order| ==> order[i] < |s.r.names|
    requires s.generated == [] && order[|order| - 1] !in order[..|order| - 1]
    requires DistinctHandles(Relabel(s, illegal, order[..|order| - 1]).generated)
    requires KeptAmong(Relabel(s, illegal, order[..|order| - 1]).generated, order[..|order| - 1])
    ensures DistinctHandles(Relabel(s, illegal, order).generated)
  {
    var prefix := order[..|order| - 1];
    RelabelStep(s, illegal, order);
    StepAfterDistinct(Relabel(s, illegal, prefix), illegal, prefix, order[|order| - 1]);
  }

  /** The handles kept for appending are distinct. */
  lemma {:induction false} RelabelDistinct(s: Pass, illegal: set<string>, order: seq<YulName>)
    requires Links(s.r) && Ordered(s.r, order) && s.generated == []
    ensures DistinctHandles(Relabel(s, illegal, order).generated)
    decreases |order|
  {
    if |order| > 0 {
      var k := |order| - 1;
      var prefix := order[..k];
      var n := order[k];
      OrderedPrefix(s.r, order, k);
      RelabelDistinct(s, illegal, prefix);
      RelabelKeepsOwn(s, illegal, prefix);
      RelabelLastDistinct(s, illegal, order);
    }
  }

  /** Every picked label is placed for its handle. */
  lemma {:induction false} ChosenPlaced(s: Pass, illegal: set<string>, order: seq<YulName>, m: YulName)
    requires Links(s.r) && Ordered(s.r, order) && s.generated == []
    requires m in Chosen(s, illegal, order)
    ensures Placed(Relabel(s, illegal, order), m, Chosen(s, illegal, order)[m])
    decreases |order|
  {
    var k := |order| - 1;
    var prefix := order[..k];
    var n := order[k];
    OrderedPrefix(s.r, order, k);
    RelabelLast(s, illegal, order);
    var s1 := Relabel(s, illegal, prefix);
    var ch0 := Chosen(s, illegal, prefix);
    if m == n && Relabelled(s1.r, n) {
      RelabelKeepsOwn(s, illegal, prefix);
      assert forall j :: 0 <= j < |s1.generated| ==> s1.generated[j].1 != n;
      StepPlaces(s1, illegal, n);
    } else {
      ChosenPlaced(s, illegal, prefix, m);
      StepKeepsPlaced(s1, illegal, n, m, ch0[m]);
    }
  }

  /** Appending gives each kept handle a plain entry on its own label. */
  lemma {:induction false} AppendPlaces(r: Repo, g: seq<(string, YulName)>, j: nat)
    requires forall i :: 0 <= i < |g| ==> g[i].1 < |r.names|
    requires DistinctHandles(g) && j < |g|
    ensures AppendGenerated(r, g).names[g[j].1] == Entry(|r.labels| + j, false)
    ensures Labelled(AppendGenerated(r, g), g[j].1, g[j].0)
    decreases |g|
  {
    var (chosen, h) := g[0];
    var r1 := r.(labels := r.labels + [chosen], names := r.names[h := Entry(|r.labels|, false)]);
    var rest := g[1..];
    assert forall i :: 0 <= i < |rest| ==> rest[i] == g[i + 1];
    assert AppendGenerated(r, g) == AppendGenerated(r1, rest);
    if j == 0 {
      assert h !in Handles(rest);
    } else {
      AppendPlaces(r1, rest, j - 1);
    }
  }

  /** A placed label is on its handle once the kept pairs are appended. */
  lemma PlacedFinal(p: Pass, m: YulName, chosen: string)
    requires forall i :: 0 <= i < |p.generated| ==> p.generated[i].1 < |p.r.names|
    requires DistinctHandles(p.generated) && Placed(p, m, chosen)
    ensures Labelled(AppendGenerated(p.r, p.generated), m, chosen)
  {
    if j :| 0 <= j < |p.generated| && p.generated[j] == (chosen, m) {
      AppendPlaces(p.r, p.generated, j);
    }
  }

  // ---------------------------------------------------------------------
  // What generateLabels promises

  /** The AST names that must come out of generateLabels with a label of
      their own: derived names from the end of the builtins on, other than
      builtins of the verbatim family. */
  predicate NeedsLabel(r: Repo, names: set<YulName>, n: YulName)
    requires Links(r)
  {
    n in names && r.bounds.endBuiltins <= n < |r.names| && Relabelled(r, n)
  }

  /** What generateLabels needs of its repository. */
  ghost predicate Prepared(r: Repo, names: set<YulName>) {
    && Links(r) && r.bounds.endBuiltins <= |r.labels| && r.predefined.verbatim < r.bounds.endBuiltins
    && forall n :: n in names ==> n < |r.names|
  }

  /** The loop's order reaches every name that needs a label. */
  lemma OrderCovers(r: Repo, names: set<YulName>, n: YulName)
    requires Prepared(r, names) && n in names && r.bounds.endBuiltins <= n
    ensures Ordered(r, Order(r, names)) && n in Order(r, names)
  {
    var rest := set x | x in names && x >= r.bounds.endBuiltins;
    WalkComplete(r.bounds.endBuiltins, |r.names|, rest);
  }

  /** The picked label of a name that needs one, with where it ends up. */
  lemma NeedsLabelChosen(r: Repo, names: set<YulName>, illegal: set<string>, n: YulName)
    requires Prepared(r, names) && InitialUsed(r, names).Success? && NeedsLabel(r, names, n)
    ensures var s0 := Pass(r, InitialUsed(r, names).value, []);
      var order := Order(r, names);
      var ch := Chosen(s0, illegal, order);
      && n in ch && ch[n] !in s0.used && ch[n] !in illegal
      && Labelled(GenerateLabels(r, names, illegal).value, n, ch[n])
  {
    var s0 := Pass(r, InitialUsed(r, names).value, []);
    var order := Order(r, names);
    OrderCovers(r, names, n);
    ChosenKeys(s0, illegal, order, n);
    ChosenFresh(s0, illegal, order);
    ChosenPlaced(s0, illegal, order, n);
    RelabelDistinct(s0, illegal, order);
    RelabelKeepsOwn(s0, illegal, order);
    PlacedFinal(Relabel(s0, illegal, order), n, Chosen(s0, illegal, order)[n]);
  }

  /** Every name that needs a label gets a plain entry, on a label that was
      neither illegal nor in use before: not a builtin's, not a plain AST
      name's. */
  lemma GenerateLabelsFresh(r: Repo, names: set<YulName>, illegal: set<string>, n: YulName)
    requires Prepared(r, names) && NeedsLabel(r, names, n)
    ensures GenerateLabels(r, names, illegal).Success? <==> InitialUsed(r, names).Success?
    ensures GenerateLabels(r, names, illegal).Success? ==>
      var res := GenerateLabels(r, names, illegal).value;
      && !res.names[n].derived && LabelOf(res, n).Success?
      && LabelOf(res, n).value !in illegal
      && (forall i :: 0 <= i < r.bounds.endBuiltins ==> LabelOf(res, n).value != r.labels[i])
      && (forall m :: m in names && Printable(r, m) ==> LabelOf(res, n).value != LabelOf(r, m).value)
  {
    if InitialUsed(r, names).Success? {
      NeedsLabelChosen(r, names, illegal, n);
    }
  }

  /** Two different names that need labels get different ones. */
  lemma GenerateLabelsDistinct(r: Repo, names: set<YulName>, illegal: set<string>, n1: YulName, n2: YulName)
    requires Prepared(r, names) && InitialUsed(r, names).Success?
    requires NeedsLabel(r, names, n1) && NeedsLabel(r, names, n2) && n1 != n2
    ensures var res := GenerateLabels(r, names, illegal).value;
      LabelOf(res, n1).Success? && LabelOf(res, n2).Success? && LabelOf(res, n1).value != LabelOf(res, n2).value
  {
    var s0 := Pass(r, InitialUsed(r, names).value, []);
    var order := Order(r, names);
    NeedsLabelChosen(r, names, illegal, n1);
    NeedsLabelChosen(r, names, illegal, n2);
    ChosenDistinct(s0, illegal, order);
  }

  /** Everything else stays: the dialect, the bounds, the old labels, and
      the entries of handles that are not AST names from the end of the
      builtins on. */
  lemma GenerateLabelsFrame(r: Repo, names: set<YulName>, illegal: set<string>, h: YulName)
    requires Prepared(r, names) && InitialUsed(r, names).Success?
    ensures var res := GenerateLabels(r, names, illegal).value;
      && res == r.(labels := res.labels, names := res.names) && |res.names| == |r.names|
      && |r.labels| <= |res.labels| && res.labels[..|r.labels|] == r.labels
      && (h < |r.names| && (h !in names || h < r.bounds.endBuiltins) ==> res.names[h] == r.names[h])
  {
    var s0 := Pass(r, InitialUsed(r, names).value, []);
    var order := Order(r, names);
    var s := Relabel(s0, illegal, order);
    RelabelKeepsOwn(s0, illegal, order);
    if h < |r.names| && (h !in names || h < r.bounds.endBuiltins) {
      assert h !in order;
      assert h !in Handles(s.generated);
    }
  }

  // ---------------------------------------------------------------------
  // generateLabels as written

  /** As written, a single AST name below the end of the builtins (a type
      name, say) parks the iterator before the loop's first handle: the
      loop relabels nothing and leaves the repository as it was. */
  lemma AsWrittenRelabelsNothing(r: Repo, names: set<YulName>, illegal: set<string>, m: YulName)
    requires Links(r) && r.bounds.endBuiltins <= |r.labels| && forall n :: n in names ==> n < |r.names|
    requires InitialUsed(r, names).Success?
    requires m in names && m < r.bounds.endBuiltins
    ensures GenerateLabelsAsWritten(r, names, illegal) == Success(r)
  {
    WalkStuck(r.bounds.endBuiltins, |r.names|, names);
  }

  /** Hence every derived AST name stays derived, and asking for its label
      afterwards fails labelOf's assertion. */
  lemma AsWrittenLeavesDerived(r: Repo, names: set<YulName>, illegal: set<string>, m: YulName, n: YulName)
    requires Prepared(r, names) && InitialUsed(r, names).Success?
    requires m in names && m < r.bounds.endBuiltins
    requires NeedsLabel(r, names, n)
    ensures GenerateLabelsAsWritten(r, names, illegal).Success?
    ensures LabelOf(GenerateLabelsAsWritten(r, names, illegal).value, n).Failure?
    ensures GenerateLabels(r, names, illegal).Success? && LabelOf(GenerateLabels(r, names, illegal).value, n).Success?
  {
    AsWrittenRelabelsNothing(r, names, illegal, m);
    GenerateLabelsFresh(r, names, illegal, n);
  }
}

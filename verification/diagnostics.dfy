/** Diagnostics as the analyzer records them: a kind and a numeric code
    (the message text is left out), the ErrorWatcher that asks whether an
    error arrived since it was made, and the reporter's ceiling on errors,
    past which it aborts the analysis with a FatalError. The ceiling is a
    parameter: ErrorReporter is not part of this model. */
module Diagnostics {
  import opened Wrappers

  datatype Kind = TypeError | DeclarationError | SyntaxError | Warning

  datatype Diagnostic = Diagnostic(kind: Kind, code: nat)

  predicate IsError(d: Diagnostic) {
    d.kind != Warning
  }

  function ErrorCount(ds: seq<Diagnostic>): (n: nat)
    ensures n <= |ds|
    ensures n == 0 <==> forall i :: 0 <= i < |ds| ==> !IsError(ds[i])
    decreases |ds|
  {
    if |ds| == 0 then 0
    else ErrorCount(ds[..|ds| - 1]) + (if IsError(ds[|ds| - 1]) then 1 else 0)
  }

  /** ErrorWatcher::ok for a watcher made when `mark` diagnostics were
      recorded. */
  predicate NoErrorSince(ds: seq<Diagnostic>, mark: nat) {
    forall i :: mark <= i < |ds| ==> !IsError(ds[i])
  }

  /** Whether a diagnostic with this code was recorded since `mark`. */
  predicate ReportedSince(ds: seq<Diagnostic>, mark: nat, code: nat) {
    exists i :: mark <= i < |ds| && ds[i].code == code
  }

  /** Whether every diagnostic recorded since `mark` has one of these codes. */
  predicate OnlyCodesSince(ds: seq<Diagnostic>, mark: nat, codes: set<nat>) {
    forall i :: mark <= i < |ds| ==> ds[i].code in codes
  }

  /** ErrorReporter::hasError for one code: any diagnostic recorded so far. */
  predicate HasCode(ds: seq<Diagnostic>, code: nat) {
    ReportedSince(ds, 0, code)
  }

  /** Records one diagnostic. An error that takes the count of errors past
      the ceiling aborts instead. */
  function Report(limit: nat, ds: seq<Diagnostic>, d: Diagnostic): (r: Result<seq<Diagnostic>, Stop>)
    ensures r.Success? <==> !IsError(d) || ErrorCount(ds) < limit
    ensures r.Success? ==> r.value == ds + [d]
    ensures r.Failure? ==> r.error == Fatal && IsError(d)
  {
    if IsError(d) && ErrorCount(ds) + 1 > limit then Failure(Fatal) else Success(ds + [d])
  }

  /** Records what someone else raised, one by one. */
  function ReportAll(limit: nat, ds: seq<Diagnostic>, raised: seq<Diagnostic>): (r: Result<seq<Diagnostic>, Stop>)
    ensures r.Success? ==> r.value == ds + raised
    ensures r.Failure? ==> r.error == Fatal
    decreases |raised|
  {
    if |raised| == 0 then Success(ds)
    else
      var ds1 :- Report(limit, ds, raised[0]);
      var rest :- ReportAll(limit, ds1, raised[1..]);
      assert ds + raised == ds1 + raised[1..];
      Success(rest)
  }

  /** A watcher stays happy across a warning and is told about an error. */
  lemma NoErrorSinceAppend(ds: seq<Diagnostic>, mark: nat, d: Diagnostic)
    requires mark <= |ds|
    ensures NoErrorSince(ds + [d], mark) <==> NoErrorSince(ds, mark) && !IsError(d)
  {
    assert (ds + [d])[|ds|] == d;
    assert forall i :: mark <= i < |ds| ==> (ds + [d])[i] == ds[i];
  }

  /** The count of errors adds up over concatenation. */
  lemma {:induction false} ErrorCountAppend(a: seq<Diagnostic>, b: seq<Diagnostic>)
    ensures ErrorCount(a + b) == ErrorCount(a) + ErrorCount(b)
    decreases |b|
  {
    if |b| == 0 {
      assert a + b == a;
    } else {
      ErrorCountAppend(a, b[..|b| - 1]);
      assert (a + b)[..|a + b| - 1] == a + b[..|b| - 1];
      assert (a + b)[|a + b| - 1] == b[|b| - 1];
    }
  }

  /** An abort only ever happens once an error has been counted: the
      ceiling sits at zero or an error is already recorded. */
  lemma FatalAfterError(limit: nat, ds: seq<Diagnostic>, d: Diagnostic)
    requires Report(limit, ds, d).Failure?
    ensures ErrorCount(ds + [d]) > limit && ErrorCount(ds + [d]) > 0
  {
    ErrorCountAppend(ds, [d]);
    assert [d][..0] == [];
  }
}

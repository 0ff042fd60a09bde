/** Iteration order of std::set<std::string> and of the keys of
    std::map<std::string, V>: increasing in the byte-wise lexicographic order
    of strings. The containers themselves are Dafny sets and maps; only the
    order in which a loop visits their elements needs this module. */
module OrderedSets {
  import opened Strings

  ghost predicate StrictlyIncreasing(s: seq<string>) {
    forall i, j :: 0 <= i < j < |s| ==> Less(s[i], s[j])
  }

  predicate IsMinimum(x: string, s: set<string>) {
    x in s && forall y :: y in s && y != x ==> Less(x, y)
  }

  lemma {:induction false} MinimumExists(s: set<string>)
    requires s != {}
    ensures exists x :: IsMinimum(x, s)
    decreases |s|
  {
    var a :| a in s;
    if s != {a} {
      MinimumExists(s - {a});
      var x :| IsMinimum(x, s - {a});
      LessTotal(a, x);
      if Less(a, x) {
        forall y | y in s && y != a ensures Less(a, y) {
          if y != x { LessTransitive(a, x, y); }
        }
        assert IsMinimum(a, s);
      } else {
        assert IsMinimum(x, s);
      }
    } else {
      assert IsMinimum(a, s);
    }
  }

  lemma MinimumUnique(s: set<string>)
    ensures forall x, y :: IsMinimum(x, s) && IsMinimum(y, s) ==> x == y
  {
    forall x, y | IsMinimum(x, s) && IsMinimum(y, s) ensures x == y {
      if x != y { LessAsymmetric(x, y); }
    }
  }

  /** The elements of `s` in the order a range-for over std::set visits them. */
  function SortedElements(s: set<string>): (r: seq<string>)
    ensures StrictlyIncreasing(r)
    ensures |r| == |s|
    ensures forall x :: x in r <==> x in s
    decreases |s|
  {
    if s == {} then []
    else
      MinimumExists(s);
      MinimumUnique(s);
      var x :| IsMinimum(x, s);
      var rest := SortedElements(s - {x});
      assert forall j :: 0 <= j < |rest| ==> Less(x, rest[j]) by {
        forall j | 0 <= j < |rest| ensures Less(x, rest[j]) {
          assert rest[j] in s - {x};
        }
      }
      [x] + rest
  }

  /** A strictly increasing sequence holds each element once. */
  lemma IncreasingDistinct(s: seq<string>)
    requires StrictlyIncreasing(s)
    ensures forall i, j :: 0 <= i < j < |s| ==> s[i] != s[j]
  {
    forall i, j | 0 <= i < j < |s| ensures s[i] != s[j] {
      if s[i] == s[j] { LessIrreflexive(s[i]); }
    }
  }

  /** The empty string, if present, is visited first. */
  lemma EmptyFirst(s: set<string>)
    requires "" in s
    ensures SortedElements(s)[0] == ""
  {
    var r := SortedElements(s);
    forall j | 0 < j < |r| ensures |r[j]| > 0 {
      assert Less(r[0], r[j]);
    }
    assert "" in r;
  }
}

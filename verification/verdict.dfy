/**
  The verdict the harness reaches on `end-all` for one fixture entry
  (test/rules.js, the `end-all` listener). The `expect` assertions throw at
  the first failure, so the verdict is an `Outcome` naming the first
  assertion that failed; errors are checked before warnings, and the
  expected identities in their listed order.
*/
module Verdict {
  import opened Wrappers
  import opened Fixtures
  import Collection

  type Severity = Collection.Severity

  /** The assertion that failed, for findings of the given severity. */
  datatype Mismatch =
    | Unexpected(severity: Severity, count: nat)
    | CountDiffers(severity: Severity, expected: nat, actual: nat)
    | Missing(severity: Severity, key: string)

  /**
    What the harness accepts for one severity: with nothing expected, no
    finding at all; otherwise as many findings as expected, with every
    expected identity among them. Multiplicities are not compared beyond the
    total count.
  */
  predicate Agrees(expected: Option<seq<string>>, actual: seq<string>) {
    match expected
    case None => |actual| == 0
    case Some(e) => |actual| == |e| && forall k :: k in e ==> k in actual
  }

  /**
    The loop over the expected identities: the index of the first one from
    `i` on that is not among the actual findings.
  */
  function FirstMissing(actual: seq<string>, expected: seq<string>, i: nat): (r: Option<nat>)
    requires i <= |expected|
    ensures r.None? ==> forall j :: i <= j < |expected| ==> expected[j] in actual
    ensures r.Some? ==> i <= r.value < |expected| && expected[r.value] !in actual
    ensures r.Some? ==> forall j :: i <= j < r.value ==> expected[j] in actual
    decreases |expected| - i
  {
    if i == |expected| then None
    else if expected[i] !in actual then Some(i)
    else FirstMissing(actual, expected, i + 1)
  }

  /** The assertions about the findings of one severity. */
  function CheckFindings(sev: Severity, expected: Option<seq<string>>, actual: seq<string>)
    : (r: Outcome<Mismatch>)
    ensures r.Pass? <==> Agrees(expected, actual)
    ensures r.Fail? ==> r.error.severity == sev
    ensures r.Fail? && r.error.Unexpected? ==> expected.None? && r.error.count == |actual| > 0
    ensures r.Fail? && r.error.CountDiffers? ==> expected.Some? && |expected.value| != |actual|
    ensures r.Fail? && r.error.Missing? ==>
              expected.Some? && |expected.value| == |actual|
              && r.error.key in expected.value && r.error.key !in actual
  {
    match expected
    case None =>
      if |actual| == 0 then Pass else Fail(Unexpected(sev, |actual|))
    case Some(e) =>
      if |actual| != |e| then Fail(CountDiffers(sev, |e|, |actual|))
      else
        match FirstMissing(actual, e, 0)
        case None => Pass
        case Some(i) => Fail(Missing(sev, e[i]))
  }

  /**
    The verdict on one run. The errors are always checked; the warnings
    only when the entry does not set `ignoreWarnings`, and only once the
    errors have passed.
  */
  function Judge(t: TestCase, errors: seq<string>, warnings: seq<string>): (r: Outcome<Mismatch>)
    ensures r.Pass? <==> Agrees(t.errors, errors) && (t.ignoreWarnings || Agrees(t.warnings, warnings))
    ensures IsPassTest(t) && r.Pass? ==> errors == []
    ensures !Agrees(t.errors, errors) ==> r.Fail? && r.error.severity == Collection.Error
    ensures t.ignoreWarnings && r.Fail? ==> r.error.severity == Collection.Error
  {
    match CheckFindings(Collection.Error, t.errors, errors)
    case Fail(m) => Fail(m)
    case Pass =>
      if t.ignoreWarnings then Pass
      else CheckFindings(Collection.Warning, t.warnings, warnings)
  }

  /** The search for a missing identity looks only at which identities occur, not where. */
  lemma {:induction false} FirstMissingMembershipOnly(a1: seq<string>, a2: seq<string>, e: seq<string>, i: nat)
    requires i <= |e|
    requires forall k :: k in a1 <==> k in a2
    ensures FirstMissing(a1, e, i) == FirstMissing(a2, e, i)
    decreases |e| - i
  {
    if i < |e| {
      FirstMissingMembershipOnly(a1, a2, e, i + 1);
    }
  }

  /**
    The verdict, including which assertion fails, does not depend on the
    order in which findings were collected.
  */
  lemma JudgeOrderIndependent(t: TestCase, e1: seq<string>, e2: seq<string>, w1: seq<string>, w2: seq<string>)
    requires multiset(e1) == multiset(e2)
    requires multiset(w1) == multiset(w2)
    ensures Judge(t, e1, w1) == Judge(t, e2, w2)
  {
    assert |e1| == |multiset(e1)| == |e2|;
    assert |w1| == |multiset(w1)| == |w2|;
    forall k
      ensures (k in e1 <==> k in e2) && (k in w1 <==> k in w2)
    {
      assert k in e1 <==> k in multiset(e1);
      assert k in e2 <==> k in multiset(e2);
      assert k in w1 <==> k in multiset(w1);
      assert k in w2 <==> k in multiset(w2);
    }
    if t.errors.Some? {
      FirstMissingMembershipOnly(e1, e2, t.errors.value, 0);
    }
    if t.warnings.Some? {
      FirstMissingMembershipOnly(w1, w2, t.warnings.value, 0);
    }
  }

  /**
    Delivering the same events in another order (concurrent rules report in
    no fixed order) leads to the same verdict.
  */
  lemma VerdictIndependentOfDeliveryOrder(t: TestCase, ev1: seq<Collection.Event>, ev2: seq<Collection.Event>)
    requires multiset(ev1) == multiset(ev2)
    ensures Judge(t, Collection.CollectAll(ev1).errors, Collection.CollectAll(ev1).warnings)
         == Judge(t, Collection.CollectAll(ev2).errors, Collection.CollectAll(ev2).warnings)
  {
    Collection.CollectOrderIndependent(ev1, ev2);
    JudgeOrderIndependent(t, Collection.CollectAll(ev1).errors, Collection.CollectAll(ev2).errors,
                          Collection.CollectAll(ev1).warnings, Collection.CollectAll(ev2).warnings);
  }

  /** Findings that are exactly the expected ones, in any order, pass. */
  lemma ExactFindingsPass(sev: Severity, expected: seq<string>, actual: seq<string>)
    requires multiset(actual) == multiset(expected)
    ensures CheckFindings(sev, Some(expected), actual).Pass?
  {
    assert |actual| == |multiset(actual)| == |expected|;
    forall k | k in expected
      ensures k in actual
    {
      assert k in multiset(expected);
    }
  }

  /**
    The count-plus-containment check is weaker than multiset equality: the
    two identical `not-same-folder` errors the linkchecker fixture expects
    are matched by one such error and one unrelated error.
  */
  lemma DuplicateExpectationsUnderchecked()
    ensures var expected := ["links.linkchecker.not-same-folder", "links.linkchecker.not-same-folder"];
            var actual := ["links.linkchecker.not-same-folder", "links.linkchecker.response-error"];
            && CheckFindings(Collection.Error, Some(expected), actual).Pass?
            && multiset(actual) != multiset(expected)
  {
  }

  /**
    A fail test whose `errors` list is empty reaches the same pass/fail
    verdict as a pass test; only the name of the failed assertion differs.
  */
  lemma EmptyErrorListLikeNone(t: TestCase, errors: seq<string>, warnings: seq<string>)
    ensures Judge(t.(errors := Some([])), errors, warnings).Pass?
        <==> Judge(t.(errors := None), errors, warnings).Pass?
  {
  }
}

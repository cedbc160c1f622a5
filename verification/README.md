# Specberus rule-test harness: a Dafny model

Specberus checks published W3C specification documents against a set of
conformance rules. Each rule reports findings (errors and warnings) to an
event sink. Its rule test harness, `test/rules.js`, runs one rule at a time
against a fixture document. It collects the findings the rule reports. Then
it decides whether they match the fixture entry's expectations. It also
compares extracted document metadata against expected values.

This project models the deterministic logic of that harness:

- `EquivalentArrays` (`equivalent_arrays.dfy`): `equivalentArray`, the
  nested-loop list comparison used for editor names, editor IDs and
  deliverer IDs. It is modelled imperatively, with its loop invariants.
- `FindingKeys` (`finding_keys.dfy`): finding identities `category.rule.key`,
  built as the rule name, a dot and the key. A split at the last dot is the
  inverse. A report without a key is rendered with the text `undefined`, as
  the template literal does; the `sotd.pp.undefined` fixtures
  (test/rules.js:755, 844) expect such identities.
- `Collection` (`collection.dfy`): the `err`, `warning`, `done` and
  `exception` listeners, as a fold over a finished event trace.
- `Fixtures` (`fixtures.dfy`): one fixture-table entry, and the pass/fail
  classification of an entry.
- `Verdict` (`verdict.dfy`): the `end-all` verdict. Errors are checked
  first, then warnings unless `ignoreWarnings` is set.
- `RunOptions` (`run_options.dfy`): the options object handed to
  `validate`. It holds a synthetic profile, the sink, exactly one of `url`
  and `file`, then the entry's `options` written over it.
- `Metadata` (`metadata.dfy`): the list checks and the optional-property
  rule of `compareMetadata`.
- `Wrappers` (`wrappers.dfy`): `Option`, `Result` and `Outcome`.

JavaScript truthiness is modelled where it decides a branch. An empty `url`
string is falsy, so such an entry uses the `file` branch. An empty `errors`
array is truthy, so `errors: []` makes a "fail" test.

## Divergences

- The doc comment of `equivalentArray` (test/rules.js:28) says it checks
  that both arrays hold "exactly the same integers". The code checks only
  equal length and that every element of the first array occurs somewhere in
  the second, so multiplicities are not compared. The model follows the code.
  `EquivalentArrays.MultiplicityIgnored` shows `[x, x]` accepted against
  `[x, y]`. `EquivalentArrays.NotSymmetric` shows the comparison is not
  symmetric.
- Fixture entries expect the same identity twice: two
  `links.linkchecker.not-same-folder` errors (test/rules.js:524-527) and two
  `headers.h2-status.bad-h2` errors (test/rules.js:412-415). So repeated
  findings are meant to count. The verdict compares only the count of
  findings and the membership of each expected identity.
  So repeated expected identities are not fully checked. The model follows
  the code, and `Verdict.DuplicateExpectationsUnderchecked` gives an example
  built from the linkchecker fixture.

## Model

| member | source | states |
|---|---|---|
| EquivalentArrays.EquivalentArray | test/rules.js:31-45 | The nested loop returns true exactly when both arrays are present, have equal length, and every element of the first occurs in the second. A missing array or a length difference always gives false. Loop invariant: after index `i`, `found` is at most `i + 1`, and it equals `i + 1` only while the whole prefix is matched. |
| EquivalentArrays.Reflexive | test/rules.js:31-45 | Any present array is accepted against itself. |
| EquivalentArrays.Transitive | test/rules.js:31-45 | If `a` is accepted against `b` and `b` against `c`, then `a` is accepted against `c`. |
| EquivalentArrays.SameMultisetAccepted | test/rules.js:22-45 | Two arrays holding the same elements with the same multiplicities are accepted, which is the promise of the doc comment. |
| EquivalentArrays.MultiplicityIgnored | test/rules.js:22-45 | The converse of the doc comment's promise fails: `[x, x]` is accepted against `[x, y]` although their multisets differ. |
| EquivalentArrays.NotSymmetric | test/rules.js:31-45 | `[x, y]` is rejected against `[x, x]` although the reverse is accepted. |
| FindingKeys.FindingKey | test/rules.js:1153-1158 | The identity is the rule's name, a dot, then the key's text. A missing key is rendered as `undefined`. |
| FindingKeys.SplitJoin | test/rules.js:1153 | Splitting an identity at its last dot gives back the rule name and the key's text, when that text holds no dot. |
| FindingKeys.JoinSplit | test/rules.js:1157 | Every identity that splits is rebuilt by joining its parts, and its key part holds no dot. |
| FindingKeys.FindingKeyInjective | test/rules.js:1153-1158 | Findings whose key texts hold no dot share an identity only if they have the same rule name and the same key. The one exception is a missing key against the key `undefined`. |
| FindingKeys.MissingKeyCollides | test/rules.js:753-755 | A report with no key and a report with the key `undefined` get the same identity, e.g. `sotd.pp.undefined`. |
| Collection.Record | test/rules.js:1151-1164 | An error report appends its identity to `errors` and a warning report appends it to `warnings`. A `done` event adds one to `done`. Nothing else changes, so an `exception` event changes nothing. |
| Collection.CollectAll | test/rules.js:1151-1169 | After a trace of events, `errors` holds the identities of exactly the error reports in delivery order, `warnings` those of the warning reports, and `done` counts the completion events. Exceptions leave the lists unchanged. |
| Collection.KeysPermutation | test/rules.js:1151-1160 | A reordered trace yields a permutation of each list of identities. |
| Collection.CollectOrderIndependent | test/rules.js:1151-1160 | Collecting a reordered trace yields the same multisets of errors and warnings. |
| Verdict.FirstMissing | test/rules.js:1181-1188 | The loop over expected identities finds the first one missing from the actual findings, with all earlier ones present. It finds none exactly when all are present. |
| Verdict.CheckFindings | test/rules.js:1174-1208 | The checks for one severity pass exactly when nothing is expected and nothing was found, or when the counts are equal and every expected identity was found. A failure names the failed assertion: unexpected findings, a count difference, or an identity expected but not found. |
| Verdict.Judge | test/rules.js:1144-1209 | The run passes exactly when the errors agree and, unless `ignoreWarnings` is set, the warnings agree. A pass test that passes had no errors. Errors are checked first. With `ignoreWarnings` set, only an error assertion can fail. |
| Verdict.FirstMissingMembershipOnly | test/rules.js:1181-1188 | The search for a missing identity gives the same answer for any two actual lists in which the same identities occur, whatever their order or multiplicity. |
| Verdict.JudgeOrderIndependent | test/rules.js:1174-1209 | The verdict, including the failed assertion, does not depend on the order of the collected findings. |
| Verdict.VerdictIndependentOfDeliveryOrder | test/rules.js:1151-1209 | Delivering the same events in another order leads to the same verdict. |
| Verdict.ExactFindingsPass | test/rules.js:1177-1188 | Findings equal to the expected ones as a multiset, in any order, pass. |
| Verdict.DuplicateExpectationsUnderchecked | test/rules.js:1177-1188 | Two expected `not-same-folder` errors are satisfied by one such error plus an unrelated one. Count plus containment is weaker than multiset equality. |
| Verdict.EmptyErrorListLikeNone | test/rules.js:1144 | An entry with `errors: []` is a fail test, but it passes or fails exactly when the same entry without `errors` would. |
| RunOptions.BaseOptions | test/rules.js:1215-1233 | Before overrides, the options hold the synthetic profile of the rule under test, the sink and exactly one source. The source is `url`, set to the fixture address followed by `/docs/` and the entry's `url`, when that `url` is truthy. Otherwise it is `file`, the path joined from the test directory, `docs` and the entry's `doc`. Building fails when neither a truthy `url` nor a `doc` is given. |
| RunOptions.Overwrite | test/rules.js:1235-1236 | Whatever the enumeration order, every overridden field holds the entry's value, every other field is unchanged, and no other field appears. |
| RunOptions.AssembleOptions | test/rules.js:1215-1236 | The final options hold every property of `options` as given. Unless overridden, the profile is named `Synthetic category/rule`, runs only the rule under test and carries the entry's `config`. If `options` touches neither `url` nor `file`, exactly one of them is present, and it is `url` exactly when the entry's `url` is truthy. The `url` is `http://localhost:` with the `PORT` variable when it is set and non-empty, else port 8001 (lines 6-9), then `/docs/` and the entry's `url`. The `file` is `dirname/docs/doc`. |
| Metadata.CompareMetadata | test/rules.js:94-132 | The list and optional-property assertions pass exactly when the three lists are accepted by `equivalentArray` and every optional property agrees. A failure names the first list that is rejected, in source order, or an optional property the expected object declares with a different or missing value. |
| Metadata.UndeclaredNotCompared | test/rules.js:117-132 | Setting or removing an optional property in the metadata does not affect the comparison when the expected object does not declare it. |
| Metadata.NonOptionalIgnored | test/rules.js:117-124 | An expected property outside the six optional names plays no part in the optional-property comparison. |

## Left out

- The fixture HTTP server and its redirect routes: network I/O. Only the
  address built from `PORT` is modelled, as a parameter of
  `RunOptions.AssembleOptions`.
- The Mocha `describe`/`it` scaffolding, the `done` callbacks and the
  dynamic `require` of rule modules. A loaded rule is represented by its
  `category`/`rule` pair (`RunOptions.RuleRef`).
- `lib/validator` and `lib/sink`, and the rule implementations, are not
  part of this model. The sink's `errors`, `warnings` and `done` fields are
  taken to start empty and at zero. The events a run delivers are an input
  trace. Their concurrent production and the single `end-all` signal are not
  modelled.
- The `DEBUG` logging and the `exception` listener's console output, which
  do not affect the verdict.
- The fixture table's entries, which are data. One entry (the linkchecker
  fixture) is used as a concrete example in
  `Verdict.DuplicateExpectationsUnderchecked`.
- Metadata.CompareMetadata: does not model the scalar `chai` equality
  assertions of `compareMetadata` (profile, title, dates and version URLs
  before the lists, `informative` and `rectrack` at test/rules.js:109-116
  after them), nor loading the metadata fixtures. Its pass condition covers
  only the list checks and the optional-property rule.
- RunOptions.AssembleOptions and RunOptions.BaseOptions: the file path is `dirname/docs/doc` joined with
  plain slashes. The normalisation done by `path.join` is not modelled.
- JavaScript numbers in fixture values are modelled as integers
  (`Fixtures.Value.Num`). No fixture value the harness compares is
  fractional.

/**
  One entry of the harness's fixture table (`tests[category][rule][n]` in
  test/rules.js): the document to validate, the run configuration, extra
  options, and the findings the run is expected to produce.
*/
module Fixtures {
  import opened Wrappers

  /** A JavaScript value as it appears in a fixture's `config` or `options` object. */
  datatype Value = Str(s: string) | Bool(b: bool) | Num(n: int)

  /**
    A fixture entry. A missing property is `None`; a missing `options`
    object is the empty map, since a `for..in` over `undefined` visits
    nothing. `ignoreWarnings` is the truthiness of that property.
  */
  datatype TestCase = TestCase(
    doc: Option<string>,
    url: Option<string>,
    config: Option<map<string, Value>>,
    options: map<string, Value>,
    errors: Option<seq<string>>,
    warnings: Option<seq<string>>,
    ignoreWarnings: bool)

  /**
    A "pass" test is one without an `errors` property. An `errors: []`
    entry is a "fail" test, since an empty array is truthy.
  */
  predicate IsPassTest(t: TestCase) {
    t.errors.None?
  }
}

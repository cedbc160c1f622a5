/**
  The metadata comparison of the harness (`compareMetadata` in
  test/rules.js) for the parts that are more than a plain equality: the
  three identifier lists compared with `equivalentArray`, and the optional
  properties compared only when the expected object declares them.
*/
module Metadata {
  import opened Wrappers
  import opened Fixtures
  import EquivalentArrays

  /** The properties a document declares only when it has them, in the order they are checked. */
  const OptionalProperties: seq<string> :=
    ["process", "editorsDraft", "implementationFeedbackDue", "prReviewsDue", "implementationReport", "errata"]

  /**
    The facts compared: the three identifier lists (`None` when the property
    is missing) and the other own properties by name. Both the extracted
    metadata and the expected object have this shape.
  */
  datatype Facts = Facts(
    editorNames: Option<seq<Value>>,
    delivererIDs: Option<seq<Value>>,
    editorIDs: Option<seq<Value>>,
    properties: map<string, Value>)

  /** The first assertion of the comparison that failed. */
  datatype MetaMismatch = EditorNames | DelivererIDs | EditorIDs | OptionalProperty(name: string)

  /**
    Property `p` agrees when the expected object does not declare it, or the
    metadata holds it with the same value.
  */
  predicate PropertyAgrees(meta: Facts, expected: Facts, p: string) {
    p in expected.properties ==> p in meta.properties && meta.properties[p] == expected.properties[p]
  }

  /** Every optional property agrees. */
  predicate OptionalAgree(meta: Facts, expected: Facts) {
    forall i :: 0 <= i < |OptionalProperties| ==> PropertyAgrees(meta, expected, OptionalProperties[i])
  }

  /** The lists are accepted by `equivalentArray`, each found list against its expected one. */
  ghost predicate ListsAgree(meta: Facts, expected: Facts) {
    && EquivalentArrays.Accepts(meta.editorNames, expected.editorNames)
    && EquivalentArrays.Accepts(meta.delivererIDs, expected.delivererIDs)
    && EquivalentArrays.Accepts(meta.editorIDs, expected.editorIDs)
  }

  /**
    The list assertions in source order (editor names, deliverer IDs, editor
    IDs), then the `forEach` over the optional properties; the first failure
    is reported.
  */
  method CompareMetadata(meta: Facts, expected: Facts) returns (r: Outcome<MetaMismatch>)
    ensures r.Pass? <==> ListsAgree(meta, expected) && OptionalAgree(meta, expected)
    ensures r == Fail(EditorNames) <==> !EquivalentArrays.Accepts(meta.editorNames, expected.editorNames)
    ensures r == Fail(DelivererIDs) <==>
              && EquivalentArrays.Accepts(meta.editorNames, expected.editorNames)
              && !EquivalentArrays.Accepts(meta.delivererIDs, expected.delivererIDs)
    ensures r == Fail(EditorIDs) <==>
              && EquivalentArrays.Accepts(meta.editorNames, expected.editorNames)
              && EquivalentArrays.Accepts(meta.delivererIDs, expected.delivererIDs)
              && !EquivalentArrays.Accepts(meta.editorIDs, expected.editorIDs)
    ensures r.Fail? && r.error.OptionalProperty? ==>
              && ListsAgree(meta, expected)
              && r.error.name in OptionalProperties
              && r.error.name in expected.properties
              && !PropertyAgrees(meta, expected, r.error.name)
  {
    var ok := EquivalentArrays.EquivalentArray(meta.editorNames, expected.editorNames);
    if !ok {
      return Fail(EditorNames);
    }
    ok := EquivalentArrays.EquivalentArray(meta.delivererIDs, expected.delivererIDs);
    if !ok {
      return Fail(DelivererIDs);
    }
    ok := EquivalentArrays.EquivalentArray(meta.editorIDs, expected.editorIDs);
    if !ok {
      return Fail(EditorIDs);
    }
    for i := 0 to |OptionalProperties|
      invariant forall j :: 0 <= j < i ==> PropertyAgrees(meta, expected, OptionalProperties[j])
    {
      var p := OptionalProperties[i];
      if p in expected.properties && (p !in meta.properties || meta.properties[p] != expected.properties[p]) {
        return Fail(OptionalProperty(p));
      }
    }
    return Pass;
  }

  /** An optional property the expected object does not declare is never compared. */
  lemma UndeclaredNotCompared(meta: Facts, expected: Facts, p: string, v: Value)
    requires p !in expected.properties
    ensures OptionalAgree(meta.(properties := meta.properties[p := v]), expected)
        <==> OptionalAgree(meta, expected)
    ensures OptionalAgree(meta.(properties := meta.properties - {p}), expected)
        <==> OptionalAgree(meta, expected)
  {
  }

  /** An expected property outside the optional list plays no part in the comparison. */
  lemma NonOptionalIgnored(meta: Facts, expected: Facts, p: string, v: Value)
    requires p !in OptionalProperties
    ensures OptionalAgree(meta, expected.(properties := expected.properties[p := v]))
        <==> OptionalAgree(meta, expected)
  {
  }
}

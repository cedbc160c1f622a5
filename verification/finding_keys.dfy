/**
  Finding identities. The harness records each finding a rule reports as the
  string `type.name + "." + data.key`, where `type.name` is the rule's own
  name (`category.rule`, e.g. `headers.dl`) and `data.key` the rule's short
  key (e.g. `not-found`), giving `headers.dl.not-found`. The identity is a
  template literal, so a report without a key is recorded with the text
  `undefined` in the key's place, the same text a key spelt `undefined`
  gives.
*/
module FindingKeys {
  import opened Wrappers

  /** The text a template literal renders for an optional key: `undefined` when it is missing. */
  function KeyText(key: Option<string>): string {
    match key
    case Some(k) => k
    case None => "undefined"
  }

  /**
    The identity recorded for a finding with key `key` (`None` when the
    report carries none) reported by rule `ruleName`.
  */
  function FindingKey(ruleName: string, key: Option<string>): (id: string)
    ensures |id| == |ruleName| + 1 + |KeyText(key)|
    ensures id[..|ruleName|] == ruleName
    ensures id[|ruleName|] == '.'
    ensures id[|ruleName| + 1..] == KeyText(key)
    ensures key.None? ==> id[|ruleName| + 1..] == "undefined"
  {
    ruleName + "." + KeyText(key)
  }

  /** The position of the last occurrence of `c` in `s`, if any. */
  function LastIndexOf(s: string, c: char): (r: Option<nat>)
    ensures r.None? <==> c !in s
    ensures r.Some? ==> r.value < |s| && s[r.value] == c && c !in s[r.value + 1..]
  {
    if |s| == 0 then None
    else if s[|s| - 1] == c then Some(|s| - 1)
    else
      var r := LastIndexOf(s[..|s| - 1], c);
      assert s == s[..|s| - 1] + [s[|s| - 1]];
      if r.Some? then
        assert s[r.value + 1..] == s[..|s| - 1][r.value + 1..] + [s[|s| - 1]];
        r
      else r
  }

  /**
    Splits an identity back into rule name and key at its last dot; an
    identity without a dot has no such split.
  */
  function SplitKey(id: string): Option<(string, string)> {
    match LastIndexOf(id, '.')
    case None => None
    case Some(i) => Some((id[..i], id[i + 1..]))
  }

  /** A key text without a dot is recovered, together with the rule name, from the identity. */
  lemma SplitJoin(ruleName: string, key: Option<string>)
    requires '.' !in KeyText(key)
    ensures SplitKey(FindingKey(ruleName, key)) == Some((ruleName, KeyText(key)))
  {
  }

  /** Every identity that splits is rebuilt by joining its parts, and its key holds no dot. */
  lemma JoinSplit(id: string, ruleName: string, key: string)
    requires SplitKey(id) == Some((ruleName, key))
    ensures FindingKey(ruleName, Some(key)) == id
    ensures '.' !in key
  {
  }

  /**
    Findings whose key texts hold no dot share an identity only when they
    come from the same rule and have the same key, except that a missing key
    and the key `undefined` are indistinguishable.
  */
  lemma FindingKeyInjective(n1: string, k1: Option<string>, n2: string, k2: Option<string>)
    requires '.' !in KeyText(k1) && '.' !in KeyText(k2)
    requires FindingKey(n1, k1) == FindingKey(n2, k2)
    ensures n1 == n2
    ensures k1 == k2 || (k1.None? && k2 == Some("undefined")) || (k2.None? && k1 == Some("undefined"))
  {
  }

  /** A report without a key and one with the key `undefined` get the same identity. */
  lemma MissingKeyCollides(ruleName: string)
    ensures FindingKey(ruleName, None) == FindingKey(ruleName, Some("undefined"))
    ensures FindingKey("sotd.pp", None) == "sotd.pp.undefined"
  {
  }
}

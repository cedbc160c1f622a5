/**
  How the harness assembles the options object it passes to `validate` for
  one fixture entry (test/rules.js, end of the `it` callback): a synthetic
  profile running the one rule under test, the event sink, exactly one
  document source (`url` when the entry names one, `file` otherwise), and
  finally every property of the entry's `options`, overwriting same-named
  fields.
*/
module RunOptions {
  import opened Wrappers
  import opened Fixtures

  /** The rule module loaded from `lib/rules/<category>/<rule>`. */
  datatype RuleRef = RuleRef(category: string, rule: string)

  /** The profile handed to the validator. */
  datatype Profile = Profile(name: string, rules: seq<RuleRef>, config: Option<map<string, Value>>)

  /** A field of the options object: the profile, the event sink, or a plain value. */
  datatype Field = ProfileField(profile: Profile) | Events | Plain(value: Value)

  /** The options object, by property name. */
  type Options = map<string, Field>

  /** Why no options object could be built. */
  datatype AssemblyError =
    /** Neither a truthy `url` nor a `doc`: joining the file path rejects `undefined`. */
    | NoDocument

  /** The port used when the environment does not set one. */
  const DefaultPort: string := "8001"

  /** JavaScript truthiness of an optional string: missing and empty are both falsy. */
  predicate Truthy(s: Option<string>) {
    s.Some? && s.value != ""
  }

  /** The fixture server's base address, from the `PORT` environment variable if it is set. */
  function Endpoint(envPort: Option<string>): string {
    "http://localhost:" + (if Truthy(envPort) then envPort.value else DefaultPort)
  }

  /** `path.join` of three segments, without its normalisation of `.`, `..` and repeated slashes. */
  function JoinPath(a: string, b: string, c: string): string {
    a + "/" + b + "/" + c
  }

  /** The profile that runs only the rule under test, with the entry's `config`. */
  function SyntheticProfile(category: string, rule: string, t: TestCase): Profile {
    Profile("Synthetic " + category + "/" + rule, [RuleRef(category, rule)], t.config)
  }

  /** The fields set before the entry's `options` are applied. */
  function BaseOptions(category: string, rule: string, t: TestCase, envPort: Option<string>, dirname: string)
    : (r: Result<Options, AssemblyError>)
    ensures r.Success? <==> Truthy(t.url) || t.doc.Some?
    ensures r.Success? ==> ("url" in r.value <==> Truthy(t.url))
    ensures r.Success? ==> ("url" in r.value <==> "file" !in r.value)
    ensures r.Success? ==> r.value.Keys == {"profile", "events", if Truthy(t.url) then "url" else "file"}
    ensures r.Success? ==> r.value["profile"] == ProfileField(SyntheticProfile(category, rule, t))
    ensures r.Success? ==> r.value["events"] == Events
    ensures r.Success? && Truthy(t.url) ==>
              r.value["url"] == Plain(Str(Endpoint(envPort) + "/docs/" + t.url.value))
    ensures r.Success? && !Truthy(t.url) ==>
              r.value["file"] == Plain(Str(JoinPath(dirname, "docs", t.doc.value)))
  {
    var base := map["profile" := ProfileField(SyntheticProfile(category, rule, t)), "events" := Events];
    if Truthy(t.url) then
      Success(base["url" := Plain(Str(Endpoint(envPort) + "/docs/" + t.url.value))])
    else if t.doc.Some? then
      Success(base["file" := Plain(Str(JoinPath(dirname, "docs", t.doc.value)))])
    else
      Failure(NoDocument)
  }

  /** The result of applying `overrides` to `options`, later writes winning. */
  function Overwritten(options: Options, overrides: map<string, Value>): Options {
    options + map k | k in overrides :: Plain(overrides[k])
  }

  /**
    The `for..in` loop over the entry's `options`, visiting its keys in
    `order` (JavaScript's enumeration order). Whatever that order, the
    result is `Overwritten(options, overrides)`: every overridden field holds
    its new value and every other field is untouched.
  */
  method Overwrite(options: Options, overrides: map<string, Value>, order: seq<string>) returns (r: Options)
    requires forall k :: k in overrides ==> k in order
    requires forall i :: 0 <= i < |order| ==> order[i] in overrides
    ensures r == Overwritten(options, overrides)
    ensures r.Keys == options.Keys + overrides.Keys
    ensures forall k :: k in overrides ==> r[k] == Plain(overrides[k])
    ensures forall k :: k in options && k !in overrides ==> r[k] == options[k]
  {
    r := options;
    for n := 0 to |order|
      invariant forall k :: k in r <==> k in options || k in order[..n]
      invariant forall k :: k in order[..n] ==> r[k] == Plain(overrides[k])
      invariant forall k :: k in options && k !in order[..n] ==> r[k] == options[k]
    {
      assert order[..n + 1] == order[..n] + [order[n]];
      r := r[order[n] := Plain(overrides[order[n]])];
    }
    assert order[..|order|] == order;
  }

  /**
    The whole assembly for the fixture entry `t` of rule `category/rule`,
    visiting `t.options` in `order`.
  */
  method AssembleOptions(category: string, rule: string, t: TestCase, envPort: Option<string>,
                         dirname: string, order: seq<string>)
    returns (r: Result<Options, AssemblyError>)
    requires forall k :: k in t.options ==> k in order
    requires forall i :: 0 <= i < |order| ==> order[i] in t.options
    ensures r.Success? <==> Truthy(t.url) || t.doc.Some?
    ensures r.Success? ==>
              r.value.Keys == {"profile", "events", if Truthy(t.url) then "url" else "file"} + t.options.Keys
    ensures r.Success? ==> forall k :: k in t.options ==> r.value[k] == Plain(t.options[k])
    ensures r.Success? && "url" !in t.options && "file" !in t.options ==>
              ("url" in r.value <==> Truthy(t.url)) && ("url" in r.value <==> "file" !in r.value)
    ensures r.Success? && "url" !in t.options && Truthy(t.url) && Truthy(envPort) ==>
              r.value["url"] == Plain(Str("http://localhost:" + envPort.value + "/docs/" + t.url.value))
    ensures r.Success? && "url" !in t.options && Truthy(t.url) && !Truthy(envPort) ==>
              r.value["url"] == Plain(Str("http://localhost:8001/docs/" + t.url.value))
    ensures r.Success? && "file" !in t.options && !Truthy(t.url) ==>
              r.value["file"] == Plain(Str(dirname + "/docs/" + t.doc.value))
    ensures r.Success? && "profile" !in t.options ==>
              r.value["profile"].ProfileField?
              && r.value["profile"].profile.name == "Synthetic " + category + "/" + rule
              && r.value["profile"].profile.rules == [RuleRef(category, rule)]
              && r.value["profile"].profile.config == t.config
    ensures r.Success? && "events" !in t.options ==> r.value["events"] == Events
  {
    var base := BaseOptions(category, rule, t, envPort, dirname);
    if base.Failure? {
      return base;
    }
    var opts := Overwrite(base.value, t.options, order);
    if Truthy(t.url) && !Truthy(envPort) {
      assert Endpoint(envPort) + "/docs/" + t.url.value == "http://localhost:8001/docs/" + t.url.value;
    } else if !Truthy(t.url) {
      assert JoinPath(dirname, "docs", t.doc.value) == dirname + "/docs/" + t.doc.value;
    }
    return Success(opts);
  }
}

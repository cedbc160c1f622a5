/**
  The listeners the harness registers on the event sink of one rule run
  (test/rules.js, the `handler.on(...)` calls). An `err` or `warning` event
  appends the finding identity to `handler.errors` or `handler.warnings`; a
  `done` event increments `handler.done`; an `exception` event is only
  logged. Events are taken as a finished trace: the concurrent delivery that
  produces the trace belongs to the sink and validator, which are not part
  of this model.
*/
module Collection {
  import opened Wrappers
  import opened FindingKeys

  /** The two kinds of findings a rule reports. */
  datatype Severity = Error | Warning

  /** One event delivered to the harness's listeners. */
  datatype Event =
    | Report(severity: Severity, ruleName: string, key: Option<string>)
    | Done
    | Exception(message: string)

  /** The sink fields the listeners write. */
  datatype Collected = Collected(errors: seq<string>, warnings: seq<string>, done: nat)

  /** The sink's fields before any event: both lists empty, no completion seen. */
  const Initial: Collected := Collected([], [], 0)

  /**
    The effect of one listener invocation: a report appends its identity to
    the list of its severity, a completion increments the counter, and
    nothing else changes.
  */
  function Record(c: Collected, e: Event): (r: Collected)
    ensures e.Report? && e.severity == Error ==>
              r.errors == c.errors + [FindingKey(e.ruleName, e.key)]
    ensures e.Report? && e.severity == Warning ==>
              r.warnings == c.warnings + [FindingKey(e.ruleName, e.key)]
    ensures !(e.Report? && e.severity == Error) ==> r.errors == c.errors
    ensures !(e.Report? && e.severity == Warning) ==> r.warnings == c.warnings
    ensures r.done == c.done + (if e.Done? then 1 else 0)
  {
    match e
    case Report(Error, n, k) => c.(errors := c.errors + [FindingKey(n, k)])
    case Report(Warning, n, k) => c.(warnings := c.warnings + [FindingKey(n, k)])
    case Done => c.(done := c.done + 1)
    case Exception(_) => c
  }

  /** The identity an event contributes to the list of severity `sev`: one for a report of that severity. */
  function KeyOf(e: Event, sev: Severity): seq<string> {
    if e.Report? && e.severity == sev then [FindingKey(e.ruleName, e.key)] else []
  }

  /** The identities of the findings of severity `sev` in a trace, in trace order. */
  function Keys(events: seq<Event>, sev: Severity): seq<string> {
    if |events| == 0 then [] else KeyOf(events[0], sev) + Keys(events[1..], sev)
  }

  /** The number of `done` events in a trace. */
  function DoneCount(events: seq<Event>): nat {
    if |events| == 0 then 0
    else (if events[0].Done? then 1 else 0) + DoneCount(events[1..])
  }

  lemma {:induction false} KeysAppend(s: seq<Event>, t: seq<Event>, sev: Severity)
    ensures Keys(s + t, sev) == Keys(s, sev) + Keys(t, sev)
    decreases |s|
  {
    if |s| > 0 {
      assert (s + t)[0] == s[0];
      assert (s + t)[1..] == s[1..] + t;
      KeysAppend(s[1..], t, sev);
      assert Keys(s + t, sev) == KeyOf(s[0], sev) + Keys(s[1..] + t, sev);
    } else {
      assert s + t == t;
    }
  }

  lemma {:induction false} DoneCountAppend(s: seq<Event>, t: seq<Event>)
    ensures DoneCount(s + t) == DoneCount(s) + DoneCount(t)
    decreases |s|
  {
    if |s| > 0 {
      assert (s + t)[1..] == s[1..] + t;
      DoneCountAppend(s[1..], t);
    } else {
      assert s + t == t;
    }
  }

  /**
    The sink fields after the listeners have seen a trace, one event at a
    time. Each list holds exactly the identities of that severity's findings
    in delivery order, and `done` counts the completion events; exceptions
    leave no trace in the result.
  */
  function CollectAll(events: seq<Event>): (c: Collected)
    ensures c.errors == Keys(events, Error)
    ensures c.warnings == Keys(events, Warning)
    ensures c.done == DoneCount(events)
  {
    if |events| == 0 then Initial
    else
      var prefix, last := events[..|events| - 1], events[|events| - 1];
      assert events == prefix + [last];
      KeysAppend(prefix, [last], Error);
      KeysAppend(prefix, [last], Warning);
      DoneCountAppend(prefix, [last]);
      Record(CollectAll(prefix), last)
  }

  /** A sequence is the part before `i`, its element at `i` and the part after. */
  lemma Decompose<T>(s: seq<T>, i: nat)
    requires i < |s|
    ensures s == s[..i] + [s[i]] + s[i + 1..]
  {
  }

  /** Removing the element at `i` removes one occurrence of it from the multiset. */
  lemma RemoveAt<T>(s: seq<T>, i: nat)
    requires i < |s|
    ensures multiset(s[..i] + s[i + 1..]) == multiset(s) - multiset{s[i]}
  {
    Decompose(s, i);
  }

  /** The findings of a trace are those of one chosen event plus those of the rest. */
  lemma KeysRemoveOne(ev: seq<Event>, i: nat, sev: Severity)
    requires i < |ev|
    ensures multiset(Keys(ev, sev))
         == multiset(Keys([ev[i]], sev)) + multiset(Keys(ev[..i] + ev[i + 1..], sev))
  {
    var pre, post := ev[..i], ev[i + 1..];
    Decompose(ev, i);
    assert ev == pre + ([ev[i]] + post);
    KeysAppend(pre, [ev[i]] + post, sev);
    KeysAppend([ev[i]], post, sev);
    KeysAppend(pre, post, sev);
  }

  /**
    In two traces holding the same events, the first event of one occurs
    somewhere in the other, and the traces without those occurrences again
    hold the same events.
  */
  lemma MatchFirst<T>(s1: seq<T>, s2: seq<T>) returns (i: nat)
    requires multiset(s1) == multiset(s2)
    requires |s1| > 0
    ensures i < |s2| && s2[i] == s1[0]
    ensures multiset(s1[..0] + s1[1..]) == multiset(s2[..i] + s2[i + 1..])
  {
    assert s1[0] in multiset(s2);
    i :| 0 <= i < |s2| && s2[i] == s1[0];
    RemoveAt(s1, 0);
    RemoveAt(s2, i);
  }

  /**
    Reordering a trace (as concurrent rules may) permutes each collected
    list but never changes which identities it holds or how often.
  */
  lemma {:induction false} KeysPermutation(ev1: seq<Event>, ev2: seq<Event>, sev: Severity)
    requires multiset(ev1) == multiset(ev2)
    ensures multiset(Keys(ev1, sev)) == multiset(Keys(ev2, sev))
    decreases |ev1|
  {
    if |ev1| == 0 {
      assert |multiset(ev2)| == 0;
      assert ev2 == [];
      assert Keys(ev1, sev) == [] == Keys(ev2, sev);
    } else {
      var i := MatchFirst(ev1, ev2);
      KeysPermutation(ev1[..0] + ev1[1..], ev2[..i] + ev2[i + 1..], sev);
      KeysRemoveOne(ev1, 0, sev);
      KeysRemoveOne(ev2, i, sev);
    }
  }

  /** Collecting a reordered trace yields the same multisets of errors and warnings. */
  lemma CollectOrderIndependent(ev1: seq<Event>, ev2: seq<Event>)
    requires multiset(ev1) == multiset(ev2)
    ensures multiset(CollectAll(ev1).errors) == multiset(CollectAll(ev2).errors)
    ensures multiset(CollectAll(ev1).warnings) == multiset(CollectAll(ev2).warnings)
  {
    KeysPermutation(ev1, ev2, Error);
    KeysPermutation(ev1, ev2, Warning);
  }
}

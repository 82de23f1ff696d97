/**
 What one request gets: which answer leaves in which case, what the cache holds afterwards, and that
 every request is answered once, by the rules it came with whenever the LLM does not answer.
 */
module ClassifierOutcomes {
  import opened Options
  import opened LruCaches
  import LruRecency
  import opened Classifier

  /** A stage before the cache threw. */
  predicate Broken(request: Request) {
    !request.prepared || request.key.None? || request.rules.None?
  }

  /** An unexpired entry of the key. */
  predicate Live(entries: seq<Entry<View>>, key: string, now: real, e: Entry<View>) {
    e in entries && e.key == key && now < e.expiresAt
  }

  ghost predicate Misses(entries: seq<Entry<View>>, key: string, now: real) {
    forall e :: !Live(entries, key, now, e)
  }

  /** Exactly the entries of other keys, in their order. */
  ghost predicate OnlyLost(before: seq<Entry<View>>, after: seq<Entry<View>>, key: string) {
    forall e :: e in after <==> e in before && e.key != key
  }

  /** One more outcome has left. */
  predicate Answers(m: Machine, next: Machine, key: string, view: View, source: Source, failure: Failure) {
    && |next.emitted| == |m.emitted| + 1 && next.emitted[..|m.emitted|] == m.emitted
    && var last := next.emitted[|m.emitted|];
       last.key == key && last.view == view && last.source == source && last.failure == failure
  }

  // -------------------------------------------------------------------------------- the LLM's part

  /** An LLM that fails or throws costs the cache nothing, and the rules answer in its place. */
  lemma FailureLeavesCache(m: Machine, index: nat, result: LlmResult, setAt: real, limit: nat, ttl: real)
    requires index < |m.pending| && !result.Answered?
    ensures var (next, p) := (Step(m, Settle(index, result, setAt), limit, ttl), m.pending[index]);
            && next.entries == m.entries
            && Answers(m, next, p.key, p.rules, Fallback, if result.Threw? then Thrown else LlmFailed)
            && next.pending == m.pending[..index] + m.pending[index + 1..]
  {
  }

  /** An answer that was merged leaves as merged, and the next request of its key in time gets it. */
  lemma MergedIsKept(m: Machine, index: nat, merged: View, setAt: real, limit: nat, ttl: real, at: real)
    requires index < |m.pending| && Distinct(m.entries) && limit >= 1 && at < setAt + ttl
    ensures var (next, p) := (Step(m, Settle(index, Answered(merged), setAt), limit, ttl), m.pending[index]);
            && Answers(m, next, p.key, merged, Merged, NoFailure)
            && Hit(next.entries, p.key, at) == Some(merged)
            && next.pending == m.pending[..index] + m.pending[index + 1..]
  {
    hide Stored, Hit;
    LruRecency.JustStored(m.entries, m.pending[index].key, merged, ttl, setAt, limit, at);
  }

  // ------------------------------------------------------------------------------- the first part

  lemma HitIsLive(entries: seq<Entry<View>>, key: string, now: real)
    requires Distinct(entries)
    ensures Hit(entries, key, now).None? <==> Misses(entries, key, now)
    ensures forall e :: Live(entries, key, now, e) ==> Hit(entries, key, now) == Some(e.value)
  {
    hide Find;
    forall e | Live(entries, key, now, e) ensures Hit(entries, key, now) == Some(e.value) {
      var i :| 0 <= i < |entries| && entries[i] == e;
      FindIs(entries, i);
    }
    var at := Find(entries, key);
    if Hit(entries, key, now).Some? {
      assert Live(entries, key, now, entries[at.value]);
    }
  }

  /** A stage that threw: the rules if they got that far, the closed answer if not; the cache is not asked. */
  lemma BrokenAnswers(m: Machine, request: Request, getAt: real, setAt: real, limit: nat, ttl: real)
    requires Broken(request)
    ensures var next := Step(m, Begin(request, getAt, setAt), limit, ttl);
            && next.entries == m.entries && next.pending == m.pending
            && Answers(m, next, if request.prepared && request.key.Some? then request.key.value else "",
                       if request.prepared && request.rules.Some? then request.rules.value
                       else View(0.0, ["general"], [], 0.0, ByRules, "rules"), Fallback, Thrown)
  {
  }

  /** An unexpired entry answers, marked as cached and otherwise as it was stored. */
  lemma LiveAnswers(m: Machine, request: Request, getAt: real, setAt: real, limit: nat, ttl: real, e: Entry<View>)
    requires !Broken(request) && Distinct(m.entries) && Live(m.entries, request.key.value, getAt, e)
    ensures var next := Step(m, Begin(request, getAt, setAt), limit, ttl);
            && next.pending == m.pending && multiset(next.entries) == multiset(m.entries)
            && Answers(m, next, e.key, e.value.(way := ByCache), FromCache, NoFailure)
  {
    hide Find, Hit, Touched;
    HitIsLive(m.entries, e.key, getAt);
    TouchedPermutes(m.entries, e.key, getAt);
  }

  lemma TouchedPermutes(entries: seq<Entry<View>>, key: string, now: real)
    requires Hit(entries, key, now).Some?
    ensures multiset(Touched(entries, key, now)) == multiset(entries)
  {
    hide Find;
    var at := Find(entries, key).value;
    assert entries == entries[..at] + [entries[at]] + entries[at + 1..];
  }

  lemma MissedEntries(entries: seq<Entry<View>>, key: string, now: real)
    requires Distinct(entries) && Hit(entries, key, now).None?
    ensures Touched(entries, key, now) == Without(entries, key)
    ensures OnlyLost(entries, Without(entries, key), key)
  {
    hide Find;
    var (at, t) := (Find(entries, key), Without(entries, key));
    if at.Some? {
      forall e | e in entries && e.key != key ensures e in t {
        var i :| 0 <= i < |entries| && entries[i] == e;
        assert if i < at.value then t[i] == e else t[i - 1] == e;
      }
    }
  }

  /** A miss with strong flags: the rules answer, and the next request of the key in time gets their answer. */
  lemma StrongAnswers(m: Machine, request: Request, getAt: real, setAt: real, limit: nat, ttl: real, at: real)
    requires !Broken(request) && request.strong && Distinct(m.entries) && Misses(m.entries, request.key.value, getAt)
    requires limit >= 1 && at < setAt + ttl
    ensures var next := Step(m, Begin(request, getAt, setAt), limit, ttl);
            && next.pending == m.pending
            && Answers(m, next, request.key.value, request.rules.value, ShortCircuit, NoFailure)
            && Hit(next.entries, request.key.value, at) == Some(request.rules.value)
  {
    hide Find, Hit, Touched, Stored, Misses;
    var key := request.key.value;
    HitIsLive(m.entries, key, getAt);
    TouchedFrom(m.entries, key, getAt);
    LruRecency.JustStored(Touched(m.entries, key, getAt), key, request.rules.value, ttl, setAt, limit, at);
  }

  /** Any other miss stores nothing: blank text and a missing LLM fall back, everything else waits for the LLM. */
  lemma MissAnswers(m: Machine, request: Request, getAt: real, setAt: real, limit: nat, ttl: real)
    requires !Broken(request) && !request.strong && Distinct(m.entries) && Misses(m.entries, request.key.value, getAt)
    ensures var (next, key, rules) := (Step(m, Begin(request, getAt, setAt), limit, ttl), request.key.value, request.rules.value);
            && OnlyLost(m.entries, next.entries, key)
            && (request.blank ==> Answers(m, next, key, rules, Fallback, EmptyInput))
            && (!request.blank && !request.hasLlm ==> Answers(m, next, key, rules, Fallback, Unavailable))
            && (!request.blank && request.hasLlm ==> next.emitted == m.emitted && next.pending == m.pending + [Pending(key, rules)])
            && (request.blank || !request.hasLlm ==> next.pending == m.pending)
  {
    hide Find, Hit, Touched, Misses, Without, OnlyLost;
    HitIsLive(m.entries, request.key.value, getAt);
    MissedEntries(m.entries, request.key.value, getAt);
  }

  // ---------------------------------------------------------------------------------- whole runs

  function Begun(events: seq<Event>): nat {
    if events == [] then 0
    else Begun(events[..|events| - 1]) + if events[|events| - 1].Begin? then 1 else 0
  }

  /** Every request that has begun was answered once or waits for the LLM. */
  lemma {:induction false} AnsweredOnce(events: seq<Event>, limit: nat, ttl: real)
    ensures var m := Classifier.Run(events, limit, ttl);
            |m.emitted| + |m.pending| == Begun(events)
  {
    if events != [] {
      AnsweredOnce(events[..|events| - 1], limit, ttl);
    }
  }

  /** The rules a request came with, or the closed answer where they did not get that far. */
  function RulesOf(request: Request): View {
    if request.prepared && request.rules.Some? then request.rules.value
    else View(0.0, ["general"], [], 0.0, ByRules, "rules")
  }

  predicate Asked(events: seq<Event>, k: nat, key: string, view: View) {
    && k < |events| && events[k].Begin?
    && KeyOf(events[k].request) == key && RulesOf(events[k].request) == view
  }

  lemma {:induction false} PendingWasAsked(events: seq<Event>, limit: nat, ttl: real, i: nat) returns (k: nat)
    requires i < |Classifier.Run(events, limit, ttl).pending|
    ensures var p := Classifier.Run(events, limit, ttl).pending[i]; Asked(events, k, p.key, p.rules)
  {
    var (init, last) := (events[..|events| - 1], events[|events| - 1]);
    var m := Classifier.Run(init, limit, ttl);
    match last
    case Begin(request, _, _) =>
      if i < |m.pending| {
        k := PendingWasAsked(init, limit, ttl, i);
      } else {
        k := |init|;
      }
    case Settle(index, _, _) =>
      k := PendingWasAsked(init, limit, ttl, if index < |m.pending| && i >= index then i + 1 else i);
  }

  /** Whatever went wrong, and however requests interleave: a fallback is the rules' answer to a request of its key. */
  lemma {:induction false} FallbacksAreRules(events: seq<Event>, limit: nat, ttl: real, i: nat) returns (k: nat)
    requires i < |Classifier.Run(events, limit, ttl).emitted| && Classifier.Run(events, limit, ttl).emitted[i].source == Fallback
    ensures var out := Classifier.Run(events, limit, ttl).emitted[i];
            Asked(events, k, out.key, out.view) && out.failure != NoFailure
  {
    var (init, last) := (events[..|events| - 1], events[|events| - 1]);
    var m := Classifier.Run(init, limit, ttl);
    if i < |m.emitted| {
      k := FallbacksAreRules(init, limit, ttl, i);
    } else if last.Begin? {
      k := |init|;
    } else {
      k := PendingWasAsked(init, limit, ttl, last.index);
    }
  }
}

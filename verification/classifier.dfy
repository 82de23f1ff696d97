/**
 packages/core/src/classify/classify.ts: the flow around the cache. Preparing, hashing, the rules,
 the LLM and the merge are given by what they answered; what is modelled is which answer leaves,
 which one is stored, and that nobody outside ever shares an object with the cache.

 A request runs in two atomic parts, up to the call of the LLM and from its answer on, and the parts
 of different requests interleave freely.
 */
module Classifier {
  import opened Options
  import opened LruCaches

  datatype Way = ByRules | ByLlm | ByCache

  /** What a classification says, apart from the object that says it. */
  datatype View = View(
    intent: real, categories: seq<string>, sensitive: seq<string>, confidence: real, way: Way, prompt: string)

  datatype Source = FromCache | ShortCircuit | Merged | Fallback

  datatype Failure = NoFailure | EmptyInput | Unavailable | LlmFailed | Thrown

  /** An outcome as it left, with the cache key and the time the cache was last asked. */
  datatype Emitted = Emitted(key: string, view: View, source: Source, failure: Failure, at: real)

  /** What the stages before the LLM make of one request; None is a stage that threw. */
  datatype Request = Request(prepared: bool, key: Option<string>, rules: Option<View>, strong: bool, blank: bool, hasLlm: bool)

  /** The LLM's answer already merged with the rules, a failure it reported, or something thrown. */
  datatype LlmResult = Answered(merged: View) | Failed | Threw

  datatype Pending = Pending(key: string, rules: View)

  datatype Event =
    | Begin(request: Request, getAt: real, setAt: real)
    | Settle(index: nat, result: LlmResult, setAt: real)

  datatype Machine = Machine(entries: seq<Entry<View>>, pending: seq<Pending>, emitted: seq<Emitted>)

  const FAIL_CLOSED := View(0.0, ["general"], [], 0.0, ByRules, "rules")

  /** recoverRules. */
  function Recovered(request: Request): View {
    if request.prepared && request.rules.Some? then request.rules.value else FAIL_CLOSED
  }

  /** What the first part does. */
  datatype First =
    | Answer(source: Source, view: View, failure: Failure)
    | AskLlm

  function FirstPart(request: Request, hit: Option<View>): First {
    if !request.prepared || request.key.None? || request.rules.None? then Answer(Fallback, Recovered(request), Thrown)
    else if hit.Some? then Answer(FromCache, hit.value.(way := ByCache), NoFailure)
    else if request.strong then Answer(ShortCircuit, request.rules.value, NoFailure)
    else if request.blank then Answer(Fallback, request.rules.value, EmptyInput)
    else if !request.hasLlm then Answer(Fallback, request.rules.value, Unavailable)
    else AskLlm
  }

  function SecondPart(pending: Pending, result: LlmResult): First {
    match result
    case Answered(merged) => Answer(Merged, merged, NoFailure)
    case Failed => Answer(Fallback, pending.rules, LlmFailed)
    case Threw => Answer(Fallback, pending.rules, Thrown)
  }

  predicate ReachesCache(request: Request) {
    request.prepared && request.key.Some? && request.rules.Some?
  }

  predicate Stores(source: Source) {
    source == Merged || source == ShortCircuit
  }

  function KeyOf(request: Request): string {
    if request.prepared && request.key.Some? then request.key.value else ""
  }

  /** The cache after looking up and, for an answer worth keeping, storing. */
  function Kept(entries: seq<Entry<View>>, key: string, first: First, setAt: real, limit: nat, ttl: real): seq<Entry<View>> {
    if first.Answer? && Stores(first.source) then Stored(entries, key, first.view, Some(ttl), setAt, limit) else entries
  }

  function BeginStep(m: Machine, request: Request, getAt: real, setAt: real, limit: nat, ttl: real): Machine {
    var key := KeyOf(request);
    var asked := ReachesCache(request);
    var first := FirstPart(request, if asked then Hit(m.entries, key, getAt) else None);
    var entries := Kept(if asked then Touched(m.entries, key, getAt) else m.entries, key, first, setAt, limit, ttl);
    match first
    case Answer(source, view, failure) =>
      Machine(entries, m.pending, m.emitted + [Emitted(key, view, source, failure, if source.FromCache? then getAt else setAt)])
    case AskLlm => Machine(entries, m.pending + [Pending(key, if request.rules.Some? then request.rules.value else FAIL_CLOSED)], m.emitted)
  }

  function SettleStep(m: Machine, index: nat, result: LlmResult, setAt: real, limit: nat, ttl: real): Machine {
    if index >= |m.pending| then m
    else
      var p := m.pending[index];
      var first := SecondPart(p, result);
      Machine(Kept(m.entries, p.key, first, setAt, limit, ttl), m.pending[..index] + m.pending[index + 1..],
              m.emitted + [Emitted(p.key, first.view, first.source, first.failure, setAt)])
  }

  function Step(m: Machine, event: Event, limit: nat, ttl: real): Machine {
    match event
    case Begin(request, getAt, setAt) => BeginStep(m, request, getAt, setAt, limit, ttl)
    case Settle(index, result, setAt) => SettleStep(m, index, result, setAt, limit, ttl)
  }

  function Run(events: seq<Event>, limit: nat, ttl: real): Machine {
    if events == [] then Machine([], [], [])
    else Step(Run(events[..|events| - 1], limit, ttl), events[|events| - 1], limit, ttl)
  }

  // ------------------------------------------------------------------------------- faithfulness

  /** The last outcome stored under the key is this view, good until `expiresAt`. */
  ghost predicate LastStoring(emitted: seq<Emitted>, ttl: real, key: string, view: View, expiresAt: real) {
    exists j :: 0 <= j < |emitted| && StoringAt(emitted, ttl, j, key, view, expiresAt)
  }

  predicate StoringAt(emitted: seq<Emitted>, ttl: real, j: nat, key: string, view: View, expiresAt: real)
    requires j < |emitted|
  {
    && Stores(emitted[j].source) && emitted[j].key == key && emitted[j].view == view && expiresAt == emitted[j].at + ttl
    && forall k :: j < k < |emitted| ==> !(Stores(emitted[k].source) && emitted[k].key == key)
  }

  ghost predicate AllStored(m: Machine, ttl: real) {
    Distinct(m.entries) && forall e <- m.entries :: LastStoring(m.emitted, ttl, e.key, e.value, e.expiresAt)
  }

  /** A hit repeats, up to `method`, the last merged or short-circuited outcome of its key, unexpired. */
  ghost predicate FaithfulHit(emitted: seq<Emitted>, i: nat, ttl: real)
    requires i < |emitted|
  {
    emitted[i].source == FromCache ==>
      exists view, expiresAt ::
        && LastStoring(emitted[..i], ttl, emitted[i].key, view, expiresAt)
        && emitted[i].view == view.(way := ByCache) && expiresAt > emitted[i].at
  }

  lemma LaterOutcome(emitted: seq<Emitted>, ttl: real, key: string, view: View, expiresAt: real, next: Emitted)
    requires LastStoring(emitted, ttl, key, view, expiresAt) && !(Stores(next.source) && next.key == key)
    ensures LastStoring(emitted + [next], ttl, key, view, expiresAt)
  {
    var j :| 0 <= j < |emitted| && StoringAt(emitted, ttl, j, key, view, expiresAt);
    assert StoringAt(emitted + [next], ttl, j, key, view, expiresAt);
  }

  lemma StoredFrom(entries: seq<Entry<View>>, key: string, view: View, ttl: real, setAt: real, limit: nat, e: Entry<View>)
    requires Distinct(entries) && e in Stored(entries, key, view, Some(ttl), setAt, limit)
    ensures (e in entries && e.key != key) || e == Entry(key, view, setAt + ttl)
  {
    DistinctWithout(entries, key);
  }

  lemma StoredDistinct(entries: seq<Entry<View>>, key: string, view: View, ttl: real, setAt: real, limit: nat)
    requires Distinct(entries)
    ensures Distinct(Stored(entries, key, view, Some(ttl), setAt, limit))
  {
    DistinctWithout(entries, key);
  }

  lemma TouchedFrom(entries: seq<Entry<View>>, key: string, now: real)
    requires Distinct(entries)
    ensures Distinct(Touched(entries, key, now)) && forall e <- Touched(entries, key, now) :: e in entries
  {
    DistinctWithout(entries, key);
  }

  /** An outcome leaves and, when it is worth keeping, is stored: what was said of the entries stays true. */
  lemma EmitKeeps(entries: seq<Entry<View>>, emitted: seq<Emitted>, ttl: real, key: string, first: First, at: real, setAt: real, limit: nat)
    requires first.Answer? && (Stores(first.source) ==> at == setAt)
    requires Distinct(entries) && forall e <- entries :: LastStoring(emitted, ttl, e.key, e.value, e.expiresAt)
    ensures Distinct(Kept(entries, key, first, setAt, limit, ttl))
    ensures forall e <- Kept(entries, key, first, setAt, limit, ttl) ::
              LastStoring(emitted + [Emitted(key, first.view, first.source, first.failure, at)], ttl, e.key, e.value, e.expiresAt)
  {
    var next := Emitted(key, first.view, first.source, first.failure, at);
    StoredDistinct(entries, key, first.view, ttl, setAt, limit);
    forall e | e in Kept(entries, key, first, setAt, limit, ttl)
      ensures LastStoring(emitted + [next], ttl, e.key, e.value, e.expiresAt)
    {
      if Stores(first.source) {
        StoredFrom(entries, key, first.view, ttl, setAt, limit, e);
      }
      if e in entries && !(Stores(first.source) && e.key == key) {
        LaterOutcome(emitted, ttl, e.key, e.value, e.expiresAt, next);
      } else {
        assert StoringAt(emitted + [next], ttl, |emitted|, e.key, e.value, e.expiresAt);
      }
    }
  }

  lemma StepKeeps(m: Machine, event: Event, limit: nat, ttl: real)
    requires AllStored(m, ttl)
    ensures AllStored(Step(m, event, limit, ttl), ttl)
  {
    match event
    case Begin(request, getAt, setAt) =>
      var (key, asked) := (KeyOf(request), ReachesCache(request));
      var first := FirstPart(request, if asked then Hit(m.entries, key, getAt) else None);
      TouchedFrom(m.entries, key, getAt);
      if first.Answer? {
        EmitKeeps(if asked then Touched(m.entries, key, getAt) else m.entries, m.emitted, ttl, key, first,
                  if first.source.FromCache? then getAt else setAt, setAt, limit);
      }
    case Settle(index, result, setAt) =>
      if index < |m.pending| {
        EmitKeeps(m.entries, m.emitted, ttl, m.pending[index].key, SecondPart(m.pending[index], result), setAt, setAt, limit);
      }
  }

  lemma {:induction false} RunKeeps(events: seq<Event>, limit: nat, ttl: real)
    ensures AllStored(Run(events, limit, ttl), ttl)
  {
    if events != [] {
      RunKeeps(events[..|events| - 1], limit, ttl);
      StepKeeps(Run(events[..|events| - 1], limit, ttl), events[|events| - 1], limit, ttl);
    }
  }

  lemma StepHits(m: Machine, event: Event, limit: nat, ttl: real)
    requires AllStored(m, ttl)
    ensures var next := Step(m, event, limit, ttl).emitted;
            && |m.emitted| <= |next| <= |m.emitted| + 1 && m.emitted == next[..|m.emitted|]
            && (|next| > |m.emitted| ==> FaithfulHit(next, |m.emitted|, ttl))
  {
    if event.Begin? && ReachesCache(event.request) {
      var (key, getAt) := (KeyOf(event.request), event.getAt);
      var at := Find(m.entries, key);
      if Hit(m.entries, key, getAt).Some? {
        var e := m.entries[at.value];
        assert e in m.entries && LastStoring(m.emitted, ttl, key, e.value, e.expiresAt);
      }
    }
  }

  /**
   Over any run, however requests interleave: every outcome served from the cache repeats, up to
   `method`, the latest outcome of its key that was merged or short-circuited, and that one has not
   expired. A fallback is never what a hit repeats.
   */
  lemma {:induction false} CacheIsFaithful(events: seq<Event>, limit: nat, ttl: real, i: nat)
    requires i < |Run(events, limit, ttl).emitted|
    ensures FaithfulHit(Run(events, limit, ttl).emitted, i, ttl)
  {
    var (init, last) := (events[..|events| - 1], events[|events| - 1]);
    var m := Run(init, limit, ttl);
    RunKeeps(init, limit, ttl);
    StepHits(m, last, limit, ttl);
    if i < |m.emitted| {
      CacheIsFaithful(init, limit, ttl, i);
      assert Run(events, limit, ttl).emitted[..i] == m.emitted[..i];
    }
  }
}

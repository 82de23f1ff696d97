/**
 The same flow on the heap: classifications are objects whose arrays a caller may change. What the
 cache holds and what callers hold never share an object, so no caller can change a later hit.
 */
module ClassifierHeap {
  import opened Options
  import opened LruCaches
  import opened Classifier

  /** A JavaScript array of strings. */
  class TagList {
    var items: seq<string>

    constructor (items: seq<string>)
      ensures this.items == items
    {
      this.items := items;
    }
  }

  class Classification {
    var intent: real
    var categories: TagList
    var sensitive: TagList
    var confidence: real
    var way: Way
    var prompt: string

    constructor (view: View)
      ensures Says() == view && fresh(categories) && fresh(sensitive)
    {
      intent, confidence, way, prompt := view.intent, view.confidence, view.way, view.prompt;
      categories := new TagList(view.categories);
      sensitive := new TagList(view.sensitive);
    }

    function Says(): View
      reads this, categories, sensitive
    {
      View(intent, categories.items, sensitive.items, confidence, way, prompt)
    }

    ghost function Footprint(): set<object>
      reads this
    {
      {this, categories, sensitive}
    }
  }

  /** cloneClassification: a new object with new arrays. */
  method Clone(c: Classification) returns (copy: Classification)
    ensures fresh(copy.Footprint()) && copy.Says() == c.Says()
  {
    copy := new Classification(c.Says());
  }

  /** An entry whose object lies within `owned` and says `w`. */
  ghost predicate Mirrored(e: Entry<Classification>, w: Entry<View>, owned: set<object>)
    reads owned
  {
    && e.key == w.key && e.expiresAt == w.expiresAt
    && e.value in owned && e.value.Footprint() <= owned && e.value.Says() == w.value
  }

  /** `v` is `s` with each cached object replaced by what it says. */
  ghost predicate Mirrors(s: seq<Entry<Classification>>, v: seq<Entry<View>>, owned: set<object>)
    reads owned
  {
    if s == [] then v == []
    else v != [] && Mirrored(s[0], v[0], owned) && Mirrors(s[1..], v[1..], owned)
  }

  lemma {:induction false} MirrorsEach(s: seq<Entry<Classification>>, v: seq<Entry<View>>, owned: set<object>)
    requires Mirrors(s, v, owned)
    ensures |s| == |v| && forall i :: 0 <= i < |s| ==> Mirrored(s[i], v[i], owned)
  {
    if s != [] {
      MirrorsEach(s[1..], v[1..], owned);
    }
  }

  lemma {:induction false} MirrorsIf(s: seq<Entry<Classification>>, v: seq<Entry<View>>, owned: set<object>)
    requires |s| == |v| && forall i :: 0 <= i < |s| ==> Mirrored(s[i], v[i], owned)
    ensures Mirrors(s, v, owned)
  {
    if s != [] {
      MirrorsIf(s[1..], v[1..], owned);
    }
  }

  lemma {:induction false} SameKeysSameFind<C, W>(s: seq<Entry<C>>, v: seq<Entry<W>>, key: string)
    requires |s| == |v| && forall i :: 0 <= i < |s| ==> s[i].key == v[i].key
    ensures Find(s, key) == Find(v, key)
  {
    if s != [] {
      SameKeysSameFind(s[1..], v[1..], key);
    }
  }

  lemma MirrorsWithout(s: seq<Entry<Classification>>, v: seq<Entry<View>>, owned: set<object>, key: string)
    requires Mirrors(s, v, owned)
    ensures Mirrors(Without(s, key), Without(v, key), owned)
    ensures |s| == |v| && Find(s, key) == Find(v, key)
    ensures Find(s, key).Some? ==> Mirrored(s[Find(s, key).value], v[Find(s, key).value], owned)
  {
    MirrorsEach(s, v, owned);
    SameKeysSameFind(s, v, key);
    MirrorsIf(Without(s, key), Without(v, key), owned);
  }

  lemma MirrorsPushed(s: seq<Entry<Classification>>, v: seq<Entry<View>>, owned: set<object>, e: Entry<Classification>, w: Entry<View>)
    requires Mirrors(s, v, owned) && Mirrored(e, w, owned)
    ensures Mirrors(s + [e], v + [w], owned)
  {
    MirrorsEach(s, v, owned);
    MirrorsIf(s + [e], v + [w], owned);
  }

  lemma MirrorsNewest(s: seq<Entry<Classification>>, v: seq<Entry<View>>, owned: set<object>, limit: nat)
    requires Mirrors(s, v, owned)
    ensures Mirrors(Newest(s, limit), Newest(v, limit), owned)
  {
    MirrorsEach(s, v, owned);
    MirrorsIf(Newest(s, limit), Newest(v, limit), owned);
  }

  lemma MirrorsTouched(s: seq<Entry<Classification>>, v: seq<Entry<View>>, owned: set<object>, key: string, now: real)
    requires Mirrors(s, v, owned)
    ensures Mirrors(Touched(s, key, now), Touched(v, key, now), owned)
    ensures match Hit(s, key, now)
            case None => Hit(v, key, now).None?
            case Some(c) => c in owned && c.Footprint() <= owned && Hit(v, key, now) == Some(c.Says())
  {
    MirrorsWithout(s, v, owned, key);
    var at := Find(s, key);
    if at.Some? {
      MirrorsPushed(Without(s, key), Without(v, key), owned, s[at.value], v[at.value]);
    }
  }

  lemma MirrorsStored(s: seq<Entry<Classification>>, v: seq<Entry<View>>, owned: set<object>, key: string, c: Classification,
                      life: real, now: real, limit: nat)
    requires Mirrors(s, v, owned) && c in owned && c.Footprint() <= owned
    ensures Mirrors(Stored(s, key, c, Some(life), now, limit), Stored(v, key, c.Says(), Some(life), now, limit), owned)
  {
    hide Mirrors, Find, Without, Newest;
    var (e, w) := (Entry(key, c, now + life), Entry(key, c.Says(), now + life));
    MirrorsWithout(s, v, owned, key);
    assert Mirrored(e, w, owned);
    MirrorsPushed(Without(s, key), Without(v, key), owned, e, w);
    MirrorsNewest(Without(s, key) + [e], Without(v, key) + [w], owned, limit);
  }

  lemma MirrorsMore(s: seq<Entry<Classification>>, v: seq<Entry<View>>, owned: set<object>, more: set<object>)
    requires Mirrors(s, v, owned) && owned <= more
    ensures Mirrors(s, v, more)
  {
    MirrorsEach(s, v, owned);
    MirrorsIf(s, v, more);
  }

  /** What a request is answered with, or that the LLM is still to be asked. */
  datatype Reply = Reply(c: Classification, source: Source, failure: Failure) | Waiting(pending: Pending)

  class ClassifierState {
    const cache: LruCache<Classification>
    /** What the cache holds, as values. */
    ghost var Contents: seq<Entry<View>>
    /** Every object ever cached, and every object a caller ever got. */
    ghost var Owned: set<object>
    ghost var Returned: set<object>

    ghost predicate Valid()
      reads this, cache, Owned
    {
      && this !in Owned && cache !in Owned && this !in Returned && cache !in Returned && Owned !! Returned
      && cache.Valid() && cache.ttl > 0.0
      && Mirrors(cache.entries, Contents, Owned)
    }

    constructor (maxEntries: nat, ttl: real)
      requires maxEntries >= 1 && ttl > 0.0
      ensures Valid() && Contents == [] && Owned == {} && Returned == {} && fresh(cache)
      ensures cache.maxEntries == maxEntries && cache.ttl == ttl
    {
      cache := new LruCache<Classification>(maxEntries, ttl);
      Owned, Returned, Contents := {}, {}, [];
    }

    /** cache.set of a clone: the caller keeps the original. */
    method Store(key: string, c: Classification, setAt: real)
      requires Valid()
      modifies this, cache
      ensures Valid() && fresh(Owned - old(Owned)) && Returned == old(Returned)
      ensures Contents == Stored(old(Contents), key, old(c.Says()), Some(cache.ttl), setAt, cache.maxEntries)
    {
      hide Mirrors, Mirrored, Find, Without, Newest, Stored;
      var copy := Clone(c);
      MirrorsMore(cache.entries, Contents, Owned, Owned + copy.Footprint());
      Owned := Owned + copy.Footprint();
      MirrorsStored(cache.entries, Contents, Owned, key, copy, cache.ttl, setAt, cache.maxEntries);
      Contents := Stored(Contents, key, copy.Says(), Some(cache.ttl), setAt, cache.maxEntries);
      cache.Set(key, copy, setAt, None);
    }

    /** A hit leaves as a new object marked `cached`. */
    method LookUp(key: string, getAt: real) returns (hit: Option<Classification>)
      requires Valid()
      modifies this, cache
      ensures Valid() && Owned == old(Owned) && Returned == old(Returned)
      ensures Contents == Touched(old(Contents), key, getAt)
      ensures match Hit(old(Contents), key, getAt)
              case None => hit.None?
              case Some(view) => hit.Some? && hit.value.Says() == view.(way := ByCache) && fresh(hit.value.Footprint())
    {
      hide Mirrors, Mirrored, Find, Without, Touched;
      MirrorsTouched(cache.entries, Contents, Owned, key, getAt);
      var found := cache.Get(key, getAt);
      Contents := Touched(Contents, key, getAt);
      if found.None? {
        return None;
      }
      var copy := Clone(found.value);
      copy.way := ByCache;
      hit := Some(copy);
    }

    /** The caller gets `c`, which no one else has. */
    ghost predicate Given(c: Classification, before: set<object>)
      reads this, c
    {
      Returned == before + c.Footprint()
    }

    /** A new classification leaves, and a clone of it is stored when its source is worth keeping. */
    method Emit(key: string, view: View, source: Source, failure: Failure, setAt: real) returns (reply: Reply)
      requires Valid()
      modifies this, cache
      ensures Valid() && fresh(Owned - old(Owned))
      ensures Contents == Kept(old(Contents), key, Answer(source, view, failure), setAt, cache.maxEntries, cache.ttl)
      ensures reply.Reply? && reply.source == source && reply.failure == failure && reply.c.Says() == view
      ensures fresh(reply.c.Footprint()) && Given(reply.c, old(Returned))
    {
      var c := new Classification(view);
      if Stores(source) {
        Store(key, c, setAt);
      }
      Returned := Returned + c.Footprint();
      reply := Reply(c, source, failure);
    }

    /** What a miss is answered with. */
    method Miss(key: string, request: Request, setAt: real) returns (reply: Reply)
      requires Valid() && ReachesCache(request)
      modifies this, cache
      ensures Valid() && fresh(Owned - old(Owned))
      ensures Contents == Kept(old(Contents), key, FirstPart(request, None), setAt, cache.maxEntries, cache.ttl)
      ensures match FirstPart(request, None)
              case Answer(source, view, failure) =>
                && reply.Reply? && reply.source == source && reply.failure == failure && reply.c.Says() == view
                && fresh(reply.c.Footprint()) && Given(reply.c, old(Returned))
              case AskLlm => reply == Waiting(Pending(key, request.rules.value)) && Returned == old(Returned)
    {
      var rules := request.rules.value;
      if request.strong {
        reply := Emit(key, rules, ShortCircuit, NoFailure, setAt);
      } else if request.blank {
        reply := Emit(key, rules, Fallback, EmptyInput, setAt);
      } else if !request.hasLlm {
        reply := Emit(key, rules, Fallback, Unavailable, setAt);
      } else {
        reply := Waiting(Pending(key, rules));
      }
    }

    /** What the first part decides, given what the cache held. */
    ghost function Decision(contents: seq<Entry<View>>, request: Request, getAt: real): First {
      FirstPart(request, if ReachesCache(request) then Hit(contents, KeyOf(request), getAt) else None)
    }

    ghost function Looked(contents: seq<Entry<View>>, request: Request, getAt: real): seq<Entry<View>> {
      if ReachesCache(request) then Touched(contents, KeyOf(request), getAt) else contents
    }

    /** The part of classify before the LLM answers. */
    method BeginRequest(request: Request, getAt: real, setAt: real) returns (reply: Reply)
      requires Valid()
      modifies this, cache
      ensures Valid() && fresh(Owned - old(Owned))
      ensures Contents == Kept(Looked(old(Contents), request, getAt), KeyOf(request), Decision(old(Contents), request, getAt),
                               setAt, cache.maxEntries, cache.ttl)
      ensures match Decision(old(Contents), request, getAt)
              case Answer(source, view, failure) =>
                && reply.Reply? && reply.source == source && reply.failure == failure && reply.c.Says() == view
                && fresh(reply.c.Footprint()) && Given(reply.c, old(Returned))
              case AskLlm => reply.Waiting? && reply.pending.key == KeyOf(request) && Returned == old(Returned)
    {
      if !ReachesCache(request) {
        reply := Emit(KeyOf(request), Recovered(request), Fallback, Thrown, setAt);
        return;
      }
      var hit := LookUp(KeyOf(request), getAt);
      if hit.Some? {
        Returned := Returned + hit.value.Footprint();
        return Reply(hit.value, FromCache, NoFailure);
      }
      reply := Miss(KeyOf(request), request, setAt);
    }

    /** The rest of it, once the LLM has answered, failed or thrown. */
    method SettleRequest(pending: Pending, result: LlmResult, setAt: real) returns (reply: Reply)
      requires Valid()
      modifies this, cache
      ensures Valid() && fresh(Owned - old(Owned))
      ensures Contents == Kept(old(Contents), pending.key, SecondPart(pending, result), setAt, cache.maxEntries, cache.ttl)
      ensures var second := SecondPart(pending, result);
              reply.Reply? && reply.source == second.source && reply.failure == second.failure && reply.c.Says() == second.view
      ensures fresh(reply.c.Footprint()) && Given(reply.c, old(Returned))
    {
      match result
      case Answered(merged) => reply := Emit(pending.key, merged, Merged, NoFailure, setAt);
      case Failed => reply := Emit(pending.key, pending.rules, Fallback, LlmFailed, setAt);
      case Threw => reply := Emit(pending.key, pending.rules, Fallback, Thrown, setAt);
    }

    /** A caller rewrites the arrays of a classification it was given: the cache does not notice. */
    method Tamper(c: Classification, categories: seq<string>, sensitive: seq<string>)
      requires Valid() && c.Footprint() <= Returned
      modifies c, c.categories, c.sensitive
      ensures Valid() && Contents == old(Contents) && Owned == old(Owned) && Returned == old(Returned)
    {
      c.categories.items := categories;
      c.sensitive.items := sensitive;
      c.way := ByLlm;
    }
  }
}

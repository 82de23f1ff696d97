/**
 packages/dashboard/lib/rate-limit.ts: a fixed-window limiter over one bounded map.

 The Map is a sequence of windows with distinct keys in insertion order; times are whole
 milliseconds, as Date.getTime gives them, and need not move forward unless a law says so.
 */
module RateLimiter {
  import opened Options

  datatype Window = Window(key: string, startedAt: int, count: nat)

  datatype Decision = Decision(allowed: bool, remaining: nat, retryAfterS: nat)

  datatype Policy = Policy(limit: nat, windowMs: nat, maxKeys: int)

  predicate Sensible(p: Policy) {
    p.limit >= 1 && p.windowMs >= 1
  }

  predicate Distinct(s: seq<Window>) {
    forall i, j :: 0 <= i < j < |s| ==> s[i].key != s[j].key
  }

  function Find(s: seq<Window>, key: string): (at: Option<nat>)
    ensures at.Some? ==> at.value < |s| && s[at.value].key == key
    ensures at.None? ==> forall i :: 0 <= i < |s| ==> s[i].key != key
  {
    if s == [] then None
    else if s[|s| - 1].key == key then Some(|s| - 1)
    else Find(s[..|s| - 1], key)
  }

  predicate Elapsed(p: Policy, w: Window, now: int) {
    now - w.startedAt >= p.windowMs
  }

  /** The windows still open at `now`. */
  function Pruned(p: Policy, s: seq<Window>, now: int): seq<Window> {
    if s == [] then []
    else
      var rest := Pruned(p, s[..|s| - 1], now);
      if Elapsed(p, s[|s| - 1], now) then rest else rest + [s[|s| - 1]]
  }

  /** The first of the oldest. */
  function OldestAt(s: seq<Window>): (at: nat)
    requires s != []
    ensures at < |s| && forall i :: 0 <= i < |s| ==> s[at].startedAt <= s[i].startedAt
    ensures forall i :: 0 <= i < at ==> s[at].startedAt < s[i].startedAt
  {
    if |s| == 1 then 0
    else
      var earlier := OldestAt(s[..|s| - 1]);
      if s[|s| - 1].startedAt < s[earlier].startedAt then |s| - 1 else earlier
  }

  /** Without the first `count` of a stable sort by age, which is what picking the first oldest that often drops. */
  function Evicted(s: seq<Window>, count: nat): seq<Window>
    decreases count
  {
    if count == 0 || s == [] then s
    else Evicted(s[..OldestAt(s)] + s[OldestAt(s) + 1..], count - 1)
  }

  /** Room for one more key, if the map is full of others. */
  function Roomy(p: Policy, s: seq<Window>, key: string, now: int): seq<Window> {
    if |s| >= p.maxKeys && Find(s, key).None? then
      var pruned := Pruned(p, s, now);
      if |pruned| >= p.maxKeys then Evicted(pruned, |pruned| - p.maxKeys + 1) else pruned
    else s
  }

  /** The window a check is charged to. */
  function Charged(p: Policy, existing: Option<Window>, key: string, now: int): Window {
    if existing.None? || Elapsed(p, existing.value, now) then Window(key, now, 1)
    else existing.value.(count := existing.value.count + 1)
  }

  function WindowOf(s: seq<Window>, key: string): Option<Window> {
    var at := Find(s, key);
    if at.None? then None else Some(s[at.value])
  }

  /** Map.set. */
  function Put(s: seq<Window>, w: Window): seq<Window> {
    var at := Find(s, w.key);
    if at.None? then s + [w] else s[at.value := w]
  }

  /** Math.ceil(ms / 1000), at least 1. */
  function WholeSeconds(ms: int): (s: nat)
    ensures s >= 1 && (ms > 0 ==> 1000 * (s - 1) < ms <= 1000 * s || (s == 1 && ms <= 1000))
  {
    var up := -((-ms) / 1000);
    if up < 1 then 1 else up
  }

  function Decide(p: Policy, w: Window, now: int): Decision {
    var allowed := w.count <= p.limit;
    Decision(allowed, if allowed then p.limit - w.count else 0,
             if allowed then 0 else WholeSeconds(p.windowMs - (now - w.startedAt)))
  }

  function Next(p: Policy, s: seq<Window>, key: string, now: int): seq<Window> {
    var roomy := Roomy(p, s, key, now);
    Put(roomy, Charged(p, WindowOf(roomy, key), key, now))
  }

  function Answer(p: Policy, s: seq<Window>, key: string, now: int): Decision {
    Decide(p, Charged(p, WindowOf(Roomy(p, s, key, now), key), key, now), now)
  }

  predicate Bounded(p: Policy, s: seq<Window>) {
    |s| <= if p.maxKeys < 1 then 1 else p.maxKeys
  }

  class Limiter {
    const policy: Policy
    var windows: seq<Window>

    ghost predicate Valid()
      reads this
    {
      Sensible(policy) && Distinct(windows) && Bounded(policy, windows)
    }

    constructor (policy: Policy)
      requires Sensible(policy)
      ensures Valid() && windows == [] && this.policy == policy
    {
      this.policy := policy;
      windows := [];
    }

    method Prune(now: int)
      modifies this
      ensures windows == Pruned(policy, old(windows), now)
    {
      var kept: seq<Window> := [];
      var i := 0;
      while i < |windows|
        invariant 0 <= i <= |windows| && windows == old(windows)
        invariant kept == Pruned(policy, windows[..i], now)
      {
        assert windows[..i + 1][..i] == windows[..i];
        if !Elapsed(policy, windows[i], now) {
          kept := kept + [windows[i]];
        }
        i := i + 1;
      }
      assert windows[..i] == windows;
      windows := kept;
    }

    method EvictOldest(count: nat)
      modifies this
      ensures windows == Evicted(old(windows), count)
    {
      var left := count;
      while left > 0 && windows != []
        invariant 0 <= left <= count
        invariant Evicted(windows, left) == Evicted(old(windows), count)
        decreases left
      {
        var at := OldestAt(windows);
        windows := windows[..at] + windows[at + 1..];
        left := left - 1;
      }
    }

    method MakeRoom(key: string, now: int)
      modifies this
      ensures windows == Roomy(policy, old(windows), key, now)
    {
      if |windows| >= policy.maxKeys && Find(windows, key).None? {
        Prune(now);
        if |windows| >= policy.maxKeys {
          EvictOldest(|windows| - policy.maxKeys + 1);
        }
      }
    }

    method Check(key: string, now: int) returns (decision: Decision)
      requires Valid()
      modifies this
      ensures Valid()
      ensures decision == Answer(policy, old(windows), key, now)
      ensures windows == Next(policy, old(windows), key, now)
    {
      NextValid(policy, windows, key, now);
      MakeRoom(key, now);
      var existing := WindowOf(windows, key);
      var w := if existing.None? || Elapsed(policy, existing.value, now) then Window(key, now, 0) else existing.value;
      w := w.(count := w.count + 1);
      windows := Put(windows, w);
      decision := Decide(policy, w, now);
    }

    method Reset()
      requires Valid()
      modifies this
      ensures Valid() && windows == []
    {
      windows := [];
    }

    method Size() returns (n: nat)
      requires Valid()
      ensures n == |windows| && (n <= 1 || n <= policy.maxKeys)
    {
      n := |windows|;
    }
  }

  // ------------------------------------------------------------------------------- the bounded map

  lemma {:induction false} PrunedMeans(p: Policy, s: seq<Window>, now: int)
    ensures forall w :: w in Pruned(p, s, now) <==> w in s && !Elapsed(p, w, now)
    ensures |Pruned(p, s, now)| <= |s| && (Distinct(s) ==> Distinct(Pruned(p, s, now)))
  {
    if s != [] {
      var (init, last) := (s[..|s| - 1], s[|s| - 1]);
      assert s == init + [last];
      PrunedMeans(p, init, now);
      var rest := Pruned(p, init, now);
      forall i | 0 <= i < |rest| && Distinct(s) ensures rest[i].key != last.key {
        assert rest[i] in init;
        var j :| 0 <= j < |init| && init[j] == rest[i];
      }
    }
  }

  /** Eviction drops that many, and keeps no window older than one it drops. */
  lemma {:induction false} EvictedMeans(s: seq<Window>, count: nat)
    requires Distinct(s)
    ensures |Evicted(s, count)| == (if count <= |s| then |s| - count else 0)
    ensures Distinct(Evicted(s, count)) && forall w <- Evicted(s, count) :: w in s
    ensures forall dropped <- s, kept <- Evicted(s, count) ::
              dropped !in Evicted(s, count) ==> dropped.startedAt <= kept.startedAt
    decreases count
  {
    hide OldestAt;
    if count > 0 && s != [] {
      var at := OldestAt(s);
      var rest := s[..at] + s[at + 1..];
      assert forall w :: w in s <==> w in rest || w == s[at];
      EvictedMeans(rest, count - 1);
    }
  }

  lemma PutDistinct(s: seq<Window>, w: Window)
    requires Distinct(s)
    ensures Distinct(Put(s, w)) && |Put(s, w)| == |s| + (if Find(s, w.key).None? then 1 else 0)
    ensures WindowOf(Put(s, w), w.key) == Some(w)
  {
  }

  lemma RoomyMeans(p: Policy, s: seq<Window>, key: string, now: int)
    requires Distinct(s) && Bounded(p, s)
    ensures Distinct(Roomy(p, s, key, now)) && forall w <- Roomy(p, s, key, now) :: w in s
    ensures Find(s, key).None? ==> |Roomy(p, s, key, now)| + 1 <= (if p.maxKeys < 1 then 1 else p.maxKeys)
    ensures Find(s, key).Some? ==> Roomy(p, s, key, now) == s
  {
    hide Pruned, Evicted, Distinct, Find;
    var pruned := Pruned(p, s, now);
    PrunedMeans(p, s, now);
    if |pruned| >= p.maxKeys {
      EvictedMeans(pruned, |pruned| - p.maxKeys + 1);
    }
  }

  lemma RoomyKeepsAbsence(p: Policy, s: seq<Window>, key: string, now: int)
    requires Distinct(s) && Bounded(p, s) && Find(s, key).None?
    ensures Find(Roomy(p, s, key, now), key).None?
  {
    RoomyMeans(p, s, key, now);
    var roomy := Roomy(p, s, key, now);
    forall i | 0 <= i < |roomy| ensures roomy[i].key != key {
      assert roomy[i] in s;
    }
  }

  /** Whatever keys arrive, the map never grows past max(1, maxKeys). */
  lemma NextValid(p: Policy, s: seq<Window>, key: string, now: int)
    requires Distinct(s) && Bounded(p, s)
    ensures Distinct(Next(p, s, key, now)) && Bounded(p, Next(p, s, key, now))
  {
    RoomyMeans(p, s, key, now);
    var roomy := Roomy(p, s, key, now);
    PutDistinct(roomy, Charged(p, WindowOf(roomy, key), key, now));
  }
}

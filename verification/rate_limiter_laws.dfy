/**
 What the limiter guarantees over whole runs: how many attempts a key gets in a window and in any
 stretch of time, and that waiting as told is always enough.
 */
module RateLimiterLaws {
  import opened Options
  import opened Sequences
  import opened RateLimiter

  datatype Attempt = Attempt(key: string, at: int)

  function RunFrom(p: Policy, s: seq<Window>, attempts: seq<Attempt>): seq<Window> {
    if attempts == [] then s
    else
      var last := attempts[|attempts| - 1];
      Next(p, RunFrom(p, s, attempts[..|attempts| - 1]), last.key, last.at)
  }

  function Run(p: Policy, attempts: seq<Attempt>): seq<Window> {
    RunFrom(p, [], attempts)
  }

  /** What the last attempt is told. */
  function LastAnswer(p: Policy, attempts: seq<Attempt>): Decision
    requires attempts != []
  {
    var last := attempts[|attempts| - 1];
    Answer(p, Run(p, attempts[..|attempts| - 1]), last.key, last.at)
  }

  function KeysOf(attempts: seq<Attempt>): set<string> {
    set a <- attempts :: a.key
  }

  predicate InOrder(attempts: seq<Attempt>) {
    forall i, j :: 0 <= i < j < |attempts| ==> attempts[i].at <= attempts[j].at
  }

  lemma {:induction false} RunFromValid(p: Policy, s: seq<Window>, attempts: seq<Attempt>)
    requires Distinct(s) && Bounded(p, s)
    ensures Distinct(RunFrom(p, s, attempts)) && Bounded(p, RunFrom(p, s, attempts))
  {
    if attempts != [] {
      var (init, last) := (attempts[..|attempts| - 1], attempts[|attempts| - 1]);
      RunFromValid(p, s, init);
      NextValid(p, RunFrom(p, s, init), last.key, last.at);
    }
  }

  // --------------------------------------------------------------------------- one key at a time

  lemma {:induction false} FindIs(s: seq<Window>, i: nat)
    requires Distinct(s) && i < |s|
    ensures Find(s, s[i].key) == Some(i)
  {
    if i < |s| - 1 {
      FindIs(s[..|s| - 1], i);
    }
  }

  lemma PutOther(s: seq<Window>, w: Window, key: string)
    requires Distinct(s) && w.key != key
    ensures WindowOf(Put(s, w), key) == WindowOf(s, key)
  {
    PutDistinct(s, w);
    var (at, put) := (Find(s, key), Put(s, w));
    if at.Some? {
      assert put[at.value] == s[at.value];
      FindIs(put, at.value);
    } else {
      assert forall i :: 0 <= i < |put| ==> put[i].key != key;
    }
  }

  /** The window of a key is the only one in the map with that key. */
  lemma WindowIs(s: seq<Window>, key: string)
    ensures WindowOf(s, key).Some? ==> WindowOf(s, key).value in s && WindowOf(s, key).value.key == key
    ensures WindowOf(s, key).None? <==> forall w <- s :: w.key != key
    ensures Distinct(s) ==> forall w <- s | w.key == key :: WindowOf(s, key) == Some(w)
  {
    var at := Find(s, key);
    assert at.Some? ==> s[at.value] in s;
    forall w | w in s && w.key == key && Distinct(s) ensures WindowOf(s, key) == Some(w) {
      var i :| 0 <= i < |s| && s[i] == w;
      assert at.Some? && at.value == i;
    }
  }

  lemma NextKeys(p: Policy, s: seq<Window>, key: string, now: int)
    requires Distinct(s) && Bounded(p, s)
    ensures forall w <- Next(p, s, key, now) :: w.key == key || w in s
  {
    RoomyMeans(p, s, key, now);
  }

  /** A check of another key leaves a key's window alone or forgets it. */
  lemma OtherKept(p: Policy, s: seq<Window>, other: string, now: int, key: string)
    requires Distinct(s) && Bounded(p, s) && other != key
    ensures WindowOf(Next(p, s, other, now), key).None? || WindowOf(Next(p, s, other, now), key) == WindowOf(s, key)
  {
    RoomyMeans(p, s, other, now);
    var roomy := Roomy(p, s, other, now);
    PutOther(roomy, Charged(p, WindowOf(roomy, other), other, now), key);
    WindowIs(s, key);
    WindowIs(roomy, key);
  }

  lemma {:induction false} OthersKept(p: Policy, s: seq<Window>, attempts: seq<Attempt>, key: string)
    requires Distinct(s) && Bounded(p, s) && forall a <- attempts :: a.key != key
    ensures WindowOf(RunFrom(p, s, attempts), key).None? || WindowOf(RunFrom(p, s, attempts), key) == WindowOf(s, key)
  {
    if attempts != [] {
      var (init, last) := (attempts[..|attempts| - 1], attempts[|attempts| - 1]);
      OthersKept(p, s, init, key);
      RunFromValid(p, s, init);
      OtherKept(p, RunFrom(p, s, init), last.key, last.at, key);
    }
  }

  lemma OwnWindow(p: Policy, s: seq<Window>, key: string, now: int)
    requires Distinct(s) && Bounded(p, s)
    ensures WindowOf(Next(p, s, key, now), key) == Some(Charged(p, WindowOf(s, key), key, now))
    ensures Answer(p, s, key, now) == Decide(p, Charged(p, WindowOf(s, key), key, now), now)
  {
    RoomyMeans(p, s, key, now);
    if Find(s, key).None? {
      RoomyKeepsAbsence(p, s, key, now);
    }
    PutDistinct(Roomy(p, s, key, now), Charged(p, WindowOf(s, key), key, now));
  }

  /**
   Whatever else arrives in between, and whatever the clock does meanwhile: a refused key that waits
   the seconds it was told is allowed at its next attempt.
   */
  lemma WaitingIsEnough(p: Policy, s: seq<Window>, key: string, now: int, others: seq<Attempt>, later: int)
    requires Sensible(p) && Distinct(s) && Bounded(p, s)
    requires !Answer(p, s, key, now).allowed && forall a <- others :: a.key != key
    requires later >= now + 1000 * Answer(p, s, key, now).retryAfterS
    ensures Answer(p, RunFrom(p, Next(p, s, key, now), others), key, later).allowed
  {
    NextValid(p, s, key, now);
    OwnWindow(p, s, key, now);
    OthersKept(p, Next(p, s, key, now), others, key);
    RunFromValid(p, Next(p, s, key, now), others);
    OwnWindow(p, RunFrom(p, Next(p, s, key, now), others), key, later);
    var w := Charged(p, WindowOf(s, key), key, now);
    assert later - w.startedAt >= p.windowMs;
  }

  // ----------------------------------------------------------------------- with few enough keys

  /** No more distinct keys than the map may hold. */
  predicate FewKeys(p: Policy, attempts: seq<Attempt>) {
    |KeysOf(attempts)| <= p.maxKeys
  }

  lemma {:induction false} KeyCount(s: seq<Window>)
    requires Distinct(s)
    ensures |set w <- s :: w.key| == |s|
  {
    if s != [] {
      var (init, last) := (s[..|s| - 1], s[|s| - 1]);
      KeyCount(init);
      assert s == init + [last];
      var (before, all) := (set w <- init :: w.key, set w <- s :: w.key);
      assert last.key !in before;
      assert all == before + {last.key};
    }
  }

  lemma FewerKeys(p: Policy, attempts: seq<Attempt>)
    requires FewKeys(p, attempts) && attempts != []
    ensures FewKeys(p, attempts[..|attempts| - 1])
  {
    SubsetSize(KeysOf(attempts[..|attempts| - 1]), KeysOf(attempts));
  }

  lemma {:induction false} OnlySeenKeys(p: Policy, attempts: seq<Attempt>)
    ensures forall w <- Run(p, attempts) :: w.key in KeysOf(attempts)
    ensures Distinct(Run(p, attempts)) && Bounded(p, Run(p, attempts))
  {
    RunFromValid(p, [], attempts);
    if attempts != [] {
      var (init, last) := (attempts[..|attempts| - 1], attempts[|attempts| - 1]);
      OnlySeenKeys(p, init);
      NextKeys(p, Run(p, init), last.key, last.at);
      assert last in attempts && forall a <- init :: a in attempts;
    }
  }

  /** With few keys the map is never full of others, so nothing is ever pruned or evicted. */
  lemma NoOneEvicted(p: Policy, attempts: seq<Attempt>)
    requires FewKeys(p, attempts) && attempts != []
    ensures var (s, last) := (Run(p, attempts[..|attempts| - 1]), attempts[|attempts| - 1]);
            Roomy(p, s, last.key, last.at) == s
  {
    var (init, last) := (attempts[..|attempts| - 1], attempts[|attempts| - 1]);
    var s := Run(p, init);
    OnlySeenKeys(p, init);
    KeyCount(s);
    if Find(s, last.key).None? {
      var held := set w <- s :: w.key;
      assert last.key !in held;
      assert last in attempts && forall a <- init :: a in attempts;
      SubsetSize(held + {last.key}, KeysOf(attempts));
    }
  }

  /** Each key then runs its own automaton, whatever the others do. */
  lemma KeysAreIndependent(p: Policy, attempts: seq<Attempt>, key: string)
    requires FewKeys(p, attempts) && attempts != []
    ensures var (s, last) := (Run(p, attempts[..|attempts| - 1]), attempts[|attempts| - 1]);
            WindowOf(Run(p, attempts), key)
            == if last.key == key then Some(Charged(p, WindowOf(s, key), key, last.at)) else WindowOf(s, key)
    ensures var (s, last) := (Run(p, attempts[..|attempts| - 1]), attempts[|attempts| - 1]);
            LastAnswer(p, attempts) == Decide(p, Charged(p, WindowOf(s, last.key), last.key, last.at), last.at)
  {
    var (init, last) := (attempts[..|attempts| - 1], attempts[|attempts| - 1]);
    NoOneEvicted(p, attempts);
    OnlySeenKeys(p, init);
    OwnWindow(p, Run(p, init), last.key, last.at);
    if last.key != key {
      PutOther(Run(p, init), Charged(p, WindowOf(Run(p, init), last.key), last.key, last.at), key);
    }
  }

  // ------------------------------------------------------------------------------------- bounds

  /** How many attempts of the key were allowed from `from` on and less than a window later. */
  function AllowedWithin(p: Policy, attempts: seq<Attempt>, key: string, from: int): nat {
    if attempts == [] then 0
    else
      var last := attempts[|attempts| - 1];
      AllowedWithin(p, attempts[..|attempts| - 1], key, from)
      + if last.key == key && from <= last.at < from + p.windowMs && LastAnswer(p, attempts).allowed then 1 else 0
  }

  /** How many were allowed by the window that started at `start`. */
  function AllowedBy(p: Policy, attempts: seq<Attempt>, key: string, start: int): nat {
    if attempts == [] then 0
    else
      var (init, last) := (attempts[..|attempts| - 1], attempts[|attempts| - 1]);
      AllowedBy(p, init, key, start)
      + if last.key == key && Charged(p, WindowOf(Run(p, init), key), key, last.at).startedAt == start
           && LastAnswer(p, attempts).allowed then 1 else 0
  }

  function Min(a: nat, b: nat): nat {
    if a < b then a else b
  }

  /** What the count owes to the window the key is in, if any. */
  predicate WithinBound(p: Policy, w: Option<Window>, from: int, n: nat) {
    && n <= 2 * p.limit
    && (w.None? ==> n == 0)
    && (w.Some? && w.value.startedAt < from ==> n <= Min(w.value.count, p.limit))
    && (w.Some? && from <= w.value.startedAt < from + p.windowMs ==> n <= p.limit + Min(w.value.count, p.limit))
  }

  lemma StepWithin(p: Policy, w: Option<Window>, key: string, from: int, n: nat, now: int)
    requires Sensible(p) && WithinBound(p, w, from, n) && (now < from ==> n == 0)
    ensures var charged := Charged(p, w, key, now);
            var more := if from <= now < from + p.windowMs && Decide(p, charged, now).allowed then n + 1 else n;
            WithinBound(p, Some(charged), from, more)
    requires w.Some? ==> w.value.startedAt <= now
  {
  }

  lemma {:induction false} WithinHolds(p: Policy, attempts: seq<Attempt>, key: string, from: int)
    requires Sensible(p) && FewKeys(p, attempts) && InOrder(attempts)
    ensures WithinBound(p, WindowOf(Run(p, attempts), key), from, AllowedWithin(p, attempts, key, from))
    ensures attempts != [] && attempts[|attempts| - 1].at < from ==> AllowedWithin(p, attempts, key, from) == 0
    ensures var w := WindowOf(Run(p, attempts), key);
            w.Some? ==> attempts != [] && w.value.startedAt <= attempts[|attempts| - 1].at
  {
    if attempts != [] {
      var (init, last) := (attempts[..|attempts| - 1], attempts[|attempts| - 1]);
      FewerKeys(p, attempts);
      WithinHolds(p, init, key, from);
      KeysAreIndependent(p, attempts, key);
      if last.key == key {
        StepWithin(p, WindowOf(Run(p, init), key), key, from, AllowedWithin(p, init, key, from), last.at);
      }
    }
  }

  /** Over any half-open stretch one window long, a key is allowed at most twice its limit. */
  lemma TwiceTheLimit(p: Policy, attempts: seq<Attempt>, key: string, from: int)
    requires Sensible(p) && FewKeys(p, attempts) && InOrder(attempts)
    ensures AllowedWithin(p, attempts, key, from) <= 2 * p.limit
  {
    WithinHolds(p, attempts, key, from);
  }

  predicate ByBound(p: Policy, w: Option<Window>, start: int, n: nat) {
    if w.None? || w.value.startedAt < start then n == 0
    else if w.value.startedAt == start then n == Min(w.value.count, p.limit)
    else n <= p.limit
  }

  lemma {:induction false} ByHolds(p: Policy, attempts: seq<Attempt>, key: string, start: int)
    requires Sensible(p) && FewKeys(p, attempts) && InOrder(attempts)
    ensures ByBound(p, WindowOf(Run(p, attempts), key), start, AllowedBy(p, attempts, key, start))
    ensures var w := WindowOf(Run(p, attempts), key);
            w.Some? ==> attempts != [] && w.value.startedAt <= attempts[|attempts| - 1].at
  {
    if attempts != [] {
      FewerKeys(p, attempts);
      ByHolds(p, attempts[..|attempts| - 1], key, start);
      KeysAreIndependent(p, attempts, key);
    }
  }

  /** One window allows a key at most its limit, and exactly as many as were tried up to it. */
  lemma LimitPerWindow(p: Policy, attempts: seq<Attempt>, key: string, start: int)
    requires Sensible(p) && FewKeys(p, attempts) && InOrder(attempts)
    ensures AllowedBy(p, attempts, key, start) <= p.limit
    ensures var w := WindowOf(Run(p, attempts), key);
            w.Some? ==> AllowedBy(p, attempts, key, w.value.startedAt) == Min(w.value.count, p.limit)
  {
    ByHolds(p, attempts, key, start);
    var w := WindowOf(Run(p, attempts), key);
    if w.Some? {
      ByHolds(p, attempts, key, w.value.startedAt);
    }
  }

  lemma OneMore(p: Policy, init: seq<Attempt>, last: Attempt, key: string, from: int)
    ensures Run(p, init + [last]) == Next(p, Run(p, init), last.key, last.at)
    ensures AllowedWithin(p, init + [last], key, from) == AllowedWithin(p, init, key, from)
            + if last.key == key && from <= last.at < from + p.windowMs
                 && Answer(p, Run(p, init), last.key, last.at).allowed then 1 else 0
  {
    var attempts := init + [last];
    assert attempts[..|attempts| - 1] == init && attempts[|attempts| - 1] == last;
  }

  /** How many windows the map has room for. */
  function Room(p: Policy): nat {
    if p.maxKeys < 1 then 1 else p.maxKeys
  }

  predicate NoneTwice(keys: seq<string>) {
    forall i, j :: 0 <= i < j < |keys| ==> keys[i] != keys[j]
  }

  /** The windows of some keys that all started at `at` and tried once. */
  function Started(keys: seq<string>, at: int): seq<Window> {
    seq(|keys|, i requires 0 <= i < |keys| => Window(keys[i], at, 1))
  }

  /** Each of the keys tries once, in order, at `at`. */
  function Each(keys: seq<string>, at: int): seq<Attempt> {
    if keys == [] then [] else Each(keys[..|keys| - 1], at) + [Attempt(keys[|keys| - 1], at)]
  }

  lemma {:induction false} NothingPruned(p: Policy, s: seq<Window>, at: int)
    requires Sensible(p) && forall i :: 0 <= i < |s| ==> s[i].startedAt == at
    ensures Pruned(p, s, at) == s
  {
    if s != [] {
      NothingPruned(p, s[..|s| - 1], at);
      assert s == s[..|s| - 1] + [s[|s| - 1]];
    }
  }

  /** Among windows of one age the first goes first. */
  lemma FirstGoes(s: seq<Window>, at: int, count: nat)
    requires s != [] && forall i :: 0 <= i < |s| ==> s[i].startedAt == at
    requires count == 1 || (count >= 1 && |s| == 1)
    ensures Evicted(s, count) == s[1..]
  {
    var oldest := OldestAt(s);
    assert s[oldest].startedAt == at && s[0].startedAt == at;
    assert s[..0] + s[1..] == s[1..];
    assert Evicted(s[1..], count - 1) == s[1..];
  }

  lemma NothingEvicted(count: nat)
    ensures Evicted([], count) == []
  {
  }

  lemma RoomMade(p: Policy, keys: seq<string>, key: string, at: int)
    requires Sensible(p) && NoneTwice(keys) && key !in keys && |keys| <= Room(p)
    ensures Roomy(p, Started(keys, at), key, at) == Started(if |keys| < Room(p) then keys else keys[1..], at)
  {
    hide Pruned, Evicted, Find;
    var s := Started(keys, at);
    NothingPruned(p, s, at);
    assert Find(s, key).None?;
    if s == [] {
      NothingEvicted(if p.maxKeys < 1 then 1 - p.maxKeys else 0);
    } else if |s| >= p.maxKeys {
      FirstGoes(s, at, |s| - p.maxKeys + 1);
      assert s[1..] == Started(keys[1..], at);
    }
  }

  /** A key that has no window gets one, at the cost of the oldest when the map is full. */
  lemma TurnTaken(p: Policy, keys: seq<string>, key: string, at: int)
    requires Sensible(p) && NoneTwice(keys) && key !in keys && |keys| <= Room(p)
    ensures Next(p, Started(keys, at), key, at) == Started((if |keys| < Room(p) then keys else keys[1..]) + [key], at)
    ensures Answer(p, Started(keys, at), key, at).allowed
  {
    hide Roomy;
    RoomMade(p, keys, key, at);
    var left := if |keys| < Room(p) then keys else keys[1..];
    assert Started(left + [key], at) == Started(left, at) + [Window(key, at, 1)];
  }

  lemma EachMore(keys: seq<string>, k: nat, at: int)
    requires k < |keys|
    ensures Each(keys[..k + 1], at) == Each(keys[..k], at) + [Attempt(keys[k], at)]
  {
    assert keys[..k + 1][..k] == keys[..k];
  }

  lemma TurnCounted(p: Policy, before: seq<Attempt>, keys: seq<string>, key: string, counted: string, at: int)
    requires Sensible(p) && NoneTwice(keys) && key !in keys && |keys| <= Room(p) && Run(p, before) == Started(keys, at)
    ensures Run(p, before + [Attempt(key, at)]) == Started((if |keys| < Room(p) then keys else keys[1..]) + [key], at)
    ensures AllowedWithin(p, before + [Attempt(key, at)], counted, at)
         == AllowedWithin(p, before, counted, at) + if key == counted then 1 else 0
  {
    hide Next, Answer, Run, AllowedWithin;
    TurnTaken(p, keys, key, at);
    OneMore(p, before, Attempt(key, at), counted, at);
  }

  lemma NothingYet(p: Policy, key: string, at: int)
    ensures Run(p, Each([], at)) == Started([], at) && AllowedWithin(p, Each([], at), key, at) == 0
  {
  }

  /** All keys but the first have had their first try. */
  lemma {:induction false} Filled(p: Policy, keys: seq<string>, k: nat, at: int)
    requires Sensible(p) && NoneTwice(keys) && |keys| == Room(p) + 1 && k < |keys|
    ensures Run(p, Each(keys[1..k + 1], at)) == Started(keys[1..k + 1], at)
    ensures AllowedWithin(p, Each(keys[1..k + 1], at), keys[0], at) == 0
  {
    hide Run, AllowedWithin;
    if k == 0 {
      assert keys[1..1] == [];
      NothingYet(p, keys[0], at);
    } else {
      Filled(p, keys, k - 1, at);
      EachMore(keys[1..], k - 1, at);
      assert keys[1..][..k - 1] == keys[1..k] && keys[1..][..k] == keys[1..k + 1] && keys[1..][k - 1] == keys[k];
      TurnCounted(p, Each(keys[1..k], at), keys[1..k], keys[k], keys[0], at);
      assert keys[1..k] + [keys[k]] == keys[1..k + 1];
    }
  }

  /** In the middle of a round: every key whose turn comes finds no window of its own. */
  lemma {:induction false} RoundPart(p: Policy, before: seq<Attempt>, keys: seq<string>, k: nat, at: int)
    requires Sensible(p) && NoneTwice(keys) && |keys| == Room(p) + 1 && k < |keys| && Run(p, before) == Started(keys[1..], at)
    ensures Run(p, before + Each(keys[..k], at)) == Started(keys[k + 1..] + keys[..k], at)
    ensures AllowedWithin(p, before + Each(keys[..k], at), keys[0], at)
         == AllowedWithin(p, before, keys[0], at) + if k == 0 then 0 else 1
    decreases k
  {
    hide Run, AllowedWithin, Each;
    if k == 0 {
      assert keys[..0] == [] && keys[1..] + [] == keys[1..];
      EachNothing(at);
      assert before + [] == before;
    } else {
      var so := before + Each(keys[..k - 1], at);
      RoundPart(p, before, keys, k - 1, at);
      EachMore(keys, k - 1, at);
      assert before + (Each(keys[..k - 1], at) + [Attempt(keys[k - 1], at)]) == so + [Attempt(keys[k - 1], at)];
      TurnCounted(p, so, keys[k..] + keys[..k - 1], keys[k - 1], keys[0], at);
      assert (keys[k..] + keys[..k - 1])[1..] + [keys[k - 1]] == keys[k + 1..] + keys[..k];
    }
  }

  lemma EachNothing(at: int)
    ensures Each([], at) == []
  {
  }

  lemma WholeRound(p: Policy, before: seq<Attempt>, keys: seq<string>, at: int)
    requires Sensible(p) && NoneTwice(keys) && |keys| == Room(p) + 1 && Run(p, before) == Started(keys[1..], at)
    ensures Run(p, before + Each(keys, at)) == Started(keys[1..], at)
    ensures AllowedWithin(p, before + Each(keys, at), keys[0], at) == AllowedWithin(p, before, keys[0], at) + 1
  {
    hide Run, AllowedWithin, Each;
    var n := |keys| - 1;
    RoundPart(p, before, keys, n, at);
    EachMore(keys, n, at);
    assert keys[..n + 1] == keys && keys[n + 1..] + keys[..n] == keys[..n];
    assert before + (Each(keys[..n], at) + [Attempt(keys[n], at)]) == (before + Each(keys[..n], at)) + [Attempt(keys[n], at)];
    TurnCounted(p, before + Each(keys[..n], at), keys[..n], keys[n], keys[0], at);
    assert keys[..n][1..] + [keys[n]] == keys[1..];
  }

  /** `n` rounds of all the keys, once each but the first has tried. */
  function Rounds(keys: seq<string>, n: nat, at: int): seq<Attempt>
    requires keys != []
  {
    if n == 0 then Each(keys[1..], at) else Rounds(keys, n - 1, at) + Each(keys, at)
  }

  /**
   The bound on the keys is what it takes, for any policy: one key more than the map has room for, and
   keys that take turns at one instant are all allowed, every time, whatever the limit.
   */
  lemma {:induction false} EvictionForgets(p: Policy, keys: seq<string>, n: nat, at: int)
    requires Sensible(p) && NoneTwice(keys) && |keys| == Room(p) + 1
    ensures AllowedWithin(p, Rounds(keys, n, at), keys[0], at) == n
    ensures Run(p, Rounds(keys, n, at)) == Started(keys[1..], at)
  {
    hide Run, AllowedWithin, Each;
    if n == 0 {
      Filled(p, keys, |keys| - 1, at);
      assert keys[1..|keys|] == keys[1..];
    } else {
      EvictionForgets(p, keys, n - 1, at);
      WholeRound(p, Rounds(keys, n - 1, at), keys, at);
    }
  }
}

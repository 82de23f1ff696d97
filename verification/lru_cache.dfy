/**
 packages/core/src/classify/cache.ts: an in-memory LRU cache whose entries also expire.

 The insertion order of the Map is the recency list, so the entries are a sequence of distinct keys,
 oldest first. The clock is an argument: nothing here needs it to move forward.
 */
module LruCaches {
  import opened Options

  /** A number of milliseconds as JavaScript hands it over. */
  datatype Lifetime = Ms(ms: real) | NotANumber

  datatype Entry<V> = Entry(key: string, value: V, expiresAt: real)

  predicate Distinct<V>(s: seq<Entry<V>>) {
    forall i, j :: 0 <= i < j < |s| ==> s[i].key != s[j].key
  }

  function Find<V>(s: seq<Entry<V>>, key: string): (at: Option<nat>)
    ensures at.Some? ==> at.value < |s| && s[at.value].key == key
    ensures at.None? ==> forall i :: 0 <= i < |s| ==> s[i].key != key
  {
    if s == [] then None
    else if s[0].key == key then Some(0)
    else
      var at := Find(s[1..], key);
      if at.None? then None else Some(at.value + 1)
  }

  /** Everything but the entry at `at`. */
  function Skip<V>(s: seq<Entry<V>>, at: nat): seq<Entry<V>>
    requires at < |s|
  {
    s[..at] + s[at + 1..]
  }

  /** Map.delete. */
  function Without<V>(s: seq<Entry<V>>, key: string): seq<Entry<V>> {
    var at := Find(s, key);
    if at.None? then s else Skip(s, at.value)
  }

  function Hit<V>(s: seq<Entry<V>>, key: string, now: real): Option<V> {
    var at := Find(s, key);
    if at.Some? && s[at.value].expiresAt > now then Some(s[at.value].value) else None
  }

  /** A hit moves to the end, an expired entry goes. */
  function Touched<V>(s: seq<Entry<V>>, key: string, now: real): seq<Entry<V>> {
    var at := Find(s, key);
    if at.None? then s
    else if s[at.value].expiresAt <= now then Without(s, key)
    else Without(s, key) + [s[at.value]]
  }

  function Lasting(lifetime: Option<Lifetime>, ttl: real): Option<real> {
    var life := if lifetime.None? then Ms(ttl) else lifetime.value;
    if life.Ms? && life.ms > 0.0 then Some(life.ms) else None
  }

  /** The newest `limit` of them. */
  function Newest<V>(s: seq<Entry<V>>, limit: nat): seq<Entry<V>> {
    if |s| <= limit then s else s[|s| - limit..]
  }

  function Stored<V>(s: seq<Entry<V>>, key: string, value: V, life: Option<real>, now: real, limit: nat): seq<Entry<V>> {
    if life.None? then Without(s, key)
    else Newest(Without(s, key) + [Entry(key, value, now + life.value)], limit)
  }

  class LruCache<V> {
    const maxEntries: nat
    const ttl: real
    var entries: seq<Entry<V>>

    ghost predicate Valid()
      reads this
    {
      Distinct(entries) && |entries| <= maxEntries
    }

    constructor (maxEntries: nat, ttl: real)
      requires maxEntries >= 1 && ttl > 0.0
      ensures Valid() && entries == []
      ensures this.maxEntries == maxEntries && this.ttl == ttl
    {
      this.maxEntries := maxEntries;
      this.ttl := ttl;
      entries := [];
    }

    method Size() returns (n: nat)
      requires Valid()
      ensures n == |entries| && n <= maxEntries
    {
      n := |entries|;
    }

    method Get(key: string, now: real) returns (r: Option<V>)
      requires Valid()
      modifies this
      ensures Valid()
      ensures r == Hit(old(entries), key, now)
      ensures entries == Touched(old(entries), key, now)
    {
      var at := Find(entries, key);
      DistinctWithout(entries, key);
      if at.None? {
        return None;
      }
      var entry := entries[at.value];
      if entry.expiresAt <= now {
        entries := Without(entries, key);
        return None;
      }
      entries := Without(entries, key);
      entries := entries + [entry];
      r := Some(entry.value);
    }

    method Set(key: string, value: V, now: real, lifetime: Option<Lifetime>)
      requires Valid()
      modifies this
      ensures Valid()
      ensures entries == Stored(old(entries), key, value, Lasting(lifetime, ttl), now, maxEntries)
      ensures var life := if lifetime.None? then Ms(ttl) else lifetime.value;
              && (life.Ms? && life.ms > 0.0 && maxEntries >= 1 ==>
                    entries != [] && entries[|entries| - 1] == Entry(key, value, now + life.ms))
              && (life == NotANumber || life.ms <= 0.0 ==> forall i :: 0 <= i < |entries| ==> entries[i].key != key)
    {
      hide Find;
      DistinctWithout(entries, key);
      entries := Without(entries, key);
      var life := Lasting(lifetime, ttl);
      if life.None? {
        return;
      }
      entries := entries + [Entry(key, value, now + life.value)];
      ghost var all := entries;
      ghost var dropped := 0;
      while |entries| > maxEntries
        invariant 0 <= dropped <= |all| && entries == all[dropped..]
        invariant dropped > 0 ==> |entries| >= maxEntries
        decreases |entries|
      {
        entries := entries[1..];
        dropped := dropped + 1;
      }
    }

    method Delete(key: string) returns (had: bool)
      requires Valid()
      modifies this
      ensures Valid()
      ensures had <==> Find(old(entries), key).Some?
      ensures entries == Without(old(entries), key)
    {
      DistinctWithout(entries, key);
      had := Find(entries, key).Some?;
      entries := Without(entries, key);
    }

    method Clear()
      modifies this
      ensures Valid() && entries == []
    {
      entries := [];
    }
  }

  lemma DistinctWithout<V>(s: seq<Entry<V>>, key: string)
    requires Distinct(s)
    ensures Distinct(Without(s, key)) && forall i :: 0 <= i < |Without(s, key)| ==> Without(s, key)[i].key != key
    ensures |Without(s, key)| == |s| - (if Find(s, key).Some? then 1 else 0)
  {
  }

  // ---------------------------------------------------------------------------------- whole runs

  datatype Op<V> =
    | Get(key: string, now: real)
    | Set(key: string, value: V, now: real, lifetime: Option<Lifetime>)
    | Delete(key: string)
    | Clear

  function Apply<V>(s: seq<Entry<V>>, op: Op<V>, limit: nat, ttl: real): seq<Entry<V>> {
    match op
    case Get(key, now) => Touched(s, key, now)
    case Set(key, value, now, lifetime) => Stored(s, key, value, Lasting(lifetime, ttl), now, limit)
    case Delete(key) => Without(s, key)
    case Clear => []
  }

  /** The entries of a cache of `limit` entries after a whole run. */
  function Run<V>(ops: seq<Op<V>>, limit: nat, ttl: real): seq<Entry<V>> {
    if ops == [] then []
    else Apply(Run(ops[..|ops| - 1], limit, ttl), ops[|ops| - 1], limit, ttl)
  }

  lemma RunStep<V>(ops: seq<Op<V>>, limit: nat, ttl: real)
    requires ops != []
    ensures Run(ops, limit, ttl) == Apply(Run(ops[..|ops| - 1], limit, ttl), ops[|ops| - 1], limit, ttl)
  {
  }

  lemma ApplyValid<V>(s: seq<Entry<V>>, op: Op<V>, limit: nat, ttl: real)
    requires Distinct(s) && |s| <= limit && limit >= 1
    ensures Distinct(Apply(s, op, limit, ttl)) && |Apply(s, op, limit, ttl)| <= limit
  {
    hide Find, Without;
    if !op.Clear? {
      DistinctWithout(s, op.key);
    }
  }

  lemma {:induction false} RunValid<V>(ops: seq<Op<V>>, limit: nat, ttl: real)
    requires limit >= 1
    ensures Distinct(Run(ops, limit, ttl)) && |Run(ops, limit, ttl)| <= limit
  {
    if ops != [] {
      RunValid(ops[..|ops| - 1], limit, ttl);
      ApplyValid(Run(ops[..|ops| - 1], limit, ttl), ops[|ops| - 1], limit, ttl);
    }
  }

  // ---------------------------------------------------------------------------------- inclusion

  /** The same entries in the same order, and at most one more in the bigger cache. */
  ghost predicate Includes<V>(big: seq<Entry<V>>, small: seq<Entry<V>>) {
    match big == small
    case true => true
    case false => exists at :: 0 <= at < |big| && Skip(big, at) == small
  }

  lemma {:induction false} FindIs<V>(s: seq<Entry<V>>, i: nat)
    requires Distinct(s) && i < |s|
    ensures Find(s, s[i].key) == Some(i)
  {
    if i > 0 {
      FindIs(s[1..], i - 1);
    }
  }

  lemma FindSkipped<V>(big: seq<Entry<V>>, at: nat, key: string)
    requires Distinct(big) && at < |big|
    ensures big[at].key == key ==> Find(Skip(big, at), key).None? && Find(big, key) == Some(at)
    ensures big[at].key != key ==>
              match Find(big, key)
              case None => Find(Skip(big, at), key).None?
              case Some(i) => Find(Skip(big, at), key) == Some(if i < at then i else i - 1)
  {
    var small := Skip(big, at);
    assert forall i :: 0 <= i < at ==> small[i] == big[i];
    assert forall i :: at <= i < |small| ==> small[i] == big[i + 1];
    assert Distinct(small);
    FindIs(big, at);
    var found := Find(big, key);
    if found.None? {
      assert forall i :: 0 <= i < |small| ==> small[i].key != key;
    } else if found.value != at {
      FindIs(small, if found.value < at then found.value else found.value - 1);
    } else {
      assert forall i :: 0 <= i < |small| ==> small[i].key != key;
    }
  }

  lemma SkipTwice<V>(s: seq<Entry<V>>, i: nat, j: nat)
    requires i < j < |s|
    ensures Skip(Skip(s, i), j - 1) == Skip(Skip(s, j), i)
  {
  }

  lemma SkippedIncludes<V>(big: seq<Entry<V>>, at: nat)
    requires at < |big|
    ensures Includes(big, Skip(big, at))
  {
  }

  lemma WithoutSkipped<V>(big: seq<Entry<V>>, at: nat, key: string)
    requires Distinct(big) && at < |big| && Find(big, key).Some? && big[at].key != key
    ensures Includes(Without(big, key), Without(Skip(big, at), key))
    ensures var found := Find(Skip(big, at), key);
            found.Some? && Skip(big, at)[found.value] == big[Find(big, key).value]
  {
    FindSkipped(big, at, key);
    var i := Find(big, key).value;
    if i < at {
      SkipTwice(big, i, at);
      SkippedIncludes(Skip(big, i), at - 1);
    } else {
      SkipTwice(big, at, i);
      SkippedIncludes(Skip(big, i), at);
    }
  }

  lemma IncludesWithout<V>(big: seq<Entry<V>>, small: seq<Entry<V>>, key: string)
    requires Distinct(big) && Includes(big, small)
    ensures Includes(Without(big, key), Without(small, key))
    ensures Find(small, key).Some? ==>
              Find(big, key).Some? && small[Find(small, key).value] == big[Find(big, key).value]
  {
    if big != small {
      var at :| 0 <= at < |big| && Skip(big, at) == small;
      FindSkipped(big, at, key);
      if Find(big, key).Some? && big[at].key != key {
        WithoutSkipped(big, at, key);
      } else if big[at].key == key {
        assert Without(big, key) == small == Without(small, key);
      } else {
        assert Without(big, key) == big && Without(small, key) == small;
      }
    }
  }

  lemma IncludesPush<V>(big: seq<Entry<V>>, small: seq<Entry<V>>, e: Entry<V>)
    requires Includes(big, small)
    ensures Includes(big + [e], small + [e])
  {
    if big != small {
      var at :| 0 <= at < |big| && Skip(big, at) == small;
      assert Skip(big + [e], at) == small + [e];
    }
  }

  /** What the bigger cache alone holds is looked up: it moves to the end, the smaller one misses. */
  lemma IncludesExtraTouched<V>(big: seq<Entry<V>>, small: seq<Entry<V>>, key: string)
    requires Distinct(big) && Includes(big, small) && Find(big, key).Some? && Find(small, key).None?
    ensures Without(big, key) == small
    ensures Includes(Without(big, key) + [big[Find(big, key).value]], small)
  {
    var at :| 0 <= at < |big| && Skip(big, at) == small;
    FindSkipped(big, at, key);
    var moved := Without(big, key) + [big[Find(big, key).value]];
    assert Skip(moved, |moved| - 1) == small;
  }

  /** Both drop what is over their limit; the bigger one keeps at most one entry more. */
  lemma IncludesNewest<V>(big: seq<Entry<V>>, small: seq<Entry<V>>, limit: nat)
    requires Includes(big, small) && |small| <= limit + 1 && |big| <= limit + 2
    ensures Includes(Newest(big, limit + 1), Newest(small, limit))
  {
    var (b, s) := (Newest(big, limit + 1), Newest(small, limit));
    if big == small {
      if |small| > limit {
        assert Skip(b, 0) == s;
      }
    } else {
      var at :| 0 <= at < |big| && Skip(big, at) == small;
      if |small| > limit {
        if at == 0 {
          assert b == small && Skip(b, 0) == s;
        } else {
          assert Skip(b, at - 1) == s;
        }
      } else {
        assert b == big && s == small;
      }
    }
  }

  lemma TouchIncludes<V>(big: seq<Entry<V>>, small: seq<Entry<V>>, key: string, now: real)
    requires Distinct(big) && Distinct(small) && Includes(big, small)
    ensures Includes(Touched(big, key, now), Touched(small, key, now))
  {
    IncludesWithout(big, small, key);
    if Find(small, key).Some? {
      var e := small[Find(small, key).value];
      IncludesPush(Without(big, key), Without(small, key), e);
      TouchedIs(big, key, now, e);
      TouchedIs(small, key, now, e);
    } else if Find(big, key).Some? {
      var e := big[Find(big, key).value];
      IncludesExtraTouched(big, small, key);
      TouchedIs(big, key, now, e);
    }
  }

  lemma TouchedIs<V>(s: seq<Entry<V>>, key: string, now: real, e: Entry<V>)
    requires Find(s, key).Some? && s[Find(s, key).value] == e
    ensures Touched(s, key, now) == if e.expiresAt <= now then Without(s, key) else Without(s, key) + [e]
  {
  }

  lemma StoreIncludes<V>(big: seq<Entry<V>>, small: seq<Entry<V>>, key: string, value: V, life: Option<real>, now: real, limit: nat)
    requires Distinct(big) && Distinct(small) && Includes(big, small) && |small| <= limit && |big| <= limit + 1
    ensures Includes(Stored(big, key, value, life, now, limit + 1), Stored(small, key, value, life, now, limit))
  {
    IncludesWithout(big, small, key);
    DistinctWithout(big, key);
    DistinctWithout(small, key);
    if life.Some? {
      var e := Entry(key, value, now + life.value);
      IncludesPush(Without(big, key), Without(small, key), e);
      IncludesNewest(Without(big, key) + [e], Without(small, key) + [e], limit);
    }
  }

  lemma ApplyIncludes<V>(big: seq<Entry<V>>, small: seq<Entry<V>>, op: Op<V>, limit: nat, ttl: real)
    requires Distinct(big) && Distinct(small) && Includes(big, small) && |small| <= limit && |big| <= limit + 1
    ensures Includes(Apply(big, op, limit + 1, ttl), Apply(small, op, limit, ttl))
  {
    match op
    case Get(key, now) => TouchIncludes(big, small, key, now);
    case Set(key, value, now, lifetime) => StoreIncludes(big, small, key, value, Lasting(lifetime, ttl), now, limit);
    case Delete(key) => IncludesWithout(big, small, key);
    case Clear =>
  }

  /**
   After any run, expiry and per-entry lifetimes included, a cache of `limit + 1` entries holds what
   one of `limit` entries holds, in the same order, and at most one entry more.
   */
  lemma {:induction false} OneMoreIncludes<V>(ops: seq<Op<V>>, limit: nat, ttl: real)
    requires limit >= 1
    ensures Includes(Run(ops, limit + 1, ttl), Run(ops, limit, ttl))
  {
    hide Apply;
    if ops != [] {
      var (init, last) := (ops[..|ops| - 1], ops[|ops| - 1]);
      OneMoreIncludes(init, limit, ttl);
      RunValid(init, limit, ttl);
      RunValid(init, limit + 1, ttl);
      ApplyIncludes(Run(init, limit + 1, ttl), Run(init, limit, ttl), last, limit, ttl);
    }
  }

  lemma IncludedHits<V>(big: seq<Entry<V>>, small: seq<Entry<V>>, key: string, now: real)
    requires Distinct(big) && Includes(big, small) && Hit(small, key, now).Some?
    ensures Hit(big, key, now) == Hit(small, key, now)
  {
    IncludesWithout(big, small, key);
  }

  /** A larger cache hits, with the same value, whenever a smaller one does. */
  lemma {:induction false} LargerHitsMore<V>(ops: seq<Op<V>>, limit: nat, larger: nat, ttl: real, key: string, now: real)
    requires 1 <= limit <= larger && Hit(Run(ops, limit, ttl), key, now).Some?
    ensures Hit(Run(ops, larger, ttl), key, now) == Hit(Run(ops, limit, ttl), key, now)
    decreases larger - limit
  {
    hide Apply, Distinct, Includes;
    if limit < larger {
      OneMoreIncludes(ops, limit, ttl);
      RunValid(ops, limit + 1, ttl);
      IncludedHits(Run(ops, limit + 1, ttl), Run(ops, limit, ttl), key, now);
      LargerHitsMore(ops, limit + 1, larger, ttl, key, now);
    }
  }

  // ----------------------------------------------------------------------------------- freshness

  /** The operation ends whatever was stored under the key before it. */
  predicate Settles<V>(op: Op<V>, key: string) {
    op.Clear? || (!op.Get? && op.key == key)
  }

  /** The last operation that settled the key stored `value`, to expire at `expiresAt`. */
  ghost predicate LastStored<V>(ops: seq<Op<V>>, ttl: real, key: string, value: V, expiresAt: real) {
    exists i :: 0 <= i < |ops| && StoredAt(ops, ttl, i, key, value, expiresAt)
  }

  ghost predicate StoredAt<V>(ops: seq<Op<V>>, ttl: real, i: nat, key: string, value: V, expiresAt: real)
    requires i < |ops|
  {
    && ops[i].Set? && ops[i].key == key && ops[i].value == value
    && Lasting(ops[i].lifetime, ttl).Some? && expiresAt == ops[i].now + Lasting(ops[i].lifetime, ttl).value
    && forall j :: i < j < |ops| ==> !Settles(ops[j], key)
  }

  lemma AppliedFrom<V>(s: seq<Entry<V>>, op: Op<V>, limit: nat, ttl: real, e: Entry<V>)
    requires Distinct(s) && e in Apply(s, op, limit, ttl)
    ensures (e in s && !Settles(op, e.key))
         || (op.Set? && op.key == e.key && op.value == e.value && Lasting(op.lifetime, ttl).Some?
             && e.expiresAt == op.now + Lasting(op.lifetime, ttl).value)
  {
    hide Find, Distinct;
    if !op.Clear? {
      DistinctWithout(s, op.key);
    }
  }

  lemma StillLast<V>(ops: seq<Op<V>>, ttl: real, e: Entry<V>)
    requires ops != [] && !Settles(ops[|ops| - 1], e.key) && LastStored(ops[..|ops| - 1], ttl, e.key, e.value, e.expiresAt)
    ensures LastStored(ops, ttl, e.key, e.value, e.expiresAt)
  {
    var init := ops[..|ops| - 1];
    var i :| 0 <= i < |init| && StoredAt(init, ttl, i, e.key, e.value, e.expiresAt);
    assert StoredAt(ops, ttl, i, e.key, e.value, e.expiresAt);
  }

  lemma NowLast<V>(ops: seq<Op<V>>, ttl: real, e: Entry<V>)
    requires ops != []
    requires var op := ops[|ops| - 1];
             && op.Set? && op.key == e.key && op.value == e.value && Lasting(op.lifetime, ttl).Some?
             && e.expiresAt == op.now + Lasting(op.lifetime, ttl).value
    ensures LastStored(ops, ttl, e.key, e.value, e.expiresAt)
  {
    assert StoredAt(ops, ttl, |ops| - 1, e.key, e.value, e.expiresAt);
  }

  lemma {:induction false} EntriesAreLastStored<V>(ops: seq<Op<V>>, limit: nat, ttl: real, e: Entry<V>)
    requires limit >= 1 && e in Run(ops, limit, ttl)
    ensures LastStored(ops, ttl, e.key, e.value, e.expiresAt)
  {
    var (init, last) := (ops[..|ops| - 1], ops[|ops| - 1]);
    RunValid(init, limit, ttl);
    RunStep(ops, limit, ttl);
    AppliedFrom(Run(init, limit, ttl), last, limit, ttl, e);
    if e in Run(init, limit, ttl) && !Settles(last, e.key) {
      EntriesAreLastStored(init, limit, ttl, e);
      StillLast(ops, ttl, e);
    } else {
      NowLast(ops, ttl, e);
    }
  }

  /** A hit is the value last stored under the key, before it expired; nothing else settled the key since. */
  lemma HitsAreFresh<V>(ops: seq<Op<V>>, limit: nat, ttl: real, key: string, now: real)
    requires limit >= 1 && Hit(Run(ops, limit, ttl), key, now).Some?
    ensures exists expiresAt :: expiresAt > now && LastStored(ops, ttl, key, Hit(Run(ops, limit, ttl), key, now).value, expiresAt)
  {
    var s := Run(ops, limit, ttl);
    EntriesAreLastStored(ops, limit, ttl, s[Find(s, key).value]);
  }
}

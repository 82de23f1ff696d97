/**
 Least recently used: what `set` stores is there to be hit, and whatever a full cache gives up was
 stored or hit longer ago than everything it keeps.
 */
module LruRecency {
  import opened Options
  import opened Sequences
  import opened LruCaches

  /** What was just stored is the newest entry, and a get before it expires hits it. */
  lemma JustStored<V>(s: seq<Entry<V>>, key: string, value: V, life: real, now: real, limit: nat, at: real)
    requires Distinct(s) && limit >= 1 && at < now + life
    ensures var t := Stored(s, key, value, Some(life), now, limit);
            t != [] && t[|t| - 1] == Entry(key, value, now + life) && Hit(t, key, at) == Some(value)
  {
    DistinctWithout(s, key);
    var t := Stored(s, key, value, Some(life), now, limit);
    FindIs(t, |t| - 1);
  }

  // --------------------------------------------------------------------------------- last uses

  /** The operation at `i` stored the key for some time, or hit it. */
  predicate UsedAt<V>(ops: seq<Op<V>>, limit: nat, ttl: real, i: nat, key: string)
    requires i < |ops|
  {
    match ops[i]
    case Set(k, _, _, lifetime) =>
      var life := if lifetime.None? then Ms(ttl) else lifetime.value;
      k == key && life.Ms? && life.ms > 0.0
    case Get(k, now) => k == key && Hit(Run(ops[..i], limit, ttl), key, now).Some?
    case Delete(_) => false
    case Clear => false
  }

  predicate Names<V>(op: Op<V>, key: string) {
    op.Clear? || op.key == key
  }

  /** The last use of a key that nothing has named since. */
  ghost predicate LastUsedAt<V>(ops: seq<Op<V>>, limit: nat, ttl: real, i: nat, key: string) {
    i < |ops| && UsedAt(ops, limit, ttl, i, key) && forall j :: i < j < |ops| ==> !Names(ops[j], key)
  }

  function LastUse<V>(ops: seq<Op<V>>, limit: nat, ttl: real, key: string): Option<nat> {
    if ops == [] then None
    else if UsedAt(ops, limit, ttl, |ops| - 1, key) then Some(|ops| - 1)
    else if Names(ops[|ops| - 1], key) then None
    else LastUse(ops[..|ops| - 1], limit, ttl, key)
  }

  lemma UsedBefore<V>(ops: seq<Op<V>>, limit: nat, ttl: real, i: nat, key: string)
    requires i < |ops| - 1
    ensures UsedAt(ops[..|ops| - 1], limit, ttl, i, key) == UsedAt(ops, limit, ttl, i, key)
  {
    hide Run, Hit;
    assert ops[..|ops| - 1][..i] == ops[..i];
  }

  lemma UseNames<V>(ops: seq<Op<V>>, limit: nat, ttl: real, i: nat, key: string)
    requires i < |ops| && UsedAt(ops, limit, ttl, i, key)
    ensures Names(ops[i], key)
  {
  }

  lemma {:induction false} LastUseMeans<V>(ops: seq<Op<V>>, limit: nat, ttl: real, key: string, i: nat)
    ensures LastUse(ops, limit, ttl, key) == Some(i) <==> LastUsedAt(ops, limit, ttl, i, key)
    ensures LastUse(ops, limit, ttl, key) == Some(i) ==> i < |ops|
  {
    hide UsedAt, Names;
    if ops != [] {
      var n := |ops| - 1;
      LastUseMeans(ops[..n], limit, ttl, key, i);
      if UsedAt(ops, limit, ttl, n, key) {
        UseNames(ops, limit, ttl, n, key);
      }
      if i < n {
        UsedBefore(ops, limit, ttl, i, key);
        assert forall j :: 0 <= j < n ==> ops[..n][j] == ops[j];
      }
    }
  }

  /** The keys stored or hit after `i`. */
  function UsedSince<V>(ops: seq<Op<V>>, limit: nat, ttl: real, i: nat): set<string> {
    if |ops| <= i + 1 then {}
    else
      var n := |ops| - 1;
      UsedSince(ops[..n], limit, ttl, i)
      + if !ops[n].Clear? && UsedAt(ops, limit, ttl, n, ops[n].key) then {ops[n].key} else {}
  }

  lemma {:induction false} UsedSinceMeans<V>(ops: seq<Op<V>>, limit: nat, ttl: real, i: nat, key: string)
    ensures key in UsedSince(ops, limit, ttl, i) <==> exists j :: i < j < |ops| && UsedAt(ops, limit, ttl, j, key)
  {
    hide UsedAt;
    if |ops| > i + 1 {
      var n := |ops| - 1;
      UsedSinceMeans(ops[..n], limit, ttl, i, key);
      if UsedAt(ops, limit, ttl, n, key) {
        UseNamesOnly(ops, limit, ttl, n, key);
      }
      forall j | i < j < n ensures UsedAt(ops[..n], limit, ttl, j, key) == UsedAt(ops, limit, ttl, j, key) {
        UsedBefore(ops, limit, ttl, j, key);
      }
    }
  }

  lemma UseNamesOnly<V>(ops: seq<Op<V>>, limit: nat, ttl: real, i: nat, key: string)
    requires i < |ops| && UsedAt(ops, limit, ttl, i, key)
    ensures !ops[i].Clear? && ops[i].key == key
  {
  }

  // ---------------------------------------------------------------------------------- one step

  predicate Holds<V>(s: seq<Entry<V>>, key: string) {
    exists p :: 0 <= p < |s| && s[p].key == key
  }

  /** Entries stand in the order of their last uses, and a key that is missing was used before all of them. */
  ghost predicate Recent<V>(s: seq<Entry<V>>, use: string -> Option<nat>) {
    && (forall p :: 0 <= p < |s| ==> use(s[p].key).Some?)
    && (forall p, q :: 0 <= p < q < |s| ==> use(s[p].key).value < use(s[q].key).value)
    && (forall x, p :: 0 <= p < |s| && use(x).Some? && !Holds(s, x) ==> use(x).value < use(s[p].key).value)
  }

  lemma AreRecent<V>(s: seq<Entry<V>>, use: string -> Option<nat>)
    requires forall p :: 0 <= p < |s| ==> use(s[p].key).Some?
    requires forall p, q :: 0 <= p < q < |s| ==> use(s[p].key).value < use(s[q].key).value
    requires forall x, p :: 0 <= p < |s| && use(x).Some? && !Holds(s, x) ==> use(x).value < use(s[p].key).value
    ensures Recent(s, use)
  {
  }

  lemma UsedInOrder<V>(s: seq<Entry<V>>, use: string -> Option<nat>, p: nat, q: nat)
    requires Recent(s, use) && p < q < |s|
    ensures use(s[p].key).Some? && use(s[q].key).Some? && use(s[p].key).value < use(s[q].key).value
  {
  }

  lemma MissingFirst<V>(s: seq<Entry<V>>, use: string -> Option<nat>, x: string, p: nat)
    requires Recent(s, use) && p < |s| && use(x).Some? && !Holds(s, x)
    ensures use(s[p].key).Some? && use(x).value < use(s[p].key).value
  {
  }

  lemma HeldIsUsed<V>(s: seq<Entry<V>>, use: string -> Option<nat>, p: nat)
    requires Recent(s, use) && p < |s|
    ensures use(s[p].key).Some?
  {
  }

  /** Where an entry stood before the key went. */
  function Origin<V>(s: seq<Entry<V>>, key: string, p: nat): nat {
    var at := Find(s, key);
    if at.Some? && p >= at.value then p + 1 else p
  }

  lemma WithoutAt<V>(s: seq<Entry<V>>, key: string, p: nat)
    requires Distinct(s) && p < |Without(s, key)|
    ensures Origin(s, key, p) < |s| && Without(s, key)[p] == s[Origin(s, key, p)] && Without(s, key)[p].key != key
  {
    DistinctWithout(s, key);
  }

  lemma WithoutHolds<V>(s: seq<Entry<V>>, key: string, x: string)
    requires Distinct(s)
    ensures Holds(Without(s, key), x) <==> x != key && Holds(s, x)
  {
    var t := Without(s, key);
    DistinctWithout(s, key);
    if x != key && Holds(s, x) {
      var at := Find(s, key);
      var i :| 0 <= i < |s| && s[i].key == x;
      assert if at.Some? && i > at.value then t[i - 1] == s[i] else t[i] == s[i];
    }
  }

  lemma PushedHolds<V>(s: seq<Entry<V>>, e: Entry<V>, x: string)
    ensures Holds(s + [e], x) <==> x == e.key || Holds(s, x)
  {
    assert (s + [e])[|s|] == e;
    if Holds(s, x) {
      var i :| 0 <= i < |s| && s[i].key == x;
      assert (s + [e])[i] == s[i];
    }
  }

  /** A key goes, or was not there. */
  lemma RecentWithout<V>(s: seq<Entry<V>>, use: string -> Option<nat>, next: string -> Option<nat>, key: string)
    requires Distinct(s) && Recent(s, use) && next(key).None? && forall x :: x != key ==> next(x) == use(x)
    ensures Recent(Without(s, key), next)
  {
    hide Recent, Holds, Distinct, Without, Find;
    var t := Without(s, key);
    forall p | 0 <= p < |t| ensures next(t[p].key).Some? {
      WithoutAt(s, key, p);
      HeldIsUsed(s, use, Origin(s, key, p));
    }
    forall p, q | 0 <= p < q < |t| ensures next(t[p].key).value < next(t[q].key).value {
      WithoutAt(s, key, p);
      WithoutAt(s, key, q);
      UsedInOrder(s, use, Origin(s, key, p), Origin(s, key, q));
    }
    forall x, p | 0 <= p < |t| && next(x).Some? && !Holds(t, x) ensures next(x).value < next(t[p].key).value {
      WithoutHolds(s, key, x);
      WithoutAt(s, key, p);
      MissingFirst(s, use, x, Origin(s, key, p));
    }
    AreRecent(t, next);
  }

  /** A key comes in at the end, used later than all others. */
  lemma RecentPushed<V>(s: seq<Entry<V>>, use: string -> Option<nat>, next: string -> Option<nat>, e: Entry<V>, now: nat)
    requires Recent(s, use) && use(e.key).None? && next(e.key) == Some(now)
    requires forall x :: x != e.key ==> next(x) == use(x) && (use(x).Some? ==> use(x).value < now)
    ensures Recent(s + [e], next)
  {
    hide Recent, Holds;
    var t := s + [e];
    forall p | 0 <= p < |s| ensures t[p].key != e.key && next(t[p].key) == use(s[p].key) && use(s[p].key).Some? {
      HeldIsUsed(s, use, p);
    }
    forall p, q | 0 <= p < q < |t| ensures next(t[p].key).value < next(t[q].key).value {
      if q < |s| {
        UsedInOrder(s, use, p, q);
      }
    }
    forall x, p | 0 <= p < |t| && next(x).Some? && !Holds(t, x) ensures next(x).value < next(t[p].key).value {
      PushedHolds(s, e, x);
      if p < |s| {
        MissingFirst(s, use, x, p);
      }
    }
    AreRecent(t, next);
  }

  lemma NewestAt<V>(s: seq<Entry<V>>, limit: nat, p: nat)
    requires p < |Newest(s, limit)|
    ensures |Newest(s, limit)| <= |s| && Newest(s, limit)[p] == s[p + |s| - |Newest(s, limit)|]
  {
  }

  /** Whoever is not among the newest stood before all of them. */
  lemma StoodBefore<V>(s: seq<Entry<V>>, limit: nat, x: string) returns (r: nat)
    requires Holds(s, x) && !Holds(Newest(s, limit), x)
    ensures r < |s| - |Newest(s, limit)| && s[r].key == x
  {
    r :| 0 <= r < |s| && s[r].key == x;
    if r >= |s| - |Newest(s, limit)| {
      NewestAt(s, limit, r - (|s| - |Newest(s, limit)|));
    }
  }

  /** The front goes, and was used before what is left. */
  lemma RecentNewest<V>(s: seq<Entry<V>>, use: string -> Option<nat>, limit: nat)
    requires Recent(s, use)
    ensures Recent(Newest(s, limit), use)
  {
    hide Recent, Holds, Newest;
    var t := Newest(s, limit);
    forall p | 0 <= p < |t| ensures use(t[p].key).Some? {
      NewestAt(s, limit, p);
      HeldIsUsed(s, use, p + |s| - |t|);
    }
    forall p, q | 0 <= p < q < |t| ensures use(t[p].key).value < use(t[q].key).value {
      NewestAt(s, limit, p);
      NewestAt(s, limit, q);
      UsedInOrder(s, use, p + |s| - |t|, q + |s| - |t|);
    }
    forall x, p | 0 <= p < |t| && use(x).Some? && !Holds(t, x) ensures use(x).value < use(t[p].key).value {
      NewestAt(s, limit, p);
      if Holds(s, x) {
        var r := StoodBefore(s, limit, x);
        UsedInOrder(s, use, r, p + |s| - |t|);
      } else {
        MissingFirst(s, use, x, p + |s| - |t|);
      }
    }
    AreRecent(t, use);
  }

  /** Missing keys gave way to at least `limit` others. */
  ghost predicate MadeRoom<V>(s: seq<Entry<V>>, use: string -> Option<nat>, since: nat -> set<string>, limit: nat) {
    forall x :: use(x).Some? && !Holds(s, x) ==> |since(use(x).value)| >= limit
  }

  function KeysOf<V>(s: seq<Entry<V>>): set<string> {
    set i | 0 <= i < |s| :: s[i].key
  }

  lemma {:induction false} AsManyKeys<V>(s: seq<Entry<V>>)
    requires Distinct(s)
    ensures |KeysOf(s)| == |s|
  {
    if s != [] {
      var (init, last) := (s[..|s| - 1], s[|s| - 1]);
      AsManyKeys(init);
      assert forall e :: e in s <==> e in init || e == last;
      assert KeysOf(s) == KeysOf(init) + {last.key};
      assert last.key !in KeysOf(init);
    }
  }

  lemma DistinctNewest<V>(s: seq<Entry<V>>, limit: nat)
    requires Distinct(s)
    ensures Distinct(Newest(s, limit))
    ensures |s| > limit ==> |Newest(s, limit)| == limit
    ensures |s| <= limit ==> Newest(s, limit) == s
  {
  }

  /** Whoever is pushed out of a full cache was used before every one of the `limit` that stay. */
  lemma PushedOut<V>(s: seq<Entry<V>>, use: string -> Option<nat>, since: nat -> set<string>, limit: nat, x: string)
    requires Distinct(s) && Recent(s, use) && Holds(s, x) && !Holds(Newest(s, limit), x)
    requires forall key, i: nat {:trigger key in since(i)} :: use(key).Some? && use(key).value > i ==> key in since(i)
    ensures use(x).Some? && |since(use(x).value)| >= limit
  {
    hide Recent, Holds, Newest, Distinct;
    var t := Newest(s, limit);
    DistinctNewest(s, limit);
    var r := StoodBefore(s, limit, x);
    HeldIsUsed(s, use, r);
    forall p | 0 <= p < |t| ensures t[p].key in since(use(x).value) {
      NewestAt(s, limit, p);
      UsedInOrder(s, use, r, p + |s| - |t|);
    }
    AsManyKeys(t);
    SubsetSize(KeysOf(t), since(use(x).value));
  }

  // ---------------------------------------------------------------------------------- whole runs

  ghost function Uses<V>(ops: seq<Op<V>>, limit: nat, ttl: real): string -> Option<nat> {
    (key: string) => LastUse(ops, limit, ttl, key)
  }

  ghost function Since<V>(ops: seq<Op<V>>, limit: nat, ttl: real): nat -> set<string> {
    (i: nat) => UsedSince(ops, limit, ttl, i)
  }

  /** What the last operation does to the uses of a key. */
  lemma UseStep<V>(ops: seq<Op<V>>, limit: nat, ttl: real, key: string)
    requires ops != []
    ensures var (n, use) := (|ops| - 1, Uses(ops[..|ops| - 1], limit, ttl));
            && Uses(ops, limit, ttl)(key) == (if UsedAt(ops, limit, ttl, n, key) then Some(n)
                                              else if Names(ops[n], key) then None else use(key))
            && (use(key).Some? ==> use(key).value < n)
  {
    hide UsedAt, Names, LastUsedAt;
    var use := Uses(ops[..|ops| - 1], limit, ttl)(key);
    if use.Some? {
      LastUseMeans(ops[..|ops| - 1], limit, ttl, key, use.value);
    }
  }

  lemma SinceGrows<V>(ops: seq<Op<V>>, limit: nat, ttl: real, i: nat)
    requires ops != []
    ensures Since(ops[..|ops| - 1], limit, ttl)(i) <= Since(ops, limit, ttl)(i)
  {
    hide UsedAt;
  }

  lemma UsedLaterIsSince<V>(ops: seq<Op<V>>, limit: nat, ttl: real, key: string, i: nat)
    requires Uses(ops, limit, ttl)(key).Some? && Uses(ops, limit, ttl)(key).value > i
    ensures key in Since(ops, limit, ttl)(i)
  {
    hide UsedAt, LastUse, UsedSince, Names;
    var j := LastUse(ops, limit, ttl, key).value;
    LastUseMeans(ops, limit, ttl, key, j);
    UsedSinceMeans(ops, limit, ttl, i, key);
  }

  lemma StillRoom<V>(s: seq<Entry<V>>, t: seq<Entry<V>>, use: string -> Option<nat>, next: string -> Option<nat>,
                     since: nat -> set<string>, later: nat -> set<string>, limit: nat)
    requires MadeRoom(s, use, since, limit) && forall i: nat {:trigger later(i)} :: since(i) <= later(i)
    requires forall x :: next(x).Some? && !Holds(t, x) ==> next(x) == use(x) && !Holds(s, x)
    ensures MadeRoom(t, next, later, limit)
  {
    forall x | next(x).Some? && !Holds(t, x) ensures |later(next(x).value)| >= limit {
      assert |since(use(x).value)| >= limit;
      SubsetSize(since(use(x).value), later(use(x).value));
    }
  }

  /** A key goes: deleted, expired, stored for no time, or asked for in vain. */
  lemma StepWithout<V>(s: seq<Entry<V>>, use: string -> Option<nat>, next: string -> Option<nat>,
                       since: nat -> set<string>, later: nat -> set<string>, limit: nat, key: string)
    requires Distinct(s) && Recent(s, use) && MadeRoom(s, use, since, limit)
    requires next(key).None? && (forall x :: x != key ==> next(x) == use(x))
    requires forall i: nat {:trigger later(i)} :: since(i) <= later(i)
    ensures Recent(Without(s, key), next) && MadeRoom(Without(s, key), next, later, limit)
  {
    hide Recent, Holds, Distinct, Without, MadeRoom;
    RecentWithout(s, use, next, key);
    var t := Without(s, key);
    forall x | next(x).Some? && !Holds(t, x) ensures next(x) == use(x) && !Holds(s, x) {
      WithoutHolds(s, key, x);
    }
    StillRoom(s, t, use, next, since, later, limit);
  }

  /** A key goes to the end, new or not. */
  lemma StepPushed<V>(s: seq<Entry<V>>, use: string -> Option<nat>, next: string -> Option<nat>,
                      since: nat -> set<string>, later: nat -> set<string>, limit: nat, e: Entry<V>, now: nat)
    requires Distinct(s) && Recent(s, use) && MadeRoom(s, use, since, limit)
    requires next(e.key) == Some(now) && (forall x :: x != e.key ==> next(x) == use(x))
    requires forall x :: use(x).Some? ==> use(x).value < now
    requires forall i: nat {:trigger later(i)} :: since(i) <= later(i)
    ensures Distinct(Without(s, e.key) + [e])
    ensures Recent(Without(s, e.key) + [e], next) && MadeRoom(Without(s, e.key) + [e], next, later, limit)
  {
    hide Without, Recent, Holds, MadeRoom;
    var gone := (x: string) => if x == e.key then None else use(x);
    DistinctWithout(s, e.key);
    StepWithout(s, use, gone, since, later, limit, e.key);
    RecentPushed(Without(s, e.key), gone, next, e, now);
    var (r, t) := (Without(s, e.key), Without(s, e.key) + [e]);
    forall x | next(x).Some? && !Holds(t, x) ensures next(x) == gone(x) && !Holds(r, x) {
      PushedHolds(r, e, x);
    }
    StillRoom(r, t, gone, next, later, later, limit);
  }

  lemma StepNewest<V>(s: seq<Entry<V>>, use: string -> Option<nat>, since: nat -> set<string>, limit: nat)
    requires Distinct(s) && Recent(s, use) && MadeRoom(s, use, since, limit)
    requires forall key, i: nat {:trigger key in since(i)} :: use(key).Some? && use(key).value > i ==> key in since(i)
    ensures Recent(Newest(s, limit), use) && MadeRoom(Newest(s, limit), use, since, limit)
  {
    hide Recent, Newest, Distinct, Holds;
    RecentNewest(s, use, limit);
    forall x | use(x).Some? && !Holds(Newest(s, limit), x) ensures |since(use(x).value)| >= limit {
      if Holds(s, x) {
        PushedOut(s, use, since, limit, x);
      }
    }
  }

  /**
   Over any run the cache gives up the least recently used: its entries stand in the order in which they
   were last stored or hit; a key that was stored or hit and not named since, and is gone all the same,
   was used before every key that is left, and at least `limit` keys have been used since.
   */
  lemma {:induction false} SurvivorsAreRecent<V>(ops: seq<Op<V>>, limit: nat, ttl: real)
    requires limit >= 1
    ensures Recent(Run(ops, limit, ttl), Uses(ops, limit, ttl))
    ensures MadeRoom(Run(ops, limit, ttl), Uses(ops, limit, ttl), Since(ops, limit, ttl), limit)
  {
    hide Apply, Recent, MadeRoom, LastUse, UsedSince, UsedAt;
    if ops == [] {
      NothingUsed<V>(limit, ttl);
    } else {
      var (init, n) := (ops[..|ops| - 1], |ops| - 1);
      SurvivorsAreRecent(init, limit, ttl);
      RunValid(init, limit, ttl);
      RunStep(ops, limit, ttl);
      StepRecent(ops, limit, ttl);
    }
  }

  lemma NothingUsed<V>(limit: nat, ttl: real)
    ensures Recent(Run<V>([], limit, ttl), Uses<V>([], limit, ttl))
    ensures MadeRoom(Run<V>([], limit, ttl), Uses<V>([], limit, ttl), Since<V>([], limit, ttl), limit)
  {
  }

  lemma StepRecent<V>(ops: seq<Op<V>>, limit: nat, ttl: real)
    requires limit >= 1 && ops != []
    requires var (init, s) := (ops[..|ops| - 1], Run(ops[..|ops| - 1], limit, ttl));
             && Distinct(s) && |s| <= limit && Recent(s, Uses(init, limit, ttl))
             && MadeRoom(s, Uses(init, limit, ttl), Since(init, limit, ttl), limit)
    ensures var t := Apply(Run(ops[..|ops| - 1], limit, ttl), ops[|ops| - 1], limit, ttl);
            Recent(t, Uses(ops, limit, ttl)) && MadeRoom(t, Uses(ops, limit, ttl), Since(ops, limit, ttl), limit)
  {
    hide Recent, MadeRoom, LastUse, UsedSince, Run, Without, Newest, Uses, Since, Find, Distinct;
    var (init, n, last) := (ops[..|ops| - 1], |ops| - 1, ops[|ops| - 1]);
    var s := Run(init, limit, ttl);
    var (use, next, since, later) := (Uses(init, limit, ttl), Uses(ops, limit, ttl), Since(init, limit, ttl), Since(ops, limit, ttl));
    forall x
      ensures next(x) == if UsedAt(ops, limit, ttl, n, x) then Some(n) else if Names(last, x) then None else use(x)
      ensures use(x).Some? ==> use(x).value < n
    {
      UseStep(ops, limit, ttl, x);
    }
    forall i: nat ensures since(i) <= later(i) {
      SinceGrows(ops, limit, ttl, i);
    }
    match last
    case Clear => AllGone<V>(next, later, limit);
    case Delete(key) => StepWithout(s, use, next, since, later, limit, key);
    case Get(key, now) =>
      var at := Find(s, key);
      if at.Some? && s[at.value].expiresAt > now {
        StepPushed(s, use, next, since, later, limit, s[at.value], n);
      } else {
        StepWithout(s, use, next, since, later, limit, key);
        MissLeaves(s, key, now);
      }
    case Set(key, value, now, lifetime) =>
      if Lasting(lifetime, ttl).Some? {
        var e := Entry(key, value, now + Lasting(lifetime, ttl).value);
        StepPushed(s, use, next, since, later, limit, e, n);
        forall k, i: nat | next(k).Some? && next(k).value > i ensures k in later(i) {
          UsedLaterIsSince(ops, limit, ttl, k, i);
        }
        StepNewest(Without(s, key) + [e], next, later, limit);
      } else {
        StepWithout(s, use, next, since, later, limit, key);
      }
  }

  lemma AllGone<V>(next: string -> Option<nat>, later: nat -> set<string>, limit: nat)
    requires forall x :: next(x).None?
    ensures Recent<V>([], next) && MadeRoom<V>([], next, later, limit)
  {
  }

  lemma MissLeaves<V>(s: seq<Entry<V>>, key: string, now: real)
    requires Hit(s, key, now).None?
    ensures Touched(s, key, now) == Without(s, key)
  {
  }
}

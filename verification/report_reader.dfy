/**
 packages/dashboard/lib/report-reader.ts: a bounded parallel map and a reader that remembers.

 Between two awaits a worker runs alone, so a run of `mapLimited` is a sequence of worker steps in
 some order the event loop picks; everything here holds for every order.
 */
module ReportReader {
  import opened Options
  import opened Texts

  /** At the head of its loop, waiting for the item at `index`, or through. */
  datatype Worker = Ready | Working(index: nat) | Done

  datatype Pool<R> = Pool(next: nat, workers: seq<Worker>, results: seq<Option<R>>, started: seq<nat>)

  function Fewer(limit: nat, items: nat): nat {
    if limit < items then limit else items
  }

  function Started<T, R>(items: seq<T>, limit: nat): Pool<R> {
    Pool(0, seq(Fewer(limit, |items|), i => Ready), seq(|items|, i => None), [])
  }

  /** One worker runs until it next awaits. */
  function Advance<T, R>(items: seq<T>, work: T -> R, p: Pool<R>, w: nat): Pool<R>
    requires |p.results| == |items|
  {
    if w >= |p.workers| then p
    else
      match p.workers[w]
      case Done => p
      case Working(index) =>
        if index >= |items| then p
        else p.(workers := p.workers[w := Ready], results := p.results[index := Some(work(items[index]))])
      case Ready =>
        if p.next < |items|
        then p.(next := p.next + 1, workers := p.workers[w := Working(p.next)], started := p.started + [p.next])
        else p.(workers := p.workers[w := Done])
  }

  /** Item `i` is being worked on. */
  ghost predicate InFlight<R>(p: Pool<R>, i: nat) {
    Working(i) in p.workers
  }

  ghost predicate AllStarted<R>(p: Pool<R>) {
    |p.started| == p.next && forall i :: 0 <= i < p.next ==> p.started[i] == i
  }

  /**
   Items are started in order and once each, by no more workers than the limit; exactly those started
   and no longer in flight have their result, and it is theirs.
   */
  ghost predicate Sound<T, R>(items: seq<T>, limit: nat, work: T -> R, p: Pool<R>) {
    && p.next <= |items| == |p.results| && |p.workers| == Fewer(limit, |items|) && AllStarted(p)
    && (forall a, b :: 0 <= a < b < |p.workers| && p.workers[a].Working? ==> p.workers[a] != p.workers[b])
    && (forall w <- p.workers :: w.Working? ==> w.index < p.next)
    && (forall i :: 0 <= i < |items| ==>
          p.results[i] == if i < p.next && !InFlight(p, i) then Some(work(items[i])) else None)
    && (Done in p.workers ==> p.next == |items|)
  }

  lemma WorkersChanged<R>(p: Pool<R>, q: Pool<R>, w: nat, now: Worker)
    requires w < |p.workers| && q.workers == p.workers[w := now]
    requires forall a, b :: 0 <= a < b < |p.workers| && p.workers[a].Working? ==> p.workers[a] != p.workers[b]
    ensures forall i :: InFlight(q, i) <==>
              now == Working(i) || (InFlight(p, i) && p.workers[w] != Working(i))
    ensures forall x <- q.workers :: x == now || x in p.workers
  {
    forall i | InFlight(p, i) && p.workers[w] != Working(i) ensures InFlight(q, i) {
      var k :| 0 <= k < |p.workers| && p.workers[k] == Working(i);
      assert q.workers[k] == Working(i);
    }
    assert q.workers[w] == now;
  }

  lemma AdvanceSound<T, R>(items: seq<T>, limit: nat, work: T -> R, p: Pool<R>, w: nat)
    requires Sound(items, limit, work, p)
    ensures Sound(items, limit, work, Advance(items, work, p, w))
  {
    var q := Advance(items, work, p, w);
    if w < |p.workers| && !p.workers[w].Done? {
      assert p.workers[w] in p.workers;
      WorkersChanged(p, q, w, q.workers[w]);
    }
  }

  lemma StartedSound<T, R>(items: seq<T>, limit: nat, work: T -> R)
    ensures Sound(items, limit, work, Started(items, limit))
  {
  }

  /** How much is left: two steps an item, and one to stop for each worker. */
  function Left<T, R>(items: seq<T>, p: Pool<R>): int {
    3 * (|items| - p.next) + Busy(p.workers)
  }

  function Busy(workers: seq<Worker>): nat {
    if workers == [] then 0
    else
      Busy(workers[..|workers| - 1])
      + match workers[|workers| - 1] case Done => 0 case Ready => 1 case Working(_) => 2
  }

  lemma {:induction false} BusyChanged(workers: seq<Worker>, w: nat, now: Worker)
    requires w < |workers|
    ensures Busy(workers[w := now]) == Busy(workers)
            - (match workers[w] case Done => 0 case Ready => 1 case Working(_) => 2)
            + (match now case Done => 0 case Ready => 1 case Working(_) => 2)
  {
    var next := workers[w := now];
    if w == |workers| - 1 {
      assert next[..|next| - 1] == workers[..|workers| - 1];
    } else {
      assert next[..|next| - 1] == workers[..|workers| - 1][w := now];
      BusyChanged(workers[..|workers| - 1], w, now);
    }
  }

  /** Every step of a worker that is not through brings the end nearer, so every schedule ends. */
  lemma StepsEnd<T, R>(items: seq<T>, limit: nat, work: T -> R, p: Pool<R>, w: nat)
    requires Sound(items, limit, work, p) && w < |p.workers| && !p.workers[w].Done?
    ensures 0 <= Left(items, Advance(items, work, p, w)) < Left(items, p)
  {
    assert p.workers[w] in p.workers;
    BusyChanged(p.workers, w, Advance(items, work, p, w).workers[w]);
  }

  function MapAll<T, R>(items: seq<T>, work: T -> R): seq<R> {
    seq(|items|, i requires 0 <= i < |items| => work(items[i]))
  }

  /** Once every worker is through, the results are the sequential map, in input order. */
  lemma FinishedIsMap<T, R>(items: seq<T>, limit: nat, work: T -> R, p: Pool<R>)
    requires Sound(items, limit, work, p) && limit >= 1 && forall w <- p.workers :: w.Done?
    ensures p.results == MapAll(items, (t: T) => Some(work(t)))
    ensures |p.started| == |items| && forall i :: 0 <= i < |items| ==> p.started[i] == i
  {
    if items != [] {
      assert p.workers[0] in p.workers;
    }
  }

  function RunSchedule<T, R>(items: seq<T>, limit: nat, work: T -> R, schedule: seq<nat>): (p: Pool<R>)
    ensures |p.results| == |items|
  {
    if schedule == [] then Started(items, limit)
    else Advance(items, work, RunSchedule(items, limit, work, schedule[..|schedule| - 1]), schedule[|schedule| - 1])
  }

  /** For every schedule of workers, at every moment of it. */
  lemma {:induction false} EveryScheduleSound<T, R>(items: seq<T>, limit: nat, work: T -> R, schedule: seq<nat>)
    ensures Sound(items, limit, work, RunSchedule(items, limit, work, schedule))
  {
    if schedule == [] {
      StartedSound(items, limit, work);
    } else {
      EveryScheduleSound(items, limit, work, schedule[..|schedule| - 1]);
      AdvanceSound(items, limit, work, RunSchedule(items, limit, work, schedule[..|schedule| - 1]), schedule[|schedule| - 1]);
    }
  }

  function Values<R>(results: seq<Option<R>>): seq<R>
    requires forall r <- results :: r.Some?
  {
    seq(|results|, i requires 0 <= i < |results| => assert results[i] in results; results[i].value)
  }

  /** mapLimited: any worker that is not through may be the next to run. */
  method MapLimited<T, R>(items: seq<T>, limit: nat, work: T -> R) returns (r: seq<R>)
    requires limit >= 1
    ensures r == MapAll(items, work)
  {
    var results := new Option<R>[|items|](_ => None);
    var next := 0;
    var workers: seq<Worker> := seq(Fewer(limit, |items|), i => Ready);
    ghost var started: seq<nat> := [];
    StartedSound(items, limit, work);
    assert Started<T, R>(items, limit) == Pool(next, workers, results[..], started);
    while exists w :: 0 <= w < |workers| && !workers[w].Done?
      invariant Sound(items, limit, work, Pool(next, workers, results[..], started))
      decreases Left(items, Pool(next, workers, results[..], started))
    {
      var w :| 0 <= w < |workers| && !workers[w].Done?;
      ghost var before := Pool(next, workers, results[..], started);
      AdvanceSound(items, limit, work, before, w);
      StepsEnd(items, limit, work, before, w);
      assert workers[w] in workers;
      if workers[w].Working? {
        var index := workers[w].index;
        results[index] := Some(work(items[index]));
        workers := workers[w := Ready];
      } else if next < |items| {
        workers := workers[w := Working(next)];
        started := started + [next];
        next := next + 1;
      } else {
        workers := workers[w := Done];
      }
      assert Pool(next, workers, results[..], started) == Advance(items, work, before, w);
    }
    FinishedIsMap(items, limit, work, Pool(next, workers, results[..], started));
    forall x | x in results[..] ensures x.Some? {
      var i :| 0 <= i < results.Length && results[i] == x;
      assert results[..][i] == x;
    }
    r := Values(results[..]);
    forall i | 0 <= i < |items| ensures r[i] == work(items[i]) {
      assert results[..][i] == Some(work(items[i]));
    }
  }

  // -------------------------------------------------------------------------------- remembering

  /** One Map of `cachedReader`: a key is looked up in the underlying reader the first time only. */
  class Memo<K(==), V> {
    const load: K -> V
    var cache: map<K, V>
    ghost var loads: seq<K>

    ghost predicate Valid()
      reads this
    {
      && (forall k <- cache :: cache[k] == load(k))
      && (forall k <- loads :: k in cache) && (forall k <- cache :: k in loads)
      && (forall i, j :: 0 <= i < j < |loads| ==> loads[i] != loads[j])
    }

    constructor (load: K -> V)
      ensures Valid() && loads == [] && this.load == load
    {
      this.load := load;
      cache := map[];
      loads := [];
    }

    /** Answers as the reader does; no key is ever loaded twice. */
    method LookUp(key: K) returns (v: V)
      requires Valid()
      modifies this
      ensures Valid() && v == load(key)
      ensures loads == if key in old(loads) then old(loads) else old(loads) + [key]
    {
      if key in cache {
        return cache[key];
      }
      v := load(key);
      cache := cache[key := v];
      loads := loads + [key];
    }
  }

  /** `${appId}#${seq}`. */
  function PositionKey(app: string, position: nat): string {
    app + "#" + Decimal(position)
  }

  lemma LastHash(app: string, digits: string)
    requires AllDigits(digits)
    ensures var key := app + "#" + digits; key[|app|] == '#' && forall i :: |app| < i < |key| ==> key[i] != '#'
  {
    var key := app + "#" + digits;
    forall i | |app| < i < |key| ensures key[i] != '#' {
      assert key[i] == digits[i - |app| - 1] && IsDigit(digits[i - |app| - 1]);
    }
  }

  /** Digits follow the last hash sign, so two positions never share a key, whatever the app is called. */
  lemma PositionKeyTellsApart(app: string, position: nat, other: string, otherPosition: nat)
    requires PositionKey(app, position) == PositionKey(other, otherPosition)
    ensures app == other && position == otherPosition
  {
    var (a, b) := (PositionKey(app, position), PositionKey(other, otherPosition));
    LastHash(app, Decimal(position));
    LastHash(other, Decimal(otherPosition));
    assert |app| == |other|;
    assert a[..|app|] == app && b[..|other|] == other;
    assert a[|app| + 1..] == Decimal(position) && b[|other| + 1..] == Decimal(otherPosition);
    DecimalRead(position);
    DecimalRead(otherPosition);
  }
}

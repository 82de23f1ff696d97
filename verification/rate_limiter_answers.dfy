/**
 What one attempt is told, said of the attempts alone: which of them opened a window, how many the key
 has made in it, what is left, and how long is left.
 */
module RateLimiterAnswers {
  import opened Options
  import opened RateLimiter
  import opened RateLimiterLaws

  /** The first attempt of the key that comes a whole window or more after the one at `j`. */
  ghost predicate Opens(p: Policy, attempts: seq<Attempt>, key: string, j: nat, i: nat) {
    && j < i < |attempts| && attempts[i].key == key && attempts[i].at - attempts[j].at >= p.windowMs
    && forall m :: j < m < i && attempts[m].key == key ==> attempts[m].at - attempts[j].at < p.windowMs
  }

  /** Exactly the attempts that open a window of the key: its first one, and whatever comes too late for the window before. */
  ghost predicate Openers(p: Policy, attempts: seq<Attempt>, key: string, os: seq<nat>) {
    if os == [] then forall i :: 0 <= i < |attempts| ==> attempts[i].key != key
    else
      && os[0] < |attempts| && attempts[os[0]].key == key
      && (forall i :: 0 <= i < os[0] ==> attempts[i].key != key)
      && (forall k :: 0 <= k < |os| - 1 ==> Opens(p, attempts, key, os[k], os[k + 1]))
      && os[|os| - 1] < |attempts|
      && forall i :: os[|os| - 1] < i < |attempts| && attempts[i].key == key ==>
           attempts[i].at - attempts[os[|os| - 1]].at < p.windowMs
  }

  /** The key's attempts from `from` on. */
  function Tries(attempts: seq<Attempt>, key: string, from: nat): nat {
    if |attempts| <= from then 0
    else Tries(attempts[..|attempts| - 1], key, from) + if attempts[|attempts| - 1].key == key then 1 else 0
  }

  lemma OpensEarlier(p: Policy, attempts: seq<Attempt>, key: string, j: nat, i: nat)
    requires attempts != [] && i < |attempts| - 1
    ensures Opens(p, attempts[..|attempts| - 1], key, j, i) <==> Opens(p, attempts, key, j, i)
  {
    var init := attempts[..|attempts| - 1];
    assert forall m :: 0 <= m < |init| ==> init[m] == attempts[m];
  }

  lemma {:induction false} OpenersAscend(p: Policy, attempts: seq<Attempt>, key: string, os: seq<nat>, k: nat)
    requires Openers(p, attempts, key, os) && k < |os|
    ensures os[k] <= os[|os| - 1] && (k < |os| - 1 ==> os[k] < os[|os| - 1])
    ensures attempts[os[|os| - 1]].key == key
    decreases |os| - k
  {
    if k < |os| - 1 {
      assert Opens(p, attempts, key, os[k], os[k + 1]);
      OpenersAscend(p, attempts, key, os, k + 1);
    } else if k > 0 {
      assert Opens(p, attempts, key, os[k - 1], os[k]);
    }
  }

  /** The openers before the last attempt. */
  lemma OpenersBefore(p: Policy, attempts: seq<Attempt>, key: string, os: seq<nat>) returns (before: seq<nat>)
    requires attempts != [] && Openers(p, attempts, key, os)
    ensures Openers(p, attempts[..|attempts| - 1], key, before)
    ensures before == (if os != [] && os[|os| - 1] == |attempts| - 1 then os[..|os| - 1] else os)
  {
    hide Opens;
    var (init, n) := (attempts[..|attempts| - 1], |attempts| - 1);
    assert forall m :: 0 <= m < n ==> init[m] == attempts[m];
    before := if os != [] && os[|os| - 1] == n then os[..|os| - 1] else os;
    forall k | 0 <= k < |before| - 1 ensures Opens(p, init, key, before[k], before[k + 1]) {
      assert Opens(p, attempts, key, os[k], os[k + 1]);
      OpenersAscend(p, attempts, key, os, k + 1);
      OpensEarlier(p, attempts, key, os[k], os[k + 1]);
    }
    if before != [] {
      OpenersAscend(p, attempts, key, os, 0);
      OpenersAscend(p, attempts, key, os, |before| - 1);
      if before != os {
        LastOpens(p, attempts, key, os[|os| - 2], n);
      }
    }
  }

  lemma LastOpens(p: Policy, attempts: seq<Attempt>, key: string, j: nat, i: nat)
    requires Opens(p, attempts, key, j, i)
    ensures j < i < |attempts| && attempts[i].at - attempts[j].at >= p.windowMs
    ensures forall m :: j < m < i && attempts[m].key == key ==> attempts[m].at - attempts[j].at < p.windowMs
  {
  }

  /** The window of a key stands where its last opener put it and counts what came since. */
  lemma {:induction false} WindowMeans(p: Policy, attempts: seq<Attempt>, key: string, os: seq<nat>)
    requires Sensible(p) && FewKeys(p, attempts) && Openers(p, attempts, key, os)
    ensures WindowOf(Run(p, attempts), key) ==
              if os == [] then None
              else Some(Window(key, attempts[os[|os| - 1]].at, Tries(attempts, key, os[|os| - 1])))
  {
    hide WindowOf, Next, Run, FewKeys;
    if attempts == [] {
      NothingYet(p, key);
    } else {
      var (init, n) := (attempts[..|attempts| - 1], |attempts| - 1);
      var before := OpenersBefore(p, attempts, key, os);
      FewerKeys(p, attempts);
      WindowMeans(p, init, key, before);
      KeysAreIndependent(p, attempts, key);
      if os != [] {
        OpenersAscend(p, attempts, key, os, |os| - 1);
        if before != os && before != [] {
          LastOpens(p, attempts, key, before[|before| - 1], n);
        }
      }
    }
  }

  lemma NothingYet(p: Policy, key: string)
    ensures WindowOf(Run(p, []), key).None?
  {
  }

  lemma {:induction false} FindOpeners(p: Policy, attempts: seq<Attempt>, key: string) returns (os: seq<nat>)
    ensures Openers(p, attempts, key, os)
  {
    if attempts == [] {
      os := [];
    } else {
      var (init, n) := (attempts[..|attempts| - 1], |attempts| - 1);
      assert forall m :: 0 <= m < n ==> init[m] == attempts[m];
      var before := FindOpeners(p, init, key);
      forall k | 0 <= k < |before| - 1 ensures Opens(p, attempts, key, before[k], before[k + 1]) {
        assert Opens(p, init, key, before[k], before[k + 1]);
      }
      if attempts[n].key == key && (before == [] || attempts[n].at - attempts[before[|before| - 1]].at >= p.windowMs) {
        os := before + [n];
        assert before != [] ==> Opens(p, attempts, key, before[|before| - 1], n);
      } else {
        os := before;
      }
    }
  }

  /** How long the window that the last attempt is charged to still has, in milliseconds. */
  function Left(p: Policy, attempts: seq<Attempt>, opener: nat): int
    requires opener < |attempts|
  {
    attempts[opener].at + p.windowMs - attempts[|attempts| - 1].at
  }

  /**
   With no more keys than the map may hold, whatever the clock does: an attempt is allowed exactly when
   the key has not tried more often than its limit since its window was opened; `remaining` is what is
   left of the limit then, and a refusal tells the seconds to the end of that window, rounded up.
   */
  lemma AnswerMeans(p: Policy, attempts: seq<Attempt>, os: seq<nat>)
    requires Sensible(p) && FewKeys(p, attempts) && attempts != []
    requires Openers(p, attempts, attempts[|attempts| - 1].key, os)
    ensures os != [] && os[|os| - 1] < |attempts|
    ensures var (opener, key, answer) := (os[|os| - 1], attempts[|attempts| - 1].key, LastAnswer(p, attempts));
            var tries := Tries(attempts, key, opener);
            && (answer.allowed <==> tries <= p.limit)
            && answer.remaining == (if tries <= p.limit then p.limit - tries else 0)
            && (answer.allowed ==> answer.retryAfterS == 0)
            && (!answer.allowed ==>
                  1000 * (answer.retryAfterS - 1) < Left(p, attempts, opener) <= 1000 * answer.retryAfterS)
  {
    hide WindowOf, Next, FewKeys, Opens, LastAnswer, Charged, WholeSeconds, Run;
    var last := attempts[|attempts| - 1];
    OpenersAscend(p, attempts, last.key, os, |os| - 1);
    WindowMeans(p, attempts, last.key, os);
    KeysAreIndependent(p, attempts, last.key);
    if os[|os| - 1] == |attempts| - 1 {
      OneTry(attempts);
    }
  }

  lemma OneTry(attempts: seq<Attempt>)
    requires attempts != []
    ensures Tries(attempts, attempts[|attempts| - 1].key, |attempts| - 1) == 1
  {
  }

  /** With a clock that does not run back no refusal asks for more than a window, rounded up. */
  lemma RetryWithinWindow(p: Policy, attempts: seq<Attempt>)
    requires Sensible(p) && FewKeys(p, attempts) && attempts != [] && InOrder(attempts)
    ensures 1000 * (LastAnswer(p, attempts).retryAfterS - 1) < p.windowMs
  {
    hide LastAnswer, Openers, FewKeys;
    var os := FindOpeners(p, attempts, attempts[|attempts| - 1].key);
    AnswerMeans(p, attempts, os);
  }

  /** The seconds a refusal tells are not too many: a whole second less, and the key is refused again. */
  lemma WaitingLessIsNot(p: Policy, attempts: seq<Attempt>, later: int)
    requires Sensible(p) && FewKeys(p, attempts) && attempts != [] && !LastAnswer(p, attempts).allowed
    requires later <= attempts[|attempts| - 1].at + 1000 * (LastAnswer(p, attempts).retryAfterS - 1)
    ensures !LastAnswer(p, attempts + [Attempt(attempts[|attempts| - 1].key, later)]).allowed
  {
    hide LastAnswer, Opens, Tries;
    var (key, n) := (attempts[|attempts| - 1].key, |attempts|);
    var os := FindOpeners(p, attempts, key);
    AnswerMeans(p, attempts, os);
    var more := attempts + [Attempt(key, later)];
    assert more[..|more| - 1] == attempts;
    forall k | 0 <= k < |os| - 1 ensures Opens(p, more, key, os[k], os[k + 1]) {
      OpenersAscend(p, attempts, key, os, k + 1);
      OpensEarlier(p, more, key, os[k], os[k + 1]);
    }
    assert KeysOf(more) == KeysOf(attempts);
    OneMoreTry(attempts, key, later, os[|os| - 1]);
    AnswerMeans(p, more, os);
  }

  lemma OneMoreTry(attempts: seq<Attempt>, key: string, later: int, from: nat)
    requires from < |attempts|
    ensures Tries(attempts + [Attempt(key, later)], key, from) == Tries(attempts, key, from) + 1
  {
    var more := attempts + [Attempt(key, later)];
    assert more[..|more| - 1] == attempts;
  }
}

/**
 packages/sdk/src/stream.ts, with the two functions of generation.ts it ends in: a streamed answer,
 attested at most once.

 What happens to a stream is a sequence of events. The decision arrives when it likes, `run` goes on
 at some later `Resume`, and the caller's own calls fall anywhere between.
 */
module Stream {
  import opened Options

  datatype Decision = Decision(auditId: Option<string>, serves: bool)

  /** The `rendered` option: absent, a boolean, or a predicate by what it answers (None: it throws). */
  datatype Rendered = Unset | Fixed(value: bool) | Asked(answer: Option<bool>)

  datatype Event =
    | Chunk(text: string)
    | Finish(rendered: Rendered)
    | Abort
    | Decide(decision: Decision)
    | Resume
    | Reply(ok: bool)

  /** What is sent to the gateway. */
  datatype Attestation = Attestation(auditId: string, text: string, rendered: bool)

  datatype Result = Result(text: string, decision: Decision, attest: Option<bool>)

  // -------------------------------------------------------------------------------- the closure

  /** Where `run` stands. */
  datatype Phase =
    | Idle
    | Waiting(text: string, rendered: Rendered)
    | Sending(text: string, decision: Decision)
    | Settled(result: Result)

  function Concatenated(chunks: seq<string>): string {
    if chunks == [] then "" else Concatenated(chunks[..|chunks| - 1]) + chunks[|chunks| - 1]
  }

  /** resolveRendered. */
  function ResolveRendered(rendered: Rendered, decision: Decision): bool {
    match rendered
    case Fixed(value) => value
    case Asked(Some(answer)) => answer
    case _ => decision.serves
  }

  /** The audit id to attest against, if there is one. */
  function IdOf(decision: Decision): Option<string> {
    if decision.auditId.None? || decision.auditId.value == "" then None else decision.auditId
  }

  class Handle {
    const rendered: Rendered
    var chunks: seq<string>
    var aborted: bool
    var phase: Phase
    var decision: Option<Decision>
    /** Everything that happened, and everything that was sent. */
    ghost var history: seq<Event>
    ghost var sent: seq<Attestation>

    ghost predicate Valid()
      reads this
    {
      && aborted == Aborted(history)
      && decision == DecisionOf(history)
      && (phase.Idle? <==> !Finished(history))
      && (phase.Idle? ==> Concatenated(chunks) == Text(history))
      && (phase.Waiting? ==> !Resumed(history) && phase.text == Text(history) && phase.rendered == RenderedOf(history, rendered))
      && (phase.Sending? || phase.Settled? ==> Resumed(history))
      && (phase.Idle? || phase.Waiting? ==> sent == [])
      && (phase.Sending? ==>
            && phase.text == Text(history) && |sent| == 1 && Some(phase.decision) == decision
            && ReplyOf(history, rendered).None?)
      && (phase.Settled? ==>
            && phase.result.text == Text(history) && Some(phase.result.decision) == decision
            && phase.result.attest == ReplyOf(history, rendered)
            && (phase.result.attest.Some? <==> |sent| == 1))
      && sent == Sent(history, rendered)
    }

    constructor (rendered: Rendered)
      ensures Valid() && history == [] && sent == [] && this.rendered == rendered
    {
      this.rendered := rendered;
      chunks, aborted, phase, decision := [], false, Idle, None;
      history, sent := [], [];
    }

    method OnChunk(text: string)
      requires Valid()
      modifies this
      ensures Valid() && history == old(history) + [Chunk(text)] && sent == old(sent)
      ensures phase == old(phase)
    {
      hide Finished, Aborted, DecisionOf, Resumed, RenderedOf, Sent, ReplyOf, Text, Concatenated;
      AfterChunk(history, text, rendered);
      ConcatenatedMore(chunks, text);
      if phase.Idle? && !aborted {
        chunks := chunks + [text];
      }
      history := history + [Chunk(text)];
    }

    /** Only the first call starts anything; every call gets what the first one started. */
    method FinishStream(finishRendered: Rendered)
      requires Valid()
      modifies this
      ensures Valid() && history == old(history) + [Finish(finishRendered)] && sent == old(sent)
      ensures !phase.Idle? && (!old(phase).Idle? ==> phase == old(phase))
    {
      hide Finished, Aborted, DecisionOf, Resumed, RenderedOf, Sent, ReplyOf, Text, Concatenated;
      NotYetResumed(history);
      AfterFinish(history, finishRendered, rendered);
      if phase.Idle? {
        phase := Waiting(Concatenated(chunks), if finishRendered.Unset? then rendered else finishRendered);
        chunks := [];
      }
      history := history + [Finish(finishRendered)];
    }

    method AbortStream()
      requires Valid()
      modifies this
      ensures Valid() && history == old(history) + [Abort] && sent == old(sent) && phase == old(phase)
    {
      aborted := true;
      history := history + [Abort];
      assert history[..|history| - 1] == old(history);
    }

    method DecisionArrives(arrived: Decision)
      requires Valid()
      modifies this
      ensures Valid() && history == old(history) + [Decide(arrived)] && sent == old(sent) && phase == old(phase)
    {
      if decision.None? {
        decision := Some(arrived);
      }
      history := history + [Decide(arrived)];
      assert history[..|history| - 1] == old(history);
    }

    /** `run` goes on behind its await, once there is a decision; attestAnswer up to the request. */
    method ResumeRun()
      requires Valid()
      modifies this
      ensures Valid() && history == old(history) + [Resume]
      ensures |sent| <= |old(sent)| + 1 && old(sent) <= sent
      ensures old(phase).Settled? || old(phase).Sending? ==> phase == old(phase) && sent == old(sent)
    {
      if phase.Waiting? && decision.Some? {
        var (text, d) := (phase.text, decision.value);
        var id := IdOf(d);
        if aborted || id.None? {
          phase := Settled(Result(text, d, None));
        } else {
          sent := sent + [Attestation(id.value, text, ResolveRendered(phase.rendered, d))];
          phase := Sending(text, d);
        }
      }
      NotYetResumed(old(history));
      NothingToReply(old(history), rendered);
      history := history + [Resume];
      assert history[..|history| - 1] == old(history);
    }

    /** The attest request comes back, or fails as { ok: false }. */
    method AttestReplies(ok: bool)
      requires Valid()
      modifies this
      ensures Valid() && history == old(history) + [Reply(ok)] && sent == old(sent)
      ensures old(phase).Settled? ==> phase == old(phase)
    {
      NothingToReply(history, rendered);
      AtMostOneAttestation(history, rendered);
      if phase.Sending? {
        phase := Settled(Result(phase.text, phase.decision, Some(ok)));
      }
      history := history + [Reply(ok)];
      assert history[..|history| - 1] == old(history);
    }
  }

  // ------------------------------------------------------------------ what a history comes down to

  function Init(h: seq<Event>): seq<Event>
    requires h != []
  {
    h[..|h| - 1]
  }

  predicate Finished(h: seq<Event>) {
    h != [] && (h[|h| - 1].Finish? || Finished(Init(h)))
  }

  predicate Aborted(h: seq<Event>) {
    h != [] && (h[|h| - 1].Abort? || Aborted(Init(h)))
  }

  /** The first decision. */
  function DecisionOf(h: seq<Event>): Option<Decision> {
    if h == [] then None
    else
      var earlier := DecisionOf(Init(h));
      if earlier.None? && h[|h| - 1].Decide? then Some(h[|h| - 1].decision) else earlier
  }

  /** What was heard before the first finish or abort. */
  function Text(h: seq<Event>): string {
    if h == [] then ""
    else if h[|h| - 1].Chunk? && !Finished(Init(h)) && !Aborted(Init(h)) then Text(Init(h)) + h[|h| - 1].text
    else Text(Init(h))
  }

  function RenderedOf(h: seq<Event>, fallback: Rendered): Rendered {
    if h == [] then fallback
    else if h[|h| - 1].Finish? && !Finished(Init(h)) then
      if h[|h| - 1].rendered.Unset? then fallback else h[|h| - 1].rendered
    else RenderedOf(Init(h), fallback)
  }

  /** The last event is the one at which `run` goes on. */
  predicate Wakes(h: seq<Event>) {
    h != [] && h[|h| - 1].Resume? && Finished(Init(h)) && DecisionOf(Init(h)).Some? && !Resumed(Init(h))
  }

  predicate Resumed(h: seq<Event>) {
    h != [] && ((h[|h| - 1].Resume? && Finished(Init(h)) && DecisionOf(Init(h)).Some?) || Resumed(Init(h)))
  }

  function Sent(h: seq<Event>, fallback: Rendered): seq<Attestation> {
    if h == [] then []
    else
      var init := Init(h);
      if Wakes(h) && !Aborted(init) && IdOf(DecisionOf(init).value).Some? then
        Sent(init, fallback) + [Attestation(IdOf(DecisionOf(init).value).value, Text(init),
                                            ResolveRendered(RenderedOf(init, fallback), DecisionOf(init).value))]
      else Sent(init, fallback)
  }

  /** What the first reply behind the attestation said. */
  function ReplyOf(h: seq<Event>, fallback: Rendered): Option<bool> {
    if h == [] then None
    else
      var earlier := ReplyOf(Init(h), fallback);
      if earlier.None? && h[|h| - 1].Reply? && Sent(Init(h), fallback) != [] then Some(h[|h| - 1].ok) else earlier
  }

  /** Without an attestation no reply counts. */
  lemma {:induction false} NothingToReply(h: seq<Event>, fallback: Rendered)
    ensures Sent(h, fallback) == [] ==> ReplyOf(h, fallback).None?
  {
    if h != [] {
      NothingToReply(Init(h), fallback);
    }
  }

  lemma ConcatenatedMore(chunks: seq<string>, text: string)
    ensures Concatenated(chunks + [text]) == Concatenated(chunks) + text
  {
    assert (chunks + [text])[..|chunks|] == chunks;
  }

  /** A chunk adds to the text or changes nothing. */
  lemma AfterChunk(h: seq<Event>, text: string, fallback: Rendered)
    ensures var next := h + [Chunk(text)];
            && Finished(next) == Finished(h) && Aborted(next) == Aborted(h) && DecisionOf(next) == DecisionOf(h)
            && Resumed(next) == Resumed(h) && RenderedOf(next, fallback) == RenderedOf(h, fallback)
            && Sent(next, fallback) == Sent(h, fallback) && ReplyOf(next, fallback) == ReplyOf(h, fallback)
            && Text(next) == if Finished(h) || Aborted(h) then Text(h) else Text(h) + text
  {
    assert Init(h + [Chunk(text)]) == h;
  }

  /** A finish counts when it is the first; nothing is sent by it. */
  lemma AfterFinish(h: seq<Event>, rendered: Rendered, fallback: Rendered)
    ensures var next := h + [Finish(rendered)];
            && Finished(next) && Aborted(next) == Aborted(h) && DecisionOf(next) == DecisionOf(h)
            && Resumed(next) == Resumed(h) && Sent(next, fallback) == Sent(h, fallback) && Text(next) == Text(h)
            && ReplyOf(next, fallback) == ReplyOf(h, fallback)
            && RenderedOf(next, fallback)
               == if Finished(h) then RenderedOf(h, fallback) else if rendered.Unset? then fallback else rendered
  {
    assert Init(h + [Finish(rendered)]) == h;
  }

  // ------------------------------------------------------------------------------------- the laws

  /** The first finish is at `at`. */
  predicate FirstFinish(h: seq<Event>, at: nat) {
    at < |h| && h[at].Finish? && forall i :: 0 <= i < at ==> !h[i].Finish?
  }

  predicate FirstDecision(h: seq<Event>, at: nat) {
    at < |h| && h[at].Decide? && forall i :: 0 <= i < at ==> !h[i].Decide?
  }

  /** Every chunk of a stretch of events, one after the other. */
  function AllChunks(h: seq<Event>): string {
    if h == [] then ""
    else AllChunks(Init(h)) + if h[|h| - 1].Chunk? then h[|h| - 1].text else ""
  }

  /** The first resume behind both the finish at `f` and the decision at `d`. */
  predicate WakesAt(h: seq<Event>, f: nat, d: nat, r: nat) {
    && f < r < |h| && d < r && h[r].Resume?
    && forall i :: f < i < r && d < i ==> !h[i].Resume?
  }

  /** An attestation is due: finish, decision with an audit id, resume, and no abort before that. */
  ghost predicate Due(h: seq<Event>, fallback: Rendered, f: nat, d: nat, r: nat, a: Attestation) {
    && FirstFinish(h, f) && FirstDecision(h, d) && WakesAt(h, f, d, r)
    && (forall i :: 0 <= i < r ==> !h[i].Abort?)
    && h[d].decision.auditId == Some(a.auditId) && a.auditId != "" && a.text == AllChunks(h[..f])
    && SaysRendered(if h[f].rendered.Unset? then fallback else h[f].rendered, h[d].decision.serves, a.rendered)
  }

  /** What the caller fixed or its predicate answered; without either, whether the decision was to serve. */
  predicate SaysRendered(option: Rendered, serves: bool, rendered: bool) {
    && (option.Fixed? ==> rendered == option.value)
    && (option.Asked? && option.answer.Some? ==> rendered == option.answer.value)
    && (option.Unset? || option == Asked(None) ==> rendered == serves)
  }

  lemma {:induction false} FinishedMeans(h: seq<Event>)
    ensures Finished(h) <==> exists i :: 0 <= i < |h| && h[i].Finish?
    ensures Aborted(h) <==> exists i :: 0 <= i < |h| && h[i].Abort?
  {
    if h != [] {
      FinishedMeans(Init(h));
      assert forall i :: 0 <= i < |h| - 1 ==> h[i] == Init(h)[i];
    }
  }

  lemma {:induction false} FindFinish(h: seq<Event>) returns (at: nat)
    requires Finished(h)
    ensures FirstFinish(h, at)
  {
    if Finished(Init(h)) {
      at := FindFinish(Init(h));
      assert forall i :: 0 <= i < |h| - 1 ==> h[i] == Init(h)[i];
    } else {
      at := |h| - 1;
      FinishedMeans(Init(h));
      assert forall i :: 0 <= i < |h| - 1 ==> h[i] == Init(h)[i];
    }
  }

  lemma {:induction false} FirstDecisionOf(h: seq<Event>, at: nat)
    requires FirstDecision(h, at)
    ensures DecisionOf(h) == Some(h[at].decision)
  {
    if at == |h| - 1 {
      NoDecision(Init(h));
    } else {
      assert FirstDecision(Init(h), at);
      FirstDecisionOf(Init(h), at);
    }
  }

  lemma {:induction false} NoDecision(h: seq<Event>)
    ensures DecisionOf(h).None? <==> forall i :: 0 <= i < |h| ==> !h[i].Decide?
  {
    if h != [] {
      NoDecision(Init(h));
      assert forall i :: 0 <= i < |h| - 1 ==> h[i] == Init(h)[i];
    }
  }

  lemma {:induction false} FindDecision(h: seq<Event>) returns (at: nat)
    requires DecisionOf(h).Some?
    ensures FirstDecision(h, at)
  {
    assert forall i :: 0 <= i < |h| - 1 ==> h[i] == Init(h)[i];
    if DecisionOf(Init(h)).Some? {
      at := FindDecision(Init(h));
    } else {
      at := |h| - 1;
      NoDecision(Init(h));
    }
  }

  /** With no abort, the text is every chunk before the first finish. */
  lemma {:induction false} TextIsAllChunks(h: seq<Event>, f: nat)
    requires !Aborted(h) && (FirstFinish(h, f) || (f == |h| && !Finished(h)))
    ensures Text(h) == AllChunks(h[..f])
  {
    if h != [] {
      var init := Init(h);
      FinishedMeans(init);
      if f == |h| {
        assert h[..f] == h && init[..|init|] == init;
        TextIsAllChunks(init, |init|);
      } else if f == |h| - 1 {
        assert forall i :: 0 <= i < |init| ==> init[i] == h[i];
        assert h[..f] == init && init[..|init|] == init;
        TextIsAllChunks(init, |init|);
      } else {
        assert FirstFinish(init, f) && init[..f] == h[..f];
        TextIsAllChunks(init, f);
      }
    }
  }

  lemma {:induction false} RenderedIs(h: seq<Event>, fallback: Rendered, f: nat)
    requires FirstFinish(h, f)
    ensures RenderedOf(h, fallback) == if h[f].rendered.Unset? then fallback else h[f].rendered
  {
    var init := Init(h);
    FinishedMeans(init);
    assert forall i :: 0 <= i < |init| ==> init[i] == h[i];
    if f < |h| - 1 {
      assert FirstFinish(init, f);
      RenderedIs(init, fallback, f);
    }
  }

  /** `run` goes on once: at the first resume behind both. */
  lemma {:induction false} ResumedMeans(h: seq<Event>, f: nat, d: nat)
    requires FirstFinish(h, f) && FirstDecision(h, d)
    ensures Resumed(h) <==> exists i :: f < i < |h| && d < i && h[i].Resume?
  {
    var init := Init(h);
    FinishedMeans(init);
    NoDecision(init);
    assert forall i :: 0 <= i < |init| ==> init[i] == h[i];
    if f < |h| - 1 && d < |h| - 1 {
      assert FirstFinish(init, f) && FirstDecision(init, d);
      ResumedMeans(init, f, d);
    } else {
      NotYetResumed(init);
    }
  }

  lemma {:induction false} NotYetResumed(h: seq<Event>)
    ensures !Finished(h) || DecisionOf(h).None? ==> !Resumed(h)
  {
    if h != [] {
      NotYetResumed(Init(h));
    }
  }

  /** Nothing is ever sent before `run` goes on, and at most one attestation at all. */
  lemma {:induction false} AtMostOneAttestation(h: seq<Event>, fallback: Rendered)
    ensures |Sent(h, fallback)| <= 1 && (!Resumed(h) ==> Sent(h, fallback) == [])
  {
    if h != [] {
      AtMostOneAttestation(Init(h), fallback);
    }
  }

  lemma EarlierEvents(h: seq<Event>)
    requires h != []
    ensures |Init(h)| == |h| - 1 && forall i :: 0 <= i < |h| - 1 ==> Init(h)[i] == h[i]
  {
  }

  lemma DueLater(h: seq<Event>, fallback: Rendered, f: nat, d: nat, r: nat, a: Attestation)
    requires h != [] && r < |h| - 1
    ensures Due(Init(h), fallback, f, d, r, a) <==> Due(h, fallback, f, d, r, a)
  {
    EarlierEvents(h);
    if f <= |h| - 1 {
      assert Init(h)[..f] == h[..f];
    }
  }

  /** What goes out when `run` goes on at the last event. */
  lemma DueNow(h: seq<Event>, fallback: Rendered, f: nat, d: nat)
    requires h != [] && Wakes(h) && !Aborted(Init(h)) && IdOf(DecisionOf(Init(h)).value).Some?
    requires FirstFinish(Init(h), f) && FirstDecision(Init(h), d)
    ensures Due(h, fallback, f, d, |h| - 1,
                Attestation(IdOf(DecisionOf(Init(h)).value).value, Text(Init(h)),
                            ResolveRendered(RenderedOf(Init(h), fallback), DecisionOf(Init(h)).value)))
  {
    var init := Init(h);
    EarlierEvents(h);
    ResumedMeans(init, f, d);
    FinishedMeans(init);
    TextIsAllChunks(init, f);
    RenderedIs(init, fallback, f);
    FirstDecisionOf(init, d);
    assert init[..f] == h[..f];
  }

  lemma {:induction false} SentWasDue(h: seq<Event>, fallback: Rendered, a: Attestation) returns (f: nat, d: nat, r: nat)
    requires Sent(h, fallback) == [a]
    ensures Due(h, fallback, f, d, r, a)
  {
    var init := Init(h);
    AtMostOneAttestation(init, fallback);
    if Wakes(h) && !Aborted(init) && IdOf(DecisionOf(init).value).Some? {
      f := FindFinish(init);
      d := FindDecision(init);
      r := |h| - 1;
      DueNow(h, fallback, f, d);
      assert Sent(init, fallback) == [] && a == Sent(h, fallback)[0];
    } else {
      f, d, r := SentWasDue(init, fallback, a);
      DueLater(h, fallback, f, d, r, a);
    }
  }

  lemma WokenHere(h: seq<Event>, fallback: Rendered, f: nat, d: nat, a: Attestation)
    requires h != [] && Due(h, fallback, f, d, |h| - 1, a)
    ensures Sent(h, fallback) == [a]
  {
    var init := Init(h);
    EarlierEvents(h);
    assert FirstFinish(init, f) && FirstDecision(init, d);
    ResumedMeans(init, f, d);
    FinishedMeans(init);
    NoDecision(init);
    FirstDecisionOf(init, d);
    AtMostOneAttestation(init, fallback);
    TextIsAllChunks(init, f);
    RenderedIs(init, fallback, f);
    assert init[..f] == h[..f];
  }

  lemma {:induction false} DueIsSent(h: seq<Event>, fallback: Rendered, f: nat, d: nat, r: nat, a: Attestation)
    requires Due(h, fallback, f, d, r, a)
    ensures Sent(h, fallback) == [a]
  {
    if r == |h| - 1 {
      WokenHere(h, fallback, f, d, a);
    } else {
      EarlierEvents(h);
      DueLater(h, fallback, f, d, r, a);
      DueIsSent(Init(h), fallback, f, d, r, a);
      assert FirstFinish(Init(h), f) && FirstDecision(Init(h), d) && Init(h)[r].Resume?;
      ResumedMeans(Init(h), f, d);
    }
  }

  /**
   Over every interleaving: an attestation is sent exactly when the stream was finished and a decision
   with an audit id had come, and no abort fell before `run` went on; its text is exactly the chunks
   before the first finish. At most one is ever sent.
   */
  lemma AttestedExactlyWhenDue(h: seq<Event>, fallback: Rendered, a: Attestation)
    ensures Sent(h, fallback) == [a] <==> exists f, d, r :: Due(h, fallback, f, d, r, a)
    ensures |Sent(h, fallback)| <= 1
  {
    AtMostOneAttestation(h, fallback);
    if Sent(h, fallback) == [a] {
      var f, d, r := SentWasDue(h, fallback, a);
    }
    if exists f, d, r :: Due(h, fallback, f, d, r, a) {
      var f, d, r :| Due(h, fallback, f, d, r, a);
      DueIsSent(h, fallback, f, d, r, a);
    }
  }

  /** The first reply behind the attestation of `r`. */
  predicate RepliesAt(h: seq<Event>, r: nat, p: nat, ok: bool) {
    r < p < |h| && h[p] == Reply(ok) && forall i :: r < i < p ==> !h[i].Reply?
  }

  lemma NotSentBefore(h: seq<Event>, fallback: Rendered, f: nat, d: nat, r: nat, a: Attestation)
    requires h != [] && Due(h, fallback, f, d, r, a) && r == |h| - 1
    ensures Sent(Init(h), fallback) == []
  {
    EarlierEvents(h);
    assert FirstFinish(Init(h), f) && FirstDecision(Init(h), d);
    ResumedMeans(Init(h), f, d);
    AtMostOneAttestation(Init(h), fallback);
  }

  lemma DueResumes(h: seq<Event>, fallback: Rendered, f: nat, d: nat, r: nat, a: Attestation)
    requires Due(h, fallback, f, d, r, a)
    ensures r < |h| && h[r].Resume?
  {
  }

  /** A reply comes first if none came before it. */
  lemma ReplyNow(h: seq<Event>, r: nat, ok: bool)
    requires r < |h| - 1
    ensures (exists p: nat :: RepliesAt(h, r, p, ok)) <==>
              || (exists p: nat :: RepliesAt(Init(h), r, p, ok))
              || (h[|h| - 1] == Reply(ok) && forall i :: r < i < |h| - 1 ==> !h[i].Reply?)
  {
    EarlierEvents(h);
    forall p: nat | p < |h| - 1 ensures RepliesAt(Init(h), r, p, ok) <==> RepliesAt(h, r, p, ok) {
    }
    if h[|h| - 1] == Reply(ok) && forall i :: r < i < |h| - 1 ==> !h[i].Reply? {
      assert RepliesAt(h, r, |h| - 1, ok);
    }
  }

  lemma {:induction false} FirstReply(h: seq<Event>, r: nat)
    ensures (forall i :: r < i < |h| ==> !h[i].Reply?) <==> forall ok, p: nat :: !RepliesAt(h, r, p, ok)
  {
    if |h| > r + 1 {
      EarlierEvents(h);
      FirstReply(Init(h), r);
      ReplyNow(h, r, true);
      ReplyNow(h, r, false);
      if h[|h| - 1].Reply? && forall i :: r < i < |h| - 1 ==> !h[i].Reply? {
        assert RepliesAt(h, r, |h| - 1, h[|h| - 1].ok);
      }
    }
  }

  lemma {:induction false} RepliedWhenDue(h: seq<Event>, fallback: Rendered, f: nat, d: nat, r: nat, a: Attestation, ok: bool)
    requires Due(h, fallback, f, d, r, a)
    ensures ReplyOf(h, fallback) == Some(ok) <==> exists p: nat :: RepliesAt(h, r, p, ok)
    decreases |h|
  {
    hide Due, Sent;
    DueResumes(h, fallback, f, d, r, a);
    if r == |h| - 1 {
      NotSentBefore(h, fallback, f, d, r, a);
      NothingToReply(Init(h), fallback);
    } else {
      hide RepliesAt;
      EarlierEvents(h);
      DueLater(h, fallback, f, d, r, a);
      DueIsSent(Init(h), fallback, f, d, r, a);
      RepliedWhenDue(Init(h), fallback, f, d, r, a, true);
      RepliedWhenDue(Init(h), fallback, f, d, r, a, false);
      ReplyNow(h, r, ok);
      FirstReply(Init(h), r);
      var earlier := ReplyOf(Init(h), fallback);
      if earlier.None? {
        forall b, p: nat ensures !RepliesAt(Init(h), r, p, b) {
          if b {} else {}
        }
      } else if earlier.value {
        assert exists p: nat :: RepliesAt(Init(h), r, p, true);
      } else {
        assert exists p: nat :: RepliesAt(Init(h), r, p, false);
      }
    }
  }

  /**
   What `finish` resolves with: what the first reply behind the attestation said, if one was due, and
   nothing otherwise.
   */
  lemma ReplyIsTheFirst(h: seq<Event>, fallback: Rendered, ok: bool)
    ensures ReplyOf(h, fallback) == Some(ok) <==>
              exists f, d, r, a, p: nat :: Due(h, fallback, f, d, r, a) && RepliesAt(h, r, p, ok)
  {
    hide Due, Sent, RepliesAt;
    NothingToReply(h, fallback);
    AtMostOneAttestation(h, fallback);
    if ReplyOf(h, fallback) == Some(ok) {
      var a := Sent(h, fallback)[0];
      var f, d, r := SentWasDue(h, fallback, a);
      RepliedWhenDue(h, fallback, f, d, r, a, ok);
    }
    if exists f, d, r, a, p: nat :: Due(h, fallback, f, d, r, a) && RepliesAt(h, r, p, ok) {
      var f, d, r, a, p: nat :| Due(h, fallback, f, d, r, a) && RepliesAt(h, r, p, ok);
      RepliedWhenDue(h, fallback, f, d, r, a, ok);
    }
  }

  /** The stream is open up to `e`: no finish and no abort before it, and one at it, if it is there at all. */
  predicate OpenUntil(h: seq<Event>, e: nat) {
    && e <= |h| && (e < |h| ==> h[e].Finish? || h[e].Abort?)
    && forall i :: 0 <= i < e ==> !h[i].Finish? && !h[i].Abort?
  }

  /** The text is every chunk heard before the first finish or abort, and no other. */
  lemma {:induction false} TextIsWhatWasHeard(h: seq<Event>, e: nat)
    requires OpenUntil(h, e)
    ensures Text(h) == AllChunks(h[..e])
  {
    if h != [] {
      var init := Init(h);
      EarlierEvents(h);
      FinishedMeans(init);
      if e == |h| {
        assert h[..e] == h && init[..|init|] == init;
        TextIsWhatWasHeard(init, |init|);
      } else {
        assert init[..e] == h[..e];
        TextIsWhatWasHeard(init, e);
      }
    }
  }
}

/**
 Failing over along a chain of providers while nothing has been streamed
 (src/provider.rs:91-106, 673-750).
 */
module Failover {
  import opened Text
  import opened Scripts
  import opened Streaming

  /** Request-shape errors would be repeated by every provider. */
  predicate FailoverWorthy(error: Error, failoverOn4xx: bool) {
    !(error.Http? && !failoverOn4xx && error.status in {400, 404, 422})
  }

  // ---- The code ----------------------------------------------------------------------------------

  /** Counts the deltas that reached the inner sink. */
  class DeltaGateSink {
    const inner: StreamSink
    var emitted: nat

    constructor (inner: StreamSink)
      ensures this.inner == inner && emitted == 0
    {
      this.inner := inner;
      emitted := 0;
    }

    method OnDelta(delta: string) returns (ok: bool)
      modifies this, inner
      ensures (inner.State(), ok) == Offer(old(inner.State()), delta)
      ensures emitted == old(emitted) + (if ok then 1 else 0)
    {
      ok := inner.OnDelta(delta);
      if ok {
        emitted := emitted + 1;
      }
    }
  }

  /** A provider streaming into the gate: the inner sink sees what it would see without the gate, and the gate counts
      what the inner sink accepted. */
  method StreamThrough(script: Script, gate: DeltaGateSink) returns (reply: Reply)
    modifies gate, gate.inner
    ensures (gate.inner.State(), reply) == Play(script, old(gate.inner.State()))
    ensures gate.emitted == old(gate.emitted) + |AcceptedBy(script, old(gate.inner.State()))|
  {
    var left := script;
    while left.Emit?
      invariant Play(left, gate.inner.State()) == Play(script, old(gate.inner.State()))
      invariant gate.emitted + |AcceptedBy(left, gate.inner.State())| == old(gate.emitted) + |AcceptedBy(script, old(gate.inner.State()))|
      decreases left
    {
      var ok := gate.OnDelta(left.delta);
      left := if ok then left.whenAccepted else left.whenRejected;
    }
    reply := left.reply;
  }

  /** The scripts are those of the providers whose circuit admits the request, in the order of the chain. */
  method CompleteStream(admitted: seq<Script>, failoverOn4xx: bool, sink: StreamSink) returns (reply: Reply)
    modifies sink
    ensures (sink.State(), reply) == Play(FailoverScript(admitted, failoverOn4xx, None), old(sink.State()))
  {
    ghost var goal := Play(FailoverScript(admitted, failoverOn4xx, None), sink.State());
    var last: Option<Error> := None;
    assert admitted[0..] == admitted;
    for i := 0 to |admitted|
      invariant Play(FailoverScript(admitted[i..], failoverOn4xx, last), sink.State()) == goal
    {
      if last.Some? && !FailoverWorthy(last.value, failoverOn4xx) {
        break;
      }
      assert admitted[i..][1..] == admitted[i + 1..];
      OrElsePlays(admitted[i], false, admitted[i + 1..], failoverOn4xx, sink.State());
      var gate := new DeltaGateSink(sink);
      reply := StreamThrough(admitted[i], gate);
      if reply.Ok? {
        return;
      }
      if gate.emitted > 0 {
        return;
      }
      last := Some(reply.error);
    }
    reply := Err(if last.Some? then last.value else Unavailable);
  }

  // ---- The chain as one provider -----------------------------------------------------------------

  function FailoverScript(chain: seq<Script>, failoverOn4xx: bool, last: Option<Error>): Script
    decreases |chain|, 1, Return(Err(Unavailable))
  {
    if chain == [] || (last.Some? && !FailoverWorthy(last.value, failoverOn4xx))
    then Return(Err(if last.Some? then last.value else Unavailable))
    else OrElse(chain[0], false, chain[1..], failoverOn4xx)
  }

  /** A script that goes on with the rest of the chain when it fails before its first accepted delta. */
  function OrElse(script: Script, committed: bool, rest: seq<Script>, failoverOn4xx: bool): Script
    decreases |rest| + 1, 0, script
  {
    match script
    case Return(reply) => if reply.Ok? || committed then script else FailoverScript(rest, failoverOn4xx, Some(reply.error))
    case Emit(delta, whenAccepted, whenRejected) =>
      Emit(delta, OrElse(whenAccepted, true, rest, failoverOn4xx), OrElse(whenRejected, committed, rest, failoverOn4xx))
  }

  lemma {:induction false} OrElsePlays(script: Script, committed: bool, rest: seq<Script>, failoverOn4xx: bool, s: SinkState)
    ensures var (s', reply) := Play(script, s);
            Play(OrElse(script, committed, rest, failoverOn4xx), s) ==
            if reply.Ok? || committed || AcceptedBy(script, s) != [] then (s', reply)
            else Play(FailoverScript(rest, failoverOn4xx, Some(reply.error)), s')
    decreases script
  {
    if script.Emit? {
      var (s', ok) := Offer(s, script.delta);
      OrElsePlays(if ok then script.whenAccepted else script.whenRejected, committed || ok, rest, failoverOn4xx, s');
    }
  }

  // ---- What the user gets ------------------------------------------------------------------------

  /** The provider that serves the request leaves the sink and the reply as if it had been asked alone. Every provider
      before it was tried in turn and failed, worthy of failover, with nothing accepted; and it ended the search: it
      answered, some delta was accepted, its error was not worthy, or it was the last. */
  ghost predicate Serves(chain: seq<Script>, failoverOn4xx: bool, s: SinkState, i: nat, before: seq<SinkState>) {
    && i < |chain| && |before| == i + 1 && before[0] == s
    && (forall j :: 0 <= j < i ==>
          && AcceptedBy(chain[j], before[j]) == []
          && Play(chain[j], before[j]).1.Err? && FailoverWorthy(Play(chain[j], before[j]).1.error, failoverOn4xx)
          && before[j + 1] == Play(chain[j], before[j]).0)
    && (|| i == |chain| - 1
        || AcceptedBy(chain[i], before[i]) != []
        || Play(chain[i], before[i]).1.Ok?
        || !FailoverWorthy(Play(chain[i], before[i]).1.error, failoverOn4xx))
  }

  /** All deltas that a request delivers come from one provider of the chain, and so does the reply. */
  lemma {:induction false} OneProviderServes(chain: seq<Script>, failoverOn4xx: bool, last: Option<Error>, s: SinkState)
    returns (i: nat, before: seq<SinkState>)
    requires chain != [] && (last.Some? ==> FailoverWorthy(last.value, failoverOn4xx))
    ensures Serves(chain, failoverOn4xx, s, i, before)
    ensures Play(FailoverScript(chain, failoverOn4xx, last), s) == Play(chain[i], before[i])
    ensures before[i].accepted == s.accepted
  {
    var (s', reply) := Play(chain[0], s);
    OrElsePlays(chain[0], false, chain[1..], failoverOn4xx, s);
    PlayAccepts(chain[0], s);
    if reply.Ok? || AcceptedBy(chain[0], s) != [] || !FailoverWorthy(reply.error, failoverOn4xx) || |chain| == 1 {
      i, before := 0, [s];
    } else {
      var k, later := OneProviderServes(chain[1..], failoverOn4xx, Some(reply.error), s');
      i, before := k + 1, [s] + later;
      ServesLater(chain, failoverOn4xx, s, k, later);
    }
  }

  lemma ServesLater(chain: seq<Script>, failoverOn4xx: bool, s: SinkState, k: nat, later: seq<SinkState>)
    requires |chain| > 1 && AcceptedBy(chain[0], s) == []
    requires Play(chain[0], s).1.Err? && FailoverWorthy(Play(chain[0], s).1.error, failoverOn4xx)
    requires Serves(chain[1..], failoverOn4xx, Play(chain[0], s).0, k, later)
    ensures Serves(chain, failoverOn4xx, s, k + 1, [s] + later)
  {
    var before := [s] + later;
    forall j | 0 <= j < k + 1
      ensures && AcceptedBy(chain[j], before[j]) == []
              && Play(chain[j], before[j]).1.Err? && FailoverWorthy(Play(chain[j], before[j]).1.error, failoverOn4xx)
              && before[j + 1] == Play(chain[j], before[j]).0
    {
      if j > 0 {
        assert AcceptedBy(chain[1..][j - 1], later[j - 1]) == [] && later[(j - 1) + 1] == Play(chain[1..][j - 1], later[j - 1]).0;
      }
    }
  }

  /** A provider that fails with nothing accepted, by an error that is no HTTP status, by a status other than 400, 404 and
      422, or by any error when those are to fail over too. */
  ghost predicate FailsSilently(script: Script, failoverOn4xx: bool, s: SinkState) {
    var reply := Play(script, s).1;
    && reply.Err? && AcceptedBy(script, s) == []
    && (failoverOn4xx || !reply.error.Http? || (reply.error.status != 400 && reply.error.status != 404 && reply.error.status != 422))
  }

  /** Such a first provider leaves the request to the rest of the chain, from the sink it left; its own error counts only
      when nobody is left. */
  lemma FailsOver(chain: seq<Script>, failoverOn4xx: bool, s: SinkState)
    requires chain != [] && FailsSilently(chain[0], failoverOn4xx, s)
    ensures |chain| == 1 ==> Play(FailoverScript(chain, failoverOn4xx, None), s) == Play(chain[0], s)
    ensures |chain| > 1 ==>
              Play(FailoverScript(chain, failoverOn4xx, None), s) == Play(FailoverScript(chain[1..], failoverOn4xx, None), Play(chain[0], s).0)
  {
    OrElsePlays(chain[0], false, chain[1..], failoverOn4xx, s);
  }

  /** A request-shape error ends it: no later provider is asked, and the error is the reply. */
  lemma StopsAtRequestShapeErrors(chain: seq<Script>, s: SinkState)
    requires chain != [] && Play(chain[0], s).1.Err? && Play(chain[0], s).1.error.Http?
    requires var status := Play(chain[0], s).1.error.status; status == 400 || status == 404 || status == 422
    ensures Play(FailoverScript(chain, false, None), s) == Play(chain[0], s)
  {
    OrElsePlays(chain[0], false, chain[1..], false, s);
  }

  /** So does an answer, and an accepted delta. */
  lemma StopsWhenCommitted(chain: seq<Script>, failoverOn4xx: bool, s: SinkState)
    requires chain != [] && (Play(chain[0], s).1.Ok? || AcceptedBy(chain[0], s) != [])
    ensures Play(FailoverScript(chain, failoverOn4xx, None), s) == Play(chain[0], s)
  {
    OrElsePlays(chain[0], false, chain[1..], failoverOn4xx, s);
  }

  lemma NobodyToAsk(failoverOn4xx: bool, s: SinkState)
    ensures Play(FailoverScript([], failoverOn4xx, None), s) == (s, Err(Unavailable))
  {
  }

  lemma {:induction false} OrElseHonest(script: Script, committed: bool, rest: seq<Script>, failoverOn4xx: bool, text: string)
    requires IsHonest(script, text) && (!committed ==> text == "")
    requires forall k :: 0 <= k < |rest| ==> IsHonest(rest[k], "")
    ensures IsHonest(OrElse(script, committed, rest, failoverOn4xx), text)
    decreases |rest| + 1, 0, script
  {
    match script
    case Return(reply) =>
      if reply.Err? && !committed {
        FailoverIsHonest(rest, failoverOn4xx, Some(reply.error));
      }
    case Emit(delta, whenAccepted, whenRejected) =>
      OrElseHonest(whenAccepted, true, rest, failoverOn4xx, text + delta);
      OrElseHonest(whenRejected, committed, rest, failoverOn4xx, text);
  }

  /** A chain of honest providers is an honest provider: a text that is returned is exactly the text that was delivered,
      whatever was tried before; so chains may be chained. */
  lemma {:induction false} FailoverIsHonest(chain: seq<Script>, failoverOn4xx: bool, last: Option<Error>)
    requires forall k :: 0 <= k < |chain| ==> IsHonest(chain[k], "")
    ensures IsHonest(FailoverScript(chain, failoverOn4xx, last), "")
    decreases |chain|, 1, Return(Err(Unavailable))
  {
    if chain != [] {
      OrElseHonest(chain[0], false, chain[1..], failoverOn4xx, "");
    }
  }

  /** The first provider of an honest chain is honest: failing over hides no wrong text. */
  lemma {:induction false} HonestChainStartsHonest(script: Script, committed: bool, rest: seq<Script>, failoverOn4xx: bool, text: string)
    requires IsHonest(OrElse(script, committed, rest, failoverOn4xx), text)
    ensures IsHonest(script, text)
  {
    if script.Emit? {
      HonestChainStartsHonest(script.whenAccepted, true, rest, failoverOn4xx, text + script.delta);
      HonestChainStartsHonest(script.whenRejected, committed, rest, failoverOn4xx, text);
    }
  }

  /** A request to one OpenAI-compatible provider, with what its server answers. */
  datatype Exchange = Exchange(read: EventReader, answers: seq<Answer>, fallback: Reply)

  function ScriptsOf(exchanges: seq<Exchange>): seq<Script> {
    seq(|exchanges|, k requires 0 <= k < |exchanges| => StreamScript(exchanges[k].read, exchanges[k].answers, None, exchanges[k].fallback))
  }

  /** Across every attempt, every fallback and every failover, and whatever the sink rejects: the reply is the text that
      was delivered, and that text is what one single attempt of one single provider had to say. */
  lemma OneAttemptIsDelivered(exchanges: seq<Exchange>, failoverOn4xx: bool, s: SinkState) returns (i: nat, k: nat, n: nat)
    requires exchanges != []
    ensures var script := FailoverScript(ScriptsOf(exchanges), failoverOn4xx, None);
            && i < |exchanges|
            && IsFromSource(exchanges[i].read, exchanges[i].answers, exchanges[i].fallback, AcceptedBy(script, s), Play(script, s).1, k, n)
            && (Play(script, s).1.Ok? ==> Play(script, s).1.value == Concat(AcceptedBy(script, s)))
  {
    var chain := ScriptsOf(exchanges);
    var script := FailoverScript(chain, failoverOn4xx, None);
    var before: seq<SinkState>;
    i, before := OneProviderServes(chain, failoverOn4xx, None, s);
    var e := exchanges[i];
    k, n := TextFromOneSource(e.read, e.answers, None, e.fallback, before[i]);
    PlayAccepts(script, s);
    PlayAccepts(chain[i], before[i]);
    assert AcceptedBy(script, s) == Play(script, s).0.accepted[|s.accepted|..] == AcceptedBy(chain[i], before[i]);
    ReturnsAccepted(e.read, e.answers, None, e.fallback, before[i]);
  }
}

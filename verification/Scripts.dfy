/**
 What a streaming provider does to its sink (src/provider.rs:46-70): a script of
 deltas, whose course may depend on the answers of the sink, ending in a result.
 */
module Scripts {
  import opened Basics
  import opened Text

  datatype Error =
    | Http(status: nat, body: string)
    | Transport(details: string)
    | BrokenRead(details: string)
    | BadEvent(payload: string)
    | Rejected
    | NoText
    | Unavailable

  type Reply = Result<string, Error>

  datatype Script =
    | Return(reply: Reply)
    | Emit(delta: string, whenAccepted: Script, whenRejected: Script)

  /** A sink that has accepted some deltas, and rejects some of the calls. */
  datatype SinkState = SinkState(accepted: seq<string>, calls: nat, rejects: nat -> bool)

  function Offer(s: SinkState, delta: string): (SinkState, bool) {
    if s.rejects(s.calls) then (s.(calls := s.calls + 1), false)
    else (s.(accepted := s.accepted + [delta], calls := s.calls + 1), true)
  }

  function Play(script: Script, s: SinkState): (SinkState, Reply) {
    match script
    case Return(reply) => (s, reply)
    case Emit(delta, whenAccepted, whenRejected) =>
      var (s', ok) := Offer(s, delta);
      Play(if ok then whenAccepted else whenRejected, s')
  }

  class StreamSink {
    var accepted: seq<string>
    var calls: nat
    const rejects: nat -> bool

    function State(): SinkState
      reads this
    {
      SinkState(accepted, calls, rejects)
    }

    constructor (rejects: nat -> bool)
      ensures State() == SinkState([], 0, rejects)
    {
      accepted, calls := [], 0;
      this.rejects := rejects;
    }

    method OnDelta(delta: string) returns (ok: bool)
      modifies this
      ensures (State(), ok) == Offer(old(State()), delta)
    {
      ok := !rejects(calls);
      calls := calls + 1;
      if ok {
        accepted := accepted + [delta];
      }
    }
  }

  // ---- Text that was delivered -------------------------------------------------------------------

  function Concat(parts: seq<string>): string {
    if parts == [] then "" else Concat(parts[..|parts| - 1]) + parts[|parts| - 1]
  }

  lemma ConcatSnoc(parts: seq<string>, last: string)
    ensures Concat(parts + [last]) == Concat(parts) + last
  {
    assert (parts + [last])[..|parts|] == parts;
  }

  lemma {:induction false} ConcatAppend(a: seq<string>, b: seq<string>)
    ensures Concat(a + b) == Concat(a) + Concat(b)
  {
    if b == [] {
      assert a + b == a;
    } else {
      var before, last := b[..|b| - 1], b[|b| - 1];
      ConcatAppend(a, before);
      ConcatSnoc(a + before, last);
      Associates(a, before, [last]);
      assert b == before + [last];
      Associates(Concat(a), Concat(before), last);
    }
  }

  lemma ConcatOne(part: string)
    ensures Concat([part]) == part
  {
  }

  /** What a script makes its sink accept. */
  function AcceptedBy(script: Script, s: SinkState): (deltas: seq<string>) {
    match script
    case Return(_) => []
    case Emit(delta, whenAccepted, whenRejected) =>
      var (s', ok) := Offer(s, delta);
      if ok then [delta] + AcceptedBy(whenAccepted, s') else AcceptedBy(whenRejected, s')
  }

  lemma {:induction false} PlayAccepts(script: Script, s: SinkState)
    ensures Play(script, s).0.accepted == s.accepted + AcceptedBy(script, s)
    ensures Play(script, s).0.rejects == s.rejects
  {
    if script.Emit? {
      var (s', ok) := Offer(s, script.delta);
      PlayAccepts(if ok then script.whenAccepted else script.whenRejected, s');
    }
  }

  /** On every course, success returns the text accepted so far. */
  predicate IsHonest(script: Script, text: string) {
    match script
    case Return(reply) => reply.Ok? ==> reply.value == text
    case Emit(delta, whenAccepted, whenRejected) => IsHonest(whenAccepted, text + delta) && IsHonest(whenRejected, text)
  }

  lemma {:induction false} HonestReturnsAccepted(script: Script, s: SinkState, text: string)
    requires IsHonest(script, text)
    ensures Play(script, s).1.Ok? ==> Play(script, s).1.value == text + Concat(AcceptedBy(script, s))
  {
    if script.Emit? {
      var (s', ok) := Offer(s, script.delta);
      if ok {
        HonestReturnsAccepted(script.whenAccepted, s', text + script.delta);
        ConcatAppend([script.delta], AcceptedBy(script.whenAccepted, s'));
        ConcatOne(script.delta);
      } else {
        HonestReturnsAccepted(script.whenRejected, s', text);
      }
    }
  }

  /** Honesty is exactly the promise to the user: whatever the sink rejects, a text that is returned is the text that
      was delivered. */
  lemma {:induction false} HonestIff(script: Script, text: string, calls: nat)
    ensures IsHonest(script, text) <==>
            forall s: SinkState :: s.calls == calls && Play(script, s).1.Ok? ==> Play(script, s).1.value == text + Concat(AcceptedBy(script, s))
  {
    if IsHonest(script, text) {
      forall s: SinkState | s.calls == calls
        ensures Play(script, s).1.Ok? ==> Play(script, s).1.value == text + Concat(AcceptedBy(script, s))
      {
        HonestReturnsAccepted(script, s, text);
      }
    } else {
      var s := Betray(script, text, calls);
    }
  }

  /** A sink on whose course a dishonest script returns another text. */
  lemma {:induction false} Betray(script: Script, text: string, calls: nat) returns (s: SinkState)
    requires !IsHonest(script, text)
    ensures s.calls == calls && Play(script, s).1.Ok? && Play(script, s).1.value != text + Concat(AcceptedBy(script, s))
  {
    match script
    case Return(reply) =>
      s := SinkState([], calls, (n: nat) => false);
    case Emit(delta, whenAccepted, whenRejected) =>
      var ok := !IsHonest(whenAccepted, text + delta);
      var next, sofar := if ok then whenAccepted else whenRejected, if ok then text + delta else text;
      var later := Betray(next, sofar, calls + 1);
      s := SinkState([], calls, (n: nat) => if n == calls then !ok else later.rejects(n));
      var (s', answer) := Offer(s, delta);
      SameCourse(next, later, s');
      if ok {
        ConcatAppend([delta], AcceptedBy(next, s'));
        ConcatOne(delta);
      }
  }

  /** The course of a script depends only on the answers that are still to come. */
  lemma {:induction false} SameCourse(script: Script, a: SinkState, b: SinkState)
    requires a.calls == b.calls && forall n :: n >= a.calls ==> a.rejects(n) == b.rejects(n)
    ensures AcceptedBy(script, a) == AcceptedBy(script, b) && Play(script, a).1 == Play(script, b).1
  {
    if script.Emit? {
      var (a', ok) := Offer(a, script.delta);
      SameCourse(if ok then script.whenAccepted else script.whenRejected, a', Offer(b, script.delta).0);
    }
  }
}

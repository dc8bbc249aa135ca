/**
 The sidecar outbox of the hybrid memory backend (src/memory.rs:882-954, 4353-4445):
 a chunk and its pending upsert are stored in one transaction, and a spawned task
 and a reconciler deliver what is pending.
 */
module SidecarOutbox {
  import opened Text

  datatype Chunk = Chunk(sessionId: string, userId: string, channel: string, role: string, text: string, createdAt: int)

  datatype Doc = Doc(id: string, chunk: Chunk)

  datatype OutboxRow = OutboxRow(docJson: string, attempts: nat, lastError: Option<string>, createdAt: int)

  /** The JSON library: decoding gives back what was encoded. */
  datatype Codec = Codec(encode: Doc -> string, decode: string -> Option<Doc>) {
    ghost predicate Ok() {
      forall d: Doc :: decode(encode(d)) == Some(d)
    }
  }

  // ---- One process: append and a reconcile pass --------------------------------------------------

  datatype Tables = Tables(chunks: map<string, Chunk>, outbox: map<string, OutboxRow>, sidecar: map<string, Doc>)

  /** What happens to the calls of one delivery: the upsert's answer, whether it took effect although it failed,
      and whether the statement that follows it succeeds (its error is ignored). */
  datatype Outcome = Outcome(upserted: bool, tookEffect: bool, recorded: bool)

  function AppendStep(t: Tables, codec: Codec, id: string, chunk: Chunk, now: int): Tables {
    t.(chunks := t.chunks[id := chunk], outbox := t.outbox[id := OutboxRow(codec.encode(Doc(id, chunk)), 0, None, now)])
  }

  function BumpStep(outbox: map<string, OutboxRow>, id: string, error: string): map<string, OutboxRow> {
    map k | k in outbox :: if k == id then outbox[k].(attempts := outbox[k].attempts + 1, lastError := Some(error)) else outbox[k]
  }

  /** One row of a reconcile pass. */
  function DeliverStep(t: Tables, codec: Codec, id: string, docJson: string, o: Outcome): Tables {
    match codec.decode(docJson)
    case None => if o.recorded then t.(outbox := BumpStep(t.outbox, id, "corrupt outbox doc")) else t
    case Some(doc) =>
      var t' := if o.upserted || o.tookEffect then t.(sidecar := t.sidecar[doc.id := doc]) else t;
      if !o.recorded then t'
      else if o.upserted then t'.(outbox := t'.outbox - {id})
      else t'.(outbox := BumpStep(t'.outbox, id, "upsert failed"))
  }

  class HybridMemory {
    var chunks: map<string, Chunk>
    var outbox: map<string, OutboxRow>
    var sidecar: map<string, Doc>
    const codec: Codec

    ghost function State(): Tables
      reads this
    {
      Tables(chunks, outbox, sidecar)
    }

    constructor (codec: Codec)
      ensures State() == Tables(map[], map[], map[]) && this.codec == codec
    {
      chunks, outbox, sidecar := map[], map[], map[];
      this.codec := codec;
    }

    method AppendChunkAndOutbox(id: string, chunk: Chunk, now: int)
      modifies this
      ensures State() == AppendStep(old(State()), codec, id, chunk, now)
      ensures chunks == old(chunks)[id := chunk] && sidecar == old(sidecar)
      ensures outbox == old(outbox)[id := OutboxRow(codec.encode(Doc(id, chunk)), 0, None, now)]
    {
      chunks := chunks[id := chunk];
      outbox := outbox[id := OutboxRow(codec.encode(Doc(id, chunk)), 0, None, now)];
    }

    /** The store part of an append: a blank message leaves no chunk. */
    method Append(id: string, chunk: Chunk, now: int) returns (stored: bool)
      modifies this
      ensures stored <==> !IsBlank(chunk.text)
      ensures State() == if stored then AppendStep(old(State()), codec, id, chunk, now) else old(State())
    {
      if IsBlank(chunk.text) {
        return false;
      }
      AppendChunkAndOutbox(id, chunk, now);
      return true;
    }

    /** The oldest rows first, at most `limit` of them. */
    method ListSidecarOutbox(limit: nat) returns (pending: seq<string>)
      ensures IsOldest(outbox, limit, pending)
    {
      pending := [];
      var rest := outbox.Keys;
      while rest != {} && |pending| < limit
        invariant IsListing(outbox, pending, rest) && |pending| <= limit
        decreases |rest|
      {
        OldestExists(outbox, rest);
        var id :| id in rest && forall other :: other in rest ==> outbox[id].createdAt <= outbox[other].createdAt;
        ListingGrows(outbox, pending, rest, id);
        pending := pending + [id];
        rest := rest - {id};
      }
      assert rest == {} ==> |rest| == 0;
    }

    /** `outcomes[n]` is what happens to the n-th pending row. */
    method ReconcileSidecarOutbox(limit: nat, outcomes: seq<Outcome>) returns (delivered: nat, ghost pending: seq<string>)
      requires |outcomes| >= limit
      modifies this
      ensures IsOldest(old(outbox), limit, pending)
      ensures State() == PassSpec(old(State()), codec, old(outbox), pending, outcomes)
      ensures delivered == DeliveredSpec(codec, old(outbox), pending, outcomes)
    {
      var ids := ListSidecarOutbox(limit);
      pending := ids;
      var snapshot := outbox;
      delivered := 0;
      for n := 0 to |ids|
        invariant State() == PassSpec(old(State()), codec, snapshot, ids[..n], outcomes)
        invariant delivered == DeliveredSpec(codec, snapshot, ids[..n], outcomes)
      {
        assert ids[..n + 1][..n] == ids[..n];
        var id, o := ids[n], outcomes[n];
        match codec.decode(snapshot[id].docJson)
        case None =>
          if o.recorded {
            outbox := BumpStep(outbox, id, "corrupt outbox doc");
          }
        case Some(doc) =>
          if o.upserted || o.tookEffect {
            sidecar := sidecar[doc.id := doc];
          }
          if o.upserted {
            if o.recorded {
              outbox := outbox - {id};
            }
            delivered := delivered + 1;
          } else if o.recorded {
            outbox := BumpStep(outbox, id, "upsert failed");
          }
      }
      assert ids[..|ids|] == ids;
    }
  }

  ghost predicate IsOldest(outbox: map<string, OutboxRow>, limit: nat, pending: seq<string>) {
    && (forall i, j :: 0 <= i < j < |pending| ==> pending[i] != pending[j])
    && (forall i :: 0 <= i < |pending| ==> pending[i] in outbox)
    && (forall i, j :: 0 <= i < j < |pending| ==> outbox[pending[i]].createdAt <= outbox[pending[j]].createdAt)
    && |pending| == (if limit < |outbox| then limit else |outbox|)
    && (forall i, id :: 0 <= i < |pending| && id in outbox && id !in pending ==> outbox[pending[i]].createdAt <= outbox[id].createdAt)
  }

  ghost predicate IsListing(outbox: map<string, OutboxRow>, pending: seq<string>, rest: set<string>) {
    && rest <= outbox.Keys && |pending| + |rest| == |outbox|
    && (forall i, j :: 0 <= i < j < |pending| ==> pending[i] != pending[j])
    && (forall i :: 0 <= i < |pending| ==> pending[i] in outbox && pending[i] !in rest)
    && (forall i, j :: 0 <= i < j < |pending| ==> outbox[pending[i]].createdAt <= outbox[pending[j]].createdAt)
    && (forall id :: id in outbox ==> id in rest || id in pending)
    && (forall i, id :: 0 <= i < |pending| && id in rest ==> outbox[pending[i]].createdAt <= outbox[id].createdAt)
  }

  lemma {:induction false} OldestExists(outbox: map<string, OutboxRow>, rows: set<string>)
    requires rows != {} && rows <= outbox.Keys
    ensures exists id :: id in rows && forall other :: other in rows ==> outbox[id].createdAt <= outbox[other].createdAt
    decreases |rows|
  {
    var id :| id in rows;
    var rest := rows - {id};
    if rest == {} {
      assert rows == {id};
    } else {
      OldestExists(outbox, rest);
      var best :| best in rest && forall other :: other in rest ==> outbox[best].createdAt <= outbox[other].createdAt;
      var least := if outbox[id].createdAt <= outbox[best].createdAt then id else best;
      assert forall other :: other in rows ==> other == id || other in rest;
      assert forall other :: other in rows ==> outbox[least].createdAt <= outbox[other].createdAt;
    }
  }

  lemma ListingGrows(outbox: map<string, OutboxRow>, pending: seq<string>, rest: set<string>, id: string)
    requires IsListing(outbox, pending, rest) && id in rest
    requires forall other :: other in rest ==> outbox[id].createdAt <= outbox[other].createdAt
    ensures IsListing(outbox, pending + [id], rest - {id})
  {
    var grown := pending + [id];
    assert forall i :: 0 <= i < |grown| ==> grown[i] == if i < |pending| then pending[i] else id;
    forall other | other in outbox
      ensures other in rest - {id} || other in grown
    {
      if other == id {
        assert grown[|pending|] == id;
      }
    }
  }

  // ---- The statements, column by column -----------------------------------------------------------

  /** A new row carries its document, no attempt, no error, and the time of its insertion. */
  lemma AppendIs(t: Tables, codec: Codec, id: string, chunk: Chunk, now: int)
    ensures AppendStep(t, codec, id, chunk, now)
         == Tables(t.chunks[id := chunk], t.outbox[id := OutboxRow(codec.encode(Doc(id, chunk)), 0, None, now)], t.sidecar)
  {
  }

  /** A failure counts one more attempt of its row and notes the error; document and time stay. */
  lemma BumpIs(outbox: map<string, OutboxRow>, id: string, error: string)
    ensures BumpStep(outbox, id, error)
         == if id in outbox then outbox[id := OutboxRow(outbox[id].docJson, outbox[id].attempts + 1, Some(error), outbox[id].createdAt)] else outbox
  {
  }

  /** A delivery writes the document if the upsert took effect, then removes the row after success or counts the failed
      attempt, unless that statement fails; a row that does not decode is only counted. */
  lemma DeliverIs(t: Tables, codec: Codec, id: string, docJson: string, o: Outcome)
    requires id in t.outbox
    ensures var t' := DeliverStep(t, codec, id, docJson, o);
            var failed := (error: string) => t.outbox[id := OutboxRow(t.outbox[id].docJson, t.outbox[id].attempts + 1, Some(error), t.outbox[id].createdAt)];
            && t'.chunks == t.chunks
            && t'.sidecar == (if codec.decode(docJson).Some? && (o.upserted || o.tookEffect)
                              then t.sidecar[codec.decode(docJson).value.id := codec.decode(docJson).value] else t.sidecar)
            && t'.outbox == if !o.recorded then t.outbox
                            else if codec.decode(docJson).None? then failed("corrupt outbox doc")
                            else if o.upserted then t.outbox - {id}
                            else failed("upsert failed")
  {
    BumpIs(t.outbox, id, "corrupt outbox doc");
    BumpIs(t.outbox, id, "upsert failed");
  }

  // ---- What a pass does --------------------------------------------------------------------------

  function PassSpec(t: Tables, codec: Codec, snapshot: map<string, OutboxRow>, pending: seq<string>, outcomes: seq<Outcome>): Tables
    requires |pending| <= |outcomes| && forall n :: 0 <= n < |pending| ==> pending[n] in snapshot
  {
    if pending == [] then t
    else
      var n := |pending| - 1;
      DeliverStep(PassSpec(t, codec, snapshot, pending[..n], outcomes), codec, pending[n], snapshot[pending[n]].docJson, outcomes[n])
  }

  function DeliveredSpec(codec: Codec, snapshot: map<string, OutboxRow>, pending: seq<string>, outcomes: seq<Outcome>): nat
    requires |pending| <= |outcomes| && forall n :: 0 <= n < |pending| ==> pending[n] in snapshot
  {
    if pending == [] then 0
    else
      var n := |pending| - 1;
      DeliveredSpec(codec, snapshot, pending[..n], outcomes)
      + (if codec.decode(snapshot[pending[n]].docJson).Some? && outcomes[n].upserted then 1 else 0)
  }

  /** Rows that were delivered and whose deletion succeeded. */
  function RemovedSpec(codec: Codec, snapshot: map<string, OutboxRow>, pending: seq<string>, outcomes: seq<Outcome>): set<string>
    requires |pending| <= |outcomes| && forall n :: 0 <= n < |pending| ==> pending[n] in snapshot
  {
    set n | 0 <= n < |pending| && codec.decode(snapshot[pending[n]].docJson).Some? && outcomes[n].upserted && outcomes[n].recorded
      :: pending[n]
  }

  lemma RemovedSnoc(codec: Codec, snapshot: map<string, OutboxRow>, pending: seq<string>, outcomes: seq<Outcome>)
    requires pending != [] && |pending| <= |outcomes| && forall n :: 0 <= n < |pending| ==> pending[n] in snapshot
    ensures var n := |pending| - 1;
            RemovedSpec(codec, snapshot, pending, outcomes) == RemovedSpec(codec, snapshot, pending[..n], outcomes)
              + (if codec.decode(snapshot[pending[n]].docJson).Some? && outcomes[n].upserted && outcomes[n].recorded
                 then {pending[n]} else {})
  {
    var n, before := |pending| - 1, pending[..|pending| - 1];
    forall id
      ensures id in RemovedSpec(codec, snapshot, before, outcomes) ==> id in RemovedSpec(codec, snapshot, pending, outcomes)
    {
      if id in RemovedSpec(codec, snapshot, before, outcomes) {
        var m :| 0 <= m < n && codec.decode(snapshot[before[m]].docJson).Some? && outcomes[m].upserted && outcomes[m].recorded && before[m] == id;
        assert pending[m] == id;
      }
    }
    forall id
      ensures id in RemovedSpec(codec, snapshot, pending, outcomes) ==> id == pending[n] || id in RemovedSpec(codec, snapshot, before, outcomes)
    {
      if id in RemovedSpec(codec, snapshot, pending, outcomes) {
        var m :| 0 <= m <= n && codec.decode(snapshot[pending[m]].docJson).Some? && outcomes[m].upserted && outcomes[m].recorded && pending[m] == id;
        if m < n {
          assert before[m] == id;
        }
      }
    }
    if !(codec.decode(snapshot[pending[n]].docJson).Some? && outcomes[n].upserted && outcomes[n].recorded)
       && pending[n] in RemovedSpec(codec, snapshot, pending, outcomes) {
      var m :| 0 <= m <= n && codec.decode(snapshot[pending[m]].docJson).Some? && outcomes[m].upserted && outcomes[m].recorded && pending[m] == pending[n];
      assert before[m] == pending[n];
    }
  }

  /** One delivery removes the row it delivers, if the deletion succeeds, and no other. */
  lemma DeliverKeys(t: Tables, codec: Codec, id: string, docJson: string, o: Outcome)
    requires id in t.outbox
    ensures var t' := DeliverStep(t, codec, id, docJson, o);
            && t'.chunks == t.chunks
            && t'.outbox.Keys == t.outbox.Keys - (if codec.decode(docJson).Some? && o.upserted && o.recorded then {id} else {})
  {
  }

  ghost predicate AllDeletionsSucceed(codec: Codec, snapshot: map<string, OutboxRow>, pending: seq<string>, outcomes: seq<Outcome>)
    requires |pending| <= |outcomes| && forall n :: 0 <= n < |pending| ==> pending[n] in snapshot
  {
    forall n :: 0 <= n < |pending| && codec.decode(snapshot[pending[n]].docJson).Some? && outcomes[n].upserted ==> outcomes[n].recorded
  }

  lemma DeletionsSnoc(codec: Codec, snapshot: map<string, OutboxRow>, pending: seq<string>, outcomes: seq<Outcome>)
    requires pending != [] && |pending| <= |outcomes| && forall n :: 0 <= n < |pending| ==> pending[n] in snapshot
    ensures var n := |pending| - 1;
            AllDeletionsSucceed(codec, snapshot, pending, outcomes) <==>
              && AllDeletionsSucceed(codec, snapshot, pending[..n], outcomes)
              && (codec.decode(snapshot[pending[n]].docJson).Some? && outcomes[n].upserted ==> outcomes[n].recorded)
  {
    var before := pending[..|pending| - 1];
    assert forall m :: 0 <= m < |before| ==> before[m] == pending[m];
  }

  lemma RemovedArePending(codec: Codec, snapshot: map<string, OutboxRow>, pending: seq<string>, outcomes: seq<Outcome>)
    requires |pending| <= |outcomes| && forall n :: 0 <= n < |pending| ==> pending[n] in snapshot
    ensures forall id :: id in RemovedSpec(codec, snapshot, pending, outcomes) ==> id in pending && id in snapshot
  {
  }

  lemma {:induction false} PassKeys(t: Tables, codec: Codec, pending: seq<string>, outcomes: seq<Outcome>)
    requires |pending| <= |outcomes| && (forall n :: 0 <= n < |pending| ==> pending[n] in t.outbox)
    requires forall i, j :: 0 <= i < j < |pending| ==> pending[i] != pending[j]
    ensures var t' := PassSpec(t, codec, t.outbox, pending, outcomes);
            && t'.chunks == t.chunks
            && t'.outbox.Keys == t.outbox.Keys - RemovedSpec(codec, t.outbox, pending, outcomes)
  {
    if pending == [] {
      assert RemovedSpec(codec, t.outbox, pending, outcomes) == {};
    } else {
      var n, before := |pending| - 1, pending[..|pending| - 1];
      PassKeys(t, codec, before, outcomes);
      RemovedSnoc(codec, t.outbox, pending, outcomes);
      RemovedArePending(codec, t.outbox, before, outcomes);
      DeliverKeys(PassSpec(t, codec, t.outbox, before, outcomes), codec, pending[n], t.outbox[pending[n]].docJson, outcomes[n]);
    }
  }

  lemma {:induction false} RemovedAreDelivered(codec: Codec, snapshot: map<string, OutboxRow>, pending: seq<string>, outcomes: seq<Outcome>)
    requires |pending| <= |outcomes| && (forall n :: 0 <= n < |pending| ==> pending[n] in snapshot)
    requires forall i, j :: 0 <= i < j < |pending| ==> pending[i] != pending[j]
    ensures var removed := RemovedSpec(codec, snapshot, pending, outcomes);
            var delivered := DeliveredSpec(codec, snapshot, pending, outcomes);
            && |removed| <= delivered
            && (|removed| == delivered <==> AllDeletionsSucceed(codec, snapshot, pending, outcomes))
  {
    if pending == [] {
      assert RemovedSpec(codec, snapshot, pending, outcomes) == {};
    } else {
      var before := pending[..|pending| - 1];
      RemovedAreDelivered(codec, snapshot, before, outcomes);
      RemovedSnoc(codec, snapshot, pending, outcomes);
      RemovedArePending(codec, snapshot, before, outcomes);
      DeletionsSnoc(codec, snapshot, pending, outcomes);
    }
  }

  lemma SizeWithout<T>(all: set<T>, removed: set<T>)
    requires removed <= all
    ensures |all - removed| == |all| - |removed|
  {
    assert all == (all - removed) + removed;
  }

  /** Left to itself, a pass takes exactly the delivered rows whose deletion succeeded out of the outbox: the outbox
      shrinks by at most the number reported, and by exactly that number if and only if every deletion succeeded. */
  lemma PassShrinksOutbox(t: Tables, codec: Codec, pending: seq<string>, outcomes: seq<Outcome>)
    requires |pending| <= |outcomes| && (forall n :: 0 <= n < |pending| ==> pending[n] in t.outbox)
    requires forall i, j :: 0 <= i < j < |pending| ==> pending[i] != pending[j]
    ensures var t' := PassSpec(t, codec, t.outbox, pending, outcomes);
            var delivered := DeliveredSpec(codec, t.outbox, pending, outcomes);
            && t'.chunks == t.chunks
            && t'.outbox.Keys == t.outbox.Keys - RemovedSpec(codec, t.outbox, pending, outcomes)
            && |t.outbox| - |t'.outbox| <= delivered
            && (|t.outbox| - |t'.outbox| == delivered <==> AllDeletionsSucceed(codec, t.outbox, pending, outcomes))
  {
    PassKeys(t, codec, pending, outcomes);
    RemovedAreDelivered(codec, t.outbox, pending, outcomes);
    RemovedArePending(codec, t.outbox, pending, outcomes);
    SizeWithout(t.outbox.Keys, RemovedSpec(codec, t.outbox, pending, outcomes));
    var t' := PassSpec(t, codec, t.outbox, pending, outcomes);
    assert |t.outbox| == |t.outbox.Keys| && |t'.outbox| == |t'.outbox.Keys|;
  }
}

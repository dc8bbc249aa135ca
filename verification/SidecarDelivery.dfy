/**
 Every interleaving of appends, spawned deliveries, reconcile passes, failures and
 crashes of the hybrid memory backend (src/memory.rs:882-954, 4353-4445).
 */
module SidecarDelivery {
  import opened Basics
  import opened Text
  import opened SidecarOutbox

  /** Where a delivery stands: it is about to decode the next row, to upsert a document, to delete a row, or to note
      a failure on it. */
  datatype Stage =
    | Ready
    | Upserting(id: string, doc: Doc)
    | Deleting(id: string)
    | Bumping(id: string, error: string)

  datatype Pending = Pending(id: string, docJson: string)

  /** A spawned delivery, or a reconcile pass with the rows that it listed and has not handled yet. */
  datatype Worker = Worker(stage: Stage, queue: seq<Pending>)

  datatype World = World(tables: Tables, workers: map<nat, Worker>)

  datatype Event =
    | Append(id: string, chunk: Chunk, now: int, spawned: Option<nat>)
    | StartPass(worker: nat, pending: seq<string>)
    | Decode(worker: nat)
    | Upsert(worker: nat, succeeded: bool, tookEffect: bool)
    | Record(worker: nat, succeeded: bool)
    | Crash

  // ---- Steps -------------------------------------------------------------------------------------

  function Put(w: World, n: nat, worker: Worker): World {
    w.(workers := w.workers[n := worker])
  }

  function AppendEvent(w: World, codec: Codec, id: string, chunk: Chunk, now: int, spawned: Option<nat>): World {
    if IsBlank(chunk.text) then w
    else
      var w' := w.(tables := AppendStep(w.tables, codec, id, chunk, now));
      if spawned.Some? && spawned.value !in w.workers
      then Put(w', spawned.value, Worker(Upserting(id, Doc(id, chunk)), []))
      else w'
  }

  /** Lists any pending rows: the limit and the order of the listing are immaterial here. */
  function StartPassEvent(w: World, n: nat, pending: seq<string>): World {
    if n !in w.workers && forall k :: 0 <= k < |pending| ==> pending[k] in w.tables.outbox
    then Put(w, n, Worker(Ready, seq(|pending|, k requires 0 <= k < |pending| =>
                                   Pending(pending[k], if pending[k] in w.tables.outbox then w.tables.outbox[pending[k]].docJson else ""))))
    else w
  }

  function DecodeEvent(w: World, codec: Codec, n: nat): World {
    if n in w.workers && w.workers[n].stage.Ready? && w.workers[n].queue != [] then
      var row, rest := w.workers[n].queue[0], w.workers[n].queue[1..];
      match codec.decode(row.docJson)
      case None => Put(w, n, Worker(Bumping(row.id, "corrupt outbox doc"), rest))
      case Some(doc) => Put(w, n, Worker(Upserting(row.id, doc), rest))
    else w
  }

  function UpsertEvent(w: World, n: nat, succeeded: bool, tookEffect: bool): World {
    if n in w.workers && w.workers[n].stage.Upserting? then
      var s, rest := w.workers[n].stage, w.workers[n].queue;
      var w' := if succeeded || tookEffect then w.(tables := w.tables.(sidecar := w.tables.sidecar[s.doc.id := s.doc])) else w;
      Put(w', n, Worker(if succeeded then Deleting(s.id) else Bumping(s.id, "upsert failed"), rest))
    else w
  }

  function RecordEvent(w: World, n: nat, succeeded: bool): World {
    if n in w.workers && (w.workers[n].stage.Deleting? || w.workers[n].stage.Bumping?) then
      var s, rest := w.workers[n].stage, w.workers[n].queue;
      var w' := if !succeeded then w
                else if s.Deleting? then w.(tables := w.tables.(outbox := w.tables.outbox - {s.id}))
                else w.(tables := w.tables.(outbox := BumpStep(w.tables.outbox, s.id, s.error)));
      Put(w', n, Worker(Ready, rest))
    else w
  }

  function Next(w: World, codec: Codec, e: Event): World {
    match e
    case Append(id, chunk, now, spawned) => AppendEvent(w, codec, id, chunk, now, spawned)
    case StartPass(n, pending) => StartPassEvent(w, n, pending)
    case Decode(n) => DecodeEvent(w, codec, n)
    case Upsert(n, succeeded, tookEffect) => UpsertEvent(w, n, succeeded, tookEffect)
    case Record(n, succeeded) => RecordEvent(w, n, succeeded)
    case Crash => w.(workers := map[])
  }

  function Exec(w: World, codec: Codec, events: seq<Event>): World {
    if events == [] then w else Next(Exec(w, codec, events[..|events| - 1]), codec, events[|events| - 1])
  }

  const EMPTY := World(Tables(map[], map[], map[]), map[])

  predicate Stores(e: Event) {
    e.Append? && !IsBlank(e.chunk.text)
  }

  /** A chunk id, which hashes the chunk and the time in nanoseconds, is never given to two different stored chunks. */
  ghost predicate IdsIdentify(events: seq<Event>) {
    forall i, j :: 0 <= i < j < |events| && Stores(events[i]) && Stores(events[j]) && events[i].id == events[j].id ==>
      events[i].chunk == events[j].chunk
  }

  // ---- The invariant -----------------------------------------------------------------------------

  /** Pending rows and delivered documents are those of stored chunks, and every stored chunk is one or the other. */
  ghost predicate TablesOk(t: Tables, codec: Codec) {
    && (forall id :: id in t.outbox ==> id in t.chunks && t.outbox[id].docJson == codec.encode(Doc(id, t.chunks[id])))
    && (forall id :: id in t.sidecar ==> id in t.chunks && t.sidecar[id] == Doc(id, t.chunks[id]))
    && (forall id :: id in t.chunks ==> id in t.outbox || id in t.sidecar)
  }

  ghost predicate StageOk(t: Tables, s: Stage) {
    match s
    case Ready => true
    case Upserting(id, doc) => id in t.chunks && doc == Doc(id, t.chunks[id])
    case Deleting(id) => id in t.sidecar
    case Bumping(id, error) => error == "upsert failed"
  }

  ghost predicate QueueOk(t: Tables, codec: Codec, queue: seq<Pending>) {
    forall k :: 0 <= k < |queue| ==> queue[k].id in t.chunks && queue[k].docJson == codec.encode(Doc(queue[k].id, t.chunks[queue[k].id]))
  }

  ghost predicate WorkersOk(w: World, codec: Codec) {
    forall n :: n in w.workers ==> StageOk(w.tables, w.workers[n].stage) && QueueOk(w.tables, codec, w.workers[n].queue)
  }

  ghost predicate WorldOk(w: World, codec: Codec) {
    TablesOk(w.tables, codec) && WorkersOk(w, codec)
  }

  /** No step forgets a chunk or a delivered document. */
  ghost predicate Keeps(t: Tables, t': Tables) {
    && (forall id :: id in t.chunks ==> id in t'.chunks && t'.chunks[id] == t.chunks[id])
    && (forall id :: id in t.sidecar ==> id in t'.sidecar && t'.sidecar[id] == t.sidecar[id])
  }

  lemma AppendStepOk(t: Tables, codec: Codec, id: string, chunk: Chunk, now: int)
    requires TablesOk(t, codec) && (id in t.chunks ==> t.chunks[id] == chunk)
    ensures TablesOk(AppendStep(t, codec, id, chunk, now), codec) && Keeps(t, AppendStep(t, codec, id, chunk, now))
  {
  }

  lemma WorkerStaysOk(t: Tables, t': Tables, codec: Codec, worker: Worker)
    requires Keeps(t, t') && StageOk(t, worker.stage) && QueueOk(t, codec, worker.queue)
    ensures StageOk(t', worker.stage) && QueueOk(t', codec, worker.queue)
  {
  }

  lemma WorkersStayOk(w: World, t': Tables, codec: Codec)
    requires WorkersOk(w, codec) && Keeps(w.tables, t')
    ensures WorkersOk(w.(tables := t'), codec)
  {
    forall n | n in w.workers
      ensures StageOk(t', w.workers[n].stage) && QueueOk(t', codec, w.workers[n].queue)
    {
      WorkerStaysOk(w.tables, t', codec, w.workers[n]);
    }
  }

  lemma PutKeepsOk(w: World, codec: Codec, n: nat, worker: Worker)
    requires WorldOk(w, codec) && StageOk(w.tables, worker.stage) && QueueOk(w.tables, codec, worker.queue)
    ensures WorldOk(Put(w, n, worker), codec)
  {
  }

  lemma AppendKeepsOk(w: World, codec: Codec, id: string, chunk: Chunk, now: int, spawned: Option<nat>)
    requires codec.Ok() && WorldOk(w, codec) && (!IsBlank(chunk.text) && id in w.tables.chunks ==> w.tables.chunks[id] == chunk)
    ensures WorldOk(AppendEvent(w, codec, id, chunk, now, spawned), codec)
    ensures Keeps(w.tables, AppendEvent(w, codec, id, chunk, now, spawned).tables)
  {
    if !IsBlank(chunk.text) {
      var t' := AppendStep(w.tables, codec, id, chunk, now);
      AppendStepOk(w.tables, codec, id, chunk, now);
      WorkersStayOk(w, t', codec);
      if spawned.Some? && spawned.value !in w.workers {
        PutKeepsOk(w.(tables := t'), codec, spawned.value, Worker(Upserting(id, Doc(id, chunk)), []));
      }
    }
  }

  lemma StartPassKeepsOk(w: World, codec: Codec, n: nat, pending: seq<string>)
    requires WorldOk(w, codec)
    ensures WorldOk(StartPassEvent(w, n, pending), codec)
  {
  }

  lemma DecodeKeepsOk(w: World, codec: Codec, n: nat)
    requires codec.Ok() && WorldOk(w, codec)
    ensures WorldOk(DecodeEvent(w, codec, n), codec)
  {
    if n in w.workers && w.workers[n].stage.Ready? && w.workers[n].queue != [] {
      var row := w.workers[n].queue[0];
      assert codec.decode(row.docJson) == Some(Doc(row.id, w.tables.chunks[row.id]));
    }
  }

  lemma UpsertKeepsOk(w: World, codec: Codec, n: nat, succeeded: bool, tookEffect: bool)
    requires WorldOk(w, codec)
    ensures WorldOk(UpsertEvent(w, n, succeeded, tookEffect), codec)
    ensures Keeps(w.tables, UpsertEvent(w, n, succeeded, tookEffect).tables)
  {
  }

  lemma RecordKeepsOk(w: World, codec: Codec, n: nat, succeeded: bool)
    requires WorldOk(w, codec)
    ensures WorldOk(RecordEvent(w, n, succeeded), codec)
  {
  }

  lemma NextKeepsOk(w: World, codec: Codec, e: Event)
    requires codec.Ok() && WorldOk(w, codec)
    requires Stores(e) && e.id in w.tables.chunks ==> w.tables.chunks[e.id] == e.chunk
    ensures WorldOk(Next(w, codec, e), codec) && Keeps(w.tables, Next(w, codec, e).tables)
  {
    match e
    case Append(id, chunk, now, spawned) => AppendKeepsOk(w, codec, id, chunk, now, spawned);
    case StartPass(n, pending) => StartPassKeepsOk(w, codec, n, pending);
    case Decode(n) => DecodeKeepsOk(w, codec, n);
    case Upsert(n, succeeded, tookEffect) => UpsertKeepsOk(w, codec, n, succeeded, tookEffect);
    case Record(n, succeeded) => RecordKeepsOk(w, codec, n, succeeded);
    case Crash =>
  }

  lemma NextChunks(w: World, codec: Codec, e: Event)
    ensures Next(w, codec, e).tables.chunks ==
            if Stores(e) then w.tables.chunks[e.id := e.chunk] else w.tables.chunks
  {
  }

  /** Stored chunks come from appends. */
  lemma {:induction false} ChunksAreAppended(codec: Codec, events: seq<Event>, id: string)
    requires id in Exec(EMPTY, codec, events).tables.chunks
    ensures exists i :: 0 <= i < |events| && Stores(events[i]) && events[i].id == id && events[i].chunk == Exec(EMPTY, codec, events).tables.chunks[id]
  {
    assert events != [];
    var before, e := events[..|events| - 1], events[|events| - 1];
    var w := Exec(EMPTY, codec, before);
    NextChunks(w, codec, e);
    if Stores(e) && e.id == id {
      assert events[|events| - 1].chunk == Exec(EMPTY, codec, events).tables.chunks[id];
    } else {
      ChunksAreAppended(codec, before, id);
      var i :| 0 <= i < |before| && Stores(before[i]) && before[i].id == id && before[i].chunk == w.tables.chunks[id];
      assert events[i] == before[i];
    }
  }

  lemma LastAppendAgrees(codec: Codec, events: seq<Event>)
    requires events != [] && IdsIdentify(events)
    ensures IdsIdentify(events[..|events| - 1])
    ensures var e, w := events[|events| - 1], Exec(EMPTY, codec, events[..|events| - 1]);
            Stores(e) && e.id in w.tables.chunks ==> w.tables.chunks[e.id] == e.chunk
  {
    var before, e := events[..|events| - 1], events[|events| - 1];
    assert forall i :: 0 <= i < |before| ==> before[i] == events[i];
    if Stores(e) && e.id in Exec(EMPTY, codec, before).tables.chunks {
      ChunksAreAppended(codec, before, e.id);
    }
  }

  /** Under every interleaving, with failures and crashes anywhere, every stored chunk is still pending or already in
      the sidecar, with its own document; nothing else is pending or in the sidecar; and no pending row is corrupt. */
  lemma {:induction false} EveryChunkIsCovered(codec: Codec, events: seq<Event>)
    requires codec.Ok() && IdsIdentify(events)
    ensures WorldOk(Exec(EMPTY, codec, events), codec)
  {
    if events != [] {
      LastAppendAgrees(codec, events);
      EveryChunkIsCovered(codec, events[..|events| - 1]);
      NextKeepsOk(Exec(EMPTY, codec, events[..|events| - 1]), codec, events[|events| - 1]);
    }
  }

  lemma LastStepKeeps(codec: Codec, events: seq<Event>)
    requires codec.Ok() && events != [] && IdsIdentify(events)
    ensures Keeps(Exec(EMPTY, codec, events[..|events| - 1]).tables, Exec(EMPTY, codec, events).tables)
  {
    LastAppendAgrees(codec, events);
    EveryChunkIsCovered(codec, events[..|events| - 1]);
    NextKeepsOk(Exec(EMPTY, codec, events[..|events| - 1]), codec, events[|events| - 1]);
  }

  /** Whatever happens later, a stored chunk stays stored and a delivered document stays delivered. */
  lemma {:induction false} DeliveredStaysDelivered(codec: Codec, events: seq<Event>, more: seq<Event>)
    requires codec.Ok() && IdsIdentify(events + more)
    ensures Keeps(Exec(EMPTY, codec, events).tables, Exec(EMPTY, codec, events + more).tables)
  {
    var all := events + more;
    if more == [] {
      assert all == events;
    } else {
      var fewer := events + more[..|more| - 1];
      assert all[..|all| - 1] == fewer;
      LastAppendAgrees(codec, all);
      LastStepKeeps(codec, all);
      DeliveredStaysDelivered(codec, events, more[..|more| - 1]);
      KeepsTransitively(Exec(EMPTY, codec, events).tables, Exec(EMPTY, codec, fewer).tables, Exec(EMPTY, codec, all).tables);
    }
  }

  /** A crash stops every delivery: nothing is delivered again before the next append or reconcile pass. */
  lemma {:induction false} CrashStopsDeliveries(w: World, codec: Codec, later: seq<Event>)
    requires forall i :: 0 <= i < |later| ==> !later[i].Append? && !later[i].StartPass?
    ensures Exec(Next(w, codec, Crash), codec, later).tables == w.tables
    ensures Exec(Next(w, codec, Crash), codec, later).workers == map[]
  {
    if later != [] {
      CrashStopsDeliveries(w, codec, later[..|later| - 1]);
    }
  }

  lemma KeepsTransitively(a: Tables, b: Tables, c: Tables)
    requires Keeps(a, b) && Keeps(b, c)
    ensures Keeps(a, c)
  {
  }

  lemma ExecSnoc(w: World, codec: Codec, events: seq<Event>, e: Event)
    ensures Exec(w, codec, events + [e]) == Next(Exec(w, codec, events), codec, e)
  {
    assert (events + [e])[..|events|] == events;
  }

  /** The guarantee needs ids that identify: when an id comes back for another chunk while the first delivery is still
      in flight, both deliveries may succeed and leave the newer chunk with the older document and nothing pending. */
  lemma ReusedIdLosesTheDocument(codec: Codec, id: string, older: Chunk, newer: Chunk, now: int)
    requires codec.Ok() && older != newer && !IsBlank(older.text) && !IsBlank(newer.text)
    ensures exists events ::
              var t := Exec(EMPTY, codec, events).tables;
              id in t.chunks && t.chunks[id] == newer && id !in t.outbox && id in t.sidecar && t.sidecar[id] == Doc(id, older)
  {
    var e1: seq<Event> := [] + [Append(id, older, now, Some(0))];
    ExecSnoc(EMPTY, codec, [], Append(id, older, now, Some(0)));
    assert Exec(EMPTY, codec, e1).workers == map[0 := Worker(Upserting(id, Doc(id, older)), [])];
    var e2 := e1 + [Append(id, newer, now, Some(1))];
    ExecSnoc(EMPTY, codec, e1, Append(id, newer, now, Some(1)));
    assert Exec(EMPTY, codec, e2).workers == map[0 := Worker(Upserting(id, Doc(id, older)), []), 1 := Worker(Upserting(id, Doc(id, newer)), [])];
    var t := StaleDelivery(Exec(EMPTY, codec, e2), codec, e2, id, older, newer);
  }

  function StaleEvents(): seq<Event> {
    [Upsert(1, true, true), Record(1, true), Upsert(0, true, true)]
  }

  /** The newer of two deliveries in flight finishes first, and the older one still overwrites its document. */
  lemma StaleDelivery(w: World, codec: Codec, events: seq<Event>, id: string, older: Chunk, newer: Chunk) returns (t: Tables)
    requires w == Exec(EMPTY, codec, events) && id in w.tables.chunks && w.tables.chunks[id] == newer
    requires 0 in w.workers && w.workers[0] == Worker(Upserting(id, Doc(id, older)), [])
    requires 1 in w.workers && w.workers[1] == Worker(Upserting(id, Doc(id, newer)), [])
    ensures t == Exec(EMPTY, codec, events + StaleEvents()).tables
    ensures id in t.chunks && t.chunks[id] == newer && id !in t.outbox && id in t.sidecar && t.sidecar[id] == Doc(id, older)
  {
    var w1 := UpsertEvent(w, 1, true, true);
    var w2 := RecordEvent(w1, 1, true);
    t := UpsertEvent(w2, 0, true, true).tables;
    var e1, e2 := events + [Upsert(1, true, true)], events + [Upsert(1, true, true)] + [Record(1, true)];
    ExecSnoc(EMPTY, codec, events, Upsert(1, true, true));
    ExecSnoc(EMPTY, codec, e1, Record(1, true));
    ExecSnoc(EMPTY, codec, e2, Upsert(0, true, true));
    assert e2 + [Upsert(0, true, true)] == events + StaleEvents();
  }

  // ---- Exactly when every chunk is covered -------------------------------------------------------

  datatype Request = Request(id: string, chunk: Chunk, now: int)

  /** The appends that a run has seen. */
  function AppendsOf(events: seq<Event>): seq<Request> {
    if events == [] then []
    else
      var e := Last(events);
      AppendsOf(Front(events)) + (if e.Append? then [Request(e.id, e.chunk, e.now)] else [])
  }

  ghost predicate Covered(t: Tables, codec: Codec) {
    forall id :: id in t.chunks ==>
      || (id in t.outbox && t.outbox[id].docJson == codec.encode(Doc(id, t.chunks[id])))
      || (id in t.sidecar && t.sidecar[id] == Doc(id, t.chunks[id]))
  }

  /** However the appends are interleaved with deliveries, passes, failures and crashes, at every moment each stored
      chunk is pending or delivered with its own document. */
  ghost predicate AlwaysCovers(codec: Codec, requests: seq<Request>) {
    forall events: seq<Event> :: AppendsOf(events) <= requests ==> Covered(Exec(EMPTY, codec, events).tables, codec)
  }

  ghost predicate IdsIdentifyChunks(requests: seq<Request>) {
    forall i, j :: 0 <= i < j < |requests| ==> !Conflict(requests[i], requests[j])
  }

  predicate Conflict(a: Request, b: Request) {
    a.id == b.id && a.chunk != b.chunk && !IsBlank(a.chunk.text) && !IsBlank(b.chunk.text)
  }

  lemma {:induction false} AppendsConcat(a: seq<Event>, b: seq<Event>)
    ensures AppendsOf(a + b) == AppendsOf(a) + AppendsOf(b)
  {
    if b == [] {
      assert a + b == a;
    } else {
      assert Front(a + b) == a + Front(b);
      AppendsConcat(a, Front(b));
    }
  }

  lemma AppendIsRequest(events: seq<Event>, i: nat) returns (p: nat)
    requires i < |events| && events[i].Append?
    ensures p == |AppendsOf(events[..i])| && p < |AppendsOf(events[..i + 1])|
    ensures AppendsOf(events[..i + 1]) <= AppendsOf(events)
    ensures p < |AppendsOf(events)| && AppendsOf(events)[p] == Request(events[i].id, events[i].chunk, events[i].now)
  {
    p := |AppendsOf(events[..i])|;
    assert Front(events[..i + 1]) == events[..i] && Last(events[..i + 1]) == events[i];
    assert events == events[..i + 1] + events[i + 1..];
    AppendsConcat(events[..i + 1], events[i + 1..]);
  }

  lemma RequestsInOrder(events: seq<Event>, i: nat, j: nat) returns (p: nat, q: nat)
    requires i < j < |events| && events[i].Append? && events[j].Append?
    ensures p < q < |AppendsOf(events)|
    ensures AppendsOf(events)[p] == Request(events[i].id, events[i].chunk, events[i].now)
    ensures AppendsOf(events)[q] == Request(events[j].id, events[j].chunk, events[j].now)
  {
    p := AppendIsRequest(events, i);
    q := AppendIsRequest(events, j);
    assert events[..j] == events[..i + 1] + events[i + 1..j];
    AppendsConcat(events[..i + 1], events[i + 1..j]);
  }

  lemma RequestsIdentify(events: seq<Event>, requests: seq<Request>)
    requires AppendsOf(events) <= requests && IdsIdentifyChunks(requests)
    ensures IdsIdentify(events)
  {
    forall i, j | 0 <= i < j < |events| && Stores(events[i]) && Stores(events[j]) && events[i].id == events[j].id
      ensures events[i].chunk == events[j].chunk
    {
      var p, q := RequestsInOrder(events, i, j);
      assert !Conflict(requests[p], requests[q]);
    }
  }

  /** Appends whose deliveries are not spawned, because the process dies before. */
  function Unspawned(requests: seq<Request>): seq<Event> {
    seq(|requests|, k requires 0 <= k < |requests| => Append(requests[k].id, requests[k].chunk, requests[k].now, None))
  }

  function Spawned(r: Request, worker: nat): Event {
    Append(r.id, r.chunk, r.now, Some(worker))
  }

  lemma {:induction false} UnspawnedRun(w: World, codec: Codec, requests: seq<Request>)
    ensures AppendsOf(Unspawned(requests)) == requests
    ensures Exec(w, codec, Unspawned(requests)).workers == w.workers
  {
    if requests != [] {
      assert Front(Unspawned(requests)) == Unspawned(Front(requests));
      UnspawnedRun(w, codec, Front(requests));
      assert requests == Front(requests) + [Last(requests)];
    }
  }

  lemma SpawnedRun(codec: Codec, events: seq<Event>, r: Request, n: nat)
    requires !IsBlank(r.chunk.text) && n !in Exec(EMPTY, codec, events).workers
    ensures AppendsOf(events + [Spawned(r, n)]) == AppendsOf(events) + [r]
    ensures var w, w' := Exec(EMPTY, codec, events), Exec(EMPTY, codec, events + [Spawned(r, n)]);
            && w'.workers == w.workers[n := Worker(Upserting(r.id, Doc(r.id, r.chunk)), [])]
            && r.id in w'.tables.chunks && w'.tables.chunks[r.id] == r.chunk
  {
    ExecSnoc(EMPTY, codec, events, Spawned(r, n));
    assert Front(events + [Spawned(r, n)]) == events;
  }

  lemma UnspawnedAfter(codec: Codec, events: seq<Event>, requests: seq<Request>)
    ensures AppendsOf(events + Unspawned(requests)) == AppendsOf(events) + requests
    ensures Exec(EMPTY, codec, events + Unspawned(requests)).workers == Exec(EMPTY, codec, events).workers
  {
    AppendsConcat(events, Unspawned(requests));
    ExecConcat(EMPTY, codec, events, Unspawned(requests));
    UnspawnedRun(Exec(EMPTY, codec, events), codec, requests);
  }

  lemma OneInFlight(codec: Codec, before: seq<Request>, a: Request, between: seq<Request>) returns (events: seq<Event>)
    requires !IsBlank(a.chunk.text)
    ensures AppendsOf(events) == before + [a] + between
    ensures Exec(EMPTY, codec, events).workers == map[0 := Worker(Upserting(a.id, Doc(a.id, a.chunk)), [])]
  {
    var e1 := [] + Unspawned(before);
    UnspawnedAfter(codec, [], before);
    assert AppendsOf([]) + before == before;
    var e2 := e1 + [Spawned(a, 0)];
    SpawnedRun(codec, e1, a, 0);
    events := e2 + Unspawned(between);
    UnspawnedAfter(codec, e2, between);
  }

  lemma TwoInFlight(codec: Codec, before: seq<Request>, a: Request, between: seq<Request>, b: Request) returns (events: seq<Event>, t: Tables)
    requires Conflict(a, b)
    ensures AppendsOf(events) == before + [a] + between + [b]
    ensures t == Exec(EMPTY, codec, events).tables && !Covered(t, codec)
  {
    var e3 := OneInFlight(codec, before, a, between);
    var e4 := e3 + [Spawned(b, 1)];
    SpawnedRun(codec, e3, b, 1);
    t := StaleDelivery(Exec(EMPTY, codec, e4), codec, e4, a.id, a.chunk, b.chunk);
    events := e4 + StaleEvents();
    AppendsConcat(e4, StaleEvents());
    StaleEventsAppendNothing();
    assert a.id in t.chunks && a.id !in t.outbox && t.sidecar[a.id] != Doc(a.id, t.chunks[a.id]);
  }

  /** Two appends that give one id to two chunks can be interleaved so that the newer chunk loses its document. */
  lemma ConflictLosesDocument(codec: Codec, requests: seq<Request>, i: nat, j: nat) returns (events: seq<Event>)
    requires i < j < |requests| && Conflict(requests[i], requests[j])
    ensures AppendsOf(events) <= requests && !Covered(Exec(EMPTY, codec, events).tables, codec)
  {
    var t: Tables;
    events, t := TwoInFlight(codec, requests[..i], requests[i], requests[i + 1..j], requests[j]);
    assert requests[..i] + [requests[i]] + requests[i + 1..j] + [requests[j]] == requests[..j + 1];
  }

  lemma StaleEventsAppendNothing()
    ensures AppendsOf(StaleEvents()) == []
  {
    AppendsConcat([Upsert(1, true, true)] + [Record(1, true)], [Upsert(0, true, true)]);
    AppendsConcat([Upsert(1, true, true)], [Record(1, true)]);
    assert StaleEvents() == [Upsert(1, true, true)] + [Record(1, true)] + [Upsert(0, true, true)];
  }

  /** A list of appends is covered under every interleaving exactly when no two of them give one id to two different
      chunks. */
  lemma AlwaysCoversIff(codec: Codec, requests: seq<Request>)
    requires codec.Ok()
    ensures AlwaysCovers(codec, requests) <==> IdsIdentifyChunks(requests)
  {
    if IdsIdentifyChunks(requests) {
      forall events: seq<Event> | AppendsOf(events) <= requests
        ensures Covered(Exec(EMPTY, codec, events).tables, codec)
      {
        RequestsIdentify(events, requests);
        EveryChunkIsCovered(codec, events);
      }
    } else {
      var i, j :| 0 <= i < j < |requests| && Conflict(requests[i], requests[j]);
      var events := ConflictLosesDocument(codec, requests, i, j);
    }
  }

  // ---- A pass is a run ---------------------------------------------------------------------------

  lemma {:induction false} ExecConcat(w: World, codec: Codec, a: seq<Event>, b: seq<Event>)
    ensures Exec(w, codec, a + b) == Exec(Exec(w, codec, a), codec, b)
  {
    if b == [] {
      assert a + b == a;
    } else {
      assert (a + b)[..|a + b| - 1] == a + b[..|b| - 1];
      ExecConcat(w, codec, a, b[..|b| - 1]);
    }
  }

  function RowEvents(n: nat, o: Outcome): seq<Event> {
    [Decode(n), Upsert(n, o.upserted, o.tookEffect), Record(n, o.recorded)]
  }

  function PassEvents(n: nat, outcomes: seq<Outcome>): seq<Event> {
    if outcomes == [] then [] else PassEvents(n, outcomes[..|outcomes| - 1]) + RowEvents(n, outcomes[|outcomes| - 1])
  }

  lemma RowIsThreeSteps(w: World, codec: Codec, n: nat, o: Outcome)
    requires n in w.workers && w.workers[n].stage.Ready? && w.workers[n].queue != []
    ensures Exec(w, codec, RowEvents(n, o)) ==
            World(DeliverStep(w.tables, codec, w.workers[n].queue[0].id, w.workers[n].queue[0].docJson, o),
                  w.workers[n := Worker(Ready, w.workers[n].queue[1..])])
  {
    var w3 := ThreeSteps(w, codec, n, o);
    ExecSnoc(w, codec, [], Decode(n));
    ExecSnoc(w, codec, [] + [Decode(n)], Upsert(n, o.upserted, o.tookEffect));
    ExecSnoc(w, codec, [] + [Decode(n)] + [Upsert(n, o.upserted, o.tookEffect)], Record(n, o.recorded));
    assert [] + [Decode(n)] + [Upsert(n, o.upserted, o.tookEffect)] + [Record(n, o.recorded)] == RowEvents(n, o);
  }

  lemma ThreeSteps(w: World, codec: Codec, n: nat, o: Outcome) returns (w3: World)
    requires n in w.workers && w.workers[n].stage.Ready? && w.workers[n].queue != []
    ensures w3 == RecordEvent(UpsertEvent(DecodeEvent(w, codec, n), n, o.upserted, o.tookEffect), n, o.recorded)
    ensures w3.tables == DeliverStep(w.tables, codec, w.workers[n].queue[0].id, w.workers[n].queue[0].docJson, o)
    ensures w3.workers == w.workers[n := Worker(Ready, w.workers[n].queue[1..])]
  {
    var w1 := DecodeEvent(w, codec, n);
    var w2 := UpsertEvent(w1, n, o.upserted, o.tookEffect);
    w3 := RecordEvent(w2, n, o.recorded);
  }

  /** A reconcile pass that is left to itself, as the method runs it, is a run of these steps. */
  lemma {:induction false} PassIsARun(w: World, codec: Codec, n: nat, pending: seq<string>, outcomes: seq<Outcome>)
    requires |pending| == |outcomes| && n !in w.workers && forall k :: 0 <= k < |pending| ==> pending[k] in w.tables.outbox
    ensures Exec(StartPassEvent(w, n, pending), codec, PassEvents(n, outcomes)).tables
            == PassSpec(w.tables, codec, w.tables.outbox, pending, outcomes)
  {
    PassRuns(StartPassEvent(w, n, pending), w.tables.outbox, codec, n, pending, outcomes, |pending|);
    assert pending[..|pending|] == pending && outcomes[..|pending|] == outcomes;
  }

  lemma {:induction false} PassRuns(w: World, snapshot: map<string, OutboxRow>, codec: Codec, n: nat, pending: seq<string>, outcomes: seq<Outcome>, k: nat)
    requires |pending| == |outcomes| && k <= |pending| && forall j :: 0 <= j < |pending| ==> pending[j] in snapshot
    requires n in w.workers && w.workers[n].stage.Ready? && |w.workers[n].queue| == |pending|
    requires forall j :: 0 <= j < |pending| ==> w.workers[n].queue[j] == Pending(pending[j], snapshot[pending[j]].docJson)
    ensures var w' := Exec(w, codec, PassEvents(n, outcomes[..k]));
            && w'.tables == PassSpec(w.tables, codec, snapshot, pending[..k], outcomes[..k])
            && n in w'.workers && w'.workers[n] == Worker(Ready, w.workers[n].queue[k..])
  {
    if k > 0 {
      PassRuns(w, snapshot, codec, n, pending, outcomes, k - 1);
      assert outcomes[..k][..k - 1] == outcomes[..k - 1] && pending[..k][..k - 1] == pending[..k - 1];
      ExecConcat(w, codec, PassEvents(n, outcomes[..k - 1]), RowEvents(n, outcomes[k - 1]));
      var w1 := Exec(w, codec, PassEvents(n, outcomes[..k - 1]));
      assert w1.workers[n].queue[0] == w.workers[n].queue[k - 1];
      RowIsThreeSteps(w1, codec, n, outcomes[k - 1]);
      assert w1.workers[n].queue[1..] == w.workers[n].queue[k..];
      PassSpecPrefix(w.tables, codec, snapshot, pending[..k - 1], outcomes[..k], outcomes[..k - 1]);
    }
  }

  lemma {:induction false} PassSpecPrefix(t: Tables, codec: Codec, snapshot: map<string, OutboxRow>, pending: seq<string>, a: seq<Outcome>, b: seq<Outcome>)
    requires |pending| <= |a| && |pending| <= |b| && a[..|pending|] == b[..|pending|]
    requires forall n :: 0 <= n < |pending| ==> pending[n] in snapshot
    ensures PassSpec(t, codec, snapshot, pending, a) == PassSpec(t, codec, snapshot, pending, b)
  {
    if pending != [] {
      var n := |pending| - 1;
      assert a[n] == a[..|pending|][n] == b[n];
      assert a[..n] == a[..|pending|][..n] == b[..n];
      PassSpecPrefix(t, codec, snapshot, pending[..n], a, b);
    }
  }

  lemma {:induction false} PassEventsAppendNothing(n: nat, outcomes: seq<Outcome>)
    ensures forall i :: 0 <= i < |PassEvents(n, outcomes)| ==> !PassEvents(n, outcomes)[i].Append?
  {
    if outcomes != [] {
      PassEventsAppendNothing(n, outcomes[..|outcomes| - 1]);
    }
  }

  lemma EveryRowIsRemoved(t: Tables, codec: Codec, pending: seq<string>, outcomes: seq<Outcome>)
    requires codec.Ok() && TablesOk(t, codec) && |pending| == |outcomes|
    requires IsOldest(t.outbox, |t.outbox|, pending)
    requires forall k :: 0 <= k < |outcomes| ==> outcomes[k].upserted && outcomes[k].recorded
    ensures t.outbox.Keys - RemovedSpec(codec, t.outbox, pending, outcomes) == {}
  {
    ListsAll(t.outbox, pending);
    forall id | id in t.outbox
      ensures id in RemovedSpec(codec, t.outbox, pending, outcomes)
    {
      var k :| 0 <= k < |pending| && pending[k] == id;
      assert codec.decode(t.outbox[pending[k]].docJson) == Some(Doc(id, t.chunks[id]));
    }
  }

  lemma ListsAll(outbox: map<string, OutboxRow>, pending: seq<string>)
    requires IsOldest(outbox, |outbox|, pending)
    ensures forall id :: id in outbox ==> id in pending
  {
    var listed := set id | id in pending;
    DistinctSize(pending);
    assert |outbox| == |outbox.Keys| && listed <= outbox.Keys;
    SameSizeSubset(listed, outbox.Keys);
  }

  lemma SameSizeSubset<T>(a: set<T>, b: set<T>)
    requires a <= b && |a| == |b|
    ensures a == b
  {
    assert b == a + (b - a);
  }

  lemma PassKeepsIds(events: seq<Event>, n: nat, pending: seq<string>, outcomes: seq<Outcome>)
    requires IdsIdentify(events)
    ensures IdsIdentify(events + [StartPass(n, pending)] + PassEvents(n, outcomes))
  {
    var all := events + [StartPass(n, pending)] + PassEvents(n, outcomes);
    PassEventsAppendNothing(n, outcomes);
    forall i, j | 0 <= i < j < |all| && Stores(all[i]) && Stores(all[j]) && all[i].id == all[j].id
      ensures all[i].chunk == all[j].chunk
    {
      assert i < |events| && j < |events| && all[i] == events[i] && all[j] == events[j];
    }
  }

  lemma RunOfPass(codec: Codec, events: seq<Event>, n: nat, pending: seq<string>, outcomes: seq<Outcome>)
    requires |pending| == |outcomes| && n !in Exec(EMPTY, codec, events).workers
    requires forall k :: 0 <= k < |pending| ==> pending[k] in Exec(EMPTY, codec, events).tables.outbox
    ensures var t := Exec(EMPTY, codec, events).tables;
            Exec(EMPTY, codec, events + [StartPass(n, pending)] + PassEvents(n, outcomes)).tables == PassSpec(t, codec, t.outbox, pending, outcomes)
  {
    ExecSnoc(EMPTY, codec, events, StartPass(n, pending));
    ExecConcat(EMPTY, codec, events + [StartPass(n, pending)], PassEvents(n, outcomes));
    PassIsARun(Exec(EMPTY, codec, events), codec, n, pending, outcomes);
  }

  lemma NothingPending(t: Tables, codec: Codec)
    requires TablesOk(t, codec) && t.outbox.Keys == {}
    ensures t.outbox == map[] && t.sidecar.Keys == t.chunks.Keys && forall id :: id in t.chunks ==> t.sidecar[id] == Doc(id, t.chunks[id])
  {
  }

  /** After any history, a reconcile pass over the whole outbox whose upserts and deletions all succeed leaves nothing
      pending and every stored chunk in the sidecar with its own document. */
  lemma CleanPassDeliversEverything(codec: Codec, events: seq<Event>, n: nat, pending: seq<string>, outcomes: seq<Outcome>)
    requires codec.Ok() && IdsIdentify(events) && |pending| == |outcomes|
    requires n !in Exec(EMPTY, codec, events).workers
    requires var outbox := Exec(EMPTY, codec, events).tables.outbox; IsOldest(outbox, |outbox|, pending)
    requires forall k :: 0 <= k < |outcomes| ==> outcomes[k].upserted && outcomes[k].recorded
    ensures var t := Exec(EMPTY, codec, events).tables;
            var t' := Exec(EMPTY, codec, events + [StartPass(n, pending)] + PassEvents(n, outcomes)).tables;
            && t'.outbox == map[] && t'.chunks == t.chunks
            && t'.sidecar.Keys == t.chunks.Keys && forall id :: id in t.chunks ==> t'.sidecar[id] == Doc(id, t.chunks[id])
  {
    var t := Exec(EMPTY, codec, events).tables;
    var t' := Exec(EMPTY, codec, events + [StartPass(n, pending)] + PassEvents(n, outcomes)).tables;
    EveryChunkIsCovered(codec, events);
    assert t'.outbox.Keys == {} && t'.chunks == t.chunks by {
      RunOfPass(codec, events, n, pending, outcomes);
      PassKeys(t, codec, pending, outcomes);
      EveryRowIsRemoved(t, codec, pending, outcomes);
    }
    assert TablesOk(t', codec) by {
      PassKeepsIds(events, n, pending, outcomes);
      EveryChunkIsCovered(codec, events + [StartPass(n, pending)] + PassEvents(n, outcomes));
    }
    NothingPending(t', codec);
  }
}

/**
 The durable admission ledger of incoming updates (src/memory.rs:540-613, 686-711):
 bounded reclaim under a lease, absorbing outcomes, and a sweep of the lost ones.
 */
module Admissions {
  import opened Basics
  import opened Text

  const MAX_ATTEMPTS := 3
  const LOST := "lost mid-processing"

  datatype Status = Processing | Done | Failed

  datatype Admission = Admission(
    status: Status, kind: string, summary: string, detail: Option<string>, attempts: nat, leaseUntil: int)

  type Ledger = map<int, Admission>

  // ---- The statements --------------------------------------------------------------------------

  predicate IsReclaimable(row: Admission, now: int) {
    row.status == Processing && row.leaseUntil < now && row.attempts < MAX_ATTEMPTS
  }

  function AdmitStep(t: Ledger, now: int, id: int, kind: string, summary: string, leaseSecs: int): (Ledger, bool) {
    if id !in t then (t[id := Admission(Processing, kind, summary, None, 1, now + leaseSecs)], true)
    else if IsReclaimable(t[id], now) then
      (t[id := t[id].(status := Processing, leaseUntil := now + leaseSecs, attempts := t[id].attempts + 1, detail := None)], true)
    else (t, false)
  }

  function CloseStep(t: Ledger, id: int, status: Status, detail: string): Ledger {
    map k | k in t :: if k == id && t[k].status == Processing then t[k].(status := status, detail := Some(detail)) else t[k]
  }

  function Cut(error: string): string {
    if |error| <= 2000 then error else error[..2000]
  }

  function Stale(t: Ledger, staleBefore: int): set<int> {
    set id | id in t && t[id].status == Processing && t[id].leaseUntil < staleBefore
  }

  function SweepStep(t: Ledger, now: int, olderThan: int): (Ledger, set<int>) {
    var lost := Stale(t, now - olderThan);
    (map k | k in t :: if k in lost then t[k].(status := Failed, detail := Some(LOST)) else t[k], lost)
  }

  class AdmissionStore {
    var rows: Ledger

    constructor ()
      ensures rows == map[]
    {
      rows := map[];
    }

    method Admit(now: int, id: int, kind: string, summary: string, leaseSecs: int) returns (admitted: bool)
      modifies this
      ensures (rows, admitted) == AdmitStep(old(rows), now, id, kind, summary, leaseSecs)
      ensures id !in old(rows) ==> admitted && rows == old(rows)[id := Admission(Processing, kind, summary, None, 1, now + leaseSecs)]
      ensures id in old(rows) ==>
                (admitted <==> old(rows)[id].status == Processing && old(rows)[id].leaseUntil < now && old(rows)[id].attempts < 3)
      ensures id in old(rows) ==>
                rows == if !admitted then old(rows)
                        else old(rows)[id := old(rows)[id].(leaseUntil := now + leaseSecs, attempts := old(rows)[id].attempts + 1, detail := None)]
    {
      // INSERT OR IGNORE
      if id !in rows {
        rows := rows[id := Admission(Processing, kind, summary, None, 1, now + leaseSecs)];
        return true;
      }
      // UPDATE ... WHERE the row can be reclaimed
      var row := rows[id];
      if row.status == Processing && row.leaseUntil < now && row.attempts < MAX_ATTEMPTS {
        rows := rows[id := row.(leaseUntil := now + leaseSecs, attempts := row.attempts + 1, detail := None)];
        return true;
      }
      return false;
    }

    method Finish(id: int, detail: string)
      modifies this
      ensures rows.Keys == old(rows).Keys && forall k :: k in rows && k != id ==> rows[k] == old(rows)[k]
      ensures id in rows ==> rows[id] == if old(rows)[id].status == Processing
                                         then old(rows)[id].(status := Done, detail := Some(detail)) else old(rows)[id]
      ensures rows == CloseStep(old(rows), id, Done, detail)
    {
      if id in rows && rows[id].status == Processing {
        rows := rows[id := rows[id].(status := Done, detail := Some(detail))];
      }
    }

    method Fail(id: int, error: string)
      modifies this
      ensures rows.Keys == old(rows).Keys && forall k :: k in rows && k != id ==> rows[k] == old(rows)[k]
      ensures id in rows ==> rows[id] == if old(rows)[id].status == Processing
                                         then old(rows)[id].(status := Failed, detail := Some(Cut(error))) else old(rows)[id]
      ensures rows == CloseStep(old(rows), id, Failed, Cut(error))
    {
      if id in rows && rows[id].status == Processing {
        rows := rows[id := rows[id].(status := Failed, detail := Some(Cut(error)))];
      }
    }

    method SweepStale(now: int, olderThan: int) returns (lost: set<int>)
      modifies this
      ensures (rows, lost) == SweepStep(old(rows), now, olderThan)
      ensures forall id :: id in lost <==>
                id in old(rows) && old(rows)[id].status == Processing && old(rows)[id].leaseUntil < now - olderThan
      ensures rows.Keys == old(rows).Keys
      ensures forall id :: id in rows ==>
                rows[id] == if id in lost then old(rows)[id].(status := Failed, detail := Some("lost mid-processing")) else old(rows)[id]
    {
      lost := Stale(rows, now - olderThan);
      rows := map k | k in rows :: if k in lost then rows[k].(status := Failed, detail := Some(LOST)) else rows[k];
    }
  }

  // ---- The statements, column by column -----------------------------------------------------------

  /** A new update is admitted; a known one only while it is in flight past its lease, and fewer than three times. */
  lemma AdmitIs(t: Ledger, now: int, id: int, kind: string, summary: string, leaseSecs: int)
    ensures var (t', admitted) := AdmitStep(t, now, id, kind, summary, leaseSecs);
            && (id !in t ==> admitted && t' == t[id := Admission(Processing, kind, summary, None, 1, now + leaseSecs)])
            && (id in t ==> (admitted <==> t[id].status == Processing && t[id].leaseUntil < now && t[id].attempts < 3))
            && (id in t && admitted ==> t' == t[id := t[id].(leaseUntil := now + leaseSecs, attempts := t[id].attempts + 1, detail := None)])
            && (!admitted ==> t' == t)
  {
  }

  /** Closing changes the status and the detail of one update in flight. */
  lemma CloseIs(t: Ledger, id: int, status: Status, detail: string)
    ensures CloseStep(t, id, status, detail)
         == if id in t && t[id].status == Processing then t[id := t[id].(status := status, detail := Some(detail))] else t
  {
  }

  lemma CutIs(error: string)
    ensures Cut(error) <= error && |Cut(error)| == if |error| < 2000 then |error| else 2000
  {
  }

  // ---- Histories -------------------------------------------------------------------------------

  datatype Op =
    | Admit(now: int, id: int, kind: string, summary: string, leaseSecs: int)
    | Finish(id: int, detail: string)
    | Fail(id: int, error: string)
    | Sweep(now: int, olderThan: int)

  function Step(t: Ledger, op: Op): Ledger {
    match op
    case Admit(now, id, kind, summary, leaseSecs) => AdmitStep(t, now, id, kind, summary, leaseSecs).0
    case Finish(id, detail) => CloseStep(t, id, Done, detail)
    case Fail(id, error) => CloseStep(t, id, Failed, Cut(error))
    case Sweep(now, olderThan) => SweepStep(t, now, olderThan).0
  }

  function Exec(ops: seq<Op>): Ledger {
    if ops == [] then map[] else Step(Exec(Front(ops)), Last(ops))
  }

  /** Whether the last operation admits the update. */
  predicate Admits(ops: seq<Op>, id: int) {
    && ops != [] && Last(ops).Admit? && Last(ops).id == id
    && AdmitStep(Exec(Front(ops)), Last(ops).now, id, Last(ops).kind, Last(ops).summary, Last(ops).leaseSecs).1
  }

  /** Whether the last operation reports the update as lost. */
  predicate ReportsLost(ops: seq<Op>, id: int) {
    ops != [] && Last(ops).Sweep? && id in SweepStep(Exec(Front(ops)), Last(ops).now, Last(ops).olderThan).1
  }

  function TimesAdmitted(ops: seq<Op>, id: int): nat {
    if ops == [] then 0 else TimesAdmitted(Front(ops), id) + (if Admits(ops, id) then 1 else 0)
  }

  function TimesLost(ops: seq<Op>, id: int): nat {
    if ops == [] then 0 else TimesLost(Front(ops), id) + (if ReportsLost(ops, id) then 1 else 0)
  }

  /** The operation that admitted the update last. */
  function LastAdmission(ops: seq<Op>, id: int): Option<Op> {
    if ops == [] then None
    else if Admits(ops, id) then Some(Last(ops))
    else LastAdmission(Front(ops), id)
  }

  /** How the row of an update sums up its history. */
  ghost predicate RowOk(ops: seq<Op>, id: int) {
    var t := Exec(ops);
    if id !in t then TimesAdmitted(ops, id) == 0 && TimesLost(ops, id) == 0 && LastAdmission(ops, id) == None
    else
      && 1 <= t[id].attempts <= MAX_ATTEMPTS
      && TimesAdmitted(ops, id) == t[id].attempts
      && TimesLost(ops, id) <= (if t[id].status == Failed then 1 else 0)
      && LastAdmission(ops, id).Some? && LastAdmission(ops, id).value.Admit?
      && t[id].leaseUntil == LastAdmission(ops, id).value.now + LastAdmission(ops, id).value.leaseSecs
  }

  /** Over every history, an update is admitted exactly `attempts` times, at most three times; it is reported lost
      at most once, and then it is failed; and its lease is the one of its last admission. */
  lemma {:induction false} LedgerCountsAdmissions(ops: seq<Op>, id: int)
    ensures RowOk(ops, id)
  {
    if ops != [] {
      LedgerCountsAdmissions(Front(ops), id);
    }
  }

  lemma AtMostThreeAttempts(ops: seq<Op>, id: int)
    ensures TimesAdmitted(ops, id) <= 3 && TimesLost(ops, id) <= 1
  {
    LedgerCountsAdmissions(ops, id);
  }

  /** Whether the i-th operation admits the update. */
  predicate AdmitsAt(ops: seq<Op>, id: int, i: nat) {
    i < |ops| && Admits(ops[..i + 1], id)
  }

  lemma {:induction false} LastAdmissionIs(ops: seq<Op>, id: int, i: nat)
    requires AdmitsAt(ops, id, i)
    requires forall j :: i < j < |ops| ==> !AdmitsAt(ops, id, j)
    ensures LastAdmission(ops, id) == Some(ops[i])
  {
    if i < |ops| - 1 {
      assert !AdmitsAt(ops, id, |ops| - 1) && ops[..|ops| - 1 + 1] == ops;
      forall j | i < j < |ops| - 1
        ensures !AdmitsAt(Front(ops), id, j)
      {
        assert !AdmitsAt(ops, id, j) && Front(ops)[..j + 1] == ops[..j + 1];
      }
      assert Front(ops)[..i + 1] == ops[..i + 1];
      LastAdmissionIs(Front(ops), id, i);
    } else {
      assert ops[..i + 1] == ops;
    }
  }

  /** A later admission of the same update comes strictly after the lease of the previous one, whatever the clock
      did in between. */
  lemma AdmissionsAreLeasesApart(ops: seq<Op>, id: int, i: nat, j: nat)
    requires i < j && AdmitsAt(ops, id, i) && AdmitsAt(ops, id, j)
    requires forall k :: i < k < j ==> !AdmitsAt(ops, id, k)
    ensures ops[j].now > ops[i].now + ops[i].leaseSecs
  {
    var before := ops[..j];
    assert before[..i + 1] == ops[..i + 1];
    forall k | i < k < |before|
      ensures !AdmitsAt(before, id, k)
    {
      assert !AdmitsAt(ops, id, k) && before[..k + 1] == ops[..k + 1];
    }
    LastAdmissionIs(before, id, i);
    LedgerCountsAdmissions(before, id);
    assert Front(ops[..j + 1]) == before;
    assert Last(ops[..j + 1]) == ops[j];
  }

  /** A done or failed update stays exactly as it is: it is never admitted, changed or reported lost again. */
  lemma {:induction false} OutcomesAreFinal(ops: seq<Op>, more: seq<Op>, id: int)
    requires id in Exec(ops) && Exec(ops)[id].status != Processing
    ensures id in Exec(ops + more) && Exec(ops + more)[id] == Exec(ops)[id]
    ensures TimesAdmitted(ops + more, id) == TimesAdmitted(ops, id) && TimesLost(ops + more, id) == TimesLost(ops, id)
  {
    if more == [] {
      assert ops + more == ops;
    } else {
      assert Front(ops + more) == ops + Front(more);
      OutcomesAreFinal(ops, Front(more), id);
    }
  }

  /** After a sweep nothing is left in flight with a lease older than its limit, and what it reports is what it fails. */
  lemma SweepLeavesNothingStale(t: Ledger, now: int, olderThan: int)
    ensures var (t', lost) := SweepStep(t, now, olderThan);
            && t'.Keys == t.Keys && Stale(t', now - olderThan) == {}
            && (forall id :: id in t && id !in lost ==> t'[id] == t[id])
            && (forall id :: id in lost ==> t[id].status == Processing && t'[id].status == Failed && t'[id].detail == Some(LOST))
  {
  }

  /** No update vanishes: once admitted it is done, failed, or still in flight, and one that stays in flight past its
      lease is either admitted again (attempts left) or reported by a sweep that looks back no further than the lease. */
  lemma ExpiredIsRecoverable(ops: seq<Op>, id: int, now: int, kind: string, summary: string, leaseSecs: int, olderThan: int)
    requires TimesAdmitted(ops, id) > 0
    ensures id in Exec(ops)
    ensures Exec(ops)[id].status == Processing && Exec(ops)[id].leaseUntil < now ==>
              (AdmitStep(Exec(ops), now, id, kind, summary, leaseSecs).1 <==> TimesAdmitted(ops, id) < MAX_ATTEMPTS)
    ensures Exec(ops)[id].status == Processing ==>
              (id in SweepStep(Exec(ops), now, olderThan).1 <==> Exec(ops)[id].leaseUntil + olderThan < now)
  {
    LedgerCountsAdmissions(ops, id);
  }
}

/** The table of transfer statuses, with its retention sweep, against the log of what was recorded.
    Time is an integer number of milliseconds. */
module TransferStatus {

  datatype Status = Accepted | Routed | Responded | TimedOut | Failed

  const RETENTION := 1800000

  datatype Standing = Standing(status: Status, updatedAt: int)

  /** One record being made: under which id, by which call, and when. */
  datatype Note = Note(id: string, call: int, status: Status, at: int)

  /** The table together with the history that explains it: all records made, and when the sweeper ran. */
  datatype Table = Table(records: map<string, Standing>, log: seq<Note>, sweeps: seq<int>, now: int)

  function Kept(records: map<string, Standing>, at: int): map<string, Standing> {
    map id | id in records && at - records[id].updatedAt <= RETENTION :: records[id]
  }

  function Noted(t: Table, n: Note): Table {
    Table(t.records[n.id := Standing(n.status, n.at)], t.log + [n], t.sweeps, n.at)
  }

  function Swept(t: Table, at: int): Table { Table(Kept(t.records, at), t.log, t.sweeps + [at], at) }

  /** The position of the last record made under the id, or -1. */
  function LastUnder(log: seq<Note>, id: string): (i: int)
    ensures -1 <= i < |log|
    ensures i >= 0 ==> log[i].id == id
    ensures forall j :: i < j < |log| ==> log[j].id != id
  {
    if log == [] then -1
    else if log[|log|-1].id == id then |log| - 1
    else LastUnder(log[..|log|-1], id)
  }

  /** A sweep ran later than the time plus the retention. */
  ghost predicate SweptAfter(t: Table, at: int) { exists i :: 0 <= i < |t.sweeps| && t.sweeps[i] > at + 1800000 }

  /** The table holds the last record of every id, and lacks it only if a sweep ran after its retention. */
  ghost predicate AsRecorded(t: Table, id: string) {
    var i := LastUnder(t.log, id);
    if i < 0 || SweptAfter(t, t.log[i].at) then id !in t.records
    else id in t.records && t.records[id] == Standing(t.log[i].status, t.log[i].at)
  }

  ghost predicate TableAgrees(t: Table) {
    && (forall i :: 0 <= i < |t.sweeps| ==> t.sweeps[i] <= t.now)
    && (forall id :: AsRecorded(t, id))
  }

  lemma LastUnderSnoc(log: seq<Note>, n: Note, id: string)
    ensures LastUnder(log + [n], id) == if n.id == id then |log| else LastUnder(log, id)
  {
    assert (log + [n])[..|log|] == log;
  }

  lemma NotedAgrees(t: Table, n: Note)
    requires TableAgrees(t) && t.now <= n.at
    ensures TableAgrees(Noted(t, n))
  {
    var t' := Noted(t, n);
    forall id ensures AsRecorded(t', id) {
      LastUnderSnoc(t.log, n, id);
      assert AsRecorded(t, id);
      forall at ensures SweptAfter(t', at) <==> SweptAfter(t, at) {}
      assert !SweptAfter(t, n.at);
    }
  }

  lemma SweptSnoc(t: Table, at: int, u: int)
    ensures SweptAfter(Swept(t, at), u) <==> SweptAfter(t, u) || at > u + RETENTION
  {
    var t' := Swept(t, at);
    assert t'.sweeps[|t.sweeps|] == at;
    if SweptAfter(t, u) {
      var i :| 0 <= i < |t.sweeps| && t.sweeps[i] > u + RETENTION;
      assert t'.sweeps[i] == t.sweeps[i];
    }
  }

  lemma SweptAgrees(t: Table, at: int)
    requires TableAgrees(t) && t.now <= at
    ensures TableAgrees(Swept(t, at))
  {
    var t' := Swept(t, at);
    forall id ensures AsRecorded(t', id) {
      assert AsRecorded(t, id);
      var i := LastUnder(t.log, id);
      if i >= 0 { SweptSnoc(t, at, t.log[i].at); }
    }
  }
}

/**
 * The `repositories` table and the upsert writer `save_to_db`.
 *
 * The table is a map from `repo_id` (its primary key) to a row.  One call of
 * the writer is one transaction: for each edge of the page, in order, it
 * runs `INSERT ... ON CONFLICT (repo_id) DO UPDATE SET stars_count = ...,
 * last_updated = NOW()`.  A new id gets a fresh row; an existing id gets only
 * its star count and timestamp overwritten, its name and owner are kept.
 * NOW() is the start time of the transaction, so every row a call touches
 * gets the same timestamp.
 */
module Repositories {
  import opened Wrappers

  /** The GraphQL node id of a repository. */
  type RepoId = string

  /** One search edge: `node.id`, `node.name`, `node.owner.login`, `node.stargazerCount`. */
  datatype Edge = Edge(id: RepoId, name: string, owner: string, stars: int)

  /** One stored row; `lastUpdated` is a logical timestamp. */
  datatype Row = Row(name: string, owner: string, stars: int, lastUpdated: nat)

  type Table = map<RepoId, Row>

  /** The ids a batch mentions. */
  function Ids(batch: seq<Edge>): set<RepoId> {
    set e | e in batch :: e.id
  }

  /**
   * One `INSERT ... ON CONFLICT DO UPDATE` statement run at time `now`: the
   * edge's row gets its star count and the time; an existing row keeps its
   * name and owner, a new one takes the edge's; every other row is untouched.
   */
  function Upsert(t: Table, e: Edge, now: nat): Table {
    if e.id in t then t[e.id := t[e.id].(stars := e.stars, lastUpdated := now)]
    else t[e.id := Row(e.name, e.owner, e.stars, now)]
  }

  lemma IdsSnoc(batch: seq<Edge>)
    requires batch != []
    ensures Ids(batch) == Ids(batch[..|batch| - 1]) + {batch[|batch| - 1].id}
  {
    assert batch == batch[..|batch| - 1] + [batch[|batch| - 1]];
  }

  /** The statements of one transaction, applied to `t` in batch order. */
  function ApplyBatch(t: Table, batch: seq<Edge>, now: nat): Table {
    if batch == [] then t
    else Upsert(ApplyBatch(t, batch[..|batch| - 1], now), batch[|batch| - 1], now)
  }

  /** The position of the first edge of the batch that carries `id`. */
  function FirstIndex(batch: seq<Edge>, id: RepoId): (i: nat)
    requires id in Ids(batch)
    ensures i < |batch| && batch[i].id == id
    ensures forall j :: 0 <= j < i ==> batch[j].id != id
  {
    IdsSnoc(batch);
    var init := batch[..|batch| - 1];
    if id in Ids(init) then FirstIndex(init, id)
    else
      assert forall j :: 0 <= j < |init| ==> init[j] in init;
      |batch| - 1
  }

  /** The position of the last edge of the batch that carries `id`. */
  function LastIndex(batch: seq<Edge>, id: RepoId): (i: nat)
    requires id in Ids(batch)
    ensures i < |batch| && batch[i].id == id
    ensures forall j :: i < j < |batch| ==> batch[j].id != id
  {
    IdsSnoc(batch);
    if batch[|batch| - 1].id == id then |batch| - 1
    else LastIndex(batch[..|batch| - 1], id)
  }

  /** The first edge of the batch that carries `id`. */
  function FirstEdge(batch: seq<Edge>, id: RepoId): (e: Edge)
    requires id in Ids(batch)
    ensures exists i :: 0 <= i < |batch| && batch[i] == e && e.id == id &&
              forall j :: 0 <= j < i ==> batch[j].id != id
  {
    batch[FirstIndex(batch, id)]
  }

  /** The last edge of the batch that carries `id`. */
  function LastEdge(batch: seq<Edge>, id: RepoId): (e: Edge)
    requires id in Ids(batch)
    ensures exists i :: 0 <= i < |batch| && batch[i] == e && e.id == id &&
              forall j :: i < j < |batch| ==> batch[j].id != id
  {
    batch[LastIndex(batch, id)]
  }

  /**
   * The row a batch leaves for an id it mentions: name and owner stay those
   * of an existing row (or come from the first edge that inserted it), the
   * star count is the last edge's, and the timestamp is the transaction's.
   */
  lemma {:induction false} BatchRow(t: Table, batch: seq<Edge>, now: nat, id: RepoId)
    requires id in Ids(batch)
    ensures id in ApplyBatch(t, batch, now)
    ensures ApplyBatch(t, batch, now)[id] ==
      Row(if id in t then t[id].name else FirstEdge(batch, id).name,
          if id in t then t[id].owner else FirstEdge(batch, id).owner,
          LastEdge(batch, id).stars,
          now)
  {
    IdsSnoc(batch);
    var init := batch[..|batch| - 1];
    var last := batch[|batch| - 1];
    if id in Ids(init) {
      BatchRow(t, init, now, id);
    } else {
      BatchUntouched(t, init, now, id);
    }
  }

  /** A batch leaves every id it does not mention as it was, present or absent. */
  lemma {:induction false} BatchUntouched(t: Table, batch: seq<Edge>, now: nat, id: RepoId)
    requires id !in Ids(batch)
    ensures id in ApplyBatch(t, batch, now) <==> id in t
    ensures id in t ==> ApplyBatch(t, batch, now)[id] == t[id]
  {
    if batch != [] {
      IdsSnoc(batch);
      BatchUntouched(t, batch[..|batch| - 1], now, id);
    }
  }

  /** The ids after a batch are the ids before it plus those it mentions. */
  lemma BatchKeys(t: Table, batch: seq<Edge>, now: nat)
    ensures ApplyBatch(t, batch, now).Keys == t.Keys + Ids(batch)
  {
    var r := ApplyBatch(t, batch, now);
    forall id | id in Ids(batch) ensures id in r {
      BatchRow(t, batch, now, id);
    }
    forall id | id !in Ids(batch) ensures id in r <==> id in t {
      BatchUntouched(t, batch, now, id);
    }
  }

  /**
   * Re-applying a batch later gives exactly the table that one application
   * at the later time gives: the same ids, names, owners and star counts,
   * with only the timestamp moved on.
   */
  lemma BatchIdempotent(t: Table, batch: seq<Edge>, now1: nat, now2: nat)
    ensures ApplyBatch(ApplyBatch(t, batch, now1), batch, now2) == ApplyBatch(t, batch, now2)
  {
    var once := ApplyBatch(t, batch, now1);
    var twice := ApplyBatch(once, batch, now2);
    var later := ApplyBatch(t, batch, now2);
    BatchKeys(t, batch, now1);
    BatchKeys(once, batch, now2);
    BatchKeys(t, batch, now2);
    forall id | id in twice ensures twice[id] == later[id] {
      if id in Ids(batch) {
        BatchRow(t, batch, now1, id);
        BatchRow(once, batch, now2, id);
        BatchRow(t, batch, now2, id);
      } else {
        BatchUntouched(t, batch, now1, id);
        BatchUntouched(once, batch, now2, id);
        BatchUntouched(t, batch, now2, id);
      }
    }
  }

  /** Two batches applied in one go at one time are the first applied, then the second. */
  lemma {:induction false} BatchConcat(t: Table, a: seq<Edge>, b: seq<Edge>, now: nat)
    ensures ApplyBatch(t, a + b, now) == ApplyBatch(ApplyBatch(t, a, now), b, now)
  {
    if b == [] {
      assert a + b == a;
    } else {
      assert (a + b)[..|a + b| - 1] == a + b[..|b| - 1];
      BatchConcat(t, a, b[..|b| - 1], now);
    }
  }

  /** What a row records about its repository, leaving out the timestamp. */
  datatype Observation = Observation(name: string, owner: string, stars: int)

  function Content(t: Table): map<RepoId, Observation> {
    map id | id in t :: Observation(t[id].name, t[id].owner, t[id].stars)
  }

  /** What a batch leaves in the table, timestamps aside, does not depend on the timestamps. */
  lemma BatchContent(t1: Table, t2: Table, batch: seq<Edge>, now1: nat, now2: nat)
    requires Content(t1) == Content(t2)
    ensures Content(ApplyBatch(t1, batch, now1)) == Content(ApplyBatch(t2, batch, now2))
  {
    var r1, r2 := ApplyBatch(t1, batch, now1), ApplyBatch(t2, batch, now2);
    assert t1.Keys == Content(t1).Keys && t2.Keys == Content(t2).Keys;
    BatchKeys(t1, batch, now1);
    BatchKeys(t2, batch, now2);
    forall id | id in r1
      ensures r1[id].name == r2[id].name && r1[id].owner == r2[id].owner && r1[id].stars == r2[id].stars
    {
      if id in t1 {
        assert Content(t1)[id] == Content(t2)[id];
      }
      if id in Ids(batch) {
        BatchRow(t1, batch, now1, id);
        BatchRow(t2, batch, now2, id);
      } else {
        BatchUntouched(t1, batch, now1, id);
        BatchUntouched(t2, batch, now2, id);
      }
    }
  }

  /** The storage failure scripted for the transaction begun at logical time `now`, if any. */
  function FaultAt(faults: seq<Option<nat>>, now: nat): Option<nat> {
    if now < |faults| then faults[now] else None
  }

  /**
   * The database side of the crawler: the `repositories` table and the
   * logical clock behind NOW(), which counts the transactions begun.
   * `faults` scripts the storage errors: FaultAt(faults, t) == Some(i) makes
   * the i-th statement of the transaction begun at time t raise (or its
   * commit, when i is past the end of the batch).
   */
  class RepositoryTable {
    var rows: Table
    var clock: nat
    const faults: seq<Option<nat>>

    constructor (rows: Table, clock: nat, faults: seq<Option<nat>>)
      ensures this.rows == rows && this.clock == clock && this.faults == faults
    {
      this.rows := rows;
      this.clock := clock;
      this.faults := faults;
    }

    /**
     * `save_to_db`: one transaction over the batch, timestamped with the
     * clock.  When the scripted fault strikes, the transaction is rolled
     * back and the error reported, leaving the rows as they were.
     */
    method SaveToDb(batch: seq<Edge>) returns (ok: bool)
      modifies this
      ensures clock == old(clock) + 1
      ensures ok <==> FaultAt(faults, old(clock)).None?
      ensures rows == if ok then ApplyBatch(old(rows), batch, old(clock)) else old(rows)
    {
      var now := clock;
      var fault := FaultAt(faults, now);
      clock := clock + 1;
      var pending := rows;
      for i := 0 to |batch|
        invariant pending == ApplyBatch(rows, batch[..i], now)
      {
        if fault == Some(i) {
          return false;
        }
        assert batch[..i + 1][..i] == batch[..i];
        pending := Upsert(pending, batch[i], now);
      }
      if fault.Some? {
        return false;
      }
      assert batch[..|batch|] == batch;
      rows := pending;
      ok := true;
    }
  }
}

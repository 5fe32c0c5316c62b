/**
 * The backtest result store: a bounded in-memory dictionary in front of an optional persistent
 * table.  Proved against the map of the last saved, undeleted results.
 */
module ResultStore {
  import opened Prelude
  import opened Eviction

  datatype Store<+R> = Store(maxResults: nat, persistent: bool, records: seq<Entry<R>>, sql: map<string, R>)

  /** The last saved, undeleted results, with the time of the save. */
  datatype Saved<+R> = Saved(result: R, at: int)
  type History<R> = map<string, Saved<R>>

  function Fresh<R>(maxResults: int, persistent: bool): Store<R> {
    Store(MaxInt(1, maxResults), persistent, [], map[])
  }

  function Find<R>(records: seq<Entry<R>>, id: string): Option<R> {
    if records == [] then None
    else if records[0].id == id then Some(records[0].payload)
    else Find(records[1..], id)
  }

  /** Assignment to a key of an insertion-ordered dictionary. */
  function Put<R>(records: seq<Entry<R>>, x: Entry<R>): seq<Entry<R>> {
    if records == [] then [x]
    else if records[0].id == x.id then [x] + records[1..]
    else [records[0]] + Put(records[1..], x)
  }

  function SaveStep<R>(s: Store<R>, id: string, result: R, now: int): Store<R> {
    s.(records := Enforced(Put(s.records, Entry(id, now, true, result)), s.maxResults),
       sql := if s.persistent then s.sql[id := result] else s.sql)
  }

  function DeleteStep<R>(s: Store<R>, id: string): Store<R> {
    s.(records := Without(s.records, id), sql := if s.persistent then s.sql - {id} else s.sql)
  }

  function GetFrom<R>(s: Store<R>, id: string): Option<R> {
    var found := Find(s.records, id);
    if found.Some? then found
    else if s.persistent && id in s.sql then Some(s.sql[id])
    else None
  }

  ghost predicate HasId<R(!new)>(records: seq<Entry<R>>, id: string) {
    exists e :: e in records && e.id == id
  }

  /** Every record is the last saved result of its id. */
  ghost predicate Mirrors<R(!new)>(records: seq<Entry<R>>, h: History<R>) {
    forall e :: e in records ==> e.removable && e.id in h && h[e.id] == Saved(e.payload, e.createdAt)
  }

  /** What was saved but is not among the records was saved no later than any of them. */
  ghost predicate Newest<R(!new)>(records: seq<Entry<R>>, h: History<R>) {
    forall id, e :: id in h && !HasId(records, id) && e in records ==> h[id].at <= e.createdAt
  }

  /**
   * What every operation keeps.  Memory is bounded and holds only what was last saved; what is no
   * longer in memory was saved no later than anything that still is; the table is the history.
   */
  ghost predicate Refines<R(!new)>(s: Store<R>, h: History<R>) {
    && 1 <= s.maxResults && |s.records| <= s.maxResults && DistinctIds(s.records)
    && Mirrors(s.records, h) && Newest(s.records, h)
    && (s.persistent ==> s.sql.Keys == h.Keys && forall id :: id in h ==> s.sql[id] == h[id].result)
  }

  ghost predicate Before<R(!new)>(h: History<R>, now: int) {
    forall id :: id in h ==> h[id].at <= now
  }

  lemma {:induction false} FindIsExact<R(!new)>(records: seq<Entry<R>>, id: string)
    requires DistinctIds(records)
    ensures Find(records, id).Some? <==> exists e :: e in records && e.id == id
    ensures forall e :: e in records && e.id == id ==> Find(records, id) == Some(e.payload)
  {
    if records != [] {
      FirstIdIsUnique(records);
      FindIsExact(records[1..], id);
      assert records == [records[0]] + records[1..];
      if records[0].id == id {
        assert records[0] in records;
      }
    }
  }

  lemma {:induction false} PutIsExact<R(!new)>(records: seq<Entry<R>>, x: Entry<R>)
    requires DistinctIds(records)
    ensures DistinctIds(Put(records, x))
    ensures forall e :: e in Put(records, x) <==> e == x || (e in records && e.id != x.id)
    ensures |records| <= |Put(records, x)| <= |records| + 1
    ensures (forall e :: e in records ==> e.id != x.id) ==> Put(records, x) == records + [x]
  {
    if records != [] {
      FirstIdIsUnique(records);
      PutIsExact(records[1..], x);
      assert records == [records[0]] + records[1..];
      if records[0].id == x.id {
        DistinctIdsCons(x, records[1..]);
      } else {
        DistinctIdsCons(records[0], Put(records[1..], x));
      }
    }
  }

  /** A store that refines a history answers from it: always exactly with the table, never wrongly without. */
  lemma GetAnswersFromHistory<R(!new)>(s: Store<R>, h: History<R>, id: string)
    requires Refines(s, h)
    ensures s.persistent ==> GetFrom(s, id) == if id in h then Some(h[id].result) else None
    ensures !s.persistent ==>
      GetFrom(s, id) == if HasId(s.records, id) && id in h then Some(h[id].result) else None
  {
    FindIsExact(s.records, id);
    if HasId(s.records, id) {
      var e :| e in s.records && e.id == id;
    }
  }

  lemma PutKeepsMemory<R(!new)>(records: seq<Entry<R>>, h: History<R>, x: Entry<R>, put: seq<Entry<R>>)
    requires Mirrors(records, h) && Newest(records, h) && Before(h, x.createdAt) && x.removable
    requires forall e :: e in put <==> e == x || (e in records && e.id != x.id)
    ensures var h' := h[x.id := Saved(x.payload, x.createdAt)]; Mirrors(put, h') && Newest(put, h')
  {
    var h' := h[x.id := Saved(x.payload, x.createdAt)];
    assert x in put;
    forall id, e | id in h' && !HasId(put, id) && e in put
      ensures h'[id].at <= e.createdAt
    {
      assert id != x.id;
      forall o | o in records
        ensures o.id != id
      {
        assert o.id != x.id ==> o in put;
      }
      assert !HasId(records, id);
    }
  }

  lemma EvictionKeepsMemory<R(!new)>(put: seq<Entry<R>>, kept: seq<Entry<R>>, h: History<R>, max: nat)
    requires Mirrors(put, h) && Newest(put, h) && OldestEvicted(put, kept, max)
    ensures Mirrors(kept, h) && Newest(kept, h)
  {
    forall id, e | id in h && !HasId(kept, id) && e in kept
      ensures h[id].at <= e.createdAt
    {
      if HasId(put, id) {
        var o :| o in put && o.id == id;
        assert o !in kept;
      }
    }
  }

  lemma SaveRefines<R(!new)>(s: Store<R>, h: History<R>, id: string, result: R, now: int)
    requires Refines(s, h) && Before(h, now)
    ensures Refines(SaveStep(s, id, result, now), h[id := Saved(result, now)])
  {
    hide *;
    var x := Entry(id, now, true, result);
    var put := Put(s.records, x);
    var h' := h[id := Saved(result, now)];
    var kept := Enforced(put, s.maxResults);
    PartsOfRefines(s, h);
    PutIsExact(s.records, x);
    EvictionIsOldestFirst(put, s.maxResults);
    PutKeepsMemory(s.records, h, x, put);
    EvictionKeepsMemory(put, kept, h', s.maxResults);
    BoundedAfterEviction(put, kept, h', s.maxResults);
    SavedRefines(s, h, id, result, now, kept);
  }

  lemma PartsOfRefines<R(!new)>(s: Store<R>, h: History<R>)
    requires Refines(s, h)
    ensures DistinctIds(s.records) && Mirrors(s.records, h) && Newest(s.records, h)
  {
  }

  lemma SavedRefines<R(!new)>(s: Store<R>, h: History<R>, id: string, result: R, now: int, kept: seq<Entry<R>>)
    requires Refines(s, h) && kept == Enforced(Put(s.records, Entry(id, now, true, result)), s.maxResults)
    requires |kept| <= s.maxResults && DistinctIds(kept)
    requires Mirrors(kept, h[id := Saved(result, now)]) && Newest(kept, h[id := Saved(result, now)])
    ensures Refines(SaveStep(s, id, result, now), h[id := Saved(result, now)])
  {
    hide Put, Enforced, DistinctIds, Mirrors, Newest;
  }

  /** Results are all removable, so eviction always gets down to the limit. */
  lemma BoundedAfterEviction<R(!new)>(put: seq<Entry<R>>, kept: seq<Entry<R>>, h: History<R>, max: nat)
    requires Mirrors(put, h) && OldestEvicted(put, kept, max)
    ensures |kept| <= max && DistinctIds(kept)
  {
    if kept != [] {
      assert kept[0] in kept;
    }
  }

  lemma DeleteRefines<R(!new)>(s: Store<R>, h: History<R>, id: string)
    requires Refines(s, h)
    ensures Refines(DeleteStep(s, id), h - {id})
  {
    var fewer, h' := Without(s.records, id), h - {id};
    WithoutIsExact(s.records, id);
    hide Without, DistinctIds;
    forall k | k != id && HasId(s.records, k)
      ensures HasId(fewer, k)
    {
      var o :| o in s.records && o.id == k;
      assert o in fewer;
    }
    assert Newest(fewer, h') && Mirrors(fewer, h');
    hide Newest, Mirrors, HasId;
  }

  /** A result saved under a new id is in memory right after the save, table or not. */
  lemma SavedIsInMemory<R(!new)>(s: Store<R>, h: History<R>, id: string, result: R, now: int)
    requires Refines(s, h) && Before(h, now) && !HasId(s.records, id)
    ensures GetFrom(SaveStep(s, id, result, now), id) == Some(result)
  {
    var x := Entry(id, now, true, result);
    PutIsExact(s.records, x);
    assert Put(s.records, x) == s.records + [x];
    NewestSurvives(s.records, x, s.maxResults);
    EvictionIsOldestFirst(s.records + [x], s.maxResults);
    FindIsExact(SaveStep(s, id, result, now).records, id);
  }

  // ---------------------------------------------------------------------------------------
  // Whole runs
  // ---------------------------------------------------------------------------------------

  datatype Operation<+R> = Save(id: string, result: R, now: int) | Get(id: string) | Delete(id: string)

  function Run<R>(s: Store<R>, ops: seq<Operation<R>>): Store<R> {
    if ops == [] then s
    else
      var n := |ops| - 1;
      var before := Run(s, ops[..n]);
      match ops[n]
      case Save(id, result, now) => SaveStep(before, id, result, now)
      case Get(_) => before
      case Delete(id) => DeleteStep(before, id)
  }

  function HistoryOf<R>(ops: seq<Operation<R>>): History<R> {
    if ops == [] then map[]
    else
      var n := |ops| - 1;
      var before := HistoryOf(ops[..n]);
      match ops[n]
      case Save(id, result, now) => before[id := Saved(result, now)]
      case Get(_) => before
      case Delete(id) => before - {id}
  }

  ghost predicate Timed<R(!new)>(ops: seq<Operation<R>>) {
    forall i, j :: 0 <= i < j < |ops| && ops[i].Save? && ops[j].Save? ==> ops[i].now <= ops[j].now
  }

  lemma {:induction false} HistoryIsPast<R(!new)>(ops: seq<Operation<R>>, now: int)
    requires forall i :: 0 <= i < |ops| && ops[i].Save? ==> ops[i].now <= now
    ensures Before(HistoryOf(ops), now)
  {
    if ops != [] {
      HistoryIsPast(ops[..|ops| - 1], now);
    }
  }

  /** Main theorem: after any sequence of operations the store refines the map of what was saved. */
  lemma {:induction false} StoreRefinesMap<R(!new)>(maxResults: int, persistent: bool, ops: seq<Operation<R>>)
    requires Timed(ops)
    ensures Refines(Run(Fresh(maxResults, persistent), ops), HistoryOf(ops))
    ensures Run(Fresh(maxResults, persistent), ops).persistent == persistent
  {
    if ops != [] {
      var n := |ops| - 1;
      StoreRefinesMap(maxResults, persistent, ops[..n]);
      var before, h := Run(Fresh(maxResults, persistent), ops[..n]), HistoryOf(ops[..n]);
      match ops[n]
      case Save(id, result, now) =>
        HistoryIsPast(ops[..n], now);
        SaveRefines(before, h, id, result, now);
      case Get(_) =>
      case Delete(id) =>
        DeleteRefines(before, h, id);
    }
  }

  /** With the table, a get after any run returns the last saved, undeleted result, evicted or not. */
  lemma {:induction false} PersistentGetIsExact<R(!new)>(maxResults: int, ops: seq<Operation<R>>, id: string)
    requires Timed(ops)
    ensures GetFrom(Run(Fresh(maxResults, true), ops), id)
         == if id in HistoryOf(ops) then Some(HistoryOf(ops)[id].result) else None
  {
    StoreRefinesMap(maxResults, true, ops);
    GetAnswersFromHistory(Run(Fresh(maxResults, true), ops), HistoryOf(ops), id);
  }

  // ---------------------------------------------------------------------------------------
  // The object
  // ---------------------------------------------------------------------------------------

  class InMemoryBacktestResultStore<R(!new)> {
    const maxResults: nat
    const persistent: bool
    var records: seq<Entry<R>>
    var sql: map<string, R>
    ghost var history: History<R>

    ghost function View(): Store<R>
      reads this
    {
      Store(maxResults, persistent, records, sql)
    }

    ghost predicate Valid()
      reads this
    {
      Refines(View(), history)
    }

    constructor (maxResults: int, persistent: bool)
      ensures Valid() && history == map[] && View() == Fresh(maxResults, persistent)
    {
      this.maxResults := MaxInt(1, maxResults);
      this.persistent := persistent;
      records, sql, history := [], map[], map[];
    }

    /** Saves under the given id: memory first, evicting what is too much, then the table. */
    method Save(id: string, result: R, now: int)
      requires Valid() && Before(history, now)
      modifies this
      ensures Valid() && history == old(history)[id := Saved(result, now)]
      ensures View() == SaveStep(old(View()), id, result, now)
    {
      SaveRefines(View(), history, id, result, now);
      var put := Put(records, Entry(id, now, true, result));
      records := EnforceMax(put, maxResults);
      if persistent {
        sql := sql[id := result];
      }
      history := history[id := Saved(result, now)];
    }

    method Get(id: string) returns (result: Option<R>)
      requires Valid()
      ensures result == GetFrom(View(), id)
      ensures result.Some? ==> id in history && result.value == history[id].result
      ensures persistent && id in history ==> result.Some?
    {
      GetAnswersFromHistory(View(), history, id);
      result := Find(records, id);
      if result.None? && persistent && id in sql {
        result := Some(sql[id]);
      }
    }

    /** Deletes everywhere; the answer says whether it was anywhere. */
    method Delete(id: string) returns (existed: bool)
      requires Valid()
      modifies this
      ensures Valid() && history == old(history) - {id}
      ensures View() == DeleteStep(old(View()), id)
      ensures persistent ==> (existed <==> id in old(history))
      ensures !persistent ==> (existed <==> old(HasId(records, id)))
    {
      DeleteRefines(View(), history, id);
      FindIsExact(records, id);
      existed := Find(records, id).Some?;
      records := Without(records, id);
      if persistent {
        existed := id in sql || existed;
        sql := sql - {id};
      }
      history := history - {id};
    }
  }
}

/**
 * The result store when calls overlap.  The program writes memory under its lock and the table
 * after releasing it, so a save and a delete are two events each, and the events of concurrent
 * calls interleave.
 */
module StoreInterleavings {
  import opened Prelude
  import opened Eviction
  import ResultStore

  datatype Event<+R> =
    | Insert(id: string, result: R, now: int)
    | Persist(id: string, result: R)
    | Forget(id: string)
    | Drop(id: string)

  function Apply<R>(s: ResultStore.Store<R>, e: Event<R>): ResultStore.Store<R> {
    match e
    case Insert(id, result, now) =>
      s.(records := Enforced(ResultStore.Put(s.records, Entry(id, now, true, result)), s.maxResults))
    case Persist(id, result) => s.(sql := s.sql[id := result])
    case Forget(id) => s.(records := Without(s.records, id))
    case Drop(id) => s.(sql := s.sql - {id})
  }

  function Run<R>(maxResults: int, events: seq<Event<R>>): (s: ResultStore.Store<R>)
    ensures s.persistent
  {
    if events == [] then ResultStore.Fresh(maxResults, true)
    else Apply(Run(maxResults, events[..|events| - 1]), events[|events| - 1])
  }

  /** A save followed by its own delete is what the atomic steps do. */
  lemma EventsMakeSteps<R>(s: ResultStore.Store<R>, id: string, result: R, now: int)
    requires s.persistent
    ensures Apply(Apply(s, Insert(id, result, now)), Persist(id, result)) == ResultStore.SaveStep(s, id, result, now)
    ensures Apply(Apply(s, Forget(id)), Drop(id)) == ResultStore.DeleteStep(s, id)
  {
  }

  // ---------------------------------------------------------------------------------------
  // What memory and table can hold
  // ---------------------------------------------------------------------------------------

  /** Every record of the given id carries the given result. */
  ghost predicate Holds<R(!new)>(records: seq<Entry<R>>, id: string, result: R) {
    forall e :: e in records && e.id == id ==> e.payload == result
  }

  ghost predicate Lacks<R(!new)>(records: seq<Entry<R>>, id: string) {
    forall e :: e in records ==> e.id != id
  }

  lemma {:induction false} WithoutShrinks<R(!new)>(s: seq<Entry<R>>, id: string)
    ensures forall e :: e in Without(s, id) <==> e in s && e.id != id
  {
    if s != [] {
      WithoutShrinks(s[1..], id);
      assert s == [s[0]] + s[1..];
    }
  }

  lemma {:induction false} EvictionShrinks<R(!new)>(candidates: seq<Entry<R>>, entries: seq<Entry<R>>, max: nat)
    ensures forall e :: e in Evicted(candidates, entries, max) ==> e in entries
    decreases |candidates|
  {
    if candidates != [] && |entries| > max {
      WithoutShrinks(entries, candidates[0].id);
      EvictionShrinks(candidates[1..], if candidates[0].removable then Without(entries, candidates[0].id) else entries, max);
    }
  }

  lemma {:induction false} PutAdds<R(!new)>(records: seq<Entry<R>>, x: Entry<R>)
    ensures forall e :: e in ResultStore.Put(records, x) ==> e == x || e in records
  {
    if records != [] {
      PutAdds(records[1..], x);
      assert records == [records[0]] + records[1..];
    }
  }

  lemma {:induction false} FindOnly<R(!new)>(records: seq<Entry<R>>, id: string)
    ensures ResultStore.Find(records, id).Some? ==>
      exists e :: e in records && e.id == id && Some(e.payload) == ResultStore.Find(records, id)
  {
    if records != [] && records[0].id != id {
      FindOnly(records[1..], id);
    }
  }

  /** What one event can bring into memory. */
  lemma ApplyAdds<R(!new)>(s: ResultStore.Store<R>, e: Event<R>)
    ensures forall x :: x in Apply(s, e).records ==>
              x in s.records || (e.Insert? && x == Entry(e.id, e.now, true, e.result))
    ensures e.Forget? ==> forall x :: x in Apply(s, e).records ==> x.id != e.id
  {
    match e
    case Insert(id, result, now) =>
      var put := ResultStore.Put(s.records, Entry(id, now, true, result));
      PutAdds(s.records, Entry(id, now, true, result));
      EvictionShrinks(ByAge(put), put, s.maxResults);
    case Forget(id) => WithoutShrinks(s.records, id);
    case _ =>
  }

  /** Memory holds nothing under an id that was forgotten and not inserted since. */
  lemma {:induction false} ForgottenStaysAway<R(!new)>(maxResults: int, events: seq<Event<R>>, id: string, f: nat)
    requires f < |events| && events[f] == Forget(id)
    requires forall i :: f < i < |events| ==> !(events[i].Insert? && events[i].id == id)
    ensures Lacks(Run(maxResults, events).records, id)
  {
    hide Apply;
    var n := |events| - 1;
    ApplyAdds(Run(maxResults, events[..n]), events[n]);
    if f < n {
      ForgottenStaysAway(maxResults, events[..n], id, f);
    }
  }

  lemma {:induction false} MemoryHolds<R(!new)>(maxResults: int, events: seq<Event<R>>, id: string, result: R)
    requires forall i :: 0 <= i < |events| && events[i].Insert? && events[i].id == id ==> events[i].result == result
    ensures Holds(Run(maxResults, events).records, id, result)
  {
    hide Apply;
    if events != [] {
      var n := |events| - 1;
      ApplyAdds(Run(maxResults, events[..n]), events[n]);
      MemoryHolds(maxResults, events[..n], id, result);
    }
  }

  /** Position b writes the id to the table, and nothing writes it again. */
  ghost predicate WrittenOnce<R(!new)>(events: seq<Event<R>>, id: string, result: R, b: nat) {
    && b < |events| && events[b] == Persist(id, result)
    && forall i :: 0 <= i < |events| && i != b ==> !(events[i].Persist? && events[i].id == id)
  }

  /** The table holds the result exactly when nothing dropped it after it was written. */
  lemma {:induction false} TableHolds<R(!new)>(maxResults: int, events: seq<Event<R>>, id: string, result: R, b: nat)
    requires WrittenOnce(events, id, result, b)
    ensures id in Run(maxResults, events).sql <==> forall d :: b < d < |events| ==> events[d] != Drop(id)
    ensures id in Run(maxResults, events).sql ==> Run(maxResults, events).sql[id] == result
  {
    var n := |events| - 1;
    if b < n {
      TableHolds(maxResults, events[..n], id, result, b);
      assert forall d :: b < d < n ==> events[..n][d] == events[d];
    }
  }

  // ---------------------------------------------------------------------------------------
  // What get answers
  // ---------------------------------------------------------------------------------------

  /**
   * Main theorem: a delete that starts once the result is in memory is final exactly when some
   * delete reaches the table after the save has; otherwise the deleted result comes back.
   */
  lemma {:induction false} DeleteIsFinalExactly<R(!new)>(
      maxResults: int, events: seq<Event<R>>, id: string, result: R, a: nat, b: nat, f: nat)
    requires WrittenOnce(events, id, result, b) && a < f < |events| && events[f] == Forget(id)
    requires forall i :: 0 <= i < |events| && events[i].Insert? && events[i].id == id ==> i == a
    ensures var got := ResultStore.GetFrom(Run(maxResults, events), id);
      && (got == None <==> exists d :: b < d < |events| && events[d] == Drop(id))
      && (got == None || got == Some(result))
  {
    hide Run;
    ForgottenStaysAway(maxResults, events, id, f);
    TableHolds(maxResults, events, id, result, b);
    FindOnly(Run(maxResults, events).records, id);
  }

  /** A completed save that no delete touches is answered, whatever else happens and is evicted. */
  lemma {:induction false} UndeletedIsAnswered<R(!new)>(maxResults: int, events: seq<Event<R>>, id: string, result: R, b: nat)
    requires WrittenOnce(events, id, result, b)
    requires forall i :: 0 <= i < |events| && events[i].Insert? && events[i].id == id ==> events[i].result == result
    requires forall i :: 0 <= i < |events| ==> events[i] != Drop(id)
    ensures ResultStore.GetFrom(Run(maxResults, events), id) == Some(result)
  {
    hide Run;
    MemoryHolds(maxResults, events, id, result);
    TableHolds(maxResults, events, id, result, b);
    FindOnly(Run(maxResults, events).records, id);
  }

  /** A whole delete between the two halves of a save: the result is back as soon as the save ends. */
  lemma DeletedResultReturns()
    ensures var events := [Insert("bt_1", 7, 0), Forget("bt_1"), Drop("bt_1"), Persist("bt_1", 7)];
      && ResultStore.GetFrom(Run(10, events[..3]), "bt_1") == None
      && ResultStore.GetFrom(Run(10, events), "bt_1") == Some(7)
  {
    var events := [Insert("bt_1", 7, 0), Forget("bt_1"), Drop("bt_1"), Persist("bt_1", 7)];
    DeleteIsFinalExactly(10, events, "bt_1", 7, 0, 3, 1);
    var early := events[..3];
    ForgottenStaysAway(10, early, "bt_1", 1);
    FindOnly(Run(10, early).records, "bt_1");
    assert early[2] == Drop("bt_1") && early == early[..2] + [Drop("bt_1")];
    assert Run(10, early) == Apply(Run(10, early[..2]), Drop("bt_1"));
  }
}

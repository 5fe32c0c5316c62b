/**
 * Bounded in-memory dictionaries that evict their oldest entries.  A dictionary is the list of its
 * entries in insertion order; entries that are not removable (jobs still running) are passed over.
 */
module Eviction {
  import opened Prelude

  datatype Entry<+T> = Entry(id: string, createdAt: int, removable: bool, payload: T)

  /** Stable insertion: in front of the first entry that is not older. */
  function InsertByAge<T>(x: Entry<T>, s: seq<Entry<T>>): seq<Entry<T>> {
    if s == [] || x.createdAt <= s[0].createdAt then [x] + s else [s[0]] + InsertByAge(x, s[1..])
  }

  /** The entries from oldest to newest, those of the same age in insertion order. */
  function ByAge<T>(s: seq<Entry<T>>): seq<Entry<T>> {
    if s == [] then [] else InsertByAge(s[0], ByAge(s[1..]))
  }

  function Without<T>(s: seq<Entry<T>>, id: string): seq<Entry<T>> {
    if s == [] then []
    else if s[0].id == id then Without(s[1..], id)
    else [s[0]] + Without(s[1..], id)
  }

  /** Walks the candidates until few enough entries are left, dropping the removable ones. */
  function Evicted<T>(candidates: seq<Entry<T>>, entries: seq<Entry<T>>, max: nat): seq<Entry<T>> {
    if candidates == [] || |entries| <= max then entries
    else if candidates[0].removable then Evicted(candidates[1..], Without(entries, candidates[0].id), max)
    else Evicted(candidates[1..], entries, max)
  }

  function Enforced<T>(entries: seq<Entry<T>>, max: nat): seq<Entry<T>> {
    Evicted(ByAge(entries), entries, max)
  }

  method EnforceMax<T>(entries: seq<Entry<T>>, max: nat) returns (kept: seq<Entry<T>>)
    ensures kept == Enforced(entries, max)
  {
    kept := entries;
    if |entries| <= max {
      return;
    }
    var candidates := ByAge(entries);
    for i := 0 to |candidates|
      invariant Evicted(candidates[i..], kept, max) == Enforced(entries, max)
    {
      assert candidates[i..][1..] == candidates[i + 1..];
      if |kept| <= max {
        return;
      }
      if candidates[i].removable {
        kept := Without(kept, candidates[i].id);
      }
    }
  }

  ghost predicate DistinctIds<T(!new)>(s: seq<Entry<T>>) {
    forall i, j :: 0 <= i < j < |s| ==> s[i].id != s[j].id
  }

  ghost predicate Aged<T(!new)>(s: seq<Entry<T>>) {
    forall i, j :: 0 <= i < j < |s| ==> s[i].createdAt <= s[j].createdAt
  }

  lemma {:induction false} InsertIsAged<T(!new)>(x: Entry<T>, s: seq<Entry<T>>)
    requires Aged(s)
    ensures Aged(InsertByAge(x, s)) && forall e :: e in InsertByAge(x, s) <==> e == x || e in s
  {
    if s != [] && x.createdAt > s[0].createdAt {
      var r := InsertByAge(x, s[1..]);
      InsertIsAged(x, s[1..]);
      assert s == [s[0]] + s[1..];
      hide InsertByAge;
      forall k | 0 <= k < |r|
        ensures s[0].createdAt <= r[k].createdAt
      {
        assert r[k] in r;
        if r[k] != x {
          var j :| 0 <= j < |s[1..]| && s[1..][j] == r[k];
          assert s[j + 1] == r[k];
        }
      }
    }
  }

  lemma {:induction false} ByAgeIsAged<T(!new)>(s: seq<Entry<T>>)
    ensures Aged(ByAge(s)) && forall e :: e in ByAge(s) <==> e in s
  {
    if s != [] {
      ByAgeIsAged(s[1..]);
      InsertIsAged(s[0], ByAge(s[1..]));
      assert s == [s[0]] + s[1..];
    }
  }

  lemma FirstIdIsUnique<T(!new)>(s: seq<Entry<T>>)
    requires DistinctIds(s) && s != []
    ensures DistinctIds(s[1..]) && forall e :: e in s[1..] ==> e.id != s[0].id
  {
    forall e | e in s[1..]
      ensures e.id != s[0].id
    {
      var j :| 0 <= j < |s[1..]| && s[1..][j] == e;
      assert s[j + 1] == e;
    }
  }

  lemma DistinctIdsCons<T(!new)>(x: Entry<T>, s: seq<Entry<T>>)
    requires DistinctIds(s) && forall e :: e in s ==> e.id != x.id
    ensures DistinctIds([x] + s)
  {
    assert forall k :: 0 <= k < |s| ==> s[k] in s;
  }

  lemma {:induction false} WithoutIsExact<T(!new)>(s: seq<Entry<T>>, id: string)
    requires DistinctIds(s)
    ensures var r := Without(s, id);
      && DistinctIds(r)
      && (forall e :: e in r <==> e in s && e.id != id)
      && |s| - 1 <= |r| <= |s|
      && ((exists e :: e in s && e.id == id) <==> |r| == |s| - 1)
  {
    if s != [] {
      var r := Without(s[1..], id);
      assert Without(s, id) == if s[0].id == id then r else [s[0]] + r;
      hide Without;
      FirstIdIsUnique(s);
      WithoutIsExact(s[1..], id);
      assert s == [s[0]] + s[1..];
      if s[0].id != id {
        DistinctIdsCons(s[0], r);
      }
      hide DistinctIds;
    }
  }

  /** Everything that eviction promises, of the entries it starts from and those it keeps. */
  ghost predicate OldestEvicted<T(!new)>(entries: seq<Entry<T>>, kept: seq<Entry<T>>, max: nat) {
    && DistinctIds(kept)
    && (forall e :: e in kept ==> e in entries)
    && (forall e :: e in entries && e !in kept ==> e.removable)
    && (forall e, r :: e in entries && e !in kept && r in kept && r.removable ==> e.createdAt <= r.createdAt)
    && (|kept| <= max || forall e :: e in kept ==> !e.removable)
    && MinInt(|entries|, max) <= |kept| <= |entries|
    && (|entries| <= max ==> kept == entries)
  }

  ghost predicate Candidates<T(!new)>(candidates: seq<Entry<T>>, entries: seq<Entry<T>>) {
    && Aged(candidates)
    && (forall e :: e in entries && e.removable ==> e in candidates)
    && (forall c, e :: c in candidates && e in entries && c.id == e.id ==> c == e)
  }

  lemma SameIdSameEntry<T(!new)>(entries: seq<Entry<T>>)
    requires DistinctIds(entries)
    ensures forall c, e :: c in entries && e in entries && c.id == e.id ==> c == e
  {
  }

  lemma NextCandidates<T(!new)>(candidates: seq<Entry<T>>, entries: seq<Entry<T>>, fewer: seq<Entry<T>>)
    requires Candidates(candidates, entries) && candidates != []
    requires forall e :: e in fewer ==> e in entries && (e.removable ==> e != candidates[0])
    ensures Candidates(candidates[1..], fewer)
    ensures forall r :: r in fewer && r.removable ==> candidates[0].createdAt <= r.createdAt
  {
    var first, rest := candidates[0], candidates[1..];
    assert candidates == [first] + rest;
    forall e | e in fewer && e.removable
      ensures e in rest && first.createdAt <= e.createdAt
    {
      assert e in candidates;
      var j :| 0 <= j < |candidates| && candidates[j] == e;
    }
  }

  lemma {:induction false} EvictionStep<T(!new)>(candidates: seq<Entry<T>>, entries: seq<Entry<T>>, max: nat)
    requires DistinctIds(entries) && Candidates(candidates, entries)
    ensures OldestEvicted(entries, Evicted(candidates, entries, max), max)
    decreases |candidates|
  {
    hide *;
    if candidates == [] || |entries| <= max {
      NothingEvicted(candidates, entries, max);
    } else {
      NextEvicted(candidates, entries, max);
      var first, rest := candidates[0], candidates[1..];
      if first.removable {
        var fewer := Without(entries, first.id);
        WithoutIsExact(entries, first.id);
        NextCandidates(candidates, entries, fewer);
        EvictionStep(rest, fewer, max);
        SameAsFirst(candidates, entries);
        EvictedOne(entries, first, fewer, Evicted(rest, fewer, max), max);
      } else {
        NextCandidates(candidates, entries, entries);
        EvictionStep(rest, entries, max);
      }
    }
  }

  lemma {:induction false} NextEvicted<T(!new)>(candidates: seq<Entry<T>>, entries: seq<Entry<T>>, max: nat)
    requires candidates != [] && |entries| > max
    ensures Evicted(candidates, entries, max) ==
      if candidates[0].removable then Evicted(candidates[1..], Without(entries, candidates[0].id), max)
      else Evicted(candidates[1..], entries, max)
  {
  }

  lemma {:induction false} NothingEvicted<T(!new)>(candidates: seq<Entry<T>>, entries: seq<Entry<T>>, max: nat)
    requires DistinctIds(entries) && Candidates(candidates, entries)
    requires candidates == [] || |entries| <= max
    ensures OldestEvicted(entries, Evicted(candidates, entries, max), max)
  {
  }

  lemma SameAsFirst<T(!new)>(candidates: seq<Entry<T>>, entries: seq<Entry<T>>)
    requires Candidates(candidates, entries) && candidates != []
    ensures forall e :: e in entries && e.id == candidates[0].id ==> e == candidates[0]
  {
    assert candidates[0] in candidates;
  }

  lemma EvictedOne<T(!new)>(entries: seq<Entry<T>>, first: Entry<T>, fewer: seq<Entry<T>>, kept: seq<Entry<T>>, max: nat)
    requires max < |entries| && |entries| - 1 <= |fewer| <= |entries|
    requires forall e :: e in fewer <==> e in entries && e.id != first.id
    requires OldestEvicted(fewer, kept, max)
    requires forall e :: e in entries && e.id == first.id ==> e == first
    requires first.removable && forall r :: r in fewer && r.removable ==> first.createdAt <= r.createdAt
    ensures OldestEvicted(entries, kept, max)
  {
  }

  /**
   * Main theorem: eviction keeps every entry that must stay, drops the oldest of the others first,
   * stops as soon as few enough are left, and goes on until then or until nothing may be dropped.
   */
  lemma EvictionIsOldestFirst<T(!new)>(entries: seq<Entry<T>>, max: nat)
    requires DistinctIds(entries)
    ensures OldestEvicted(entries, Enforced(entries, max), max)
  {
    ByAgeIsAged(entries);
    SameIdSameEntry(entries);
    EvictionStep(ByAge(entries), entries, max);
  }

  lemma {:induction false} NewestIsLast<T(!new)>(s: seq<Entry<T>>, x: Entry<T>)
    requires forall e :: e in s ==> e.createdAt <= x.createdAt
    ensures ByAge(s + [x]) == ByAge(s) + [x]
  {
    if s == [] {
      assert [] + [x] == [x] && [x][1..] == [];
    } else {
      assert (s + [x])[1..] == s[1..] + [x];
      NewestIsLast(s[1..], x);
      ByAgeIsAged(s[1..]);
      InsertBeforeNewest(s[0], ByAge(s[1..]), x);
    }
  }

  lemma {:induction false} InsertBeforeNewest<T(!new)>(x: Entry<T>, s: seq<Entry<T>>, last: Entry<T>)
    requires x.createdAt <= last.createdAt
    ensures InsertByAge(x, s + [last]) == InsertByAge(x, s) + [last]
  {
    if s != [] && x.createdAt > s[0].createdAt {
      assert (s + [last])[1..] == s[1..] + [last];
      InsertBeforeNewest(x, s[1..], last);
    }
  }

  /** An entry added last, and not older than any other, survives. */
  lemma NewestSurvives<T(!new)>(s: seq<Entry<T>>, x: Entry<T>, max: nat)
    requires DistinctIds(s + [x]) && 1 <= max && forall e :: e in s ==> e.createdAt <= x.createdAt
    requires forall e :: e in s ==> e.removable
    ensures x in Enforced(s + [x], max)
  {
    NewestIsLast(s, x);
    ByAgeIsAged(s);
    assert forall e :: e in s ==> e.id != x.id by {
      forall e | e in s
        ensures e.id != x.id
      {
        var i :| 0 <= i < |s| && s[i] == e;
        assert (s + [x])[i] == e && (s + [x])[|s|] == x;
      }
    }
    assert (s + [x])[|s|] == x;
    forall e | e in ByAge(s)
      ensures e.id != x.id && e.removable
    {
      assert e in s;
    }
    SurvivesCandidates(ByAge(s), x, s + [x], max);
  }

  lemma {:induction false} SurvivesCandidates<T(!new)>(older: seq<Entry<T>>, x: Entry<T>, entries: seq<Entry<T>>, max: nat)
    requires DistinctIds(entries) && x in entries && 1 <= max
    requires forall e :: e in older ==> e.id != x.id && e.removable
    requires forall e :: e in entries && e != x ==> e in older
    ensures x in Evicted(older + [x], entries, max)
    decreases |older|
  {
    if |entries| > max {
      if older == [] {
        SomeOther(entries, x);
        assert false;
      } else {
        var rest := older[1..];
        assert older == [older[0]] + rest && (older + [x])[1..] == rest + [x];
        WithoutIsExact(entries, older[0].id);
        var fewer := Without(entries, older[0].id);
        forall e | e in fewer && e != x
          ensures e in rest
        {
          assert e in older && e != older[0];
        }
        assert older[0] in older;
        SurvivesCandidates(rest, x, fewer, max);
      }
    }
  }

  lemma SomeOther<T(!new)>(entries: seq<Entry<T>>, x: Entry<T>)
    requires DistinctIds(entries) && 1 < |entries|
    ensures exists e :: e in entries && e != x
  {
    assert entries[0] in entries && entries[1] in entries && entries[0].id != entries[1].id;
  }
}

/** The persisted collection store (src/store/useSeriesStore.ts): the in-memory list of
    records, the loading flag, and the key-value backend that every mutation overwrites
    under one fixed key. */
module Store {
  import opened Wrappers
  import opened Types
  import opened Seqs

  /** The single backend key that holds the whole collection. */
  const StorageKey: string := "series-tracker-data"

  /** The list after an update: every record with `item`'s id becomes `item`, the others stay. */
  function ReplaceById(s: seq<Series>, item: Series): (r: seq<Series>)
    ensures |r| == |s|
  {
    if |s| == 0 then []
    else [if s[0].id == item.id then item else s[0]] + ReplaceById(s[1..], item)
  }

  /** The list after a delete: the records whose id differs from `id`. */
  function RemoveById(s: seq<Series>, id: string): (r: seq<Series>)
    ensures |r| <= |s|
  {
    Filter(s, (x: Series) => x.id != id)
  }

  /** The records a delete of `id` takes out. */
  function WithId(s: seq<Series>, id: string): (r: seq<Series>)
    ensures |r| <= |s|
  {
    Filter(s, (x: Series) => x.id == id)
  }

  /** Position by position, an update swaps in `item` exactly where the id matches. */
  lemma {:induction false} ReplaceByIdAt(s: seq<Series>, item: Series)
    ensures forall i :: 0 <= i < |s| ==>
      ReplaceById(s, item)[i] == if s[i].id == item.id then item else s[i]
  {
    if |s| > 0 {
      ReplaceByIdAt(s[1..], item);
      assert forall i :: 1 <= i < |s| ==> ReplaceById(s, item)[i] == ReplaceById(s[1..], item)[i - 1];
    }
  }

  /** An update whose id matches nothing leaves the list as it was. */
  lemma ReplaceByIdNoMatch(s: seq<Series>, item: Series)
    requires forall i :: 0 <= i < |s| ==> s[i].id != item.id
    ensures ReplaceById(s, item) == s
  {
    ReplaceByIdAt(s, item);
  }

  /** An update keeps the sequence of ids, so it neither adds, drops nor reorders records. */
  lemma ReplaceByIdKeepsIds(s: seq<Series>, item: Series)
    ensures forall i :: 0 <= i < |s| ==> ReplaceById(s, item)[i].id == s[i].id
  {
    ReplaceByIdAt(s, item);
  }

  /** Repeating an update changes nothing further. */
  lemma ReplaceByIdIdempotent(s: seq<Series>, item: Series)
    ensures ReplaceById(ReplaceById(s, item), item) == ReplaceById(s, item)
  {
    var r := ReplaceById(s, item);
    ReplaceByIdAt(s, item);
    ReplaceByIdAt(r, item);
  }

  /** A delete removes exactly the records with `id`: what remains keeps its order, holds no record
      with `id`, and together with the removed records makes up the old list. */
  lemma RemoveByIdSpec(s: seq<Series>, id: string)
    ensures IsSubsequence(RemoveById(s, id), s)
    ensures forall x :: x in RemoveById(s, id) <==> x in s && x.id != id
    ensures forall x :: x in WithId(s, id) <==> x in s && x.id == id
    ensures multiset(RemoveById(s, id)) + multiset(WithId(s, id)) == multiset(s)
  {
    var keep := (x: Series) => x.id != id;
    var drop := (x: Series) => x.id == id;
    FilterIsSubsequence(s, keep);
    forall x ensures x in RemoveById(s, id) <==> x in s && x.id != id {
      FilterMembership(s, keep, x);
    }
    forall x ensures x in WithId(s, id) <==> x in s && x.id == id {
      FilterMembership(s, drop, x);
    }
    FilterPartition(s, keep, drop);
  }

  /** Deleting twice is deleting once. */
  lemma RemoveByIdIdempotent(s: seq<Series>, id: string)
    ensures RemoveById(RemoveById(s, id), id) == RemoveById(s, id)
  {
    FilterIdempotent(s, (x: Series) => x.id != id);
  }

  /** Deleting an id no record carries leaves the list as it was. */
  lemma RemoveByIdNoMatch(s: seq<Series>, id: string)
    requires forall i :: 0 <= i < |s| ==> s[i].id != id
    ensures RemoveById(s, id) == s
  {
    FilterAll(s, (x: Series) => x.id != id);
  }

  /** The store: the collection, the loading flag and the backend's key-value slots. */
  class SeriesStore {
    var series: seq<Series>
    var isLoading: bool
    /** The key-value backend (idb-keyval), reduced to a synchronous map. */
    var db: map<string, seq<Series>>

    /** The backend slot holds exactly the in-memory collection. */
    predicate Persisted()
      reads this
    {
      StorageKey in db && db[StorageKey] == series
    }

    /** The initial state: no records, still loading; the backend is whatever it holds. */
    constructor (backend: map<string, seq<Series>>)
      ensures series == [] && isLoading && db == backend
    {
      series := [];
      isLoading := true;
      db := backend;
    }

    /** loadSeries: replaces the collection with the stored one, or with [] when nothing is
        stored; when the read fails (`readFails`) the collection is kept. Loading ends either way. */
    method LoadSeries(readFails: bool)
      modifies this
      ensures db == old(db) && !isLoading
      ensures series == if readFails then old(series)
                        else if StorageKey in db then db[StorageKey] else []
      ensures !readFails && StorageKey in db ==> Persisted()
    {
      if readFails {
        isLoading := false;
      } else if StorageKey in db {
        series, isLoading := db[StorageKey], false;
      } else {
        series, isLoading := [], false;
      }
    }

    /** Sets the collection, then writes it under the storage key; `writeOk` is the backend's
        answer, and a rejected write leaves the backend as it was. */
    method Save(s: seq<Series>, writeOk: bool) returns (ok: bool)
      modifies this
      ensures series == s && isLoading == old(isLoading)
      ensures ok == writeOk
      ensures db == if writeOk then old(db)[StorageKey := s] else old(db)
      ensures ok ==> Persisted()
    {
      series := s;
      if writeOk {
        db := db[StorageKey := s];
      }
      ok := writeOk;
    }

    /** addSeries: prepends the record (no check that its id is new) and persists the list. */
    method AddSeries(item: Series, writeOk: bool) returns (ok: bool)
      modifies this
      ensures series == [item] + old(series)
      ensures isLoading == old(isLoading) && ok == writeOk
      ensures db == if writeOk then old(db)[StorageKey := series] else old(db)
    {
      ok := Save([item] + series, writeOk);
    }

    /** updateSeries: replaces every record with `item`'s id by `item` and persists the list. */
    method UpdateSeries(item: Series, writeOk: bool) returns (ok: bool)
      modifies this
      ensures series == ReplaceById(old(series), item)
      ensures isLoading == old(isLoading) && ok == writeOk
      ensures db == if writeOk then old(db)[StorageKey := series] else old(db)
    {
      ok := Save(ReplaceById(series, item), writeOk);
    }

    /** deleteSeries: drops every record with `id` and persists the list. */
    method DeleteSeries(id: string, writeOk: bool) returns (ok: bool)
      modifies this
      ensures series == RemoveById(old(series), id)
      ensures isLoading == old(isLoading) && ok == writeOk
      ensures db == if writeOk then old(db)[StorageKey := series] else old(db)
    {
      ok := Save(RemoveById(series, id), writeOk);
    }
  }

  /** A successful add survives a reload: a new store over the same backend loads the list
      the add produced, with the added record first. */
  method AddThenReload(store: SeriesStore, item: Series) returns (reloaded: SeriesStore)
    modifies store
    ensures fresh(reloaded)
    ensures store.series == [item] + old(store.series)
    ensures reloaded.series == store.series && reloaded.series[0] == item
    ensures !reloaded.isLoading
  {
    var ok := store.AddSeries(item, true);
    reloaded := new SeriesStore(store.db);
    reloaded.LoadSeries(false);
  }
}

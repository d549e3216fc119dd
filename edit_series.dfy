/** The edit page (src/pages/EditSeries.tsx): the record for the route's id, and the record the
    form's values are merged into before the store replaces it. */
module EditSeries {
  import opened Wrappers
  import opened Types
  import opened Store
  import opened SeriesForm

  /** Index `i` holds the first record with `id`. */
  predicate FirstWithId(s: seq<Series>, id: string, i: int) {
    0 <= i < |s| && s[i].id == id && forall j :: 0 <= j < i ==> s[j].id != id
  }

  /** Array.prototype.find by id: the first record with `id`, absent when none has it. */
  function FindById(s: seq<Series>, id: string): (r: Option<Series>)
    ensures r.None? <==> forall i :: 0 <= i < |s| ==> s[i].id != id
    ensures r.Some? ==> exists i :: FirstWithId(s, id, i) && s[i] == r.value
  {
    if |s| == 0 then None
    else if s[0].id == id then
      assert FirstWithId(s, id, 0);
      Some(s[0])
    else
      var r := FindById(s[1..], id);
      if r.Some? then
        var i :| FirstWithId(s[1..], id, i) && s[1..][i] == r.value;
        assert FirstWithId(s, id, i + 1);
        r
      else r
  }

  /** The page: the form for the found record, or "Loading..." while a reload is requested. */
  datatype EditView = LoadingAndReload | Editing(record: Series)

  function EditPage(series: seq<Series>, routeId: string): (v: EditView)
    ensures v.LoadingAndReload? <==> forall i :: 0 <= i < |series| ==> series[i].id != routeId
    ensures v.Editing? ==> v.record.id == routeId && v.record in series
    ensures v.Editing? ==> exists i :: FirstWithId(series, routeId, i) && series[i] == v.record
  {
    match FindById(series, routeId)
    case None => LoadingAndReload
    case Some(x) => Editing(x)
  }

  /** `{...seriesToEdit, ...data, updatedAt: now}`: every field the form returns overrides the old
      one (absent ones included); `id` and `createdAt`, which the form never returns, are kept. */
  function Merge(current: Series, d: FormData, now: int): (r: Series)
    ensures r.id == current.id && r.createdAt == current.createdAt && r.updatedAt == now
  {
    current.(title := d.title, year := d.year, seasons := d.seasons, episodes := d.episodes,
          status := d.status, rating := d.rating, notes := d.notes, platform := d.platform,
          tags := d.tags, poster := d.poster, updatedAt := now)
  }

  /** The form's output is what the merged record holds, field by field. */
  lemma MergeTakesFormFields(current: Series, d: FormData, now: int)
    ensures var r := Merge(current, d, now);
      FormData(r.title, r.year, r.seasons, r.episodes, r.status, r.rating, r.notes, r.platform,
               r.tags, r.poster) == d
  {
  }

  /** A record as the form produces it: it passes the schema when shown again in the form. */
  predicate FormShaped(x: Series, currentYear: int) {
    && |x.title| >= 1
    && (x.year.Some? ==> MinYear <= x.year.value <= currentYear + 1)
    && (x.seasons.Some? ==> x.seasons.value >= 1)
    && (x.episodes.Some? ==> x.episodes.value >= 1)
    && RatingInRange(x.rating)
    && (forall i :: 0 <= i < |x.tags| ==> WellFormedTag(x.tags[i]))
  }

  /** Saving the edit form untouched gives back the record with only `updatedAt` refreshed, except
      that absent notes and platform come back as empty text. */
  lemma EditWithoutChanges(x: Series, currentYear: int, now: int)
    requires FormShaped(x, currentYear)
    ensures Submit(DefaultValues(Some(x)), x.poster, currentYear).Some?
    ensures Merge(x, Submit(DefaultValues(Some(x)), x.poster, currentYear).value, now)
      == x.(notes := Some(x.notes.GetOr("")), platform := Some(x.platform.GetOr("")), updatedAt := now)
  {
    var v := DefaultValues(Some(x));
    StatusNameRoundTrip(x.status, v.status);
    assert IsValid(v, currentYear);
    TagsRoundTrip(x.tags);
  }

  /** handleSubmit: one update with the merged record, which replaces every record with the route's id. */
  method SubmitEdit(store: SeriesStore, routeId: string, data: FormData, now: int, writeOk: bool)
    returns (ok: bool)
    requires FindById(store.series, routeId).Some?
    modifies store
    ensures store.series ==
      ReplaceById(old(store.series), Merge(FindById(old(store.series), routeId).value, data, now))
    ensures store.isLoading == old(store.isLoading) && ok == writeOk
    ensures store.db == if writeOk then old(store.db)[StorageKey := store.series] else old(store.db)
  {
    var toEdit := FindById(store.series, routeId).value;
    ok := store.UpdateSeries(Merge(toEdit, data, now), writeOk);
  }

  /** After the edit, every record with the route's id is the merged record, keeping its id and
      creation time, and every other record is untouched. */
  lemma SubmitEditEffect(s: seq<Series>, routeId: string, data: FormData, now: int)
    requires FindById(s, routeId).Some?
    ensures var m := Merge(FindById(s, routeId).value, data, now);
      && m.id == routeId
      && |ReplaceById(s, m)| == |s|
      && (forall i :: 0 <= i < |s| && s[i].id == routeId ==> ReplaceById(s, m)[i] == m)
      && (forall i :: 0 <= i < |s| && s[i].id != routeId ==> ReplaceById(s, m)[i] == s[i])
  {
    var m := Merge(FindById(s, routeId).value, data, now);
    ReplaceByIdAt(s, m);
  }
}

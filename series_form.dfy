/** The add/edit form (src/components/SeriesForm.tsx): the validation schema, the mapping from the
    form's values to a record's fields, the comma-separated tag text, and the poster size check. */
module SeriesForm {
  import opened Wrappers
  import opened Types
  import opened Seqs
  import opened JsString

  /** A number input after coercion: left blank ('') or holding a number. */
  datatype NumField = Blank | Number(n: int)

  /** The values the form holds. `status` is the text of the selected status; `tags` the comma-separated text. */
  datatype FormValues = FormValues(
    title: string,
    year: NumField,
    seasons: NumField,
    episodes: NumField,
    status: string,
    rating: HalfPoints,
    notes: Option<string>,
    platform: Option<string>,
    tags: Option<string>)

  /** What the form hands to its caller: a record without `id`, `createdAt` and `updatedAt`. */
  datatype FormData = FormData(
    title: string,
    year: Option<int>,
    seasons: Option<int>,
    episodes: Option<int>,
    status: Status,
    rating: HalfPoints,
    notes: Option<string>,
    platform: Option<string>,
    tags: seq<string>,
    poster: Option<string>)

  /** The earliest year the schema admits. */
  const MinYear: int := 1900

  /** The largest poster file accepted: 5 MB. */
  const MaxPosterBytes: nat := 5 * 1024 * 1024

  /** A blank optional number, or one at least `lo`. */
  predicate BlankOrAtLeast(f: NumField, lo: int) {
    f.Blank? || f.n >= lo
  }

  /** seriesSchema: a title, a year from 1900 to next year or blank, seasons and episodes at least 1
      or blank, one of the four statuses, a rating from 0 to 10. Notes, platform and tags are free. */
  predicate IsValid(v: FormValues, currentYear: int) {
    && |v.title| >= 1
    && (v.year.Blank? || MinYear <= v.year.n <= currentYear + 1)
    && BlankOrAtLeast(v.seasons, 1)
    && BlankOrAtLeast(v.episodes, 1)
    && ParseStatus(v.status).Some?
    && RatingInRange(v.rating)
  }

  /** `values.year ? Number(values.year) : undefined`: a falsy value ('' or 0) becomes absent. */
  function OptionalNumber(f: NumField): (r: Option<int>)
    ensures r.None? <==> f.Blank? || f.n == 0
    ensures r.Some? ==> r.value == f.n && r.value != 0
  {
    if f.Blank? || f.n == 0 then None else Some(f.n)
  }

  /** A piece of tag text counts as a tag when it is not empty. */
  predicate IsNonEmpty(t: string) {
    |t| > 0
  }

  /** Trims every piece. */
  function TrimAll(parts: seq<string>): (r: seq<string>)
    ensures |r| == |parts|
    ensures forall i :: 0 <= i < |parts| ==> r[i] == Trim(parts[i])
  {
    seq(|parts|, i requires 0 <= i < |parts| => Trim(parts[i]))
  }

  /** The tags of the comma-separated text: split at commas, trimmed, empty pieces dropped;
      no text or empty text gives no tags. */
  function ParseTags(text: Option<string>): (tags: seq<string>)
  {
    if text.None? || text.value == "" then []
    else Filter(TrimAll(Split(text.value, ',')), IsNonEmpty)
  }

  /** A tag as the form produces it: non-empty, without a comma, without white space at either end. */
  predicate WellFormedTag(t: string) {
    |t| > 0 && ',' !in t && IsTrimmed(t)
  }

  /** The tag text the form starts from: the tags joined by ", ". */
  function TagsText(tags: seq<string>): string {
    Join(tags, ", ")
  }

  /** Parsed tags are well formed, and they are the non-empty trimmed pieces of the text in the order
      they occur in it. */
  lemma ParseTagsSpec(text: string)
    ensures forall i :: 0 <= i < |ParseTags(Some(text))| ==> WellFormedTag(ParseTags(Some(text))[i])
    ensures text != "" ==> IsSubsequence(ParseTags(Some(text)), TrimAll(Split(text, ',')))
    ensures forall t :: t in ParseTags(Some(text)) <==> t != "" && t in TrimAll(Split(text, ','))
  {
    if text != "" {
      var pieces := TrimAll(Split(text, ','));
      FilterSatisfies(pieces, IsNonEmpty);
      FilterIsSubsequence(pieces, IsNonEmpty);
      forall t ensures t in ParseTags(Some(text)) <==> t != "" && t in pieces {
        FilterMembership(pieces, IsNonEmpty, t);
      }
      var tags := ParseTags(Some(text));
      forall i | 0 <= i < |tags| ensures WellFormedTag(tags[i]) {
        FilterMembership(pieces, IsNonEmpty, tags[i]);
        var j :| 0 <= j < |pieces| && pieces[j] == tags[i];
        TrimKeepsOut(Split(text, ',')[j], ',');
      }
    }
  }

  /** A piece of tag text that is left empty by trimming. */
  predicate IsEmptyPiece(t: string) {
    |t| == 0
  }

  /** Parsing drops only empty pieces: every non-empty trimmed piece is kept as often as it occurs,
      repeated tags included. */
  lemma ParseTagsCounts(text: string)
    ensures forall t :: t != "" ==>
      multiset(ParseTags(Some(text)))[t] == multiset(TrimAll(Split(text, ',')))[t]
  {
    var pieces := TrimAll(Split(text, ','));
    if text != "" {
      FilterPartition(pieces, IsNonEmpty, IsEmptyPiece);
      forall t | t != "" ensures multiset(Filter(pieces, IsEmptyPiece))[t] == 0 {
        FilterMembership(pieces, IsEmptyPiece, t);
      }
    } else {
      assert pieces == [""];
    }
  }

  /** Well-formed tags survive the round trip through the form: joined by ", " and parsed back
      they come out unchanged. */
  lemma TagsRoundTrip(tags: seq<string>)
    requires forall i :: 0 <= i < |tags| ==> WellFormedTag(tags[i])
    ensures ParseTags(Some(TagsText(tags))) == tags
  {
    if |tags| > 0 {
      assert TagsText(tags) != "" by {
        if |tags| > 1 {
          assert TagsText(tags) == tags[0] + ", " + Join(tags[1..], ", ");
        }
      }
      TagPiecesOfJoin(tags);
      FilterAll(tags, IsNonEmpty);
    }
  }

  /** The trimmed comma-separated pieces of joined well-formed tags are the tags. */
  lemma TagPiecesOfJoin(tags: seq<string>)
    requires |tags| > 0
    requires forall i :: 0 <= i < |tags| ==> WellFormedTag(tags[i])
    ensures TrimAll(Split(TagsText(tags), ',')) == tags
  {
    assert ", " == [','] + " ";
    SplitJoinPadded(tags, ',', " ");
    var pieces := Split(TagsText(tags), ',');
    forall i | 0 <= i < |tags| ensures Trim(pieces[i]) == tags[i] {
      PieceTrims(tags, pieces, i);
    }
  }

  /** Piece `i` of the split text is tag `i`, behind a space after the first, and trims to it. */
  lemma PieceTrims(tags: seq<string>, pieces: seq<string>, i: nat)
    requires i < |tags| && WellFormedTag(tags[i])
    requires pieces == [tags[0]] + PadAll(" ", tags[1..])
    ensures Trim(pieces[i]) == tags[i]
  {
    TrimPadded(tags[i]);
    if i > 0 {
      assert pieces[i] == PadAll(" ", tags[1..])[i - 1];
      assert pieces[i] == " " + tags[i];
    }
  }

  /** A well-formed tag is its own trim, also behind the space that ", " leaves. */
  lemma TrimPadded(t: string)
    requires WellFormedTag(t)
    ensures Trim(t) == t && Trim(" " + t) == t
  {
    TrimFixesTrimmed(t);
    TrimLeadingSpace(" ", t);
  }

  /** handleSubmit behind the schema: nothing is submitted unless the values are valid; then the
      numbers are mapped, the status read, the tags parsed and the current poster attached. What is
      submitted respects the schema's bounds: a title, a year from 1900 to next year if any, seasons
      and episodes at least 1 if any, a rating in range, the selected status, well-formed tags. */
  function Submit(v: FormValues, poster: Option<string>, currentYear: int): (d: Option<FormData>)
    ensures d.Some? <==> IsValid(v, currentYear)
    ensures d.Some? ==>
      && |d.value.title| >= 1
      && (d.value.year.Some? ==> MinYear <= d.value.year.value <= currentYear + 1)
      && (d.value.seasons.Some? ==> d.value.seasons.value >= 1)
      && (d.value.episodes.Some? ==> d.value.episodes.value >= 1)
      && RatingInRange(d.value.rating)
      && StatusName(d.value.status) == v.status
      && d.value.poster == poster
      && (forall i :: 0 <= i < |d.value.tags| ==> WellFormedTag(d.value.tags[i]))
    ensures d.Some? ==>
      && d.value.title == v.title && d.value.rating == v.rating
      && d.value.notes == v.notes && d.value.platform == v.platform
      && d.value.year == OptionalNumber(v.year)
      && d.value.seasons == OptionalNumber(v.seasons)
      && d.value.episodes == OptionalNumber(v.episodes)
      && d.value.tags == ParseTags(v.tags)
  {
    if !IsValid(v, currentYear) then None
    else
      var status := ParseStatus(v.status).value;
      var tags := ParseTags(v.tags);
      assert StatusName(status) == v.status by {
        StatusNameRoundTrip(status, v.status);
      }
      assert forall i :: 0 <= i < |tags| ==> WellFormedTag(tags[i]) by {
        if v.tags.Some? {
          ParseTagsSpec(v.tags.value);
        }
      }
      Some(FormData(
        v.title,
        OptionalNumber(v.year),
        OptionalNumber(v.seasons),
        OptionalNumber(v.episodes),
        status,
        v.rating,
        v.notes,
        v.platform,
        tags,
        poster))
  }

  /** A new series cannot be submitted from the untouched form: its title starts empty. */
  lemma NewFormNeedsTitle(poster: Option<string>, currentYear: int)
    ensures Submit(DefaultValues(None), poster, currentYear).None?
  {
  }

  /** `x || ''` on an optional number: absent and zero both leave the input blank. */
  function NumberOrBlank(o: Option<int>): (f: NumField)
    ensures f.Blank? <==> o.None? || o.value == 0
    ensures f.Number? ==> f.n == o.value
  {
    if o.Some? && o.value != 0 then Number(o.value) else Blank
  }

  /** defaultValues: the form's starting values, from the record being edited or empty for a new one. */
  function DefaultValues(initial: Option<Series>): (v: FormValues)
    ensures initial.None? ==> v.title == "" && v.year.Blank? && v.status == "Watching" && v.rating == 0
  {
    match initial
    case None => FormValues("", Blank, Blank, Blank, "Watching", 0, Some(""), Some(""), Some(""))
    case Some(x) => FormValues(
      x.title,
      NumberOrBlank(x.year),
      NumberOrBlank(x.seasons),
      NumberOrBlank(x.episodes),
      StatusName(x.status),
      x.rating,
      Some(x.notes.GetOr("")),
      Some(x.platform.GetOr("")),
      Some(TagsText(x.tags)))
  }

  /** A number field survives the trip from a record to the form and back, zero excepted (it is
      falsy both ways): an absent number stays absent, a non-zero one is kept, and in the other
      direction a blank or non-zero input is what the record gives back. */
  lemma NumberRoundTrip(o: Option<int>, f: NumField)
    ensures o != Some(0) ==> OptionalNumber(NumberOrBlank(o)) == o
    ensures f != Number(0) ==> NumberOrBlank(OptionalNumber(f)) == f
    ensures OptionalNumber(NumberOrBlank(Some(0))) == None
  {
  }

  /** A file picked for the poster: its size in bytes and its contents as a data URL. */
  datatype PosterFile = PosterFile(size: nat, dataUrl: string)

  /** The poster preview held by the form. */
  class PosterField {
    var poster: Option<string>

    /** Starts from the edited record's poster, or none. */
    constructor (initial: Option<Series>)
      ensures poster == if initial.Some? then initial.value.poster else None
    {
      poster := if initial.Some? then initial.value.poster else None;
    }

    /** handleImageUpload: with no file nothing happens; a file over 5 MB raises the size alert and
        leaves the poster as it was; any other file becomes the poster. */
    method HandleImageUpload(file: Option<PosterFile>) returns (tooLarge: bool)
      modifies this
      ensures tooLarge <==> file.Some? && file.value.size > MaxPosterBytes
      ensures poster == if file.Some? && !tooLarge then Some(file.value.dataUrl) else old(poster)
    {
      tooLarge := false;
      if file.Some? {
        if file.value.size > MaxPosterBytes {
          tooLarge := true;
          return;
        }
        poster := Some(file.value.dataUrl);
      }
    }

    /** The remove button: the poster is cleared. */
    method Clear()
      modifies this
      ensures poster == None
    {
      poster := None;
    }
  }
}

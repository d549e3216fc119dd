/** The tracked record and its status (src/types.ts). */
module Types {
  import opened Wrappers

  /** SeriesStatus: exactly one of four lifecycle states. */
  datatype Status = Watching | Finished | OnHold | Dropped

  /** A rating in half-points: the value shown as 0..10 in steps of 0.5 is stored here doubled, 0..20. */
  type HalfPoints = int

  /** One tracked series. `id`, `title`, `status`, `rating`, `tags`, `createdAt` and `updatedAt`
      are always present; the other fields may be absent (JavaScript `undefined`).
      Timestamps are epoch milliseconds. */
  datatype Series = Series(
    id: string,
    title: string,
    year: Option<int>,
    seasons: Option<int>,
    episodes: Option<int>,
    status: Status,
    rating: HalfPoints,
    notes: Option<string>,
    tags: seq<string>,
    platform: Option<string>,
    poster: Option<string>,
    createdAt: int,
    updatedAt: int)

  /** The text the source uses for each status. */
  function StatusName(s: Status): (name: string)
    ensures |name| > 0
  {
    match s
    case Watching => "Watching"
    case Finished => "Finished"
    case OnHold => "On Hold"
    case Dropped => "Dropped"
  }

  /** Reads a status from its text; any other text is not a status. */
  function ParseStatus(name: string): (r: Option<Status>)
  {
    if name == "Watching" then Some(Watching)
    else if name == "Finished" then Some(Finished)
    else if name == "On Hold" then Some(OnHold)
    else if name == "Dropped" then Some(Dropped)
    else None
  }

  /** Status names and `ParseStatus` are inverse: exactly the four names parse, each to its own status. */
  lemma StatusNameRoundTrip(s: Status, name: string)
    ensures ParseStatus(StatusName(s)) == Some(s)
    ensures ParseStatus(name) == Some(s) <==> name == StatusName(s)
  {
  }

  /** The rating range annotated on the record: 0..10, that is 0..20 half-points. */
  predicate RatingInRange(r: HalfPoints) {
    0 <= r <= 20
  }
}

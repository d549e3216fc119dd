/** The settings page (src/pages/Settings.tsx): backup export and the all-or-nothing import that
    adds the file's records one at a time. */
module Settings {
  import opened Wrappers
  import opened Types
  import opened Seqs
  import opened JsString
  import opened Store

  /** One element of an imported array: `null`, or an object with whether its `title` and `status`
      are truthy and the record it is taken for as it stands (its id included). */
  datatype ImportElement = Null | Item(hasTitle: bool, hasStatus: bool, record: Series)

  /** The file's text after JSON parsing. */
  datatype ParsedFile = Unparsable | NotAnArray | ArrayOf(elements: seq<ImportElement>)

  /** How an import ends, with the alert it shows: none, 'Invalid data format', none (declined),
      'Import successful!', 'Failed to parse JSON file'. */
  datatype ImportResult = Ignored | InvalidFormat | Declined | Imported | ImportFailed

  /** The `every` callback's verdict on one element (only for an object: on `null` it throws). */
  predicate PassesCheck(e: ImportElement) {
    e.Item? && e.hasTitle && e.hasStatus
  }

  /** The check passes: every element is an object with a truthy title and status; the status is
      not checked further. */
  predicate ValidImport(elems: seq<ImportElement>) {
    forall i :: 0 <= i < |elems| ==> PassesCheck(elems[i])
  }

  /** Index `i` is where `every` stops: the first element that does not pass. */
  predicate FirstStop(elems: seq<ImportElement>, i: int) {
    0 <= i < |elems| && !PassesCheck(elems[i]) && forall j :: 0 <= j < i ==> PassesCheck(elems[j])
  }

  /** How `every` ends: it passes, it meets a falsy element, or it reads `title` of `null` and throws. */
  datatype CheckEnd = AllPass | Falsy | Throws

  /** `importedData.every(item => item.title && item.status)`, left to right, stopping at the first
      element that fails or throws. */
  function EveryCheck(elems: seq<ImportElement>): (r: CheckEnd)
    ensures r == AllPass <==> ValidImport(elems)
    ensures r == Throws <==> exists i :: FirstStop(elems, i) && elems[i].Null?
    ensures r == Falsy <==> exists i :: FirstStop(elems, i) && elems[i].Item?
  {
    if |elems| == 0 then AllPass
    else if elems[0].Null? then
      assert FirstStop(elems, 0);
      Throws
    else if !PassesCheck(elems[0]) then
      assert FirstStop(elems, 0);
      Falsy
    else
      var r := EveryCheck(elems[1..]);
      FirstStopShift(elems);
      r
  }

  /** Past a first element that passes, the stops of `elems` are those of its tail, shifted by one. */
  lemma FirstStopShift(elems: seq<ImportElement>)
    requires |elems| > 0 && PassesCheck(elems[0])
    ensures forall i :: FirstStop(elems, i) <==> FirstStop(elems[1..], i - 1)
    ensures ValidImport(elems) <==> ValidImport(elems[1..])
  {
    forall i ensures FirstStop(elems, i) <==> FirstStop(elems[1..], i - 1) {
      if FirstStop(elems[1..], i - 1) {
        forall j | 0 <= j < i ensures PassesCheck(elems[j]) {
          if j > 0 {
            assert elems[j] == elems[1..][j - 1];
          }
        }
      }
    }
    if ValidImport(elems[1..]) {
      forall i | 0 <= i < |elems| ensures PassesCheck(elems[i]) {
        if i > 0 {
          assert elems[i] == elems[1..][i - 1];
        }
      }
    }
  }

  /** The records of a file that passed the check, in file order. */
  function Records(elems: seq<ImportElement>): (r: seq<Series>)
    requires ValidImport(elems)
    ensures |r| == |elems|
  {
    seq(|elems|, i requires 0 <= i < |elems| => elems[i].record)
  }

  /** The elements reach `addSeries`: the file is an array, it passes the check and the user confirms. */
  predicate ImportStarts(file: ParsedFile, confirmed: bool) {
    file.ArrayOf? && ValidImport(file.elements) && confirmed
  }

  /** The backend rejects the write of element `failAt` (none when absent) and the import stops there. */
  predicate ImportStops(file: ParsedFile, confirmed: bool, failAt: Option<nat>) {
    ImportStarts(file, confirmed) && failAt.Some? && failAt.value < |file.elements|
  }

  /** How the import ends. */
  function ImportOutcome(file: ParsedFile, confirmed: bool, failAt: Option<nat>): (r: ImportResult)
    ensures r == Imported <==> ImportStarts(file, confirmed) && !ImportStops(file, confirmed, failAt)
    ensures r == InvalidFormat <==> file.ArrayOf? && exists i :: FirstStop(file.elements, i) && file.elements[i].Item?
    ensures r == ImportFailed <==>
      || file.Unparsable?
      || (file.ArrayOf? && exists i :: FirstStop(file.elements, i) && file.elements[i].Null?)
      || ImportStops(file, confirmed, failAt)
  {
    match file
    case Unparsable => ImportFailed
    case NotAnArray => Ignored
    case ArrayOf(elems) =>
      match EveryCheck(elems)
      case Throws => ImportFailed
      case Falsy => InvalidFormat
      case AllPass =>
        if !confirmed then Declined
        else if ImportStops(file, confirmed, failAt) then ImportFailed
        else Imported
  }

  /** The number of `addSeries` calls made (each sets the in-memory list before its write). */
  function AddedCount(file: ParsedFile, confirmed: bool, failAt: Option<nat>): (n: nat)
    ensures n > 0 ==> ImportStarts(file, confirmed) && n <= |file.elements|
  {
    if ImportStops(file, confirmed, failAt) then failAt.value + 1
    else if ImportStarts(file, confirmed) then |file.elements|
    else 0
  }

  /** The number of writes that reached the backend. */
  function WrittenCount(file: ParsedFile, confirmed: bool, failAt: Option<nat>): (n: nat)
    ensures n <= AddedCount(file, confirmed, failAt)
  {
    if ImportStops(file, confirmed, failAt) then failAt.value else AddedCount(file, confirmed, failAt)
  }

  /** handleImport after the file is read: parse outcome, the check, the confirmation, then one
      `addSeries` per element in file order; a rejected write ends the import with the parse alert. */
  method HandleImport(store: SeriesStore, file: ParsedFile, confirmed: bool, failAt: Option<nat>)
    returns (result: ImportResult)
    modifies store
    ensures result == ImportOutcome(file, confirmed, failAt)
    ensures store.isLoading == old(store.isLoading)
    ensures !ImportStarts(file, confirmed) ==> store.series == old(store.series) && store.db == old(store.db)
    ensures ImportStarts(file, confirmed) ==>
      store.series ==
        Reverse(Records(file.elements)[..AddedCount(file, confirmed, failAt)]) + old(store.series)
    ensures ImportStarts(file, confirmed) ==>
      var w := WrittenCount(file, confirmed, failAt);
      store.db == if w == 0 then old(store.db)
                  else old(store.db)[StorageKey := Reverse(Records(file.elements)[..w]) + old(store.series)]
  {
    match file {
      case Unparsable =>
        result := ImportFailed;
      case NotAnArray =>
        result := Ignored;
      case ArrayOf(elems) =>
        var check := EveryCheck(elems);
        if check == Throws {
          result := ImportFailed;
          return;
        }
        if check == Falsy {
          result := InvalidFormat;
          return;
        }
        if !confirmed {
          result := Declined;
          return;
        }
        var stopped := AddInOrder(store, Records(elems), failAt);
        result := if stopped then ImportFailed else Imported;
    }
  }

  /** The import loop: `addSeries` for each record in order, stopping at the first rejected write
      (the one at index `failAt`). Reports whether it stopped. */
  method AddInOrder(store: SeriesStore, records: seq<Series>, failAt: Option<nat>) returns (stopped: bool)
    modifies store
    ensures stopped <==> failAt.Some? && failAt.value < |records|
    ensures store.isLoading == old(store.isLoading)
    ensures store.series ==
      Reverse(records[..if stopped then failAt.value + 1 else |records|]) + old(store.series)
    ensures var w := if stopped then failAt.value else |records|;
      store.db == if w == 0 then old(store.db)
                  else old(store.db)[StorageKey := Reverse(records[..w]) + old(store.series)]
  {
    var i := 0;
    while i < |records|
      invariant 0 <= i <= |records|
      invariant failAt.Some? && failAt.value < |records| ==> i <= failAt.value
      invariant store.series == Reverse(records[..i]) + old(store.series)
      invariant store.isLoading == old(store.isLoading)
      invariant store.db == if i == 0 then old(store.db) else old(store.db)[StorageKey := store.series]
    {
      var ok := store.AddSeries(records[i], failAt != Some(i));
      ReverseGrows(records, i);
      if !ok {
        return true;
      }
      i := i + 1;
    }
    assert records[..i] == records;
    return false;
  }

  /** Prepending element `i` to the reversed first `i` elements reverses the first `i + 1`. */
  lemma ReverseGrows(s: seq<Series>, i: nat)
    requires i < |s|
    ensures [s[i]] + Reverse(s[..i]) == Reverse(s[..i + 1])
  {
    assert s[..i + 1][..i] == s[..i];
  }

  /** A rejected file changes nothing: a parse failure, a non-array, a failed check or a declined
      confirmation make no `addSeries` call. */
  lemma NoPartialImport(file: ParsedFile, confirmed: bool, failAt: Option<nat>)
    requires !ImportStarts(file, confirmed)
    ensures AddedCount(file, confirmed, failAt) == 0 && WrittenCount(file, confirmed, failAt) == 0
    ensures ImportOutcome(file, confirmed, failAt) != Imported
  {
  }

  /** After a complete import the collection is the file's records in reverse file order, followed
      by the records that were there before; no record is lost or duplicated. */
  lemma ImportedOrder(elems: seq<ImportElement>, before: seq<Series>, k: nat)
    requires ValidImport(elems)
    requires k < |elems| + |before|
    ensures var after := Reverse(Records(elems)) + before;
      after[k] == if k < |elems| then elems[|elems| - 1 - k].record else before[k - |elems|]
    ensures multiset(Reverse(Records(elems)) + before) == multiset(Records(elems)) + multiset(before)
  {
    if k < |elems| {
      ReverseAt(Records(elems), k);
    }
    ReversePermutes(Records(elems));
  }

  /** The backup file name's fixed parts. */
  const BackupPrefix: string := "turkish-series-backup-"
  const BackupSuffix: string := ".json"

  /** `toISOString().split('T')[0]`: the date part of an ISO timestamp. */
  function DatePart(iso: string): string {
    Split(iso, 'T')[0]
  }

  /** The exported file: its name and the records it holds. */
  datatype ExportFile = ExportFile(name: string, content: seq<Series>)

  /** handleExport: the whole current collection, under the backup prefix, the date part of the
      timestamp (the text before its first 'T', all of it when there is none) and ".json". */
  function Export(series: seq<Series>, iso: string): (f: ExportFile)
    ensures f.content == series
    ensures |f.name| >= |BackupPrefix| + |BackupSuffix|
    ensures var date := f.name[|BackupPrefix|..|f.name| - |BackupSuffix|];
      && f.name == BackupPrefix + date + BackupSuffix
      && 'T' !in date
      && StartsWith(iso, date)
      && (|date| == |iso| || iso[|date|] == 'T')
  {
    var date := DatePart(iso);
    DatePartSpec(iso);
    var name := BackupPrefix + date + BackupSuffix;
    assert name[|BackupPrefix|..|name| - |BackupSuffix|] == date;
    ExportFile(name, series)
  }

  /** The date part is the text of the timestamp before its first 'T', all of it when it has none. */
  lemma DatePartSpec(iso: string)
    ensures 'T' !in DatePart(iso)
    ensures StartsWith(iso, DatePart(iso))
    ensures |DatePart(iso)| == |iso| || iso[|DatePart(iso)|] == 'T'
  {
    SplitHead(iso, 'T');
  }
}

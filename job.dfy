/**
 * One run of execute: select the window from one clock reading, filter the
 * document listing, download and combine the kept documents, normalise the
 * combined table. The listing, the downloads and the clock are inputs; the
 * write to storage is not part of this model.
 */
module Job {
  import opened Wrappers
  import opened Civil
  import opened Text
  import opened Window
  import opened Documents
  import opened Frames
  import opened Normalize

  /** Every kept document was published on the day before now's date and has a name ending in "csv". */
  lemma KeptAreYesterday(now: int, listing: seq<Document>)
    ensures var kept := FilterDocuments(SelectWindow(now), listing);
            forall k :: 0 <= k < |kept| ==>
              DateOf(kept[k].publishDate) == PrevDate(DateOf(now)) && EndsWith(kept[k].friendlyName, "csv")
  {
    var kept := FilterDocuments(SelectWindow(now), listing);
    forall k | 0 <= k < |kept|
      ensures DateOf(kept[k].publishDate) == PrevDate(DateOf(now))
    {
      WindowIsYesterday(now, kept[k].publishDate);
    }
  }

  /**
   * r is what lines 71 to 100 make of the table the loop combined from the
   * kept documents' downloads: the normalisation's error, or its table
   * sorted by effective_from.
   */
  predicate NormalisedFrom(kept: seq<Document>, downloads: map<string, Table>, r: Result<Table, Error>)
    requires forall k :: 0 <= k < |kept| ==> kept[k].docId in downloads
    requires kept != [] && AllRectangular(Batches(kept, downloads))
  {
    var c := Combined(Batches(kept, downloads), |kept|).value;
    && (Prepare(c).Err? ==> r == Err(Prepare(c).error))
    && (Prepare(c).Ok? ==> r.Ok? && SortedFrom(r.value, Prepare(c).value))
  }

  /**
   * A run. An empty listing gives a frame without columns, so reading
   * Document.PublishDate from it raises KeyError before any filtering.
   * Otherwise the run fails with the first kept document whose download
   * fails, with NoDocuments when none is kept, or where the normalisation
   * of the combined table fails; on success the table is that normalised
   * table: its labels, and its rows sorted by effective_from, one per row
   * of the kept documents' tables, each a five-minute interval with its
   * delivery date.
   */
  method Run(now: int, listing: seq<Document>, downloads: map<string, Table>) returns (r: Result<Table, Error>)
    requires AllReadable(downloads)
    ensures listing == [] ==> r == Err(MissingColumn("Document.PublishDate"))
    ensures var kept := FilterDocuments(SelectWindow(now), listing);
            && (listing != [] && kept == [] ==> r == Err(NoDocuments))
            && ((exists k :: 0 <= k < |kept| && kept[k].docId !in downloads) ==>
                  exists k :: 0 <= k < |kept| && r == Err(DownloadFailed(kept[k].docId))
                              && kept[k].docId !in downloads
                              && forall e :: 0 <= e < k ==> kept[e].docId in downloads)
    ensures r.Ok? ==>
              var kept := FilterDocuments(SelectWindow(now), listing);
              && kept != []
              && (forall k :: 0 <= k < |kept| ==> kept[k].docId in downloads)
              && |r.value.rows| == SumRows(Batches(kept, downloads), |kept|)
              && Rectangular(r.value)
              && forall k :: 0 <= k < |r.value.rows| ==> Interval(r.value.columns, r.value.rows[k])
    ensures var kept := FilterDocuments(SelectWindow(now), listing);
            kept != [] && (forall k :: 0 <= k < |kept| ==> kept[k].docId in downloads) ==>
              AllRectangular(Batches(kept, downloads)) && NormalisedFrom(kept, downloads, r)
  {
    if listing == [] {
      return Err(MissingColumn("Document.PublishDate"));
    }
    var window := SelectWindow(now);
    var kept := FilterDocuments(window, listing);
    var df :- Accumulate(kept, downloads);
    r := Normalize.Normalize(df);
  }
}

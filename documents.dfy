/**
 * The documents listed for the report, and the filter that keeps the ones
 * published inside the window whose friendly name ends with "csv".
 */
module Documents {
  import opened Text
  import opened Window

  /**
   * One entry of the document list: Document.DocID, Document.PublishDate
   * (an instant in microseconds) and Document.FriendlyName.
   */
  datatype Document = Document(docId: string, publishDate: int, friendlyName: string)

  /**
   * A document survives the filter when it was published in the window
   * (from_date inclusive, to_date exclusive) and its friendly name ends
   * with the three characters "csv", in that case, with no dot required.
   */
  predicate Keep(w: Window, d: Document): (b: bool)
    ensures b <==> w.fromDate <= d.publishDate < w.toDate && exists p :: d.friendlyName == p + "csv"
  {
    InWindow(w, d.publishDate) && EndsWith(d.friendlyName, "csv")
  }

  /** The documents that survive the filter, in listing order. */
  function FilterDocuments(w: Window, docs: seq<Document>): (kept: seq<Document>)
    ensures |kept| <= |docs|
    ensures forall k :: 0 <= k < |kept| ==> Keep(w, kept[k])
  {
    if docs == [] then []
    else
      var last := docs[|docs| - 1];
      FilterDocuments(w, docs[..|docs| - 1]) + if Keep(w, last) then [last] else []
  }

  /**
   * Each document passing the filter is kept as many times as it is
   * listed, and each other document not at all.
   */
  lemma {:induction false} KeptCount(w: Window, docs: seq<Document>, d: Document)
    ensures multiset(FilterDocuments(w, docs))[d] == if Keep(w, d) then multiset(docs)[d] else 0
    decreases |docs|
  {
    if docs != [] {
      var last := docs[|docs| - 1];
      assert docs == docs[..|docs| - 1] + [last];
      KeptCount(w, docs[..|docs| - 1], d);
    }
  }

  /** A document is kept exactly when it is listed and passes the filter. */
  lemma KeptIff(w: Window, docs: seq<Document>, d: Document)
    ensures d in FilterDocuments(w, docs) <==> d in docs && Keep(w, d)
  {
    KeptCount(w, docs, d);
    assert d in FilterDocuments(w, docs) <==> multiset(FilterDocuments(w, docs))[d] > 0;
    assert d in docs <==> multiset(docs)[d] > 0;
  }

  /** Listing one more document appends it to the result when it passes. */
  lemma FilterSnoc(w: Window, s: seq<Document>, x: Document)
    ensures FilterDocuments(w, s + [x]) == FilterDocuments(w, s) + if Keep(w, x) then [x] else []
  {
    assert (s + [x])[..|s|] == s;
  }

  /**
   * Filtering a listing in two parts gives the two filtered parts one after
   * the other: the filter keeps listing order.
   */
  lemma {:induction false} FilterConcat(w: Window, a: seq<Document>, b: seq<Document>)
    ensures FilterDocuments(w, a + b) == FilterDocuments(w, a) + FilterDocuments(w, b)
    decreases |b|
  {
    if b == [] {
      assert a + b == a;
      assert FilterDocuments(w, a) + [] == FilterDocuments(w, a);
    } else {
      var last := b[|b| - 1];
      var c := b[..|b| - 1];
      assert b == c + [last];
      assert a + b == (a + c) + [last];
      FilterSnoc(w, a + c, last);
      FilterSnoc(w, c, last);
      FilterConcat(w, a, c);
    }
  }

  /** A listing whose documents all pass is kept whole. */
  lemma {:induction false} FilterKeepsAll(w: Window, docs: seq<Document>)
    requires forall k :: 0 <= k < |docs| ==> Keep(w, docs[k])
    ensures FilterDocuments(w, docs) == docs
    decreases |docs|
  {
    if docs != [] {
      assert docs == docs[..|docs| - 1] + [docs[|docs| - 1]];
      FilterKeepsAll(w, docs[..|docs| - 1]);
    }
  }

  /** The suffix test is case-sensitive and asks for no dot. */
  lemma SuffixExamples()
    ensures EndsWith("x_csv", "csv") && EndsWith("60_sced.csv", "csv")
    ensures !EndsWith("x.CSV", "csv") && !EndsWith("sced.zip", "csv") && !EndsWith("cs", "csv")
  {
    assert "x_csv"[2..] == "csv";
    assert "60_sced.csv"[8..] == "csv";
    assert "x.CSV"[2..] != "csv";
    assert "sced.zip"[5..] != "csv";
  }
}

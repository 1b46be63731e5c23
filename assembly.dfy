/**
 * The output rule of the run: each tenant's pages in the fixed document
 * order, filed under `<park>/<key> <godowns> - <date>.pdf`.
 */
module Assembly {
  import opened Common
  import opened Text
  import opened Attribution

  /** A page of the output: which bulk PDF it comes from and its index there. */
  datatype PageRef = PageRef(doc: DocType, index: nat)

  /** Where a tenant's file is written: the park directory and the file name. */
  datatype Path = Path(dir: String, file: String)

  /** The order `["statement", "invoice", "receipt", "water"]` of the writer loop. */
  const DocOrder: seq<DocType> := [Statement, Invoice, Receipt, Water]

  /** The position of a document type in `DocOrder`. */
  function Rank(d: DocType): (n: nat)
    ensures n < |DocOrder| && DocOrder[n] == d
  {
    match d
    case Statement => 0
    case Invoice => 1
    case Receipt => 2
    case Water => 3
  }

  /** The pages of one document type as output pages. */
  function Tagged(d: DocType, pages: seq<nat>): (r: seq<PageRef>)
    ensures |r| == |pages| && forall j :: 0 <= j < |pages| ==> r[j] == PageRef(d, pages[j])
  {
    seq(|pages|, j requires 0 <= j < |pages| => PageRef(d, pages[j]))
  }

  /** The pages of `r` for the document types `docs`, one type after another. */
  function PagesFor(r: Record, docs: seq<DocType>): seq<PageRef> {
    if docs == [] then []
    else PagesFor(r, docs[..|docs| - 1]) + Tagged(docs[|docs| - 1], r.Pages(docs[|docs| - 1]))
  }

  /** The pages of a tenant's output file, in writer order. */
  function OutputPages(r: Record): seq<PageRef> {
    PagesFor(r, DocOrder)
  }

  /** The pages of one document type in an output sequence. */
  function Only(ps: seq<PageRef>, d: DocType): seq<PageRef> {
    if ps == [] then []
    else Only(ps[..|ps| - 1], d) + (if ps[|ps| - 1].doc == d then [ps[|ps| - 1]] else [])
  }

  /** `docs.get("park", "UNKNOWN")`. */
  function ParkDir(r: Record): String {
    r.park.GetOr("UNKNOWN")
  }

  /** `f"{key} {godowns} - {date}.pdf"`, with `""` for missing metadata. */
  function FileName(key: String, r: Record): String {
    key + " " + r.godowns.GetOr("") + " - " + r.date.GetOr("") + ".pdf"
  }

  function PathOf(key: String, r: Record): Path {
    Path(ParkDir(r), FileName(key, r))
  }

  /**
   * The files after writing the first `n` tenants in insertion order; a
   * later tenant with the same path overwrites the earlier file.
   */
  function FilesUpTo(t: Table, n: nat): map<Path, seq<PageRef>>
    requires n <= |t.order|
  {
    if n == 0 then map[]
    else
      var key := t.order[n - 1];
      FilesUpTo(t, n - 1)[PathOf(key, t.Get(key)) := OutputPages(t.Get(key))]
  }

  /** The output directory after the writer loop over all tenants. */
  function Files(t: Table): map<Path, seq<PageRef>> {
    FilesUpTo(t, |t.order|)
  }

  // ---------------------------------------------------------------------
  // Page order
  // ---------------------------------------------------------------------

  /** Filtering distributes over concatenation. */
  lemma {:induction false} OnlyAppend(a: seq<PageRef>, b: seq<PageRef>, d: DocType)
    ensures Only(a + b, d) == Only(a, d) + Only(b, d)
    decreases |b|
  {
    if b == [] {
      assert a + b == a;
    } else {
      var b' := b[..|b| - 1];
      assert (a + b)[..|a + b| - 1] == a + b';
      OnlyAppend(a, b', d);
    }
  }

  /** The pages tagged `e` contain exactly those pages when filtered by `e`, and none otherwise. */
  lemma {:induction false} OnlyTagged(e: DocType, pages: seq<nat>, d: DocType)
    ensures Only(Tagged(e, pages), d) == if d == e then Tagged(e, pages) else []
    decreases |pages|
  {
    if pages != [] {
      var p' := pages[..|pages| - 1];
      assert Tagged(e, pages)[..|pages| - 1] == Tagged(e, p');
      OnlyTagged(e, p', d);
    }
  }

  /** Filtering the pages for `docs` by `d` gives `d`'s pages when `d` is listed once, none when absent. */
  lemma {:induction false} OnlyPagesFor(r: Record, docs: seq<DocType>, d: DocType)
    requires forall x, y :: 0 <= x < y < |docs| ==> docs[x] != docs[y]
    ensures Only(PagesFor(r, docs), d) == if d in docs then Tagged(d, r.Pages(d)) else []
    decreases |docs|
  {
    if docs != [] {
      var last := docs[|docs| - 1];
      var init := docs[..|docs| - 1];
      OnlyPagesFor(r, init, d);
      OnlyAppend(PagesFor(r, init), Tagged(last, r.Pages(last)), d);
      OnlyTagged(last, r.Pages(last), d);
      assert d in docs <==> d in init || d == last;
      if d == last {
        assert d !in init;
      }
    }
  }

  /** Each document type's pages appear in the output file exactly as stored. */
  lemma OutputKeepsPages(r: Record, d: DocType)
    ensures Only(OutputPages(r), d) == Tagged(d, r.Pages(d))
  {
    OnlyPagesFor(r, DocOrder, d);
  }

  /** The output file is the statement pages, then the invoice, receipt and water pages. */
  lemma OutputPagesSpelled(r: Record)
    ensures OutputPages(r) ==
      Tagged(Statement, r.statement) + Tagged(Invoice, r.invoice) + Tagged(Receipt, r.receipt) + Tagged(Water, r.water)
  {
    var d1, d2, d3 := [Statement], [Statement, Invoice], [Statement, Invoice, Receipt];
    assert d1[..0] == [] && d2[..1] == d1 && d3[..2] == d2 && DocOrder[..3] == d3;
    assert PagesFor(r, d1) == Tagged(Statement, r.statement);
    assert PagesFor(r, d2) == PagesFor(r, d1) + Tagged(Invoice, r.invoice);
    assert PagesFor(r, d3) == PagesFor(r, d2) + Tagged(Receipt, r.receipt);
    assert PagesFor(r, DocOrder) == PagesFor(r, d3) + Tagged(Water, r.water);
  }

  /** Pages of an earlier type in `docs` precede those of a later one. */
  lemma {:induction false} PagesForRanked(r: Record, docs: seq<DocType>)
    requires forall x, y :: 0 <= x < y < |docs| ==> Rank(docs[x]) < Rank(docs[y])
    ensures forall x :: 0 <= x < |PagesFor(r, docs)| ==> PagesFor(r, docs)[x].doc in docs
    ensures forall x, y :: 0 <= x < y < |PagesFor(r, docs)| ==> Rank(PagesFor(r, docs)[x].doc) <= Rank(PagesFor(r, docs)[y].doc)
    decreases |docs|
  {
    if docs != [] {
      var last := docs[|docs| - 1];
      var init := docs[..|docs| - 1];
      PagesForRanked(r, init);
      var a := PagesFor(r, init);
      var b := Tagged(last, r.Pages(last));
      var ps := PagesFor(r, docs);
      assert ps == a + b;
      forall x | 0 <= x < |a| ensures Rank(a[x].doc) < Rank(last) && a[x].doc in docs {
        assert a[x].doc in init;
        var i :| 0 <= i < |init| && init[i] == a[x].doc;
        assert init[i] == docs[i];
      }
      forall x, y | 0 <= x < y < |ps| ensures Rank(ps[x].doc) <= Rank(ps[y].doc) {
        if y < |a| {
          assert ps[x] == a[x] && ps[y] == a[y];
        } else if x < |a| {
          assert ps[x] == a[x] && ps[y] == b[y - |a|];
        } else {
          assert ps[x] == b[x - |a|] && ps[y] == b[y - |a|];
        }
      }
      forall x | 0 <= x < |ps| ensures ps[x].doc in docs {
        if x >= |a| {
          assert ps[x] == b[x - |a|];
        }
      }
    }
  }

  /** Statement pages come first, then invoice, then receipt, then water pages. */
  lemma OutputRanked(r: Record)
    ensures forall x, y :: 0 <= x < y < |OutputPages(r)| ==> Rank(OutputPages(r)[x].doc) <= Rank(OutputPages(r)[y].doc)
  {
    assert forall i :: 0 <= i < |DocOrder| ==> Rank(DocOrder[i]) == i;
    PagesForRanked(r, DocOrder);
  }

  // ---------------------------------------------------------------------
  // Files
  // ---------------------------------------------------------------------

  /** Without any metadata the file goes under `UNKNOWN` with empty godowns and date. */
  lemma FileNameDefaults(key: String, r: Record)
    requires r.park.None? && r.godowns.None? && r.date.None?
    ensures PathOf(key, r) == Path("UNKNOWN", key + "  - .pdf")
  {
  }

  /** The path of the `j`-th tenant in insertion order. */
  function PathAt(t: Table, j: nat): Path
    requires j < |t.order|
  {
    PathOf(t.order[j], t.Get(t.order[j]))
  }

  /** A path is written exactly when some tenant among the first `n` is filed under it. */
  lemma {:induction false} FilesDomain(t: Table, n: nat)
    requires n <= |t.order|
    ensures forall p :: p in FilesUpTo(t, n) <==> exists j :: 0 <= j < n && PathAt(t, j) == p
  {
    if n > 0 {
      FilesDomain(t, n - 1);
      assert FilesUpTo(t, n) == FilesUpTo(t, n - 1)[PathAt(t, n - 1) := OutputPages(t.Get(t.order[n - 1]))];
      forall p | p in FilesUpTo(t, n) ensures exists j :: 0 <= j < n && PathAt(t, j) == p {
        if p != PathAt(t, n - 1) {
          var j :| 0 <= j < n - 1 && PathAt(t, j) == p;
        }
      }
    }
  }

  /** A path holds the pages of the last tenant, in insertion order, filed under it. */
  lemma {:induction false} FilesLastWins(t: Table, n: nat, j: nat)
    requires j < n <= |t.order|
    requires forall j' :: j < j' < n ==> PathAt(t, j') != PathAt(t, j)
    ensures PathAt(t, j) in FilesUpTo(t, n)
    ensures FilesUpTo(t, n)[PathAt(t, j)] == OutputPages(t.Get(t.order[j]))
  {
    assert FilesUpTo(t, n) == FilesUpTo(t, n - 1)[PathAt(t, n - 1) := OutputPages(t.Get(t.order[n - 1]))];
    if j < n - 1 {
      FilesLastWins(t, n - 1, j);
    }
  }

  /**
   * Two tenants can collide: keys `ACME` with godowns `7 5` and `ACME 7`
   * with godowns `5` give the same file name, and the later overwrites the
   * earlier.
   */
  lemma PathCollision(a: Record, b: Record)
    requires a.godowns == Some("7 5") && b.godowns == Some("5")
    requires a.date == b.date && a.park == b.park
    ensures PathOf("ACME", a) == PathOf("ACME 7", b)
    ensures var t := Table(map["ACME" := a, "ACME 7" := b], ["ACME", "ACME 7"]);
      Files(t) == map[PathOf("ACME", a) := OutputPages(b)]
  {
    var d := a.date.GetOr("");
    assert FileName("ACME", a) == "ACME 7 5 - " + d + ".pdf";
    assert FileName("ACME 7", b) == "ACME 7 5 - " + d + ".pdf";
    var t := Table(map["ACME" := a, "ACME 7" := b], ["ACME", "ACME 7"]);
    assert "ACME" != "ACME 7";
    assert t.Get("ACME") == a && t.Get("ACME 7") == b;
    assert FilesUpTo(t, 1) == map[PathOf("ACME", a) := OutputPages(a)];
  }
}

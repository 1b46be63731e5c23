/**
 * The `tenants` aggregate as an object updated in place: the page loop of
 * `process_bulk_pdf`, the writer loop that assembles each tenant's file,
 * and the whole run over the uploaded documents.
 */
module Tenants {
  import opened Common
  import opened Text
  import opened Attribution
  import opened Assembly

  /** `defaultdict(lambda: defaultdict(list))`: the records and their insertion order. */
  class TenantTable {
    var records: map<String, Record>
    var order: seq<String>

    /** The aggregate as a value. */
    function Contents(): Table
      reads this
    {
      Table(records, order)
    }

    ghost predicate Valid()
      reads this
    {
      Contents().Valid()
    }

    /** `tenants[key]`, a blank record for a key not yet present. */
    function Lookup(key: String): Record
      reads this
    {
      Contents().Get(key)
    }

    /** An empty aggregate. */
    constructor()
      ensures Contents() == Table(map[], []) && Valid()
    {
      records := map[];
      order := [];
    }

    /** `tenants[key] = r`: a new key goes to the end of the insertion order. */
    method Store(key: String, r: Record)
      requires Valid()
      modifies this
      ensures Contents() == old(Contents()).Put(key, r)
      ensures Valid()
    {
      if key !in records {
        order := order + [key];
      }
      records := records[key := r];
    }

    /**
     * `process_bulk_pdf(file, doc_type, tenants)` over the pages of one
     * document, each given as what the extractors read off it. Returns the
     * error the loop raises, if any; the aggregate then holds what was
     * stored before it.
     */
    method ProcessBulkPdf(pages: seq<Reading>, doc: DocType) returns (failure: Option<Error>)
      requires Valid()
      modifies this
      ensures var p := PassOver(old(Contents()), doc, pages);
        Contents() == p.table && failure == p.failure
      ensures Valid()
    {
      ghost var start := Contents();
      var cursor: Option<String> := None;
      failure := None;
      var i := 0;
      while i < |pages| && failure.None?
        invariant i <= |pages|
        invariant RunPages(start, doc, pages, i) == Pass(Contents(), cursor, failure)
        invariant Valid()
      {
        var rd := pages[i];
        if rd.name.Err? {
          failure := Some(rd.name.error);
        } else {
          if Named(rd) {
            cursor := Some(rd.key);
            if doc == Statement {
              Store(rd.key, Lookup(rd.key).(park := Some(rd.park), godowns := Some(rd.godowns)));
              if rd.date.Err? {
                failure := Some(rd.date.error);
              } else {
                Store(rd.key, Lookup(rd.key).(date := Some(rd.date.value)));
              }
            }
          }
          if failure.None? && cursor.Some? && cursor.value != [] {
            Store(cursor.value, Lookup(cursor.value).Append(doc, i));
          }
        }
        i := i + 1;
      }
      if failure.Some? {
        RunFrozen(start, doc, pages, i, |pages|);
      }
      RunValid(start, doc, pages, |pages|);
    }

    /**
     * The writer loop: for each tenant in insertion order, the output file
     * at its path receives its pages; a later tenant at the same path
     * replaces the file.
     */
    method Export() returns (files: map<Path, seq<PageRef>>)
      ensures files == Files(Contents())
    {
      files := map[];
      var n := 0;
      while n < |order|
        invariant n <= |order|
        invariant files == FilesUpTo(Contents(), n)
      {
        var key := order[n];
        var docs := Lookup(key);
        var pages := CollectPages(docs);
        files := files[PathOf(key, docs) := pages];
        n := n + 1;
      }
    }
  }

  /**
   * `for doc in [...]: for p in docs.get(doc, []): writer.add_page(p)`:
   * the pages of one tenant's output file.
   */
  method CollectPages(r: Record) returns (pages: seq<PageRef>)
    ensures pages == OutputPages(r)
  {
    pages := [];
    var j := 0;
    while j < |DocOrder|
      invariant j <= |DocOrder|
      invariant pages == PagesFor(r, DocOrder[..j])
    {
      var d := DocOrder[j];
      var ps := r.Pages(d);
      var m := 0;
      while m < |ps|
        invariant m <= |ps|
        invariant pages == PagesFor(r, DocOrder[..j]) + Tagged(d, ps[..m])
      {
        pages := pages + [PageRef(d, ps[m])];
        m := m + 1;
      }
      assert ps[..m] == ps;
      assert DocOrder[..j + 1][..j] == DocOrder[..j];
      j := j + 1;
    }
    assert DocOrder[..j] == DocOrder;
  }

  /** The pages of the uploaded documents as read; the water bills are optional. */
  datatype Upload = Upload(
    statements: seq<Reading>, invoices: seq<Reading>, receipts: seq<Reading>, water: Option<seq<Reading>>)
  {
    /** Every named page of every document has a non-empty key. */
    predicate WellRead() {
      && AllWellRead(statements) && AllWellRead(invoices) && AllWellRead(receipts)
      && (water.Some? ==> AllWellRead(water.value))
    }
  }

  /** The readings of the uploaded page texts. */
  function ReadUpload(statements: seq<String>, invoices: seq<String>, receipts: seq<String>,
                      water: Option<seq<String>>): Upload
  {
    Upload(ReadAll(statements), ReadAll(invoices), ReadAll(receipts),
      if water.Some? then Some(ReadAll(water.value)) else None)
  }

  /**
   * The aggregate after the passes of a run: statements, invoices and
   * receipts, then water bills when that document was given; the first
   * error stops the run.
   */
  function Passes(u: Upload): Result<Table> {
    var p1 := PassOver(Table(map[], []), Statement, u.statements);
    if p1.failure.Some? then Err(p1.failure.value) else
    var p2 := PassOver(p1.table, Invoice, u.invoices);
    if p2.failure.Some? then Err(p2.failure.value) else
    var p3 := PassOver(p2.table, Receipt, u.receipts);
    if p3.failure.Some? then Err(p3.failure.value) else
    if u.water.None? then Ok(p3.table) else
    var p4 := PassOver(p3.table, Water, u.water.value);
    if p4.failure.Some? then Err(p4.failure.value) else Ok(p4.table)
  }

  function Aggregate(statements: seq<String>, invoices: seq<String>, receipts: seq<String>,
                     water: Option<seq<String>>): Result<Table>
  {
    Passes(ReadUpload(statements, invoices, receipts, water))
  }

  /** The output of a run: the files written, or the error that stopped it. */
  function Output(statements: seq<String>, invoices: seq<String>, receipts: seq<String>,
                  water: Option<seq<String>>): Result<map<Path, seq<PageRef>>>
  {
    match Aggregate(statements, invoices, receipts, water)
    case Err(e) => Err(e)
    case Ok(t) => Ok(Files(t))
  }

  /**
   * The "Process PDFs" run: the passes over the uploaded documents, then
   * the writer loop. An error raised by a pass ends the run without output.
   */
  method SplitTenants(statements: seq<String>, invoices: seq<String>, receipts: seq<String>,
                      water: Option<seq<String>>) returns (result: Result<map<Path, seq<PageRef>>>)
    ensures result == Output(statements, invoices, receipts, water)
  {
    var tenants := new TenantTable();
    var failure := tenants.ProcessBulkPdf(ReadAll(statements), Statement);
    if failure.Some? {
      return Err(failure.value);
    }
    failure := tenants.ProcessBulkPdf(ReadAll(invoices), Invoice);
    if failure.Some? {
      return Err(failure.value);
    }
    failure := tenants.ProcessBulkPdf(ReadAll(receipts), Receipt);
    if failure.Some? {
      return Err(failure.value);
    }
    if water.Some? {
      failure := tenants.ProcessBulkPdf(ReadAll(water.value), Water);
      if failure.Some? {
        return Err(failure.value);
      }
    }
    var files := tenants.Export();
    return Ok(files);
  }

  // ---------------------------------------------------------------------
  // Facts about a run
  // ---------------------------------------------------------------------

  /** The uploaded pages are well read. */
  lemma ReadUploadWell(statements: seq<String>, invoices: seq<String>, receipts: seq<String>,
                       water: Option<seq<String>>)
    ensures ReadUpload(statements, invoices, receipts, water).WellRead()
  {
    ReadAllWell(statements);
    ReadAllWell(invoices);
    ReadAllWell(receipts);
    if water.Some? {
      ReadAllWell(water.value);
    }
  }

  /** A run ends without error exactly when no page of any pass raises. */
  lemma PassesOk(u: Upload)
    ensures Passes(u).Ok? <==>
      && (forall j :: 0 <= j < |u.statements| ==> !PageFails(Statement, u.statements[j]))
      && (forall j :: 0 <= j < |u.invoices| ==> !PageFails(Invoice, u.invoices[j]))
      && (forall j :: 0 <= j < |u.receipts| ==> !PageFails(Receipt, u.receipts[j]))
      && (u.water.Some? ==> forall j :: 0 <= j < |u.water.value| ==> !PageFails(Water, u.water.value[j]))
  {
    var p1 := PassOver(Table(map[], []), Statement, u.statements);
    RunFailure(Table(map[], []), Statement, u.statements, |u.statements|);
    var p2 := PassOver(p1.table, Invoice, u.invoices);
    RunFailure(p1.table, Invoice, u.invoices, |u.invoices|);
    var p3 := PassOver(p2.table, Receipt, u.receipts);
    RunFailure(p2.table, Receipt, u.receipts, |u.receipts|);
    if u.water.Some? {
      RunFailure(p3.table, Water, u.water.value, |u.water.value|);
    }
  }

  /** A successful run leaves a well-formed aggregate. */
  lemma PassesValid(u: Upload)
    requires Passes(u).Ok?
    ensures Passes(u).value.Valid()
  {
    var p1 := PassOver(Table(map[], []), Statement, u.statements);
    RunValid(Table(map[], []), Statement, u.statements, |u.statements|);
    var p2 := PassOver(p1.table, Invoice, u.invoices);
    RunValid(p1.table, Invoice, u.invoices, |u.invoices|);
    var p3 := PassOver(p2.table, Receipt, u.receipts);
    RunValid(p2.table, Receipt, u.receipts, |u.receipts|);
    if u.water.Some? {
      RunValid(p3.table, Water, u.water.value, |u.water.value|);
    }
  }

  /** The pages a pass attributes to `k`. */
  function PassPagesOf(rds: seq<Reading>, k: String): seq<nat> {
    Attributed(rds, k, |rds|)
  }

  /** A pass without error adds the pages it attributes to `k` to `k`'s `doc` list and to no other list. */
  lemma PassAdds(start: Table, doc: DocType, rds: seq<Reading>, k: String)
    requires AllWellRead(rds) && PassOver(start, doc, rds).failure.None?
    ensures var r, r' := start.Get(k), PassOver(start, doc, rds).table.Get(k);
      && r'.Pages(doc) == r.Pages(doc) + PassPagesOf(rds, k)
      && forall d :: d != doc ==> r'.Pages(d) == r.Pages(d)
  {
    RunPagesOf(start, doc, rds, |rds|);
  }

  /**
   * After a run without error, each tenant holds the statement, invoice,
   * receipt and water pages attributed to its key in the respective pass,
   * and no water pages when no water document was given.
   */
  lemma PassesPages(u: Upload, k: String)
    requires u.WellRead() && Passes(u).Ok?
    ensures var r := Passes(u).value.Get(k);
      && r.statement == PassPagesOf(u.statements, k)
      && r.invoice == PassPagesOf(u.invoices, k)
      && r.receipt == PassPagesOf(u.receipts, k)
      && r.water == if u.water.Some? then PassPagesOf(u.water.value, k) else []
  {
    var t0 := Table(map[], []);
    var p1 := PassOver(t0, Statement, u.statements);
    PassAdds(t0, Statement, u.statements, k);
    var p2 := PassOver(p1.table, Invoice, u.invoices);
    PassAdds(p1.table, Invoice, u.invoices, k);
    var p3 := PassOver(p2.table, Receipt, u.receipts);
    PassAdds(p2.table, Receipt, u.receipts, k);
    var r0, r1, r2, r3 := t0.Get(k), p1.table.Get(k), p2.table.Get(k), p3.table.Get(k);
    assert r0 == Blank;
    assert r1.Pages(Invoice) == [] && r1.Pages(Receipt) == [] && r1.Pages(Water) == [];
    assert r2.Pages(Statement) == r1.Pages(Statement) && r2.Pages(Receipt) == [] && r2.Pages(Water) == [];
    assert r3.Pages(Statement) == r2.Pages(Statement) && r3.Pages(Invoice) == r2.Pages(Invoice);
    assert r3.Pages(Water) == [];
    if u.water.Some? {
      PassAdds(p3.table, Water, u.water.value, k);
      var r4 := PassOver(p3.table, Water, u.water.value).table.Get(k);
      assert r4.Pages(Statement) == r3.Pages(Statement) && r4.Pages(Invoice) == r3.Pages(Invoice);
      assert r4.Pages(Receipt) == r3.Pages(Receipt);
    }
  }

  /** A pass over a document other than the statements leaves all metadata alone. */
  lemma PassKeepsMeta(start: Table, doc: DocType, rds: seq<Reading>, k: String)
    requires doc != Statement && PassOver(start, doc, rds).failure.None?
    ensures MetaOf(PassOver(start, doc, rds).table.Get(k)) == MetaOf(start.Get(k))
  {
    RunMeta(start, doc, rds, |rds|, k);
  }

  /**
   * After a run without error, a tenant's park, godowns and date come from
   * the last statement page naming it; a tenant no statement page names
   * has none of them.
   */
  lemma PassesMeta(u: Upload, k: String)
    requires Passes(u).Ok?
    ensures var rds := u.statements;
      MetaOf(Passes(u).value.Get(k)) ==
        if LastNamed(rds, k, |rds|).Some? then PageMeta(rds[LastNamed(rds, k, |rds|).value])
        else Meta(None, None, None)
  {
    var t0 := Table(map[], []);
    var p1 := PassOver(t0, Statement, u.statements);
    RunMeta(t0, Statement, u.statements, |u.statements|, k);
    var p2 := PassOver(p1.table, Invoice, u.invoices);
    PassKeepsMeta(p1.table, Invoice, u.invoices, k);
    var p3 := PassOver(p2.table, Receipt, u.receipts);
    PassKeepsMeta(p2.table, Receipt, u.receipts, k);
    if u.water.Some? {
      PassKeepsMeta(p3.table, Water, u.water.value, k);
    }
  }

  /** Some page of `rds` names `k`. */
  predicate NamesKey(rds: seq<Reading>, k: String) {
    exists j :: 0 <= j < |rds| && KeyOf(rds[j]) == Some(k)
  }

  /** The last naming page exists exactly when some page names the key. */
  lemma LastNamedExists(rds: seq<Reading>, k: String)
    ensures LastNamed(rds, k, |rds|).Some? <==> NamesKey(rds, k)
  {
    if LastNamed(rds, k, |rds|).Some? {
      assert KeyOf(rds[LastNamed(rds, k, |rds|).value]) == Some(k);
    }
  }

  /** After a run without error, the tenants are exactly the keys some page of some document names. */
  lemma PassesKeys(u: Upload, k: String)
    requires u.WellRead() && Passes(u).Ok?
    ensures k in Passes(u).value.records <==>
      || NamesKey(u.statements, k) || NamesKey(u.invoices, k) || NamesKey(u.receipts, k)
      || (u.water.Some? && NamesKey(u.water.value, k))
  {
    var t0 := Table(map[], []);
    var p1 := PassOver(t0, Statement, u.statements);
    RunKeys(t0, Statement, u.statements, |u.statements|);
    LastNamedExists(u.statements, k);
    var p2 := PassOver(p1.table, Invoice, u.invoices);
    RunKeys(p1.table, Invoice, u.invoices, |u.invoices|);
    LastNamedExists(u.invoices, k);
    var p3 := PassOver(p2.table, Receipt, u.receipts);
    RunKeys(p2.table, Receipt, u.receipts, |u.receipts|);
    LastNamedExists(u.receipts, k);
    if u.water.Some? {
      RunKeys(p3.table, Water, u.water.value, |u.water.value|);
      LastNamedExists(u.water.value, k);
    }
  }

  /**
   * A tenant no statement page names is filed under `UNKNOWN`, with empty
   * godowns and date in its file name.
   */
  lemma UnnamedInStatements(u: Upload, k: String)
    requires Passes(u).Ok? && !NamesKey(u.statements, k)
    ensures PathOf(k, Passes(u).value.Get(k)) == Path("UNKNOWN", k + "  - .pdf")
  {
    PassesMeta(u, k);
    LastNamedExists(u.statements, k);
    FileNameDefaults(k, Passes(u).value.Get(k));
  }

  /**
   * The file written for the `j`-th tenant in insertion order, when no
   * later tenant shares its path: its statement pages, then its invoice,
   * receipt and water pages, as the passes attributed them.
   */
  lemma TenantFile(u: Upload, j: nat)
    requires u.WellRead() && Passes(u).Ok?
    requires j < |Passes(u).value.order|
    requires forall j' :: j < j' < |Passes(u).value.order| ==> PathAt(Passes(u).value, j') != PathAt(Passes(u).value, j)
    ensures var t := Passes(u).value; var k := t.order[j];
      && PathAt(t, j) in Files(t)
      && Files(t)[PathAt(t, j)] ==
        Tagged(Statement, PassPagesOf(u.statements, k)) + Tagged(Invoice, PassPagesOf(u.invoices, k))
        + Tagged(Receipt, PassPagesOf(u.receipts, k))
        + Tagged(Water, if u.water.Some? then PassPagesOf(u.water.value, k) else [])
  {
    var t := Passes(u).value;
    FilesLastWins(t, |t.order|, j);
    OutputPagesSpelled(t.Get(t.order[j]));
    PassesPages(u, t.order[j]);
  }
}

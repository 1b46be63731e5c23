/**
 * The page-to-tenant attribution of `process_bulk_pdf`, stated as pure
 * functions over the aggregate: one step per page, and the run over the
 * first `n` pages of a document. The class in `tenants.dfy` performs the
 * same run in place and is proved equal to it.
 */
module Attribution {
  import opened Common
  import opened Text
  import Keys
  import Park
  import Godowns
  import Dates
  import Names

  /** The `doc_type` argument: which bulk PDF is being read. */
  datatype DocType = Statement | Invoice | Receipt | Water

  /**
   * One tenant's entry in `tenants`: the page indices appended per document
   * type and the metadata keys, each present only once a statement page
   * has set it.
   */
  datatype Record = Record(
    statement: seq<nat>, invoice: seq<nat>, receipt: seq<nat>, water: seq<nat>,
    park: Option<String>, godowns: Option<String>, date: Option<String>)
  {
    /** `docs.get(doc, [])`. */
    function Pages(d: DocType): seq<nat> {
      match d
      case Statement => statement
      case Invoice => invoice
      case Receipt => receipt
      case Water => water
    }

    /** `tenants[key][doc_type].append(i)`. */
    function Append(d: DocType, i: nat): (r: Record)
      ensures r.Pages(d) == Pages(d) + [i]
      ensures forall e :: e != d ==> r.Pages(e) == Pages(e)
      ensures r.park == park && r.godowns == godowns && r.date == date
    {
      match d
      case Statement => this.(statement := statement + [i])
      case Invoice => this.(invoice := invoice + [i])
      case Receipt => this.(receipt := receipt + [i])
      case Water => this.(water := water + [i])
    }
  }

  /** The record `defaultdict` creates on first access. */
  const Blank: Record := Record([], [], [], [], None, None, None)

  /** The `tenants` dict: its entries and the order in which keys were inserted. */
  datatype Table = Table(records: map<String, Record>, order: seq<String>)
  {
    /** The insertion order lists every key once. */
    ghost predicate Valid() {
      && (forall k :: k in records <==> k in order)
      && forall i, j :: 0 <= i < j < |order| ==> order[i] != order[j]
    }

    /** `tenants[key]`, with a blank record for a key not yet inserted. */
    function Get(key: String): Record {
      if key in records then records[key] else Blank
    }

    /**
     * `tenants[key] = r` through the `defaultdict`: a new key is inserted at
     * the end of the order, an existing one keeps its place.
     */
    function Put(key: String, r: Record): (t: Table)
      ensures Valid() ==> t.Valid()
      ensures forall k :: t.Get(k) == if k == key then r else Get(k)
      ensures forall k :: k in t.records <==> k == key || k in records
      ensures order <= t.order
    {
      if key in records then Table(records[key := r], order)
      else Table(records[key := r], order + [key])
    }
  }

  /**
   * What the extractors read off one page: the tenant name (or the error
   * raised while finding it), the key built from it, and the statement
   * metadata. Python calls the metadata extractors only when they are
   * needed; they are pure and total, so reading them up front changes
   * nothing.
   */
  datatype Reading = Reading(
    name: Result<Option<String>>, key: String, park: String, godowns: String, date: Result<String>)

  /** The readings of one page's text. */
  function Read(text: String): Reading {
    var name := Names.ExtractTenantName(text);
    var raw := if name.Ok? && name.value.Some? then name.value.value else [];
    Reading(name, Keys.FirstTwoWords(raw), Park.ExtractPark(text),
      Godowns.ExtractGodowns(text, raw), Dates.ExtractMonthYear(text))
  }

  /** The readings of every page of a document. */
  function ReadAll(texts: seq<String>): (rs: seq<Reading>)
    ensures |rs| == |texts| && forall i :: 0 <= i < |texts| ==> rs[i] == Read(texts[i])
  {
    seq(|texts|, i requires 0 <= i < |texts| => Read(texts[i]))
  }

  /** The page carries a name (`if raw:`). */
  predicate Named(rd: Reading) {
    rd.name.Ok? && rd.name.value.Some? && rd.name.value.value != []
  }

  /** A named page's key is non-empty. */
  predicate WellRead(rd: Reading) {
    Named(rd) ==> rd.key != []
  }

  /** The state carried from page to page: the aggregate, `current_key`, and a raised error. */
  datatype Pass = Pass(table: Table, cursor: Option<String>, failure: Option<Error>)

  /** Append page `i` to the tenant under the cursor (`if current_key:`). */
  function Attach(t: Table, cursor: Option<String>, doc: DocType, i: nat): Table {
    if cursor.Some? && cursor.value != [] then t.Put(cursor.value, t.Get(cursor.value).Append(doc, i))
    else t
  }

  /**
   * One iteration of the page loop. A name that raises stops the pass; a
   * non-empty name moves the cursor and, in the statement pass, stores
   * `park` and `godowns` and then `date`, whose error stops the pass after
   * the first two are stored; finally the page goes to the cursor's tenant.
   */
  function Step(p: Pass, doc: DocType, rd: Reading, i: nat): Pass
    requires p.failure.None?
  {
    if rd.name.Err? then p.(failure := Some(rd.name.error))
    else if Named(rd) then
      var key := rd.key;
      if doc == Statement then
        var t := p.table.Put(key, p.table.Get(key).(park := Some(rd.park), godowns := Some(rd.godowns)));
        if rd.date.Err? then Pass(t, Some(key), Some(rd.date.error))
        else Pass(Attach(t.Put(key, t.Get(key).(date := Some(rd.date.value))), Some(key), doc, i), Some(key), None)
      else Pass(Attach(p.table, Some(key), doc, i), Some(key), None)
    else Pass(Attach(p.table, p.cursor, doc, i), p.cursor, None)
  }

  /** The pass over the first `n` pages, starting from `start` with no current key. */
  function RunPages(start: Table, doc: DocType, rds: seq<Reading>, n: nat): Pass
    requires n <= |rds|
  {
    if n == 0 then Pass(start, None, None)
    else
      var p := RunPages(start, doc, rds, n - 1);
      if p.failure.Some? then p else Step(p, doc, rds[n - 1], n - 1)
  }

  /** A whole pass over the pages of one document. */
  function PassOver(start: Table, doc: DocType, rds: seq<Reading>): Pass {
    RunPages(start, doc, rds, |rds|)
  }

  // ---------------------------------------------------------------------
  // Reference definitions, in terms of the pages alone
  // ---------------------------------------------------------------------

  /** The key a page names, if any. */
  function KeyOf(rd: Reading): Option<String> {
    if Named(rd) then Some(rd.key) else None
  }

  /** The date a page parses to, if it parses. */
  function DateOf(rd: Reading): Option<String> {
    if rd.date.Ok? then Some(rd.date.value) else None
  }

  /** The statement metadata of a record: `park`, `godowns` and `date`. */
  datatype Meta = Meta(park: Option<String>, godowns: Option<String>, date: Option<String>)

  function MetaOf(r: Record): Meta {
    Meta(r.park, r.godowns, r.date)
  }

  /** The metadata a statement page stores. */
  function PageMeta(rd: Reading): Meta {
    Meta(Some(rd.park), Some(rd.godowns), DateOf(rd))
  }

  /**
   * The metadata of `k` after the first `n` pages: the last statement page
   * naming it wins, otherwise it is what `start` holds.
   */
  function MetaAfter(start: Table, doc: DocType, rds: seq<Reading>, n: nat, k: String): Meta
    requires n <= |rds|
  {
    if doc == Statement && LastNamed(rds, k, n).Some? then PageMeta(rds[LastNamed(rds, k, n).value])
    else MetaOf(start.Get(k))
  }

  /** A page on which the pass raises. */
  predicate PageFails(doc: DocType, rd: Reading) {
    rd.name.Err? || (doc == Statement && Named(rd) && rd.date.Err?)
  }

  /** The most recently named key after the first `n` pages. */
  function CursorAt(rds: seq<Reading>, n: nat): Option<String>
    requires n <= |rds|
  {
    if n == 0 then None
    else if KeyOf(rds[n - 1]).Some? then KeyOf(rds[n - 1])
    else CursorAt(rds, n - 1)
  }

  /** The pages among the first `n` whose most recent name is `k`, in page order. */
  function Attributed(rds: seq<Reading>, k: String, n: nat): seq<nat>
    requires n <= |rds|
  {
    if n == 0 then []
    else Attributed(rds, k, n - 1) + (if CursorAt(rds, n) == Some(k) then [n - 1] else [])
  }

  /** The last of the first `n` pages that names `k`. */
  function LastNamed(rds: seq<Reading>, k: String, n: nat): (r: Option<nat>)
    requires n <= |rds|
    ensures r.Some? ==> r.value < n && KeyOf(rds[r.value]) == Some(k)
    ensures r.Some? ==> forall j :: r.value < j < n ==> KeyOf(rds[j]) != Some(k)
    ensures r.None? ==> forall j :: 0 <= j < n ==> KeyOf(rds[j]) != Some(k)
  {
    if n == 0 then None
    else if KeyOf(rds[n - 1]) == Some(k) then Some(n - 1)
    else LastNamed(rds, k, n - 1)
  }

  // ---------------------------------------------------------------------
  // Facts about one page
  // ---------------------------------------------------------------------

  /** A named page's key is never empty: the name is stripped and non-empty. */
  lemma ReadWell(text: String)
    ensures WellRead(Read(text))
  {
    var rd := Read(text);
    if Named(rd) {
      Names.TenantNameShape(text);
      Keys.KeyNonEmpty(rd.name.value.value, 0);
    }
  }

  /** Every page's key is non-empty when the page is named. */
  predicate AllWellRead(rds: seq<Reading>) {
    forall j :: 0 <= j < |rds| ==> WellRead(rds[j])
  }

  /** The readings of a document are well-formed. */
  lemma ReadAllWell(texts: seq<String>)
    ensures AllWellRead(ReadAll(texts))
  {
    forall j | 0 <= j < |texts| ensures WellRead(ReadAll(texts)[j]) {
      ReadWell(texts[j]);
    }
  }

  /** The step fails exactly on a failing page. */
  lemma StepFailure(p: Pass, doc: DocType, rd: Reading, i: nat)
    requires p.failure.None?
    ensures Step(p, doc, rd, i).failure.Some? <==> PageFails(doc, rd)
  {
  }

  /** A successful step moves the cursor to the page's key, if it has one. */
  lemma StepCursor(p: Pass, doc: DocType, rd: Reading, i: nat)
    requires p.failure.None? && !PageFails(doc, rd)
    ensures Step(p, doc, rd, i).cursor == if KeyOf(rd).Some? then KeyOf(rd) else p.cursor
  {
  }

  /**
   * A successful step appends page `i` to the `doc` list of the new
   * cursor's tenant and changes no other list.
   */
  lemma StepPages(p: Pass, doc: DocType, rd: Reading, i: nat)
    requires p.failure.None? && !PageFails(doc, rd) && WellRead(rd)
    requires p.cursor.Some? ==> p.cursor.value != []
    ensures var q := Step(p, doc, rd, i);
      forall k, d :: q.table.Get(k).Pages(d) ==
        p.table.Get(k).Pages(d) + (if d == doc && q.cursor == Some(k) then [i] else [])
  {
  }

  /**
   * A successful step writes `park`, `godowns` and `date` of the named key,
   * in the statement pass only, and no other metadata.
   */
  lemma StepMeta(p: Pass, doc: DocType, rd: Reading, i: nat, k: String)
    requires p.failure.None? && !PageFails(doc, rd)
    ensures MetaOf(Step(p, doc, rd, i).table.Get(k)) ==
      if doc == Statement && KeyOf(rd) == Some(k) then PageMeta(rd) else MetaOf(p.table.Get(k))
  {
  }

  /** A step keeps the aggregate well-formed. */
  lemma StepValid(p: Pass, doc: DocType, rd: Reading, i: nat)
    requires p.failure.None? && p.table.Valid()
    ensures Step(p, doc, rd, i).table.Valid()
  {
  }

  /** A step only appends to the insertion order. */
  lemma StepOrder(p: Pass, doc: DocType, rd: Reading, i: nat)
    requires p.failure.None?
    ensures p.table.order <= Step(p, doc, rd, i).table.order
  {
  }

  /** A successful step inserts exactly the page's key, if any, and keeps the cursor's tenant present. */
  lemma StepKeys(p: Pass, doc: DocType, rd: Reading, i: nat)
    requires p.failure.None? && !PageFails(doc, rd) && WellRead(rd)
    requires p.cursor.Some? ==> p.cursor.value != [] && p.cursor.value in p.table.records
    ensures var q := Step(p, doc, rd, i);
      && (forall k :: k in q.table.records <==> k in p.table.records || KeyOf(rd) == Some(k))
      && (q.cursor.Some? ==> q.cursor.value != [] && q.cursor.value in q.table.records)
  {
  }

  // ---------------------------------------------------------------------
  // Facts about a pass
  // ---------------------------------------------------------------------

  /** Once a page fails, the pass stops: later pages change nothing. */
  lemma {:induction false} RunFrozen(start: Table, doc: DocType, rds: seq<Reading>, j: nat, n: nat)
    requires j <= n <= |rds|
    requires RunPages(start, doc, rds, j).failure.Some?
    ensures RunPages(start, doc, rds, n) == RunPages(start, doc, rds, j)
    decreases n
  {
    if n > j {
      RunFrozen(start, doc, rds, j, n - 1);
    }
  }

  /** A pass fails exactly when one of its pages fails. */
  lemma {:induction false} RunFailure(start: Table, doc: DocType, rds: seq<Reading>, n: nat)
    requires n <= |rds|
    ensures RunPages(start, doc, rds, n).failure.None? <==> forall j :: 0 <= j < n ==> !PageFails(doc, rds[j])
  {
    if n > 0 {
      RunFailure(start, doc, rds, n - 1);
      var p := RunPages(start, doc, rds, n - 1);
      if p.failure.None? {
        StepFailure(p, doc, rds[n - 1], n - 1);
      }
    }
  }

  /** The aggregate stays well-formed, whether or not the pass fails. */
  lemma {:induction false} RunValid(start: Table, doc: DocType, rds: seq<Reading>, n: nat)
    requires n <= |rds| && start.Valid()
    ensures RunPages(start, doc, rds, n).table.Valid()
  {
    if n > 0 {
      RunValid(start, doc, rds, n - 1);
      var p := RunPages(start, doc, rds, n - 1);
      if p.failure.None? {
        StepValid(p, doc, rds[n - 1], n - 1);
      }
    }
  }

  /** Keys already in the aggregate keep their places at the front of the insertion order. */
  lemma {:induction false} RunOrder(start: Table, doc: DocType, rds: seq<Reading>, n: nat)
    requires n <= |rds|
    ensures start.order <= RunPages(start, doc, rds, n).table.order
  {
    if n > 0 {
      RunOrder(start, doc, rds, n - 1);
      var p := RunPages(start, doc, rds, n - 1);
      if p.failure.None? {
        StepOrder(p, doc, rds[n - 1], n - 1);
        PrefixTrans(start.order, p.table.order, RunPages(start, doc, rds, n).table.order);
      }
    }
  }

  lemma PrefixTrans(a: seq<String>, b: seq<String>, c: seq<String>)
    requires a <= b && b <= c
    ensures a <= c
  {
    assert c[..|a|] == b[..|a|];
  }

  /** Without failure, the cursor is the most recently named key. */
  lemma {:induction false} RunCursor(start: Table, doc: DocType, rds: seq<Reading>, n: nat)
    requires n <= |rds| && RunPages(start, doc, rds, n).failure.None?
    ensures RunPages(start, doc, rds, n).cursor == CursorAt(rds, n)
  {
    if n > 0 {
      var p := RunPages(start, doc, rds, n - 1);
      RunCursor(start, doc, rds, n - 1);
      StepFailure(p, doc, rds[n - 1], n - 1);
      StepCursor(p, doc, rds[n - 1], n - 1);
    }
  }

  /** The most recent key, when there is one, is non-empty. */
  lemma {:induction false} CursorNonEmpty(rds: seq<Reading>, n: nat)
    requires n <= |rds| && AllWellRead(rds)
    ensures CursorAt(rds, n).Some? ==> CursorAt(rds, n).value != []
  {
    if n > 0 {
      CursorNonEmpty(rds, n - 1);
    }
  }

  /**
   * Without failure, each tenant's `doc` list grows by exactly the pages
   * attributed to it, in page order, and its other lists are unchanged.
   */
  lemma {:induction false} RunPagesOf(start: Table, doc: DocType, rds: seq<Reading>, n: nat)
    requires n <= |rds| && AllWellRead(rds) && RunPages(start, doc, rds, n).failure.None?
    ensures var t := RunPages(start, doc, rds, n).table;
      forall k, d :: t.Get(k).Pages(d) ==
        start.Get(k).Pages(d) + (if d == doc then Attributed(rds, k, n) else [])
  {
    if n > 0 {
      var p := RunPages(start, doc, rds, n - 1);
      StepFailure(p, doc, rds[n - 1], n - 1);
      RunPagesOf(start, doc, rds, n - 1);
      RunCursor(start, doc, rds, n - 1);
      RunCursor(start, doc, rds, n);
      CursorNonEmpty(rds, n - 1);
      StepPages(p, doc, rds[n - 1], n - 1);
      PagesCombine(start.Get, p.table.Get, RunPages(start, doc, rds, n).table.Get, doc, rds, n);
    }
  }

  /** One more page extends the attributed lists by the page, for its most recent key. */
  lemma PagesCombine(
    start: String -> Record, before: String -> Record, after: String -> Record,
    doc: DocType, rds: seq<Reading>, n: nat)
    requires 0 < n <= |rds|
    requires forall k, d ::
      before(k).Pages(d) == start(k).Pages(d) + (if d == doc then Attributed(rds, k, n - 1) else [])
    requires forall k, d ::
      after(k).Pages(d) == before(k).Pages(d) + (if d == doc && CursorAt(rds, n) == Some(k) then [n - 1] else [])
    ensures forall k, d ::
      after(k).Pages(d) == start(k).Pages(d) + (if d == doc then Attributed(rds, k, n) else [])
  {
    forall k, d ensures after(k).Pages(d) ==
      start(k).Pages(d) + (if d == doc then Attributed(rds, k, n) else [])
    {
      if d == doc {
        var extra := if CursorAt(rds, n) == Some(k) then [n - 1] else [];
        assert Attributed(rds, k, n) == Attributed(rds, k, n - 1) + extra;
      }
    }
  }

  /**
   * Without failure, the metadata of a key comes from the last statement
   * page naming it (last wins), or is what it was before; passes other than
   * the statement pass leave all metadata alone.
   */
  lemma {:induction false} RunMeta(start: Table, doc: DocType, rds: seq<Reading>, n: nat, k: String)
    requires n <= |rds| && RunPages(start, doc, rds, n).failure.None?
    ensures MetaOf(RunPages(start, doc, rds, n).table.Get(k)) == MetaAfter(start, doc, rds, n, k)
  {
    if n > 0 {
      var p := RunPages(start, doc, rds, n - 1);
      StepFailure(p, doc, rds[n - 1], n - 1);
      assert RunPages(start, doc, rds, n) == Step(p, doc, rds[n - 1], n - 1);
      RunMeta(start, doc, rds, n - 1, k);
      StepMeta(p, doc, rds[n - 1], n - 1, k);
    }
  }

  /**
   * Without failure, the keys after the pass are the keys before it and
   * the keys the pages name; the earlier insertion order is kept.
   */
  lemma {:induction false} RunKeys(start: Table, doc: DocType, rds: seq<Reading>, n: nat)
    requires n <= |rds| && AllWellRead(rds) && RunPages(start, doc, rds, n).failure.None?
    ensures var q := RunPages(start, doc, rds, n);
      && (forall k :: k in q.table.records <==> k in start.records || LastNamed(rds, k, n).Some?)
      && (q.cursor.Some? ==> q.cursor.value != [] && q.cursor.value in q.table.records)
  {
    if n > 0 {
      var p := RunPages(start, doc, rds, n - 1);
      StepFailure(p, doc, rds[n - 1], n - 1);
      RunKeys(start, doc, rds, n - 1);
      StepKeys(p, doc, rds[n - 1], n - 1);
    }
  }

  /** Page `i` is attributed to `k` exactly when `k` is the most recent key at page `i`. */
  lemma {:induction false} AttributedMember(rds: seq<Reading>, k: String, n: nat, i: nat)
    requires n <= |rds|
    ensures i in Attributed(rds, k, n) <==> i < n && CursorAt(rds, i + 1) == Some(k)
  {
    if n > 0 {
      AttributedMember(rds, k, n - 1, i);
    }
  }

  /** Attributed pages are in increasing page order. */
  lemma {:induction false} AttributedIncreasing(rds: seq<Reading>, k: String, n: nat)
    requires n <= |rds|
    ensures forall x, y :: 0 <= x < y < |Attributed(rds, k, n)| ==> Attributed(rds, k, n)[x] < Attributed(rds, k, n)[y]
  {
    if n > 0 {
      AttributedIncreasing(rds, k, n - 1);
      var a := Attributed(rds, k, n - 1);
      var a' := Attributed(rds, k, n);
      forall x | 0 <= x < |a| ensures a[x] < n - 1 && a'[x] == a[x] {
        AttributedMember(rds, k, n - 1, a[x]);
      }
      forall x, y | 0 <= x < y < |a'| ensures a'[x] < a'[y] {
        if y < |a| {
          assert a[x] < a[y];
        } else {
          assert a'[y] == n - 1;
        }
      }
    }
  }

  /** There is no current key at page `i` exactly when no page up to `i` names one. */
  lemma {:induction false} CursorNone(rds: seq<Reading>, n: nat)
    requires n <= |rds|
    ensures CursorAt(rds, n).None? <==> forall j :: 0 <= j < n ==> KeyOf(rds[j]).None?
  {
    if n > 0 {
      CursorNone(rds, n - 1);
    }
  }

  /** Page `i` goes to `k` exactly when `k` is the most recent key at page `i`. */
  lemma AttributedOwner(rds: seq<Reading>, n: nat, i: nat)
    requires i < n <= |rds|
    ensures forall k :: i in Attributed(rds, k, n) <==> CursorAt(rds, i + 1) == Some(k)
  {
    forall k ensures i in Attributed(rds, k, n) <==> CursorAt(rds, i + 1) == Some(k) {
      AttributedMember(rds, k, n, i);
    }
  }

  /**
   * Pages before the first named page go nowhere; every later page goes to
   * exactly one tenant, the most recently named one.
   */
  lemma Unattributed(rds: seq<Reading>, n: nat, i: nat)
    requires i < n <= |rds|
    ensures (forall j :: 0 <= j <= i ==> KeyOf(rds[j]).None?) <==> forall k :: i !in Attributed(rds, k, n)
    ensures forall k, k' :: i in Attributed(rds, k, n) && i in Attributed(rds, k', n) ==> k == k'
  {
    AttributedOwner(rds, n, i);
    CursorNone(rds, i + 1);
    if CursorAt(rds, i + 1).Some? {
      assert i in Attributed(rds, CursorAt(rds, i + 1).value, n);
    }
  }
}

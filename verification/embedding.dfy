/** The indexing side of the pipeline (`embedding.py`): one point per page
    that has text, the page's text followed by its tables as the text both
    vectors embed, and a batched upsert into the vector collection. */
module Embedding {
  import opened Wrappers
  import opened Seqs
  import opened Text
  import opened Values
  import opened PyRepr
  import opened Tables
  import opened Extraction

  const CollectionName := "nsechatbot-rag-sparse_dense"
  const DenseName := "bge-small-en"
  const DenseModel := "BAAI/bge-small-en"
  const DenseSize := 384
  const SparseName := "bm25"
  const SparseModel := "Qdrant/bm25"
  const BatchSize := 100

  // ------------------------------------------------------------ collection

  datatype Distance = Cosine
  datatype Modifier = Idf
  datatype DenseParams = DenseParams(size: nat, distance: Distance)
  datatype SparseParams = SparseParams(modifier: Modifier)
  datatype Config = Config(dense: map<string, DenseParams>, sparse: map<string, SparseParams>)

  /** A payload index's schema. */
  datatype Schema = Keyword | DateTime

  /** Text to be embedded by the named model. */
  datatype Document = Document(text: string, model: string)

  datatype Point = Point(id: string, vector: map<string, Document>, payload: Record)

  /** A collection: its vector configuration, payload indexes and points keyed by id. */
  datatype Collection = Collection(config: Config, indexes: map<string, Schema>, points: seq<(string, Point)>)

  /** The vector store: collections by name. */
  type Store = map<string, Collection>

  const NewConfig := Config(map[DenseName := DenseParams(DenseSize, Cosine)], map[SparseName := SparseParams(Idf)])

  /** `createCollection`: creates the collection when absent and reports success either way. */
  function CreateCollection(st: Store): (r: (Store, bool))
    ensures r.1
    ensures CollectionName in r.0 && r.0.Keys == st.Keys + {CollectionName}
    ensures CollectionName in st ==> r.0[CollectionName] == st[CollectionName]
    ensures CollectionName !in st ==> r.0[CollectionName].points == [] && r.0[CollectionName].indexes == map[]
    ensures CollectionName !in st ==> r.0[CollectionName].config == NewConfig
    ensures r.0[CollectionName].config.dense == if CollectionName in st then st[CollectionName].config.dense
                                               else map[DenseName := DenseParams(384, Cosine)]
    ensures forall n :: n in st && n != CollectionName ==> r.0[n] == st[n]
  {
    if CollectionName in st then (st, true)
    else (st[CollectionName := Collection(NewConfig, map[], [])], true)
  }

  /** Creating the collection a second time changes nothing. */
  lemma CreateCollectionIdempotent(st: Store)
    ensures CreateCollection(CreateCollection(st).0) == CreateCollection(st)
  {
  }

  // ------------------------------------------------------------- page text

  /** `str(item)` for every row of a table, one row per line. */
  function RowsText(rows: seq<seq<string>>): string
  {
    Join("\n", seq(|rows|, i requires 0 <= i < |rows| => RowRepr(rows[i])))
  }

  /** A table's text block: its rows, then a blank line. */
  function TableText(t: Table): string
  {
    RowsText(t.content) + "\n\n"
  }

  function TablesText(ts: seq<Table>): string
  {
    FlatMap(ts, TableText)
  }

  /** The text a point embeds and stores: the page text, a newline, the table blocks. */
  function DocText(p: Page): string
  {
    p.pageText + "\n" + TablesText(p.tables)
  }

  function Contents(ts: seq<Table>): seq<seq<seq<string>>>
  {
    seq(|ts|, i requires 0 <= i < |ts| => ts[i].content)
  }

  /** Reads rows, each a `str()` of a list, separated by newlines and ended by a blank line. */
  function DecodeRowsFrom(t: string): (r: Option<(seq<seq<string>>, string)>)
    ensures r.Some? ==> |r.value.1| < |t|
    decreases |t|
  {
    DecodeRowShrinks(t);
    match DecodeRow(t)
    case None => None
    case Some((row, after)) =>
      if |after| >= 2 && after[..2] == "\n\n" then Some(([row], after[2..]))
      else if |after| >= 1 && after[0] == '\n' then
        match DecodeRowsFrom(after[1..])
        case None => None
        case Some((rows, rest)) => Some(([row] + rows, rest))
      else None
  }

  /** Reads one table block; a table without rows is a bare blank line. */
  function DecodeBlock(t: string): (r: Option<(seq<seq<string>>, string)>)
    ensures r.Some? ==> |r.value.1| < |t|
  {
    if |t| >= 2 && t[..2] == "\n\n" then Some(([], t[2..])) else DecodeRowsFrom(t)
  }

  /** Reads consecutive table blocks to the end of the text. */
  function DecodeTables(t: string): Option<seq<seq<seq<string>>>>
    decreases |t|
  {
    if |t| == 0 then Some([])
    else match DecodeBlock(t)
      case None => None
      case Some((rows, rest)) =>
        match DecodeTables(rest)
        case None => None
        case Some(more) => Some([rows] + more)
  }

  /** `"\n".join` of the rows, one row at a time. */
  lemma RowsTextUnfold(rows: seq<seq<string>>)
    requires |rows| > 0
    ensures |rows| == 1 ==> RowsText(rows) == RowRepr(rows[0])
    ensures |rows| > 1 ==> RowsText(rows) == RowRepr(rows[0]) + "\n" + RowsText(rows[1..])
    ensures |RowsText(rows)| > 0 && RowsText(rows)[0] == '['
  {
    var reprs := seq(|rows|, i requires 0 <= i < |rows| => RowRepr(rows[i]));
    assert reprs[1..] == seq(|rows[1..]|, i requires 0 <= i < |rows[1..]| => RowRepr(rows[1..][i]));
    assert reprs[0] == RowRepr(rows[0]);
  }

  lemma RowsFromLast(t: string, row: seq<string>, rest: string)
    requires DecodeRow(t) == Some((row, "\n\n" + rest))
    ensures DecodeRowsFrom(t) == Some(([row], rest))
  {
    assert ("\n\n" + rest)[..2] == "\n\n";
    assert ("\n\n" + rest)[2..] == rest;
  }

  lemma RowsFromNext(t: string, row: seq<string>, after: string, rows: seq<seq<string>>, rest: string)
    requires DecodeRow(t) == Some((row, after))
    requires |after| >= 2 && after[0] == '\n' && after[1] == '['
    requires DecodeRowsFrom(after[1..]) == Some((rows, rest))
    ensures DecodeRowsFrom(t) == Some(([row] + rows, rest))
  {
    assert after[..2] != "\n\n";
  }

  /** The text of two or more rows, then the blank line and `rest`: the first
      row, a newline, and the text of the other rows followed by the same. */
  lemma RowsTextCons(rows: seq<seq<string>>, rest: string)
    requires |rows| > 1
    ensures var tail := RowsText(rows[1..]) + "\n\n" + rest;
      && RowsText(rows) + "\n\n" + rest == RowRepr(rows[0]) + ("\n" + tail)
      && |tail| > 0 && tail[0] == '['
  {
    var more := RowsText(rows[1..]);
    RowsTextUnfold(rows);
    RowsTextUnfold(rows[1..]);
    Regroup5(RowRepr(rows[0]), "\n", more, "\n\n", rest);
    assert (more + "\n\n" + rest)[0] == more[0];
  }

  lemma {:induction false} RowsRoundTrip(rows: seq<seq<string>>, rest: string)
    requires |rows| > 0
    ensures DecodeRowsFrom(RowsText(rows) + "\n\n" + rest) == Some((rows, rest))
  {
    if |rows| == 1 {
      OneRowRoundTrip(rows, rest);
    } else {
      RowsRoundTrip(rows[1..], rest);
      RowsRoundTripStep(rows, rest);
    }
  }

  lemma OneRowRoundTrip(rows: seq<seq<string>>, rest: string)
    requires |rows| == 1
    ensures DecodeRowsFrom(RowsText(rows) + "\n\n" + rest) == Some((rows, rest))
  {
    var t := RowsText(rows) + "\n\n" + rest;
    RowsTextUnfold(rows);
    assert t == RowRepr(rows[0]) + ("\n\n" + rest);
    RowRoundTrip(rows[0], "\n\n" + rest);
    RowsFromLast(t, rows[0], rest);
    assert rows == [rows[0]];
  }

  /** The first row reads back in front of whatever the other rows read back as. */
  lemma RowsRoundTripStep(rows: seq<seq<string>>, rest: string)
    requires |rows| > 1
    requires DecodeRowsFrom(RowsText(rows[1..]) + "\n\n" + rest) == Some((rows[1..], rest))
    ensures DecodeRowsFrom(RowsText(rows) + "\n\n" + rest) == Some((rows, rest))
  {
    var t := RowsText(rows) + "\n\n" + rest;
    var tail := RowsText(rows[1..]) + "\n\n" + rest;
    RowsTextCons(rows, rest);
    RowRoundTrip(rows[0], "\n" + tail);
    assert ("\n" + tail)[1..] == tail;
    RowsFromNext(t, rows[0], "\n" + tail, rows[1..], rest);
    assert [rows[0]] + rows[1..] == rows;
  }

  /** A table block reads back as the table's rows (its id is not part of the text). */
  lemma TableRoundTrip(t: Table, rest: string)
    ensures DecodeBlock(TableText(t) + rest) == Some((t.content, rest))
  {
    var s := TableText(t) + rest;
    if |t.content| == 0 {
      assert s == "\n\n" + rest;
      assert s[2..] == rest;
    } else {
      RowsRoundTrip(t.content, rest);
      RowsTextUnfold(t.content);
      assert s[0] == '[';
    }
  }

  /** The table blocks of a page read back as the tables' rows, in order. */
  lemma {:induction false} TablesRoundTrip(ts: seq<Table>)
    ensures DecodeTables(TablesText(ts)) == Some(Contents(ts))
  {
    if |ts| > 0 {
      var rest := TablesText(ts[1..]);
      var t := TablesText(ts);
      assert t == TableText(ts[0]) + rest;
      TableRoundTrip(ts[0], rest);
      assert |t| >= 2;
      TablesRoundTrip(ts[1..]);
      assert DecodeTables(t) == Some([ts[0].content] + Contents(ts[1..]));
      assert Contents(ts) == [ts[0].content] + Contents(ts[1..]);
      assert Contents(ts) == [ts[0].content] + Contents(ts[1..]);
    } else {
      assert TablesText(ts) == "";
      assert Contents(ts) == [];
    }
  }

  /** A point's text is the page text, a newline, and text that reads back as the page's tables. */
  lemma DocTextDecodes(p: Page)
    ensures var d := DocText(p);
      && |d| > |p.pageText|
      && d[..|p.pageText|] == p.pageText
      && d[|p.pageText|] == '\n'
      && DecodeTables(d[|p.pageText| + 1..]) == Some(Contents(p.tables))
  {
    var d := DocText(p);
    assert d[|p.pageText| + 1..] == TablesText(p.tables);
    TablesRoundTrip(p.tables);
  }

  // ---------------------------------------------------------------- points

  /** A page of one file of one circular, with the circular's payload. */
  datatype Slot = Slot(base: Record, file: string, page: Page)

  /** What a point is made of before it gets its id. */
  datatype Unit = Unit(payload: Record, text: string)

  /** `page.get("page_text")` is truthy. */
  predicate HasText(s: Slot)
  {
    |s.page.pageText| > 0
  }

  /** The circular's fields other than `documents`. */
  function PayloadBase(c: Circular): Record
  {
    Base(c.meta)
  }

  function PagePayload(base: Record, p: Page): (r: Record)
    ensures r.Keys == base.Keys + {"page_number", "content"}
    ensures r["page_number"] == Int(p.pageNumber) && r["content"] == Str(DocText(p))
    ensures forall k :: k in base && k != "page_number" && k != "content" ==> r[k] == base[k]
  {
    base["page_number" := Int(p.pageNumber)]["content" := Str(DocText(p))]
  }

  function UnitOf(s: Slot): Unit
  {
    Unit(PagePayload(s.base, s.page), DocText(s.page))
  }

  // The four nested loops of `createPoints`, circular by circular.

  function PageUnits(base: Record, pages: seq<Page>): seq<Unit>
  {
    if |pages| == 0 then []
    else (if |pages[0].pageText| > 0 then [Unit(PagePayload(base, pages[0]), DocText(pages[0]))] else [])
         + PageUnits(base, pages[1..])
  }

  function EntryUnits(base: Record, e: DocEntry): seq<Unit>
  {
    if |e| == 0 then [] else PageUnits(base, e[0].1) + EntryUnits(base, e[1..])
  }

  function DocUnits(base: Record, docs: seq<DocEntry>): seq<Unit>
  {
    if |docs| == 0 then [] else EntryUnits(base, docs[0]) + DocUnits(base, docs[1..])
  }

  function CircularUnits(cs: seq<Circular>): seq<Unit>
  {
    if |cs| == 0 then [] else DocUnits(PayloadBase(cs[0]), cs[0].documents) + CircularUnits(cs[1..])
  }

  // Every page of every file of every circular, in file order.

  function FileSlots(base: Record, file: string, pages: seq<Page>): (r: seq<Slot>)
    ensures |r| == |pages|
    ensures forall i :: 0 <= i < |r| ==> r[i] == Slot(base, file, pages[i])
  {
    seq(|pages|, i requires 0 <= i < |pages| => Slot(base, file, pages[i]))
  }

  function EntrySlots(base: Record, e: DocEntry): seq<Slot>
  {
    if |e| == 0 then [] else FileSlots(base, e[0].0, e[0].1) + EntrySlots(base, e[1..])
  }

  function DocSlots(base: Record, docs: seq<DocEntry>): seq<Slot>
  {
    if |docs| == 0 then [] else EntrySlots(base, docs[0]) + DocSlots(base, docs[1..])
  }

  function AllSlots(cs: seq<Circular>): seq<Slot>
  {
    if |cs| == 0 then [] else DocSlots(PayloadBase(cs[0]), cs[0].documents) + AllSlots(cs[1..])
  }

  /** The pages with text, each turned into a point's parts, in order. */
  function UnitsOf(slots: seq<Slot>): (r: seq<Unit>)
    ensures |r| == |Filter(slots, HasText)|
  {
    Map(Filter(slots, HasText), UnitOf)
  }

  lemma UnitsOfAppend(a: seq<Slot>, b: seq<Slot>)
    ensures UnitsOf(a + b) == UnitsOf(a) + UnitsOf(b)
  {
    FilterAppend(a, b, HasText);
    MapAppend(Filter(a, HasText), Filter(b, HasText), UnitOf);
  }

  /** The units of a non-empty slot list: its first slot's, then the rest's. */
  lemma UnitsOfCons(s: seq<Slot>)
    requires |s| > 0
    ensures UnitsOf(s) == (if HasText(s[0]) then [UnitOf(s[0])] else []) + UnitsOf(s[1..])
  {
    var rest := Filter(s[1..], HasText);
    if HasText(s[0]) {
      assert Filter(s, HasText) == [s[0]] + rest;
      MapAppend([s[0]], rest, UnitOf);
    } else {
      assert Filter(s, HasText) == rest;
    }
  }

  lemma {:induction false} PageUnitsAreSlots(base: Record, file: string, pages: seq<Page>)
    ensures PageUnits(base, pages) == UnitsOf(FileSlots(base, file, pages))
  {
    var s := FileSlots(base, file, pages);
    if |pages| > 0 {
      PageUnitsAreSlots(base, file, pages[1..]);
      assert s[1..] == FileSlots(base, file, pages[1..]);
      UnitsOfCons(s);
    } else {
      assert s == [];
    }
  }

  lemma {:induction false} EntryUnitsAreSlots(base: Record, e: DocEntry)
    ensures EntryUnits(base, e) == UnitsOf(EntrySlots(base, e))
  {
    if |e| > 0 {
      EntryUnitsAreSlots(base, e[1..]);
      PageUnitsAreSlots(base, e[0].0, e[0].1);
      UnitsOfAppend(FileSlots(base, e[0].0, e[0].1), EntrySlots(base, e[1..]));
    }
  }

  lemma {:induction false} DocUnitsAreSlots(base: Record, docs: seq<DocEntry>)
    ensures DocUnits(base, docs) == UnitsOf(DocSlots(base, docs))
  {
    if |docs| > 0 {
      DocUnitsAreSlots(base, docs[1..]);
      EntryUnitsAreSlots(base, docs[0]);
      UnitsOfAppend(EntrySlots(base, docs[0]), DocSlots(base, docs[1..]));
    }
  }

  /** The nested loops make exactly one point per page with text, in file order. */
  lemma {:induction false} CircularUnitsAreSlots(cs: seq<Circular>)
    ensures CircularUnits(cs) == UnitsOf(AllSlots(cs))
  {
    if |cs| > 0 {
      CircularUnitsAreSlots(cs[1..]);
      DocUnitsAreSlots(PayloadBase(cs[0]), cs[0].documents);
      UnitsOfAppend(DocSlots(PayloadBase(cs[0]), cs[0].documents), AllSlots(cs[1..]));
    }
  }

  /** Both named vectors embed the same text, each with its own model. */
  function MakePoint(id: string, u: Unit): (p: Point)
    ensures p.vector.Keys == {DenseName, SparseName}
    ensures p.vector[DenseName].text == p.vector[SparseName].text == u.text
    ensures p.vector[DenseName].model == DenseModel && p.vector[SparseName].model == SparseModel
  {
    Point(id, map[DenseName := Document(u.text, DenseModel), SparseName := Document(u.text, SparseModel)], u.payload)
  }

  /** `createPoints`; `uuid(i)` stands for the `i`-th `uuid4().hex` drawn. */
  function CreatePoints(cs: seq<Circular>, uuid: nat -> string): seq<Point>
  {
    var us := CircularUnits(cs);
    seq(|us|, i requires 0 <= i < |us| => MakePoint(uuid(i), us[i]))
  }

  /** The `i`-th point is the `i`-th page with text: it stores that page's
      text, with its tables, as its content and embeds it under both vectors. */
  lemma CreatePointsSpec(cs: seq<Circular>, uuid: nat -> string)
    ensures var pts := CreatePoints(cs, uuid);
            var kept := Filter(AllSlots(cs), HasText);
      && |pts| == |kept|
      && forall i :: 0 <= i < |pts| ==>
           && pts[i].id == uuid(i)
           && |kept[i].page.pageText| > 0
           && pts[i].payload == PagePayload(kept[i].base, kept[i].page)
           && pts[i].vector.Keys == {DenseName, SparseName}
           && pts[i].vector[DenseName].text == DocText(kept[i].page)
           && pts[i].vector[SparseName].text == DocText(kept[i].page)
  {
    CircularUnitsAreSlots(cs);
  }

  // ---------------------------------------------------------------- upsert

  /** Upserting points one after another: an existing id is overwritten in place, a new one appended. */
  function Upsert(d: seq<(string, Point)>, ps: seq<Point>): seq<(string, Point)>
  {
    if |ps| == 0 then d else Put(Upsert(d, ps[..|ps| - 1]), ps[|ps| - 1].id, ps[|ps| - 1])
  }

  lemma {:induction false} UpsertAppend(d: seq<(string, Point)>, a: seq<Point>, b: seq<Point>)
    ensures Upsert(Upsert(d, a), b) == Upsert(d, a + b)
  {
    if |b| > 0 {
      UpsertAppend(d, a, b[..|b| - 1]);
      assert (a + b)[..|a + b| - 1] == a + b[..|b| - 1];
    } else {
      assert a + b == a;
    }
  }

  /** The last point of `ps` with id `k`. */
  function LastWithId(ps: seq<Point>, k: string): Option<Point>
  {
    if |ps| == 0 then None
    else if ps[|ps| - 1].id == k then Some(ps[|ps| - 1])
    else LastWithId(ps[..|ps| - 1], k)
  }

  /** After an upsert each id finds the last point sent with it, or what was stored before. */
  lemma {:induction false} UpsertFinds(d: seq<(string, Point)>, ps: seq<Point>, k: string)
    requires DistinctKeys(d)
    ensures DistinctKeys(Upsert(d, ps))
    ensures Lookup(Upsert(d, ps), k) == match LastWithId(ps, k)
                                         case Some(p) => Some(p)
                                         case None => Lookup(d, k)
  {
    if |ps| > 0 {
      var last := ps[|ps| - 1];
      UpsertFinds(d, ps[..|ps| - 1], k);
      PutSpec(Upsert(d, ps[..|ps| - 1]), last.id, last);
    }
  }

  /** `points[start:start + 100]` for `start` in `range(0, len(points), 100)`. */
  function Batches(ps: seq<Point>): (bs: seq<seq<Point>>)
    ensures Flatten(bs) == ps
    ensures |bs| == (|ps| + BatchSize - 1) / BatchSize
    ensures forall j :: 0 <= j < |bs| ==> 0 < |bs[j]| <= BatchSize
    ensures forall j :: 0 <= j < |bs| - 1 ==> |bs[j]| == BatchSize
    decreases |ps|
  {
    if |ps| == 0 then []
    else if |ps| <= BatchSize then [ps]
    else
      var rest := Batches(ps[BatchSize..]);
      assert ps == ps[..BatchSize] + ps[BatchSize..];
      [ps[..BatchSize]] + rest
  }

  function UpsertBatches(d: seq<(string, Point)>, bs: seq<seq<Point>>): seq<(string, Point)>
    decreases |bs|
  {
    if |bs| == 0 then d else UpsertBatches(Upsert(d, bs[0]), bs[1..])
  }

  /** Sending the points in batches stores the same as sending them all at once. */
  lemma {:induction false} UpsertBatchesFlatten(d: seq<(string, Point)>, bs: seq<seq<Point>>)
    ensures UpsertBatches(d, bs) == Upsert(d, Flatten(bs))
    decreases |bs|
  {
    if |bs| > 0 {
      UpsertBatchesFlatten(Upsert(d, bs[0]), bs[1..]);
      UpsertAppend(d, bs[0], Flatten(bs[1..]));
    }
  }

  /** The two payload indexes `upsertPoints` declares. */
  function WithIndexes(c: Collection): (r: Collection)
    ensures r.indexes.Keys == c.indexes.Keys + {"circDepartment", "cirDisplayDate"}
    ensures r.indexes["circDepartment"] == Keyword && r.indexes["cirDisplayDate"] == DateTime
    ensures r.config == c.config && r.points == c.points
  {
    c.(indexes := c.indexes["circDepartment" := Keyword]["cirDisplayDate" := DateTime])
  }

  /** `upsertPoints`: the indexes, then the points a hundred at a time. The
      store is the state after Qdrant has applied every batch, in order. */
  method UpsertPoints(c: Collection, ps: seq<Point>) returns (r: Collection)
    ensures r.config == c.config && r.indexes == WithIndexes(c).indexes
    ensures r.points == Upsert(c.points, ps)
    ensures r.points == UpsertBatches(c.points, Batches(ps))
  {
    r := WithIndexes(c);
    var start := 0;
    while start < |ps|
      invariant 0 <= start <= |ps|
      invariant r.config == c.config && r.indexes == WithIndexes(c).indexes
      invariant r.points == Upsert(c.points, ps[..start])
      decreases |ps| - start
    {
      var stop := if start + BatchSize < |ps| then start + BatchSize else |ps|;
      var batch := ps[start..stop];
      UpsertAppend(c.points, ps[..start], batch);
      PrefixThenSlice(ps, start, stop);
      r := r.(points := Upsert(r.points, batch));
      start := stop;
    }
    assert ps[..|ps|] == ps;
    UpsertBatchesFlatten(c.points, Batches(ps));
  }

  /** `embedData`: make sure the collection exists, build the points, upsert them. */
  method EmbedData(st: Store, cs: seq<Circular>, uuid: nat -> string) returns (st': Store, pts: seq<Point>)
    ensures pts == CreatePoints(cs, uuid)
    ensures CollectionName in st' && st'.Keys == st.Keys + {CollectionName}
    ensures forall n :: n in st && n != CollectionName ==> st'[n] == st[n]
    ensures CollectionName !in st ==> st'[CollectionName].points == Upsert([], pts)
    ensures CollectionName in st ==> st'[CollectionName].points == Upsert(st[CollectionName].points, pts)
    ensures st'[CollectionName].config == if CollectionName in st then st[CollectionName].config else NewConfig
    ensures st'[CollectionName].indexes
         == (if CollectionName in st then st[CollectionName].indexes else map[])["circDepartment" := Keyword]["cirDisplayDate" := DateTime]
  {
    // `createCollection` always reports success, so the early
    // "Collection could not be created" return is never taken.
    var created := CreateCollection(st);
    pts := CreatePoints(cs, uuid);
    var c := UpsertPoints(created.0[CollectionName], pts);
    st' := created.0[CollectionName := c];
  }

  /** With distinct ids, every page with text can be found by its point's id
      after the upsert, whatever the collection held before. */
  lemma EmbedFindsEveryPage(d: seq<(string, Point)>, cs: seq<Circular>, uuid: nat -> string, i: nat)
    requires DistinctKeys(d)
    requires forall a, b :: 0 <= a < b < |CreatePoints(cs, uuid)| ==> uuid(a) != uuid(b)
    requires i < |CreatePoints(cs, uuid)|
    ensures Lookup(Upsert(d, CreatePoints(cs, uuid)), uuid(i)) == Some(CreatePoints(cs, uuid)[i])
  {
    var pts := CreatePoints(cs, uuid);
    assert forall a :: 0 <= a < |pts| ==> pts[a].id == uuid(a);
    UpsertFinds(d, pts, uuid(i));
    LastWithIdDistinct(pts, i);
  }

  /** Points already stored under an id that no new point uses are left as they were. */
  lemma EmbedKeepsOtherPoints(d: seq<(string, Point)>, cs: seq<Circular>, uuid: nat -> string, k: string)
    requires DistinctKeys(d)
    requires forall a :: 0 <= a < |CreatePoints(cs, uuid)| ==> uuid(a) != k
    ensures Lookup(Upsert(d, CreatePoints(cs, uuid)), k) == Lookup(d, k)
  {
    var pts := CreatePoints(cs, uuid);
    assert forall a :: 0 <= a < |pts| ==> pts[a].id == uuid(a);
    UpsertFinds(d, pts, k);
    LastWithIdAbsent(pts, k);
  }

  lemma {:induction false} LastWithIdAbsent(ps: seq<Point>, k: string)
    requires forall a :: 0 <= a < |ps| ==> ps[a].id != k
    ensures LastWithId(ps, k) == None
  {
    if |ps| > 0 {
      LastWithIdAbsent(ps[..|ps| - 1], k);
    }
  }

  lemma {:induction false} LastWithIdDistinct(ps: seq<Point>, i: nat)
    requires forall a, b :: 0 <= a < b < |ps| ==> ps[a].id != ps[b].id
    requires i < |ps|
    ensures LastWithId(ps, ps[i].id) == Some(ps[i])
  {
    if i < |ps| - 1 {
      LastWithIdDistinct(ps[..|ps| - 1], i);
    }
  }
}

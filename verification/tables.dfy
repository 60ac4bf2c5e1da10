/** `getTables` and `generate_table_id`: the tables of one page, the first one
    skipped on page 1, each cell cleaned, each table keyed by a digest of
    the circular's department, number and category, the table's index and
    the page number. The digest (MD5 in the source) is a parameter. */
module Tables {
  import opened Wrappers
  import opened Text
  import opened Values
  import opened Layout

  /** U+00B7 MIDDLE DOT, removed from every cell. */
  const MiddleDot: char := '\U{B7}'

  /** A table as pdfplumber finds it: its box and its cells, `None` for an empty cell. */
  datatype RawTable = RawTable(bbox: BBox, cells: seq<seq<Option<string>>>)

  /** The `{'table_id': ..., 'content': ...}` dict. */
  datatype Table = Table(tableId: string, content: seq<seq<string>>)

  /** `s.replace(a, b)` for single characters. */
  function ReplaceChar(s: string, a: char, b: char): (r: string)
    ensures |r| == |s|
    ensures a != b ==> CountChar(a, r) == 0
    ensures CountChar(b, r) == CountChar(b, s) + (if a == b then 0 else CountChar(a, s))
    ensures forall d :: d != a && d != b ==> CountChar(d, r) == CountChar(d, s)
  {
    if |s| == 0 then "" else [if s[0] == a then b else s[0]] + ReplaceChar(s[1..], a, b)
  }

  /** `s.replace(c, "")` */
  function RemoveChar(s: string, c: char): (r: string)
    ensures |r| == |s| - CountChar(c, s)
    ensures CountChar(c, r) == 0
    ensures forall d :: d != c ==> CountChar(d, r) == CountChar(d, s)
  {
    if |s| == 0 then ""
    else if s[0] == c then RemoveChar(s[1..], c)
    else [s[0]] + RemoveChar(s[1..], c)
  }

  /** `cell.replace("\n", " ").replace("·", "") if cell else ""`. An empty cell
      is falsy but cleans to `""` either way. */
  function CleanCell(cell: Option<string>): (r: string)
    ensures CountChar('\n', r) == 0 && CountChar(MiddleDot, r) == 0
    ensures cell.Some? ==> CountChar(' ', r) == CountChar(' ', cell.value) + CountChar('\n', cell.value)
    ensures cell.Some? ==> forall d :: d != '\n' && d != ' ' && d != MiddleDot ==>
                             CountChar(d, r) == CountChar(d, cell.value)
    ensures cell.None? ==> r == ""
  {
    match cell
    case None => ""
    case Some(s) => RemoveChar(ReplaceChar(s, '\n', ' '), MiddleDot)
  }

  lemma {:induction false} NoCountIdentity(s: string, a: char, b: char, c: char)
    requires CountChar(a, s) == 0 && CountChar(c, s) == 0
    ensures ReplaceChar(s, a, b) == s && RemoveChar(s, c) == s
  {
    if |s| > 0 {
      NoCountIdentity(s[1..], a, b, c);
    }
  }

  /** Cleaning a clean cell changes nothing. */
  lemma CleanCellIdempotent(cell: Option<string>)
    ensures CleanCell(Some(CleanCell(cell))) == CleanCell(cell)
  {
    var r := CleanCell(cell);
    NoCountIdentity(r, '\n', ' ', MiddleDot);
  }

  /** The cleaned grid: same rows, same row lengths, every cell cleaned. */
  function CleanGrid(cells: seq<seq<Option<string>>>): (r: seq<seq<string>>)
    ensures |r| == |cells|
    ensures forall i :: 0 <= i < |r| ==> |r[i]| == |cells[i]|
    ensures forall i, j :: 0 <= i < |r| && 0 <= j < |r[i]| ==> r[i][j] == CleanCell(cells[i][j])
  {
    seq(|cells|, i requires 0 <= i < |cells| =>
      seq(|cells[i]|, j requires 0 <= j < |cells[i]| => CleanCell(cells[i][j])))
  }

  /** The first three fields of the table-id string, each rendered by `str()`;
      a `KeyError` when one is missing. */
  function KeyPrefix(meta: Record): (r: Result<string>)
    ensures r.Ok? <==> "fileDept" in meta && "circNumber" in meta && "circCategory" in meta
  {
    var dept :- Field(meta, "fileDept");
    var num :- Field(meta, "circNumber");
    var cat :- Field(meta, "circCategory");
    Ok(PyStr(dept) + "-" + PyStr(num) + "-" + PyStr(cat))
  }

  /** The string `generate_table_id` hashes. */
  function TableKey(prefix: string, index: nat, page: nat): string
  {
    prefix + "-" + NatToString(index) + "-" + NatToString(page)
  }

  lemma {:induction false} DigitsDashSplit(a: string, b: string, c: string, d: string)
    requires AllDigits(a) && AllDigits(c)
    requires a + "-" + b == c + "-" + d
    ensures a == c && b == d
  {
    var x, y := a + "-" + b, c + "-" + d;
    if |a| == 0 {
      assert x[0] == '-';
      assert x[1..] == b;
    } else {
      assert x[0] == a[0];
      assert x[1..] == a[1..] + "-" + b;
      assert y[1..] == c[1..] + "-" + d;
      DigitsDashSplit(a[1..], b, c[1..], d);
      assert a == [a[0]] + a[1..] && c == [c[0]] + c[1..];
    }
  }

  /** Within one circular, the key determines the table index and the page. */
  lemma TableKeyInjective(prefix: string, i: nat, p: nat, j: nat, q: nat)
    requires TableKey(prefix, i, p) == TableKey(prefix, j, q)
    ensures i == j && p == q
  {
    var l := prefix + "-";
    assert TableKey(prefix, i, p) == l + (NatToString(i) + "-" + NatToString(p));
    assert TableKey(prefix, j, q) == l + (NatToString(j) + "-" + NatToString(q));
    assert NatToString(i) + "-" + NatToString(p) == TableKey(prefix, i, p)[|l|..];
    DigitsDashSplit(NatToString(i), NatToString(p), NatToString(j), NatToString(q));
    NatToStringInjective(i, j);
    NatToStringInjective(p, q);
  }

  /** Index of the first table kept: page 1 drops its first table. */
  function FirstKept(page: nat): nat
  {
    if page > 1 then 0 else 1
  }

  /** `getTables` on one page. */
  function GetTables(meta: Record, page: nat, raw: seq<RawTable>, digest: string -> string): (r: Result<seq<Table>>)
    ensures r.Ok? <==> |raw| <= FirstKept(page) || KeyPrefix(meta).Ok?
    ensures r.Err? ==> r.error.MissingKey?
    ensures r.Ok? ==> |r.value| == if page > 1 then |raw| else if |raw| == 0 then 0 else |raw| - 1
  {
    var start := FirstKept(page);
    if |raw| <= start then Ok([])
    else
      var prefix :- KeyPrefix(meta);
      Ok(seq(|raw| - start, k requires 0 <= k < |raw| - start =>
        Table(digest(TableKey(prefix, k + start, page)), CleanGrid(raw[k + start].cells))))
  }

  /** Kept table `k` is raw table `k + FirstKept(page)`: its cells cleaned, its
      id the digest of the key naming its original index. */
  lemma GetTablesAlign(meta: Record, page: nat, raw: seq<RawTable>, digest: string -> string, k: nat)
    requires GetTables(meta, page, raw, digest).Ok?
    requires k < |GetTables(meta, page, raw, digest).value|
    ensures var t := GetTables(meta, page, raw, digest).value[k];
      && k + FirstKept(page) < |raw|
      && t.content == CleanGrid(raw[k + FirstKept(page)].cells)
      && t.tableId == digest(TableKey(KeyPrefix(meta).value, k + FirstKept(page), page))
  {
  }

  /** The id of kept table `k` alone. */
  lemma GetTablesId(meta: Record, page: nat, raw: seq<RawTable>, digest: string -> string, k: nat)
    requires GetTables(meta, page, raw, digest).Ok?
    requires k < |GetTables(meta, page, raw, digest).value|
    ensures GetTables(meta, page, raw, digest).value[k].tableId
         == digest(TableKey(KeyPrefix(meta).value, k + FirstKept(page), page))
  {
    GetTablesAlign(meta, page, raw, digest, k);
  }

  /** Table ids never depend on cell contents. */
  lemma TableIdsIgnoreCells(meta: Record, page: nat, raw: seq<RawTable>, raw': seq<RawTable>, digest: string -> string)
    requires |raw| == |raw'|
    ensures GetTables(meta, page, raw, digest).Ok? == GetTables(meta, page, raw', digest).Ok?
    ensures GetTables(meta, page, raw, digest).Ok? ==>
      forall k :: 0 <= k < |GetTables(meta, page, raw, digest).value| ==>
        GetTables(meta, page, raw, digest).value[k].tableId == GetTables(meta, page, raw', digest).value[k].tableId
  {
  }

  /** With a collision-free digest, the tables of one page have distinct ids. */
  lemma GetTablesDistinctIds(meta: Record, page: nat, raw: seq<RawTable>, digest: string -> string)
    requires forall x, y :: digest(x) == digest(y) ==> x == y
    requires GetTables(meta, page, raw, digest).Ok?
    ensures var ts := GetTables(meta, page, raw, digest).value;
      forall i, j :: 0 <= i < j < |ts| ==> ts[i].tableId != ts[j].tableId
  {
    var ts := GetTables(meta, page, raw, digest).value;
    if |ts| > 0 {
      var prefix, s := KeyPrefix(meta).value, FirstKept(page);
      forall k | 0 <= k < |ts| ensures ts[k].tableId == digest(TableKey(prefix, k + s, page)) {
        GetTablesId(meta, page, raw, digest, k);
      }
      KeyedIdsDistinct(ts, digest, prefix, s, page);
    }
  }

  /** Ids digested from keys with distinct table indexes are distinct. */
  lemma KeyedIdsDistinct(ts: seq<Table>, digest: string -> string, prefix: string, s: nat, page: nat)
    requires forall x, y :: digest(x) == digest(y) ==> x == y
    requires forall k :: 0 <= k < |ts| ==> ts[k].tableId == digest(TableKey(prefix, k + s, page))
    ensures forall i, j :: 0 <= i < j < |ts| ==> ts[i].tableId != ts[j].tableId
  {
    forall i, j | 0 <= i < j < |ts| ensures ts[i].tableId != ts[j].tableId {
      if ts[i].tableId == ts[j].tableId {
        SameDigestSameText(digest, TableKey(prefix, i + s, page), TableKey(prefix, j + s, page));
        TableKeyInjective(prefix, i + s, page, j + s, page);
      }
    }
  }

  lemma SameDigestSameText(digest: string -> string, x: string, y: string)
    requires forall x, y :: digest(x) == digest(y) ==> x == y
    requires digest(x) == digest(y)
    ensures x == y
  {
  }
}

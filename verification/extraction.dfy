/** Per-circular extraction (`extract_text_and_tables`, `extractZipContent`,
    `extract_pdf_content`), saving, the ordered `map_progress` and the bounded
    `retry` loop. Files on disk are a parameter: a map from file name to
    what pdfplumber or ZipFile would see in it. */
module Extraction {
  import opened Wrappers
  import opened Seqs
  import opened Text
  import opened Values
  import opened Layout
  import opened Tables
  import opened Records

  /** What pdfplumber reports for one page. */
  datatype RawPage = RawPage(pageNumber: nat, words: seq<Word>, tables: seq<RawTable>)

  /** The `{'page_number', 'page_text', 'tables'}` dict. */
  datatype Page = Page(pageNumber: nat, pageText: string, tables: seq<Table>)

  /** A PDF that pdfplumber cannot open, or its pages. */
  datatype PdfFile = Corrupt | Pdf(pages: seq<RawPage>)

  /** A ZIP that ZipFile cannot open, or its members in `namelist()` order.
      A member's file is what `read(name)` returns for its name, so when a
      name is listed twice both entries carry the content of the last one. */
  datatype ZipFile = BadZip | Zip(members: seq<(string, PdfFile)>)

  /** The downloaded files, keyed by `circFilename`; presence means the file exists. */
  datatype Disk = Disk(pdfs: map<string, PdfFile>, zips: map<string, ZipFile>)

  /** One element of `documents`: an insertion-ordered dict from file name to pages. */
  type DocEntry = seq<(string, seq<Page>)>

  /** A processed circular: its fields, and its `documents` list kept apart. */
  datatype Circular = Circular(meta: Record, documents: seq<DocEntry>)

  /** What `extract_pdf_content` returns as written: either a dict with string
      keys, or one whose uuid sits under the builtin function `id` as key. */
  datatype Extracted = Keyed(c: Circular) | BuiltinIdKeyed(uuid: string, c: Circular)

  // ------------------------------------------------------------- one page

  function TableBoxes(ts: seq<RawTable>): (bs: seq<BBox>)
    ensures |bs| == |ts| && forall i :: 0 <= i < |ts| ==> bs[i] == ts[i].bbox
  {
    seq(|ts|, i requires 0 <= i < |ts| => ts[i].bbox)
  }

  /** The loop body of `extract_text_and_tables`. Words are excluded using the
      boxes of every table, including the one `getTables` skips on page 1. */
  function ExtractPage(meta: Record, p: RawPage, digest: string -> string): (r: Result<Page>)
    ensures r.Ok? <==> GetTables(meta, p.pageNumber, p.tables, digest).Ok?
    ensures r.Ok? ==> r.value.pageNumber == p.pageNumber
  {
    var tables :- GetTables(meta, p.pageNumber, p.tables, digest);
    Ok(Page(p.pageNumber, OutsideText(p.words, TableBoxes(p.tables)), tables))
  }

  /** On page 1 the first table is dropped from the table list, yet its words
      stay out of the body text: they appear in no text line, and every table
      the page keeps comes from a later raw table. */
  lemma SkippedTableHidesWords(meta: Record, p: RawPage, w: Word, digest: string -> string)
    requires p.pageNumber <= 1 && |p.tables| > 0
    requires w in p.words && Encloses(p.tables[0].bbox, w)
    ensures w !in multiset(FlatMap(PageLines(p.words, TableBoxes(p.tables)), WordsOf))
    ensures ExtractPage(meta, p, digest).Ok? ==>
      var kept := ExtractPage(meta, p, digest).value.tables;
      |kept| == |p.tables| - 1 &&
      forall k :: 0 <= k < |kept| ==> kept[k].content == CleanGrid(p.tables[k + 1].cells)
  {
    var boxes := TableBoxes(p.tables);
    PageLinesShape(p.words, boxes);
    assert InsideTable(w, boxes);
    if ExtractPage(meta, p, digest).Ok? {
      var kept := ExtractPage(meta, p, digest).value.tables;
      forall k | 0 <= k < |kept| ensures kept[k].content == CleanGrid(p.tables[k + 1].cells) {
        GetTablesAlign(meta, p.pageNumber, p.tables, digest, k);
      }
    }
  }

  /** `extract_text_and_tables` on a file that exists. A file pdfplumber cannot
      parse raises. */
  function ExtractText(meta: Record, f: PdfFile, name: string, digest: string -> string): (r: Result<seq<Page>>)
    ensures f.Corrupt? ==> r == Err(Unreadable(name))
    ensures f.Pdf? ==> r == MapAll(f.pages, p => ExtractPage(meta, p, digest))
  {
    match f
    case Corrupt => Err(Unreadable(name))
    case Pdf(pages) => MapAll(pages, p => ExtractPage(meta, p, digest))
  }

  // ------------------------------------------------------------ ZIP files

  /** The part of a path after its last `/`. */
  function BaseName(path: string): (b: string)
    ensures |b| <= |path| && path == path[..|path| - |b|] + b
    ensures forall i :: 0 <= i < |b| ==> b[i] != '/'
    ensures |b| < |path| ==> path[|path| - |b| - 1] == '/'
  {
    if |path| == 0 then ""
    else if path[|path| - 1] == '/' then ""
    else
      var b := BaseName(path[..|path| - 1]);
      BaseNameStep(path, b);
      b + [path[|path| - 1]]
  }

  /** One more character that is not `/` extends the base name. */
  lemma BaseNameStep(path: string, b: string)
    requires |path| > 0 && path[|path| - 1] != '/'
    requires var q := path[..|path| - 1];
      && |b| <= |q| && q == q[..|q| - |b|] + b
      && (forall i :: 0 <= i < |b| ==> b[i] != '/')
      && (|b| < |q| ==> q[|q| - |b| - 1] == '/')
    ensures var r := b + [path[|path| - 1]];
      && |r| <= |path| && path == path[..|path| - |r|] + r
      && (forall i :: 0 <= i < |r| ==> r[i] != '/')
      && (|r| < |path| ==> path[|path| - |r| - 1] == '/')
  {
    var q := path[..|path| - 1];
    var r := b + [path[|path| - 1]];
    assert path == q + [path[|path| - 1]];
    assert path[..|path| - |r|] == q[..|q| - |b|];
  }

  /** Position of the last `.`, or -1. */
  function LastDot(s: string): (i: int)
    ensures -1 <= i < |s|
    ensures i >= 0 ==> s[i] == '.'
    ensures forall j :: i < j < |s| ==> s[j] != '.'
  {
    if |s| == 0 then -1
    else if s[|s| - 1] == '.' then |s| - 1
    else LastDot(s[..|s| - 1])
  }

  /** `PurePath.stem` of a file name: the name without its last suffix. */
  function Stem(name: string): string
  {
    var i := LastDot(name);
    if 0 < i < |name| - 1 then name[..i] else name
  }

  /** `name.lower().endswith(".pdf")` */
  predicate IsPdfMember(name: string)
  {
    EndsWith(LowerAscii(name), ".pdf")
  }

  /** `Path(name).stem + '.pdf'` */
  function MemberKey(name: string): string
  {
    Stem(BaseName(name)) + ".pdf"
  }

  lemma LowerCharKeeps(c: char)
    ensures LowerChar(c) == '.' ==> c == '.'
    ensures c == '/' || c == '.' ==> LowerChar(c) == c
  {
  }

  /** A name ending in `.` and three other characters has its last dot there. */
  lemma LastDotOfSuffix(b: string)
    requires |b| >= 4 && b[|b| - 4] == '.'
    requires b[|b| - 3] != '.' && b[|b| - 2] != '.' && b[|b| - 1] != '.'
    ensures LastDot(b) == |b| - 4
  {
    var m := |b|;
    var b1, b2, b3 := b[..m - 1], b[..m - 2], b[..m - 3];
    assert b1[..m - 2] == b2 && b2[..m - 3] == b3;
    assert b3[m - 4] == '.';
    assert LastDot(b3) == m - 4;
    assert LastDot(b2) == m - 4;
    assert LastDot(b1) == m - 4;
  }

  /** A PDF member's name ends in `.` and three characters that are neither
      `/` nor `.`, whatever their case. */
  lemma PdfSuffixChars(name: string)
    requires IsPdfMember(name)
    ensures var n := |name|;
      && n >= 4 && name[n - 4] == '.'
      && name[n - 3] != '/' && name[n - 3] != '.'
      && name[n - 2] != '/' && name[n - 2] != '.'
      && name[n - 1] != '/' && name[n - 1] != '.'
  {
    var l := LowerAscii(name);
    var n := |name|;
    assert l[n - 4..] == ".pdf";
    assert l[n - 4] == '.' && l[n - 3] == 'p' && l[n - 2] == 'd' && l[n - 1] == 'f';
    LowerCharKeeps(name[n - 4]);
    LowerCharKeeps(name[n - 3]);
    LowerCharKeeps(name[n - 2]);
    LowerCharKeeps(name[n - 1]);
  }

  /** When the last four characters hold no `/`, the base name ends in them too. */
  lemma BaseNameKeepsSuffix(name: string)
    requires |name| >= 4
    requires forall j :: |name| - 4 <= j < |name| ==> name[j] != '/'
    ensures var b := BaseName(name);
      |b| >= 4 && b[|b| - 4..] == name[|name| - 4..]
  {
    var b := BaseName(name);
    SlashFreeTail(name, name[..|name| - |b|], b);
  }

  /** A tail cut off after a `/` (or the whole text) keeps a slash-free suffix. */
  lemma SlashFreeTail(name: string, pre: string, b: string)
    requires name == pre + b && |name| >= 4
    requires |pre| > 0 ==> name[|pre| - 1] == '/'
    requires forall j :: |name| - 4 <= j < |name| ==> name[j] != '/'
    ensures |b| >= 4 && b[|b| - 4..] == name[|name| - 4..]
  {
    assert |b| >= 4 by {
      if |pre| > 0 {
        assert name[|pre| - 1] == '/';
      }
    }
    assert name[|pre|..] == b;
  }

  /** For a PDF member the key is its base name with the last four characters
      replaced by a lower-case `.pdf`; a base name of just `.pdf` keeps all of it. */
  lemma MemberKeyShape(name: string)
    requires IsPdfMember(name)
    ensures var b := BaseName(name);
      MemberKey(name) == (if |b| > 4 then b[..|b| - 4] else b) + ".pdf"
  {
    var n := |name|;
    PdfSuffixChars(name);
    BaseNameKeepsSuffix(name);
    var b := BaseName(name);
    var m := |b|;
    assert b[m - 4..][0] == b[m - 4] && name[n - 4..][0] == name[n - 4];
    assert b[m - 4] == name[n - 4] && b[m - 3] == name[n - 3] && b[m - 2] == name[n - 2] && b[m - 1] == name[n - 1];
    LastDotOfSuffix(b);
  }

  /** The last PDF member of a ZIP whose key is `k`. */
  function LastPdfWith(ms: seq<(string, PdfFile)>, k: string): Option<(string, PdfFile)>
  {
    if |ms| == 0 then None
    else if IsPdfMember(ms[|ms| - 1].0) && MemberKey(ms[|ms| - 1].0) == k then Some(ms[|ms| - 1])
    else LastPdfWith(ms[..|ms| - 1], k)
  }

  /** The member loop of `extractZipContent`: `final.update({key: text})` per PDF member. */
  function ZipEntries(meta: Record, ms: seq<(string, PdfFile)>, digest: string -> string): Result<DocEntry>
  {
    if |ms| == 0 then Ok([])
    else
      var d :- ZipEntries(meta, ms[..|ms| - 1], digest);
      var name := ms[|ms| - 1].0;
      if IsPdfMember(name) then
        var pages :- ExtractText(meta, ms[|ms| - 1].1, name, digest);
        Ok(Put(d, MemberKey(name), pages))
      else Ok(d)
  }

  lemma ZipEntriesStep(meta: Record, ms: seq<(string, PdfFile)>, digest: string -> string)
    requires |ms| > 0 && ZipEntries(meta, ms, digest).Ok?
    ensures var init := ms[..|ms| - 1]; var m := ms[|ms| - 1];
      && ZipEntries(meta, init, digest).Ok?
      && (IsPdfMember(m.0) ==>
            (ExtractText(meta, m.1, m.0, digest).Ok?
             && ZipEntries(meta, ms, digest).value
                == Put(ZipEntries(meta, init, digest).value, MemberKey(m.0), ExtractText(meta, m.1, m.0, digest).value)))
      && (!IsPdfMember(m.0) ==> ZipEntries(meta, ms, digest) == ZipEntries(meta, init, digest))
  {
  }

  /** A ZIP's entries: one per distinct key, holding the pages of the last PDF
      member with that key; members that are not PDFs leave no trace. */
  lemma {:induction false} ZipEntriesLastWins(meta: Record, ms: seq<(string, PdfFile)>, digest: string -> string, k: string)
    requires ZipEntries(meta, ms, digest).Ok?
    ensures DistinctKeys(ZipEntries(meta, ms, digest).value)
    ensures LastPdfWith(ms, k).None? ==> Lookup(ZipEntries(meta, ms, digest).value, k).None?
    ensures LastPdfWith(ms, k).Some? ==>
      var m := LastPdfWith(ms, k).value;
      ExtractText(meta, m.1, m.0, digest).Ok?
      && Lookup(ZipEntries(meta, ms, digest).value, k) == Some(ExtractText(meta, m.1, m.0, digest).value)
  {
    if |ms| > 0 {
      var init := ms[..|ms| - 1];
      ZipEntriesStep(meta, ms, digest);
      ZipEntriesLastWins(meta, init, digest, k);
      var d := ZipEntries(meta, init, digest).value;
      var m := ms[|ms| - 1];
      if IsPdfMember(m.0) {
        var pages := ExtractText(meta, m.1, m.0, digest).value;
        PutSpec(d, MemberKey(m.0), pages);
        assert ZipEntries(meta, ms, digest).value == Put(d, MemberKey(m.0), pages);
        if MemberKey(m.0) == k {
          assert LastPdfWith(ms, k) == Some(m);
          assert Lookup(Put(d, MemberKey(m.0), pages), k) == Some(pages);
        } else {
          assert LastPdfWith(ms, k) == LastPdfWith(init, k);
          assert Lookup(Put(d, MemberKey(m.0), pages), k) == Lookup(d, k);
        }
      } else {
        assert LastPdfWith(ms, k) == LastPdfWith(init, k);
        assert ZipEntries(meta, ms, digest) == ZipEntries(meta, init, digest);
      }
    }
  }

  /** `extractZipContent` on a file that exists. */
  function ExtractZip(meta: Record, z: ZipFile, name: string, digest: string -> string): Result<DocEntry>
  {
    match z
    case BadZip => Err(Unreadable(name))
    case Zip(ms) => ZipEntries(meta, ms, digest)
  }

  // ------------------------------------------------------ one circular

  /** The fields after `documents` is taken apart. */
  function Base(meta: Record): Record
  {
    meta - {"documents"}
  }

  /** `json.update(id=...)` followed by `del json['circFilename']`. */
  function Finish(meta: Record, uuid: string): (r: Record)
    ensures "id" in r && r["id"] == Str(uuid) && "circFilename" !in r
    ensures forall k :: k in meta && k != "id" && k != "circFilename" ==> k in r && r[k] == meta[k]
  {
    meta["id" := Str(uuid)] - {"circFilename"}
  }

  /** The record names a `.pdf` or `.zip` attachment that is not on disk. */
  predicate MissingAttachment(meta: Record, disk: Disk)
  {
    && "circFilename" in meta && meta["circFilename"].Str?
    && var name := meta["circFilename"].s;
       || (EndsWith(name, ".pdf") && name !in disk.pdfs)
       || (EndsWith(name, ".zip") && name !in disk.zips)
  }

  lemma PdfIsNotZip(name: string)
    requires EndsWith(name, ".pdf")
    ensures !EndsWith(name, ".zip")
  {
    assert name[|name| - 1] == ".pdf"[3];
  }

  /** `extract_pdf_content` as written. On a missing file the uuid is keyed by
      the builtin `id`, not the string `'id'`, and `circFilename` survives. */
  function ExtractPdfContent(meta: Record, disk: Disk, uuid: string, digest: string -> string): (r: Result<Extracted>)
    ensures r.Ok? && r.value.BuiltinIdKeyed? ==> r.value.c == Circular(Base(meta), [])
    ensures r.Ok? ==> (r.value.BuiltinIdKeyed? <==> MissingAttachment(meta, disk))
    ensures r.Ok? && r.value.Keyed? ==> r.value.c.meta == Finish(Base(meta), uuid)
    ensures StrField(meta, "circFilename").Err? ==> r == Err(StrField(meta, "circFilename").error)
  {
    var name :- StrField(meta, "circFilename");
    if EndsWith(name, ".pdf") then
      PdfIsNotZip(name);
      if name !in disk.pdfs then Ok(BuiltinIdKeyed(uuid, Circular(Base(meta), [])))
      else
        var pages :- ExtractText(meta, disk.pdfs[name], name, digest);
        Ok(Keyed(Circular(Finish(Base(meta), uuid), [[(BaseName(name), pages)]])))
    else if EndsWith(name, ".zip") then
      if name !in disk.zips then Ok(BuiltinIdKeyed(uuid, Circular(Base(meta), [])))
      else
        var entries :- ExtractZip(meta, disk.zips[name], name, digest);
        Ok(Keyed(Circular(Finish(Base(meta), uuid), [entries])))
    else Ok(Keyed(Circular(Finish(Base(meta), uuid), [])))
  }

  /** `extract_pdf_content` with `{'id': uuid, **json}` on the missing-file paths. */
  function ExtractPdfContentFixed(meta: Record, disk: Disk, uuid: string, digest: string -> string): Result<Circular>
  {
    var name :- StrField(meta, "circFilename");
    if EndsWith(name, ".pdf") then
      if name !in disk.pdfs then Ok(Circular(map["id" := Str(uuid)] + Base(meta), []))
      else
        var pages :- ExtractText(meta, disk.pdfs[name], name, digest);
        Ok(Circular(Finish(Base(meta), uuid), [[(BaseName(name), pages)]]))
    else if EndsWith(name, ".zip") then
      if name !in disk.zips then Ok(Circular(map["id" := Str(uuid)] + Base(meta), []))
      else
        var entries :- ExtractZip(meta, disk.zips[name], name, digest);
        Ok(Circular(Finish(Base(meta), uuid), [entries]))
    else Ok(Circular(Finish(Base(meta), uuid), []))
  }

  /** The corrected function differs from the original only in the key of the
      uuid on the missing-file paths. */
  lemma FixedAgrees(meta: Record, disk: Disk, uuid: string, digest: string -> string)
    ensures var r := ExtractPdfContent(meta, disk, uuid, digest);
            var f := ExtractPdfContentFixed(meta, disk, uuid, digest);
      && (r.Err? <==> f.Err?)
      && (r.Err? ==> f.error == r.error)
      && (r.Ok? && r.value.Keyed? ==> f == Ok(r.value.c))
      && (r.Ok? && r.value.BuiltinIdKeyed? ==>
            f == Ok(Circular(map["id" := Str(uuid)] + r.value.c.meta, r.value.c.documents)))
  {
  }

  /** Every record the corrected function returns carries an `'id'` field,
      the fresh uuid unless the listing already had one. */
  lemma FixedHasId(meta: Record, disk: Disk, uuid: string, digest: string -> string)
    requires ExtractPdfContentFixed(meta, disk, uuid, digest).Ok?
    ensures var c := ExtractPdfContentFixed(meta, disk, uuid, digest).value;
      "id" in c.meta && ("id" !in meta ==> c.meta["id"] == Str(uuid))
  {
  }

  /** `json.dump` refuses a dict whose key is not a string. */
  function Save(xs: seq<Extracted>): (r: Result<()>)
    ensures r.Ok? <==> forall i :: 0 <= i < |xs| ==> xs[i].Keyed?
    ensures r.Err? ==> r.error == UnserialisableKey
  {
    if forall i :: 0 <= i < |xs| ==> xs[i].Keyed? then Ok(()) else Err(UnserialisableKey)
  }

  /** A circular whose PDF is missing makes the original pipeline fail at
      `save`, and its record has no `'id'` field. */
  lemma MissingPdfBreaksSave(uuid: string, digest: string -> string)
    ensures var meta: Record := map["circFilename" := Str("a.pdf")];
            var r := ExtractPdfContent(meta, Disk(map[], map[]), uuid, digest);
      && r.Ok? && r.value.BuiltinIdKeyed? && "id" !in r.value.c.meta
      && Save([r.value]) == Err(UnserialisableKey)
  {
    var meta: Record := map["circFilename" := Str("a.pdf")];
    assert "a.pdf"[5 - 4..] == ".pdf";
    assert EndsWith("a.pdf", ".pdf");
    assert StrField(meta, "circFilename") == Ok("a.pdf");
    assert Base(meta) == meta;
    var x := BuiltinIdKeyed(uuid, Circular(meta, []));
    assert ExtractPdfContent(meta, Disk(map[], map[]), uuid, digest) == Ok(x);
    assert ![x][0].Keyed?;
  }

  // ------------------------------------------------------ the whole run

  lemma {:induction false} MapAllSnoc<A, B>(s: seq<A>, x: A, f: A -> Result<B>)
    ensures MapAll(s + [x], f) ==
      match MapAll(s, f)
      case Err(e) => Err(e)
      case Ok(v) => (match f(x) case Err(e) => Err(e) case Ok(y) => Ok(v + [y]))
  {
    if |s| > 0 {
      assert (s + [x])[1..] == s[1..] + [x];
      assert (s + [x])[0] == s[0];
      MapAllSnoc(s[1..], x, f);
      if f(s[0]).Ok? && MapAll(s[1..], f).Ok? && f(x).Ok? {
        var h, v, y := f(s[0]).value, MapAll(s[1..], f).value, f(x).value;
        assert [h] + (v + [y]) == ([h] + v) + [y];
      }
    } else {
      assert s + [x] == [x];
      assert MapAll([x][1..], f) == Ok([]);
      if f(x).Ok? {
        var y := f(x).value;
        var none: seq<B> := [];
        assert [y] + none == [y] && none + [y] == [y];
      }
    }
  }

  /** `map_progress`: all calls are submitted, then the results are collected in
      submission order; the first failure in that order is re-raised. */
  method MapProgress<A, B>(s: seq<A>, f: A -> Result<B>) returns (r: Result<seq<B>>)
    ensures r == MapAll(s, f)
  {
    var results: seq<B> := [];
    var i := 0;
    while i < |s|
      invariant 0 <= i <= |s|
      invariant MapAll(s[..i], f) == Ok(results)
    {
      MapAllSnoc(s[..i], s[i], f);
      assert s[..i + 1] == s[..i] + [s[i]];
      var y := f(s[i]);
      if y.Err? {
        MapAllPrefixErr(s, i + 1, f);
        return Err(y.error);
      }
      results := results + [y.value];
      i := i + 1;
    }
    assert s[..i] == s;
    return Ok(results);
  }

  /** A failure on a prefix is the failure of the whole. */
  lemma {:induction false} MapAllPrefixErr<A, B>(s: seq<A>, n: nat, f: A -> Result<B>)
    requires n <= |s| && MapAll(s[..n], f).Err?
    ensures MapAll(s, f) == MapAll(s[..n], f)
  {
    if n > 0 && |s| > 0 {
      assert s[..n][1..] == s[1..][..n - 1];
      if f(s[0]).Ok? {
        MapAllPrefixErr(s[1..], n - 1, f);
      }
    }
  }

  /** `retry`: at most four download passes. `count(k)` is the number of files
      found before pass `k` would start; the loop stops as soon as it is at
      least `n`. Returns how many passes ran. */
  method Retry(n: nat, count: nat -> nat) returns (passes: nat)
    ensures passes <= 4
    ensures forall k :: 0 <= k < passes ==> count(k) < n
    ensures passes < 4 ==> count(passes) >= n
  {
    var cnt := 4;
    passes := 0;
    while cnt != 0
      invariant 0 <= cnt <= 4 && passes == 4 - cnt
      invariant forall k :: 0 <= k < passes ==> count(k) < n
    {
      var total := count(passes);
      if total < n {
        passes := passes + 1;
        cnt := cnt - 1;
      } else {
        return;
      }
    }
  }

  /** The `(circular, uuid)` pairs handed to the workers, in listing order. */
  function Jobs(cs: seq<Record>, uuid: nat -> string): (js: seq<(Record, string)>)
    ensures |js| == |cs| && forall i :: 0 <= i < |cs| ==> js[i] == (cs[i], uuid(i))
  {
    seq(|cs|, i requires 0 <= i < |cs| => (cs[i], uuid(i)))
  }

  /** One worker call of the original pipeline. */
  function AsWrittenJob(disk: Disk, digest: string -> string): ((Record, string)) -> Result<Extracted>
  {
    (j: (Record, string)) => ExtractPdfContent(j.0, disk, j.1, digest)
  }

  /** One worker call with the corrected extraction. */
  function FixedJob(disk: Disk, digest: string -> string): ((Record, string)) -> Result<Circular>
  {
    (j: (Record, string)) => ExtractPdfContentFixed(j.0, disk, j.1, digest)
  }

  /** In the original pipeline, once every circular is extracted, `save` fails
      exactly when some circular names a `.pdf` or `.zip` that is not on disk. */
  lemma SaveFailsIffMissing(cs: seq<Record>, disk: Disk, uuid: nat -> string, digest: string -> string)
    requires MapAll(Jobs(cs, uuid), AsWrittenJob(disk, digest)).Ok?
    ensures var out := MapAll(Jobs(cs, uuid), AsWrittenJob(disk, digest)).value;
      Save(out).Err? <==> exists i :: 0 <= i < |cs| && MissingAttachment(cs[i], disk)
  {
    var js := Jobs(cs, uuid);
    var out := MapAll(js, AsWrittenJob(disk, digest)).value;
    forall i | 0 <= i < |cs| ensures out[i].BuiltinIdKeyed? <==> MissingAttachment(cs[i], disk) {
      assert out[i] == ExtractPdfContent(cs[i], disk, uuid(i), digest).value;
    }
  }

  /** `get_and_process` as written, after the listing is fetched and the files
      are downloaded: extract every circular, then `save`, which fails as soon
      as one attachment was missing. */
  method GetAndProcessAsWritten(listing: seq<Record>, disk: Disk, uuid: nat -> string, digest: string -> string)
    returns (res: Result<seq<Extracted>>)
    ensures CleanListing(listing).Err? ==> res == Err(CleanListing(listing).error)
    ensures res.Ok? ==> CleanListing(listing).Ok?
                        && res == MapAll(Jobs(CleanListing(listing).value, uuid), AsWrittenJob(disk, digest))
    ensures CleanListing(listing).Ok? && MapAll(Jobs(CleanListing(listing).value, uuid), AsWrittenJob(disk, digest)).Ok? ==>
              (res == Err(UnserialisableKey)
               <==> exists i :: 0 <= i < |CleanListing(listing).value| && MissingAttachment(CleanListing(listing).value[i], disk))
    ensures CleanListing(listing).Ok? ==>
              res == match MapAll(Jobs(CleanListing(listing).value, uuid), AsWrittenJob(disk, digest))
                     case Err(e) => Err(e)
                     case Ok(out) => if Save(out).Ok? then Ok(out) else Err(UnserialisableKey)
  {
    var circulars :- GetAllCirculars(listing);
    var out :- MapProgress(Jobs(circulars, uuid), AsWrittenJob(disk, digest));
    SaveFailsIffMissing(circulars, disk, uuid, digest);
    var _ :- Save(out);
    return Ok(out);
  }

  /** `get_and_process` after the listing is fetched and the files are
      downloaded, with the corrected `extract_pdf_content`: every circular is
      extracted in listing order and the result can always be saved. */
  method GetAndProcess(listing: seq<Record>, disk: Disk, uuid: nat -> string, digest: string -> string)
    returns (res: Result<seq<Circular>>)
    ensures CleanListing(listing).Err? ==> res == Err(CleanListing(listing).error)
    ensures CleanListing(listing).Ok? ==> res == MapAll(Jobs(CleanListing(listing).value, uuid), FixedJob(disk, digest))
    ensures res.Ok? ==> |res.value| <= |listing|
    ensures res.Ok? ==> Save(seq(|res.value|, i requires 0 <= i < |res.value| => Keyed(res.value[i]))).Ok?
    ensures res.Ok? ==> forall i :: 0 <= i < |res.value| ==> "id" in res.value[i].meta
  {
    var circulars :- GetAllCirculars(listing);
    var jobs := Jobs(circulars, uuid);
    var out :- MapProgress(jobs, FixedJob(disk, digest));
    forall i | 0 <= i < |out| ensures "id" in out[i].meta {
      FixedHasId(jobs[i].0, disk, jobs[i].1, digest);
    }
    return Ok(out);
  }
}

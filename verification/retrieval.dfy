/** Retrieval post-processing (`rag.py`): the hybrid query, expansion of each
    hit to the pages sharing its `id`, the two stable sorts, and the choice of
    the first five circulars by file link. The vector store's answers are inputs:
    `ranked` is its reranked hit list, `stored` the collection's payloads in
    scroll order. */
module Retrieval {
  import opened Wrappers
  import opened Seqs
  import opened Sorting
  import opened Text
  import opened Values
  import opened Embedding

  const ScrollLimit := 5
  const PrefetchFactor := 16
  const GroupLimit := 5

  /** The `query_points` call: a dense prefetch, reranked by the sparse vector. */
  datatype Request = Request(prefetch: Document, prefetchUsing: string, prefetchLimit: nat,
                             query: Document, using: string, limit: nat)

  function SearchRequest(query: string, limit: nat): (r: Request)
    ensures r.prefetch == Document(query, DenseModel) && r.prefetchUsing == DenseName
    ensures r.query == Document(query, SparseModel) && r.using == SparseName
    ensures r.prefetchLimit == 16 * limit && r.limit == limit
  {
    Request(Document(query, DenseModel), DenseName, PrefetchFactor * limit, Document(query, SparseModel), SparseName, limit)
  }

  // ------------------------------------------------------------------- keys

  /** `res.get("id")` */
  function IdValue(r: Record): Value
  {
    GetOr(r, "id", Null)
  }

  /** `x["cirDisplayDate"]` as a string; meaningful where `DateOk` holds. */
  function DateOf(r: Record): string
  {
    match GetOr(r, "cirDisplayDate", Null)
    case Str(s) => s
    case _ => ""
  }

  /** `(x["id"], x["page_number"])`; meaningful where `IdPageOk` holds. */
  function IdPage(r: Record): (string, int)
  {
    (match GetOr(r, "id", Null) case Str(s) => s case _ => "",
     match GetOr(r, "page_number", Null) case Int(i) => i case _ => 0)
  }

  predicate DateOk(r: Record)
  {
    "cirDisplayDate" in r && r["cirDisplayDate"].Str?
  }

  predicate IdPageOk(r: Record)
  {
    "id" in r && r["id"].Str? && "page_number" in r && r["page_number"].Int?
  }

  /** Tuple order on `(id, page_number)`. */
  predicate PairLess(a: (string, int), b: (string, int))
  {
    StrLess(a.0, b.0) || (a.0 == b.0 && a.1 < b.1)
  }

  lemma PairLessOrder()
    ensures StrictTotalOrder(PairLess)
  {
    StrLessOrder();
    forall a, b, c | PairLess(a, b) && PairLess(b, c) ensures PairLess(a, c) {
      if StrLess(a.0, b.0) && StrLess(b.0, c.0) {
        StrLessTransitive(a.0, b.0, c.0);
      }
    }
    forall a: (string, int), b: (string, int) | a != b ensures PairLess(a, b) || PairLess(b, a) {
      if a.0 != b.0 {
        StrLessTotal(a.0, b.0);
      }
    }
  }

  /** Computing the sort key of every element in order: the first missing key raises `KeyError`. */
  function DateKeys(s: seq<Record>): (r: Result<()>)
    ensures r.Ok? <==> forall i :: 0 <= i < |s| ==> DateOk(s[i])
    ensures r.Err? ==> r.error == MissingKey("cirDisplayDate") || r.error == WrongType("cirDisplayDate")
  {
    if exists i :: 0 <= i < |s| && "cirDisplayDate" !in s[i] then Err(MissingKey("cirDisplayDate"))
    else if exists i :: 0 <= i < |s| && !s[i]["cirDisplayDate"].Str? then Err(WrongType("cirDisplayDate"))
    else Ok(())
  }

  function FirstMissingIdPage(s: seq<Record>): (r: Option<string>)
    ensures r.None? <==> forall i :: 0 <= i < |s| ==> "id" in s[i] && "page_number" in s[i]
  {
    if |s| == 0 then None
    else if "id" !in s[0] then Some("id")
    else if "page_number" !in s[0] then Some("page_number")
    else FirstMissingIdPage(s[1..])
  }

  function IdPageKeys(s: seq<Record>): (r: Result<()>)
    ensures r.Ok? <==> forall i :: 0 <= i < |s| ==> IdPageOk(s[i])
  {
    match FirstMissingIdPage(s)
    case Some(k) => Err(MissingKey(k))
    case None =>
      if exists i :: 0 <= i < |s| && !s[i]["id"].Str? then Err(WrongType("id"))
      else if exists i :: 0 <= i < |s| && !s[i]["page_number"].Int? then Err(WrongType("page_number"))
      else Ok(())
  }

  // -------------------------------------------------------------- expansion

  /** `scroll` filtered on `id == v` with `limit=5`: the first five stored pages with that id. */
  function Scroll(stored: seq<Record>, v: Value): (r: seq<Record>)
    ensures |r| <= ScrollLimit
    ensures forall i :: 0 <= i < |r| ==> IdValue(r[i]) == v
    ensures r <= WithKey(stored, IdValue, v)
    ensures |r| == if |WithKey(stored, IdValue, v)| < ScrollLimit then |WithKey(stored, IdValue, v)| else ScrollLimit
  {
    Take(WithKey(stored, IdValue, v), ScrollLimit)
  }

  /** The pages of every hit, hit by hit in rank order. */
  function Expand(ids: seq<Value>, stored: seq<Record>): seq<Record>
  {
    if |ids| == 0 then [] else Scroll(stored, ids[0]) + Expand(ids[1..], stored)
  }

  /** At most five pages per hit, each carrying one of the hits' ids. */
  lemma {:induction false} ExpandSpec(ids: seq<Value>, stored: seq<Record>)
    ensures |Expand(ids, stored)| <= ScrollLimit * |ids|
    ensures forall j :: 0 <= j < |Expand(ids, stored)| ==> IdValue(Expand(ids, stored)[j]) in ids
  {
    if |ids| > 0 {
      ExpandSpec(ids[1..], stored);
      var head := Scroll(stored, ids[0]);
      var rest := Expand(ids[1..], stored);
      forall j | 0 <= j < |head + rest| ensures IdValue((head + rest)[j]) in ids {
        if j >= |head| {
          assert (head + rest)[j] == rest[j - |head|];
          assert IdValue(rest[j - |head|]) in ids[1..];
        }
      }
    }
  }

  /** The hits' ids, in rank order; the store returns at most `limit` hits. */
  function HitIds(ranked: seq<Record>, limit: nat): (ids: seq<Value>)
    ensures |ids| <= limit && |ids| <= |ranked|
    ensures forall i :: 0 <= i < |ids| ==> ids[i] == IdValue(ranked[i])
  {
    var hits := Take(ranked, limit);
    seq(|hits|, i requires 0 <= i < |hits| => IdValue(hits[i]))
  }

  /** The two sorts of lines 106 and 107: the result is a permutation of the
      pages, newest first, and pages of equal date ascend by `(id, page_number)`. */
  function SortPages(pages: seq<Record>): (r: seq<Record>)
    ensures multiset(r) == multiset(pages)
    ensures SortedBy(r, DateOf, StrGreater)
    ensures forall i, j :: 0 <= i < j < |r| && DateOf(r[i]) == DateOf(r[j]) ==> !PairLess(IdPage(r[j]), IdPage(r[i]))
  {
    PairLessOrder();
    StrGreaterOrder();
    var byId := SortBy(pages, IdPage, PairLess);
    var r := SortBy(byId, DateOf, StrGreater);
    assert multiset(r) == multiset(byId) == multiset(pages);
    TiesById(pages, r);
    r
  }

  lemma TiesById(pages: seq<Record>, r: seq<Record>)
    requires StrictTotalOrder(PairLess) && StrictTotalOrder(StrGreater)
    requires r == SortBy(SortBy(pages, IdPage, PairLess), DateOf, StrGreater)
    ensures forall i, j :: 0 <= i < j < |r| && DateOf(r[i]) == DateOf(r[j]) ==> !PairLess(IdPage(r[j]), IdPage(r[i]))
  {
    TwoStableSorts(pages, IdPage, PairLess, DateOf, StrGreater);
  }

  /** `multi_stage_search` on the store's answers. The date sort of the hits
      at line 86 comes after the ids are read, so it can only raise. */
  function MultiStageSearch(query: string, limit: nat, ranked: seq<Record>, stored: seq<Record>): Result<seq<Record>>
  {
    var req := SearchRequest(query, limit);
    var hits := Take(ranked, req.limit);
    var ids := HitIds(ranked, req.limit);
    var hitDates :- DateKeys(hits);
    if Null in ids then Err(WrongType("id"))
    else
      var pages := Expand(ids, stored);
      var pageKeys :- IdPageKeys(pages);
      var pageDates :- DateKeys(pages);
      Ok(SortPages(pages))
  }

  /** The search fails exactly when a key the sorts or the filter need is missing
      or of the wrong kind; otherwise it returns the sorted expanded pages, at most
      five per hit and at most `5 * limit` in all. */
  lemma MultiStageSearchSpec(query: string, limit: nat, ranked: seq<Record>, stored: seq<Record>)
    ensures var r := MultiStageSearch(query, limit, ranked, stored);
            var hits := Take(ranked, limit);
            var pages := Expand(HitIds(ranked, limit), stored);
      && (r.Ok? <==> (forall i :: 0 <= i < |hits| ==> DateOk(hits[i]))
                     && Null !in HitIds(ranked, limit)
                     && (forall j :: 0 <= j < |pages| ==> IdPageOk(pages[j]))
                     && (forall j :: 0 <= j < |pages| ==> DateOk(pages[j])))
      && (r.Ok? ==> r.value == SortPages(pages) && |r.value| <= 5 * limit)
  {
    var r := MultiStageSearch(query, limit, ranked, stored);
    var hits := Take(ranked, limit);
    var ids := HitIds(ranked, limit);
    var pages := Expand(ids, stored);
    assert SearchRequest(query, limit).limit == limit;
    ExpandSpec(ids, stored);
    if DateKeys(hits).Err? {
      assert r.Err?;
    } else if Null in ids {
      assert r.Err?;
    } else if IdPageKeys(pages).Err? {
      assert r.Err?;
    } else if DateKeys(pages).Err? {
      assert r.Err?;
    } else {
      assert r == Ok(SortPages(pages));
      assert |SortPages(pages)| == |pages| by {
        assert |multiset(SortPages(pages))| == |multiset(pages)|;
      }
    }
  }

  // --------------------------------------------------------------- grouping

  /** `circular.get('circFilelink', '')` */
  function LinkKey(r: Record): Value
  {
    GetOr(r, "circFilelink", Str(""))
  }

  /** `get_unique_circulars_with_all_pages`: the first `n` links in order of
      appearance, each with all its records in input order. */
  function UniqueCirculars(s: seq<Record>, n: nat): seq<Record>
  {
    Regroup(s, LinkKey, Take(FirstKeys(s, LinkKey), n))
  }

  /** The chosen links are the first `n` to appear; each chosen link keeps all
      its records in input order, every other link loses all of them. */
  lemma UniqueCircularsSpec(s: seq<Record>, n: nat, k: Value)
    ensures var chosen := Take(FirstKeys(s, LinkKey), n);
      && |chosen| <= n
      && chosen <= FirstKeys(s, LinkKey)
      && WithKey(UniqueCirculars(s, n), LinkKey, k) == if k in chosen then WithKey(s, LinkKey, k) else []
  {
    var ks := FirstKeys(s, LinkKey);
    var chosen := Take(ks, n);
    assert forall i, j :: 0 <= i < j < |chosen| ==> chosen[i] != chosen[j] by {
      forall i, j | 0 <= i < j < |chosen| ensures chosen[i] != chosen[j] {
        assert chosen[i] == ks[i] && chosen[j] == ks[j];
      }
    }
    RegroupWithKey(s, LinkKey, chosen, k);
  }

  lemma {:induction false} RegroupAppend(s: seq<Record>, a: seq<Value>, b: seq<Value>)
    ensures Regroup(s, LinkKey, a + b) == Regroup(s, LinkKey, a) + Regroup(s, LinkKey, b)
  {
    if |a| == 0 {
      assert a + b == b;
    } else {
      assert (a + b)[1..] == a[1..] + b;
      RegroupAppend(s, a[1..], b);
    }
  }

  /** Each chosen link's records sit together in one block, blocks in order of first appearance. */
  lemma RegroupBlocks(s: seq<Record>, ks: seq<Value>, i: nat)
    requires i < |ks|
    ensures Regroup(s, LinkKey, ks)
         == Regroup(s, LinkKey, ks[..i]) + WithKey(s, LinkKey, ks[i]) + Regroup(s, LinkKey, ks[i + 1..])
  {
    assert ks == ks[..i] + ([ks[i]] + ks[i + 1..]);
    RegroupAppend(s, ks[..i], [ks[i]] + ks[i + 1..]);
    assert ([ks[i]] + ks[i + 1..])[1..] == ks[i + 1..];
  }
}

/** Listing clean-up in `get_all_circulars`: dropping listing-only fields,
    `removeDuplicateCirculars`, `parse_dates` and the `.null` filter. */
module Records {
  import opened Wrappers
  import opened Seqs
  import opened Text
  import opened Values
  import opened Dates

  /** Fields of a listing entry that are not carried into the pipeline. */
  const ListingOnlyKeys: set<string> := {"circFileSize", "circDisplayNo", "cirDate", "fileExt"}

  function StripListingFields(r: Record): (o: Record)
    ensures o.Keys == r.Keys - ListingOnlyKeys
    ensures forall k :: k in o ==> o[k] == r[k]
  {
    map k | k in r && k !in ListingOnlyKeys :: r[k]
  }

  /** The deduplication key. Every record reaching `Dedup` below has it. */
  function Link(r: Record): Value
  {
    GetOr(r, "circFilelink", Null)
  }

  predicate AllLinked(s: seq<Record>)
  {
    forall i :: 0 <= i < |s| ==> "circFilelink" in s[i]
  }

  /** `removeDuplicateCirculars`: the seen-set loop, failing with a `KeyError`
      on a record without a link. */
  method RemoveDuplicateCirculars(s: seq<Record>) returns (res: Result<seq<Record>>)
    ensures res.Err? <==> !AllLinked(s)
    ensures res.Err? ==> res.error == MissingKey("circFilelink")
    ensures res.Ok? ==> res.value == Dedup(s, Link)
  {
    var unique := FirstPerKey(s, d => "circFilelink" in d, Link);
    match unique {
      case None => return Err(MissingKey("circFilelink"));
      case Some(u) => return Ok(u);
    }
  }

  /** A string that `datetime.isoformat()` produces for a midnight. */
  ghost predicate IsIso(t: string)
  {
    exists d :: ValidDate(d) && t == Iso(d)
  }

  /** One step of `parse_dates`: `cirDisplayDate` rewritten to ISO form. */
  function ParseRecordDate(r: Record): Result<Record>
  {
    var text :- StrField(r, "cirDisplayDate");
    var iso :- ConvertToRfc(text);
    Ok(r["cirDisplayDate" := Str(iso)])
  }

  /** The rewrite succeeds exactly on a string date that parses, changes only that
      field, and otherwise reports the missing key, the wrong type or the bad date. */
  lemma ParseRecordDateSpec(r: Record)
    ensures var o := ParseRecordDate(r);
      && (o.Ok? <==> ("cirDisplayDate" in r && r["cirDisplayDate"].Str?
                      && ParseDisplay(r["cirDisplayDate"].s).Some?))
      && (o.Ok? ==> (o.value.Keys == r.Keys
                     && (forall k :: k in r && k != "cirDisplayDate" ==> o.value[k] == r[k])
                     && o.value["cirDisplayDate"] == Str(Iso(ParseDisplay(r["cirDisplayDate"].s).value))))
      && (o.Err? ==> o.error == if "cirDisplayDate" !in r then MissingKey("cirDisplayDate")
                                else if !r["cirDisplayDate"].Str? then WrongType("cirDisplayDate")
                                else BadDate(r["cirDisplayDate"].s))
  {
  }

  /** `parse_dates`: every record rewritten, or the first failure. */
  function ParseDates(s: seq<Record>): Result<seq<Record>>
  {
    MapAll(s, ParseRecordDate)
  }

  /** Whether `r` survives the `.null` filter. */
  predicate KeptFile(r: Record)
  {
    !("circFilename" in r && r["circFilename"].Str? && EndsWith(r["circFilename"].s, ".null"))
  }

  /** The first record whose `circFilename` cannot be read as a string, if any. */
  function CheckNames(s: seq<Record>): (res: Result<()>)
    ensures res.Ok? <==> forall i :: 0 <= i < |s| ==> StrField(s[i], "circFilename").Ok?
  {
    if |s| == 0 then Ok(())
    else
      var _ :- StrField(s[0], "circFilename");
      assert forall i :: 1 <= i < |s| ==> s[i] == s[1..][i - 1];
      CheckNames(s[1..])
  }

  /** The comprehension dropping circulars whose file name ends in `.null`. */
  function DropNullFiles(s: seq<Record>): (res: Result<seq<Record>>)
    ensures res.Ok? <==> forall i :: 0 <= i < |s| ==> StrField(s[i], "circFilename").Ok?
    ensures res.Ok? ==> res.value == Filter(s, KeptFile)
  {
    var _ :- CheckNames(s);
    Ok(Filter(s, KeptFile))
  }

  /** A record the listing clean-up delivers. */
  ghost predicate Delivered(r: Record)
  {
    && (forall k :: k in ListingOnlyKeys ==> k !in r)
    && "circFilename" in r && r["circFilename"].Str? && !EndsWith(r["circFilename"].s, ".null")
    && "cirDisplayDate" in r && r["cirDisplayDate"].Str? && IsIso(r["cirDisplayDate"].s)
  }

  /** A stripped record whose date parsed and whose name passed the filter is delivered. */
  lemma ParsedDelivered(u: Record, x: Record)
    requires forall k :: k in ListingOnlyKeys ==> k !in u
    requires ParseRecordDate(u) == Ok(x)
    requires StrField(x, "circFilename").Ok? && KeptFile(x)
    ensures Delivered(x)
  {
    ParseRecordDateSpec(u);
    ParseSound(u["cirDisplayDate"].s);
  }

  lemma ParseDatesKeepsLinks(s: seq<Record>, r: seq<Record>)
    requires ParseDates(s) == Ok(r)
    ensures |r| == |s| && forall i :: 0 <= i < |s| ==> Link(r[i]) == Link(s[i])
  {
    forall i | 0 <= i < |s| ensures Link(r[i]) == Link(s[i]) {
      ParseRecordDateSpec(s[i]);
    }
  }

  /** The cleaned listing as one expression: the listing-only fields removed,
      the first record per link kept (a `KeyError` if a link is missing), the
      dates rewritten, the `.null` files dropped. */
  function CleanListing(listing: seq<Record>): Result<seq<Record>>
  {
    var stripped := Map(listing, StripListingFields);
    if !AllLinked(stripped) then Err(MissingKey("circFilelink"))
    else
      var dated :- ParseDates(Dedup(stripped, Link));
      DropNullFiles(dated)
  }

  /** `get_all_circulars` after the listing has been fetched: strip, deduplicate,
      parse the dates, drop the `.null` files. */
  method GetAllCirculars(listing: seq<Record>) returns (res: Result<seq<Record>>)
    ensures res == CleanListing(listing)
    ensures res.Ok? ==> forall i :: 0 <= i < |res.value| ==> Delivered(res.value[i])
    ensures res.Ok? ==> forall i, j :: 0 <= i < j < |res.value| ==> Link(res.value[i]) != Link(res.value[j])
    ensures res.Ok? ==> |res.value| <= |listing|
    ensures !AllLinked(listing) ==> res == Err(MissingKey("circFilelink"))
  {
    var stripped := Map(listing, StripListingFields);
    assert "circFilelink" !in ListingOnlyKeys;
    assert forall i :: 0 <= i < |listing| ==> ("circFilelink" in stripped[i] <==> "circFilelink" in listing[i]);
    var unique :- RemoveDuplicateCirculars(stripped);
    var dated :- ParseDates(unique);
    var kept :- DropNullFiles(dated);
    CleanupDelivers(stripped, unique, dated, kept);
    return Ok(kept);
  }

  lemma CleanupDelivers(stripped: seq<Record>, unique: seq<Record>, dated: seq<Record>, kept: seq<Record>)
    requires forall i :: 0 <= i < |stripped| ==> forall k :: k in ListingOnlyKeys ==> k !in stripped[i]
    requires unique == Dedup(stripped, Link)
    requires ParseDates(unique) == Ok(dated)
    requires DropNullFiles(dated) == Ok(kept)
    ensures forall i :: 0 <= i < |kept| ==> Delivered(kept[i])
    ensures forall i, j :: 0 <= i < j < |kept| ==> Link(kept[i]) != Link(kept[j])
    ensures |kept| <= |stripped|
  {
    CleanupDistinct(stripped, unique, dated, kept);
    AllKeptDelivered(stripped, unique, dated, kept);
  }

  /** The links stay distinct through the date rewrite and the filter, and nothing is added. */
  lemma CleanupDistinct(stripped: seq<Record>, unique: seq<Record>, dated: seq<Record>, kept: seq<Record>)
    requires forall i :: 0 <= i < |stripped| ==> forall k :: k in ListingOnlyKeys ==> k !in stripped[i]
    requires unique == Dedup(stripped, Link)
    requires ParseDates(unique) == Ok(dated)
    requires DropNullFiles(dated) == Ok(kept)
    ensures forall i, j :: 0 <= i < j < |kept| ==> Link(kept[i]) != Link(kept[j])
    ensures |kept| <= |stripped|
  {
    ParseDatesKeepsLinks(unique, dated);
    RewriteFilterDistinct(unique, dated, kept);
  }

  /** Rewriting records without touching their links, then filtering, keeps the links distinct. */
  lemma RewriteFilterDistinct(unique: seq<Record>, dated: seq<Record>, kept: seq<Record>)
    requires forall i, j :: 0 <= i < j < |unique| ==> Link(unique[i]) != Link(unique[j])
    requires |dated| == |unique| && forall i :: 0 <= i < |unique| ==> Link(dated[i]) == Link(unique[i])
    requires kept == Filter(dated, KeptFile)
    ensures forall i, j :: 0 <= i < j < |kept| ==> Link(kept[i]) != Link(kept[j])
    ensures |kept| <= |unique|
  {
    FilterKeepsDistinct(dated, KeptFile, Link);
  }

  lemma AllKeptDelivered(stripped: seq<Record>, unique: seq<Record>, dated: seq<Record>, kept: seq<Record>)
    requires forall i :: 0 <= i < |stripped| ==> forall k :: k in ListingOnlyKeys ==> k !in stripped[i]
    requires unique == Dedup(stripped, Link)
    requires ParseDates(unique) == Ok(dated)
    requires DropNullFiles(dated) == Ok(kept)
    ensures forall i :: 0 <= i < |kept| ==> Delivered(kept[i])
  {
    forall i | 0 <= i < |kept| ensures Delivered(kept[i]) {
      KeptDelivered(stripped, unique, dated, kept, i);
    }
  }

  /** Each record left at the end came, stripped, from the listing and passed every step. */
  lemma KeptDelivered(stripped: seq<Record>, unique: seq<Record>, dated: seq<Record>, kept: seq<Record>, i: nat)
    requires forall i :: 0 <= i < |stripped| ==> forall k :: k in ListingOnlyKeys ==> k !in stripped[i]
    requires unique == Dedup(stripped, Link)
    requires ParseDates(unique) == Ok(dated)
    requires DropNullFiles(dated) == Ok(kept)
    requires i < |kept|
    ensures Delivered(kept[i])
  {
    var m := IndexIn(dated, kept[i]);
    var n := IndexIn(stripped, unique[m]);
    ParsedDelivered(unique[m], dated[m]);
  }

  /** Deduplication keeps exactly the first listing entry for each link. */
  lemma DedupKeepsFirstLinks(s: seq<Record>) returns (idx: seq<nat>)
    ensures SubseqAt(Dedup(s, Link), s, idx)
    ensures forall i :: IsFirst(s, Link, i) <==> i in idx
  {
    idx := DedupIsFirstOccurrences(s, Link);
    forall i | i in idx ensures IsFirst(s, Link, i) {
      var j :| 0 <= j < |idx| && idx[j] == i;
    }
  }
}

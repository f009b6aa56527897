/**
 The digest resolver of `find_registry_tags`: from a repository's decoded tag
 listing and a source tag, the names of every tag that points at the same
 manifest digest as the source tag, in listing order.
 */
module HarborLookup {
  import opened Results
  import opened Records

  /** The digest owned by the first record named `srcTag`, if the listing has one. */
  function SourceDigest(listing: seq<TagRecord>, srcTag: string): (d: Option<string>)
    ensures d.Some? <==> exists i :: 0 <= i < |listing| && listing[i].name == srcTag
    ensures d.Some? ==> listing[FirstNamed(listing, srcTag).value].digest == d.value
  {
    NameFilterHeadIsFirstMatch(listing, srcTag);
    var named := Filter(listing, Name, srcTag);
    if |named| == 0 then None else Some(named[0].digest)
  }

  /**
   The duplicate tags of `srcTag`: the single-element `[srcTag]` when no record
   carries that name, otherwise the names of all records sharing the digest of
   the first record so named. The source tag is always among them.
   */
  function FindRegistryTags(listing: seq<TagRecord>, srcTag: string): (tags: seq<string>)
    ensures |tags| >= 1
    ensures srcTag in tags
  {
    match SourceDigest(listing, srcTag)
    case None => [srcTag]
    case Some(d) =>
      var shared := Filter(listing, Digest, d);
      var k := FirstNamed(listing, srcTag).value;
      FilterCounts(listing, Digest, d);
      assert listing[k] in multiset(listing);
      assert listing[k] in shared;
      MapNames(shared)
  }

  /** An absent source tag is not an error: the result is exactly `[srcTag]`. */
  lemma NoMatchFallback(listing: seq<TagRecord>, srcTag: string)
    requires forall i :: 0 <= i < |listing| ==> listing[i].name != srcTag
    ensures FindRegistryTags(listing, srcTag) == [srcTag]
  {
  }

  /**
   When the source tag is listed, a name is returned exactly when some record
   carries that name and the source tag's digest (soundness and completeness).
   */
  lemma DigestSoundAndComplete(listing: seq<TagRecord>, srcTag: string, t: string)
    requires SourceDigest(listing, srcTag).Some?
    ensures t in FindRegistryTags(listing, srcTag) <==>
      exists i :: 0 <= i < |listing| && listing[i].name == t
        && listing[i].digest == SourceDigest(listing, srcTag).value
  {
    var d := SourceDigest(listing, srcTag).value;
    var shared := Filter(listing, Digest, d);
    var tags := FindRegistryTags(listing, srcTag);
    FilterCounts(listing, Digest, d);
    if t in tags {
      var j :| 0 <= j < |tags| && tags[j] == t;
      assert shared[j] in multiset(shared);
      assert shared[j] in multiset(listing);
      var i :| 0 <= i < |listing| && listing[i] == shared[j];
      assert listing[i].name == t && listing[i].digest == d;
    }
    if exists i :: 0 <= i < |listing| && listing[i].name == t && listing[i].digest == d {
      var i :| 0 <= i < |listing| && listing[i].name == t && listing[i].digest == d;
      assert listing[i] in multiset(listing);
      assert listing[i] in multiset(shared);
      var j :| 0 <= j < |shared| && shared[j] == listing[i];
      assert tags[j] == t;
    }
  }

  /**
   When the source tag is listed, the result is the listing's names restricted
   to the records with the source digest: it is the name projection of a
   subsequence of the listing holding every such record as often as the listing
   does and no other record. In particular it keeps listing order.
   */
  lemma TagsAreDigestRestriction(listing: seq<TagRecord>, srcTag: string)
    requires SourceDigest(listing, srcTag).Some?
    ensures exists recs: seq<TagRecord> ::
      && IsSubsequence(recs, listing)
      && (forall x: TagRecord :: multiset(recs)[x] ==
            if x.digest == SourceDigest(listing, srcTag).value then multiset(listing)[x] else 0)
      && FindRegistryTags(listing, srcTag) == MapNames(recs)
    ensures IsSubsequence(FindRegistryTags(listing, srcTag), MapNames(listing))
  {
    var recs := Filter(listing, Digest, SourceDigest(listing, srcTag).value);
    FilterIsSubsequence(listing, Digest, SourceDigest(listing, srcTag).value);
    FilterCounts(listing, Digest, SourceDigest(listing, srcTag).value);
    MapNamesKeepsSubsequence(recs, listing);
  }

  /**
   The resolver written as two explicit linear scans: one for the first record
   named `srcTag`, one collecting the names of records with its digest.
   */
  method ScanRegistryTags(listing: seq<TagRecord>, srcTag: string) returns (tags: seq<string>)
    ensures tags == FindRegistryTags(listing, srcTag)
  {
    var k := 0;
    while k < |listing| && listing[k].name != srcTag
      invariant 0 <= k <= |listing|
      invariant forall j :: 0 <= j < k ==> listing[j].name != srcTag
    {
      k := k + 1;
    }
    if k == |listing| {
      assert SourceDigest(listing, srcTag).None?;
      return [srcTag];
    }
    var d := listing[k].digest;
    assert FirstNamed(listing, srcTag) == Some(k);
    assert SourceDigest(listing, srcTag) == Some(d);
    tags := [];
    var i := 0;
    while i < |listing|
      invariant 0 <= i <= |listing|
      invariant tags == MapNames(Filter(listing[..i], Digest, d))
    {
      ScanStep(listing, i, d);
      if listing[i].digest == d {
        tags := tags + [listing[i].name];
      }
      i := i + 1;
    }
    assert listing[..i] == listing;
    assert FindRegistryTags(listing, srcTag) == MapNames(Filter(listing, Digest, d));
  }

  /** One step of the digest scan: the names collected so far grow by the next record's name exactly when it has the digest. */
  lemma ScanStep(listing: seq<TagRecord>, i: nat, d: string)
    requires i < |listing|
    ensures MapNames(Filter(listing[..i + 1], Digest, d)) ==
      MapNames(Filter(listing[..i], Digest, d)) + (if listing[i].digest == d then [listing[i].name] else [])
  {
    assert listing[..i + 1] == listing[..i] + [listing[i]];
    FilterSnoc(listing[..i], listing[i], Digest, d);
  }
}

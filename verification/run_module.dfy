/**
 The part of `run_module` that turns the resolved tags into the module's
 result: the `changed` flag, the echoed source tag, and `alternative_tags`,
 a copy of the tags with the source tag removed once.
 */
module RunModule {
  import opened Results
  import opened Records
  import PyList
  import HarborLookup

  /** The fields the module reports back. */
  datatype ModuleResult = ModuleResult(
    changed: bool,
    srcTag: string,
    tags: seq<string>,
    alternativeTags: seq<string>)

  /** How the module ends: `exit_json` with its result, or `fail_json` with the text of the exception caught. */
  datatype Outcome = Exit(result: ModuleResult) | Fail(msg: string)

  /**
   The result for already-resolved `tags`. With more than one tag the module
   reports a change and removes the first `srcTag` from a copy of `tags`,
   which fails exactly when `srcTag` is missing; otherwise nothing changes and
   there are no alternatives.
   */
  function DeriveResult(srcTag: string, tags: seq<string>): (o: Outcome)
    ensures o.Fail? <==> |tags| > 1 && srcTag !in tags
    ensures o.Fail? ==> o.msg == PyList.RemoveMissing
    ensures o.Exit? ==> o.result.srcTag == srcTag && o.result.tags == tags
    ensures o.Exit? ==> (o.result.changed <==> |tags| > 1)
    ensures o.Exit? && |tags| <= 1 ==> o.result.alternativeTags == []
    ensures o.Exit? && |tags| > 1 ==>
      var k := PyList.IndexOf(tags, srcTag);
      o.result.alternativeTags == tags[..k] + tags[k + 1..]
  {
    if |tags| > 1 then
      match PyList.Remove(tags, srcTag)
      case Ok(alternatives) => Exit(ModuleResult(true, srcTag, tags, alternatives))
      case Raised(e) => Fail(e)
    else
      Exit(ModuleResult(false, srcTag, tags, []))
  }

  /** The removal never raises on tags the resolver produced, so the module always exits normally. */
  lemma RemoveNeverRaises(listing: seq<TagRecord>, srcTag: string)
    ensures DeriveResult(srcTag, HarborLookup.FindRegistryTags(listing, srcTag)).Exit?
  {
  }

  /**
   The whole decision logic of the module for a decoded listing: the resolved
   tags, the change flag, and the alternatives, which are the resolved tags
   with the first copy of the source tag cut out and the rest kept in order.
   */
  function Resolve(listing: seq<TagRecord>, srcTag: string): (r: ModuleResult)
    ensures r.srcTag == srcTag
    ensures r.tags == HarborLookup.FindRegistryTags(listing, srcTag)
    ensures r.changed <==> |r.tags| > 1
    ensures !r.changed ==> r.alternativeTags == []
    ensures r.changed ==> |r.alternativeTags| == |r.tags| - 1
    ensures r.changed ==> multiset(r.alternativeTags) + multiset{srcTag} == multiset(r.tags)
    ensures r.changed ==> r.alternativeTags == PyList.Remove(r.tags, srcTag).value
    ensures DeriveResult(srcTag, r.tags) == Exit(r)
  {
    var tags := HarborLookup.FindRegistryTags(listing, srcTag);
    RemoveNeverRaises(listing, srcTag);
    PyList.RemoveTakesOneCopy(tags, srcTag);
    DeriveResult(srcTag, tags).result
  }

  /**
   When there are several tags and the source tag is among them (always the
   case for resolved tags, by `RemoveNeverRaises`), a tag is resolved exactly
   when it is an alternative or the source tag itself.
   */
  lemma AlternativesCoverTags(srcTag: string, tags: seq<string>, t: string)
    requires |tags| > 1 && srcTag in tags
    ensures DeriveResult(srcTag, tags).Exit?
    ensures t in DeriveResult(srcTag, tags).result.alternativeTags || t == srcTag <==> t in tags
  {
    PyList.RemoveKeepsElements(tags, srcTag);
    assert DeriveResult(srcTag, tags).result.alternativeTags == PyList.Remove(tags, srcTag).value;
  }

  /** With no record named `srcTag` the module reports `[srcTag]`, no alternatives and no change. */
  lemma NoMatchResult(listing: seq<TagRecord>, srcTag: string)
    requires forall i :: 0 <= i < |listing| ==> listing[i].name != srcTag
    ensures Resolve(listing, srcTag) == ModuleResult(false, srcTag, [srcTag], [])
  {
  }

  /** A three-tag listing in which `v1` and `v2` share one digest and `v3` has another. */
  function SampleListing(): seq<TagRecord> {
    [TagRecord("v1", "sha:A"), TagRecord("v2", "sha:A"), TagRecord("v3", "sha:B")]
  }

  /** A tag that shares its digest reports the other tag as its alternative. */
  lemma SharedDigestExample()
    ensures Resolve(SampleListing(), "v1") == ModuleResult(true, "v1", ["v1", "v2"], ["v2"])
  {
    var l := SampleListing();
    assert l[1..] == [l[1], l[2]] && l[2..] == [l[2]];
    assert Filter(l, Name, "v1") == [l[0]];
    assert HarborLookup.SourceDigest(l, "v1") == Some("sha:A");
    assert Filter(l, Digest, "sha:A") == [l[0], l[1]];
    assert HarborLookup.FindRegistryTags(l, "v1") == ["v1", "v2"];
    assert PyList.Remove(["v1", "v2"], "v1") == Ok(["v2"]);
  }

  /** A tag alone on its digest reports itself only. */
  lemma LoneDigestExample()
    ensures Resolve(SampleListing(), "v3") == ModuleResult(false, "v3", ["v3"], [])
  {
    var l := SampleListing();
    assert l[1..] == [l[1], l[2]] && l[2..] == [l[2]];
    assert Filter(l, Name, "v3") == [l[2]];
    assert HarborLookup.SourceDigest(l, "v3") == Some("sha:B");
    assert Filter(l, Digest, "sha:B") == [l[2]];
    assert HarborLookup.FindRegistryTags(l, "v3") == ["v3"];
  }
}

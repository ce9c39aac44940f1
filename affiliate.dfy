/** The affiliate link builder (src/services/amazonAffiliate.service.js). */
module Affiliate {
  import opened Wrappers
  import opened Text
  import opened Extractor

  /** The two errors `buildAffiliateLink` throws. */
  datatype LinkError = MissingAsin | MissingTag

  /** The store's address; the link goes on with the `/dp/` segment. */
  const StoreHost := "https://www.amazon.com.br"
  const LinkBase := StoreHost + DpSegment
  const TagQuery := "/?tag="

  /** A missing or empty string argument (JavaScript falsiness). */
  predicate Blank(s: Option<string>) { s.None? || s.value == "" }

  /** `buildAffiliateLink(asin, tag)`: the ASIN check comes first, then the tag check, then the link. */
  function BuildAffiliateLink(asin: Option<string>, tag: Option<string>): (r: Result<string, LinkError>)
    ensures r == Failure(MissingAsin) <==> Blank(asin)
    ensures r == Failure(MissingTag) <==> !Blank(asin) && Blank(tag)
    ensures r.Success? ==> r.value == LinkBase + asin.value + TagQuery + tag.value
  {
    if Blank(asin) then Failure(MissingAsin)
    else if Blank(tag) then Failure(MissingTag)
    else Success(LinkBase + asin.value + TagQuery + tag.value)
  }

  /** No occurrence of `/dp/` starts inside the host part of the link. */
  lemma NoSegmentInHost(url: string, j: nat)
    requires StartsWith(url, LinkBase) && j < |StoreHost|
    ensures !MatchesAt(url, DpSegment, j)
  {
    assert url[..|LinkBase|] == LinkBase;
    if j + |DpSegment| <= |url| {
      var w := url[j..j + |DpSegment|];
      if j + 1 < |StoreHost| {
        assert w[1] == url[j + 1] == StoreHost[j + 1];
        assert StoreHost[j + 1] in StoreHost;
        assert 'd' !in StoreHost;
        assert w[1] != DpSegment[1];
      } else {
        assert w[0] == url[j] == LinkBase[j] == 'r';
        assert w[0] != DpSegment[0];
      }
    }
  }

  /** Round trip: the ASIN extractor reads back the ASIN a built link was made from. */
  lemma ExtractAsinOfAffiliateLink(asin: string, tag: string)
    requires IsAsin(asin) && tag != ""
    ensures BuildAffiliateLink(Some(asin), Some(tag)).Success?
    ensures ExtractAsin(BuildAffiliateLink(Some(asin), Some(tag)).value) == Some(asin)
  {
    var url := LinkBase + asin + TagQuery + tag;
    var at := |StoreHost|;
    assert url[at..at + |DpSegment|] == DpSegment;
    assert url[at + |DpSegment|..at + |DpSegment| + AsinLength] == asin;
    assert MatchesAt(url, DpSegment, at);
    forall k: nat | k < at
      ensures !MatchesAt(url, DpSegment, k)
    {
      NoSegmentInHost(url, k);
    }
  }
}

/** Media URLs shown in the preview: `ipfs://` links are sent through an
    HTTP gateway. */
module Gateway {
  import opened Optional
  import opened Strings
  import opened Assets

  const Scheme := "ipfs://"
  /** The gateway the asset preview uses. */
  const InfuraPrefix := "https://ipfs.infura-ipfs.io/ipfs/"

  /** Rewrites the first `ipfs://` of `url` to the gateway `prefix`. */
  function Rewrite(url: string, prefix: string): (r: string)
    ensures !Contains(url, Scheme) ==> r == url
    ensures forall i :: FirstOccurrence(url, Scheme, i) ==> r == url[..i] + prefix + url[i + |Scheme|..]
  {
    ReplaceFirst(url, Scheme, prefix)
  }

  /** The preview address of the cover image: none (a placeholder is shown)
      when the image is empty, otherwise the image rewritten to the Infura
      gateway. */
  function CoverSrc(image: string): (r: Option<string>)
    ensures r.None? <==> image == []
    ensures r.Some? && !Contains(image, Scheme) ==> r.value == image
    ensures forall i :: FirstOccurrence(image, Scheme, i) ==>
              r == Some(image[..i] + InfuraPrefix + image[i + |Scheme|..])
  {
    if |image| > 0 then Some(Rewrite(image, InfuraPrefix)) else None
  }

  /** One preview tile of an additional file. */
  datatype Preview = Preview(src: string, alt: string)

  /** The preview tiles of the additional files, in list order; none (a
      placeholder is shown) when the list is missing or empty. */
  function FilePreviews(files: Option<seq<FileSlot>>): (r: seq<Preview>)
    ensures files.None? ==> r == []
    ensures files.Some? ==> |r| == |files.value|
    ensures files.Some? ==> forall j :: 0 <= j < |r| ==>
              r[j].alt == files.value[j].file.name
              && r[j].src == Rewrite(files.value[j].file.src, InfuraPrefix)
  {
    match files
    case None => []
    case Some(fs) =>
      seq(|fs|, j requires 0 <= j < |fs| => Preview(Rewrite(fs[j].file.src, InfuraPrefix), fs[j].file.name))
  }

  /** A content address `ipfs://<cid>` becomes `<prefix><cid>`. */
  lemma RewriteIpfsUri(cid: string, prefix: string)
    ensures Rewrite(Scheme + cid, prefix) == prefix + cid
  {
    ReplaceFirstOfPrefixed(Scheme, cid, prefix);
  }

  /** A cover image given as `ipfs://<cid>` is previewed through the
      Infura gateway as `<InfuraPrefix><cid>`. */
  lemma CoverSrcOfIpfsUri(cid: string)
    ensures CoverSrc(Scheme + cid) == Some(InfuraPrefix + cid)
  {
    RewriteIpfsUri(cid, InfuraPrefix);
  }

  /** Only the first `ipfs://` is rewritten: a second one inside the content
      address survives into the gateway URL. */
  lemma {:induction false} SecondSchemeSurvives(cid: string, prefix: string)
    requires Contains(cid, Scheme)
    ensures Contains(Rewrite(Scheme + cid, prefix), Scheme)
  {
    RewriteIpfsUri(cid, prefix);
    var k :| 0 <= k <= |cid| && OccursAt(cid, Scheme, k);
    OccursInSuffix(prefix, cid, Scheme, k);
  }

  /** The Infura prefix itself holds no `ipfs://`: as long as the scheme does
      not occur again in the content address, rewriting a second time
      changes nothing. */
  lemma RewriteIdempotent(cid: string)
    requires !Contains(cid, Scheme)
    ensures Rewrite(Rewrite(Scheme + cid, InfuraPrefix), InfuraPrefix) == Rewrite(Scheme + cid, InfuraPrefix)
  {
    RewriteIpfsUri(cid, InfuraPrefix);
    forall i | 0 <= i <= |InfuraPrefix + cid|
      ensures !OccursAt(InfuraPrefix + cid, Scheme, i)
    {
      NoSchemeAfterPrefix(cid, i);
    }
  }

  /** No `ipfs://` starts at position `i` of the Infura prefix followed by a
      content address that holds none. */
  lemma NoSchemeAfterPrefix(cid: string, i: nat)
    requires !Contains(cid, Scheme)
    ensures !OccursAt(InfuraPrefix + cid, Scheme, i)
  {
    var s := InfuraPrefix + cid;
    var n := |InfuraPrefix|;
    if i + 7 <= |s| {
      if i >= n {
        assert s[i..i + 7] == cid[i - n..i - n + 7];
        assert !OccursAt(cid, Scheme, i - n);
      } else {
        PrefixHasNoScheme(i);
        assert s[i] == InfuraPrefix[i];
        if i + 4 < n {
          assert s[i + 4] == InfuraPrefix[i + 4];
        }
        assert s[i..i + 7][0] == s[i] && s[i..i + 7][4] == s[i + 4];
      }
    }
  }

  /** No position of the Infura prefix starts `i...:`. */
  lemma PrefixHasNoScheme(i: nat)
    requires i < |InfuraPrefix|
    ensures InfuraPrefix[i] == 'i' ==> i + 4 < |InfuraPrefix| && InfuraPrefix[i + 4] != ':'
  {
  }
}

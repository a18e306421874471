/**
 * Derivation of the direct-download URL from a share link's `href`
 * (nextcloud-copy-dl-qr-code.js, lines 110-113).
 */
module Links {
  import opened Wrappers

  /** The prefix `String.prototype.startsWith` is asked about. */
  const HttpPrefix: string := "http"
  /** The suffix appended to the share link. */
  const DownloadSuffix: string := "/download"

  predicate EndsWith(s: string, suffix: string)
  {
    |suffix| <= |s| && s[|s| - |suffix|..] == suffix
  }

  predicate EndsWithSlash(s: string)
  {
    |s| > 0 && s[|s| - 1] == '/'
  }

  /**
   * The guard of line 111: `!rawLink` rejects a missing attribute (null) and
   * the empty string; `startsWith('http')` is a plain prefix test.
   */
  predicate HrefAccepted(href: Option<string>)
    ensures HrefAccepted(href) ==> href.Some? && |href.value| >= |HttpPrefix|
  {
    href.Some? && href.value != "" && HttpPrefix <= href.value
  }

  /**
   * `replace(/\/$/, '')`: the pattern has no `g` and no `m` flag, so it removes
   * at most one '/', and only the one at the very end of the string.
   */
  function StripTrailingSlash(s: string): (r: string)
    ensures r <= s
    ensures |r| == |s| || |r| == |s| - 1
    ensures |r| < |s| <==> EndsWithSlash(s)
  {
    if EndsWithSlash(s) then s[..|s| - 1] else s
  }

  /** The download link of line 113. */
  function DownloadLink(raw: string): (r: string)
    ensures EndsWith(r, DownloadSuffix)
    ensures r[..|r| - |DownloadSuffix|] <= raw
    ensures |raw| - 1 <= |r| - |DownloadSuffix| <= |raw|
    ensures |r| - |DownloadSuffix| < |raw| <==> EndsWithSlash(raw)
  {
    var base := StripTrailingSlash(raw);
    assert (base + DownloadSuffix)[..|base|] == base;
    base + DownloadSuffix
  }

  /**
   * Independent description of the derived link: it is `p + "/download"`
   * exactly when `p` is the raw link with its one final '/' removed, or the raw
   * link itself when that does not end in '/'.
   */
  lemma DownloadLinkCharacterization(raw: string, p: string)
    ensures DownloadLink(raw) == p + DownloadSuffix
        <==> (p + "/" == raw || (p == raw && !EndsWithSlash(raw)))
  {
  }

  /** Exactly one '/' is removed: a link ending in "x//" keeps one of them. */
  lemma DownloadLinkOfSlashed(raw: string)
    ensures DownloadLink(raw + "/") == raw + DownloadSuffix
  {
  }

  /** A raw link that does not end in '/' is kept whole. */
  lemma DownloadLinkOfUnslashed(raw: string)
    requires !EndsWithSlash(raw)
    ensures DownloadLink(raw) == raw + DownloadSuffix
  {
  }

  /**
   * Two raw links give the same download link only when they are equal, or
   * one is the other (not ending in '/') plus a single trailing '/'.
   */
  lemma DownloadLinkCollision(a: string, b: string)
    ensures DownloadLink(a) == DownloadLink(b)
        <==> (a == b
              || (b == a + "/" && !EndsWithSlash(a))
              || (a == b + "/" && !EndsWithSlash(b)))
  {
  }

  /** The guard's emptiness test is subsumed by its prefix test. */
  lemma HrefAcceptedIsPrefixTest(href: Option<string>)
    ensures HrefAccepted(href)
        <==> href.Some? && |href.value| >= |HttpPrefix| && href.value[..|HttpPrefix|] == HttpPrefix
  {
  }

  /** A share link with and without its trailing '/', and a doubled slash. */
  lemma DownloadLinkExamples()
    ensures DownloadLink("https://host/s/abc/") == "https://host/s/abc/download"
    ensures DownloadLink("https://host/s/abc") == "https://host/s/abc/download"
    ensures DownloadLink("x//") == "x//download"
  {
    DownloadLinkOfSlashed("https://host/s/abc");
    DownloadLinkOfUnslashed("https://host/s/abc");
    DownloadLinkOfSlashed("x/");
  }

  /** The guard's edge cases: any "http" prefix passes, other schemes and absent or empty hrefs do not. */
  lemma HrefAcceptedExamples()
    ensures HrefAccepted(Some("httpx:whatever"))
    ensures !HrefAccepted(Some("ftp://host/s/abc"))
    ensures !HrefAccepted(Some("")) && !HrefAccepted(None)
  {
    assert "httpx:whatever"[..4] == HttpPrefix;
    assert "ftp://host/s/abc"[0] != HttpPrefix[0];
  }
}

/**
 * The link preview card: the domain shown for a URL, the preview looked up
 * for that domain, the image load flags and the bounded retry counter.
 */
module LinkPreview {
  import opened Wrappers
  import opened Text
  import UrlHost
  import Utils

  /** What the card shows for a domain. */
  datatype Preview = Preview(title: string, description: string, imageUrl: Option<string>, siteName: string)

  /** The one domain with a fixed preview. */
  const KnownSite: string := "skatehive.app"

  /** The fixed preview of the known site. */
  const KnownPreview: Preview := Preview(
    "SkateHive",
    "A community-owned web3 skateboarding app built on Hive blockchain",
    Some("https://www.skatehive.app/icon-512.png"),
    "SkateHive")

  const FallbackDescription: string := "Open this link in browser"

  /** How many retries the card allows. */
  const MaxRetries: nat := 3

  const RetriesExhausted: string := "Failed to load preview after multiple attempts"

  /**
   * The domain of a URL: its host name less the first `www.`, or the URL
   * itself when it does not parse. Both the memoised `domain` and `getDomain`
   * compute exactly this.
   */
  function Domain(url: string): (r: string)
    ensures UrlHost.Hostname(url).None? ==> r == url
    ensures UrlHost.Hostname(url).Some? ==> r == Utils.StripWww(UrlHost.Hostname(url).value)
  {
    match UrlHost.Hostname(url)
    case Some(host) => Utils.StripWww(host)
    case None => url
  }

  /** The domain of `https://host/path` (or `http://`) is the host itself when it holds no `www.`. */
  lemma DomainOfWebUrl(scheme: string, host: string, path: string)
    requires scheme == "http" || scheme == "https"
    requires host != [] && UrlHost.IsPlainHost(host)
    requires path == [] || path[0] == '/' || path[0] == '?' || path[0] == '#'
    requires !Contains(host, "www.")
    ensures Domain(scheme + "://" + host + path) == host
  {
    UrlHost.HostnameOfWebUrl(scheme, host, path);
  }

  /** The domain of `https://www.host/path` (or `http://`) is the host with that `www.` removed. */
  lemma DomainOfWwwWebUrl(scheme: string, host: string, path: string)
    requires scheme == "http" || scheme == "https"
    requires host != [] && UrlHost.IsPlainHost(host)
    requires path == [] || path[0] == '/' || path[0] == '?' || path[0] == '#'
    ensures Domain(scheme + "://" + "www." + host + path) == host
  {
    HostnameOfWwwUrl(scheme, host, path);
    StripLeadingWww(host);
  }

  /** The host name of `https://www.host/path` keeps its `www.`. */
  lemma HostnameOfWwwUrl(scheme: string, host: string, path: string)
    requires scheme == "http" || scheme == "https"
    requires host != [] && UrlHost.IsPlainHost(host)
    requires path == [] || path[0] == '/' || path[0] == '?' || path[0] == '#'
    ensures UrlHost.Hostname(scheme + "://" + "www." + host + path) == Some("www." + host)
  {
    WwwPlainHost(host);
    UrlHost.HostnameOfWebUrl(scheme, "www." + host, path);
    Regroup(scheme + "://", "www.", host, path);
  }

  /** `a + b + c + d` read with `b + c` as one piece. */
  lemma Regroup(a: string, b: string, c: string, d: string)
    ensures a + b + c + d == a + (b + c) + d
  {
  }

  /** Prefixing `www.` keeps a host plain. */
  lemma WwwPlainHost(host: string)
    requires UrlHost.IsPlainHost(host)
    ensures UrlHost.IsPlainHost("www." + host)
  {
    var www := "www." + host;
    forall k | 0 <= k < |www| ensures UrlHost.IsPlainHostChar(www[k]) {
      if k >= 4 {
        assert www[k] == host[k - 4];
      }
    }
  }

  /** Removing the first `www.` from `www.host` gives `host`. */
  lemma StripLeadingWww(host: string)
    ensures Utils.StripWww("www." + host) == host
  {
    var www := "www." + host;
    assert IsFirstOccurrence(www, "www.", 0) by {
      assert www[0..4] == "www.";
    }
    assert www[..0] + "" + www[4..] == host;
  }

  /** The preview for a domain: the fixed entry for the known site, else the domain under a generic description. */
  function PreviewFor(domain: string): (r: Preview)
    ensures domain == KnownSite ==> r == KnownPreview
    ensures domain != KnownSite ==>
              r.title == domain && r.siteName == domain && r.description == FallbackDescription && r.imageUrl == None
  {
    if domain == KnownSite then KnownPreview
    else Preview(domain, FallbackDescription, None, domain)
  }

  /** Only the known site's preview carries an image. */
  lemma ImageOnlyForKnownSite(domain: string)
    ensures PreviewFor(domain).imageUrl.Some? <==> domain == KnownSite
  {
  }

  /** The fallback preview names its domain: different domains give different previews. */
  lemma PreviewInjective(a: string, b: string)
    requires PreviewFor(a) == PreviewFor(b)
    ensures a == b
  {
  }

  /**
   * Whether the retry button is drawn, as the render is written: it is placed
   * in the branch reached only when `error` is falsy, yet asks for a truthy `error`.
   */
  function RetryButtonAsWritten(error: Option<string>, retryCount: nat): (shown: bool)
    ensures !shown
  {
    if Truthy(error) then false
    else Truthy(error) && retryCount < MaxRetries
  }

  /** The evidently intended render: the error view offers a retry while retries remain. */
  function RetryButtonShown(error: Option<string>, retryCount: nat): (shown: bool)
    ensures shown <==> error.Some? && error.value != "" && retryCount < MaxRetries
  {
    Truthy(error) && retryCount < MaxRetries
  }

  /**
   * With the intended render, an error shown with no retries spent offers the
   * button, where the written render does not; a press it offers stays within
   * the retry bound; and once the bound is reached it is gone.
   */
  lemma RetryShownWhenRetriesLeft(error: Option<string>, retryCount: nat)
    ensures RetryButtonShown(Some(RetriesExhausted), 0) && !RetryButtonAsWritten(Some(RetriesExhausted), 0)
    ensures RetryButtonShown(error, retryCount) ==> retryCount + 1 <= MaxRetries
    ensures !RetryButtonShown(error, MaxRetries)
  {
  }

  /** The card's state for one URL. */
  class LinkPreviewCard {
    const url: string
    var isLoading: bool
    var error: Option<string>
    var imageLoading: bool
    var imageError: bool
    var retryCount: nat

    /** The retry count stays within the allowed number of retries. */
    predicate Valid()
      reads this
    {
      retryCount <= MaxRetries
    }

    constructor(url: string)
      ensures this.url == url && Valid()
      ensures isLoading && error == None && !imageLoading && !imageError && retryCount == 0
      ensures !ShowsError()
    {
      this.url := url;
      isLoading := true;
      error := None;
      imageLoading := false;
      imageError := false;
      retryCount := 0;
    }

    /** The effect run for each URL: loading ends at once. */
    method OnUrl()
      modifies this
      ensures !isLoading
      ensures error == old(error) && imageLoading == old(imageLoading)
      ensures imageError == old(imageError) && retryCount == old(retryCount)
      ensures ShowsError() == old(ShowsError())
    {
      isLoading := false;
    }

    /**
     * `handleRetry`: below the limit, one more retry with the error flags
     * cleared and loading restarted; at the limit, only the final error.
     */
    method HandleRetry()
      modifies this
      requires Valid()
      ensures Valid()
      ensures old(retryCount) < MaxRetries ==>
                retryCount == old(retryCount) + 1 && error == None && !imageError && isLoading
      ensures old(retryCount) >= MaxRetries ==>
                retryCount == old(retryCount) && error == Some(RetriesExhausted) &&
                imageError == old(imageError) && isLoading == old(isLoading)
      ensures imageLoading == old(imageLoading)
    {
      if retryCount < MaxRetries {
        retryCount := retryCount + 1;
        error := None;
        imageError := false;
        isLoading := true;
      } else {
        error := Some(RetriesExhausted);
      }
    }

    /** The image starts loading. */
    method OnImageLoadStart()
      modifies this
      ensures imageLoading
      ensures isLoading == old(isLoading) && error == old(error) && imageError == old(imageError) && retryCount == old(retryCount)
      ensures ShowsError() == old(ShowsError())
    {
      imageLoading := true;
    }

    /** The image finished loading, successfully or not. */
    method OnImageLoadEnd()
      modifies this
      ensures !imageLoading
      ensures isLoading == old(isLoading) && error == old(error) && imageError == old(imageError) && retryCount == old(retryCount)
      ensures ShowsError() == old(ShowsError())
    {
      imageLoading := false;
    }

    /** The image failed: it is hidden from then on. */
    method OnImageError()
      modifies this
      ensures imageError && !imageLoading
      ensures isLoading == old(isLoading) && error == old(error) && retryCount == old(retryCount)
      ensures ShowsError() == old(ShowsError())
    {
      imageError := true;
      imageLoading := false;
    }

    /** The card shows its error view instead of the preview. */
    predicate ShowsError(): (shown: bool)
      reads this
      ensures shown <==> error.Some? && error.value != ""
    {
      Truthy(error)
    }

    /** The retry button is drawn, with the intended render (see `RetryButtonShown`). */
    predicate ShowsRetry(): (shown: bool)
      reads this
      ensures shown ==> ShowsError()
      ensures shown <==> ShowsError() && retryCount < MaxRetries
    {
      RetryButtonShown(error, retryCount)
    }

    /** The preview image is drawn: the preview has one and it has not failed. */
    predicate ShowsImage(): (shown: bool)
      reads this
      ensures shown <==> !ShowsError() && !imageError && Domain(url) == KnownSite
    {
      !ShowsError() && Truthy(PreviewFor(Domain(url)).imageUrl) && !imageError
    }
  }
}

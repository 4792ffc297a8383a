/**
 * The feed screen: a three-way mode cycle, the per-mode choice of query
 * state and title, the URL classification used for link previews, and the
 * web-view overlay state.
 */
module Feed {
  import opened Wrappers
  import opened Text
  import Utils

  /** The three feeds the screen can show. */
  datatype FeedMode = Latest | Trending | Following

  /** The mode a toggle moves to: latest, then trending, then following, then latest again. */
  function Next(m: FeedMode): (r: FeedMode)
    ensures r != m
  {
    if m == Latest then Trending
    else if m == Trending then Following
    else Latest
  }

  /** `n` toggles in a row. */
  function NextN(m: FeedMode, n: nat): FeedMode {
    if n == 0 then m else Next(NextN(m, n - 1))
  }

  /** Three toggles come back to the starting mode. */
  lemma ThreeTogglesReturn(m: FeedMode)
    ensures NextN(m, 3) == m
  {
  }

  /** The cycle has period three: only the number of toggles modulo 3 matters. */
  lemma {:induction false} TogglesModThree(m: FeedMode, n: nat)
    ensures NextN(m, n) == NextN(m, n % 3)
    decreases n
  {
    if n >= 3 {
      TogglesModThree(m, n - 3);
      NextNAdd(m, n - 3, 3);
      ThreeTogglesReturn(NextN(m, n - 3));
      assert (n - 3) % 3 == n % 3;
    }
  }

  /** Toggling `a` times and then `b` times is toggling `a + b` times. */
  lemma {:induction false} NextNAdd(m: FeedMode, a: nat, b: nat)
    ensures NextN(NextN(m, a), b) == NextN(m, a + b)
    decreases b
  {
    if b > 0 {
      NextNAdd(m, a, b - 1);
    }
  }

  /** Every mode is reached from every other within two toggles: the cycle visits all three. */
  lemma CycleVisitsAll(m: FeedMode, target: FeedMode)
    ensures exists n :: n < 3 && NextN(m, n) == target
  {
    if target == m {
      assert NextN(m, 0) == target;
    } else if target == Next(m) {
      assert NextN(m, 1) == target;
    } else {
      assert NextN(m, 2) == target;
    }
  }

  /** The lower-case name of a mode, as the toggle label spells it. */
  function ModeName(m: FeedMode): (r: string)
    ensures r != "" && ToLower(r) == r
  {
    match m
    case Latest => "latest"
    case Trending => "trending"
    case Following => "following"
  }

  /** The list header for a mode. */
  function Title(m: FeedMode): (r: string)
    ensures ToLower(r) == ModeName(m) + " posts"
  {
    TitlesLowered();
    if m == Latest then "Latest Posts"
    else if m == Trending then "Trending Posts"
    else "Following Posts"
  }

  /** The three titles lower-cased. */
  lemma TitlesLowered()
    ensures ToLower("Latest Posts") == "latest posts"
    ensures ToLower("Trending Posts") == "trending posts"
    ensures ToLower("Following Posts") == "following posts"
  {
  }

  /** Distinct modes have distinct titles. */
  lemma TitleInjective(a: FeedMode, b: FeedMode)
    ensures Title(a) == Title(b) ==> a == b
  {
  }

  /** The toggle button's accessibility label. */
  function ToggleLabel(m: FeedMode): (r: string)
    ensures r == "Switch to " + ModeName(Next(m)) + " posts"
  {
    "Switch to " + (if m == Latest then "trending" else if m == Trending then "following" else "latest") + " posts"
  }

  /** The label names exactly the mode the next toggle produces: different modes after the toggle, different labels. */
  lemma ToggleLabelNamesNext(a: FeedMode, b: FeedMode)
    ensures ToggleLabel(a) == ToggleLabel(b) <==> Next(a) == Next(b)
  {
    if ToggleLabel(a) == ToggleLabel(b) {
      assert ToggleLabel(a)[10] == ToggleLabel(b)[10];
    }
  }

  /** What one feed query hook gives: its data, loading flag, refetch action and refetching flag. */
  datatype Query<D, R> = Query(data: D, isLoading: bool, refetch: R, isRefetching: bool)

  /** The three queries the screen holds at once. */
  datatype Queries<D, R> = Queries(latest: Query<D, R>, trending: Query<D, R>, following: Query<D, R>)

  /** The query that belongs to a mode. */
  function QueryFor<D, R>(m: FeedMode, qs: Queries<D, R>): (q: Query<D, R>)
    ensures m == Latest ==> q == qs.latest
    ensures m == Trending ==> q == qs.trending
    ensures m == Following ==> q == qs.following
  {
    match m
    case Latest => qs.latest
    case Trending => qs.trending
    case Following => qs.following
  }

  /** The shown data: the screen picks each field by its own chain of mode tests. */
  function FeedData<D, R>(m: FeedMode, qs: Queries<D, R>): (r: D)
    ensures r == QueryFor(m, qs).data
  {
    if m == Latest then qs.latest.data else if m == Trending then qs.trending.data else qs.following.data
  }

  function IsLoading<D, R>(m: FeedMode, qs: Queries<D, R>): (r: bool)
    ensures r == QueryFor(m, qs).isLoading
  {
    if m == Latest then qs.latest.isLoading else if m == Trending then qs.trending.isLoading else qs.following.isLoading
  }

  function Refetch<D, R>(m: FeedMode, qs: Queries<D, R>): (r: R)
    ensures r == QueryFor(m, qs).refetch
  {
    if m == Latest then qs.latest.refetch else if m == Trending then qs.trending.refetch else qs.following.refetch
  }

  function IsRefetching<D, R>(m: FeedMode, qs: Queries<D, R>): (r: bool)
    ensures r == QueryFor(m, qs).isRefetching
  {
    if m == Latest then qs.latest.isRefetching else if m == Trending then qs.trending.isRefetching else qs.following.isRefetching
  }

  /** The four separately selected fields always come from one and the same query: the current mode's. */
  lemma SelectionIsConsistent<D, R>(m: FeedMode, qs: Queries<D, R>)
    ensures Query(FeedData(m, qs), IsLoading(m, qs), Refetch(m, qs), IsRefetching(m, qs)) == QueryFor(m, qs)
  {
  }

  /** The account whose following feed is requested: the signed-in user, or the spectator pseudo-user. */
  function FollowingUser(username: Option<string>): (r: string)
    ensures r != ""
    ensures Truthy(username) ==> r == username.value
    ensures !Truthy(username) ==> r == "SPECTATOR"
  {
    if Truthy(username) then username.value else "SPECTATOR"
  }

  /** What `processUrl` answers. */
  datatype UrlDecision = UrlDecision(shouldPreview: bool, url: string)

  /** `processUrl`: preview only a well-formed web URL on a known domain; always hand back the trimmed text. */
  function ProcessUrl(content: string): (r: UrlDecision)
    ensures r.url == Trim(content)
    ensures r.shouldPreview <==> Utils.IsWebUrl(Trim(content)) && Utils.IsKnownDomain(Trim(content))
  {
    var meta := Utils.ValidateUrl(content);
    UrlDecision(meta.isUrl && Utils.IsKnownDomain(meta.sanitizedUrl), meta.sanitizedUrl)
  }

  /** Processing the returned url again changes nothing. */
  lemma ProcessUrlIdempotent(content: string)
    ensures ProcessUrl(ProcessUrl(content).url) == ProcessUrl(content)
  {
    TrimIdempotent(content);
  }

  /** Only non-blank content can be previewed. */
  lemma PreviewNeedsContent(content: string)
    requires ProcessUrl(content).shouldPreview
    ensures !AllWhitespace(content)
  {
    assert Trim(content) != [];
  }

  /** The screen's own state: the current mode and the URL open in the overlay, if any. */
  class FeedScreen {
    var feedMode: FeedMode
    var webViewUrl: Option<string>

    /** The screen opens on the latest feed with no overlay. */
    constructor()
      ensures feedMode == Latest && webViewUrl == None
    {
      feedMode := Latest;
      webViewUrl := None;
    }

    /** `handleToggle`: advance the mode one step; the overlay is untouched. */
    method HandleToggle()
      modifies this
      ensures feedMode == Next(old(feedMode))
      ensures webViewUrl == old(webViewUrl)
    {
      feedMode := if feedMode == Latest then Trending
                  else if feedMode == Trending then Following
                  else Latest;
    }

    /** `openWebView`. */
    method OpenWebView(url: string)
      modifies this
      ensures webViewUrl == Some(url)
      ensures feedMode == old(feedMode)
      ensures OverlayShown() <==> url != ""
    {
      webViewUrl := Some(url);
    }

    /** `closeWebView`. */
    method CloseWebView()
      modifies this
      ensures webViewUrl == None
      ensures feedMode == old(feedMode)
      ensures !OverlayShown()
    {
      webViewUrl := None;
    }

    /** A URL pressed inside a post opens the overlay on its trimmed form. */
    method OnUrlPress(url: string)
      modifies this
      ensures webViewUrl == Some(Trim(url))
      ensures feedMode == old(feedMode)
      ensures OverlayShown() <==> !AllWhitespace(url)
    {
      var meta := Utils.ValidateUrl(url);
      OpenWebView(meta.sanitizedUrl);
    }

    /** The overlay is drawn only while the URL state is a non-empty string. */
    predicate OverlayShown(): (shown: bool)
      reads this
      ensures shown <==> webViewUrl.Some? && webViewUrl.value != ""
    {
      Truthy(webViewUrl)
    }
  }
}

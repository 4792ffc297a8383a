# SkateHive mobile app: a Dafny model of its decision and string logic

The app is a React Native client for a skateboarding community on the Hive
blockchain. Most of its code is user interface. This project models the
parts that make decisions or transform strings, and proves properties of them:

- **Post bodies and URLs** (`lib/utils.ts`, modules `Utils`, `Text`, `UrlHost`).
  - Media extraction finds markdown images and IPFS-hosted iframe videos in a post body.
  - URL validation trims its input and tests it against an `http(s)://` pattern.
  - The known-domain allow-list checks a URL's host name.
- **Credentials at the call sites.**
  - The API test screen (`app/fetch.tsx`, modules `Fetch`, `Base64`) sends HTTP Basic credentials (section 2 of RFC 7617), base64-encoded as section 4 of RFC 4648 specifies.
  - The comments sheet (`components/Feed/Comments.tsx`, module `Comments`) posts with a Bearer token (section 2.1 of RFC 6750).
  - The sign-in screen (`components/auth/AuthScreen.tsx`, module `AuthScreen`) has the login guards and the failure-to-message dispatch.
- **Small state machines.**
  - The feed-mode cycle and per-mode selection (`components/Feed/Feed.tsx`, module `Feed`).
  - The paginated magazine list (`components/Magazine.tsx`, module `Magazine`).
  - The link preview card with its bounded retry counter (`components/Feed/LinkPreview.tsx`, module `LinkPreview`).
  - The loading-effect registry (`components/ui/loading-effects/index.ts`, module `LoadingEffects`).

How the model is built:

- Pure code becomes functions with contracts. Components whose handlers set state become classes whose methods say exactly which fields change.
- A handler that awaits a request while a flag is raised is split in two: a `Begin…` method runs up to the request, and a `Finish…` method runs after it. The request's result is a parameter, one of a small set of outcome values. The flags are `isSending`, `isLoadingMore`, `isRefreshing`, `isLoading`, `isPublicLoading` and `isAuthLoading`.
- Every request a class sends is appended to a log field. "Nothing was sent" is then a statement about that log.
- JavaScript truthiness of a `string | null` is `Wrappers.Truthy`: both `null` and `""` are falsy.
- The regular expressions are hand-written scanners. A lazy `.*?` never crosses a line terminator, so each match is the first choice of each literal piece on the current line.
- `trim` and `\s` share one whitespace set, the ECMAScript one.

## Model

| member | source | states |
|---|---|---|
| Utils.ExtractMediaFromBody | lib/utils.ts:9-33 | returns exactly `MediaOf(body)`: the image entries of all image matches in body order, then the video entries of all iframe matches in body order |
| Utils.MediaOf | lib/utils.ts:9-33 | at most one entry per match, each with a non-empty url |
| Utils.ImageSpanInMedia | lib/utils.ts:13-18 | every image match whose first parenthesised text is a non-empty `u` puts `Media(Image, u)` in the list, after the entries of the image matches before it, before those after it, and ahead of every video |
| Utils.VideoSpanInMedia | lib/utils.ts:22-29 | every iframe match whose `src` is a non-empty `u` containing `ipfs.skatehive.app` puts `Media(Video, u)` in the list, after every image entry and the entries of the iframe matches before it, and before those after it |
| Utils.PushImages | lib/utils.ts:13-19 | the image `forEach` appends to the list exactly the entries of its matches, in order |
| Utils.PushVideos | lib/utils.ts:22-30 | the iframe `forEach` appends to the list exactly the entries of its matches, in order |
| Utils.ImageMatchEnd | lib/utils.ts:13 | a markdown-image match starts at `![` and ends after its start, within the body |
| Utils.ImageMatchWellFormed | lib/utils.ts:13 | a markdown-image match ends with `)`, contains `](`, and stays on one line |
| Utils.ImageMatchExact | lib/utils.ts:13 | there is a match at a position iff `![` starts there and, on the same line, a later `](` is followed by a later `)`; the match ends one past the first `)` after the first `](` |
| Utils.IframeMatchEnd | lib/utils.ts:22 | an iframe match starts at `<iframe` and ends after its start, within the body |
| Utils.IframeMatchWellFormed | lib/utils.ts:22 | an iframe match ends with `></iframe>` and stays on one line |
| Utils.IframeMatchExact | lib/utils.ts:22 | there is a match at a position iff `<iframe` starts there and, on the same line, `src="`, a `"` and `></iframe>` follow in that order; the match ends after the first `></iframe>` that follows the first `"` after the first `src="` |
| Utils.Spans | lib/utils.ts:13 | the global matches are in range, each is a match at its start, they do not overlap and are in body order, and every position where a match starts lies inside one of them |
| Utils.FirstGroup | lib/utils.ts:16 | a captured group lies on one line and does not contain its closing delimiter |
| Utils.FirstGroupFound | lib/utils.ts:16 | a group is captured iff some opening delimiter at or after the start has its closing delimiter later on the same line |
| Utils.NoOpenerNoSpans | lib/utils.ts:13 | with no `![` (or `<iframe`) at or after a position, the pattern has no match there |
| Utils.NoMarkupNoMedia | lib/utils.ts:10-32 | a body with no `![` and no `<iframe` yields an empty list |
| Utils.EntriesFromMatches | lib/utils.ts:15-18 | every entry pushed comes from one of the matches |
| Utils.ImageEntryFromSpan | lib/utils.ts:13-18 | every image url is the non-empty first parenthesised text of a matched image span; it lies on one line and has no `)` |
| Utils.VideoEntryFromSpan | lib/utils.ts:22-29 | every video url is the `src` of a matched iframe span and contains `ipfs.skatehive.app` |
| Utils.ImagesBeforeVideos | lib/utils.ts:13-30 | no video entry precedes an image entry |
| Utils.UrlPatternTest | lib/utils.ts:36 | the pattern test accepts exactly `http://` or `https://` followed by one or more characters that are neither whitespace nor any of ``< > # % " , { } \ \| ^ [ ] ` `` |
| Utils.UrlTailOk | lib/utils.ts:36 | the character-class loop accepts exactly non-empty runs of URL characters |
| Utils.IsWebUrl | lib/utils.ts:36 | a text the pattern accepts has no whitespace at either end |
| Utils.ValidateUrl | lib/utils.ts:35-43 | `sanitizedUrl` is the trimmed input; `isUrl` holds iff the trimmed input is a web URL |
| Utils.ValidateUrlIdempotent | lib/utils.ts:37-42 | validating `sanitizedUrl` again gives the same result |
| Utils.WebUrlIsTrimmed | lib/utils.ts:36-42 | an accepted URL is its own sanitized form |
| Utils.SomeContained | lib/utils.ts:54 | true iff some listed domain occurs in the host |
| Utils.StripWww | lib/utils.ts:53 | the first `www.` in the host is removed and nothing else changes; a host without one is unchanged |
| Utils.IsKnownDomain | lib/utils.ts:45-58 | false when the URL does not parse; otherwise true iff the host, less its first `www.`, contains `skatehive.app`, `peakd.com` or `hive.blog` |
| Text.Trim | lib/utils.ts:37 | the result has no whitespace at either end, is a substring with only whitespace cut on both sides, and is empty iff the input is all whitespace |
| Text.TrimOfTrimmed | lib/utils.ts:37 | trimming a string without whitespace at its ends changes nothing |
| Text.TrimIdempotent | lib/utils.ts:37 | trimming twice is trimming once |
| Text.IndexOf | lib/utils.ts:26 | the result is the first occurrence at or after the start; none means no occurrence there |
| Text.Contains | lib/utils.ts:26 | `includes` holds iff the substring occurs somewhere |
| Text.ReplaceFirst | lib/utils.ts:53 | a string pattern replaces only its first occurrence, and nothing when absent |
| Text.ToLower | components/auth/AuthScreen.tsx:145 | same length, no ASCII capital left, other characters unchanged, capitals shifted to lower case |
| Text.ToLowerIdempotent | components/auth/AuthScreen.tsx:145 | lower-casing an already lower-cased name changes nothing |
| Text.DecimalString | app/fetch.tsx:29 | the numeral is non-empty, all digits, without a leading zero |
| Text.DecimalRoundTrip | app/fetch.tsx:29 | reading the numeral back gives the number |
| Text.DecimalInjective | app/fetch.tsx:29 | different numbers have different numerals |
| UrlHost.SchemeEnd | lib/utils.ts:53 | a scheme ends at a `:` inside the URL |
| UrlHost.Hostname | lib/utils.ts:53 | no scheme means the URL constructor throws; a host name has no `@`, `:` or `/` |
| UrlHost.SpecialHostname | lib/utils.ts:53 | an http(s)/ws(s)/ftp host is non-empty, or the constructor throws |
| UrlHost.HostnameOfWebUrl | lib/utils.ts:53 | the host name of `http(s)://host/path` with a plain DNS host is that host |
| UrlHost.SchemeEndOfLetters | lib/utils.ts:53 | a letters-only scheme before `:` is recognised as the scheme |
| Base64.Encode | app/fetch.tsx:61 | the encoding has four characters per started group of three bytes |
| Base64.SymbolValue | app/fetch.tsx:61 | decoding a base64 character inverts the alphabet |
| Base64.DecodeEncode | app/fetch.tsx:61 | decoding an encoding gives the bytes back |
| Base64.EncodeDecode | app/fetch.tsx:61 | every decodable text is the encoding of what it decodes to |
| Base64.Btoa | app/fetch.tsx:61 | `btoa` succeeds iff every character is Latin-1 |
| Base64.AtobBtoa | app/fetch.tsx:61 | `atob` undoes `btoa` |
| LoadingEffects.GetLoadingEffect | components/ui/loading-effects/index.ts:19-21 | a registered id gives its own effect; any other id gives the matrix effect; the result is always a registered effect |
| LoadingEffects.IdOf | components/ui/loading-effects/index.ts:9-15 | each effect is registered under its id |
| LoadingEffects.RegistryIds | components/ui/loading-effects/index.ts:9-17 | the ids are exactly matrix, skate, videobg, zeroone and sunball, and no two share an effect |
| LoadingEffects.LookupOfId | components/ui/loading-effects/index.ts:9-21 | looking up an effect's id returns that effect, so all five are reachable |
| Feed.Next | components/Feed/Feed.tsx:92-96 | a toggle never leaves the mode unchanged |
| Feed.ThreeTogglesReturn | components/Feed/Feed.tsx:92-96 | three toggles return to the starting mode |
| Feed.NextNAdd | components/Feed/Feed.tsx:92-96 | toggling a times then b times is toggling a + b times |
| Feed.TogglesModThree | components/Feed/Feed.tsx:92-96 | only the number of toggles modulo 3 matters |
| Feed.CycleVisitsAll | components/Feed/Feed.tsx:92-96 | every mode is reached from every mode within two toggles |
| Feed.ModeName | components/Feed/Feed.tsx:167-170 | a mode's name is non-empty and lower case |
| Feed.Title | components/Feed/Feed.tsx:135-138 | the list title, lower-cased, is the mode's name followed by ` posts` |
| Feed.TitleInjective | components/Feed/Feed.tsx:135-138 | the three titles name three different modes |
| Feed.ToggleLabel | components/Feed/Feed.tsx:167-170 | the button's label is `Switch to <next mode> posts` |
| Feed.ToggleLabelNamesNext | components/Feed/Feed.tsx:167-170 | two labels are equal iff the next toggles lead to the same mode |
| Feed.QueryFor | components/Feed/Feed.tsx:63-81 | each mode selects its own query of the three |
| Feed.FeedData | components/Feed/Feed.tsx:63-66 | the shown data is the current mode's query's data |
| Feed.IsLoading | components/Feed/Feed.tsx:68-71 | the loading flag is the current mode's query's |
| Feed.Refetch | components/Feed/Feed.tsx:73-76 | the refetch action is the current mode's query's |
| Feed.IsRefetching | components/Feed/Feed.tsx:78-81 | the refetching flag is the current mode's query's |
| Feed.SelectionIsConsistent | components/Feed/Feed.tsx:63-81 | data, loading flag, refetch and refetching flag all come from the current mode's query |
| Feed.FollowingUser | components/Feed/Feed.tsx:60 | the following feed is asked for the signed-in user, or for `SPECTATOR` when the username is empty or missing |
| Feed.ProcessUrl | components/Feed/Feed.tsx:101-107 | `url` is the trimmed content; `shouldPreview` holds iff the trimmed content is a web URL on a known domain |
| Feed.ProcessUrlIdempotent | components/Feed/Feed.tsx:101-107 | processing the returned url again gives the same answer |
| Feed.PreviewNeedsContent | components/Feed/Feed.tsx:101-107 | blank content is never previewed |
| Feed.FeedScreen.constructor | components/Feed/Feed.tsx:32-35 | the screen starts on `latest` with no overlay |
| Feed.FeedScreen.HandleToggle | components/Feed/Feed.tsx:84-97 | the mode advances one step; the overlay is untouched |
| Feed.FeedScreen.OpenWebView | components/Feed/Feed.tsx:110-112 | the overlay state is the given URL, and the overlay is drawn iff that URL is non-empty |
| Feed.FeedScreen.CloseWebView | components/Feed/Feed.tsx:115-117 | the overlay is cleared and no longer drawn |
| Feed.FeedScreen.OnUrlPress | components/Feed/Feed.tsx:125-128 | a pressed URL opens the overlay on its trimmed form, which is drawn iff the URL is not all whitespace |
| Feed.FeedScreen.OverlayShown | components/Feed/Feed.tsx:217-218 | the overlay is drawn iff the URL state is a non-empty string |
| Comments.BlankDraftRefused | components/Feed/Comments.tsx:61-64 | a whitespace-only draft never passes the send guard |
| Comments.CanSend | components/Feed/Comments.tsx:61 | the guard passes iff the draft has a non-whitespace character and both username and key are non-empty |
| Comments.FindPermlink | components/Feed/Comments.tsx:69 | `find` returns the first comment with the permlink, or none when no comment has it |
| Comments.ParentAuthorFallback | components/Feed/Comments.tsx:68-70 | with no reply target, or no comment carrying it, the parent author is the post's author |
| Comments.ParentAuthorOfMatch | components/Feed/Comments.tsx:68-70 | with a target, the parent author is the first matching comment's author, or the post's author if that is empty |
| Comments.ParentAuthor | components/Feed/Comments.tsx:68-70 | with no reply target the parent author is the post's author; otherwise it is the post's author or the author of a comment carrying the target |
| Comments.ParentPermlink | components/Feed/Comments.tsx:72 | the parent permlink is the reply target when set, else the post's permlink |
| Comments.BearerHeader | components/Feed/Comments.tsx:85 | the Authorization value is `Bearer `, one space, then exactly the token |
| Comments.BearerToken | components/Feed/Comments.tsx:85 | a token read from an Authorization value rebuilds that value |
| Comments.BearerRoundTrip | components/Feed/Comments.tsx:85 | the Authorization value carries exactly the posting key |
| Comments.RequestFor | components/Feed/Comments.tsx:61-90 | a request is made iff the guard passes; it carries the key as Bearer token, the username as author, the untrimmed draft as body, and the resolved parent |
| Comments.FailureAlert | components/Feed/Comments.tsx:100 | the alert is the answer's error when truthy, else `Failed to post comment` |
| Comments.KeyHandle | components/Feed/Comments.tsx:50-55 | no store read for an empty or missing username or for `SPECTATOR`; otherwise the username is read |
| Comments.ToggledReply | components/Feed/Comments.tsx:147 | a tap always changes the target: it clears it when it was this comment, and otherwise sets it to this comment |
| Comments.ToggleTwice | components/Feed/Comments.tsx:147 | a tap always changes the target; two taps from no target return to none |
| Comments.CommentsScreen.constructor | components/Feed/Comments.tsx:39-44 | empty draft, no key, no target, not sending |
| Comments.CommentsScreen.LoadKey | components/Feed/Comments.tsx:50-55 | the key is read from the store only for a real user; otherwise nothing changes |
| Comments.CommentsScreen.EditComment | components/Feed/Comments.tsx:156 | typing replaces the draft |
| Comments.CommentsScreen.TapComment | components/Feed/Comments.tsx:146-148 | a tap toggles the reply target |
| Comments.CommentsScreen.BeginSend | components/Feed/Comments.tsx:60-90 | a refused guard only alerts `Missing comment, username, or key` and leaves `isSending` alone; otherwise `isSending` is raised and `RequestFor`'s request is sent |
| Comments.CommentsScreen.FinishSend | components/Feed/Comments.tsx:92-107 | success clears draft and target and schedules a refresh; failure keeps them and alerts; `isSending` is false in every case |
| Fetch.StatusMessageInjective | app/fetch.tsx:29 | the HTTP error message names its status unambiguously |
| Fetch.CatchMessage | app/fetch.tsx:35 | an `Error` shows its message; any other thrown value shows the generic text |
| Fetch.StatusMessage | app/fetch.tsx:29 | the message is `HTTP error! status: ` followed by a decimal numeral that reads back as the status |
| Fetch.Settled | app/fetch.tsx:26-39 | result and error are never both non-empty; a non-ok status gives an empty result and `HTTP error! status: N` |
| Fetch.NotOkIsRaised | app/fetch.tsx:28-35 | a non-ok status is handled exactly as a thrown `Error` |
| Fetch.BasicHeader | app/fetch.tsx:61 | a header is produced iff `btoa` accepts `user:password` |
| Fetch.SplitAtColon | app/fetch.tsx:61 | splitting at the first colon rebuilds the text, and the user part has no colon |
| Fetch.SplitJoined | app/fetch.tsx:61 | splitting `user:password` recovers both when the user has no colon |
| Fetch.BasicRoundTrip | app/fetch.tsx:61 | the Basic header decodes back to the username and password |
| Fetch.BasicCredentials | app/fetch.tsx:61 | a value read back starts with `Basic `, its token decodes to `user:password`, and the user part has no colon |
| Fetch.BasicTokenDecodes | app/fetch.tsx:61 | the token always decodes to `user:password` |
| Fetch.AuthAttempt | app/fetch.tsx:48-64 | an empty username refuses with `Please enter a username`; a missing or empty secret refuses with `No stored credentials found for this username`; otherwise a request is sent iff `btoa` accepts `username:secret` (else the encoding failure is reported), and it carries the Basic header of username and secret |
| Fetch.FetchScreen.constructor | app/fetch.tsx:13-19 | everything empty and not loading |
| Fetch.FetchScreen.EditUsername | app/fetch.tsx:123 | typing replaces the username |
| Fetch.FetchScreen.BeginFeedFetch | app/fetch.tsx:21-27 | result and error are cleared, loading is raised, one request is sent |
| Fetch.FetchScreen.FinishFeedFetch | app/fetch.tsx:27-39 | the (result, error) pair is `Settled(outcome)` and loading is false |
| Fetch.FetchScreen.BeginAuthFetch | app/fetch.tsx:42-64 | both fields cleared; on a refusal, only its message and loading false, with no request; the store is read only for a non-empty username |
| Fetch.FetchScreen.FinishAuthFetch | app/fetch.tsx:66-78 | the (result, error) pair is `Settled(outcome)` and loading is false |
| Magazine.Merge | components/Magazine.tsx:29-34 | page 1 gives exactly its own posts; any other page keeps the old list as a prefix and appends its posts after it |
| Magazine.MergeFirstPage | components/Magazine.tsx:30-31 | page 1 replaces the list whatever it held |
| Magazine.Flatten | components/Magazine.tsx:33 | every post of every page is in the concatenation, and each post in it comes from some page |
| Magazine.LoadSequence | components/Magazine.tsx:29-35 | no pages leave the list as it was; a last page 1 leaves exactly its posts; every post held was held before or arrived on some page |
| Magazine.PagesConcatenate | components/Magazine.tsx:29-35 | page 1 followed by later pages leaves exactly their posts in arrival order |
| Magazine.PreloadedPagination | components/Magazine.tsx:77-86 | preloaded posts get page 1, next page 2, a next page, and a limit equal to their count |
| Magazine.LoadMoreTarget | components/Magazine.tsx:43-46 | load-more proceeds iff a pagination with a next page is known and no load is running, and asks for `nextPage` |
| Magazine.MagazineScreen.constructor | components/Magazine.tsx:19-23 | empty list, no pagination, no flags |
| Magazine.MagazineScreen.ApplyPage | components/Magazine.tsx:25-40 | a successful answer merges its page and sets the pagination; otherwise nothing changes |
| Magazine.MagazineScreen.BeginLoadMore | components/Magazine.tsx:42-46 | the guard decides; if it passes, the flag is raised and exactly `nextPage` is requested |
| Magazine.MagazineScreen.FinishLoadMore | components/Magazine.tsx:46-47 | the page is applied and the flag lowered |
| Magazine.MagazineScreen.BeginRefresh | components/Magazine.tsx:50-52 | refresh raises its flag and requests page 1 |
| Magazine.MagazineScreen.FinishRefresh | components/Magazine.tsx:52-53 | a successful page 1 replaces list and pagination; the flag is lowered |
| Magazine.MagazineScreen.BeginLoadMagazine | components/Magazine.tsx:73-96 | non-empty preloaded posts are shown with the preloaded pagination and nothing is requested; otherwise loading starts with a page-1 request |
| Magazine.MagazineScreen.FinishLoadMagazine | components/Magazine.tsx:96-106 | a successful answer replaces list and pagination; loading ends |
| LinkPreview.Domain | components/Feed/LinkPreview.tsx:35-41 | the host name less its first `www.`, or the URL itself when it does not parse; `getDomain` (lines 55-61) computes the same |
| LinkPreview.DomainOfWebUrl | components/Feed/LinkPreview.tsx:35-41 | the domain of `http(s)://host/path` is the host |
| LinkPreview.DomainOfWwwWebUrl | components/Feed/LinkPreview.tsx:35-41 | the domain of `http(s)://www.host/path` is the host |
| LinkPreview.StripLeadingWww | components/Feed/LinkPreview.tsx:37 | removing the first `www.` from `www.host` leaves `host` |
| LinkPreview.PreviewFor | components/Feed/LinkPreview.tsx:43-49 | `skatehive.app` gets its fixed entry; any other domain is its own title and site name, with `Open this link in browser` and no image |
| LinkPreview.ImageOnlyForKnownSite | components/Feed/LinkPreview.tsx:26-49 | a preview has an image iff its domain is `skatehive.app` |
| LinkPreview.PreviewInjective | components/Feed/LinkPreview.tsx:43-49 | different domains give different previews |
| LinkPreview.RetryButtonAsWritten | components/Feed/LinkPreview.tsx:79-150 | as written, the retry button is never drawn |
| LinkPreview.RetryButtonShown | components/Feed/LinkPreview.tsx:141 | with the intended render, the button is drawn iff an error is shown and fewer than 3 retries were spent |
| LinkPreview.RetryShownWhenRetriesLeft | components/Feed/LinkPreview.tsx:141-150 | with the intended render, an error with retries left offers the button, which the written render does not, and none is offered at the limit |
| LinkPreview.LinkPreviewCard.constructor | components/Feed/LinkPreview.tsx:22-65 | loading, no error (so no error view), no image flags, no retries |
| LinkPreview.LinkPreviewCard.OnUrl | components/Feed/LinkPreview.tsx:51-53 | loading ends; the error and the error view are unchanged |
| LinkPreview.LinkPreviewCard.HandleRetry | components/Feed/LinkPreview.tsx:68-77 | below 3 retries: count + 1, error and image error cleared, loading again; at 3: only the final error; the count never exceeds 3 |
| LinkPreview.LinkPreviewCard.OnImageLoadStart | components/Feed/LinkPreview.tsx:114 | the image is loading |
| LinkPreview.LinkPreviewCard.OnImageLoadEnd | components/Feed/LinkPreview.tsx:115 | the image is no longer loading |
| LinkPreview.LinkPreviewCard.OnImageError | components/Feed/LinkPreview.tsx:116-119 | the image is marked failed and no longer loading |
| LinkPreview.LinkPreviewCard.ShowsError | components/Feed/LinkPreview.tsx:79-90 | the error view replaces the card iff `error` is a non-empty string |
| LinkPreview.LinkPreviewCard.ShowsRetry | components/Feed/LinkPreview.tsx:141-150 | with the intended render, the retry button is drawn iff the error view is shown and retries remain |
| LinkPreview.LinkPreviewCard.ShowsImage | components/Feed/LinkPreview.tsx:102-122 | the preview image is drawn iff there is no error view, the image has not failed, and the domain is `skatehive.app` |
| AuthScreen.FailureMessage | components/auth/AuthScreen.tsx:84-93 | a recognised failure shows its own message; any other shows the handler's fallback |
| AuthScreen.SubmitFailureMessage | components/auth/AuthScreen.tsx:84-93 | a recognised failure shows its own message; anything else shows `An unexpected error occurred` |
| AuthScreen.QuickLoginFailureMessage | components/auth/AuthScreen.tsx:115-125 | a recognised failure shows its own message; anything else shows `Error with quick login` |
| AuthScreen.LoginPathsAgree | components/auth/AuthScreen.tsx:85-124 | submit and quick login show the same message iff the failure is recognised; otherwise `An unexpected error occurred` and `Error with quick login` |
| AuthScreen.RecognisedMessageShown | components/auth/AuthScreen.tsx:90 | a recognised failure's message is shown whatever the fallback |
| AuthScreen.AuthScreenState.constructor | components/auth/AuthScreen.tsx:27-31 | empty fields and message, error styling, hidden |
| AuthScreen.AuthScreenState.OnMount | components/auth/AuthScreen.tsx:33-36 | the screen becomes visible |
| AuthScreen.AuthScreenState.OnUsernameChange | components/auth/AuthScreen.tsx:145 | the username is stored lower-cased |
| AuthScreen.AuthScreenState.OnPasswordChange | components/auth/AuthScreen.tsx:146 | the key is stored as typed |
| AuthScreen.AuthScreenState.HandleSubmit | components/auth/AuthScreen.tsx:61-97 | an empty field shows `Please enter both username and posting key` without calling login; success hides and navigates to the feed; failure shows the failure's message as an error |
| AuthScreen.AuthScreenState.HandleQuickLogin | components/auth/AuthScreen.tsx:99-129 | success hides and navigates; failure shows the failure's message, or `Error with quick login`, as an error |
| AuthScreen.AuthScreenState.HandleSpectator | components/auth/AuthScreen.tsx:38-59 | success hides and navigates; failure shows `Error entering spectator mode` as an error |

## Left out

- Rendering, layout, animation, colour schemes and the WebView wrapper are user interface, with no decision logic to state.
- Requests, `res.json()`, `JSON.stringify` and the secret store are external. Each request's result is a parameter: an answer, a non-ok status, or an exception. A pretty-printed JSON body is taken as given text. The store is a finite map from handle to secret, and it is taken never to throw.
- Timers are not modelled. The one-second comment refresh is counted in `refreshes`. The 500 ms navigation is appended to `navigations` at once. The 100 ms reset of the preloaded magazine posts is left out.
- React's asynchronous, batched `setState` is not modelled: updates are sequential assignments. Between the two halves of a split handler nothing else runs, so the intermediate state is only the one `Begin…` leaves.
- Handlers with no flag around their await (the three sign-in paths, `loadKey`) are single methods taking the outcome. Their intermediate state is not represented.
- UrlHost.Hostname: models only the part of the WHATWG URL parser that decides the host name. There is no percent-decoding, IDNA, IPv4/IPv6 host parsing, port validation, tab/newline stripping or `file:` scheme. Two consequences:
  - The parser strips leading and trailing spaces and C0 control characters first; `Hostname` does not. `new URL(" https://skatehive.app")` has host `skatehive.app`, while `Hostname` gives none.
  - The parser rejects a host holding a forbidden host code point such as `|`; `SpecialHostname` accepts it. `new URL("https://skatehive.app|x")` throws, while `SpecialHostname` gives `skatehive.app|x`.
- Utils.IsKnownDomain: inherits both gaps of `UrlHost.Hostname`. On `" https://skatehive.app"` it answers false where the source answers true. On `"https://skatehive.app|x"` it answers true where the source answers false.
- LinkPreview.Domain: inherits both gaps of `UrlHost.Hostname`. On such input it gives the URL itself, or a host the source would never produce.
- Text.ToLower: only ASCII capitals are lowered; `toLowerCase` beyond ASCII is not modelled.
- Strings are sequences of code points. UTF-16 surrogate pairs are not modelled.
- `effects[effectId]` and `domain in previewMap` also see keys inherited from `Object.prototype` (for example `toString`). The registry and preview map here are finite maps over their own keys only.
- Fetch.FetchScreen.BeginAuthFetch: when `btoa` throws on a non-Latin-1 username or secret, the thrown value is a parameter (`encodeFailure`). Its message is not fixed by this model.
- Fetch.FetchScreen.FinishFeedFetch and Fetch.FetchScreen.FinishAuthFetch require the state their `Begin…` half leaves: flag raised, fields empty.
- The `Post` record of the magazine keeps only author and permlink; its other fields are carried unchanged in the source and play no part in the logic.
- `cn`, `lib/hooks/useComments.ts` and `app/index.tsx` are class-name merging, polling and a focus counter. The session manager, validator and error classes behind `useAuth` are not part of this model; only their call sites are.

## Findings

| source | as written | input that shows it | evidently intended | confidence | as-written member | corrected member |
|---|---|---|---|---|---|---|
| components/Feed/LinkPreview.tsx:141-150 | the retry button is drawn only when `error` is truthy, but it sits in the branch reached only when `error` is falsy (lines 79-90 return early otherwise), so it is never drawn and `handleRetry` is unreachable; and since `error` is set only inside `handleRetry` (lines 68-75), the error view of lines 79-90 cannot appear either, so even the corrected button would never be drawn in the source | any state, e.g. `error = 'Failed to load preview after multiple attempts'`, `retryCount = 0`: the error view shows no button | the error view offers a retry while `retryCount < 3` | high, not executed | LinkPreview.RetryButtonAsWritten | LinkPreview.RetryShownWhenRetriesLeft |

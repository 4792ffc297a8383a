/**
 * The API test screen: a public feed fetch and an authenticated fetch that
 * sends HTTP Basic credentials (section 2 of RFC 7617) built from a username
 * and the secret stored under it on the device.
 */
module Fetch {
  import opened Wrappers
  import opened Text
  import opened Base64

  /** What a `catch` block receives: an `Error` instance with its message, or some other thrown value. */
  datatype Thrown = ErrorInstance(message: string) | OtherValue

  /** How one request ended: an ok response whose JSON body pretty-prints to `text`, a non-ok status, or an exception. */
  datatype FetchOutcome = Ok(text: string) | NotOk(status: nat) | Raised(thrown: Thrown)

  const GenericFailure: string := "An error occurred while fetching data"
  const NeedUsername: string := "Please enter a username"
  const NoCredentials: string := "No stored credentials found for this username"

  /** The message of the error thrown for a non-ok response. */
  function StatusMessage(status: nat): (r: string)
    ensures |r| > 20 && r[..20] == "HTTP error! status: "
    ensures forall i :: 20 <= i < |r| ==> IsDigit(r[i])
    ensures DecimalValue(r[20..]) == status
  {
    var numeral := DecimalString(status);
    DecimalRoundTrip(status);
    assert ("HTTP error! status: " + numeral)[20..] == numeral;
    "HTTP error! status: " + numeral
  }

  /** Different statuses give different messages: the message names its status. */
  lemma StatusMessageInjective(a: nat, b: nat)
    requires StatusMessage(a) == StatusMessage(b)
    ensures a == b
  {
    var p := "HTTP error! status: ";
    assert StatusMessage(a)[|p|..] == DecimalString(a);
    assert StatusMessage(b)[|p|..] == DecimalString(b);
    DecimalInjective(a, b);
  }

  /** What the `catch` block shows: the error's message, or the generic text for a non-`Error` value. */
  function CatchMessage(t: Thrown): (r: string)
    ensures t.ErrorInstance? ==> r == t.message
    ensures t.OtherValue? ==> r == GenericFailure
  {
    match t
    case ErrorInstance(m) => m
    case OtherValue => GenericFailure
  }

  /**
   * The (result, error) pair a fetch settles on once its request has an outcome:
   * the pretty-printed body on success, else an empty result and the caught message.
   */
  function Settled(o: FetchOutcome): (r: (string, string))
    ensures r.0 == "" || r.1 == ""
    ensures o.Ok? ==> r == (o.text, "")
    ensures o.NotOk? ==> r == ("", StatusMessage(o.status))
    ensures o.Raised? ==> r == ("", CatchMessage(o.thrown))
  {
    match o
    case Ok(text) => (text, "")
    case NotOk(status) => ("", CatchMessage(ErrorInstance(StatusMessage(status))))
    case Raised(t) => ("", CatchMessage(t))
  }

  /** A non-ok status is handled exactly as a thrown `Error` carrying the status message. */
  lemma NotOkIsRaised(status: nat)
    ensures Settled(NotOk(status)) == Settled(Raised(ErrorInstance(StatusMessage(status))))
  {
  }

  /** The credentials `user:password` in the Basic scheme; none when `btoa` would throw. */
  function BasicHeader(user: string, password: string): (r: Option<string>)
    ensures r.Some? <==> IsLatin1(user + ":" + password)
  {
    match Btoa(user + ":" + password)
    case Some(token) => Some("Basic " + token)
    case None => None
  }

  /** `s` split at its first colon, as section 2 of RFC 7617 splits user-pass. */
  function SplitAtColon(s: string): (r: Option<(string, string)>)
    ensures r.Some? ==> s == r.value.0 + ":" + r.value.1 && ':' !in r.value.0
    ensures r.None? ==> ':' !in s
  {
    match IndexOf(s, ":", 0)
    case None =>
      assert forall k :: 0 <= k < |s| ==> s[k] != ':' by {
        forall k | 0 <= k < |s| ensures s[k] != ':' {
          assert !OccursAt(s, ":", k);
          assert s[k..k + 1] == [s[k]];
        }
      }
      None
    case Some(i) =>
      assert s[i..i + 1] == ":";
      assert forall k :: 0 <= k < i ==> s[k] != ':' by {
        forall k | 0 <= k < i ensures s[k] != ':' {
          assert !OccursAt(s, ":", k);
          assert s[k..k + 1] == [s[k]];
        }
      }
      assert s == s[..i] + ":" + s[i + 1..];
      Some((s[..i], s[i + 1..]))
  }

  /** Reading a Basic Authorization value back: the token after the scheme, decoded, split at its first colon. */
  function BasicCredentials(header: string): (r: Option<(string, string)>)
    ensures r.Some? ==> |header| >= 6 && header[..6] == "Basic "
    ensures r.Some? ==> Atob(header[6..]) == Some(r.value.0 + ":" + r.value.1) && ':' !in r.value.0
  {
    if |header| >= 6 && header[..6] == "Basic " then
      match Atob(header[6..])
      case Some(userPass) => SplitAtColon(userPass)
      case None => None
    else None
  }

  /** Splitting `user:password` at its first colon recovers both when the user has no colon. */
  lemma SplitJoined(user: string, password: string)
    requires ':' !in user
    ensures SplitAtColon(user + ":" + password) == Some((user, password))
  {
    var s := user + ":" + password;
    var r := SplitAtColon(s);
    assert OccursAt(s, ":", |user|) by {
      assert s[|user|..|user| + 1] == ":";
    }
    assert r.Some?;
    var u := r.value.0;
    assert u == s[..|user|] == user;
    assert r.value.1 == s[|user| + 1..] == password;
  }

  /**
   * The header built from a username and password decodes back to them: the
   * server reads the same credentials the screen read from the store, provided
   * the username has no colon (which section 2 of RFC 7617 forbids).
   */
  lemma {:induction false} BasicRoundTrip(user: string, password: string)
    requires IsLatin1(user + ":" + password)
    requires ':' !in user
    ensures BasicHeader(user, password).Some?
    ensures BasicCredentials(BasicHeader(user, password).value) == Some((user, password))
  {
    var token := Btoa(user + ":" + password).value;
    var header := BasicHeader(user, password).value;
    assert header[..6] == "Basic ";
    assert header[6..] == token;
    AtobBtoa(user + ":" + password);
    SplitJoined(user, password);
  }

  /** The token always decodes to `user:password`, whatever characters the username holds. */
  lemma BasicTokenDecodes(user: string, password: string)
    requires IsLatin1(user + ":" + password)
    ensures var header := BasicHeader(user, password).value;
            header[..6] == "Basic " && Atob(header[6..]) == Some(user + ":" + password)
  {
    var header := BasicHeader(user, password).value;
    assert header[6..] == Btoa(user + ":" + password).value;
    AtobBtoa(user + ":" + password);
  }

  /** Where the authenticated fetch stops before its request: refused with a message, failed to encode, or sending. */
  datatype AuthStep = Refused(message: string) | Unencodable | Send(header: string)

  /** The authenticated fetch's guard chain over the username and the secret store. */
  function AuthAttempt(username: string, store: map<string, string>): (r: AuthStep)
    ensures username == "" ==> r == Refused(NeedUsername)
    ensures username != "" && (username !in store || store[username] == "") ==> r == Refused(NoCredentials)
    ensures r.Unencodable? <==>
              username != "" && username in store && store[username] != "" && !IsLatin1(username + ":" + store[username])
    ensures r.Send? <==>
              username != "" && username in store && store[username] != "" && IsLatin1(username + ":" + store[username])
    ensures r.Send? ==> Some(r.header) == BasicHeader(username, store[username])
  {
    if username == "" then Refused(NeedUsername)
    else if username !in store || store[username] == "" then Refused(NoCredentials)
    else match BasicHeader(username, store[username])
      case Some(h) => Send(h)
      case None => Unencodable
  }

  /** The screen's state. */
  class FetchScreen {
    var feedData: string
    var errorMessage: string
    var username: string
    var authData: string
    var authError: string
    var isPublicLoading: bool
    var isAuthLoading: bool
    /** Handles read from the secret store so far, oldest first. */
    var storeReads: seq<string>
    /** Authorization values of authenticated requests sent so far, oldest first. */
    var authRequests: seq<string>
    /** Number of public feed requests sent so far. */
    var feedRequests: nat

    /** Neither card shows an error next to a result. */
    predicate Exclusive()
      reads this
    {
      (feedData == "" || errorMessage == "") && (authData == "" || authError == "")
    }

    constructor()
      ensures Exclusive()
      ensures feedData == "" && errorMessage == "" && username == "" && authData == "" && authError == ""
      ensures !isPublicLoading && !isAuthLoading && storeReads == [] && authRequests == [] && feedRequests == 0
    {
      feedData := "";
      errorMessage := "";
      username := "";
      authData := "";
      authError := "";
      isPublicLoading := false;
      isAuthLoading := false;
      storeReads := [];
      authRequests := [];
      feedRequests := 0;
    }

    /** Typing in the username box. */
    method EditUsername(u: string)
      modifies this
      ensures username == u
      ensures feedData == old(feedData) && errorMessage == old(errorMessage)
      ensures authData == old(authData) && authError == old(authError)
      ensures isPublicLoading == old(isPublicLoading) && isAuthLoading == old(isAuthLoading)
      ensures storeReads == old(storeReads) && authRequests == old(authRequests) && feedRequests == old(feedRequests)
    {
      username := u;
    }

    /** `fetchFeedData` up to its await: both fields cleared, the loading flag raised, the request sent. */
    method BeginFeedFetch()
      modifies this
      requires Exclusive()
      ensures Exclusive()
      ensures feedData == "" && errorMessage == "" && isPublicLoading
      ensures feedRequests == old(feedRequests) + 1
      ensures username == old(username) && authData == old(authData) && authError == old(authError)
      ensures isAuthLoading == old(isAuthLoading) && storeReads == old(storeReads) && authRequests == old(authRequests)
    {
      errorMessage := "";
      feedData := "";
      isPublicLoading := true;
      feedRequests := feedRequests + 1;
    }

    /**
     * `fetchFeedData` after its await, in the state its first half left: the
     * result or the error is set, and loading ends whatever happened.
     */
    method FinishFeedFetch(outcome: FetchOutcome)
      modifies this
      requires Exclusive()
      requires isPublicLoading && feedData == "" && errorMessage == ""
      ensures Exclusive()
      ensures (feedData, errorMessage) == Settled(outcome)
      ensures !isPublicLoading
      ensures username == old(username) && authData == old(authData) && authError == old(authError)
      ensures isAuthLoading == old(isAuthLoading) && storeReads == old(storeReads)
      ensures authRequests == old(authRequests) && feedRequests == old(feedRequests)
    {
      match outcome {
        case Ok(text) =>
          feedData := text;
        case NotOk(status) =>
          errorMessage := StatusMessage(status);
          feedData := "";
        case Raised(t) =>
          errorMessage := if t.ErrorInstance? then t.message else GenericFailure;
          feedData := "";
      }
      isPublicLoading := false;
    }

    /**
     * `fetchAuthenticatedData` up to its request. Both fields are cleared;
     * then the guard chain either stops with its message (loading over, no
     * request) or the Basic header is sent. A username that `btoa` cannot
     * encode makes it throw, which the `catch` block reports as `encodeFailure`.
     */
    method BeginAuthFetch(store: map<string, string>, encodeFailure: Thrown) returns (header: Option<string>)
      modifies this
      requires Exclusive()
      ensures Exclusive()
      ensures var step := AuthAttempt(old(username), store);
              && (step.Refused? ==> authError == step.message && authData == "" && !isAuthLoading && header == None)
              && (step.Unencodable? ==> authError == CatchMessage(encodeFailure) && authData == "" && !isAuthLoading && header == None)
              && (step.Send? ==> authError == "" && authData == "" && isAuthLoading && header == Some(step.header))
      ensures authRequests == old(authRequests) + (if header.Some? then [header.value] else [])
      ensures storeReads == old(storeReads) + (if old(username) == "" then [] else [old(username)])
      ensures username == old(username) && feedData == old(feedData) && errorMessage == old(errorMessage)
      ensures isPublicLoading == old(isPublicLoading) && feedRequests == old(feedRequests)
    {
      authError := "";
      authData := "";
      isAuthLoading := true;
      if username == "" {
        authError := NeedUsername;
        isAuthLoading := false;
        header := None;
        return;
      }
      storeReads := storeReads + [username];
      var password := if username in store then Some(store[username]) else None;
      if !Truthy(password) {
        authError := NoCredentials;
        isAuthLoading := false;
        header := None;
        return;
      }
      var token := Btoa(username + ":" + password.value);
      if token.None? {
        authError := CatchMessage(encodeFailure);
        authData := "";
        isAuthLoading := false;
        header := None;
        return;
      }
      header := Some("Basic " + token.value);
      authRequests := authRequests + [header.value];
    }

    /**
     * `fetchAuthenticatedData` after its request, in the state its first half
     * left when it sent: the result or the error is set, and loading ends.
     */
    method FinishAuthFetch(outcome: FetchOutcome)
      modifies this
      requires Exclusive()
      requires isAuthLoading && authData == "" && authError == ""
      ensures Exclusive()
      ensures (authData, authError) == Settled(outcome)
      ensures !isAuthLoading
      ensures username == old(username) && feedData == old(feedData) && errorMessage == old(errorMessage)
      ensures isPublicLoading == old(isPublicLoading) && storeReads == old(storeReads)
      ensures authRequests == old(authRequests) && feedRequests == old(feedRequests)
    {
      match outcome {
        case Ok(text) =>
          authData := text;
        case NotOk(status) =>
          authError := StatusMessage(status);
          authData := "";
        case Raised(t) =>
          authError := if t.ErrorInstance? then t.message else GenericFailure;
          authData := "";
      }
      isAuthLoading := false;
    }
  }
}

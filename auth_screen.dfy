/**
 * The sign-in screen: the login form's guards, the lower-casing of the
 * username, and the message shown for each kind of failure of the three
 * sign-in paths (posting key, stored account, spectator mode).
 */
module AuthScreen {
  import opened Text

  /** What a sign-in call can throw: the five recognised error classes, each with its message, or anything else. */
  datatype Failure =
    | InvalidKeyFormat(message: string)
    | AccountNotFound(message: string)
    | InvalidKey(message: string)
    | AuthFailure(message: string)
    | HiveFailure(message: string)
    | Other

  /** How an awaited sign-in call ended. */
  datatype CallOutcome = Succeeded | Threw(failure: Failure)

  /** The styling of the form's message. */
  datatype MessageType = ErrorMessage | SuccessMessage | InfoMessage

  const EmptyFields: string := "Please enter both username and posting key"
  const SubmitFallback: string := "An unexpected error occurred"
  const QuickLoginFallback: string := "Error with quick login"
  const SpectatorFailure: string := "Error entering spectator mode"

  /** The route both successful paths lead to. */
  const FeedRoute: string := "/(tabs)/feed"

  /** The message a failed sign-in shows: a recognised error's own message, or the handler's fallback. */
  function FailureMessage(f: Failure, fallback: string): (r: string)
    ensures f.Other? ==> r == fallback
    ensures !f.Other? ==> r == f.message
  {
    match f
    case InvalidKeyFormat(m) => m
    case AccountNotFound(m) => m
    case InvalidKey(m) => m
    case AuthFailure(m) => m
    case HiveFailure(m) => m
    case Other => fallback
  }

  /** The message `handleSubmit` shows for a failure. */
  function SubmitFailureMessage(f: Failure): (r: string)
    ensures f.Other? ==> r == SubmitFallback
    ensures !f.Other? ==> r == f.message
  {
    FailureMessage(f, SubmitFallback)
  }

  /** The message `handleQuickLogin` shows for a failure. */
  function QuickLoginFailureMessage(f: Failure): (r: string)
    ensures f.Other? ==> r == QuickLoginFallback
    ensures !f.Other? ==> r == f.message
  {
    FailureMessage(f, QuickLoginFallback)
  }

  /**
   * Both login paths agree on every recognised failure and differ only on an
   * unrecognised one, which each reports with its own fixed text.
   */
  lemma LoginPathsAgree(f: Failure)
    ensures SubmitFailureMessage(f) == QuickLoginFailureMessage(f) <==> !f.Other?
    ensures f.Other? ==> SubmitFailureMessage(f) == SubmitFallback && QuickLoginFailureMessage(f) == QuickLoginFallback
  {
  }

  /** A recognised failure's message reaches the user unchanged, whichever path raised it. */
  lemma RecognisedMessageShown(f: Failure, fallback: string)
    requires !f.Other?
    ensures FailureMessage(f, fallback) == f.message
    ensures forall g :: FailureMessage(f, g) == FailureMessage(f, fallback)
  {
  }

  /** The screen's state. */
  class AuthScreenState {
    var username: string
    var password: string
    var message: string
    var messageType: MessageType
    var isVisible: bool
    /** Routes pushed so far, oldest first. */
    var navigations: seq<string>
    /** Credential pairs passed to `login` so far. */
    var loginCalls: seq<(string, string)>
    /** Usernames passed to `loginStoredUser` so far. */
    var quickLoginCalls: seq<string>
    /** How many times spectator mode was requested. */
    var spectatorCalls: nat

    constructor()
      ensures username == "" && password == "" && message == "" && messageType == ErrorMessage
      ensures !isVisible && navigations == [] && loginCalls == [] && quickLoginCalls == [] && spectatorCalls == 0
    {
      username := "";
      password := "";
      message := "";
      messageType := ErrorMessage;
      isVisible := false;
      navigations := [];
      loginCalls := [];
      quickLoginCalls := [];
      spectatorCalls := 0;
    }

    /** The mount effect slides the screen in. */
    method OnMount()
      modifies this
      ensures isVisible
      ensures username == old(username) && password == old(password) && message == old(message)
      ensures messageType == old(messageType) && navigations == old(navigations)
      ensures loginCalls == old(loginCalls) && quickLoginCalls == old(quickLoginCalls) && spectatorCalls == old(spectatorCalls)
    {
      isVisible := true;
    }

    /** Every edit of the username box stores the text lower-cased. */
    method OnUsernameChange(text: string)
      modifies this
      ensures username == ToLower(text)
      ensures forall i :: 0 <= i < |username| ==> !IsAsciiUpper(username[i])
      ensures password == old(password) && message == old(message) && messageType == old(messageType)
      ensures isVisible == old(isVisible) && navigations == old(navigations)
      ensures loginCalls == old(loginCalls) && quickLoginCalls == old(quickLoginCalls) && spectatorCalls == old(spectatorCalls)
    {
      username := ToLower(text);
    }

    /** Every edit of the key box stores the text as typed. */
    method OnPasswordChange(text: string)
      modifies this
      ensures password == text
      ensures username == old(username) && message == old(message) && messageType == old(messageType)
      ensures isVisible == old(isVisible) && navigations == old(navigations)
      ensures loginCalls == old(loginCalls) && quickLoginCalls == old(quickLoginCalls) && spectatorCalls == old(spectatorCalls)
    {
      password := text;
    }

    /**
     * `handleSubmit`: with an empty field, only the guard message; otherwise
     * `login` is called and, on success, the screen hides and goes to the feed,
     * while on failure it shows the failure's message as an error.
     */
    method HandleSubmit(outcome: CallOutcome)
      modifies this
      ensures old(username) == "" || old(password) == "" ==>
                message == EmptyFields && messageType == ErrorMessage && loginCalls == old(loginCalls) &&
                isVisible == old(isVisible) && navigations == old(navigations)
      ensures old(username) != "" && old(password) != "" ==> loginCalls == old(loginCalls) + [(old(username), old(password))]
      ensures old(username) != "" && old(password) != "" && outcome.Succeeded? ==>
                !isVisible && navigations == old(navigations) + [FeedRoute] &&
                message == old(message) && messageType == old(messageType)
      ensures old(username) != "" && old(password) != "" && outcome.Threw? ==>
                message == SubmitFailureMessage(outcome.failure) && messageType == ErrorMessage &&
                isVisible == old(isVisible) && navigations == old(navigations)
      ensures username == old(username) && password == old(password)
      ensures quickLoginCalls == old(quickLoginCalls) && spectatorCalls == old(spectatorCalls)
    {
      if username == "" || password == "" {
        message := EmptyFields;
        messageType := ErrorMessage;
        return;
      }
      loginCalls := loginCalls + [(username, password)];
      match outcome {
        case Succeeded =>
          isVisible := false;
          navigations := navigations + [FeedRoute];
        case Threw(f) =>
          message := SubmitFailureMessage(f);
          messageType := ErrorMessage;
      }
    }

    /** `handleQuickLogin`: signs in a stored account; the same success path, its own fallback message. */
    method HandleQuickLogin(selectedUsername: string, outcome: CallOutcome)
      modifies this
      ensures quickLoginCalls == old(quickLoginCalls) + [selectedUsername]
      ensures outcome.Succeeded? ==>
                !isVisible && navigations == old(navigations) + [FeedRoute] &&
                message == old(message) && messageType == old(messageType)
      ensures outcome.Threw? ==>
                message == QuickLoginFailureMessage(outcome.failure) && messageType == ErrorMessage &&
                isVisible == old(isVisible) && navigations == old(navigations)
      ensures username == old(username) && password == old(password)
      ensures loginCalls == old(loginCalls) && spectatorCalls == old(spectatorCalls)
    {
      quickLoginCalls := quickLoginCalls + [selectedUsername];
      match outcome {
        case Succeeded =>
          isVisible := false;
          navigations := navigations + [FeedRoute];
        case Threw(f) =>
          message := QuickLoginFailureMessage(f);
          messageType := ErrorMessage;
      }
    }

    /** `handleSpectator`: enters spectator mode; any failure shows one fixed message. */
    method HandleSpectator(outcome: CallOutcome)
      modifies this
      ensures spectatorCalls == old(spectatorCalls) + 1
      ensures outcome.Succeeded? ==>
                !isVisible && navigations == old(navigations) + [FeedRoute] &&
                message == old(message) && messageType == old(messageType)
      ensures outcome.Threw? ==>
                message == SpectatorFailure && messageType == ErrorMessage &&
                isVisible == old(isVisible) && navigations == old(navigations)
      ensures username == old(username) && password == old(password)
      ensures loginCalls == old(loginCalls) && quickLoginCalls == old(quickLoginCalls)
    {
      spectatorCalls := spectatorCalls + 1;
      match outcome {
        case Succeeded =>
          isVisible := false;
          navigations := navigations + [FeedRoute];
        case Threw(_) =>
          message := SpectatorFailure;
          messageType := ErrorMessage;
      }
    }
  }
}

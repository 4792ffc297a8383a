/**
 * The comments sheet: posting a comment or a reply with a Bearer-authorised
 * request, choosing the reply target, and loading the posting key from the
 * device's secret store.
 */
module Comments {
  import opened Wrappers
  import opened Text

  /** One comment shown on the sheet. */
  datatype Comment = Comment(author: string, body: string, permlink: string)

  /** The JSON body of a create-comment request. */
  datatype Payload = Payload(author: string, parentAuthor: string, parentPermlink: string, body: string)

  /** A create-comment request: its Authorization header value and its body. */
  datatype Request = Request(authorization: string, payload: Payload)

  /** How a sent request ended: a decoded JSON answer, or an exception from fetch or from decoding. */
  datatype SendOutcome = Answered(success: bool, error: Option<string>) | Threw

  /** The alert shown when the guard refuses to send. */
  const MissingInput: string := "Missing comment, username, or key"

  /** The alert for an unsuccessful answer that carries no error text. */
  const PostFailed: string := "Failed to post comment"

  /** The alert when the request or its decoding throws. */
  const SendThrew: string := "Could not send comment."

  /** The handle under which the pseudo-user of spectator mode is known. */
  const Spectator: string := "SPECTATOR"

  /** The send guard: the draft has non-blank text and both username and key are non-empty. */
  predicate CanSend(newComment: string, username: Option<string>, postingKey: Option<string>): (ok: bool)
    ensures ok <==> !AllWhitespace(newComment) && username.Some? && username.value != "" &&
                    postingKey.Some? && postingKey.value != ""
  {
    Trim(newComment) != "" && Truthy(username) && Truthy(postingKey)
  }

  /** A blank draft is never sent, whatever the credentials. */
  lemma BlankDraftRefused(newComment: string, username: Option<string>, postingKey: Option<string>)
    requires AllWhitespace(newComment)
    ensures !CanSend(newComment, username, postingKey)
  {
  }

  /** The first position at or after `from` whose comment has permlink `p` (`Array.prototype.find`). */
  function FindPermlink(comments: seq<Comment>, p: string, from: nat): (r: Option<nat>)
    requires from <= |comments|
    ensures r.Some? ==> from <= r.value < |comments| && comments[r.value].permlink == p
    ensures r.Some? ==> forall j :: from <= j < r.value ==> comments[j].permlink != p
    ensures r.None? ==> forall j :: from <= j < |comments| ==> comments[j].permlink != p
    decreases |comments| - from
  {
    if from == |comments| then None
    else if comments[from].permlink == p then Some(from)
    else FindPermlink(comments, p, from + 1)
  }

  /**
   * The author replied to: the author of the first comment carrying the
   * target permlink, falling back to the post's author when there is no
   * target, no such comment, or its author is empty.
   */
  function ParentAuthor(replyTo: Option<string>, comments: seq<Comment>, postAuthor: string): (r: string)
    ensures !Truthy(replyTo) ==> r == postAuthor
    ensures r == postAuthor ||
            (Truthy(replyTo) && exists i :: 0 <= i < |comments| && comments[i].permlink == replyTo.value && comments[i].author == r)
  {
    if Truthy(replyTo) then
      match FindPermlink(comments, replyTo.value, 0)
      case Some(i) => if comments[i].author != "" then comments[i].author else postAuthor
      case None => postAuthor
    else postAuthor
  }

  /** The reply target's fallback cases: no target, or no comment carrying it. */
  lemma ParentAuthorFallback(replyTo: Option<string>, comments: seq<Comment>, postAuthor: string)
    requires !Truthy(replyTo) || forall j :: 0 <= j < |comments| ==> comments[j].permlink != replyTo.value
    ensures ParentAuthor(replyTo, comments, postAuthor) == postAuthor
  {
  }

  /** With a target that some comment carries, the parent is the first such comment's author unless that is empty. */
  lemma ParentAuthorOfMatch(replyTo: Option<string>, comments: seq<Comment>, postAuthor: string, i: nat)
    requires Truthy(replyTo)
    requires i < |comments| && comments[i].permlink == replyTo.value
    requires forall j :: 0 <= j < i ==> comments[j].permlink != replyTo.value
    ensures ParentAuthor(replyTo, comments, postAuthor) == if comments[i].author != "" then comments[i].author else postAuthor
  {
    var r := FindPermlink(comments, replyTo.value, 0);
    assert r.Some?;
    assert r.value == i;
  }

  /** The permlink replied to: the reply target when set, else the post's permlink. */
  function ParentPermlink(replyTo: Option<string>, postPermlink: string): (r: string)
    ensures Truthy(replyTo) ==> r == replyTo.value
    ensures !Truthy(replyTo) ==> r == postPermlink
  {
    if Truthy(replyTo) then replyTo.value else postPermlink
  }

  /** The Authorization value of the Bearer scheme of section 2.1 of RFC 6750. */
  function BearerHeader(token: string): (r: string)
    ensures |r| == |token| + 7 && r[..7] == "Bearer " && r[7..] == token
  {
    "Bearer " + token
  }

  /** Reading a Bearer Authorization value back: the token after the scheme name and one space. */
  function BearerToken(header: string): (r: Option<string>)
    ensures r.Some? ==> BearerHeader(r.value) == header
  {
    if |header| >= 7 && header[..7] == "Bearer " then Some(header[7..]) else None
  }

  /** The header carries exactly the key: reading it back recovers the key. */
  lemma BearerRoundTrip(token: string)
    ensures BearerToken(BearerHeader(token)) == Some(token)
  {
    assert BearerHeader(token)[..7] == "Bearer ";
    assert BearerHeader(token)[7..] == token;
  }

  /** The request `handleSendComment` sends for a draft, or none when the guard refuses. */
  function RequestFor(newComment: string, username: Option<string>, postingKey: Option<string>,
                      replyTo: Option<string>, comments: seq<Comment>,
                      postAuthor: string, postPermlink: string): (r: Option<Request>)
    ensures r.None? <==> !CanSend(newComment, username, postingKey)
    ensures r.Some? ==> BearerToken(r.value.authorization) == postingKey
    ensures r.Some? ==> r.value.payload.author == username.value && r.value.payload.author != ""
    ensures r.Some? ==> r.value.payload.body == newComment
    ensures r.Some? ==> r.value.payload.parentPermlink == ParentPermlink(replyTo, postPermlink)
    ensures r.Some? ==> r.value.payload.parentAuthor == ParentAuthor(replyTo, comments, postAuthor)
  {
    if !CanSend(newComment, username, postingKey) then None
    else
      BearerRoundTrip(postingKey.value);
      Some(Request(BearerHeader(postingKey.value),
                   Payload(username.value, ParentAuthor(replyTo, comments, postAuthor),
                           ParentPermlink(replyTo, postPermlink), newComment)))
  }

  /** The alert for an answer without `success`: its `error` when truthy, else a fixed text. */
  function FailureAlert(error: Option<string>): (r: string)
    ensures r != ""
    ensures Truthy(error) ==> r == error.value
    ensures !Truthy(error) ==> r == PostFailed
  {
    if Truthy(error) then error.value else PostFailed
  }

  /** The secret-store handle `loadKey` reads, or none when it skips the read. */
  function KeyHandle(username: Option<string>): (r: Option<string>)
    ensures r.None? <==> !Truthy(username) || username.value == Spectator
    ensures r.Some? ==> r == username
  {
    if Truthy(username) && username.value != Spectator then username else None
  }

  /** The reply target after tapping comment `permlink`: set it, or clear it when it already was the target. */
  function ToggledReply(current: Option<string>, permlink: string): (r: Option<string>)
    ensures r != current
    ensures r == None <==> current == Some(permlink)
    ensures r.Some? ==> r.value == permlink
  {
    if current == Some(permlink) then None else Some(permlink)
  }

  /** Tapping the same comment twice from no target comes back to no target; from any target, it ends on that comment or none. */
  lemma ToggleTwice(current: Option<string>, permlink: string)
    ensures current == None ==> ToggledReply(ToggledReply(current, permlink), permlink) == None
    ensures ToggledReply(ToggledReply(current, permlink), permlink) in {None, Some(permlink)}
  {
  }

  /** The sheet's state. The post, its comments and the signed-in user come from the parent. */
  class CommentsScreen {
    const postAuthor: string
    const postPermlink: string
    const comments: seq<Comment>
    const username: Option<string>
    var newComment: string
    var postingKey: Option<string>
    var replyToPermlink: Option<string>
    var isSending: bool
    /** Every alert shown so far, oldest first. */
    var alerts: seq<string>
    /** Every request sent so far, oldest first. */
    var sent: seq<Request>
    /** How many comment refreshes have been scheduled after successful posts. */
    var refreshes: nat

    constructor(postAuthor: string, postPermlink: string, comments: seq<Comment>, username: Option<string>)
      ensures this.postAuthor == postAuthor && this.postPermlink == postPermlink
      ensures this.comments == comments && this.username == username
      ensures newComment == "" && postingKey == None && replyToPermlink == None && !isSending
      ensures alerts == [] && sent == [] && refreshes == 0
    {
      this.postAuthor := postAuthor;
      this.postPermlink := postPermlink;
      this.comments := comments;
      this.username := username;
      newComment := "";
      postingKey := None;
      replyToPermlink := None;
      isSending := false;
      alerts := [];
      sent := [];
      refreshes := 0;
    }

    /** `loadKey`: read the key for the signed-in user, unless there is none or it is the spectator. */
    method LoadKey(store: map<string, string>)
      modifies this
      ensures KeyHandle(username).None? ==> postingKey == old(postingKey)
      ensures KeyHandle(username).Some? ==>
                postingKey == (if username.value in store then Some(store[username.value]) else None)
      ensures newComment == old(newComment) && replyToPermlink == old(replyToPermlink)
      ensures isSending == old(isSending) && alerts == old(alerts) && sent == old(sent) && refreshes == old(refreshes)
    {
      if Truthy(username) && username.value != Spectator {
        var handle := username.value;
        postingKey := if handle in store then Some(store[handle]) else None;
      }
    }

    /** Typing in the comment box. */
    method EditComment(text: string)
      modifies this
      ensures newComment == text
      ensures postingKey == old(postingKey) && replyToPermlink == old(replyToPermlink)
      ensures isSending == old(isSending) && alerts == old(alerts) && sent == old(sent) && refreshes == old(refreshes)
    {
      newComment := text;
    }

    /** Tapping a comment toggles it as the reply target. */
    method TapComment(permlink: string)
      modifies this
      ensures replyToPermlink == ToggledReply(old(replyToPermlink), permlink)
      ensures newComment == old(newComment) && postingKey == old(postingKey)
      ensures isSending == old(isSending) && alerts == old(alerts) && sent == old(sent) && refreshes == old(refreshes)
    {
      replyToPermlink := if replyToPermlink == Some(permlink) then None else Some(permlink);
    }

    /**
     * `handleSendComment` up to its await: either the guard alerts and nothing
     * else changes, or the sending flag is raised and the request is sent.
     */
    method BeginSend() returns (request: Option<Request>)
      modifies this
      ensures request == RequestFor(old(newComment), username, old(postingKey), old(replyToPermlink),
                                    comments, postAuthor, postPermlink)
      ensures request.None? ==> alerts == old(alerts) + [MissingInput] && sent == old(sent) && isSending == old(isSending)
      ensures request.Some? ==> alerts == old(alerts) && sent == old(sent) + [request.value] && isSending
      ensures newComment == old(newComment) && postingKey == old(postingKey)
      ensures replyToPermlink == old(replyToPermlink) && refreshes == old(refreshes)
    {
      if Trim(newComment) == "" || !Truthy(username) || !Truthy(postingKey) {
        alerts := alerts + [MissingInput];
        request := None;
        return;
      }
      isSending := true;
      var parentAuthor := ParentAuthor(replyToPermlink, comments, postAuthor);
      var parentPermlink := ParentPermlink(replyToPermlink, postPermlink);
      var payload := Payload(username.value, parentAuthor, parentPermlink, newComment);
      var req := Request(BearerHeader(postingKey.value), payload);
      sent := sent + [req];
      request := Some(req);
    }

    /**
     * `handleSendComment` after its await. On success the draft and reply
     * target are cleared and a refresh is scheduled; otherwise they are kept
     * and an alert explains why. The sending flag is lowered in every case.
     */
    method FinishSend(outcome: SendOutcome)
      modifies this
      ensures !isSending
      ensures outcome.Answered? && outcome.success ==>
                newComment == "" && replyToPermlink == None && alerts == old(alerts) && refreshes == old(refreshes) + 1
      ensures outcome.Answered? && !outcome.success ==>
                newComment == old(newComment) && replyToPermlink == old(replyToPermlink) &&
                alerts == old(alerts) + [FailureAlert(outcome.error)] && refreshes == old(refreshes)
      ensures outcome.Threw? ==>
                newComment == old(newComment) && replyToPermlink == old(replyToPermlink) &&
                alerts == old(alerts) + [SendThrew] && refreshes == old(refreshes)
      ensures postingKey == old(postingKey) && sent == old(sent)
    {
      match outcome {
        case Answered(success, error) =>
          if success {
            newComment := "";
            replyToPermlink := None;
            refreshes := refreshes + 1;
          } else {
            alerts := alerts + [FailureAlert(error)];
          }
        case Threw =>
          alerts := alerts + [SendThrew];
      }
      isSending := false;
    }
  }
}

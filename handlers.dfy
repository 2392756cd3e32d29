/** The decisions of the bot's update handlers (index.js lines 91-252): which
    path a `/start` command, a text message, an access-link button click or a
    tutorial request takes, given the store, the current time and the replies
    of the upstream services. Message wording, keyboards, edits and deletions
    are not modelled; each handler yields an outcome tag instead. */
module Handlers {
  import opened Wrappers
  import opened JsStrings
  import opened UserStore

  // ---------------------------------------------------------------------
  // /start (index.js:91-112)
  // ---------------------------------------------------------------------

  /** The `/start` test of index.js:96: the command text is non-empty and
      contains the configured redirect prefix. */
  predicate StartGrantsAccess(command: string, redirectPrefix: string) {
    command != [] && Includes(command, redirectPrefix)
  }

  /** The `/start` handler: make sure the user has a record, then grant a
      24-hour window exactly when the command carries the redirect prefix.
      The grant always finds the record created just before. */
  method OnStart(store: Store, id: int, details: UserDetails, command: string, redirectPrefix: string, now: int)
    returns (granted: bool)
    requires store.Valid()
    modifies store
    ensures store.Valid()
    ensures granted <==> StartGrantsAccess(command, redirectPrefix)
    ensures Lookup(store.kv, id).Some?
    ensures granted ==> store.kv == WithGrant(WithUser(old(store.kv), id, details, now), id, now)
    ensures !granted ==> store.kv == WithUser(old(store.kv), id, details, now)
  {
    var _ := store.GetOrCreateUser(id, details, now);
    granted := command != [] && Includes(command, redirectPrefix);
    if granted {
      var ok := store.Grant24HourAccess(id, now);
      assert ok;
    }
  }

  /** A `/start` carrying the redirect prefix gives access for exactly the
      next 24 hours, whether or not the user existed before. */
  lemma {:induction false} StartWithRedirectGivesWindow(kv: Namespace, id: int, details: UserDetails, now: int, t: int)
    requires WellFormed(kv)
    ensures Lookup(WithUser(kv, id, details, now), id).Some?
    ensures AccessActive(WithGrant(WithUser(kv, id, details, now), id, now), id, t)
            <==> t < now + AccessWindowMs
  {
    WithUserKeepsWellFormed(kv, id, details, now);
    UserKeyHoldsRecord(WithUser(kv, id, details, now), id);
  }

  // ---------------------------------------------------------------------
  // Text messages (index.js:114-177)
  // ---------------------------------------------------------------------

  /** The link filter of index.js:118. */
  predicate LooksLikeLink(text: string) {
    StartsWith(text, "http://") || StartsWith(text, "https://")
  }

  /** The reply of the video-resolution service: a payload (its `status`,
      `media_url` and `title`, the title possibly absent), an HTTP error
      status, or no response at all. */
  datatype VideoReply =
    | VideoPayload(status: string, mediaUrl: string, title: Option<string>)
    | HttpError(code: int)
    | NoResponse

  /** How a video request ends. */
  datatype VideoOutcome =
    | Delivered(mediaUrl: string, title: string)   // video sent, deletion armed
    | Unprocessable                                // status other than 'success'
    | ApiError(code: int)                          // "API Error: <status>"
    | ConnectionIssue                              // no response

  const DefaultTitle: string := "Terabox Video"

  /** `data.title || 'Terabox Video'`: an absent or empty title falls back
      to the default. */
  function DisplayTitle(title: Option<string>): (t: string)
    ensures t != []
    ensures t == DefaultTitle <==> (title.None? || title.value == [] || title.value == DefaultTitle)
    ensures title.Some? && title.value != [] ==> t == title.value
  {
    if title.Some? && title.value != [] then title.value else DefaultTitle
  }

  /** The classification of index.js:130-166. */
  function ClassifyVideoReply(reply: VideoReply): (o: VideoOutcome)
    ensures o.Delivered? <==> reply.VideoPayload? && reply.status == "success"
    ensures o.Delivered? ==> o.mediaUrl == reply.mediaUrl && o.title == DisplayTitle(reply.title)
    ensures o.Unprocessable? <==> reply.VideoPayload? && reply.status != "success"
    ensures o.ApiError? <==> reply.HttpError?
    ensures o.ApiError? ==> o.code == reply.code
  {
    match reply
    case VideoPayload(status, mediaUrl, title) =>
      if status == "success" then Delivered(mediaUrl, DisplayTitle(title)) else Unprocessable
    case HttpError(code) => ApiError(code)
    case NoResponse => ConnectionIssue
  }

  /** What the text handler does. */
  datatype TextOutcome =
    | Ignored                      // not a link: no reply, no store access
    | InsufficientBalance          // the "get access" prompt
    | Processed(video: VideoOutcome)

  /** The text handler: trim, ignore anything that is not an http(s) link,
      then deny or resolve the link depending on the user's access window.
      `reply` is what the resolver answers for the trimmed link. It reads
      the store and never writes it. */
  method OnText(store: Store, id: int, text: string, now: int, reply: VideoReply) returns (o: TextOutcome)
    requires store.Valid()
    ensures o.Ignored? <==> !LooksLikeLink(Trim(text))
    ensures o.InsufficientBalance? <==> LooksLikeLink(Trim(text)) && !AccessActive(store.kv, id, now)
    ensures o.Processed? <==> LooksLikeLink(Trim(text)) && AccessActive(store.kv, id, now)
    ensures o.Processed? ==> o.video == ClassifyVideoReply(reply)
  {
    var trimmed := Trim(text);
    if !StartsWith(trimmed, "http://") && !StartsWith(trimmed, "https://") {
      return Ignored;
    }
    var access := store.HasAccess(id, now);
    if access {
      o := Processed(ClassifyVideoReply(reply));
    } else {
      o := InsufficientBalance;
    }
  }

  /** `VIDEO_DELETE_DELAY` (index.js:14): the configured number of seconds,
      read with `parseInt`, times 1000; `None` when the setting is not a
      number. */
  function DeleteDelayMs(setting: string): (ms: Option<int>)
    ensures ms.Some? <==> ParseInt(setting).Some?
    ensures ms.Some? ==> ms.value % 1000 == 0 && ms.value / 1000 == ParseInt(setting).value
  {
    match ParseInt(setting)
    case Some(seconds) => Some(seconds * 1000)
    case None => None
  }

  /** A setting written as a whole number of seconds gives that many
      thousand milliseconds. */
  lemma {:induction false} DeleteDelayOfSeconds(seconds: int)
    ensures DeleteDelayMs(IntToDecimal(seconds)) == Some(seconds * 1000)
  {
    ParseIntOfDecimal(seconds);
  }

  // ---------------------------------------------------------------------
  // The get_access button (index.js:180-212)
  // ---------------------------------------------------------------------

  /** The reply of the access-link service: a string body, or a failure
      (network error, error status, or a body that is not a string, on
      which `trim` throws). */
  datatype LinkReply = LinkBody(body: string) | LinkFailed

  datatype AccessLinkOutcome =
    | ShowLink(link: string)   // the link is shown to the user
    | UnexpectedFormat         // "Unexpected response from API"
    | LinkError                // "An unknown error occurred"

  /** The decision of index.js:185-210: the trimmed body is shown only when
      it starts with the configured redirect prefix. */
  function DecideAccessLink(reply: LinkReply, redirectPrefix: string): (o: AccessLinkOutcome)
    ensures o.ShowLink? <==> reply.LinkBody? && StartsWith(Trim(reply.body), redirectPrefix)
    ensures o.ShowLink? ==> StartsWith(o.link, redirectPrefix) && o.link == Trim(reply.body)
    ensures o.ShowLink? ==> Trim(o.link) == o.link
    ensures o.LinkError? <==> reply.LinkFailed?
  {
    match reply
    case LinkFailed => LinkError
    case LinkBody(body) =>
      var redirectLink := Trim(body);
      TrimIdempotent(body);
      if StartsWith(redirectLink, redirectPrefix) then ShowLink(redirectLink) else UnexpectedFormat
  }

  /** A shown link, sent back anywhere inside a `/start` command, grants
      access: the whole trust mechanism is that the prefix appears in the
      command. */
  lemma {:induction false} ShownLinkGrantsOnStart(reply: LinkReply, redirectPrefix: string, command: string)
    requires DecideAccessLink(reply, redirectPrefix).ShowLink?
    requires Includes(command, DecideAccessLink(reply, redirectPrefix).link)
    requires command != []
    ensures StartGrantsAccess(command, redirectPrefix)
  {
    var link := DecideAccessLink(reply, redirectPrefix).link;
    IncludesMeansOccurs(command, link);
    var j :| 0 <= j <= |command| && StartsWith(command[j..], link);
    assert command[j..][..|redirectPrefix|] == link[..|redirectPrefix|];
    assert StartsWith(command[j..], redirectPrefix);
    IncludesMeansOccurs(command, redirectPrefix);
  }

  /** The deep-link round trip: the shown link comes back as the payload of
      `/start <link>`, and that command grants access. */
  lemma {:induction false} StartWithShownLinkGrants(reply: LinkReply, redirectPrefix: string)
    requires DecideAccessLink(reply, redirectPrefix).ShowLink?
    ensures StartGrantsAccess("/start " + DecideAccessLink(reply, redirectPrefix).link, redirectPrefix)
  {
    var link := DecideAccessLink(reply, redirectPrefix).link;
    var command := "/start " + link;
    assert command[7..] == link;
    assert command[7..][..|link|] == link;
    IncludesMeansOccurs(command, link);
    ShownLinkGrantsOnStart(reply, redirectPrefix, command);
  }

  // ---------------------------------------------------------------------
  // Tutorial video (index.js:214-252)
  // ---------------------------------------------------------------------

  datatype TutorialOutcome = SendTutorial(fileId: string) | TutorialNotSet

  /** The show_tutorial button: send the stored video when the reference is
      present and non-empty. */
  method OnShowTutorial(store: Store) returns (o: TutorialOutcome)
    requires store.Valid()
    ensures o.SendTutorial? <==> TutorialVideo(store.kv).Some? && TutorialVideo(store.kv).value != []
    ensures o.SendTutorial? ==> o.fileId == TutorialVideo(store.kv).value
  {
    var fileId := store.GetTutorialVideoFileId();
    if fileId.Some? && fileId.value != [] {
      o := SendTutorial(fileId.value);
    } else {
      o := TutorialNotSet;
    }
  }

  /** Whether a sender is the administrator. `adminId` is `parseInt` of the
      setting, `None` for `NaN`, which equals no sender. */
  predicate IsAdmin(fromId: int, adminId: Option<int>) {
    adminId == Some(fromId)
  }

  /** The video handler: a video from the administrator becomes the
      tutorial video; one from anybody else is ignored. */
  method OnVideo(store: Store, fromId: int, adminId: Option<int>, fileId: string)
    requires store.Valid()
    modifies store
    ensures store.Valid()
    ensures IsAdmin(fromId, adminId) ==> store.kv == WithTutorialVideo(old(store.kv), fileId)
    ensures !IsAdmin(fromId, adminId) ==> store.kv == old(store.kv)
  {
    if adminId != Some(fromId) {
      return;
    }
    store.SetTutorialVideo(fileId);
  }
}

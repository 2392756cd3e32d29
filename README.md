# Access-window store and gating decisions of a Telegram link-relay bot

This project is a Dafny model of the core of a Telegram bot that runs as a
Cloudflare Worker (`index.js`). The bot relays video links to a
video-resolution service. Only users with a live 24-hour access window get a
video back. Users obtain a window through an external redirect link: they
come back to the bot with `/start` plus a marker. Everything the bot
remembers lives in one key-value namespace:

- one record per user under the key `user_<id>`. A record holds the id, the
  names, the access expiry, the join date and the number of grants;
- one configuration key, `config_tutorial_video_id`.

The model has these parts:

- `js_strings.dfy` (module `JsStrings`): the JavaScript string operations
  the bot uses, after ECMA-262, over strings of Unicode scalar values (see
  "## Left out"). These are `trim`, `startsWith`,
  `includes`, `indexOf`, `replace` of the first occurrence, `parseInt` with
  no radix, and the decimal string of an integer.
- `keys.dfy` (module `Keys`): the `user_<id>` key encoding and its decoding
  by `parseInt(name.replace('user_', ''))`, with the round trip proved.
- `user_store.dfy` (module `UserStore`): the records and the namespace.
  Pure functions say what each operation does to the namespace. The class
  `Store` holds the namespace as a `map` field and updates it in place.
  Its methods (`GetOrCreateUser`, `HasAccess`, `Grant24HourAccess`,
  `GetTutorialVideoFileId`, `SetTutorialVideo`) are proved against those
  functions. Lemmas state the window semantics: a newcomer has no access,
  access ends at the expiry instant, grants reset the window instead of
  stacking, and each operation touches only its own key.
- `handlers.dfy` (module `Handlers`): the decisions of the handlers for
  `/start`, text messages, the `get_access` and `show_tutorial` buttons and
  admin video uploads. Each handler yields an outcome tag. The
  `VIDEO_DELETE_DELAY` seconds-to-milliseconds conversion is here too.
- `admin.dfy` (module `Admin`): `/usercount` and `/broadcast`. Both filter
  the key listing by the `user_` prefix. The broadcast loop keeps its
  success and failure counters.

Time is an integer number of milliseconds since the Unix epoch, passed in as
`now`. These are inputs too:

- the replies of the two upstream services;
- the key listing of the namespace;
- the outcome of each broadcast send.

A grant for a user without a record does not create one: `JSON.parse(null)`
yields `null` and the field assignment at index.js:60 throws before anything
is written.
`Store.Grant24HourAccess` therefore reports failure and leaves the
namespace unchanged. `/start` always creates the record first, so its grant
never meets the missing-record case (`Handlers.OnStart`).

## Model

| member | source | states |
|---|---|---|
| `JsStrings.TrimSpec` | index.js:115 | `trim` removes only whitespace, only at the two ends; the result neither starts nor ends with whitespace |
| `JsStrings.TrimIdempotent` | index.js:185 | a trimmed string trims to itself |
| `JsStrings.IndexOfSpec` | index.js:290 | the first position where the pattern occurs; none when it occurs nowhere |
| `JsStrings.IncludesMeansOccurs` | index.js:96 | `includes` holds exactly when the pattern occurs at some position |
| `JsStrings.DeleteFirstSpec` | index.js:290 | `replace(p, '')` removes only the first occurrence and changes nothing when there is none |
| `JsStrings.DeleteFirstOfPrefix` | index.js:290 | removing a prefix the string starts with gives back the rest |
| `JsStrings.DigitPrefixSpec` | index.js:290 | `parseInt` reads the longest run of digits at the start, stopping at the first non-digit |
| `JsStrings.NatToDecimalSpec` | index.js:22 | the decimal numeral is non-empty, all digits, with no leading zero |
| `JsStrings.ParseIntOfDecimal` | index.js:290 | `parseInt` of an integer's decimal string gives the integer back |
| `Keys.UserKeyRoundTrip` | index.js:22 | every `user_<id>` key passes the `user_` filter and decodes back to `id` |
| `Keys.UserKeyInjective` | index.js:22 | two users share a key exactly when they are the same user |
| `Keys.TutorialKeyIsNotUserKey` | index.js:249 | the configuration key is never a user key |
| `UserStore.WithUserKeepsWellFormed` | index.js:21-41 | creation keeps every user key holding its own user's record |
| `UserStore.WithGrantKeepsWellFormed` | index.js:53-64 | a grant keeps the namespace well formed |
| `UserStore.WithTutorialVideoKeepsWellFormed` | index.js:249 | storing the tutorial video keeps the namespace well formed |
| `UserStore.UserKeyHoldsRecord` | index.js:45-46 | in a well-formed namespace, a present user key always holds a record |
| `UserStore.NewcomerHasNoAccess` | index.js:29-37 | a new record has expiry at the epoch and zero grants, so there is no access at any time from the epoch on |
| `UserStore.AccessWindowAfterGrant` | index.js:50 | after a grant at `now`, access holds at `t` exactly when `t < now + 86400000`, so it ends at the expiry instant |
| `UserStore.GrantsDoNotStack` | index.js:58-61 | grants at `t1` then `t2` give expiry `t2 + 86400000`, not 48 hours, and two more grants |
| `UserStore.GrantTouchesOnlyItsUser` | index.js:54-63 | a grant keeps the record's id, names and join date, and leaves other users and the tutorial video unchanged |
| `UserStore.CreateTouchesOnlyItsUser` | index.js:22-39 | creating a record leaves other users and the tutorial video unchanged |
| `UserStore.TutorialVideoTouchesNoUser` | index.js:249 | storing the tutorial video changes no user record and is read back |
| `UserStore.GrantNeverShortensWindow` | index.js:58-60 | while the clock does not go backwards, a grant never moves an expiry backwards, and every write (creation, grant, tutorial video) keeps every expiry within one window of the clock |
| `UserStore.Store.constructor` | index.js:8 | the namespace starts empty and well formed |
| `UserStore.Store.GetOrCreateUser` | index.js:21-41 | an existing record is returned and nothing is written; otherwise one newcomer record is written under the user's key and returned |
| `UserStore.Store.HasAccess` | index.js:43-51 | false without a record, otherwise whether the stored expiry is strictly after `now` |
| `UserStore.Store.Grant24HourAccess` | index.js:53-64 | with a record: expiry becomes `now + 24h` and the counter goes up by one; without one: failure and no write |
| `UserStore.Store.GetTutorialVideoFileId` | index.js:66-68 | the stored reference, absent when the key is missing |
| `UserStore.Store.SetTutorialVideo` | index.js:249 | only the configuration key is rewritten |
| `Handlers.OnStart` | index.js:91-101 | the user always ends with a record; a grant happens exactly when the command is non-empty and contains the redirect prefix, and it always finds the record just created |
| `Handlers.StartWithRedirectGivesWindow` | index.js:93-97 | a `/start` with the marker gives access for exactly the next 24 hours, for new and returning users |
| `Handlers.DisplayTitle` | index.js:132 | an absent or empty title becomes `'Terabox Video'`; any other title is kept |
| `Handlers.ClassifyVideoReply` | index.js:130-166 | delivered exactly when the status is `'success'`, with the reply's media URL; any other status is unprocessable; an error status or no response are the two error paths |
| `Handlers.OnText` | index.js:114-177 | text that is not an http(s) link after trimming is ignored; otherwise the request is denied without access and resolved with access; the store is never written |
| `Handlers.DeleteDelayMs` | index.js:14 | the delay is a whole number of seconds in milliseconds: divisible by 1000, and divided by 1000 it is the number `parseInt` reads from the setting; absent when the setting is not a number |
| `Handlers.DeleteDelayOfSeconds` | index.js:14 | a setting of `s` seconds gives `s * 1000` ms |
| `Handlers.DecideAccessLink` | index.js:183-210 | the trimmed reply is shown exactly when it starts with the redirect prefix; a failed fetch is the error path |
| `Handlers.ShownLinkGrantsOnStart` | index.js:96 | a `/start` command that contains a shown access link anywhere grants access |
| `Handlers.StartWithShownLinkGrants` | index.js:91-97 | `/start <link>` with a shown access link as its payload grants access |
| `Handlers.OnShowTutorial` | index.js:214-233 | the tutorial is sent exactly when a non-empty reference is stored |
| `Handlers.OnVideo` | index.js:244-252 | only a video from the administrator becomes the tutorial video; otherwise nothing changes |
| `Admin.UserKeys` | index.js:259 | the filtered keys are exactly the listed keys that start with `user_` |
| `Admin.UserKeysOfOne` | index.js:259 | a single key is kept exactly when it starts with `user_` |
| `Admin.UserKeysAppend` | index.js:259 | filtering a concatenation concatenates the filtered parts, so the filter keeps the listing's order and repetitions |
| `Admin.CountUsers` | index.js:254-266 | the administrator gets the number of `user_` keys; anyone else is refused |
| `Admin.UserCountIsRecordCount` | index.js:258-261 | over a listing of the namespace, the count equals the number of user records, and the configuration key is never counted |
| `Admin.BroadcastText` | index.js:271-279 | the message is the command with the first `/broadcast` removed, then trimmed; an empty message asks for usage |
| `Admin.Broadcast` | index.js:283-298 | one attempt per user key, in order, to the id decoded from the key; successes equal the delivered sends, and successes plus failures equal the number of user keys |
| `Admin.BroadcastTriesEveryUser` | index.js:287-292 | every user with a record gets a send attempt |
| `Admin.BroadcastInventsNoUser` | index.js:287-292 | every id the broadcast sends to is a user with a record |
| `Admin.BroadcastReachesEveryUser` | index.js:287-290 | over a listing of the namespace, an id is a recipient exactly when it has a record |
| `Admin.OnBroadcast` | index.js:268-305 | non-administrators are refused; an empty message gives the usage text; otherwise the loop's totals are reported |

## Left out

- Telegram plumbing is not modelled: Telegraf wiring, message texts and formatting, inline keyboards, `answerCbQuery`, and edits and deletions of messages. Handlers yield outcome tags instead.
- The HTTP calls to the video-resolution and access-link services are not made. Their replies are inputs (`VideoReply`, `LinkReply`).
- A Telegram send that fails inside the text handler's `try` (index.js:141-149) is not modelled. Such a failure would also take the error path.
- The `setTimeout` deletion of a delivered video and the 50 ms pause between broadcast sends are timers, and are not modelled. Only the delay conversion is.
- The caption's default of 20 seconds (index.js:138) is not modelled.
- JSON serialisation and ISO-8601 date strings are not modelled. Records are a datatype, and times are integer milliseconds.
- Numbers are unbounded integers. JavaScript's loss of precision above 2^53, and exponent notation in number-to-string, are not modelled.
- Handlers.OnStart: reads one clock value for both the record creation and the grant. The source calls `new Date()` separately for each.
- The worker entry point is not modelled: `fetch`, `webhookHandler`, its secret-path check, and the `env` globals. `Store.constructor` stands for the KV binding. The model does not capture that `const USER_DATA_KV = USER_DATA_KV;` (index.js:8) names its own binding before initialisation and, read as module code, would throw when the module loads.
- The namespace is modelled as a consistent map whose get and put never fail. A failing KV call is not modelled: it would make the handler throw, with no grant and no reply, since no helper or handler catches it. KV's eventual consistency and its write limits are not modelled either; for example, a newcomer's marked `/start` writes the same key twice in one update.
- The key-value listing is an input sequence. Its lexicographic order, its pagination and its failures (index.js:262-265) are not modelled. One `list()` call returns a single page (at most 1000 keys by default), so the count and the broadcast cover every user only while the namespace fits in one page: `UserCountIsRecordCount` and `BroadcastReachesEveryUser` assume a complete listing (`Enumerates`).
- Handler registration order is not modelled. The text handler (index.js:114) is registered before the `setvideo`, `usercount` and `broadcast` commands (index.js:235, 254, 268) and does not pass control on, so in Telegraf's middleware chain those command texts may never reach their handlers. `CountUsers` and `OnBroadcast` model the command handlers as written, not whether they are reachable.
- Strings are sequences of Unicode scalar values, not of UTF-16 code units as in ECMA-262. `IndexOf` positions therefore differ from JavaScript's once a character above U+FFFF occurs before the match; no decision of the bot depends on these positions.
- Admin.Broadcast: the send outcomes are an input with one entry per user key. Whether a send to a `NaN` id fails is left to that input.
- A tutorial video send that fails (index.js:226-229) is not modelled; `OnShowTutorial` only decides whether to send.
- The `/setvideo` command only sends a prompt after the administrator check. It changes no state, and its reply is not modelled.
- Concurrent webhook updates are not modelled. The source has no coordination between them.

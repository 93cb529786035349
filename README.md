# Bot relay server: login check, access approval, bot sessions, message relay

A model of the logic of `index.js`, an Express server. Users log in with
Telegram's login widget. They ask an administrator for access, start their
own Telegram bot and have every text message it receives answered by the
DeepSeek chat completion service. Beneath the network calls there are four
pieces of logic, and each is modelled here:

- `auth.dfy` (module `Auth`): the `/auth` handler. It builds the data-check
  string from every query field but `hash`: keys sorted, `key=value` lines
  joined by line feeds. The login is accepted exactly when the HMAC-SHA256
  digest of that string equals `hash`. The digest is a parameter (`Signer`).
  `Object.keys` order is a parameter too (`keys`, any enumeration of the
  query's keys), and the check string is proved not to depend on it.
- `access.dfy` (module `Access`): the `userRequests` registry as a class
  with one `map` field. `RequestAccess` models `/request-access`,
  `CheckStatus` models `/check-status/:id` and `HandleCallback` models the
  administrator's `callback_query` handler. It also holds the
  `<action>_<id>` button token and its parsing by `split('_')`.
- `sessions.dfy` (module `Sessions`): the `activeBots` registry as a class
  with one `map` field of `BotHandle` objects. `StartBot` models
  `/start-bot`.
- `relay.dfy` (module `Relay`): the `message` handler of a started bot. It
  is a function from the message, the API key, the completion service and
  the delivery outcome to the call made and the messages sent.
- `strings.dfy` (module `Strings`): JavaScript's `split` and `join` on a
  one-character separator, and `Array.prototype.sort` with the default
  comparator. Sorting is modelled by insertion sort. There is only one
  ascending arrangement of a list of strings (`AscendingUnique`), so any
  correct sort gives the same result.
- `wrappers.dfy` (module `Wrappers`): `Option`.

Network outcomes are inputs. These are: whether the admin prompt was
delivered, whether `stopPolling` succeeded, whether the bot and completion
client could be built, what the completion service answers, and whether
Telegram accepted the reply.

Some behaviours of the code that a reader might not expect, all kept by
the model:

- `/start-bot` does not reject an empty bot token or API key.
- When building the new bot fails, the owner's old handle stays in
  `activeBots`, already asked to stop.
- `!hash` also rejects an empty `hash` with 400.
- The digest is compared with `===`, not in constant time.
- A repeated `/request-access` for a pending user sends the administrator
  another prompt.
- A decision overwrites any earlier one, including approved to declined.

## Model

| member | source | states |
|---|---|---|
| `Strings.Join` | index.js:32 | defined as `Array.prototype.join` on one separator; characterised by `Strings.JoinSplit`, `Strings.SplitJoin` and `Strings.JoinAround` |
| `Strings.JoinAround` | index.js:32 | a join is the parts before part `i` with their separators, then part `i`, then a separator and the parts after it |
| `Strings.JoinDiffersAt` | index.js:32 | two joins of equally many parts that differ in exactly one part are different strings |
| `Strings.Split` | index.js:117 | `split` returns at least one part and no part contains the separator |
| `Strings.JoinSplit` | index.js:117 | joining the parts of a split with the separator gives back the string |
| `Strings.SplitJoin` | index.js:59-60 | splitting a join of separator-free parts gives back the parts |
| `Strings.Sort` | index.js:32 | defined as insertion sort under the default string order; characterised by `Strings.SortSpec` and `Strings.AscendingUnique` |
| `Strings.SortSpec` | index.js:32 | the sorted keys are a permutation of the keys, in ascending order |
| `Strings.AscendingUnique` | index.js:32 | two ascending lists with the same elements are equal, so the sort's result is determined |
| `Strings.SortIgnoresInputOrder` | index.js:32 | the sort's result depends only on the multiset of keys, not their order |
| `Strings.AtMostTotalOrder` | index.js:32 | the default string order is total, antisymmetric and transitive |
| `Auth.Without` | index.js:28 | dropping `hash` from the key list keeps exactly the other keys |
| `Auth.DataKeys` | index.js:28 | the query's keys without `hash`, in their order, enumerate the fields that are signed |
| `Auth.SortedKeys` | index.js:32 | `Object.keys(data).sort()` lists every key of the signed data exactly once, in strictly ascending order |
| `Auth.Lines` | index.js:32 | entry `i` of the list joined into the check string is `ks[i]=value`, one entry per key |
| `Auth.CheckString` | index.js:32 | defined as the `key=value` lines of the sorted keys joined by line feeds; characterised by `Auth.CheckStringIgnoresKeyOrder` and `Auth.TamperedCheckString` |
| `Auth.CheckStringIgnoresKeyOrder` | index.js:28-32 | the check string is the same whatever order the fields were supplied in |
| `Auth.SignedMessage` | index.js:28-32 | defined as the check string of every field but `hash`; characterised by `Auth.GenuineLoginAccepted` and `Auth.TamperedCheckString` |
| `Auth.ExpectedHash` | index.js:31-33 | defined as the digest of the signed message; characterised by `Auth.GenuineLoginAccepted` and `Auth.ForgedHashRejected` |
| `Auth.Authenticate` | index.js:27-41 | a missing or empty `hash` gives 400; otherwise the login redirects exactly when the digest of the check string equals `hash`, and otherwise gives 403; the redirect carries the fields without `hash` |
| `Auth.GenuineLoginAccepted` | index.js:31-38 | fields signed with their true digest are accepted with those fields, whatever the order of the query keys |
| `Auth.ForgedHashRejected` | index.js:33-40 | replacing the hash of an accepted login by any other string makes it fail |
| `Auth.LinesDifferAt` | index.js:32 | over the same keys, changing the value of one key changes that key's line and no other |
| `Auth.TamperedCheckString` | index.js:32 | changing the value of one field changes the check string, whatever the order of either side's keys |
| `Auth.TamperedFieldRejected` | index.js:31-40 | changing one signed value of an accepted login makes it fail, unless the digest collides on the two signed messages |
| `Auth.CheckStringAmbiguous` | index.js:32 | a field whose value holds a line feed can make two different field sets, one with an extra field, share one check string |
| `Access.Token` | index.js:59-60 | defined as `${action}_${id}`; characterised by `Access.TokenRoundTrip` and `Access.TokenCutsIdAtSeparator` |
| `Access.PromptFor` | index.js:53-61 | defined as the prompt for a user with a Confirm and a Decline token; characterised by `Access.PromptButtonsActOnUser` |
| `Access.ParseCallback` | index.js:117 | the action and the id contain no `_`; when the data holds a `_`, it is action, `_`, id, followed by nothing or by another `_`; data without `_` parses as acting on id `undefined` |
| `Access.TokenRoundTrip` | index.js:117 | parsing `action_id` gives back the action and id when neither contains `_` |
| `Access.PromptButtonsActOnUser` | index.js:59-60 | each button of a user's prompt parses to its action and that user's id, when the id has no `_` |
| `Access.TokenCutsIdAtSeparator` | index.js:117 | an id containing `_` is parsed as its prefix before the first `_` |
| `Access.ApprovedText` | index.js:123 | defined as the edit text of a confirm; `Access.Registry.HandleCallback` states when it is sent |
| `Access.DeclinedText` | index.js:126 | defined as the edit text of a decline; `Access.Registry.HandleCallback` states when it is sent |
| `Access.Registry.constructor` | index.js:23 | the registry starts empty |
| `Access.Registry.CheckStatus` | index.js:73-75 | an id reads `none` exactly when it has no entry, else its stored status; nothing changes |
| `Access.Registry.RequestAccess` | index.js:45-70 | an approved id is answered `approved` with no change and no prompt; any other id becomes `pending` and the prompt is sent; the reply is `pending` if it was delivered, else 500 with `pending` kept |
| `Access.Registry.HandleCallback` | index.js:116-128 | `confirm` sets the parsed id to approved and `decline` to declined, overwriting any status, and the prompt is edited; any other action changes nothing |
| `Sessions.BotHandle.constructor` | index.js:86-87 | a new handle polls with the given token and key |
| `Sessions.BotHandle.StopPolling` | index.js:82 | a stop that succeeds ends polling; a failed one leaves the handle unchanged |
| `Sessions.Registry.constructor` | index.js:24 | the registry starts empty |
| `Sessions.Registry.StartBot` | index.js:78-113 | the old handle is asked to stop and a failure is ignored; no other owner's handle changes its polling state; on success the owner maps to a fresh polling handle with the new token and key, and other owners are unchanged; on failure the map is unchanged and the reply is 500 |
| `Relay.HasText` | index.js:90 | defined as `msg.text` present and non-empty; `Relay.HandleMessage` states that without it nothing is called or sent |
| `Relay.SingleTurn` | index.js:97-100 | the request holds exactly one user turn with the text, for model `deepseek-chat` |
| `Relay.HandleMessage` | index.js:89-105 | a message without text makes no call and sends nothing; otherwise the call is the single-turn request under the bot's key, and the sends are the typing indicator then the first choice, with the fallback after it if the reply was refused, or the fallback alone when there is no answer |
| `Relay.OneAnswerPerMessage` | index.js:96-104 | every send goes to the message's chat; the last is the first choice on success and the fallback otherwise; a failed exchange sends exactly one fallback, a successful one none |

## Left out

- SHA-256 and HMAC (RFC 2104 over FIPS 180-4) are not computed. The digest
  is an arbitrary function of the check string. Collision resistance is a
  hypothesis (`Auth.Separates`, for the two messages at hand) only where a
  lemma needs it.
- Auth.TamperedFieldRejected: covers changing the value of a signed field.
  Adding or removing a field can leave the check string unchanged when a
  value holds a line feed (`Auth.CheckStringAmbiguous`).
- Query values that Express parses into arrays or objects (repeated or
  bracketed parameters) are left out. Fields are strings.
- The redirect URL, `encodeURIComponent(JSON.stringify(...))`, response
  bodies and Express routing, body parsing and static files are left out.
  Replies are datatypes with their status codes; the strings the JSON
  bodies carry (`none`, `pending`, ..., and the `/start-bot` messages) are
  not modelled.
- JavaScript sorts by UTF-16 code units; Dafny characters are Unicode
  scalar values. The two orders differ only for characters outside the
  Basic Multilingual Plane.
- Ids are strings: the property keys that JavaScript coerces `telegramId`
  to. Keys inherited from `Object.prototype` (`__proto__`, `constructor`,
  ...) behave differently on a plain JavaScript object and are not
  modelled.
- The Markdown text of the admin prompt and its username are kept only as
  fields of `Access.Prompt`; formatting is left out.
- Telegram polling, `sendMessage`, `editMessageText`, `sendChatAction` and
  `stopPolling`, and the DeepSeek client are network I/O. Their outcomes
  are inputs. A failed edit of the prompt is not modelled.
- Sessions.BotHandle.StopPolling: what a failed `stopPolling` leaves
  behind is internal to the Telegram library, so the model leaves the
  handle unchanged.
- Relay.HandleMessage: a `null` content, or one Telegram refuses, is
  covered by the `delivered` input. A failure to send the fallback is an
  unhandled rejection and is not modelled.
- Handlers run one at a time. Concurrent receive loops, interleavings of
  `await`s and racing `/start-bot` calls are left out.
- Loading `.env`, `console.error` and `app.listen` are left out.

# Chat room: participants and messages

A model of the chat-room backend in `index.js`. The backend keeps two
collections. `participants` holds documents `{ name, lastStatus }`.
`messages` holds documents `{ from, to, text, type, time }`. Four request
handlers work on them:

- `POST /participants` joins the room. The name is checked against the
  schema, a taken name is refused, and a new participant is stored together
  with one status message "entra na sala..." addressed to `Todos`.
- `GET /participants` lists every participant.
- `POST /messages` checks the body against the schema, looks up a
  participant named by the body's `from`, and stores the message.
- `GET /messages` checks that the reader named in the `user` header is a
  participant. It then selects the messages addressed to `Todos`, sent by the
  reader, or addressed to the reader. It sorts them newest first, applies
  `limit` (0 means no limit) and reverses the answer to oldest first.

In the model, the collections are two sequences, fields of the class
`Room.ChatRoom`. A message's position in its sequence stands for its `_id`.
Joins and posts are methods that append to those fields in place. The two
reads are functions of the fields. The store's `findOne` and `find` queries,
the `$or` filter, the descending sort, the cursor limit and the final reverse
are functions in `Queries`. The documents, the two joi schemas (as
predicates) and the answers are in `Records`. Answers are `Ok`, `Invalid`
(422), `Conflict` (409) and `NotFound` (the 409 a read by an unknown user
gets). `Scenarios` holds callers that chain requests, one lemma about a
reader's view that those callers need, and one lemma stating which messages
the read filter hides.

The class invariant `Valid()` covers what every sequence of joins and posts
keeps:

- names are unique and satisfy the schema;
- every message has one of the three kinds;
- status messages go to `Todos` with the join text;
- the senders of the status messages, in log order, are exactly the
  participants' names in join order. So each participant has exactly one
  entry notice.

`SendersRegistered()` says every message was sent by a participant. Joins and
the corrected post keep it; the post as written does not.

Facts about the code that the model keeps:

- The read filter has only the three disjuncts at index.js:126. A `message`
  addressed to a named participant is hidden from third parties, just as a
  private one is. `Scenarios.UnaddressedMessageHidden` states this.
- An unknown reader gets 409 (index.js:122).
- The sender of a post is read from the body's `from` (index.js:90, 96);
  the `user` header is read only by `GET /messages` (index.js:120, 126).
- The join notice's text is "entra na sala..." (index.js:40).

## Model

| member | source | states |
|---|---|---|
| `Records.NameValid` | index.js:16-18 | a name passes userSchema exactly when it has at least one character |
| `Records.MessageBodyValid` | index.js:72-76 | a body passes messageSchema exactly when `to` and `text` are non-empty and `type` is `message` or `private_message`; so a valid body never has type `status` |
| `Queries.Limit` | index.js:128 | the cursor's `.limit(k)` keeps the first k entries (fewer if there are fewer), and all of them when k is 0 |
| `Queries.FindParticipant` | index.js:32 | `findOne({ name })` finds a participant exactly when one has that name, and what it finds is a participant with that name |
| `Queries.UniqueNameCountsOnce` | index.js:32-36 | when names are unique, a taken name belongs to exactly one participant |
| `Queries.AbsentNameCountsZero` | index.js:32-36 | a name nobody carries is counted zero times |
| `Queries.NameTakenAfterAppend` | index.js:45 | after a participant is inserted, the taken names are the old ones plus its name, and no others |
| `Queries.VisibleTo` | index.js:126 | a message is in the reader's selection exactly when it is in the log and is addressed to `Todos`, sent by the reader, or addressed to the reader; the selection is no longer than the log |
| `Queries.VisibleToAppend` | index.js:125-126 | a newly stored message is added at the end of every reader's selection that it is visible in, and changes no other selection |
| `Queries.StatusSendersAppend` | index.js:37-46 | storing a message adds its sender to the status senders exactly when its type is `status` |
| `Queries.Reverse` | index.js:127-130 | the descending `_id` sort of a log kept in `_id` order, and the final `reverse()`, give the same entries in the opposite order |
| `Queries.NewestFirstWindow` | index.js:125-130 | sorting newest first, limiting to k and reversing gives exactly the k most recent entries, oldest first, or all entries when k is 0 |
| `Room.ChatRoom.Join` | index.js:20-54 | an invalid name is answered `Invalid` and a taken name `Conflict`, and neither changes anything; otherwise exactly one participant `{name, now}` and one status message `{name, Todos, entra na sala..., status, time}` are appended and nothing else changes; names stay unique, the class invariant is kept, and afterwards exactly one participant has the name |
| `Room.ChatRoom.PostMessage` | index.js:78-109 | as written: an invalid body is answered `Invalid`; a sender who IS a participant is answered `Conflict` and nothing is stored; otherwise exactly the message `{from, to, text, type, time}` is appended; participants never change |
| `Room.ChatRoom.PostMessageChecked` | index.js:90-94 | corrected: the message is appended exactly when the body is valid and the sender is a participant, an unknown sender is answered `NotFound`, participants never change, and the invariant that every sender is a participant is kept |
| `Room.ChatRoom.ListParticipants` | index.js:56-70 | returns every stored participant, with unique, schema-valid names |
| `Room.ChatRoom.GetMessages` | index.js:111-137 | an unknown reader gets `NotFound`, and only an unknown one; otherwise the answer is the last `limit` visible messages (all when `limit` is 0), oldest first, at most `limit` long, each one in the log and visible to the reader; with no limit, every visible message is in it |
| `Scenarios.UnaddressedMessageHidden` | index.js:126 | a message of any type that is not addressed to `Todos` and is neither from nor to the reader leaves that reader's selection unchanged |
| `Scenarios.NewestVisibleReadLast` | index.js:125-130 | the newest message of the log, if the reader may see it, is the last entry of the reader's read, whatever the limit |
| `Scenarios.RejoinIsRefused` | index.js:32-36 | joining with a name twice gives `Conflict` the second time, and exactly one participant has the name afterwards |
| `Scenarios.TwoJoinsListed` | index.js:45-63 | after two joins with different names, the listing has both names and no others |
| `Scenarios.PostThenRead` | index.js:102-130 | a corrected post by a participant to a participant, followed by the recipient's read, gives a read ending with that message |
| `Scenarios.InvertedSenderCheckWitness` | index.js:90-102 | as written, after "ana" joins, her own post is refused with `Conflict`, while "eve", who never joined, has her post stored under a sender who is not a participant |
| `Scenarios.CheckedSenderWitness` | index.js:90-94 | corrected, the same requests store "ana"'s post, which then appears in her read, and answer "eve" with `NotFound` |

## Left out

- HTTP wiring: Express setup, CORS, JSON parsing and `app.listen` (index.js:9-12). Answers are the `Outcome` values, not status codes. Some branches never call `send` (index.js:47, 92, 103), so the client waits for an answer; this is not modelled.
- The connection per request, `dotenv`, and the `catch` paths that answer 500 (index.js:26-31, 48-52 and their twins). These are store and I/O failures.
- joi internals. Each schema is a predicate on the fields it names. A field that is missing, or that is not a string, is not modelled. joi also refuses keys a schema does not list by default, and this model does not check for extra keys. A body that carries `from` alongside `to`, `text` and `type` would therefore fail `messageSchema` under joi's default, but is judged here on its three named fields only.
- Clocks: `Date.now()` and `dayjs().format(...)` are parameters (`now: int`, `time: string`). Date formatting is not modelled. Because `time` is an opaque string, the order of message times along the log is not stated.
- `ObjectId` generation. A message's position in the log stands for its `_id`, so the descending sort is a reversal.
- `parseInt` of the `limit` query parameter. `limit` is a `nat`, so NaN and negative limits as the store would take them are not modelled. A missing `user` header is also not modelled; the reader is always a string.
- The gap between the `findOne` check and the `insertOne` writes. Two concurrent joins with one name could both succeed, but the model runs operations one at a time.
- Heartbeat (`POST /status`), the inactivity reaper, and deleting or editing messages. `index.js` has none of them, so they are not part of this model.

## Findings

| source | as written | input that shows it | evidently intended | confidence | as-written member | corrected member |
|---|---|---|---|---|---|---|
| index.js:90-94 | the post is refused when a participant named by the body's `from` EXISTS, and stored when no such participant exists | judging the body on its three named fields only, as `Records.MessageBodyValid` does: "ana" joins, then posts `{from: "ana", to: "Todos", text: "oi", type: "message"}`, which is refused with 409 and nothing stored, while the same post from "eve", who never joined, is stored. In the program as written, joi's default refusal of unlisted keys answers any body carrying `from` with 422 at index.js:79-82, so line 90 then looks up an absent name | store the post only when its sender is a participant, and answer an unknown sender with an error | high (not executed) | `Room.ChatRoom.PostMessage`, `Scenarios.InvertedSenderCheckWitness` | `Room.ChatRoom.PostMessageChecked`, `Scenarios.CheckedSenderWitness` |

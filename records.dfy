/** The documents of the chat room's two collections, `participants` and
    `messages`, the two request schemas, and the outcomes a handler answers
    with. */
module Records {

  datatype Option<T> = None | Some(value: T)

  /** A document of `participants`. `lastStatus` is the millisecond clock
      reading taken when the participant joined. */
  datatype Participant = Participant(name: string, lastStatus: int)

  /** A document of `messages`. `kind` is the document's `type` field and
      `time` the formatted timestamp; the message's position in the log
      stands for its `_id`, so earlier positions are older messages. */
  datatype Message = Message(from: string, to: string, text: string, kind: string, time: string)

  /** What a handler answers. `Ok` is 201 (or 200 for a read), `Invalid` is
      422, `Conflict` is 409 for a taken name or a refused sender, and
      `NotFound` the 409 answered to an unknown reader. */
  datatype Outcome = Ok | Invalid | Conflict | NotFound

  /** The answer of a read: the documents, or the failure outcome. */
  datatype Result<T> = Success(value: T) | Failure(error: Outcome)

  /** The broadcast recipient and the texts the server writes itself. */
  const Everyone: string := "Todos"
  const JoinText: string := "entra na sala..."

  const StatusKind: string := "status"
  const PublicKind: string := "message"
  const PrivateKind: string := "private_message"

  /** userSchema: `name` is a string of at least one character. */
  predicate NameValid(name: string): (ok: bool)
    ensures ok <==> name != []
  {
    |name| >= 1
  }

  /** messageSchema: `to` and `text` are strings of at least one character
      and `type` is one of the two kinds a participant may send. */
  predicate MessageBodyValid(to: string, text: string, kind: string): (ok: bool)
    ensures ok <==> to != [] && text != [] && (kind == PublicKind || kind == PrivateKind)
    ensures ok ==> KindValid(kind) && kind != StatusKind
  {
    && |to| >= 1
    && |text| >= 1
    && (kind == PublicKind || kind == PrivateKind)
  }

  /** The three kinds a message in the log can have. */
  predicate KindValid(kind: string) {
    kind == StatusKind || kind == PublicKind || kind == PrivateKind
  }
}

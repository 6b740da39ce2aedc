/** The chat room: the two collections as sequences that the handlers of
    `POST /participants` and `POST /messages` append to in place, and the two
    reads `GET /participants` and `GET /messages` as functions of them.
    Operations run one after another; nothing here interleaves. */
module Room {
  import opened Records
  import opened Queries

  class ChatRoom {
    /** The `participants` collection, in insertion order. */
    var participants: seq<Participant>
    /** The `messages` collection, in insertion (`_id`) order. */
    var messages: seq<Message>

    /** What every sequence of joins and posts keeps: unique, schema-valid
        names; messages of the three known kinds; and, for every participant in
        join order, exactly one status message announcing the entry, in the
        same order. */
    ghost predicate Valid()
      reads this
    {
      && NamesUnique(participants)
      && (forall i :: 0 <= i < |participants| ==> NameValid(participants[i].name))
      && (forall i :: 0 <= i < |messages| ==> KindValid(messages[i].kind))
      && (forall i :: 0 <= i < |messages| && messages[i].kind == StatusKind ==>
            messages[i].to == Everyone && messages[i].text == JoinText)
      && StatusSenders(messages) == Names(participants)
    }

    /** Every message was sent by someone who is a participant. Joins and
        corrected posts keep this; posts as written break it. */
    ghost predicate SendersRegistered()
      reads this
    {
      forall i :: 0 <= i < |messages| ==> NameTaken(participants, messages[i].from)
    }

    /** An empty room. */
    constructor ()
      ensures Valid() && SendersRegistered()
      ensures participants == [] && messages == []
    {
      participants := [];
      messages := [];
    }

    /** `POST /participants` with body `{ name }`. `now` is the clock reading
        stored as `lastStatus` and `time` the formatted time of the status
        message. */
    method Join(name: string, now: int, time: string) returns (outcome: Outcome)
      requires Valid()
      modifies this
      ensures Valid()
      ensures old(SendersRegistered()) ==> SendersRegistered()
      ensures outcome == Invalid <==> !NameValid(name)
      ensures outcome == Conflict <==> NameValid(name) && NameTaken(old(participants), name)
      ensures outcome == Ok <==> NameValid(name) && !NameTaken(old(participants), name)
      ensures outcome == Ok ==>
                && participants == old(participants) + [Participant(name, now)]
                && messages == old(messages) + [Message(name, Everyone, JoinText, StatusKind, time)]
      ensures outcome != Ok ==> participants == old(participants) && messages == old(messages)
      ensures NameValid(name) ==> NameTaken(participants, name) && CountNamed(participants, name) == 1
    {
      if !NameValid(name) {
        return Invalid;
      }
      var user := FindParticipant(participants, name);
      if user.Some? {
        UniqueNameCountsOnce(participants, name);
        return Conflict;
      }
      var p := Participant(name, now);
      var m := Message(name, Everyone, JoinText, StatusKind, time);
      forall i | 0 <= i < |messages|
        ensures NameTaken(participants, messages[i].from) ==> NameTaken(participants + [p], messages[i].from)
      {
        NameTakenAfterAppend(participants, p, messages[i].from);
      }
      NameTakenAfterAppend(participants, p, name);
      StatusSendersAppend(messages, m);
      assert Names(participants + [p]) == Names(participants) + [name];
      participants := participants + [p];
      messages := messages + [m];
      UniqueNameCountsOnce(participants, name);
      outcome := Ok;
    }

    /** `POST /messages` as written: body `{ to, text, type }` with the sender
        taken from the body's `from`. The sender lookup refuses the post when
        a participant with that name EXISTS, and stores it otherwise. */
    method PostMessage(from: string, to: string, text: string, kind: string, time: string)
      returns (outcome: Outcome)
      requires Valid()
      modifies this
      ensures Valid()
      ensures outcome == Invalid <==> !MessageBodyValid(to, text, kind)
      ensures outcome == Conflict <==> MessageBodyValid(to, text, kind) && NameTaken(participants, from)
      ensures outcome == Ok <==> MessageBodyValid(to, text, kind) && !NameTaken(participants, from)
      ensures participants == old(participants)
      ensures messages == if outcome == Ok then old(messages) + [Message(from, to, text, kind, time)]
                          else old(messages)
    {
      if !MessageBodyValid(to, text, kind) {
        return Invalid;
      }
      var user := FindParticipant(participants, from);
      if user.Some? {
        return Conflict;
      }
      var m := Message(from, to, text, kind, time);
      StatusSendersAppend(messages, m);
      messages := messages + [m];
      outcome := Ok;
    }

    /** `POST /messages` with the sender check the handler evidently intends:
        the post is stored only when its sender IS a participant, and an
        unknown sender is answered `NotFound`. */
    method PostMessageChecked(from: string, to: string, text: string, kind: string, time: string)
      returns (outcome: Outcome)
      requires Valid()
      modifies this
      ensures Valid()
      ensures old(SendersRegistered()) ==> SendersRegistered()
      ensures outcome == Invalid <==> !MessageBodyValid(to, text, kind)
      ensures outcome == NotFound <==> MessageBodyValid(to, text, kind) && !NameTaken(participants, from)
      ensures outcome == Ok <==> MessageBodyValid(to, text, kind) && NameTaken(participants, from)
      ensures participants == old(participants)
      ensures messages == if outcome == Ok then old(messages) + [Message(from, to, text, kind, time)]
                          else old(messages)
    {
      if !MessageBodyValid(to, text, kind) {
        return Invalid;
      }
      var user := FindParticipant(participants, from);
      if user.None? {
        return NotFound;
      }
      var m := Message(from, to, text, kind, time);
      StatusSendersAppend(messages, m);
      messages := messages + [m];
      outcome := Ok;
    }

    /** `GET /participants`: every participant document, in natural order. */
    function ListParticipants(): (r: seq<Participant>)
      reads this
      ensures r == participants
      ensures Valid() ==> NamesUnique(r) && forall i :: 0 <= i < |r| ==> NameValid(r[i].name)
    {
      participants
    }

    /** `GET /messages?limit=k` read by the participant named in the `user`
        header: the visible messages sorted newest first, cut to `limit`
        (0: no limit), and reversed back to oldest first. */
    function GetMessages(user: string, limit: nat): (r: Result<seq<Message>>)
      reads this
      ensures r.Failure? <==> !NameTaken(participants, user)
      ensures r.Failure? ==> r.error == NotFound
      ensures r.Success? ==> r.value == Latest(VisibleTo(messages, user), limit)
      ensures r.Success? && limit > 0 ==> |r.value| <= limit
      ensures r.Success? ==> forall m :: m in r.value ==> m in messages && Visible(m, user)
      ensures r.Success? && limit == 0 ==>
                forall m :: m in messages && Visible(m, user) ==> m in r.value
    {
      if FindParticipant(participants, user).None? then Failure(NotFound)
      else
        var found := VisibleTo(messages, user);
        NewestFirstWindow(found, limit);
        Success(Reverse(Limit(Reverse(found), limit)))
    }
  }
}

/** Callers of the chat room: request sequences whose answers follow from the
    operations' contracts alone, and the facts about a reader's view that
    they rely on. */
module Scenarios {
  import opened Records
  import opened Queries
  import opened Room

  /** A message that is neither broadcast nor sent by or to the reader leaves
      the reader's view unchanged, whatever its kind. */
  lemma UnaddressedMessageHidden(ms: seq<Message>, m: Message, user: string)
    requires m.to != Everyone && m.from != user && m.to != user
    ensures VisibleTo(ms + [m], user) == VisibleTo(ms, user)
  {
    VisibleToAppend(ms, m, user);
  }

  /** The newest message of the log, when the reader may see it, is the last
      entry of every read of theirs, whatever the limit. */
  lemma NewestVisibleReadLast(ms: seq<Message>, m: Message, user: string, limit: nat)
    requires Visible(m, user)
    ensures var w := Latest(VisibleTo(ms + [m], user), limit);
            |w| > 0 && w[|w| - 1] == m
  {
    VisibleToAppend(ms, m, user);
  }

  /** Joining with a name twice: the second join is a conflict, and exactly
      one participant carries the name afterwards. */
  method RejoinIsRefused(room: ChatRoom, name: string, now1: int, now2: int, t1: string, t2: string)
    returns (first: Outcome, second: Outcome)
    requires room.Valid() && NameValid(name)
    modifies room
    ensures room.Valid()
    ensures first == Ok || first == Conflict
    ensures second == Conflict
    ensures CountNamed(room.participants, name) == 1
  {
    first := room.Join(name, now1, t1);
    second := room.Join(name, now2, t2);
  }

  /** Two joins with different names, then a listing: both names, no others. */
  method TwoJoinsListed(n1: string, n2: string, now: int, time: string) returns (listed: seq<string>)
    requires NameValid(n1) && NameValid(n2) && n1 != n2
    ensures listed == [n1, n2]
  {
    var room := new ChatRoom();
    var a := room.Join(n1, now, time);
    NameTakenAfterAppend([], Participant(n1, now), n2);
    var b := room.Join(n2, now, time);
    listed := Names(room.ListParticipants());
  }

  /** A post by a participant to a participant, then a read by the recipient:
      the read ends with the new message. */
  method PostThenRead(room: ChatRoom, from: string, to: string, text: string, kind: string,
                      time: string, limit: nat)
    returns (posted: Outcome, read: Result<seq<Message>>)
    requires room.Valid() && NameTaken(room.participants, to)
    modifies room
    ensures room.Valid()
    ensures posted == Ok <==> MessageBodyValid(to, text, kind) && NameTaken(room.participants, from)
    ensures read.Success?
    ensures posted == Ok ==> |read.value| > 0 && read.value[|read.value| - 1] == Message(from, to, text, kind, time)
  {
    ghost var before := room.messages;
    posted := room.PostMessageChecked(from, to, text, kind, time);
    read := room.GetMessages(to, limit);
    if posted == Ok {
      NewestVisibleReadLast(before, Message(from, to, text, kind, time), to, limit);
    }
  }

  /** The sender check as written: once "ana" has joined, her own post is
      refused, while a post in the name of "eve", who never joined, is stored
      under a sender that is not a participant. */
  method InvertedSenderCheckWitness()
    returns (own: Outcome, stranger: Outcome, people: seq<Participant>, log: seq<Message>)
    ensures own == Conflict && stranger == Ok
    ensures log == [Message("ana", Everyone, JoinText, StatusKind, "t0"),
                    Message("eve", Everyone, "oi", PublicKind, "t2")]
    ensures !NameTaken(people, log[1].from)
  {
    var room := new ChatRoom();
    var joined := room.Join("ana", 0, "t0");
    assert room.participants == [Participant("ana", 0)];
    own := room.PostMessage("ana", Everyone, "oi", PublicKind, "t1");
    stranger := room.PostMessage("eve", Everyone, "oi", PublicKind, "t2");
    people, log := room.participants, room.messages;
  }

  /** The corrected sender check on the same requests: "ana"'s post is stored
      and appears in her own read, and "eve" is answered `NotFound`. */
  method CheckedSenderWitness()
    returns (own: Outcome, stranger: Outcome, read: Result<seq<Message>>)
    ensures own == Ok && stranger == NotFound
    ensures read == Success([Message("ana", Everyone, JoinText, StatusKind, "t0"),
                             Message("ana", Everyone, "oi", PublicKind, "t1")])
  {
    var entry := Message("ana", Everyone, JoinText, StatusKind, "t0");
    var post := Message("ana", Everyone, "oi", PublicKind, "t1");
    var room := new ChatRoom();
    var joined := room.Join("ana", 0, "t0");
    assert room.participants == [Participant("ana", 0)] && room.messages == [entry];
    assert NameTaken(room.participants, "ana") && !NameTaken(room.participants, "eve");
    own := room.PostMessageChecked("ana", Everyone, "oi", PublicKind, "t1");
    assert room.messages == [entry] + [post];
    stranger := room.PostMessageChecked("eve", Everyone, "oi", PublicKind, "t2");
    VisibleToAppend([], entry, "ana");
    VisibleToAppend([entry], post, "ana");
    assert VisibleTo(room.messages, "ana") == [entry, post];
    read := room.GetMessages("ana", 0);
  }
}

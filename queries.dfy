/** The store queries the handlers issue, as functions over the two
    collections: `findOne` by name, the visibility filter of a message read,
    the newest-first sort, the cursor limit, and the facts the handlers rely
    on about each of them. */
module Queries {
  import opened Records

  // ---------------------------------------------------------------- participants

  /** Some participant has exactly this name (names compare case-sensitively). */
  predicate NameTaken(ps: seq<Participant>, name: string) {
    exists i :: 0 <= i < |ps| && ps[i].name == name
  }

  /** No two participants share a name. */
  predicate NamesUnique(ps: seq<Participant>) {
    forall i, j :: 0 <= i < j < |ps| ==> ps[i].name != ps[j].name
  }

  /** `findOne({ name })` on `participants`: the first participant with that
      name, or nothing when no participant has it. */
  function FindParticipant(ps: seq<Participant>, name: string): (r: Option<Participant>)
    ensures r.Some? <==> NameTaken(ps, name)
    ensures r.Some? ==> r.value in ps && r.value.name == name
  {
    if |ps| == 0 then None
    else if ps[0].name == name then Some(ps[0])
    else
      var r := FindParticipant(ps[1..], name);
      assert NameTaken(ps[1..], name) ==> NameTaken(ps, name) by {
        if NameTaken(ps[1..], name) {
          var i :| 0 <= i < |ps[1..]| && ps[1..][i].name == name;
          assert ps[i + 1].name == name;
        }
      }
      assert NameTaken(ps, name) ==> NameTaken(ps[1..], name) by {
        if NameTaken(ps, name) {
          var i :| 0 <= i < |ps| && ps[i].name == name;
          assert i > 0 && ps[1..][i - 1].name == name;
        }
      }
      r
  }

  /** How many participants carry this name. */
  function CountNamed(ps: seq<Participant>, name: string): (n: nat)
    ensures n <= |ps|
  {
    if |ps| == 0 then 0
    else (if ps[0].name == name then 1 else 0) + CountNamed(ps[1..], name)
  }

  /** A name that nobody carries is counted zero times. */
  lemma {:induction false} AbsentNameCountsZero(ps: seq<Participant>, name: string)
    requires !NameTaken(ps, name)
    ensures CountNamed(ps, name) == 0
  {
    if |ps| > 0 {
      assert ps[0].name != name;
      forall i | 0 <= i < |ps[1..]| ensures ps[1..][i].name != name {
        assert ps[1..][i] == ps[i + 1];
      }
      AbsentNameCountsZero(ps[1..], name);
    }
  }

  /** Under unique names, a taken name belongs to exactly one participant. */
  lemma {:induction false} UniqueNameCountsOnce(ps: seq<Participant>, name: string)
    requires NamesUnique(ps) && NameTaken(ps, name)
    ensures CountNamed(ps, name) == 1
  {
    var rest := ps[1..];
    assert NamesUnique(rest) by {
      forall i, j | 0 <= i < j < |rest| ensures rest[i].name != rest[j].name {
        assert rest[i] == ps[i + 1] && rest[j] == ps[j + 1];
      }
    }
    if ps[0].name == name {
      forall i | 0 <= i < |rest| ensures rest[i].name != name {
        assert rest[i] == ps[i + 1];
      }
      AbsentNameCountsZero(rest, name);
    } else {
      var i :| 0 <= i < |ps| && ps[i].name == name;
      assert rest[i - 1].name == name;
      UniqueNameCountsOnce(rest, name);
    }
  }

  /** Adding a participant takes exactly its name in addition to those taken before. */
  lemma NameTakenAfterAppend(ps: seq<Participant>, p: Participant, name: string)
    ensures NameTaken(ps + [p], name) <==> NameTaken(ps, name) || p.name == name
  {
    var qs := ps + [p];
    if NameTaken(ps, name) {
      var i :| 0 <= i < |ps| && ps[i].name == name;
      assert qs[i].name == name;
    }
    if p.name == name {
      assert qs[|ps|].name == name;
    }
    if NameTaken(qs, name) {
      var i :| 0 <= i < |qs| && qs[i].name == name;
      if i < |ps| { assert ps[i].name == name; }
    }
  }

  /** The names of the participants, in insertion order. */
  function Names(ps: seq<Participant>): (r: seq<string>)
    ensures |r| == |ps|
    ensures forall i :: 0 <= i < |ps| ==> r[i] == ps[i].name
  {
    if |ps| == 0 then [] else [ps[0].name] + Names(ps[1..])
  }

  // ---------------------------------------------------------------- messages

  /** The read filter `{ $or: [{ to: 'Todos' }, { from: user }, { to: user }] }`. */
  predicate Visible(m: Message, user: string) {
    m.to == Everyone || m.from == user || m.to == user
  }

  /** The messages a reader sees, in log order. */
  function VisibleTo(ms: seq<Message>, user: string): (r: seq<Message>)
    ensures |r| <= |ms|
    ensures forall m :: m in r <==> m in ms && Visible(m, user)
  {
    if |ms| == 0 then []
    else (if Visible(ms[0], user) then [ms[0]] else []) + VisibleTo(ms[1..], user)
  }

  /** Appending a message adds it at the end of every reader's view that it is visible in, and changes no other view. */
  lemma {:induction false} VisibleToAppend(ms: seq<Message>, m: Message, user: string)
    ensures VisibleTo(ms + [m], user) == VisibleTo(ms, user) + (if Visible(m, user) then [m] else [])
  {
    if |ms| == 0 {
      assert ms + [m] == [m];
    } else {
      assert (ms + [m])[0] == ms[0];
      assert (ms + [m])[1..] == ms[1..] + [m];
      VisibleToAppend(ms[1..], m, user);
    }
  }

  /** The `from` of every status message, in log order. */
  function StatusSenders(ms: seq<Message>): seq<string> {
    if |ms| == 0 then []
    else (if ms[0].kind == StatusKind then [ms[0].from] else []) + StatusSenders(ms[1..])
  }

  /** Appending a message adds its sender to the status senders exactly when it is a status message. */
  lemma {:induction false} StatusSendersAppend(ms: seq<Message>, m: Message)
    ensures StatusSenders(ms + [m]) == StatusSenders(ms) + (if m.kind == StatusKind then [m.from] else [])
  {
    if |ms| == 0 {
      assert ms + [m] == [m];
    } else {
      assert (ms + [m])[0] == ms[0];
      assert (ms + [m])[1..] == ms[1..] + [m];
      StatusSendersAppend(ms[1..], m);
    }
  }

  // ---------------------------------------------------------------- sort, limit, reverse

  /** A sequence in the opposite order: `.sort({ _id: -1 })` over a log kept in
      `_id` order, and also the array `reverse()` of the answer. */
  function Reverse<T>(s: seq<T>): (r: seq<T>)
    ensures |r| == |s|
    ensures forall i :: 0 <= i < |s| ==> r[i] == s[|s| - 1 - i]
  {
    if |s| == 0 then [] else Reverse(s[1..]) + [s[0]]
  }

  /** The cursor's `.limit(k)`: the first k documents, where 0 means no limit. */
  function Limit<T>(s: seq<T>, k: nat): (r: seq<T>)
    ensures k == 0 ==> r == s
    ensures k > 0 ==> |r| == (if |s| < k then |s| else k)
    ensures |r| <= |s| && r == s[..|r|]
  {
    if k == 0 || |s| <= k then s else s[..k]
  }

  /** The reference meaning of a limited read: the k most recent entries in
      their original order, or all of them when k is 0. */
  function Latest<T>(s: seq<T>, k: nat): seq<T> {
    if k == 0 || |s| <= k then s else s[|s| - k..]
  }

  /** Sorting newest-first, limiting and reversing back keeps exactly the k
      most recent entries, oldest first. */
  lemma NewestFirstWindow<T>(s: seq<T>, k: nat)
    ensures Reverse(Limit(Reverse(s), k)) == Latest(s, k)
  {
  }
}

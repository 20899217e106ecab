/** The data both stores, the service and the delivery layer share
    (src/domain/conversation.ts, src/domain/message.ts, src/ports/message-store.ts). Instants are integers. */
module Domain {

  datatype Option<+T> = None | Some(value: T)

  datatype Participant = Participant(userId: string, lastReadAt: Option<int>, clearedAt: Option<int>)

  datatype Conversation = Conversation(id: string, participants: seq<Participant>, createdAt: int)

  datatype Message = Message(
    id: string, conversationId: string, senderId: string, body: string, createdAt: int, deletedAt: Option<int>)

  datatype ListOptions = ListOptions(limit: Option<int>, before: Option<int>, after: Option<int>)

  const ALL_MESSAGES := ListOptions(None, None, None)

  /** The first participant with that user id. */
  function FindParticipant(ps: seq<Participant>, user: string): (r: Option<Participant>)
    ensures r.Some? ==> r.value in ps && r.value.userId == user
    ensures r.None? <==> user !in UserIds(ps)
  {
    if ps == [] then None
    else if ps[0].userId == user then Some(ps[0])
    else
      assert UserIds(ps) == [ps[0].userId] + UserIds(ps[1..]);
      FindParticipant(ps[1..], user)
  }

  function UserIds(ps: seq<Participant>): (ids: seq<string>)
    ensures |ids| == |ps| && forall i :: 0 <= i < |ps| ==> ids[i] == ps[i].userId
  {
    seq(|ps|, i requires 0 <= i < |ps| => ps[i].userId)
  }

  function ParticipantOf(c: Conversation, user: string): Option<Participant> {
    FindParticipant(c.participants, user)
  }

  predicate IsParticipant(c: Conversation, user: string) {
    user in UserIds(c.participants)
  }

  /** The ids of `ids` other than `user`, in order. */
  function Others(ids: seq<string>, user: string): (r: seq<string>)
    ensures user !in r
    ensures multiset(r) == multiset(ids)[user := 0]
  {
    if ids == [] then []
    else
      assert ids == [ids[0]] + ids[1..];
      (if ids[0] == user then [] else [ids[0]]) + Others(ids[1..], user)
  }

  /** What a message never loses: everything but its body and its deletion instant. */
  function Key(m: Message): Message {
    m.(body := "", deletedAt := None)
  }

  // Taking one element out of a sequence.

  lemma SplitAt<T>(b: seq<T>, i: nat) returns (left: seq<T>, right: seq<T>)
    requires i < |b|
    ensures b == left + [b[i]] + right && |left| == i
  {
    left, right := b[..i], b[i + 1..];
  }

  lemma RemoveAt<T>(left: seq<T>, x: T, right: seq<T>)
    ensures multiset(left + right) == multiset(left + [x] + right) - multiset{x}
  {
  }

  lemma UserIdsInsert(left: seq<Participant>, x: Participant, right: seq<Participant>)
    ensures multiset(UserIds(left + [x] + right)) == multiset(UserIds(left + right)) + multiset{x.userId}
  {
    assert UserIds(left + [x] + right) == UserIds(left) + [x.userId] + UserIds(right);
    assert UserIds(left + right) == UserIds(left) + UserIds(right);
  }

  lemma {:induction false} UserIdsPermute(a: seq<Participant>, b: seq<Participant>)
    requires multiset(a) == multiset(b)
    ensures multiset(UserIds(a)) == multiset(UserIds(b))
    decreases |a|
  {
    if a == [] {
      assert |multiset(b)| == 0;
    } else {
      var p := a[|a| - 1];
      assert p in multiset(b);
      var front, none := SplitAt(a, |a| - 1);
      var i :| 0 <= i < |b| && b[i] == p;
      var left, right := SplitAt(b, i);
      RemoveAt(front, p, none);
      RemoveAt(left, p, right);
      UserIdsInsert(front, p, none);
      UserIdsInsert(left, p, right);
      UserIdsPermute(front + none, left + right);
    }
  }

  // Emptiness of a message body.

  /** The white space and line terminators JavaScript's trim removes. */
  predicate IsSpace(c: char) {
    c in {'\t', '\n', '\U{0B}', '\U{0C}', '\r', ' ', '\U{A0}', '\U{1680}', '\U{2028}', '\U{2029}', '\U{202F}',
          '\U{205F}', '\U{3000}', '\U{FEFF}'} || '\U{2000}' <= c <= '\U{200A}'
  }

  function TrimStart(s: string): string {
    if s != [] && IsSpace(s[0]) then TrimStart(s[1..]) else s
  }

  function Trim(s: string): string
    decreases |s|
  {
    var t := TrimStart(s);
    if t != [] && IsSpace(t[|t| - 1]) then
      TrimStartShorter(s);
      Trim(t[..|t| - 1])
    else t
  }

  lemma TrimStartShorter(s: string)
    ensures |TrimStart(s)| <= |s|
    ensures TrimStart(s) == s[|s| - |TrimStart(s)|..]
  {
  }

  ghost predicate Blank(s: string) {
    forall i :: 0 <= i < |s| ==> IsSpace(s[i])
  }

  /** What the start loses is blank, and what is left starts with something that is not. */
  lemma {:induction false} TrimStartBlank(s: string)
    ensures |TrimStart(s)| <= |s| && Blank(s[..|s| - |TrimStart(s)|])
    ensures TrimStart(s) != [] ==> !IsSpace(TrimStart(s)[0])
  {
    if s != [] && IsSpace(s[0]) {
      var rest := s[1..];
      TrimStartBlank(rest);
      var lost := rest[..|rest| - |TrimStart(rest)|];
      assert s[..|s| - |TrimStart(s)|] == [s[0]] + lost;
    } else {
      assert s[..|s| - |TrimStart(s)|] == [];
    }
  }

  /** A body is refused as empty exactly when it holds nothing but white space. */
  lemma {:induction false} TrimEmptyIffBlank(s: string)
    ensures |Trim(s)| == 0 <==> Blank(s)
    decreases |s|
  {
    TrimStartShorter(s);
    TrimStartBlank(s);
    var t := TrimStart(s);
    var n := |s| - |t|;
    assert s == s[..n] + t;
    if t == [] {
      assert s[..n] == s;
    } else {
      assert s[n] == t[0] && !Blank(s);
      if IsSpace(t[|t| - 1]) {
        TrimEmptyIffBlank(t[..|t| - 1]);
        assert t[..|t| - 1][0] == t[0];
      }
    }
  }
}

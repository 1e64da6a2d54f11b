/** Friend requests: sending, listing (received / still pending), and answering,
    over a store of users, requests and the log of published notifications. */
module FriendRequests {
  import opened Wrappers
  import opened Types

  datatype User = User(id: nat, name: string)

  /** A stored request; `friendshipState` becomes true once accepted. */
  datatype FriendRequest = FriendRequest(id: nat, senderId: nat, receiverId: nat, friendshipState: bool)

  /** Publishing on the pub/sub engine, recorded as an entry of a log. */
  datatype Topic = NewFriendRequest
  datatype Notification = Notification(topic: Topic, payload: FriendRequest)

  datatype FriendStore = FriendStore(
    users: map<nat, User>,
    requests: map<nat, FriendRequest>,
    nextId: nat,
    published: seq<Notification>)

  datatype UserResponse = UserResponse(ok: bool, msg: string, errors: seq<MutationError>, user: Option<User>)

  const NoSuchReceiverMsg := "Destinatario no existe"
  const AlreadySentMsg := "Ya enviaste una solicitud a "
  const SentMsg := "Solicitud enviada correctamente a "
  const MissingError := MutationError(Id, "No existe")
  const DuplicateError := MutationError(To, "Duplicado")

  /** Each request is stored under its own id, and every id is below the
      auto-increment counter. */
  ghost predicate Valid(s: FriendStore) {
    forall k :: k in s.requests ==> s.requests[k].id == k && k < s.nextId
  }

  /** A request from `sender` to `receiver` is stored, whatever its state. */
  predicate Sent(s: FriendStore, sender: nat, receiver: nat) {
    exists k :: k in s.requests && s.requests[k].senderId == sender && s.requests[k].receiverId == receiver
  }

  /** `sendFriendRequest(to)` by the authenticated user `me`. */
  function SendFriendRequest(s: FriendStore, me: AuthUser, to: nat): (r: (UserResponse, FriendStore))
    requires Valid(s)
    ensures r.0.ok <==> to in s.users && !Sent(s, me.id, to)
    ensures to !in s.users ==> r.0.errors == [MissingError] && r.0.msg == NoSuchReceiverMsg && r.1 == s
    ensures to in s.users && Sent(s, me.id, to) ==>
      r.0.errors == [DuplicateError] && r.0.msg == AlreadySentMsg + s.users[to].name && r.1 == s
    ensures r.0.ok ==>
      && r.0.user == Some(s.users[to])
      && r.1.users == s.users
      && s.nextId !in s.requests
      && r.1.requests.Keys == s.requests.Keys + {s.nextId}
      && (forall k :: k in s.requests ==> r.1.requests[k] == s.requests[k])
      && r.1.requests[s.nextId] == FriendRequest(s.nextId, me.id, to, false)
      && r.1.published == s.published + [Notification(NewFriendRequest, r.1.requests[s.nextId])]
      && Sent(r.1, me.id, to)
      && Valid(r.1)
  {
    if to !in s.users then
      (UserResponse(false, NoSuchReceiverMsg, [MissingError], None), s)
    else
      var receiver := s.users[to];
      if Sent(s, me.id, to) then
        (UserResponse(false, AlreadySentMsg + receiver.name, [DuplicateError], None), s)
      else
        var request := FriendRequest(s.nextId, me.id, to, false);
        var s' := s.(requests := s.requests[request.id := request], nextId := s.nextId + 1,
                     published := s.published + [Notification(NewFriendRequest, request)]);
        (UserResponse(true, SentMsg + receiver.name, [], Some(receiver)), s')
  }

  /** A request in the opposite direction does not count as a duplicate: after
      `a` sends to `b`, `b` can still send to `a`. */
  lemma ReverseRequestDoesNotBlock(s: FriendStore, a: AuthUser, b: AuthUser)
    requires Valid(s) && a.id in s.users && a.id != b.id
    requires SendFriendRequest(s, a, b.id).0.ok && !Sent(s, b.id, a.id)
    ensures SendFriendRequest(SendFriendRequest(s, a, b.id).1, b, a.id).0.ok
  {
  }

  /** The rows of `requests` that `keep` selects, each once, in some order
      (the database does not promise one). */
  method Select(requests: map<nat, FriendRequest>, keep: FriendRequest -> bool) returns (rows: seq<FriendRequest>)
    ensures forall r :: r in rows <==> r in requests.Values && keep(r)
    ensures (forall k :: k in requests ==> requests[k].id == k) ==>
      forall i, j :: 0 <= i < j < |rows| ==> rows[i].id != rows[j].id
  {
    var todo := requests.Keys;
    rows := [];
    ghost var keys: seq<nat> := [];
    while todo != {}
      invariant todo <= requests.Keys
      invariant |keys| == |rows|
      invariant forall i :: 0 <= i < |keys| ==> keys[i] in requests && keys[i] !in todo && rows[i] == requests[keys[i]]
      invariant forall i, j :: 0 <= i < j < |keys| ==> keys[i] != keys[j]
      invariant forall r :: r in rows ==> keep(r)
      invariant forall k :: k in requests && k !in todo && keep(requests[k]) ==> requests[k] in rows
      decreases todo
    {
      var k :| k in todo;
      if keep(requests[k]) {
        rows := rows + [requests[k]];
        keys := keys + [k];
      }
      todo := todo - {k};
    }
    forall r | r in rows
      ensures r in requests.Values
    {
      var i :| 0 <= i < |rows| && rows[i] == r;
      assert requests[keys[i]] == r;
    }
  }

  /** `myFriendRequests`: every request received by `me`. */
  method MyFriendRequests(s: FriendStore, me: AuthUser) returns (rows: seq<FriendRequest>)
    ensures forall r :: r in rows <==> r in s.requests.Values && r.receiverId == me.id
    ensures Valid(s) ==> forall i, j :: 0 <= i < j < |rows| ==> rows[i].id != rows[j].id
  {
    rows := Select(s.requests, (r: FriendRequest) => r.receiverId == me.id);
  }

  /** `myPendientFriendRequests`: every request sent by `me` not yet accepted. */
  method MyPendientFriendRequests(s: FriendStore, me: AuthUser) returns (rows: seq<FriendRequest>)
    ensures forall r :: r in rows <==> r in s.requests.Values && r.senderId == me.id && !r.friendshipState
    ensures Valid(s) ==> forall i, j :: 0 <= i < j < |rows| ==> rows[i].id != rows[j].id
  {
    rows := Select(s.requests, (r: FriendRequest) => r.senderId == me.id && !r.friendshipState);
  }

  /** `answerFriendRequest(requestId, accept)`. The caller is not consulted:
      anyone may answer any request. */
  function AnswerFriendRequest(s: FriendStore, me: AuthUser, requestId: nat, accept: bool): (r: (bool, FriendStore))
    ensures r.0 <==> requestId in s.requests
    ensures !r.0 ==> r.1 == s
    ensures r.1.users == s.users && r.1.nextId == s.nextId && r.1.published == s.published
    ensures forall k :: k in s.requests && k != requestId ==> k in r.1.requests && r.1.requests[k] == s.requests[k]
    ensures r.0 && accept ==>
      && r.1.requests.Keys == s.requests.Keys
      && r.1.requests[requestId] == s.requests[requestId].(friendshipState := true)
    ensures r.0 && !accept ==> r.1.requests.Keys == s.requests.Keys - {requestId}
  {
    if requestId !in s.requests then
      (false, s)
    else if accept then
      var request := s.requests[requestId];
      (true, s.(requests := s.requests[requestId := request.(friendshipState := true)]))
    else
      (true, s.(requests := s.requests - {requestId}))
  }

  /** Accepting twice is the same as accepting once. */
  lemma AcceptIdempotent(s: FriendStore, me: AuthUser, requestId: nat)
    ensures var once := AnswerFriendRequest(s, me, requestId, true).1;
            AnswerFriendRequest(once, me, requestId, true).1 == once
  {
  }

  /** The outcome does not depend on who answers. */
  lemma AnswerIgnoresCaller(s: FriendStore, me: AuthUser, other: AuthUser, requestId: nat, accept: bool)
    ensures AnswerFriendRequest(s, me, requestId, accept) == AnswerFriendRequest(s, other, requestId, accept)
  {
  }

  lemma AnswerPreservesValid(s: FriendStore, me: AuthUser, requestId: nat, accept: bool)
    requires Valid(s)
    ensures Valid(AnswerFriendRequest(s, me, requestId, accept).1)
  {
  }
}

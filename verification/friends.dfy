/**
 * Friend requests and friendships: `GET`/`POST /api/friends/requests`,
 * `GET`/`DELETE /api/friends`, `GET /api/users/me/friends` and
 * `GET /api/users/me/friends/requests`. A request moves from PENDING to
 * CANCELLED, DECLINED or ACCEPTED; a friendship is stored once per pair, as
 * (smaller id, larger id).
 */
module Friends {
  import opened Wrappers
  import opened Js
  import opened Http
  import opened Store
  import opened Jwt
  import opened Ordering

  datatype RequestStatus = Pending | Accepted | Declined | Cancelled

  datatype FriendRequest = FriendRequest(id: int, fromUserId: int, toUserId: int, status: RequestStatus, createdAt: int)

  datatype Friendship = Friendship(userAId: int, userBId: int, createdAt: int)

  datatype Social = Social(users: seq<User>, requests: seq<FriendRequest>, friendships: seq<Friendship>)

  /** A handler's effect on the tables together with its reply. */
  datatype Step = Step(social: Social, reply: Reply)

  /** A listing answer: refused with an error reply, or the listed value (status 200). */
  datatype Answer<T> = Refused(reply: Reply) | Answered(value: T)

  /** `{ id, username }` of a user. */
  datatype Profile = Profile(id: int, username: string)

  const Unauthorized := "unauthorized"

  /**
   * `getUserId(req)` followed by `if (!userId)`: the numeric `userId` claim of
   * the access cookie (an absent cookie is verified as ""), when it is truthy.
   */
  function CallerId(accessCookie: Option<string>, verify: Verifier, nowMs: int): (r: Option<JsNumber>)
    ensures var p := verify(AccessToken, if accessCookie.Some? then accessCookie.value else "", nowMs);
            r.Some? <==> p.Some? && Claim(p.value, "userId").Num? && NumberTruthy(Claim(p.value, "userId").n)
    ensures r.Some? ==> NumberTruthy(r.value)
  {
    var token := if accessCookie.Some? then accessCookie.value else "";
    match verify(AccessToken, token, nowMs)
    case None => None
    case Some(p) =>
      if Claim(p, "userId").Num? && NumberTruthy(Claim(p, "userId").n) then Some(Claim(p, "userId").n) else None
  }

  // ---------------------------------------------------------------------
  // Friendships
  // ---------------------------------------------------------------------

  /** `(Math.min(x, y), Math.max(x, y))`: the stored key of a pair. */
  function PairKey(x: int, y: int): (k: (int, int))
    ensures k.0 <= k.1
    ensures (k.0 == x && k.1 == y) || (k.0 == y && k.1 == x)
  {
    if x <= y then (x, y) else (y, x)
  }

  /** The key does not depend on the order of the two ids. */
  lemma PairKeySymmetric(x: int, y: int)
    ensures PairKey(x, y) == PairKey(y, x)
    ensures x != y ==> PairKey(x, y).0 < PairKey(x, y).1
  {
  }

  predicate Befriended(fs: seq<Friendship>, a: int, b: int) {
    exists i :: 0 <= i < |fs| && fs[i].userAId == a && fs[i].userBId == b
  }

  /** `friendship.upsert` on the key (a, b) with an empty update. */
  function UpsertFriendship(fs: seq<Friendship>, a: int, b: int, now: int): (r: seq<Friendship>)
    ensures Befriended(r, a, b)
    ensures Befriended(fs, a, b) ==> r == fs
    ensures !Befriended(fs, a, b) ==> r == fs + [Friendship(a, b, now)]
  {
    if Befriended(fs, a, b) then fs
    else
      var r := fs + [Friendship(a, b, now)];
      assert r[|fs|].userAId == a && r[|fs|].userBId == b;
      r
  }

  /** `friendship.deleteMany({ where: { userAId: a, userBId: b } })` */
  function DeleteFriendship(fs: seq<Friendship>, a: int, b: int): (r: seq<Friendship>)
    ensures forall f :: f in r <==> f in fs && !(f.userAId == a && f.userBId == b)
    decreases |fs|
  {
    if |fs| == 0 then []
    else if fs[0].userAId == a && fs[0].userBId == b then DeleteFriendship(fs[1..], a, b)
    else [fs[0]] + DeleteFriendship(fs[1..], a, b)
  }

  /** Each pair at most once, always as (smaller, larger). */
  predicate FriendshipsCanonical(fs: seq<Friendship>) {
    && (forall i :: 0 <= i < |fs| ==> fs[i].userAId < fs[i].userBId)
    && (forall i, j :: 0 <= i < |fs| && 0 <= j < |fs| && fs[i].userAId == fs[j].userAId && fs[i].userBId == fs[j].userBId ==> i == j)
  }

  lemma UpsertKeepsCanonical(fs: seq<Friendship>, a: int, b: int, now: int)
    requires FriendshipsCanonical(fs) && a < b
    ensures FriendshipsCanonical(UpsertFriendship(fs, a, b, now))
  {
    var r := UpsertFriendship(fs, a, b, now);
    if !Befriended(fs, a, b) {
      forall i, j | 0 <= i < |r| && 0 <= j < |r| && i != j
        ensures !(r[i].userAId == r[j].userAId && r[i].userBId == r[j].userBId)
      {
        if i == |fs| {
          assert !(fs[j].userAId == a && fs[j].userBId == b);
        } else if j == |fs| {
          assert !(fs[i].userAId == a && fs[i].userBId == b);
        }
      }
    }
  }

  // ---------------------------------------------------------------------
  // Friend requests
  // ---------------------------------------------------------------------

  /**
   * Prisma's `IntFilter` on an `Int` column: `equals`, `not`, `in`, `notIn`,
   * `lt`, `lte`, `gt` and `gte`, every given one must hold. A plain number `n`
   * in a `where` stands for `{ equals: n }`; `{}` matches every id.
   */
  datatype IdFilter = IdFilter(equals: Option<int>, notEquals: Option<int>, inIds: Option<seq<int>>, notInIds: Option<seq<int>>,
                               lt: Option<int>, lte: Option<int>, gt: Option<int>, gte: Option<int>)

  predicate IdMatches(f: IdFilter, id: int) {
    && (f.equals.Some? ==> id == f.equals.value)
    && (f.notEquals.Some? ==> id != f.notEquals.value)
    && (f.inIds.Some? ==> id in f.inIds.value)
    && (f.notInIds.Some? ==> id !in f.notInIds.value)
    && (f.lt.Some? ==> id < f.lt.value)
    && (f.lte.Some? ==> id <= f.lte.value)
    && (f.gt.Some? ==> id > f.gt.value)
    && (f.gte.Some? ==> id >= f.gte.value)
  }

  /** `{}`: no condition on the id. */
  const AnyId := IdFilter(None, None, None, None, None, None, None, None)

  /** The filter a plain integer stands for. */
  function OnlyId(n: int): (f: IdFilter)
    ensures forall id :: IdMatches(f, id) <==> id == n
  {
    AnyId.(equals := Some(n))
  }

  /** A `where` object over friend requests: every given field must match. */
  datatype RequestWhere = RequestWhere(id: IdFilter, fromUserId: Option<int>, toUserId: Option<int>, status: Option<RequestStatus>)

  predicate Matches(w: RequestWhere, r: FriendRequest) {
    && IdMatches(w.id, r.id)
    && (w.fromUserId.Some? ==> r.fromUserId == w.fromUserId.value)
    && (w.toUserId.Some? ==> r.toUserId == w.toUserId.value)
    && (w.status.Some? ==> r.status == w.status.value)
  }

  function WhereId(id: int): RequestWhere { RequestWhere(OnlyId(id), None, None, None) }

  /** Pending requests from `from` to `to`. */
  function PendingBetween(from: int, to: int): RequestWhere { RequestWhere(AnyId, Some(from), Some(to), Some(Pending)) }

  /** `friend_request.findFirst({ where })` */
  function FindRequest(rs: seq<FriendRequest>, w: RequestWhere): (r: Option<FriendRequest>)
    ensures r.None? <==> forall x :: x in rs ==> !Matches(w, x)
    ensures r.Some? ==> r.value in rs && Matches(w, r.value)
    decreases |rs|
  {
    if |rs| == 0 then None
    else if Matches(w, rs[0]) then Some(rs[0])
    else FindRequest(rs[1..], w)
  }

  /** `friend_request.findMany({ where })`, in table order. */
  function FilterRequests(rs: seq<FriendRequest>, w: RequestWhere): (r: seq<FriendRequest>)
    ensures forall x :: x in r <==> x in rs && Matches(w, x)
    decreases |rs|
  {
    if |rs| == 0 then []
    else if Matches(w, rs[0]) then [rs[0]] + FilterRequests(rs[1..], w)
    else FilterRequests(rs[1..], w)
  }

  /** `friend_request.updateMany({ where, data: { status } })`; `update` by id is the same on a unique id. */
  function SetStatus(rs: seq<FriendRequest>, w: RequestWhere, st: RequestStatus): (r: seq<FriendRequest>)
    ensures |r| == |rs|
    ensures forall i :: 0 <= i < |rs| ==> r[i] == if Matches(w, rs[i]) then rs[i].(status := st) else rs[i]
  {
    seq(|rs|, i requires 0 <= i < |rs| => if Matches(w, rs[i]) then rs[i].(status := st) else rs[i])
  }

  function IdOfRequest(r: FriendRequest): int { r.id }

  /**
   * `friend_request.upsert` on the unique key (from, to): an existing request
   * becomes PENDING again, otherwise a new PENDING one is created. Returns the
   * request's id.
   */
  function UpsertRequest(rs: seq<FriendRequest>, from: int, to: int, now: int): (r: (seq<FriendRequest>, int))
    ensures var w := RequestWhere(AnyId, Some(from), Some(to), None);
            FindRequest(rs, w).Some? ==> r.0 == SetStatus(rs, w, Pending) && r.1 == FindRequest(rs, w).value.id
    ensures var w := RequestWhere(AnyId, Some(from), Some(to), None);
            FindRequest(rs, w).None? ==> r.0 == rs + [FriendRequest(r.1, from, to, Pending, now)]
                                         && forall x :: x in rs ==> x.id != r.1
  {
    var w := RequestWhere(AnyId, Some(from), Some(to), None);
    match FindRequest(rs, w)
    case Some(existing) => (SetStatus(rs, w, Pending), existing.id)
    case None =>
      var id := MaxId(rs, IdOfRequest) + 1;
      (rs + [FriendRequest(id, from, to, Pending, now)], id)
  }

  /** Requests keep unique ids, one row per (from, to), and never address their sender. */
  predicate RequestsWellFormed(rs: seq<FriendRequest>) {
    && (forall i :: 0 <= i < |rs| ==> rs[i].fromUserId != rs[i].toUserId)
    && (forall i, j :: 0 <= i < |rs| && 0 <= j < |rs| && rs[i].id == rs[j].id ==> i == j)
    && (forall i, j :: 0 <= i < |rs| && 0 <= j < |rs| && rs[i].fromUserId == rs[j].fromUserId && rs[i].toUserId == rs[j].toUserId ==> i == j)
  }

  predicate SocialInvariant(s: Social) {
    RequestsWellFormed(s.requests) && FriendshipsCanonical(s.friendships)
  }

  /** Changing statuses keeps ids and parties, so well-formedness survives. */
  lemma SetStatusKeepsWellFormed(rs: seq<FriendRequest>, w: RequestWhere, st: RequestStatus)
    requires RequestsWellFormed(rs)
    ensures RequestsWellFormed(SetStatus(rs, w, st))
  {
    var r := SetStatus(rs, w, st);
    assert forall i :: 0 <= i < |rs| ==> r[i].id == rs[i].id && r[i].fromUserId == rs[i].fromUserId && r[i].toUserId == rs[i].toUserId;
  }

  lemma UpsertRequestKeepsWellFormed(rs: seq<FriendRequest>, from: int, to: int, now: int)
    requires RequestsWellFormed(rs) && from != to
    ensures RequestsWellFormed(UpsertRequest(rs, from, to, now).0)
  {
    var w := RequestWhere(AnyId, Some(from), Some(to), None);
    if FindRequest(rs, w).Some? {
      SetStatusKeepsWellFormed(rs, w, Pending);
    } else {
      var (r, id) := UpsertRequest(rs, from, to, now);
      forall i, j | 0 <= i < |r| && 0 <= j < |r|
        ensures r[i].id == r[j].id ==> i == j
        ensures r[i].fromUserId == r[j].fromUserId && r[i].toUserId == r[j].toUserId ==> i == j
      {
        if i == |rs| && j < |rs| {
          assert rs[j] in rs;
        } else if j == |rs| && i < |rs| {
          assert rs[i] in rs;
        }
      }
    }
  }

  // ---------------------------------------------------------------------
  // POST /api/friends/requests
  // ---------------------------------------------------------------------

  /**
   * A body read with `await req.json().catch(() => ({}))`: a body that is not
   * JSON becomes `{}`, but a literal `null` gets through, and reading a field
   * of it throws.
   */
  datatype JsonBody<T> = Fields(fields: T) | NullBody

  /**
   * The `requestId` member: a JSON scalar (an absent member is `Undefined`), or
   * an object whose keys and integer operands Prisma reads as an `IdFilter`.
   * Any other object, and every array, is `Scalar(Structured)`: Prisma refuses it.
   */
  datatype IdField = Scalar(v: JsValue) | FilterObject(f: IdFilter)

  /** JavaScript truthiness of the member: every object is truthy. */
  predicate IdTruthy(r: IdField) {
    r.FilterObject? || Truthy(r.v)
  }

  /** The fields of the JSON body: `{ username?, action?, requestId? }` (a body that is not JSON has none of them). */
  datatype RequestBody = RequestBody(username: Option<string>, action: Option<string>, requestId: IdField)

  function Ok(): (b: Body)
    ensures "ok" in b && b["ok"] == Bool(true)
  {
    map["ok" := Bool(true)]
  }

  function AutoAccepted(): (b: Body)
    ensures "ok" in b && b["ok"] == Bool(true) && "autoAccepted" in b && b["autoAccepted"] == Bool(true)
  {
    map["ok" := Bool(true), "autoAccepted" := Bool(true)]
  }

  /**
   * The caller's id and the id filter of the `where` object. The store throws
   * on a non-integer caller id and on a `requestId` that is neither an integer
   * nor an object it reads as a filter.
   */
  function IdArgs(caller: JsNumber, requestId: IdField): (r: Result<(int, IdFilter), DbError>)
    ensures r.Success? <==> NumberIsInteger(caller) && (requestId.FilterObject? || IsInteger(requestId.v))
    ensures r.Success? ==> r.value.0 as real == caller.x
    ensures r.Success? && requestId.Scalar? ==>
              forall id :: IdMatches(r.value.1, id) <==> requestId.v == Num(Finite(id as real))
    ensures r.Success? && requestId.FilterObject? ==> r.value.1 == requestId.f
  {
    var uid :- IntArg(caller);
    match requestId
    case FilterObject(f) => Success((uid, f))
    case Scalar(v) => if IsInteger(v) then Success((uid, OnlyId(AsInt(v.n)))) else Failure(InvalidArgument)
  }

  /** `action: "cancel"`: the caller's own pending requests that pass the id filter become CANCELLED. */
  function Cancel(caller: JsNumber, requestId: IdField, s: Social): (o: Step)
    ensures IdArgs(caller, requestId).Failure? ==> o == Step(s, Crash())
    ensures IdArgs(caller, requestId).Success? ==>
              var (uid, f) := IdArgs(caller, requestId).value;
              o.reply == Reply(200, Ok(), [])
              && o.social == s.(requests := SetStatus(s.requests, RequestWhere(f, Some(uid), None, Some(Pending)), Cancelled))
  {
    match IdArgs(caller, requestId)
    case Failure(_) => Step(s, Crash())
    case Success((uid, f)) =>
      Step(s.(requests := SetStatus(s.requests, RequestWhere(f, Some(uid), None, Some(Pending)), Cancelled)),
           Reply(200, Ok(), []))
  }

  /** `action: "accept"` or `"decline"` on the first pending request addressed to the caller that passes the id filter. */
  function Respond(accept: bool, caller: JsNumber, requestId: IdField, s: Social, nowMs: int): (o: Step)
    ensures IdArgs(caller, requestId).Failure? ==> o == Step(s, Crash())
    ensures IdArgs(caller, requestId).Success? ==>
              var (uid, f) := IdArgs(caller, requestId).value;
              var row := FindRequest(s.requests, RequestWhere(f, None, Some(uid), Some(Pending)));
              && (row.None? <==> o.reply == Error(404, "not_found"))
              && (row.None? ==> o.social == s)
              && (row.Some? ==> o.reply == Reply(200, Ok(), []) && o.social.users == s.users)
              && (row.Some? && !accept ==>
                    o.social == s.(requests := SetStatus(s.requests, WhereId(row.value.id), Declined)))
              && (row.Some? && accept ==>
                    var (a, b) := PairKey(row.value.fromUserId, row.value.toUserId);
                    o.social.requests == SetStatus(s.requests, WhereId(row.value.id), Accepted)
                    && o.social.friendships == UpsertFriendship(s.friendships, a, b, nowMs))
  {
    match IdArgs(caller, requestId)
    case Failure(_) => Step(s, Crash())
    case Success((uid, f)) =>
      match FindRequest(s.requests, RequestWhere(f, None, Some(uid), Some(Pending)))
      case None => Step(s, Error(404, "not_found"))
      case Some(row) =>
        if !accept then Step(s.(requests := SetStatus(s.requests, WhereId(row.id), Declined)), Reply(200, Ok(), []))
        else
          var (a, b) := PairKey(row.fromUserId, row.toUserId);
          Step(Social(s.users, SetStatus(s.requests, WhereId(row.id), Accepted), UpsertFriendship(s.friendships, a, b, nowMs)),
               Reply(200, Ok(), []))
  }

  /** The guards of sending a request by user name, in order; on success the target's id. */
  function SendGuard(caller: JsNumber, username: Option<string>, s: Social): (r: Result<(int, int), Reply>)
    ensures username.None? || username == Some("") ==> r == Failure(Error(400, "username required"))
    ensures username.Some? && username.value != "" && UserByName(s.users, username.value).None? ==>
              r == Failure(Error(404, "user_not_found"))
    ensures username.Some? && username.value != "" && UserByName(s.users, username.value).Some?
            && caller == Finite(UserByName(s.users, username.value).value.id as real) ==>
              r == Failure(Error(400, "cannot_add_self"))
    ensures r.Success? ==> r.value.0 != r.value.1 && NumberIsInteger(caller) && r.value.0 as real == caller.x
                           && username.Some? && UserByName(s.users, username.value).Some?
                           && UserByName(s.users, username.value).value.id == r.value.1
                           && !Befriended(s.friendships, PairKey(r.value.0, r.value.1).0, PairKey(r.value.0, r.value.1).1)
  {
    if username.None? || username.value == "" then Failure(Error(400, "username required"))
    else match UserByName(s.users, username.value)
      case None => Failure(Error(404, "user_not_found"))
      case Some(to) =>
        if caller == Finite(to.id as real) then Failure(Error(400, "cannot_add_self"))
        else match IntArg(caller)
          case Failure(_) => Failure(Crash())
          case Success(uid) =>
            var (a, b) := PairKey(uid, to.id);
            if Befriended(s.friendships, a, b) then Failure(Error(409, "already_friends"))
            else Success((uid, to.id))
  }

  /** Sending to `to`: accept a pending reverse request, else upsert our own (and re-check the reverse). */
  function Send(uid: int, to: int, s: Social, nowMs: int): (o: Step)
    ensures o.social.users == s.users
    ensures FindRequest(s.requests, PendingBetween(to, uid)).Some? ==>
              var rev := FindRequest(s.requests, PendingBetween(to, uid)).value;
              var (a, b) := PairKey(uid, to);
              o == Step(Social(s.users, SetStatus(s.requests, WhereId(rev.id), Accepted), UpsertFriendship(s.friendships, a, b, nowMs)),
                        Reply(200, AutoAccepted(), []))
  {
    var (a, b) := PairKey(uid, to);
    match FindRequest(s.requests, PendingBetween(to, uid))
    case Some(rev) =>
      Step(Social(s.users, SetStatus(s.requests, WhereId(rev.id), Accepted), UpsertFriendship(s.friendships, a, b, nowMs)),
           Reply(200, AutoAccepted(), []))
    case None =>
      var (rs, createdId) := UpsertRequest(s.requests, uid, to, nowMs);
      match FindRequest(rs, PendingBetween(to, uid))
      case Some(rev) =>
        var rs2 := SetStatus(SetStatus(rs, WhereId(rev.id), Accepted), PendingBetween(uid, to), Accepted);
        Step(Social(s.users, rs2, UpsertFriendship(s.friendships, a, b, nowMs)), Reply(200, AutoAccepted(), []))
      case None =>
        Step(s.(requests := rs), Reply(200, map["ok" := Bool(true), "requestId" := Num(Finite(createdId as real))], []))
  }

  /** `POST /api/friends/requests` */
  function RequestPost(caller: Option<JsNumber>, body: JsonBody<RequestBody>, s: Social, nowMs: int): (o: Step)
    ensures caller.None? ==> o == Step(s, Error(401, Unauthorized))
    ensures caller.Some? && body.NullBody? ==> o == Step(s, Crash())
    ensures o.social.users == s.users
    ensures o.reply.status == 200 || o.reply.status == 400 || o.reply.status == 401 || o.reply.status == 404
            || o.reply.status == 409 || o.reply == Crash()
    ensures o.reply.status != 200 ==> o.social == s
    ensures caller.Some? && body.Fields? && body.fields.action == Some("cancel") && IdTruthy(body.fields.requestId) ==>
              o == Cancel(caller.value, body.fields.requestId, s)
    ensures caller.Some? && body.Fields? && body.fields.action == Some("accept") && IdTruthy(body.fields.requestId) ==>
              o == Respond(true, caller.value, body.fields.requestId, s, nowMs)
    ensures caller.Some? && body.Fields? && body.fields.action == Some("decline") && IdTruthy(body.fields.requestId) ==>
              o == Respond(false, caller.value, body.fields.requestId, s, nowMs)
    ensures caller.Some? && body.Fields?
            && !((body.fields.action == Some("cancel") || body.fields.action == Some("accept") || body.fields.action == Some("decline"))
                 && IdTruthy(body.fields.requestId)) ==>
              o == (match SendGuard(caller.value, body.fields.username, s)
                    case Failure(reply) => Step(s, reply)
                    case Success((uid, to)) => Send(uid, to, s, nowMs))
  {
    match caller
    case None => Step(s, Error(401, Unauthorized))
    case Some(n) =>
      match body
      case NullBody => Step(s, Crash())
      case Fields(b) =>
        if b.action == Some("cancel") && IdTruthy(b.requestId) then Cancel(n, b.requestId, s)
        else if (b.action == Some("accept") || b.action == Some("decline")) && IdTruthy(b.requestId) then
          Respond(b.action == Some("accept"), n, b.requestId, s, nowMs)
        else
          match SendGuard(n, b.username, s)
          case Failure(reply) => Step(s, reply)
          case Success((uid, to)) => Send(uid, to, s, nowMs)
  }

  // ---------------------------------------------------------------------
  // Properties of POST /api/friends/requests
  // ---------------------------------------------------------------------

  /** In a sequential run the re-check after the upsert never finds a reverse request. */
  lemma NoReverseAfterUpsert(uid: int, to: int, rs: seq<FriendRequest>, nowMs: int)
    requires uid != to
    requires FindRequest(rs, PendingBetween(to, uid)).None?
    ensures FindRequest(UpsertRequest(rs, uid, to, nowMs).0, PendingBetween(to, uid)).None?
  {
    var w := RequestWhere(AnyId, Some(uid), Some(to), None);
    var r := UpsertRequest(rs, uid, to, nowMs).0;
    forall x | x in r ensures !Matches(PendingBetween(to, uid), x) {
      var k :| 0 <= k < |r| && r[k] == x;
      if k < |rs| {
        assert rs[k] in rs;
      }
    }
  }

  /** Sending without a pending reverse request leaves one pending request from the caller and no new friendship. */
  lemma SendWithoutReverse(uid: int, to: int, s: Social, nowMs: int)
    requires uid != to
    requires FindRequest(s.requests, PendingBetween(to, uid)).None?
    ensures var o := Send(uid, to, s, nowMs);
            o.social.friendships == s.friendships
            && FindRequest(o.social.requests, PendingBetween(uid, to)).Some?
            && "requestId" in o.reply.body && o.reply.status == 200
  {
    NoReverseAfterUpsert(uid, to, s.requests, nowMs);
    var w := RequestWhere(AnyId, Some(uid), Some(to), None);
    var (rs, id) := UpsertRequest(s.requests, uid, to, nowMs);
    match FindRequest(s.requests, w)
    case Some(e) =>
      var k :| 0 <= k < |s.requests| && s.requests[k] == e;
      assert rs[k] in rs && Matches(PendingBetween(uid, to), rs[k]);
    case None =>
      assert rs[|s.requests|] in rs;
  }

  /** A pending reverse request is accepted instead: the pair becomes friends and no request is added. */
  lemma ReverseRequestAutoAccepts(uid: int, to: int, s: Social, nowMs: int)
    requires FindRequest(s.requests, PendingBetween(to, uid)).Some?
    ensures var o := Send(uid, to, s, nowMs);
            var (a, b) := PairKey(uid, to);
            Befriended(o.social.friendships, a, b) && |o.social.requests| == |s.requests|
            && o.reply.body == AutoAccepted()
  {
  }

  /** Cancelling changes only the caller's own pending request with that id, and always answers ok. */
  lemma CancelTouchesOnlyOwnPending(uid: int, rid: int, s: Social)
    ensures var o := Cancel(Finite(uid as real), Scalar(Num(Finite(rid as real))), s);
            o.reply.status == 200 && |o.social.requests| == |s.requests|
            && forall i :: 0 <= i < |s.requests| ==>
                 var before := s.requests[i];
                 var after := o.social.requests[i];
                 if before.id == rid && before.fromUserId == uid && before.status == Pending
                 then after == before.(status := Cancelled) else after == before
  {
    assert IsIntegral(uid as real) && IsIntegral(rid as real);
  }

  /**
   * An object `requestId` is a filter, not an error: `{}` cancels every pending
   * request the caller has sent, and nothing else.
   */
  lemma EmptyFilterCancelsAllSent(uid: int, s: Social)
    ensures var o := Cancel(Finite(uid as real), FilterObject(AnyId), s);
            o.reply.status == 200 && |o.social.requests| == |s.requests|
            && forall i :: 0 <= i < |s.requests| ==>
                 var before := s.requests[i];
                 var after := o.social.requests[i];
                 if before.fromUserId == uid && before.status == Pending
                 then after == before.(status := Cancelled) else after == before
  {
    assert IsIntegral(uid as real);
  }

  /** With `{}` as `requestId`, accepting acts on the first pending request addressed to the caller. */
  lemma EmptyFilterAcceptsFirstIncoming(uid: int, s: Social, nowMs: int)
    requires FindRequest(s.requests, IncomingWhere(uid)).Some?
    ensures var row := FindRequest(s.requests, IncomingWhere(uid)).value;
            var o := Respond(true, Finite(uid as real), FilterObject(AnyId), s, nowMs);
            o.reply.status == 200 && o.social.requests == SetStatus(s.requests, WhereId(row.id), Accepted)
            && Befriended(o.social.friendships, PairKey(row.fromUserId, uid).0, PairKey(row.fromUserId, uid).1)
  {
    assert IsIntegral(uid as real);
  }

  /** Accepting makes the two parties friends, whichever of them the request came from. */
  lemma AcceptBefriends(uid: int, rid: int, s: Social, nowMs: int)
    requires FindRequest(s.requests, RequestWhere(OnlyId(rid), None, Some(uid), Some(Pending))).Some?
    ensures var row := FindRequest(s.requests, RequestWhere(OnlyId(rid), None, Some(uid), Some(Pending))).value;
            var o := Respond(true, Finite(uid as real), Scalar(Num(Finite(rid as real))), s, nowMs);
            o.reply.status == 200 && Befriended(o.social.friendships, PairKey(row.fromUserId, uid).0, PairKey(row.fromUserId, uid).1)
  {
    assert IsIntegral(uid as real) && IsIntegral(rid as real);
  }

  /** Every outcome of the POST handler keeps the tables' invariant. */
  lemma RequestPostKeepsInvariant(caller: Option<JsNumber>, body: JsonBody<RequestBody>, s: Social, nowMs: int)
    requires SocialInvariant(s)
    ensures SocialInvariant(RequestPost(caller, body, s, nowMs).social)
  {
    if caller.Some? && body.Fields? {
      var n := caller.value;
      var b := body.fields;
      if b.action == Some("cancel") && IdTruthy(b.requestId) {
        CancelKeepsInvariant(n, b.requestId, s);
      } else if (b.action == Some("accept") || b.action == Some("decline")) && IdTruthy(b.requestId) {
        RespondKeepsInvariant(b.action == Some("accept"), n, b.requestId, s, nowMs);
      } else if SendGuard(n, b.username, s).Success? {
        var (uid, to) := SendGuard(n, b.username, s).value;
        SendKeepsInvariant(uid, to, s, nowMs);
      }
    }
  }

  lemma CancelKeepsInvariant(caller: JsNumber, requestId: IdField, s: Social)
    requires SocialInvariant(s)
    ensures SocialInvariant(Cancel(caller, requestId, s).social)
  {
    if IdArgs(caller, requestId).Success? {
      var (uid, f) := IdArgs(caller, requestId).value;
      SetStatusKeepsWellFormed(s.requests, RequestWhere(f, Some(uid), None, Some(Pending)), Cancelled);
    }
  }

  lemma RespondKeepsInvariant(accept: bool, caller: JsNumber, requestId: IdField, s: Social, nowMs: int)
    requires SocialInvariant(s)
    ensures SocialInvariant(Respond(accept, caller, requestId, s, nowMs).social)
  {
    if IdArgs(caller, requestId).Success? {
      var (uid, f) := IdArgs(caller, requestId).value;
      var found := FindRequest(s.requests, RequestWhere(f, None, Some(uid), Some(Pending)));
      if found.Some? {
        var row := found.value;
        SetStatusKeepsWellFormed(s.requests, WhereId(row.id), if accept then Accepted else Declined);
        var k :| 0 <= k < |s.requests| && s.requests[k] == row;
        var (lo, hi) := PairKey(row.fromUserId, row.toUserId);
        UpsertKeepsCanonical(s.friendships, lo, hi, nowMs);
      }
    }
  }

  lemma SendKeepsInvariant(uid: int, to: int, s: Social, nowMs: int)
    requires SocialInvariant(s) && uid != to
    ensures SocialInvariant(Send(uid, to, s, nowMs).social)
  {
    var (a, b) := PairKey(uid, to);
    UpsertKeepsCanonical(s.friendships, a, b, nowMs);
    match FindRequest(s.requests, PendingBetween(to, uid))
    case Some(rev) =>
      SetStatusKeepsWellFormed(s.requests, WhereId(rev.id), Accepted);
    case None =>
      NoReverseAfterUpsert(uid, to, s.requests, nowMs);
      UpsertRequestKeepsWellFormed(s.requests, uid, to, nowMs);
  }

  // ---------------------------------------------------------------------
  // DELETE /api/friends
  // ---------------------------------------------------------------------

  /** `DELETE /api/friends`; the body's fields are its `userId` member, read with `Number`. */
  function FriendsDelete(caller: Option<JsNumber>, body: JsonBody<JsValue>, s: Social): (o: Step)
    ensures caller.None? ==> o == Step(s, Error(401, Unauthorized))
    ensures caller.Some? && body.NullBody? ==> o == Step(s, Crash())
    ensures caller.Some? && body.Fields? && !NumberIsInteger(ValueToNumber(body.fields)) ==> o == Step(s, Error(400, "userId required"))
    ensures o.social.users == s.users && o.social.requests == s.requests
    ensures caller.Some? && !NumberIsInteger(caller.value) && body.Fields? && NumberIsInteger(ValueToNumber(body.fields)) ==>
              o == Step(s, Crash())
    ensures caller.Some? && NumberIsInteger(caller.value) && body.Fields? && NumberIsInteger(ValueToNumber(body.fields)) ==>
              var (a, b) := PairKey(AsInt(caller.value), AsInt(ValueToNumber(body.fields)));
              o.reply == Reply(200, Ok(), [])
              && forall f :: f in o.social.friendships <==> f in s.friendships && !(f.userAId == a && f.userBId == b)
  {
    match caller
    case None => Step(s, Error(401, Unauthorized))
    case Some(n) =>
      match body
      case NullBody => Step(s, Crash())
      case Fields(otherUserId) =>
        var other := ValueToNumber(otherUserId);
        if !NumberIsInteger(other) then Step(s, Error(400, "userId required"))
        else match IntArg(n)
          case Failure(_) => Step(s, Crash())
          case Success(uid) =>
            var (a, b) := PairKey(uid, AsInt(other));
            Step(s.(friendships := DeleteFriendship(s.friendships, a, b)), Reply(200, Ok(), []))
  }

  /** Either party may end a friendship: both orders delete the same row. */
  lemma UnfriendIsSymmetric(x: int, y: int, s: Social)
    requires x != 0 && y != 0
    ensures FriendsDelete(Some(Finite(x as real)), Fields(Num(Finite(y as real))), s).social
         == FriendsDelete(Some(Finite(y as real)), Fields(Num(Finite(x as real))), s).social
  {
    assert IsIntegral(x as real) && IsIntegral(y as real);
  }

  // ---------------------------------------------------------------------
  // Listings
  // ---------------------------------------------------------------------

  function CreatedAt(r: FriendRequest): int { r.createdAt }
  function FriendshipCreatedAt(f: Friendship): int { f.createdAt }

  /** The friendship rows a user is part of, newest first. */
  function FriendshipsOf(fs: seq<Friendship>, uid: int): (r: seq<Friendship>)
    ensures SortedDesc(r, FriendshipCreatedAt)
    ensures forall f :: f in r <==> f in fs && (f.userAId == uid || f.userBId == uid)
    ensures multiset(r) == multiset(Involving(fs, uid))
  {
    var sel := Involving(fs, uid);
    var r := SortDesc(sel, FriendshipCreatedAt);
    forall f ensures f in r <==> f in sel { SortDescSameElements(sel, FriendshipCreatedAt, f); }
    r
  }

  /** `friendship.findMany({ where: { OR: [{ userAId }, { userBId }] } })`: every row of the user, as often as stored. */
  function Involving(fs: seq<Friendship>, uid: int): (r: seq<Friendship>)
    ensures forall f :: f in r <==> f in fs && (f.userAId == uid || f.userBId == uid)
    ensures forall f :: multiset(r)[f] == if f.userAId == uid || f.userBId == uid then multiset(fs)[f] else 0
    decreases |fs|
  {
    if |fs| == 0 then []
    else
      assert fs == [fs[0]] + fs[1..];
      if fs[0].userAId == uid || fs[0].userBId == uid then [fs[0]] + Involving(fs[1..], uid)
      else Involving(fs[1..], uid)
  }

  /** The other party of a friendship as seen from `uid`. */
  function OtherParty(f: Friendship, uid: int): int {
    if f.userAId == uid then f.userBId else f.userAId
  }

  /** `{ id, username }` of a user, when the user exists. */
  function ProfileOf(users: seq<User>, id: int): (p: Option<Profile>)
    ensures p.Some? <==> UserById(users, id).Some?
    ensures p.Some? ==> p.value.id == id && p.value.username == UserById(users, id).value.username
  {
    match UserById(users, id)
    case None => None
    case Some(u) => Some(Profile(u.id, u.username))
  }

  /** The other parties of a list of friendships; `None` when one of them no longer exists. */
  function OtherParties(fs: seq<Friendship>, uid: int, users: seq<User>): (r: Option<seq<Profile>>)
    ensures r.Some? <==> forall i :: 0 <= i < |fs| ==> ProfileOf(users, OtherParty(fs[i], uid)).Some?
    ensures r.Some? ==> (|r.value| == |fs|
              && forall i :: 0 <= i < |fs| ==> r.value[i] == ProfileOf(users, OtherParty(fs[i], uid)).value)
    decreases |fs|
  {
    if |fs| == 0 then Some([])
    else
      match ProfileOf(users, OtherParty(fs[0], uid))
      case None => None
      case Some(p) =>
        match OtherParties(fs[1..], uid, users)
        case None => None
        case Some(rest) => Some([p] + rest)
  }

  /** `GET /api/friends` and `GET /api/users/me/friends`: the caller's friends, newest friendship first. */
  function FriendList(caller: Option<JsNumber>, s: Social): (r: Answer<seq<Profile>>)
    ensures caller.None? ==> r == Refused(Error(401, Unauthorized))
    ensures caller.Some? && !NumberIsInteger(caller.value) ==> r == Refused(Crash())
    ensures r.Answered? ==>
              caller.Some? && NumberIsInteger(caller.value) &&
              var uid := AsInt(caller.value);
              var rows := FriendshipsOf(s.friendships, uid);
              |r.value| == |rows|
              && forall i :: 0 <= i < |rows| ==> r.value[i].id == OtherParty(rows[i], uid)
    ensures caller.Some? && NumberIsInteger(caller.value) ==>
              var uid := AsInt(caller.value);
              (r.Answered? <==> forall f :: f in FriendshipsOf(s.friendships, uid) ==> UserById(s.users, OtherParty(f, uid)).Some?)
    ensures r.Answered? ==>
              var uid := AsInt(caller.value);
              forall i :: 0 <= i < |FriendshipsOf(s.friendships, uid)| ==>
                r.value[i].username == UserById(s.users, OtherParty(FriendshipsOf(s.friendships, uid)[i], uid)).value.username
  {
    match caller
    case None => Refused(Error(401, Unauthorized))
    case Some(n) =>
      match IntArg(n)
      case Failure(_) => Refused(Crash())
      case Success(uid) => FriendsOf(uid, s)
  }

  /** The listing for an integer caller id: it throws when a friend no longer exists. */
  function FriendsOf(uid: int, s: Social): (r: Answer<seq<Profile>>)
    ensures r.Refused? ==> r == Refused(Crash())
    ensures r.Answered? <==> forall f :: f in FriendshipsOf(s.friendships, uid) ==> UserById(s.users, OtherParty(f, uid)).Some?
    ensures r.Answered? ==>
              var rows := FriendshipsOf(s.friendships, uid);
              |r.value| == |rows|
              && (forall i :: 0 <= i < |rows| ==> r.value[i].id == OtherParty(rows[i], uid))
              && forall i :: 0 <= i < |rows| ==> r.value[i].username == UserById(s.users, OtherParty(rows[i], uid)).value.username
  {
    var rows := FriendshipsOf(s.friendships, uid);
    OtherPartiesByMembership(rows, uid, s.users);
    match OtherParties(rows, uid, s.users)
    case None => Refused(Crash())
    case Some(ps) => Answered(ps)
  }

  /** The other parties are all there exactly when each listed friendship's other user exists, and each carries that user's name. */
  lemma OtherPartiesByMembership(fs: seq<Friendship>, uid: int, users: seq<User>)
    ensures OtherParties(fs, uid, users).Some? <==> forall f :: f in fs ==> UserById(users, OtherParty(f, uid)).Some?
    ensures OtherParties(fs, uid, users).Some? ==>
              forall i :: 0 <= i < |fs| ==>
                OtherParties(fs, uid, users).value[i].username == UserById(users, OtherParty(fs[i], uid)).value.username
  {
    var r := OtherParties(fs, uid, users);
    if forall f :: f in fs ==> UserById(users, OtherParty(f, uid)).Some? {
      forall i | 0 <= i < |fs| ensures ProfileOf(users, OtherParty(fs[i], uid)).Some? {
        assert fs[i] in fs;
      }
    }
    if r.Some? {
      forall f | f in fs ensures UserById(users, OtherParty(f, uid)).Some? {
        var i :| 0 <= i < |fs| && fs[i] == f;
        assert ProfileOf(users, OtherParty(fs[i], uid)).Some?;
      }
    }
  }

  /** Everyone listed is a friend: a stored friendship joins them with the caller, in one of the two orders. */
  lemma ListedAreFriends(uid: int, s: Social, i: int)
    requires uid != 0 && FriendshipsCanonical(s.friendships)
    requires FriendList(Some(Finite(uid as real)), s).Answered?
    requires 0 <= i < |FriendList(Some(Finite(uid as real)), s).value|
    ensures var p := FriendList(Some(Finite(uid as real)), s).value[i];
            Befriended(s.friendships, PairKey(uid, p.id).0, PairKey(uid, p.id).1)
  {
    assert IsIntegral(uid as real);
    assert AsInt(Finite(uid as real)) == uid;
    var rows := FriendshipsOf(s.friendships, uid);
    var ps := OtherParties(rows, uid, s.users);
    assert FriendList(Some(Finite(uid as real)), s) == Answered(ps.value);
    var f := rows[i];
    assert f in rows;
    var k :| 0 <= k < |s.friendships| && s.friendships[k] == f;
    assert f.userAId < f.userBId;
    assert ps.value[i].id == OtherParty(f, uid);
    assert PairKey(uid, OtherParty(f, uid)) == (f.userAId, f.userBId);
  }

  /** A request shown with the other party, or `null` where the user row is gone. */
  datatype RequestEntry = RequestEntry(id: int, party: Option<Profile>)

  /** Pending requests matching `w`, newest first. */
  function PendingListing(rs: seq<FriendRequest>, w: RequestWhere): (r: seq<FriendRequest>)
    requires w.status == Some(Pending)
    ensures SortedDesc(r, CreatedAt)
    ensures forall x :: x in r <==> x in rs && Matches(w, x)
    ensures multiset(r) == multiset(FilterRequests(rs, w))
  {
    var sel := FilterRequests(rs, w);
    var r := SortDesc(sel, CreatedAt);
    forall x ensures x in r <==> x in sel { SortDescSameElements(sel, CreatedAt, x); }
    r
  }

  /** `{ id, from: fromUser }` or `{ id, to: toUser }` for each request. */
  function Entries(rs: seq<FriendRequest>, incoming: bool, users: seq<User>): (r: seq<RequestEntry>)
    ensures |r| == |rs|
    ensures forall i :: 0 <= i < |rs| ==>
              r[i].id == rs[i].id && r[i].party == ProfileOf(users, if incoming then rs[i].fromUserId else rs[i].toUserId)
  {
    seq(|rs|, i requires 0 <= i < |rs| =>
      RequestEntry(rs[i].id, ProfileOf(users, if incoming then rs[i].fromUserId else rs[i].toUserId)))
  }

  function IncomingWhere(uid: int): RequestWhere { RequestWhere(AnyId, None, Some(uid), Some(Pending)) }
  function OutgoingWhere(uid: int): RequestWhere { RequestWhere(AnyId, Some(uid), None, Some(Pending)) }

  /** `GET /api/users/me/friends/requests?direction=...` */
  function DirectedRequests(caller: Option<JsNumber>, direction: Option<string>, s: Social): (r: Answer<seq<RequestEntry>>)
    ensures caller.None? ==> r == Refused(Error(401, Unauthorized))
    ensures caller.Some? && direction != Some("incoming") && direction != Some("outgoing") ==>
              r == Refused(Error(400, "direction must be 'incoming' or 'outgoing'"))
    ensures r.Answered? ==>
              caller.Some? && NumberIsInteger(caller.value) &&
              var uid := AsInt(caller.value);
              var rows := PendingListing(s.requests, if direction == Some("incoming") then IncomingWhere(uid) else OutgoingWhere(uid));
              r.value == Entries(rows, direction == Some("incoming"), s.users)
    ensures caller.Some? && (direction == Some("incoming") || direction == Some("outgoing")) ==>
              (r.Answered? <==> NumberIsInteger(caller.value))
  {
    match caller
    case None => Refused(Error(401, Unauthorized))
    case Some(n) =>
      if direction != Some("incoming") && direction != Some("outgoing") then
        Refused(Error(400, "direction must be 'incoming' or 'outgoing'"))
      else match IntArg(n)
        case Failure(_) => Refused(Crash())
        case Success(uid) =>
          var incoming := direction == Some("incoming");
          var rows := PendingListing(s.requests, if incoming then IncomingWhere(uid) else OutgoingWhere(uid));
          Answered(Entries(rows, incoming, s.users))
  }

  /** Both pending lists of `GET /api/friends/requests`. */
  datatype Inbox = Inbox(incoming: seq<RequestEntry>, outgoing: seq<RequestEntry>)

  predicate AllParties(es: seq<RequestEntry>) {
    forall i :: 0 <= i < |es| ==> es[i].party.Some?
  }

  /** `GET /api/friends/requests`: both lists; a vanished party makes `r.fromUser!.id` throw. */
  function Inboxes(caller: Option<JsNumber>, s: Social): (r: Answer<Inbox>)
    ensures caller.None? ==> r == Refused(Error(401, Unauthorized))
    ensures r.Answered? ==>
              caller.Some? && NumberIsInteger(caller.value) &&
              var uid := AsInt(caller.value);
              r.value.incoming == Entries(PendingListing(s.requests, IncomingWhere(uid)), true, s.users)
              && r.value.outgoing == Entries(PendingListing(s.requests, OutgoingWhere(uid)), false, s.users)
              && AllParties(r.value.incoming) && AllParties(r.value.outgoing)
    ensures caller.Some? && !NumberIsInteger(caller.value) ==> r == Refused(Crash())
    ensures caller.Some? && NumberIsInteger(caller.value) ==>
              var uid := AsInt(caller.value);
              (r.Answered? <==>
                 (forall x :: x in PendingListing(s.requests, IncomingWhere(uid)) ==> UserById(s.users, x.fromUserId).Some?)
                 && (forall x :: x in PendingListing(s.requests, OutgoingWhere(uid)) ==> UserById(s.users, x.toUserId).Some?))
  {
    match caller
    case None => Refused(Error(401, Unauthorized))
    case Some(n) =>
      match IntArg(n)
      case Failure(_) => Refused(Crash())
      case Success(uid) =>
        var inc := Entries(PendingListing(s.requests, IncomingWhere(uid)), true, s.users);
        var out := Entries(PendingListing(s.requests, OutgoingWhere(uid)), false, s.users);
        if AllParties(inc) && AllParties(out) then Answered(Inbox(inc, out)) else Refused(Crash())
  }

  /** The inbox lists agree with the per-direction endpoint whenever both answer. */
  lemma InboxMatchesDirected(caller: Option<JsNumber>, s: Social)
    requires Inboxes(caller, s).Answered?
    ensures DirectedRequests(caller, Some("incoming"), s) == Answered(Inboxes(caller, s).value.incoming)
    ensures DirectedRequests(caller, Some("outgoing"), s) == Answered(Inboxes(caller, s).value.outgoing)
  {
  }

  /** An incoming listing holds exactly the pending requests addressed to the caller. */
  lemma IncomingAreAddressedToCaller(uid: int, s: Social, x: FriendRequest)
    ensures x in PendingListing(s.requests, IncomingWhere(uid)) <==> x in s.requests && x.toUserId == uid && x.status == Pending
  {
  }
}

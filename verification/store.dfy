/**
 * The relational store the session handlers use, as immutable tables:
 * `user`, `device` and `refresh_token`. Each table is a sequence of rows in
 * insertion order; `findFirst` is the first matching row, `deleteMany` keeps
 * the rest in order, and `create` appends. Ids are auto-incremented.
 */
module Store {
  import opened Wrappers
  import opened ClientInfo
  import opened Js

  datatype User = User(
    id: int,
    email: string,
    username: string,
    passwordHash: string,
    isEmailVerified: Option<bool>,   // a nullable column
    createdAt: int)

  datatype Device = Device(
    id: int,
    userId: int,
    userAgent: string,
    deviceType: DeviceType,
    lastSeenAt: Option<int>)

  datatype TokenRow = TokenRow(
    token: string,
    userId: int,
    deviceId: int,
    expiresAt: int,                  // milliseconds since the epoch
    ipAddress: Option<string>,
    country: Option<string>,
    region: Option<string>)

  datatype Db = Db(users: seq<User>, devices: seq<Device>, tokens: seq<TokenRow>)

  /** A handler's effect on the store together with its reply. */
  datatype Outcome<R> = Outcome(db: Db, reply: R)

  /** Why a store call throws. */
  datatype DbError =
    | UniqueViolation    // a `create` hit a unique column
    | RecordNotFound     // an `update` found no row
    | InvalidArgument    // a filter received a value its column type rejects

  /** A JavaScript number used as an `Int` column value: the store rejects a non-integer. */
  function IntArg(n: JsNumber): (r: Result<int, DbError>)
    ensures r.Success? <==> NumberIsInteger(n)
    ensures r.Success? ==> r.value as real == n.x
    ensures r.Failure? ==> r.error == InvalidArgument
  {
    if NumberIsInteger(n) then Success(AsInt(n)) else Failure(InvalidArgument)
  }

  // ---------------------------------------------------------------------
  // Lookups and auto-increment ids
  // ---------------------------------------------------------------------

  function IdOfUser(u: User): int { u.id }
  function EmailOfUser(u: User): string { u.email }
  function NameOfUser(u: User): string { u.username }
  function IdOfDevice(d: Device): int { d.id }

  /**
   * The first row whose `key` is `k`: `findFirst` on one column, and
   * `findUnique` on a unique one. A miss means no row has that value.
   */
  function FirstWith<T(==), K(==)>(rows: seq<T>, key: T -> K, k: K): (r: Option<T>)
    ensures r.Some? ==> r.value in rows && key(r.value) == k
    ensures r.None? <==> forall x :: x in rows ==> key(x) != k
    ensures r.Some? ==> exists i :: 0 <= i < |rows| && rows[i] == r.value
                                    && forall j :: 0 <= j < i ==> key(rows[j]) != k
    decreases |rows|
  {
    if |rows| == 0 then None
    else if key(rows[0]) == k then Some(rows[0])
    else
      var r := FirstWith(rows[1..], key, k);
      if r.Some? then
        var i :| 0 <= i < |rows[1..]| && rows[1..][i] == r.value
                 && forall j :: 0 <= j < i ==> key(rows[1..][j]) != k;
        assert rows[i + 1] == r.value;
        r
      else r
  }

  /** The largest id of a table, 0 when it is empty: `create` hands out one more. */
  function MaxId<T>(rows: seq<T>, id: T -> int): (m: int)
    ensures m >= 0
    ensures forall i :: 0 <= i < |rows| ==> id(rows[i]) <= m
    decreases |rows|
  {
    if |rows| == 0 then 0
    else var m := MaxId(rows[..|rows| - 1], id); if id(rows[|rows| - 1]) > m then id(rows[|rows| - 1]) else m
  }

  // ---------------------------------------------------------------------
  // user
  // ---------------------------------------------------------------------

  /** `user.findUnique({ where: { email } })` */
  function UserByEmail(us: seq<User>, email: string): Option<User> {
    FirstWith(us, EmailOfUser, email)
  }

  /** `user.findFirst({ where: { username } })` */
  function UserByName(us: seq<User>, username: string): Option<User> {
    FirstWith(us, NameOfUser, username)
  }

  /** `user.findUnique({ where: { id } })` */
  function UserById(us: seq<User>, id: int): Option<User> {
    FirstWith(us, IdOfUser, id)
  }

  /** `user.update({ where: { id }, data: { isEmailVerified: true } })` */
  function VerifyUser(us: seq<User>, id: int): (r: Result<seq<User>, DbError>)
    ensures r.Success? <==> exists u :: u in us && u.id == id
    ensures r.Success? ==> |r.value| == |us|
    ensures r.Success? ==> forall i :: 0 <= i < |us| ==>
              r.value[i] == if us[i].id == id then us[i].(isEmailVerified := Some(true)) else us[i]
  {
    if UserById(us, id).None? then Failure(RecordNotFound)
    else Success(seq(|us|, i requires 0 <= i < |us| =>
                       if us[i].id == id then us[i].(isEmailVerified := Some(true)) else us[i]))
  }

  // ---------------------------------------------------------------------
  // device
  // ---------------------------------------------------------------------

  /** `device.create(...)`: a new row with the next id. */
  function CreateDevice(ds: seq<Device>, userId: int, userAgent: string, t: DeviceType): (r: (seq<Device>, int))
    ensures r.0 == ds + [Device(r.1, userId, userAgent, t, None)]
    ensures forall d :: d in ds ==> d.id != r.1
    ensures r.1 > 0
  {
    var id := MaxId(ds, IdOfDevice) + 1;
    (ds + [Device(id, userId, userAgent, t, None)], id)
  }

  /** `device.update({ where: { id }, data: { lastSeenAt } })`, with its failure swallowed. */
  function TouchDevice(ds: seq<Device>, id: int, now: int): (r: seq<Device>)
    ensures |r| == |ds|
    ensures forall i :: 0 <= i < |ds| ==>
              r[i] == if ds[i].id == id then ds[i].(lastSeenAt := Some(now)) else ds[i]
  {
    seq(|ds|, i requires 0 <= i < |ds| => if ds[i].id == id then ds[i].(lastSeenAt := Some(now)) else ds[i])
  }

  // ---------------------------------------------------------------------
  // refresh_token
  // ---------------------------------------------------------------------

  /** A `where` object over refresh tokens: every given field must match. */
  datatype TokenWhere = TokenWhere(
    token: Option<string>,
    userId: Option<int>,
    deviceId: Option<int>,
    expiresAfter: Option<int>)     // `expiresAt: { gt: ... }`

  predicate Selects(w: TokenWhere, r: TokenRow) {
    && (w.token.Some? ==> r.token == w.token.value)
    && (w.userId.Some? ==> r.userId == w.userId.value)
    && (w.deviceId.Some? ==> r.deviceId == w.deviceId.value)
    && (w.expiresAfter.Some? ==> r.expiresAt > w.expiresAfter.value)
  }

  function WhereToken(token: string): TokenWhere { TokenWhere(Some(token), None, None, None) }
  function WherePair(userId: int, deviceId: int): TokenWhere { TokenWhere(None, Some(userId), Some(deviceId), None) }
  function WhereUser(userId: int): TokenWhere { TokenWhere(None, Some(userId), None, None) }
  function WhereDevice(deviceId: int): TokenWhere { TokenWhere(None, None, Some(deviceId), None) }

  /** `findFirst({ where })`: the earliest selected row. */
  function FindFirst(t: seq<TokenRow>, w: TokenWhere): (r: Option<TokenRow>)
    ensures r.None? <==> forall x :: x in t ==> !Selects(w, x)
    ensures r.Some? ==> exists i :: 0 <= i < |t| && t[i] == r.value && Selects(w, t[i])
                                    && forall j :: 0 <= j < i ==> !Selects(w, t[j])
  {
    if |t| == 0 then None
    else if Selects(w, t[0]) then Some(t[0])
    else
      var r := FindFirst(t[1..], w);
      if r.Some? then
        var i :| 0 <= i < |t[1..]| && t[1..][i] == r.value && Selects(w, t[1..][i])
                 && forall j :: 0 <= j < i ==> !Selects(w, t[1..][j]);
        assert t[i + 1] == r.value;
        r
      else r
  }

  /** `deleteMany({ where })`: the rows not selected, in their order. */
  function DeleteMany(t: seq<TokenRow>, w: TokenWhere): (r: seq<TokenRow>)
    ensures forall x :: x in r <==> x in t && !Selects(w, x)
    ensures |r| <= |t|
  {
    if |t| == 0 then []
    else if Selects(w, t[0]) then DeleteMany(t[1..], w)
    else [t[0]] + DeleteMany(t[1..], w)
  }

  /** The rows a `where` selects. */
  function FindMany(t: seq<TokenRow>, w: TokenWhere): (r: seq<TokenRow>)
    ensures forall x :: x in r <==> x in t && Selects(w, x)
    ensures forall x :: multiset(r)[x] == if Selects(w, x) then multiset(t)[x] else 0
    ensures |r| <= |t|
  {
    if |t| == 0 then []
    else
      assert t == [t[0]] + t[1..];
      if Selects(w, t[0]) then [t[0]] + FindMany(t[1..], w)
      else FindMany(t[1..], w)
  }

  /** A token value occurs in at most one row (the column is unique). */
  predicate UniqueTokens(t: seq<TokenRow>) {
    forall i, j :: 0 <= i < |t| && 0 <= j < |t| && t[i].token == t[j].token ==> i == j
  }

  /** At most one row per (user, device): the invariant issuance maintains. */
  predicate OnePerPair(t: seq<TokenRow>) {
    forall i, j :: 0 <= i < |t| && 0 <= j < |t| && t[i].userId == t[j].userId && t[i].deviceId == t[j].deviceId ==> i == j
  }

  /** `deleteMany` splits a table: what it keeps and what it selects make up the table. */
  lemma {:induction false} DeleteManyCount(t: seq<TokenRow>, w: TokenWhere)
    ensures |DeleteMany(t, w)| + |FindMany(t, w)| == |t|
  {
    if |t| > 0 {
      DeleteManyCount(t[1..], w);
    }
  }

  /** Deleting keeps a subsequence, so both table invariants survive it. */
  lemma {:induction false} DeleteManyKeepsInvariants(t: seq<TokenRow>, w: TokenWhere)
    requires UniqueTokens(t) && OnePerPair(t)
    ensures UniqueTokens(DeleteMany(t, w)) && OnePerPair(DeleteMany(t, w))
  {
    if |t| > 0 {
      var rest := t[1..];
      assert UniqueTokens(rest) && OnePerPair(rest) by {
        forall i, j | 0 <= i < |rest| && 0 <= j < |rest|
          ensures rest[i].token == rest[j].token ==> i == j
          ensures rest[i].userId == rest[j].userId && rest[i].deviceId == rest[j].deviceId ==> i == j
        {
          assert rest[i] == t[i + 1] && rest[j] == t[j + 1];
        }
      }
      DeleteManyKeepsInvariants(rest, w);
      var d := DeleteMany(rest, w);
      if !Selects(w, t[0]) {
        var r := [t[0]] + d;
        forall i, j | 0 <= i < |r| && 0 <= j < |r|
          ensures r[i].token == r[j].token ==> i == j
          ensures r[i].userId == r[j].userId && r[i].deviceId == r[j].deviceId ==> i == j
        {
          if i == 0 && j > 0 {
            assert r[j] in rest;
            var k :| 0 <= k < |rest| && rest[k] == r[j];
            assert t[k + 1] == r[j];
          } else if j == 0 && i > 0 {
            assert r[i] in rest;
            var k :| 0 <= k < |rest| && rest[k] == r[i];
            assert t[k + 1] == r[i];
          } else if i > 0 && j > 0 {
            assert r[i] == d[i - 1] && r[j] == d[j - 1];
          }
        }
      }
    }
  }
}

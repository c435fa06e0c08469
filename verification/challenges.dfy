/**
 * The client's view of match challenges in `src/contexts/ChallengesContext.tsx`:
 * two maps from a friend's user id to a challenge id, `outgoing` (friends
 * this user challenged) and `incoming` (friends who challenged this user),
 * rebuilt by `refetch`, patched by socket events, and read by the actions.
 * Ids are the integers the server hands out; a socket payload field that is
 * not a number arrives as `None`.
 */
module Challenges {
  import opened Wrappers

  datatype Challenge = Challenge(id: int, fromUserId: int, toUserId: int)

  datatype State = State(outgoing: map<int, int>, incoming: map<int, int>)

  /** Which user id keys a map: the challenged friend for `outgoing`, the challenger for `incoming`. */
  datatype Side = ByTo | ByFrom

  function KeyOf(c: Challenge, side: Side): int {
    if side == ByTo then c.toUserId else c.fromUserId
  }

  /** The last challenge in `chs` with the given key owns that key. */
  predicate LastWithKey(chs: seq<Challenge>, side: Side, i: int) {
    0 <= i < |chs| && forall j :: i < j < |chs| ==> KeyOf(chs[j], side) != KeyOf(chs[i], side)
  }

  /** The challenge ids a list holds. */
  function ChallengeIds(chs: seq<Challenge>): set<int> {
    set i | 0 <= i < |chs| :: chs[i].id
  }

  /** `for (const ch of list) next[key(ch)] = ch.id`, starting from `{}`. */
  function BuildMap(chs: seq<Challenge>, side: Side): (m: map<int, int>)
    ensures |m| <= |chs|
    ensures |chs| > 0 ==> |m| > 0
    ensures forall k :: k in m ==> m[k] in ChallengeIds(chs)
    decreases |chs|
  {
    if |chs| == 0 then map[]
    else BuildMap(chs[..|chs| - 1], side)[KeyOf(chs[|chs| - 1], side) := chs[|chs| - 1].id]
  }

  /** The built map has a key exactly for each listed challenge's key. */
  lemma {:induction false} BuildMapKeys(chs: seq<Challenge>, side: Side, k: int)
    ensures k in BuildMap(chs, side) <==> exists i :: 0 <= i < |chs| && KeyOf(chs[i], side) == k
    decreases |chs|
  {
    if |chs| > 0 {
      var front := chs[..|chs| - 1];
      BuildMapKeys(front, side, k);
      if exists i :: 0 <= i < |front| && KeyOf(front[i], side) == k {
        var i :| 0 <= i < |front| && KeyOf(front[i], side) == k;
        assert KeyOf(chs[i], side) == k;
      }
      if exists i :: 0 <= i < |chs| && KeyOf(chs[i], side) == k {
        var i :| 0 <= i < |chs| && KeyOf(chs[i], side) == k;
        if i < |front| {
          assert KeyOf(front[i], side) == k;
        }
      }
    }
  }

  /** A later challenge for the same key overwrites an earlier one: the key holds the last one's id. */
  lemma {:induction false} BuildMapLast(chs: seq<Challenge>, side: Side, i: int)
    requires LastWithKey(chs, side, i)
    ensures KeyOf(chs[i], side) in BuildMap(chs, side)
    ensures BuildMap(chs, side)[KeyOf(chs[i], side)] == chs[i].id
    decreases |chs|
  {
    var front := chs[..|chs| - 1];
    if i < |front| {
      assert forall j :: i < j < |front| ==> front[j] == chs[j];
      BuildMapLast(front, side, i);
    }
  }

  /** A decoded `/api/users/me/challenges` body; a missing list reads as empty. */
  datatype Listing = Listing(outgoing: Option<seq<Challenge>>, incoming: Option<seq<Challenge>>)

  /**
   * `refetch`: a non-ok answer, or one that fails to arrive or decode
   * (`None`), leaves both maps alone; otherwise both are rebuilt from scratch.
   */
  function Refetch(s: State, response: Option<Listing>): (r: State)
    ensures response.None? ==> r == s
    ensures response.Some? ==> r.outgoing == BuildMap(response.value.outgoing.GetOr([]), ByTo)
                               && r.incoming == BuildMap(response.value.incoming.GetOr([]), ByFrom)
  {
    match response
    case None => s
    case Some(l) => State(BuildMap(l.outgoing.GetOr([]), ByTo), BuildMap(l.incoming.GetOr([]), ByFrom))
  }

  /** A refetched map holds no stale entries: every key is some listed challenge's key. */
  lemma RefetchForgetsOldEntries(s: State, l: Listing, k: int)
    requires k in s.outgoing
    requires forall c :: c in l.outgoing.GetOr([]) ==> c.toUserId != k
    ensures k !in Refetch(s, Some(l)).outgoing
  {
    var chs := l.outgoing.GetOr([]);
    BuildMapKeys(chs, ByTo, k);
    assert forall i :: 0 <= i < |chs| ==> chs[i] in chs;
  }

  /** `challenge:created`: the challenge is outgoing to its recipient. */
  function OnCreated(s: State, ch: Option<Challenge>): (r: State)
    ensures ch.None? ==> r == s
    ensures ch.Some? ==> r.incoming == s.incoming && r.outgoing == s.outgoing[ch.value.toUserId := ch.value.id]
  {
    if ch.None? then s else s.(outgoing := s.outgoing[ch.value.toUserId := ch.value.id])
  }

  /** `challenge:waiting`: the same update, taken only when both fields are numbers. */
  function OnWaiting(s: State, id: Option<int>, toUserId: Option<int>): (r: State)
    ensures r.incoming == s.incoming
    ensures id.None? || toUserId.None? ==> r == s
    ensures id.Some? && toUserId.Some? ==> r == OnCreated(s, Some(Challenge(id.value, 0, toUserId.value)))
  {
    if id.Some? && toUserId.Some? then s.(outgoing := s.outgoing[toUserId.value := id.value]) else s
  }

  /** `challenge:incoming`: the challenge is incoming from its sender. */
  function OnIncoming(s: State, ch: Option<Challenge>): (r: State)
    ensures ch.None? ==> r == s
    ensures ch.Some? ==> r.outgoing == s.outgoing && r.incoming == s.incoming[ch.value.fromUserId := ch.value.id]
  {
    if ch.None? then s else s.(incoming := s.incoming[ch.value.fromUserId := ch.value.id])
  }

  /** Every entry whose challenge id is `id` removed. */
  function WithoutValue(m: map<int, int>, id: int): (r: map<int, int>)
    ensures forall k :: k in r <==> k in m && m[k] != id
    ensures forall k :: k in r ==> r[k] == m[k]
  {
    map k | k in m && m[k] != id :: m[k]
  }

  /**
   * `challenge:cancelled` and `challenge:declined`: a numeric, non-zero id
   * is removed wherever it appears, in both maps; anything else is ignored.
   */
  function OnCancelled(s: State, id: Option<int>): (r: State)
    ensures id.None? || id.value == 0 ==> r == s
    ensures id.Some? && id.value != 0 ==>
              (forall k :: k in r.outgoing <==> k in s.outgoing && s.outgoing[k] != id.value)
              && (forall k :: k in r.incoming <==> k in s.incoming && s.incoming[k] != id.value)
              && (forall k :: k in r.outgoing ==> r.outgoing[k] == s.outgoing[k])
              && (forall k :: k in r.incoming ==> r.incoming[k] == s.incoming[k])
  {
    if id.None? || id.value == 0 then s
    else State(WithoutValue(s.outgoing, id.value), WithoutValue(s.incoming, id.value))
  }

  /** Repeating a cancellation event changes nothing more. */
  lemma OnCancelledIdempotent(s: State, id: Option<int>)
    ensures OnCancelled(OnCancelled(s, id), id) == OnCancelled(s, id)
  {
    var r := OnCancelled(s, id);
    if id.Some? && id.value != 0 {
      assert OnCancelled(r, id).outgoing == r.outgoing;
      assert OnCancelled(r, id).incoming == r.incoming;
    }
  }

  /** What the actions send on the socket. */
  datatype Emit = Create(friendId: int) | Cancel(challengeId: int) | Accept(challengeId: int)

  datatype Step = Step(state: State, emits: seq<Emit>)

  /** `prev[friendId]` is truthy: present and not 0. */
  predicate Pending(m: map<int, int>, friendId: int) {
    friendId in m && m[friendId] != 0
  }

  /** The placeholder id an optimistic challenge shows until the server answers. */
  const Placeholder: int := -1

  /**
   * `challenge(friendId)`: mark the friend as challenged unless an entry is
   * already pending, then always send the request.
   */
  function ChallengeFriend(s: State, friendId: int): (r: Step)
    ensures r.emits == [Create(friendId)]
    ensures r.state.incoming == s.incoming
    ensures Pending(s.outgoing, friendId) ==> r.state == s
    ensures !Pending(s.outgoing, friendId) ==> r.state.outgoing == s.outgoing[friendId := Placeholder]
    ensures Pending(r.state.outgoing, friendId)
  {
    if Pending(s.outgoing, friendId) then Step(s, [Create(friendId)])
    else Step(s.(outgoing := s.outgoing[friendId := Placeholder]), [Create(friendId)])
  }

  /**
   * `cancel(friendId)`: without a pending entry nothing happens; otherwise
   * the entry is dropped and its id sent.
   */
  function CancelChallenge(s: State, friendId: int): (r: Step)
    ensures !Pending(s.outgoing, friendId) ==> r == Step(s, [])
    ensures Pending(s.outgoing, friendId) ==>
              r.emits == [Cancel(s.outgoing[friendId])]
              && r.state.incoming == s.incoming
              && friendId !in r.state.outgoing
              && forall k :: k != friendId ==>
                   (k in r.state.outgoing <==> k in s.outgoing) && (k in s.outgoing ==> r.state.outgoing[k] == s.outgoing[k])
  {
    if !Pending(s.outgoing, friendId) then Step(s, [])
    else Step(s.(outgoing := s.outgoing - {friendId}), [Cancel(s.outgoing[friendId])])
  }

  /** `accept(friendId)`: sends the pending incoming id, if any; the maps stay as they are. */
  function AcceptChallenge(s: State, friendId: int): (r: Step)
    ensures r.state == s
    ensures Pending(s.incoming, friendId) <==> r.emits != []
    ensures r.emits != [] ==> r.emits == [Accept(s.incoming[friendId])]
  {
    if !Pending(s.incoming, friendId) then Step(s, [])
    else Step(s, [Accept(s.incoming[friendId])])
  }

  /** Challenging twice is challenging once, apart from the second request sent. */
  lemma ChallengeTwiceKeepsState(s: State, friendId: int)
    ensures ChallengeFriend(ChallengeFriend(s, friendId).state, friendId).state == ChallengeFriend(s, friendId).state
  {
  }

  /**
   * A cancel issued before the server's `challenge:created` arrives sends
   * the placeholder id -1, and the friend's entry is gone as if never set.
   */
  lemma EarlyCancelSendsPlaceholder(s: State, friendId: int)
    requires friendId !in s.outgoing
    ensures var c := CancelChallenge(ChallengeFriend(s, friendId).state, friendId);
            c.emits == [Cancel(Placeholder)] && c.state == s
  {
    var c := CancelChallenge(ChallengeFriend(s, friendId).state, friendId);
    assert c.state.outgoing == s.outgoing;
  }
}

/** The `friends` table as a state machine: a request inserts a "pending" row
    for a pair that has none yet, a response turns a pending row into "accept"
    or "decline", and the friends list reads the accepted rows. */
module Friends {
  import opened Tables

  const Pending: string := "pending"
  const Accept: string := "accept"
  const Decline: string := "decline"

  /** Row `f` joins `a` and `b`, in either direction. */
  predicate Links(f: Friendship, a: Id, b: Id) {
    (f.requester == a && f.receiver == b) || (f.requester == b && f.receiver == a)
  }

  predicate HasLink(friends: seq<Friendship>, a: Id, b: Id) {
    exists f :: f in friends && Links(f, a, b)
  }

  /** Rows joining `a` and `b` in either direction: the query the request
      handler makes before inserting. */
  function Between(friends: seq<Friendship>, a: Id, b: Id): (r: seq<Friendship>)
    ensures |r| <= |friends|
    ensures forall f :: f in r <==> f in friends && Links(f, a, b)
    ensures !HasLink(friends, a, b) ==> r == []
  {
    if friends == [] then []
    else (if Links(friends[0], a, b) then [friends[0]] else []) + Between(friends[1..], a, b)
  }

  /** Pending rows sent by `requester` to `receiver`: the `.match(...)` query
      of the respond handler. */
  function PendingFrom(friends: seq<Friendship>, requester: Id, receiver: Id): (r: seq<Friendship>)
    ensures |r| <= |friends|
    ensures forall f :: f in r <==> f in friends && f.requester == requester && f.receiver == receiver && f.status == Pending
    ensures (forall f :: f in friends ==> !(f.requester == requester && f.receiver == receiver)) ==> r == []
  {
    if friends == [] then []
    else
      var f := friends[0];
      (if f.requester == requester && f.receiver == receiver && f.status == Pending then [f] else [])
      + PendingFrom(friends[1..], requester, receiver)
  }

  /** At most one row per unordered pair: what the request handler's check
      maintains (the database itself has no such constraint). */
  ghost predicate PairsUnique(friends: seq<Friendship>) {
    forall i, j :: 0 <= i < j < |friends| ==> !Links(friends[j], friends[i].requester, friends[i].receiver)
  }

  ghost predicate NoSelfRows(friends: seq<Friendship>) {
    forall f :: f in friends ==> f.requester != f.receiver
  }

  ghost predicate KnownStatuses(friends: seq<Friendship>) {
    forall f :: f in friends ==> f.status == Pending || f.status == Accept || f.status == Decline
  }

  /** Row ids are distinct and below the next id the database will hand out. */
  ghost predicate IdsFresh(friends: seq<Friendship>, nextId: nat) {
    && (forall f :: f in friends ==> f.id < nextId)
    && (forall i, j :: 0 <= i < j < |friends| ==> friends[i].id != friends[j].id)
  }

  /** What every handler keeps, whatever the database answers. One row per
      pair (PairsUnique) is kept only while the duplicate check succeeds. */
  ghost predicate WellFormed(friends: seq<Friendship>, nextId: nat) {
    NoSelfRows(friends) && KnownStatuses(friends) && IdsFresh(friends, nextId)
  }

  lemma PairsUniqueTail(friends: seq<Friendship>)
    requires friends != [] && PairsUnique(friends)
    ensures PairsUnique(friends[1..])
  {
    var rest := friends[1..];
    forall i, j | 0 <= i < j < |rest|
      ensures !Links(rest[j], rest[i].requester, rest[i].receiver)
    {
      assert rest[i] == friends[i + 1] && rest[j] == friends[j + 1];
    }
  }

  /** With one row per pair, the either-direction query finds at most one row. */
  lemma {:induction false} AtMostOneBetween(friends: seq<Friendship>, a: Id, b: Id)
    requires PairsUnique(friends)
    ensures |Between(friends, a, b)| <= 1
  {
    if friends != [] {
      var rest := friends[1..];
      PairsUniqueTail(friends);
      if Links(friends[0], a, b) {
        forall f | f in rest ensures !Links(f, a, b) {
          var j :| 0 <= j < |rest| && rest[j] == f;
          assert friends[j + 1] == f;
        }
        assert Between(rest, a, b) == [];
      } else {
        AtMostOneBetween(rest, a, b);
      }
    }
  }

  /** `.maybeSingle()` yields a row only when exactly one matches; with one row
      per pair that is the same as "the pair already has a row". */
  lemma ExistingIffLinked(friends: seq<Friendship>, a: Id, b: Id)
    requires PairsUnique(friends)
    ensures |Between(friends, a, b)| == 1 <==> HasLink(friends, a, b)
  {
    AtMostOneBetween(friends, a, b);
    if HasLink(friends, a, b) {
      var f :| f in friends && Links(f, a, b);
      assert f in Between(friends, a, b);
    }
    if |Between(friends, a, b)| == 1 {
      assert Between(friends, a, b)[0] in Between(friends, a, b);
    }
  }

  /** With one row per pair, at most one pending request goes from `requester`
      to `receiver`. */
  lemma {:induction false} AtMostOnePending(friends: seq<Friendship>, requester: Id, receiver: Id)
    requires PairsUnique(friends)
    ensures |PendingFrom(friends, requester, receiver)| <= 1
  {
    if friends != [] {
      var rest := friends[1..];
      var f := friends[0];
      PairsUniqueTail(friends);
      if f.requester == requester && f.receiver == receiver && f.status == Pending {
        forall g | g in rest ensures !(g.requester == requester && g.receiver == receiver) {
          var j :| 0 <= j < |rest| && rest[j] == g;
          assert friends[j + 1] == g;
        }
        assert PendingFrom(rest, requester, receiver) == [];
      } else {
        AtMostOnePending(rest, requester, receiver);
      }
    }
  }

  /** The respond handler finds its request exactly when a pending row goes from
      `requester` to `receiver`. */
  lemma PendingFoundIff(friends: seq<Friendship>, requester: Id, receiver: Id)
    requires PairsUnique(friends)
    ensures |PendingFrom(friends, requester, receiver)| == 1 <==>
      exists f :: f in friends && f.requester == requester && f.receiver == receiver && f.status == Pending
  {
    AtMostOnePending(friends, requester, receiver);
    var rows := PendingFrom(friends, requester, receiver);
    if exists f :: f in friends && f.requester == requester && f.receiver == receiver && f.status == Pending {
      var f :| f in friends && f.requester == requester && f.receiver == receiver && f.status == Pending;
      assert f in rows;
    }
    if |rows| == 1 {
      assert rows[0] in rows;
    }
  }

  /** A request between two different users keeps the table well formed. */
  lemma RequestKeepsWellFormed(friends: seq<Friendship>, nextId: nat, sender: Id, receiver: Id)
    requires WellFormed(friends, nextId) && sender != receiver
    ensures WellFormed(friends + [Friendship(nextId, sender, receiver, Pending)], nextId + 1)
  {
    var s := friends + [Friendship(nextId, sender, receiver, Pending)];
    forall i, j | 0 <= i < j < |s| ensures s[i].id != s[j].id {
      if j == |friends| { assert s[i] in friends; }
    }
  }

  /** A request for a pair that has no row yet keeps one row per pair. */
  lemma RequestKeepsPairsUnique(friends: seq<Friendship>, nextId: nat, sender: Id, receiver: Id)
    requires PairsUnique(friends) && !HasLink(friends, sender, receiver)
    ensures PairsUnique(friends + [Friendship(nextId, sender, receiver, Pending)])
  {
    var s := friends + [Friendship(nextId, sender, receiver, Pending)];
    forall i, j | 0 <= i < j < |s| ensures !Links(s[j], s[i].requester, s[i].receiver) {
      if j == |friends| {
        assert s[i] in friends;
        assert !Links(s[i], sender, receiver);
      }
    }
  }

  /** When the duplicate check fails, the handler inserts anyway: a pair that
      already has a row then gets a second one. */
  lemma RepeatedPairBreaksUniqueness(friends: seq<Friendship>, nextId: nat, sender: Id, receiver: Id)
    requires HasLink(friends, sender, receiver)
    ensures !PairsUnique(friends + [Friendship(nextId, sender, receiver, Pending)])
  {
    var s := friends + [Friendship(nextId, sender, receiver, Pending)];
    var f :| f in friends && Links(f, sender, receiver);
    var i :| 0 <= i < |friends| && friends[i] == f;
    assert s[i] == f && s[|friends|] == Friendship(nextId, sender, receiver, Pending);
    assert Links(s[|friends|], s[i].requester, s[i].receiver);
  }

  /** The `.update({status}).match({id})` call: every row with that id gets the
      new status, every other row is left as it was. */
  function SetStatus(friends: seq<Friendship>, id: nat, status: string): (r: seq<Friendship>)
    ensures |r| == |friends|
    ensures forall i :: 0 <= i < |friends| ==>
      r[i] == if friends[i].id == id then friends[i].(status := status) else friends[i]
  {
    seq(|friends|, i requires 0 <= i < |friends| =>
      if friends[i].id == id then friends[i].(status := status) else friends[i])
  }

  /** Since ids are distinct, updating by the id of row `k` changes that row's
      status and nothing else. */
  lemma SetStatusChangesOneRow(friends: seq<Friendship>, nextId: nat, k: nat, status: string)
    requires IdsFresh(friends, nextId) && k < |friends|
    ensures SetStatus(friends, friends[k].id, status) == friends[k := friends[k].(status := status)]
  {
    var r := SetStatus(friends, friends[k].id, status);
    forall i | 0 <= i < |friends| ensures r[i] == friends[k := friends[k].(status := status)][i] {
      if i < k {
        assert friends[i].id != friends[k].id;
      } else if i > k {
        assert friends[k].id != friends[i].id;
      }
    }
  }

  /** Changing one row's status to "accept" or "decline" keeps the table well
      formed, and keeps one row per pair where there was. */
  lemma RespondKeepsWellFormed(friends: seq<Friendship>, nextId: nat, k: nat, status: string)
    requires WellFormed(friends, nextId) && k < |friends|
    requires status == Accept || status == Decline
    ensures WellFormed(friends[k := friends[k].(status := status)], nextId)
    ensures PairsUnique(friends) ==> PairsUnique(friends[k := friends[k].(status := status)])
  {
    var s := friends[k := friends[k].(status := status)];
    forall f | f in s ensures f.requester != f.receiver && f.id < nextId && (f.status == Pending || f.status == Accept || f.status == Decline) {
      var i :| 0 <= i < |s| && s[i] == f;
      assert friends[i] in friends;
    }
    forall i, j | 0 <= i < j < |s| ensures s[i].id != s[j].id {
      assert s[i].id == friends[i].id && s[j].id == friends[j].id;
    }
    if PairsUnique(friends) {
      forall i, j | 0 <= i < j < |s| ensures !Links(s[j], s[i].requester, s[i].receiver) {
        assert s[i].requester == friends[i].requester && s[i].receiver == friends[i].receiver;
        assert s[j].requester == friends[j].requester && s[j].receiver == friends[j].receiver;
      }
    }
  }

  /** The message of a successful response, `Friend request ${action}ed.`: the
      suffix is glued on verbatim, so "accept" reads well and "decline"
      becomes "declineed". */
  function RespondMessage(action: string): (r: string)
    ensures action == Accept ==> r == "Friend request accepted."
    ensures action == Decline ==> r == "Friend request declineed."
  {
    "Friend request " + action + "ed."
  }

  /** Row `f` is an accepted friendship that involves `me`. */
  predicate AcceptedWith(f: Friendship, me: Id) {
    (f.requester == me || f.receiver == me) && f.status == Accept
  }

  /** The list handler's query: accepted rows in which `me` is either party. */
  function AcceptedOf(friends: seq<Friendship>, me: Id): (r: seq<Friendship>)
    ensures |r| <= |friends|
    ensures forall f :: f in r <==> f in friends && AcceptedWith(f, me)
  {
    if friends == [] then []
    else (if AcceptedWith(friends[0], me) then [friends[0]] else []) + AcceptedOf(friends[1..], me)
  }

  /** The other party of a row, seen from `me`. */
  function OtherParty(f: Friendship, me: Id): (r: Id)
    ensures f.requester == me || f.receiver == me ==> Links(f, me, r)
  {
    if f.requester == me then f.receiver else f.requester
  }

  /** The ids the friends list projects, one per accepted row. */
  function FriendIds(friends: seq<Friendship>, me: Id): (r: seq<Id>)
    ensures |r| == |AcceptedOf(friends, me)|
  {
    var rows := AcceptedOf(friends, me);
    seq(|rows|, i requires 0 <= i < |rows| => OtherParty(rows[i], me))
  }

  /** `x` is on the friends list of `me` exactly when an accepted row joins them. */
  lemma FriendIdsIff(friends: seq<Friendship>, me: Id, x: Id)
    ensures x in FriendIds(friends, me) <==> exists f :: f in friends && f.status == Accept && Links(f, me, x)
  {
    var rows := AcceptedOf(friends, me);
    var ids := FriendIds(friends, me);
    if x in ids {
      var i :| 0 <= i < |ids| && ids[i] == x;
      assert rows[i] in rows;
      assert Links(rows[i], me, x);
    }
    if exists f :: f in friends && f.status == Accept && Links(f, me, x) {
      var f :| f in friends && f.status == Accept && Links(f, me, x);
      assert f in rows;
      var i :| 0 <= i < |rows| && rows[i] == f;
      assert ids[i] == x;
    }
  }

  /** Friendship is symmetric: each appears on the other's list. */
  lemma FriendsSymmetric(friends: seq<Friendship>, a: Id, b: Id)
    ensures b in FriendIds(friends, a) <==> a in FriendIds(friends, b)
  {
    FriendIdsIff(friends, a, b);
    FriendIdsIff(friends, b, a);
    assert forall f :: Links(f, a, b) <==> Links(f, b, a);
  }

  /** Once a pending request is accepted, each party is on the other's list. */
  lemma AcceptMakesFriends(friends: seq<Friendship>, k: nat)
    requires k < |friends|
    ensures var s := friends[k := friends[k].(status := Accept)];
      friends[k].receiver in FriendIds(s, friends[k].requester) &&
      friends[k].requester in FriendIds(s, friends[k].receiver)
  {
    var s := friends[k := friends[k].(status := Accept)];
    var a, b := friends[k].requester, friends[k].receiver;
    assert s[k] in s && Links(s[k], a, b) && Links(s[k], b, a);
    FriendIdsIff(s, a, b);
    FriendIdsIff(s, b, a);
  }
}

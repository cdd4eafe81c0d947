/** The Express app's request handlers as methods of one datastore that holds
    the hosted database's tables in memory. Each handler runs as one atomic
    step. Each outcome of a foreign call (identity provider, payment processor,
    a database failure other than the key constraints modelled here) is a
    parameter. Handlers behind the bearer-token middleware take the id of the
    user it resolved. */
module Server {
  import opened Tables
  import Auth
  import Profiles
  import Friends
  import Groups
  import Ledger

  class Datastore {
    var profiles: seq<Profile>
    var friends: seq<Friendship>
    var nextFriendId: nat
    var groups: seq<Group>
    var members: seq<Membership>
    var payments: seq<Payment>

    /** The keys of the tables, well-formed `friends` rows (no self rows,
        known statuses, fresh ids), and memberships that refer to existing
        groups. */
    ghost predicate Valid()
      reads this
    {
      && Profiles.IdsUnique(profiles)
      && Friends.WellFormed(friends, nextFriendId)
      && Groups.WellFormed(groups, members)
    }

    constructor ()
      ensures Valid()
      ensures profiles == [] && friends == [] && groups == [] && members == [] && payments == []
    {
      profiles, friends, nextFriendId := [], [], 1;
      groups, members, payments := [], [], [];
    }

    /** POST /signup. `signUp` is the identity provider's answer for the email
        and password; `profileError` is a failure of the profile insert. */
    method Signup(email: string, username: Option<string>, signUp: Auth.Lookup, profileError: Option<DbError>)
      returns (reply: Reply)
      requires Valid()
      modifies this`profiles
      ensures Valid()
      ensures signUp.error.Some? || signUp.user.None? ==>
        reply == Reply(400, ErrorText(signUp.error, "Signup failed.")) && reply.message != "" && profiles == old(profiles)
      ensures signUp.error.None? && signUp.user.Some? ==>
        var id := signUp.user.value.id;
        if Profiles.HasId(old(profiles), id) || profileError.Some? then
          reply == Reply(500, "Insert failed") && profiles == old(profiles)
        else
          reply == Reply(200, "User signed up and profile created!") &&
          profiles == old(profiles) + [Profile(id, Profiles.DefaultUsername(username, email), 0)]
    {
      if signUp.error.Some? || signUp.user.None? {
        return Reply(400, ErrorText(signUp.error, "Signup failed."));
      }
      var id := signUp.user.value.id;
      var insertError := if Profiles.HasId(profiles, id) then Some(DuplicateKey) else profileError;
      if insertError.Some? {
        return Reply(500, "Insert failed");
      }
      var row := Profile(id, Profiles.DefaultUsername(username, email), 0);
      Profiles.InsertKeepsIdsUnique(profiles, row);
      profiles := profiles + [row];
      reply := Reply(200, "User signed up and profile created!");
    }

    /** POST /friends/request from `sender` to the user named `username`.
        `lookupError`, `checkError` and `insertError` are failures of the
        profile lookup, of the duplicate check and of the insert. A failed
        duplicate check is ignored: the insert goes ahead. */
    method RequestFriend(sender: Id, username: string, lookupError: Option<DbError>,
                         checkError: Option<DbError>, insertError: Option<DbError>)
      returns (reply: Reply)
      requires Valid()
      modifies this`friends, this`nextFriendId
      ensures Valid()
      ensures reply.Reply? && reply.status != 200 ==> friends == old(friends) && nextFriendId == old(nextFriendId)
      ensures var target := Profiles.FindByUsername(profiles, username);
        if lookupError.Some? || target.None? then
          reply == Reply(404, "User not found.")
        else if target.value == sender then
          reply == Reply(400, "The ID is yourself!")
        else if checkError.None? && |Friends.Between(old(friends), sender, target.value)| == 1 then
          reply == Reply(409, "Already Friends")
        else if insertError.Some? then
          reply == Reply(500, insertError.value.message)
        else
          reply == Reply(200, "Friend request sent to " + username) &&
          friends == old(friends) + [Friendship(old(nextFriendId), sender, target.value, Friends.Pending)] &&
          nextFriendId == old(nextFriendId) + 1
      ensures checkError.None? && old(Friends.PairsUnique(friends)) ==> Friends.PairsUnique(friends)
    {
      var target := Profiles.FindByUsername(profiles, username);
      if lookupError.Some? || target.None? {
        return Reply(404, "User not found.");
      }
      var receiver := target.value;
      if receiver == sender {
        return Reply(400, "The ID is yourself!");
      }
      var existing := if checkError.Some? then [] else Friends.Between(friends, sender, receiver);
      if |existing| == 1 {
        return Reply(409, "Already Friends");
      }
      if insertError.Some? {
        return Reply(500, insertError.value.message);
      }
      Friends.RequestKeepsWellFormed(friends, nextFriendId, sender, receiver);
      if checkError.None? && Friends.PairsUnique(friends) {
        Friends.ExistingIffLinked(friends, sender, receiver);
        Friends.RequestKeepsPairsUnique(friends, nextFriendId, sender, receiver);
      }
      friends := friends + [Friendship(nextFriendId, sender, receiver, Friends.Pending)];
      nextFriendId := nextFriendId + 1;
      reply := Reply(200, "Friend request sent to " + username);
    }

    /** POST /friends/respond: `me` answers the pending request that
        `requester` sent. `findError` and `updateError` are failures of the
        lookup and of the update. */
    method RespondToRequest(me: Id, requester: Id, action: Option<string>,
                            findError: Option<DbError>, updateError: Option<DbError>)
      returns (reply: Reply)
      requires Valid()
      modifies this`friends
      ensures Valid()
      ensures reply.Reply? && reply.status != 200 ==> friends == old(friends)
      ensures if !(action == Some(Friends.Accept) || action == Some(Friends.Decline)) then
          reply == Reply(400, "Invalid action")
        else if findError.Some? || |Friends.PendingFrom(old(friends), requester, me)| != 1 then
          reply == Reply(404, "Friend request not found")
        else if updateError.Some? then
          reply == Reply(500, updateError.value.message)
        else
          reply == Reply(200, Friends.RespondMessage(action.value)) &&
          exists k :: 0 <= k < |old(friends)| && old(friends)[k].requester == requester &&
                      old(friends)[k].receiver == me && old(friends)[k].status == Friends.Pending &&
                      friends == old(friends)[k := old(friends)[k].(status := action.value)]
      ensures old(Friends.PairsUnique(friends)) ==> Friends.PairsUnique(friends)
    {
      if !(action == Some(Friends.Accept) || action == Some(Friends.Decline)) {
        return Reply(400, "Invalid action");
      }
      var found := Friends.PendingFrom(friends, requester, me);
      if findError.Some? || |found| != 1 {
        return Reply(404, "Friend request not found");
      }
      if updateError.Some? {
        return Reply(500, updateError.value.message);
      }
      var request := found[0];
      assert request in found;
      var k :| 0 <= k < |friends| && friends[k] == request;
      Friends.SetStatusChangesOneRow(friends, nextFriendId, k, action.value);
      Friends.RespondKeepsWellFormed(friends, nextFriendId, k, action.value);
      friends := Friends.SetStatus(friends, request.id, action.value);
      reply := Reply(200, Friends.RespondMessage(action.value));
    }

    /** GET /friends/list for `me`: the joined profile of the other party of
        each accepted row, null where that profile is missing. `queryError` is
        a failure of the query. */
    method ListFriends(me: Id, queryError: Option<DbError>) returns (reply: Reply, list: seq<Option<ProfileSummary>>)
      ensures queryError.Some? ==> reply == Reply(500, queryError.value.message) && list == []
      ensures queryError.None? ==>
        var ids := Friends.FriendIds(friends, me);
        && reply == Reply(200, "")
        && |list| == |ids|
        && forall i :: 0 <= i < |ids| ==> list[i] == Profiles.SummaryOf(profiles, ids[i])
    {
      if queryError.Some? {
        return Reply(500, queryError.value.message), [];
      }
      var ids, table := Friends.FriendIds(friends, me), profiles;
      list := seq(|ids|, i requires 0 <= i < |ids| => Profiles.SummaryOf(table, ids[i]));
      reply := Reply(200, "");
    }

    /** POST /groups/create by `creator`. `newId` is the id the database
        generates; `groupError` and `memberError` are failures of the two
        inserts. The group stays when the second insert fails. */
    method CreateGroup(creator: Id, name: Option<string>, newId: Id, groupError: Option<DbError>, memberError: Option<DbError>)
      returns (reply: Reply)
      requires Valid()
      modifies this`groups, this`members
      ensures Valid()
      ensures if !Truthy(name) then
          reply == Reply(400, "Group name is required") && groups == old(groups) && members == old(members)
        else if Groups.HasGroup(old(groups), newId) || groupError.Some? then
          reply == Reply(500, (if Groups.HasGroup(old(groups), newId) then DuplicateKey else groupError.value).message) &&
          groups == old(groups) && members == old(members)
        else
          groups == old(groups) + [Group(newId, name.value, creator)] &&
          if memberError.Some? then
            reply == Reply(500, "Group created, but failed to add creator as member.") && members == old(members)
          else
            reply == Reply(201, "Group created successfully") && members == old(members) + [Membership(newId, creator)]
    {
      if !Truthy(name) {
        return Reply(400, "Group name is required");
      }
      var insertError := if Groups.HasGroup(groups, newId) then Some(DuplicateKey) else groupError;
      if insertError.Some? {
        return Reply(500, insertError.value.message);
      }
      var group := Group(newId, name.value, creator);
      Groups.CreateKeepsWellFormed(groups, members, group);
      groups := groups + [group];
      if memberError.Some? {
        return Reply(500, "Group created, but failed to add creator as member.");
      }
      members := members + [Membership(newId, creator)];
      reply := Reply(201, "Group created successfully");
    }

    /** POST /groups/join by `userId`. `lookupError` is a failure of the group
        lookup; `insertError` is a failure of the insert other than the
        duplicate key, which the membership table's unique key raises itself. */
    method JoinGroup(userId: Id, groupId: Option<Id>, lookupError: Option<DbError>, insertError: Option<DbError>)
      returns (reply: Reply)
      requires Valid()
      modifies this`members
      ensures Valid()
      ensures reply.Reply? && reply.status != 200 ==> members == old(members)
      ensures if !Truthy(groupId) then
          reply == Reply(400, "Missing group ID")
        else if lookupError.Some? || !Groups.HasGroup(groups, groupId.value) then
          reply == Reply(404, "Group not found")
        else if Groups.IsMember(old(members), groupId.value, userId) then
          reply == Reply(409, "You are already a member of this group")
        else if insertError.Some? then
          reply == if insertError.value.code == UniqueViolation
                   then Reply(409, "You are already a member of this group")
                   else Reply(500, insertError.value.message)
        else
          reply == Reply(200, "Successfully joined the group") &&
          members == old(members) + [Membership(groupId.value, userId)]
    {
      if !Truthy(groupId) {
        return Reply(400, "Missing group ID");
      }
      var id := groupId.value;
      var found := Groups.WithId(groups, id);
      Groups.SingleIffExists(groups, id);
      if lookupError.Some? || |found| != 1 {
        return Reply(404, "Group not found");
      }
      var outcome := if Groups.IsMember(members, id, userId) then Some(DuplicateKey) else insertError;
      if outcome.Some? {
        if outcome.value.code == UniqueViolation {
          return Reply(409, "You are already a member of this group");
        }
        return Reply(500, outcome.value.message);
      }
      Groups.JoinKeepsWellFormed(groups, members, id, userId);
      members := members + [Membership(id, userId)];
      reply := Reply(200, "Successfully joined the group");
    }

    /** POST /stripe/webhook. `verified` is the outcome of the signature check:
        the event, or the error it threw. The check needs the raw request body,
        which the app-wide JSON parser consumes first as the app is wired; this
        method describes the handler as if the raw body arrived. `insertError`
        is a failure of the ledger insert, which is logged and otherwise ignored. */
    method Webhook(verified: Result<Ledger.Event, string>, insertError: Option<DbError>) returns (reply: Reply)
      requires Valid()
      modifies this`payments
      ensures Valid()
      ensures verified.Err? ==>
        reply == Reply(400, "Webhook Error: " + verified.error) && payments == old(payments)
      ensures verified.Ok? ==>
        reply == Reply(200, "received") &&
        payments == Ledger.Reconcile(old(payments), verified.value, insertError)
      ensures verified.Ok? && verified.value.kind == Ledger.CheckoutCompleted && insertError.None? ==>
        payments == old(payments) + [Payment(verified.value.session.groupId, verified.value.session.userId,
                                             verified.value.session.amountTotal as real / 100.0)]
      ensures !(verified.Ok? && verified.value.kind == Ledger.CheckoutCompleted && insertError.None?) ==>
        payments == old(payments)
    {
      if verified.Err? {
        return Reply(400, "Webhook Error: " + verified.error);
      }
      var event := verified.value;
      if event.kind == Ledger.CheckoutCompleted {
        var session := event.session;
        var amount := Ledger.Dollars(session.amountTotal);
        if insertError.None? {
          payments := payments + [Payment(session.groupId, session.userId, amount)];
        }
      }
      reply := Reply(200, "received");
    }

    /** GET /groups/:groupId/total. `queryError` is a failure of the query. */
    method Total(groupId: Id, queryError: Option<DbError>) returns (reply: Reply, total: real)
      ensures queryError.Some? ==> reply == Reply(500, queryError.value.message)
      ensures queryError.None? ==> reply == Reply(200, "") && total == Ledger.GroupTotal(payments, groupId)
    {
      if queryError.Some? {
        return Reply(500, queryError.value.message), 0.0;
      }
      total := Ledger.GroupTotal(payments, groupId);
      reply := Reply(200, "");
    }

    /** GET /groups/:groupId/contributions. `queryError` is a failure of the
        query. When a row's user has no profile the handler throws and never
        answers. */
    method Contributions(groupId: Id, queryError: Option<DbError>)
      returns (reply: Reply, contributions: map<Id, Ledger.Contribution>)
      ensures queryError.Some? ==> reply == Reply(500, queryError.value.message)
      ensures queryError.None? ==>
        var rows := Ledger.PaymentsFor(payments, groupId);
        if exists p :: p in rows && !Profiles.HasId(profiles, p.userId) then
          reply == NoReply
        else
          && reply == Reply(200, "")
          && contributions.Keys == Ledger.UserIds(rows)
          && forall u :: u in contributions ==>
               && contributions[u].total == Ledger.UserSum(rows, u)
               && Profiles.ProfileOf(profiles, u).Some?
               && contributions[u].username == Profiles.ProfileOf(profiles, u).value.username
    {
      if queryError.Some? {
        return Reply(500, queryError.value.message), map[];
      }
      var rows := Ledger.PaymentsFor(payments, groupId);
      var complete;
      complete, contributions := Ledger.Aggregate(rows, profiles);
      reply := if complete then Reply(200, "") else NoReply;
    }
  }
}

/** The `groups` and `group_members` tables and the constraints the create and
    join handlers rely on: group ids are a primary key, a membership pair is
    unique, and memberships refer to existing groups. */
module Groups {
  import opened Tables

  predicate HasGroup(groups: seq<Group>, id: Id) {
    exists g :: g in groups && g.id == id
  }

  /** Groups whose id is `id`: the `.eq('id', id)` filter of the join handler. */
  function WithId(groups: seq<Group>, id: Id): (r: seq<Group>)
    ensures |r| <= |groups|
    ensures forall g :: g in r <==> g in groups && g.id == id
    ensures !HasGroup(groups, id) ==> r == []
  {
    if groups == [] then []
    else (if groups[0].id == id then [groups[0]] else []) + WithId(groups[1..], id)
  }

  predicate IsMember(members: seq<Membership>, groupId: Id, userId: Id) {
    Membership(groupId, userId) in members
  }

  /** `groups.id` is the table's primary key. */
  ghost predicate IdsUnique(groups: seq<Group>) {
    forall i, j :: 0 <= i < j < |groups| ==> groups[i].id != groups[j].id
  }

  /** The unique key on `group_members (group_id, user_id)`. */
  ghost predicate MembershipsUnique(members: seq<Membership>) {
    forall i, j :: 0 <= i < j < |members| ==> members[i] != members[j]
  }

  /** Every membership names a group that exists. */
  ghost predicate MembersOfKnownGroups(groups: seq<Group>, members: seq<Membership>) {
    forall m :: m in members ==> HasGroup(groups, m.groupId)
  }

  ghost predicate WellFormed(groups: seq<Group>, members: seq<Membership>) {
    IdsUnique(groups) && MembershipsUnique(members) && MembersOfKnownGroups(groups, members)
  }

  /** With unique ids, `.single()` finds a group exactly when one exists. */
  lemma {:induction false} SingleIffExists(groups: seq<Group>, id: Id)
    requires IdsUnique(groups)
    ensures |WithId(groups, id)| == 1 <==> HasGroup(groups, id)
  {
    if groups != [] {
      var rest := groups[1..];
      assert IdsUnique(rest) by {
        forall i, j | 0 <= i < j < |rest| ensures rest[i].id != rest[j].id {
          assert rest[i] == groups[i + 1] && rest[j] == groups[j + 1];
        }
      }
      SingleIffExists(rest, id);
      if groups[0].id == id {
        assert !HasGroup(rest, id) by {
          forall g | g in rest ensures g.id != id {
            var j :| 0 <= j < |rest| && rest[j] == g;
            assert groups[j + 1] == g;
          }
        }
      } else {
        assert HasGroup(groups, id) ==> HasGroup(rest, id) by {
          if HasGroup(groups, id) {
            var g :| g in groups && g.id == id;
            var j :| 0 <= j < |groups| && groups[j] == g;
            assert j > 0 && rest[j - 1] == g;
          }
        }
      }
    }
  }

  /** Joining an existing group one is not yet a member of keeps every constraint. */
  lemma JoinKeepsWellFormed(groups: seq<Group>, members: seq<Membership>, groupId: Id, userId: Id)
    requires WellFormed(groups, members)
    requires HasGroup(groups, groupId) && !IsMember(members, groupId, userId)
    ensures WellFormed(groups, members + [Membership(groupId, userId)])
  {
    var s := members + [Membership(groupId, userId)];
    forall i, j | 0 <= i < j < |s| ensures s[i] != s[j] {
      if j == |members| { assert s[i] in members; }
    }
  }

  /** A new group under a fresh id has no members yet, and adding its creator
      as the first member keeps every constraint. */
  lemma CreateKeepsWellFormed(groups: seq<Group>, members: seq<Membership>, group: Group)
    requires WellFormed(groups, members) && !HasGroup(groups, group.id)
    ensures WellFormed(groups + [group], members)
    ensures !IsMember(members, group.id, group.creator)
    ensures WellFormed(groups + [group], members + [Membership(group.id, group.creator)])
  {
    var gs := groups + [group];
    forall i, j | 0 <= i < j < |gs| ensures gs[i].id != gs[j].id {
      if j == |groups| { assert gs[i] in groups; }
    }
    forall m | m in members ensures HasGroup(gs, m.groupId) {
      var g :| g in groups && g.id == m.groupId;
      assert g in gs;
    }
    assert group in gs;
    JoinKeepsWellFormed(gs, members, group.id, group.creator);
  }
}

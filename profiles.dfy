/** The `profile` table: the username a signup falls back to, and the lookups
    other handlers make into the table (by username, and by id for joins). */
module Profiles {
  import opened Tables

  /** `email.split('@')[0]`: the email up to, not including, its first '@'
      (the whole email when it has none). */
  function LocalPart(email: string): (r: string)
    ensures r <= email
    ensures '@' !in r
    ensures |r| < |email| ==> email[|r|] == '@'
  {
    if email == [] || email[0] == '@' then [] else [email[0]] + LocalPart(email[1..])
  }

  /** The three facts LocalPart ensures pin it down: any prefix free of '@'
      that ends at an '@' or at the end of the email is the local part. */
  lemma {:induction false} LocalPartUnique(email: string, p: string)
    requires p <= email && '@' !in p
    requires |p| < |email| ==> email[|p|] == '@'
    ensures LocalPart(email) == p
  {
    if email != [] && email[0] != '@' {
      assert p != [];
      assert p[0] == email[0];
      assert p[1..] <= email[1..];
      assert '@' !in p[1..];
      LocalPartUnique(email[1..], p[1..]);
      assert [p[0]] + p[1..] == p;
    }
  }

  /** For an address "local@domain" whose local part has no '@', the default
      username is that local part. */
  lemma LocalPartOfAddress(local: string, domain: string)
    requires '@' !in local
    ensures LocalPart(local + "@" + domain) == local
  {
    var email := local + "@" + domain;
    assert email[|local|] == '@';
    assert local <= email;
    LocalPartUnique(email, local);
  }

  /** `username || email.split('@')[0]`: the username given at signup, or,
      when none or an empty one is given, the email's local part. */
  function DefaultUsername(username: Option<string>, email: string): (r: string)
    ensures Truthy(username) ==> r == username.value
    ensures !Truthy(username) ==> r <= email && '@' !in r && (|r| < |email| ==> email[|r|] == '@')
  {
    if Truthy(username) then username.value else LocalPart(email)
  }

  /** Profiles whose username is `name`: the `.eq('username', name)` filter. */
  function Named(profiles: seq<Profile>, name: string): (r: seq<Profile>)
    ensures |r| <= |profiles|
    ensures forall p :: p in r <==> p in profiles && p.username == name
  {
    if profiles == [] then []
    else (if profiles[0].username == name then [profiles[0]] else []) + Named(profiles[1..], name)
  }

  /** The id of the one profile named `name`; `.single()` reports an error,
      and the handler "not found", when no profile or several share the name. */
  function FindByUsername(profiles: seq<Profile>, name: string): (r: Option<Id>)
    ensures r.Some? ==> exists p :: p in profiles && p.username == name && p.id == r.value
    ensures r.Some? ==> forall p, q :: p in profiles && q in profiles && p.username == name && q.username == name ==> p == q
    ensures (exists p :: p in profiles && p.username == name) && r.None? ==> |Named(profiles, name)| > 1
  {
    var rows := Named(profiles, name);
    if |rows| == 1 then
      assert rows[0] in rows;
      assert forall p :: p in rows ==> p == rows[0];
      Some(rows[0].id)
    else if |rows| == 0 then
      assert forall p :: p in profiles && p.username == name ==> p in rows;
      None
    else
      assert rows[0] in rows && rows[1] in rows;
      None
  }

  /** `profile.id` is the table's primary key. */
  ghost predicate IdsUnique(profiles: seq<Profile>) {
    forall i, j :: 0 <= i < j < |profiles| ==> profiles[i].id != profiles[j].id
  }

  predicate HasId(profiles: seq<Profile>, id: Id) {
    exists p :: p in profiles && p.id == id
  }

  /** The profile joined in for a user id (a foreign-key embed): the row with
      that id, or null when there is none. */
  function ProfileOf(profiles: seq<Profile>, id: Id): (r: Option<Profile>)
    ensures r.Some? <==> HasId(profiles, id)
    ensures r.Some? ==> r.value in profiles && r.value.id == id
  {
    if profiles == [] then None
    else if profiles[0].id == id then Some(profiles[0])
    else ProfileOf(profiles[1..], id)
  }

  /** The username and session hours joined in for a user id, or null. */
  function SummaryOf(profiles: seq<Profile>, id: Id): (r: Option<ProfileSummary>)
    ensures r.Some? <==> HasId(profiles, id)
    ensures r.Some? ==> exists p :: p in profiles && p.id == id && r.value == ProfileSummary(p.username, p.sessionHours)
  {
    match ProfileOf(profiles, id)
    case None => None
    case Some(p) => Some(ProfileSummary(p.username, p.sessionHours))
  }

  /** Inserting a profile under a new id keeps the primary key unique. */
  lemma InsertKeepsIdsUnique(profiles: seq<Profile>, p: Profile)
    requires IdsUnique(profiles) && !HasId(profiles, p.id)
    ensures IdsUnique(profiles + [p])
  {
    var s := profiles + [p];
    forall i, j | 0 <= i < j < |s| ensures s[i].id != s[j].id {
      if j == |profiles| { assert s[i] in profiles; }
    }
  }
}

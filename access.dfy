/** Sessions, organization memberships and the admin guard of app/actions.ts:
    `requireAdmin`, the e-mail normalisation of invitations and the rows
    `claimInvites` attaches to a signed-in user. */
module Access {
  import opened Common
  import opened Text

  const NotSignedIn := "Ej inloggad"
  const NoPermission := "Behörighet saknas eller hittade inte medlemskap"

  datatype User = User(id: string, email: string)

  /** The auth store of the request: no valid session, or the signed-in user. */
  datatype Session = Anonymous | SignedIn(user: User)

  datatype Role = Owner | Admin | Member

  /** A row of `organization_members`. An invitation has `userId == ""` until
      it is claimed. */
  datatype Membership = Membership(id: Id, orgId: Id, userId: string, email: string, role: Role)

  predicate IsAdminRole(role: Role)
  {
    role == Admin || role == Owner
  }

  /** `getFirstListItem('org_id=... && user_id=...')`: the first row for the
      organization and user, if any. */
  function FirstMembership(members: seq<Membership>, orgId: Id, userId: string): (r: Option<Membership>)
    ensures r.Some? ==> r.value in members && r.value.orgId == orgId && r.value.userId == userId
    ensures r.None? ==> forall m :: m in members ==> !(m.orgId == orgId && m.userId == userId)
  {
    if members == [] then None
    else if members[0].orgId == orgId && members[0].userId == userId then Some(members[0])
    else FirstMembership(members[1..], orgId, userId)
  }

  /** A row for an organization that has no other rows is the first one. */
  lemma FirstOfNewOrganization(members: seq<Membership>, row: Membership)
    requires forall m :: m in members ==> m.orgId != row.orgId
    ensures FirstMembership(members + [row], row.orgId, row.userId) == Some(row)
  {
    assert row in members + [row];
    var first := FirstMembership(members + [row], row.orgId, row.userId);
    assert first.value in members || first.value == row;
  }

  /** `requireAdmin(orgId)`: the signed-in user when their membership row for
      the organization has role admin or owner; otherwise an exception. Both
      "no such row" and "row with another role" end in the same message,
      because the guard's own catch replaces the inner one. */
  function RequireAdmin(session: Session, members: seq<Membership>, orgId: Id): (r: Outcome<User>)
    ensures session.Anonymous? ==> r == Fail(Raised(NotSignedIn))
    ensures session.SignedIn? && r.Fail? ==> r == Fail(Raised(NoPermission))
    ensures r.Ok? ==> session.SignedIn? && r.value == session.user
    ensures r.Ok? <==> session.SignedIn? &&
                       FirstMembership(members, orgId, session.user.id).Some? &&
                       IsAdminRole(FirstMembership(members, orgId, session.user.id).value.role)
  {
    match session
    case Anonymous => Fail(Raised(NotSignedIn))
    case SignedIn(user) =>
      match FirstMembership(members, orgId, user.id)
      case None => Fail(Raised(NoPermission))
      case Some(m) => if IsAdminRole(m.role) then Ok(user) else Fail(Raised(NoPermission))
  }

  /** A user whose only rows for the organization have role member is refused. */
  lemma MemberIsRefused(user: User, members: seq<Membership>, orgId: Id)
    requires forall m :: m in members && m.orgId == orgId && m.userId == user.id ==> m.role == Member
    ensures RequireAdmin(SignedIn(user), members, orgId) == Fail(Raised(NoPermission))
  {
  }

  /** A user with a row for the organization, all of whose rows there are
      admin or owner, passes the guard. */
  lemma AdminIsAdmitted(user: User, members: seq<Membership>, orgId: Id, row: Membership)
    requires row in members && row.orgId == orgId && row.userId == user.id
    requires forall m :: m in members && m.orgId == orgId && m.userId == user.id ==> IsAdminRole(m.role)
    ensures RequireAdmin(SignedIn(user), members, orgId) == Ok(user)
  {
  }

  /** `email.toLowerCase().trim()` as inviteMember and
      approveMembershipApplication store it. */
  function NormalizeEmail(email: string): (e: string)
    ensures e != [] ==> !IsSpace(e[0]) && !IsSpace(e[|e| - 1])
  {
    Trim(Lowercase(email))
  }

  /** A normalised address has no upper-case letter. */
  lemma NormalizedIsLower(email: string)
    ensures var e := NormalizeEmail(email); forall i :: 0 <= i < |e| ==> LowerChar(e[i]) == e[i]
  {
    var lowered := Lowercase(email);
    var e := Trim(lowered);
    TrimIsSlice(lowered);
    var k := |lowered| - |TrimStart(lowered)|;
    forall i | 0 <= i < |e| ensures LowerChar(e[i]) == e[i] {
      assert e[i] == lowered[k + i];
      LowerCharIdempotent(email[k + i]);
    }
  }

  lemma NormalizeEmailIdempotent(email: string)
    ensures NormalizeEmail(NormalizeEmail(email)) == NormalizeEmail(email)
  {
    var e := NormalizeEmail(email);
    NormalizedIsLower(email);
    assert Lowercase(e) == e;
    TrimIdempotent(Lowercase(email));
  }

  /** A row claimInvites attaches: an invitation for the (lower-cased) e-mail
      that no user has claimed. */
  predicate Pending(m: Membership, email: string)
  {
    m.email == email && m.userId == ""
  }

  /** The ids `getFullList({ filter: email=... && user_id="" })` returns. */
  function PendingIds(members: seq<Membership>, email: string): (ids: seq<Id>)
    ensures forall x :: x in ids <==> exists m :: m in members && Pending(m, email) && m.id == x
  {
    if members == [] then []
    else
      var rest := PendingIds(members[1..], email);
      assert forall m :: m in members[1..] ==> m in members;
      assert forall m :: m in members ==> m == members[0] || m in members[1..];
      if Pending(members[0], email) then [members[0].id] + rest else rest
  }

  /** The store after claimInvites: every pending row for the e-mail carries
      the user id, every other row is as it was. */
  function Claimed(members: seq<Membership>, email: string, userId: string): (r: seq<Membership>)
    ensures |r| == |members|
    ensures forall i :: 0 <= i < |members| ==>
              r[i] == if Pending(members[i], email) then members[i].(userId := userId) else members[i]
  {
    seq(|members|, i requires 0 <= i < |members| =>
      if Pending(members[i], email) then members[i].(userId := userId) else members[i])
  }

  /** Claiming with a real user id leaves nothing to claim, so a second claim
      changes nothing. */
  lemma ClaimIsFinal(members: seq<Membership>, email: string, userId: string)
    requires userId != ""
    ensures forall m :: m in Claimed(members, email, userId) ==> !Pending(m, email)
    ensures Claimed(Claimed(members, email, userId), email, userId) == Claimed(members, email, userId)
  {
  }

  /** An invitation to an address, claimed by a user whose e-mail lower-cases
      to the normalised address, gives that user admin access, provided
      none of the user's other rows for the organization demotes them. */
  lemma ClaimedInviteGrantsAccess(members: seq<Membership>, orgId: Id, user: User, invited: string, k: nat)
    requires user.id != ""
    requires k < |members| && members[k] == Membership(members[k].id, orgId, "", NormalizeEmail(invited), Admin)
    requires Lowercase(user.email) == NormalizeEmail(invited)
    requires forall m :: m in members && m.orgId == orgId && m.userId == user.id ==> IsAdminRole(m.role)
    requires forall m :: m in members && m.orgId == orgId && Pending(m, Lowercase(user.email)) ==> IsAdminRole(m.role)
    ensures RequireAdmin(SignedIn(user), Claimed(members, Lowercase(user.email), user.id), orgId) == Ok(user)
  {
    var email := Lowercase(user.email);
    var after := Claimed(members, email, user.id);
    assert Pending(members[k], email);
    assert after[k] == members[k].(userId := user.id);
    assert after[k] in after;
    forall m | m in after && m.orgId == orgId && m.userId == user.id ensures IsAdminRole(m.role) {
      var i :| 0 <= i < |after| && after[i] == m;
      var row := members[i];
      assert row in members && m.role == row.role && row.orgId == orgId;
      assert row.userId == user.id || Pending(row, email);
    }
    AdminIsAdmitted(user, after, orgId, after[k]);
  }
}

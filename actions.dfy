/** The server actions of app/actions.ts that carry business rules, as
    methods of an in-memory store whose `seq` fields stand for the PocketBase
    collections. Record ids come from a counter; the signed-in user of the
    request is the `session` parameter. */
module Actions {
  import opened Common
  import opened Text
  import opened OrgRules
  import opened Access
  import opened Bookings
  import opened Rows

  const MustSignIn := "Du måste vara inloggad."
  const SubdomainTaken := "Adressen är upptagen."
  const AlreadyInvited := "Kunde inte bjuda in, kanske redan inbjuden?"
  const OwnerProtected := "Du kan inte ta bort ägaren av föreningen."

  /** The row is the owner's own membership of its organization. */
  predicate OwnerRow(orgs: seq<Organization>, m: Membership)
  {
    OrgIndex(orgs, m.orgId).Some? && m.userId == orgs[OrgIndex(orgs, m.orgId).value].ownerId
  }

  /** The membership rows after an approval: an invitation-free member row
      for the normalised address, unless the e-mail is empty or the
      organization already has a row for it. */
  function AfterApproval(members: seq<Membership>, id: Id, orgId: Id, email: string): (r: seq<Membership>)
    ensures email != "" ==> Invited(r, orgId, NormalizeEmail(email))
    ensures r == members || r == members + [Membership(id, orgId, "", NormalizeEmail(email), Member)]
    ensures r != members <==> email != "" && !Invited(members, orgId, NormalizeEmail(email))
  {
    var e := NormalizeEmail(email);
    if email != "" && !Invited(members, orgId, e) then
      var r := members + [Membership(id, orgId, "", e, Member)];
      assert r[|members|] in r;
      r
    else members
  }

  /** What createOrganization answers before it writes: an error, or the
      subdomain the new organization gets. */
  function CreationCheck(session: Session, orgs: seq<Organization>, name: string, subdomainField: string)
    : (r: Outcome<string>)
    ensures session.Anonymous? ==> r == Fail(Reported(MustSignIn))
    ensures session.SignedIn? && SubdomainFor(subdomainField, name).Fail? ==>
              r == Fail(Reported(SubdomainTooShort))
    ensures r.Ok? <==> session.SignedIn? && SubdomainFor(subdomainField, name).Ok? &&
                       SubdomainIndex(orgs, SubdomainFor(subdomainField, name).value).None?
    ensures r.Fail? && session.SignedIn? && SubdomainFor(subdomainField, name).Ok? ==>
              r == Fail(Reported(SubdomainTaken))
    ensures r.Ok? ==> r.value == SubdomainFor(subdomainField, name).value
    ensures r.Ok? ==> |r.value| >= 3 && IsSubdomainSlug(r.value) && forall o :: o in orgs ==> o.subdomain != r.value
  {
    if session.Anonymous? then Fail(Reported(MustSignIn))
    else
      var sub := SubdomainFor(subdomainField, name);
      if sub.Fail? then sub
      else if SubdomainIndex(orgs, sub.value).Some? then Fail(Reported(SubdomainTaken))
      else sub
  }

  /** The row createOrganization stores: the owner, the type's initial
      configuration, no storage used and a 100 MB limit. */
  function NewOrganization(id: Id, name: string, subdomain: string, orgType: string, owner: User): Organization
  {
    Organization(id, name, subdomain, orgType, owner.id, InitialConfig(orgType), Some(0), Some(InitialStorageLimit))
  }

  class Store {
    var organizations: seq<Organization>
    var members: seq<Membership>
    var bookings: seq<Booking>
    var pages: seq<CustomPage>
    var sponsors: seq<Sponsor>
    var submissions: seq<Submission>
    /** The next record id to hand out. */
    var nextId: nat

    /** Every id is below the counter, subdomains are unique, membership
        rows are keyed, submission ids are distinct and no two bookings of a
        resource overlap. */
    predicate Valid()
      reads this
    {
      (forall o :: o in organizations ==> o.id < nextId) &&
      (forall m :: m in members ==> m.id < nextId && m.orgId < nextId) &&
      (forall b :: b in bookings ==> b.id < nextId) &&
      (forall p :: p in pages ==> p.id < nextId) &&
      (forall s :: s in sponsors ==> s.id < nextId) &&
      (forall s :: s in submissions ==> s.id < nextId) &&
      DistinctSubdomains(organizations) &&
      WellKeyed(members) && DistinctIds(submissions) && NoOverlap(bookings)
    }

    constructor ()
      ensures Valid()
      ensures organizations == [] && members == [] && bookings == [] && pages == []
      ensures sponsors == [] && submissions == [] && nextId == 0
    {
      organizations, members, bookings, pages, sponsors, submissions := [], [], [], [], [], [];
      nextId := 0;
    }

    /** `createOrganization`: a signed-in user creates an organization under a
        free subdomain and becomes its owner. */
    method CreateOrganization(session: Session, name: string, orgType: string, subdomainField: string)
      returns (r: Outcome<string>)
      requires Valid()
      modifies this
      ensures Valid()
      ensures r == CreationCheck(session, old(organizations), name, subdomainField)
      ensures r.Fail? ==> unchanged(this)
      ensures r.Ok? ==> Registered(old(organizations), old(members), old(nextId), NewOrganization(old(nextId), name, r.value, orgType, session.user), session.user)
      ensures bookings == old(bookings) && pages == old(pages)
      ensures sponsors == old(sponsors) && submissions == old(submissions)
    {
      r := CreationCheck(session, organizations, name, subdomainField);
      if r.Ok? {
        Register(NewOrganization(nextId, name, r.value, orgType, session.user), session.user);
      }
    }

    /** The new organization and its owner row are appended under the next
        two ids, and the owner passes the admin guard. */
    predicate Registered(orgs0: seq<Organization>, members0: seq<Membership>, id: Id, org: Organization, owner: User)
      reads this
    {
      && organizations == orgs0 + [org]
      && members == members0 + [Membership(id + 1, id, owner.id, owner.email, Owner)]
      && nextId == id + 2
      && RequireAdmin(SignedIn(owner), members, id) == Ok(owner)
    }

    /** Stores a new organization under the next id and its owner's
        membership row under the id after it. */
    method Register(org: Organization, owner: User)
      requires Valid()
      requires org.id == nextId && SubdomainIndex(organizations, org.subdomain).None?
      modifies this
      ensures Valid()
      ensures Registered(old(organizations), old(members), old(nextId), org, owner)
      ensures bookings == old(bookings) && pages == old(pages)
      ensures sponsors == old(sponsors) && submissions == old(submissions)
    {
      var row := Membership(org.id + 1, org.id, owner.id, owner.email, Owner);
      assert forall m :: m in members + [row] ==> m.id < nextId + 2 && m.orgId < nextId + 2;
      assert forall o :: o in organizations + [org] ==> o.id < nextId + 2;
      AppendKeepsSubdomains(organizations, org);
      AppendKeepsKeys(members, row);
      FirstOfNewOrganization(members, row);
      organizations := organizations + [org];
      members := members + [row];
      nextId := nextId + 2;
    }

    /** `updateModuleStatus`: an admin switches one module flag of the
        organization with the subdomain. */
    method UpdateModuleStatus(session: Session, subdomain: string, key: string, value: bool) returns (r: Outcome<()>)
      requires Valid()
      modifies this
      ensures Valid()
      ensures r.Fail? ==> unchanged(this)
      ensures SubdomainIndex(old(organizations), subdomain).None? ==> r == Fail(NotFound)
      ensures SubdomainIndex(old(organizations), subdomain).Some? ==>
                var k := SubdomainIndex(old(organizations), subdomain).value;
                var org := old(organizations)[k];
                && (RequireAdmin(session, members, org.id).Fail? ==> r == Fail(RequireAdmin(session, members, org.id).failure))
                && (RequireAdmin(session, members, org.id).Ok? ==>
                      r == Ok(()) &&
                      organizations == old(organizations)[k := org.(config := ToggleModule(org.config, key, value))])
      ensures members == old(members) && bookings == old(bookings) && pages == old(pages)
      ensures sponsors == old(sponsors) && submissions == old(submissions) && nextId == old(nextId)
    {
      var k := SubdomainIndex(organizations, subdomain);
      if k.None? {
        return Fail(NotFound);
      }
      var org := organizations[k.value];
      var guard := RequireAdmin(session, members, org.id);
      if guard.Fail? {
        return Fail(guard.failure);
      }
      UpdateKeepsOrgKeys(organizations, k.value, org.(config := ToggleModule(org.config, key, value)), nextId);
      organizations := organizations[k.value := org.(config := ToggleModule(org.config, key, value))];
      r := Ok(());
    }

    /** `checkStorageQuota`: whether an upload of `size` bytes fits. */
    method CheckStorageQuota(orgId: Id, size: int) returns (r: Outcome<QuotaVerdict>)
      ensures OrgIndex(organizations, orgId).None? ==> r == Fail(NotFound)
      ensures OrgIndex(organizations, orgId).Some? ==>
                var org := organizations[OrgIndex(organizations, orgId).value];
                && r.Ok?
                && (r.value == Allowed <==> OrZero(org.storageUsed) + size <= OrZero(org.storageLimit))
                && (r.value.Denied? ==> r.value.message == StorageFull)
    {
      var k := OrgIndex(organizations, orgId);
      if k.None? {
        return Fail(NotFound);
      }
      var org := organizations[k.value];
      r := Ok(QuotaCheck(org.storageUsed, org.storageLimit, size));
    }

    /** `updateStorageUsage`: adds `size` to the organization's usage and
        changes nothing else. There is no permission check. */
    method UpdateStorageUsage(orgId: Id, size: int) returns (r: Outcome<()>)
      requires Valid()
      modifies this
      ensures Valid()
      ensures OrgIndex(old(organizations), orgId).None? ==> r == Fail(NotFound) && unchanged(this)
      ensures OrgIndex(old(organizations), orgId).Some? ==>
                var k := OrgIndex(old(organizations), orgId).value;
                var org := old(organizations)[k];
                && r == Ok(())
                && |organizations| == |old(organizations)|
                && organizations[k] == org.(storageUsed := Some(UsageAfter(org.storageUsed, size)))
                && OrZero(organizations[k].storageUsed) == OrZero(org.storageUsed) + size
                && (forall i :: 0 <= i < |organizations| && i != k ==> organizations[i] == old(organizations)[i])
      ensures members == old(members) && bookings == old(bookings) && pages == old(pages)
      ensures sponsors == old(sponsors) && submissions == old(submissions) && nextId == old(nextId)
    {
      var k := OrgIndex(organizations, orgId);
      if k.None? {
        return Fail(NotFound);
      }
      var org := organizations[k.value];
      UpdateKeepsOrgKeys(organizations, k.value, org.(storageUsed := Some(UsageAfter(org.storageUsed, size))), nextId);
      organizations := organizations[k.value := org.(storageUsed := Some(UsageAfter(org.storageUsed, size)))];
      r := Ok(());
    }

    /** Appends a membership row with a fresh id for an organization that
        already has rows, and no row for the address. */
    method AddMember(orgId: Id, email: string, role: Role)
      requires Valid()
      requires exists m :: m in members && m.orgId == orgId
      requires !Invited(members, orgId, email)
      modifies this
      ensures Valid()
      ensures members == old(members) + [Membership(old(nextId), orgId, "", email, role)]
      ensures nextId == old(nextId) + 1
      ensures organizations == old(organizations) && bookings == old(bookings) && pages == old(pages)
      ensures sponsors == old(sponsors) && submissions == old(submissions)
    {
      var row := Membership(nextId, orgId, "", email, role);
      AppendKeepsKeys(members, row);
      members := members + [row];
      nextId := nextId + 1;
    }

    /** `inviteMember`: an admin invites an address as admin; the address
        is lower-cased and trimmed, and a second invitation is an error. */
    method InviteMember(session: Session, orgId: Id, email: string) returns (r: Outcome<()>)
      requires Valid()
      modifies this
      ensures Valid()
      ensures r.Fail? ==> unchanged(this)
      ensures RequireAdmin(session, old(members), orgId).Fail? ==> r == Fail(RequireAdmin(session, old(members), orgId).failure)
      ensures RequireAdmin(session, old(members), orgId).Ok? && Invited(old(members), orgId, NormalizeEmail(email)) ==>
                r == Fail(Raised(AlreadyInvited))
      ensures r.Ok? <==> RequireAdmin(session, old(members), orgId).Ok? && !Invited(old(members), orgId, NormalizeEmail(email))
      ensures r.Ok? ==>
                && members == old(members) + [Membership(old(nextId), orgId, "", NormalizeEmail(email), Admin)]
                && nextId == old(nextId) + 1
                && organizations == old(organizations) && bookings == old(bookings) && pages == old(pages)
                && sponsors == old(sponsors) && submissions == old(submissions)
    {
      var guard := RequireAdmin(session, members, orgId);
      if guard.Fail? {
        return Fail(guard.failure);
      }
      var e := NormalizeEmail(email);
      if Invited(members, orgId, e) {
        return Fail(Raised(AlreadyInvited));
      }
      assert FirstMembership(members, orgId, session.user.id).value in members;
      AddMember(orgId, e, Admin);
      r := Ok(());
    }

    /** `removeMember`: an admin removes a membership row; the owner's own
        row cannot be removed, and a row whose organization is gone is left
        alone. */
    method RemoveMember(session: Session, memberId: Id) returns (r: Outcome<()>)
      requires Valid()
      modifies this
      ensures Valid()
      ensures MemberIndex(old(members), memberId).None? ==> r == Fail(NotFound) && unchanged(this)
      ensures MemberIndex(old(members), memberId).Some? ==>
                var m := old(members)[MemberIndex(old(members), memberId).value];
                var j := OrgIndex(organizations, m.orgId);
                && (j.None? ==> r == Ok(()) && unchanged(this))
                && (j.Some? && RequireAdmin(session, old(members), organizations[j.value].id).Fail? ==>
                      r == Fail(RequireAdmin(session, old(members), organizations[j.value].id).failure) && unchanged(this))
                && (j.Some? && RequireAdmin(session, old(members), organizations[j.value].id).Ok? ==>
                      (m.userId == organizations[j.value].ownerId ==> r == Fail(Raised(OwnerProtected)) && unchanged(this)) &&
                      (m.userId != organizations[j.value].ownerId ==> r == Ok(()) && members == Dismiss(old(members), memberId)))
      ensures forall x :: x in old(members) && OwnerRow(organizations, x) ==> x in members
      ensures forall x :: x in old(members) && x.id != memberId ==> x in members
      ensures organizations == old(organizations) && bookings == old(bookings) && pages == old(pages)
      ensures sponsors == old(sponsors) && submissions == old(submissions) && nextId == old(nextId)
    {
      var k := MemberIndex(members, memberId);
      if k.None? {
        return Fail(NotFound);
      }
      var m := members[k.value];
      var j := OrgIndex(organizations, m.orgId);
      if j.None? {
        return Ok(());
      }
      var org := organizations[j.value];
      var guard := RequireAdmin(session, members, org.id);
      if guard.Fail? {
        return Fail(guard.failure);
      }
      if m.userId == org.ownerId {
        return Fail(Raised(OwnerProtected));
      }
      var before := members;
      DismissKeepsKeys(members, memberId);
      members := Dismiss(members, memberId);
      forall x | x in before && OwnerRow(organizations, x) ensures x.id != memberId {
        var i :| 0 <= i < |before| && before[i] == x;
        assert before[k.value] == m;
      }
      r := Ok(());
    }

    /** `claimInvites`: every invitation for the signed-in user's lower-cased
        address that no one has claimed gets the user's id. */
    method ClaimInvites(session: Session)
      requires Valid()
      modifies this
      ensures Valid()
      ensures session.Anonymous? ==> unchanged(this)
      ensures session.SignedIn? ==> members == Claimed(old(members), Lowercase(session.user.email), session.user.id)
      ensures organizations == old(organizations) && bookings == old(bookings) && pages == old(pages)
      ensures sponsors == old(sponsors) && submissions == old(submissions) && nextId == old(nextId)
    {
      if session.Anonymous? {
        return;
      }
      var user := session.user;
      var email := Lowercase(user.email);
      var start := members;
      var invites := PendingIds(start, email);
      WithUsersKeepsKeys(start, invites, user.id);
      UpdatingPendingClaims(start, email, user.id);
      assert invites[..0] == [];
      var i := 0;
      while i < |invites|
        invariant 0 <= i <= |invites|
        invariant members == WithUsers(start, invites[..i], user.id)
        invariant organizations == old(organizations) && bookings == old(bookings) && pages == old(pages)
        invariant sponsors == old(sponsors) && submissions == old(submissions) && nextId == old(nextId)
      {
        assert invites[..i + 1] == invites[..i] + [invites[i]];
        WithUsersStep(start, invites[..i], invites[i], user.id);
        members := WithUser(members, invites[i], user.id);
        i := i + 1;
      }
      assert invites[..i] == invites;
    }

    /** `createBooking`: books a slot of a resource for anyone who fills in
        the form, unless it overlaps a booking of that resource. */
    method CreateBooking(resourceId: Id, req: Request) returns (r: Outcome<()>)
      requires Valid()
      modifies this
      ensures Valid()
      ensures var a := Admit(old(bookings), old(nextId), resourceId, req);
              && (a.Fail? ==> r == Fail(a.failure) && unchanged(this))
              && (a.Ok? ==> r == Ok(()) && bookings == old(bookings) + [a.value] && nextId == old(nextId) + 1)
      ensures organizations == old(organizations) && members == old(members) && pages == old(pages)
      ensures sponsors == old(sponsors) && submissions == old(submissions)
    {
      var a := Admit(bookings, nextId, resourceId, req);
      if a.Fail? {
        return Fail(a.failure);
      }
      AdmitPreservesNoOverlap(bookings, nextId, resourceId, req);
      bookings := bookings + [a.value];
      nextId := nextId + 1;
      r := Ok(());
    }

    /** `deleteBooking`: removes the booking with the id; anyone may call
        it. */
    method DeleteBooking(bookingId: Id) returns (r: Outcome<()>)
      requires Valid()
      modifies this
      ensures Valid()
      ensures !(exists b :: b in old(bookings) && b.id == bookingId) ==> r == Fail(NotFound) && unchanged(this)
      ensures (exists b :: b in old(bookings) && b.id == bookingId) ==>
                r == Ok(()) && bookings == Cancel(old(bookings), bookingId)
      ensures organizations == old(organizations) && members == old(members) && pages == old(pages)
      ensures sponsors == old(sponsors) && submissions == old(submissions) && nextId == old(nextId)
    {
      if !(exists b :: b in bookings && b.id == bookingId) {
        return Fail(NotFound);
      }
      CancelPreservesNoOverlap(bookings, bookingId);
      bookings := Cancel(bookings, bookingId);
      r := Ok(());
    }

    /** `createPage`: an admin adds a page; its slug is derived from the
        title. */
    method CreatePage(session: Session, orgId: Id, title: string, content: string) returns (r: Outcome<()>)
      requires Valid()
      modifies this
      ensures Valid()
      ensures RequireAdmin(session, members, orgId).Fail? ==>
                r == Fail(RequireAdmin(session, members, orgId).failure) && unchanged(this)
      ensures RequireAdmin(session, members, orgId).Ok? ==>
                && r == Ok(())
                && pages == old(pages) + [CustomPage(old(nextId), orgId, title, PageSlug(title), content)]
                && nextId == old(nextId) + 1
      ensures organizations == old(organizations) && members == old(members) && bookings == old(bookings)
      ensures sponsors == old(sponsors) && submissions == old(submissions)
    {
      var guard := RequireAdmin(session, members, orgId);
      if guard.Fail? {
        return Fail(guard.failure);
      }
      pages := pages + [CustomPage(nextId, orgId, title, PageSlug(title), content)];
      nextId := nextId + 1;
      r := Ok(());
    }

    /** `addSponsor`: an admin adds a sponsor; a website without an `http`
        prefix gets `https://`. */
    method AddSponsor(session: Session, orgId: Id, name: string, websiteUrl: string) returns (r: Outcome<()>)
      requires Valid()
      modifies this
      ensures Valid()
      ensures RequireAdmin(session, members, orgId).Fail? ==>
                r == Fail(RequireAdmin(session, members, orgId).failure) && unchanged(this)
      ensures RequireAdmin(session, members, orgId).Ok? ==>
                && r == Ok(())
                && sponsors == old(sponsors) + [Sponsor(old(nextId), orgId, name, NormalizeUrl(websiteUrl))]
                && nextId == old(nextId) + 1
      ensures organizations == old(organizations) && members == old(members) && bookings == old(bookings)
      ensures pages == old(pages) && submissions == old(submissions)
    {
      var guard := RequireAdmin(session, members, orgId);
      if guard.Fail? {
        return Fail(guard.failure);
      }
      sponsors := sponsors + [Sponsor(nextId, orgId, name, NormalizeUrl(websiteUrl))];
      nextId := nextId + 1;
      r := Ok(());
    }

    /** `submitForm`: anyone may file a form for an organization. */
    method SubmitForm(orgId: Id, kind: string, data: map<string, string>) returns (r: Outcome<()>)
      requires Valid()
      modifies this
      ensures Valid()
      ensures r == Ok(())
      ensures submissions == old(submissions) + [Submission(old(nextId), orgId, kind, CleanedData(data))]
      ensures nextId == old(nextId) + 1
      ensures organizations == old(organizations) && members == old(members) && bookings == old(bookings)
      ensures pages == old(pages) && sponsors == old(sponsors)
    {
      var row := Submission(nextId, orgId, kind, CleanedData(data));
      AppendKeepsDistinct(submissions, row);
      submissions := submissions + [row];
      nextId := nextId + 1;
      r := Ok(());
    }

    /** The clean-up loop of `approveMembershipApplication`: lists the
        membership applications to the organization with the e-mail and
        deletes them one by one. */
    method PurgeApplications(orgId: Id, email: string)
      requires DistinctIds(submissions)
      modifies this
      ensures DistinctIds(submissions)
      ensures submissions == Purge(old(submissions), orgId, email)
      ensures organizations == old(organizations) && members == old(members) && bookings == old(bookings)
      ensures pages == old(pages) && sponsors == old(sponsors) && nextId == old(nextId)
    {
      var start := submissions;
      var duplicates := DuplicateIds(start, orgId, email);
      DuplicateIdsExact(start, orgId, email);
      WithoutNoIds(start);
      var i := 0;
      while i < |duplicates|
        invariant 0 <= i <= |duplicates|
        invariant submissions == WithoutIds(start, duplicates[..i])
        invariant organizations == old(organizations) && members == old(members) && bookings == old(bookings)
        invariant pages == old(pages) && sponsors == old(sponsors) && nextId == old(nextId)
      {
        assert duplicates[..i + 1] == duplicates[..i] + [duplicates[i]];
        WithoutIdsTwice(start, duplicates[..i], [duplicates[i]]);
        submissions := WithoutIds(submissions, [duplicates[i]]);
        i := i + 1;
      }
      assert duplicates[..i] == duplicates;
      DeletingDuplicatesPurges(start, duplicates, orgId, email);
      WithoutIdsKeepsDistinct(start, duplicates);
    }

    /** `approveMembershipApplication`: an admin approves an application. The
        applicant's address becomes a member row (an existing row for it is
        kept as it is), the application is deleted, and so is every other
        membership application to the organization with the same e-mail. */
    method ApproveMembershipApplication(session: Session, submissionId: Id, orgId: Id, email: string)
      returns (r: Outcome<()>)
      requires Valid()
      modifies this
      ensures Valid()
      ensures RequireAdmin(session, old(members), orgId).Fail? ==>
                r == Fail(RequireAdmin(session, old(members), orgId).failure) && unchanged(this)
      ensures RequireAdmin(session, old(members), orgId).Ok? ==>
                && members == AfterApproval(old(members), old(nextId), orgId, email)
                && nextId == old(nextId) + (|members| - |old(members)|)
                && (!HasSubmission(old(submissions), submissionId) ==>
                      r == Fail(NotFound) && submissions == old(submissions))
                && (HasSubmission(old(submissions), submissionId) ==>
                      r == Ok(()) && submissions == Purge(WithoutIds(old(submissions), [submissionId]), orgId, email))
      ensures organizations == old(organizations) && bookings == old(bookings) && pages == old(pages)
      ensures sponsors == old(sponsors)
    {
      var guard := RequireAdmin(session, members, orgId);
      if guard.Fail? {
        return Fail(guard.failure);
      }
      if email != "" && !Invited(members, orgId, NormalizeEmail(email)) {
        assert FirstMembership(members, orgId, session.user.id).value in members;
        AddMember(orgId, NormalizeEmail(email), Member);
      }
      if !HasSubmission(submissions, submissionId) {
        return Fail(NotFound);
      }
      WithoutIdsKeepsDistinct(submissions, [submissionId]);
      submissions := WithoutIds(submissions, [submissionId]);
      PurgeApplications(orgId, email);
      r := Ok(());
    }
  }
}

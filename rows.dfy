/** The rows of the PocketBase collections app/actions.ts works on, the
    lookups it makes (`getOne`, `getFirstListItem`, `getFullList` with a
    filter) and the deletions, each as a function on the collection. */
module Rows {
  import opened Common
  import opened Access

  /** A row of `organizations`. `storage_used` and `storage_limit` may be
      missing on old rows, hence the options. */
  datatype Organization = Organization(
    id: Id, name: string, subdomain: string, orgType: string, ownerId: string,
    config: Config, storageUsed: Option<int>, storageLimit: Option<int>)

  /** A row of `pages`. */
  datatype CustomPage = CustomPage(id: Id, orgId: Id, title: string, slug: string, content: string)

  /** A row of `sponsors`; an absent website is the empty string. */
  datatype Sponsor = Sponsor(id: Id, orgId: Id, name: string, websiteUrl: string)

  /** A row of `form_submissions`: the form fields are kept in `data`. */
  datatype Submission = Submission(id: Id, orgId: Id, kind: string, data: map<string, string>)

  const MembershipKind := "membership"

  /** `getOne(orgId)`: the position of the first organization with the id. */
  function OrgIndex(orgs: seq<Organization>, id: Id): (r: Option<nat>)
    ensures r.Some? ==> r.value < |orgs| && orgs[r.value].id == id
    ensures r.Some? ==> forall k :: 0 <= k < r.value ==> orgs[k].id != id
    ensures r.None? ==> forall o :: o in orgs ==> o.id != id
  {
    if orgs == [] then None
    else if orgs[0].id == id then Some(0)
    else
      assert forall o :: o in orgs ==> o == orgs[0] || o in orgs[1..];
      match OrgIndex(orgs[1..], id)
      case None => None
      case Some(k) => Some(k + 1)
  }

  /** `getFirstListItem('subdomain="..."')`. */
  function SubdomainIndex(orgs: seq<Organization>, subdomain: string): (r: Option<nat>)
    ensures r.Some? ==> r.value < |orgs| && orgs[r.value].subdomain == subdomain
    ensures r.None? ==> forall o :: o in orgs ==> o.subdomain != subdomain
  {
    if orgs == [] then None
    else if orgs[0].subdomain == subdomain then Some(0)
    else
      assert forall o :: o in orgs ==> o == orgs[0] || o in orgs[1..];
      match SubdomainIndex(orgs[1..], subdomain)
      case None => None
      case Some(k) => Some(k + 1)
  }

  /** `getOne(memberId)` on `organization_members`. */
  function MemberIndex(members: seq<Membership>, id: Id): (r: Option<nat>)
    ensures r.Some? ==> r.value < |members| && members[r.value].id == id
    ensures r.None? ==> forall m :: m in members ==> m.id != id
  {
    if members == [] then None
    else if members[0].id == id then Some(0)
    else
      assert forall m :: m in members ==> m == members[0] || m in members[1..];
      match MemberIndex(members[1..], id)
      case None => None
      case Some(k) => Some(k + 1)
  }

  /** The organization already has a row for the e-mail address. */
  predicate Invited(members: seq<Membership>, orgId: Id, email: string)
  {
    exists m :: m in members && m.orgId == orgId && m.email == email
  }

  /** No two rows share an id, and no organization has two rows for one
      e-mail address (the unique index the invitation code relies on). */
  predicate WellKeyed(members: seq<Membership>)
  {
    forall i, j :: 0 <= i < |members| && 0 <= j < |members| && i != j ==>
      members[i].id != members[j].id &&
      !(members[i].orgId == members[j].orgId && members[i].email == members[j].email)
  }

  /** A row with an id above every existing one, for an address the
      organization has no row for, keeps the rows keyed. */
  lemma AppendKeepsKeys(members: seq<Membership>, row: Membership)
    requires WellKeyed(members)
    requires forall m :: m in members ==> m.id < row.id
    requires !Invited(members, row.orgId, row.email)
    ensures WellKeyed(members + [row])
  {
    var s := members + [row];
    forall i, j | 0 <= i < |s| && 0 <= j < |s| && i != j
      ensures s[i].id != s[j].id && !(s[i].orgId == s[j].orgId && s[i].email == s[j].email)
    {
      if i == |members| {
        assert s[j] == members[j] && s[j] in members;
      } else if j == |members| {
        assert s[i] == members[i] && s[i] in members;
      } else {
        assert s[i] == members[i] && s[j] == members[j];
      }
    }
  }

  predicate DistinctSubdomains(orgs: seq<Organization>)
  {
    forall i, j :: 0 <= i < j < |orgs| ==> orgs[i].subdomain != orgs[j].subdomain
  }

  lemma AppendKeepsSubdomains(orgs: seq<Organization>, org: Organization)
    requires DistinctSubdomains(orgs)
    requires SubdomainIndex(orgs, org.subdomain).None?
    ensures DistinctSubdomains(orgs + [org])
  {
    var s := orgs + [org];
    forall i, j | 0 <= i < j < |s| ensures s[i].subdomain != s[j].subdomain {
      assert s[i] == orgs[i] && orgs[i] in orgs;
    }
  }

  /** Rewriting a row in place, with the same id and subdomain, keeps the
      subdomains distinct and the ids bounded. */
  lemma UpdateKeepsOrgKeys(orgs: seq<Organization>, k: nat, o: Organization, bound: nat)
    requires k < |orgs| && o.id == orgs[k].id && o.subdomain == orgs[k].subdomain
    requires DistinctSubdomains(orgs) && forall x :: x in orgs ==> x.id < bound
    ensures DistinctSubdomains(orgs[k := o]) && forall x :: x in orgs[k := o] ==> x.id < bound
  {
    var s := orgs[k := o];
    forall x | x in s ensures x.id < bound {
      var i :| 0 <= i < |s| && s[i] == x;
      assert orgs[i] in orgs;
    }
  }

  /** `organization_members` after `delete(memberId)`. */
  function Dismiss(members: seq<Membership>, memberId: Id): (r: seq<Membership>)
    ensures |r| <= |members|
    ensures forall m :: m in r <==> m in members && m.id != memberId
  {
    if members == [] then []
    else
      var rest := Dismiss(members[1..], memberId);
      assert forall m :: m in members <==> m == members[0] || m in members[1..];
      if members[0].id == memberId then rest else [members[0]] + rest
  }

  /** `update(id, { user_id })`: every row with the id gets the user. */
  function WithUser(members: seq<Membership>, id: Id, userId: string): (r: seq<Membership>)
    ensures |r| == |members|
    ensures forall k :: 0 <= k < |members| ==>
              r[k] == if members[k].id == id then members[k].(userId := userId) else members[k]
  {
    seq(|members|, k requires 0 <= k < |members| =>
      if members[k].id == id then members[k].(userId := userId) else members[k])
  }

  /** The rows after `update(id, { user_id })` for each of the ids. */
  function WithUsers(members: seq<Membership>, ids: seq<Id>, userId: string): (r: seq<Membership>)
    ensures |r| == |members|
    ensures forall k :: 0 <= k < |members| ==>
              r[k] == if members[k].id in ids then members[k].(userId := userId) else members[k]
  {
    seq(|members|, k requires 0 <= k < |members| =>
      if members[k].id in ids then members[k].(userId := userId) else members[k])
  }

  /** One more update is one more id. */
  lemma WithUsersStep(members: seq<Membership>, ids: seq<Id>, id: Id, userId: string)
    ensures WithUser(WithUsers(members, ids, userId), id, userId) == WithUsers(members, ids + [id], userId)
  {
    var a, b := WithUser(WithUsers(members, ids, userId), id, userId), WithUsers(members, ids + [id], userId);
    forall k | 0 <= k < |members| ensures a[k] == b[k] {
      assert members[k].id in ids + [id] <==> members[k].id in ids || members[k].id == id;
    }
  }

  /** Updating the rows `PendingIds` lists is claiming the invitations,
      because row ids are distinct. */
  lemma UpdatingPendingClaims(members: seq<Membership>, email: string, userId: string)
    requires WellKeyed(members)
    ensures WithUsers(members, PendingIds(members, email), userId) == Claimed(members, email, userId)
  {
    var ids := PendingIds(members, email);
    forall k | 0 <= k < |members| ensures members[k].id in ids <==> Pending(members[k], email) {
      if members[k].id in ids {
        var m :| m in members && Pending(m, email) && m.id == members[k].id;
        var j :| 0 <= j < |members| && members[j] == m;
        assert j == k;
      }
    }
  }

  /** Attaching a user changes no key. */
  lemma WithUsersKeepsKeys(members: seq<Membership>, ids: seq<Id>, userId: string)
    requires WellKeyed(members)
    ensures WellKeyed(WithUsers(members, ids, userId))
    ensures forall m :: m in WithUsers(members, ids, userId) ==>
              exists x :: x in members && x.id == m.id && x.orgId == m.orgId
  {
    var r := WithUsers(members, ids, userId);
    forall m | m in r ensures exists x :: x in members && x.id == m.id && x.orgId == m.orgId {
      var k :| 0 <= k < |r| && r[k] == m;
      assert members[k] in members;
    }
  }

  lemma {:induction false} WellKeyedCons(m: Membership, rest: seq<Membership>)
    requires WellKeyed(rest)
    requires forall x :: x in rest ==> x.id != m.id && !(x.orgId == m.orgId && x.email == m.email)
    ensures WellKeyed([m] + rest)
  {
    var s := [m] + rest;
    forall i, j | 0 <= i < |s| && 0 <= j < |s| && i != j
      ensures s[i].id != s[j].id && !(s[i].orgId == s[j].orgId && s[i].email == s[j].email)
    {
      if i == 0 {
        assert s[j] == rest[j - 1] && s[j] in rest;
      } else if j == 0 {
        assert s[i] == rest[i - 1] && s[i] in rest;
      } else {
        assert s[i] == rest[i - 1] && s[j] == rest[j - 1];
      }
    }
  }

  /** Removing a row keeps the rows keyed. */
  lemma {:induction false} DismissKeepsKeys(members: seq<Membership>, memberId: Id)
    requires WellKeyed(members)
    ensures WellKeyed(Dismiss(members, memberId))
  {
    if members != [] {
      var rest := members[1..];
      assert WellKeyed(rest) by {
        forall i, j | 0 <= i < |rest| && 0 <= j < |rest| && i != j
          ensures rest[i].id != rest[j].id && !(rest[i].orgId == rest[j].orgId && rest[i].email == rest[j].email)
        {
          assert rest[i] == members[i + 1] && rest[j] == members[j + 1];
        }
      }
      DismissKeepsKeys(rest, memberId);
      if members[0].id != memberId {
        var kept := Dismiss(rest, memberId);
        forall x | x in kept
          ensures x.id != members[0].id && !(x.orgId == members[0].orgId && x.email == members[0].email)
        {
          var k :| 0 <= k < |rest| && rest[k] == x;
          assert members[k + 1] == x;
        }
        WellKeyedCons(members[0], kept);
      }
    }
  }

  /** The value of a form field, the empty string when it is absent. */
  function Field(data: map<string, string>, key: string): string
  {
    if key in data then data[key] else ""
  }

  /** What `submitForm` stores: the form fields, without `personal_number`
      when that field is empty or absent. */
  function CleanedData(data: map<string, string>): (d: map<string, string>)
    ensures "personal_number" in d ==> d["personal_number"] != ""
    ensures Field(data, "personal_number") != "" ==> d == data
    ensures forall k :: k != "personal_number" ==> (k in d <==> k in data) && (k in d ==> d[k] == data[k])
  {
    if Field(data, "personal_number") == "" then data - {"personal_number"} else data
  }

  /** The filter `org_id="..." && type="membership" && data.email="..."`. */
  predicate IsDuplicate(s: Submission, orgId: Id, email: string)
  {
    s.orgId == orgId && s.kind == MembershipKind && Field(s.data, "email") == email
  }

  predicate HasSubmission(subs: seq<Submission>, id: Id)
  {
    exists s :: s in subs && s.id == id
  }

  predicate DistinctIds(subs: seq<Submission>)
  {
    forall i, j :: 0 <= i < |subs| && 0 <= j < |subs| && i != j ==> subs[i].id != subs[j].id
  }

  lemma AppendKeepsDistinct(subs: seq<Submission>, row: Submission)
    requires DistinctIds(subs)
    requires forall s :: s in subs ==> s.id < row.id
    ensures DistinctIds(subs + [row])
  {
    var t := subs + [row];
    forall i, j | 0 <= i < |t| && 0 <= j < |t| && i != j ensures t[i].id != t[j].id {
      if i == |subs| {
        assert t[j] == subs[j] && t[j] in subs;
      } else if j == |subs| {
        assert t[i] == subs[i] && t[i] in subs;
      } else {
        assert t[i] == subs[i] && t[j] == subs[j];
      }
    }
  }

  /** The ids `getFullList` returns for the duplicate filter. */
  function DuplicateIds(subs: seq<Submission>, orgId: Id, email: string): (ids: seq<Id>)
    ensures forall x :: x in ids <==> exists s :: s in subs && IsDuplicate(s, orgId, email) && s.id == x
  {
    if subs == [] then []
    else
      var rest := DuplicateIds(subs[1..], orgId, email);
      assert forall s :: s in subs <==> s == subs[0] || s in subs[1..];
      if IsDuplicate(subs[0], orgId, email) then [subs[0].id] + rest else rest
  }

  /** `form_submissions` after deleting the rows with the given ids. */
  function WithoutIds(subs: seq<Submission>, ids: seq<Id>): (r: seq<Submission>)
    ensures |r| <= |subs|
    ensures forall s :: s in r <==> s in subs && s.id !in ids
  {
    if subs == [] then []
    else
      var rest := WithoutIds(subs[1..], ids);
      assert forall s :: s in subs <==> s == subs[0] || s in subs[1..];
      if subs[0].id in ids then rest else [subs[0]] + rest
  }

  /** The submissions that remain once every duplicate application is gone,
      in their order. */
  function Purge(subs: seq<Submission>, orgId: Id, email: string): (r: seq<Submission>)
    ensures forall s :: s in r <==> s in subs && !IsDuplicate(s, orgId, email)
  {
    if subs == [] then []
    else
      var rest := Purge(subs[1..], orgId, email);
      assert forall s :: s in subs <==> s == subs[0] || s in subs[1..];
      if IsDuplicate(subs[0], orgId, email) then rest else [subs[0]] + rest
  }

  lemma {:induction false} WithoutNoIds(subs: seq<Submission>)
    ensures WithoutIds(subs, []) == subs
  {
    if subs != [] {
      WithoutNoIds(subs[1..]);
      assert subs == [subs[0]] + subs[1..];
    }
  }

  /** Deleting one list of ids after another deletes both. */
  lemma {:induction false} WithoutIdsTwice(subs: seq<Submission>, a: seq<Id>, b: seq<Id>)
    ensures WithoutIds(WithoutIds(subs, a), b) == WithoutIds(subs, a + b)
  {
    if subs != [] {
      WithoutIdsTwice(subs[1..], a, b);
      if subs[0].id !in a {
        assert WithoutIds(subs, a) == [subs[0]] + WithoutIds(subs[1..], a);
        assert WithoutIds(subs, a)[1..] == WithoutIds(subs[1..], a);
      }
    }
  }

  /** Deleting exactly the ids of the duplicates is purging the duplicates. */
  lemma {:induction false} DeletingDuplicatesPurges(subs: seq<Submission>, ids: seq<Id>, orgId: Id, email: string)
    requires forall s :: s in subs ==> (s.id in ids <==> IsDuplicate(s, orgId, email))
    ensures WithoutIds(subs, ids) == Purge(subs, orgId, email)
  {
    if subs != [] {
      assert forall s :: s in subs[1..] ==> s in subs;
      DeletingDuplicatesPurges(subs[1..], ids, orgId, email);
    }
  }

  /** With distinct ids, a row's id is a duplicate's id only when the row is
      that duplicate. */
  lemma DuplicateIdsExact(subs: seq<Submission>, orgId: Id, email: string)
    requires DistinctIds(subs)
    ensures var ids := DuplicateIds(subs, orgId, email);
            forall s :: s in subs ==> (s.id in ids <==> IsDuplicate(s, orgId, email))
  {
    var ids := DuplicateIds(subs, orgId, email);
    forall s | s in subs && s.id in ids ensures IsDuplicate(s, orgId, email) {
      var t :| t in subs && IsDuplicate(t, orgId, email) && t.id == s.id;
      var i :| 0 <= i < |subs| && subs[i] == s;
      var j :| 0 <= j < |subs| && subs[j] == t;
      assert i == j;
    }
  }

  lemma {:induction false} DistinctCons(s: Submission, rest: seq<Submission>)
    requires DistinctIds(rest)
    requires forall x :: x in rest ==> x.id != s.id
    ensures DistinctIds([s] + rest)
  {
    var t := [s] + rest;
    forall i, j | 0 <= i < |t| && 0 <= j < |t| && i != j ensures t[i].id != t[j].id {
      if i == 0 {
        assert t[j] == rest[j - 1] && t[j] in rest;
      } else if j == 0 {
        assert t[i] == rest[i - 1] && t[i] in rest;
      } else {
        assert t[i] == rest[i - 1] && t[j] == rest[j - 1];
      }
    }
  }

  /** Deleting rows keeps the ids distinct. */
  lemma {:induction false} WithoutIdsKeepsDistinct(subs: seq<Submission>, ids: seq<Id>)
    requires DistinctIds(subs)
    ensures DistinctIds(WithoutIds(subs, ids))
  {
    if subs != [] {
      var rest := subs[1..];
      assert DistinctIds(rest) by {
        forall i, j | 0 <= i < |rest| && 0 <= j < |rest| && i != j ensures rest[i].id != rest[j].id {
          assert rest[i] == subs[i + 1] && rest[j] == subs[j + 1];
        }
      }
      WithoutIdsKeepsDistinct(rest, ids);
      if subs[0].id !in ids {
        var kept := WithoutIds(rest, ids);
        forall x | x in kept ensures x.id != subs[0].id {
          var k :| 0 <= k < |rest| && rest[k] == x;
          assert subs[k + 1] == x;
        }
        DistinctCons(subs[0], kept);
      }
    }
  }
}

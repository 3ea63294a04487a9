# Föreningsplattform core, modelled in Dafny

The system is a multi-tenant web platform for Swedish associations: road
associations, housing cooperatives (BRF), boat clubs, cabin associations,
hunting teams, venues and others. Each association ("organization") gets a
public site under its own subdomain of the platform's root domain. Its
administrators manage the site from a dashboard on `app.<root>`. Records
live in PocketBase collections: `organizations`, `organization_members`,
`bookings`, `pages`, `sponsors` and `form_submissions`.

This project models three parts of it:

- **Host routing** (`middleware.dfy`, module `Middleware`). A request's
  host header, path and query string are turned into the internal path the
  framework renders. The admin host goes to `/dashboard…`, the bare root
  domain to the landing page, and every other host to `/sites/<label>…`.
  `Route` is a pure function, with lemmas for each branch and for
  development hosts on `.localhost:3000`.
- **Business rules of the server actions** (`actions.dfy`, module `Actions`,
  class `Store`). The store class has one `seq` field per collection and a
  record-id counter, and one method per action:
  - create an organization;
  - toggle a module;
  - check and record storage use;
  - invite, remove and claim memberships;
  - book and unbook resources;
  - add custom pages and sponsors;
  - file forms and approve membership applications.

  The pure rules the actions use have modules of their own:
  - `OrgRules`: subdomain and page slugs, the per-type default
    configuration, the module toggle, the quota arithmetic and the sponsor
    URL;
  - `Access`: sessions, memberships, the admin guard, e-mail normalisation
    and invitation claiming;
  - `Bookings`: booking admission and the no-overlap invariant;
  - `Rows`: lookups and row-level updates and deletions;
  - `StringOrder` and `Clock` (`order.dfy`): JavaScript's `<` on strings,
    and the fact that `"<date>T<HH:MM>:00"` stamps compare like
    (date, minutes).
- **Site navigation** (`site_header.dfy`, module `SiteHeader`). This is the
  ordered link list of the public header: `Start`, then one link per custom
  page, then five optional links each switched by a configuration flag, then
  `Kalender`.

`common.dfy` holds the shared types. Among them, `Outcome` distinguishes
the three ways an action fails:
- `Reported`: the action returns `{ error }` to the form;
- `Raised`: the action throws;
- `NotFound`: a PocketBase lookup of a missing record fails.

`text.dfy` models the JavaScript string operations the code relies on:
- `indexOf` and `includes`;
- `replace` with a string pattern, which replaces only the first occurrence;
- `split(c)[0]` and `startsWith`;
- `toLowerCase`;
- `trim`, with ECMAScript's white-space set.

The request's signed-in user is a `Session` parameter. The root domain is a
parameter of `Route`. Record ids are handed out by the store's `nextId`
counter.

## Model

| member | source | states |
|---|---|---|
| Middleware.NormalizeHost | middleware.ts:16-21 | The routed host has no `:`. It is the host with the first `.localhost:3000` replaced by `.<root>`, cut at its first `:` when it has one. |
| Middleware.LogicalPath | middleware.ts:23-24 | The path is the pathname alone when the query string is empty, and otherwise pathname + `?` + query. |
| Middleware.Route | middleware.ts:11-45 | Exactly one branch applies to every host. The admin branch is taken iff the host is `app.<root>`, the landing branch iff it is `<root>`, and the tenant branch otherwise. |
| Middleware.AdminRewrite | middleware.ts:29-35 | On the admin host, `/login` rewrites to `/login`. Any other path rewrites to `/dashboard` + the path with its first `/dashboard` removed. |
| Middleware.AdminInnerDashboard | middleware.ts:34 | `/s/dashboard` on the admin host rewrites to `/dashboard/s`: an inner `/dashboard` is removed too. |
| Middleware.LandingRewrite | middleware.ts:38-40 | On the root domain, the rewrite target is the logical path unchanged. |
| Middleware.TenantRewrite | middleware.ts:43-44 | Any other host rewrites to `/sites/` + label + path. The label is the host up to its first `.`, or the whole host when it has no `.`, and contains neither `.` nor `:`. |
| Middleware.DotlessTenant | middleware.ts:16-44 | A host name without a dot, with a port and other than the root domain (a bare `localhost:3000`, say), is routed to `/sites/` + the whole name + path. |
| Middleware.NoDevSuffixWithoutColon | middleware.ts:16 | A host without `:` contains no `.localhost:3000`, so the first replacement leaves it alone. |
| Middleware.PlainHost | middleware.ts:16-21 | A host without a port is routed as it is. |
| Middleware.PortDropped | middleware.ts:19-21 | For a `name:port` that is not a development host (it contains no `.localhost:3000`), the port is dropped and `name` is routed. |
| Middleware.DevTenant | middleware.ts:16-44 | `<tenant>.localhost:3000` is routed to `/sites/<tenant>` + path, as `<tenant>.<root>` would be. |
| SiteHeader.Links | components/SiteHeader.tsx:11-23 | The first link is Start → `/` and the last is Kalender → `/kalender`. Link 1+i is page i's `/s/<slug>` link, in page order. A missing page list gives no page links. |
| SiteHeader.LinksLength | components/SiteHeader.tsx:11-23 | The list has 2 + #pages + (number of the five flags that are truthy) links. |
| SiteHeader.ShownLength | components/SiteHeader.tsx:14-23 | `filter(Boolean)` over the conditional entries keeps exactly as many links as there are truthy flags. |
| SiteHeader.ShownMembers | components/SiteHeader.tsx:14-23 | A link survives the filter iff one of its entries has a truthy flag. |
| SiteHeader.ShownOrder | components/SiteHeader.tsx:14-23 | Two surviving entries keep their relative order. |
| SiteHeader.OptionalLinksAreDistinct | components/SiteHeader.tsx:12-22 | The five optional links differ from each other, from Start and Kalender, and from every page link. |
| SiteHeader.OptionalLinkPresence | components/SiteHeader.tsx:14-20 | Boka, Dokument, Styrelsen, Felanmälan and Bli Medlem each appear iff their flag (`show_booking`, `show_documents`, `show_board`, `show_contact_widget`, `show_membership_form`) is truthy. |
| SiteHeader.OptionalLinkOrder | components/SiteHeader.tsx:14-22 | Shown optional links keep their fixed relative order, after the page links and before Kalender. |
| OrgRules.Slugify | app/actions.ts:102-106 | The slug is over `[a-z0-9-]`, has no `--`, and does not start or end with `-`. What it is made of is stated by `WordSlug` and `SeparatedWords`. |
| OrgRules.SeparatedWords | app/actions.ts:102-106 | Two non-empty words with a non-empty run of other characters between them (spaces, punctuation) slugify to the two word slugs joined by a single `-`. |
| OrgRules.MaskAppend | app/actions.ts:102-104 | Lower-casing, folding and masking a concatenation gives the concatenation of the parts. |
| OrgRules.SeparatorMasked | app/actions.ts:104 | Every character outside letters, digits and å/ä/ö becomes `-`. |
| OrgRules.CollapseKeepsWord | app/actions.ts:105 | Characters other than `-` pass through the collapse unchanged and in order. |
| OrgRules.CollapseRun | app/actions.ts:105 | A maximal run of one or more dashes becomes a single `-`. |
| OrgRules.CollapseBetween | app/actions.ts:105 | Between two dash-free words, any dash run collapses to one `-`. |
| OrgRules.TrimBetween | app/actions.ts:106 | Two non-empty dash-free words joined by `-` have no end dash to trim. |
| OrgRules.SubdomainFor | app/actions.ts:101-108 | The subdomain field is used, or the name when the field is empty. The answer is "Subdomänen är för kort." iff the slug is shorter than 3; otherwise it is a slug of length at least 3. |
| OrgRules.WordSlug | app/actions.ts:102-106 | A name of letters and digits keeps its length. Each character becomes its lower-case form with å/ä folded to `a` and ö to `o`, and no dash appears. |
| OrgRules.SwedishLetters | app/actions.ts:102-103 | å, ä, Å and Ä become `a`; ö and Ö become `o`. |
| OrgRules.SlugifyIdempotent | app/actions.ts:102-106 | Slugifying a slug gives the same slug. |
| OrgRules.CollapseIdle | app/actions.ts:105 | Collapsing dash runs leaves a string without `--` unchanged. |
| OrgRules.SlugCharsFixed | app/actions.ts:102-104 | Lower-casing, folding and masking leave a string over `[a-z0-9-]` unchanged. |
| OrgRules.InitialConfig | app/actions.ts:110-111 | The initial configuration has `show_news: true` and the type's defaults. Every key of the defaults keeps its default value, and there are no other keys. |
| OrgRules.UnknownTypeFallsBack | app/actions.ts:10-64 | A type without an entry, such as `fish`, gets the configuration of `other`. |
| OrgRules.HuntConfig | app/actions.ts:43-52 | A hunting team starts with `show_board` and `show_contact_widget` false, `show_membership_form` true and `snow_status_text` "Ingen jakt". |
| OrgRules.ToggleModule | app/actions.ts:155 | Only the toggled key changes, and it holds the new flag. Every other key keeps its value. |
| OrgRules.QuotaCheck | app/actions.ts:165-169 | The upload is allowed iff `(used‖0) + size ≤ (limit‖0)`. A denial carries "Lagringsutrymmet är fullt!". |
| OrgRules.UsageAfter | app/actions.ts:175-177 | The recorded usage grows by exactly `size`. |
| OrgRules.QuotaKeepsUsageWithinLimit | app/actions.ts:161-178 | An upload is allowed iff recording it keeps the usage within the limit. |
| OrgRules.KeepSlugChars | app/actions.ts:522 | Dropping characters outside `[a-z0-9-]` keeps only slug characters, and keeps a slug unchanged. |
| OrgRules.PageSlug | app/actions.ts:522 | A page slug is no longer than the title and has only `[a-z0-9-]`. What it is made of is stated by `PageSlugAppend` and `PageSlugChar`. |
| OrgRules.KeepSlugCharsAppend | app/actions.ts:522 | Dropping non-slug characters is a filter: it works on each part of a concatenation separately. |
| OrgRules.KeepSlugChar | app/actions.ts:522 | A single character is kept iff it is in `[a-z0-9-]`. |
| OrgRules.PageSlugAppend | app/actions.ts:522 | The slug of a title is the slug of its first part followed by the slug of the rest. |
| OrgRules.PageSlugChar | app/actions.ts:522 | One title character contributes its lower-case, space-to-dash, folded form when that is in `[a-z0-9-]`, and nothing otherwise. Together with `PageSlugAppend` this fixes the slug of every title. |
| OrgRules.PlainTitleSlug | app/actions.ts:522 | In a title of words and spaces, each space becomes `-` and each letter its folded lower-case form, at the same position. |
| OrgRules.PageSlugIdempotent | app/actions.ts:522 | The slug of a page slug is itself. |
| OrgRules.NormalizeUrl | app/actions.ts:619-622 | An empty website stays empty. One starting with `http` is kept. Any other gets `https://` in front. |
| OrgRules.NormalizeUrlIdempotent | app/actions.ts:619-622 | Normalising twice is normalising once. |
| Access.FirstMembership | app/actions.ts:75-77 | The lookup returns a row of the user for the organization, or none exists. |
| Access.RequireAdmin | app/actions.ts:67-86 | An anonymous session throws "Ej inloggad". The signed-in user is returned iff their first row for the organization is admin or owner. Otherwise the action throws "Behörighet saknas eller hittade inte medlemskap". |
| Access.MemberIsRefused | app/actions.ts:79-85 | A user whose rows for the organization all have role member is refused. |
| Access.AdminIsAdmitted | app/actions.ts:79-82 | A user with an admin or owner row, and only such rows, is admitted. |
| Access.NormalizeEmail | app/actions.ts:341 | A normalised address neither starts nor ends with white space. |
| Access.NormalizedIsLower | app/actions.ts:341 | A normalised address is already lower case. |
| Text.TrimIdempotent | app/actions.ts:341 | Trimming twice is trimming once. |
| Access.NormalizeEmailIdempotent | app/actions.ts:341 | Normalising an address twice is normalising it once. |
| Access.PendingIds | app/actions.ts:381-383 | The ids listed are exactly those of rows with the e-mail and no user id. |
| Access.Claimed | app/actions.ts:372-390 | Claiming sets the user id on exactly the rows with the lower-cased e-mail and an empty user id. Every other row is unchanged. |
| Access.ClaimIsFinal | app/actions.ts:372-390 | After a claim, no pending row for the e-mail is left, and claiming again changes nothing. |
| Access.ClaimedInviteGrantsAccess | app/actions.ts:333-390 | Once an admin invitation for the user's address is claimed, the user passes the admin guard of that organization. This holds provided the user's other rows for the organization, and the other pending rows for that address, are admin or owner; the guard reads the first matching row. |
| Bookings.Admit | app/actions.ts:449-486 | The answer is "Fyll i alla fält." when a field is empty. It is "Sluttid måste vara efter starttid." when start ≥ end. It is "Tiden är redan bokad! 🚫" when the request overlaps a booking of the same resource under the half-open test. Otherwise it is the booking `{resource, "name (contact)", start, end}`. |
| Bookings.AdmitPreservesNoOverlap | app/actions.ts:466-482 | An admitted booking keeps the bookings of every resource pairwise non-overlapping. |
| Bookings.DuplicateRejected | app/actions.ts:466-477 | The same request a second time is refused as taken. |
| Bookings.BackToBackAdmitted | app/actions.ts:466-477 | A request that starts where an existing booking ends, or ends where one starts, is admitted. |
| Bookings.ValidationByClock | app/actions.ts:461-464 | For well-formed HH:MM times, the end-before-start error is raised iff the end time is not later on the clock. |
| Bookings.OverlapByClock | app/actions.ts:468 | On one date, the string overlap test agrees with the overlap of the minute intervals. |
| Bookings.LaundryOverlapTaken | app/actions.ts:466-477 | With 10:00-12:00 booked, 11:00-13:00 is refused. |
| Bookings.LaundryAfterFree | app/actions.ts:466-477 | With 10:00-12:00 booked, 12:00-14:00 is admitted. |
| Bookings.LaundryBeforeFree | app/actions.ts:466-477 | With 10:00-12:00 booked, 08:00-10:00 is admitted. |
| Bookings.Cancel | app/actions.ts:488-492 | Exactly the bookings with the id are removed. |
| Bookings.CancelPreservesNoOverlap | app/actions.ts:488-492 | Deleting a booking keeps the bookings non-overlapping. |
| StringOrder.Irreflexive | app/actions.ts:464 | No string is `<` itself. |
| StringOrder.Asymmetric | app/actions.ts:464 | Two strings are never each `<` the other. |
| StringOrder.Transitive | app/actions.ts:464 | `<` on strings is transitive. |
| StringOrder.Total | app/actions.ts:464 | Of two different strings, one is `<` the other. |
| StringOrder.CommonPrefix | app/actions.ts:461-464 | A shared prefix does not change the order. |
| StringOrder.SameLengthHeads | app/actions.ts:461-464 | Different heads of the same length decide the order. |
| Clock.Minutes | app/actions.ts:461-462 | An HH:MM time is below 6000 minutes. |
| Clock.TimeOrder | app/actions.ts:461-464 | For HH:MM times, string order is minute order. |
| Clock.StampOrder | app/actions.ts:461-464 | For dates of equal length, `<date>T<HH:MM>:00` stamps compare like (date, minutes). |
| Rows.OrgIndex | app/actions.ts:163 | Lookup by id finds the first organization with the id, or reports that there is none. |
| Rows.SubdomainIndex | app/actions.ts:151 | Lookup by subdomain finds an organization with it, or reports that there is none. |
| Rows.MemberIndex | app/actions.ts:355-357 | Lookup by id finds the membership row with the id, or reports that there is none. |
| Rows.AppendKeepsKeys | app/actions.ts:337-347 | A new row with a fresh id and a new (organization, e-mail) pair keeps the membership keys unique. |
| Rows.AppendKeepsSubdomains | app/actions.ts:113-125 | Adding an organization under a free subdomain keeps subdomains unique. |
| Rows.UpdateKeepsOrgKeys | app/actions.ts:155-177 | Replacing an organization by a row with the same id and subdomain (a new config or usage) keeps subdomains distinct and every id below the counter. |
| Rows.Dismiss | app/actions.ts:368 | Exactly the rows with the member id are removed. |
| Rows.DismissKeepsKeys | app/actions.ts:368 | Removing a row keeps the membership keys unique. |
| Rows.WithUser | app/actions.ts:386-388 | Only the row with the id gets the user id. |
| Rows.WithUsers | app/actions.ts:385-389 | Exactly the rows whose ids are listed get the user id. |
| Rows.WithUsersStep | app/actions.ts:385-389 | One more loop iteration updates one more listed row. |
| Rows.UpdatingPendingClaims | app/actions.ts:381-389 | Updating the listed pending rows is the claim. |
| Rows.WithUsersKeepsKeys | app/actions.ts:385-389 | Setting user ids keeps ids, organizations and the membership keys. |
| Rows.CleanedData | app/actions.ts:555-556 | `personal_number` is dropped when it is absent or empty. Every other field is kept as filed. |
| Rows.AppendKeepsDistinct | app/actions.ts:561-565 | A new submission with a fresh id keeps submission ids distinct. |
| Rows.DuplicateIds | app/actions.ts:659-661 | The ids listed are exactly those of membership applications to the organization with the e-mail. |
| Rows.WithoutIds | app/actions.ts:656-664 | Exactly the submissions with a listed id are deleted. |
| Rows.Purge | app/actions.ts:659-664 | The clean-up keeps exactly the submissions that are not duplicates of the application. |
| Rows.WithoutNoIds | app/actions.ts:662-664 | Deleting no ids changes nothing. |
| Rows.WithoutIdsTwice | app/actions.ts:662-664 | Deleting one list and then another is deleting both. |
| Rows.DeletingDuplicatesPurges | app/actions.ts:659-664 | Deleting the listed duplicates is the purge. |
| Rows.DuplicateIdsExact | app/actions.ts:659-661 | With distinct ids, a submission's id is listed iff it is a duplicate. |
| Rows.WithoutIdsKeepsDistinct | app/actions.ts:656-664 | Deleting submissions keeps ids distinct. |
| Actions.AfterApproval | app/actions.ts:645-653 | A non-empty e-mail ends up with a row for its normalised address. A new `member` row is added iff there was none, and otherwise the rows are unchanged. |
| Actions.CreationCheck | app/actions.ts:90-144 | Anonymous → "Du måste vara inloggad.". A short slug → "Subdomänen är för kort.". A subdomain in use → "Adressen är upptagen.". Otherwise the result is the free, valid subdomain. |
| Actions.Store.CreateOrganization | app/actions.ts:90-144 | On failure nothing is written. On success the organization (the type's initial config, usage 0, limit 104857600) and the owner's `owner` row are appended, and the owner passes the admin guard. |
| Actions.Store.UpdateModuleStatus | app/actions.ts:148-159 | A missing subdomain is not found, and a non-admin is refused. Otherwise only that organization's config changes, by the toggle. |
| Actions.Store.CheckStorageQuota | app/actions.ts:161-170 | For an existing organization, the verdict is "allowed" iff the upload fits the limit. A missing organization is not found. |
| Actions.Store.UpdateStorageUsage | app/actions.ts:172-178 | Usage grows by exactly `size`. No other organization, collection or counter changes. |
| Actions.Store.InviteMember | app/actions.ts:333-349 | The admin guard applies first. A second invitation for the normalised address throws. Otherwise exactly one `admin` row with that address and no user is appended. |
| Actions.Store.RemoveMember | app/actions.ts:351-370 | A missing row is not found, and a row of a vanished organization is left alone. A non-admin is refused. The owner's row is never removed. Otherwise exactly the row with the id goes. |
| Actions.Store.ClaimInvites | app/actions.ts:372-390 | Anonymous: nothing changes. Signed in: the rows become exactly `Claimed(old rows, lower-cased e-mail, user id)`. |
| Actions.Store.CreateBooking | app/actions.ts:449-486 | The store changes iff the request is admitted, and then by exactly the one admitted booking. Bookings stay non-overlapping. |
| Actions.Store.DeleteBooking | app/actions.ts:488-492 | The booking with the id is removed, with no permission check. A missing id is not found. |
| Actions.Store.CreatePage | app/actions.ts:517-528 | Admins append one page whose slug is derived from the title. Others are refused with no change. |
| Actions.Store.AddSponsor | app/actions.ts:612-628 | Admins append one sponsor with the normalised website. Others are refused with no change. |
| Actions.Store.SubmitForm | app/actions.ts:552-566 | Anyone files one submission with the cleaned data, and it succeeds. |
| Actions.Store.PurgeApplications | app/actions.ts:656-664 | The deletion loop leaves exactly `Purge(old submissions, org, e-mail)`. |
| Actions.Store.ApproveMembershipApplication | app/actions.ts:641-667 | Admins only. The member rows become `AfterApproval`. The application and every duplicate application are deleted, and a missing application is not found after the member row is written. |

## Left out

- Full Unicode `toLowerCase`: lower-casing covers ASCII letters and Å, Ä, Ö only, and every other character is kept.
- The route `matcher` regex (middleware.ts:5-9) is applied by the framework before the middleware runs.
- Authentication on the admin host: the middleware does none (middleware.ts:33), and the model adds none.
- The check-then-insert race in `createBooking` between the overlap query and the insert: the model is sequential.
- Stripe checkout and the Stripe webhook are payment-provider calls.
- Client construction, login and logout, cookies and `verifySitePassword` are auth-provider I/O.
- File uploads and object storage (documents, sponsor logos): only the quota arithmetic around them is modelled.
- `searchSite` delegates its matching to the store's `~` filter operator.
- `revalidatePath`, `console.error` and timestamps are cache, logging and clock side effects.
- Injection through interpolated filter strings: filters are modelled by the comparison they intend.
- Record ids: PocketBase assigns random string ids, and the model uses a counter. User ids stay strings because an empty user id marks an invitation.
- The unique (organization, e-mail) index on `organization_members` is assumed, since the code expects an insert to fail for a duplicate (app/actions.ts:345, 652). An insert that would break it fails instead.
- Store failures other than a missing record are not modelled: network errors, and the generic "Kunde inte skapa föreningen." of `createOrganization`. The subdomain uniqueness that PocketBase enforces is modelled as the lookup that precedes the insert.
- A record deleted between a list call and the delete inside the loops of `claimInvites` and `approveMembershipApplication` cannot happen in the sequential model.
- Other actions (posts, documents, events, board members, resources, settings, pages' update and delete, sponsor deletion, application rejection, newsletters) are outside the modelled core.
- JavaScript string order compares UTF-16 code units and Dafny compares characters. They agree on the ASCII digits, `T`, `:` and `-` of booking stamps.
- The `contact` field: the booking form never sends it, so every request from that form is answered "Fyll i alla fält.". The model keeps the check as written.
- A missing `name` or `email` form field (a `null` in the code, which crashes) is modelled as an empty string.
- A `data.email` of a submission that is absent counts as the empty string in the duplicate filter.
- Access.NormalizeEmail: its own contract states only that the edges are not white space. Lower case, idempotence and the slice of the original are in `NormalizedIsLower`, `NormalizeEmailIdempotent` and `Text.TrimIsSlice`.
- JavaScript prototype keys such as `constructor` are not entries of `TYPE_DEFAULTS` in the model.
- OrgRules.Slugify: its own contract states the shape of the slug. Its content is stated for single words (`WordSlug`) and for two words around a separator run (`SeparatedWords`), not as one closed formula for every string.

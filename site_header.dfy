/** The navigation links of a tenant site (components/SiteHeader.tsx): `Start`,
    one link per custom page, the optional module links switched on in the
    organization's config, and `Kalender`. */
module SiteHeader {
  import opened Common

  datatype Page = Page(title: string, slug: string)

  datatype Link = Link(caption: string, href: string)

  const StartLink := Link("Start", "/")
  const CalendarLink := Link("Kalender", "/kalender")

  /** The optional links, each with the config flag that shows it, in menu order. */
  const OptionalLinks: seq<(string, Link)> := [
    ("show_booking", Link("Boka", "/boka")),
    ("show_documents", Link("Dokument", "/dokument")),
    ("show_board", Link("Styrelsen", "/styrelsen")),
    ("show_contact_widget", Link("Felanmälan", "/felanmalan")),
    ("show_membership_form", Link("Bli Medlem", "/bli-medlem"))
  ]

  function PageLink(p: Page): Link
  {
    Link(p.title, "/s/" + p.slug)
  }

  /** `org.pages?.map(...) || []` */
  function PagesOf(pages: Option<seq<Page>>): seq<Page>
  {
    match pages
    case Some(ps) => ps
    case None => []
  }

  function PageLinks(pages: seq<Page>): seq<Link>
  {
    seq(|pages|, i requires 0 <= i < |pages| => PageLink(pages[i]))
  }

  /** `flag && link` for each entry, followed by `filter(Boolean)`: the links
      whose flag is truthy, in their given order. */
  function Shown(config: Config, entries: seq<(string, Link)>): seq<Link>
  {
    if entries == [] then []
    else (if Truthy(config, entries[0].0) then [entries[0].1] else []) + Shown(config, entries[1..])
  }

  /** How many of the entries' flags are truthy. */
  function FlagCount(config: Config, entries: seq<(string, Link)>): nat
  {
    if entries == [] then 0
    else (if Truthy(config, entries[0].0) then 1 else 0) + FlagCount(config, entries[1..])
  }

  /** The `links` array of the site header. */
  function Links(pages: Option<seq<Page>>, config: Config): (r: seq<Link>)
    ensures |r| >= 2 && r[0] == StartLink && r[|r| - 1] == CalendarLink
    ensures |r| >= 2 + |PagesOf(pages)|
    ensures forall i :: 0 <= i < |PagesOf(pages)| ==> r[1 + i] == PageLink(PagesOf(pages)[i])
  {
    [StartLink] + PageLinks(PagesOf(pages)) + Shown(config, OptionalLinks) + [CalendarLink]
  }

  lemma {:induction false} ShownLength(config: Config, entries: seq<(string, Link)>)
    ensures |Shown(config, entries)| == FlagCount(config, entries)
  {
    if entries != [] { ShownLength(config, entries[1..]); }
  }

  /** A link is shown exactly when some entry carrying it has a truthy flag. */
  lemma {:induction false} ShownMembers(config: Config, entries: seq<(string, Link)>, x: Link)
    ensures x in Shown(config, entries) <==>
            exists k :: 0 <= k < |entries| && entries[k].1 == x && Truthy(config, entries[k].0)
  {
    if entries != [] {
      ShownMembers(config, entries[1..], x);
      if x in Shown(config, entries[1..]) {
        var k :| 0 <= k < |entries[1..]| && entries[1..][k].1 == x && Truthy(config, entries[1..][k].0);
        assert entries[k + 1] == entries[1..][k];
      }
      if exists k :: 1 <= k < |entries| && entries[k].1 == x && Truthy(config, entries[k].0) {
        var k :| 1 <= k < |entries| && entries[k].1 == x && Truthy(config, entries[k].0);
        assert entries[1..][k - 1] == entries[k];
      }
    }
  }

  /** Shown links keep the relative order of their entries. */
  lemma {:induction false} ShownOrder(config: Config, entries: seq<(string, Link)>, a: nat, b: nat)
    requires a < b < |entries|
    requires Truthy(config, entries[a].0) && Truthy(config, entries[b].0)
    ensures exists i, j :: 0 <= i < j < |Shown(config, entries)| &&
                           Shown(config, entries)[i] == entries[a].1 &&
                           Shown(config, entries)[j] == entries[b].1
  {
    var head := if Truthy(config, entries[0].0) then [entries[0].1] else [];
    var rest := Shown(config, entries[1..]);
    var s := Shown(config, entries);
    assert s == head + rest;
    if a == 0 {
      ShownMembers(config, entries[1..], entries[b].1);
      assert entries[1..][b - 1] == entries[b];
      var j :| 0 <= j < |rest| && rest[j] == entries[b].1;
      assert s[0] == entries[a].1 && s[j + 1] == entries[b].1;
      assert 0 <= 0 < j + 1 < |s|;
    } else {
      assert entries[1..][a - 1] == entries[a] && entries[1..][b - 1] == entries[b];
      ShownOrder(config, entries[1..], a - 1, b - 1);
      var i, j :| 0 <= i < j < |rest| && rest[i] == entries[a].1 && rest[j] == entries[b].1;
      var d := |head|;
      assert s[d + i] == rest[i] && s[d + j] == rest[j];
      assert 0 <= d + i < d + j < |s|;
    }
  }

  /** The header has `Start`, one link per page, one per truthy flag and
      `Kalender`, and nothing else. */
  lemma LinksLength(pages: Option<seq<Page>>, config: Config)
    ensures |Links(pages, config)| == 2 + |PagesOf(pages)| + FlagCount(config, OptionalLinks)
  {
    ShownLength(config, OptionalLinks);
  }

  /** No fixed link and no page link coincides with an optional link. */
  lemma {:induction false} OptionalLinksAreDistinct(pages: seq<Page>, k: nat)
    requires k < |OptionalLinks|
    ensures OptionalLinks[k].1 != StartLink && OptionalLinks[k].1 != CalendarLink
    ensures OptionalLinks[k].1 !in PageLinks(pages)
    ensures forall m :: 0 <= m < |OptionalLinks| && m != k ==> OptionalLinks[m].1 != OptionalLinks[k].1
  {
    var href := OptionalLinks[k].1.href;
    assert |href| >= 3 && href[2] != '/';
    forall i | 0 <= i < |pages| ensures PageLinks(pages)[i] != OptionalLinks[k].1 {
      assert PageLinks(pages)[i].href[2] == '/';
    }
  }

  /** Each optional link is in the header exactly when its flag is truthy. */
  lemma OptionalLinkPresence(pages: Option<seq<Page>>, config: Config, k: nat)
    requires k < |OptionalLinks|
    ensures OptionalLinks[k].1 in Links(pages, config) <==> Truthy(config, OptionalLinks[k].0)
  {
    var x := OptionalLinks[k].1;
    var ps := PageLinks(PagesOf(pages));
    var shown := Shown(config, OptionalLinks);
    OptionalLinksAreDistinct(PagesOf(pages), k);
    ShownMembers(config, OptionalLinks, x);
    assert Links(pages, config) == [StartLink] + ps + shown + [CalendarLink];
    assert x in Links(pages, config) <==> x in shown;
  }

  /** Optional links appear in the fixed order Boka, Dokument, Styrelsen,
      Felanmälan, Bli Medlem, after the page links. */
  lemma OptionalLinkOrder(pages: Option<seq<Page>>, config: Config, a: nat, b: nat)
    requires a < b < |OptionalLinks|
    requires Truthy(config, OptionalLinks[a].0) && Truthy(config, OptionalLinks[b].0)
    ensures exists i, j :: 1 + |PagesOf(pages)| <= i < j < |Links(pages, config)| - 1 &&
                           Links(pages, config)[i] == OptionalLinks[a].1 &&
                           Links(pages, config)[j] == OptionalLinks[b].1
  {
    var shown := Shown(config, OptionalLinks);
    ShownOrder(config, OptionalLinks, a, b);
    var i, j :| 0 <= i < j < |shown| && shown[i] == OptionalLinks[a].1 && shown[j] == OptionalLinks[b].1;
    var d := 1 + |PagesOf(pages)|;
    var r := Links(pages, config);
    assert r == [StartLink] + PageLinks(PagesOf(pages)) + shown + [CalendarLink];
    assert r[d + i] == shown[i] && r[d + j] == shown[j];
  }
}

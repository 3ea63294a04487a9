/** The value-level rules of app/actions.ts: the subdomain slug and its
    minimum length, the per-type default configuration, the single-key
    module toggle, the storage quota arithmetic, page slugs and sponsor URLs. */
module OrgRules {
  import opened Common
  import opened Text

  const SubdomainTooShort := "Subdomänen är för kort."
  const StorageFull := "Lagringsutrymmet är fullt!"

  /** Quota given to a new organization: 100 MB. */
  const InitialStorageLimit := 104857600

  // ---------------------------------------------------------------------
  // Subdomain slug (createOrganization)
  // ---------------------------------------------------------------------

  predicate IsSlugChar(c: char)
  {
    'a' <= c <= 'z' || '0' <= c <= '9' || c == '-'
  }

  /** No two dashes in a row. */
  predicate NoDoubleDash(s: string)
  {
    forall i :: 0 <= i < |s| - 1 ==> !(s[i] == '-' && s[i + 1] == '-')
  }

  /** A well-formed subdomain: only `[a-z0-9-]`, no `--`, no dash at either end. */
  predicate IsSubdomainSlug(s: string)
  {
    (forall i :: 0 <= i < |s| ==> IsSlugChar(s[i])) &&
    NoDoubleDash(s) &&
    (s != [] ==> s[0] != '-' && s[|s| - 1] != '-')
  }

  /** `.replace(/[åä]/g, 'a').replace(/ö/g, 'o')` on one character. */
  function FoldChar(c: char): char
  {
    if c == 'å' || c == 'ä' then 'a' else if c == 'ö' then 'o' else c
  }

  function FoldSwedish(s: string): (t: string)
    ensures |t| == |s| && forall i :: 0 <= i < |s| ==> t[i] == FoldChar(s[i])
  {
    seq(|s|, i requires 0 <= i < |s| => FoldChar(s[i]))
  }

  /** `.replace(/[^a-z0-9]/g, '-')` on one character. */
  function MaskChar(c: char): (d: char)
    ensures IsSlugChar(d)
  {
    if 'a' <= c <= 'z' || '0' <= c <= '9' then c else '-'
  }

  function Mask(s: string): (t: string)
    ensures |t| == |s| && forall i :: 0 <= i < |s| ==> t[i] == MaskChar(s[i])
  {
    seq(|s|, i requires 0 <= i < |s| => MaskChar(s[i]))
  }

  /** `.replace(/-+/g, '-')`: every run of dashes becomes one dash. */
  function CollapseDashes(s: string): (t: string)
    ensures NoDoubleDash(t)
    ensures |t| <= |s| && (t == [] <==> s == [])
    ensures s != [] ==> t[0] == s[0] && t[|t| - 1] == s[|s| - 1]
    ensures forall i :: 0 <= i < |t| ==> t[i] in s
  {
    if |s| <= 1 then s
    else if s[0] == '-' && s[1] == '-' then
      var t := CollapseDashes(s[1..]);
      assert forall i :: 0 <= i < |t| ==> t[i] in s[1..];
      t
    else
      var rest := CollapseDashes(s[1..]);
      assert forall i :: 0 <= i < |rest| ==> rest[i] in s[1..];
      [s[0]] + rest
  }

  /** `.replace(/^-|-$/g, '')`: one leading and one trailing dash go. */
  function TrimDashes(s: string): (t: string)
    ensures |t| <= |s|
    ensures forall i :: 0 <= i < |t| ==> t[i] in s
  {
    var a := if |s| > 0 && s[0] == '-' then s[1..] else s;
    assert forall i :: 0 <= i < |a| ==> a[i] in s;
    if |a| > 0 && a[|a| - 1] == '-' then a[..|a| - 1] else a
  }

  /** The subdomain slug of createOrganization: lower-case, Swedish letters
      folded to ASCII, everything else outside `[a-z0-9]` a dash, dash runs
      collapsed, and a dash at either end removed. */
  function Slugify(s: string): (r: string)
    ensures IsSubdomainSlug(r)
  {
    var masked := Mask(FoldSwedish(Lowercase(s)));
    var collapsed := CollapseDashes(masked);
    assert forall i :: 0 <= i < |collapsed| ==> IsSlugChar(collapsed[i]);
    var r := TrimDashes(collapsed);
    var a := if |collapsed| > 0 && collapsed[0] == '-' then collapsed[1..] else collapsed;
    assert NoDoubleDash(a);
    assert r == if |a| > 0 && a[|a| - 1] == '-' then a[..|a| - 1] else a;
    assert a != [] ==> a[0] != '-';
    r
  }

  /** The subdomain createOrganization stores: the slug of the `subdomain`
      field, or of the name when that field is empty; rejected below three
      characters. */
  function SubdomainFor(field: string, name: string): (r: Outcome<string>)
    ensures r.Ok? ==> |r.value| >= 3 && IsSubdomainSlug(r.value)
    ensures r.Ok? ==> r.value == Slugify(if field != "" then field else name)
    ensures r.Fail? <==> |Slugify(if field != "" then field else name)| < 3
    ensures r.Fail? ==> r.failure == Reported(SubdomainTooShort)
  {
    var slug := Slugify(if field != "" then field else name);
    if |slug| < 3 then Fail(Reported(SubdomainTooShort)) else Ok(slug)
  }

  /** Letters, digits and the Swedish letters å, ä, ö in either case. */
  predicate IsWordChar(c: char)
  {
    'a' <= c <= 'z' || 'A' <= c <= 'Z' || '0' <= c <= '9' ||
    c == 'å' || c == 'ä' || c == 'ö' || c == 'Å' || c == 'Ä' || c == 'Ö'
  }

  lemma {:induction false} CollapseIdle(s: string)
    requires NoDoubleDash(s)
    ensures CollapseDashes(s) == s
  {
    if |s| > 1 {
      assert NoDoubleDash(s[1..]);
      CollapseIdle(s[1..]);
    }
  }

  /** A single word keeps its length: each letter is lower-cased, å and ä
      become a, ö becomes o, digits stay. */
  lemma WordSlug(s: string)
    requires forall i :: 0 <= i < |s| ==> IsWordChar(s[i])
    ensures |Slugify(s)| == |s|
    ensures forall i :: 0 <= i < |s| ==> Slugify(s)[i] == FoldChar(LowerChar(s[i]))
    ensures '-' !in Mask(FoldSwedish(Lowercase(s))) && Slugify(s) == Mask(FoldSwedish(Lowercase(s)))
  {
    var lowered := Lowercase(s);
    var folded := FoldSwedish(lowered);
    var masked := Mask(folded);
    forall i | 0 <= i < |s|
      ensures masked[i] == FoldChar(LowerChar(s[i])) && masked[i] != '-'
    {
      assert folded[i] == FoldChar(LowerChar(s[i]));
    }
    assert NoDoubleDash(masked);
    CollapseIdle(masked);
    assert TrimDashes(masked) == masked;
  }

  /** In particular å and ä become a and ö becomes o, in either case. */
  lemma {:induction false} SwedishLetters()
    ensures forall c :: c == 'å' || c == 'ä' || c == 'Å' || c == 'Ä' ==> FoldChar(LowerChar(c)) == 'a'
    ensures forall c :: c == 'ö' || c == 'Ö' ==> FoldChar(LowerChar(c)) == 'o'
  {
  }

  /** The first three steps leave slug characters alone. */
  lemma SlugCharsFixed(r: string)
    requires forall i :: 0 <= i < |r| ==> IsSlugChar(r[i])
    ensures Mask(FoldSwedish(Lowercase(r))) == r
  {
    var lowered := Lowercase(r);
    var folded := FoldSwedish(lowered);
    forall i | 0 <= i < |r| ensures MaskChar(folded[i]) == r[i] {
      assert IsSlugChar(r[i]);
      assert lowered[i] == r[i];
    }
  }

  /** Slugifying a slug changes nothing. */
  lemma SlugifyIdempotent(s: string)
    ensures Slugify(Slugify(s)) == Slugify(s)
  {
    var r := Slugify(s);
    SlugCharsFixed(r);
    CollapseIdle(r);
    assert TrimDashes(r) == r;
  }

  /** A run of `n` dashes. */
  function Dashes(n: nat): (d: string)
    ensures |d| == n && forall i :: 0 <= i < n ==> d[i] == '-'
  {
    seq(n, i => '-')
  }

  /** Characters other than a dash pass through the collapse unchanged. */
  lemma {:induction false} CollapseKeepsWord(w: string, s: string)
    requires '-' !in w
    ensures CollapseDashes(w + s) == w + CollapseDashes(s)
  {
    if w != [] {
      var ws := w + s;
      assert ws[0] == w[0] && w[0] != '-';
      assert ws[1..] == w[1..] + s;
      CollapseKeepsWord(w[1..], s);
      if |ws| > 1 {
        calc {
          CollapseDashes(ws);
          [w[0]] + CollapseDashes(w[1..] + s);
          [w[0]] + (w[1..] + CollapseDashes(s));
          ([w[0]] + w[1..]) + CollapseDashes(s);
          { assert [w[0]] + w[1..] == w; }
          w + CollapseDashes(s);
        }
      } else {
        assert s == [] && ws == w;
      }
    } else {
      assert w + s == s;
    }
  }

  /** A maximal run of dashes becomes a single dash. */
  lemma {:induction false} CollapseRun(n: nat, s: string)
    requires n >= 1
    requires s == [] || s[0] != '-'
    ensures CollapseDashes(Dashes(n) + s) == "-" + CollapseDashes(s)
  {
    var d := Dashes(n) + s;
    if n == 1 {
      if s != [] {
        assert d[1..] == s;
        assert d[0] == '-' && d[1] != '-';
      }
    } else {
      assert d[0] == '-' && d[1] == '-';
      assert d[1..] == Dashes(n - 1) + s;
      CollapseRun(n - 1, s);
    }
  }

  /** Between two dash-free words, a run of dashes collapses to one. */
  lemma {:induction false} CollapseBetween(x: string, n: nat, y: string)
    requires '-' !in x && '-' !in y && y != [] && n >= 1
    ensures CollapseDashes(x + Dashes(n) + y) == x + "-" + y
  {
    var d := Dashes(n) + y;
    assert x + Dashes(n) + y == x + d;
    assert y[0] in y;
    CollapseRun(n, y);
    assert CollapseDashes(d) == "-" + CollapseDashes(y);
    CollapseIdleWord(y);
    CollapseKeepsWord(x, d);
    assert x + ("-" + y) == x + "-" + y;
  }

  /** A dash-free string is untouched by the collapse. */
  lemma {:induction false} CollapseIdleWord(y: string)
    requires '-' !in y
    ensures CollapseDashes(y) == y
  {
    assert NoDoubleDash(y) by {
      forall i | 0 <= i < |y| - 1 ensures y[i] != '-' { assert y[i] in y; }
    }
    CollapseIdle(y);
  }

  /** The first three steps of the slug work character by character. */
  lemma MaskAppend(a: string, b: string)
    ensures Mask(FoldSwedish(Lowercase(a + b))) == Mask(FoldSwedish(Lowercase(a))) + Mask(FoldSwedish(Lowercase(b)))
  {
    var x, y := Mask(FoldSwedish(Lowercase(a))), Mask(FoldSwedish(Lowercase(b)));
    var m := Mask(FoldSwedish(Lowercase(a + b)));
    forall i | 0 <= i < |m| ensures m[i] == (x + y)[i] {
      if i < |a| { assert (a + b)[i] == a[i]; } else { assert (a + b)[i] == b[i - |a|]; }
    }
  }

  /** A character outside the word characters turns into a dash. */
  lemma SeparatorMasked(sep: string)
    requires forall i :: 0 <= i < |sep| ==> !IsWordChar(sep[i])
    ensures Mask(FoldSwedish(Lowercase(sep))) == Dashes(|sep|)
  {
  }

  /** The masked form of two words and a separator. */
  lemma {:induction false} MaskSeparated(a: string, sep: string, b: string)
    requires forall i :: 0 <= i < |sep| ==> !IsWordChar(sep[i])
    ensures Mask(FoldSwedish(Lowercase(a + sep + b))) ==
            Mask(FoldSwedish(Lowercase(a))) + Dashes(|sep|) + Mask(FoldSwedish(Lowercase(b)))
  {
    MaskAppend(a + sep, b);
    MaskAppend(a, sep);
    SeparatorMasked(sep);
  }

  /** Two words with any run of separators between them (spaces,
      punctuation) become the two word slugs joined by one dash. */
  lemma {:induction false} SeparatedWords(a: string, sep: string, b: string)
    requires a != [] && b != [] && sep != []
    requires forall i :: 0 <= i < |a| ==> IsWordChar(a[i])
    requires forall i :: 0 <= i < |b| ==> IsWordChar(b[i])
    requires forall i :: 0 <= i < |sep| ==> !IsWordChar(sep[i])
    ensures Slugify(a + sep + b) == Slugify(a) + "-" + Slugify(b)
  {
    var x, y := Mask(FoldSwedish(Lowercase(a))), Mask(FoldSwedish(Lowercase(b)));
    WordSlug(a);
    WordSlug(b);
    MaskSeparated(a, sep, b);
    CollapseBetween(x, |sep|, y);
    TrimBetween(x, y);
  }

  /** Two non-empty dash-free words joined by a dash have no dash to trim. */
  lemma {:induction false} TrimBetween(x: string, y: string)
    requires x != [] && y != [] && '-' !in x && '-' !in y
    ensures TrimDashes(x + "-" + y) == x + "-" + y
  {
    var c := x + "-" + y;
    assert c[0] == x[0] && x[0] in x;
    assert c[|c| - 1] == y[|y| - 1] && y[|y| - 1] in y;
  }

  // ---------------------------------------------------------------------
  // Initial configuration (TYPE_DEFAULTS)
  // ---------------------------------------------------------------------

  /** The default module flags per organization type. */
  const TypeDefaults: map<string, Config> := map[
    "road" := map[
      "show_snow_status" := Flag(true), "show_documents" := Flag(true), "show_board" := Flag(true),
      "show_contact_widget" := Flag(true), "show_news" := Flag(true)],
    "brf" := map[
      "show_booking" := Flag(true), "show_documents" := Flag(true), "show_board" := Flag(true),
      "show_calendar_widget" := Flag(true), "show_contact_widget" := Flag(true),
      "show_broker_info" := Flag(true), "show_news" := Flag(true)],
    "boat" := map[
      "show_booking" := Flag(true), "show_calendar_widget" := Flag(true), "show_water_status" := Flag(true),
      "show_contact_widget" := Flag(true), "show_board" := Flag(true), "show_news" := Flag(true)],
    "cabin" := map[
      "show_water_status" := Flag(true), "show_calendar_widget" := Flag(true), "show_documents" := Flag(true),
      "show_contact_widget" := Flag(true), "show_board" := Flag(true), "show_news" := Flag(true)],
    "hunt" := map[
      "show_calendar_widget" := Flag(true), "show_news" := Flag(true), "show_documents" := Flag(true),
      "show_board" := Flag(false), "show_contact_widget" := Flag(false),
      "show_membership_form" := Flag(true), "show_snow_status" := Flag(true),
      "snow_status_text" := Text("Ingen jakt")],
    "venue" := map[
      "show_booking" := Flag(true), "show_calendar_widget" := Flag(true),
      "show_contact_widget" := Flag(true), "show_news" := Flag(true)],
    "other" := map[
      "show_documents" := Flag(true), "show_contact_widget" := Flag(true), "show_news" := Flag(true)]
  ]

  /** `TYPE_DEFAULTS[type] || TYPE_DEFAULTS['other']` */
  function DefaultsFor(orgType: string): Config
  {
    if orgType in TypeDefaults then TypeDefaults[orgType] else TypeDefaults["other"]
  }

  /** `{ show_news: true, ...typeConfig }`: the type's defaults layered over
      `show_news: true`. */
  function InitialConfig(orgType: string): (c: Config)
    ensures "show_news" in c && c["show_news"] == Flag(true)
    ensures c.Keys == DefaultsFor(orgType).Keys + {"show_news"}
    ensures forall k :: k in DefaultsFor(orgType) ==> c[k] == DefaultsFor(orgType)[k]
  {
    map["show_news" := Flag(true)] + DefaultsFor(orgType)
  }

  /** A type without an entry gets the configuration of `other`. */
  lemma UnknownTypeFallsBack(orgType: string)
    requires orgType !in TypeDefaults
    ensures InitialConfig(orgType) == InitialConfig("other")
  {
  }

  /** The configuration of a new hunting team. */
  lemma HuntConfig()
    ensures var c := InitialConfig("hunt");
            && c["show_calendar_widget"] == Flag(true)
            && c["show_board"] == Flag(false)
            && c["show_contact_widget"] == Flag(false)
            && c["show_membership_form"] == Flag(true)
            && c["snow_status_text"] == Text("Ingen jakt")
            && c["show_news"] == Flag(true)
            && !Truthy(c, "show_board") && !Truthy(c, "show_booking")
  {
  }

  // ---------------------------------------------------------------------
  // Module toggle (updateModuleStatus)
  // ---------------------------------------------------------------------

  /** `{ ...config, [key]: value }` */
  function ToggleModule(config: Config, key: string, value: bool): (r: Config)
    ensures r.Keys == config.Keys + {key}
    ensures r[key] == Flag(value) && (Truthy(r, key) <==> value)
    ensures forall k :: k in config && k != key ==> r[k] == config[k]
  {
    config[key := Flag(value)]
  }

  // ---------------------------------------------------------------------
  // Storage quota (checkStorageQuota, updateStorageUsage)
  // ---------------------------------------------------------------------

  datatype QuotaVerdict = Allowed | Denied(message: string)

  /** The verdict of checkStorageQuota for an upload of `size` bytes. */
  function QuotaCheck(used: Option<int>, limit: Option<int>, size: int): (v: QuotaVerdict)
    ensures v == Allowed <==> OrZero(used) + size <= OrZero(limit)
    ensures v.Denied? ==> v.message == StorageFull
  {
    if OrZero(used) + size > OrZero(limit) then Denied(StorageFull) else Allowed
  }

  /** `storage_used` after updateStorageUsage records an upload of `size` bytes. */
  function UsageAfter(used: Option<int>, size: int): (u: int)
    ensures u - OrZero(used) == size
  {
    OrZero(used) + size
  }

  /** An upload the quota check allows, once recorded, stays within the limit;
      one it denies would have exceeded it. */
  lemma QuotaKeepsUsageWithinLimit(used: Option<int>, limit: Option<int>, size: int)
    ensures QuotaCheck(used, limit, size) == Allowed <==> UsageAfter(used, size) <= OrZero(limit)
  {
  }

  // ---------------------------------------------------------------------
  // Page slug (createPage) and sponsor URL (addSponsor)
  // ---------------------------------------------------------------------

  /** `.replace(/ /g, '-')` on one character. */
  function SpaceToDash(c: char): char
  {
    if c == ' ' then '-' else c
  }

  /** `.replace(/[^a-z0-9-]/g, '')` */
  function KeepSlugChars(s: string): (t: string)
    ensures |t| <= |s|
    ensures forall i :: 0 <= i < |t| ==> IsSlugChar(t[i])
    ensures (forall i :: 0 <= i < |s| ==> IsSlugChar(s[i])) ==> t == s
  {
    if s == [] then []
    else if IsSlugChar(s[0]) then [s[0]] + KeepSlugChars(s[1..])
    else KeepSlugChars(s[1..])
  }

  /** The page slug of createPage: lower-case, spaces to dashes, Swedish
      letters folded, everything outside `[a-z0-9-]` dropped. */
  function PageSlug(title: string): (slug: string)
    ensures |slug| <= |title|
    ensures forall i :: 0 <= i < |slug| ==> IsSlugChar(slug[i])
  {
    var spaced := seq(|title|, i requires 0 <= i < |title| => SpaceToDash(LowerChar(title[i])));
    KeepSlugChars(FoldSwedish(spaced))
  }

  /** A title of words and single spaces loses nothing: each space becomes a
      dash and each letter its folded lower-case form. */
  lemma PlainTitleSlug(title: string)
    requires forall i :: 0 <= i < |title| ==> IsWordChar(title[i]) || title[i] == ' '
    ensures |PageSlug(title)| == |title|
    ensures forall i :: 0 <= i < |title| ==>
              PageSlug(title)[i] == if title[i] == ' ' then '-' else FoldChar(LowerChar(title[i]))
  {
    var spaced := seq(|title|, i requires 0 <= i < |title| => SpaceToDash(LowerChar(title[i])));
    assert forall i :: 0 <= i < |title| ==> IsSlugChar(FoldSwedish(spaced)[i]);
  }

  /** `KeepSlugChars` is a filter: it works on each part of a string
      separately. */
  lemma {:induction false} KeepSlugCharsAppend(s: string, t: string)
    ensures KeepSlugChars(s + t) == KeepSlugChars(s) + KeepSlugChars(t)
  {
    if s == [] {
      assert s + t == t;
    } else {
      assert (s + t)[0] == s[0] && (s + t)[1..] == s[1..] + t;
      KeepSlugCharsAppend(s[1..], t);
    }
  }

  /** A single character is kept exactly when it is a slug character. */
  lemma {:induction false} KeepSlugChar(c: char)
    ensures KeepSlugChars([c]) == if IsSlugChar(c) then [c] else []
  {
    assert [c][1..] == [];
  }

  /** What one title character contributes to the page slug before filtering. */
  function PageChar(c: char): char
  {
    FoldChar(SpaceToDash(LowerChar(c)))
  }

  /** The page slug works character by character: the slug of a title is the
      slug of its first part followed by the slug of the rest. */
  lemma PageSlugAppend(a: string, b: string)
    ensures PageSlug(a + b) == PageSlug(a) + PageSlug(b)
  {
    var sa := seq(|a|, i requires 0 <= i < |a| => SpaceToDash(LowerChar(a[i])));
    var sb := seq(|b|, i requires 0 <= i < |b| => SpaceToDash(LowerChar(b[i])));
    var ab := a + b;
    var sab := seq(|ab|, i requires 0 <= i < |ab| => SpaceToDash(LowerChar(ab[i])));
    assert FoldSwedish(sab) == FoldSwedish(sa) + FoldSwedish(sb) by {
      forall i | 0 <= i < |ab| ensures FoldSwedish(sab)[i] == (FoldSwedish(sa) + FoldSwedish(sb))[i] {
        if i < |a| { assert ab[i] == a[i]; } else { assert ab[i] == b[i - |a|]; }
      }
    }
    KeepSlugCharsAppend(FoldSwedish(sa), FoldSwedish(sb));
  }

  /** One title character becomes its lower-case, dash-for-space, folded form
      when that is a slug character, and disappears otherwise. */
  lemma PageSlugChar(c: char)
    ensures PageSlug([c]) == if IsSlugChar(PageChar(c)) then [PageChar(c)] else []
  {
    var spaced := seq(1, i requires 0 <= i < 1 => SpaceToDash(LowerChar([c][i])));
    assert FoldSwedish(spaced) == [PageChar(c)];
    KeepSlugChar(PageChar(c));
  }

  /** A page slug is its own slug. */
  lemma PageSlugIdempotent(title: string)
    ensures PageSlug(PageSlug(title)) == PageSlug(title)
  {
    var s := PageSlug(title);
    var spaced := seq(|s|, i requires 0 <= i < |s| => SpaceToDash(LowerChar(s[i])));
    assert FoldSwedish(spaced) == s;
  }

  /** addSponsor: a non-empty website without an `http` prefix gets `https://`. */
  function NormalizeUrl(url: string): (r: string)
    ensures url == "" ==> r == ""
    ensures url != "" ==> StartsWith(r, "http")
    ensures StartsWith(url, "http") ==> r == url
    ensures url != "" && !StartsWith(url, "http") ==> r == "https://" + url
  {
    if url != "" && !StartsWith(url, "http") then "https://" + url else url
  }

  lemma NormalizeUrlIdempotent(url: string)
    ensures NormalizeUrl(NormalizeUrl(url)) == NormalizeUrl(url)
  {
  }
}

/** Host-based routing (middleware.ts): every request is classified by its
    host header as the admin application (`app.<root>`), the landing site
    (`<root>`) or a tenant site (`<label>.<root>`), and its path is rewritten
    into the matching route namespace. The root domain is the value of
    NEXT_PUBLIC_ROOT_DOMAIN, passed in as `root`. */
module Middleware {
  import opened Common
  import opened Text

  /** The development host suffix the middleware rewrites to the root domain. */
  const DevSuffix := ".localhost:3000"

  datatype Site = AdminApp | Landing | Tenant(subdomain: string)

  /** Where a request is sent: which site it belongs to and the rewritten path. */
  datatype Rewrite = Rewrite(site: Site, target: string)

  /** The host name used for classification: the first `.localhost:3000` is
      replaced by `.` + root, then a port (everything from the first `:`)
      is dropped. */
  function NormalizeHost(host: string, root: string): (h: string)
    ensures ':' !in h
    ensures var local := ReplaceFirst(host, DevSuffix, "." + root);
            |h| <= |local| && h == local[..|h|] && (':' !in local ==> h == local)
    ensures var local := ReplaceFirst(host, DevSuffix, "." + root);
            ':' in local ==> |h| < |local| && local[|h|] == ':'
  {
    var local := ReplaceFirst(host, DevSuffix, "." + root);
    ContainsChar(local, ':');
    if Contains(local, ":") then SplitHead(local, ':') else local
  }

  /** The pathname, followed by `?` and the query string when there is one. */
  function LogicalPath(pathname: string, query: string): (path: string)
    ensures query == [] ==> path == pathname
    ensures query != [] ==> path == pathname + ['?'] + query
  {
    pathname + (if |query| > 0 then "?" + query else "")
  }

  /** The rewrite `middleware` performs for a request. Exactly one of the
      three sites applies to every host. */
  function Route(host: string, pathname: string, query: string, root: string): (r: Rewrite)
    ensures r.site == AdminApp <==> NormalizeHost(host, root) == "app." + root
    ensures r.site == Landing <==> NormalizeHost(host, root) == root
    ensures r.site.Tenant? <==>
            NormalizeHost(host, root) != "app." + root && NormalizeHost(host, root) != root
  {
    var hostname := NormalizeHost(host, root);
    var path := LogicalPath(pathname, query);
    if hostname == "app." + root then
      if path == "/login" then Rewrite(AdminApp, "/login")
      else Rewrite(AdminApp, "/dashboard" + ReplaceFirst(path, "/dashboard", ""))
    else if hostname == root then
      Rewrite(Landing, path)
    else
      var subdomain := SplitHead(hostname, '.');
      Rewrite(Tenant(subdomain), "/sites/" + subdomain + path)
  }

  /** On the admin host, `/login` stays `/login` and every other request lands
      under `/dashboard`, with the first `/dashboard` of the path removed: a
      path already under `/dashboard` is not prefixed a second time, a path
      that never mentions `/dashboard` is prefixed, and one that mentions it
      further in loses that occurrence. */
  lemma AdminRewrite(host: string, pathname: string, query: string, root: string)
    requires NormalizeHost(host, root) == "app." + root
    ensures var path, r := LogicalPath(pathname, query), Route(host, pathname, query, root);
            && r.site == AdminApp
            && (path == "/login" ==> r.target == "/login")
            && (path != "/login" ==> StartsWith(r.target, "/dashboard"))
            && (path != "/login" && StartsWith(path, "/dashboard") ==> r.target == path)
            && (path != "/login" && !Contains(path, "/dashboard") ==> r.target == "/dashboard" + path)
            && (path != "/login" && Contains(path, "/dashboard") ==>
                  var k := IndexOf(path, "/dashboard").value;
                  k + 10 <= |path| && r.target == "/dashboard" + path[..k] + path[k + 10..])
  {
    var path := LogicalPath(pathname, query);
    if path != "/login" && StartsWith(path, "/dashboard") {
      ReplaceFirstAtStart(path, "/dashboard", "");
      assert path == "/dashboard" + path[10..];
    }
  }

  /** `/s/dashboard` on the admin host loses its inner `/dashboard`. */
  lemma {:induction false} AdminInnerDashboard(host: string, root: string)
    requires NormalizeHost(host, root) == "app." + root
    ensures Route(host, "/s/dashboard", "", root) == Rewrite(AdminApp, "/dashboard/s")
  {
    var path := "/s/dashboard";
    assert LogicalPath(path, "") == path;
    assert OccursAt(path, "/dashboard", 2) by { assert path[2..12] == "/dashboard"; }
    assert !OccursAt(path, "/dashboard", 0) by { assert path[0..10][1] == 's'; }
    assert !OccursAt(path, "/dashboard", 1) by { assert path[1..11][0] == 's'; }
    assert IndexOf(path, "/dashboard") == Some(2);
    assert path[..2] == "/s" && path[12..] == [];
  }

  /** The landing host keeps the path as it is. */
  lemma LandingRewrite(host: string, pathname: string, query: string, root: string)
    requires NormalizeHost(host, root) == root
    ensures Route(host, pathname, query, root) == Rewrite(Landing, LogicalPath(pathname, query))
  {
    assert root != "app." + root by { assert |"app." + root| == |root| + 4; }
  }

  /** Any other host goes to `/sites/<tenant>` + path, where the label is the
      host name up to its first dot. */
  lemma TenantRewrite(host: string, pathname: string, query: string, root: string)
    requires NormalizeHost(host, root) != "app." + root && NormalizeHost(host, root) != root
    ensures var hostname, r := NormalizeHost(host, root), Route(host, pathname, query, root);
            && r.site.Tenant?
            && '.' !in r.site.subdomain && ':' !in r.site.subdomain
            && r.site.subdomain == hostname[..|r.site.subdomain|]
            && ('.' in hostname ==> hostname[|r.site.subdomain|] == '.')
            && ('.' !in hostname ==> r.site.subdomain == hostname)
            && r.target == "/sites/" + r.site.subdomain + LogicalPath(pathname, query)
  {
    var hostname := NormalizeHost(host, root);
    var sub := SplitHead(hostname, '.');
    assert ':' !in sub by {
      forall i | 0 <= i < |sub| ensures sub[i] != ':' { assert sub[i] == hostname[i]; }
    }
  }

  /** A host without a colon cannot contain `.localhost:3000`. */
  lemma {:induction false} NoDevSuffixWithoutColon(host: string)
    requires ':' !in host
    ensures !Contains(host, DevSuffix)
  {
    forall k: nat ensures !OccursAt(host, DevSuffix, k) {
      if k + 15 <= |host| {
        assert host[k..k + 15][10] == host[k + 10];
      }
    }
    ContainsIff(host, DevSuffix);
  }

  /** A host without a colon is used as it is. */
  lemma {:induction false} PlainHost(host: string, root: string)
    requires ':' !in host
    ensures NormalizeHost(host, root) == host
  {
    NoDevSuffixWithoutColon(host);
  }

  /** `host:port` is classified as `host`. */
  lemma {:induction false} PortDropped(name: string, port: string, root: string)
    requires ':' !in name
    requires !Contains(name + ":" + port, DevSuffix)
    ensures NormalizeHost(name + ":" + port, root) == name
  {
    var host := name + ":" + port;
    assert host[|name|] == ':';
    assert host[..|name|] == name;
    assert forall j :: 0 <= j < |name| ==> host[j] == name[j];
    var h := NormalizeHost(host, root);
    assert forall j :: 0 <= j < |h| ==> h[j] == host[j];
  }

  /** A host name without a dot, such as a bare `localhost:3000`, is neither
      the admin host nor the root domain: it is a tenant named by the whole
      host name. */
  lemma {:induction false} DotlessTenant(name: string, port: string, pathname: string, query: string, root: string)
    requires '.' !in name && ':' !in name && name != root
    requires !Contains(name + ":" + port, DevSuffix)
    ensures Route(name + ":" + port, pathname, query, root) ==
            Rewrite(Tenant(name), "/sites/" + name + LogicalPath(pathname, query))
  {
    PortDropped(name, port, root);
    assert name != "app." + root by { assert ("app." + root)[3] == '.'; }
    TenantRewrite(name + ":" + port, pathname, query, root);
  }

  /** In development, `<label>.localhost:3000` is the tenant `<label>`. */
  lemma {:induction false} DevTenant(tenant: string, pathname: string, query: string, root: string)
    requires '.' !in tenant && ':' !in tenant && ':' !in root
    requires tenant != "app"
    ensures Route(tenant + DevSuffix, pathname, query, root) ==
            Rewrite(Tenant(tenant), "/sites/" + tenant + LogicalPath(pathname, query))
  {
    var host := tenant + DevSuffix;
    var n := |tenant|;
    assert OccursAt(host, DevSuffix, n) by { assert host[n..n + 15] == DevSuffix; }
    forall k: nat | k < n ensures !OccursAt(host, DevSuffix, k) {
      assert host[k..k + 15][10] == host[k + 10];
      if k + 10 < n {
        assert host[k + 10] == tenant[k + 10];
      } else {
        assert host[k + 10] == DevSuffix[k + 10 - n];
      }
    }
    var local := ReplaceFirst(host, DevSuffix, "." + root);
    assert local == tenant + "." + root by {
      assert IndexOf(host, DevSuffix) == Some(n);
      assert host[..n] == tenant;
      assert host[n + 15..] == [];
    }
    assert ':' !in local;
    assert NormalizeHost(host, root) == local;
    if n == 3 {
      assert local[..3] == tenant;
      assert ("app." + root)[..3] == "app";
    }
    assert |local| > |root|;
    var sub := SplitHead(local, '.');
    assert local[n] == '.';
    assert forall j :: 0 <= j < n ==> local[j] == tenant[j];
    assert |sub| == n;
    assert local[..n] == tenant;
  }
}

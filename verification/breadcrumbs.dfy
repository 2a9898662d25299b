/** The breadcrumb trail shown above each page, derived from the route path
    and the names of the portfolio and security it refers to (absent while
    unknown). */
module Breadcrumbs {
  import opened Wrappers
  import opened Paths

  /** One breadcrumb: a title (the label shown), an optional link, and whether it is the
      current page (an absent `current` flag reads as false). */
  datatype Item = Item(title: string, href: Option<string>, current: bool)

  /** The portfolio and security ids read off the path segments. */
  datatype RouteIds = RouteIds(portfolioId: Option<string>, securityId: Option<string>)

  const PortfolioPrefix: string := "/portfolio/"
  const SecurityInfix: string := "/security/"

  /** The trail of the home page and of any unrecognised path. */
  const Home := Item("Portfolios", None, true)

  /** The first item of a deeper trail: a link back home. */
  const HomeLink := Item("Portfolios", Some("/"), false)

  /** `[^\/]+`: a non-empty run of characters other than `/`. */
  predicate IsSegment(s: string) {
    |s| > 0 && NoSlash(s)
  }

  /** The portfolio id is the segment after a leading "portfolio"; the
      security id, only when there is a portfolio id, is the segment after a
      following "security". */
  function RouteParams(segs: seq<string>): (ids: RouteIds)
    ensures ids.securityId.Some? ==> ids.portfolioId.Some?
    ensures ids.portfolioId.Some? ==> |segs| > 1 && segs[0] == "portfolio" && segs[1] != "" && ids.portfolioId.value == segs[1]
    ensures ids.securityId.Some? ==> |segs| > 3 && segs[2] == "security" && segs[3] != "" && ids.securityId.value == segs[3]
    ensures |segs| > 1 && segs[0] == "portfolio" && segs[1] != "" ==> ids.portfolioId == Some(segs[1])
    ensures ids.portfolioId.Some? && |segs| > 3 && segs[2] == "security" && segs[3] != "" ==>
      ids.securityId == Some(segs[3])
  {
    if |segs| > 1 && segs[0] == "portfolio" && segs[1] != "" then
      var securityId := if |segs| > 3 && segs[2] == "security" && segs[3] != "" then Some(segs[3]) else None;
      RouteIds(Some(segs[1]), securityId)
    else
      RouteIds(None, None)
  }

  /** Index of the first `/` in `s`, or `|s|` when there is none. */
  function SlashIndex(s: string): (k: nat)
    ensures k <= |s| && NoSlash(s[..k])
    ensures k < |s| ==> s[k] == '/'
  {
    if |s| == 0 || s[0] == '/' then 0
    else
      var k := 1 + SlashIndex(s[1..]);
      assert s[..k] == [s[0]] + s[1..][..k - 1];
      k
  }

  /** The pattern `^\/portfolio\/[^\/]+$`. */
  predicate IsPortfolioPage(p: string) {
    && |p| > |PortfolioPrefix|
    && p[..|PortfolioPrefix|] == PortfolioPrefix
    && NoSlash(p[|PortfolioPrefix|..])
  }

  /** The pattern `^\/portfolio\/[^\/]+\/security\/[^\/]+$`. The first
      segment cannot hold a `/`, so the infix starts at the first `/` after
      the prefix. */
  predicate IsSecurityPage(p: string) {
    && |p| > |PortfolioPrefix|
    && p[..|PortfolioPrefix|] == PortfolioPrefix
    && var rest := p[|PortfolioPrefix|..];
       var k := SlashIndex(rest);
       && 0 < k
       && |rest| - k > |SecurityInfix|
       && rest[k..k + |SecurityInfix|] == SecurityInfix
       && NoSlash(rest[k + |SecurityInfix|..])
  }

  /** The trail for `pathname`. */
  function Breadcrumbs(pathname: string, portfolioName: Option<string>, securityName: Option<string>): (items: seq<Item>)
    ensures 1 <= |items| <= 3
    ensures items[|items| - 1].current
    ensures forall k :: 0 <= k < |items| - 1 ==> !items[k].current && items[k].href.Some?
    ensures items[0].title == "Portfolios"
    ensures |items| == 1 <==> !IsPortfolioPage(pathname) && !IsSecurityPage(pathname)
    ensures |items| == 1 ==> items == [Home]
    ensures |items| == 2 <==> IsPortfolioPage(pathname)
    ensures |items| == 3 <==> IsSecurityPage(pathname)
  {
    PagePatternsDisjoint(pathname);
    var ids := RouteParams(Segments(pathname));
    if pathname == "/" then
      [Home]
    else if IsPortfolioPage(pathname) then
      [HomeLink, Item(portfolioName.GetOr(""), None, true)]
    else if IsSecurityPage(pathname) then
      var portfolioHref := if ids.portfolioId.Some? then PortfolioPrefix + ids.portfolioId.value else "/";
      [HomeLink, Item(portfolioName.GetOr(""), Some(portfolioHref), false), Item(securityName.GetOr(""), None, true)]
    else
      [Home]
  }

  /** No path matches both patterns, and the home path matches neither. */
  lemma PagePatternsDisjoint(p: string)
    ensures !(IsPortfolioPage(p) && IsSecurityPage(p))
    ensures p == "/" ==> !IsPortfolioPage(p) && !IsSecurityPage(p)
  {
  }

  // ---------------------------------------------------------------------
  // What the patterns mean

  /** A path of the portfolio page shape. */
  ghost predicate PortfolioPath(p: string) {
    exists x :: IsSegment(x) && p == PortfolioPrefix + x
  }

  /** A path of the security page shape. */
  ghost predicate SecurityPath(p: string) {
    exists x, y :: IsSegment(x) && IsSegment(y) && p == PortfolioPrefix + x + SecurityInfix + y
  }

  lemma PortfolioPatternMeaning(p: string)
    ensures IsPortfolioPage(p) <==> PortfolioPath(p)
  {
    if IsPortfolioPage(p) {
      var x := p[|PortfolioPrefix|..];
      assert p == PortfolioPrefix + x;
      assert IsSegment(x);
    }
    if PortfolioPath(p) {
      var x :| IsSegment(x) && p == PortfolioPrefix + x;
      assert p[|PortfolioPrefix|..] == x;
    }
  }

  lemma {:induction false} SlashIndexOf(x: string, tail: string)
    requires NoSlash(x) && |tail| > 0 && tail[0] == '/'
    ensures SlashIndex(x + tail) == |x|
  {
    if |x| > 0 {
      assert (x + tail)[1..] == x[1..] + tail;
      SlashIndexOf(x[1..], tail);
    } else {
      assert x + tail == tail;
    }
  }

  lemma SecurityPageOf(x: string, y: string)
    requires IsSegment(x) && IsSegment(y)
    ensures IsSecurityPage(PortfolioPrefix + x + SecurityInfix + y)
  {
    var p := PortfolioPrefix + x + SecurityInfix + y;
    var rest := x + SecurityInfix + y;
    assert p == PortfolioPrefix + rest;
    assert p[|PortfolioPrefix|..] == rest;
    assert p[..|PortfolioPrefix|] == PortfolioPrefix;
    SlashIndexOf(x, SecurityInfix + y);
    assert x + (SecurityInfix + y) == rest;
    assert rest[|x|..|x| + |SecurityInfix|] == SecurityInfix;
    assert rest[|x| + |SecurityInfix|..] == y;
  }

  lemma SecurityPageShape(p: string) returns (x: string, y: string)
    requires IsSecurityPage(p)
    ensures IsSegment(x) && IsSegment(y) && p == PortfolioPrefix + x + SecurityInfix + y
  {
    var rest := p[|PortfolioPrefix|..];
    var k := SlashIndex(rest);
    x := rest[..k];
    y := rest[k + |SecurityInfix|..];
    assert rest == x + rest[k..k + |SecurityInfix|] + y;
    assert p == p[..|PortfolioPrefix|] + rest;
  }

  lemma SecurityPatternMeaning(p: string)
    ensures IsSecurityPage(p) <==> SecurityPath(p)
  {
    if IsSecurityPage(p) {
      var x, y := SecurityPageShape(p);
    }
    if SecurityPath(p) {
      var x, y :| IsSegment(x) && IsSegment(y) && p == PortfolioPrefix + x + SecurityInfix + y;
      SecurityPageOf(x, y);
    }
  }

  // ---------------------------------------------------------------------
  // The trails

  /** The home page has the single current "Portfolios" item. */
  lemma HomeTrail(portfolioName: Option<string>, securityName: Option<string>)
    ensures Breadcrumbs("/", portfolioName, securityName) == [Home]
  {
  }

  lemma PortfolioSegments(x: string)
    requires IsSegment(x)
    ensures Segments(PortfolioPrefix + x) == ["portfolio", x]
  {
    var segs := ["portfolio", x];
    assert Join(segs) == "portfolio" + "/" + x by {
      assert segs[1..] == [x];
    }
    assert PortfolioPrefix + x == "/" + Join(segs);
    SegmentsOfRootedPath(segs);
  }

  lemma SecuritySegments(x: string, y: string)
    requires IsSegment(x) && IsSegment(y)
    ensures Segments(PortfolioPrefix + x + SecurityInfix + y) == ["portfolio", x, "security", y]
  {
    var segs := ["portfolio", x, "security", y];
    JoinCons("security", [y]);
    assert ["security"] + [y] == segs[2..];
    JoinCons(x, segs[2..]);
    assert [x] + segs[2..] == segs[1..];
    JoinCons("portfolio", segs[1..]);
    assert [segs[0]] + segs[1..] == segs;
    assert Join([y]) == y;
    assert "/" + Join(segs) == "/" + "portfolio" + "/" + (x + ("/" + "security" + "/" + y));
    assert "/" + "portfolio" + "/" == PortfolioPrefix;
    assert "/" + "security" + "/" == SecurityInfix;
    assert PortfolioPrefix + x + SecurityInfix + y == "/" + Join(segs);
    SegmentsOfRootedPath(segs);
  }

  /** A portfolio page has the home link and then the current portfolio,
      named "" while the name is unknown; its path yields the portfolio id
      and no security id. */
  lemma PortfolioTrail(x: string, portfolioName: Option<string>, securityName: Option<string>)
    requires IsSegment(x)
    ensures RouteParams(Segments(PortfolioPrefix + x)) == RouteIds(Some(x), None)
    ensures Breadcrumbs(PortfolioPrefix + x, portfolioName, securityName)
      == [HomeLink, Item(portfolioName.GetOr(""), None, true)]
  {
    PortfolioSegments(x);
    PortfolioPatternMeaning(PortfolioPrefix + x);
  }

  /** A security page has the home link, the portfolio linking to its own
      page, and then the current security. The portfolio id is always found
      on such a path, so the link never falls back to "/". */
  lemma SecurityTrail(x: string, y: string, portfolioName: Option<string>, securityName: Option<string>)
    requires IsSegment(x) && IsSegment(y)
    ensures RouteParams(Segments(PortfolioPrefix + x + SecurityInfix + y)) == RouteIds(Some(x), Some(y))
    ensures Breadcrumbs(PortfolioPrefix + x + SecurityInfix + y, portfolioName, securityName)
      == [HomeLink,
          Item(portfolioName.GetOr(""), Some(PortfolioPrefix + x), false),
          Item(securityName.GetOr(""), None, true)]
  {
    SecuritySegments(x, y);
    SecurityPageOf(x, y);
    var p := PortfolioPrefix + x + SecurityInfix + y;
    PagePatternsDisjoint(p);
    assert p != "/";
  }
}

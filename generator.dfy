/**
 * palimpsest/generator.py: the decisions `StaticSiteGenerator` takes when it
 * turns the sitemap into one HTML file per page.
 *
 * The HTML and CSS template text is not modelled. What is kept is what the
 * template is filled with: the relative root of the page, the rewritten
 * sidebar, the logo and home links, the randomly chosen picture and the
 * title block. The two `random.choice` calls are parameters (an index into
 * the list chosen from), and file output is left out: `generate_site`
 * returns the pages it would write, in the order it would write them.
 */
module Generator {
  import opened Wrappers
  import opened PyStr
  import opened Records

  /** calculate_relative_root: "../" once per "/" of the page path. */
  function RelativeRoot(pagePath: string): (r: string)
    ensures r == Repeat("../", CountChar(pagePath, '/'))
  {
    assert "/" == ['/'];
    SplitCharCount(pagePath, '/');
    Repeat("../", |Split(pagePath, "/")| - 1)
  }

  /** A page at the top level needs no prefix. */
  lemma {:induction false} RelativeRootTop(top: string)
    requires top == "index.html"
    ensures RelativeRoot(top) == ""
  {
    assert '/' !in top;
    CharAbsent(top, "/", 0);
    CountCharAbsent(top, '/');
  }

  /** A page two directories down climbs twice. */
  lemma {:induction false} RelativeRootNested(nested: string)
    requires nested == "a/b/c.html"
    ensures RelativeRoot(nested) == "../../"
  {
    assert CountChar(nested, '/') == 2 by {
      var a, b, c := "a/", "b/", "c.html";
      assert nested == a + b + c;
      assert CountChar(a, '/') == 1 by {
        assert a[1..][1..] == [];
      }
      assert CountChar(b, '/') == 1 by {
        assert b[1..][1..] == [];
      }
      assert CountChar(c, '/') == 0 by {
        assert '/' !in c;
        CharAbsent(c, "/", 0);
        CountCharAbsent(c, '/');
      }
      CountCharAppend(a, b, '/');
      CountCharAppend(a + b, c, '/');
    }
    assert Repeat("../", 2) == "../" + ("../" + "");
  }

  // ---------------------------------------------------------------- images

  /** get_all_images: (page key, image path) of every page whose image is truthy, in sitemap order. */
  function Images(sm: Sitemap): seq<(string, string)>
    decreases |sm|
  {
    if sm == [] then []
    else
      var e := sm[|sm| - 1];
      Images(sm[..|sm| - 1]) + (if HasImage(e.1) then [(e.0, e.1.image.src)] else [])
  }

  /** The image list of a concatenation is the concatenation of the image lists: sitemap order is kept. */
  lemma {:induction false} ImagesAppend(a: Sitemap, b: Sitemap)
    ensures Images(a + b) == Images(a) + Images(b)
    decreases |b|
  {
    if b == [] {
      assert a + b == a;
    } else {
      var init, e := b[..|b| - 1], b[|b| - 1];
      ImagesAppend(a, init);
      assert (a + b)[..|a + b| - 1] == a + init;
    }
  }

  /**
   * A pair is listed exactly when some page has that key and a truthy image
   * with that path: pages whose image is `false` or missing are left out.
   */
  lemma {:induction false} ImagesMember(sm: Sitemap)
    ensures |Images(sm)| <= |sm|
    ensures forall x :: x in Images(sm) <==>
      exists i :: 0 <= i < |sm| && HasImage(sm[i].1) && x == (sm[i].0, sm[i].1.image.src)
    ensures forall k :: 0 <= k < |Images(sm)| ==> Images(sm)[k].1 != ""
    decreases |sm|
  {
    if sm != [] {
      var init, e := sm[..|sm| - 1], sm[|sm| - 1];
      ImagesMember(init);
      var tail := if HasImage(e.1) then [(e.0, e.1.image.src)] else [];
      forall x ensures x in Images(sm) <==>
        exists i :: 0 <= i < |sm| && HasImage(sm[i].1) && x == (sm[i].0, sm[i].1.image.src)
      {
        if x in Images(sm) {
          if x in Images(init) {
            var i :| 0 <= i < |init| && HasImage(init[i].1) && x == (init[i].0, init[i].1.image.src);
            assert sm[i] == init[i];
          } else {
            assert x in tail;
            assert sm[|sm| - 1] == e;
          }
        }
        if exists i :: 0 <= i < |sm| && HasImage(sm[i].1) && x == (sm[i].0, sm[i].1.image.src) {
          var i :| 0 <= i < |sm| && HasImage(sm[i].1) && x == (sm[i].0, sm[i].1.image.src);
          if i < |init| {
            assert init[i] == sm[i];
            assert x in Images(init);
          } else {
            assert x in tail;
          }
        }
      }
    }
  }

  // ---------------------------------------------------------------- one page

  const SiteUrl := "https://pa-f.net/"

  const LogoNames: seq<string> := ["roundtable_logo.png", "paf-yellow.png", "paf-orange.png", "paf-pink.png", "paf-waves.png"]

  /** What generate_page_html fills its template with. */
  datatype PageView = PageView(
    root: string,
    headTitle: string,
    sidebar: string,
    logoPath: string,
    homePath: string,
    imagePage: string,
    imageSrc: string,
    titleBlock: string)

  /**
   * The heading of the main column: nothing on the home page (title "pa-f");
   * otherwise the title as a heading, followed by the date when the page
   * has a non-empty one.
   */
  function TitleBlock(p: Page): (r: string)
    ensures r == "" <==> p.title == "pa-f"
    ensures p.title != "pa-f" ==> |r| >= |p.title| + 9 && r[..|p.title| + 9] == "<h2>" + p.title + "</h2>"
    ensures p.title != "pa-f" && !HasDate(p) ==> |r| == |p.title| + 9
    ensures p.title != "pa-f" && HasDate(p) ==> r[|p.title| + 9..] == "<div id=\"date\">" + p.date.value + "</div>"
  {
    if p.title == "pa-f" then ""
    else "<h2>" + p.title + "</h2>" + (if HasDate(p) then "<div id=\"date\">" + p.date.value + "</div>" else "")
  }

  /**
   * generate_page_html for the logo `LogoNames[logo]` and the picture
   * `allImages[pick]`, the two random choices.
   */
  function ViewOf(pagePath: string, page: Page, sidebar: string, allImages: seq<(string, string)>, logo: nat, pick: nat): PageView
    requires logo < |LogoNames|
    requires allImages != [] ==> pick < |allImages|
  {
    var root := RelativeRoot(pagePath);
    PageView(
      root,
      page.title + " | pa-f",
      ReplaceAll(sidebar, SiteUrl, root),
      root + "sites/pa-f.net/files/" + LogoNames[logo],
      root + "index.html",
      if allImages != [] then root + allImages[pick].0 else "",
      if allImages != [] then root + allImages[pick].1 else "",
      TitleBlock(page))
  }

  /**
   * Every link the page makes into the site goes through its relative root:
   * the sidebar has the root exactly where the site address was, and the
   * picture, its page link, the logo and the home link all start with it.
   * The picture is shown exactly when there is one to choose from.
   */
  lemma {:induction false} ViewLinks(pagePath: string, page: Page, sidebar: string, allImages: seq<(string, string)>, logo: nat, pick: nat)
    requires logo < |LogoNames|
    requires allImages != [] ==> pick < |allImages|
    requires forall k :: 0 <= k < |allImages| ==> allImages[k].1 != ""
    ensures var v := ViewOf(pagePath, page, sidebar, allImages, logo, pick);
      var parts := Split(sidebar, SiteUrl);
      && v.root == Repeat("../", CountChar(pagePath, '/'))
      && Join(parts, SiteUrl) == sidebar && v.sidebar == Join(parts, v.root)
      && (forall k :: 0 <= k < |parts| ==> !Contains(parts[k], SiteUrl))
      && (!Contains(sidebar, SiteUrl) ==> v.sidebar == sidebar)
      && StartsWith(v.logoPath, v.root) && StartsWith(v.homePath, v.root)
      && (v.imageSrc != "" <==> allImages != [])
      && (allImages != [] ==>
            StartsWith(v.imagePage, v.root) && StartsWith(v.imageSrc, v.root)
            && (v.imagePage[|v.root|..], v.imageSrc[|v.root|..]) in allImages)
  {
    var root := RelativeRoot(pagePath);
    ReplaceAllPieces(sidebar, SiteUrl, root);
    if allImages != [] {
      var v := ViewOf(pagePath, page, sidebar, allImages, logo, pick);
      assert v.imagePage[|root|..] == allImages[pick].0;
      assert v.imageSrc[|root|..] == allImages[pick].1;
    }
  }

  const NoSitemapMessage := "No sitemap data loaded. Use load_sitemap() first."

  /** One logo choice and one picture choice per page, each inside the list it picks from. */
  predicate ValidPicks(picks: seq<(nat, nat)>, pages: nat, images: nat)
  {
    |picks| >= pages
    && forall i :: 0 <= i < |picks| ==> picks[i].0 < |LogoNames| && (images > 0 ==> picks[i].1 < images)
  }

  /** The pages generate_site writes, in sitemap order, each under its key, with the choices made for it. */
  function Views(sm: Sitemap, sidebar: string, allImages: seq<(string, string)>, picks: seq<(nat, nat)>): seq<(string, PageView)>
    requires ValidPicks(picks, |sm|, |allImages|)
  {
    seq(|sm|, i requires 0 <= i < |sm| => (sm[i].0, ViewOf(sm[i].0, sm[i].1, sidebar, allImages, picks[i].0, picks[i].1)))
  }

  /** A sequence that agrees with Views at every position is Views. */
  lemma {:induction false} ViewsPointwise(sm: Sitemap, sidebar: string, allImages: seq<(string, string)>, picks: seq<(nat, nat)>, pages: seq<(string, PageView)>)
    requires ValidPicks(picks, |sm|, |allImages|)
    requires |pages| == |sm|
    requires forall j :: 0 <= j < |sm| ==>
      pages[j] == (sm[j].0, ViewOf(sm[j].0, sm[j].1, sidebar, allImages, picks[j].0, picks[j].1))
    ensures pages == Views(sm, sidebar, allImages, picks)
  {
  }

  class StaticSiteGenerator {
    var sitemap: Sitemap
    var outputDir: string
    var sidebarContent: string

    /** `sitemap_data or {}`; the sidebar starts out empty. */
    constructor (data: Option<Sitemap>, outputDir: string)
      ensures sitemap == (if data.Some? then data.value else [])
      ensures this.outputDir == outputDir && sidebarContent == ""
    {
      sitemap := if data.Some? then data.value else [];
      this.outputDir := outputDir;
      sidebarContent := "";
    }

    /** load_sitemap, given the decoded file. */
    method LoadSitemap(data: Sitemap)
      modifies this`sitemap
      ensures sitemap == data
    {
      sitemap := data;
    }

    /** load_sidebar, given the file's text or None when the file is missing. */
    method LoadSidebar(file: Option<string>)
      modifies this`sidebarContent
      ensures sidebarContent == if file.Some? then file.value else ""
    {
      if file.Some? {
        sidebarContent := file.value;
      } else {
        sidebarContent := "";
      }
    }

    /** get_all_images: the loop over the sitemap. */
    method GetAllImages() returns (allImages: seq<(string, string)>)
      ensures allImages == Images(sitemap)
    {
      var sm := sitemap;
      allImages := [];
      for i := 0 to |sm|
        invariant allImages == Images(sm[..i])
      {
        assert sm[..i + 1][..i] == sm[..i];
        if HasImage(sm[i].1) {
          allImages := allImages + [(sm[i].0, sm[i].1.image.src)];
        }
      }
      assert sm[..|sm|] == sm;
    }

    /** generate_page_html with the two random choices given. */
    method GeneratePageHtml(pagePath: string, page: Page, allImages: seq<(string, string)>, logo: nat, pick: nat)
      returns (v: PageView)
      requires logo < |LogoNames|
      requires allImages != [] ==> pick < |allImages|
      ensures v == ViewOf(pagePath, page, sidebarContent, allImages, logo, pick)
    {
      var root := RelativeRoot(pagePath);
      var sidebar := ReplaceAll(sidebarContent, SiteUrl, root);
      var logoPath := root + "sites/pa-f.net/files/" + LogoNames[logo];
      var homePath := root + "index.html";
      var imPage, imSrc := "", "";
      if allImages != [] {
        imPage, imSrc := root + allImages[pick].0, root + allImages[pick].1;
      }
      var title := "";
      if page.title != "pa-f" {
        title := "<h2>" + page.title + "</h2>";
        if HasDate(page) {
          title := title + "<div id=\"date\">" + page.date.value + "</div>";
        }
      }
      assert title == TitleBlock(page);
      v := PageView(root, page.title + " | pa-f", sidebar, logoPath, homePath, imPage, imSrc, title);
    }

    /** The loop of generate_site over the sitemap, one page at a time, in order. */
    method GeneratePages(allImages: seq<(string, string)>, picks: seq<(nat, nat)>) returns (pages: seq<(string, PageView)>)
      requires ValidPicks(picks, |sitemap|, |allImages|)
      ensures pages == Views(sitemap, sidebarContent, allImages, picks)
    {
      var sm := sitemap;
      pages := [];
      for i := 0 to |sm|
        invariant |pages| == i
        invariant forall j :: 0 <= j < i ==>
          pages[j] == (sm[j].0, ViewOf(sm[j].0, sm[j].1, sidebarContent, allImages, picks[j].0, picks[j].1))
      {
        var v := GeneratePageHtml(sm[i].0, sm[i].1, allImages, picks[i].0, picks[i].1);
        pages := pages + [(sm[i].0, v)];
      }
      ViewsPointwise(sm, sidebarContent, allImages, picks, pages);
    }

    /**
     * generate_site: refuses an empty sitemap before doing anything else;
     * otherwise loads the sidebar and produces every page.
     */
    method GenerateSite(sidebarFile: Option<string>, picks: seq<(nat, nat)>) returns (r: Result<seq<(string, PageView)>, PyError>)
      requires ValidPicks(picks, |sitemap|, |Images(sitemap)|)
      modifies this`sidebarContent
      ensures sitemap == [] ==> r == Failure(ValueError(NoSitemapMessage)) && sidebarContent == old(sidebarContent)
      ensures sitemap != [] ==>
        sidebarContent == (if sidebarFile.Some? then sidebarFile.value else "")
        && r == Success(Views(sitemap, sidebarContent, Images(sitemap), picks))
    {
      if sitemap == [] {
        return Failure(ValueError(NoSitemapMessage));
      }
      LoadSidebar(sidebarFile);
      var allImages := GetAllImages();
      var pages := GeneratePages(allImages, picks);
      r := Success(pages);
    }
  }
}

/**
 * palimpsest/parser.py: the rules that turn one mirrored HTML file into a
 * sitemap record, and the walk that fills `SiteParser.sitemap`.
 *
 * BeautifulSoup and its CSS selectors are not modelled: a parsed file is a
 * `Document` that already holds what each `select` / `select_one` call of
 * the parser returns. markdownify's `md(...)` is the parameter `md`.
 */
module Parser {
  import opened Wrappers
  import opened PyStr
  import opened Dicts
  import opened Records

  /** An HTML element: its tag, its `class` words, its attributes and its children. */
  datatype Element = Element(tag: string, classes: set<string>, attrs: map<string, string>, children: seq<Element>)

  /** One `.node` block with its first `.title` and first `.content` descendants. */
  datatype Node = Node(title: Option<Element>, content: Option<Element>)

  /**
   * What the parser reads from one file:
   * - `title`: the text of the first `<title>`, if there is one;
   * - `hrefs`: the `href` attribute of every `<a>`, in document order;
   * - `contents`: every element matching `.node .content`, in document order;
   * - `nodes`: every `.node` element;
   * - `galleries`, `images`, `pager`: the first element with that class;
   * - `submitted`: the text of the first `.node .submitted`.
   */
  datatype Document = Document(
    title: Option<string>,
    hrefs: seq<Option<string>>,
    contents: seq<Element>,
    nodes: seq<Node>,
    galleries: Option<Element>,
    images: Option<Element>,
    pager: Option<Element>,
    submitted: Option<string>)

  // ---------------------------------------------------------------- skip

  /** Files of the mirror that never become pages; the prefixes name the default root only. */
  predicate ShouldSkipFile(path: string)
  {
    StartsWith(path, "pa-f.net/book/export")
    || Contains(path, "size=")
    || StartsWith(path, "pa-f.net/tracker?")
    || StartsWith(path, "pa-f.net/files/")
  }

  /** Exports, resized images, tracker pages and attachments are skipped. */
  lemma {:induction false} SkipExamples()
    ensures ShouldSkipFile("pa-f.net/files/flyer.pdf")
    ensures ShouldSkipFile("pa-f.net/book/export/html/12")
    ensures ShouldSkipFile("pa-f.net/tracker?page=2")
    ensures ShouldSkipFile("pa-f.net/node/7.html?size=large")
  {
    assert StartsWith("pa-f.net/files/flyer.pdf", "pa-f.net/files/");
    assert StartsWith("pa-f.net/book/export/html/12", "pa-f.net/book/export");
    assert StartsWith("pa-f.net/tracker?page=2", "pa-f.net/tracker?");
    assert OccursAt("pa-f.net/node/7.html?size=large", "size=", 21);
    OccursContains("pa-f.net/node/7.html?size=large", "size=", 21);
  }

  /** The skip prefixes are anchored at the mirror's own directory. */
  lemma {:induction false} SkipOtherRoot(p: string)
    requires p == "mirror/files/flyer.pdf"
    ensures !ShouldSkipFile(p)
  {
    CharAbsent(p, "size=", 2);
    assert p[0] == 'm';
    assert !StartsWith(p, "pa-f.net/book/export") && !StartsWith(p, "pa-f.net/tracker?") && !StartsWith(p, "pa-f.net/files/");
  }

  // ---------------------------------------------------------------- title

  /**
   * The page title: everything before the last " |" of the title text
   * (the site name after it is dropped), or "pa-f" when that is empty;
   * None when the document has no title element.
   */
  function ExtractTitle(text: Option<string>): (r: Option<string>)
    ensures r.None? <==> text.None?
    ensures r.Some? ==> r.value != ""
  {
    match text
    case None => None
    case Some(t) =>
      var kept := BeforeLast(t, " |");
      Some(if kept == "" then "pa-f" else kept)
  }

  /**
   * A title text without " |" becomes "pa-f". One holding it loses exactly
   * its last " |" and what follows; it becomes "pa-f" exactly when nothing
   * precedes that last " |".
   */
  lemma {:induction false} TitleShape(t: string)
    ensures var r := ExtractTitle(Some(t)).value;
      var last := AfterLast(t, " |");
      && (!Contains(t, " |") ==> r == "pa-f")
      && (Contains(t, " |") ==> !Contains(last, " |"))
      && (Contains(t, " |") && t == " |" + last ==> r == "pa-f")
      && (Contains(t, " |") && t != " |" + last ==> t == r + " |" + last)
  {
    SplitAtLast(t, " |");
    var kept := BeforeLast(t, " |");
    var last := AfterLast(t, " |");
    if Contains(t, " |") {
      assert |t| == |kept| + 2 + |last|;
      if t == " |" + last {
        assert kept == "";
      } else {
        assert kept != "";
      }
    }
  }

  lemma {:induction false} TitleExampleHome(t: string)
    requires t == "Home | pa-f"
    ensures ExtractTitle(Some(t)) == Some("Home")
  {
    assert t[4..6] == " |";
    assert t[..5] == "Home ";
    CharAbsent(t[..5], " |", 1);
    IndexOfAt(t, " |", 4);
    assert t[6..] == " pa-f";
    CharAbsent(t[6..], " |", 1);
    SplitOnce(t, " |", 4);
    assert t[..4] == "Home";
  }

  lemma {:induction false} TitleExampleSite()
    ensures ExtractTitle(Some("pa-f")) == Some("pa-f")
  {
    CharAbsent("pa-f", " |", 0);
    assert Split("pa-f", " |") == ["pa-f"];
  }

  // ---------------------------------------------------------------- links

  /** Anchors that are kept: an href that is present, non-empty and not a mailto link. */
  predicate KeptHref(h: Option<string>)
  {
    h.Some? && h.value != "" && !StartsWith(h.value, "mailto:")
  }

  /** The href with everything up to the last absolute reference to the site removed. */
  function CleanHref(href: string): string
  {
    AfterLast(AfterLast(AfterLast(href, "https://pa-f.net"), "http://pa-f.net"), "http://www.pa-f.net")
  }

  /** A suffix of a string that lacks `sub` lacks it too. */
  lemma {:induction false} SuffixFree(s: string, k: nat, sub: string)
    requires k <= |s| && !Contains(s, sub)
    ensures !Contains(s[k..], sub)
  {
    assert s == s[..k] + s[k..] + [];
    InfixFree(s[..k], s[k..], [], sub);
  }

  /**
   * A cleaned href is a suffix of the href and holds none of the three site
   * prefixes; an href holding none of them is left as it is.
   */
  lemma {:induction false} CleanHrefProperties(href: string)
    ensures var c := CleanHref(href);
      EndsWith(href, c)
      && !Contains(c, "https://pa-f.net") && !Contains(c, "http://pa-f.net") && !Contains(c, "http://www.pa-f.net")
    ensures !Contains(href, "https://pa-f.net") && !Contains(href, "http://pa-f.net") && !Contains(href, "http://www.pa-f.net")
      ==> CleanHref(href) == href
  {
    CleanHrefSuffix(href);
    CleanHrefFree(href);
    if !Contains(href, "https://pa-f.net") && !Contains(href, "http://pa-f.net") && !Contains(href, "http://www.pa-f.net") {
      CleanHrefUnchanged(href);
    }
  }

  lemma {:induction false} CleanHrefSuffix(href: string)
    ensures EndsWith(href, CleanHref(href))
  {
    var a := AfterLast(href, "https://pa-f.net");
    var b := AfterLast(a, "http://pa-f.net");
    var c := AfterLast(b, "http://www.pa-f.net");
    AfterLastSuffix(href, "https://pa-f.net");
    AfterLastSuffix(a, "http://pa-f.net");
    AfterLastSuffix(b, "http://www.pa-f.net");
    SuffixTrans(href, a, b);
    SuffixTrans(href, b, c);
    assert CleanHref(href) == c;
  }

  lemma {:induction false} CleanHrefFree(href: string)
    ensures var c := CleanHref(href);
      !Contains(c, "https://pa-f.net") && !Contains(c, "http://pa-f.net") && !Contains(c, "http://www.pa-f.net")
  {
    var a := AfterLast(href, "https://pa-f.net");
    var b := AfterLast(a, "http://pa-f.net");
    var c := AfterLast(b, "http://www.pa-f.net");
    SplitAtLast(href, "https://pa-f.net");
    SplitAtLast(a, "http://pa-f.net");
    SplitAtLast(b, "http://www.pa-f.net");
    AfterLastSuffix(a, "http://pa-f.net");
    AfterLastSuffix(b, "http://www.pa-f.net");
    SuffixFree(a, |a| - |b|, "https://pa-f.net");
    SuffixFree(b, |b| - |c|, "https://pa-f.net");
    SuffixFree(b, |b| - |c|, "http://pa-f.net");
  }

  lemma {:induction false} CleanHrefUnchanged(href: string)
    requires !Contains(href, "https://pa-f.net") && !Contains(href, "http://pa-f.net") && !Contains(href, "http://www.pa-f.net")
    ensures CleanHref(href) == href
  {
    SplitAtLast(href, "https://pa-f.net");
    SplitAtLast(href, "http://pa-f.net");
    SplitAtLast(href, "http://www.pa-f.net");
  }

  lemma {:induction false} CleanHrefExample()
    ensures CleanHref("/node/7.html") == "/node/7.html"
  {
    CleanHrefProperties("/node/7.html");
    assert !Contains("/node/7.html", "https://pa-f.net") && !Contains("/node/7.html", "http://pa-f.net")
      && !Contains("/node/7.html", "http://www.pa-f.net");
  }

  /** The cleaned hrefs of the kept anchors, in document order (the list the loop builds). */
  function Candidates(hrefs: seq<Option<string>>): (r: seq<string>)
    ensures forall x :: x in r <==> exists i :: 0 <= i < |hrefs| && KeptHref(hrefs[i]) && CleanHref(hrefs[i].value) == x
    decreases |hrefs|
  {
    if hrefs == [] then []
    else
      var init, last := hrefs[..|hrefs| - 1], hrefs[|hrefs| - 1];
      var r := Candidates(init) + (if KeptHref(last) then [CleanHref(last.value)] else []);
      assert forall i :: 0 <= i < |init| ==> init[i] == hrefs[i];
      r
  }

  predicate NoDup(s: seq<string>)
  {
    forall i, j :: 0 <= i < j < |s| ==> s[i] != s[j]
  }

  /** list(set(s)): one copy of each element (kept in first-occurrence order). */
  function Dedup(s: seq<string>): (r: seq<string>)
    ensures NoDup(r)
    ensures forall x :: x in r <==> x in s
    decreases |s|
  {
    if s == [] then []
    else
      var d := Dedup(s[..|s| - 1]);
      var x := s[|s| - 1];
      assert s == s[..|s| - 1] + [x];
      if x in d then d else d + [x]
  }

  /** The links of one page: every kept href once, cleaned. */
  method ExtractLinks(hrefs: seq<Option<string>>) returns (links: seq<string>)
    ensures links == Dedup(Candidates(hrefs))
    ensures NoDup(links)
    ensures forall x :: x in links <==> exists i :: 0 <= i < |hrefs| && KeptHref(hrefs[i]) && CleanHref(hrefs[i].value) == x
  {
    var acc: seq<string> := [];
    for i := 0 to |hrefs|
      invariant acc == Candidates(hrefs[..i])
    {
      assert hrefs[..i + 1][..i] == hrefs[..i];
      var h := hrefs[i];
      if h.None? || h.value == "" || StartsWith(h.value, "mailto:") {
        continue;
      }
      acc := acc + [CleanHref(h.value)];
    }
    assert hrefs[..|hrefs|] == hrefs;
    links := Dedup(acc);
  }

  // ---------------------------------------------------------------- content

  /** The `img` descendants of a forest, in document order. */
  function ImgsIn(es: seq<Element>): (r: seq<Element>)
    ensures forall k :: 0 <= k < |r| ==> r[k].tag == "img"
    decreases es
  {
    if es == [] then []
    else (if es[0].tag == "img" then [es[0]] else []) + ImgsIn(es[0].children) + ImgsIn(es[1..])
  }

  /** Matches `.count, .last`. */
  predicate Marked(e: Element)
  {
    "count" in e.classes || "last" in e.classes
  }

  /** No element of the forest, at any depth, matches `.count, .last`. */
  predicate Unmarked(es: seq<Element>)
    decreases es
  {
    es == [] || (!Marked(es[0]) && Unmarked(es[0].children) && Unmarked(es[1..]))
  }

  /** The forest with every `.count` / `.last` element removed together with its subtree. */
  function Prune(es: seq<Element>): seq<Element>
    decreases es
  {
    if es == [] then []
    else
      (if Marked(es[0]) then [] else [es[0].(children := Prune(es[0].children))]) + Prune(es[1..])
  }

  /** The galleries clean-up: decompose every `.count` / `.last` descendant (the element itself stays). */
  function Decompose(e: Element): Element
  {
    e.(children := Prune(e.children))
  }

  lemma {:induction false} UnmarkedAppend(a: seq<Element>, b: seq<Element>)
    requires Unmarked(a) && Unmarked(b)
    ensures Unmarked(a + b)
    decreases a
  {
    if a == [] {
      assert a + b == b;
    } else {
      UnmarkedAppend(a[1..], b);
      assert (a + b)[0] == a[0];
      assert (a + b)[1..] == a[1..] + b;
    }
  }

  /** After the clean-up no descendant matches `.count, .last`. */
  lemma {:induction false} PruneUnmarked(es: seq<Element>)
    ensures Unmarked(Prune(es))
    decreases es
  {
    if es != [] {
      PruneUnmarked(es[0].children);
      PruneUnmarked(es[1..]);
      var head := if Marked(es[0]) then [] else [es[0].(children := Prune(es[0].children))];
      assert Unmarked(head) by {
        if !Marked(es[0]) {
          assert head[1..] == [];
        }
      }
      UnmarkedAppend(head, Prune(es[1..]));
    }
  }

  /** The clean-up changes nothing in a forest with no `.count` / `.last` element. */
  lemma {:induction false} PruneUnchanged(es: seq<Element>)
    requires Unmarked(es)
    ensures Prune(es) == es
    decreases es
  {
    if es != [] {
      PruneUnchanged(es[0].children);
      PruneUnchanged(es[1..]);
      assert es == [es[0]] + es[1..];
    }
  }

  lemma {:induction false} DecomposeProperties(e: Element)
    ensures Unmarked(Decompose(e).children)
    ensures Decompose(e).tag == e.tag && Decompose(e).classes == e.classes && Decompose(e).attrs == e.attrs
    ensures Unmarked(e.children) ==> Decompose(e) == e
  {
    PruneUnmarked(e.children);
    if Unmarked(e.children) {
      PruneUnchanged(e.children);
    }
  }

  /** The markdown of one `.node`: its title, then its content, each when present. */
  function NodeMd(n: Node, md: Element -> string): string
  {
    (if n.title.Some? then md(n.title.value) else "") + (if n.content.Some? then md(n.content.value) else "")
  }

  /** Multi-block body: every node's markdown, in document order. */
  function NodesMd(nodes: seq<Node>, md: Element -> string): string
    decreases |nodes|
  {
    if nodes == [] then "" else NodesMd(nodes[..|nodes| - 1], md) + NodeMd(nodes[|nodes| - 1], md)
  }

  /** The multi-block body of a sequence of nodes is the body of each part, in order. */
  lemma {:induction false} NodesMdAppend(a: seq<Node>, b: seq<Node>, md: Element -> string)
    ensures NodesMd(a + b, md) == NodesMd(a, md) + NodesMd(b, md)
    decreases |b|
  {
    if b == [] {
      assert a + b == a;
    } else {
      var b' := b[..|b| - 1];
      NodesMdAppend(a, b', md);
      assert (a + b)[..|a + b| - 1] == a + b';
      assert (a + b)[|a + b| - 1] == b[|b| - 1];
    }
  }

  /** The main body: every node in multi-block mode, the one content block otherwise. */
  function MainBody(doc: Document, md: Element -> string): string
  {
    if |doc.contents| > 1 then NodesMd(doc.nodes, md)
    else if doc.contents != [] then md(doc.contents[0])
    else ""
  }

  /** The message of the AttributeError raised by `None.lstrip`. */
  const NoSrcError := "'NoneType' object has no attribute 'lstrip'"

  /** The characters `lstrip("./")` removes. */
  const DotSlash: set<char> := {'.', '/'}

  /** The representative image: only a single content block holding exactly one img gives one. */
  function ImageOf(doc: Document): Result<ImageField, PyError>
  {
    if |doc.contents| != 1 then Success(ImageFalse)
    else
      var imgs := ImgsIn(doc.contents[0].children);
      if |imgs| != 1 then Success(ImageFalse)
      else if "src" in imgs[0].attrs then Success(ImageSrc(LStrip(imgs[0].attrs["src"], DotSlash)))
      else Failure(AttributeError(NoSrcError))
  }

  /** The three trailing sections, in their fixed order; only galleries is cleaned up. */
  function Sections(doc: Document): seq<(Option<Element>, bool)>
  {
    [(doc.galleries, true), (doc.images, false), (doc.pager, false)]
  }

  /** One section's contribution: a blank line and its markdown, when present. */
  function SectionMd(sec: (Option<Element>, bool), md: Element -> string): string
  {
    if sec.0.None? then "" else "\n\n" + md(if sec.1 then Decompose(sec.0.value) else sec.0.value)
  }

  function SectionsMd(secs: seq<(Option<Element>, bool)>, md: Element -> string): string
    decreases |secs|
  {
    if secs == [] then "" else SectionsMd(secs[..|secs| - 1], md) + SectionMd(secs[|secs| - 1], md)
  }

  /** extract_content: the markdown body and the representative image, or the crash. */
  function Content(doc: Document, md: Element -> string): Result<(string, ImageField), PyError>
  {
    match ImageOf(doc)
    case Failure(e) => Failure(e)
    case Success(img) => Success((MainBody(doc, md) + SectionsMd(Sections(doc), md), img))
  }

  /** The multi-block loop: each node's title, then its content, appended when present. */
  method AppendNodes(nodes: seq<Node>, md: Element -> string) returns (body: string)
    ensures body == NodesMd(nodes, md)
  {
    body := "";
    for i := 0 to |nodes|
      invariant body == NodesMd(nodes[..i], md)
    {
      assert nodes[..i + 1][..i] == nodes[..i];
      var n := nodes[i];
      if n.title.Some? {
        body := body + md(n.title.value);
      }
      if n.content.Some? {
        body := body + md(n.content.value);
      }
    }
    assert nodes[..|nodes|] == nodes;
  }

  /** The section loop: each present section appended after a blank line. */
  method AppendSections(body: string, sections: seq<(Option<Element>, bool)>, md: Element -> string) returns (out: string)
    ensures out == body + SectionsMd(sections, md)
  {
    out := body;
    for k := 0 to |sections|
      invariant out == body + SectionsMd(sections[..k], md)
    {
      assert sections[..k + 1][..k] == sections[..k];
      ghost var done := SectionsMd(sections[..k], md);
      assert SectionsMd(sections[..k + 1], md) == done + SectionMd(sections[k], md);
      var section := sections[k].0;
      if section.Some? {
        var el := if sections[k].1 then Decompose(section.value) else section.value;
        var piece := "\n\n" + md(el);
        Assoc(body, done, piece);
        out := out + piece;
      } else {
        assert done + SectionMd(sections[k], md) == done;
      }
    }
    assert sections[..|sections|] == sections;
  }

  /** extract_content, accumulating the body as the source does. */
  method ExtractContent(doc: Document, md: Element -> string) returns (r: Result<(string, ImageField), PyError>)
    ensures r == Content(doc, md)
  {
    var body := "";
    var image := ImageFalse;
    if |doc.contents| > 1 {
      body := AppendNodes(doc.nodes, md);
    } else if doc.contents != [] {
      var content := doc.contents[0];
      body := md(content);
      var imgs := ImgsIn(content.children);
      if |imgs| == 1 {
        if "src" !in imgs[0].attrs {
          return Failure(AttributeError(NoSrcError));
        }
        image := ImageSrc(LStrip(imgs[0].attrs["src"], DotSlash));
      }
    }
    assert body == MainBody(doc, md);
    assert Success(image) == ImageOf(doc);
    body := AppendSections(body, Sections(doc), md);
    r := Success((body, image));
  }

  /**
   * The image rule: an image path is recorded exactly when there is one
   * content block holding exactly one img with a src; it is that src with
   * every leading `.` and `/` removed. The one failure is a lone img without
   * a src.
   */
  lemma {:induction false} ImageRule(doc: Document, md: Element -> string)
    ensures var r := Content(doc, md);
      var single := |doc.contents| == 1 && |ImgsIn(doc.contents[0].children)| == 1;
      && (r.Failure? <==> single && "src" !in ImgsIn(doc.contents[0].children)[0].attrs)
      && (r.Success? && r.value.1.ImageSrc? <==> single && "src" in ImgsIn(doc.contents[0].children)[0].attrs)
      && (r.Success? && !r.value.1.ImageSrc? ==> r.value.1 == ImageFalse)
      && (r.Success? && r.value.1.ImageSrc? ==>
            var src := ImgsIn(doc.contents[0].children)[0].attrs["src"];
            var p := r.value.1.src;
            |p| <= |src| && src[|src| - |p|..] == p
            && (p == [] || (p[0] != '.' && p[0] != '/'))
            && forall i :: 0 <= i < |src| - |p| ==> src[i] == '.' || src[i] == '/')
  {
    var r := Content(doc, md);
    if |doc.contents| == 1 {
      var imgs := ImgsIn(doc.contents[0].children);
      if |imgs| == 1 && "src" in imgs[0].attrs {
        var src := imgs[0].attrs["src"];
        var p := LStrip(src, DotSlash);
        assert ImageOf(doc) == Success(ImageSrc(p));
        assert r.value.1 == ImageSrc(p);
        assert p == [] || p[0] !in DotSlash;
        forall i | 0 <= i < |src| - |p| ensures src[i] == '.' || src[i] == '/' {
          assert src[i] in DotSlash;
        }
      } else if |imgs| == 1 {
        assert ImageOf(doc).Failure?;
      } else {
        assert ImageOf(doc) == Success(ImageFalse);
      }
    } else {
      assert ImageOf(doc) == Success(ImageFalse);
    }
  }

  lemma {:induction false} ImageExample()
    ensures LStrip("../x.png", DotSlash) == "x.png"
  {
    assert 'x' !in DotSlash;
    assert LStrip("x.png", DotSlash) == "x.png";
    assert "/x.png"[0] in DotSlash && "/x.png"[1..] == "x.png";
    assert "./x.png"[0] in DotSlash && "./x.png"[1..] == "/x.png";
    assert "../x.png"[0] in DotSlash && "../x.png"[1..] == "./x.png";
  }

  /**
   * The body in multi-block mode is every node's markdown, in order, then the
   * trailing sections; no image is recorded.
   */
  lemma {:induction false} MultiBlockContent(doc: Document, md: Element -> string)
    requires |doc.contents| > 1
    ensures Content(doc, md) == Success((NodesMd(doc.nodes, md) + SectionsMd(Sections(doc), md), ImageFalse))
  {
  }

  /**
   * The trailing sections come after the main body in the order galleries,
   * images, pager, each after a blank line, the galleries one cleaned up.
   */
  lemma {:induction false} SectionsOrder(doc: Document, md: Element -> string)
    ensures SectionsMd(Sections(doc), md)
      == (if doc.galleries.Some? then "\n\n" + md(Decompose(doc.galleries.value)) else "")
       + (if doc.images.Some? then "\n\n" + md(doc.images.value) else "")
       + (if doc.pager.Some? then "\n\n" + md(doc.pager.value) else "")
  {
    var secs := Sections(doc);
    assert secs[..2][..1] == secs[..1] && secs[..1][..0] == [];
    assert SectionsMd(secs[..1], md) == SectionMd(secs[0], md);
    assert SectionsMd(secs[..2], md) == SectionsMd(secs[..1], md) + SectionMd(secs[1], md);
    assert secs[..2] == secs[..|secs| - 1];
    assert SectionsMd(secs, md) == SectionsMd(secs[..2], md) + SectionMd(secs[2], md);
  }

  // ---------------------------------------------------------------- date

  predicate IsDigit(c: char)
  {
    '0' <= c <= '9'
  }

  /** The text at i starts with `dddd-dd-dd` (ASCII digits). */
  predicate DateAt(s: string, i: int)
  {
    0 <= i && i + 10 <= |s|
    && IsDigit(s[i]) && IsDigit(s[i + 1]) && IsDigit(s[i + 2]) && IsDigit(s[i + 3])
    && s[i + 4] == '-' && IsDigit(s[i + 5]) && IsDigit(s[i + 6])
    && s[i + 7] == '-' && IsDigit(s[i + 8]) && IsDigit(s[i + 9])
  }

  /** Where the leftmost date starts (re.search). */
  function DateIndex(s: string): (r: Option<nat>)
    ensures r.Some? ==> DateAt(s, r.value)
    ensures forall j :: 0 <= j && (r.None? || j < r.value) ==> !DateAt(s, j)
    decreases |s|
  {
    if |s| < 10 then None
    else if DateAt(s, 0) then Some(0)
    else
      assert forall j :: 1 <= j ==> (DateAt(s, j) <==> DateAt(s[1..], j - 1));
      match DateIndex(s[1..])
      case None => None
      case Some(i) => Some(i + 1)
  }

  /** The date of the submitted line: its leftmost `dddd-dd-dd`, if any. */
  function ExtractDate(submitted: Option<string>): (r: Option<string>)
    ensures r.None? <==> submitted.None? || forall i :: 0 <= i ==> !DateAt(submitted.value, i)
    ensures r.Some? ==> exists i :: (DateAt(submitted.value, i) && r.value == submitted.value[i..i + 10]
      && forall j :: 0 <= j < i ==> !DateAt(submitted.value, j))
    ensures r.Some? ==> DateAt(r.value, 0) && |r.value| == 10
  {
    match submitted
    case None => None
    case Some(t) =>
      match DateIndex(t)
      case None => None
      case Some(i) => Some(t[i..i + 10])
  }

  lemma {:induction false} DateExample()
    ensures ExtractDate(Some("Submitted on 2009-03-14")) == Some("2009-03-14")
    ensures ExtractDate(Some("no date")) == None
  {
    var t := "Submitted on 2009-03-14";
    assert DateAt(t, 13);
    assert t[13..23] == "2009-03-14";
    forall j | 0 <= j < 13 ensures !DateAt(t, j) {
      assert !IsDigit(t[j]) || !IsDigit(t[j + 1]) || !IsDigit(t[j + 2]) || !IsDigit(t[j + 3]) || t[j + 4] != '-';
    }
  }

  // ---------------------------------------------------------------- file

  /** A page needs a content block, a galleries or an images section; a pager alone is not enough. */
  predicate HasContent(doc: Document)
  {
    doc.contents != [] || doc.galleries.Some? || doc.images.Some?
  }

  /** A file that yields no record: skipped, unreadable, without a title or without content. */
  predicate Dropped(path: string, doc: Option<Document>)
  {
    ShouldSkipFile(path) || doc.None? || doc.value.title.None? || !HasContent(doc.value)
  }

  /** parse_file: no record, a record, or the crash of extract_content. */
  function FileRecord(path: string, doc: Option<Document>, md: Element -> string): Result<Option<Page>, PyError>
  {
    if Dropped(path, doc) then Success(None)
    else
      var d := doc.value;
      match Content(d, md)
      case Failure(e) => Failure(e)
      case Success(c) =>
        Success(Some(Page(ExtractTitle(d.title).value, c.0, ExtractDate(d.submitted), c.1, Some(Dedup(Candidates(d.hrefs))))))
  }

  /** parse_file on the parsed document (None when the file could not be decoded). */
  method ParseFile(path: string, doc: Option<Document>, md: Element -> string) returns (r: Result<Option<Page>, PyError>)
    ensures r == FileRecord(path, doc, md)
    ensures r == Success(None) <==> Dropped(path, doc)
    ensures r.Failure? ==> !Dropped(path, doc) && Content(doc.value, md).Failure?
    ensures r.Success? && r.value.Some? ==>
      var p := r.value.value;
      && p.title == ExtractTitle(doc.value.title).value && p.title != ""
      && p.date == ExtractDate(doc.value.submitted)
      && p.image != ImageAbsent
      && p.links.Some? && NoDup(p.links.value)
      && (forall x :: x in p.links.value <==> x in Candidates(doc.value.hrefs))
  {
    if ShouldSkipFile(path) {
      return Success(None);
    }
    if doc.None? {
      return Success(None);
    }
    var d := doc.value;
    var title := ExtractTitle(d.title);
    if title.None? {
      return Success(None);
    }
    if !HasContent(d) {
      return Success(None);
    }
    var links := ExtractLinks(d.hrefs);
    var content := ExtractContent(d, md);
    if content.Failure? {
      return Failure(content.error);
    }
    var date := ExtractDate(d.submitted);
    r := Success(Some(Page(title.value, content.value.0, date, content.value.1, Some(links))));
  }

  // ---------------------------------------------------------------- walk

  /** What os.walk(root) can produce: nothing for an empty root, else paths under root. */
  predicate WalkOf(root: string, files: seq<(string, Option<Document>)>)
  {
    (root == "" ==> files == []) && forall i :: 0 <= i < |files| ==> StartsWith(files[i].0, root)
  }

  /**
   * file_path.split(root_dir)[1]: the text between the first and the second
   * occurrence of the root. The key ends at the end of the path or where
   * the root occurs again, and no occurrence of the root starts inside it.
   */
  function Uid(root: string, path: string): (uid: string)
    requires root != "" && StartsWith(path, root)
    ensures StartsWith(path, root + uid) && !Contains(uid, root)
    ensures |root| + |uid| == |path| || OccursAt(path, root, |root| + |uid|)
    ensures forall j :: |root| <= j < |root| + |uid| ==> !OccursAt(path, root, j)
  {
    SplitAfterLeading(path, root);
    SplitSecondPiece(path, root);
    Split(path, root)[1]
  }

  /** The uid of a file is its path past the root, when the rest of the path does not repeat the root. */
  lemma {:induction false} UidOfRelative(root: string, rest: string)
    requires root != "" && !Contains(rest, root)
    ensures Uid(root, root + rest) == rest
  {
    var p := root + rest;
    assert p[..|root|] == root && p[|root|..] == rest;
    assert OccursAt(p, root, 0);
    assert p[..|root| - 1] == root[..|root| - 1];
    assert !Contains(p[..|root| - 1], root);
    IndexOfAt(p, root, 0);
    SplitOnce(p, root, 0);
  }

  lemma {:induction false} UidExample(root: string, rest: string)
    requires root == "pa-f.net/" && rest == "node/7.html"
    ensures Uid(root, root + rest) == "node/7.html"
  {
    CharAbsent(rest, root, 0);
    UidOfRelative(root, rest);
  }

  /** The walk: records keyed by uid in walk order, up to the first crash. */
  function Walk(root: string, files: seq<(string, Option<Document>)>, md: Element -> string): (Sitemap, Option<PyError>)
    requires WalkOf(root, files)
    decreases |files|
  {
    if files == [] then ([], None)
    else
      var init, f := files[..|files| - 1], files[|files| - 1];
      assert WalkOf(root, init) by {
        assert forall i :: 0 <= i < |init| ==> init[i] == files[i];
      }
      var (m, e) := Walk(root, init, md);
      if e.Some? then (m, e)
      else
        match FileRecord(f.0, f.1, md)
        case Failure(x) => (m, Some(x))
        case Success(None) => (m, None)
        case Success(Some(p)) => (Put(m, Uid(root, f.0), p), None)
  }

  /** A file that yields a record. */
  predicate Yields(f: (string, Option<Document>), md: Element -> string)
  {
    FileRecord(f.0, f.1, md).Success? && FileRecord(f.0, f.1, md).value.Some?
  }

  /** File f yields a record under uid k. */
  predicate YieldsUid(root: string, f: (string, Option<Document>), md: Element -> string, k: string)
  {
    root != "" && StartsWith(f.0, root) && Yields(f, md) && Uid(root, f.0) == k
  }

  /** Some file of the walk yields a record under uid k. */
  ghost predicate UidRecorded(root: string, files: seq<(string, Option<Document>)>, md: Element -> string, k: string)
  {
    exists i :: 0 <= i < |files| && YieldsUid(root, files[i], md, k)
  }

  /** Some file of the walk yields exactly this entry. */
  ghost predicate EntryFrom(root: string, files: seq<(string, Option<Document>)>, md: Element -> string, entry: (string, Page))
    requires WalkOf(root, files)
  {
    exists i :: 0 <= i < |files| && Yields(files[i], md) && Uid(root, files[i].0) == entry.0
      && FileRecord(files[i].0, files[i].1, md).value.value == entry.1
  }

  /** Facts about a walk carry over to a longer walk. */
  lemma {:induction false} WalkExtend(root: string, files: seq<(string, Option<Document>)>, md: Element -> string)
    requires WalkOf(root, files) && files != []
    ensures WalkOf(root, files[..|files| - 1])
    ensures forall k :: UidRecorded(root, files[..|files| - 1], md, k) ==> UidRecorded(root, files, md, k)
    ensures forall en :: EntryFrom(root, files[..|files| - 1], md, en) ==> EntryFrom(root, files, md, en)
  {
    var init := files[..|files| - 1];
    assert forall i :: 0 <= i < |init| ==> init[i] == files[i];
    forall k | UidRecorded(root, init, md, k) ensures UidRecorded(root, files, md, k) {
      var i :| 0 <= i < |init| && Yields(init[i], md) && Uid(root, init[i].0) == k;
      assert files[i] == init[i];
    }
    forall en | EntryFrom(root, init, md, en) ensures EntryFrom(root, files, md, en) {
      var i :| 0 <= i < |init| && Yields(init[i], md) && Uid(root, init[i].0) == en.0
        && FileRecord(init[i].0, init[i].1, md).value.value == en.1;
      assert files[i] == init[i];
    }
  }

  /** The last step of the walk. */
  lemma {:induction false} WalkStep(root: string, files: seq<(string, Option<Document>)>, md: Element -> string)
    requires WalkOf(root, files) && files != []
    ensures WalkOf(root, files[..|files| - 1])
    ensures var (m0, e0) := Walk(root, files[..|files| - 1], md);
      var f := files[|files| - 1];
      Walk(root, files, md) ==
        if e0.Some? then (m0, e0)
        else if FileRecord(f.0, f.1, md).Failure? then (m0, Some(FileRecord(f.0, f.1, md).error))
        else if Yields(f, md) then (Put(m0, Uid(root, f.0), FileRecord(f.0, f.1, md).value.value), None)
        else (m0, None)
  {
    WalkExtend(root, files, md);
  }

  /** No uid is recorded twice. */
  lemma {:induction false} WalkDistinct(root: string, files: seq<(string, Option<Document>)>, md: Element -> string)
    requires WalkOf(root, files)
    ensures DistinctKeys(Walk(root, files, md).0)
    decreases |files|
  {
    if files != [] {
      var init, f := files[..|files| - 1], files[|files| - 1];
      WalkStep(root, files, md);
      WalkDistinct(root, init, md);
      var (m0, e0) := Walk(root, init, md);
      if e0.None? && Yields(f, md) {
        PutDistinct(m0, Uid(root, f.0), FileRecord(f.0, f.1, md).value.value);
      }
    }
  }

  /**
   * Without a crash the sitemap has an entry for exactly the uids of the
   * files that yield a record.
   */
  lemma {:induction false} WalkKeys(root: string, files: seq<(string, Option<Document>)>, md: Element -> string)
    requires WalkOf(root, files)
    ensures Walk(root, files, md).1.None? ==>
      forall k :: k in KeySet(Walk(root, files, md).0) <==> UidRecorded(root, files, md, k)
    decreases |files|
  {
    if files != [] {
      var init, f := files[..|files| - 1], files[|files| - 1];
      WalkStep(root, files, md);
      WalkKeys(root, init, md);
      var (m0, e0) := Walk(root, init, md);
      if e0.None? && Yields(f, md) {
        PutKeySet(m0, Uid(root, f.0), FileRecord(f.0, f.1, md).value.value);
      }
      forall k {
        UidRecordedStep(root, files, md, k);
      }
    }
  }

  /** Some element of s passes p exactly when one before the last does or the last does. */
  lemma {:induction false} ExistsSnoc<T>(s: seq<T>, init: seq<T>, p: T -> bool)
    requires s != [] && init == s[..|s| - 1]
    ensures (exists i :: 0 <= i < |s| && p(s[i])) <==>
      (exists i :: 0 <= i < |init| && p(init[i])) || p(s[|s| - 1])
  {
    if exists i :: 0 <= i < |s| && p(s[i]) {
      var i :| 0 <= i < |s| && p(s[i]);
      if i < |init| {
        assert init[i] == s[i];
      }
    }
    if exists i :: 0 <= i < |init| && p(init[i]) {
      var i :| 0 <= i < |init| && p(init[i]);
      assert init[i] == s[i];
    }
  }

  /** A uid is recorded by a walk when it is recorded before the last file or by the last file. */
  lemma {:induction false} UidRecordedStep(root: string, files: seq<(string, Option<Document>)>, md: Element -> string, k: string)
    requires files != []
    ensures UidRecorded(root, files, md, k) <==>
      UidRecorded(root, files[..|files| - 1], md, k) || YieldsUid(root, files[|files| - 1], md, k)
  {
    ExistsSnoc(files, files[..|files| - 1], f => YieldsUid(root, f, md, k));
  }

  /** Every entry of the sitemap is the record of a file of the walk, under that file's uid. */
  lemma {:induction false} WalkEntries(root: string, files: seq<(string, Option<Document>)>, md: Element -> string)
    requires WalkOf(root, files)
    ensures forall j :: 0 <= j < |Walk(root, files, md).0| ==> EntryFrom(root, files, md, Walk(root, files, md).0[j])
    decreases |files|
  {
    if files != [] {
      var init, f := files[..|files| - 1], files[|files| - 1];
      WalkStep(root, files, md);
      WalkExtend(root, files, md);
      WalkEntries(root, init, md);
      WalkDistinct(root, init, md);
      var (m0, e0) := Walk(root, init, md);
      var m := Walk(root, files, md).0;
      if e0.None? && Yields(f, md) {
        var uid := Uid(root, f.0);
        var p := FileRecord(f.0, f.1, md).value.value;
        assert m == Put(m0, uid, p);
        PutGet(m0, uid, p);
        forall j | 0 <= j < |m| ensures EntryFrom(root, files, md, m[j]) {
          WalkDistinct(root, files, md);
          assert Get(m, m[j].0) == Some(m[j].1);
          if m[j].0 == uid {
            assert files[|files| - 1] == f;
          } else {
            assert Get(m0, m[j].0) == Some(m[j].1);
            var j0 :| 0 <= j0 < |m0| && m0[j0] == (m[j].0, m[j].1);
            assert EntryFrom(root, init, md, m0[j0]);
          }
        }
      }
    }
  }

  /** Once a file has crashed the walk, the files after it change nothing. */
  lemma {:induction false} WalkStops(root: string, files: seq<(string, Option<Document>)>, md: Element -> string, i: nat)
    requires WalkOf(root, files) && i <= |files|
    requires WalkOf(root, files[..i]) && Walk(root, files[..i], md).1.Some?
    ensures Walk(root, files, md) == Walk(root, files[..i], md)
    decreases |files|
  {
    if i < |files| {
      var init := files[..|files| - 1];
      assert init[..i] == files[..i];
      assert WalkOf(root, init) by {
        assert forall j :: 0 <= j < |init| ==> init[j] == files[j];
      }
      WalkStops(root, init, md, i);
    } else {
      assert files[..i] == files;
    }
  }

  /** One more file of an uncrashed walk: its record is put under its uid, or its crash is kept. */
  lemma {:induction false} WalkNext(root: string, files: seq<(string, Option<Document>)>, md: Element -> string, i: nat)
    requires WalkOf(root, files) && i < |files|
    requires WalkOf(root, files[..i]) && Walk(root, files[..i], md).1.None?
    ensures WalkOf(root, files[..i + 1])
    ensures var m0 := Walk(root, files[..i], md).0;
      var r := FileRecord(files[i].0, files[i].1, md);
      Walk(root, files[..i + 1], md) ==
        if r.Failure? then (m0, Some(r.error))
        else if r.value.Some? then (Put(m0, Uid(root, files[i].0), r.value.value), None)
        else (m0, None)
  {
    var pre := files[..i + 1];
    assert pre[..i] == files[..i];
    assert forall j :: 0 <= j <= i ==> pre[j] == files[j];
    assert WalkOf(root, pre);
  }

  /** The parser and the sitemap it fills. */
  class SiteParser {
    var rootDir: string
    var sitemap: Sitemap

    constructor (rootDir: string)
      ensures this.rootDir == rootDir && sitemap == []
    {
      this.rootDir := rootDir;
      sitemap := [];
    }

    /**
     * parse: resets the sitemap, then records every file that yields a
     * record under its uid. A crash ends the walk and leaves the records
     * made before it.
     */
    method Parse(files: seq<(string, Option<Document>)>, md: Element -> string) returns (err: Option<PyError>)
      requires WalkOf(rootDir, files)
      modifies this`sitemap
      ensures (sitemap, err) == Walk(rootDir, files, md)
    {
      sitemap := [];
      var i := 0;
      while i < |files|
        invariant 0 <= i <= |files|
        invariant WalkOf(rootDir, files[..i])
        invariant Walk(rootDir, files[..i], md) == (sitemap, None)
      {
        WalkNext(rootDir, files, md, i);
        var path := files[i].0;
        var uid := Uid(rootDir, path);
        var parsed := ParseFile(path, files[i].1, md);
        if parsed.Failure? {
          WalkStops(rootDir, files, md, i + 1);
          return Some(parsed.error);
        }
        if parsed.value.Some? {
          sitemap := Put(sitemap, uid, parsed.value.value);
        }
        i := i + 1;
      }
      assert files[..i] == files;
      err := None;
    }
  }
}

/**
 * sitemap.py: the first version of the site tool, one script with four
 * functions. `parse` walks the mirror into a sitemap, `dump` writes one
 * page per entry, `list` ranks the pages by incoming links and `graph`
 * builds the GraphViz text.
 *
 * `list` and `dump` read a module-level `sitemap` that the script never
 * assigns (the assignment is commented out); here it is a parameter.
 *
 * The script's own `def list()` replaces the builtin `list` that parse
 * calls to collect a page's links, so parse as written raises TypeError at
 * the first page it would read. `ParseRunAsWritten` models that;
 * `FileStep`, `ParseRun` and `LegacyParse` model parse with the builtin
 * `list`, as intended.
 * BeautifulSoup is replaced by `Parser.Document`, markdownify by the
 * parameter `md`, as in the package's parser.
 */
module LegacySitemap {
  import opened Wrappers
  import opened PyStr
  import opened Dicts
  import opened Records
  import opened Parser
  import opened Analysis
  import opened Generator

  /** The directory the script walks, and the prefix cut off every path to make its uid. */
  const Root := "pa-f.net/"

  // ---------------------------------------------------------------- parse

  /**
   * The start of the AttributeError markdownify raises when it is handed
   * None instead of an element (the attribute it names depends on the
   * markdownify version).
   */
  const MdOfNone := "'NoneType' object has no attribute"

  /** Every `.node` block has both a `.title` and a `.content`. */
  predicate NodesComplete(nodes: seq<Node>)
  {
    forall i :: 0 <= i < |nodes| ==> nodes[i].title.Some? && nodes[i].content.Some?
  }

  /**
   * The multi-block body: each node's title and content, appended in
   * order; md(None) crashes, so a node missing either ends the parse.
   */
  function NodesBody(nodes: seq<Node>, md: Element -> string): Result<string, PyError>
  {
    if NodesComplete(nodes) then Success(NodesMd(nodes, md)) else Failure(AttributeError(MdOfNone))
  }

  /**
   * What parse carries from one file to the next: the sitemap, and the
   * local variable `content`, which only the single-block branch assigns.
   * `content` is None while it is unbound, Some(None) once bound to a
   * missing `.node .content`.
   */
  datatype ParseState = ParseState(sitemap: Sitemap, content: Option<Option<Element>>)

  /** A file the loop leaves before it touches `content`: skipped, undecodable or without a title. */
  predicate Inert(path: string, doc: Option<Document>)
  {
    ShouldSkipFile(path) || doc.None? || doc.value.title.None?
  }

  /** The markdown of the galleries section, appended to the body without a separator. */
  function GalleriesMd(d: Document, md: Element -> string): string
  {
    if d.galleries.Some? then md(d.galleries.value) else ""
  }

  /** One pass of parse's loop over the file at `path`. */
  function FileStep(st: ParseState, path: string, doc: Option<Document>, md: Element -> string): Result<ParseState, PyError>
    requires StartsWith(path, Root)
  {
    if Inert(path, doc) then Success(st)
    else
      var d := doc.value;
      var title := ExtractTitle(d.title).value;
      var multi := |d.contents| > 1;
      var first := if d.contents != [] then Some(d.contents[0]) else None;
      var body := if multi then NodesBody(d.nodes, md) else Success(if first.Some? then md(first.value) else "");
      var content := if multi then st.content else Some(first);
      match body
      case Failure(e) => Failure(e)
      case Success(b) =>
        if content.None? then Failure(UnboundLocalError("content"))
        else if content.value.None? && d.galleries.None? then Success(ParseState(st.sitemap, content))
        else
          var page := Page(title, b + GalleriesMd(d, md), ExtractDate(d.submitted), ImageAbsent, None);
          Success(ParseState(Put(st.sitemap, Uid(Root, path), page), content))
  }

  /** The loop over a run of files; an exception ends it. */
  function ParseRun(files: seq<(string, Option<Document>)>, md: Element -> string): Result<ParseState, PyError>
    requires WalkOf(Root, files)
    decreases |files|
  {
    if files == [] then Success(ParseState([], None))
    else
      var init, f := files[..|files| - 1], files[|files| - 1];
      assert WalkOf(Root, init) by {
        assert forall i :: 0 <= i < |init| ==> init[i] == files[i];
      }
      match ParseRun(init, md)
      case Failure(e) => Failure(e)
      case Success(st) => FileStep(st, f.0, f.1, md)
  }

  /** parse(): the sitemap, or the exception that escapes it. */
  function LegacyParse(files: seq<(string, Option<Document>)>, md: Element -> string): Result<Sitemap, PyError>
    requires WalkOf(Root, files)
  {
    match ParseRun(files, md)
    case Failure(e) => Failure(e)
    case Success(st) => Success(st.sitemap)
  }

  /** The multi-block loop of parse. */
  method AppendNodeBlocks(nodes: seq<Node>, md: Element -> string) returns (r: Result<string, PyError>)
    ensures r == NodesBody(nodes, md)
  {
    var body := "";
    for i := 0 to |nodes|
      invariant NodesComplete(nodes[..i])
      invariant body == NodesMd(nodes[..i], md)
    {
      assert nodes[..i + 1][..i] == nodes[..i];
      if nodes[i].title.None? {
        assert !NodesComplete(nodes) by {
          assert nodes[i].title.None?;
        }
        return Failure(AttributeError(MdOfNone));
      }
      var t := md(nodes[i].title.value);
      body := body + t;
      if nodes[i].content.None? {
        assert !NodesComplete(nodes) by {
          assert nodes[i].content.None?;
        }
        return Failure(AttributeError(MdOfNone));
      }
      var c := md(nodes[i].content.value);
      Assoc(NodesMd(nodes[..i], md), t, c);
      body := body + c;
      assert NodesMd(nodes[..i + 1], md) == NodesMd(nodes[..i], md) + NodeMd(nodes[i], md);
    }
    assert nodes[..|nodes|] == nodes;
    r := Success(body);
  }

  /** One pass of parse's loop, in the script's order of checks. */
  method ParseStep(st: ParseState, path: string, doc: Option<Document>, md: Element -> string) returns (r: Result<ParseState, PyError>)
    requires StartsWith(path, Root)
    ensures r == FileStep(st, path, doc, md)
  {
    if ShouldSkipFile(path) {
      return Success(st);
    }
    var uid := Uid(Root, path);
    if doc.None? {
      return Success(st);
    }
    var d := doc.value;
    var title := ExtractTitle(d.title);
    if title.None? {
      return Success(st);
    }
    var contentMd := "";
    var content := st.content;
    if |d.contents| > 1 {
      var nodes := AppendNodeBlocks(d.nodes, md);
      if nodes.Failure? {
        return Failure(nodes.error);
      }
      contentMd := nodes.value;
    } else {
      var c := if d.contents != [] then Some(d.contents[0]) else None;
      content := Some(c);
      if c.Some? {
        contentMd := md(c.value);
      }
    }
    if content.None? {
      return Failure(UnboundLocalError("content"));
    }
    if content.value.None? && d.galleries.None? {
      return Success(ParseState(st.sitemap, content));
    }
    var date := ExtractDate(d.submitted);
    ghost var b := contentMd;
    if d.galleries.Some? {
      contentMd := contentMd + md(d.galleries.value);
    }
    assert contentMd == b + GalleriesMd(d, md);
    var page := Page(title.value, contentMd, date, ImageAbsent, None);
    assert !Inert(path, doc);
    assert FileStep(st, path, doc, md) == Success(ParseState(Put(st.sitemap, Uid(Root, path), page), content));
    r := Success(ParseState(Put(st.sitemap, uid, page), content));
  }

  /** parse(), over the files os.walk yields. */
  method Parse(files: seq<(string, Option<Document>)>, md: Element -> string) returns (r: Result<Sitemap, PyError>)
    requires WalkOf(Root, files)
    ensures r == LegacyParse(files, md)
  {
    var st := ParseState([], None);
    for i := 0 to |files|
      invariant WalkOf(Root, files[..i])
      invariant ParseRun(files[..i], md) == Success(st)
    {
      assert files[..i + 1][..i] == files[..i];
      assert WalkOf(Root, files[..i + 1]) by {
        assert forall j :: 0 <= j <= i ==> files[..i + 1][j] == files[j];
      }
      var next := ParseStep(st, files[i].0, files[i].1, md);
      if next.Failure? {
        ParseRunStops(files, md, i + 1);
        return Failure(next.error);
      }
      st := next.value;
    }
    assert files[..|files|] == files;
    r := Success(st.sitemap);
  }

  /** Once a file has raised, the files after it change nothing. */
  lemma {:induction false} ParseRunStops(files: seq<(string, Option<Document>)>, md: Element -> string, i: nat)
    requires WalkOf(Root, files) && i <= |files|
    requires WalkOf(Root, files[..i]) && ParseRun(files[..i], md).Failure?
    ensures ParseRun(files, md) == ParseRun(files[..i], md)
    decreases |files|
  {
    if i < |files| {
      var init := files[..|files| - 1];
      assert init[..i] == files[..i];
      assert WalkOf(Root, init) by {
        assert forall j :: 0 <= j < |init| ==> init[j] == files[j];
      }
      ParseRunStops(init, md, i);
    } else {
      assert files[..i] == files;
    }
  }

  /** The records parse writes: distinct uids, a non-empty title, no image and no links. */
  predicate LegacyRecords(sm: Sitemap)
  {
    DistinctKeys(sm)
    && forall j :: 0 <= j < |sm| ==> sm[j].1.title != "" && sm[j].1.image == ImageAbsent && sm[j].1.links.None?
  }

  lemma {:induction false} FileStepRecords(st: ParseState, path: string, doc: Option<Document>, md: Element -> string)
    requires StartsWith(path, Root) && LegacyRecords(st.sitemap)
    ensures FileStep(st, path, doc, md).Success? ==> LegacyRecords(FileStep(st, path, doc, md).value.sitemap)
  {
    var r := FileStep(st, path, doc, md);
    if r.Success? && r.value.sitemap != st.sitemap {
      var d := doc.value;
      var k := Uid(Root, path);
      var p := Get(r.value.sitemap, k);
      var body := if |d.contents| > 1 then NodesMd(d.nodes, md) else if d.contents != [] then md(d.contents[0]) else "";
      var page := Page(ExtractTitle(d.title).value, body + GalleriesMd(d, md), ExtractDate(d.submitted), ImageAbsent, None);
      assert r.value.sitemap == Put(st.sitemap, k, page);
      PutDistinct(st.sitemap, k, page);
      PutEntries(st.sitemap, k, page);
      forall j | 0 <= j < |r.value.sitemap|
        ensures r.value.sitemap[j].1.title != "" && r.value.sitemap[j].1.image == ImageAbsent && r.value.sitemap[j].1.links.None?
      {
        if r.value.sitemap[j] != (k, page) {
          var m :| 0 <= m < |st.sitemap| && st.sitemap[m] == r.value.sitemap[j];
        }
      }
    }
  }

  /**
   * Every record parse writes has a non-empty title and neither an image
   * nor links (the links are collected and then left out of the record), each under its own
   * uid: so a sitemap of its own has nothing `list` or `graph` can read.
   */
  lemma {:induction false} ParseRecords(files: seq<(string, Option<Document>)>, md: Element -> string)
    requires WalkOf(Root, files)
    ensures ParseRun(files, md).Success? ==> LegacyRecords(ParseRun(files, md).value.sitemap)
    ensures LegacyParse(files, md).Success? ==> LegacyRecords(LegacyParse(files, md).value)
    ensures LegacyParse(files, md).Success? && LegacyParse(files, md).value != [] ==> !AllLinked(LegacyParse(files, md).value)
    decreases |files|
  {
    if files != [] {
      var init, f := files[..|files| - 1], files[|files| - 1];
      assert WalkOf(Root, init) by {
        assert forall i :: 0 <= i < |init| ==> init[i] == files[i];
      }
      ParseRecords(init, md);
      if ParseRun(init, md).Success? {
        FileStepRecords(ParseRun(init, md).value, f.0, f.1, md);
      }
    }
    if LegacyParse(files, md).Success? && LegacyParse(files, md).value != [] {
      var sm := LegacyParse(files, md).value;
      assert sm[0].1.links.None?;
    }
  }

  /**
   * A multi-block file is judged by `content` as an earlier file left it:
   * while it is unbound the parse raises UnboundLocalError; when the last
   * single-block file had no content block, the file needs a galleries
   * section to be kept, whatever its nodes hold; the nodes themselves are
   * always written to the body.
   */
  lemma {:induction false} MultiBlockStaleContent(st: ParseState, path: string, d: Document, md: Element -> string)
    requires StartsWith(path, Root) && !Inert(path, Some(d))
    requires |d.contents| > 1 && NodesComplete(d.nodes)
    ensures var r := FileStep(st, path, Some(d), md);
      && (st.content.None? ==> r == Failure(UnboundLocalError("content")))
      && (st.content == Some(None) && d.galleries.None? ==> r == Success(st))
      && (st.content.Some? && (st.content.value.Some? || d.galleries.Some?) ==>
            r.Success? && r.value.content == st.content
            && KeySet(r.value.sitemap) == KeySet(st.sitemap) + {Uid(Root, path)}
            && (DistinctKeys(st.sitemap) ==> Get(r.value.sitemap, Uid(Root, path)) == Some(Page(
                 ExtractTitle(d.title).value, NodesMd(d.nodes, md) + GalleriesMd(d, md),
                 ExtractDate(d.submitted), ImageAbsent, None))))
  {
    if st.content.Some? && (st.content.value.Some? || d.galleries.Some?) {
      var page := Page(ExtractTitle(d.title).value, NodesMd(d.nodes, md) + GalleriesMd(d, md), ExtractDate(d.submitted), ImageAbsent, None);
      assert NodesBody(d.nodes, md) == Success(NodesMd(d.nodes, md));
      assert FileStep(st, path, Some(d), md) == Success(ParseState(Put(st.sitemap, Uid(Root, path), page), st.content));
      PutKeySet(st.sitemap, Uid(Root, path), page);
      if DistinctKeys(st.sitemap) {
        PutGet(st.sitemap, Uid(Root, path), page);
      }
    }
  }

  /**
   * A single-block file binds `content` to its content block (or None) and
   * is kept exactly when it has a content block or a galleries section; its
   * body is that block's markdown followed by the galleries' markdown.
   */
  lemma {:induction false} SingleBlockRule(st: ParseState, path: string, d: Document, md: Element -> string)
    requires StartsWith(path, Root) && !Inert(path, Some(d))
    requires |d.contents| <= 1
    ensures var r := FileStep(st, path, Some(d), md);
      && r.Success?
      && r.value.content == Some(if d.contents != [] then Some(d.contents[0]) else None)
      && (d.contents == [] && d.galleries.None? ==> r.value.sitemap == st.sitemap)
      && (d.contents != [] || d.galleries.Some? ==>
            Uid(Root, path) in KeySet(r.value.sitemap)
            && KeySet(r.value.sitemap) == KeySet(st.sitemap) + {Uid(Root, path)}
            && (DistinctKeys(st.sitemap) ==> Get(r.value.sitemap, Uid(Root, path)) == Some(Page(
                 ExtractTitle(d.title).value,
                 (if d.contents != [] then md(d.contents[0]) else "") + GalleriesMd(d, md),
                 ExtractDate(d.submitted), ImageAbsent, None))))
  {
    if d.contents != [] || d.galleries.Some? {
      var page := Page(ExtractTitle(d.title).value, (if d.contents != [] then md(d.contents[0]) else "") + GalleriesMd(d, md),
        ExtractDate(d.submitted), ImageAbsent, None);
      PutKeySet(st.sitemap, Uid(Root, path), page);
      if DistinctKeys(st.sitemap) {
        PutGet(st.sitemap, Uid(Root, path), page);
      }
    }
  }

  /**
   * When the first file that reaches the content step is a multi-block
   * page, parse raises UnboundLocalError on it, and nothing is returned.
   */
  lemma {:induction false} EarlyMultiBlock(files: seq<(string, Option<Document>)>, md: Element -> string, i: nat)
    requires WalkOf(Root, files) && i < |files|
    requires forall j :: 0 <= j < i ==> Inert(files[j].0, files[j].1)
    requires !Inert(files[i].0, files[i].1) && |files[i].1.value.contents| > 1 && NodesComplete(files[i].1.value.nodes)
    ensures LegacyParse(files, md) == Failure(UnboundLocalError("content"))
  {
    var pre := files[..i + 1];
    assert WalkOf(Root, pre) by {
      assert forall j :: 0 <= j < |pre| ==> pre[j] == files[j];
    }
    InertRun(files, md, i);
    assert pre[..i] == files[..i];
    ParseRunStops(files, md, i + 1);
  }

  /** Files the loop leaves early leave the state as it was at the start. */
  lemma {:induction false} InertRun(files: seq<(string, Option<Document>)>, md: Element -> string, i: nat)
    requires WalkOf(Root, files) && i <= |files|
    requires forall j :: 0 <= j < i ==> Inert(files[j].0, files[j].1)
    ensures WalkOf(Root, files[..i])
    ensures ParseRun(files[..i], md) == Success(ParseState([], None))
  {
    assert WalkOf(Root, files[..i]) by {
      assert forall j :: 0 <= j < i ==> files[..i][j] == files[j];
    }
    if i > 0 {
      InertRun(files, md, i - 1);
      assert files[..i][..i - 1] == files[..i - 1];
    }
  }

  /**
   * A page without a content block turns `content` into None, so a
   * multi-block page after it is dropped when it has no galleries section,
   * although its nodes have content.
   */
  lemma {:induction false} StaleContentDrop(a: (string, Option<Document>), b: (string, Option<Document>), md: Element -> string)
    requires StartsWith(a.0, Root) && StartsWith(b.0, Root)
    requires !Inert(a.0, a.1) && a.1.value.contents == [] && a.1.value.galleries.None?
    requires !Inert(b.0, b.1) && |b.1.value.contents| > 1 && NodesComplete(b.1.value.nodes) && b.1.value.galleries.None?
    ensures LegacyParse([a, b], md) == Success([])
  {
    var files := [a, b];
    var st := ParseState([], Some(None));
    assert WalkOf(Root, [a]);
    assert ParseRun([a], md) == Success(st) by {
      assert [a][..0] == [];
      SingleBlockRule(ParseState([], None), a.0, a.1.value, md);
    }
    assert ParseRun(files, md) == Success(st) by {
      assert files[..1] == [a];
      MultiBlockStaleContent(st, b.0, b.1.value, md);
    }
  }

  /**
   * The message of the TypeError line 55 raises: the module-level
   * `def list()` further down the script replaces the builtin `list`, and
   * it takes no arguments.
   */
  const ListShadowed := "list() takes 0 positional arguments but 1 was given"

  /**
   * parse() as the script is written: the first file that gets past the
   * skip, decode and title checks calls the shadowed `list` and raises.
   */
  function ParseRunAsWritten(files: seq<(string, Option<Document>)>): Result<Sitemap, PyError>
  {
    if files == [] then Success([])
    else if !Inert(files[0].0, files[0].1) then Failure(TypeError(ListShadowed))
    else ParseRunAsWritten(files[1..])
  }

  /** parse()'s loop as the script is written, up to the call of the shadowed `list`. */
  method ParseAsWritten(files: seq<(string, Option<Document>)>) returns (r: Result<Sitemap, PyError>)
    requires WalkOf(Root, files)
    ensures r == ParseRunAsWritten(files)
  {
    for i := 0 to |files|
      invariant ParseRunAsWritten(files) == ParseRunAsWritten(files[i..])
    {
      assert files[i..][1..] == files[i + 1..];
      var path := files[i].0;
      if ShouldSkipFile(path) {
        continue;
      }
      var uid := Uid(Root, path);
      if files[i].1.None? {
        continue;
      }
      var title := ExtractTitle(files[i].1.value.title);
      if title.None? {
        continue;
      }
      return Failure(TypeError(ListShadowed));
    }
    assert files[|files|..] == [];
    r := Success([]);
  }

  /**
   * The script as written returns a sitemap exactly when every file is left
   * before the content step, and that sitemap is empty; otherwise it raises
   * the TypeError of the shadowed `list`.
   */
  lemma {:induction false} AsWrittenOutcome(files: seq<(string, Option<Document>)>)
    ensures ParseRunAsWritten(files).Success? <==> forall i :: 0 <= i < |files| ==> Inert(files[i].0, files[i].1)
    ensures ParseRunAsWritten(files).Success? ==> ParseRunAsWritten(files).value == []
    ensures ParseRunAsWritten(files).Failure? ==> ParseRunAsWritten(files).error == TypeError(ListShadowed)
  {
    if files != [] {
      AsWrittenOutcome(files[1..]);
      assert forall i :: 0 < i < |files| ==> files[1..][i - 1] == files[i];
    }
  }

  /** Where the script as written returns at all, the parse with the builtin `list` returns the same. */
  lemma {:induction false} AsWrittenAgrees(files: seq<(string, Option<Document>)>, md: Element -> string)
    requires WalkOf(Root, files)
    ensures ParseRunAsWritten(files).Success? ==> LegacyParse(files, md) == ParseRunAsWritten(files)
  {
    AsWrittenOutcome(files);
    if ParseRunAsWritten(files).Success? {
      InertRun(files, md, |files|);
      assert files[..|files|] == files;
    }
  }

  /**
   * One titled page with one content block: the script as written raises
   * TypeError, while with the builtin `list` it is kept under its uid.
   */
  lemma {:induction false} ShadowedListDiffers(a: (string, Option<Document>), md: Element -> string)
    requires StartsWith(a.0, Root) && !Inert(a.0, a.1) && |a.1.value.contents| == 1
    ensures ParseRunAsWritten([a]) == Failure(TypeError(ListShadowed))
    ensures WalkOf(Root, [a]) && LegacyParse([a], md).Success?
    ensures Uid(Root, a.0) in KeySet(LegacyParse([a], md).value)
  {
    assert WalkOf(Root, [a]);
    var st0 := ParseState([], None);
    SingleBlockRule(st0, a.0, a.1.value, md);
    assert ParseRun([a], md) == FileStep(st0, a.0, a.1, md) by {
      assert [a][..0] == [];
      assert ParseRun([], md) == Success(st0);
    }
  }

  // ---------------------------------------------------------------- dump

  /** What dump writes into one page: the head title, the links it builds and the title and date shown. */
  datatype DumpView = DumpView(headTitle: string, root: string, logoPath: string, homePath: string, heading: string, date: string)

  /**
   * `v.get("date", "")` inside an f-string: the date, or the text "None"
   * for the null the parser stores. (A record without the key would print
   * an empty date; both parsers always write it.)
   */
  function DateText(p: Page): string
  {
    if p.date.Some? then p.date.value else "None"
  }

  /** The logo of a page: chosen by nesting depth, cycling through the five logos. */
  function LogoIndex(k: string): (i: nat)
    ensures i == CountChar(k, '/') % |LogoNames| && i < |LogoNames|
  {
    assert "/" == ['/'];
    SplitCharCount(k, '/');
    (|Split(k, "/")| - 1) % |LogoNames|
  }

  /** The page dump writes for entry k; the relative root is the generator's. */
  function DumpViewOf(k: string, p: Page): DumpView
  {
    var root := RelativeRoot(k);
    DumpView(p.title + " | pa-f", root, root + "sites/pa-f.net/files/" + LogoNames[LogoIndex(k)], root + "index.html", p.title, DateText(p))
  }

  /** Pages at the same depth show the same logo; every link of the page starts at its relative root. */
  lemma {:induction false} DumpLinks(k: string, p: Page, k': string, p': Page)
    requires CountChar(k, '/') == CountChar(k', '/')
    ensures DumpViewOf(k, p).root == DumpViewOf(k', p').root == Repeat("../", CountChar(k, '/'))
    ensures DumpViewOf(k, p).logoPath == DumpViewOf(k', p').logoPath
    ensures StartsWith(DumpViewOf(k, p).logoPath, DumpViewOf(k, p).root) && StartsWith(DumpViewOf(k, p).homePath, DumpViewOf(k, p).root)
  {
  }

  /** dump: one page per sitemap entry, written under its key, in sitemap order. */
  method Dump(sm: Sitemap) returns (pages: seq<(string, DumpView)>)
    ensures |pages| == |sm|
    ensures forall i :: 0 <= i < |sm| ==> pages[i] == (sm[i].0, DumpViewOf(sm[i].0, sm[i].1))
  {
    pages := [];
    for i := 0 to |sm|
      invariant |pages| == i
      invariant forall j :: 0 <= j < i ==> pages[j] == (sm[j].0, DumpViewOf(sm[j].0, sm[j].1))
    {
      var k, v := sm[i].0, sm[i].1;
      var depth := |Split(k, "/")| - 1;
      var root := Repeat("../", depth);
      var logoName := LogoNames[depth % |LogoNames|];
      var logoPath := root + "sites/pa-f.net/files/" + logoName;
      var homePath := root + "index.html";
      var date := if v.date.Some? then v.date.value else "None";
      assert root == RelativeRoot(k) && depth % |LogoNames| == LogoIndex(k) by {
        assert "/" == ['/'];
        SplitCharCount(k, '/');
      }
      var view := DumpView(v.title + " | pa-f", root, logoPath, homePath, v.title, date);
      assert view == DumpViewOf(k, v);
      pages := pages + [(k, view)];
    }
  }

  // ---------------------------------------------------------------- list

  /** Every record has a `links` key, as `v['links']` demands. */
  predicate AllLinked(sm: Sitemap)
  {
    forall i :: 0 <= i < |sm| ==> sm[i].1.links.Some?
  }

  lemma {:induction false} AllLinkedSnoc(sm: Sitemap, i: nat)
    requires i < |sm|
    ensures AllLinked(sm[..i + 1]) <==> AllLinked(sm[..i]) && sm[i].1.links.Some?
  {
    var p, q := sm[..i + 1], sm[..i];
    assert forall j :: 0 <= j < i ==> p[j] == q[j];
    assert p[i] == sm[i];
  }

  /**
   * list(): the package's page list, computed the same way, except that a
   * record without `links` raises KeyError before any row is made.
   */
  method List(sm: Sitemap) returns (r: Result<seq<ListRow>, PyError>)
    ensures AllLinked(sm) ==> r == Success(Rows(PageListEntries(sm, LinkCounts(sm)), LinkCounts(sm)))
    ensures !AllLinked(sm) ==> r == Failure(KeyError("links"))
  {
    var counts := [];
    for i := 0 to |sm|
      invariant AllLinked(sm[..i])
      invariant counts == Tally(Targets(sm, sm[..i]))
    {
      assert sm[..i + 1][..i] == sm[..i];
      if sm[i].1.links.None? {
        assert !AllLinked(sm) by {
          assert sm[i].1.links.None?;
        }
        return Failure(KeyError("links"));
      }
      AllLinkedSnoc(sm, i);
      assert Targets(sm, sm[..i + 1]) == Targets(sm, sm[..i]) + PageTargets(sm, sm[i].0, LinksOrEmpty(sm[i].1));
      counts := CountPageLinks(sm, sm[i].0, sm[i].1.links.value, counts, Targets(sm, sm[..i]));
    }
    assert sm[..|sm|] == sm;
    var rows := ListRows(sm, counts);
    r := Success(rows);
  }

  // ---------------------------------------------------------------- graph

  /** The name the script gives a bare `/` link. */
  const IndexAlias := "index-html"

  /** The alias survives the edge rules: no leading '/', not blank, not a URL. */
  lemma {:induction false} IndexAliasKept()
    ensures LStrip(IndexAlias, {'/'}) == IndexAlias
    ensures Strip(IndexAlias) != "" && !StartsWith(IndexAlias, "http")
  {
    var s := IndexAlias;
    assert LStrip(s, {'/'}) == s by {
      assert s[0] !in {'/'};
    }
    assert Strip(s) != "" by {
      assert !IsSpace(s[0]);
      assert LStripSpace(s) == s;
      assert !IsSpace(s[|s| - 1]);
    }
    assert !StartsWith(s, "http") by {
      assert s[0] != 'h';
    }
  }

  /** The alias sanitises to the identifier of the index page. */
  lemma {:induction false} SanitizedAlias()
    ensures Sanitized(IndexAlias) == "index_html"
  {
    var s := IndexAlias;
    var r := Sanitized(s);
    assert |r| == 10;
    assert r[5] == '_' by { assert s[5] == '-'; }
    forall k | 0 <= k < 10 && k != 5 ensures r[k] == s[k] {
      assert s[k] !in BadChars;
    }
  }

  /**
   * The edge one link gives in the script. It writes "index-html" where the
   * package writes "index.html", but both sanitise to the same identifier,
   * so the edges agree with the package's for every link.
   */
  function LegacyEdgeTarget(linkRaw: string): (t: Option<string>)
    ensures t == EdgeTarget(linkRaw)
  {
    var link := if Strip(linkRaw) == "/" then IndexAlias else linkRaw;
    var l := LStrip(link, {'/'});
    assert Strip(linkRaw) == "/" ==> l == IndexAlias by {
      if Strip(linkRaw) == "/" {
        IndexAliasKept();
      }
    }
    assert Strip(linkRaw) == "/" ==> EdgeTarget(linkRaw) == Some("index_html") by {
      if Strip(linkRaw) == "/" {
        EdgeToIndex(linkRaw);
      }
    }
    assert Strip(linkRaw) == "/" ==> Strip(l) != "" && !StartsWith(l, "http") && Sanitized(l) == "index_html" by {
      if Strip(linkRaw) == "/" {
        IndexAliasKept();
        SanitizedAlias();
      }
    }
    if Strip(l) == "" || StartsWith(l, "http") then None else Some(Sanitized(l))
  }

  /** The edge loop body of graph. */
  method LegacyEdgeOf(linkRaw: string) returns (t: Option<string>)
    ensures t == LegacyEdgeTarget(linkRaw)
  {
    var link := linkRaw;
    if Strip(link) == "/" {
      link := IndexAlias;
    }
    link := LStrip(link, {'/'});
    if Strip(link) == "" {
      return None;
    }
    if StartsWith(link, "http") {
      return None;
    }
    link := SanitizeId(link);
    return Some(link);
  }

  /** One page's edge lines, appended in link order. */
  method LegacyAppendEdges(body: string, uid: string, links: seq<string>) returns (out: string)
    ensures out == body + Render(EdgeLines(uid, EdgeTargets(links)))
  {
    out := body;
    for j := 0 to |links|
      invariant out == body + Render(EdgeLines(uid, EdgeTargets(links[..j])))
    {
      ghost var done := EdgeTargets(links[..j]);
      var t := LegacyEdgeOf(links[j]);
      EdgeTargetsSnoc(links, j);
      EdgeLinesSnoc(uid, done, t);
      if t.Some? {
        var line := uid + " -> " + t.value + ";\n";
        assert line == RenderLine(EdgeLine(uid, t.value));
        RenderSnoc(EdgeLines(uid, done), EdgeLine(uid, t.value));
        Assoc(body, Render(EdgeLines(uid, done)), line);
        out := out + line;
      } else {
        assert EdgeLines(uid, done) + [] == EdgeLines(uid, done);
      }
    }
    assert links[..|links|] == links;
  }

  /**
   * graph(sitemap) as intended: the package's DOT text, or KeyError when a
   * record has no `links`.
   */
  method Graph(sm: Sitemap) returns (r: Result<string, PyError>)
    ensures AllLinked(sm) ==> r == Success(Dot(sm))
    ensures !AllLinked(sm) ==> r == Failure(KeyError("links"))
  {
    var body := "";
    for i := 0 to |sm|
      invariant AllLinked(sm[..i])
      invariant body == Render(GraphLines(sm[..i]))
    {
      ghost var prev := GraphLines(sm[..i]);
      assert sm[..i + 1][..i] == sm[..i];
      var uid := SanitizeId(sm[i].0);
      var title := ReplaceAll(sm[i].1.title, "\"", "");
      var line := uid + " [label=\"" + title + "\"];\n";
      assert line == RenderLine(NodeLine(uid, title));
      if sm[i].1.links.None? {
        assert !AllLinked(sm) by {
          assert sm[i].1.links.None?;
        }
        return Failure(KeyError("links"));
      }
      AllLinkedSnoc(sm, i);
      RenderSnoc(prev, NodeLine(uid, title));
      body := LegacyAppendEdges(body + line, uid, sm[i].1.links.value);
      assert Sanitized(sm[..i + 1][i].0) == uid;
      RenderAppend(prev + [NodeLine(uid, title)], EdgeLines(uid, EdgeTargets(LinksOrEmpty(sm[i].1))));
    }
    assert sm[..|sm|] == sm;
    r := Success("digraph F {\n" + body + "}");
  }

  /**
   * graph(sitemap) as written: it builds the text and then falls off the
   * end of the function, so the caller gets None whatever the sitemap.
   */
  method GraphAsWritten(sm: Sitemap) returns (r: Result<Option<string>, PyError>)
    ensures AllLinked(sm) ==> r == Success(None)
    ensures !AllLinked(sm) ==> r == Failure(KeyError("links"))
  {
    var text := Graph(sm);
    if text.Failure? {
      return Failure(text.error);
    }
    r := Success(None);
  }

  /** The intended result is never None: even the empty sitemap has a graph, the bare header and brace. */
  lemma {:induction false} GraphTextExists(sm: Sitemap)
    ensures StartsWith(Dot(sm), "digraph F {\n") && Dot(sm)[|Dot(sm)| - 1] == '}'
    ensures sm == [] ==> Dot(sm) == "digraph F {\n}"
  {
  }
}

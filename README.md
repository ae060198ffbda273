# pa-f.net site tools — a Dafny model

The pa-f.net repository turns a wget mirror of the Performing Arts Forum's
old Drupal site into a static site. Its `palimpsest` package parses every
mirrored HTML file into a sitemap, a JSON object mapping each page key to a
record with `title`, `md`, `date`, `image` and `links`. It also analyses the
link graph of that sitemap (incoming-link counts, a ranked page list, a
GraphViz graph, statistics, keyword search, a date filter) and generates
one static HTML page per record. Three more programs sit around the package:

- `sitemap.py`, an older single-script version of the same rules;
- a small web editor API that validates and stores an edited sitemap, then
  regenerates the site;
- a Flask server that maps request paths to S3 object keys.

This project models the decisions those programs make: which files become
pages and under which key; how titles, links, bodies, images and dates are
extracted; how links are resolved, counted and ranked; how graph
identifiers are sanitised; which paths the generated pages use; when the
editor accepts and stores a sitemap; and which bucket key a request reads.
It also proves what the code promises about each of them.

Files:

- `wrappers.dfy` — `Option` and `Result`.
- `pystr.dfy` — the Python string operations the code relies on, with the
  Python semantics the model needs: `split`, `join`, `lstrip` and `strip`
  on character sets, `replace`, `count`, `lower` and `startswith`.
- `posixpath.dfy` — `os.path.normpath` and `os.path.join`.
- `dicts.dfy` — an insertion-ordered dictionary.
- `stablesort.dfy` — Python's stable `sorted(..., reverse=True)`.
- `records.dfy` — the page record and the sitemap.
- `parser.dfy` — `palimpsest/parser.py`.
- `analysis.dfy` — `palimpsest/analysis.py`.
- `legacy.dfy` — `sitemap.py`.
- `generator.dfy` — `palimpsest/generator.py`.
- `editor.dfy` — `web-editor/backend/main.py`.
- `serve.dfy` — `serve-bucket/serve.py`.

How the model represents the source:

- An HTML file is a `Parser.Document` holding what each CSS selection of
  the parser returns. `md(...)` (markdownify) is a function parameter.
- A dict is a sequence of key/value pairs in insertion order with distinct
  keys, because the order of pages matters to the sort, the graph and the
  image list.
- A raised exception is the `Failure` side of a `Result`.
- Code that loops and accumulates (the link counts, the page list, the
  graph text, the editor's validation, the parser's walk) is a method with
  a loop. Each such method is proved equal to a specification function,
  and the properties are proved about that function.
- The objects whose fields the source assigns are classes:
  `Parser.SiteParser`, `Analysis.SiteAnalyzer`,
  `Generator.StaticSiteGenerator`, and `EditorApi.Editor`, whose fields
  stand for the sitemap file and the output directory.
- `sitemap.py` is read as Python 3.12 or later. The f-string at
  sitemap.py:335 reuses its `'` delimiter inside a replacement field, which
  earlier versions reject as a syntax error (PEP 701 made it legal).
- `sitemap.py`'s parse is modelled twice: as written, where the script's
  own `def list()` makes line 55 raise TypeError, and with the builtin
  `list` that line evidently means (see Findings).

## Model

| member | source | states |
|---|---|---|
| Parser.SkipExamples | palimpsest/parser.py:40-46 | an export page, a resized image (`size=`), a tracker page and a file under `files/` are all skipped |
| Parser.SkipOtherRoot | palimpsest/parser.py:40-46 | the skip prefixes name the default root only: `mirror/files/...` is not skipped |
| Parser.ExtractTitle | palimpsest/parser.py:58-63 | the title is None exactly when there is no title element, and is never empty when there is one |
| Parser.TitleShape | palimpsest/parser.py:60 | a title text without the space-bar separator gives `pa-f`; with one, the text after the last separator holds no separator, and the result is `pa-f` exactly when nothing precedes that separator, else the text before it |
| Parser.TitleExampleHome | palimpsest/parser.py:60 | the title text `Home`, separator, `pa-f` gives `Home` |
| Parser.TitleExampleSite | palimpsest/parser.py:60 | `"pa-f"` gives `"pa-f"` (the empty join falls back to the default) |
| Parser.CleanHrefSuffix | palimpsest/parser.py:82-84 | a cleaned href is a suffix of the href |
| Parser.CleanHrefFree | palimpsest/parser.py:82-84 | a cleaned href contains none of the three absolute site prefixes |
| Parser.CleanHrefUnchanged | palimpsest/parser.py:82-84 | an href containing none of the prefixes is kept as it is |
| Parser.CleanHrefProperties | palimpsest/parser.py:82-84 | the three facts above together |
| Parser.CleanHrefExample | palimpsest/parser.py:82-84 | a site-relative href such as `/node/7.html` is unchanged |
| Parser.Candidates | palimpsest/parser.py:75-85 | the collected links are exactly the cleaned hrefs of the anchors whose href is present, non-empty and not `mailto:` |
| Parser.Dedup | palimpsest/parser.py:87 | `list(set(...))` has no duplicates and the same members as its input |
| Parser.ExtractLinks | palimpsest/parser.py:75-87 | the loop and `list(set(...))` give a duplicate-free list whose members are exactly the cleaned kept hrefs |
| Parser.ImgsIn | palimpsest/parser.py:117 | `select('img')` yields only `img` elements |
| Parser.DecomposeProperties | palimpsest/parser.py:126-127 | removing `.count` and `.last` leaves no such element among the descendants, keeps the element itself, and changes nothing when there are none |
| Parser.PruneUnmarked | palimpsest/parser.py:126-127 | the pruned children hold no `.count` or `.last` element at any depth |
| Parser.PruneUnchanged | palimpsest/parser.py:126-127 | children without such elements are not changed |
| Parser.NodesMdAppend | palimpsest/parser.py:104-110 | the body of the node blocks is the concatenation of the bodies of its parts |
| Parser.AppendNodes | palimpsest/parser.py:104-110 | the multi-block loop appends md(title) then md(content) of every node in order, skipping missing parts |
| Parser.AppendSections | palimpsest/parser.py:121-128 | the section loop appends each present section after a blank line |
| Parser.ExtractContent | palimpsest/parser.py:99-130 | extract_content returns the specified body and image, or the crash of a src-less single image |
| Parser.ImageRule | palimpsest/parser.py:100-118 | an image is recorded exactly when there is one content block holding exactly one img with a src; it is then that src with its leading `.` and `/` removed; otherwise `image` stays false; a single img with no src crashes |
| Parser.ImageExample | palimpsest/parser.py:118 | `lstrip("./")` strips a character set: `../x.png` gives `x.png` |
| Parser.MultiBlockContent | palimpsest/parser.py:103-110 | with more than one content block the body is the node blocks then the sections, and `image` is false |
| Parser.SectionsOrder | palimpsest/parser.py:121-128 | galleries (cleaned), images and pager are appended in that order, each after `"\n\n"` and only when present |
| Parser.DateIndex | palimpsest/parser.py:144 | the position found is a `dddd-dd-dd` match and no match starts before it |
| Parser.ExtractDate | palimpsest/parser.py:142-147 | the date is None exactly when there is no submitted text or it has no match; otherwise it is the leftmost ten-character `dddd-dd-dd` match |
| Parser.DateExample | palimpsest/parser.py:142-147 | `"Submitted on 2009-03-14"` gives `2009-03-14`; text without a date gives None |
| Parser.ParseFile | palimpsest/parser.py:164-206 | no record exactly when the file is skipped, undecodable, untitled or has none of content, galleries or images; otherwise the record has the extracted title, date, image and duplicate-free links, or parse_file crashes in extract_content |
| Parser.Uid | palimpsest/parser.py:222 | the key is the text right after the leading root; it ends at the end of the path or where the root occurs next, and no occurrence of the root starts inside it |
| Parser.UidOfRelative | palimpsest/parser.py:222 | when the rest of the path does not repeat the root, the key is the path past the root |
| Parser.UidExample | palimpsest/parser.py:222 | `pa-f.net/node/7.html` gets the key `node/7.html` |
| Parser.WalkStep | palimpsest/parser.py:215-226 | each file either crashes the walk, inserts its record under its key, or leaves the sitemap alone |
| Parser.WalkNext | palimpsest/parser.py:217-226 | one more file after a walk without a crash extends the walk as parse's loop body does |
| Parser.WalkStops | palimpsest/parser.py:217-226 | once a file has crashed, later files change nothing |
| Parser.WalkDistinct | palimpsest/parser.py:224-226 | the sitemap never holds a key twice |
| Parser.WalkKeys | palimpsest/parser.py:224-226 | after a walk without a crash, the keys are exactly the keys of the files that yield a record |
| Parser.WalkEntries | palimpsest/parser.py:224-226 | every entry is the record of some walked file under that file's key |
| Parser.UidRecordedStep | palimpsest/parser.py:224-226 | a key is recorded by a longer walk exactly when the shorter walk or the new file records it |
| Parser.SiteParser.constructor | palimpsest/parser.py:20-28 | a new parser has the given root and an empty sitemap |
| Parser.SiteParser.Parse | palimpsest/parser.py:208-228 | parse resets the sitemap, then runs the walk: the new sitemap and the crash, if any, are those of the specified walk |
| Analysis.Resolve | palimpsest/analysis.py:42-55 | a link is ignored exactly when it starts with `http` or contains `?`; a link that does not start with `../` once its leading slashes are gone is looked up as it then is; a non-empty result comes from a link that is not all slashes |
| Analysis.ReferrerBaseShape | palimpsest/analysis.py:51-54 | the base of a referrer whose last segment has a `.` is its directory with a trailing `/` (or `/` at top level); otherwise it is the referrer itself, with nothing added |
| Analysis.ReferrerBaseOfFile | palimpsest/analysis.py:51-52 | the referrer `d/b` with a `.` in `b` has the base `d/` |
| Analysis.ResolveUp | palimpsest/analysis.py:47-55 | a `../` link is the normalised concatenation of the referrer's base and the link |
| Analysis.ResolveParent | palimpsest/analysis.py:47-55 | `../f` from the referrer `d/b.ext` resolves to `f` |
| Analysis.ResolveParentExample | palimpsest/analysis.py:47-55 | `a/b.html` with `../c.html` resolves to `c.html` |
| Analysis.Target | palimpsest/analysis.py:57-58 | a link counts only when it resolves to a key of the sitemap; dead links are dropped |
| Analysis.IgnoredLinks | palimpsest/analysis.py:42-45 | links starting with `http` or holding `?` never count |
| Analysis.TargetsBound | palimpsest/analysis.py:40-60 | there are at most as many counted targets as links |
| Analysis.TallyCount | palimpsest/analysis.py:60 | the count of a key is its number of occurrences among the targets, and a key that never occurs is absent |
| Analysis.SumTally | palimpsest/analysis.py:60 | the counts add up to the number of targets |
| Analysis.TallyPositive | palimpsest/analysis.py:60 | every count is at least 1 |
| Analysis.CountStep | palimpsest/analysis.py:41-60 | one more link bumps the count of its target, or changes nothing when it does not count |
| Analysis.TargetOf | palimpsest/analysis.py:42-58 | the loop body resolves a link to the specified target |
| Analysis.CountPageLinks | palimpsest/analysis.py:41-60 | the inner loop adds one page's counted links to the counts |
| Analysis.LinkCountsProperties | palimpsest/analysis.py:38-62 | the counts have distinct keys that are all sitemap keys, each at least 1, each equal to its multiplicity among the resolved targets, and summing to at most the number of links |
| Analysis.SiteAnalyzer.constructor | palimpsest/analysis.py:12-19 | a missing sitemap is taken as empty |
| Analysis.SiteAnalyzer.AnalyzeLinks | palimpsest/analysis.py:31-62 | analyze_links returns the specified counts: only sitemap keys, each at least 1 |
| Analysis.PageListProperties | palimpsest/analysis.py:76-84 | the list holds every key without `?` exactly as often as the sitemap does and no other, ordered by non-increasing count, with equal counts in sitemap order |
| Analysis.IntLePreorder | palimpsest/analysis.py:76-80 | the count order is a total preorder, as the sort needs |
| Analysis.RowsShape | palimpsest/analysis.py:82-91 | one row per listed page, in list order, each with that page's count and href |
| Analysis.ListHrefIndex | palimpsest/analysis.py:87-89 | `index.html` links to the site root |
| Analysis.PageHref | palimpsest/analysis.py:87-89 | the row link is the key without `.html`, empty for `index` |
| Analysis.ListRows | palimpsest/analysis.py:82-91 | the row loop builds the specified rows |
| Analysis.SiteAnalyzer.GeneratePageList | palimpsest/analysis.py:64-94 | generate_page_list renders the sorted, filtered entries with their counts |
| Analysis.SanitizedProperties | palimpsest/analysis.py:103-111 | sanitising keeps the length, leaves none of `/-.?=+&` or space, keeps every other character, and is idempotent |
| Analysis.SanitizeId | palimpsest/analysis.py:109-111 | the replace loop computes the sanitised id |
| Analysis.SanitizedExample | palimpsest/analysis.py:103-111 | `node/25153.html` becomes `node_25153_html` |
| Analysis.SanitizedIndex | palimpsest/analysis.py:120-121 | the `index.html` alias sanitises to `index_html` |
| Analysis.IndexPageKept | palimpsest/analysis.py:122-128 | the `index.html` alias survives stripping and the empty and `http` filters |
| Analysis.EdgeToIndex | palimpsest/analysis.py:120-134 | a link that is `/` after strip gives an edge to `index_html` |
| Analysis.EdgeSkipped | palimpsest/analysis.py:122-128 | a link that is blank, or starts with `http`, after its leading slashes are stripped gives no edge |
| Analysis.EdgeKept | palimpsest/analysis.py:122-134 | every other link gives an edge to its sanitised, slash-stripped form, whether or not that page exists |
| Analysis.EdgesFrom | palimpsest/analysis.py:118-134 | a page has at most one edge per link, all from its own id |
| Analysis.NoNodesInEdges | palimpsest/analysis.py:118-134 | the edge lines declare no nodes |
| Analysis.GraphNodes | palimpsest/analysis.py:107-115 | the graph declares one node per page, in sitemap order, with the page's sanitised key |
| Analysis.RenderAppend | palimpsest/analysis.py:105-136 | the text of consecutive lines is the concatenation of their texts |
| Analysis.EdgeOf | palimpsest/analysis.py:119-132 | the loop body computes the specified edge target |
| Analysis.AppendEdges | palimpsest/analysis.py:118-134 | the link loop appends the specified edge lines |
| Analysis.SiteAnalyzer.GenerateGraphviz | palimpsest/analysis.py:96-137 | generate_graphviz returns the specified DOT text |
| Analysis.CountWhere | palimpsest/analysis.py:158-164 | a count of pages is at most the number of pages |
| Analysis.Dates | palimpsest/analysis.py:158-160 | one date per page with a non-empty date, and exactly those dates |
| Analysis.StatisticsSnoc | palimpsest/analysis.py:156-168 | each page adds to the counters and the date list as the statistics loop does |
| Analysis.StatisticsProperties | palimpsest/analysis.py:146-175 | total is the page count; the date and image counts are at most the total; earliest and latest are None exactly when there are no dates, and are otherwise the lexicographic minimum and maximum of the dates |
| Analysis.StrLePreorder | palimpsest/analysis.py:172 | string order is a total preorder |
| Analysis.SiteAnalyzer.GetContentStatistics | palimpsest/analysis.py:139-176 | get_content_statistics returns the specified statistics |
| Analysis.ScoreProperties | palimpsest/analysis.py:192-200 | the score is positive exactly when the lower-cased keyword is in the lower-cased title or non-empty body; a title hit is worth at least 10; without one the score is the number of non-overlapping body occurrences |
| Analysis.Hits | palimpsest/analysis.py:191-203 | only pages with a positive score are kept, at most one per page |
| Analysis.HitsMember | palimpsest/analysis.py:191-203 | a result is exactly the triple of a page with a positive score |
| Analysis.KeywordSearchProperties | palimpsest/analysis.py:188-207 | the results are the hits reordered by non-increasing score: all positive, each the triple of a matching page |
| Analysis.SiteAnalyzer.FindPagesByKeyword | palimpsest/analysis.py:178-207 | find_pages_by_keyword returns the specified sorted hits |
| Analysis.InRange | palimpsest/analysis.py:222-233 | only dated pages inside both inclusive string bounds are kept, at most one per page |
| Analysis.InRangeMember | palimpsest/analysis.py:222-233 | a result row is exactly the (key, title, date) of some page with a non-empty date inside both bounds |
| Analysis.DateRangeProperties | palimpsest/analysis.py:220-237 | the results are the in-range pages reordered by non-increasing date; a row is in the result exactly when it is the (key, title, date) of a page with a non-empty date within both bounds |
| Analysis.SiteAnalyzer.GetPagesByDateRange | palimpsest/analysis.py:209-237 | get_pages_by_date_range returns the specified sorted list |
| StableSort.SortDescSorted | palimpsest/analysis.py:76-80 | the sorted sequence is ordered by non-increasing key |
| StableSort.SortDescStable | palimpsest/analysis.py:76-80 | the sort is stable: the elements of each key keep their relative order |
| StableSort.SortDesc | palimpsest/analysis.py:76-80 | the sort is a permutation |
| PosixPath.Normpath | palimpsest/analysis.py:55 | normpath never returns the empty path |
| PosixPath.NormpathComponents | palimpsest/analysis.py:55 | a normalised relative path has no `.` components and `..` only at its front; a rooted one has none |
| PosixPath.NormpathParent | palimpsest/analysis.py:55 | `d/../f` normalises to `f` |
| PosixPath.PathJoin | serve-bucket/serve.py:20 | joining with an absolute part gives that part; otherwise the result starts with the first part and ends with the second |
| LegacySitemap.ParseRunAsWritten | sitemap.py:20-55 | as written, parse raises the TypeError of the shadowed `list` at the first file past the skip, decode and title checks |
| LegacySitemap.ParseAsWritten | sitemap.py:14-55 | the loop as written computes the specified outcome |
| LegacySitemap.AsWrittenOutcome | sitemap.py:20-55 | as written, parse returns exactly when every file is skipped, undecodable or untitled, and then returns the empty sitemap; otherwise it raises TypeError |
| LegacySitemap.AsWrittenAgrees | sitemap.py:14-94 | whenever the script as written returns, the parse with the builtin `list` returns the same sitemap |
| LegacySitemap.ShadowedListDiffers | sitemap.py:55 | one titled single-block page: as written parse raises TypeError, with the builtin `list` the page is kept under its key |
| LegacySitemap.FileStepRecords | sitemap.py:86-91 | with the builtin `list`, a record of the script has only title, md and date: no image and no links |
| LegacySitemap.ParseRecords | sitemap.py:55-91 | with the builtin `list`, every record of a successful parse lacks image and links, so a non-empty sitemap from parse cannot be listed or graphed |
| LegacySitemap.SingleBlockRule | sitemap.py:59-91 | with the builtin `list`: with at most one content block the file binds `content`, and it is recorded exactly when it has a content block or galleries, under its key |
| LegacySitemap.MultiBlockStaleContent | sitemap.py:59-76 | with the builtin `list`: with several content blocks the presence test reads the `content` of an earlier file: unbound, it raises UnboundLocalError; bound to a missing block, the file is dropped unless it has galleries |
| LegacySitemap.EarlyMultiBlock | sitemap.py:59-76 | with the builtin `list`, a multi-block page met before any single-block page makes parse raise UnboundLocalError |
| LegacySitemap.StaleContentDrop | sitemap.py:59-76 | with the builtin `list`, a multi-block page after a page without content is dropped, though it has content |
| LegacySitemap.InertRun | sitemap.py:24-53 | skipped, undecodable and untitled files change nothing and leave `content` unbound |
| LegacySitemap.ParseRunStops | sitemap.py:20-91 | an exception ends the walk: later files change nothing |
| LegacySitemap.AppendNodeBlocks | sitemap.py:62-65 | the multi-block loop appends each node's title and content, and crashes on a node missing either |
| LegacySitemap.ParseStep | sitemap.py:24-91 | with the builtin `list`, one pass of the loop computes the specified step |
| LegacySitemap.Parse | sitemap.py:14-94 | with the builtin `list`, parse returns the specified sitemap or exception |
| LegacySitemap.LogoIndex | sitemap.py:119 | the logo index is the key's depth modulo the five logos, and within range |
| LegacySitemap.DumpLinks | sitemap.py:115-122 | the root prefix is `../` once per `/` in the key; pages at the same depth share root and logo; logo and home paths start with the root |
| LegacySitemap.Dump | sitemap.py:111-132 | dump makes one page per entry, in order, with the specified paths and title |
| LegacySitemap.List | sitemap.py:276-320 | list ranks and renders like the package when every record has links, and raises KeyError('links') otherwise |
| LegacySitemap.AllLinkedSnoc | sitemap.py:283 | a longer sitemap has links everywhere exactly when the shorter one does and the new record has links |
| LegacySitemap.IndexAliasKept | sitemap.py:338-346 | the `index-html` alias survives stripping and the empty and `http` filters |
| LegacySitemap.SanitizedAlias | sitemap.py:338-349 | the `index-html` alias sanitises to `index_html`, the same id as the package's `index.html` |
| LegacySitemap.LegacyEdgeTarget | sitemap.py:337-349 | the script's edge rule gives the same targets as the package's |
| LegacySitemap.LegacyEdgeOf | sitemap.py:337-349 | the loop body computes the script's edge target |
| LegacySitemap.LegacyAppendEdges | sitemap.py:336-351 | the link loop appends the same edge lines as the package |
| LegacySitemap.Graph | sitemap.py:323-353 | with the missing return added, graph returns the package's DOT text, or raises KeyError('links') for a record without links |
| LegacySitemap.GraphAsWritten | sitemap.py:323-353 | as written, graph returns None whenever it does not raise |
| LegacySitemap.GraphTextExists | sitemap.py:327-353 | the text graph builds is a non-empty `digraph F { ... }` block |
| Generator.RelativeRoot | palimpsest/generator.py:92-102 | the relative root is `../` once per `/` in the path |
| Generator.RelativeRootTop | palimpsest/generator.py:102 | `index.html` gets the empty root |
| Generator.RelativeRootNested | palimpsest/generator.py:102 | `a/b/c.html` gets `../../` |
| Generator.ImagesMember | palimpsest/generator.py:86-90 | the image list holds exactly the (key, image) pairs of pages with a non-empty image, at most one per page, none empty |
| Generator.ImagesAppend | palimpsest/generator.py:86-90 | the image list keeps sitemap order |
| Generator.StaticSiteGenerator.GetAllImages | palimpsest/generator.py:79-90 | get_all_images returns the specified list |
| Generator.TitleBlock | palimpsest/generator.py:137-141 | empty exactly for the title `pa-f`; otherwise the title as `<h2>`, then a date div exactly when the date is non-empty |
| Generator.ViewLinks | palimpsest/generator.py:116-134 | every site address in the sidebar becomes the relative root; logo, home, picture and picture page all start with the root; the picture is one of the site's images, shown exactly when there are images |
| Generator.StaticSiteGenerator.GeneratePageHtml | palimpsest/generator.py:104-149 | a page's view is the specified one for the chosen logo and picture |
| Generator.StaticSiteGenerator.GeneratePages | palimpsest/generator.py:317-326 | one view per page, in sitemap order |
| Generator.StaticSiteGenerator.GenerateSite | palimpsest/generator.py:307-326 | an empty sitemap raises ValueError before the sidebar is read; otherwise the sidebar is loaded and every page is generated |
| Generator.StaticSiteGenerator.constructor | palimpsest/generator.py:30-40 | a missing sitemap is taken as empty; the sidebar starts empty |
| Generator.StaticSiteGenerator.LoadSitemap | palimpsest/generator.py:42-50 | the loaded sitemap replaces the old one |
| Generator.StaticSiteGenerator.LoadSidebar | palimpsest/generator.py:52-64 | a missing sidebar file gives the empty sidebar |
| EditorApi.PageErrorRules | web-editor/backend/main.py:69-76 | a page passes exactly when it is an object with both `title` and `md`; a non-object is invalid; `title` is reported before `md` |
| EditorApi.OtherFieldsIgnored | web-editor/backend/main.py:73-76 | fields other than `title` and `md` do not affect the verdict |
| EditorApi.FirstBad | web-editor/backend/main.py:69-76 | the first failing page is found in sitemap order, and every page before it passes |
| EditorApi.FirstError | web-editor/backend/main.py:69-76 | there is an error exactly when some page fails |
| EditorApi.ValidatePage | web-editor/backend/main.py:70-76 | the field loop gives the specified verdict of a page |
| EditorApi.Validate | web-editor/backend/main.py:69-76 | the page loop stops at the first failing page |
| EditorApi.Editor.constructor | web-editor/backend/main.py:32-33 | the editor starts with the given sitemap file and output directory |
| EditorApi.Editor.UpdateSitemap | web-editor/backend/main.py:60-94 | a rejected sitemap gets a 400 and changes nothing; an accepted one is stored as submitted before regeneration; an empty one is then answered with a 500; a non-empty one answers success or the 500 of its regeneration error |
| EditorApi.Editor.GetStatus | web-editor/backend/main.py:97-116 | the size is the number of top-level keys, 0 without a file |
| EditorApi.Editor.GetSitemap | web-editor/backend/main.py:42-52 | the stored sitemap, or a 404 when there is no file |
| EditorApi.Editor.GetSitemapAsWritten | web-editor/backend/main.py:45-57 | as written, a missing file is answered with a 500, never the 404 |
| BucketServer.ObjectKey | serve-bucket/serve.py:19-22 | the key neither starts nor ends with `/` |
| BucketServer.DirectoryKey | serve-bucket/serve.py:19-22 | a path whose last segment has no `.` is served its `index.html`: the key ends with it |
| BucketServer.FileKey | serve-bucket/serve.py:19-22 | a path naming a file only loses its leading slashes, and the key ends with its last segment |
| BucketServer.RootKey | serve-bucket/serve.py:16-22 | the empty path gets `index.html` |
| BucketServer.BareDirectoryKey | serve-bucket/serve.py:19-22 | `about` gets `about/index.html` |
| BucketServer.SlashedDirectoryKey | serve-bucket/serve.py:19-22 | `a/` gets `a/index.html`, with no doubled slash |
| BucketServer.JoinedKey | serve-bucket/serve.py:19-22 | when the joined path does not start with `/`, it is the key |
| BucketServer.TrailingSlashLast | serve-bucket/serve.py:19 | after a trailing slash the last segment is empty |

## Left out

- BeautifulSoup and its CSS selectors are not modelled. A file arrives as a
  `Parser.Document` that already holds what each selection returns.
- markdownify's `md` is not modelled. It is a function parameter.
- `markdown()` and the `markdown2html` pre-pass are not modelled: they are
  foreign rendering.
- HTML and CSS template text is not modelled. A generated page is a record
  of the values the template interpolates. This covers
  `generate_page_html`, `dump`, `export_analysis_report` and the list and
  graph markup.
- File and JSON I/O are not modelled: `os.walk`, `open`, `json.load` and
  `json.dump`. The walk is a sequence of (path, document) pairs in walk
  order; an undecodable file is a missing document.
- `save_sitemap`, `load_sitemap` and `setup_output_directory` are not
  modelled: they only read or write files. This includes the symlink and
  directory creation in `dump` and `generate_site`.
- `random.choice` of the logo and of the picture is not modelled. The
  chosen indices are parameters.
- `export_analysis_report` is not modelled: it only renders the results of
  the modelled analyses into HTML.
- `palimpsest/__init__.py` holds only re-exports.
- FastAPI routing, CORS and uvicorn are not modelled, and neither is the
  `/` health check, which returns a constant.
- The `JSONDecodeError` branches of the editor are not modelled, because
  the stored sitemap is held as decoded data.
- The exception path of `get_status` is not modelled, for the same reason.
- The boto3 S3 request, Flask response streaming and the content-type
  header are not modelled.
- The parser's and the script's `print` calls are not modelled: they are
  console output.
- Parser.ExtractDate: `\d` is taken as an ASCII digit only. Python also
  matches other Unicode digits.
- Analysis.ScoreProperties: `lower()` is modelled on ASCII letters only.
- Parser.Dedup: the order of `list(set(...))` is unspecified in Python. The
  model keeps first occurrences, and the contracts state only that the
  list has no duplicates and has the right members.
- Parser.DecomposeProperties: `decompose()` changes the parsed tree in
  place. The model computes the cleaned section as a new value, so it
  does not capture that the document itself changes.
- LegacySitemap.AppendNodeBlocks: the text of markdownify's error for
  `md(None)` depends on its version. The model states only the prefix of
  the AttributeError.
- LegacySitemap.Parse: it models parse with the builtin `list` at line
  55, as intended; the script as written raises TypeError there
  (LegacySitemap.ParseAsWritten, see Findings). With the builtin `list`
  the links list is built and never stored, and is not modelled.
- LegacySitemap.ParseStep: states one pass with the builtin `list`; as
  written the pass raises TypeError at line 55 instead.
- LegacySitemap.FileStepRecords: states the records of the parse with the
  builtin `list`; as written no record is ever written.
- LegacySitemap.ParseRecords: the same, for the whole parse.
- LegacySitemap.SingleBlockRule: states the parse with the builtin `list`;
  as written the file raises TypeError at line 55 before `content` is read.
- LegacySitemap.MultiBlockStaleContent: the same as SingleBlockRule.
- LegacySitemap.EarlyMultiBlock: the same; as written the page raises
  TypeError, not UnboundLocalError.
- LegacySitemap.StaleContentDrop: the same; as written the first page
  already raises TypeError.
- LegacySitemap.Dump: the script's `dump` reads a global `sitemap` that it
  never assigns (sitemap.py:96 is commented out); the model passes it as a
  parameter. `v.get("date", "")` prints an empty date for a record without
  a `date` key and `None` for a null date; the model's Page holds no
  difference between the two, so DateText gives `None` for both. Records
  written by either parser always have the key.
- LegacySitemap.List: the script reads a global `sitemap` that it never
  assigns, because the assignment is commented out. The model passes the
  sitemap as a parameter.
- EditorApi.Editor.UpdateSitemap: the regeneration of a non-empty sitemap
  is not modelled. Its possible exception text is a parameter.
- JSON numbers in the editor's `Json` values are modelled as integers: no
  modelled decision depends on them.

## Findings

| source | as written | input that shows it | evidently intended | confidence | as-written member | corrected member |
|---|---|---|---|---|---|---|
| sitemap.py:323-353 | `graph` builds the DOT text in `txt` but has no `return`, so it returns None | any sitemap whose records all have `links`, e.g. the empty sitemap | return the text, `digraph F {\n}` for the empty sitemap | not executed | LegacySitemap.GraphAsWritten | LegacySitemap.Graph |
| sitemap.py:55 | `def list()` at sitemap.py:276 replaces the builtin `list`, so `list(set([...]))` raises `TypeError: list() takes 0 positional arguments but 1 was given` at the first file past the skip, decode and title checks; parse returns only when no file gets that far, and then returns `{}` | one decodable file `pa-f.net/a.html` with title `A - pa-f` and one `.node .content` block | collect the page's links with the builtin `list` and go on | not executed | LegacySitemap.ShadowedListDiffers | LegacySitemap.Parse |
| web-editor/backend/main.py:45-57 | the 404 for a missing sitemap file is raised inside the `try`, and `except Exception` turns it into a 500 | a GET of `/api/sitemap` while the file does not exist | answer 404 `Sitemap file not found` | not executed | EditorApi.Editor.GetSitemapAsWritten | EditorApi.Editor.GetSitemap |

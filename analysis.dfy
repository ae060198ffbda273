/**
 * palimpsest/analysis.py: incoming-link counts, the page list ordered by
 * them, the GraphViz export, content statistics, keyword search and the
 * date-range filter, all read from one sitemap.
 */
module Analysis {
  import opened Wrappers
  import opened PyStr
  import opened PosixPath
  import opened Dicts
  import opened Records
  import opened StableSort

  // ---------------------------------------------------------------- link resolution

  /**
   * The base a `../` link is resolved against: the referrer's directory
   * with a trailing slash when its last segment holds a `.`, otherwise the
   * referrer itself, with no slash added.
   */
  function ReferrerBase(k: string): string
  {
    if Contains(AfterLast(k, "/"), ".") then BeforeLast(k, "/") + "/" else k
  }

  /**
   * The page key a raw link names, or None for links that are never
   * counted (those starting with "http" or holding a "?"). Leading slashes
   * are dropped; a link then starting with "../" is joined to the
   * referrer's base and normalised.
   */
  function Resolve(k: string, link: string): (r: Option<string>)
    ensures r.None? <==> StartsWith(link, "http") || Contains(link, "?")
    ensures r.Some? && !StartsWith(LStrip(link, {'/'}), "../") ==> r.value == LStrip(link, {'/'})
    ensures r.Some? ==> r.value != "" || link == "" || (forall i :: 0 <= i < |link| ==> link[i] == '/')
  {
    if StartsWith(link, "http") || Contains(link, "?") then None
    else
      var l := LStrip(link, {'/'});
      Some(if StartsWith(l, "../") then Normpath(ReferrerBase(k) + l) else l)
  }

  /**
   * The referrer's base: a referrer whose last segment holds a `.` gives
   * its directory followed by `/` (just `/` when it has no directory);
   * otherwise the referrer is used as it stands.
   */
  lemma {:induction false} ReferrerBaseShape(k: string)
    ensures var last := AfterLast(k, "/");
      && !Contains(last, "/")
      && (Contains(last, ".") && Contains(k, "/") ==> k == ReferrerBase(k) + last)
      && (Contains(last, ".") && !Contains(k, "/") ==> ReferrerBase(k) == "/")
      && (!Contains(last, ".") ==> ReferrerBase(k) == k)
  {
    SplitAtLast(k, "/");
  }

  /** One counted link: the resolved key, when it names a page of the sitemap. */
  function Target(sm: Sitemap, k: string, link: string): (r: Option<string>)
    ensures r.Some? ==> r.value in KeySet(sm) && Resolve(k, link) == r
    ensures r.None? ==> Resolve(k, link).None? || Resolve(k, link).value !in KeySet(sm)
  {
    match Resolve(k, link)
    case None => None
    case Some(t) => if t in KeySet(sm) then Some(t) else None
  }

  /** The counted targets of one page's links, in order. */
  function PageTargets(sm: Sitemap, k: string, links: seq<string>): (r: seq<string>)
    ensures |r| <= |links|
    ensures forall i :: 0 <= i < |r| ==> r[i] in KeySet(sm)
    decreases |links|
  {
    if links == [] then []
    else
      var t := Target(sm, k, links[|links| - 1]);
      PageTargets(sm, k, links[..|links| - 1]) + (if t.Some? then [t.value] else [])
  }

  /** The counted targets of a run of sitemap entries, page after page. */
  function Targets(sm: Sitemap, entries: Sitemap): (r: seq<string>)
    ensures forall i :: 0 <= i < |r| ==> r[i] in KeySet(sm)
    decreases |entries|
  {
    if entries == [] then []
    else
      var e := entries[|entries| - 1];
      Targets(sm, entries[..|entries| - 1]) + PageTargets(sm, e.0, LinksOrEmpty(e.1))
  }

  /** The number of links across a run of entries (a missing `links` counts as none). */
  function TotalLinks(entries: Sitemap): nat
    decreases |entries|
  {
    if entries == [] then 0
    else TotalLinks(entries[..|entries| - 1]) + |LinksOrEmpty(entries[|entries| - 1].1)|
  }

  /** Each link adds at most one target. */
  lemma {:induction false} TargetsBound(sm: Sitemap, entries: Sitemap)
    ensures |Targets(sm, entries)| <= TotalLinks(entries)
    decreases |entries|
  {
    if entries != [] {
      TargetsBound(sm, entries[..|entries| - 1]);
    }
  }

  /** A link starting with "http" or holding "?" is never a target, whatever the page. */
  lemma {:induction false} IgnoredLinks(sm: Sitemap, k: string, link: string)
    requires StartsWith(link, "http") || Contains(link, "?")
    ensures Target(sm, k, link).None?
    ensures PageTargets(sm, k, [link]) == []
  {
    assert [link][..0] == [];
  }

  // ---------------------------------------------------------------- counting

  /** links_to.get(k, 0) */
  function CountOf(d: seq<(string, int)>, k: string): int
  {
    match Get(d, k)
    case Some(c) => c
    case None => 0
  }

  /** links_to[t] = links_to.get(t, 0) + 1 */
  function Bump(d: seq<(string, int)>, t: string): seq<(string, int)>
  {
    Put(d, t, CountOf(d, t) + 1)
  }

  /** The tally of a sequence of targets, in first-occurrence order. */
  function Tally(ts: seq<string>): seq<(string, int)>
    decreases |ts|
  {
    if ts == [] then [] else Bump(Tally(ts[..|ts| - 1]), ts[|ts| - 1])
  }

  /** A tally holds each target once. */
  lemma {:induction false} TallyDistinct(ts: seq<string>)
    ensures DistinctKeys(Tally(ts))
    decreases |ts|
  {
    if ts != [] {
      var d, t := Tally(ts[..|ts| - 1]), ts[|ts| - 1];
      TallyDistinct(ts[..|ts| - 1]);
      PutDistinct(d, t, CountOf(d, t) + 1);
    }
  }

  /** The number of occurrences of x. */
  function Occ(ts: seq<string>, x: string): nat
    decreases |ts|
  {
    if ts == [] then 0 else Occ(ts[..|ts| - 1], x) + (if ts[|ts| - 1] == x then 1 else 0)
  }

  /** Occ counts as a multiset does. */
  lemma {:induction false} OccMultiset(ts: seq<string>, x: string)
    ensures Occ(ts, x) == multiset(ts)[x]
    ensures Occ(ts, x) > 0 <==> x in ts
    decreases |ts|
  {
    if ts != [] {
      var init := ts[..|ts| - 1];
      OccMultiset(init, x);
      assert ts == init + [ts[|ts| - 1]];
    }
  }

  /** Each target's count is its number of occurrences; nothing else is counted. */
  lemma {:induction false} TallyCount(ts: seq<string>, x: string)
    ensures Get(Tally(ts), x) == if Occ(ts, x) > 0 then Some(Occ(ts, x)) else None
    decreases |ts|
  {
    if ts != [] {
      var init, t := ts[..|ts| - 1], ts[|ts| - 1];
      var d := Tally(init);
      var c := CountOf(d, t) + 1;
      assert Get(Tally(ts), x) == if x == t then Some(c) else Get(d, x) by {
        assert Tally(ts) == Put(d, t, c);
        TallyDistinct(init);
        PutGet(d, t, c);
      }
      TallyCount(init, x);
    }
  }

  /** Every count in a tally is at least one. */
  lemma {:induction false} TallyPositive(ts: seq<string>)
    ensures forall j :: 0 <= j < |Tally(ts)| ==> Tally(ts)[j].1 >= 1
  {
    var d := Tally(ts);
    TallyDistinct(ts);
    forall j | 0 <= j < |d| ensures d[j].1 >= 1 {
      TallyCount(ts, d[j].0);
      OccMultiset(ts, d[j].0);
      assert d[j].0 in KeySet(d);
      assert Get(d, d[j].0) == Some(d[j].1);
    }
  }

  /** The sum of the counts of a tally. */
  function SumCounts(d: seq<(string, int)>): int
    decreases |d|
  {
    if d == [] then 0 else SumCounts(d[..|d| - 1]) + d[|d| - 1].1
  }

  lemma {:induction false} SumCountsUpdate(d: seq<(string, int)>, i: nat, e: (string, int))
    requires i < |d|
    ensures SumCounts(d[i := e]) == SumCounts(d) - d[i].1 + e.1
    decreases |d|
  {
    if i < |d| - 1 {
      SumCountsUpdate(d[..|d| - 1], i, e);
      assert d[i := e][..|d| - 1] == d[..|d| - 1][i := e];
    } else {
      assert d[i := e][..|d| - 1] == d[..|d| - 1];
    }
  }

  /** One more occurrence of t adds one to the sum of the counts. */
  lemma {:induction false} SumBump(d: seq<(string, int)>, t: string)
    requires DistinctKeys(d)
    ensures SumCounts(Bump(d, t)) == SumCounts(d) + 1
  {
    var c := CountOf(d, t);
    var r := Put(d, t, c + 1);
    if t in KeySet(d) {
      var i := KeyIndex(d, t);
      assert r == d[i := (t, c + 1)];
      assert d[i].1 == c by {
        assert Get(d, t) == Some(d[i].1);
      }
      SumCountsUpdate(d, i, (t, c + 1));
    } else {
      assert r == d + [(t, 1)] by {
        assert Get(d, t).None?;
      }
      assert r[..|d|] == d;
      assert SumCounts(r) == SumCounts(d) + r[|d|].1;
    }
  }

  /** The counts of a tally add up to the number of targets. */
  lemma {:induction false} SumTally(ts: seq<string>)
    ensures SumCounts(Tally(ts)) == |ts|
    decreases |ts|
  {
    if ts != [] {
      var init, t := ts[..|ts| - 1], ts[|ts| - 1];
      SumTally(init);
      TallyDistinct(init);
      SumBump(Tally(init), t);
    }
  }

  lemma {:induction false} TallySnoc(ts: seq<string>, t: string)
    ensures Tally(ts + [t]) == Bump(Tally(ts), t)
  {
    assert (ts + [t])[..|ts|] == ts;
  }

  lemma {:induction false} PageTargetsSnoc(sm: Sitemap, k: string, links: seq<string>, j: nat)
    requires j < |links|
    ensures PageTargets(sm, k, links[..j + 1]) ==
      PageTargets(sm, k, links[..j]) + (if Target(sm, k, links[j]).Some? then [Target(sm, k, links[j]).value] else [])
  {
    assert links[..j + 1][..j] == links[..j];
  }

  /** One more link of a page bumps the tally of its target, if it has one. */
  lemma {:induction false} CountStep(sm: Sitemap, k: string, links: seq<string>, j: nat, before: seq<string>)
    requires j < |links|
    ensures var done := Tally(before + PageTargets(sm, k, links[..j]));
      var t := Target(sm, k, links[j]);
      Tally(before + PageTargets(sm, k, links[..j + 1])) == if t.Some? then Bump(done, t.value) else done
  {
    var done := before + PageTargets(sm, k, links[..j]);
    var t := Target(sm, k, links[j]);
    PageTargetsSnoc(sm, k, links, j);
    if t.Some? {
      assert before + PageTargets(sm, k, links[..j + 1]) == done + [t.value];
      TallySnoc(done, t.value);
    } else {
      assert before + PageTargets(sm, k, links[..j + 1]) == done;
    }
  }

  /** The target one link counts for, decided as analyze_links decides it. */
  method TargetOf(sm: Sitemap, k: string, linkRaw: string) returns (t: Option<string>)
    ensures t == Target(sm, k, linkRaw)
  {
    var link := linkRaw;
    if StartsWith(link, "http") {
      return None;
    }
    if Contains(link, "?") {
      return None;
    }
    link := LStrip(link, {'/'});
    if StartsWith(link, "../") {
      var base := if Contains(AfterLast(k, "/"), ".") then BeforeLast(k, "/") + "/" else k;
      link := Normpath(base + link);
    }
    if link !in KeySet(sm) {
      return None;
    }
    return Some(link);
  }

  /** The inner loop of analyze_links: one page's links added to the counts. */
  method CountPageLinks(sm: Sitemap, k: string, links: seq<string>, counts: seq<(string, int)>, ghost before: seq<string>)
    returns (out: seq<(string, int)>)
    requires counts == Tally(before)
    ensures out == Tally(before + PageTargets(sm, k, links))
  {
    out := counts;
    assert before + PageTargets(sm, k, links[..0]) == before;
    for j := 0 to |links|
      invariant out == Tally(before + PageTargets(sm, k, links[..j]))
    {
      var t := TargetOf(sm, k, links[j]);
      CountStep(sm, k, links, j, before);
      if t.Some? {
        out := Bump(out, t.value);
      }
    }
    assert links[..|links|] == links;
  }

  /** The targets of a prefix one page longer. */
  lemma {:induction false} TargetsSnoc(sm: Sitemap, i: nat)
    requires i < |sm|
    ensures Targets(sm, sm[..i + 1]) == Targets(sm, sm[..i]) + PageTargets(sm, sm[i].0, LinksOrEmpty(sm[i].1))
  {
    assert sm[..i + 1][..i] == sm[..i];
  }

  /** analyze_links on a whole sitemap. */
  function LinkCounts(sm: Sitemap): seq<(string, int)>
  {
    Tally(Targets(sm, sm))
  }

  /**
   * The result of analyze_links: only pages of the sitemap are counted,
   * each at least once, each count is the number of links that resolve to
   * it, and the counts add up to at most the number of links.
   */
  lemma {:induction false} LinkCountsProperties(sm: Sitemap)
    ensures DistinctKeys(LinkCounts(sm))
    ensures KeySet(LinkCounts(sm)) <= KeySet(sm)
    ensures forall j :: 0 <= j < |LinkCounts(sm)| ==> LinkCounts(sm)[j].1 >= 1
    ensures forall x :: (Get(LinkCounts(sm), x) ==
      if x in Targets(sm, sm) then Some(multiset(Targets(sm, sm))[x]) else None)
    ensures SumCounts(LinkCounts(sm)) <= TotalLinks(sm)
  {
    var ts := Targets(sm, sm);
    TallyDistinct(ts);
    TallyPositive(ts);
    forall x ensures Get(LinkCounts(sm), x) == if x in ts then Some(multiset(ts)[x]) else None {
      TallyCount(ts, x);
      OccMultiset(ts, x);
    }
    forall x | x in KeySet(LinkCounts(sm)) ensures x in KeySet(sm) {
      TallyCount(ts, x);
      OccMultiset(ts, x);
    }
    SumTally(ts);
    TargetsBound(sm, sm);
  }

  // ---------------------------------------------------------------- page list

  predicate IntLe(a: int, b: int)
  {
    a <= b
  }

  lemma {:induction false} IntLePreorder()
    ensures TotalPreorder(IntLe)
  {
  }

  /** The sort key of the page list: a page's incoming-link count, 0 when it has none. */
  function CountKey(counts: seq<(string, int)>): ((string, Page)) -> int
  {
    (e: (string, Page)) => CountOf(counts, e.0)
  }

  /** Keys holding "?" are left out of the page list. */
  predicate Listed(e: (string, Page))
  {
    !Contains(e.0, "?")
  }

  /** The entries of the page list: by count, most linked first, ties in sitemap order. */
  function PageListEntries(sm: Sitemap, counts: seq<(string, int)>): Sitemap
  {
    Filter(SortDesc(sm, CountKey(counts), IntLe), Listed)
  }

  /** The address a page-list row links to: the key without ".html", and "" for the index. */
  function ListHref(k: string): string
  {
    var link := ReplaceAll(k, ".html", "");
    "https://pa-f.net/" + (if link == "index" then "" else link)
  }

  /** One row of the page list: its link, the page title and its count. */
  datatype ListRow = ListRow(key: string, href: string, title: string, count: int)

  /** The row of one entry. */
  function RowFor(e: (string, Page), counts: seq<(string, int)>): ListRow
  {
    ListRow(e.0, ListHref(e.0), e.1.title, CountOf(counts, e.0))
  }

  function Rows(entries: Sitemap, counts: seq<(string, int)>): seq<ListRow>
    decreases |entries|
  {
    if entries == [] then [] else Rows(entries[..|entries| - 1], counts) + [RowFor(entries[|entries| - 1], counts)]
  }

  lemma {:induction false} RowsSnoc(entries: Sitemap, e: (string, Page), counts: seq<(string, int)>)
    ensures Rows(entries + [e], counts) == Rows(entries, counts) + [RowFor(e, counts)]
  {
    assert (entries + [e])[..|entries|] == entries;
  }

  /** One row per entry, in the entries' order, each carrying the entry's link, title and count. */
  lemma {:induction false} RowsShape(entries: Sitemap, counts: seq<(string, int)>)
    ensures |Rows(entries, counts)| == |entries|
    ensures forall i :: 0 <= i < |entries| ==> Rows(entries, counts)[i] == RowFor(entries[i], counts)
    decreases |entries|
  {
    if entries != [] {
      var init := entries[..|entries| - 1];
      RowsShape(init, counts);
      assert forall i :: 0 <= i < |init| ==> init[i] == entries[i];
    }
  }

  /**
   * The page list lists every entry whose key holds no "?" exactly as often
   * as the sitemap does, in non-increasing count order, and entries of
   * equal count keep their sitemap order.
   */
  lemma {:induction false} PageListProperties(sm: Sitemap, counts: seq<(string, int)>)
    ensures var es := PageListEntries(sm, counts);
      && (forall e :: multiset(es)[e] == if Listed(e) then multiset(sm)[e] else 0)
      && SortedDesc(es, CountKey(counts), IntLe)
      && forall c :: WithKey(es, CountKey(counts), c) == Filter(WithKey(sm, CountKey(counts), c), Listed)
  {
    var key := CountKey(counts);
    var sorted := SortDesc(sm, key, IntLe);
    var es := Filter(sorted, Listed);
    forall e ensures multiset(es)[e] == if Listed(e) then multiset(sm)[e] else 0 {
      FilterCount(sorted, Listed, e);
    }
    IntLePreorder();
    SortDescSorted(sm, key, IntLe);
    FilterSorted(sorted, Listed, key, IntLe);
    forall c ensures WithKey(es, key, c) == Filter(WithKey(sm, key, c), Listed) {
      FilterWithKey(sorted, Listed, key, c);
      SortDescStable(sm, key, IntLe, c);
    }
  }

  /** The link of one page-list row, computed as generate_page_list does it. */
  method PageHref(k: string) returns (href: string)
    ensures href == ListHref(k)
  {
    var link := ReplaceAll(k, ".html", "");
    if link == "index" {
      link := "";
    }
    href := "https://pa-f.net/" + link;
  }

  /** The row loop of the page list: sort by count, skip keys with "?", one row per remaining page. */
  method ListRows(sm: Sitemap, counts: seq<(string, int)>) returns (rows: seq<ListRow>)
    ensures rows == Rows(PageListEntries(sm, counts), counts)
  {
    var sorted := SortDesc(sm, CountKey(counts), IntLe);
    rows := [];
    for i := 0 to |sorted|
      invariant rows == Rows(Filter(sorted[..i], Listed), counts)
    {
      var k := sorted[i].0;
      FilterSnoc(sorted, i, Listed);
      ghost var kept := Filter(sorted[..i], Listed);
      if Contains(k, "?") {
        assert Filter(sorted[..i + 1], Listed) == kept + [] == kept;
        continue;
      }
      var cnt := CountOf(counts, k);
      var href := PageHref(k);
      var row := ListRow(k, href, sorted[i].1.title, cnt);
      assert row == RowFor(sorted[i], counts);
      RowsSnoc(kept, sorted[i], counts);
      assert Filter(sorted[..i + 1], Listed) == kept + [sorted[i]];
      rows := rows + [row];
    }
    assert sorted[..|sorted|] == sorted;
  }


  /** The index page is listed as the site's root address. */
  lemma {:induction false} ListHrefIndex(k: string)
    requires k == "index.html"
    ensures ListHref(k) == "https://pa-f.net/"
  {
    var pat := ".html";
    assert OccursAt(k, pat, 5) by {
      assert k[5..10] == pat;
    }
    assert IndexOf(k, pat) == Some(5) by {
      CharAbsent(k[..9], pat, 4);
      IndexOfAt(k, pat, 5);
    }
    assert Split(k, pat) == ["index", ""] by {
      assert k[..5] == "index";
      assert k[10..] == "";
      assert Split(k, pat) == [k[..5]] + Split(k[10..], pat);
    }
    var parts := ["index", ""];
    assert Join(parts, "") == "index" + "" + Join(parts[1..], "");
    assert ReplaceAll(k, pat, "") == "index";
  }

  /** A page file in a directory resolves `../` against that directory. */
  lemma {:induction false} ReferrerBaseOfFile(d: string, b: string)
    requires '/' !in d && '/' !in b && '.' in b
    ensures ReferrerBase(d + "/" + b) == d + "/"
  {
    var k := d + "/" + b;
    assert Split(k, "/") == [d, b] by {
      assert k == d + ['/'] + b;
      assert "/" == ['/'];
      SplitFirstChar(d, b, '/');
      SplitNoChar(b, '/');
    }
    assert Contains(b, ".") by {
      CharContains(b, '.');
      assert "." == ['.'];
    }
    assert [d, b][..1] == [d];
  }

  /** A counted link that starts with `../` is resolved against the referrer's base. */
  lemma {:induction false} ResolveUp(k: string, f: string)
    requires '?' !in f
    ensures Resolve(k, "../" + f) == Some(Normpath(ReferrerBase(k) + ("../" + f)))
  {
    var link := "../" + f;
    assert !StartsWith(link, "http") by {
      assert link[0] != 'h';
    }
    assert !Contains(link, "?") by {
      assert '?' !in link;
      CharAbsent(link, "?", 0);
    }
    assert LStrip(link, {'/'}) == link by {
      assert link[0] !in {'/'};
    }
    assert StartsWith(link, "../") by {
      assert link[..3] == "../";
    }
  }

  /**
   * A `../` link from a page file one directory down names the top-level
   * entry: the page's directory is cancelled by the `..`.
   */
  lemma {:induction false} ResolveParent(d: string, b: string, f: string)
    requires d != "" && d != "." && d != ".." && '/' !in d
    requires '/' !in b && '.' in b
    requires f != "" && f != "." && f != ".." && '/' !in f && '?' !in f
    ensures Resolve(d + "/" + b, "../" + f) == Some(f)
  {
    var k := d + "/" + b;
    ResolveUp(k, f);
    ReferrerBaseOfFile(d, b);
    NormpathParent(d, f);
  }

  /** `a/b.html` linking to `../c.html` counts for `c.html`. */
  lemma {:induction false} ResolveParentExample(k: string, link: string)
    requires k == "a/b.html" && link == "../c.html"
    ensures Resolve(k, link) == Some("c.html")
  {
    assert k == "a" + "/" + "b.html" && link == "../" + "c.html";
    assert "b.html"[1] == '.';
    ResolveParent("a", "b.html", "c.html");
  }

  // ---------------------------------------------------------------- graphviz

  /** The characters the graph export replaces by `_`, in the order it replaces them. */
  const BadChars: string := "/-.?=+& "

  /** An identifier as the graph writes it: every character of BadChars turned into `_`. */
  function Sanitized(s: string): string
  {
    seq(|s|, i requires 0 <= i < |s| => if s[i] in BadChars then '_' else s[i])
  }

  /** A sanitised identifier has the length of the original and no character of BadChars; sanitising twice changes nothing more. */
  lemma {:induction false} SanitizedProperties(s: string)
    ensures |Sanitized(s)| == |s|
    ensures forall i :: 0 <= i < |s| ==> Sanitized(s)[i] !in BadChars
    ensures forall i :: 0 <= i < |s| && s[i] !in BadChars ==> Sanitized(s)[i] == s[i]
    ensures Sanitized(Sanitized(s)) == Sanitized(s)
  {
    assert '_' !in BadChars;
  }

  /** `for ch in badchars: uid = uid.replace(ch, '_')` */
  method SanitizeId(s: string) returns (r: string)
    ensures r == Sanitized(s)
  {
    r := s;
    assert '_' !in BadChars;
    for i := 0 to |BadChars|
      invariant |r| == |s|
      invariant forall k :: 0 <= k < |s| ==> r[k] == if s[k] in BadChars[..i] then '_' else s[k]
    {
      var c := BadChars[i];
      ReplaceChar(r, c, '_');
      assert forall k :: 0 <= k < |s| ==> (s[k] in BadChars[..i + 1] <==> s[k] in BadChars[..i] || s[k] == c) by {
        assert BadChars[..i + 1] == BadChars[..i] + [c];
      }
      r := ReplaceAll(r, [c], "_");
    }
    assert BadChars[..|BadChars|] == BadChars;
  }

  /** A page key as the graph writes it: every slash and dot becomes `_`. */
  lemma {:induction false} SanitizedExample(k: string)
    requires k == "node/25153.html"
    ensures Sanitized(k) == "node_25153_html"
  {
    var r := Sanitized(k);
    assert |r| == 15;
    assert r[4] == '_' && r[10] == '_' by {
      assert k[4] == '/' && k[10] == '.';
    }
    forall i | 0 <= i < 15 && i != 4 && i != 10 ensures r[i] == k[i] {
      assert k[i] !in BadChars;
    }
  }

  /** The page a bare `/` link stands for in the graph. */
  const IndexPage: string := "index.html"

  /** The target of an edge, when the link gives one. */
  function EdgeTarget(linkRaw: string): Option<string>
  {
    var link := if Strip(linkRaw) == "/" then IndexPage else linkRaw;
    var l := LStrip(link, {'/'});
    if Strip(l) == "" || StartsWith(l, "http") then None else Some(Sanitized(l))
  }

  /** A link that is `/` up to whitespace is an edge to the index page. */
  lemma {:induction false} SanitizedIndex()
    ensures Sanitized(IndexPage) == "index_html"
  {
    var s := IndexPage;
    var r := Sanitized(s);
    assert |r| == 10;
    assert r[5] == '_' by { assert s[5] == '.'; }
    forall k | 0 <= k < 10 && k != 5 ensures r[k] == s[k] {
      assert s[k] !in BadChars;
    }
  }

  /** The index page is kept by the edge rules: no leading '/', not blank, not a URL. */
  lemma {:induction false} IndexPageKept()
    ensures LStrip(IndexPage, {'/'}) == IndexPage
    ensures Strip(IndexPage) != ""
    ensures !StartsWith(IndexPage, "http")
  {
    var s := IndexPage;
    assert LStrip(s, {'/'}) == s by {
      assert s[0] !in {'/'};
    }
    assert Strip(s) != "" by {
      assert !IsSpace(s[0]);
      assert LStripSpace(s) == s;
      assert !IsSpace(s[|s| - 1]);
    }
    assert !StartsWith(s, "http") by {
      assert s[0] != 'h';
    }
  }

  lemma {:induction false} EdgeToIndex(linkRaw: string)
    requires Strip(linkRaw) == "/"
    ensures EdgeTarget(linkRaw) == Some("index_html")
  {
    IndexPageKept();
    SanitizedIndex();
  }

  /** A blank link, or one starting with "http" once its leading slashes are gone, gives no edge. */
  lemma {:induction false} EdgeSkipped(linkRaw: string)
    requires Strip(linkRaw) != "/"
    requires Strip(linkRaw) == "" || StartsWith(LStrip(linkRaw, {'/'}), "http")
    ensures EdgeTarget(linkRaw).None?
  {
    if Strip(linkRaw) == "" {
      var l := LStrip(linkRaw, {'/'});
      StripEmpty(linkRaw);
      StripEmpty(l);
      assert forall i :: 0 <= i < |l| ==> l[i] == linkRaw[|linkRaw| - |l| + i];
    }
  }

  /**
   * Any other link is an edge to its sanitised form without leading
   * slashes, whether or not the sitemap has such a page.
   */
  lemma {:induction false} EdgeKept(linkRaw: string)
    requires Strip(linkRaw) != "/"
    requires Strip(LStrip(linkRaw, {'/'})) != "" && !StartsWith(LStrip(linkRaw, {'/'}), "http")
    ensures EdgeTarget(linkRaw) == Some(Sanitized(LStrip(linkRaw, {'/'})))
  {
  }

  /** One line of the DOT text. */
  datatype DotLine = NodeLine(id: string, caption: string) | EdgeLine(source: string, target: string)

  function RenderLine(line: DotLine): string
  {
    match line
    case NodeLine(id, caption) => id + " [label=\"" + caption + "\"];\n"
    case EdgeLine(a, b) => a + " -> " + b + ";\n"
  }

  function Render(lines: seq<DotLine>): string
    decreases |lines|
  {
    if lines == [] then "" else Render(lines[..|lines| - 1]) + RenderLine(lines[|lines| - 1])
  }

  /** The edge decision of each link of a page, in order. */
  function EdgeTargets(links: seq<string>): (ts: seq<Option<string>>)
    decreases |links|
  {
    if links == [] then [] else EdgeTargets(links[..|links| - 1]) + [EdgeTarget(links[|links| - 1])]
  }

  lemma {:induction false} EdgeTargetsSnoc(links: seq<string>, j: nat)
    requires j < |links|
    ensures EdgeTargets(links[..j + 1]) == EdgeTargets(links[..j]) + [EdgeTarget(links[j])]
  {
    assert links[..j + 1][..j] == links[..j];
  }

  /** The edges of one page, one per link that gives a target, in order. */
  function EdgeLines(id: string, targets: seq<Option<string>>): seq<DotLine>
    decreases |targets|
  {
    if targets == [] then []
    else
      var t := targets[|targets| - 1];
      EdgeLines(id, targets[..|targets| - 1]) + (if t.Some? then [EdgeLine(id, t.value)] else [])
  }

  lemma {:induction false} EdgeLinesSnoc(id: string, ts: seq<Option<string>>, t: Option<string>)
    ensures EdgeLines(id, ts + [t]) == EdgeLines(id, ts) + (if t.Some? then [EdgeLine(id, t.value)] else [])
  {
    assert (ts + [t])[..|ts|] == ts;
  }

  /** A page's node line: its sanitised key and its title without double quotes. */
  function PageNode(k: string, p: Page): DotLine
  {
    NodeLine(Sanitized(k), ReplaceAll(p.title, "\"", ""))
  }

  /** The lines of a run of entries: each page's node, then its edges. */
  function GraphLines(entries: Sitemap): seq<DotLine>
    decreases |entries|
  {
    if entries == [] then []
    else
      var e := entries[|entries| - 1];
      GraphLines(entries[..|entries| - 1]) + [PageNode(e.0, e.1)] + EdgeLines(Sanitized(e.0), EdgeTargets(LinksOrEmpty(e.1)))
  }

  /** The node lines among the lines. */
  function NodeIds(lines: seq<DotLine>): seq<string>
    decreases |lines|
  {
    if lines == [] then []
    else NodeIds(lines[..|lines| - 1]) + (if lines[|lines| - 1].NodeLine? then [lines[|lines| - 1].id] else [])
  }

  lemma {:induction false} NodeIdsAppend(a: seq<DotLine>, b: seq<DotLine>)
    ensures NodeIds(a + b) == NodeIds(a) + NodeIds(b)
    decreases |b|
  {
    if b == [] {
      assert a + b == a;
    } else {
      NodeIdsAppend(a, b[..|b| - 1]);
      assert (a + b)[..|a + b| - 1] == a + b[..|b| - 1];
    }
  }

  /** Edge lines hold no node. */
  lemma {:induction false} NoNodesInEdges(id: string, targets: seq<Option<string>>)
    ensures NodeIds(EdgeLines(id, targets)) == []
    decreases |targets|
  {
    if targets != [] {
      var init := EdgeLines(id, targets[..|targets| - 1]);
      var t := targets[|targets| - 1];
      var tail := if t.Some? then [EdgeLine(id, t.value)] else [];
      NoNodesInEdges(id, targets[..|targets| - 1]);
      NodeIdsAppend(init, tail);
      assert tail[..0] == [];
    }
  }

  /** A page has at most one edge per link, each leaving the page's node. */
  lemma {:induction false} EdgesFrom(id: string, targets: seq<Option<string>>)
    ensures |EdgeLines(id, targets)| <= |targets|
    ensures forall i :: 0 <= i < |EdgeLines(id, targets)| ==> EdgeLines(id, targets)[i].EdgeLine? && EdgeLines(id, targets)[i].source == id
    decreases |targets|
  {
    if targets != [] {
      var init := EdgeLines(id, targets[..|targets| - 1]);
      var t := targets[|targets| - 1];
      var tail := if t.Some? then [EdgeLine(id, t.value)] else [];
      EdgesFrom(id, targets[..|targets| - 1]);
      assert EdgeLines(id, targets) == init + tail;
    }
  }

  /** The graph has one node per sitemap entry, in sitemap order: its sanitised key. */
  lemma {:induction false} GraphNodes(entries: Sitemap)
    ensures |NodeIds(GraphLines(entries))| == |entries|
    ensures forall i :: 0 <= i < |entries| ==> NodeIds(GraphLines(entries))[i] == Sanitized(entries[i].0)
    decreases |entries|
  {
    if entries != [] {
      var init, e := entries[..|entries| - 1], entries[|entries| - 1];
      var node := [PageNode(e.0, e.1)];
      var edges := EdgeLines(Sanitized(e.0), EdgeTargets(LinksOrEmpty(e.1)));
      assert NodeIds(GraphLines(entries)) == NodeIds(GraphLines(init)) + [Sanitized(e.0)] by {
        NodeIdsAppend(GraphLines(init) + node, edges);
        NodeIdsAppend(GraphLines(init), node);
        NoNodesInEdges(Sanitized(e.0), EdgeTargets(LinksOrEmpty(e.1)));
        assert node[..0] == [];
      }
      GraphNodes(init);
      forall i | 0 <= i < |init| ensures init[i] == entries[i] {
      }
    }
  }

  lemma {:induction false} RenderSnoc(a: seq<DotLine>, l: DotLine)
    ensures Render(a + [l]) == Render(a) + RenderLine(l)
  {
    assert (a + [l])[..|a|] == a;
  }

  lemma {:induction false} RenderAppend(a: seq<DotLine>, b: seq<DotLine>)
    ensures Render(a + b) == Render(a) + Render(b)
    decreases |b|
  {
    if b == [] {
      assert a + b == a;
    } else {
      var init, last := b[..|b| - 1], b[|b| - 1];
      assert Render(a + b) == Render(a + init) + RenderLine(last) by {
        assert a + b == (a + init) + [last] by {
          assert b == init + [last];
        }
        RenderSnoc(a + init, last);
      }
      RenderAppend(a, init);
      assert Render(b) == Render(init) + RenderLine(last);
      Assoc(Render(a), Render(init), RenderLine(last));
    }
  }

  /** The edge one link gives, computed as generate_graphviz does it. */
  method EdgeOf(linkRaw: string) returns (t: Option<string>)
    ensures t == EdgeTarget(linkRaw)
  {
    var link := linkRaw;
    if Strip(link) == "/" {
      link := IndexPage;
    }
    link := LStrip(link, {'/'});
    if Strip(link) == "" {
      return None;
    }
    if StartsWith(link, "http") {
      return None;
    }
    link := SanitizeId(link);
    return Some(link);
  }

  /** The edge lines of one page, appended to the DOT text in link order. */
  method AppendEdges(body: string, uid: string, links: seq<string>) returns (out: string)
    ensures out == body + Render(EdgeLines(uid, EdgeTargets(links)))
  {
    out := body;
    for j := 0 to |links|
      invariant out == body + Render(EdgeLines(uid, EdgeTargets(links[..j])))
    {
      ghost var done := EdgeTargets(links[..j]);
      var t := EdgeOf(links[j]);
      EdgeTargetsSnoc(links, j);
      EdgeLinesSnoc(uid, done, t);
      if t.Some? {
        var line := uid + " -> " + t.value + ";\n";
        assert line == RenderLine(EdgeLine(uid, t.value));
        RenderSnoc(EdgeLines(uid, done), EdgeLine(uid, t.value));
        Assoc(body, Render(EdgeLines(uid, done)), line);
        out := out + line;
      } else {
        assert EdgeLines(uid, done) + [] == EdgeLines(uid, done);
      }
    }
    assert links[..|links|] == links;
  }

  /** The DOT text: header, every line, closing brace. */
  function Dot(sm: Sitemap): string
  {
    "digraph F {\n" + Render(GraphLines(sm)) + "}"
  }

  // ---------------------------------------------------------------- statistics

  /** get_content_statistics, with the date range as earliest and latest. */
  datatype Stats = Stats(totalPages: nat, pagesWithDates: nat, pagesWithImages: nat,
                         totalContentLength: nat, earliest: Option<string>, latest: Option<string>)

  function CountWhere(entries: Sitemap, p: Page -> bool): (n: nat)
    ensures n <= |entries|
    decreases |entries|
  {
    if entries == [] then 0
    else CountWhere(entries[..|entries| - 1], p) + (if p(entries[|entries| - 1].1) then 1 else 0)
  }

  function ContentLength(entries: Sitemap): nat
    decreases |entries|
  {
    if entries == [] then 0 else ContentLength(entries[..|entries| - 1]) + |entries[|entries| - 1].1.md|
  }

  /** The truthy dates, in sitemap order. */
  function Dates(entries: Sitemap): (ds: seq<string>)
    ensures |ds| == CountWhere(entries, HasDate)
    ensures forall d :: d in ds <==> exists i :: 0 <= i < |entries| && HasDate(entries[i].1) && entries[i].1.date.value == d
    decreases |entries|
  {
    if entries == [] then []
    else
      var init, e := entries[..|entries| - 1], entries[|entries| - 1];
      assert forall i :: 0 <= i < |init| ==> init[i] == entries[i];
      Dates(init) + (if HasDate(e.1) then [e.1.date.value] else [])
  }

  /** The statistics of a prefix one page longer. */
  lemma {:induction false} StatisticsSnoc(sm: Sitemap, i: nat)
    requires i < |sm|
    ensures CountWhere(sm[..i + 1], HasDate) == CountWhere(sm[..i], HasDate) + (if HasDate(sm[i].1) then 1 else 0)
    ensures CountWhere(sm[..i + 1], HasImage) == CountWhere(sm[..i], HasImage) + (if HasImage(sm[i].1) then 1 else 0)
    ensures ContentLength(sm[..i + 1]) == ContentLength(sm[..i]) + |sm[i].1.md|
    ensures Dates(sm[..i + 1]) == Dates(sm[..i]) + (if HasDate(sm[i].1) then [sm[i].1.date.value] else [])
  {
    assert sm[..i + 1][..i] == sm[..i];
  }

  /** `le` is LexLe, as a function value. */
  function StrLe(a: string, b: string): bool
  {
    LexLe(a, b)
  }

  lemma {:induction false} StrLePreorder()
    ensures TotalPreorder(StrLe)
  {
    forall a, b ensures StrLe(a, b) || StrLe(b, a) {
      LexLeTotal(a, b);
    }
    forall a, b, c | StrLe(a, b) && StrLe(b, c) ensures StrLe(a, c) {
      LexLeTrans(a, b, c);
    }
  }

  function Id(s: string): string
  {
    s
  }

  /** The statistics of a sitemap. */
  function Statistics(sm: Sitemap): Stats
  {
    var ds := SortDesc(Dates(sm), Id, StrLe);
    Stats(|sm|, CountWhere(sm, HasDate), CountWhere(sm, HasImage), ContentLength(sm),
          if ds == [] then None else Some(ds[|ds| - 1]),
          if ds == [] then None else Some(ds[0]))
  }

  /**
   * The date range is the least and the greatest of the pages' dates in
   * string order, or absent when no page has a date; the page counts never
   * exceed the number of pages.
   */
  lemma {:induction false} StatisticsProperties(sm: Sitemap)
    ensures var st := Statistics(sm);
      && st.totalPages == |sm|
      && st.pagesWithDates <= st.totalPages && st.pagesWithImages <= st.totalPages
      && (st.earliest.None? <==> Dates(sm) == [])
      && (st.latest.None? <==> Dates(sm) == [])
      && (st.earliest.Some? ==> st.earliest.value in Dates(sm) && forall d :: d in Dates(sm) ==> LexLe(st.earliest.value, d))
      && (st.latest.Some? ==> st.latest.value in Dates(sm) && forall d :: d in Dates(sm) ==> LexLe(d, st.latest.value))
  {
    var dates := Dates(sm);
    var ds := SortDesc(dates, Id, StrLe);
    StrLePreorder();
    SortDescSorted(dates, Id, StrLe);
    assert multiset(ds) == multiset(dates);
    assert forall d :: d in ds <==> d in dates by {
      forall d ensures d in ds <==> d in dates {
        assert d in ds <==> d in multiset(ds);
        assert d in dates <==> d in multiset(dates);
      }
    }
    if ds != [] {
      forall d | d in dates ensures LexLe(ds[|ds| - 1], d) && LexLe(d, ds[0]) {
        var i :| 0 <= i < |ds| && ds[i] == d;
        if i < |ds| - 1 {
          assert StrLe(Id(ds[|ds| - 1]), Id(ds[i]));
        } else {
          LexLeRefl(d);
        }
        if 0 < i {
          assert StrLe(Id(ds[i]), Id(ds[0]));
        } else {
          LexLeRefl(d);
        }
      }
    }
  }

  // ---------------------------------------------------------------- search

  /** The relevance of a page to a keyword: 10 for the title, plus the occurrences in the body. */
  function Score(p: Page, keyword: string): int
  {
    var kw := Lower(keyword);
    (if Contains(Lower(p.title), kw) then 10 else 0)
    + (if p.md != "" && Contains(Lower(p.md), kw) then CountOcc(Lower(p.md), kw) else 0)
  }

  /**
   * The score is positive exactly when the title or the body holds the
   * keyword (ignoring ASCII case); a title match alone is worth 10, and
   * without one the score is the number of occurrences in the body.
   */
  lemma {:induction false} ScoreProperties(p: Page, keyword: string)
    ensures Score(p, keyword) > 0 <==> Contains(Lower(p.title), Lower(keyword)) || (p.md != "" && Contains(Lower(p.md), Lower(keyword)))
    ensures Contains(Lower(p.title), Lower(keyword)) ==> Score(p, keyword) >= 10
    ensures !Contains(Lower(p.title), Lower(keyword)) && p.md != "" ==>
      Score(p, keyword) == if Contains(Lower(p.md), Lower(keyword)) then CountOcc(Lower(p.md), Lower(keyword)) else 0
  {
    CountOccPositive(Lower(p.md), Lower(keyword));
  }

  /** One search hit: key, title and score. */
  function ScoreOf(r: (string, string, int)): int
  {
    r.2
  }

  /** The search hit a sitemap entry would give: key, title and score. */
  function Hit(e: (string, Page), keyword: string): (string, string, int)
  {
    (e.0, e.1.title, Score(e.1, keyword))
  }

  /** The entries' hits with a positive score, in sitemap order. */
  function Hits(entries: Sitemap, keyword: string): (r: seq<(string, string, int)>)
    ensures forall i :: 0 <= i < |r| ==> r[i].2 > 0
    ensures |r| <= |entries|
  {
    MapFilter(entries, e => Hit(e, keyword), h => ScoreOf(h) > 0)
  }

  /** The hits of a prefix one entry longer. */
  lemma {:induction false} HitsSnoc(sm: Sitemap, i: nat, keyword: string)
    requires i < |sm|
    ensures Hits(sm[..i + 1], keyword) ==
      Hits(sm[..i], keyword) + (if Score(sm[i].1, keyword) > 0 then [Hit(sm[i], keyword)] else [])
  {
    assert sm[..i + 1][..i] == sm[..i];
  }

  /** find_pages_by_keyword: the hits, highest score first, ties in sitemap order. */
  function KeywordSearch(sm: Sitemap, keyword: string): seq<(string, string, int)>
  {
    SortDesc(Hits(sm, keyword), ScoreOf, IntLe)
  }

  lemma {:induction false} HitsMember(entries: Sitemap, keyword: string, h: (string, string, int))
    ensures h in Hits(entries, keyword) <==>
      exists i :: 0 <= i < |entries| && h == Hit(entries[i], keyword) && h.2 > 0
  {
    MapFilterMember(entries, e => Hit(e, keyword), h => ScoreOf(h) > 0, h);
  }

  /**
   * The keyword results are exactly the pages with a positive score, each
   * with its title and score, highest score first.
   */
  lemma {:induction false} KeywordSearchProperties(sm: Sitemap, keyword: string)
    ensures var r := KeywordSearch(sm, keyword);
      && multiset(r) == multiset(Hits(sm, keyword))
      && SortedDesc(r, ScoreOf, IntLe)
      && (forall i :: 0 <= i < |r| ==> r[i].2 > 0)
      && forall h :: h in r <==>
           exists i :: 0 <= i < |sm| && h == Hit(sm[i], keyword) && h.2 > 0
  {
    var hits := Hits(sm, keyword);
    var r := SortDesc(hits, ScoreOf, IntLe);
    IntLePreorder();
    SortDescSorted(hits, ScoreOf, IntLe);
    forall h ensures h in r <==> h in hits {
      assert h in r <==> h in multiset(r);
      assert h in hits <==> h in multiset(hits);
    }
    forall i | 0 <= i < |r| ensures r[i].2 > 0 {
      assert r[i] in multiset(hits);
    }
    forall h ensures h in hits <==>
      exists i :: 0 <= i < |sm| && h == Hit(sm[i], keyword) && h.2 > 0
    {
      HitsMember(sm, keyword, h);
    }
  }

  /** A bound of the date range: absent or empty means unbounded. */
  predicate AfterStart(d: string, start: Option<string>)
  {
    start.None? || start.value == "" || LexLe(start.value, d)
  }

  predicate BeforeEnd(d: string, end: Option<string>)
  {
    end.None? || end.value == "" || LexLe(d, end.value)
  }

  function DateOf(r: (string, string, string)): string
  {
    r.2
  }

  function InRange(entries: Sitemap, start: Option<string>, end: Option<string>): (r: seq<(string, string, string)>)
    ensures forall i :: 0 <= i < |r| ==> r[i].2 != "" && AfterStart(r[i].2, start) && BeforeEnd(r[i].2, end)
    ensures |r| <= |entries|
    decreases |entries|
  {
    if entries == [] then []
    else
      var e := entries[|entries| - 1];
      var keep := HasDate(e.1) && AfterStart(e.1.date.value, start) && BeforeEnd(e.1.date.value, end);
      InRange(entries[..|entries| - 1], start, end) + (if keep then [(e.0, e.1.title, e.1.date.value)] else [])
  }

  /**
   * A result row of the date filter is exactly the (key, title, date) of a
   * page with a non-empty date inside both bounds.
   */
  lemma {:induction false} InRangeMember(entries: Sitemap, start: Option<string>, end: Option<string>, x: (string, string, string))
    ensures x in InRange(entries, start, end) <==>
      exists i :: 0 <= i < |entries| && HasDate(entries[i].1)
        && AfterStart(entries[i].1.date.value, start) && BeforeEnd(entries[i].1.date.value, end)
        && x == (entries[i].0, entries[i].1.title, entries[i].1.date.value)
    decreases |entries|
  {
    if entries != [] {
      var init, e := entries[..|entries| - 1], entries[|entries| - 1];
      InRangeMember(init, start, end, x);
      assert forall i :: 0 <= i < |init| ==> init[i] == entries[i];
    }
  }

  /** get_pages_by_date_range: the pages dated within the bounds, latest first, ties in sitemap order. */
  function DateRange(sm: Sitemap, start: Option<string>, end: Option<string>): seq<(string, string, string)>
  {
    SortDesc(InRange(sm, start, end), DateOf, StrLe)
  }

  /**
   * The results are exactly the in-range pages, each as (key, title, date)
   * and dated within the inclusive bounds, latest first.
   */
  lemma {:induction false} DateRangeProperties(sm: Sitemap, start: Option<string>, end: Option<string>)
    ensures var r := DateRange(sm, start, end);
      && multiset(r) == multiset(InRange(sm, start, end))
      && SortedDesc(r, DateOf, StrLe)
      && (forall i :: 0 <= i < |r| ==> r[i].2 != "" && AfterStart(r[i].2, start) && BeforeEnd(r[i].2, end))
      && forall x :: x in r <==>
           exists i :: 0 <= i < |sm| && HasDate(sm[i].1)
             && AfterStart(sm[i].1.date.value, start) && BeforeEnd(sm[i].1.date.value, end)
             && x == (sm[i].0, sm[i].1.title, sm[i].1.date.value)
  {
    var xs := InRange(sm, start, end);
    var r := SortDesc(xs, DateOf, StrLe);
    StrLePreorder();
    SortDescSorted(xs, DateOf, StrLe);
    forall i | 0 <= i < |r| ensures r[i].2 != "" && AfterStart(r[i].2, start) && BeforeEnd(r[i].2, end) {
      assert r[i] in multiset(xs);
    }
    forall x ensures x in r <==> x in xs {
      assert x in r <==> x in multiset(r);
      assert x in xs <==> x in multiset(xs);
    }
    forall x ensures x in xs <==>
      exists i :: 0 <= i < |sm| && HasDate(sm[i].1)
        && AfterStart(sm[i].1.date.value, start) && BeforeEnd(sm[i].1.date.value, end)
        && x == (sm[i].0, sm[i].1.title, sm[i].1.date.value)
    {
      InRangeMember(sm, start, end, x);
    }
  }

  // ---------------------------------------------------------------- the analyzer

  /** The analyzer over one sitemap. */
  class SiteAnalyzer {
    var sitemap: Sitemap

    /** `sitemap_data or {}`: no data, or an empty one, gives the empty sitemap. */
    constructor (data: Option<Sitemap>)
      ensures sitemap == if data.Some? then data.value else []
    {
      sitemap := if data.Some? then data.value else [];
    }

    /** analyze_links: for each page, each link, count the pages it resolves to. */
    method AnalyzeLinks() returns (linksTo: seq<(string, int)>)
      ensures linksTo == LinkCounts(sitemap)
      ensures KeySet(linksTo) <= KeySet(sitemap)
      ensures forall j :: 0 <= j < |linksTo| ==> linksTo[j].1 >= 1
    {
      var sm := sitemap;
      linksTo := [];
      for i := 0 to |sm|
        invariant linksTo == Tally(Targets(sm, sm[..i]))
      {
        TargetsSnoc(sm, i);
        linksTo := CountPageLinks(sm, sm[i].0, LinksOrEmpty(sm[i].1), linksTo, Targets(sm, sm[..i]));
      }
      assert sm[..|sm|] == sm;
      assert linksTo == LinkCounts(sm);
      assert KeySet(linksTo) <= KeySet(sm) && forall j :: 0 <= j < |linksTo| ==> linksTo[j].1 >= 1 by {
        LinkCountsProperties(sm);
      }
    }

    /** generate_page_list: the rows of the list, most linked page first. */
    method GeneratePageList() returns (rows: seq<ListRow>)
      ensures rows == Rows(PageListEntries(sitemap, LinkCounts(sitemap)), LinkCounts(sitemap))
    {
      var counts := AnalyzeLinks();
      rows := ListRows(sitemap, counts);
    }

    /** generate_graphviz: the DOT text, one node per page and one edge per usable link. */
    method GenerateGraphviz() returns (dot: string)
      ensures dot == Dot(sitemap)
    {
      var sm := sitemap;
      var body := "";
      for i := 0 to |sm|
        invariant body == Render(GraphLines(sm[..i]))
      {
        ghost var prev := GraphLines(sm[..i]);
        assert sm[..i + 1][..i] == sm[..i];
        var uid := SanitizeId(sm[i].0);
        var title := ReplaceAll(sm[i].1.title, "\"", "");
        var line := uid + " [label=\"" + title + "\"];\n";
        assert line == RenderLine(NodeLine(uid, title));
        RenderSnoc(prev, NodeLine(uid, title));
        body := AppendEdges(body + line, uid, LinksOrEmpty(sm[i].1));
        assert Sanitized(sm[..i + 1][i].0) == uid;
        RenderAppend(prev + [NodeLine(uid, title)], EdgeLines(uid, EdgeTargets(LinksOrEmpty(sm[i].1))));
      }
      assert sm[..|sm|] == sm;
      dot := "digraph F {\n" + body + "}";
    }

    /** get_content_statistics */
    method GetContentStatistics() returns (stats: Stats)
      ensures stats == Statistics(sitemap)
    {
      var sm := sitemap;
      var withDates, withImages, length := 0, 0, 0;
      var dates: seq<string> := [];
      for i := 0 to |sm|
        invariant withDates == CountWhere(sm[..i], HasDate)
        invariant withImages == CountWhere(sm[..i], HasImage)
        invariant length == ContentLength(sm[..i])
        invariant dates == Dates(sm[..i])
      {
        StatisticsSnoc(sm, i);
        var data := sm[i].1;
        if data.date.Some? && data.date.value != "" {
          withDates := withDates + 1;
          dates := dates + [data.date.value];
        }
        if data.image.ImageSrc? && data.image.src != "" {
          withImages := withImages + 1;
        }
        if data.md != "" {
          length := length + |data.md|;
        }
      }
      assert sm[..|sm|] == sm;
      var earliest, latest := None, None;
      if dates != [] {
        dates := SortDesc(dates, Id, StrLe);
        earliest, latest := Some(dates[|dates| - 1]), Some(dates[0]);
      }
      stats := Stats(|sm|, withDates, withImages, length, earliest, latest);
    }

    /** find_pages_by_keyword */
    method FindPagesByKeyword(keyword: string) returns (results: seq<(string, string, int)>)
      ensures results == KeywordSearch(sitemap, keyword)
    {
      var sm := sitemap;
      results := [];
      var kw := Lower(keyword);
      for i := 0 to |sm|
        invariant results == Hits(sm[..i], keyword)
      {
        HitsSnoc(sm, i, keyword);
        var data := sm[i].1;
        var score := 0;
        if Contains(Lower(data.title), kw) {
          score := score + 10;
        }
        if data.md != "" && Contains(Lower(data.md), kw) {
          score := score + CountOcc(Lower(data.md), kw);
        }
        assert score == Score(data, keyword);
        if score > 0 {
          results := results + [(sm[i].0, data.title, score)];
        }
      }
      assert sm[..|sm|] == sm;
      results := SortDesc(results, ScoreOf, IntLe);
    }

    /** get_pages_by_date_range */
    method GetPagesByDateRange(start: Option<string>, end: Option<string>) returns (results: seq<(string, string, string)>)
      ensures results == DateRange(sitemap, start, end)
    {
      var sm := sitemap;
      results := [];
      for i := 0 to |sm|
        invariant results == InRange(sm[..i], start, end)
      {
        assert sm[..i + 1][..i] == sm[..i];
        var data := sm[i].1;
        if data.date.None? || data.date.value == "" {
          continue;
        }
        var d := data.date.value;
        if start.Some? && start.value != "" && !LexLe(start.value, d) {
          continue;
        }
        if end.Some? && end.value != "" && !LexLe(d, end.value) {
          continue;
        }
        results := results + [(sm[i].0, data.title, d)];
      }
      assert sm[..|sm|] == sm;
      results := SortDesc(results, DateOf, StrLe);
    }
  }
}

/**
 * web-editor/backend/main.py: the editor API's handling of the stored
 * sitemap file. `update_sitemap` validates every page of the submitted
 * sitemap before it writes anything, then replaces the file and
 * regenerates the site; `get_status` reports the size of the stored
 * sitemap; `get_sitemap` returns it.
 *
 * The sitemap file is the field `stored` (None while the file does not
 * exist), the output directory's existence the field `staticDir`. FastAPI's
 * routing, CORS and uvicorn are not modelled; an HTTP error is a status
 * and its detail text.
 */
module EditorApi {
  import opened Wrappers
  import opened Dicts
  import opened StableSort
  import opened Generator

  /** A JSON value as FastAPI decodes it; numbers are kept as integers. */
  datatype Json =
    | JNull
    | JBool(b: bool)
    | JNumber(n: int)
    | JString(s: string)
    | JArray(items: seq<Json>)
    | JObject(fields: seq<(string, Json)>)

  /** An HTTPException: status code and detail. */
  datatype HttpError = HttpError(status: nat, detail: string)

  /** The fields every page must have, in the order they are checked. */
  const RequiredFields: seq<string> := ["title", "md"]

  function InvalidPage(path: string): string
  {
    "Invalid page data for " + path
  }

  function MissingField(field: string, path: string): string
  {
    "Missing required field '" + field + "' for page " + path
  }

  const UpdatedMessage := "Sitemap updated and static site regenerated successfully"

  /** The required fields a page object lacks, in checking order. */
  function MissingFields(fields: seq<(string, Json)>): seq<string>
  {
    Filter(RequiredFields, f => f !in KeySet(fields))
  }

  /** The 400 detail one page gets, or None when it passes. */
  function PageError(path: string, page: Json): Option<string>
  {
    if !page.JObject? then Some(InvalidPage(path))
    else if MissingFields(page.fields) != [] then Some(MissingField(MissingFields(page.fields)[0], path))
    else None
  }

  /**
   * A page passes exactly when it is an object holding both `title` and
   * `md`; a non-object is invalid whatever it holds, and `title` is
   * reported before `md` when both are missing.
   */
  lemma {:induction false} PageErrorRules(path: string, page: Json)
    ensures PageError(path, page).None? <==> page.JObject? && "title" in KeySet(page.fields) && "md" in KeySet(page.fields)
    ensures !page.JObject? ==> PageError(path, page) == Some(InvalidPage(path))
    ensures page.JObject? && "title" !in KeySet(page.fields) ==> PageError(path, page) == Some(MissingField("title", path))
    ensures page.JObject? && "title" in KeySet(page.fields) && "md" !in KeySet(page.fields) ==>
      PageError(path, page) == Some(MissingField("md", path))
  {
    if page.JObject? {
      MissingFieldsShape(page.fields);
    }
  }

  lemma {:induction false} MissingFieldsShape(fields: seq<(string, Json)>)
    ensures MissingFields(fields) ==
      (if "title" in KeySet(fields) then [] else ["title"]) + (if "md" in KeySet(fields) then [] else ["md"])
  {
    var p := (f: string) => f !in KeySet(fields);
    assert RequiredFields == ["title"] + ["md"];
    FilterAppend(["title"], ["md"], p);
    assert ["title"][1..] == [] && ["md"][1..] == [];
  }

  /** Only `title` and `md` matter: any other field can be added or removed without changing the verdict. */
  lemma {:induction false} OtherFieldsIgnored(path: string, f: seq<(string, Json)>, g: seq<(string, Json)>)
    requires ("title" in KeySet(f) <==> "title" in KeySet(g)) && ("md" in KeySet(f) <==> "md" in KeySet(g))
    ensures PageError(path, JObject(f)) == PageError(path, JObject(g))
  {
    MissingFieldsShape(f);
    MissingFieldsShape(g);
  }

  /** Position of the first page that fails, in the sitemap's order. */
  function FirstBad(data: seq<(string, Json)>): (r: Option<nat>)
    ensures r.Some? ==> r.value < |data| && PageError(data[r.value].0, data[r.value].1).Some?
    ensures forall j :: 0 <= j < |data| && (r.None? || j < r.value) ==> PageError(data[j].0, data[j].1).None?
    decreases |data|
  {
    if data == [] then None
    else if PageError(data[0].0, data[0].1).Some? then Some(0)
    else
      assert forall j :: 1 <= j < |data| ==> data[j] == data[1..][j - 1];
      match FirstBad(data[1..])
      case None => None
      case Some(i) => Some(i + 1)
  }

  /** The 400 detail of the submitted sitemap: that of its first failing page; None when every page passes. */
  function FirstError(data: seq<(string, Json)>): (err: Option<string>)
    ensures err.None? <==> forall i :: 0 <= i < |data| ==> PageError(data[i].0, data[i].1).None?
  {
    match FirstBad(data)
    case None => None
    case Some(i) => PageError(data[i].0, data[i].1)
  }

  /** The field check of one page: the loop over the required fields. */
  method ValidatePage(path: string, page: Json) returns (err: Option<string>)
    ensures err == PageError(path, page)
  {
    if !page.JObject? {
      return Some(InvalidPage(path));
    }
    MissingFieldsShape(page.fields);
    for i := 0 to |RequiredFields|
      invariant forall j :: 0 <= j < i ==> RequiredFields[j] in KeySet(page.fields)
    {
      if RequiredFields[i] !in KeySet(page.fields) {
        return Some(MissingField(RequiredFields[i], path));
      }
    }
    return None;
  }

  /** The validation loop: pages in order, stopping at the first that fails. */
  method Validate(data: seq<(string, Json)>) returns (err: Option<string>)
    ensures err == FirstError(data)
  {
    for i := 0 to |data|
      invariant forall j :: 0 <= j < i ==> PageError(data[j].0, data[j].1).None?
    {
      var e := ValidatePage(data[i].0, data[i].1);
      if e.Some? {
        assert FirstBad(data) == Some(i);
        return e;
      }
    }
    return None;
  }

  /** What get_status reports. */
  datatype Status = Status(sitemapExists: bool, sitemapSize: nat, staticDirExists: bool)

  class Editor {
    /** The sitemap file: None while it does not exist. */
    var stored: Option<seq<(string, Json)>>
    /** Whether the output directory exists. */
    var staticDir: bool

    /** A stored sitemap is a JSON object: its keys are distinct. */
    predicate Valid()
      reads this
    {
      stored.Some? ==> DistinctKeys(stored.value)
    }

    constructor (file: Option<seq<(string, Json)>>, staticDir: bool)
      requires file.Some? ==> DistinctKeys(file.value)
      ensures Valid() && stored == file && this.staticDir == staticDir
    {
      stored := file;
      this.staticDir := staticDir;
    }

    /**
     * update_sitemap. `regenError` is the text of the exception the
     * regeneration of a non-empty sitemap raises, if any (a page field of
     * the wrong type, a write that fails). A rejected sitemap leaves the
     * file alone; an accepted one replaces it before regeneration starts,
     * so an empty sitemap is stored and then answered with a 500.
     */
    method UpdateSitemap(data: seq<(string, Json)>, regenError: Option<string>) returns (r: Result<string, HttpError>)
      requires Valid() && DistinctKeys(data)
      modifies this
      ensures Valid()
      ensures FirstError(data).Some? ==>
        r == Failure(HttpError(400, FirstError(data).value))
        && stored == old(stored) && staticDir == old(staticDir)
      ensures FirstError(data).None? ==> stored == Some(data)
      ensures FirstError(data).None? && data == [] ==>
        r == Failure(HttpError(500, "Error updating sitemap: " + NoSitemapMessage)) && staticDir == old(staticDir)
      ensures FirstError(data).None? && data != [] ==>
        staticDir
        && r == if regenError.None? then Success(UpdatedMessage) else Failure(HttpError(500, "Error updating sitemap: " + regenError.value))
    {
      var err := Validate(data);
      if err.Some? {
        return Failure(HttpError(400, err.value));
      }
      stored := Some(data);
      if data == [] {
        return Failure(HttpError(500, "Error updating sitemap: " + NoSitemapMessage));
      }
      staticDir := true;
      if regenError.Some? {
        return Failure(HttpError(500, "Error updating sitemap: " + regenError.value));
      }
      r := Success(UpdatedMessage);
    }

    /** get_status: the number of pages in the file, 0 when there is no file. */
    method GetStatus() returns (s: Status)
      requires Valid()
      ensures s.sitemapExists == stored.Some? && s.staticDirExists == staticDir
      ensures s.sitemapSize == if stored.Some? then |KeySet(stored.value)| else 0
    {
      var size := 0;
      if stored.Some? {
        size := |stored.value|;
        DistinctKeyCount(stored.value);
      }
      s := Status(stored.Some?, size, staticDir);
    }

    /** get_sitemap as intended: the stored sitemap, or a 404 when there is none. */
    method GetSitemap() returns (r: Result<seq<(string, Json)>, HttpError>)
      ensures stored.Some? ==> r == Success(stored.value)
      ensures stored.None? ==> r == Failure(HttpError(404, "Sitemap file not found"))
    {
      if stored.None? {
        return Failure(HttpError(404, "Sitemap file not found"));
      }
      r := Success(stored.value);
    }

    /**
     * get_sitemap as written: the 404 is raised inside the `try`, whose
     * `except Exception` catches it and answers 500 with the exception's
     * text (`exceptionText`, "404: Sitemap file not found" in Starlette).
     */
    method GetSitemapAsWritten(exceptionText: string) returns (r: Result<seq<(string, Json)>, HttpError>)
      ensures stored.Some? ==> r == Success(stored.value)
      ensures stored.None? ==> r == Failure(HttpError(500, "Error reading sitemap: " + exceptionText))
      ensures stored.None? ==> r.error.status != 404
    {
      var answer := GetSitemap();
      if answer.Failure? {
        return Failure(HttpError(500, "Error reading sitemap: " + exceptionText));
      }
      r := answer;
    }
  }
}

/**
 * The sitemap: the JSON document that maps each page key to its record,
 * as the parser writes it and as the analyzer, the generator and the
 * legacy script read it.
 */
module Records {
  import opened Wrappers

  /**
   * The `image` value of a record: the key missing altogether (records of
   * the legacy script), the JSON value `false` (the parser's default), or a
   * path.
   */
  datatype ImageField = ImageAbsent | ImageFalse | ImageSrc(src: string)

  /**
   * One page record. `date` is None for JSON null or a missing key: the
   * analyzer and the generator test it with `.get('date')`, for which the
   * two are alike; both parsers always write the key. `links` is None when
   * the key is missing, which `v['links']` turns into a KeyError and
   * `v.get('links', [])` into an empty list.
   */
  datatype Page = Page(title: string, md: string, date: Option<string>, image: ImageField, links: Option<seq<string>>)

  /** Page key to record, in insertion order. */
  type Sitemap = seq<(string, Page)>

  /** The Python exceptions the modelled code can raise. */
  datatype PyError =
    | AttributeError(detail: string)
    | KeyError(key: string)
    | UnboundLocalError(name: string)
    | TypeError(message: string)
    | ValueError(message: string)

  /** `if data.get('date')`: present and non-empty. */
  predicate HasDate(p: Page)
  {
    p.date.Some? && p.date.value != ""
  }

  /** `if v.get('image')`: a non-empty path (false and a missing key are both falsy). */
  predicate HasImage(p: Page)
  {
    p.image.ImageSrc? && p.image.src != ""
  }

  /** v.get('links', []) */
  function LinksOrEmpty(p: Page): seq<string>
  {
    if p.links.Some? then p.links.value else []
  }
}

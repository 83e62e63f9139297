/** The request and URL shaping of the API client in
    frontend/src/dmart/index.ts, with the HTTP calls removed: what `query`
    and `csv` do to the caller's request object before posting it, the path
    `retrieve_entry` requests, the URLs `get_attachment_url` and
    `get_payload` build, and the requests `get_spaces` and `get_children`
    send. The configured `website.backend` is the parameter `backend`. */
module Dmart {
  import opened Wrappers
  import opened JsString
  import opened Paths

  datatype QueryType =
    | Aggregation | Search | Subpath | Events | History | Tags | Spaces | Counters | Reports

  /** `SortyType` in the client. */
  datatype SortType = Ascending | Descending

  /** The fields of a `QueryRequest`, an absent optional field being `None`.
      Resource types are kept as their string values. */
  datatype Request = Request(
    queryType: QueryType,
    spaceName: string,
    subpath: string,
    filterTypes: Option<seq<string>>,
    filterSchemaNames: Option<seq<string>>,
    filterShortnames: Option<seq<string>>,
    search: string,
    fromDate: Option<string>,
    toDate: Option<string>,
    sortBy: Option<string>,
    sortType: Option<SortType>,
    retrieveJsonPayload: Option<bool>,
    retrieveAttachments: Option<bool>,
    validateSchema: Option<bool>,
    jqFilter: Option<string>,
    exactSubpath: Option<bool>,
    limit: Option<int>,
    offset: Option<int>)

  /** A request with only the mandatory fields set. */
  function MinimalRequest(queryType: QueryType, spaceName: string, subpath: string, search: string): Request
  {
    Request(queryType, spaceName, subpath, None, None, None, search, None, None,
            None, None, None, None, None, None, None, None, None)
  }

  /** `s || fallback` for an optional string: absent and empty are falsy. */
  function OrElse(s: Option<string>, fallback: string): (r: string)
    ensures s.Some? && s.value != "" ==> r == s.value
    ensures s.None? || s.value == "" ==> r == fallback
  {
    if s.Some? && s.value != "" then s.value else fallback
  }

  // ---------------------------------------------------------------------
  // query and csv: normalising the caller's request
  // ---------------------------------------------------------------------

  /** The request `query` posts: unless it is a `spaces` query, an unset
      sort order becomes ascending and an unset or empty sort key becomes
      "created_at"; runs of `/` in the subpath become one `/`. Nothing else
      changes. */
  function QueryDefaults(r: Request): (n: Request)
    ensures n == r.(sortType := n.sortType, sortBy := n.sortBy, subpath := n.subpath)
    ensures n.subpath == CollapseSlashes(r.subpath) && NoDoubleSlash(n.subpath)
    ensures r.queryType == Spaces ==> n.sortType == r.sortType && n.sortBy == r.sortBy
    ensures r.queryType != Spaces ==>
      && n.sortType == Some(r.sortType.GetOr(Ascending))
      && n.sortBy.Some? && n.sortBy.value != ""
      && (r.sortBy.Some? && r.sortBy.value != "" ==> n.sortBy == r.sortBy)
      && (r.sortBy.None? || r.sortBy.value == "" ==> n.sortBy == Some("created_at"))
  {
    var sorted :=
      if r.queryType != Spaces then
        r.(sortType := Some(r.sortType.GetOr(Ascending)), sortBy := Some(OrElse(r.sortBy, "created_at")))
      else r;
    sorted.(subpath := CollapseSlashes(r.subpath))
  }

  /** Normalising twice is normalising once. */
  lemma QueryDefaultsIdempotent(r: Request)
    ensures QueryDefaults(QueryDefaults(r)) == QueryDefaults(r)
  {
    CollapseFixpoint(r.subpath);
  }

  /** The request `csv` posts: the sort key is always "created_at", an
      unset sort order becomes ascending, and the subpath is collapsed. */
  function CsvDefaults(r: Request): (n: Request)
    ensures n == r.(sortType := n.sortType, sortBy := n.sortBy, subpath := n.subpath)
    ensures n.sortBy == Some("created_at")
    ensures n.sortType == Some(r.sortType.GetOr(Ascending))
    ensures n.subpath == CollapseSlashes(r.subpath) && NoDoubleSlash(n.subpath)
  {
    r.(sortType := Some(r.sortType.GetOr(Ascending)), sortBy := Some("created_at"),
       subpath := CollapseSlashes(r.subpath))
  }

  /** Outside `spaces` queries, `csv` and `query` send the same request
      exactly when the caller left the sort key unset, empty or already
      "created_at". */
  lemma CsvAgreesWithQuery(r: Request)
    requires r.queryType != Spaces
    ensures CsvDefaults(r) == QueryDefaults(r) <==> OrElse(r.sortBy, "created_at") == "created_at"
  {
    if CsvDefaults(r) == QueryDefaults(r) {
      assert QueryDefaults(r).sortBy == Some("created_at");
    }
  }

  /** The caller's request object, updated in place by `query` and `csv`. */
  class QueryRequest {
    var queryType: QueryType
    var spaceName: string
    var subpath: string
    var filterTypes: Option<seq<string>>
    var filterSchemaNames: Option<seq<string>>
    var filterShortnames: Option<seq<string>>
    var search: string
    var fromDate: Option<string>
    var toDate: Option<string>
    var sortBy: Option<string>
    var sortType: Option<SortType>
    var retrieveJsonPayload: Option<bool>
    var retrieveAttachments: Option<bool>
    var validateSchema: Option<bool>
    var jqFilter: Option<string>
    var exactSubpath: Option<bool>
    var limit: Option<int>
    var offset: Option<int>

    /** The object literal `r`. */
    constructor(r: Request)
      ensures Value() == r
    {
      queryType, spaceName, subpath := r.queryType, r.spaceName, r.subpath;
      filterTypes, filterSchemaNames, filterShortnames := r.filterTypes, r.filterSchemaNames, r.filterShortnames;
      search, fromDate, toDate := r.search, r.fromDate, r.toDate;
      sortBy, sortType := r.sortBy, r.sortType;
      retrieveJsonPayload, retrieveAttachments, validateSchema := r.retrieveJsonPayload, r.retrieveAttachments, r.validateSchema;
      jqFilter, exactSubpath, limit, offset := r.jqFilter, r.exactSubpath, r.limit, r.offset;
    }

    /** The fields of the object as a value. */
    function Value(): Request
      reads this
    {
      Request(queryType, spaceName, subpath, filterTypes, filterSchemaNames, filterShortnames,
              search, fromDate, toDate, sortBy, sortType, retrieveJsonPayload, retrieveAttachments,
              validateSchema, jqFilter, exactSubpath, limit, offset)
    }
  }

  /** `query(q)` up to the post: fills in the sort defaults and collapses
      the subpath, assigning into `q`. */
  method Query(q: QueryRequest)
    modifies q
    ensures q.Value() == QueryDefaults(old(q.Value()))
  {
    if q.queryType != Spaces {
      q.sortType := Some(q.sortType.GetOr(Ascending));
      q.sortBy := Some(OrElse(q.sortBy, "created_at"));
    }
    q.subpath := CollapseSlashes(q.subpath);
  }

  /** `csv(q)` up to the post. */
  method Csv(q: QueryRequest)
    modifies q
    ensures q.Value() == CsvDefaults(old(q.Value()))
  {
    q.sortType := Some(q.sortType.GetOr(Ascending));
    q.sortBy := Some("created_at");
    q.subpath := CollapseSlashes(q.subpath);
  }

  // ---------------------------------------------------------------------
  // get_spaces and get_children
  // ---------------------------------------------------------------------

  /** The literal `get_spaces` passes to `query`. */
  function SpacesRequest(): Request
  {
    MinimalRequest(Spaces, "management", "/", "").(limit := Some(100))
  }

  /** `query` leaves the `get_spaces` request exactly as written: a
      `spaces` query gets no sort defaults and "/" is already collapsed. */
  lemma SpacesRequestUnchanged()
    ensures QueryDefaults(SpacesRequest()) == SpacesRequest()
    ensures SpacesRequest().sortBy.None? && SpacesRequest().sortType.None?
  {
    assert NoDoubleSlash("/");
    CollapseFixpoint("/");
  }

  /** `get_spaces()`: the request object it hands to `query`, as `query`
      leaves it. */
  method GetSpaces() returns (q: QueryRequest)
    ensures fresh(q)
    ensures q.Value() == SpacesRequest()
  {
    q := new QueryRequest(SpacesRequest());
    Query(q);
    SpacesRequestUnchanged();
  }

  /** The literal `get_children` passes to `query`. */
  function ChildrenRequest(spaceName: string, subpath: string, limit: int, offset: int, restrictTypes: seq<string>): Request
  {
    MinimalRequest(Search, spaceName, subpath, "").(
      filterTypes := Some(restrictTypes), exactSubpath := Some(true),
      limit := Some(limit), offset := Some(offset))
  }

  /** What `get_children` posts: an exact-subpath search with an empty
      search string, sorted ascending by creation time, on the collapsed
      subpath, with the caller's paging and type filter. */
  lemma ChildrenRequestSent(spaceName: string, subpath: string, limit: int, offset: int, restrictTypes: seq<string>)
    ensures var n := QueryDefaults(ChildrenRequest(spaceName, subpath, limit, offset, restrictTypes));
      && n.queryType == Search && n.spaceName == spaceName && n.search == ""
      && n.exactSubpath == Some(true)
      && n.subpath == CollapseSlashes(subpath)
      && n.sortType == Some(Ascending) && n.sortBy == Some("created_at")
      && n.limit == Some(limit) && n.offset == Some(offset)
      && n.filterTypes == Some(restrictTypes)
  {
  }

  /** `get_children(space_name, subpath, limit = 20, offset = 0,
      restrict_types = [])`: the request object it hands to `query`, as
      `query` leaves it. */
  method GetChildren(spaceName: string, subpath: string, limit: int := 20, offset: int := 0,
                     restrictTypes: seq<string> := [])
    returns (q: QueryRequest)
    ensures fresh(q)
    ensures q.Value() == QueryDefaults(ChildrenRequest(spaceName, subpath, limit, offset, restrictTypes))
  {
    q := new QueryRequest(ChildrenRequest(spaceName, subpath, limit, offset, restrictTypes));
    Query(q);
  }

  // ---------------------------------------------------------------------
  // retrieve_entry
  // ---------------------------------------------------------------------

  /** A boolean interpolated into a template literal. */
  function BoolText(b: bool): string
  {
    if b then "true" else "false"
  }

  /** The subpath `retrieve_entry` uses: an empty subpath or "/" names the
      space root. */
  function EntrySubpath(subpath: string): (s: string)
    ensures subpath == "" || subpath == "/" ==> s == "__root__"
    ensures subpath != "" && subpath != "/" ==> s == subpath
    ensures s != "" && s != "/"
  {
    if subpath == "" || subpath == "/" then "__root__" else subpath
  }

  /** The template of `retrieve_entry`, before slashes are collapsed: the
      entry's location, then its shortname and the query string. */
  function EntryPath(resourceType: string, spaceName: string, subpath: string, shortname: string,
                     retrieveJsonPayload: bool, retrieveAttachments: bool, validateSchema: bool): string
  {
    EntryHead(resourceType, spaceName) + "/" + subpath
      + EntryTail(shortname, retrieveJsonPayload, retrieveAttachments, validateSchema)
  }

  function EntryHead(resourceType: string, spaceName: string): string
  {
    "/managed/entry/" + resourceType + "/" + spaceName
  }

  function EntryTail(shortname: string, retrieveJsonPayload: bool, retrieveAttachments: bool,
                     validateSchema: bool): (t: string)
    ensures t != [] && t[0] == '/'
  {
    "/" + shortname
      + "?retrieve_json_payload=" + BoolText(retrieveJsonPayload)
      + "&retrieve_attachments=" + BoolText(retrieveAttachments)
      + "&validate_schema=" + BoolText(validateSchema)
  }

  /** The URL `retrieve_entry` requests: the backend, untouched, followed by
      the template with every run of `/` collapsed. */
  function EntryUrl(backend: string, resourceType: string, spaceName: string, subpath: string, shortname: string,
                    retrieveJsonPayload: bool, retrieveAttachments: bool, validateSchema: bool): (url: string)
    ensures |url| > |backend| && url[..|backend|] == backend
    ensures url[|backend|..] == CollapseSlashes(EntryPath(resourceType, spaceName, EntrySubpath(subpath), shortname,
                                                          retrieveJsonPayload, retrieveAttachments, validateSchema))
    ensures url[|backend|] == '/'
    ensures NoDoubleSlash(url[|backend|..])
  {
    var path := EntryPath(resourceType, spaceName, EntrySubpath(subpath), shortname,
                          retrieveJsonPayload, retrieveAttachments, validateSchema);
    var collapsed := CollapseSlashes(path);
    var url := backend + collapsed;
    assert url[|backend|..] == collapsed;
    url
  }

  /** `retrieve_entry(...)` up to the request: reassigns the subpath when
      it names the root, then builds the URL. */
  method RetrieveEntryUrl(backend: string, resourceType: string, spaceName: string, subpath: string, shortname: string,
                          retrieveJsonPayload: bool := false, retrieveAttachments: bool := false,
                          validateSchema: bool := true)
    returns (url: string)
    ensures url == EntryUrl(backend, resourceType, spaceName, subpath, shortname,
                            retrieveJsonPayload, retrieveAttachments, validateSchema)
  {
    var path := subpath;
    if path == "" || path == "/" {
      path := "__root__";
    }
    url := backend + CollapseSlashes(EntryPath(resourceType, spaceName, path, shortname,
                                               retrieveJsonPayload, retrieveAttachments, validateSchema));
  }

  /** Any subpath other than "" and "/" is used as given. */
  lemma EntryUrlVerbatimSubpath(backend: string, resourceType: string, spaceName: string, subpath: string, shortname: string,
                                retrieveJsonPayload: bool, retrieveAttachments: bool, validateSchema: bool)
    requires subpath != "" && subpath != "/"
    ensures EntryUrl(backend, resourceType, spaceName, subpath, shortname, retrieveJsonPayload, retrieveAttachments, validateSchema)
         == backend + CollapseSlashes(EntryPath(resourceType, spaceName, subpath, shortname,
                                                retrieveJsonPayload, retrieveAttachments, validateSchema))
  {
    var url := EntryUrl(backend, resourceType, spaceName, subpath, shortname, retrieveJsonPayload, retrieveAttachments, validateSchema);
    assert url == url[..|backend|] + url[|backend|..];
  }

  /** The empty subpath, "/" and "__root__" all name the same entry. */
  lemma EntryUrlRootAliases(backend: string, resourceType: string, spaceName: string, shortname: string,
                            retrieveJsonPayload: bool, retrieveAttachments: bool, validateSchema: bool)
    ensures EntryUrl(backend, resourceType, spaceName, "", shortname, retrieveJsonPayload, retrieveAttachments, validateSchema)
         == EntryUrl(backend, resourceType, spaceName, "__root__", shortname, retrieveJsonPayload, retrieveAttachments, validateSchema)
    ensures EntryUrl(backend, resourceType, spaceName, "/", shortname, retrieveJsonPayload, retrieveAttachments, validateSchema)
         == EntryUrl(backend, resourceType, spaceName, "__root__", shortname, retrieveJsonPayload, retrieveAttachments, validateSchema)
  {
    assert EntrySubpath("") == EntrySubpath("/") == EntrySubpath("__root__") == "__root__";
  }

  /** A leading or trailing `/` on the subpath does not change the URL,
      except on "/" itself, which names the root. */
  lemma EntryUrlSubpathSlashes(backend: string, resourceType: string, spaceName: string, subpath: string, shortname: string,
                               retrieveJsonPayload: bool, retrieveAttachments: bool, validateSchema: bool)
    requires subpath != "/"
    ensures EntryUrl(backend, resourceType, spaceName, "/" + subpath, shortname, retrieveJsonPayload, retrieveAttachments, validateSchema)
         == EntryUrl(backend, resourceType, spaceName, subpath, shortname, retrieveJsonPayload, retrieveAttachments, validateSchema)
    ensures EntryUrl(backend, resourceType, spaceName, subpath + "/", shortname, retrieveJsonPayload, retrieveAttachments, validateSchema)
         == EntryUrl(backend, resourceType, spaceName, subpath, shortname, retrieveJsonPayload, retrieveAttachments, validateSchema)
  {
    if subpath != "" {
      CollapseAroundSegment(EntryHead(resourceType, spaceName), subpath,
                            EntryTail(shortname, retrieveJsonPayload, retrieveAttachments, validateSchema));
    }
  }

  // ---------------------------------------------------------------------
  // get_attachment_url and get_payload
  // ---------------------------------------------------------------------

  /** "/managed/payload/" followed by the resource type and the space. */
  function PayloadHead(resourceType: string, spaceName: string): string
  {
    "/managed/payload/" + resourceType + "/" + spaceName
  }

  /** The template of `get_attachment_url`, trailing slashes stripped from
      the subpath, before ".." is rewritten. */
  function AttachmentPath(resourceType: string, spaceName: string, subpath: string, parentShortname: string,
                          shortname: string, ext: string): string
  {
    PayloadHead(resourceType, spaceName) + "/" + StripTrailingSlashes(subpath) + "/"
      + parentShortname + "/" + shortname + "." + ext
  }

  /** `get_attachment_url(...)`: the backend, untouched, followed by the
      template with every ".." replaced by "." (left to right, not
      overlapping). */
  function AttachmentUrl(backend: string, resourceType: string, spaceName: string, subpath: string,
                         parentShortname: string, shortname: string, ext: string): (url: string)
    ensures |backend| <= |url| && url[..|backend|] == backend
    ensures url[|backend|..] == ReplaceDotDot(AttachmentPath(resourceType, spaceName, subpath, parentShortname, shortname, ext))
  {
    var url := backend + ReplaceDotDot(AttachmentPath(resourceType, spaceName, subpath, parentShortname, shortname, ext));
    assert url[..|backend|] == backend;
    url
  }

  /** Trailing slashes on the subpath do not change the URL. */
  lemma AttachmentUrlTrailingSlash(backend: string, resourceType: string, spaceName: string, subpath: string,
                                   parentShortname: string, shortname: string, ext: string)
    ensures AttachmentUrl(backend, resourceType, spaceName, subpath + "/", parentShortname, shortname, ext)
         == AttachmentUrl(backend, resourceType, spaceName, subpath, parentShortname, shortname, ext)
  {
    StripTrailingSlash(subpath);
  }

  /** An extension given with its dot ("." + e) gives the same URL as the
      bare extension e: the ".." the template then holds is rewritten. */
  lemma AttachmentUrlDottedExt(backend: string, resourceType: string, spaceName: string, subpath: string,
                               parentShortname: string, shortname: string, ext: string)
    requires shortname == [] || shortname[|shortname| - 1] != '.'
    requires ext == [] || ext[0] != '.'
    ensures AttachmentUrl(backend, resourceType, spaceName, subpath, parentShortname, shortname, "." + ext)
         == AttachmentUrl(backend, resourceType, spaceName, subpath, parentShortname, shortname, ext)
  {
    var head := PayloadHead(resourceType, spaceName) + "/" + StripTrailingSlashes(subpath) + "/"
      + parentShortname + "/" + shortname;
    assert head[|head| - 1] != '.';
    assert AttachmentPath(resourceType, spaceName, subpath, parentShortname, shortname, "." + ext) == head + (".." + ext);
    assert AttachmentPath(resourceType, spaceName, subpath, parentShortname, shortname, ext) == head + ("." + ext);
    ReplaceDotDotConcat(head, ".." + ext);
    ReplaceDotDotConcat(head, "." + ext);
    ReplaceDotPair(ext);
    assert "." + ext == ['.'] + ext;
    ReplaceDotOther('.', ext);
  }

  /** The URL `get_payload` requests: a plain concatenation, with no
      rewriting of slashes or dots; `ext` defaults to ".json". */
  function PayloadUrl(backend: string, resourceType: string, spaceName: string, subpath: string, shortname: string,
                      ext: string := ".json"): (url: string)
    ensures |backend| <= |url| && url[..|backend|] == backend
    ensures url[|backend|..] == PayloadPath(resourceType, spaceName, subpath, shortname, ext)
    ensures |shortname + ext| < |url| && url[|url| - |shortname + ext|..] == shortname + ext
  {
    var path := PayloadPath(resourceType, spaceName, subpath, shortname, ext);
    var url := backend + path;
    assert url[..|backend|] == backend && url[|backend|..] == path;
    assert url[|url| - |shortname + ext|..] == path[|path| - |shortname + ext|..];
    url
  }

  function PayloadPath(resourceType: string, spaceName: string, subpath: string, shortname: string, ext: string): string
  {
    PayloadHead(resourceType, spaceName) + "/" + subpath + "/" + shortname + ext
  }

  /** Unlike `retrieve_entry`, `get_payload` keeps a doubled slash: a
      subpath ending in `/` leaves "//" in the URL. */
  lemma PayloadUrlKeepsSlashes(backend: string, resourceType: string, spaceName: string, subpath: string,
                               shortname: string, ext: string)
    requires subpath != [] && subpath[|subpath| - 1] == '/'
    ensures !NoDoubleSlash(PayloadUrl(backend, resourceType, spaceName, subpath, shortname, ext))
  {
    var url := PayloadUrl(backend, resourceType, spaceName, subpath, shortname, ext);
    var before := backend + PayloadHead(resourceType, spaceName) + "/" + subpath;
    assert url == before + ("/" + shortname + ext);
    var i := |before| - 1;
    assert url[i] == before[i] == '/';
    assert url[i + 1] == '/';
  }

  /** For plain names (no dot in any component) and a subpath without a
      trailing `/`, the attachment URL of `shortname` with extension `ext`
      is the payload URL of `shortname` with extension "." + ext under the
      subpath `subpath/parentShortname`. */
  lemma AttachmentUrlIsPayloadUrl(backend: string, resourceType: string, spaceName: string, subpath: string,
                                  parentShortname: string, shortname: string, ext: string)
    requires '.' !in resourceType && '.' !in spaceName && '.' !in subpath
    requires '.' !in parentShortname && '.' !in shortname && '.' !in ext
    requires subpath == [] || subpath[|subpath| - 1] != '/'
    ensures AttachmentUrl(backend, resourceType, spaceName, subpath, parentShortname, shortname, ext)
         == PayloadUrl(backend, resourceType, spaceName, subpath + "/" + parentShortname, shortname, "." + ext)
  {
    assert StripTrailingSlashes(subpath) == subpath;
    var h := PayloadHead(resourceType, spaceName);
    var head := h + "/" + subpath + "/" + parentShortname + "/" + shortname;
    assert '.' !in head;
    NoDotDotAroundDot(head, ext);
    ReplaceDotDotNoop(head + "." + ext);
    SegmentsRegroup(h, subpath, parentShortname, shortname, ext);
  }

  /** Regrouping the segments of the two templates. */
  lemma SegmentsRegroup(h: string, s: string, p: string, n: string, e: string)
    ensures h + "/" + s + "/" + p + "/" + n + "." + e == h + "/" + (s + "/" + p) + "/" + n + ("." + e)
  {
  }
}

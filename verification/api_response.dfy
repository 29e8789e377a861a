/** The uniform response bodies of the HTTP API: success, error and
    paginated responses, as JSON values.  Python's `None` is the JSON
    `null`. */
module ApiResponse {
  import opened Common

  datatype Json =
    | JNull
    | JBool(b: bool)
    | JInt(i: int)
    | JStr(s: string)
    | JList(items: seq<Json>)
    | JObject(fields: map<string, Json>)

  /** The field `key` of an object, if it has one. */
  function Get(j: Json, key: string): Option<Json> {
    if j.JObject? && key in j.fields then Some(j.fields[key]) else None
  }

  /** The field `key` if the value is present. */
  function Optional(key: string, value: Json): map<string, Json> {
    if value == JNull then map[] else map[key := value]
  }

  /** `success`: status and message, then `data` and `meta` when given
      (an empty list is given; only `None` is not). */
  function Success(data: Json, message: string, meta: Json): (r: Json)
    ensures r.JObject? && r.fields.Keys <= {"status", "message", "data", "meta"}
    ensures Get(r, "status") == Some(JStr("success"))
    ensures Get(r, "message") == Some(JStr(message))
    ensures Get(r, "data") == if data == JNull then None else Some(data)
    ensures Get(r, "meta") == if meta == JNull then None else Some(meta)
  {
    JObject(map["status" := JStr("success"), "message" := JStr(message)] + Optional("data", data) + Optional("meta", meta))
  }

  /** `error`: the body and the status code, which the body repeats; the
      details appear only when given. */
  function Error(message: string, code: int, details: Json): (r: (Json, int))
    ensures r.1 == code
    ensures Get(r.0, "status") == Some(JStr("error"))
    ensures Get(r.0, "error").Some?
    ensures var e := Get(r.0, "error").value;
      Get(e, "code") == Some(JInt(code)) && Get(e, "message") == Some(JStr(message))
      && Get(e, "details") == if details == JNull then None else Some(details)
  {
    var e := JObject(map["code" := JInt(code), "message" := JStr(message)] + Optional("details", details));
    (JObject(map["status" := JStr("error"), "error" := e]), code)
  }

  /** `(total + per_page - 1) // per_page` when `per_page` is positive,
      else 0; Python's floor division and Dafny's division agree for a
      positive divisor. */
  function TotalPages(total: int, perPage: int): (pages: int)
    ensures perPage <= 0 ==> pages == 0
    ensures perPage > 0 ==> (pages - 1) * perPage < total <= pages * perPage
  {
    if perPage > 0 then
      var q := (total + perPage - 1) / perPage;
      var m := (total + perPage - 1) % perPage;
      assert total + perPage - 1 == q * perPage + m && 0 <= m < perPage;
      assert (q - 1) * perPage == q * perPage - perPage;
      q
    else 0
  }

  /** The page count is the least that holds every record. */
  lemma TotalPagesLeast(total: int, perPage: int, pages: int)
    requires perPage > 0 && total <= pages * perPage
    ensures TotalPages(total, perPage) <= pages
  {
    var t := TotalPages(total, perPage);
    assert (t - 1) * perPage - pages * perPage == (t - 1 - pages) * perPage;
    MulNonneg(t - 1 - pages, perPage);
  }

  lemma MulNonneg(x: int, y: int)
    requires y >= 0
    ensures x >= 0 ==> x * y >= 0
  {
  }

  /** The pagination block of a paginated response. */
  function Pagination(page: int, perPage: int, total: int): (r: Json)
    ensures var pages := TotalPages(total, perPage);
      Get(r, "total_pages") == Some(JInt(pages))
      && Get(r, "has_next") == Some(JBool(page < pages))
      && Get(r, "has_prev") == Some(JBool(page > 1))
      && Get(r, "page") == Some(JInt(page)) && Get(r, "per_page") == Some(JInt(perPage))
      && Get(r, "total") == Some(JInt(total))
  {
    var pages := TotalPages(total, perPage);
    JObject(map["page" := JInt(page), "per_page" := JInt(perPage), "total" := JInt(total),
                "total_pages" := JInt(pages), "has_next" := JBool(page < pages), "has_prev" := JBool(page > 1)])
  }

  /** `paginated`: a success response carrying the data and the message
      unchanged, with the pagination block under `meta`. */
  function Paginated(data: Json, page: int, perPage: int, total: int, message: string): (r: Json)
    ensures Get(r, "status") == Some(JStr("success")) && Get(r, "message") == Some(JStr(message))
    ensures Get(r, "data") == if data == JNull then None else Some(data)
    ensures Get(r, "meta").Some? && Get(Get(r, "meta").value, "pagination") == Some(Pagination(page, perPage, total))
  {
    Success(data, message, JObject(map["pagination" := Pagination(page, perPage, total)]))
  }

  /** `has_next` says that records remain after the current page: pages
      `1..page` hold `page * per_page` records, and there are more. */
  lemma HasNextMeaning(page: int, perPage: int, total: int)
    requires perPage > 0
    ensures page < TotalPages(total, perPage) <==> page * perPage < total
  {
    var t := TotalPages(total, perPage);
    if page < t {
      MulLe(page, t - 1, perPage);
    } else {
      MulLe(t, page, perPage);
    }
  }

  lemma MulLe(a: int, b: int, n: int)
    requires a <= b && n >= 0
    ensures a * n <= b * n
  {
    assert b * n - a * n == (b - a) * n;
    MulNonneg(b - a, n);
  }
}

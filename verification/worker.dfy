/** The slice of the `worker` crate's surface that the redirector builds
    values from: requests (method, URL, headers, body) and errors, plus raw
    readings of what is sent — the `&`- and `=`-separated fields of a form
    body, the query of a URL and the token of a bearer credential. */
module Worker {
  import opened Wrappers
  import opened Strings

  datatype Method = Get | Post

  /** Header names to values; `Headers::set` replaces any earlier value. */
  type Headers = map<string, string>

  /** An outbound request as the code builds it before `Fetch::send`. */
  datatype Request = Request(verb: Method, url: string, headers: Headers, body: Option<string>)

  /** `worker::Error` as far as the redirector produces or forwards it. */
  datatype Error =
    | Message(text: string)        // `worker::Error::from(&str)`
    | Upstream(detail: string)     // whatever a failed `auth` or `clips` call reports
    | ArrayLength(found: nat)      // serde refusing a fixed-size array of another length
    | InvalidUrl(text: string)     // `Url::parse` refusing a string

  /** `Headers::set(name, value)`. */
  function SetHeader(h: Headers, name: string, value: string): (r: Headers)
    ensures r.Keys == h.Keys + {name}
    ensures r[name] == value
    ensures forall n :: n in h && n != name ==> r[n] == h[n]
  {
    h[name := value]
  }

  // ---------------------------------------------------------------------
  // Readings of what is sent

  /** One `key=value` field of a form body; a field without `=` has an
      empty value. This is the raw field: a server would further turn `+`
      into a space and decode `%XX`, which this reading does not do. */
  function DecodeField(field: string): (string, string) {
    match Cut(field, '=')
    case Some(kv) => kv
    case None => (field, "")
  }

  /** An `application/x-www-form-urlencoded` body read as its raw fields. */
  function DecodeForm(body: string): (fields: seq<(string, string)>)
    ensures |fields| == |Split(body, '&')|
  {
    var parts := Split(body, '&');
    seq(|parts|, k requires 0 <= k < |parts| => DecodeField(parts[k]))
  }

  /** The query of a URL: everything after its first `?`, if any. */
  function QueryOf(url: string): (q: Option<string>)
    ensures q.Some? ==> |q.value| < |url|
  {
    match Cut(url, '?')
    case Some(pq) => Some(pq.1)
    case None => None
  }

  /** A URL without its query. */
  function PathOf(url: string): (p: string)
    ensures |p| <= |url|
  {
    match Cut(url, '?')
    case Some(pq) => pq.0
    case None => url
  }

  const BearerScheme: string := "Bearer "

  /** The token carried by an `Authorization` value of the bearer scheme
      (section 2.1 of RFC 6750). */
  function BearerToken(value: string): (t: Option<string>)
    ensures t.Some? ==> |t.value| == |value| - |BearerScheme|
  {
    if |BearerScheme| <= |value| && value[..|BearerScheme|] == BearerScheme
    then Some(value[|BearerScheme|..])
    else None
  }

  /** A body whose pieces between `&` are `parts` reads as their fields. */
  lemma DecodeFormOf(body: string, parts: seq<string>)
    requires Split(body, '&') == parts
    ensures |DecodeForm(body)| == |parts|
    ensures forall k :: 0 <= k < |parts| ==> DecodeForm(body)[k] == DecodeField(parts[k])
  {
  }

  /** A field `key=value` whose key is free of `=` reads back as the pair. */
  lemma DecodeFieldOf(key: string, value: string)
    requires '=' !in key
    ensures DecodeField(key + "=" + value) == (key, value)
  {
    CutAfter(key, value, '=');
  }
}

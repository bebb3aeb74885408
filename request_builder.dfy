/** The web client's request builder: the editable header and query-parameter
    lists, the fallback query-string construction used when the target URL
    does not parse, the header record passed to `fetch`, and the rule for
    attaching a body. The component's state lives in a `Builder` object whose
    setters replace whole lists. */
module RequestBuilder {
  import opened Schema
  import opened Seqs
  import opened Text

  /** A row of either list: `HeaderParam` and `QueryParam` have the same shape. */
  datatype Param = Param(key: string, value: string, id: string)

  /** The `field` argument of the update helpers: `"key"` or `"value"`. */
  datatype Field = KeyField | ValueField

  /** The default header row the list starts with. */
  const DefaultHeader := Param("Content-Type", "application/json", "default-content-type")

  const InvalidJsonMessage := "Invalid JSON. Please check your request body."

  /** `header-${Date.now()}` and `query-${Date.now()}`. */
  function HeaderId(now: nat): string { "header-" + Decimal(now) }
  function QueryId(now: nat): string { "query-" + Decimal(now) }

  /** `[...list, { key: "", value: "", id }]`. */
  function Appended(list: seq<Param>, id: string): (r: seq<Param>)
    ensures |r| == |list| + 1 && r[..|list|] == list
    ensures r[|list|] == Param("", "", id)
  {
    list + [Param("", "", id)]
  }

  /** `{ ...p, [field]: value }`. */
  function SetField(p: Param, field: Field, value: string): (q: Param)
    ensures q.id == p.id
    ensures field == KeyField ==> q.key == value && q.value == p.value
    ensures field == ValueField ==> q.value == value && q.key == p.key
  {
    match field
    case KeyField => p.(key := value)
    case ValueField => p.(value := value)
  }

  /** `list.map(p => p.id === id ? { ...p, [field]: value } : p)`. */
  function Updated(list: seq<Param>, id: string, field: Field, value: string): (r: seq<Param>)
    ensures |r| == |list|
    ensures forall i :: 0 <= i < |list| && list[i].id == id ==> r[i] == SetField(list[i], field, value)
    ensures forall i :: 0 <= i < |list| && list[i].id != id ==> r[i] == list[i]
  {
    if list == [] then []
    else [if list[0].id == id then SetField(list[0], field, value) else list[0]] + Updated(list[1..], id, field, value)
  }

  /** `list.filter(p => p.id !== id)`. */
  function Removed(list: seq<Param>, id: string): (r: seq<Param>)
    ensures |r| <= |list|
    ensures forall i :: 0 <= i < |r| ==> r[i].id != id && r[i] in list
    ensures forall i :: 0 <= i < |list| && list[i].id != id ==> list[i] in r
  {
    Filter(list, (p: Param) => p.id != id)
  }

  /** Removal drops every row with that id and keeps every other row. */
  lemma RemovedEffect(list: seq<Param>, id: string)
    ensures forall i :: 0 <= i < |Removed(list, id)| ==> Removed(list, id)[i].id != id
    ensures forall i :: 0 <= i < |list| && list[i].id != id ==> list[i] in Removed(list, id)
    ensures (forall i :: 0 <= i < |list| ==> list[i].id != id) ==> Removed(list, id) == list
  {
    if forall i :: 0 <= i < |list| ==> list[i].id != id {
      FilterAll(list, (p: Param) => p.id != id);
    }
  }

  /** Removing the id of a freshly added row undoes the addition. */
  lemma RemoveUndoesAdd(list: seq<Param>, id: string)
    requires forall i :: 0 <= i < |list| ==> list[i].id != id
    ensures Removed(Appended(list, id), id) == list
  {
    FilterAppend(list, [Param("", "", id)], (p: Param) => p.id != id);
    FilterAll(list, (p: Param) => p.id != id);
  }

  /** An update keeps every row's id, so it never moves rows in or out of an id. */
  lemma UpdateKeepsIds(list: seq<Param>, id: string, field: Field, value: string)
    ensures forall i :: 0 <= i < |list| ==> Updated(list, id, field, value)[i].id == list[i].id
  {
  }

  /** Updating twice with the same arguments is the same as updating once. */
  lemma UpdateIdempotent(list: seq<Param>, id: string, field: Field, value: string)
    ensures Updated(Updated(list, id, field, value), id, field, value) == Updated(list, id, field, value)
  {
    var once := Updated(list, id, field, value);
    var twice := Updated(once, id, field, value);
    forall i | 0 <= i < |list| ensures twice[i] == once[i] {
      if list[i].id == id {
        assert once[i].id == id;
      }
    }
  }

  /** Updating rows and then removing them by the same id is the same as removing them. */
  lemma {:induction false} UpdateThenRemove(list: seq<Param>, id: string, field: Field, value: string)
    ensures Removed(Updated(list, id, field, value), id) == Removed(list, id)
  {
    if list != [] {
      var u := Updated(list, id, field, value);
      assert u[1..] == Updated(list[1..], id, field, value);
      UpdateThenRemove(list[1..], id, field, value);
    }
  }

  // ------------------------------------------------------------------
  // The fallback URL

  /** `params.filter(p => p.key.trim())`: the parameters whose trimmed key
      is non-blank, in order. */
  function Kept(params: seq<Param>): (r: seq<Param>)
    ensures |r| <= |params|
  {
    if params == [] then []
    else (if IsBlank(params[0].key) then [] else [params[0]]) + Kept(params[1..])
  }

  /** The filter's test: the key is not blank once trimmed. */
  predicate HasKey(p: Param)
  {
    !IsBlank(p.key)
  }

  /** `Kept` is the filter of the parameters by `HasKey`: exactly the
      parameters with a non-blank key, in their order. */
  lemma {:induction false} KeptIsFilter(params: seq<Param>)
    ensures Kept(params) == Filter(params, HasKey)
  {
    if params != [] {
      KeptIsFilter(params[1..]);
    }
  }

  /** Nothing is kept exactly when every key is blank. */
  lemma {:induction false} KeptEmpty(params: seq<Param>)
    ensures Kept(params) == [] <==> forall i :: 0 <= i < |params| ==> IsBlank(params[i].key)
  {
    if params != [] {
      KeptEmpty(params[1..]);
      assert forall i :: 1 <= i < |params| ==> params[i] == params[1..][i - 1];
    }
  }

  /** `${enc(key.trim())}=${enc(value)}` for each parameter, `enc` standing for `encodeURIComponent`. */
  function Pairs(params: seq<Param>, enc: string -> string): (r: seq<string>)
    ensures |r| == |params|
    ensures forall i :: 0 <= i < |params| ==> r[i] == enc(Trim(params[i].key)) + "=" + enc(params[i].value)
  {
    if params == [] then [] else [enc(Trim(params[0].key)) + "=" + enc(params[0].value)] + Pairs(params[1..], enc)
  }

  /** The `catch` branch of `buildFinalUrl`: the URL before its first `?`,
      then `?` and the `&`-joined pairs when there are any. */
  function FallbackUrl(customUrl: string, params: seq<Param>, enc: string -> string): (url: string)
    ensures StartsWith(url, BeforeFirst(customUrl, '?'))
    ensures Kept(params) == [] ==> url == BeforeFirst(customUrl, '?')
  {
    var base := BeforeFirst(customUrl, '?');
    var query := Join("&", Pairs(Kept(params), enc));
    if query != "" then
      var url := base + "?" + query;
      assert url[..|base|] == base;
      url
    else base
  }

  /** The fallback URL is the base alone when no parameter has a non-blank
      key, and the base, `?` and the joined pairs otherwise; since the
      encoder never emits `?`, the result has a `?` exactly when some
      parameter has a non-blank key. */
  lemma FallbackUrlShape(customUrl: string, params: seq<Param>, enc: string -> string)
    requires forall s :: '?' !in enc(s)
    ensures Kept(params) == [] ==> FallbackUrl(customUrl, params, enc) == BeforeFirst(customUrl, '?')
    ensures Kept(params) != [] ==>
      FallbackUrl(customUrl, params, enc) == BeforeFirst(customUrl, '?') + "?" + Join("&", Pairs(Kept(params), enc))
    ensures Kept(params) != [] ==>
      FallbackUrl(customUrl, params, enc) == BeforeFirst(customUrl, '?') + "?" + Join("&", Pairs(Filter(params, HasKey), enc))
    ensures '?' in FallbackUrl(customUrl, params, enc) <==> exists i :: 0 <= i < |params| && !IsBlank(params[i].key)
  {
    var base := BeforeFirst(customUrl, '?');
    var kept := Kept(params);
    var pairs := Pairs(kept, enc);
    var query := Join("&", pairs);
    KeptEmpty(params);
    KeptIsFilter(params);
    if kept != [] {
      assert |pairs[0]| > 0 by {
        assert pairs[0] == enc(Trim(kept[0].key)) + "=" + enc(kept[0].value);
      }
      assert (base + "?" + query)[|base|] == '?';
    }
    assert '?' !in query by {
      forall c | c in query ensures c != '?' {
        if c !in "&" {
          var i :| 0 <= i < |pairs| && c in pairs[i];
          assert pairs[i] == enc(Trim(kept[i].key)) + "=" + enc(kept[i].value);
        }
      }
    }
  }

  /** The URL handed to `fetch`: what the `URL` class builds when the target
      parses (`parsed`), otherwise the fallback. */
  function FinalUrl(parsed: Option<string>, customUrl: string, params: seq<Param>, enc: string -> string): string
  {
    if parsed.Some? then parsed.value else FallbackUrl(customUrl, params, enc)
  }

  /** A target the `URL` class parses is sent as that class renders it;
      any other keeps the text before its first `?` as the URL's start, and
      is that text alone when no parameter has a non-blank key. */
  lemma FinalUrlChoice(parsed: Option<string>, customUrl: string, params: seq<Param>, enc: string -> string)
    ensures parsed.Some? ==> FinalUrl(parsed, customUrl, params, enc) == parsed.value
    ensures parsed.None? ==> StartsWith(FinalUrl(parsed, customUrl, params, enc), BeforeFirst(customUrl, '?'))
    ensures parsed.None? && Kept(params) == [] ==> FinalUrl(parsed, customUrl, params, enc) == BeforeFirst(customUrl, '?')
  {
  }

  // ------------------------------------------------------------------
  // The header record

  /** The key a header row sets: its trimmed key, or none when that is blank. */
  function KeyOf(h: Param): Option<string>
  {
    if IsBlank(h.key) then None else Some(Trim(h.key))
  }

  /** Each row's key (if any) and value, the input of the record's loop. */
  function Rows(headers: seq<Param>): (r: seq<(Option<string>, string)>)
    ensures |r| == |headers|
    ensures forall i :: 0 <= i < |headers| ==> r[i] == (KeyOf(headers[i]), headers[i].value)
  {
    if headers == [] then [] else [(KeyOf(headers[0]), headers[0].value)] + Rows(headers[1..])
  }

  /** The rows of concatenated header lists are the concatenated rows. */
  lemma {:induction false} RowsAppend(a: seq<Param>, b: seq<Param>)
    ensures Rows(a + b) == Rows(a) + Rows(b)
  {
    if a == [] {
      assert a + b == b;
    } else {
      assert (a + b)[1..] == a[1..] + b;
      RowsAppend(a[1..], b);
    }
  }

  /** The record built by setting each present key to its value, first row first. */
  function Record(rows: seq<(Option<string>, string)>): (r: map<string, string>)
    ensures |r| <= |rows|
  {
    if rows == [] then map[]
    else
      var rec := Record(rows[..|rows| - 1]);
      var last := rows[|rows| - 1];
      if last.0.Some? then rec[last.0.value := last.1] else rec
  }

  /** The header record of `sendRequest`. */
  function HeaderRecord(headers: seq<Param>): (r: map<string, string>)
    ensures |r| <= |headers|
  {
    Record(Rows(headers))
  }

  /** A record's keys are exactly the keys its rows set. */
  lemma {:induction false} RecordKeys(rows: seq<(Option<string>, string)>, k: string)
    ensures k in Record(rows) <==> exists i :: 0 <= i < |rows| && rows[i].0 == Some(k)
  {
    if rows != [] {
      var n := |rows| - 1;
      var init := rows[..n];
      RecordKeys(init, k);
      if k in Record(rows) && rows[n].0 != Some(k) {
        var i :| 0 <= i < |init| && init[i].0 == Some(k);
        assert rows[i] == init[i];
      }
      if exists i :: 0 <= i < |rows| && rows[i].0 == Some(k) {
        var i :| 0 <= i < |rows| && rows[i].0 == Some(k);
        if i < n {
          assert init[i] == rows[i];
        }
      }
    }
  }

  /** The last row setting a key decides its value. */
  lemma {:induction false} RecordLastWins(rows: seq<(Option<string>, string)>, i: nat, k: string)
    requires i < |rows| && rows[i].0 == Some(k)
    requires forall j :: i < j < |rows| ==> rows[j].0 != Some(k)
    ensures k in Record(rows) && Record(rows)[k] == rows[i].1
  {
    var n := |rows| - 1;
    var init := rows[..n];
    if i < n {
      assert init[i] == rows[i];
      forall j | i < j < |init| ensures init[j].0 != Some(k) {
        assert init[j] == rows[j];
      }
      RecordLastWins(init, i, k);
    }
  }

  /** The header record's keys are exactly the trimmed non-blank keys of the rows. */
  lemma HeaderRecordKeys(headers: seq<Param>, k: string)
    ensures k in HeaderRecord(headers) <==> exists i :: 0 <= i < |headers| && KeyOf(headers[i]) == Some(k)
  {
    var rows := Rows(headers);
    RecordKeys(rows, k);
    if exists i :: 0 <= i < |headers| && KeyOf(headers[i]) == Some(k) {
      var i :| 0 <= i < |headers| && KeyOf(headers[i]) == Some(k);
      assert rows[i].0 == Some(k);
    }
  }

  /** A key in the header record is non-empty and has no surrounding whitespace. */
  lemma HeaderRecordKeysTrimmed(headers: seq<Param>, k: string)
    requires k in HeaderRecord(headers)
    ensures k != "" && !IsSpace(k[0]) && !IsSpace(k[|k| - 1])
  {
    HeaderRecordKeys(headers, k);
    var i :| 0 <= i < |headers| && KeyOf(headers[i]) == Some(k);
    var key := headers[i].key;
    assert !IsBlank(key) && k == Trim(key);
    TrimFacts(key);
  }

  /** The header row that sets a trimmed key last decides its value: an
      earlier duplicate is overwritten. */
  lemma HeaderRecordLastWins(headers: seq<Param>, i: nat, k: string)
    requires i < |headers| && KeyOf(headers[i]) == Some(k)
    requires forall j :: i < j < |headers| ==> KeyOf(headers[j]) != Some(k)
    ensures k in HeaderRecord(headers) && HeaderRecord(headers)[k] == headers[i].value
  {
    var rows := Rows(headers);
    forall j | i < j < |rows| ensures rows[j].0 != Some(k) {
      assert rows[j].0 == KeyOf(headers[j]);
    }
    RecordLastWins(rows, i, k);
  }

  /** One more header row extends the record as the loop body does. */
  lemma RecordStep(headers: seq<Param>, i: nat)
    requires i < |headers|
    ensures var key := KeyOf(headers[i]);
      Record(Rows(headers[..i + 1]))
        == if key.Some? then Record(Rows(headers[..i]))[key.value := headers[i].value] else Record(Rows(headers[..i]))
  {
    assert headers[..i + 1] == headers[..i] + [headers[i]];
    RowsAppend(headers[..i], [headers[i]]);
    assert Rows(headers[..i + 1])[..i] == Rows(headers[..i]);
  }

  /** The `forEach` loop of `sendRequest` that fills `headerRecord`. */
  method BuildHeaderRecord(headers: seq<Param>) returns (record: map<string, string>)
    ensures record == HeaderRecord(headers)
  {
    record := map[];
    for i := 0 to |headers|
      invariant record == Record(Rows(headers[..i]))
    {
      RecordStep(headers, i);
      var h := headers[i];
      if !IsBlank(h.key) {
        record := record[Trim(h.key) := h.value];
      }
    }
    assert headers[..|headers|] == headers;
  }

  // ------------------------------------------------------------------
  // The body and the send

  /** What `sendRequest` does about the body: none, the editor text, or abort. */
  datatype BodyPlan = NoBody | Attach(text: string) | InvalidJson

  /** The body rule; `validJson` stands for whether `JSON.parse` accepts the text. */
  function PrepareBody(verb: string, text: string, validJson: string -> bool): (plan: BodyPlan)
    ensures plan.Attach? <==> verb != "GET" && verb != "DELETE" && text != "" && validJson(text)
    ensures plan.Attach? ==> plan.text == text
    ensures plan.InvalidJson? <==> verb != "GET" && verb != "DELETE" && text != "" && !validJson(text)
  {
    if verb != "GET" && verb != "DELETE" && text != "" then
      (if validJson(text) then Attach(text) else InvalidJson)
    else NoBody
  }

  /** The request handed to `fetch`. */
  datatype Outgoing = Outgoing(url: string, verb: string, headers: map<string, string>, body: Option<string>)

  /** What `fetch` gave back: a response with a status, or a thrown error. */
  datatype Reply = Responded(code: nat) | Threw(message: string)

  /** The status line the component shows. */
  datatype Status = Status(success: bool, message: string)

  /** The status shown after `fetch` settles; `response.ok` is a 2xx status. */
  function ReplyStatus(reply: Reply): (s: Status)
    ensures s.success <==> reply.Responded? && 200 <= reply.code <= 299
  {
    match reply
    case Responded(code) =>
      if 200 <= code <= 299 then Status(true, "Request sent successfully! Status: " + Decimal(code))
      else Status(false, "Request failed with status: " + Decimal(code))
    case Threw(message) => Status(false, "Error sending request: " + message)
  }

  /** The component state the request builder changes through its setters. */
  class Builder {
    var verb: string
    var customUrl: string
    var headers: seq<Param>
    var queryParams: seq<Param>
    var status: Option<Status>
    var isSending: bool

    /** The initial state for an endpoint whose URL is `url`. */
    constructor (url: string)
      ensures verb == "POST" && customUrl == url
      ensures headers == [DefaultHeader] && queryParams == []
      ensures status == None && !isSending
    {
      verb, customUrl := "POST", url;
      headers, queryParams := [DefaultHeader], [];
      status, isSending := None, false;
    }

    method AddHeader(now: nat)
      modifies this
      ensures headers == Appended(old(headers), HeaderId(now))
      ensures queryParams == old(queryParams) && verb == old(verb) && customUrl == old(customUrl)
      ensures status == old(status) && isSending == old(isSending)
    {
      headers := Appended(headers, HeaderId(now));
    }

    method UpdateHeader(id: string, field: Field, value: string)
      modifies this
      ensures headers == Updated(old(headers), id, field, value)
      ensures queryParams == old(queryParams) && verb == old(verb) && customUrl == old(customUrl)
      ensures status == old(status) && isSending == old(isSending)
    {
      headers := Updated(headers, id, field, value);
    }

    method RemoveHeader(id: string)
      modifies this
      ensures headers == Removed(old(headers), id)
      ensures queryParams == old(queryParams) && verb == old(verb) && customUrl == old(customUrl)
      ensures status == old(status) && isSending == old(isSending)
    {
      headers := Removed(headers, id);
    }

    method AddQueryParam(now: nat)
      modifies this
      ensures queryParams == Appended(old(queryParams), QueryId(now))
      ensures headers == old(headers) && verb == old(verb) && customUrl == old(customUrl)
      ensures status == old(status) && isSending == old(isSending)
    {
      queryParams := Appended(queryParams, QueryId(now));
    }

    method UpdateQueryParam(id: string, field: Field, value: string)
      modifies this
      ensures queryParams == Updated(old(queryParams), id, field, value)
      ensures headers == old(headers) && verb == old(verb) && customUrl == old(customUrl)
      ensures status == old(status) && isSending == old(isSending)
    {
      queryParams := Updated(queryParams, id, field, value);
    }

    method RemoveQueryParam(id: string)
      modifies this
      ensures queryParams == Removed(old(queryParams), id)
      ensures headers == old(headers) && verb == old(verb) && customUrl == old(customUrl)
      ensures status == old(status) && isSending == old(isSending)
    {
      queryParams := Removed(queryParams, id);
    }

    /** `sendRequest`: build the URL, the header record and the body, then
        either abort on invalid JSON without sending, or send once and show
        the status the reply gives. `text` is the editor's value, `parsed`
        the URL class's result, `enc` the URI encoder, `validJson` whether
        `JSON.parse` succeeds, and `reply` what `fetch` gives back. */
    method SendRequest(text: string, parsed: Option<string>, enc: string -> string,
                       validJson: string -> bool, reply: Reply) returns (sent: Option<Outgoing>)
      modifies this
      ensures headers == old(headers) && queryParams == old(queryParams)
      ensures verb == old(verb) && customUrl == old(customUrl)
      ensures !isSending
      ensures PrepareBody(verb, text, validJson).InvalidJson? ==>
        sent == None && status == Some(Status(false, InvalidJsonMessage))
      ensures !PrepareBody(verb, text, validJson).InvalidJson? ==>
        && sent.Some?
        && sent.value.url == FinalUrl(parsed, customUrl, queryParams, enc)
        && sent.value.verb == verb
        && sent.value.headers == HeaderRecord(headers)
        && sent.value.body == (if PrepareBody(verb, text, validJson).Attach? then Some(text) else None)
        && status == Some(ReplyStatus(reply))
    {
      isSending := true;
      status := None;
      var url := FinalUrl(parsed, customUrl, queryParams, enc);
      var record := BuildHeaderRecord(headers);
      match PrepareBody(verb, text, validJson) {
        case InvalidJson =>
          sent := None;
          status := Some(Status(false, InvalidJsonMessage));
        case Attach(t) =>
          sent := Some(Outgoing(url, verb, record, Some(t)));
          status := Some(ReplyStatus(reply));
        case NoBody =>
          sent := Some(Outgoing(url, verb, record, None));
          status := Some(ReplyStatus(reply));
      }
      isSending := false;
    }
  }
}

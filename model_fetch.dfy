/** The "获取模型" (fetch models) button of the admin page: which URL is asked
    for a service's list, and how the returned JSON becomes a list of names.
    The request itself is outside the model: its outcome is the parameter
    `response`. */
module ModelFetch {
  import opened Optional
  import opened AdminConfig

  /** A JSON value as `r.json()` yields it. Numbers are integers here. */
  datatype Json = JNull | JBool(b: bool) | JNumber(n: int) | JString(s: string) | JArray(elems: seq<Json>) | JObject(fields: map<string, Json>)

  /** What `fetch(url)` and `r.json()` lead to: a thrown error (network failure, a body
      that is not JSON), or the parsed body, whatever the HTTP status. */
  datatype Response = Failed | Received(body: Json)

  /** `appConfig.dev`: the endpoint overrides, the empty string standing for a missing
      or empty setting. */
  datatype DevConfig = DevConfig(modelsEndpoint: string, asrModelsEndpoint: string,
                                 ttsVoicesEndpoint: string, voiceModelsEndpoint: string)

  const DefaultModelsEndpoint: string := "/models"

  /** `v?.name`: `None` is `undefined`. Only objects have the members read here. */
  function Member(v: Json, name: string): Option<Json> {
    if v.JObject? && name in v.fields then Some(v.fields[name]) else None
  }

  /** JavaScript truthiness; `None` is `undefined`. */
  predicate Truthy(v: Option<Json>) {
    match v
    case None => false
    case Some(j) =>
      match j
      case JNull => false
      case JBool(b) => b
      case JNumber(n) => n != 0
      case JString(s) => s != []
      case JArray(_) => true
      case JObject(_) => true
  }

  /** `a || b` on two member reads. */
  function Or(a: Option<Json>, b: Option<Json>): Option<Json> {
    if Truthy(a) then a else b
  }

  /** `x.id || x.name`, kept when it is a non-empty string. */
  function IdOf(x: Json): Option<string> {
    match Or(Member(x, "id"), Member(x, "name"))
    case Some(JString(s)) => if s != [] then Some(s) else None
    case _ => None
  }

  /** `data.map((x) => x.id || x.name).filter(Boolean)` on an array without `null`. */
  function IdsOf(xs: seq<Json>): (ids: seq<string>)
    ensures |ids| <= |xs|
    ensures forall s :: s in ids ==> s != []
  {
    if xs == [] then []
    else
      var rest := IdsOf(xs[1..]);
      match IdOf(xs[0])
      case Some(s) => [s] + rest
      case None => rest
  }

  /** `x.id || x.name` keeps `s` exactly when the id is the non-empty string `s`, or the
      id is falsy (missing, `null`, `false`, `0`, `""`) and the name is the non-empty
      string `s`. A truthy id that is not a string hides the name. */
  lemma IdOfSpec(x: Json, s: string)
    ensures IdOf(x) == Some(s) <==>
      s != [] && (Member(x, "id") == Some(JString(s))
                  || (!Truthy(Member(x, "id")) && Member(x, "name") == Some(JString(s))))
  {
  }

  /** The names of two arrays one after the other are the names of each, in order. */
  lemma {:induction false} IdsOfConcat(a: seq<Json>, b: seq<Json>)
    ensures IdsOf(a + b) == IdsOf(a) + IdsOf(b)
  {
    if a != [] {
      assert (a + b)[1..] == a[1..] + b;
      assert (a + b)[0] == a[0];
      IdsOfConcat(a[1..], b);
      match IdOf(a[0])
      case Some(n) =>
        assert IdsOf(a + b) == [n] + IdsOf(a[1..] + b);
      case None =>
        assert IdsOf(a + b) == IdsOf(a[1..] + b);
    } else {
      assert a + b == b;
    }
  }

  /** A name is listed exactly when some element yields it. */
  lemma {:induction false} IdsOfMembers(xs: seq<Json>, s: string)
    ensures s in IdsOf(xs) <==> exists x :: x in xs && IdOf(x) == Some(s)
  {
    if xs != [] {
      IdsOfMembers(xs[1..], s);
      assert forall x :: x in xs <==> x == xs[0] || x in xs[1..];
    }
  }

  /** The string elements of an array. */
  function StringsOf(v: Json): seq<string> {
    if v.JArray? then StringElements(v.elems) else []
  }

  function StringElements(xs: seq<Json>): (r: seq<string>)
    ensures |r| <= |xs|
  {
    if xs == [] then []
    else if xs[0].JString? then [xs[0].s] + StringElements(xs[1..])
    else StringElements(xs[1..])
  }

  /** `fetchList(url)` once the request has produced `response`. */
  function FetchList(url: string, response: Response): seq<string> {
    if url == [] then []
    else match response
      case Failed => []
      case Received(j) =>
        match Member(j, "data")
        case Some(JArray(xs)) =>
          // `x.id` on a `null` element throws, and the `catch` answers `[]`
          if JNull in xs then [] else IdsOf(xs)
        case _ =>
          var v := Or(Member(j, "items"), Member(j, "models"));
          if Truthy(v) then StringsOf(v.value) else []
  }

  /** The endpoint of a service's list: `/models` unless configured for the LLM, nothing
      unless configured for the others. */
  function Endpoint(serviceKey: string, dev: DevConfig): string
    requires IsListKey(serviceKey)
  {
    if serviceKey == LlmKey then (if dev.modelsEndpoint == [] then DefaultModelsEndpoint else dev.modelsEndpoint)
    else if serviceKey == AsrKey then dev.asrModelsEndpoint
    else if serviceKey == TtsKey then dev.ttsVoicesEndpoint
    else dev.voiceModelsEndpoint
  }

  /** The URL `doFetchFor` passes to `fetchList`. */
  function ListUrl(serviceKey: string, base: string, dev: DevConfig): string
    requires IsListKey(serviceKey)
  {
    if serviceKey == LlmKey || Endpoint(serviceKey, dev) != [] then base + Endpoint(serviceKey, dev) else []
  }

  /** The LLM list is always asked for, at the base followed by `/models` by default;
      the other services are asked only when their endpoint is configured. */
  lemma ListUrlCases(serviceKey: string, base: string, dev: DevConfig)
    requires IsListKey(serviceKey)
    ensures serviceKey == LlmKey && dev.modelsEndpoint == [] ==> ListUrl(serviceKey, base, dev) == base + "/models"
    ensures serviceKey == LlmKey && base != [] ==> ListUrl(serviceKey, base, dev) != []
    ensures serviceKey != LlmKey ==> (ListUrl(serviceKey, base, dev) == [] <==> Endpoint(serviceKey, dev) == [])
    ensures ListUrl(serviceKey, base, dev) != [] ==> ListUrl(serviceKey, base, dev) == base + Endpoint(serviceKey, dev)
  {
  }

  /** A service without a configured endpoint never gets a list, whatever a server would
      answer. */
  lemma UnconfiguredFetchesNothing(serviceKey: string, base: string, dev: DevConfig, response: Response)
    requires IsListKey(serviceKey) && serviceKey != LlmKey && Endpoint(serviceKey, dev) == []
    ensures FetchList(ListUrl(serviceKey, base, dev), response) == []
  {
  }

  /** The error paths of `fetchList`: no URL, a failed request, and a `null` element in
      `data` all give the empty list; names taken from `data` are never empty. */
  lemma FetchListCases(url: string, response: Response)
    ensures url == [] ==> FetchList(url, response) == []
    ensures response.Failed? ==> FetchList(url, response) == []
    ensures response.Received? && Member(response.body, "data").Some? && Member(response.body, "data").value.JArray? ==>
      (JNull in Member(response.body, "data").value.elems ==> FetchList(url, response) == []) &&
      forall s :: s in FetchList(url, response) ==> s != []
  {
  }

  /** Any answer whose `data` is an array without `null` yields the names of its
      elements, whatever else the answer holds. */
  lemma FetchDataArray(url: string, body: Json, xs: seq<Json>)
    requires url != [] && Member(body, "data") == Some(JArray(xs)) && JNull !in xs
    ensures FetchList(url, Received(body)) == IdsOf(xs)
  {
  }

  /** Any answer without a `data` array yields the strings of `items`, or of `models`
      when `items` is falsy; `items` wins whenever it is truthy, even as an empty array. */
  lemma FetchItemsOrModels(url: string, body: Json)
    requires url != [] && !(Member(body, "data").Some? && Member(body, "data").value.JArray?)
    ensures Truthy(Member(body, "items")) ==> FetchList(url, Received(body)) == StringsOf(Member(body, "items").value)
    ensures !Truthy(Member(body, "items")) && Truthy(Member(body, "models")) ==>
      FetchList(url, Received(body)) == StringsOf(Member(body, "models").value)
    ensures !Truthy(Member(body, "items")) && !Truthy(Member(body, "models")) ==> FetchList(url, Received(body)) == []
  {
  }

  /** An empty `items` array is truthy, so it hides a non-empty `models` list. */
  lemma EmptyItemsHideModels(url: string, names: seq<string>)
    requires url != []
    ensures FetchList(url, Received(JObject(map["items" := JArray([]), "models" := JArray(JStrings(names))]))) == []
  {
    var body := JObject(map["items" := JArray([]), "models" := JArray(JStrings(names))]);
    assert Member(body, "data") == None;
    assert Member(body, "items") == Some(JArray([]));
  }

  /** `{ id }` objects, as an OpenAI-style `/models` answer lists them. */
  function IdObjects(ids: seq<string>): (xs: seq<Json>)
    ensures |xs| == |ids|
    ensures forall k :: 0 <= k < |ids| ==> xs[k] == JObject(map["id" := JString(ids[k])])
  {
    seq(|ids|, k requires 0 <= k < |ids| => JObject(map["id" := JString(ids[k])]))
  }

  lemma {:induction false} IdsOfIdObjects(ids: seq<string>)
    requires forall s :: s in ids ==> s != []
    ensures IdsOf(IdObjects(ids)) == ids
  {
    if ids != [] {
      assert forall s :: s in ids[1..] ==> s in ids;
      IdsOfIdObjects(ids[1..]);
      assert IdObjects(ids)[1..] == IdObjects(ids[1..]);
      assert ids[0] in ids;
      assert IdOf(IdObjects(ids)[0]) == Some(ids[0]);
    }
  }

  /** An answer `{ data: [{ id }, ...] }` yields exactly its ids, in order. */
  lemma FetchOpenAiShape(url: string, ids: seq<string>)
    requires url != []
    requires forall s :: s in ids ==> s != []
    ensures FetchList(url, Received(JObject(map["data" := JArray(IdObjects(ids))]))) == ids
  {
    var xs := IdObjects(ids);
    assert JNull !in xs;
    IdsOfIdObjects(ids);
  }

  /** Strings as JSON strings. */
  function JStrings(names: seq<string>): (xs: seq<Json>)
    ensures |xs| == |names|
    ensures forall k :: 0 <= k < |names| ==> xs[k] == JString(names[k])
  {
    seq(|names|, k requires 0 <= k < |names| => JString(names[k]))
  }

  lemma {:induction false} StringElementsOfStrings(names: seq<string>)
    ensures StringElements(JStrings(names)) == names
  {
    if names != [] {
      StringElementsOfStrings(names[1..]);
      assert JStrings(names)[1..] == JStrings(names[1..]);
    }
  }

  /** An answer `{ items: [...] }` yields exactly its strings, in order, just as
      `{ models: [...] }` does when there are no `items`. */
  lemma FetchItemsShape(url: string, names: seq<string>)
    requires url != []
    ensures FetchList(url, Received(JObject(map["items" := JArray(JStrings(names))]))) == names
    ensures FetchList(url, Received(JObject(map["models" := JArray(JStrings(names))]))) == names
  {
    StringElementsOfStrings(names);
  }
}

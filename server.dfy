/**
 * The local development server's `/api/gemini` route (server.js): the same
 * history conversion as the serverless proxy but guarded only by a truthy
 * history with a positive `length`, and a response built from the upstream
 * reply. The request body, the upstream call and `JSON.stringify` are inputs.
 */
module LocalServer {
  import opened Js
  import opened Types
  import opened GeminiProxy

  /** `v > 0` for the value of a `length` property; a string would be converted to a number first, which is not modelled. */
  predicate PositiveNumber(v: Option<Json>) {
    match v
    case Some(JNumber(n)) => n > 0
    case Some(JBool(b)) => b
    case _ => false
  }

  /** `history && history.length > 0`: arrays and strings by their length, objects by a `length` field. */
  predicate LongHistory(history: Option<Json>) {
    Truthy(history) &&
    match history.value
    case JArray(items) => |items| > 0
    case JString(s) => |s| > 0
    case JObject(_) => PositiveNumber(Field(history, "length"))
    case _ => false
  }

  /**
   * The route's `contents`: the mapped history then the prompt turn, or the
   * prompt turn alone; nothing when `history.map` throws, which it does for
   * anything but an array and for an array holding null.
   */
  function ServerContents(history: Option<Json>, prompt: Option<Json>): (r: Option<seq<Turn>>)
    ensures r.None? <==> LongHistory(history) && (!history.value.JArray? || JNull in history.value.items)
    ensures r.Some? ==> |r.value| > 0 && r.value[|r.value| - 1] == Turn(User, prompt)
  {
    if LongHistory(history) then
      if history.value.JArray? then
        match MapTurns(history.value.items)
        case None => None
        case Some(turns) => Some(turns + [Turn(User, prompt)])
      else None
    else Some([Turn(User, prompt)])
  }

  /** For an array history, or one that fails the guard, the route sends what the serverless proxy sends. */
  lemma AgreesWithProxy(history: Option<Json>, prompt: Option<Json>)
    requires !LongHistory(history) || history.value.JArray?
    ensures ServerContents(history, prompt) == Contents(history, prompt)
  {
  }

  /** A non-empty string history throws here, where the serverless proxy ignores it and sends the prompt alone. */
  lemma StringHistoryDiverges(s: string, prompt: Option<Json>)
    requires s != ""
    ensures ServerContents(Some(JString(s)), prompt).None?
    ensures Contents(Some(JString(s)), prompt) == Some([Turn(User, prompt)])
  {
  }

  /**
   * The response built from the upstream outcome: a thrown call is a 500
   * with its message, a failed answer a 500 carrying the stringified body,
   * a successful one the reply text (with the default status 200).
   */
  function RouteFromUpstream(u: Upstream, stringify: Json -> string): (r: Response)
    ensures r.status == 200 || r.status == 500
    ensures r.status == 200 <==> u.Answered? && u.ok && u.data.Some? && u.data.value != JNull
    ensures r.status == 200 ==> r.body == TextBody(ReplyText(u.data.value))
    ensures u.Answered? && !u.ok && u.data.Some? ==> r == Response(500, ErrorBody(Some(stringify(u.data.value))))
  {
    match u
    case NetworkError(message) => Response(500, ErrorBody(Some(message)))
    case Answered(ok, data) =>
      if data.None? then Response(500, ErrorBody(None))
      else if !ok then Response(500, ErrorBody(Some(stringify(data.value))))
      else if data.value == JNull then Response(500, ErrorBody(None))
      else Response(200, TextBody(ReplyText(data.value)))
  }

  /** Both back ends succeed on the same upstream outcomes and then return the same text. */
  lemma SameSuccessAsProxy(u: Upstream, stringify: Json -> string, toText: Json -> string)
    ensures RouteFromUpstream(u, stringify).status == 200 <==> FromUpstream(u, toText).status == 200
    ensures RouteFromUpstream(u, stringify).status == 200 ==> RouteFromUpstream(u, stringify) == FromUpstream(u, toText)
  {
  }

  /** `prompt?.substring(0, 15)` in the log line throws for a prompt that is neither absent, null nor a string. */
  predicate LogThrows(prompt: Option<Json>) {
    prompt.Some? && prompt.value != JNull && !prompt.value.JString?
  }

  /**
   * The route: read the prompt and history, log (which throws on a prompt of
   * the wrong type), build the contents, call upstream and answer; anything
   * thrown becomes a 500.
   */
  method Route(body: Json, fetch: seq<Turn> -> Upstream, stringify: Json -> string) returns (r: Response)
    ensures body == JNull ==> r == Response(500, ErrorBody(None))
    ensures body != JNull && LogThrows(Field(Some(body), "prompt")) ==> r == Response(500, ErrorBody(None))
    ensures body != JNull && !LogThrows(Field(Some(body), "prompt")) ==>
      var c := ServerContents(Field(Some(body), "history"), Field(Some(body), "prompt"));
      && (c.None? ==> r == Response(500, ErrorBody(None)))
      && (c.Some? ==> r == RouteFromUpstream(fetch(c.value), stringify))
    ensures r.status == 200 || r.status == 500
  {
    if body == JNull {
      return Response(500, ErrorBody(None));
    }
    var prompt, history := Field(Some(body), "prompt"), Field(Some(body), "history");
    if LogThrows(prompt) {
      return Response(500, ErrorBody(None));
    }
    var contents: seq<Turn> := [];
    if LongHistory(history) {
      if !history.value.JArray? {
        return Response(500, ErrorBody(None));
      }
      var mapped := MapTurns(history.value.items);
      if mapped.None? {
        return Response(500, ErrorBody(None));
      }
      contents := mapped.value;
      contents := contents + [Turn(User, prompt)];
    } else {
      contents := contents + [Turn(User, prompt)];
      assert contents == [Turn(User, prompt)];
    }
    assert ServerContents(history, prompt) == Some(contents);
    r := RouteFromUpstream(fetch(contents), stringify);
  }
}

/**
 * The serverless proxy to the model (api/gemini.js): the dispatch on the
 * HTTP method, the API-key check, the conversion of the chat history into
 * the `contents` payload, and the response built from the upstream reply.
 * The environment, the request body, the upstream call and the conversion
 * of a thrown value to its message are inputs.
 */
module GeminiProxy {
  import opened Js
  import opened Types

  // ---------------------------------------------------------------------------
  // Property access on JSON values
  // ---------------------------------------------------------------------------

  /** `v.key` (or `v?.key`) where `v` does not throw: an object's field, `undefined` (None) otherwise. */
  function Field(v: Option<Json>, key: string): (r: Option<Json>)
    ensures r.Some? ==> v.Some? && v.value.JObject? && key in v.value.fields
  {
    if v.Some? && v.value.JObject? && key in v.value.fields then Some(v.value.fields[key]) else None
  }

  /** `v?.[0]`: an array's first element, an object's field "0", a string's first code point, else `undefined`. */
  function First(v: Option<Json>): Option<Json> {
    match v
    case Some(JArray(items)) => if |items| > 0 then Some(items[0]) else None
    case Some(JObject(fields)) => if "0" in fields then Some(fields["0"]) else None
    case Some(JString(s)) => if |s| > 0 then Some(JString(s[..1])) else None
    case _ => None
  }

  // ---------------------------------------------------------------------------
  // The contents payload
  // ---------------------------------------------------------------------------

  /** One entry of `contents`: a role and the text of its single part (None when it is `undefined`). */
  datatype Turn = Turn(role: Role, text: Option<Json>)

  /** `msg.parts?.[0]?.text`. */
  function PartText(msg: Json): Option<Json> {
    Field(First(Field(Some(msg), "parts")), "text")
  }

  /** `msg.parts?.[0]?.text || msg.text || ""`. */
  function TurnText(msg: Json): (r: Option<Json>)
    ensures Truthy(r) || r == Some(JString(""))
    ensures Truthy(PartText(msg)) ==> r == PartText(msg)
    ensures !Truthy(PartText(msg)) && Truthy(Field(Some(msg), "text")) ==> r == Field(Some(msg), "text")
  {
    var fromParts := PartText(msg);
    if Truthy(fromParts) then fromParts
    else
      var fromText := Field(Some(msg), "text");
      if Truthy(fromText) then fromText else Some(JString(""))
  }

  /** `msg.role === 'model' ? 'model' : 'user'`. */
  function TurnRole(msg: Json): (r: Role)
    ensures r == Model <==> Field(Some(msg), "role") == Some(JString("model"))
  {
    if Field(Some(msg), "role") == Some(JString("model")) then Model else User
  }

  /** The history entry mapped to a turn; reading `msg.role` of a null entry throws, so null has none. */
  function ToTurn(msg: Json): (r: Option<Turn>)
    ensures r.None? <==> msg == JNull
    ensures r.Some? ==> r.value.role == TurnRole(msg) && r.value.text == TurnText(msg)
  {
    if msg == JNull then None else Some(Turn(TurnRole(msg), TurnText(msg)))
  }

  /** `history.map(...)`: every entry mapped, or nothing when some entry throws. */
  function MapTurns(items: seq<Json>): (r: Option<seq<Turn>>)
    ensures r.None? <==> JNull in items
    ensures r.Some? ==> |r.value| == |items| && forall i :: 0 <= i < |items| ==> ToTurn(items[i]) == Some(r.value[i])
    decreases |items|
  {
    if items == [] then Some([])
    else
      assert items == [items[0]] + items[1..];
      var head, rest := ToTurn(items[0]), MapTurns(items[1..]);
      if head.None? || rest.None? then None else Some([head.value] + rest.value)
  }

  /** `history && Array.isArray(history) && history.length > 0`. */
  predicate HasHistory(history: Option<Json>) {
    Truthy(history) && history.value.JArray? && |history.value.items| > 0
  }

  /**
   * The `contents` the handler sends: the mapped history followed by the
   * prompt as a user turn, or the prompt turn alone without a non-empty
   * history array; nothing when mapping the history throws.
   */
  function Contents(history: Option<Json>, prompt: Option<Json>): (r: Option<seq<Turn>>)
    ensures r.None? <==> HasHistory(history) && JNull in history.value.items
    ensures r.Some? ==> |r.value| > 0 && r.value[|r.value| - 1] == Turn(User, prompt)
  {
    if HasHistory(history) then
      match MapTurns(history.value.items)
      case None => None
      case Some(turns) => Some(turns + [Turn(User, prompt)])
    else Some([Turn(User, prompt)])
  }

  /** With a non-empty history array free of nulls: one turn per entry, in order, then the prompt. */
  lemma ContentsWithHistory(items: seq<Json>, prompt: Option<Json>)
    requires |items| > 0 && JNull !in items
    ensures var c := Contents(Some(JArray(items)), prompt);
      && c.Some? && |c.value| == |items| + 1
      && c.value[|items|] == Turn(User, prompt)
      && forall i :: 0 <= i < |items| ==> ToTurn(items[i]) == Some(c.value[i])
  {
  }

  /** Without a non-empty history array the payload is the prompt turn alone, whatever else came. */
  lemma ContentsWithoutHistory(history: Option<Json>, prompt: Option<Json>)
    requires !HasHistory(history)
    ensures Contents(history, prompt) == Some([Turn(User, prompt)])
  {
  }

  /** A null entry in the history makes the conversion throw. */
  lemma NullEntryThrows(items: seq<Json>, prompt: Option<Json>)
    requires JNull in items
    ensures Contents(Some(JArray(items)), prompt).None?
  {
  }

  /** A chat message as the client sends it: `{ role, parts: [{ text }] }`. */
  function MessageJson(role: Role, text: string): Json {
    JObject(map[
      "role" := JString(if role == Model then "model" else "user"),
      "parts" := JArray([JObject(map["text" := JString(text)])])])
  }

  /** A message in the client's shape becomes the turn it describes: same role, same text, even when empty. */
  lemma MessageRoundTrip(role: Role, text: string)
    ensures ToTurn(MessageJson(role, text)) == Some(Turn(role, Some(JString(text))))
  {
    var msg := MessageJson(role, text);
    assert Field(Some(msg), "role") == Some(JString(if role == Model then "model" else "user"));
    assert First(Field(Some(msg), "parts")) == Some(JObject(map["text" := JString(text)]));
    assert PartText(msg) == Some(JString(text));
    if role == User {
      assert "user"[0] != "model"[0];
    }
    if text == "" {
      assert Field(Some(msg), "text") == None;
    }
  }

  /** A conversation in the client's shape is forwarded turn by turn, then the prompt. */
  lemma {:induction false} ConversationRoundTrip(roles: seq<Role>, texts: seq<string>, prompt: Option<Json>)
    requires |roles| == |texts| > 0
    ensures var items := seq(|roles|, i requires 0 <= i < |roles| => MessageJson(roles[i], texts[i]));
      Contents(Some(JArray(items)), prompt)
        == Some(seq(|roles|, i requires 0 <= i < |roles| => Turn(roles[i], Some(JString(texts[i])))) + [Turn(User, prompt)])
  {
    var items := seq(|roles|, i requires 0 <= i < |roles| => MessageJson(roles[i], texts[i]));
    var turns := seq(|roles|, i requires 0 <= i < |roles| => Turn(roles[i], Some(JString(texts[i]))));
    forall i | 0 <= i < |items| ensures ToTurn(items[i]) == Some(turns[i]) {
      MessageRoundTrip(roles[i], texts[i]);
    }
    assert JNull !in items by {
      forall i | 0 <= i < |items| ensures items[i] != JNull {
        assert items[i].JObject?;
      }
    }
    var c := MapTurns(items).value;
    assert c == turns;
  }

  // ---------------------------------------------------------------------------
  // The handler
  // ---------------------------------------------------------------------------

  /** What the upstream call gives: it threw with a message, or it answered with an `ok` flag and a body (None: not JSON). */
  datatype Upstream = NetworkError(message: string) | Answered(ok: bool, data: Option<Json>)

  /** The body of a response: empty, the reply text, or an error whose message is None when the runtime writes it. */
  datatype Body = NoBody | TextBody(text: Option<Json>) | ErrorBody(message: Option<string>)

  datatype Response = Response(status: int, body: Body)

  /** `process.env.GOOGLE_API_KEY || process.env.VITE_GOOGLE_API_KEY`, None when neither is set to a non-empty value. */
  function ApiKey(googleKey: Option<string>, viteKey: Option<string>): (r: Option<string>)
    ensures r.Some? ==> r.value != "" && (r == googleKey || r == viteKey)
    ensures r.None? <==> (googleKey.None? || googleKey.value == "") && (viteKey.None? || viteKey.value == "")
  {
    if googleKey.Some? && googleKey.value != "" then googleKey
    else if viteKey.Some? && viteKey.value != "" then viteKey
    else None
  }

  /** `data.candidates?.[0]?.content?.parts?.[0]?.text`. */
  function ReplyText(data: Json): (r: Option<Json>)
    ensures r.Some? ==> data.JObject? && "candidates" in data.fields
  {
    Field(First(Field(Field(First(Field(Some(data), "candidates")), "content"), "parts")), "text")
  }

  /** An upstream body in the usual shape yields its first candidate's first part text. */
  lemma ReplyTextOfCandidate(text: Json, moreParts: seq<Json>, moreCandidates: seq<Json>)
    ensures ReplyText(JObject(map["candidates" := JArray([
      JObject(map["content" := JObject(map["parts" := JArray([JObject(map["text" := text])] + moreParts)])])] + moreCandidates)]))
      == Some(text)
  {
  }

  /**
   * The response built from the upstream outcome: a thrown call is a 500
   * with its message; a failed answer is a 500 carrying `error.message`
   * (converted by `toText`) or a fixed text; a successful one is a 200 with
   * the reply text. A null body makes the property reads throw.
   */
  function FromUpstream(u: Upstream, toText: Json -> string): (r: Response)
    ensures r.status == 200 || r.status == 500
    ensures r.status == 200 <==> u.Answered? && u.ok && u.data.Some? && u.data.value != JNull
    ensures r.status == 200 ==> r.body == TextBody(ReplyText(u.data.value))
    ensures u.NetworkError? ==> r == Response(500, ErrorBody(Some(u.message)))
    ensures u.Answered? && (u.data.None? || u.data.value == JNull) ==> r == Response(500, ErrorBody(None))
    ensures u.Answered? && !u.ok && u.data.Some? && u.data.value != JNull ==>
      var m := Field(Field(u.data, "error"), "message");
      && (Truthy(m) ==> r == Response(500, ErrorBody(Some(ErrorText(m.value, toText)))))
      && (!Truthy(m) ==> r == Response(500, ErrorBody(Some("Erro na API do Google"))))
  {
    match u
    case NetworkError(message) => Response(500, ErrorBody(Some(message)))
    case Answered(ok, data) =>
      if data.None? || data.value == JNull then Response(500, ErrorBody(None))
      else if !ok then
        var m := Field(Field(data, "error"), "message");
        Response(500, ErrorBody(Some(if Truthy(m) then ErrorText(m.value, toText) else "Erro na API do Google")))
      else Response(200, TextBody(ReplyText(data.value)))
  }

  /** A refusal carrying `{"error": {"message": text}}` is answered with that text. */
  lemma GoogleRefusalMessage(text: string, toText: Json -> string)
    requires text != ""
    ensures var data := JObject(map["error" := JObject(map["message" := JString(text)])]);
      FromUpstream(Answered(false, Some(data)), toText) == Response(500, ErrorBody(Some(text)))
  {
  }

  /** A refusal without an error message is answered with the fixed text. */
  lemma GoogleRefusalWithoutMessage(fields: map<string, Json>, toText: Json -> string)
    requires "error" !in fields
    ensures FromUpstream(Answered(false, Some(JObject(fields))), toText)
      == Response(500, ErrorBody(Some("Erro na API do Google")))
  {
  }

  /** `new Error(v).message`: a string is kept, any other value goes through the runtime's conversion. */
  function ErrorText(v: Json, toText: Json -> string): string {
    if v.JString? then v.s else toText(v)
  }

  /**
   * `handler`: OPTIONS is answered at once, any other method but POST is
   * refused, a missing key is a 500 before the body is read, an unreadable
   * body or a history that throws is a 500, and otherwise the payload goes
   * upstream and the response follows the upstream outcome.
   */
  method Handle(httpMethod: string, googleKey: Option<string>, viteKey: Option<string>, request: Option<Json>,
                fetch: seq<Turn> -> Upstream, toText: Json -> string) returns (r: Response)
    ensures httpMethod == "OPTIONS" ==> r == Response(200, NoBody)
    ensures httpMethod != "OPTIONS" && httpMethod != "POST" ==> r == Response(405, ErrorBody(Some("Method not allowed")))
    ensures httpMethod == "POST" && ApiKey(googleKey, viteKey).None? ==>
      r == Response(500, ErrorBody(Some("API Key não configurada na Vercel")))
    ensures httpMethod == "POST" && ApiKey(googleKey, viteKey).Some? && (request.None? || request == Some(JNull)) ==>
      r == Response(500, ErrorBody(None))
    ensures httpMethod == "POST" && ApiKey(googleKey, viteKey).Some? && request.Some? && request != Some(JNull) ==>
      var c := Contents(Field(request, "history"), Field(request, "prompt"));
      && (c.None? ==> r == Response(500, ErrorBody(None)))
      && (c.Some? ==> r == FromUpstream(fetch(c.value), toText))
    ensures r.status in {200, 405, 500}
  {
    if httpMethod == "OPTIONS" {
      return Response(200, NoBody);
    }
    if httpMethod != "POST" {
      return Response(405, ErrorBody(Some("Method not allowed")));
    }
    var apiKey := ApiKey(googleKey, viteKey);
    if apiKey.None? {
      return Response(500, ErrorBody(Some("API Key não configurada na Vercel")));
    }
    if request.None? || request.value == JNull {
      return Response(500, ErrorBody(None));
    }
    var prompt, history := Field(request, "prompt"), Field(request, "history");
    var contents: seq<Turn> := [];
    if HasHistory(history) {
      var mapped := MapTurns(history.value.items);
      if mapped.None? {
        return Response(500, ErrorBody(None));
      }
      contents := mapped.value;
      contents := contents + [Turn(User, prompt)];
    } else {
      contents := contents + [Turn(User, prompt)];
      assert contents == [Turn(User, prompt)];
    }
    assert Contents(history, prompt) == Some(contents);
    r := FromUpstream(fetch(contents), toText);
  }
}

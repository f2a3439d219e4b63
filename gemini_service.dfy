/**
 * The reply handling of the text-generation service
 * (services/geminiService.ts): turning the model's free text into a JSON
 * value without ever failing, normalising a generated quiz, and the
 * fallback strings of the plain-text generators. The network calls
 * themselves are not modelled: a call's outcome is an input.
 */
module GeminiService {
  import opened Js

  /** What a call to the model gives back: it threw, or it returned a text ("" when the reply had none). */
  datatype Reply = Failed | Replied(text: string)

  const JsonFence: string := "```json"
  const Fence: string := "```"

  // ---------------------------------------------------------------------------
  // cleanAndParseJSON
  // ---------------------------------------------------------------------------

  /**
   * `s.replace(/<tag>\s*\/g, '')`: every occurrence of `tag`, found left to
   * right without overlap, is removed together with the whitespace after it.
   */
  function RemoveTagged(s: string, tag: string): (r: string)
    requires |tag| > 0
    ensures |r| <= |s|
    decreases |s|
  {
    if |s| == 0 then ""
    else if tag <= s then RemoveTagged(TrimStart(s[|tag|..]), tag)
    else [s[0]] + RemoveTagged(s[1..], tag)
  }

  /** Text without the tag's first character is left alone. */
  lemma {:induction false} RemoveTaggedIdentity(s: string, tag: string)
    requires |tag| > 0 && tag[0] !in s
    ensures RemoveTagged(s, tag) == s
    decreases |s|
  {
    if |s| > 0 {
      assert s[0] != tag[0];
      RemoveTaggedIdentity(s[1..], tag);
      assert s == [s[0]] + s[1..];
    }
  }

  /** Text shorter than the tag is left alone. */
  lemma {:induction false} RemoveTaggedShort(s: string, tag: string)
    requires 0 < |tag| && |s| < |tag|
    ensures RemoveTagged(s, tag) == s
    decreases |s|
  {
    if |s| > 0 {
      RemoveTaggedShort(s[1..], tag);
      assert s == [s[0]] + s[1..];
    }
  }

  /** A prefix without the tag's first character passes through unchanged. */
  lemma {:induction false} RemoveTaggedPrefix(a: string, b: string, tag: string)
    requires |tag| > 0 && tag[0] !in a
    ensures RemoveTagged(a + b, tag) == a + RemoveTagged(b, tag)
    decreases |a|
  {
    if |a| == 0 {
      assert a + b == b;
    } else {
      var s := a + b;
      assert RemoveTagged(s, tag) == [a[0]] + RemoveTagged(a[1..] + b, tag) by {
        assert s[0] == a[0] && s[0] != tag[0];
        assert s[1..] == a[1..] + b;
      }
      assert tag[0] !in a[1..];
      RemoveTaggedPrefix(a[1..], b, tag);
      assert a == [a[0]] + a[1..];
    }
  }

  /** The first cleaning step: strip "```json" and then "```" fences with the whitespace after them, then trim. */
  function Clean(text: string): (r: string)
    ensures |r| <= |text|
    ensures r == [] || (!IsSpace(r[0]) && !IsSpace(r[|r| - 1]))
  {
    Trim(RemoveTagged(RemoveTagged(text, JsonFence), Fence))
  }

  /**
   * The parse candidate: when the cleaned text holds both a '[' and a ']',
   * `substring(first '[', last ']' + 1)`, whose bounds JavaScript swaps when
   * the last ']' comes before the first '['; otherwise the cleaned text.
   */
  function Candidate(c: string): (r: string)
    ensures '[' !in c || ']' !in c ==> r == c
    ensures |r| <= |c|
  {
    var first := IndexOf(c, '[');
    var last := LastIndexOf(c, ']');
    if first != -1 && last != -1 then Substring(c, first, last + 1) else c
  }

  /**
   * When some '[' precedes the last ']', the candidate is the span from the
   * first '[' to the last ']' inclusive.
   */
  lemma CandidateIsOuterSpan(c: string) returns (i: nat, j: nat)
    requires '[' in c && ']' in c && IndexOf(c, '[') < LastIndexOf(c, ']')
    ensures i < j < |c| && Candidate(c) == c[i..j + 1]
    ensures c[i] == '[' && c[j] == ']'
    ensures forall k :: 0 <= k < i ==> c[k] != '['
    ensures forall k :: j < k < |c| ==> c[k] != ']'
  {
    i := IndexOf(c, '[');
    j := LastIndexOf(c, ']');
  }

  /**
   * When the last ']' comes before the first '[', the bounds are swapped and
   * the candidate is the text strictly between them.
   */
  lemma CandidateSwapped(c: string) returns (j: nat, i: nat)
    requires '[' in c && ']' in c && LastIndexOf(c, ']') < IndexOf(c, '[')
    ensures j < i < |c| && c[j] == ']' && c[i] == '['
    ensures Candidate(c) == c[j + 1..i]
    ensures forall k :: 0 <= k < |Candidate(c)| ==> Candidate(c)[k] != '[' && Candidate(c)[k] != ']'
  {
    j := LastIndexOf(c, ']');
    i := IndexOf(c, '[');
    assert Candidate(c) == c[j + 1..i];
    forall k | 0 <= k < |Candidate(c)|
      ensures Candidate(c)[k] != '[' && Candidate(c)[k] != ']'
    {
      assert Candidate(c)[k] == c[j + 1 + k];
    }
  }

  /** `JSON.parse` of the candidate; any failure gives the empty array. */
  function ParsedReply(text: string, parse: string -> Option<Json>): (r: Json)
    ensures parse(Candidate(Clean(text))).None? ==> r == JArray([])
    ensures parse(Candidate(Clean(text))).Some? ==> r == parse(Candidate(Clean(text))).value
  {
    match parse(Candidate(Clean(text)))
    case Some(j) => j
    case None => JArray([])
  }

  /** `cleanAndParseJSON`: clean, narrow to the bracketed span, parse; never fails. */
  method CleanAndParseJson(text: string, parse: string -> Option<Json>) returns (r: Json)
    ensures r == ParsedReply(text, parse)
  {
    var cleanText := Trim(RemoveTagged(RemoveTagged(text, JsonFence), Fence));
    ghost var cleaned := cleanText;
    assert cleaned == Clean(text);
    var firstBrace := IndexOf(cleanText, '[');
    var lastBrace := LastIndexOf(cleanText, ']');
    if firstBrace != -1 && lastBrace != -1 {
      cleanText := Substring(cleanText, firstBrace, lastBrace + 1);
      assert cleanText == Candidate(cleaned);
    } else {
      assert cleanText == Candidate(cleaned);
    }
    var parsed := parse(cleanText);
    if parsed.Some? {
      r := parsed.value;
    } else {
      r := JArray([]);
    }
  }

  /** A tag at the front is dropped together with the whitespace after it. */
  lemma RemoveTaggedAt(tag: string, rest: string)
    requires |tag| > 0
    ensures RemoveTagged(tag + rest, tag) == RemoveTagged(TrimStart(rest), tag)
  {
    var s := tag + rest;
    assert tag <= s;
    assert s[|tag|..] == rest;
  }

  /** JSON text wrapped the way the model usually wraps it: "```json", a newline, the text, a newline, "```". */
  function Fenced(body: string): string {
    JsonFence + ("\n" + (body + ("\n" + Fence)))
  }

  /** Wrapping JSON text in a "```json" fence does not change what is parsed. */
  lemma FencedJsonCleansAlike(body: string)
    requires '`' !in body
    ensures Clean(Fenced(body)) == Clean(body) == Trim(body)
  {
    RemoveTaggedIdentity(body, JsonFence);
    RemoveTaggedIdentity(body, Fence);
    var closing := "\n" + Fence;
    RemoveTaggedAt(JsonFence, "\n" + (body + closing));
    TrimStartAppend("\n", body + closing);
    TrimStartAppend(body, closing);
    if IsBlank(body) {
      TrimStartAppend("\n", Fence);
      FencedBlank(body, JsonFence, Fence);
    } else {
      FencedText(body, JsonFence, Fence);
    }
  }

  lemma FencedBlank(body: string, jtag: string, ftag: string)
    requires IsBlank(body) && 0 < |ftag| < |jtag| && !IsSpace(ftag[0])
    ensures Trim(RemoveTagged(RemoveTagged(TrimStart(ftag), jtag), ftag)) == Trim(body)
  {
    assert TrimStart(ftag) == ftag;
    RemoveTaggedShort(ftag, jtag);
    RemoveTaggedClosing([], ftag);
    assert [] + ftag == ftag;
    TrimEmptyIffBlank(body);
  }

  lemma FencedText(body: string, jtag: string, ftag: string)
    requires 0 < |ftag| && |ftag| + 1 < |jtag| && jtag[0] == ftag[0] && ftag[0] != '\n'
    requires ftag[0] !in body && !IsBlank(body)
    ensures Trim(RemoveTagged(RemoveTagged(TrimStart(body) + ("\n" + ftag), jtag), ftag)) == Trim(body)
  {
    var t := TrimStart(body);
    assert ftag[0] !in t by {
      assert t == body[|body| - |t|..];
    }
    RemoveTaggedKeepsShortTail(t, "\n" + ftag, jtag);
    RemoveTaggedLineClosing(t, ftag);
    NewlineIsBlank();
    TrimBlankTail(body, "\n");
  }

  /** Text free of the tag followed by a tail too short to hold it is left alone. */
  lemma RemoveTaggedKeepsShortTail(a: string, c: string, tag: string)
    requires |tag| > 0 && tag[0] !in a && |c| < |tag|
    ensures RemoveTagged(a + c, tag) == a + c
  {
    RemoveTaggedPrefix(a, c, tag);
    RemoveTaggedShort(c, tag);
  }

  /** A tag closing the last line is dropped and the line break stays. */
  lemma RemoveTaggedLineClosing(a: string, tag: string)
    requires |tag| > 0 && tag[0] !in a && tag[0] != '\n'
    ensures RemoveTagged(a + ("\n" + tag), tag) == a + "\n"
  {
    var u := a + "\n";
    assert tag[0] !in u by {
      assert forall k :: 0 <= k < |a| ==> u[k] == a[k];
      assert u[|a|] == '\n';
    }
    AppendAssociates(a, "\n", tag);
    RemoveTaggedClosing(u, tag);
  }

  lemma AppendAssociates(a: string, b: string, c: string)
    ensures a + (b + c) == (a + b) + c
  {
  }

  /** A closing tag at the very end is dropped. */
  lemma RemoveTaggedClosing(a: string, tag: string)
    requires |tag| > 0 && tag[0] !in a
    ensures RemoveTagged(a + tag, tag) == a
  {
    RemoveTaggedPrefix(a, tag, tag);
    RemoveTaggedAt(tag, []);
    assert tag + [] == tag;
  }

  // ---------------------------------------------------------------------------
  // generateQuizForTopic
  // ---------------------------------------------------------------------------

  /** The options that replace a generated question's missing or malformed options. */
  const PlaceholderOptions: Json :=
    JArray([JString("Erro na geração"), JString("Tente novamente"), JString("..."), JString("...")])

  /** `gen-${stamp}-${idx}`. */
  function GeneratedId(stamp: string, idx: nat): string {
    "gen-" + stamp + "-" + NatToString(idx)
  }

  /**
   * The fields a JavaScript spread copies out of a parsed value: an object's
   * own fields, the index keys "0", "1", … of an array or a string (a string
   * spreads one character per key), and nothing for `null`, numbers and
   * booleans.
   */
  function OwnFields(q: Json): (r: map<string, Json>)
    ensures q.JObject? ==> r == q.fields
    ensures q.JArray? ==> r == IndexedFields(q.items)
    ensures q.JString? ==> r == IndexedFields(Characters(q.s))
    ensures q.JNull? || q.JNumber? || q.JBool? ==> r == map[]
  {
    match q
    case JObject(fields) => fields
    case JArray(items) => IndexedFields(items)
    case JString(s) => IndexedFields(Characters(s))
    case _ => map[]
  }

  /** The one-character strings of a string, in order. */
  function Characters(s: string): (r: seq<Json>)
    ensures |r| == |s| && forall i :: 0 <= i < |s| ==> r[i] == JString([s[i]])
  {
    seq(|s|, i requires 0 <= i < |s| => JString([s[i]]))
  }

  /** An object with the keys "0" … "n-1" holding the items: what spreading an array-like value gives. */
  function IndexedFields(items: seq<Json>): map<string, Json>
    decreases |items|
  {
    if items == [] then map[]
    else
      var n := |items| - 1;
      IndexedFields(items[..n])[NatToString(n) := items[n]]
  }

  /** The spread has exactly the keys "0" … "n-1", and key "i" holds item i. */
  lemma {:induction false} IndexedFieldsContent(items: seq<Json>)
    ensures forall i :: 0 <= i < |items| ==>
      NatToString(i) in IndexedFields(items) && IndexedFields(items)[NatToString(i)] == items[i]
    ensures forall k :: k in IndexedFields(items) ==> exists i :: 0 <= i < |items| && k == NatToString(i)
    decreases |items|
  {
    if items != [] {
      var n := |items| - 1;
      var prev := IndexedFields(items[..n]);
      var r := IndexedFields(items);
      assert r == prev[NatToString(n) := items[n]];
      IndexedFieldsContent(items[..n]);
      IndexKeysDiffer(n);
      forall i | 0 <= i < |items|
        ensures NatToString(i) in r && r[NatToString(i)] == items[i]
      {
        if i < n {
          assert items[..n][i] == items[i];
        }
      }
      forall k | k in r
        ensures exists i :: 0 <= i < |items| && k == NatToString(i)
      {
        if k != NatToString(n) {
          assert k in prev;
        }
      }
    }
  }

  /** The key of the last index differs from every earlier one. */
  lemma IndexKeysDiffer(n: nat)
    ensures forall i :: 0 <= i < n ==> NatToString(i) != NatToString(n)
  {
    forall i | 0 <= i < n
      ensures NatToString(i) != NatToString(n)
    {
      PrefixedNumbersDistinct("", i, n);
      assert "" + NatToString(i) == NatToString(i);
      assert "" + NatToString(n) == NatToString(n);
    }
  }

  /** An index key is made of digits, so it is never "id" nor "options". */
  lemma IndexKeyIsNoName(i: nat)
    ensures NatToString(i) != "id" && NatToString(i) != "options"
  {
    assert '0' <= NatToString(i)[0] <= '9';
  }

  /**
   * `{...q, id, options}`: the item's own fields, the new id, and its options
   * when they are an array, else the placeholders.
   */
  function NormaliseItem(q: Json, id: string): (r: map<string, Json>)
    ensures "id" in r && r["id"] == JString(id)
    ensures "options" in r && r["options"].JArray?
    ensures q.JObject? && "options" in q.fields && q.fields["options"].JArray? ==> r["options"] == q.fields["options"]
    ensures !(q.JObject? && "options" in q.fields && q.fields["options"].JArray?) ==> r["options"] == PlaceholderOptions
    ensures forall k :: k in OwnFields(q) && k != "id" && k != "options" ==> k in r && r[k] == OwnFields(q)[k]
    ensures forall k :: k in r ==> k in OwnFields(q) || k == "id" || k == "options"
  {
    var own := OwnFields(q);
    var options := if q.JObject? && "options" in q.fields && q.fields["options"].JArray?
      then q.fields["options"] else PlaceholderOptions;
    own["id" := JString(id)]["options" := options]
  }

  /**
   * The `map` over the parsed array; reading `options` of a `null` item
   * throws, which the surrounding handler turns into no questions.
   */
  function Normalise(items: seq<Json>, stamp: string): (r: Option<seq<map<string, Json>>>)
    ensures r.None? <==> JNull in items
    ensures r.Some? ==> |r.value| == |items|
    ensures r.Some? ==> forall i :: 0 <= i < |items| ==> r.value[i] == NormaliseItem(items[i], GeneratedId(stamp, i))
  {
    if JNull in items then None
    else Some(seq(|items|, i requires 0 <= i < |items| => NormaliseItem(items[i], GeneratedId(stamp, i))))
  }

  /**
   * A string item spreads its characters under the keys "0", "1", …, next to
   * the new id and the placeholder options.
   */
  lemma StringItemSpreadsCharacters(s: string, id: string)
    ensures var r := NormaliseItem(JString(s), id);
      && r["id"] == JString(id) && r["options"] == PlaceholderOptions
      && forall i :: 0 <= i < |s| ==> NatToString(i) in r && r[NatToString(i)] == JString([s[i]])
  {
    IndexedFieldsContent(Characters(s));
    forall i | 0 <= i < |s|
      ensures NatToString(i) in NormaliseItem(JString(s), id)
      ensures NormaliseItem(JString(s), id)[NatToString(i)] == JString([s[i]])
    {
      IndexKeyIsNoName(i);
    }
  }

  /**
   * An array item spreads its elements under the keys "0", "1", …, next to
   * the new id and the placeholder options.
   */
  lemma ArrayItemSpreadsElements(items: seq<Json>, id: string)
    ensures var r := NormaliseItem(JArray(items), id);
      && r["id"] == JString(id) && r["options"] == PlaceholderOptions
      && forall i :: 0 <= i < |items| ==> NatToString(i) in r && r[NatToString(i)] == items[i]
  {
    IndexedFieldsContent(items);
    forall i | 0 <= i < |items|
      ensures NatToString(i) in NormaliseItem(JArray(items), id)
      ensures NormaliseItem(JArray(items), id)[NatToString(i)] == items[i]
    {
      IndexKeyIsNoName(i);
    }
  }

  /** The ids of one batch are pairwise distinct. */
  lemma NormalisedIdsDistinct(items: seq<Json>, stamp: string, i: nat, j: nat)
    requires Normalise(items, stamp).Some?
    requires i < j < |items|
    ensures Normalise(items, stamp).value[i]["id"] != Normalise(items, stamp).value[j]["id"]
  {
    PrefixedNumbersDistinct("gen-" + stamp + "-", i, j);
    assert GeneratedId(stamp, i) == "gen-" + stamp + "-" + NatToString(i);
  }

  /**
   * The questions made of a parsed reply: the normalised items of an array
   * without `null`s, and none for anything else.
   */
  function QuizFromParsed(parsed: Json, stamp: string): (r: seq<map<string, Json>>)
    ensures !parsed.JArray? ==> r == []
    ensures parsed.JArray? && JNull in parsed.items ==> r == []
    ensures parsed.JArray? && JNull !in parsed.items ==> |r| == |parsed.items|
    ensures forall i :: 0 <= i < |r| ==>
      "id" in r[i] && r[i]["id"] == JString(GeneratedId(stamp, i)) && "options" in r[i] && r[i]["options"].JArray?
  {
    if parsed.JArray? then
      match Normalise(parsed.items, stamp)
      case Some(qs) => qs
      case None => []
    else []
  }

  /**
   * `generateQuizForTopic` after the call: a failed call gives no questions,
   * and a missing text counts as "[]".
   */
  function QuizFromReply(reply: Reply, stamp: string, parse: string -> Option<Json>): (r: seq<map<string, Json>>)
    ensures reply.Failed? ==> r == []
    ensures reply.Replied? ==> r == QuizFromParsed(ParsedReply(QuizText(reply.text), parse), stamp)
  {
    match reply
    case Failed => []
    case Replied(text) => QuizFromParsed(ParsedReply(QuizText(text), parse), stamp)
  }

  /** `response.text || "[]"`. */
  function QuizText(text: string): (r: string)
    ensures r != ""
    ensures text != "" ==> r == text
  {
    if text == "" then "[]" else text
  }

  /** "[]" survives cleaning and is its own candidate. */
  lemma EmptyArrayIsItsOwnCandidate()
    ensures Candidate(Clean("[]")) == "[]"
  {
    RemoveTaggedIdentity("[]", JsonFence);
    RemoveTaggedIdentity("[]", Fence);
    assert TrimStart("[]") == "[]";
    assert TrimEnd("[]") == "[]";
    assert IndexOf("[]", '[') == 0;
    assert LastIndexOf("[]", ']') == 1;
  }

  /** A reply without text gives no questions, provided "[]" parses as the empty array. */
  lemma EmptyReplyGivesNoQuestions(stamp: string, parse: string -> Option<Json>)
    requires parse("[]") == Some(JArray([]))
    ensures QuizFromReply(Replied(""), stamp, parse) == []
  {
    EmptyArrayIsItsOwnCandidate();
    assert QuizText("") == "[]";
  }

  /** The difficulty wording of the quiz prompt depends on the exam flag alone. */
  function DifficultyPhrase(isExamMode: bool): (r: string)
    ensures r == "Conceitual e Prática" <==> !isExamMode
  {
    if isExamMode then "Difícil, cálculos complexos e estilo concurso/prova (ENADE/Petrobras)"
    else "Conceitual e Prática"
  }

  // ---------------------------------------------------------------------------
  // The plain-text generators
  // ---------------------------------------------------------------------------

  /** `response.text || fallback`, and `onError` when the call throws. */
  function TextOr(reply: Reply, fallback: string, onError: string): (r: string)
    ensures reply.Replied? && reply.text != "" ==> r == reply.text
    ensures reply.Replied? && reply.text == "" ==> r == fallback
    ensures reply.Failed? ==> r == onError
  {
    match reply
    case Failed => onError
    case Replied(text) => if text != "" then text else fallback
  }

  /** `sendMessageToGemini`. */
  function ChatAnswer(reply: Reply): (r: string)
    ensures r != ""
    ensures reply.Replied? && reply.text != "" ==> r == reply.text
  {
    TextOr(reply, "Desculpe, não consegui processar sua resposta.", "Ocorreu um erro ao comunicar com a IA. Tente novamente.")
  }

  /** `explainQuestion`. */
  function Explanation(reply: Reply): (r: string)
    ensures r != ""
    ensures reply.Replied? && reply.text != "" ==> r == reply.text
  {
    TextOr(reply, "Não foi possível gerar a explicação.", "Erro ao gerar explicação.")
  }

  /** `generateLessonContent`. */
  function LessonContent(reply: Reply): (r: string)
    ensures r != ""
    ensures reply.Replied? && reply.text != "" ==> r == reply.text
  {
    TextOr(reply, "Conteúdo indisponível.", "Erro ao gerar o conteúdo da aula.")
  }

  /** `extractTopicsFromLesson`. */
  function LessonTopics(reply: Reply): (r: string)
    ensures r == "" <==> reply.Failed?
    ensures reply.Replied? && reply.text != "" ==> r == reply.text
  {
    TextOr(reply, "Não foi possível extrair os tópicos.", "")
  }

  /**
   * The chat, explanation and lesson generators always return some text;
   * topic extraction returns "" exactly when the call failed.
   */
  lemma GeneratorsAnswerSomething(reply: Reply)
    ensures ChatAnswer(reply) != "" && Explanation(reply) != "" && LessonContent(reply) != ""
    ensures LessonTopics(reply) == "" <==> reply.Failed?
  {
  }

  /** A reply with text is passed through unchanged by every text generator. */
  lemma GeneratorsPassTextThrough(reply: Reply)
    requires reply.Replied? && reply.text != ""
    ensures ChatAnswer(reply) == Explanation(reply) == LessonContent(reply) == LessonTopics(reply) == reply.text
  {
  }

  /** `content.substring(0, 3000)`: the part of a lesson the topic prompt embeds. */
  function LessonExcerpt(content: string): (r: string)
    ensures |r| <= 3000 && r <= content
    ensures |content| <= 3000 ==> r == content
    ensures |content| > 3000 ==> |r| == 3000
  {
    Substring(content, 0, 3000)
  }
}

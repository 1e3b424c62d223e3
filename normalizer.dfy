/** The extraction of `{answer, suggestedQuestions, sources}` from the agent's
    loosely typed reply, inside `sendMessage`: a chain of JavaScript `||`
    that keeps the first truthy candidate, and two `Array.isArray` guards. */
module Normalizer {
  import opened Wrappers

  /** A JavaScript value as it arrives from the agent. Numbers are kept as
      reals with a separate `NaN`, which is all that truthiness needs. */
  datatype Json =
    | Undefined
    | Null
    | Bool(b: bool)
    | Num(n: real)
    | NaN
    | Str(text: string)
    | Arr(items: seq<Json>)
    | Obj(fields: map<string, Json>)

  /** `null` and `undefined`: the values whose properties cannot be read. */
  predicate Nullish(v: Json)
  {
    v.Undefined? || v.Null?
  }

  /** JavaScript truthiness: `undefined`, `null`, `false`, `0`, `NaN` and the
      empty string are falsy; everything else, `[]` and `{}` included, is
      truthy. */
  predicate Truthy(v: Json)
  {
    match v
    case Undefined => false
    case Null => false
    case Bool(b) => b
    case Num(n) => n != 0.0
    case NaN => false
    case Str(s) => s != []
    case Arr(_) => true
    case Obj(_) => true
  }

  /** `a || b`. */
  function Or(a: Json, b: Json): Json
  {
    if Truthy(a) then a else b
  }

  /** `v.key` for a value that is not `null` or `undefined`. None of the keys
      read here is an own or inherited property of a string, number,
      boolean or array, so only an object can supply one. */
  function Get(v: Json, key: string): (r: Json)
    requires !Nullish(v)
    ensures !v.Obj? ==> r == Undefined
  {
    match v
    case Obj(f) => if key in f then f[key] else Undefined
    case _ => Undefined
  }

  /** `Array.isArray(v) ? v : []`. */
  function ArrayOrEmpty(v: Json): seq<Json>
  {
    if v.Arr? then v.items else []
  }

  const Fallback: string := "I apologize, I could not process your request."

  /** The canonical reply the chat page builds from a response. */
  datatype Reply = Reply(answer: Json, suggestedQuestions: seq<Json>, sources: seq<Json>)

  /** `result.response.result || {}`. */
  function AgentResult(response: Json): (r: Json)
    requires !Nullish(response)
    ensures Truthy(r)
  {
    Or(Get(response, "result"), Obj(map[]))
  }

  /** The values the answer is taken from, in order of preference: the
      result's `answer`, `text` and `message`, the response's `message`, and
      the result itself if it is a string. */
  function AnswerCandidates(response: Json): (r: seq<Json>)
    requires !Nullish(response)
    ensures |r| == 5
  {
    var ar := AgentResult(response);
    [Get(ar, "answer"), Get(ar, "text"), Get(ar, "message"), Get(response, "message"),
     if ar.Str? then ar else Str("")]
  }

  /** The extraction applied to a truthy `result.response`. The answer is
      truthy, so never the empty string, and is either one of the
      candidates or the fixed apology. */
  function Normalize(response: Json): (r: Reply)
    requires Truthy(response)
    ensures Truthy(r.answer)
    ensures r.answer in AnswerCandidates(response) || r.answer == Str(Fallback)
  {
    var ar := AgentResult(response);
    var answer :=
      Or(Or(Or(Or(Or(Get(ar, "answer"), Get(ar, "text")), Get(ar, "message")),
         Get(response, "message")), if ar.Str? then ar else Str("")), Str(Fallback));
    var questions :=
      if Get(ar, "suggested_questions").Arr? then Get(ar, "suggested_questions").items
      else ArrayOrEmpty(Get(ar, "suggestedQuestions"));
    Reply(answer, questions, ArrayOrEmpty(Get(ar, "sources")))
  }

  /** What the agent transport hands back: the value `callAIAgent` resolved
      to, or an exception. */
  datatype Outcome = Returned(result: Json) | Threw

  /** The `if (result.success && result.response)` of `sendMessage`: a reply
      when both are truthy, nothing (the error message) otherwise. Reading
      `success` off `null` or `undefined` throws, and the `catch` makes that
      the error message too. */
  function Accept(o: Outcome): (r: Option<Reply>)
    ensures r.Some? ==> o.Returned? && !Nullish(o.result) && Truthy(Get(o.result, "response"))
    ensures r.Some? ==> r.value == Normalize(Get(o.result, "response"))
  {
    match o
    case Threw => None
    case Returned(v) =>
      if Nullish(v) then None
      else if Truthy(Get(v, "success")) && Truthy(Get(v, "response")) then Some(Normalize(Get(v, "response")))
      else None
  }

  // ---------------------------------------------------------------
  // Properties of the extraction
  // ---------------------------------------------------------------

  /** The answer is the first truthy candidate, and the apology when there
      is none. */
  lemma {:induction false} AnswerPrecedence(response: Json, i: nat)
    requires Truthy(response) && i < 5
    ensures var c := AnswerCandidates(response);
      Truthy(c[i]) && (forall j :: 0 <= j < i ==> !Truthy(c[j])) ==> Normalize(response).answer == c[i]
    ensures var c := AnswerCandidates(response);
      (forall j :: 0 <= j < 5 ==> !Truthy(c[j])) ==> Normalize(response).answer == Str(Fallback)
  {
    var c := AnswerCandidates(response);
    if forall j :: 0 <= j < i ==> !Truthy(c[j]) {
      assert !Truthy(c[0]) || i == 0;
      assert i > 1 ==> !Truthy(c[1]);
      assert i > 2 ==> !Truthy(c[2]);
      assert i > 3 ==> !Truthy(c[3]);
    }
    if forall j :: 0 <= j < 5 ==> !Truthy(c[j]) {
      assert !Truthy(c[0]) && !Truthy(c[1]) && !Truthy(c[2]) && !Truthy(c[3]) && !Truthy(c[4]);
    }
  }

  /** A result's own `answer`, when truthy, wins over every other field. */
  lemma AnswerFieldWins(response: Json)
    requires Truthy(response)
    requires Truthy(Get(AgentResult(response), "answer"))
    ensures Normalize(response).answer == Get(AgentResult(response), "answer")
  {
    AnswerPrecedence(response, 0);
  }

  /** An empty string at an earlier key does not hide a later one: `text`
      is used when `answer` is `""`. */
  lemma EmptyAnswerSkipped(text: string)
    requires text != []
    ensures Normalize(Obj(map["result" := Obj(map["answer" := Str(""), "text" := Str(text)])])).answer == Str(text)
  {
    var response := Obj(map["result" := Obj(map["answer" := Str(""), "text" := Str(text)])]);
    AnswerPrecedence(response, 1);
  }

  /** A string result is the answer when no field supplies one. */
  lemma StringResultIsAnswer(s: string)
    requires s != []
    ensures Normalize(Obj(map["result" := Str(s)])) == Reply(Str(s), [], [])
  {
  }

  /** `suggested_questions` is preferred over `suggestedQuestions`, each only
      if it is an array, and `sources` only if it is an array; any other
      value reads as the empty list. */
  lemma ListFields(response: Json)
    requires Truthy(response)
    ensures var ar := AgentResult(response); var r := Normalize(response);
      && (Get(ar, "suggested_questions").Arr? ==> r.suggestedQuestions == Get(ar, "suggested_questions").items)
      && (!Get(ar, "suggested_questions").Arr? && Get(ar, "suggestedQuestions").Arr? ==>
            r.suggestedQuestions == Get(ar, "suggestedQuestions").items)
      && (!Get(ar, "suggested_questions").Arr? && !Get(ar, "suggestedQuestions").Arr? ==> r.suggestedQuestions == [])
      && (Get(ar, "sources").Arr? ==> r.sources == Get(ar, "sources").items)
      && (!Get(ar, "sources").Arr? ==> r.sources == [])
  {
  }

  /** A falsy `result` (missing, `null`, `""`, `0`, `false`) reads as `{}`. */
  lemma FalsyResultIsEmptyObject(response: Json)
    requires Truthy(response) && !Truthy(Get(response, "result"))
    ensures AgentResult(response) == Obj(map[])
    ensures Normalize(response).suggestedQuestions == [] && Normalize(response).sources == []
    ensures Normalize(response).answer == Or(Get(response, "message"), Str(Fallback))
  {
    AnswerPrecedence(response, 3);
  }

  /** A response with none of the recognised fields gives the apology, no
      suggestions and no sources. */
  lemma EmptyPayloadFallback()
    ensures Normalize(Obj(map[])) == Reply(Str(Fallback), [], [])
    ensures Normalize(Obj(map["result" := Obj(map[])])) == Reply(Str(Fallback), [], [])
  {
  }

  /** A `sources` field that is a string is not an array: no sources. */
  lemma SourcesNotAnArray()
    ensures Normalize(Obj(map["result" := Obj(map["sources" := Str("not-an-array")])])) == Reply(Str(Fallback), [], [])
  {
  }

  /** Only a returned value whose `success` and `response` are both truthy
      is accepted; an exception, a `null` or `undefined` value, and a value
      with `success` or `response` missing are all rejected alike. */
  lemma AcceptIff(o: Outcome)
    ensures Accept(o).Some? <==>
      o.Returned? && !Nullish(o.result) && Truthy(Get(o.result, "success")) && Truthy(Get(o.result, "response"))
  {
  }

  /** `{success: false}` is rejected even when a response is present. */
  lemma UnsuccessfulRejected(response: Json)
    ensures Accept(Returned(Obj(map["success" := Bool(false), "response" := response]))) == None
  {
  }
}

/**
 * The README analysis of `src/services/ai_analyzer.py`: the prompt sent to the chat
 * model, the digging of the reply text out of the response envelope, the parsing of
 * that text into a ReadmeAnalysis, and the mapping of every outcome to the result
 * dict `analyze_readme` returns (or to its fall-through `None`).
 */
module AiAnalyzer {
  import opened Wrappers
  import opened Text
  import opened PyValues

  const ApiUrl: string := "https://api.deepseek.com/v1/chat/completions"
  const ChatModel: string := "deepseek-chat"

  /** Only this many characters of the README go into the prompt. */
  const ReadmeLimit: nat := 10000

  /** The prompt template up to the README text, with the `{{`/`}}` escapes resolved. */
  const PromptHead: string := "请分析以下项目 README 内容，并提供：\n1. 项目简短总结（100字以内的中文）\n2. 技术标签（包括编程语言、框架、工具等）\n3. 应用领域标签（如 AI、Web开发、数据科学等）\n\n请以下面的 JSON 格式返回结果：\n{\n    \"summary\": \"项目总结\",\n    \"tech_tags\": [\"技术1\", \"技术2\"],\n    \"domain_tags\": [\"领域1\", \"领域2\"]\n}\n\nREADME 内容：\n"

  const ParseFailurePrefix: string := "解析响应失败: "
  const NoValidReply: string := "无法获取有效响应"

  /** An AIAnalyzer: the API key it was built with; its endpoint is always ApiUrl. */
  datatype Analyzer = Analyzer(apiKey: Value)

  /** What `requests.post` is given: endpoint, Authorization header, model, and the one user message. */
  datatype ChatRequest = ChatRequest(url: string, authorization: string, model: string, prompt: string)

  /** What `response.json()` gives: a value, or the text of the error it raises on a body that is not JSON. */
  datatype Body = Json(value: Value) | NotJson(reason: string)

  /** What `requests.post` does: return a response, or raise with the given text. */
  datatype Transport = Response(status: int, body: Body) | Raised(reason: string)

  /** `json.loads`: the decoded value, or the text of the JSONDecodeError it raises. */
  type Decoder = string -> Result<Value, string>

  /** The ReadmeAnalysis dataclass. Its fields hold whatever the decoder produced, unchecked. */
  datatype ReadmeAnalysis = ReadmeAnalysis(summary: Value, techTags: Value, domainTags: Value)

  /** The dict `analyze_readme` returns: `success: True` and the three fields, or `success: False` and an error. */
  datatype Outcome = Succeeded(analysis: ReadmeAnalysis) | Failed(error: string)

  // ------------------------------------------------------------ extraction

  /** `response["choices"][0]["message"]["content"]` goes all the way through to `c`. */
  predicate HasContentPath(response: Value, c: Value) {
    && response.Obj?
    && Lookup(response.entries, "choices").Some?
    && var choices := Lookup(response.entries, "choices").value;
    && choices.List? && |choices.items| > 0 && choices.items[0].Obj?
    && var message := Lookup(choices.items[0].entries, "message");
    && message.Some? && message.value.Obj?
    && Lookup(message.value.entries, "content") == Some(c)
  }

  /** `response["choices"][0]`. */
  function FirstChoice(response: Value): (r: Result<Value, Exc>)
    ensures r.Ok? <==>
      && response.Obj? && Lookup(response.entries, "choices").Some?
      && Subscript(Lookup(response.entries, "choices").value, KInt(0)).Ok?
    ensures r.Ok? ==> r == Subscript(Lookup(response.entries, "choices").value, KInt(0))
    ensures r.Err? ==> r.error.KeyError? || r.error.IndexError? || r.error.TypeError?
  {
    var choices :- Subscript(response, KStr("choices"));
    Subscript(choices, KInt(0))
  }

  /** The subscript chain itself; the first subscript that raises decides the error. */
  function ContentAt(response: Value): (r: Result<Value, Exc>)
    ensures r.Ok? ==> HasContentPath(response, r.value)
    ensures forall c :: HasContentPath(response, c) ==> r == Ok(c)
    ensures r.Err? ==> r.error.KeyError? || r.error.IndexError? || r.error.TypeError?
  {
    var first :- FirstChoice(response);
    var message :- Subscript(first, KStr("message"));
    Subscript(message, KStr("content"))
  }

  /**
   * `_extract_content`: the reply text when the envelope has it; `None` (Ok(None))
   * when a key is missing or `choices` is too short; any other error (a TypeError
   * from indexing something that is not a dict or list) propagates.
   */
  function ExtractContent(response: Value): (r: Result<Option<Value>, Exc>)
    ensures forall c :: HasContentPath(response, c) ==> r == Ok(Some(c))
    ensures r.Ok? && r.value.Some? ==> HasContentPath(response, r.value.value)
    ensures response.Obj? && !HasKey(response.entries, "choices") ==> r == Ok(None)
    ensures response.Obj? && Lookup(response.entries, "choices") == Some(List([])) ==> r == Ok(None)
    ensures r.Err? ==> r.error.TypeError?
  {
    match ContentAt(response)
    case Ok(v) => Ok(Some(v))
    case Err(e) => if e.KeyError? || e.IndexError? then Ok(None) else Err(e)
  }

  /**
   * Where the path breaks: a missing `message` or `content` key is the caught KeyError
   * (`None`); a step that is not a dict raises the TypeError that escapes.
   */
  lemma ExtractContentCases(response: Value)
    ensures !response.Obj? ==> ExtractContent(response).Err?
    ensures FirstChoice(response).Ok? ==>
      var first := FirstChoice(response).value;
      && (!first.Obj? ==> ExtractContent(response).Err?)
      && (first.Obj? && !HasKey(first.entries, "message") ==> ExtractContent(response) == Ok(None))
      && (first.Obj? && HasKey(first.entries, "message") ==>
            var message := Lookup(first.entries, "message").value;
            && (!message.Obj? ==> ExtractContent(response).Err?)
            && (message.Obj? && !HasKey(message.entries, "content") ==> ExtractContent(response) == Ok(None)))
  {
  }

  // --------------------------------------------------------------- parsing

  /** `json_str.replace("```json", "").replace("```", "").strip()`. */
  function StripFences(s: string): (r: string)
    ensures !Contains(r, "```")
    ensures r == "" || (!IsSpace(r[0]) && !IsSpace(r[|r| - 1]))
  {
    var unfenced := RemoveAll(RemoveAll(s, "```json"), "```");
    RemoveAllUniform(RemoveAll(s, "```json"), "```");
    var r := Strip(unfenced);
    var i, j :| 0 <= i <= j <= |unfenced| && r == unfenced[i..j];
    if Contains(r, "```") then SliceContains(unfenced, i, j, "```"); r else r
  }

  /** A reply without any backtick is only trimmed. */
  lemma UnfencedIsStripped(s: string)
    requires forall i :: 0 <= i < |s| ==> s[i] != '`'
    ensures StripFences(s) == Strip(s)
  {
    RemoveAllKeep(s, "", "```json");
    RemoveAllKeep(s, "", "```");
    assert s + "" == s;
  }

  /** A reply fenced as a JSON code block gives the trimmed body, both fences and their newlines gone. */
  lemma FencedIsBody(body: string)
    requires forall i :: 0 <= i < |body| ==> body[i] != '`'
    ensures StripFences("```json\n" + body + "\n```") == Strip(body)
  {
    var inner := "\n" + body + "\n";
    assert forall i :: 0 <= i < |inner| ==> inner[i] != '`' by {
      forall i | 0 <= i < |inner| ensures inner[i] != '`' {
        if 0 < i < |inner| - 1 {
          assert inner[i] == body[i - 1];
        }
      }
    }
    assert "```json\n" + body + "\n```" == "```json" + (inner + "```");
    RemoveAllFront("```json", inner + "```");
    RemoveAllKeep(inner, "```", "```json");
    assert RemoveAll("```", "```json") == "```";
    RemoveAllKeep(inner, "```", "```");
    RemoveAllFront("```", "");
    assert inner + "" == inner;
    assert inner == ['\n'] + body + ['\n'];
    StripPadded('\n', body, '\n');
  }

  /** The first of the three required fields that `d` lacks, in the order the source reads them. */
  function FirstMissingField(d: Dict): (r: Option<string>)
    ensures r.None? <==> HasKey(d, "summary") && HasKey(d, "tech_tags") && HasKey(d, "domain_tags")
    ensures r.Some? ==> r.value in ["summary", "tech_tags", "domain_tags"] && !HasKey(d, r.value)
    ensures r == Some("tech_tags") ==> HasKey(d, "summary")
    ensures r == Some("domain_tags") ==> HasKey(d, "summary") && HasKey(d, "tech_tags")
  {
    if !HasKey(d, "summary") then Some("summary")
    else if !HasKey(d, "tech_tags") then Some("tech_tags")
    else if !HasKey(d, "domain_tags") then Some("domain_tags")
    else None
  }

  /**
   * `parse_analysis_result`: strip the fences, decode, and read the three fields.
   * A decode failure raises JSONDecodeError, a missing field raises KeyError naming
   * it, a decoded value that is not a dict raises TypeError; otherwise the fields
   * are copied exactly as decoded.
   */
  function ParseAnalysisResult(jsonStr: string, loads: Decoder): (r: Result<ReadmeAnalysis, Exc>)
    ensures loads(StripFences(jsonStr)).Err? ==> r == Err(JsonDecodeError(loads(StripFences(jsonStr)).error))
    ensures loads(StripFences(jsonStr)).Ok? && !loads(StripFences(jsonStr)).value.Obj? ==> r.Err? && r.error.TypeError?
    ensures loads(StripFences(jsonStr)).Ok? && loads(StripFences(jsonStr)).value.Obj? ==>
      var d := loads(StripFences(jsonStr)).value.entries;
      && (r.Ok? <==> FirstMissingField(d).None?)
      && (FirstMissingField(d).Some? ==> r == Err(KeyError(KStr(FirstMissingField(d).value))))
      && (r.Ok? ==> r.value == ReadmeAnalysis(Get(d, "summary", Null), Get(d, "tech_tags", Null), Get(d, "domain_tags", Null)))
  {
    var clean := StripFences(jsonStr);
    var data :- match loads(clean) case Ok(v) => Ok(v) case Err(m) => Err(JsonDecodeError(m));
    var summary :- Subscript(data, KStr("summary"));
    var techTags :- Subscript(data, KStr("tech_tags"));
    var domainTags :- Subscript(data, KStr("domain_tags"));
    Ok(ReadmeAnalysis(summary, techTags, domainTags))
  }

  // ------------------------------------------------------------- analysis

  /** Python's `s[:n]` for `n >= 0`. */
  function Truncate(s: string, n: nat): (r: string)
    ensures StartsWith(s, r)
    ensures |r| == if |s| <= n then |s| else n
  {
    if |s| <= n then s else s[..n]
  }

  /** The prompt: the fixed template with the first ReadmeLimit characters of the README. */
  function Prompt(content: string): (r: string)
    ensures |r| <= |PromptHead| + ReadmeLimit + 1
    ensures StartsWith(r, PromptHead)
    ensures |content| <= ReadmeLimit ==> r == PromptHead + content + "\n"
    ensures |content| > ReadmeLimit ==> r == PromptHead + content[..ReadmeLimit] + "\n"
  {
    PromptHead + Truncate(content, ReadmeLimit) + "\n"
  }

  /**
   * The request `analyze_readme` posts: the chat endpoint and model, the key as a bearer
   * token, and a prompt that carries at most the first `ReadmeLimit` characters of the README.
   */
  function Request(analyzer: Analyzer, content: string): (r: ChatRequest)
    ensures r.url == ApiUrl && r.model == ChatModel
    ensures r.authorization == "Bearer " + Display(analyzer.apiKey)
    ensures StartsWith(r.prompt, PromptHead) && |r.prompt| <= |PromptHead| + ReadmeLimit + 1
    ensures |content| <= ReadmeLimit ==> r.prompt == PromptHead + content + "\n"
    ensures |content| > ReadmeLimit ==> r.prompt == PromptHead + content[..ReadmeLimit] + "\n"
  {
    ChatRequest(ApiUrl, "Bearer " + Display(analyzer.apiKey), ChatModel, Prompt(content))
  }

  /**
   * The outcome mapping of `analyze_readme` once the POST has happened. `None` is the
   * fall-through of a non-200 status. Every other path yields a result dict.
   */
  function AnalyzeReply(reply: Transport, loads: Decoder): (r: Option<Outcome>)
    ensures r.None? <==> reply.Response? && reply.status != 200
    ensures reply.Raised? ==> r == Some(Failed(reply.reason))
    ensures forall a :: r == Some(Succeeded(a)) <==>
      && reply.Response? && reply.status == 200 && reply.body.Json?
      && ExtractContent(reply.body.value).Ok?
      && var content := ExtractContent(reply.body.value).value;
      && content.Some? && content.value.Str? && content.value.text != ""
      && ParseAnalysisResult(content.value.text, loads) == Ok(a)
  {
    match reply
    case Raised(reason) => Some(Failed(reason))
    case Response(status, body) =>
      if status != 200 then None
      else
        match body
        case NotJson(reason) => Some(Failed(reason))
        case Json(result) =>
          match ExtractContent(result)
          case Err(e) => Some(Failed(ExcText(e)))
          case Ok(content) =>
            if content.None? || !Truthy(content.value) then Some(Failed(NoValidReply))
            else if !content.value.Str? then Some(Failed(ExcText(AttributeMissing(content.value, "replace"))))
            else
              match ParseAnalysisResult(content.value.text, loads)
              case Ok(a) => Some(Succeeded(a))
              case Err(e) =>
                if e.JsonDecodeError? || e.KeyError? then Some(Failed(ParseFailurePrefix + ExcText(e)))
                else Some(Failed(ExcText(e)))
  }

  /** `analyze_readme`: one POST of the prompt, then the outcome mapping. */
  function AnalyzeReadme(analyzer: Analyzer, content: string, post: ChatRequest -> Transport, loads: Decoder): (r: Option<Outcome>)
    ensures r.None? <==> post(Request(analyzer, content)).Response? && post(Request(analyzer, content)).status != 200
    ensures post(Request(analyzer, content)).Raised? ==> r == Some(Failed(post(Request(analyzer, content)).reason))
    ensures r.Some? && r.value.Succeeded? ==>
      post(Request(analyzer, content)).Response? && post(Request(analyzer, content)).status == 200
  {
    AnalyzeReply(post(Request(analyzer, content)), loads)
  }

  /** The result dict itself, keys in the order the source writes them. */
  function AsDict(o: Outcome): (d: Dict)
    ensures UniqueKeys(d)
    ensures Lookup(d, "success") == Some(Bool(o.Succeeded?))
    ensures o.Succeeded? ==> KeysOf(d) == ["success", "summary", "tech_tags", "domain_tags"]
    ensures o.Succeeded? ==>
      && Lookup(d, "summary") == Some(o.analysis.summary)
      && Lookup(d, "tech_tags") == Some(o.analysis.techTags)
      && Lookup(d, "domain_tags") == Some(o.analysis.domainTags)
    ensures o.Failed? ==> KeysOf(d) == ["success", "error"] && Lookup(d, "error") == Some(Str(o.error))
  {
    match o
    case Succeeded(a) =>
      [("success", Bool(true)), ("summary", a.summary), ("tech_tags", a.techTags), ("domain_tags", a.domainTags)]
    case Failed(e) => [("success", Bool(false)), ("error", Str(e))]
  }

  // ---------------------------------------------------------------- lemmas

  /** The prompt, and so the whole analysis, depends on the first ReadmeLimit characters only. */
  lemma AnalysisSeesOnlyTheLimit(analyzer: Analyzer, c1: string, c2: string, post: ChatRequest -> Transport, loads: Decoder)
    requires Truncate(c1, ReadmeLimit) == Truncate(c2, ReadmeLimit)
    ensures AnalyzeReadme(analyzer, c1, post, loads) == AnalyzeReadme(analyzer, c2, post, loads)
  {
  }

  /** A successful parse of a non-empty reply text gives `success: True` with exactly the three parsed fields. */
  lemma SuccessCarriesParsedFields(reply: Transport, loads: Decoder, text: string, a: ReadmeAnalysis)
    requires reply.Response? && reply.status == 200 && reply.body.Json?
    requires ExtractContent(reply.body.value) == Ok(Some(Str(text))) && text != ""
    requires ParseAnalysisResult(text, loads) == Ok(a)
    ensures AnalyzeReply(reply, loads) == Some(Succeeded(a))
    ensures KeysOf(AsDict(Succeeded(a))) == ["success", "summary", "tech_tags", "domain_tags"]
  {
  }

  /** A reply that the parser rejects (bad JSON or a missing field) is reported with the parse-failure prefix. */
  lemma ParseFailureIsPrefixed(reply: Transport, loads: Decoder, text: string)
    requires reply.Response? && reply.status == 200 && reply.body.Json?
    requires ExtractContent(reply.body.value) == Ok(Some(Str(text))) && text != ""
    requires ParseAnalysisResult(text, loads).Err?
    requires ParseAnalysisResult(text, loads).error.JsonDecodeError? || ParseAnalysisResult(text, loads).error.KeyError?
    ensures AnalyzeReply(reply, loads) == Some(Failed(ParseFailurePrefix + ExcText(ParseAnalysisResult(text, loads).error)))
  {
  }

  /**
   * Every exception the outer handler catches gives `success: False` with the exception
   * text, unprefixed: here a body that is not JSON and a TypeError out of the extraction.
   */
  lemma RaisedAfterReplyFails(reply: Transport, loads: Decoder)
    requires reply.Response? && reply.status == 200
    ensures reply.body.NotJson? ==> AnalyzeReply(reply, loads) == Some(Failed(reply.body.reason))
    ensures reply.body.Json? && ExtractContent(reply.body.value).Err? ==>
      AnalyzeReply(reply, loads) == Some(Failed(ExcText(ExtractContent(reply.body.value).error)))
  {
  }

  /** The same for the reply text: `replace` on a non-string, or the parser's TypeError. */
  lemma RaisedOnContentFails(reply: Transport, loads: Decoder, c: Value)
    requires reply.Response? && reply.status == 200 && reply.body.Json?
    requires ExtractContent(reply.body.value) == Ok(Some(c)) && Truthy(c)
    ensures !c.Str? ==> AnalyzeReply(reply, loads) == Some(Failed(ExcText(AttributeMissing(c, "replace"))))
    ensures c.Str? && ParseAnalysisResult(c.text, loads).Err? && ParseAnalysisResult(c.text, loads).error.TypeError? ==>
      AnalyzeReply(reply, loads) == Some(Failed(ExcText(ParseAnalysisResult(c.text, loads).error)))
  {
  }

  /** A reply text that is missing or empty yields the fixed "no valid reply" error. */
  lemma EmptyContentIsNoValidReply(reply: Transport, loads: Decoder)
    requires reply.Response? && reply.status == 200 && reply.body.Json?
    requires ExtractContent(reply.body.value) in {Ok(None), Ok(Some(Str(""))), Ok(Some(Null))}
    ensures AnalyzeReply(reply, loads) == Some(Failed(NoValidReply))
  {
  }

  /** The envelope the chat API documents, with the reply text at `choices[0].message.content`. */
  lemma ExtractFromEnvelope(text: string)
    ensures ExtractContent(Obj([("choices", List([Obj([("message", Obj([("role", Str("assistant")), ("content", Str(text))]))])]))]))
         == Ok(Some(Str(text)))
  {
    var envelope := Obj([("choices", List([Obj([("message", Obj([("role", Str("assistant")), ("content", Str(text))]))])]))]);
    assert HasContentPath(envelope, Str(text));
  }

  /** A fenced reply whose decoded object lacks `domain_tags` is rejected with a `KeyError` naming that field. */
  lemma ParseFencedReply(inner: string, loads: Decoder, s: Value, t: Value)
    requires loads(StripFences("```json\n" + inner + "\n```")) == Ok(Obj([("summary", s), ("tech_tags", t)]))
    ensures ParseAnalysisResult("```json\n" + inner + "\n```", loads) == Err(KeyError(KStr("domain_tags")))
  {
    var d := [("summary", s), ("tech_tags", t)];
    assert KeysOf(d) == ["summary", "tech_tags"];
    assert FirstMissingField(d) == Some("domain_tags");
  }
}

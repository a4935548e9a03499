# GitHub trending digest, modelled in Dafny

The system collects the day's (or week's, or month's) trending GitHub repositories. For
each of the first `limit` repositories it fetches the README, cleans it, and asks a chat
model for a short summary, technology tags and domain tags. It then sends one digest
message through the Server酱 (ServerChan) push service and generates an HTML report.

This project models the behaviour of that core and proves properties of it:

- `wrappers.dfy`: `Option` and `Result`.
- `text.dfy` (`Text`): the string operations the source relies on — `str.strip`,
  `splitlines`/`split`, `join` and `replace(x, "")` — with their round-trip and
  idempotence lemmas.
- `py_values.dfy` (`PyValues`): the Python values the code handles (`None`, booleans,
  integers, strings, lists, insertion-ordered dicts). It also models `dict.get`,
  `{**a, **b}`, subscripting with its `KeyError`/`IndexError`/`TypeError`, exception
  texts, and `str()` of a value.
- `ai_analyzer.py` becomes `AiAnalyzer`: the prompt, the extraction of the reply text
  from the chat-completion envelope, the parsing of that text into a `ReadmeAnalysis`,
  and the mapping of every outcome of `analyze_readme` to its result dict, or to `None`
  when the status is not 200.
- `repo_processor.py` becomes `RepoProcessor`: `extract_repo_urls`, the endpoint built
  by `get_readme_content`, and `clean_readme`. The six regular expressions are
  hand-written scanners with `re.sub`'s left-to-right, non-overlapping semantics under
  `DOTALL`; `$` also matches just before a final newline. `clean_readme` is a method
  whose loop runs the passes in list order.
- `server_chan.py` becomes `ServerChan`: the send-key check of the constructor,
  `format_repo_message` and `format_trending_message`.
- `trending_pipeline.py` becomes `TrendingPipeline`: the constructor and the `run`
  method. `run` loops over the truncated trending list, skips an item on `continue`
  or on a caught exception, and delivers the batch only when it is non-empty. The
  outside world is passed in as functions: the README fetch, the HTML-to-text step,
  the chat POST and the JSON decoder. The run returns the trace of its effects: the
  message sent, then the report generated.
- `helpers.py` becomes `Helpers`: the `ConfigLoader` class, which loads its
  configuration only while none is loaded and falls back to `{}` when loading fails,
  and its `get` loop over nested dicts with a default.

## Model

| member | source | states |
|---|---|---|
| AiAnalyzer.ContentAt | src/services/ai_analyzer.py:24 | the subscript chain succeeds exactly on a response whose `choices[0].message.content` exists and gives that value; every failure is a KeyError, IndexError or TypeError |
| AiAnalyzer.ExtractContent | src/services/ai_analyzer.py:23-27 | the content is returned whenever the path exists; a response without `choices`, or with an empty `choices` list, gives `None`; only a TypeError escapes |
| AiAnalyzer.ExtractContentCases | src/services/ai_analyzer.py:23-27 | a response, first choice or message that is not a dict raises TypeError; a first choice without `message`, or a message without `content`, gives `None` |
| AiAnalyzer.ExtractFromEnvelope | src/services/ai_analyzer.py:24 | on the envelope the chat API documents, the reply text is extracted |
| AiAnalyzer.StripFences | src/services/ai_analyzer.py:106 | the cleaned text contains no three-backtick fence and neither begins nor ends with whitespace |
| AiAnalyzer.UnfencedIsStripped | src/services/ai_analyzer.py:106 | a reply without any backtick is only trimmed |
| AiAnalyzer.FencedIsBody | src/services/ai_analyzer.py:106 | a reply written as a ```` ```json ```` code block gives its trimmed body: both fences and the newlines next to them are gone |
| AiAnalyzer.FirstMissingField | src/services/ai_analyzer.py:112-116 | there is no missing field exactly when all of `summary`, `tech_tags` and `domain_tags` are present; a reported field is one of the three, is absent, and every field read before it is present |
| AiAnalyzer.ParseAnalysisResult | src/services/ai_analyzer.py:104-123 | a decode failure is re-raised as JSONDecodeError; a decoded non-dict raises TypeError; a missing field raises KeyError naming the first one missing and gives no partial record; otherwise the three fields are copied exactly as decoded |
| AiAnalyzer.ParseFencedReply | src/services/ai_analyzer.py:106-116 | a fenced reply whose object lacks `domain_tags` is rejected with a KeyError naming `domain_tags` |
| AiAnalyzer.Truncate | src/services/ai_analyzer.py:44 | the slice `s[:n]` is a prefix of `s` of length `min(n, len(s))`: all of `s` when it is not longer, its first `n` characters otherwise |
| AiAnalyzer.Prompt | src/services/ai_analyzer.py:31-45 | the prompt is the fixed template followed by the whole README and a newline when it has at most 10000 characters, and by its first 10000 characters and a newline otherwise |
| AiAnalyzer.Request | src/services/ai_analyzer.py:47-55 | the POST goes to the chat-completions URL with the `deepseek-chat` model, the key as a `Bearer` token and the prompt of the README, which carries at most its first 10000 characters |
| AiAnalyzer.AnalysisSeesOnlyTheLimit | src/services/ai_analyzer.py:44 | two READMEs that agree on their first 10000 characters get the same analysis |
| AiAnalyzer.AnalyzeReply | src/services/ai_analyzer.py:57-78 | the result is `None` exactly when the status is not 200; a raised request gives a failure carrying the exception text; a success happens exactly for status 200 with JSON, non-empty text content and a successful parse, and carries that parse |
| AiAnalyzer.AnalyzeReadme | src/services/ai_analyzer.py:46-78 | posting the README's request, the result is `None` exactly when the answer's status is not 200; a raised POST gives a failure with its text; a success needs status 200 |
| AiAnalyzer.RaisedAfterReplyFails | src/services/ai_analyzer.py:58-60 | with status 200, a body that is not JSON, or an envelope on which the extraction raises TypeError, gives a failure carrying the exception text |
| AiAnalyzer.RaisedOnContentFails | src/services/ai_analyzer.py:61-64 | a truthy reply content that is not a string fails with the AttributeError text for `replace`; a TypeError of the parser (a decoded non-dict) fails with its text, without the parse prefix |
| AiAnalyzer.SuccessCarriesParsedFields | src/services/ai_analyzer.py:57-70 | status 200, non-empty content and a successful parse give `success: True` with exactly the three parsed fields |
| AiAnalyzer.ParseFailureIsPrefixed | src/services/ai_analyzer.py:71-72 | a JSON or missing-field error becomes a failure whose error is `解析响应失败: ` followed by the exception text |
| AiAnalyzer.EmptyContentIsNoValidReply | src/services/ai_analyzer.py:59-74 | missing, empty or `None` content gives the failure `无法获取有效响应` |
| AiAnalyzer.AsDict | src/services/ai_analyzer.py:65-78 | a success dict has the keys `success`, `summary`, `tech_tags`, `domain_tags` in that order with `success` true; a failure dict has the keys `success`, `error` with `success` false |
| RepoProcessor.ExtractRepoUrls | src/services/repo_processor.py:23-25 | every output URL is truthy and is the URL of some input item; every truthy item URL is in the output; the output is no longer than the input |
| RepoProcessor.ExtractRepoUrlsAppend | src/services/repo_processor.py:25 | the extraction works item by item in input order: extracting from `a + b` is extracting from `a`, then from `b` |
| RepoProcessor.ReadmeEndpoint | src/services/repo_processor.py:31-34 | an endpoint is built exactly when the URL has at least two `/`-separated segments |
| RepoProcessor.OwnerRepoEndpoint | src/services/repo_processor.py:31-34 | a URL `owner/repo`, or one ending in `/owner/repo`, is sent to `https://api.github.com/repos/owner/repo/readme`, whatever comes before |
| RepoProcessor.GetReadmeContent | src/services/repo_processor.py:27-44 | a URL that is not a string (the `split` raises) or has no `/` gives `None`; otherwise the result is the fetch of the built endpoint |
| RepoProcessor.LazySectionEnd | src/services/repo_processor.py:57-60 | the lazy `.*?` stops at the first position where the lookahead for `##` or the end of the text holds |
| RepoProcessor.SectionEnd | src/services/repo_processor.py:57-60 | a section pattern matches exactly where its heading starts, and runs to the first lookahead stop after the heading |
| RepoProcessor.FindFrom | src/services/repo_processor.py:61-62 | the search returns the first occurrence at or after the start, or reports that there is none |
| RepoProcessor.ClassBadgeEnd | src/services/repo_processor.py:61 | the pattern matches exactly a character of the class `[![.*?]`, then `(`, then text up to the first `)]`, which it includes |
| RepoProcessor.LinkedBadgeEnd | src/services/repo_processor.py:62 | the pattern matches `[![`, then text up to the first `](`, then text up to the first `)]` after it |
| RepoProcessor.MatchLen | src/services/repo_processor.py:56-63 | a match of any of the six patterns is non-empty and lies within the text |
| RepoProcessor.Sub | src/services/repo_processor.py:66 | a deletion pass never lengthens the text |
| RepoProcessor.SubKeepsOrder | src/services/repo_processor.py:65-66 | what a pass keeps is a subsequence of its input: text outside the deleted spans is kept, in order |
| RepoProcessor.KeepPrefix | src/services/repo_processor.py:66 | a stretch in which no match starts is copied through unchanged, and the scan goes on after it |
| RepoProcessor.NoMatchNoChange | src/services/repo_processor.py:66 | a text in which no match starts is returned as it is |
| RepoProcessor.SectionRemoved | src/services/repo_processor.py:57-60 | a denylisted section is deleted from its heading to just before the next `##` |
| RepoProcessor.SectionAtEndRemoved | src/services/repo_processor.py:57-60 | a denylisted section that runs to the end of the text is deleted to the end |
| RepoProcessor.SectionBeforeFinalNewline | src/services/repo_processor.py:57-60 | since `$` also matches before a final newline, a last section is deleted up to that newline, which stays |
| RepoProcessor.SectionBetween | src/services/repo_processor.py:57-60 | across an introduction without `##`, one denylisted section and a following section, the pass keeps the introduction and the following section, and deletes the denylisted one |
| RepoProcessor.IntroKept | src/services/repo_processor.py:57-66 | a section pass keeps a leading stretch without `##` and goes on with the rest |
| RepoProcessor.SectionAbsentNoChange | src/services/repo_processor.py:57-60 | a section pass whose heading does not occur changes nothing |
| RepoProcessor.SectionPassLeavesNoHeading | src/services/repo_processor.py:57-66 | after a pass for a plain title, the output contains no occurrence of that title's heading |
| RepoProcessor.LinkedBadgeRemoved | src/services/repo_processor.py:62 | a link-wrapped badge `[![alt](src)]` is deleted, whatever follows it |
| RepoProcessor.ClassBadgeRemoved | src/services/repo_processor.py:61 | a class character followed by `(…)]` is deleted, as the pattern as written matches |
| RepoProcessor.BadgesAbsentNoChange | src/services/repo_processor.py:61-62 | the badge passes leave a text without a badge start unchanged |
| RepoProcessor.ApplyAll | src/services/repo_processor.py:65-66 | running the patterns in list order never lengthens the text |
| RepoProcessor.ApplyAllSteps | src/services/repo_processor.py:56-66 | the six passes run in list order, each over the whole output of the previous one |
| RepoProcessor.StripNonBlank | src/services/repo_processor.py:69 | every kept line is non-blank and equal to its own trim, and no line is added |
| RepoProcessor.StripNonBlankOne | src/services/repo_processor.py:69 | a single line is dropped when its trim is empty and is otherwise kept as its trim |
| RepoProcessor.KeptLines | src/services/repo_processor.py:69 | the kept lines of a text are non-blank and trimmed, and no more than the text's lines |
| RepoProcessor.NormalizeLines | src/services/repo_processor.py:69 | the normalised text is empty exactly when no line is kept |
| RepoProcessor.StripNonBlankAppend | src/services/repo_processor.py:69 | lines are kept independently, so the kept lines of two stretches are those of each, in order |
| RepoProcessor.StripNonBlankFixed | src/services/repo_processor.py:69 | lines that are already trimmed and non-blank all pass through unchanged |
| RepoProcessor.NormalizedShape | src/services/repo_processor.py:69 | split at line breaks, the normalised text gives back exactly the kept lines: no blank line, each equal to its trim |
| RepoProcessor.NormalizeIdempotent | src/services/repo_processor.py:69 | normalising the normalised text changes nothing |
| RepoProcessor.KeptLinesConcat | src/services/repo_processor.py:69 | the kept lines of `a`, a newline, then `b` are the kept lines of `a` followed by those of `b`, so non-blank lines keep their order |
| RepoProcessor.CleanedReadme | src/services/repo_processor.py:46-70 | empty content gives ""; every line of a non-empty result is non-blank and trimmed |
| RepoProcessor.CleanReadme | src/services/repo_processor.py:46-70 | the loop computes the cleaning function; empty content gives ""; every line of the result is non-blank and trimmed |
| RepoProcessor.OtherSectionsUntouched | src/services/repo_processor.py:57-59 | a document without the headings Table of Contents, Contributing and License passes their three passes unchanged |
| RepoProcessor.InstallationDroppedUsageKept | src/services/repo_processor.py:46-70 | a README made of an introduction, an Installation section and a Usage section is cleaned to the normalised introduction and Usage section |
| ServerChan.NewSender | src/services/server_chan.py:12-15 | a missing `server_chan` section, or a missing or falsy key, raises ValueError; a section that is not a dict raises AttributeError; otherwise the sender keeps the key and posts to `https://sctapi.ftqq.com/<key>.send` |
| ServerChan.Iterate | src/services/server_chan.py:27 | iterating a string, list or dict succeeds and a list yields its items; `None`, a bool or an int raises |
| ServerChan.Wrap | src/services/server_chan.py:27 | every tag is wrapped in backticks, one output per tag |
| ServerChan.TagLine | src/services/server_chan.py:26-36 | missing or empty tags give ""; a list gives a newline, the caption, and the backticked tags two spaces apart; a truthy number raises TypeError |
| ServerChan.FormatRepoMessage | src/services/server_chan.py:17-42 | a missing or false `success` gives the failure block, with the defaults "Unknown", "未知错误" and ""; otherwise the success block of the two tag lines, which fails only when a tag line raises |
| ServerChan.FailureBlockLines | src/services/server_chan.py:21-24 | the failure block is the name header, the quoted error and the project link, each on its own line |
| ServerChan.SuccessBlockLines | src/services/server_chan.py:38-42 | the success block is, line by line, the name header, the quoted summary, the two tag lines, the project link and a closing `----` |
| ServerChan.TagsReadBack | src/services/server_chan.py:27 | splitting a tag line's tags at the backticks gives every tag back, in order, between the two-space gaps |
| ServerChan.TimeLabel | src/services/server_chan.py:48-49 | the window label is one of 今日, 本周, 本月 |
| ServerChan.TimeLabels | src/services/server_chan.py:48-49 | daily reads 今日, weekly 本周 and monthly 本月, and any other window reads as daily |
| ServerChan.Title | src/services/server_chan.py:49-51 | the title starts with `GitHub <label>趋势项目` and is longer than that exactly when a non-empty language is given |
| ServerChan.TitleLanguage | src/services/server_chan.py:50-51 | a non-empty language appends exactly ` - <language>`; an empty one changes nothing |
| ServerChan.MapAll | src/services/server_chan.py:54 | the list comprehension succeeds exactly when every element's block does, and then holds each block at its element's position |
| ServerChan.FormatAll | src/services/server_chan.py:54 | the blocks are formatted in input order, one per record; the whole fails exactly when some record fails |
| ServerChan.MapAllAppend | src/services/server_chan.py:54 | formatting `a + b` is formatting `a`, then `b` |
| ServerChan.FormatTrendingMessage | src/services/server_chan.py:44-56 | the digest succeeds exactly when every block does; its title is the window title and its body is the blocks joined by blank lines; an empty list gives an empty body |
| ServerChan.DigestOfConcat | src/services/server_chan.py:54-56 | the body of `a + b` is the body of `a`, a blank line, then the body of `b` |
| TrendingPipeline.NewPipeline | src/services/trending_pipeline.py:10-15 | the pipeline is built exactly when the sender's config is valid, and otherwise raises the sender's error; the analyzer keeps the API key |
| TrendingPipeline.PySliceTo | src/services/trending_pipeline.py:26 | `s[:limit]` is a prefix of `s`, of length `min(limit, len)` for a non-negative limit, counting from the end for a negative one |
| TrendingPipeline.RepoAnalysis | src/services/trending_pipeline.py:35-45 | an item without a `url` key is skipped by the caught KeyError |
| TrendingPipeline.RepoAnalysisCases | src/services/trending_pipeline.py:35-42 | an item whose README is missing or empty is skipped; otherwise the analysis is of the cleaned README |
| TrendingPipeline.ProcessRepo | src/services/trending_pipeline.py:33-49 | an item yields a record exactly when its analysis gives a result dict, and the record is the item merged with that dict; a `None` analysis fails the merge and skips the item |
| TrendingPipeline.MergedRecord | src/services/trending_pipeline.py:45 | the merged record keeps every key of the repository in its place, keeps its values except where the analysis writes the same key, and carries the analysis' `success` and `error` or `summary` |
| TrendingPipeline.FailedAnalysisKept | src/services/trending_pipeline.py:42-46 | an item whose analysis failed is still appended, marked `success: False` with its error and all its own keys |
| TrendingPipeline.Collect | src/services/trending_pipeline.py:29-46 | the loop appends at most one record per item |
| TrendingPipeline.KeptPositions | src/services/trending_pipeline.py:31-46 | the positions that yield a record are listed in increasing order, and all of them are listed |
| TrendingPipeline.CollectByPosition | src/services/trending_pipeline.py:31-46 | the batch is exactly the records of the kept positions, in source order: an order-preserving selection of the items |
| TrendingPipeline.CollectAppend | src/services/trending_pipeline.py:31-49 | each item is handled in isolation: the batch of `a + b` is the batch of `a` followed by that of `b` |
| TrendingPipeline.Batch | src/services/trending_pipeline.py:29-49 | the batch has at most one record per item |
| TrendingPipeline.BatchBound | src/services/trending_pipeline.py:26-46 | the batch of the truncated list has at most `min(limit, len)` records |
| TrendingPipeline.ThreeRepos | src/services/trending_pipeline.py:31-49 | with A processed, B's README missing and C's analysis failing, the batch is A's record, then C's marked unsuccessful, which is C merged with its failure dict |
| TrendingPipeline.Deliver | src/services/trending_pipeline.py:52-60 | an empty batch causes no effect; otherwise the message is sent and then the report is generated, unless formatting raises |
| TrendingPipeline.Run | src/services/trending_pipeline.py:17-60 | the loop computes the run's specification: missing or empty trending data causes no effect, and otherwise the truncated list's batch is delivered |
| TrendingPipeline.RunSpec | src/services/trending_pipeline.py:17-60 | missing or empty trending data finishes with no effect; a raised run means a non-empty batch whose digest failed to format; any effect is the digest of the truncated list's batch sent, then that batch reported |
| TrendingPipeline.NoDeliveryWithoutRecords | src/services/trending_pipeline.py:20-23 | without trending data, or when no item yields a record, nothing is sent and no report is made |
| TrendingPipeline.DeliveryOrder | src/services/trending_pipeline.py:51-60 | any effect means a non-empty batch, sent first and then reported, the same batch both times, under the window title |
| Helpers.LoadedConfig | src/utils/helpers.py:26-31 | a failed load gives `{}`; a successful one gives the parsed document |
| Helpers.Resolve | src/utils/helpers.py:41-48 | with no keys the whole value is returned; a non-dict value before a key gives `default` |
| Helpers.Walk | src/utils/helpers.py:41-48 | with no keys the path ends at the value itself |
| Helpers.ConfigLoader.constructor | src/utils/helpers.py:7-13 | the one instance starts with no configuration loaded |
| Helpers.ConfigLoader.Construct | src/utils/helpers.py:15-17 | a configuration that is already loaded is kept; otherwise the load's outcome is stored |
| Helpers.ConfigLoader.Reload | src/utils/helpers.py:50-52 | the configuration is replaced by the new load's outcome |
| Helpers.ConfigLoader.Get | src/utils/helpers.py:33-48 | the loop returns the lookup's value for the current configuration |
| Helpers.ResolveFollowsPath | src/utils/helpers.py:41-48 | when every key is present with a non-`None` value, `get` returns the nested value, whatever the default |
| Helpers.ResolveOffPath | src/utils/helpers.py:42-47 | where the path breaks (a non-dict, an absent key, a `None`), `get` returns `default`, provided `default` is not a dict |
| Helpers.ResolveIsWalk | src/utils/helpers.py:41-48 | with a non-dict default, `get` is the path's value when the path exists and `default` otherwise |
| Helpers.AbsentKeyWalksDefault | src/utils/helpers.py:45 | an absent key loads `default` into the walk, which goes on inside `default` |
| Helpers.FailedLoadGivesDefault | src/utils/helpers.py:29-31 | after a failed load, every non-empty key path yields a non-dict default |
| Helpers.ConstructTwice | src/utils/helpers.py:15-17 | a second construction does not reload, except after a first load that gave an empty document |
| Text.StripIdempotent | src/services/repo_processor.py:69 | trimming a trimmed string changes nothing |
| Text.SplitJoin | src/services/repo_processor.py:69 | splitting pieces joined by a separator (none containing it) gives the pieces back |
| Text.Strip | src/services/ai_analyzer.py:106 | the trim is a contiguous slice of the string that neither begins nor ends with whitespace, and is empty exactly when the string is all whitespace |
| Text.StripPadded | src/services/ai_analyzer.py:106 | trimming ignores one whitespace character added at each end |
| Text.StripSlice | src/services/ai_analyzer.py:106 | the trim is the slice between the leading and the trailing whitespace |
| Text.RemoveAll | src/services/ai_analyzer.py:106 | `replace(x, "")` never lengthens the text |
| Text.RemoveAllKeep | src/services/ai_analyzer.py:106 | a stretch in which the pattern cannot start is kept as it is, and the replacing goes on after it |
| Text.RemoveAllFront | src/services/ai_analyzer.py:106 | an occurrence at the front is removed, and the replacing goes on after it |
| Text.RemoveAllUniform | src/services/ai_analyzer.py:106 | `replace(x, "")` leaves no occurrence of a pattern made of one repeated character |
| PyValues.Subscript | src/services/ai_analyzer.py:24 | a dict with a string key succeeds exactly when the key is present and gives its value, and otherwise raises KeyError; a list with an in-range index gives that item; `None`, a bool or an int raises TypeError |
| PyValues.Merge | src/services/trending_pipeline.py:45 | a key is in `{**a, **b}` exactly when it is in `a` or in `b` |
| PyValues.UpdateLookup | src/services/trending_pipeline.py:45 | after `{**a, **b}` a key of `b` has `b`'s value and any other key keeps `a`'s |
| PyValues.UpdateKeepsPrefix | src/services/trending_pipeline.py:45 | laying `b` over `a` keeps `a`'s keys first, in `a`'s order |
| PyValues.MergeSpec | src/services/trending_pipeline.py:45 | the merged dict holds exactly the keys of both, takes `b`'s value where they clash, and keeps `a`'s keys first, in order |

## Left out

- HTTP is not modelled: the chat POST, the README GET with its base64 and UTF-8 decoding, and ServerChan's `send_message`. The POST and the GET are functions the caller supplies. The GET's decode errors and non-200 answers are inside the supplied `fetch`, which returns `None` for them. `send_message` is reduced to the `Sent` effect, and its return value is ignored, as `run` ignores it.
- `BeautifulSoup(...).get_text()` is an uninterpreted function from string to string, because it is a foreign HTML parser.
- `json.loads` and `response.json()` are decoders the caller supplies, because they are foreign code. JSON numbers with a fraction (Python floats) are not among the modelled values.
- The YAML file read is a `LoadResult` handed to the loader, because it is file I/O.
- `ConfigLoader.__new__` is not modelled as class-level state. The singleton appears as one `ConfigLoader` object on which every later construction calls `Construct`.
- The `RepoProcessor` constructor's request headers and GitHub token lookup are left out. They only affect the HTTP GET.
- `github_trending.py`, `html_generator`, `main.py` and `setup.py` are not part of this model. The trending list is an input of `Run`, and the HTML report is the `ReportGenerated` effect.
- All `print` logging is left out, because it is output only.
- PyValues.Repr: `str()` of a list or dict quotes strings with single quotes and escapes nothing. CPython's `repr` switches quotes and escapes special characters.
- Text.SplitWhere: `splitlines` counts `\r\n` as two breaks rather than one. After blank lines are dropped, the cleaned text is the same.
- The regular expressions are modelled by scanners for these six patterns only, not by a regular-expression engine.
- RepoProcessor.GetReadmeContent: the `split` of a URL that is not a string raises inside the method, and the handler turns that into `None`. The model gives `None` directly.
- AiAnalyzer.ParseAnalysisResult: a decoded object with a repeated key is read at the first entry for that key, while `json.loads` keeps the last one. The supplied decoder is taken to produce objects without repeated keys.
- TrendingPipeline.RepoAnalysis: an exception from `clean_readme` or from the supplied services is not modelled. Only the modelled raises (a missing `url` key, the merge with `None`) skip an item.

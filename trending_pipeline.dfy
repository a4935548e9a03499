// The pipeline run: fetch the trending list, keep the first `limit` items, build one
// record per repository from its README and its analysis, then deliver the digest and
// the report when at least one record was built.

module TrendingPipeline {
  import opened Wrappers
  import opened Text
  import opened PyValues
  import opened AiAnalyzer
  import opened RepoProcessor
  import opened ServerChan

  /** The services the pipeline owns: the analyzer with its key and the validated sender. */
  datatype Pipeline = Pipeline(analyzer: Analyzer, sender: Sender)

  /**
   * Everything the run reaches over the network or through a library: the README GET
   * (with its decoding), the HTML-to-text step, the chat POST and the JSON decoder.
   */
  datatype Services = Services(
    fetch: string -> Option<string>,
    getText: string -> string,
    post: ChatRequest -> Transport,
    loads: Decoder)

  /** What the run does to the outside world, in order. */
  datatype Effect = Sent(message: Message) | ReportGenerated(repos: seq<Dict>)

  /** A run either returns, having caused its effects, or raises out of the delivery step. */
  datatype RunResult = Finished(effects: seq<Effect>) | Threw(error: Exc)

  /** The constructor: the analyzer takes the key as given; the sender raises when its config is unusable. */
  function NewPipeline(apiKey: Value, serverChanConfig: Dict): (r: Result<Pipeline, Exc>)
    ensures r.Ok? <==> NewSender(serverChanConfig).Ok?
    ensures r.Err? ==> r.error == NewSender(serverChanConfig).error
    ensures r.Ok? ==> r.value.analyzer == Analyzer(apiKey) && r.value.sender == NewSender(serverChanConfig).value
  {
    var sender :- NewSender(serverChanConfig);
    Ok(Pipeline(Analyzer(apiKey), sender))
  }

  /** Python's `s[:limit]`: a negative limit counts from the end. */
  function PySliceTo<T>(s: seq<T>, limit: int): (r: seq<T>)
    ensures |r| <= |s| && r == s[..|r|]
    ensures 0 <= limit ==> |r| == if limit < |s| then limit else |s|
    ensures limit < 0 ==> |r| == if |s| + limit < 0 then 0 else |s| + limit
  {
    if 0 <= limit then s[..if limit < |s| then limit else |s|]
    else s[..if |s| + limit < 0 then 0 else |s| + limit]
  }

  /**
   * The analysis of one item, or `None` when the item is skipped before the merge: by a
   * missing `"url"` key (the handler catches the `KeyError`), by `continue` when there is
   * no README, or by an analysis of `None`, which makes `{**repo, **analysis}` raise.
   */
  function RepoAnalysis(p: Pipeline, svc: Services, repo: Dict): (r: Option<Outcome>)
    ensures !HasKey(repo, "url") ==> r.None?
  {
    match Subscript(Obj(repo), KStr("url"))
    case Err(_) => None
    case Ok(url) =>
      var readme := GetReadmeContent(url, svc.fetch);
      if readme.None? || readme.value == "" then None
      else AnalyzeReadme(p.analyzer, CleanedReadme(readme.value, svc.getText), svc.post, svc.loads)
  }

  /** One iteration of the loop: the record appended for `repo`, if any. */
  function ProcessRepo(p: Pipeline, svc: Services, repo: Dict): (r: Option<Dict>)
    ensures r.Some? <==> RepoAnalysis(p, svc, repo).Some?
    ensures r.Some? ==> r.value == Merge(repo, AsDict(RepoAnalysis(p, svc, repo).value))
  {
    match RepoAnalysis(p, svc, repo)
    case None => None
    case Some(outcome) => Some(Merge(repo, AsDict(outcome)))
  }

  /** The per-item step as a function value, so that the loop can be stated over any step. */
  function Step(p: Pipeline, svc: Services): Dict -> Option<Dict> {
    repo => ProcessRepo(p, svc, repo)
  }

  /** The records `step` yields for `items`, in order: what the loop appends. */
  function Collect(step: Dict -> Option<Dict>, items: seq<Dict>): (r: seq<Dict>)
    ensures |r| <= |items|
    decreases |items|
  {
    if items == [] then []
    else
      var last := step(items[|items| - 1]);
      Collect(step, items[..|items| - 1]) + (if last.Some? then [last.value] else [])
  }

  /** The positions of `items` that yield a record, in increasing order. */
  function KeptPositions(step: Dict -> Option<Dict>, items: seq<Dict>): (r: seq<nat>)
    ensures forall j :: 0 <= j < |r| ==> r[j] < |items| && step(items[r[j]]).Some?
    ensures forall j, k :: 0 <= j < k < |r| ==> r[j] < r[k]
    ensures forall i :: 0 <= i < |items| && step(items[i]).Some? ==> i in r
    decreases |items|
  {
    if items == [] then []
    else
      var n := |items| - 1;
      var front := items[..n];
      assert forall i :: 0 <= i < n ==> items[i] == front[i];
      KeptPositions(step, front) + (if step(items[n]).Some? then [n] else [])
  }

  /** The records built from `items`. */
  function Batch(p: Pipeline, svc: Services, items: seq<Dict>): (r: seq<Dict>)
    ensures |r| <= |items|
  {
    Collect(Step(p, svc), items)
  }

  /** The delivery step after the loop: nothing for an empty batch, else digest then report. */
  function Deliver(p: Pipeline, batch: seq<Dict>, language: Option<string>, since: string): (r: RunResult)
    ensures batch == [] ==> r == Finished([])
    ensures batch != [] ==> (r.Threw? <==> FormatTrendingMessage(batch, language, since).Err?)
    ensures batch != [] && r.Finished? ==>
      r.effects == [Sent(FormatTrendingMessage(batch, language, since).value), ReportGenerated(batch)]
  {
    if batch == [] then Finished([])
    else
      match FormatTrendingMessage(batch, language, since)
      case Err(e) => Threw(e)
      case Ok(message) => Finished([Sent(message), ReportGenerated(batch)])
  }

  /** What `run` does, given what `get_trending` returned. */
  function RunSpec(p: Pipeline, svc: Services, trending: Option<seq<Dict>>, language: Option<string>,
                   since: string, limit: int): (r: RunResult)
    ensures trending.None? || trending.value == [] ==> r == Finished([])
    ensures r.Threw? ==>
      && trending.Some? && Batch(p, svc, PySliceTo(trending.value, limit)) != []
      && FormatTrendingMessage(Batch(p, svc, PySliceTo(trending.value, limit)), language, since).Err?
    ensures r.Finished? && r.effects != [] ==>
      && trending.Some? && Batch(p, svc, PySliceTo(trending.value, limit)) != []
      && FormatTrendingMessage(Batch(p, svc, PySliceTo(trending.value, limit)), language, since).Ok?
      && r.effects == [Sent(FormatTrendingMessage(Batch(p, svc, PySliceTo(trending.value, limit)), language, since).value),
                       ReportGenerated(Batch(p, svc, PySliceTo(trending.value, limit)))]
  {
    if trending.None? || trending.value == [] then Finished([])
    else Deliver(p, Batch(p, svc, PySliceTo(trending.value, limit)), language, since)
  }

  /** `run`: the loop over the truncated list, then the delivery. */
  method Run(p: Pipeline, svc: Services, trending: Option<seq<Dict>>, language: Option<string>,
             since: string, limit: int) returns (r: RunResult)
    ensures r == RunSpec(p, svc, trending, language, since, limit)
    ensures trending.None? || trending.value == [] ==> r == Finished([])
  {
    if trending.None? || trending.value == [] {
      return Finished([]);
    }
    var data := PySliceTo(trending.value, limit);
    var processed: seq<Dict> := [];
    for i := 0 to |data|
      invariant processed == Collect(Step(p, svc), data[..i])
    {
      var repo := data[i];
      assert data[..i + 1][..i] == data[..i];
      var url := Subscript(Obj(repo), KStr("url"));
      if url.Err? {
        continue;
      }
      var readme := GetReadmeContent(url.value, svc.fetch);
      if readme.None? || readme.value == "" {
        continue;
      }
      var cleaned := CleanReadme(readme.value, svc.getText);
      var analysis := AnalyzeReadme(p.analyzer, cleaned, svc.post, svc.loads);
      if analysis.None? {
        continue;
      }
      var record := Merge(repo, AsDict(analysis.value));
      processed := processed + [record];
    }
    assert data[..|data|] == data;
    if processed != [] {
      var message := FormatTrendingMessage(processed, language, since);
      if message.Err? {
        return Threw(message.error);
      }
      return Finished([Sent(message.value), ReportGenerated(processed)]);
    }
    return Finished([]);
  }

  // ---------------------------------------------------------------- lemmas

  /** The collected records are exactly the records of the kept positions, in order. */
  lemma {:induction false} CollectByPosition(step: Dict -> Option<Dict>, items: seq<Dict>)
    ensures |Collect(step, items)| == |KeptPositions(step, items)|
    ensures forall j :: 0 <= j < |Collect(step, items)| ==>
      Collect(step, items)[j] == step(items[KeptPositions(step, items)[j]]).value
    decreases |items|
  {
    if items != [] {
      var n := |items| - 1;
      var front := items[..n];
      CollectByPosition(step, front);
      var c := Collect(step, items);
      var kp := KeptPositions(step, items);
      var cf := Collect(step, front);
      var kf := KeptPositions(step, front);
      assert c == cf + (if step(items[n]).Some? then [step(items[n]).value] else []);
      assert kp == kf + (if step(items[n]).Some? then [n] else []);
      forall j | 0 <= j < |c| ensures c[j] == step(items[kp[j]]).value {
        if j < |cf| {
          assert c[j] == cf[j] && kp[j] == kf[j] && kf[j] < n;
          assert items[kf[j]] == front[kf[j]];
        }
      }
    }
  }

  /** Collecting over two stretches collects each in turn. */
  lemma {:induction false} CollectAppend(step: Dict -> Option<Dict>, a: seq<Dict>, b: seq<Dict>)
    ensures Collect(step, a + b) == Collect(step, a) + Collect(step, b)
    decreases |b|
  {
    if b == [] {
      assert a + b == a;
    } else {
      var n := |b| - 1;
      assert (a + b)[..|a + b| - 1] == a + b[..n];
      assert (a + b)[|a + b| - 1] == b[n];
      CollectAppend(step, a, b[..n]);
    }
  }

  /** The batch of the first `limit` items has at most `min(limit, len)` records. */
  lemma BatchBound(p: Pipeline, svc: Services, items: seq<Dict>, limit: nat)
    ensures |Batch(p, svc, PySliceTo(items, limit))| <= limit
    ensures |Batch(p, svc, PySliceTo(items, limit))| <= |items|
  {
  }

  /** The keys an analysis dict can write. */
  const AnalysisKeys: set<string> := {"success", "summary", "tech_tags", "domain_tags", "error"}

  /**
   * A record is the repository's dict with the analysis dict laid over it: every repository
   * key survives, in its place, and keeps its value unless the analysis writes the same key;
   * `success` tells the outcome.
   */
  lemma MergedRecord(repo: Dict, o: Outcome)
    requires UniqueKeys(repo)
    ensures forall k :: HasKey(repo, k) ==> HasKey(Merge(repo, AsDict(o)), k)
    ensures forall k :: k !in AnalysisKeys ==> Lookup(Merge(repo, AsDict(o)), k) == Lookup(repo, k)
    ensures Lookup(Merge(repo, AsDict(o)), "success") == Some(Bool(o.Succeeded?))
    ensures o.Failed? ==> Lookup(Merge(repo, AsDict(o)), "error") == Some(Str(o.error))
    ensures o.Succeeded? ==> Lookup(Merge(repo, AsDict(o)), "summary") == Some(o.analysis.summary)
    ensures |Merge(repo, AsDict(o))| >= |repo| && KeysOf(Merge(repo, AsDict(o)))[..|repo|] == KeysOf(repo)
  {
    var d := AsDict(o);
    MergeSpec(repo, d);
    forall k | k !in AnalysisKeys
      ensures !HasKey(d, k)
    {
      assert KeysOf(d) == ["success", "summary", "tech_tags", "domain_tags"] || KeysOf(d) == ["success", "error"];
    }
  }

  /** Which items are skipped, and what is analysed for the rest. */
  lemma RepoAnalysisCases(p: Pipeline, svc: Services, repo: Dict)
    ensures HasKey(repo, "url") && GetReadmeContent(Get(repo, "url", Null), svc.fetch) in {None, Some("")}
      ==> RepoAnalysis(p, svc, repo).None?
    ensures HasKey(repo, "url") && GetReadmeContent(Get(repo, "url", Null), svc.fetch) !in {None, Some("")}
      ==> RepoAnalysis(p, svc, repo)
          == AnalyzeReadme(p.analyzer, CleanedReadme(GetReadmeContent(Get(repo, "url", Null), svc.fetch).value, svc.getText),
                           svc.post, svc.loads)
  {
    if HasKey(repo, "url") {
      assert Lookup(repo, "url") == Some(Get(repo, "url", Null));
    }
  }

  /** An item whose analysis failed is still appended, marked unsuccessful, with its own keys kept. */
  lemma FailedAnalysisKept(p: Pipeline, svc: Services, repo: Dict, error: string)
    requires UniqueKeys(repo) && RepoAnalysis(p, svc, repo) == Some(Failed(error))
    ensures ProcessRepo(p, svc, repo).Some?
    ensures Lookup(ProcessRepo(p, svc, repo).value, "success") == Some(Bool(false))
    ensures Lookup(ProcessRepo(p, svc, repo).value, "error") == Some(Str(error))
    ensures forall k :: HasKey(repo, k) ==> HasKey(ProcessRepo(p, svc, repo).value, k)
  {
    MergedRecord(repo, Failed(error));
  }

  /**
   * Three repositories A, B, C where B's README cannot be fetched and C's analysis
   * fails: the batch holds A's record and then C's, marked unsuccessful.
   */
  lemma ThreeRepos(p: Pipeline, svc: Services, a: Dict, b: Dict, c: Dict, error: string)
    requires ProcessRepo(p, svc, a).Some?
    requires HasKey(b, "url") && GetReadmeContent(Get(b, "url", Null), svc.fetch).None?
    requires UniqueKeys(c) && RepoAnalysis(p, svc, c) == Some(Failed(error))
    ensures |Batch(p, svc, [a, b, c])| == 2
    ensures Batch(p, svc, [a, b, c])[0] == ProcessRepo(p, svc, a).value
    ensures Batch(p, svc, [a, b, c])[1] == ProcessRepo(p, svc, c).value
    ensures Lookup(Batch(p, svc, [a, b, c])[1], "success") == Some(Bool(false))
  {
    RepoAnalysisCases(p, svc, b);
    FailedAnalysisKept(p, svc, c, error);
    CollectSkipsMiddle(Step(p, svc), a, b, c);
  }

  lemma CollectSkipsMiddle(step: Dict -> Option<Dict>, a: Dict, b: Dict, c: Dict)
    requires step(a).Some? && step(b).None? && step(c).Some?
    ensures Collect(step, [a, b, c]) == [step(a).value, step(c).value]
  {
    assert [a, b, c][..2] == [a, b];
    assert [a, b][..1] == [a];
    assert [a][..0] == [];
    assert Collect(step, [a]) == [step(a).value];
    assert Collect(step, [a, b]) == [step(a).value];
  }

  /** Without trending data, or when nothing could be processed, nothing is sent and no report is made. */
  lemma NoDeliveryWithoutRecords(p: Pipeline, svc: Services, trending: Option<seq<Dict>>,
                                 language: Option<string>, since: string, limit: int)
    requires trending.Some? ==> Batch(p, svc, PySliceTo(trending.value, limit)) == []
    ensures RunSpec(p, svc, trending, language, since, limit) == Finished([])
  {
  }

  /** When records exist, the digest is sent before the report is generated, over the same batch. */
  lemma DeliveryOrder(p: Pipeline, svc: Services, items: seq<Dict>, language: Option<string>, since: string, limit: int)
    requires items != []
    requires RunSpec(p, svc, Some(items), language, since, limit).Finished?
    requires RunSpec(p, svc, Some(items), language, since, limit).effects != []
    ensures var batch := Batch(p, svc, PySliceTo(items, limit));
      && batch != []
      && RunSpec(p, svc, Some(items), language, since, limit).effects
         == [Sent(FormatTrendingMessage(batch, language, since).value), ReportGenerated(batch)]
      && FormatTrendingMessage(batch, language, since).value.title == Title(language, since)
  {
  }
}

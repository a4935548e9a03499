/**
 * `src/services/server_chan.py`: the ServerChan sender's key check and the two
 * formatters that turn the processed repositories into one digest message.
 * Sending the message is not part of this model.
 */
module ServerChan {
  import opened Wrappers
  import opened Text
  import opened PyValues

  const ApiUrlPrefix: string := "https://sctapi.ftqq.com/"
  const ApiUrlSuffix: string := ".send"
  const MissingKeyMessage: string := "Server酱 send_key 未配置"

  /** A ServerChanSender: its send key and the endpoint derived from it. */
  datatype Sender = Sender(sendKey: Value, apiUrl: string)

  /** What `format_trending_message` returns: the dict `{"title": ..., "desp": ...}`. */
  datatype Message = Message(title: string, desp: string)

  /**
   * The constructor: `config.get("server_chan", {}).get("send_key")`, which raises
   * AttributeError when the section is present but not a dict, and ValueError when
   * the key is missing or falsy.
   */
  function NewSender(config: Dict): (r: Result<Sender, Exc>)
    ensures !HasKey(config, "server_chan") ==> r == Err(ValueError(MissingKeyMessage))
    ensures HasKey(config, "server_chan") && !Get(config, "server_chan", Null).Obj? ==>
      r == Err(AttributeMissing(Get(config, "server_chan", Null), "get"))
    ensures HasKey(config, "server_chan") && Get(config, "server_chan", Null).Obj? ==>
      var key := Get(Get(config, "server_chan", Null).entries, "send_key", Null);
      && (r.Ok? <==> Truthy(key))
      && (!Truthy(key) ==> r == Err(ValueError(MissingKeyMessage)))
      && (r.Ok? ==> r.value.sendKey == key && r.value.apiUrl == ApiUrlPrefix + Display(key) + ApiUrlSuffix)
  {
    var section := Get(config, "server_chan", Obj([]));
    if !section.Obj? then Err(AttributeMissing(section, "get"))
    else
      var key := Get(section.entries, "send_key", Null);
      if !Truthy(key) then Err(ValueError(MissingKeyMessage))
      else Ok(Sender(key, ApiUrlPrefix + Display(key) + ApiUrlSuffix))
  }

  // ------------------------------------------------------------- one repo

  /** `for tag in v`: the characters of a string, the items of a list, the keys of a dict. */
  function Iterate(v: Value): (r: Result<seq<Value>, Exc>)
    ensures r.Err? <==> v.Null? || v.Bool? || v.Int?
    ensures v.List? ==> r == Ok(v.items)
    ensures r.Ok? && Truthy(v) ==> r.value != []
  {
    match v
    case Str(s) => Ok(seq(|s|, i requires 0 <= i < |s| => Str([s[i]])))
    case List(xs) => Ok(xs)
    case Obj(es) => Ok(seq(|es|, i requires 0 <= i < |es| => Str(es[i].0)))
    case _ => Err(TypeError("'" + TypeName(v) + "' object is not iterable"))
  }

  /** Every tag in backticks. */
  function Wrap(tags: seq<string>): (r: seq<string>)
    ensures |r| == |tags|
    ensures forall i :: 0 <= i < |tags| ==> r[i] == "`" + tags[i] + "`"
  {
    seq(|tags|, i requires 0 <= i < |tags| => "`" + tags[i] + "`")
  }

  function DisplayAll(items: seq<Value>): (r: seq<string>)
    ensures |r| == |items| && forall i :: 0 <= i < |items| ==> r[i] == Display(items[i])
  {
    seq(|items|, i requires 0 <= i < |items| => Display(items[i]))
  }

  /**
   * The tech-stack or domain line: empty when the tags are missing or empty,
   * otherwise a newline, the caption and the backticked tags two spaces apart.
   */
  function TagLine(caption: string, tags: Value): (r: Result<string, Exc>)
    ensures !Truthy(tags) ==> r == Ok("")
    ensures Truthy(tags) && tags.List? ==> r == Ok("\n" + caption + Join("  ", Wrap(DisplayAll(tags.items))))
    ensures Truthy(tags) && (tags.Int? || tags.Bool?) ==> r.Err? && r.error.TypeError?
  {
    if !Truthy(tags) then Ok("")
    else
      var items :- Iterate(tags);
      Ok("\n" + caption + Join("  ", Wrap(DisplayAll(items))))
  }

  const TechLabel: string := "**技术栈**: "
  const DomainLabel: string := "**领域**:"
  const LinkText: string := "[查看项目]("

  /** The block for a repository whose analysis failed. */
  function FailureBlock(name: string, error: string, url: string): string {
    "### " + name + "\n" + "> AI 分析失败：" + error + "\n" + LinkText + url + ")" + "\n"
  }

  /** The block for an analysed repository; `tech` and `domain` are the tag lines. */
  function SuccessBlock(name: string, summary: string, tech: string, domain: string, url: string): string {
    "### " + name + "\n" + ("> " + summary + "\n" + (tech + "\n" + (domain + "\n" + (LinkText + url + ")" + "\n" + ("----" + "\n")))))
  }

  /**
   * `format_repo_message`: the failure block unless `success` is truthy, otherwise
   * the success block. Name, error, URL and summary fall back to "Unknown",
   * "未知错误", "" and "" when missing. Iterating tags that are not iterable raises.
   */
  function FormatRepoMessage(repo: Dict): (r: Result<string, Exc>)
    ensures !Truthy(Get(repo, "success", Bool(false))) ==>
      r == Ok(FailureBlock(Display(Get(repo, "name", Str("Unknown"))), Display(Get(repo, "error", Str("未知错误"))),
                           Display(Get(repo, "url", Str("")))))
    ensures Truthy(Get(repo, "success", Bool(false))) ==>
      (r.Ok? <==> TagLine(TechLabel, Get(repo, "tech_tags", Null)).Ok? && TagLine(DomainLabel, Get(repo, "domain_tags", Null)).Ok?)
    ensures Truthy(Get(repo, "success", Bool(false))) && r.Ok? ==>
      r.value == SuccessBlock(Display(Get(repo, "name", Str("Unknown"))), Display(Get(repo, "summary", Str(""))),
                              TagLine(TechLabel, Get(repo, "tech_tags", Null)).value,
                              TagLine(DomainLabel, Get(repo, "domain_tags", Null)).value,
                              Display(Get(repo, "url", Str(""))))
  {
    if !Truthy(Get(repo, "success", Bool(false))) then
      Ok(FailureBlock(Display(Get(repo, "name", Str("Unknown"))), Display(Get(repo, "error", Str("未知错误"))),
                      Display(Get(repo, "url", Str("")))))
    else
      var tech :- TagLine(TechLabel, Get(repo, "tech_tags", List([])));
      var domain :- TagLine(DomainLabel, Get(repo, "domain_tags", List([])));
      Ok(SuccessBlock(Display(Get(repo, "name", Str("Unknown"))), Display(Get(repo, "summary", Str(""))),
                      tech, domain, Display(Get(repo, "url", Str("")))))
  }

  // --------------------------------------------------------- whole digest

  /** `time_map.get(since, '今日')`. */
  function TimeLabel(since: string): (r: string)
    ensures r in {"今日", "本周", "本月"}
  {
    if since == "weekly" then "本周" else if since == "monthly" then "本月" else "今日"
  }

  /** The digest title: the time window, and ` - <language>` when a language is given and non-empty. */
  function Title(language: Option<string>, since: string): (r: string)
    ensures StartsWith(r, "GitHub " + TimeLabel(since) + "趋势项目")
    ensures |r| == |"GitHub " + TimeLabel(since) + "趋势项目"| <==> language.None? || language.value == ""
  {
    var title := "GitHub " + TimeLabel(since) + "趋势项目";
    assert StartsWith(title + " - ", title) by { assert (title + " - ")[..|title|] == title; }
    if language.Some? && language.value != "" then
      assert (title + " - " + language.value)[..|title|] == title;
      title + " - " + language.value
    else title
  }

  /** `[f(x) for x in xs]` where `f` may raise: the first raise decides the error. */
  function MapAll(f: Dict -> Result<string, Exc>, xs: seq<Dict>): (r: Result<seq<string>, Exc>)
    ensures r.Ok? <==> forall i :: 0 <= i < |xs| ==> f(xs[i]).Ok?
    ensures r.Ok? ==> |r.value| == |xs| && forall i :: 0 <= i < |xs| ==> r.value[i] == f(xs[i]).value
    decreases |xs|
  {
    if xs == [] then Ok([])
    else
      var first :- f(xs[0]);
      var rest :- MapAll(f, xs[1..]);
      assert forall i :: 1 <= i < |xs| ==> xs[i] == xs[1..][i - 1];
      Ok([first] + rest)
  }

  /** Every repository's block, in order; the first one that raises decides the error. */
  function FormatAll(repos: seq<Dict>): (r: Result<seq<string>, Exc>)
    ensures r.Ok? <==> forall i :: 0 <= i < |repos| ==> FormatRepoMessage(repos[i]).Ok?
    ensures r.Ok? ==> |r.value| == |repos| && forall i :: 0 <= i < |repos| ==> r.value[i] == FormatRepoMessage(repos[i]).value
  {
    MapAll(FormatRepoMessage, repos)
  }

  /** `format_trending_message`: the title and the blocks joined by blank lines. */
  function FormatTrendingMessage(repos: seq<Dict>, language: Option<string>, since: string): (r: Result<Message, Exc>)
    ensures r.Ok? <==> forall i :: 0 <= i < |repos| ==> FormatRepoMessage(repos[i]).Ok?
    ensures r.Ok? ==> r.value.title == Title(language, since) && r.value.desp == Join("\n\n", FormatAll(repos).value)
    ensures repos == [] ==> r == Ok(Message(Title(language, since), ""))
  {
    var blocks :- FormatAll(repos);
    Ok(Message(Title(language, since), Join("\n\n", blocks)))
  }

  // ---------------------------------------------------------------- lemmas

  predicate IsNewline(c: char) {
    c == '\n'
  }

  predicate IsBacktick(c: char) {
    c == '`'
  }

  /** A newline-free first line is split off as one piece. */
  lemma SplitFirstLine(a: string, b: string)
    requires NoSep(a, IsNewline)
    ensures SplitWhere(a + "\n" + b, IsNewline) == [a] + SplitWhere(b, IsNewline)
  {
    SplitConcat(a, '\n', b, IsNewline);
    SplitSingle(a, IsNewline);
  }

  /** The failure block is the header, the quoted error and the link, each on its own line. */
  lemma FailureBlockLines(name: string, error: string, url: string)
    requires NoSep(name, IsNewline) && NoSep(error, IsNewline) && NoSep(url, IsNewline)
    ensures SplitWhere(FailureBlock(name, error, url), IsNewline)
         == ["### " + name, "> AI 分析失败：" + error, LinkText + url + ")", ""]
  {
    var l1 := "### " + name;
    var l2 := "> AI 分析失败：" + error;
    var l3 := LinkText + url + ")";
    assert FailureBlock(name, error, url) == l1 + "\n" + (l2 + "\n" + (l3 + "\n" + ""));
    SplitFirstLine(l3, "");
    SplitFirstLine(l2, l3 + "\n" + "");
    SplitFirstLine(l1, l2 + "\n" + (l3 + "\n" + ""));
  }

  /** The lines a tag line adds to a block: a blank line, then the tags, or one blank line when it is empty. */
  function TagLines(line: string): seq<string> {
    if line == "" then [""] else ["", line[1..]]
  }

  /** The tail of the success block from the link on. */
  lemma LinkTailLines(url: string)
    requires NoSep(url, IsNewline)
    ensures SplitWhere(LinkText + url + ")" + "\n" + ("----" + "\n"), IsNewline) == [LinkText + url + ")", "----", ""]
  {
    SplitFirstLine("----", "");
    assert "----" + "\n" + "" == "----" + "\n";
    SplitFirstLine(LinkText + url + ")", "----" + "\n");
  }

  /**
   * The success block in lines: header, quoted summary, the two tag lines, the link,
   * and the closing `----`.
   */
  lemma SuccessBlockLines(name: string, summary: string, tech: string, domain: string, url: string)
    requires NoSep(name, IsNewline) && NoSep(summary, IsNewline) && NoSep(url, IsNewline)
    requires tech == "" || (tech[0] == '\n' && NoSep(tech[1..], IsNewline))
    requires domain == "" || (domain[0] == '\n' && NoSep(domain[1..], IsNewline))
    ensures SplitWhere(SuccessBlock(name, summary, tech, domain, url), IsNewline)
         == ["### " + name, "> " + summary] + TagLines(tech) + TagLines(domain) + [LinkText + url + ")", "----", ""]
  {
    var l1 := "### " + name;
    var l2 := "> " + summary;
    var t5 := LinkText + url + ")" + "\n" + ("----" + "\n");
    var t4 := domain + "\n" + t5;
    var t3 := tech + "\n" + t4;
    var tail := [LinkText + url + ")", "----", ""];
    assert SplitWhere(t4, IsNewline) == TagLines(domain) + tail by {
      LinkTailLines(url);
      TagLineSplit(domain);
      SplitConcat(domain, '\n', t5, IsNewline);
    }
    assert SplitWhere(t3, IsNewline) == TagLines(tech) + (TagLines(domain) + tail) by {
      TagLineSplit(tech);
      SplitConcat(tech, '\n', t4, IsNewline);
    }
    calc {
      SplitWhere(SuccessBlock(name, summary, tech, domain, url), IsNewline);
    == { SplitFirstLine(l1, l2 + "\n" + t3); }
      [l1] + SplitWhere(l2 + "\n" + t3, IsNewline);
    == { SplitFirstLine(l2, t3); }
      [l1] + ([l2] + (TagLines(tech) + (TagLines(domain) + tail)));
    == { RegroupLines(l1, l2, TagLines(tech), TagLines(domain), tail); }
      [l1, l2] + TagLines(tech) + TagLines(domain) + tail;
    }
  }

  lemma RegroupLines(a: string, b: string, x: seq<string>, y: seq<string>, z: seq<string>)
    ensures [a] + ([b] + (x + (y + z))) == [a, b] + x + y + z
  {
  }

  lemma TagLineSplit(line: string)
    requires line == "" || (line[0] == '\n' && NoSep(line[1..], IsNewline))
    ensures SplitWhere(line, IsNewline) == TagLines(line)
  {
    if line != "" {
      assert line == "" + "\n" + line[1..];
      SplitConcat("", '\n', line[1..], IsNewline);
      SplitSingle(line[1..], IsNewline);
    }
  }

  /** Gap-separated pieces: each tag followed by the two-space gap, the last by nothing. */
  function Alternate(tags: seq<string>): seq<string>
    requires tags != []
  {
    if |tags| == 1 then [tags[0], ""] else [tags[0], "  "] + Alternate(tags[1..])
  }

  /** A separator-free first piece is split off on its own. */
  lemma SplitOff(a: string, c: char, b: string, sep: char -> bool)
    requires sep(c) && NoSep(a, sep)
    ensures SplitWhere(a + [c] + b, sep) == [a] + SplitWhere(b, sep)
  {
    SplitConcat(a, c, b, sep);
    SplitSingle(a, sep);
  }

  lemma JoinWrapCons(tags: seq<string>)
    requires |tags| >= 2
    ensures Join("  ", Wrap(tags)) == "`" + (tags[0] + ("`" + ("  " + Join("  ", Wrap(tags[1..])))))
  {
    assert Wrap(tags)[1..] == Wrap(tags[1..]);
  }

  lemma ReadBackOne(t: string)
    requires NoSep(t, IsBacktick)
    ensures SplitWhere(Join("  ", Wrap([t])), IsBacktick) == [""] + Alternate([t])
  {
    assert Join("  ", Wrap([t])) == "" + ['`'] + (t + ['`'] + "");
    SplitOff("", '`', t + ['`'] + "", IsBacktick);
    SplitOff(t, '`', "", IsBacktick);
  }

  /** A tag list that starts with a backtick loses exactly its first, empty, piece when the backtick goes. */
  lemma DropLeadingBacktick(j: string, rest: seq<string>)
    requires j != [] && j[0] == '`' && rest != []
    requires SplitWhere(j, IsBacktick) == [""] + Alternate(rest)
    ensures SplitWhere(j[1..], IsBacktick) == Alternate(rest)
  {
    assert j == "" + ['`'] + j[1..];
    SplitOff("", '`', j[1..], IsBacktick);
    assert ([""] + SplitWhere(j[1..], IsBacktick))[1..] == SplitWhere(j[1..], IsBacktick);
    assert ([""] + Alternate(rest))[1..] == Alternate(rest);
  }

  /** A non-empty tag list opens with a backtick. */
  lemma JoinWrapOpens(tags: seq<string>)
    requires tags != []
    ensures Join("  ", Wrap(tags)) != [] && Join("  ", Wrap(tags))[0] == '`'
  {
    JoinHead("  ", Wrap(tags));
    var w0 := Wrap(tags)[0];
    assert w0[0] == '`';
    assert Join("  ", Wrap(tags))[..|w0|][0] == w0[0];
  }

  /** Three separator-free pieces, each closed by the separator `c`, are split off in order. */
  lemma SplitThree(a: string, b: string, d: string, c: char, rest: string, sep: char -> bool)
    requires sep(c) && NoSep(a, sep) && NoSep(b, sep) && NoSep(d, sep)
    ensures SplitWhere(a + [c] + (b + [c] + (d + [c] + rest)), sep) == [a, b, d] + SplitWhere(rest, sep)
  {
    SplitOff(d, c, rest, sep);
    SplitOff(b, c, d + [c] + rest, sep);
    SplitOff(a, c, b + [c] + (d + [c] + rest), sep);
  }

  /** Splitting a tag list of two or more tags: the opening gap, the first tag, the two-space gap, then the rest. */
  lemma JoinWrapPieces(tags: seq<string>)
    requires |tags| >= 2 && NoSep(tags[0], IsBacktick)
    ensures Join("  ", Wrap(tags[1..])) != []
    ensures SplitWhere(Join("  ", Wrap(tags)), IsBacktick)
         == ["", tags[0], "  "] + SplitWhere(Join("  ", Wrap(tags[1..]))[1..], IsBacktick)
  {
    var j := Join("  ", Wrap(tags[1..]));
    var whole := Join("  ", Wrap(tags));
    JoinWrapOpens(tags[1..]);
    var j' := j[1..];
    assert whole == "" + ['`'] + (tags[0] + ['`'] + ("  " + ['`'] + j')) by {
      JoinWrapCons(tags);
      assert j == [j[0]] + j';
    }
    SplitThree("", tags[0], "  ", '`', j', IsBacktick);
  }

  lemma Regroup(a: string, b: string, c: string, x: seq<string>)
    ensures [a, b, c] + x == [a] + ([b, c] + x)
  {
  }

  lemma ReadBackStep(tags: seq<string>)
    requires |tags| >= 2 && NoSep(tags[0], IsBacktick)
    requires SplitWhere(Join("  ", Wrap(tags[1..])), IsBacktick) == [""] + Alternate(tags[1..])
    ensures SplitWhere(Join("  ", Wrap(tags)), IsBacktick) == [""] + Alternate(tags)
  {
    var j := Join("  ", Wrap(tags[1..]));
    var x := Alternate(tags[1..]);
    JoinWrapOpens(tags[1..]);
    DropLeadingBacktick(j, tags[1..]);
    JoinWrapPieces(tags);
    assert Alternate(tags) == [tags[0], "  "] + x;
    Regroup("", tags[0], "  ", x);
  }

  /**
   * The tags can be read back from a tag list: splitting it at the backticks gives
   * every tag, in order, between the gaps.
   */
  lemma {:induction false} TagsReadBack(tags: seq<string>)
    requires tags != []
    requires forall i :: 0 <= i < |tags| ==> NoSep(tags[i], IsBacktick)
    ensures SplitWhere(Join("  ", Wrap(tags)), IsBacktick) == [""] + Alternate(tags)
    decreases |tags|
  {
    if |tags| == 1 {
      assert tags == [tags[0]];
      ReadBackOne(tags[0]);
    } else {
      assert forall i :: 0 <= i < |tags[1..]| ==> tags[1..][i] == tags[i + 1];
      TagsReadBack(tags[1..]);
      ReadBackStep(tags);
    }
  }

  lemma JoinHead(sep: string, parts: seq<string>)
    requires parts != []
    ensures StartsWith(Join(sep, parts), parts[0])
  {
    if |parts| > 1 {
      assert (parts[0] + sep + Join(sep, parts[1..]))[..|parts[0]|] == parts[0];
    }
  }

  /** Adding the language to the title only appends `" - <language>"`; an empty one is ignored. */
  lemma TitleLanguage(language: string, since: string)
    ensures language != "" ==> Title(Some(language), since) == Title(None, since) + " - " + language
    ensures language == "" ==> Title(Some(language), since) == Title(None, since)
  {
  }

  /** Daily, weekly and monthly read as 今日, 本周 and 本月, three different labels; any other window reads as daily. */
  lemma TimeLabels(since: string)
    ensures TimeLabel("daily") == "今日" && TimeLabel("weekly") == "本周" && TimeLabel("monthly") == "本月"
    ensures TimeLabel("daily") != TimeLabel("weekly") && TimeLabel("weekly") != TimeLabel("monthly")
      && TimeLabel("daily") != TimeLabel("monthly")
    ensures since !in {"daily", "weekly", "monthly"} ==> TimeLabel(since) == TimeLabel("daily")
  {
  }

  /** Mapping over two stretches maps each in turn; a raise in either is a raise of the whole. */
  lemma {:induction false} MapAllAppend(f: Dict -> Result<string, Exc>, a: seq<Dict>, b: seq<Dict>)
    requires MapAll(f, a + b).Ok?
    ensures MapAll(f, a).Ok? && MapAll(f, b).Ok?
    ensures MapAll(f, a + b).value == MapAll(f, a).value + MapAll(f, b).value
    decreases |a|
  {
    if a == [] {
      assert a + b == b;
    } else {
      var ab := a + b;
      assert ab[0] == a[0] && ab[1..] == a[1..] + b;
      MapAllAppend(f, a[1..], b);
      var first := f(a[0]).value;
      calc {
        MapAll(f, ab).value;
      ==
        [first] + MapAll(f, a[1..] + b).value;
      ==
        [first] + (MapAll(f, a[1..]).value + MapAll(f, b).value);
      ==
        ([first] + MapAll(f, a[1..]).value) + MapAll(f, b).value;
      ==
        MapAll(f, a).value + MapAll(f, b).value;
      }
    }
  }

  /** The digest of two batches is the two digests joined by a blank line. */
  lemma DigestOfConcat(a: seq<Dict>, b: seq<Dict>, language: Option<string>, since: string)
    requires a != [] && b != []
    requires FormatTrendingMessage(a + b, language, since).Ok?
    ensures FormatTrendingMessage(a, language, since).Ok? && FormatTrendingMessage(b, language, since).Ok?
    ensures FormatTrendingMessage(a + b, language, since).value.desp
         == FormatTrendingMessage(a, language, since).value.desp + "\n\n" + FormatTrendingMessage(b, language, since).value.desp
  {
    MapAllAppend(FormatRepoMessage, a, b);
    JoinAppend("\n\n", FormatAll(a).value, FormatAll(b).value);
  }
}

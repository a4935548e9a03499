/**
 * `src/services/repo_processor.py`: picking the repository URLs out of the trending
 * list, turning a repository URL into the GitHub README endpoint, and cleaning a
 * README (HTML text extraction, then six regular-expression deletions applied one
 * after another, then line normalisation).
 *
 * The regular expressions are modelled as scanners over `seq<char>` that follow
 * Python's `re.sub` with `re.DOTALL`: the text is scanned left to right, a match
 * is tried at each position, a match is deleted and scanning resumes after it;
 * `.*?` takes the shortest extension that lets the rest of the pattern match, and
 * `$` holds at the end of the text or just before one final `'\n'`.
 */
module RepoProcessor {
  import opened Wrappers
  import opened Text
  import opened PyValues

  const GithubApiBase: string := "https://api.github.com/repos"

  // --------------------------------------------------------- trending URLs

  /** `item.get("url")`: the item's URL value, `None` when it has none. */
  function UrlOf(item: Dict): Value {
    Get(item, "url", Null)
  }

  /** `extract_repo_urls`: the truthy `url` values of the items, in input order. */
  function ExtractRepoUrls(items: seq<Dict>): (urls: seq<Value>)
    ensures |urls| <= |items|
    ensures forall i :: 0 <= i < |urls| ==> Truthy(urls[i])
    ensures forall i :: 0 <= i < |items| && Truthy(UrlOf(items[i])) ==> UrlOf(items[i]) in urls
    ensures forall v :: v in urls ==> exists i :: 0 <= i < |items| && UrlOf(items[i]) == v
  {
    if items == [] then []
    else
      var rest := ExtractRepoUrls(items[1..]);
      assert forall i :: 1 <= i < |items| ==> items[i] == items[1..][i - 1];
      if Truthy(UrlOf(items[0])) then [UrlOf(items[0])] + rest else rest
  }

  /** The extraction works item by item, so it keeps the order of the input list. */
  lemma {:induction false} ExtractRepoUrlsAppend(a: seq<Dict>, b: seq<Dict>)
    ensures ExtractRepoUrls(a + b) == ExtractRepoUrls(a) + ExtractRepoUrls(b)
    decreases |a|
  {
    if a == [] {
      assert a + b == b;
    } else {
      assert (a + b)[1..] == a[1..] + b;
      ExtractRepoUrlsAppend(a[1..], b);
    }
  }

  // ------------------------------------------------------- README endpoint

  predicate IsSlash(c: char) {
    c == '/'
  }

  /** The endpoint `get_readme_content` requests: built from the last two `/`-separated segments. */
  function ReadmeEndpoint(url: string): (r: Option<string>)
    ensures r.None? <==> NoSep(url, IsSlash)
  {
    var parts := SplitWhere(url, IsSlash);
    SplitSingle(url, IsSlash);
    if |parts| >= 2 then
      Some(GithubApiBase + "/" + parts[|parts| - 2] + "/" + parts[|parts| - 1] + "/readme")
    else None
  }

  /**
   * A URL `owner/repo`, or `<anything>/owner/repo`, is sent to `<api base>/owner/repo/readme`:
   * only the last two segments count.
   */
  lemma OwnerRepoEndpoint(prefix: string, owner: string, repo: string)
    requires prefix == "" || prefix[|prefix| - 1] == '/'
    requires NoSep(owner, IsSlash) && NoSep(repo, IsSlash)
    ensures ReadmeEndpoint(prefix + owner + "/" + repo)
         == Some(GithubApiBase + "/" + owner + "/" + repo + "/readme")
  {
    SplitSingle(owner, IsSlash);
    SplitSingle(repo, IsSlash);
    if prefix == "" {
      assert prefix + owner + "/" + repo == owner + "/" + repo;
      SplitConcat(owner, '/', repo, IsSlash);
    } else {
      var front := prefix[..|prefix| - 1];
      assert prefix + owner + "/" + repo == front + "/" + owner + "/" + repo;
      SplitConcat(front + "/" + owner, '/', repo, IsSlash);
      SplitConcat(front, '/', owner, IsSlash);
      var parts := SplitWhere(front + "/" + owner + "/" + repo, IsSlash);
      assert parts == SplitWhere(front, IsSlash) + [owner] + [repo];
    }
  }

  /**
   * `get_readme_content`: the README that `fetch` returns for the endpoint of the URL;
   * `None` when the URL is not a string (the `split` raises and is caught) or has no `/`.
   * `fetch` stands for the GET with its status check and base64/UTF-8 decoding.
   */
  function GetReadmeContent(url: Value, fetch: string -> Option<string>): (r: Option<string>)
    ensures !url.Str? ==> r.None?
    ensures url.Str? && NoSep(url.text, IsSlash) ==> r.None?
    ensures url.Str? && !NoSep(url.text, IsSlash) ==> r == fetch(ReadmeEndpoint(url.text).value)
  {
    if !url.Str? then None
    else
      match ReadmeEndpoint(url.text)
      case None => None
      case Some(endpoint) => fetch(endpoint)
  }

  // -------------------------------------------------------------- scanners

  /** The six patterns of `clean_readme`. */
  datatype Pattern =
    | Section(title: string)   // "## <title>.*?(?=##|$)"
    | ClassBadge               // "[![.*?]\(.*?\)]": a character class, then "(", lazily, then ")]"
    | LinkedBadge              // "\[!\[.*?\]\(.*?\)\]": "[![", lazily, "](", lazily, ")]"

  const PatternsToRemove: seq<Pattern> := [
    Section("Table of Contents"), Section("Contributing"), Section("License"), Section("Installation"),
    ClassBadge, LinkedBadge
  ]

  /** The literal heading a section pattern starts with. */
  function Heading(title: string): (h: string)
    ensures StartsWith(h, "##")
  {
    "## " + title
  }

  /** The members of the character class `[![.*?]`. */
  predicate InClass(c: char) {
    c == '!' || c == '[' || c == '.' || c == '*' || c == '?'
  }

  /** The lookahead `(?=##|$)` holds at position `e` of `s`. */
  predicate SectionStop(s: string, e: nat)
    requires e <= |s|
  {
    StartsWith(s[e..], "##") || e == |s| || (e == |s| - 1 && s[e] == '\n')
  }

  /** The shortest lazy `.*?` from `from`: the first position where the lookahead holds. */
  function LazySectionEnd(s: string, from: nat): (e: nat)
    requires from <= |s|
    ensures from <= e <= |s| && SectionStop(s, e)
    ensures forall k :: from <= k < e ==> !SectionStop(s, k)
    decreases |s| - from
  {
    if SectionStop(s, from) then from else LazySectionEnd(s, from + 1)
  }

  /** The first occurrence of `pat` at or after `from`. */
  function FindFrom(s: string, pat: string, from: nat): (r: Option<nat>)
    requires pat != "" && from <= |s|
    ensures r.Some? ==> from <= r.value && r.value + |pat| <= |s| && StartsWith(s[r.value..], pat)
    ensures r.Some? ==> forall j :: from <= j < r.value ==> !StartsWith(s[j..], pat)
    ensures r.None? ==> forall j :: from <= j <= |s| ==> !StartsWith(s[j..], pat)
    decreases |s| - from
  {
    if from + |pat| > |s| then None
    else if StartsWith(s[from..], pat) then Some(from)
    else FindFrom(s, pat, from + 1)
  }

  /** `## <title>.*?(?=##|$)` at the start of `s`: the heading, then the shortest run up to a stop. */
  function SectionEnd(title: string, s: string): (r: Option<nat>)
    ensures r.Some? <==> StartsWith(s, Heading(title))
    ensures r.Some? ==> |Heading(title)| <= r.value <= |s| && SectionStop(s, r.value)
    ensures r.Some? ==> forall k :: |Heading(title)| <= k < r.value ==> !SectionStop(s, k)
  {
    if StartsWith(s, Heading(title)) then Some(LazySectionEnd(s, |Heading(title)|)) else None
  }

  /** `[![.*?]\(.*?\)]` at the start of `s`: a class character, `(`, then up to the first `)]`. */
  function ClassBadgeEnd(s: string): (r: Option<nat>)
    ensures r.Some? <==> 2 <= |s| && InClass(s[0]) && s[1] == '(' && FindFrom(s, ")]", 2).Some?
    ensures r.Some? ==> r.value == FindFrom(s, ")]", 2).value + 2 && 4 <= r.value <= |s|
  {
    if 2 <= |s| && InClass(s[0]) && s[1] == '(' then
      match FindFrom(s, ")]", 2)
      case Some(m) => Some(m + 2)
      case None => None
    else None
  }

  /**
   * `\[!\[.*?\]\(.*?\)\]` at the start of `s`. The first lazy group ends at the first
   * `](`: a later one would leave the second group fewer places to end, so
   * backtracking never finds a match the first one missed.
   */
  function LinkedBadgeEnd(s: string): (r: Option<nat>)
    ensures r.Some? ==> StartsWith(s, "[![") && FindFrom(s, "](", 3).Some?
    ensures r.Some? ==> 7 <= r.value <= |s|
    ensures StartsWith(s, "[![") && FindFrom(s, "](", 3).Some? ==>
      r == (match FindFrom(s, ")]", FindFrom(s, "](", 3).value + 2)
            case Some(m) => Some(m + 2) case None => None)
  {
    if StartsWith(s, "[![") then
      match FindFrom(s, "](", 3)
      case None => None
      case Some(k) =>
        match FindFrom(s, ")]", k + 2)
        case Some(m) => Some(m + 2)
        case None => None
    else None
  }

  /** The length of the match of `p` at the start of `s`, if it matches there. */
  function MatchLen(p: Pattern, s: string): (r: Option<nat>)
    ensures r.Some? ==> 0 < r.value <= |s|
  {
    match p
    case Section(title) => SectionEnd(title, s)
    case ClassBadge => ClassBadgeEnd(s)
    case LinkedBadge => LinkedBadgeEnd(s)
  }

  /** `re.sub(p, "", s, flags=re.DOTALL)`. */
  function Sub(p: Pattern, s: string): (r: string)
    ensures |r| <= |s|
    decreases |s|
  {
    if s == [] then []
    else
      match MatchLen(p, s)
      case Some(n) => Sub(p, s[n..])
      case None => [s[0]] + Sub(p, s[1..])
  }

  /** `x` is `s` with some characters left out. */
  predicate IsSubsequence(x: string, s: string)
    decreases |s|
  {
    x == [] || (s != [] && ((x[0] == s[0] && IsSubsequence(x[1..], s[1..])) || IsSubsequence(x, s[1..])))
  }

  lemma {:induction false} SubsequenceOfSuffix(x: string, s: string, n: nat)
    requires n <= |s| && IsSubsequence(x, s[n..])
    ensures IsSubsequence(x, s)
    decreases n
  {
    if n > 0 {
      assert s[1..][n - 1..] == s[n..];
      SubsequenceOfSuffix(x, s[1..], n - 1);
    }
  }

  /** A pass only deletes: what it keeps is the input's text in the input's order. */
  lemma {:induction false} SubKeepsOrder(p: Pattern, s: string)
    ensures IsSubsequence(Sub(p, s), s)
    decreases |s|
  {
    if s != [] {
      match MatchLen(p, s)
      case Some(n) =>
        SubKeepsOrder(p, s[n..]);
        SubsequenceOfSuffix(Sub(p, s), s, n);
      case None =>
        SubKeepsOrder(p, s[1..]);
        assert Sub(p, s)[1..] == Sub(p, s[1..]);
    }
  }

  /** A stretch of text where no match starts is copied through unchanged. */
  lemma {:induction false} KeepPrefix(p: Pattern, a: string, b: string)
    requires forall i :: 0 <= i < |a| ==> MatchLen(p, (a + b)[i..]).None?
    ensures Sub(p, a + b) == a + Sub(p, b)
    decreases |a|
  {
    if a == [] {
      assert a + b == b;
    } else {
      var s := a + b;
      assert s[1..] == a[1..] + b;
      forall i | 0 <= i < |a[1..]| ensures MatchLen(p, (a[1..] + b)[i..]).None? {
        assert (a[1..] + b)[i..] == s[i + 1..];
      }
      assert s[0..] == s;
      calc {
        Sub(p, s);
      == { assert MatchLen(p, s).None?; }
        [s[0]] + Sub(p, s[1..]);
      == { KeepPrefix(p, a[1..], b); }
        [a[0]] + (a[1..] + Sub(p, b));
      == { ConsConcat(a, Sub(p, b)); }
        a + Sub(p, b);
      }
    }
  }

  lemma ConsConcat(a: string, x: string)
    requires a != []
    ensures [a[0]] + (a[1..] + x) == a + x
  {
  }

  /** A text in which no match starts anywhere is left as it is. */
  lemma NoMatchNoChange(p: Pattern, s: string)
    requires forall i :: 0 <= i < |s| ==> MatchLen(p, s[i..]).None?
    ensures Sub(p, s) == s
  {
    assert s + [] == s;
    KeepPrefix(p, s, []);
  }

  /** A text without `"##"` (and not ending in `'#'`) holds no start of a heading, even followed by more text. */
  lemma NoHeadingStart(a: string, b: string, h: string)
    requires !Contains(a, "##") && (a == [] || a[|a| - 1] != '#')
    requires StartsWith(h, "##")
    ensures forall i :: 0 <= i < |a| ==> !StartsWith((a + b)[i..], h)
  {
    forall i | 0 <= i < |a| ensures !StartsWith((a + b)[i..], h) {
      if i + 1 < |a| {
        assert !StartsWith(a[i..], "##");
        assert a[i..][..2] == (a + b)[i..][..2];
      } else {
        assert (a + b)[i..][0] == a[|a| - 1];
      }
    }
  }

  /** The lazy run ends at the first stop. */
  lemma {:induction false} LazyEndAt(s: string, from: nat, e: nat)
    requires from <= e <= |s| && SectionStop(s, e)
    requires forall k :: from <= k < e ==> !SectionStop(s, k)
    ensures LazySectionEnd(s, from) == e
    decreases e - from
  {
    if from < e {
      LazyEndAt(s, from + 1, e);
    }
  }

  /** One step of the scan where a match of length `n` starts. */
  lemma SubAtMatch(p: Pattern, s: string, n: nat)
    requires s != [] && MatchLen(p, s) == Some(n)
    ensures Sub(p, s) == Sub(p, s[n..])
  {
  }

  /**
   * A denylisted section is deleted from its heading up to the next `"##"`: the
   * heading and body go, what follows is scanned afresh.
   */
  lemma SectionRemoved(title: string, body: string, rest: string)
    requires !Contains(body, "##") && (body == [] || body[|body| - 1] != '#')
    requires StartsWith(rest, "##")
    ensures Sub(Section(title), Heading(title) + body + rest) == Sub(Section(title), rest)
  {
    var h := Heading(title);
    var s := h + body + rest;
    var e := |h| + |body|;
    assert MatchLen(Section(title), s) == Some(e) by {
      assert s[..|h|] == h;
      NoStopInBody(h, body, rest);
      assert s[e..] == rest;
      LazyEndAt(s, |h|, e);
    }
    SubAtMatch(Section(title), s, e);
    assert s[e..] == rest;
  }

  /** A body without `"##"` that does not end in `'#'` holds no stop of the lookahead before what follows it. */
  lemma NoStopInBody(h: string, body: string, rest: string)
    requires !Contains(body, "##") && (body == [] || body[|body| - 1] != '#')
    requires StartsWith(rest, "##")
    ensures forall k :: |h| <= k < |h| + |body| ==> !SectionStop(h + body + rest, k)
  {
    var s := h + body + rest;
    NoHeadingStart(body, rest, "##");
    forall k | |h| <= k < |h| + |body| ensures !SectionStop(s, k) {
      assert s[k..] == (body + rest)[k - |h|..];
    }
  }

  lemma NoStopBeforeLast(h: string, body: string)
    requires !Contains(body, "##")
    ensures forall k :: |h| <= k < |h + body| - 1 ==> !SectionStop(h + body, k)
  {
    var s := h + body;
    forall k | |h| <= k < |s| - 1 ensures !SectionStop(s, k) {
      assert s[k..][..2] == body[k - |h|..][..2];
      assert !StartsWith(body[k - |h|..], "##");
    }
  }

  /** The last character of a text is no stop of the lookahead unless it is a newline. */
  lemma LastIsNoStop(h: string, body: string)
    requires body != [] && body[|body| - 1] != '\n'
    ensures !SectionStop(h + body, |h + body| - 1)
  {
    var s := h + body;
    assert s[|s| - 1] == body[|body| - 1];
    assert |s[|s| - 1..]| == 1;
  }

  /** A denylisted section that runs to the end of the text is deleted to the end. */
  lemma SectionAtEndRemoved(title: string, body: string)
    requires !Contains(body, "##") && (body == [] || body[|body| - 1] != '\n')
    ensures Sub(Section(title), Heading(title) + body) == ""
  {
    var h := Heading(title);
    var s := h + body;
    assert MatchLen(Section(title), s) == Some(|s|) by {
      assert s[..|h|] == h;
      NoStopBeforeLast(h, body);
      if body != [] {
        LastIsNoStop(h, body);
      }
      LazyEndAt(s, |h|, |s|);
    }
    SubAtMatch(Section(title), s, |s|);
    assert s[|s|..] == [];
  }

  /** `$` also holds before a final newline, so the last section's match stops there and the newline stays. */
  lemma SectionBeforeFinalNewline(title: string, body: string)
    requires !Contains(body + "\n", "##")
    ensures Sub(Section(title), Heading(title) + body + "\n") == "\n"
  {
    var h := Heading(title);
    var s := h + (body + "\n");
    var p := Section(title);
    assert s == h + body + "\n";
    assert s[..|h|] == h;
    NoStopBeforeLast(h, body + "\n");
    LazyEndAt(s, |h|, |s| - 1);
    SubAtMatch(p, s, |s| - 1);
    assert s[|s| - 1..] == "\n";
    assert !StartsWith("\n", h);
    assert Sub(p, "\n") == "\n" + Sub(p, []);
  }

  /** A title that can be detected on its own: no `'#'` or newline in it. */
  predicate PlainTitle(title: string) {
    forall i :: 0 <= i < |title| ==> title[i] != '#' && title[i] != '\n'
  }

  /** `x` begins with a proper tail of `h` only where `t` does. */
  predicate TailsFrom(x: string, t: string, h: string) {
    forall j :: 1 <= j < |h| && StartsWith(x, h[j..]) ==> StartsWith(t, h[j..])
  }

  /** A match is followed by `"##"`, by nothing, or by the final newline: none begins a proper tail of the heading. */
  lemma {:induction false} MatchStep(title: string, t: string, n: nat)
    requires PlainTitle(title) && StartsWith(t, Heading(title))
    requires MatchLen(Section(title), t) == Some(n)
    requires !Contains(Sub(Section(title), t[n..]), Heading(title))
    requires TailsFrom(Sub(Section(title), t[n..]), t[n..], Heading(title))
    ensures !Contains(Sub(Section(title), t), Heading(title))
    ensures TailsFrom(Sub(Section(title), t), t, Heading(title))
  {
    SubAtMatch(Section(title), t, n);
    AfterMatch(title, t, n);
    NoTailAfterStop(title, t[n..]);
  }

  /** What follows a section match: nothing, the final newline, or the next `"##"`. */
  lemma AfterMatch(title: string, t: string, n: nat)
    requires MatchLen(Section(title), t) == Some(n)
    ensures t[n..] == [] || t[n..] == "\n" || StartsWith(t[n..], "##")
  {
    assert SectionStop(t, n);
    assert n == |t| - 1 ==> t[n..] == [t[n]];
  }

  /** Nothing, a lone newline, or `"##"` cannot begin a proper tail of a plain heading. */
  lemma NoTailAfterStop(title: string, u: string)
    requires PlainTitle(title)
    requires u == [] || u == "\n" || StartsWith(u, "##")
    ensures forall j :: 1 <= j < |Heading(title)| ==> !StartsWith(u, Heading(title)[j..])
  {
    var h := Heading(title);
    assert h[2] == ' ' && forall j :: 3 <= j < |h| ==> h[j] == title[j - 3];
    forall j | 1 <= j < |h| ensures !StartsWith(u, h[j..]) {
      var x := h[j..];
      assert x[0] == h[j];
      if j == 1 {
        assert x[1] == ' ';
      }
      if StartsWith(u, "##") {
        assert u[0] == '#' && u[1] == '#';
      }
    }
  }

  /** A character the pass keeps can complete the heading only if the input already held it there. */
  lemma {:induction false} KeepStep(title: string, t: string)
    requires t != [] && !StartsWith(t, Heading(title))
    requires !Contains(Sub(Section(title), t[1..]), Heading(title))
    requires TailsFrom(Sub(Section(title), t[1..]), t[1..], Heading(title))
    ensures !Contains(Sub(Section(title), t), Heading(title))
    ensures TailsFrom(Sub(Section(title), t), t, Heading(title))
  {
    var h := Heading(title);
    var p := Section(title);
    var r := Sub(p, t[1..]);
    assert Sub(p, t) == [t[0]] + r;
    assert t == [t[0]] + t[1..];
    forall j | 1 <= j < |h| && StartsWith([t[0]] + r, h[j..]) ensures StartsWith(t, h[j..]) {
      StartsWithCons(t[0], r, h[j..]);
      StartsWithCons(t[0], t[1..], h[j..]);
      assert h[j..][1..] == h[j + 1..];
    }
    StartsWithCons(t[0], r, h);
    StartsWithCons(t[0], t[1..], h);
    assert StartsWith([t[0]] + r, h) ==> StartsWith(t, h);
    ContainsCons(t[0], r, h);
  }

  /**
   * After the pass for a section, its heading occurs nowhere in the text: deletions
   * never glue a new heading together. The second conjunct is the invariant that
   * carries the induction.
   */
  lemma {:induction false} SectionPassLeavesNoHeading(title: string, t: string)
    requires PlainTitle(title)
    ensures !Contains(Sub(Section(title), t), Heading(title))
    ensures TailsFrom(Sub(Section(title), t), t, Heading(title))
    decreases |t|
  {
    if t == [] {
    } else if StartsWith(t, Heading(title)) {
      var n := MatchLen(Section(title), t).value;
      SectionPassLeavesNoHeading(title, t[n..]);
      MatchStep(title, t, n);
    } else {
      SectionPassLeavesNoHeading(title, t[1..]);
      KeepStep(title, t);
    }
  }

  /** The search stops at the first occurrence. */
  lemma {:induction false} FindFromAt(s: string, pat: string, from: nat, k: nat)
    requires pat != "" && from <= k && k + |pat| <= |s| && StartsWith(s[k..], pat)
    requires forall j :: from <= j < k ==> !StartsWith(s[j..], pat)
    ensures FindFrom(s, pat, from) == Some(k)
    decreases k - from
  {
    if from < k {
      FindFromAt(s, pat, from + 1, k);
    }
  }

  lemma TwoChars(s: string, j: nat, p: string)
    requires |p| == 2 && j + 2 <= |s|
    ensures StartsWith(s[j..], p) <==> s[j] == p[0] && s[j + 1] == p[1]
  {
    assert s[j..][..2] == [s[j], s[j + 1]];
  }

  /**
   * In `pre + x + p + rest`, where `x` holds no `p` and the two characters of `p`
   * differ, the first `p` after `pre` starts right after `x`.
   */
  lemma FirstAfter(pre: string, x: string, p: string, rest: string)
    requires |p| == 2 && !Contains(x, p) && p[0] != p[1]
    ensures forall j :: |pre| <= j < |pre| + |x| ==> !StartsWith((pre + x + p + rest)[j..], p)
    ensures StartsWith((pre + x + p + rest)[|pre| + |x|..], p)
  {
    var s := pre + x + p + rest;
    forall j | |pre| <= j < |pre| + |x| ensures !StartsWith(s[j..], p) {
      TwoChars(s, j, p);
      if j + 1 < |pre| + |x| {
        TwoChars(x, j - |pre|, p);
        assert !StartsWith(x[j - |pre|..], p);
        assert s[j] == x[j - |pre|] && s[j + 1] == x[j - |pre| + 1];
      } else {
        assert s[j + 1] == p[0];
      }
    }
    TwoChars(s, |pre| + |x|, p);
  }

  /** A link-wrapped badge `[![alt](src)]` is deleted by the last pattern. */
  lemma LinkedBadgeRemoved(alt: string, src: string, rest: string)
    requires !Contains(alt, "](") && !Contains(src, ")]")
    ensures Sub(LinkedBadge, "[![" + alt + "](" + src + ")]" + rest) == Sub(LinkedBadge, rest)
  {
    var s := "[![" + alt + "](" + src + ")]" + rest;
    var k := 3 + |alt|;
    var m := k + 2 + |src|;
    assert s[..3] == "[![";
    FirstAfter("[![", alt, "](", src + ")]" + rest);
    assert "[![" + alt + "](" + (src + ")]" + rest) == s;
    FindFromAt(s, "](", 3, k);
    FirstAfter("[![" + alt + "](", src, ")]", rest);
    FindFromAt(s, ")]", k + 2, m);
    assert s[m + 2..] == rest;
    SubAtMatch(LinkedBadge, s, m + 2);
  }

  /**
   * What the fifth pattern really deletes: one character of the class `[![.*?]`,
   * then `(`, up to the first `)]`. So `!(...)]` goes, while a well-formed badge
   * `[![alt](src)]` is left for the sixth pattern.
   */
  lemma ClassBadgeRemoved(c: char, inner: string, rest: string)
    requires InClass(c) && !Contains(inner, ")]")
    ensures Sub(ClassBadge, [c] + "(" + inner + ")]" + rest) == Sub(ClassBadge, rest)
  {
    var s := [c] + "(" + inner + ")]" + rest;
    var m := 2 + |inner|;
    FirstAfter([c] + "(", inner, ")]", rest);
    FindFromAt(s, ")]", 2, m);
    assert s[m + 2..] == rest;
    SubAtMatch(ClassBadge, s, m + 2);
  }

  // ------------------------------------------------------- line handling

  lemma StripKeepsNoBreak(s: string)
    ensures NoSep(s, IsLineBreak) ==> NoSep(Strip(s), IsLineBreak)
  {
    var t := Strip(s);
    var i, j :| 0 <= i <= j <= |s| && t == s[i..j];
    assert forall k :: 0 <= k < |t| ==> t[k] == s[i + k];
  }

  /** `line.strip()` for every line that is not blank, in order. */
  function StripNonBlank(lines: seq<string>): (r: seq<string>)
    ensures |r| <= |lines|
    ensures forall i :: 0 <= i < |r| ==> r[i] != "" && Strip(r[i]) == r[i]
  {
    if lines == [] then []
    else
      var t := Strip(lines[0]);
      StripIdempotent(lines[0]);
      var rest := StripNonBlank(lines[1..]);
      if t == "" then rest else [t] + rest
  }

  /** A single line is kept, trimmed, exactly when it is not blank. */
  lemma StripNonBlankOne(line: string)
    ensures StripNonBlank([line]) == if Strip(line) == "" then [] else [Strip(line)]
  {
    assert [line][1..] == [];
  }

  /** Trimming never adds a line break, so kept lines of split text have none. */
  lemma {:induction false} StripNonBlankNoBreak(lines: seq<string>)
    requires forall i :: 0 <= i < |lines| ==> NoSep(lines[i], IsLineBreak)
    ensures forall i :: 0 <= i < |StripNonBlank(lines)| ==> NoSep(StripNonBlank(lines)[i], IsLineBreak)
    decreases |lines|
  {
    if lines != [] {
      var t := Strip(lines[0]);
      var rest := StripNonBlank(lines[1..]);
      StripKeepsNoBreak(lines[0]);
      assert forall i :: 0 <= i < |lines[1..]| ==> lines[1..][i] == lines[i + 1];
      StripNonBlankNoBreak(lines[1..]);
      var r := StripNonBlank(lines);
      assert r == if t == "" then rest else [t] + rest;
      forall i | 0 <= i < |r| ensures NoSep(r[i], IsLineBreak) {
        if t != "" && i > 0 {
          assert r[i] == rest[i - 1];
        }
      }
    }
  }

  lemma {:induction false} StripNonBlankAppend(a: seq<string>, b: seq<string>)
    ensures StripNonBlank(a + b) == StripNonBlank(a) + StripNonBlank(b)
    decreases |a|
  {
    if a == [] {
      assert a + b == b;
    } else {
      assert (a + b)[1..] == a[1..] + b;
      StripNonBlankAppend(a[1..], b);
    }
  }

  /** Lines that are already trimmed and non-blank pass through unchanged. */
  lemma {:induction false} StripNonBlankFixed(lines: seq<string>)
    requires forall i :: 0 <= i < |lines| ==> lines[i] != "" && Strip(lines[i]) == lines[i]
    ensures StripNonBlank(lines) == lines
    decreases |lines|
  {
    if lines != [] {
      StripNonBlankFixed(lines[1..]);
    }
  }

  /** The lines kept by line 69: `text.splitlines()`, trimmed, blank ones dropped. */
  function KeptLines(text: string): (r: seq<string>)
    ensures |r| <= |SplitWhere(text, IsLineBreak)|
    ensures forall i :: 0 <= i < |r| ==> r[i] != "" && Strip(r[i]) == r[i]
  {
    StripNonBlank(SplitWhere(text, IsLineBreak))
  }

  /** `"\n".join(line.strip() for line in text.splitlines() if line.strip())`: empty exactly when no line is kept. */
  function NormalizeLines(text: string): (r: string)
    ensures r == "" <==> KeptLines(text) == []
  {
    var k := KeptLines(text);
    if k == [] then Join("\n", k)
    else
      JoinStartsWithFirst(k);
      Join("\n", k)
  }

  /**
   * The normalised text has no blank lines and every line is its own trim: its
   * lines are exactly the kept lines.
   */
  lemma NormalizedShape(text: string)
    ensures NormalizeLines(text) == "" <==> KeptLines(text) == []
    ensures NormalizeLines(text) != "" ==> SplitWhere(NormalizeLines(text), IsLineBreak) == KeptLines(text)
    ensures forall i :: 0 <= i < |KeptLines(text)| ==> KeptLines(text)[i] != "" && Strip(KeptLines(text)[i]) == KeptLines(text)[i]
  {
    var k := KeptLines(text);
    SplitPiecesHaveNoSep(text, IsLineBreak);
    StripNonBlankNoBreak(SplitWhere(text, IsLineBreak));
    if k != [] {
      assert '\n' == "\n"[0];
      assert [k[0]] + k[1..] == k;
      JoinStartsWithFirst(k);
      SplitJoin('\n', k, IsLineBreak);
    }
  }

  lemma {:induction false} JoinStartsWithFirst(parts: seq<string>)
    requires parts != [] && parts[0] != ""
    ensures Join("\n", parts) != ""
  {
  }

  /** Normalising twice is normalising once. */
  lemma NormalizeIdempotent(text: string)
    ensures NormalizeLines(NormalizeLines(text)) == NormalizeLines(text)
  {
    NormalizedShape(text);
    var r := NormalizeLines(text);
    if r != "" {
      StripNonBlankFixed(KeptLines(text));
    } else {
      assert SplitWhere(r, IsLineBreak) == [""];
      assert Strip("") == "";
    }
  }

  /** Lines are handled one by one: the kept lines of two texts joined by a newline are those of each, in order. */
  lemma KeptLinesConcat(a: string, b: string)
    ensures KeptLines(a + "\n" + b) == KeptLines(a) + KeptLines(b)
  {
    SplitConcat(a, '\n', b, IsLineBreak);
    StripNonBlankAppend(SplitWhere(a, IsLineBreak), SplitWhere(b, IsLineBreak));
  }

  // --------------------------------------------------------- clean_readme

  /** The patterns applied one after another, each over the whole current text. */
  function ApplyAll(patterns: seq<Pattern>, text: string): (r: string)
    ensures |r| <= |text|
  {
    if patterns == [] then text else ApplyAll(patterns[1..], Sub(patterns[0], text))
  }

  /** What `clean_readme` returns; `getText` is `BeautifulSoup(content, "html.parser").get_text()`. */
  function CleanedReadme(content: string, getText: string -> string): (r: string)
    ensures content == "" ==> r == ""
    ensures r == "" || forall i :: 0 <= i < |SplitWhere(r, IsLineBreak)| ==>
      SplitWhere(r, IsLineBreak)[i] != "" && Strip(SplitWhere(r, IsLineBreak)[i]) == SplitWhere(r, IsLineBreak)[i]
  {
    if content == "" then ""
    else
      var text := ApplyAll(PatternsToRemove, getText(content));
      NormalizedShape(text);
      NormalizeLines(text)
  }

  /** `clean_readme`: strip the markup, run the deletion passes in list order, normalise the lines. */
  method CleanReadme(content: string, getText: string -> string) returns (r: string)
    ensures r == CleanedReadme(content, getText)
    ensures content == "" ==> r == ""
    ensures r == "" || forall i :: 0 <= i < |SplitWhere(r, IsLineBreak)| ==>
      SplitWhere(r, IsLineBreak)[i] != "" && Strip(SplitWhere(r, IsLineBreak)[i]) == SplitWhere(r, IsLineBreak)[i]
  {
    if content == "" {
      return "";
    }
    var text := getText(content);
    var patterns := PatternsToRemove;
    for i := 0 to |patterns|
      invariant ApplyAll(patterns[i..], text) == ApplyAll(PatternsToRemove, getText(content))
    {
      assert patterns[i..][1..] == patterns[i + 1..];
      text := Sub(patterns[i], text);
    }
    assert patterns[|patterns|..] == [];
    r := NormalizeLines(text);
    NormalizedShape(text);
  }

  lemma StartsWithTrans(s: string, p: string, q: string)
    requires StartsWith(s, p) && StartsWith(p, q)
    ensures StartsWith(s, q)
  {
    assert s[..|q|] == s[..|p|][..|q|];
  }

  /** A pass for a section whose heading does not occur changes nothing. */
  lemma SectionAbsentNoChange(title: string, s: string)
    requires !Contains(s, Heading(title))
    ensures Sub(Section(title), s) == s
  {
    forall i | 0 <= i < |s| ensures MatchLen(Section(title), s[i..]).None? {
      assert !StartsWith(s[i..], Heading(title));
    }
    NoMatchNoChange(Section(title), s);
  }

  /** Some character of the class `[![.*?]` is directly followed by `(`. */
  predicate HasClassBadgeStart(s: string) {
    exists i :: 0 <= i < |s| - 1 && InClass(s[i]) && s[i + 1] == '('
  }

  /** The badge passes change nothing in a text without a badge start. */
  lemma BadgesAbsentNoChange(s: string)
    requires !HasClassBadgeStart(s) && !Contains(s, "[![")
    ensures Sub(ClassBadge, s) == s && Sub(LinkedBadge, s) == s
  {
    forall i | 0 <= i < |s| ensures MatchLen(ClassBadge, s[i..]).None? {
      assert s[i..][0] == s[i];
      if i + 1 < |s| {
        assert s[i..][1] == s[i + 1];
      }
    }
    NoMatchNoChange(ClassBadge, s);
    forall i | 0 <= i < |s| ensures MatchLen(LinkedBadge, s[i..]).None? {
      assert !StartsWith(s[i..], "[![");
    }
    NoMatchNoChange(LinkedBadge, s);
  }

  /** A section pass over an introduction, one denylisted section and what follows it. */
  lemma SectionBetween(title: string, intro: string, body: string, rest: string)
    requires !Contains(intro, "##") && (intro == [] || intro[|intro| - 1] != '#')
    requires !Contains(body, "##") && (body == [] || body[|body| - 1] != '#')
    requires StartsWith(rest, "##") && !Contains(rest, Heading(title))
    ensures Sub(Section(title), intro + Heading(title) + body + rest) == intro + rest
  {
    var p := Section(title);
    var tail := Heading(title) + body + rest;
    calc {
      Sub(p, intro + Heading(title) + body + rest);
    == { Regroup4(intro, Heading(title), body, rest); }
      Sub(p, intro + tail);
    == { IntroKept(title, intro, tail); }
      intro + Sub(p, tail);
    == { SectionRemoved(title, body, rest); }
      intro + Sub(p, rest);
    == { SectionAbsentNoChange(title, rest); }
      intro + rest;
    }
  }

  lemma Regroup4(a: string, b: string, c: string, d: string)
    ensures a + b + c + d == a + (b + c + d)
  {
  }

  /** A section pass leaves a stretch without any `##` untouched and goes on after it. */
  lemma IntroKept(title: string, intro: string, tail: string)
    requires !Contains(intro, "##") && (intro == [] || intro[|intro| - 1] != '#')
    ensures Sub(Section(title), intro + tail) == intro + Sub(Section(title), tail)
  {
    var p := Section(title);
    NoHeadingStart(intro, tail, Heading(title));
    forall i | 0 <= i < |intro| ensures MatchLen(p, (intro + tail)[i..]).None? {
      assert !StartsWith((intro + tail)[i..], Heading(title));
    }
    KeepPrefix(p, intro, tail);
  }

  /**
   * An "Installation" section between an introduction and a "Usage" section: the
   * cleaned README is the introduction followed by the Usage section, with only line
   * normalisation applied; none of the Installation text survives.
   */
  lemma InstallationDroppedUsageKept(intro: string, install: string, usage: string, getText: string -> string)
    requires !Contains(intro, "##") && (intro == [] || intro[|intro| - 1] != '#')
    requires !Contains(install, "##") && (install == [] || install[|install| - 1] != '#')
    requires StartsWith(usage, "## Usage") && !Contains(usage, Heading("Installation"))
    requires OnlyInstallation(intro + Heading("Installation") + install + usage)
    requires !HasClassBadgeStart(intro + usage) && !Contains(intro + usage, "[![")
    requires getText(intro + Heading("Installation") + install + usage) == intro + Heading("Installation") + install + usage
    ensures CleanedReadme(intro + Heading("Installation") + install + usage, getText) == NormalizeLines(intro + usage)
  {
    var doc := intro + Heading("Installation") + install + usage;
    var kept := intro + usage;
    OtherSectionsUntouched(doc);
    assert StartsWith("## Usage", "##");
    StartsWithTrans(usage, "## Usage", "##");
    SectionBetween("Installation", intro, install, usage);
    BadgesAbsentNoChange(kept);
    ApplyAllSteps(doc, kept);
  }

  /** None of the other denylisted headings occurs. */
  predicate OnlyInstallation(doc: string) {
    && !Contains(doc, Heading("Table of Contents"))
    && !Contains(doc, Heading("Contributing"))
    && !Contains(doc, Heading("License"))
  }

  lemma OtherSectionsUntouched(doc: string)
    requires OnlyInstallation(doc)
    ensures Sub(Section("Table of Contents"), doc) == doc
    ensures Sub(Section("Contributing"), doc) == doc
    ensures Sub(Section("License"), doc) == doc
  {
    SectionAbsentNoChange("Table of Contents", doc);
    SectionAbsentNoChange("Contributing", doc);
    SectionAbsentNoChange("License", doc);
  }

  /** Unfolding the six passes for a text that only the fourth one changes. */
  lemma ApplyAllSteps(doc: string, kept: string)
    requires Sub(Section("Table of Contents"), doc) == doc
    requires Sub(Section("Contributing"), doc) == doc
    requires Sub(Section("License"), doc) == doc
    requires Sub(Section("Installation"), doc) == kept
    requires Sub(ClassBadge, kept) == kept && Sub(LinkedBadge, kept) == kept
    ensures ApplyAll(PatternsToRemove, doc) == kept
  {
    var ps := PatternsToRemove;
    assert ApplyAll(ps[6..], kept) == kept;
    assert ApplyAll(ps[5..], kept) == kept;
    assert ApplyAll(ps[4..], kept) == kept;
    assert ApplyAll(ps[3..], doc) == kept;
    assert ApplyAll(ps[2..], doc) == kept;
    assert ApplyAll(ps[1..], doc) == kept;
  }
}

/**
 * The result shaping of the assistant's four tools. Every `execute` wraps
 * its work in try/catch and hands back either a result object or an error
 * object; it never throws. The outbound HTTP calls and `eval` are
 * parameters: what they answered is an input of each function here.
 */
module AgentTools {
  import opened Wrappers
  import opened Env
  import opened JsText
  import opened HtmlText

  // ---------------------------------------------------------------------
  // Web search (Tavily)

  /** A JSON value as `response.json()` yields it. */
  datatype Json =
    | JNull
    | JBool(b: bool)
    | JNumber(n: real)
    | JString(s: string)
    | JArray(items: seq<Json>)
    | JObject(fields: map<string, Json>)

  /** A JSON object: its fields by name. */
  type Fields = map<string, Json>

  const TavilyKey := "TAVILY_API_KEY"
  const DefaultMaxResults := 5
  const SearchDepth := "advanced"
  const Bearer := "Bearer "

  /** The request the search tool posts. */
  datatype SearchRequest = SearchRequest(
    authorization: string,
    query: string,
    maxResults: int,
    searchDepth: string,
    includeAnswer: bool,
    includeImages: bool)

  /** A template literal renders a missing variable as `undefined`. */
  function Interpolated(value: Option<string>): (r: string)
    ensures value.Some? ==> r == value.value
    ensures value.None? ==> r == "undefined"
  {
    match value
    case Some(v) => v
    case None => "undefined"
  }

  /** A property read that may find nothing: `process.env[name]`, `result[name]`. */
  function Lookup<V>(m: map<string, V>, name: string): (r: Option<V>)
    ensures r.Some? <==> name in m
    ensures r.Some? ==> r.value == m[name]
  {
    if name in m then Some(m[name]) else None
  }

  /**
   * The body and the Authorization header of the Tavily call. `maxResults`
   * defaults to 5 when the caller leaves it out.
   */
  function TavilyRequest(env: Environment, query: string, maxResults: Option<int>): (r: SearchRequest)
    ensures IsPrefix(Bearer, r.authorization)
    ensures TavilyKey in env ==> r.authorization[|Bearer|..] == env[TavilyKey]
    ensures TavilyKey !in env ==> r.authorization == Bearer + "undefined"
    ensures r.query == query
    ensures maxResults.Some? ==> r.maxResults == maxResults.value
    ensures maxResults.None? ==> r.maxResults == DefaultMaxResults
    ensures r.searchDepth == SearchDepth && r.includeAnswer && !r.includeImages
  {
    var auth := Bearer + Interpolated(Lookup(env, TavilyKey));
    assert auth[..|Bearer|] == Bearer;
    SearchRequest(auth, query, match maxResults case Some(n) => n case None => DefaultMaxResults,
      SearchDepth, true, false)
  }

  /** What the provider answered: `data.answer`, and `data.results` when it is an array. */
  datatype SearchData = SearchData(answer: Option<Json>, results: Option<seq<Fields>>)

  /** One projected result; `None` is a field the provider left out (`undefined`). */
  datatype Hit = Hit(title: Option<Json>, url: Option<Json>, content: Option<Json>, score: Option<Json>)

  /** `({ title, url, content, score })` of one result. */
  function Project(f: Fields): Hit
  {
    Hit(Lookup(f, "title"), Lookup(f, "url"), Lookup(f, "content"), Lookup(f, "score"))
  }

  /** `results.map(project)`. */
  function ProjectAll(results: seq<Fields>): (hits: seq<Hit>)
    ensures |hits| == |results|
    ensures forall i :: 0 <= i < |results| ==> hits[i] == Project(results[i])
  {
    if results == [] then [] else [Project(results[0])] + ProjectAll(results[1..])
  }

  datatype SearchOutcome =
    | Searched(query: string, answer: Option<Json>, hits: seq<Hit>)
    | SearchFailed(error: string, query: string)

  const SearchFailedPrefix := "Search failed: "
  const TavilyErrorPrefix := "Tavily API error: "

  /**
   * The search tool's result: the projected results, `[]` when the
   * provider sent none, or an error object for a rejected call, a non-2xx
   * status or a body that is not JSON.
   */
  function WebSearch(query: string, fetched: Fetched<SearchData>): (r: SearchOutcome)
    ensures r.query == query
    ensures fetched.Rejected? ==> r == SearchFailed(SearchFailedPrefix + fetched.message, query)
    ensures fetched.Answered? && !IsOkStatus(fetched.status) ==>
              r == SearchFailed(SearchFailedPrefix + TavilyErrorPrefix + NatToString(fetched.status), query)
    ensures fetched.Answered? && IsOkStatus(fetched.status) && fetched.body.Thrown? ==>
              r == SearchFailed(SearchFailedPrefix + fetched.body.message, query)
    ensures r.Searched? <==> fetched.Answered? && IsOkStatus(fetched.status) && fetched.body.Ok?
    ensures r.Searched? ==> r.answer == fetched.body.value.answer
    ensures r.Searched? && fetched.body.value.results.None? ==> r.hits == []
    ensures r.Searched? && fetched.body.value.results.Some? ==>
              var results := fetched.body.value.results.value;
              |r.hits| == |results| && forall i :: 0 <= i < |results| ==> r.hits[i] == Project(results[i])
  {
    match fetched
    case Rejected(m) => SearchFailed(SearchFailedPrefix + m, query)
    case Answered(status, body) =>
      if !IsOkStatus(status) then
        SearchFailed(SearchFailedPrefix + TavilyErrorPrefix + NatToString(status), query)
      else
        match body
        case Thrown(m) => SearchFailed(SearchFailedPrefix + m, query)
        case Ok(data) =>
          Searched(query, data.answer, match data.results case Some(rs) => ProjectAll(rs) case None => [])
  }

  /** The i-th hit comes from the i-th provider result and carries its four fields and no others. */
  lemma SearchHitsFollowResults(query: string, status: nat, data: SearchData, i: nat)
    requires IsOkStatus(status)
    requires data.results.Some? && i < |data.results.value|
    ensures var r := WebSearch(query, Answered(status, Ok(data)));
            var f := data.results.value[i];
            r.Searched? && i < |r.hits| &&
            (r.hits[i].title.Some? <==> "title" in f) &&
            (r.hits[i].url.Some? <==> "url" in f) &&
            (r.hits[i].content.Some? <==> "content" in f) &&
            (r.hits[i].score.Some? <==> "score" in f) &&
            ("title" in f ==> r.hits[i].title.value == f["title"]) &&
            ("url" in f ==> r.hits[i].url.value == f["url"]) &&
            ("content" in f ==> r.hits[i].content.value == f["content"]) &&
            ("score" in f ==> r.hits[i].score.value == f["score"])
  {
  }

  /** Fields other than the four projected ones make no difference to a hit. */
  lemma {:induction false} ExtraFieldsIgnored(rs1: seq<Fields>, rs2: seq<Fields>)
    requires |rs1| == |rs2|
    requires forall i :: 0 <= i < |rs1| ==>
               forall k :: k in ["title", "url", "content", "score"] ==>
                 (k in rs1[i] <==> k in rs2[i]) && (k in rs1[i] ==> rs1[i][k] == rs2[i][k])
    ensures ProjectAll(rs1) == ProjectAll(rs2)
  {
    if rs1 != [] {
      var f1, f2 := rs1[0], rs2[0];
      assert forall k :: k in ["title", "url", "content", "score"] ==>
        (k in f1 <==> k in f2) && (k in f1 ==> f1[k] == f2[k]);
      assert "title" in ["title", "url", "content", "score"];
      assert "url" in ["title", "url", "content", "score"];
      assert "content" in ["title", "url", "content", "score"];
      assert "score" in ["title", "url", "content", "score"];
      assert Project(f1) == Project(f2);
      ExtraFieldsIgnored(rs1[1..], rs2[1..]);
    }
  }

  // ---------------------------------------------------------------------
  // Web scrape

  const ScrapeLimit := 5000
  const ScrapeFailedPrefix := "Scraping failed: "
  const HttpErrorPrefix := "HTTP error: "

  datatype ScrapeOutcome =
    | Scraped(url: string, title: string, content: string, length: nat)
    | ScrapeFailed(error: string, url: string)

  /**
   * The scrape tool's result: the page's title and its cleaned text cut to
   * 5000 characters, or an error object for a rejected call, a non-2xx
   * status or a body that could not be read.
   */
  function WebScrape(url: string, fetched: Fetched<string>): (r: ScrapeOutcome)
    ensures r.url == url
    ensures fetched.Rejected? ==> r == ScrapeFailed(ScrapeFailedPrefix + fetched.message, url)
    ensures fetched.Answered? && !IsOkStatus(fetched.status) ==>
              r == ScrapeFailed(ScrapeFailedPrefix + HttpErrorPrefix + NatToString(fetched.status), url)
    ensures fetched.Answered? && IsOkStatus(fetched.status) && fetched.body.Thrown? ==>
              r == ScrapeFailed(ScrapeFailedPrefix + fetched.body.message, url)
    ensures r.Scraped? <==> fetched.Answered? && IsOkStatus(fetched.status) && fetched.body.Ok?
    ensures r.Scraped? ==> |r.content| <= ScrapeLimit && r.length == |r.content|
    ensures r.Scraped? ==> |r.content| == if |Normalize(fetched.body.value)| <= ScrapeLimit
                                          then |Normalize(fetched.body.value)| else ScrapeLimit
    ensures r.Scraped? ==> NoDoubleSpace(r.content) && OnlyPlainSpaces(r.content)
    ensures r.Scraped? && r.content != [] ==> !IsSpace(r.content[0])
    ensures r.Scraped? ==> IsPrefix(r.content, Normalize(fetched.body.value))
    ensures r.Scraped? ==> r.title == ExtractTitle(fetched.body.value)
  {
    match fetched
    case Rejected(m) => ScrapeFailed(ScrapeFailedPrefix + m, url)
    case Answered(status, body) =>
      if !IsOkStatus(status) then
        ScrapeFailed(ScrapeFailedPrefix + HttpErrorPrefix + NatToString(status), url)
      else
        match body
        case Thrown(m) => ScrapeFailed(ScrapeFailedPrefix + m, url)
        case Ok(html) =>
          var content := CleanContent(html, ScrapeLimit);
          Scraped(url, ExtractTitle(html), content, |content|)
  }

  /** A page short enough keeps all its text; only its whitespace changes. */
  lemma ShortPlainPageKept(url: string, page: string)
    requires '<' !in page && |Tidy(page)| <= ScrapeLimit
    ensures var r := WebScrape(url, Answered(200, Ok(page)));
            r.Scraped? && r.content == Tidy(page) && NonSpace(r.content) == NonSpace(page) &&
            r.title == NoTitle
  {
    PlainTextContent(page, ScrapeLimit);
    NoTitleWithoutMarkup(page);
  }

  // ---------------------------------------------------------------------
  // Calculator

  /** The characters `[0-9+\-*\/.() ]` admits. */
  predicate IsAllowed(c: char)
  {
    IsDigit(c) || c == '+' || c == '-' || c == '*' || c == '/' || c == '.' || c == '(' || c == ')' || c == ' '
  }

  predicate AllAllowed(s: string)
  {
    forall i :: 0 <= i < |s| ==> IsAllowed(s[i])
  }

  /** `s.replace(/[^0-9+\-*\/.() ]/g, '')`. */
  function StripDisallowed(s: string): (r: string)
    ensures AllAllowed(r)
    ensures |r| <= |s|
    ensures forall c :: IsAllowed(c) ==> multiset(r)[c] == multiset(s)[c]
  {
    if s == [] then []
    else
      assert s == [s[0]] + s[1..];
      (if IsAllowed(s[0]) then [s[0]] else []) + StripDisallowed(s[1..])
  }

  /** `s.replace(/\*\*\/g, '^')`: each `**`, taken left to right, becomes `^`. */
  function ReplacePower(s: string): (r: string)
    ensures |r| <= |s|
    ensures '^' !in s ==> ('^' in r <==> HasPower(s))
    decreases |s|
  {
    if |s| >= 2 && s[0] == '*' && s[1] == '*' then "^" + ReplacePower(s[2..])
    else if s == [] then []
    else [s[0]] + ReplacePower(s[1..])
  }

  /** The expression handed to `eval`. */
  function Sanitize(expression: string): (r: string)
    ensures |r| <= |expression|
    ensures AllAllowed(r) <==> !HasPower(StripDisallowed(expression))
    ensures !HasPower(StripDisallowed(expression)) ==> r == StripDisallowed(expression)
  {
    var stripped := StripDisallowed(expression);
    ReplacePowerAllowed(stripped);
    if HasPower(stripped) then ReplacePower(stripped)
    else
      ReplacePowerWithoutPower(stripped);
      ReplacePower(stripped)
  }

  /** `/^[0-9+\-*\/.() ]+$/.test(s)`. */
  predicate PassesValidation(s: string)
  {
    s != [] && AllAllowed(s)
  }

  /** `s` holds `**` somewhere. */
  predicate HasPower(s: string)
  {
    exists i :: 0 <= i < |s| - 1 && s[i] == '*' && s[i + 1] == '*'
  }

  /** What `eval` gave: a finite number (as `String(result)` renders it), or anything else. */
  datatype Evaluation = FiniteNumber(rendered: string) | NotFinite | EvalThrew

  datatype CalcOutcome =
    | Calculated(result: string, expression: string, formatted: string)
    | CalcFailed(error: string, expression: string, suggestion: string)

  const CalcError := "Invalid mathematical expression or calculation error"
  const CalcSuggestion := "Try simpler expressions like: 2+2, 10*5, 100/4, etc."
  const EqualsSign := " = "

  /**
   * The calculator's result. Whatever goes wrong, from the validation to
   * `eval` and `isFinite`, yields the same error object.
   */
  function Calculate(expression: string, evaluate: string -> Evaluation): (r: CalcOutcome)
    ensures r.expression == expression
    ensures r.Calculated? <==> PassesValidation(Sanitize(expression)) && evaluate(Sanitize(expression)).FiniteNumber?
    ensures r.Calculated? ==> r.result == evaluate(Sanitize(expression)).rendered
    ensures r.Calculated? ==> r.formatted == expression + EqualsSign + r.result
    ensures r.CalcFailed? ==> r.error == CalcError && r.suggestion == CalcSuggestion
  {
    var sanitized := Sanitize(expression);
    if !PassesValidation(sanitized) then CalcFailed(CalcError, expression, CalcSuggestion)
    else
      match evaluate(sanitized)
      case FiniteNumber(v) => Calculated(v, expression, expression + EqualsSign + v)
      case _ => CalcFailed(CalcError, expression, CalcSuggestion)
  }

  lemma {:induction false} ReplacePowerEmpty(s: string)
    ensures ReplacePower(s) == [] <==> s == []
  {
  }

  /** On allowed text, the `**` step keeps every character allowed exactly when there is no `**`. */
  lemma {:induction false} ReplacePowerAllowed(s: string)
    requires AllAllowed(s)
    ensures AllAllowed(ReplacePower(s)) <==> !HasPower(s)
    decreases |s|
  {
    if |s| >= 2 && s[0] == '*' && s[1] == '*' {
      assert !IsAllowed('^');
      assert ReplacePower(s)[0] == '^';
    } else if s != [] {
      var rest := s[1..];
      ReplacePowerAllowed(rest);
      var r := ReplacePower(s);
      assert r == [s[0]] + ReplacePower(rest);
      assert AllAllowed(r) <==> AllAllowed(ReplacePower(rest)) by {
        if AllAllowed(ReplacePower(rest)) {
          forall i | 0 <= i < |r| ensures IsAllowed(r[i]) {
            if i > 0 { assert r[i] == ReplacePower(rest)[i - 1]; }
          }
        }
        if AllAllowed(r) {
          forall i | 0 <= i < |ReplacePower(rest)| ensures IsAllowed(ReplacePower(rest)[i]) {
            assert ReplacePower(rest)[i] == r[i + 1];
          }
        }
      }
      assert HasPower(s) <==> HasPower(rest) by {
        if HasPower(rest) {
          var i :| 0 <= i < |rest| - 1 && rest[i] == '*' && rest[i + 1] == '*';
          assert s[i + 1] == '*' && s[i + 2] == '*';
        }
        if HasPower(s) {
          var i :| 0 <= i < |s| - 1 && s[i] == '*' && s[i + 1] == '*';
          assert i > 0;
          assert rest[i - 1] == '*' && rest[i] == '*';
        }
      }
    }
  }

  /**
   * The validation after sanitising accepts exactly the non-empty stripped
   * expressions without `**`: the `**` step turns any `**` into a `^`,
   * which the validation refuses.
   */
  lemma SanitizedPassesValidation(expression: string)
    ensures PassesValidation(Sanitize(expression)) <==>
              StripDisallowed(expression) != [] && !HasPower(StripDisallowed(expression))
  {
    var stripped := StripDisallowed(expression);
    ReplacePowerEmpty(stripped);
    ReplacePowerAllowed(stripped);
  }

  /** An expression with `**`, or with nothing allowed in it, is refused whatever `eval` would do. */
  lemma PowerOrEmptyRejected(expression: string, evaluate: string -> Evaluation)
    requires StripDisallowed(expression) == [] || HasPower(StripDisallowed(expression))
    ensures Calculate(expression, evaluate) == CalcFailed(CalcError, expression, CalcSuggestion)
  {
    SanitizedPassesValidation(expression);
  }

  /** An expression of allowed characters only, without `**`, reaches `eval` unchanged. */
  lemma {:induction false} PlainExpressionEvaluated(expression: string)
    requires AllAllowed(expression) && !HasPower(expression)
    ensures Sanitize(expression) == expression
  {
    StripAllowedIsIdentity(expression);
    ReplacePowerWithoutPower(expression);
  }

  lemma {:induction false} StripAllowedIsIdentity(s: string)
    requires AllAllowed(s)
    ensures StripDisallowed(s) == s
  {
    if s != [] {
      StripAllowedIsIdentity(s[1..]);
      assert s == [s[0]] + s[1..];
    }
  }

  /** The first replace works character by character: the allowed characters stay, in order. */
  lemma {:induction false} StripDisallowedAppend(a: string, b: string)
    ensures StripDisallowed(a + b) == StripDisallowed(a) + StripDisallowed(b)
  {
    if a != [] {
      var k := StripFirst(a, b);
      StripDisallowedAppend(a[1..], b);
      AppendAssociates(k, StripDisallowed(a[1..]), StripDisallowed(b));
    } else {
      assert a + b == b;
      assert StripDisallowed(a) == [];
      PrependEmpty(StripDisallowed(b));
    }
  }

  lemma PrependEmpty(p: string)
    ensures [] + p == p
  {
  }

  /** The first character of `a + b` decides alone whether it stays. */
  lemma StripFirst(a: string, b: string) returns (k: string)
    requires a != []
    ensures StripDisallowed(a) == k + StripDisallowed(a[1..])
    ensures StripDisallowed(a + b) == k + StripDisallowed(a[1..] + b)
  {
    k := if IsAllowed(a[0]) then [a[0]] else [];
    FirstOfAppend(a, b);
  }

  lemma {:induction false} ReplacePowerWithoutPower(s: string)
    requires !HasPower(s)
    ensures ReplacePower(s) == s
  {
    if s != [] {
      assert !(|s| >= 2 && s[0] == '*' && s[1] == '*');
      ReplacePowerWithoutPower(s[1..]);
      assert s == [s[0]] + s[1..];
    }
  }

  // ---------------------------------------------------------------------
  // Knowledge search (a placeholder)

  const KnowledgeLead := "Knowledge search for \""
  const KnowledgeTail := "\" - This tool will search through stored conversations and knowledge when vector storage is fully configured."
  const KnowledgeMessage := "Knowledge search capability ready - will search stored conversations and documents"
  const MemorySource := "memory"

  datatype KnowledgeHit = KnowledgeHit(content: string, relevance: real, source: string)
  datatype KnowledgeResult = KnowledgeResult(query: string, results: seq<KnowledgeHit>, message: string)

  /** The placeholder answer: one hit that quotes the query, relevance 0.8, source `memory`. */
  function KnowledgeSearch(query: string): (r: KnowledgeResult)
    ensures r.query == query && |r.results| == 1
    ensures Contains(r.results[0].content, query)
    ensures r.results[0].relevance == 0.8 && r.results[0].source == MemorySource
    ensures r.message == KnowledgeMessage
  {
    ContainsMiddle(KnowledgeLead, query, KnowledgeTail);
    KnowledgeResult(query, [KnowledgeHit(KnowledgeLead + query + KnowledgeTail, 0.8, MemorySource)], KnowledgeMessage)
  }
}

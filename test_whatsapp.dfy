/**
 * The checks of the WhatsApp integration script that decide something:
 * the phone-number format, the presence of the WaPulse credentials, and
 * the scrape preview. Console output, the prompts and the message sending
 * are left to the script.
 */
module WhatsAppScript {
  import opened Wrappers
  import opened Env
  import opened JsText
  import opened HtmlText
  import AgentTools

  // ---------------------------------------------------------------------
  // validatePhoneNumber

  /**
   * `/^\d{1,4}\d{6,15}$/.test(s)`: a country code of one to four digits,
   * then six to fifteen digits. Without the `u` flag `\d` is `[0-9]`.
   */
  predicate MatchesPhonePattern(s: string)
  {
    exists k :: 1 <= k <= 4 && 6 <= |s| - k <= 15 && AllDigits(s[..k]) && AllDigits(s[k..])
  }

  /** The pattern accepts exactly the all-digit strings of 7 to 19 characters. */
  lemma PhonePatternCharacterised(s: string)
    ensures MatchesPhonePattern(s) <==> AllDigits(s) && 7 <= |s| <= 19
  {
    if MatchesPhonePattern(s) {
      var k :| 1 <= k <= 4 && 6 <= |s| - k <= 15 && AllDigits(s[..k]) && AllDigits(s[k..]);
      forall i | 0 <= i < |s| ensures IsDigit(s[i]) {
        if i < k { assert s[i] == s[..k][i]; } else { assert s[i] == s[k..][i - k]; }
      }
    }
    if AllDigits(s) && 7 <= |s| <= 19 {
      var k := if |s| > 16 then |s| - 15 else 1;
      assert AllDigits(s[..k]) by {
        forall i | 0 <= i < k ensures IsDigit(s[..k][i]) { assert s[..k][i] == s[i]; }
      }
      assert AllDigits(s[k..]) by {
        forall i | 0 <= i < |s| - k ensures IsDigit(s[k..][i]) { assert s[k..][i] == s[k + i]; }
      }
    }
  }

  /** `validatePhoneNumber`: whether the number has the expected format. */
  function ValidatePhoneNumber(phoneNumber: string): (valid: bool)
    ensures valid <==> AllDigits(phoneNumber) && 7 <= |phoneNumber| <= 19
  {
    PhonePatternCharacterised(phoneNumber);
    MatchesPhonePattern(phoneNumber)
  }

  /** A plus sign, a space, a hyphen or a letter anywhere makes a number invalid. */
  lemma SeparatorsRejected(s: string, i: nat)
    requires i < |s| && (s[i] == '+' || s[i] == ' ' || s[i] == '-' || 'a' <= s[i] <= 'z' || 'A' <= s[i] <= 'Z')
    ensures !ValidatePhoneNumber(s)
  {
  }

  /** The script's own examples: a formatted international number fails, its digits alone pass. */
  lemma PhoneExamples()
    ensures !ValidatePhoneNumber("+972-52-3767676")
    ensures ValidatePhoneNumber("97252376767")
  {
    SeparatorsRejected("+972-52-3767676", 0);
  }

  /** Too short or too long: the empty string, six digits and twenty digits all fail. */
  lemma LengthBoundsRejected(s: string)
    requires |s| <= 6 || |s| >= 20
    ensures !ValidatePhoneNumber(s)
  {
  }

  // ---------------------------------------------------------------------
  // testWaPulseCredentials

  const WaPulseToken := "WAPULSE_TOKEN"
  const WaPulseInstanceId := "WAPULSE_INSTANCE_ID"
  const TokenPreviewLength := 10
  const Ellipsis := "..."

  datatype CredentialCheck =
    | MissingToken
    | MissingInstanceId
    | CredentialsFound(tokenPreview: string, instanceId: string)

  /** Whether the check passed: the script's boolean answer. */
  predicate Passed(c: CredentialCheck)
  {
    c.CredentialsFound?
  }

  /**
   * `testWaPulseCredentials`: the token is checked first, then the
   * instance id; on success the first ten characters of the token are
   * shown, followed by `...`.
   */
  function TestWaPulseCredentials(env: Environment): (r: CredentialCheck)
    ensures Passed(r) <==> IsSet(env, WaPulseToken) && IsSet(env, WaPulseInstanceId)
    ensures !IsSet(env, WaPulseToken) ==> r == MissingToken
    ensures IsSet(env, WaPulseToken) && !IsSet(env, WaPulseInstanceId) ==> r == MissingInstanceId
    ensures Passed(r) ==> r.instanceId == env[WaPulseInstanceId]
    ensures Passed(r) ==> |Ellipsis| <= |r.tokenPreview| <= TokenPreviewLength + |Ellipsis|
    ensures Passed(r) ==> var shown := |r.tokenPreview| - |Ellipsis|;
              r.tokenPreview[shown..] == Ellipsis && IsPrefix(r.tokenPreview[..shown], env[WaPulseToken]) &&
              (shown < TokenPreviewLength ==> r.tokenPreview[..shown] == env[WaPulseToken])
  {
    if !IsSet(env, WaPulseToken) then MissingToken
    else if !IsSet(env, WaPulseInstanceId) then MissingInstanceId
    else
      var shown := Take(env[WaPulseToken], TokenPreviewLength);
      var preview := shown + Ellipsis;
      assert preview[..|shown|] == shown && preview[|shown|..] == Ellipsis;
      CredentialsFound(preview, env[WaPulseInstanceId])
  }

  // ---------------------------------------------------------------------
  // testWebScraping

  const PreviewLimit := 500

  datatype ScrapePreview = ScrapePreview(title: string, content: string)

  /**
   * `testWebScraping`: the page's title and its cleaned text cut to 500
   * characters, or nothing when the fetch fails.
   */
  function TestWebScraping(fetched: Fetched<string>): (r: Option<ScrapePreview>)
    ensures r.Some? <==> fetched.Answered? && IsOkStatus(fetched.status) && fetched.body.Ok?
    ensures r.Some? ==> |r.value.content| <= PreviewLimit
    ensures r.Some? ==> |r.value.content| == if |Normalize(fetched.body.value)| <= PreviewLimit
                                              then |Normalize(fetched.body.value)| else PreviewLimit
    ensures r.Some? ==> r.value.title == ExtractTitle(fetched.body.value)
    ensures r.Some? ==> IsPrefix(r.value.content, Normalize(fetched.body.value))
  {
    match fetched
    case Rejected(_) => None
    case Answered(status, body) =>
      if !IsOkStatus(status) then None
      else
        match body
        case Thrown(_) => None
        case Ok(html) => Some(ScrapePreview(ExtractTitle(html), CleanContent(html, PreviewLimit)))
  }

  /** The script's preview is the scrape tool's content cut to 500 characters, with the same title. */
  lemma PreviewAgreesWithTool(url: string, fetched: Fetched<string>)
    ensures var p := TestWebScraping(fetched);
            var t := AgentTools.WebScrape(url, fetched);
            (p.Some? <==> t.Scraped?) &&
            (p.Some? ==> p.value.title == t.title && p.value.content == Take(t.content, PreviewLimit))
  {
    if fetched.Answered? && IsOkStatus(fetched.status) && fetched.body.Ok? {
      ShorterLimitIsPrefix(fetched.body.value, PreviewLimit, AgentTools.ScrapeLimit);
    }
  }
}

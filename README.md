# galagent core, modelled in Dafny

galagent is a Next.js chat assistant built on Mastra. Most of it is glue
around hosted services. A few rules in it decide things on their own, and
this project states those rules in Dafny and proves what they promise:

- **Storage selection** (`createProductionStorage`). Which conversation store
  and vector store is built from the environment, in priority order:
  - no storage in production without Postgres or Upstash;
  - then Postgres;
  - then Upstash;
  - then remote LibSQL;
  - then the local `file:./mastra.db`.
- **Upload endpoint**.
  - `POST` refuses a missing file.
  - It classifies the file by the lower-cased text after the last `.` of
    its name.
  - It defaults the title and the source.
  - It reports the content length and a 200-character preview.
  - `GET` lists the advertised types and extensions.
- **Chat endpoint**.
  - `POST` checks the OpenAI key, the body, the agent and the last message,
    in that order.
  - It forwards only the last message.
  - It relays the agent's text stream as `data: <json>\n\n` frames. Each
    frame carries the reply so far, and a final `data: [DONE]\n\n` closes the
    stream; when the upstream raises, the stream is errored instead.
  - `GET` is a health probe.
  - The relay is a method with a loop over a `StreamController` object whose
    record of enqueued chunks it appends to. It is proved against a functional specification,
    `Encode(RelayedFrames(...))`.
- **Agent tools**. These are the results the four tools hand back:
  - Tavily search projects each result onto four fields, or `[]`.
  - The page scraper applies its regular-expression pipeline:
    - script and style blocks are removed;
    - tags become spaces;
    - whitespace is collapsed;
    - the text is trimmed and cut to 5000 characters;
    - the title is extracted.
  - The calculator strips characters, rewrites `**`, validates, and formats
    its answer.
  - Knowledge search is a placeholder.
  - Every failure becomes an error object rather than an exception.
- **WhatsApp test script**. These are the parts that decide something:
  - the phone-number format;
  - the WaPulse credential check;
  - the 500-character scrape preview.

Every outside effect is an input, so the model is a set of functions:
- what `fetch` answered is a value of type `Fetched` (rejected, or a status
  and a body that may have failed to read);
- `eval` is a function parameter;
- `crypto.randomUUID()` and `new Date()` are functions of the frame's
  position;
- the environment is a `map<string, string>`, in which a variable counts as
  set when it is present and not empty (JavaScript truthiness).

JavaScript's string behaviour is written out where the code relies on it:
- `split('.').pop()`;
- ASCII-only `toLowerCase` and `/i`;
- the `\s`/`trim()` whitespace set;
- `.` not crossing a line terminator;
- the lazy `.*?`;
- `JSON.stringify` string escaping, with a decoder proved to invert it;
- a template literal rendering a missing variable as `undefined`.

Files:
- `wrappers.dfy`: Option, thrown-or-returned outcomes, fetch results.
- `env.dfy`: the environment.
- `js_text.dfy`: string primitives.
- `json_string.dfy`: string escaping.
- `production_storage.dfy`: storage selection.
- `upload_route.dfy`: the upload endpoint.
- `chat_route.dfy`: the chat endpoint.
- `html_text.dfy`: page cleaning and title.
- `agent_tools.dfy`: the tools.
- `test_whatsapp.dfy`: the script's checks.

How the chat stream is framed (src/app/api/chat/route.ts:59-87):
- each text frame is `data: {"id","role","content","createdAt"}` followed by
  a blank line, and its `content` is the whole reply so far, not the latest
  fragment;
- after the last chunk one `data: [DONE]` frame is sent and the stream is
  closed;
- when the upstream raises, `controller.error` is called and no in-band
  error frame is sent.

The chat `GET` (src/app/api/chat/route.ts:7-16) answers only `status`,
`message` and `timestamp`.

## Model

| member | source | states |
|---|---|---|
| ProductionStorage.CreateProductionStorage | src/mastra/config/production.ts:6-62 | Each branch in priority order: no storage in production without Postgres or Upstash; Postgres with exactly its connection string and no vector; Upstash iff both of its variables are set and no earlier branch applied, with storage and vector sharing URL and token; remote LibSQL iff both of its variables are set and no earlier branch applied, with url = connectionUrl; otherwise the local file for both; storage is absent exactly in the disabled case |
| ProductionStorage.ExactlyOneOutcome | src/mastra/config/production.ts:6-62 | Every environment yields exactly one well-formed outcome, and it is the one the priority order picks |
| ProductionStorage.DependsOnlyOnInputs | src/mastra/config/production.ts:6-62 | Two environments that agree on the six variables get the same backend |
| ProductionStorage.LibsqlIgnoredInProductionWithoutDatabase | src/mastra/config/production.ts:8-13 | In production without Postgres or Upstash there is no storage even when the LibSQL URL and token are set |
| ProductionStorage.PostgresBeatsUpstash | src/mastra/config/production.ts:16-23 | A connection string wins over a complete Upstash configuration |
| ProductionStorage.UpstashWithoutTokenFallsBack | src/mastra/config/production.ts:26-61 | An Upstash URL without its token, with LibSQL not configured, ends at the local database file, in production or not |
| UploadRoute.HandleUpload | src/app/api/upload/route.ts:3-65 | A thrown form read gives 500 with its message; no file gives 400 `No file provided` and nothing else; a file whose text reads gives its name, size, document type by extension, defaulted title and source, content length and preview; an unreadable file gives 500 |
| UploadRoute.LastSegment | src/app/api/upload/route.ts:21 | The result is a suffix of the name with no separator in it, preceded by the separator unless it is the whole name |
| UploadRoute.FileExtension | src/app/api/upload/route.ts:21 | The extension is the lower-cased text after the last '.' of the name: a suffix of the name, lower-cased, with no '.' in it, preceded by '.' unless it is the whole name |
| UploadRoute.Classify | src/app/api/upload/route.ts:24-38 | Markdown iff the extension is `md` or `markdown`, html iff `html` or `htm`, json iff `json`, text iff it is none of these five |
| UploadRoute.DocumentTypeOf | src/app/api/upload/route.ts:21-38 | A name without '.' is classified whole, lower-cased; a type other than text comes from the classification of some lower-cased suffix of the name |
| UploadRoute.LastSegmentUnique | src/app/api/upload/route.ts:21 | Those three facts determine the text after the last separator |
| UploadRoute.ExtensionAfterLastDot | src/app/api/upload/route.ts:21 | For `base.ext` with no '.' in `ext`, the extension is `ext` lower-cased, whatever `base` holds |
| UploadRoute.WholeNameWithoutDot | src/app/api/upload/route.ts:21 | A name with no '.' is its own extension, lower-cased |
| UploadRoute.LastSegmentOfLower | src/app/api/upload/route.ts:21 | Lower-casing before or after taking the last segment gives the same extension |
| UploadRoute.CaseInsensitive | src/app/api/upload/route.ts:21-38 | Names equal up to ASCII case get the same document type |
| UploadRoute.ClassifyByExtension | src/app/api/upload/route.ts:24-38 | The type is markdown iff the extension is `md`/`markdown` in any case, html iff it is `html`/`htm`, json iff it is `json`, and text otherwise |
| UploadRoute.OrDefault | src/app/api/upload/route.ts:48-49 | A given non-empty value is used; a missing or empty one gives the fallback |
| UploadRoute.ContentPreview | src/app/api/upload/route.ts:51 | The preview is at most 203 characters; content of at most 200 characters is its own preview; longer content gives its first 200 characters followed by `...` |
| UploadRoute.AdvertisedExtensionType | src/app/api/upload/route.ts:24-38 | Each advertised extension classifies into the type listed beside it |
| UploadRoute.AdvertisedTypesCover | src/app/api/upload/route.ts:71 | The types of the advertised extensions are all in `supportedTypes`, and each member of `supportedTypes` is one of them |
| UploadRoute.SupportedExtensionsClassify | src/app/api/upload/route.ts:71-72 | Every advertised extension classifies, through `POST`, into an advertised type, and every advertised type is reached by some advertised extension |
| ChatRoute.HandleChat | src/app/api/chat/route.ts:18-57 | A missing key gives 500 with a JSON error naming `OPENAI_API_KEY`, before the body is read; an unreadable body gives 500; a missing agent gives 404, before the messages are looked at; no messages, or a last message not from the user, gives 400 `Invalid message format`; a stream is opened iff all checks pass, with the last message's content and the thread and resource ids |
| ChatRoute.MissingKeyNamesVariable | src/app/api/chat/route.ts:21-28 | The missing-key error message contains `OPENAI_API_KEY` |
| ChatRoute.OnlyLastMessageForwarded | src/app/api/chat/route.ts:45-57 | Bodies that differ only before their last message get the same answer |
| ChatRoute.Health | src/app/api/chat/route.ts:7-16 | The health probe answers 200 with a body that starts `{"status":"ok",` |
| ChatRoute.StreamController.constructor | src/app/api/chat/route.ts:61-62 | A new stream is readable and nothing has been enqueued |
| ChatRoute.StreamController.Enqueue | src/app/api/chat/route.ts:77 | Enqueueing appends one chunk to the enqueued chunks and keeps the stream readable |
| ChatRoute.StreamController.Close | src/app/api/chat/route.ts:82 | Closing leaves the enqueued chunks as they were and marks the stream closed |
| ChatRoute.StreamController.Error | src/app/api/chat/route.ts:85 | Erroring leaves the record of enqueued chunks as it was and records the reason; chunks not yet read by the client are lost to it |
| ChatRoute.RelayStep | src/app/api/chat/route.ts:66-77 | One pass of the loop extends the reply by its chunk and the wire by the frame carrying the extended reply |
| ChatRoute.RelayChunks | src/app/api/chat/route.ts:64-78 | After the loop the enqueued chunks are exactly the wire form of one text frame per chunk, frame i carrying chunks 1..i, and the stream is still readable |
| ChatRoute.Relay | src/app/api/chat/route.ts:62-87 | The enqueued chunks end as the wire form of the relayed frames, and the stream ends closed after normal completion and errored with the upstream's error otherwise |
| ChatRoute.TextFrames | src/app/api/chat/route.ts:66-78 | One frame per chunk, each a text frame |
| ChatRoute.FrameContent | src/app/api/chat/route.ts:64-78 | Frame i is an assistant frame whose content is the concatenation of chunks 1..i, with the id and timestamp drawn for it |
| ChatRoute.FrameAddsChunk | src/app/api/chat/route.ts:67 | Each frame's content is the previous frame's content followed by its own chunk |
| ChatRoute.LastFrameIsWholeReply | src/app/api/chat/route.ts:64-78 | The last text frame carries all chunks, in order |
| ChatRoute.RepliesGrowByPrefix | src/app/api/chat/route.ts:64-78 | The reply so far after i chunks is a prefix of the reply after any j >= i chunks |
| ChatRoute.TextFramesPrefix | src/app/api/chat/route.ts:64-78 | The frames for the first k chunks are the first k frames for all of them |
| ChatRoute.CompletedRelay | src/app/api/chat/route.ts:70-82 | On normal completion there are n+1 frames, n assistant frames followed by exactly one end marker, which is last |
| ChatRoute.RaisedRelay | src/app/api/chat/route.ts:83-86 | If the upstream raises after k chunks, no end marker is enqueued and the frames enqueued are the first k frames of the completed stream |
| ChatRoute.Wire | src/app/api/chat/route.ts:70-81 | Every frame on the wire starts with `data: ` and ends with a blank line, and it reads `data: [DONE]` iff it is the end marker |
| JsonString.EscapeChar | src/app/api/chat/route.ts:70-75 | Each character is written as a non-empty escape with no control character in it |
| JsonString.Escape | src/app/api/chat/route.ts:70-75 | The written string literal holds no control character and is at least as long as the original |
| JsonString.UnescapeEscape | src/app/api/chat/route.ts:70-75 | Decoding what `JSON.stringify` wrote gives back the original string |
| JsonString.EscapeInjective | src/app/api/chat/route.ts:70-75 | Different strings are written differently |
| JsText.Take | src/mastra/agents/index.ts:94 | `slice(0, n)` gives the first min(n, length) characters |
| JsText.TakeOfTake | scripts/test-whatsapp.js:131 | Cutting to a large limit and then to a smaller one is cutting to the smaller one |
| JsText.Trim | src/mastra/agents/index.ts:93 | `trim()` gives the slice between the leading and trailing whitespace; it neither starts nor ends with whitespace, and everything it drops is whitespace |
| JsText.NatToString | src/mastra/agents/index.ts:82 | A status renders as a non-empty digit string with no leading zero whose value is the status |
| JsText.ContainsMiddle | src/mastra/agents/index.ts:171 | A string built around a piece contains that piece |
| HtmlText.IndexOf | src/mastra/agents/index.ts:89 | The offset found holds the character and no earlier position does; no offset means the character is absent |
| HtmlText.LazyUntil | src/mastra/agents/index.ts:89 | A lazy match ends within the string, leaving room for the closing tag |
| HtmlText.LazyUntilIsEarliest | src/mastra/agents/index.ts:89 | `.*?<\/tag>` stops where the closing tag starts, at the earliest such place, and crosses no line terminator |
| HtmlText.LazyUntilFindsClose | src/mastra/agents/index.ts:89 | A closing tag that starts before any line terminator is found, at that place or earlier |
| HtmlText.BlockAt | src/mastra/agents/index.ts:89-90 | A block match lies within the string, its inner text before its end |
| HtmlText.RemoveBlocks | src/mastra/agents/index.ts:89-90 | Removing blocks never lengthens the text |
| HtmlText.RemoveBlocksWithoutMarkup | src/mastra/agents/index.ts:89-90 | Text with no '<' loses no block |
| HtmlText.ReplaceTagsWithoutMarkup | src/mastra/agents/index.ts:91 | Text with no '<' keeps every character through the tag replacement |
| HtmlText.ReplaceTags | src/mastra/agents/index.ts:91 | Replacing tags by spaces never lengthens the text |
| HtmlText.ReplaceTagsLeavesNoTag | src/mastra/agents/index.ts:91 | After the tag replacement no '<' has a '>' anywhere after it |
| HtmlText.TextWithoutMarkupIsKept | src/mastra/agents/index.ts:89-91 | Text with no '<' passes the markup removal unchanged |
| HtmlText.StripMarkup | src/mastra/agents/index.ts:89-91 | Removing blocks and tags never lengthens the page and leaves no '<' with a '>' after it |
| HtmlText.Normalize | src/mastra/agents/index.ts:88-93 | The cleaned page is no longer than the raw one, has no double or non-plain whitespace, does not end with whitespace, and keeps exactly the non-whitespace characters left after markup removal, in order |
| HtmlText.CollapseSpaces | src/mastra/agents/index.ts:92 | After `/\s+/g` the text is no longer than before, has no two whitespace characters side by side and only plain spaces; the result is empty iff the input is, and starts with whitespace iff the input does |
| HtmlText.CollapseKeepsText | src/mastra/agents/index.ts:92 | Collapsing whitespace keeps every other character, in order |
| HtmlText.WhitespaceRunIsOneSpace | src/mastra/agents/index.ts:92 | A non-empty run of whitespace becomes exactly one space |
| HtmlText.RunThenText | src/mastra/agents/index.ts:92 | A whitespace run followed by text that does not start with whitespace becomes one space followed by that text collapsed |
| HtmlText.CollapseSplits | src/mastra/agents/index.ts:92 | Collapsing text that ends in a non-whitespace character, followed by anything, is collapsing the two parts separately |
| HtmlText.WordsStaySeparated | src/mastra/agents/index.ts:92 | Two stretches of text separated by a whitespace run stay separated by exactly one space |
| HtmlText.TrimKeepsText | src/mastra/agents/index.ts:93 | Trimming drops whitespace only |
| HtmlText.TrimKeepsShape | src/mastra/agents/index.ts:92-93 | Trimming collapsed text keeps it collapsed |
| HtmlText.Tidy | src/mastra/agents/index.ts:92-93 | Collapsed and trimmed text is no longer than the input, has no double whitespace, only plain spaces, and no whitespace at either end |
| HtmlText.TidyKeepsText | src/mastra/agents/index.ts:92-93 | Collapsing and trimming change whitespace and nothing else |
| HtmlText.CleanContent | src/mastra/agents/index.ts:88-94 | The cleaned text is a prefix of the whole cleaned page, exactly min(limit, length of the cleaned page) long, free of double and non-plain whitespace, and does not start with whitespace |
| HtmlText.PlainTextContent | src/mastra/agents/index.ts:88-94 | A page with no '<' is only tidied and cut; when it fits the limit it keeps all of its non-whitespace text |
| HtmlText.ShorterLimitIsPrefix | scripts/test-whatsapp.js:125-131 | Cleaning to a smaller limit gives the text cleaned to a larger one, cut to the smaller limit |
| HtmlText.NoBlockWithoutMarkup | src/mastra/agents/index.ts:97 | Text with no '<' has no `<tag>` block |
| HtmlText.FirstBlockInner | src/mastra/agents/index.ts:97 | No capture iff no position of the page starts a match of `<tag[^>]*>.*?<\/tag>`; otherwise the inner text of the leftmost match, which occurs in the page |
| HtmlText.MatchAtStart | src/mastra/agents/index.ts:97 | A match at the first position is the leftmost match |
| HtmlText.NoMatchAtStart | src/mastra/agents/index.ts:97 | Without a match at the first position, the matches and the leftmost one are those of the rest of the page, shifted by one |
| HtmlText.ExtractTitle | src/mastra/agents/index.ts:97-98 | No `<title[^>]*>.*?<\/title>` match anywhere gives `No title found`; otherwise the title is the inner text of the leftmost match, trimmed, which occurs in the page and neither starts nor ends with whitespace |
| HtmlText.NoTitleWithoutMarkup | src/mastra/agents/index.ts:97-98 | A page with no '<' has the title `No title found` |
| HtmlText.LazyUntilPlainText | src/mastra/agents/index.ts:97 | `.*?` over one line of text without '<' stops at the closing tag right after it |
| HtmlText.BlockAtStart | src/mastra/agents/index.ts:97 | `<tag>text</tag>`, with `text` one line without '<', at the start of a string matches with the inner text exactly `text` |
| HtmlText.FirstBlockAfterPlainText | src/mastra/agents/index.ts:97 | Text without '<' in front of a page does not change its first block |
| HtmlText.TitleOfSimplePage | src/mastra/agents/index.ts:97-98 | A page whose first '<' opens a one-line `<title>` has that title's text, trimmed, as its title |
| HtmlText.TitleAfterPreamble | src/mastra/agents/index.ts:97-98 | A page whose leading part (doctype, `<html>`, `<head>`, ...) starts no title match, followed by a one-line `<title>` element, has that element's text, trimmed, as its title, whatever follows |
| AgentTools.Interpolated | src/mastra/agents/index.ts:31 | A template literal shows a present value as itself and a missing one as `undefined` |
| AgentTools.TavilyRequest | src/mastra/agents/index.ts:27-40 | The request carries `Bearer ` followed by the key, or `Bearer undefined` when the key is not set, the query, the given result count or 5, advanced depth, the answer and no images |
| AgentTools.ProjectAll | src/mastra/agents/index.ts:50-55 | One hit per result, in order, each the projection of its result |
| AgentTools.WebSearch | src/mastra/agents/index.ts:25-63 | A rejected call, a non-2xx status and an unreadable body each give an error object with the query, the status one saying `Tavily API error: <status>`; otherwise the query, the answer, and hit i the projection of result i, one hit per result, or `[]` when there are no results |
| AgentTools.SearchHitsFollowResults | src/mastra/agents/index.ts:50-55 | For any 2xx status, hit i holds exactly the title, url, content and score of result i, each present iff the result has it |
| AgentTools.ExtraFieldsIgnored | src/mastra/agents/index.ts:50-55 | Results that agree on the four projected fields give the same hits |
| AgentTools.WebScrape | src/mastra/agents/index.ts:66-113 | A rejected call, a non-2xx status (`HTTP error: <status>`) and an unreadable body each give an error object with the URL; otherwise content exactly min(5000, length of the cleaned page) long, a prefix of the cleaned page, with no double whitespace and no leading whitespace, `length` equal to its length, and the extracted title |
| AgentTools.ShortPlainPageKept | src/mastra/agents/index.ts:85-104 | A short page without markup keeps all of its text, only its whitespace tidied, and has no title |
| AgentTools.StripDisallowed | src/mastra/agents/index.ts:126 | After the first replace only digits, `+ - * / . ( )` and spaces remain, each allowed character as many times as before |
| AgentTools.StripDisallowedAppend | src/mastra/agents/index.ts:126 | The first replace works character by character: on a concatenation it is the concatenation of its results |
| AgentTools.StripAllowedIsIdentity | src/mastra/agents/index.ts:126 | Text of allowed characters passes the first replace unchanged |
| AgentTools.ReplacePowerEmpty | src/mastra/agents/index.ts:127 | The `**` replacement gives an empty string iff it was given one |
| AgentTools.ReplacePowerWithoutPower | src/mastra/agents/index.ts:127 | Text without `**` passes the second replace unchanged |
| AgentTools.ReplacePower | src/mastra/agents/index.ts:127 | The `**` replacement never lengthens the text, and on text without `^` it produces a `^` iff there was a `**` |
| AgentTools.Sanitize | src/mastra/agents/index.ts:125-127 | The sanitised expression is no longer than the original; it consists of allowed characters iff the stripped expression has no `**`, and then it is the stripped expression |
| AgentTools.ReplacePowerAllowed | src/mastra/agents/index.ts:127-131 | On allowed text the `**` replacement keeps every character allowed iff there was no `**` |
| AgentTools.SanitizedPassesValidation | src/mastra/agents/index.ts:125-131 | The sanitised expression passes validation (`PassesValidation`, the test at line 130) iff the stripped expression is non-empty and has no `**` |
| AgentTools.PowerOrEmptyRejected | src/mastra/agents/index.ts:125-150 | An expression whose stripped form is empty or holds `**` gets the error object, whatever `eval` would do |
| AgentTools.PlainExpressionEvaluated | src/mastra/agents/index.ts:125-134 | An expression of allowed characters without `**` reaches `eval` unchanged |
| AgentTools.Calculate | src/mastra/agents/index.ts:122-152 | The result is computed iff the sanitised expression passes validation and evaluates to a finite number; it carries the original expression and `formatted` is `<expression> = <result>`; every failure is the one error object with the fixed suggestion |
| AgentTools.KnowledgeSearch | src/mastra/agents/index.ts:163-184 | One placeholder hit quoting the query, with relevance 0.8 and source `memory`, and the fixed message |
| WhatsAppScript.PhonePatternCharacterised | scripts/test-whatsapp.js:58-59 | `MatchesPhonePattern`, the test `^\d{1,4}\d{6,15}$`, holds exactly for the all-digit strings of 7 to 19 characters |
| WhatsAppScript.ValidatePhoneNumber | scripts/test-whatsapp.js:57-70 | A number is valid iff it is all ASCII digits and 7 to 19 long |
| WhatsAppScript.SeparatorsRejected | scripts/test-whatsapp.js:58 | A plus sign, a space, a hyphen or a letter anywhere makes a number invalid |
| WhatsAppScript.PhoneExamples | scripts/test-whatsapp.js:65-66 | `+972-52-3767676` is rejected and `97252376767` accepted |
| WhatsAppScript.LengthBoundsRejected | scripts/test-whatsapp.js:58 | Strings of at most 6 or at least 20 characters are rejected, the empty string among them |
| WhatsAppScript.TestWaPulseCredentials | scripts/test-whatsapp.js:34-55 | A missing token fails first, then a missing instance id; the check passes iff both are set; it then shows the instance id and at most the first ten characters of the token followed by `...` |
| WhatsAppScript.TestWebScraping | scripts/test-whatsapp.js:110-146 | A preview exists iff the fetch succeeded with a readable body; it is a prefix of the cleaned page exactly min(500, length of the cleaned page) long, with the extracted title |
| WhatsAppScript.PreviewAgreesWithTool | scripts/test-whatsapp.js:125-134 | The script's preview is the scrape tool's content cut to 500 characters, with the same title, and exists exactly when the tool succeeds |

## Left out

- Outbound calls to Tavily, arbitrary URLs, WaPulse and OpenAI are not made. What `fetch` answered is an input. The request headers other than Authorization, including the User-Agent string, are not modelled.
- `eval`, `isFinite` and JavaScript numbers are outside the model. The evaluator is a function parameter, and `Evaluation.rendered` stands for `String(result)`.
- Calculate: relies on the evaluator parameter for the value, so nothing is stated about which number an expression denotes.
- `crypto.randomUUID()` and `new Date().toISOString()` become the functions `ids` and `stamps` of a frame's position. The health probe's timestamp is a parameter.
- `TextEncoder.encode` is not modelled. `StreamController.enqueued` holds the strings that would be encoded.
- StreamController: `enqueued` records every `enqueue` call, not what the client reads. `controller.error` discards chunks the client has not read yet, so after an error the client may have received fewer frames than `enqueued` shows; reads by the client are not modelled.
- Strings are sequences of Unicode scalar values, not UTF-16 code units. Lengths, `slice`, `substring` and the 200/500/5000 limits therefore count scalar values, and a lone surrogate cannot occur. For the same reason the JSON decoder refuses `\uD800`-`\uDFFF` escapes.
- Case folding covers ASCII letters only. This matches `/i` without the `u` flag. `toLowerCase` on non-ASCII letters in file extensions is not modelled.
- Every thrown value is an `Error` with a message. The `'Unknown error'` branches of the tools and of the upload route are not modelled.
- HandleChat: bodies of the wrong shape are not modelled; `messages` is a sequence of messages that each have a string `role`. In the source, `messages` that is a string, a number or an object has no usable last element and gets 400 `Invalid message format`, as do a last element that is `null` and a last message without `role`; only `messages` that is `null` or missing raises a TypeError, which the outer `catch` turns into 500 `Internal Server Error`.
- HandleUpload: a form field `file` that is a string is not modelled; an empty string is falsy and gets 400 `No file provided`, a non-empty one has no `text()` and gets 500.
- WebSearch: a `data.results` that is present, not `null` and not an array, a `null` JSON body, and a `null` entry in `data.results` are not modelled; each raises a TypeError that the `catch` turns into `Search failed: <message>`. A `null` `data.results` gives `[]` through `?.` and `|| []`, as an absent one does, and the model treats both as absent.
- HandleChat: a rejection of `agent.stream` itself is not modelled; in the source it is the same 500 `Internal Server Error` as a body that fails to parse. `mastra.getAgent` is the boolean `agentFound`.
- The stores and vector stores are not modelled, only which constructor is chosen with which arguments. The same goes for Mastra's `Agent` and `Memory`. `productionConfig` is constant data.
- Several parts of scripts/test-whatsapp.js are not modelled: `testWhatsAppMessage` (a network call), the readline prompts, `main`, and all console output.
- The UI (src/app/page.tsx, src/components/DocumentUpload.tsx, src/hooks/useBrowserExtensionFix.ts) is not part of this model. Neither are the CLI (src/agent-cli.js), the smoke-test scripts, or the configuration files (next.config.ts, src/app/layout.tsx, src/mastra/index.ts).
- The agent instruction prompt and `maxFileSize`/`usage` strings of upload `GET` are not modelled; only the two lists are.

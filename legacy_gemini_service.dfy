/**
 * The older `extractDataFromImage` (services/geminiService.ts): the same key
 * check, trimming, empty check and `catch` mapping as the current one, but
 * no check that the text opens a JSON object or array before it is parsed.
 */
module LegacyGeminiService {
  import opened Wrappers
  import opened Strings
  import opened Records
  import opened GeminiService

  /** The `try` block: whatever non-empty trimmed text the service returns goes straight to the parser. */
  function LegacyTryBlock(remote: Remote, parse: Parser): Result<Fields, Thrown>
  {
    match remote
    case Failed(e) => Err(e)
    case Responded(text) =>
      var json := Trim(text);
      if json == "" then Err(Error(EmptyResponse)) else parse(json)
  }

  /**
   * The promise the older `extractDataFromImage` returns. Only an empty key
   * yields the not-provided message; every other failure is one of the three
   * `catch` messages; it succeeds exactly when the key is given, the service
   * answers with non-blank text, and that text parses.
   */
  function LegacyExtractDataFromImage(apiKey: string, remote: Remote, parse: Parser): (r: Result<Fields, string>)
    ensures r == Err(MissingKey) <==> apiKey == ""
    ensures r.Err? ==> r.error in {MissingKey, InvalidKey, RateLimited, ExtractionFailed}
    ensures r.Err? ==> r.error != EmptyResponse
    ensures r.Ok? <==> apiKey != "" && remote.Responded? && Trim(remote.text) != ""
                       && parse(Trim(remote.text)).Ok?
    ensures r.Ok? ==> r.value == parse(Trim(remote.text)).value
  {
    if apiKey == "" then Err(MissingKey)
    else match LegacyTryBlock(remote, parse)
      case Ok(fields) => Ok(fields)
      case Err(e) => Err(CatchMessage(e))
  }

  /** A blank answer surfaces as the generic message here too. */
  lemma LegacyEmptyResponseSurfacesAsGeneric(apiKey: string, text: string, parse: Parser)
    requires apiKey != "" && AllWhitespace(text)
    ensures LegacyExtractDataFromImage(apiKey, Responded(text), parse) == Err(ExtractionFailed)
  {
    EmptyResponseLacksRateTrigger();
    EmptyResponseLacksKeyTrigger();
  }

  /**
   * The two variants agree on every input except a non-blank answer that
   * opens neither an object nor an array: the missing key, a rejection, a
   * blank answer and a JSON-looking answer are all treated alike.
   */
  lemma VariantsAgreeOutsidePrefixGuard(apiKey: string, remote: Remote, parse: Parser)
    requires apiKey == "" || remote.Failed? || Trim(remote.text) == "" || LooksLikeJson(Trim(remote.text))
    ensures LegacyExtractDataFromImage(apiKey, remote, parse) == ExtractDataFromImage(apiKey, remote, parse)
  {
  }

  /**
   * On a non-blank answer that opens neither an object nor an array, the
   * current variant always reports the generic failure, while the older one
   * hands the text to the parser and returns whatever that gives (an answer
   * such as `null` or `"text"` parses).
   */
  lemma VariantsDifferOnNonJsonText(apiKey: string, text: string, parse: Parser)
    requires apiKey != "" && Trim(text) != "" && !LooksLikeJson(Trim(text))
    ensures ExtractDataFromImage(apiKey, Responded(text), parse) == Err(ExtractionFailed)
    ensures LegacyExtractDataFromImage(apiKey, Responded(text), parse)
         == match parse(Trim(text))
            case Ok(fields) => Ok(fields)
            case Err(e) => Err(CatchMessage(e))
  {
    NotJsonSurfacesAsGeneric(apiKey, text, parse);
  }
}

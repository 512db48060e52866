/**
 * `extractDataFromImage` (src/services/geminiService.ts): one remote
 * extraction request, its response guards, and the mapping of every failure
 * inside the `try` block to one of three messages.
 *
 * The remote call (`ai.models.generateContent`) and `JSON.parse` are foreign
 * code; both are parameters: the remote outcome as a value, the parser as a
 * function from text to fields or a thrown value.
 */
module GeminiService {
  import opened Wrappers
  import opened Strings
  import opened Records

  // The messages. The longer ones are spelled in pieces of at most thirty
  // characters so that the verifier can look inside each piece.

  /** Thrown before the `try` block when the key is empty. */
  const MissingKey := "Gemini API Key is not provided."

  /** Thrown inside the `try` block when the trimmed text is empty. */
  const EmptyResponse := "The API returned " + "an empty response. " + "The image might " + "be unclear or " + "contain no text."

  /** Thrown inside the `try` block when the trimmed text starts with neither `{` nor `[`. */
  const NotJson := "The API did not return " + "a valid JSON format. " + "Please check " + "your" + " prompt and the " + "image content."

  /** What the `catch` block throws for a rejected key. */
  const InvalidKey := "The provided Gemini API Key is not valid. Please check it and try again."

  /** What the `catch` block throws when the service throttles. */
  const RateLimited := "API rate limit exceeded. Please wait and try again."

  /** What the `catch` block throws for every other failure. */
  const ExtractionFailed := "Failed to extract data from image. Please check the console for details."

  /** The substrings the `catch` block looks for. */
  const InvalidKeyTrigger := "API key not valid"
  const RateLimitTrigger := "429"

  /** What `generateContent` gives: a response and its text, or a rejection. */
  datatype Remote = Responded(text: string) | Failed(thrown: Thrown)

  /** `JSON.parse` followed by the unchecked cast to a field map. */
  type Parser = string -> Result<Fields, Thrown>

  /** The guard that the trimmed text opens a JSON object or array. */
  predicate LooksLikeJson(text: string)
  {
    StartsWith(text, "{") || StartsWith(text, "[")
  }

  /** The `try` block: the parsed fields, or the value thrown inside it. */
  function TryBlock(remote: Remote, parse: Parser): Result<Fields, Thrown>
  {
    match remote
    case Failed(e) => Err(e)
    case Responded(text) =>
      var json := Trim(text);
      if json == "" then Err(Error(EmptyResponse))
      else if !LooksLikeJson(json) then Err(Error(NotJson))
      else parse(json)
  }

  /**
   * The `catch` block: an `Error` whose message mentions an invalid key
   * becomes the invalid-key message, checked first; otherwise one that
   * mentions 429 becomes the rate-limit message; everything else, including a
   * thrown value that is not an `Error`, becomes the generic message.
   */
  function CatchMessage(e: Thrown): (m: string)
    ensures m == InvalidKey || m == RateLimited || m == ExtractionFailed
    ensures m == InvalidKey <==> e.Error? && Contains(e.message, InvalidKeyTrigger)
    ensures m == RateLimited
        <==> e.Error? && !Contains(e.message, InvalidKeyTrigger) && Contains(e.message, RateLimitTrigger)
  {
    if e.Error? && Contains(e.message, InvalidKeyTrigger) then InvalidKey
    else if e.Error? && Contains(e.message, RateLimitTrigger) then RateLimited
    else ExtractionFailed
  }

  /**
   * The promise `extractDataFromImage` returns: the fields, or the message of
   * the `Error` it rejects with. Only an empty key yields the not-provided
   * message. It succeeds exactly when the key is given, the service answers,
   * and the trimmed answer looks like JSON and parses.
   */
  function ExtractDataFromImage(apiKey: string, remote: Remote, parse: Parser): (r: Result<Fields, string>)
    ensures r == Err(MissingKey) <==> apiKey == ""
    ensures r.Ok? <==> apiKey != "" && remote.Responded? && LooksLikeJson(Trim(remote.text))
                       && parse(Trim(remote.text)).Ok?
    ensures r.Ok? ==> r.value == parse(Trim(remote.text)).value
  {
    if apiKey == "" then Err(MissingKey)
    else match TryBlock(remote, parse)
      case Ok(fields) => Ok(fields)
      case Err(e) => Err(CatchMessage(e))
  }

  /**
   * Every failure of `extractDataFromImage` after the key check is one of the
   * three `catch` messages, so the empty-response and not-JSON messages never
   * reach the caller.
   */
  lemma ExtractDataFromImageMessages(apiKey: string, remote: Remote, parse: Parser)
    ensures var r := ExtractDataFromImage(apiKey, remote, parse);
      r.Err? ==> r.error in {MissingKey, InvalidKey, RateLimited, ExtractionFailed}
    ensures var r := ExtractDataFromImage(apiKey, remote, parse);
      r.Err? ==> r.error != EmptyResponse && r.error != NotJson
  {
  }

  /** The empty-response message holds no '4'. */
  lemma EmptyResponseLacksRateTrigger()
    ensures !Contains(EmptyResponse, RateLimitTrigger)
  {
    var p1, p2, p3, p4, p5 := "The API returned ", "an empty response. ", "The image might ", "be unclear or ", "contain no text.";
    assert '4' !in p1 + p2 + p3 + p4 + p5 by {
      assert '4' !in p1 && '4' !in p2 && '4' !in p3 && '4' !in p4 && '4' !in p5;
    }
    AbsentCharNotContained(p1 + p2 + p3 + p4 + p5, RateLimitTrigger, 0);
  }

  /** The empty-response message holds no 'k'. */
  lemma EmptyResponseLacksKeyTrigger()
    ensures !Contains(EmptyResponse, InvalidKeyTrigger)
  {
    var p1, p2, p3, p4, p5 := "The API returned ", "an empty response. ", "The image might ", "be unclear or ", "contain no text.";
    assert 'k' !in p1 + p2 + p3 + p4 + p5 by {
      assert 'k' !in p1 && 'k' !in p2 && 'k' !in p3 && 'k' !in p4 && 'k' !in p5;
    }
    AbsentCharNotContained(p1 + p2 + p3 + p4 + p5, InvalidKeyTrigger, 4);
  }

  /** The not-JSON message holds no '4'. */
  lemma NotJsonLacksRateTrigger()
    ensures !Contains(NotJson, RateLimitTrigger)
  {
    var p1, p2, p3 := "The API did not return ", "a valid JSON format. ", "Please check ";
    var p4, p5, p6 := "your", " prompt and the ", "image content.";
    assert '4' !in p1 + p2 + p3 + p4 + p5 + p6 by {
      assert '4' !in p1 && '4' !in p2 && '4' !in p3 && '4' !in p4 && '4' !in p5 && '4' !in p6;
    }
    AbsentCharNotContained(p1 + p2 + p3 + p4 + p5 + p6, RateLimitTrigger, 0);
  }

  /** The first half of the not-JSON message holds no 'y'. */
  lemma NotJsonHeadLacksPair()
    ensures NoPair("The API did not return " + "a valid JSON format. " + "Please check ", 'y', ' ')
  {
    var p1, p2, p3 := "The API did not return ", "a valid JSON format. ", "Please check ";
    assert 'y' !in p1 && 'y' !in p2 && 'y' !in p3;
    AbsentNoPair(p1 + p2 + p3, 'y', ' ');
  }

  /** In the second half of the not-JSON message the one 'y' is followed by an 'o'. */
  lemma NotJsonTailLacksPair()
    ensures NoPair("your" + " prompt and the " + "image content.", 'y', ' ')
  {
    var p4, p5, p6 := "your", " prompt and the ", "image content.";
    assert ' ' !in p4 && 'y' !in p5 && 'y' !in p6;
    AbsentNoPair(p4, 'y', ' ');
    AbsentNoPair(p5 + p6, 'y', ' ');
    NoPairConcat(p4, p5 + p6, 'y', ' ');
    assert p4 + (p5 + p6) == p4 + p5 + p6;
  }

  /** The not-JSON message never has a 'y' followed by a space, which "API key not valid" has. */
  lemma NotJsonLacksKeyTrigger()
    ensures !Contains(NotJson, InvalidKeyTrigger)
  {
    var head := "The API did not return " + "a valid JSON format. " + "Please check ";
    var tail := "your" + " prompt and the " + "image content.";
    NotJsonHeadLacksPair();
    NotJsonTailLacksPair();
    NoPairConcat(head, tail, 'y', ' ');
    assert NotJson == head + tail;
    AbsentPairNotContained(NotJson, InvalidKeyTrigger, 6);
  }

  /** Neither message thrown inside the `try` block mentions a trigger substring. */
  lemma InnerMessagesLackTriggers()
    ensures !Contains(EmptyResponse, InvalidKeyTrigger) && !Contains(EmptyResponse, RateLimitTrigger)
    ensures !Contains(NotJson, InvalidKeyTrigger) && !Contains(NotJson, RateLimitTrigger)
  {
    EmptyResponseLacksRateTrigger();
    EmptyResponseLacksKeyTrigger();
    NotJsonLacksRateTrigger();
    NotJsonLacksKeyTrigger();
  }

  /** An empty or all-whitespace answer always surfaces as the generic message. */
  lemma EmptyResponseSurfacesAsGeneric(apiKey: string, text: string, parse: Parser)
    requires apiKey != "" && AllWhitespace(text)
    ensures ExtractDataFromImage(apiKey, Responded(text), parse) == Err(ExtractionFailed)
  {
    InnerMessagesLackTriggers();
  }

  /** A non-empty answer that opens neither an object nor an array always surfaces as the generic message. */
  lemma NotJsonSurfacesAsGeneric(apiKey: string, text: string, parse: Parser)
    requires apiKey != "" && !AllWhitespace(text) && !LooksLikeJson(Trim(text))
    ensures ExtractDataFromImage(apiKey, Responded(text), parse) == Err(ExtractionFailed)
  {
    InnerMessagesLackTriggers();
  }

  /** A rejection from the service or the parser reaches the caller through the `catch` mapping only. */
  lemma RejectionIsMapped(apiKey: string, remote: Remote, parse: Parser)
    requires apiKey != ""
    requires remote.Failed? || (LooksLikeJson(Trim(remote.text)) && parse(Trim(remote.text)).Err?)
    ensures ExtractDataFromImage(apiKey, remote, parse)
         == Err(CatchMessage(if remote.Failed? then remote.thrown else parse(Trim(remote.text)).error))
  {
  }
}

/** `fileToBase64`: the base64 payload of a file read as a data URL. */
module FileUtils {
  import opened Wrappers
  import opened Strings

  /** The rejection message when the data URL has no payload. */
  const ConversionFailed := "Failed to convert file to base64."

  /**
   * What `FileReader.readAsDataURL` delivers: the data URL
   * (`data:[mime/type];base64,[payload]`) on `onload`, or an `onerror` event.
   */
  datatype FileRead = Loaded(dataUrl: string) | ReadFailed

  /**
   * The `onload` step: `result.split(',')[1]`, rejected when that piece is
   * absent (no comma) or empty. A payload is never empty and never holds a
   * comma.
   */
  function Base64Payload(dataUrl: string): (r: Result<string, string>)
    ensures r.Ok? ==> r.value != "" && ',' !in r.value
    ensures r.Err? ==> r.error == ConversionFailed
    ensures ',' !in dataUrl ==> r == Err(ConversionFailed)
  {
    var parts := Split(dataUrl, ',');
    if |parts| >= 2 && parts[1] != "" then Ok(parts[1]) else Err(ConversionFailed)
  }

  /**
   * Every data URL with a comma reads `header,payload` followed by nothing or
   * by a further comma; the result is the payload between the first and the
   * second comma, or the rejection when that payload is empty.
   */
  lemma PayloadOfDataUrl(header: string, payload: string, tail: string)
    requires ',' !in header && ',' !in payload
    requires tail == "" || tail[0] == ','
    ensures Base64Payload(header + "," + payload + tail)
         == if payload == "" then Err(ConversionFailed) else Ok(payload)
  {
    var url := header + "," + payload + tail;
    var rest := Split(payload + tail, ',');
    assert Split(url, ',') == [header] + rest by {
      assert url == header + [','] + (payload + tail);
      SplitConcat(header, payload + tail, ',');
    }
    assert rest[0] == payload by {
      SplitFirstPiece(payload, tail, ',');
    }
  }

  /** `"data:image/png;base64,XYZ"` yields `"XYZ"`. */
  lemma PayloadExample()
    ensures Base64Payload("data:image/png;base64,XYZ") == Ok("XYZ")
  {
    var header := "data:image/png;base64";
    assert "data:image/png;base64,XYZ" == header + "," + "XYZ" + "";
    PayloadOfDataUrl(header, "XYZ", "");
  }

  /** A data URL that ends at its first comma is rejected. */
  lemma EmptyPayloadExample()
    ensures Base64Payload("data:image/png;base64,") == Err(ConversionFailed)
  {
    var header := "data:image/png;base64";
    assert "data:image/png;base64," == header + "," + "" + "";
    PayloadOfDataUrl(header, "", "");
  }

  /** Only the piece up to the second comma is taken. */
  lemma SecondCommaExample()
    ensures Base64Payload("data:,a,b") == Ok("a")
  {
    assert "data:,a,b" == "data:" + "," + "a" + ",b";
    PayloadOfDataUrl("data:", "a", ",b");
  }

  /**
   * The promise `fileToBase64` returns: it resolves with the payload, rejects
   * with an `Error` when the payload is missing or empty, and rejects with the
   * reader's error event (which is not an `Error`) when reading fails.
   */
  function FileToBase64(read: FileRead): (r: Result<string, Thrown>)
    ensures read.ReadFailed? ==> r == Err(NonError)
    ensures read.Loaded? ==> (r.Ok? <==> Base64Payload(read.dataUrl).Ok?)
    ensures read.Loaded? && r.Ok? ==> r.value == Base64Payload(read.dataUrl).value
    ensures r.Ok? ==> r.value != "" && ',' !in r.value
    ensures read.Loaded? && r.Err? ==> r.error == Error(ConversionFailed)
  {
    match read
    case ReadFailed => Err(NonError)
    case Loaded(url) =>
      match Base64Payload(url)
      case Ok(payload) => Ok(payload)
      case Err(message) => Err(Error(message))
  }
}

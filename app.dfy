/**
 * The application state of src/App.tsx and the two handlers that work step
 * by step on it: the batch extraction loop (`handleProcessImage`) and the
 * CSV export (`handleDownloadCsv`). The table handlers that only replace the
 * record list and the selection are the functions of `RecordStore`; the
 * class applies them to its fields.
 *
 * Outside the program: the file reader's result is part of each file; the
 * remote model service and `JSON.parse` are the functions of an
 * environment; `Date.now()` is a clock read once per file, a function from
 * the file's position to milliseconds.
 */
module App {
  import opened Wrappers
  import opened Strings
  import opened Records
  import opened StringOrder
  import opened FileUtils
  import opened GeminiService
  import RecordStore
  import opened Seqs
  import Csv

  // ---------------------------------------------------------------------------
  // Messages

  const MissingKeyPrompt := "Please enter your Gemini API Key first."
  const NoFilesPrompt := "Please select one or more image files first."
  const StartingStatus := "Starting processing..."
  const UnknownError := "An unknown error occurred"

  /** `Processing ${i + 1}/${imageFiles.length}: ${file.name}`: it ends with the file's name. */
  function ProgressStatus(i: nat, n: nat, name: string): (r: string)
    ensures |r| > |name| && r[|r| - |name|..] == name
  {
    "Processing " + (IntToString(i + 1) + ("/" + IntToString(n) + ": " + name))
  }

  /**
   * `Failed to process ${file.name}: ${errorMessage}`: it ends with the
   * error's message and is never one of the two messages the handler's
   * guards show.
   */
  function FailureMessage(name: string, message: string): (r: string)
    ensures |r| > |message| && r[|r| - |message|..] == message
    ensures r != MissingKeyPrompt && r != NoFilesPrompt
  {
    var r := "Failed to process " + name + ": " + message;
    assert r[0] == 'F' && MissingKeyPrompt[0] == 'P' && NoFilesPrompt[0] == 'P';
    r
  }

  /** Two files of one batch with the same name still show different progress messages. */
  lemma ProgressStatusDistinct(i: nat, j: nat, n: nat, name: string)
    ensures ProgressStatus(i, n, name) == ProgressStatus(j, n, name) ==> i == j
  {
    if ProgressStatus(i, n, name) == ProgressStatus(j, n, name) {
      MiddleOfEqual("Processing ", IntToString(i + 1), IntToString(j + 1), "/" + IntToString(n) + ": " + name);
      IntToStringInjective(i + 1, j + 1);
    }
  }

  /** `err instanceof Error ? err.message : 'An unknown error occurred'`. */
  function ThrownMessage(e: Thrown): string
  {
    if e.Error? then e.message else UnknownError
  }

  // ---------------------------------------------------------------------------
  // Files, requests and the environment

  /** A chosen image: its name, its MIME type and what reading it as a data URL gives. */
  datatype File = File(name: string, mimeType: string, contents: FileRead)

  /** One call to the model service: the key, the image payload, its MIME type and the prompt. */
  datatype Request = Request(apiKey: string, base64: string, mimeType: string, prompt: string)

  /** The service's answer to each request, the JSON parser, and the clock reading taken for the file at each position. */
  datatype Env = Env(remote: Request -> Remote, parse: Parser, now: nat -> int)

  /** `Date.now()` never goes back. */
  ghost predicate ClockNonDecreasing(now: nat -> int)
  {
    forall i: nat, j: nat :: i <= j ==> now(i) <= now(j)
  }

  /** What processing one file ends in: the extracted fields, or the message the loop's `catch` builds from the rejection. */
  datatype Outcome = Extracted(fields: Fields) | Caught(message: string)

  /** The request sent for a file whose payload was read. */
  function RequestFor(apiKey: string, prompt: string, file: File, base64: string): Request
  {
    Request(apiKey, base64, file.mimeType, prompt)
  }

  /**
   * One iteration's `try` block: convert the file, then extract; a rejection
   * of either is caught. A file succeeds only when its request was sent; a
   * failed read ends in the unknown-error text, a data URL without a payload
   * in the conversion message, and a file read with an empty key in the
   * not-provided message. A success carries what the parser gave for the
   * trimmed answer to the file's request, and a failure after the request
   * carries the message `extractDataFromImage` rejected with.
   */
  function Attempt(apiKey: string, prompt: string, file: File, env: Env): (r: Outcome)
    ensures r.Extracted? ==> RequestOf(apiKey, prompt, file).Some?
    ensures file.contents.ReadFailed? ==> r == Caught(UnknownError)
    ensures apiKey == "" && FileToBase64(file.contents).Ok? ==> r == Caught(MissingKey)
    ensures file.contents.Loaded? && FileToBase64(file.contents).Err? ==> r == Caught(ConversionFailed)
    ensures var q := RequestOf(apiKey, prompt, file);
      r.Extracted? ==> q.Some? && env.remote(q.value).Responded?
                       && env.parse(Trim(env.remote(q.value).text)) == Ok(r.fields)
    ensures var q := RequestOf(apiKey, prompt, file);
      q.Some? && r.Caught? ==> ExtractDataFromImage(apiKey, env.remote(q.value), env.parse) == Err(r.message)
  {
    match FileToBase64(file.contents)
    case Err(e) => Caught(ThrownMessage(e))
    case Ok(base64) =>
      match ExtractDataFromImage(apiKey, env.remote(RequestFor(apiKey, prompt, file, base64)), env.parse)
      case Ok(fields) => Extracted(fields)
      case Err(m) => Caught(m)
  }

  /**
   * The request a file leads to: one exactly when the key is given and the
   * file's payload was read (with an empty key `extractDataFromImage` throws
   * before it calls the service). It carries the batch's key and prompt and
   * the file's payload and MIME type.
   */
  function RequestOf(apiKey: string, prompt: string, file: File): (r: Option<Request>)
    ensures r.Some? <==> apiKey != "" && FileToBase64(file.contents).Ok?
    ensures r.Some? ==>
      && r.value.apiKey == apiKey && r.value.prompt == prompt
      && r.value.base64 == FileToBase64(file.contents).value && r.value.mimeType == file.mimeType
  {
    if apiKey == "" then None
    else match FileToBase64(file.contents)
      case Ok(base64) => Some(RequestFor(apiKey, prompt, file, base64))
      case Err(_) => None
  }

  // ---------------------------------------------------------------------------
  // The batch, file by file

  /** What each file ends in, in file order. */
  function Outcomes(apiKey: string, prompt: string, files: seq<File>, env: Env): (r: seq<Outcome>)
    ensures |r| == |files|
    decreases |files|
  {
    if |files| == 0 then [] else [Attempt(apiKey, prompt, files[0], env)] + Outcomes(apiKey, prompt, files[1..], env)
  }

  /** The outcome listed for a file is what attempting that file gives. */
  lemma {:induction false} OutcomeAt(apiKey: string, prompt: string, files: seq<File>, env: Env, i: nat)
    requires i < |files|
    ensures Outcomes(apiKey, prompt, files, env)[i] == Attempt(apiKey, prompt, files[i], env)
    decreases i
  {
    var rest := files[1..];
    var all, tail := Outcomes(apiKey, prompt, files, env), Outcomes(apiKey, prompt, rest, env);
    assert all == [Attempt(apiKey, prompt, files[0], env)] + tail;
    if i > 0 {
      OutcomeAt(apiKey, prompt, rest, env, i - 1);
      assert all[i] == tail[i - 1] && rest[i - 1] == files[i];
    }
  }

  /** The request each file leads to, if any, in file order. */
  function Requests(apiKey: string, prompt: string, files: seq<File>): (r: seq<Option<Request>>)
    ensures |r| == |files|
    decreases |files|
  {
    if |files| == 0 then [] else [RequestOf(apiKey, prompt, files[0])] + Requests(apiKey, prompt, files[1..])
  }

  /** The request listed for a file is the one that file leads to. */
  lemma {:induction false} RequestAt(apiKey: string, prompt: string, files: seq<File>, i: nat)
    requires i < |files|
    ensures Requests(apiKey, prompt, files)[i] == RequestOf(apiKey, prompt, files[i])
    decreases i
  {
    var rest := files[1..];
    assert Requests(apiKey, prompt, files) == [RequestOf(apiKey, prompt, files[0])] + Requests(apiKey, prompt, rest);
    if i > 0 {
      RequestAt(apiKey, prompt, rest, i - 1);
      assert rest[i - 1] == files[i];
    }
  }

  /** The record a success at position `i` appends: its id is the clock reading plus `i`. */
  function NewRecord(file: File, i: nat, now: nat -> int, fields: Fields): Record
  {
    Record(now(i) + i, file.name, fields)
  }

  /** The records one file adds: its record on success, none on failure. */
  function Gained(file: File, i: nat, now: nat -> int, outcome: Outcome): seq<Record>
  {
    match outcome
    case Extracted(fields) => [NewRecord(file, i, now, fields)]
    case Caught(_) => []
  }

  /** The error after one file: its failure message when it failed, the previous error otherwise. */
  function ErrorAfter(error: Option<string>, file: File, outcome: Outcome): Option<string>
  {
    match outcome
    case Caught(m) => Some(FailureMessage(file.name, m))
    case Extracted(_) => error
  }

  /** The requests one file sends: none or one. */
  function Sent(request: Option<Request>): seq<Request>
  {
    match request
    case Some(r) => [r]
    case None => []
  }

  /**
   * The records the first `k` files add, given what each file ended in and
   * the clock: one per success, in file order, with id `Date.now() + i`.
   */
  function Added(files: seq<File>, outs: seq<Outcome>, now: nat -> int, k: nat): (r: seq<Record>)
    requires k <= |files| == |outs|
    ensures |r| <= k
    decreases k
  {
    if k == 0 then [] else Added(files, outs, now, k - 1) + Gained(files[k - 1], k - 1, now, outs[k - 1])
  }

  /** The error shown after the first `k` files: that of the last of them that failed, if any. */
  function LastError(files: seq<File>, outs: seq<Outcome>, k: nat): Option<string>
    requires k <= |files| == |outs|
    decreases k
  {
    if k == 0 then None else ErrorAfter(LastError(files, outs, k - 1), files[k - 1], outs[k - 1])
  }

  /** The requests the first `k` files send: one per file whose payload was read, in file order. */
  function Calls(reqs: seq<Option<Request>>, k: nat): (r: seq<Request>)
    requires k <= |reqs|
    ensures |r| <= k
    decreases k
  {
    if k == 0 then [] else Calls(reqs, k - 1) + Sent(reqs[k - 1])
  }

  /** The progress messages shown up to the first `k` files: the starting message, then one per file. */
  function Statuses(files: seq<File>, k: nat): (r: seq<string>)
    requires k <= |files|
    ensures |r| == k + 1
    decreases k
  {
    if k == 0 then [StartingStatus] else Statuses(files, k - 1) + [ProgressStatus(k - 1, |files|, files[k - 1].name)]
  }

  // ---------------------------------------------------------------------------
  // What the batch leaves behind

  /** How many of the first `k` files succeeded. */
  function Successes(outs: seq<Outcome>, k: nat): (r: nat)
    requires k <= |outs|
    ensures r <= k
    decreases k
  {
    if k == 0 then 0 else Successes(outs, k - 1) + (if outs[k - 1].Extracted? then 1 else 0)
  }

  /** The batch appends one record per successful file: as many as there were successes. */
  lemma {:induction false} AddedCount(files: seq<File>, outs: seq<Outcome>, now: nat -> int, k: nat)
    requires k <= |files| == |outs|
    ensures |Added(files, outs, now, k)| == Successes(outs, k)
    decreases k
  {
    if k > 0 {
      AddedCount(files, outs, now, k - 1);
    }
  }

  /** A record is among those the first `k` files add exactly when one of them succeeded with it. */
  lemma {:induction false} AddedMember(files: seq<File>, outs: seq<Outcome>, now: nat -> int, k: nat, rec: Record)
    requires k <= |files| == |outs|
    ensures rec in Added(files, outs, now, k) <==>
      exists i :: 0 <= i < k && outs[i].Extracted? && rec == NewRecord(files[i], i, now, outs[i].fields)
    decreases k
  {
    if k > 0 {
      AddedMember(files, outs, now, k - 1, rec);
      var prev := Added(files, outs, now, k - 1);
      var gained := Gained(files[k - 1], k - 1, now, outs[k - 1]);
      assert Added(files, outs, now, k) == prev + gained;
      if rec in prev {
        var i :| 0 <= i < k - 1 && outs[i].Extracted? && rec == NewRecord(files[i], i, now, outs[i].fields);
        assert 0 <= i < k && outs[i].Extracted? && rec == NewRecord(files[i], i, now, outs[i].fields);
      } else if rec in gained {
        var i := k - 1;
        assert 0 <= i < k && outs[i].Extracted? && rec == NewRecord(files[i], i, now, outs[i].fields);
      }
      if exists i :: 0 <= i < k && outs[i].Extracted? && rec == NewRecord(files[i], i, now, outs[i].fields) {
        var i :| 0 <= i < k && outs[i].Extracted? && rec == NewRecord(files[i], i, now, outs[i].fields);
        if i == k - 1 {
          assert rec in gained;
        } else {
          assert 0 <= i < k - 1 && outs[i].Extracted? && rec == NewRecord(files[i], i, now, outs[i].fields);
          assert rec in prev;
        }
      }
    }
  }

  /**
   * The batch appends one record per successful file and nothing else: a
   * record is among those added exactly when some file among the first `k`
   * succeeded with it, and there are as many as there were successes.
   */
  lemma AddedRecords(files: seq<File>, outs: seq<Outcome>, now: nat -> int, k: nat)
    requires k <= |files| == |outs|
    ensures |Added(files, outs, now, k)| == Successes(outs, k)
    ensures forall rec :: rec in Added(files, outs, now, k) <==>
      exists i :: 0 <= i < k && outs[i].Extracted? && rec == NewRecord(files[i], i, now, outs[i].fields)
  {
    AddedCount(files, outs, now, k);
    forall rec
      ensures rec in Added(files, outs, now, k) <==>
        exists i :: 0 <= i < k && outs[i].Extracted? && rec == NewRecord(files[i], i, now, outs[i].fields)
    {
      AddedMember(files, outs, now, k, rec);
    }
  }

  /**
   * `Date.now() + i` numbers the records of one batch in increasing order
   * when the clock never goes back, so no two of them share an id.
   */
  lemma {:induction false} AddedIdsIncrease(files: seq<File>, outs: seq<Outcome>, now: nat -> int, k: nat)
    requires k <= |files| == |outs|
    requires ClockNonDecreasing(now)
    ensures forall a, b :: 0 <= a < b < |Added(files, outs, now, k)| ==>
      Added(files, outs, now, k)[a].id < Added(files, outs, now, k)[b].id
    decreases k
  {
    if k > 0 {
      AddedIdsIncrease(files, outs, now, k - 1);
      var prev := Added(files, outs, now, k - 1);
      var gained := Gained(files[k - 1], k - 1, now, outs[k - 1]);
      var all := prev + gained;
      assert Added(files, outs, now, k) == all;
      forall a, b | 0 <= a < b < |all|
        ensures all[a].id < all[b].id
      {
        if b >= |prev| {
          EarlierIdsAreSmaller(files, outs, now, k - 1, a);
          assert all[b] == NewRecord(files[k - 1], k - 1, now, outs[k - 1].fields);
        } else {
          assert all[a] == prev[a] && all[b] == prev[b];
        }
      }
    }
  }

  /** A record added for one of the first `k` files has a smaller id than file `k` would get. */
  lemma EarlierIdsAreSmaller(files: seq<File>, outs: seq<Outcome>, now: nat -> int, k: nat, a: nat)
    requires k < |files| == |outs|
    requires ClockNonDecreasing(now)
    requires a < |Added(files, outs, now, k)|
    ensures Added(files, outs, now, k)[a].id < now(k) + k
  {
    AddedRecords(files, outs, now, k);
    var rec := Added(files, outs, now, k)[a];
    assert rec in Added(files, outs, now, k);
    var i :| 0 <= i < k && outs[i].Extracted? && rec == NewRecord(files[i], i, now, outs[i].fields);
    assert now(i) <= now(k);
  }

  /** Every id the batch hands out is at least the first clock reading. */
  lemma AddedIdsFromFirstReading(files: seq<File>, outs: seq<Outcome>, now: nat -> int, k: nat)
    requires k <= |files| == |outs|
    requires ClockNonDecreasing(now)
    ensures forall rec :: rec in Added(files, outs, now, k) ==> rec.id >= now(0)
  {
    AddedRecords(files, outs, now, k);
    forall rec | rec in Added(files, outs, now, k)
      ensures rec.id >= now(0)
    {
      var i :| 0 <= i < k && outs[i].Extracted? && rec == NewRecord(files[i], i, now, outs[i].fields);
      assert now(0) <= now(i);
    }
  }

  /**
   * When the records already in the table have distinct ids, all below the
   * first clock reading of the batch, the table after the batch still has
   * distinct ids.
   */
  lemma BatchKeepsIdsDistinct(before: seq<Record>, files: seq<File>, outs: seq<Outcome>, now: nat -> int)
    requires |files| == |outs|
    requires ClockNonDecreasing(now)
    requires Distinct(Ids(before))
    requires forall rec :: rec in before ==> rec.id < now(0)
    ensures Distinct(Ids(before + Added(files, outs, now, |files|)))
  {
    var added := Added(files, outs, now, |files|);
    var all := before + added;
    AddedIdsIncrease(files, outs, now, |files|);
    AddedIdsFromFirstReading(files, outs, now, |files|);
    forall a, b | 0 <= a < b < |all|
      ensures Ids(all)[a] != Ids(all)[b]
    {
      if b < |before| {
        assert all[a] == before[a] && all[b] == before[b];
        assert Ids(before)[a] != Ids(before)[b];
      } else if a < |before| {
        assert all[a] in before && all[b] in added;
      } else {
        assert all[a] == added[a - |before|] && all[b] == added[b - |before|];
      }
    }
  }

  /**
   * The ids are unique within a batch only: a batch whose two records were
   * read at 100 ms and a later batch whose one record was read at 101 ms
   * both hand out id 101.
   */
  lemma IdsCanRepeatAcrossBatches(f: File, fields: Fields)
    ensures var first := Added([f, f], [Extracted(fields), Extracted(fields)], t => 100, 2);
            var second := Added([f], [Extracted(fields)], t => 101, 1);
            |first| == 2 && |second| == 1 && first[1].id == second[0].id == 101
  {
  }

  /** The first `k` files leave no error exactly when they all succeeded. */
  lemma {:induction false} NoErrorIffAllSucceeded(files: seq<File>, outs: seq<Outcome>, k: nat)
    requires k <= |files| == |outs|
    ensures LastError(files, outs, k) == None <==> forall i :: 0 <= i < k ==> outs[i].Extracted?
    decreases k
  {
    if k > 0 {
      NoErrorIffAllSucceeded(files, outs, k - 1);
    }
  }

  /**
   * Otherwise the error left by the first `k` files is the failure message
   * of the last of them that failed.
   */
  lemma {:induction false} LastErrorIsLastFailure(files: seq<File>, outs: seq<Outcome>, k: nat)
    requires k <= |files| == |outs|
    ensures LastError(files, outs, k).Some? ==>
      exists j :: 0 <= j < k && outs[j].Caught?
        && LastError(files, outs, k) == Some(FailureMessage(files[j].name, outs[j].message))
        && forall i :: j < i < k ==> outs[i].Extracted?
    decreases k
  {
    if k > 0 && LastError(files, outs, k).Some? {
      var err := LastError(files, outs, k);
      if outs[k - 1].Extracted? {
        assert err == LastError(files, outs, k - 1);
        LastErrorIsLastFailure(files, outs, k - 1);
        var j :| 0 <= j < k - 1 && outs[j].Caught?
          && err == Some(FailureMessage(files[j].name, outs[j].message))
          && forall i :: j < i < k - 1 ==> outs[i].Extracted?;
        assert forall i :: j < i < k ==> outs[i].Extracted?;
      } else {
        var j := k - 1;
        assert outs[j].Caught? && err == Some(FailureMessage(files[j].name, outs[j].message));
      }
    }
  }

  /** When every file succeeds, each adds its record and no error is left. */
  lemma {:induction false} AllSucceed(files: seq<File>, outs: seq<Outcome>, now: nat -> int, k: nat)
    requires k <= |files| == |outs|
    requires forall i :: 0 <= i < k ==> outs[i].Extracted?
    ensures |Added(files, outs, now, k)| == k
    ensures LastError(files, outs, k) == None
    decreases k
  {
    AddedRecords(files, outs, now, k);
    NoErrorIffAllSucceeded(files, outs, k);
    if k > 0 {
      AllSucceed(files, outs, now, k - 1);
      AddedRecords(files, outs, now, k - 1);
    }
  }

  /**
   * A failure does not stop the batch: when only the file at position `j`
   * fails, every other file adds its record and the error names that file.
   */
  lemma {:induction false} OneFailure(files: seq<File>, outs: seq<Outcome>, now: nat -> int, j: nat, k: nat)
    requires j < k <= |files| == |outs|
    requires outs[j].Caught? && forall i :: 0 <= i < k && i != j ==> outs[i].Extracted?
    ensures |Added(files, outs, now, k)| == k - 1
    ensures LastError(files, outs, k) == Some(FailureMessage(files[j].name, outs[j].message))
    decreases k
  {
    AddedRecords(files, outs, now, k);
    AddedRecords(files, outs, now, k - 1);
    if k - 1 == j {
      AllSucceed(files, outs, now, j);
      AddedRecords(files, outs, now, j);
    } else {
      OneFailure(files, outs, now, j, k - 1);
    }
  }

  /**
   * The requests sent are those of the files whose payload was read: a
   * request is sent exactly when some file among the first `k` leads to it.
   */
  lemma {:induction false} CallsFollowFiles(reqs: seq<Option<Request>>, k: nat)
    requires k <= |reqs|
    ensures forall c :: c in Calls(reqs, k) <==> exists j :: 0 <= j < k && reqs[j] == Some(c)
    decreases k
  {
    if k > 0 {
      CallsFollowFiles(reqs, k - 1);
      var prev := Calls(reqs, k - 1);
      var sent := Sent(reqs[k - 1]);
      assert Calls(reqs, k) == prev + sent;
      forall c
        ensures c in prev + sent <==> exists j :: 0 <= j < k && reqs[j] == Some(c)
      {
        if c in prev {
          var j :| 0 <= j < k - 1 && reqs[j] == Some(c);
          assert 0 <= j < k;
        } else if c in sent {
          assert reqs[k - 1] == Some(c);
        }
        if exists j :: 0 <= j < k && reqs[j] == Some(c) {
          var j :| 0 <= j < k && reqs[j] == Some(c);
          if j == k - 1 {
            assert c in sent;
          } else {
            assert c in prev;
          }
        }
      }
    }
  }

  /** When every file's payload was read there is one request per file, in file order. */
  lemma {:induction false} OneCallPerFile(reqs: seq<Option<Request>>, k: nat)
    requires k <= |reqs|
    requires forall j :: 0 <= j < k ==> reqs[j].Some?
    ensures |Calls(reqs, k)| == k
    ensures forall j :: 0 <= j < k ==> Calls(reqs, k)[j] == reqs[j].value
    decreases k
  {
    if k > 0 {
      OneCallPerFile(reqs, k - 1);
      assert Calls(reqs, k) == Calls(reqs, k - 1) + [reqs[k - 1].value];
    }
  }

  /**
   * A file succeeds exactly when the key is given, its payload is read, the
   * service answers its request, and the trimmed answer looks like JSON and
   * parses.
   */
  lemma AttemptSucceeds(apiKey: string, prompt: string, file: File, env: Env)
    ensures Attempt(apiKey, prompt, file, env).Extracted? <==>
      && apiKey != ""
      && FileToBase64(file.contents).Ok?
      && var answer := env.remote(RequestFor(apiKey, prompt, file, FileToBase64(file.contents).value));
      && answer.Responded?
      && LooksLikeJson(Trim(answer.text))
      && env.parse(Trim(answer.text)).Ok?
  {
  }

  /**
   * The message a failed file shows is one of a few fixed texts: the
   * unknown-error text for a failed read, the conversion message for a data
   * URL without payload, and then, with a key given, one of the three
   * `catch` messages of the extraction, or, without one, the not-provided
   * message. The service's own texts for an empty or non-JSON answer never
   * reach the table.
   */
  lemma CaughtMessages(apiKey: string, prompt: string, file: File, env: Env)
    ensures apiKey != "" && Attempt(apiKey, prompt, file, env).Caught? ==>
      Attempt(apiKey, prompt, file, env).message in {UnknownError, ConversionFailed, InvalidKey, RateLimited, ExtractionFailed}
    ensures apiKey == "" && Attempt(apiKey, prompt, file, env).Caught? ==>
      Attempt(apiKey, prompt, file, env).message in {UnknownError, ConversionFailed, MissingKey}
  {
  }

  // ---------------------------------------------------------------------------
  // The CSV export, record by record

  /** Gathers the field names of the records one record at a time: every name some record has. */
  method CollectKeys(records: seq<Record>) returns (keys: set<string>)
    ensures keys == KeyUnion(records)
    ensures forall k :: k in keys <==> exists rec :: rec in records && k in rec.data
  {
    keys := {};
    var i := 0;
    while i < |records|
      invariant 0 <= i <= |records|
      invariant keys == KeyUnion(records[..i])
    {
      assert records[..i + 1] == records[..i] + [records[i]];
      KeyUnionAppend(records[..i], [records[i]]);
      keys := keys + records[i].data.Keys;
      i := i + 1;
    }
    assert records[..i] == records;
  }

  /** Writes the header line, then appends one line per record in list order. */
  method WriteCsv(records: seq<Record>, keys: seq<string>) returns (content: string)
    ensures content == Csv.Document(records, keys)
  {
    content := Csv.HeaderLine(keys);
    var i := 0;
    while i < |records|
      invariant 0 <= i <= |records|
      invariant content == Csv.HeaderLine(keys) + Csv.Rows(records[..i], keys)
    {
      assert records[..i + 1] == records[..i] + [records[i]];
      Csv.RowsAppend(records[..i], [records[i]], keys);
      AppendAssociative(Csv.HeaderLine(keys), Csv.Rows(records[..i], keys), Csv.RowLine(records[i], keys));
      content := content + Csv.RowLine(records[i], keys);
      i := i + 1;
    }
    assert records[..i] == records;
  }

  // ---------------------------------------------------------------------------
  // The state

  class AppState {
    var records: seq<Record>
    var selected: seq<int>
    var imageFiles: seq<File>
    var isLoading: bool
    var error: Option<string>
    var processingStatus: Option<string>
    var apiKey: string
    var prompt: string

    /** The state on start: the stored records, key and prompt, and nothing selected, chosen or running. */
    constructor (saved: seq<Record>, savedKey: string, savedPrompt: string)
      ensures records == saved && selected == [] && imageFiles == []
      ensures !isLoading && error == None && processingStatus == None
      ensures apiKey == savedKey && prompt == savedPrompt
    {
      records := saved;
      selected := [];
      imageFiles := [];
      isLoading := false;
      error := None;
      processingStatus := None;
      apiKey := savedKey;
      prompt := savedPrompt;
    }

    /** The record list and the selection as one value. */
    function Store(): RecordStore.Store
      reads this
    {
      RecordStore.Store(records, selected)
    }

    /** The uploader hands over the chosen files. */
    method SelectFiles(files: seq<File>)
      modifies this`imageFiles
      ensures imageFiles == files
    {
      imageFiles := files;
    }

    /** `handleApiKeyChange`, without the write to browser storage. */
    method ChangeApiKey(key: string)
      modifies this`apiKey
      ensures apiKey == key
    {
      apiKey := key;
    }

    /** `handlePromptChange`, without the write to browser storage. */
    method ChangePrompt(text: string)
      modifies this`prompt
      ensures prompt == text
    {
      prompt := text;
    }

    /**
     * `handleProcessImage`. Without a key, or without files, it only sets the
     * matching message; otherwise it runs the batch.
     *
     * `calls` lists the requests sent, `shown` the progress messages shown,
     * both in order.
     */
    method ProcessImages(env: Env) returns (calls: seq<Request>, shown: seq<string>)
      modifies this`records, this`error, this`processingStatus, this`isLoading, this`imageFiles
      ensures old(apiKey) == "" ==>
        error == Some(MissingKeyPrompt) && calls == [] && shown == []
        && records == old(records) && imageFiles == old(imageFiles)
        && isLoading == old(isLoading) && processingStatus == old(processingStatus)
      ensures old(apiKey) != "" && old(imageFiles) == [] ==>
        error == Some(NoFilesPrompt) && calls == [] && shown == []
        && records == old(records) && imageFiles == old(imageFiles)
        && isLoading == old(isLoading) && processingStatus == old(processingStatus)
      ensures old(apiKey) != "" && old(imageFiles) != [] ==>
        var files, n := old(imageFiles), |old(imageFiles)|;
        && records == old(records) + Added(files, Outcomes(apiKey, prompt, files, env), env.now, n)
        && error == LastError(files, Outcomes(apiKey, prompt, files, env), n)
        && calls == Calls(Requests(apiKey, prompt, files), n)
        && shown == Statuses(files, n)
        && !isLoading && processingStatus == None && imageFiles == []
    {
      if apiKey == "" {
        error := Some(MissingKeyPrompt);
        return [], [];
      }
      if |imageFiles| == 0 {
        error := Some(NoFilesPrompt);
        return [], [];
      }
      calls, shown := RunBatch(env);
    }

    /**
     * The batch itself. It clears the error, then works through the chosen
     * files in order: it shows the progress message, reads the file, sends
     * one request for it when the payload was read, appends a record when
     * the extraction succeeds, and otherwise replaces the error with the
     * file's failure message and moves on. At the end it stops loading,
     * clears the progress message and forgets the chosen files.
     */
    method RunBatch(env: Env) returns (calls: seq<Request>, shown: seq<string>)
      modifies this`records, this`error, this`processingStatus, this`isLoading, this`imageFiles
      ensures var files := old(imageFiles);
        && records == old(records) + Added(files, Outcomes(apiKey, prompt, files, env), env.now, |files|)
        && error == LastError(files, Outcomes(apiKey, prompt, files, env), |files|)
        && calls == Calls(Requests(apiKey, prompt, files), |files|)
      ensures shown == Statuses(old(imageFiles), |old(imageFiles)|)
      ensures !isLoading && processingStatus == None && imageFiles == []
    {
      var files := imageFiles;
      isLoading := true;
      error := None;
      processingStatus := Some(StartingStatus);
      calls, shown := RunFiles(apiKey, prompt, files, env);
      isLoading := false;
      processingStatus := None;
      imageFiles := [];
    }

    /**
     * The loop over the chosen files, one `Step` per file in order, with the
     * key and the prompt the handler captured when it started. It gives the
     * requests sent and every progress message shown, the starting one
     * included.
     */
    method RunFiles(key: string, text: string, files: seq<File>, env: Env) returns (calls: seq<Request>, shown: seq<string>)
      requires error == None
      modifies this`records, this`error, this`processingStatus
      ensures records == old(records) + Added(files, Outcomes(key, text, files, env), env.now, |files|)
      ensures error == LastError(files, Outcomes(key, text, files, env), |files|)
      ensures calls == Calls(Requests(key, text, files), |files|)
      ensures shown == Statuses(files, |files|)
    {
      var n := |files|;
      ghost var start := records;
      calls, shown := [], [StartingStatus];
      var i := 0;
      while i < n
        invariant 0 <= i <= n
        invariant records == start + Added(files, Outcomes(key, text, files, env), env.now, i)
        invariant error == LastError(files, Outcomes(key, text, files, env), i)
        invariant calls == Calls(Requests(key, text, files), i)
        invariant shown == Statuses(files, i)
      {
        calls, shown := NextFile(key, text, files, i, env, start, calls, shown);
        i := i + 1;
      }
    }

    /**
     * The body of the batch loop: `Step` for the file at position `i`, taking
     * the state the first `i` files left (the records present before the
     * batch are `start`) to the state of the first `i + 1` files, and
     * extending the requests sent and the messages shown so far.
     */
    method NextFile(key: string, text: string, files: seq<File>, i: nat, env: Env, ghost start: seq<Record>,
                    calls: seq<Request>, shown: seq<string>) returns (calls': seq<Request>, shown': seq<string>)
      requires i < |files|
      requires records == start + Added(files, Outcomes(key, text, files, env), env.now, i)
      requires error == LastError(files, Outcomes(key, text, files, env), i)
      requires calls == Calls(Requests(key, text, files), i)
      requires shown == Statuses(files, i)
      modifies this`records, this`error, this`processingStatus
      ensures records == start + Added(files, Outcomes(key, text, files, env), env.now, i + 1)
      ensures error == LastError(files, Outcomes(key, text, files, env), i + 1)
      ensures calls' == Calls(Requests(key, text, files), i + 1)
      ensures shown' == Statuses(files, i + 1)
    {
      ghost var outs := Outcomes(key, text, files, env);
      ghost var before := Added(files, outs, env.now, i);
      var request, status := Step(key, text, files, i, env);
      ghost var gained := Gained(files[i], i, env.now, outs[i]);
      AppendAssociative(start, before, gained);
      calls' := calls + Sent(request);
      shown' := shown + [status];
    }

    /**
     * One pass of the batch loop for the file at position `i`: it shows the
     * progress message, reads the file and, when the payload was read, sends
     * the request; a success appends the file's record, a failure replaces
     * the error with the file's failure message. It gives the request sent,
     * if any, and the message shown.
     */
    method Step(key: string, text: string, files: seq<File>, i: nat, env: Env) returns (request: Option<Request>, status: string)
      requires i < |files|
      modifies this`records, this`error, this`processingStatus
      ensures status == ProgressStatus(i, |files|, files[i].name) && processingStatus == Some(status)
      ensures request == Requests(key, text, files)[i]
      ensures records == old(records) + Gained(files[i], i, env.now, Outcomes(key, text, files, env)[i])
      ensures error == ErrorAfter(old(error), files[i], Outcomes(key, text, files, env)[i])
    {
      var file := files[i];
      status := ProgressStatus(i, |files|, file.name);
      processingStatus := Some(status);
      request := RequestOf(key, text, file);
      var outcome := Attempt(key, text, file, env);
      OutcomeAt(key, text, files, env, i);
      RequestAt(key, text, files, i);
      match outcome {
        case Extracted(fields) =>
          records := records + [NewRecord(file, i, env.now, fields)];
        case Caught(m) =>
          error := Some(FailureMessage(file.name, m));
      }
    }

    /**
     * `handleDownloadCsv` up to the download itself: no text when there are
     * no records (the "No data to download." alert), otherwise the text of
     * the export.
     */
    method DownloadCsv() returns (csv: Option<string>)
      ensures csv == Csv.Export(records)
    {
      if |records| == 0 {
        return None;
      }
      var keys := CollectKeys(records);
      var sortedKeys := SortedSeq(keys);
      var content := WriteCsv(records, sortedKeys);
      return Some(content);
    }

    /** `handleClearData`. */
    method ClearData(confirmed: bool)
      modifies this`records, this`selected
      ensures Store() == RecordStore.ClearData(old(Store()), confirmed)
    {
      var next := RecordStore.ClearData(Store(), confirmed);
      records, selected := next.records, next.selected;
    }

    /** `handleDeleteRow`. */
    method DeleteRow(id: int)
      modifies this`records, this`selected
      ensures Store() == RecordStore.DeleteRow(old(Store()), id)
    {
      var next := RecordStore.DeleteRow(Store(), id);
      records, selected := next.records, next.selected;
    }

    /** `handleDeleteSelected`. */
    method DeleteSelected(confirmed: bool)
      modifies this`records, this`selected
      ensures Store() == RecordStore.DeleteSelected(old(Store()), confirmed)
    {
      var next := RecordStore.DeleteSelected(Store(), confirmed);
      records, selected := next.records, next.selected;
    }

    /** `handleSelectionChange`. */
    method SelectionChange(target: RecordStore.Target, checked: bool)
      modifies this`records, this`selected
      ensures Store() == RecordStore.SelectionChange(old(Store()), target, checked)
    {
      var next := RecordStore.SelectionChange(Store(), target, checked);
      records, selected := next.records, next.selected;
    }
  }
}

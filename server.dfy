/**
 * The progress store of server.js and the stage schedule of its
 * `/api/process` handler.
 *
 * `progressStore` maps a session id to the latest progress record of that
 * session. The handler writes a record at each stage (`updateProgress`), the
 * catch block writes an error record, and the progress stream reads the
 * record of its session, deleting it once it is terminal (`checkProgress`).
 *
 * The spreadsheet service is not part of this model: what `parseExcelData`
 * and `normalizeRows` return is given as parameters, and a throw from any of
 * its three calls is the `excelFailure` parameter. Timestamps, the session-id
 * generator, logging and the HTTP and event-stream plumbing are left out.
 */
module Server {

  import opened Wrappers
  import opened Records
  import Similarity
  import Gemini

  /** `status`: derived from the percentage, or set by the catch block. */
  datatype Status = Processing | Completed | Error

  /** The `details` object of a record. */
  datatype Details =
    | NoDetails
    | Processed(processed: real)
    | Totals(totalProcessed: nat, enhancedResults: nat)
    | ErrorDetails(error: string)

  /** The `step` of a record, one constructor per step name the handler writes. */
  datatype Step =
    | ParsingStep       // 'parsing'
    | NormalizingStep   // 'normalizing'
    | SimilaritiesStep  // 'similarities'
    | GeminiStep        // 'gemini'
    | GeneratingStep    // 'generating'
    | CompletedStep     // 'completed'
    | ErrorStep         // 'error'

  /**
   * The `message` of a record, one constructor per message the handler
   * writes; the formatted ones keep the values they are formatted from.
   */
  datatype Message =
    | AnalyzingFile                                   // 'Analisando arquivo Excel...'
    | EmptySheet                                      // 'Erro: Planilhas DE ou RASTREIO estão vazias'
    | NormalizingData                                 // 'Normalizando dados...'
    | ComputingSimilarities(deCount: nat, rastCount: nat)  // 'Calculando similaridades: …'
    | ApplyingGemini                                  // 'Aplicando inteligência artificial Gemini...'
    | GeminiDone(processed: real)                     // 'Gemini AI: …% concluído'
    | GeneratingOutput                                // 'Gerando planilha de resultado...'
    | ProcessingDone                                  // 'Processamento concluído com sucesso!'
    | Failure(error: string)                          // 'Erro: ' followed by the error's message

  datatype ProgressRecord = ProgressRecord(sessionId: string, step: Step, percentage: int,
                                           message: Message, details: Details, status: Status)

  predicate Terminal(s: Status)
  {
    s == Completed || s == Error
  }

  /** `Math.round`: the nearest integer, halves rounded up. */
  function Round(x: real): (r: int)
    ensures r as real - 0.5 <= x < r as real + 0.5
  {
    (x + 0.5).Floor
  }

  lemma RoundOfInteger(n: int)
    ensures Round(n as real) == n
  {
  }

  /**
   * The record `updateProgress` writes: the rounded percentage, and status
   * `Completed` exactly when the percentage it was given is 100, whatever the
   * step is called.
   */
  function MakeRecord(sessionId: string, step: Step, percentage: real, message: Message, details: Details): (p: ProgressRecord)
    ensures p.sessionId == sessionId && p.step == step && p.message == message && p.details == details
    ensures p.percentage == Round(percentage)
    ensures p.status == Completed <==> percentage == 100.0
    ensures p.status != Error
  {
    ProgressRecord(sessionId, step, Round(percentage), message, details,
                   if percentage == 100.0 then Completed else Processing)
  }

  /** The record the catch block writes: step `error`, percentage 0, status `Error`. */
  function ErrorRecord(sessionId: string, error: string): (p: ProgressRecord)
    ensures p.sessionId == sessionId && p.step == ErrorStep && p.percentage == 0
    ensures p.message == Failure(error) && p.details == ErrorDetails(error)
    ensures Terminal(p.status) && p.status == Error
  {
    ProgressRecord(sessionId, ErrorStep, 0, Failure(error), ErrorDetails(error), Error)
  }

  /**
   * One `checkProgress` step on a store: the record found, if any, and the
   * store afterwards, without the record when it was terminal.
   */
  function Polled(records: map<string, ProgressRecord>, sessionId: string): (r: (Option<ProgressRecord>, map<string, ProgressRecord>))
    ensures sessionId in records ==> r.0 == Some(records[sessionId])
    ensures sessionId !in records ==> r.0 == None && r.1 == records
    ensures sessionId in records && !Terminal(records[sessionId].status) ==> r.1 == records
    ensures sessionId in records && Terminal(records[sessionId].status)
            ==> sessionId !in r.1 && forall other :: other != sessionId ==> (other in r.1 <==> other in records)
    ensures forall other :: other in r.1 ==> other in records && r.1[other] == records[other]
  {
    if sessionId !in records then (None, records)
    else if Terminal(records[sessionId].status) then (Some(records[sessionId]), records - {sessionId})
    else (Some(records[sessionId]), records)
  }

  /** Every record is filed under its own session id. */
  ghost predicate Keyed(records: map<string, ProgressRecord>)
  {
    forall id :: id in records ==> records[id].sessionId == id
  }

  /** A terminal record is emitted once: the next poll of its session finds nothing. */
  lemma TerminalEmittedOnce(records: map<string, ProgressRecord>, sessionId: string)
    requires sessionId in records && Terminal(records[sessionId].status)
    ensures Polled(records, sessionId).0 == Some(records[sessionId])
    ensures Polled(Polled(records, sessionId).1, sessionId).0 == None
  {
  }

  /**
   * The record written when a sheet is empty has step `error` but
   * percentage 0, so its status is `Processing`: polling emits it and keeps
   * it, however often it is polled.
   */
  lemma {:induction false} EmptySheetRecordStays(records: map<string, ProgressRecord>, sessionId: string, polls: nat)
    ensures var stored := records[sessionId := MakeRecord(sessionId, ErrorStep, 0.0, EmptySheet, NoDetails)];
            && stored[sessionId].status == Processing
            && Repolled(stored, sessionId, polls) == stored
            && Polled(stored, sessionId).0 == Some(stored[sessionId])
    decreases polls
  {
    var stored := records[sessionId := MakeRecord(sessionId, ErrorStep, 0.0, EmptySheet, NoDetails)];
    if polls > 0 {
      EmptySheetRecordStays(records, sessionId, polls - 1);
      assert Polled(stored, sessionId).1 == stored;
    }
  }

  /** The store after `polls` polls of the same session. */
  function Repolled(records: map<string, ProgressRecord>, sessionId: string, polls: nat): (r: map<string, ProgressRecord>)
    ensures forall id :: id in r ==> id in records && r[id] == records[id]
    decreases polls
  {
    if polls == 0 then records else Repolled(Polled(records, sessionId).1, sessionId, polls - 1)
  }

  /** Overwriting the same session twice leaves only the second record. */
  lemma Rewritten(before: map<string, ProgressRecord>, previous: map<string, ProgressRecord>,
                  records: map<string, ProgressRecord>, sessionId: string)
    requires sessionId in previous && previous == before[sessionId := previous[sessionId]]
    requires sessionId in records && records == previous[sessionId := records[sessionId]]
    ensures records == before[sessionId := records[sessionId]]
  {
  }

  // ---------------------------------------------------------------------
  // The store

  class ProgressStore {

    var records: map<string, ProgressRecord>

    ghost predicate Valid()
      reads this
    {
      Keyed(records)
    }

    constructor()
      ensures records == map[] && Valid()
    {
      records := map[];
    }

    /** `updateProgress`: overwrite the session's record. */
    method Update(sessionId: string, step: Step, percentage: real, message: Message, details: Details)
      requires Valid()
      modifies this
      ensures records == old(records)[sessionId := MakeRecord(sessionId, step, percentage, message, details)]
      ensures Valid()
    {
      records := records[sessionId := MakeRecord(sessionId, step, percentage, message, details)];
    }

    /** The catch block's write. */
    method StoreError(sessionId: string, error: string)
      requires Valid()
      modifies this
      ensures records == old(records)[sessionId := ErrorRecord(sessionId, error)]
      ensures Valid()
    {
      records := records[sessionId := ErrorRecord(sessionId, error)];
    }

    /** One `checkProgress` step: emit the session's record, deleting it when terminal. */
    method Poll(sessionId: string) returns (emitted: Option<ProgressRecord>)
      requires Valid()
      modifies this
      ensures (emitted, records) == Polled(old(records), sessionId)
      ensures emitted.Some? ==> emitted.value.sessionId == sessionId
      ensures Valid()
    {
      emitted := None;
      if sessionId in records {
        var progress := records[sessionId];
        emitted := Some(progress);
        if progress.status == Completed || progress.status == Error {
          records := records - {sessionId};
        }
      }
    }
  }

  // ---------------------------------------------------------------------
  // The stage schedule of `/api/process`

  /** `50 + progress * 0.4`: the Gemini phase mapped into 50..90. */
  function GeminiPercentage(progress: real): (g: real)
    ensures 0.0 < progress <= 100.0 ==> 50.0 < g <= 90.0
  {
    50.0 + progress * 0.4
  }

  function GeminiPercentages(progress: seq<real>): (gs: seq<real>)
    ensures |gs| == |progress|
    ensures forall k :: 0 <= k < |progress| ==> gs[k] == GeminiPercentage(progress[k])
  {
    seq(|progress|, k requires 0 <= k < |progress| => GeminiPercentage(progress[k]))
  }

  /** The percentages handed to `updateProgress` on the success path, in order. */
  function Schedule(progress: seq<real>): seq<real>
  {
    [10.0, 20.0, 40.0, 50.0] + GeminiPercentages(progress) + [90.0, 100.0]
  }

  /** The schedule as the loading stages' writes followed by the later stages' writes. */
  lemma ScheduleSplits(progress: seq<real>)
    ensures Schedule(progress) == [10.0, 20.0] + ([40.0, 50.0] + GeminiPercentages(progress) + [90.0, 100.0])
  {
  }

  /**
   * The percentages written when `generateOutputExcel` throws: the success
   * schedule up to 90, without the final 100.
   */
  function FailedSchedule(progress: seq<real>): seq<real>
  {
    [10.0, 20.0, 40.0, 50.0] + GeminiPercentages(progress) + [90.0]
  }

  /** The failed schedule as the loading stages' writes followed by the later stages' writes. */
  lemma FailedScheduleSplits(progress: seq<real>)
    ensures FailedSchedule(progress) == [10.0, 20.0] + ([40.0, 50.0] + GeminiPercentages(progress) + [90.0])
    ensures Schedule(progress) == FailedSchedule(progress) + [100.0]
  {
  }

  predicate StrictlyIncreasing(s: seq<real>)
  {
    forall a, b :: 0 <= a < b < |s| ==> s[a] < s[b]
  }

  /**
   * For Gemini progress values that strictly increase within (0, 100], the
   * success path's percentages never decrease, only the last one is 100, so
   * every write before the last is `Processing` and the last is `Completed`.
   */
  lemma ScheduleIsMonotone(progress: seq<real>)
    requires StrictlyIncreasing(progress)
    requires forall k :: 0 <= k < |progress| ==> 0.0 < progress[k] <= 100.0
    ensures var s := Schedule(progress);
            && (forall a, b :: 0 <= a <= b < |s| ==> s[a] <= s[b])
            && s[|s| - 1] == 100.0
            && (forall a :: 0 <= a < |s| - 1 ==> s[a] < 100.0)
  {
    var g := GeminiPercentages(progress);
    var s := Schedule(progress);
    assert forall k :: 0 <= k < |g| ==> 50.0 < g[k] <= 90.0;
    assert forall a, b :: 0 <= a < b < |g| ==> g[a] < g[b];
    forall a, b | 0 <= a <= b < |s|
      ensures s[a] <= s[b]
    {
      if 4 <= a && b < 4 + |g| {
        assert s[a] == g[a - 4] && s[b] == g[b - 4];
      }
    }
  }

  /** The Gemini phase never writes a `Completed` record. */
  lemma GeminiWritesProcessing(sessionId: string, progress: real)
    requires 0.0 < progress <= 100.0
    ensures MakeRecord(sessionId, GeminiStep, GeminiPercentage(progress), GeminiDone(progress), Processed(progress)).status == Processing
  {
  }

  /** A throw from the spreadsheet service, by the call that threw. */
  datatype ExcelFailure = ParseFailed(error: string) | NormalizeFailed(error: string) | OutputFailed(error: string)

  /** How the handler answers the request. */
  datatype Response =
    | MissingFile
    | EmptySheets
    | Spreadsheet(enhanced: seq<MatchResult>)
    | ServerError(error: string)

  /** The weights of the request body, or the default parameter of `calculateSimilarities` when it sends none. */
  function WeightsOrDefault(weights: Option<seq<real>>): (w: seq<real>)
    requires weights.Some? ==> |weights.value| == 4 && Similarity.Sum(weights.value) != 0.0
    ensures |w| == 4 && Similarity.Sum(w) != 0.0
  {
    if weights.Some? then weights.value else Similarity.DefaultWeights
  }

  /** The `minScore` of the request body, 0.8 when it sends none. */
  function MinScoreOrDefault(minScore: Option<real>): real
  {
    if minScore.Some? then minScore.value else 0.8
  }

  /**
   * The `/api/process` handler. `deRows`/`rastRows` are what
   * `parseExcelData` returns and `de`/`rast` what `normalizeRows` returns;
   * `weights` and `minScore` are `None` when the request leaves them out.
   * `written` lists the percentages handed to `updateProgress`, in order, and
   * `geminiProgress` the values of the Gemini progress callback.
   */
  method Process(store: ProgressStore, sessionId: string, hasFileData: bool, deRows: seq<Row>, rastRows: seq<Row>,
                 de: seq<Row>, rast: seq<Row>, weights: Option<seq<real>>, minScore: Option<real>,
                 excelFailure: Option<ExcelFailure>, clientConfigured: bool,
                 responses: nat -> Gemini.CallOutcome, parse: string -> Option<seq<Gemini.ParsedEntry>>)
    returns (response: Response, ghost written: seq<real>, ghost geminiProgress: seq<real>)
    requires store.Valid()
    requires weights.Some? ==> |weights.value| == 4 && Similarity.Sum(weights.value) != 0.0
    modifies store
    ensures store.Valid()
    ensures response.MissingFile? <==> !hasFileData
    ensures response.MissingFile? ==> store.records == old(store.records) && written == []
    ensures response.EmptySheets? <==> hasFileData && !(excelFailure.Some? && excelFailure.value.ParseFailed?)
                                       && (|deRows| == 0 || |rastRows| == 0)
    ensures response.EmptySheets?
            ==> written == [10.0, 0.0]
                && store.records == old(store.records)[sessionId := MakeRecord(sessionId, ErrorStep, 0.0, EmptySheet, NoDetails)]
    ensures response.ServerError?
            ==> excelFailure.Some? && response.error == excelFailure.value.error
                && store.records == old(store.records)[sessionId := ErrorRecord(sessionId, response.error)]
    ensures response.ServerError? && excelFailure.value.ParseFailed? ==> written == [10.0]
    ensures response.ServerError? && excelFailure.value.NormalizeFailed? ==> written == [10.0, 20.0]
    ensures response.ServerError? && excelFailure.value.OutputFailed?
            ==> written == FailedSchedule(geminiProgress)
                && StrictlyIncreasing(geminiProgress)
                && (forall k :: 0 <= k < |geminiProgress| ==> 0.0 < geminiProgress[k] <= 100.0)
    ensures response.Spreadsheet?
            ==> excelFailure.None?
                && Matched(de, rast, WeightsOrDefault(weights), MinScoreOrDefault(minScore),
                           clientConfigured, responses, parse, response.enhanced, geminiProgress)
                && written == Schedule(geminiProgress)
                && StrictlyIncreasing(geminiProgress)
                && (forall k :: 0 <= k < |geminiProgress| ==> 0.0 < geminiProgress[k] <= 100.0)
                && store.records == old(store.records)[sessionId := MakeRecord(sessionId, CompletedStep, 100.0, ProcessingDone,
                                                                               Totals(|de|, |response.enhanced|))]
  {
    written, geminiProgress := [], [];
    if !hasFileData {
      return MissingFile, written, geminiProgress;
    }
    ghost var before := store.records;
    var stopped;
    stopped, written := Load(store, sessionId, deRows, rastRows, excelFailure);
    if stopped.Some? {
      return stopped.value, written, geminiProgress;
    }
    var w := WeightsOrDefault(weights);
    var threshold := MinScoreOrDefault(minScore);
    var outputFailure := if excelFailure.Some? then Some(excelFailure.value.error) else None;
    ghost var analyzed;
    ghost var current := store.records;
    response, analyzed, geminiProgress := Analyze(store, sessionId, de, rast, w, threshold, outputFailure,
                                                  clientConfigured, responses, parse);
    Rewritten(before, current, store.records, sessionId);
    if response.Spreadsheet? {
      ScheduleSplits(geminiProgress);
    } else {
      FailedScheduleSplits(geminiProgress);
    }
    written := written + analyzed;
  }

  /**
   * The handler up to normalisation: the writes at 10 and 20, the empty-sheet
   * answer, and the catch block's write when parsing or normalising throws.
   * `stopped` is the answer when the handler stops here.
   */
  method Load(store: ProgressStore, sessionId: string, deRows: seq<Row>, rastRows: seq<Row>, excelFailure: Option<ExcelFailure>)
    returns (stopped: Option<Response>, ghost written: seq<real>)
    requires store.Valid()
    modifies store
    ensures store.Valid()
    ensures stopped.Some? ==> stopped.value.EmptySheets? || stopped.value.ServerError?
    ensures stopped == Some(EmptySheets) <==> !(excelFailure.Some? && excelFailure.value.ParseFailed?)
                                               && (|deRows| == 0 || |rastRows| == 0)
    ensures stopped == Some(EmptySheets)
            ==> written == [10.0, 0.0]
                && store.records == old(store.records)[sessionId := MakeRecord(sessionId, ErrorStep, 0.0, EmptySheet, NoDetails)]
    ensures stopped.Some? && stopped.value.ServerError?
            ==> excelFailure.Some? && !excelFailure.value.OutputFailed? && stopped.value.error == excelFailure.value.error
                && store.records == old(store.records)[sessionId := ErrorRecord(sessionId, stopped.value.error)]
                && written == (if excelFailure.value.ParseFailed? then [10.0] else [10.0, 20.0])
    ensures stopped.None?
            ==> (excelFailure.Some? ==> excelFailure.value.OutputFailed?)
                && written == [10.0, 20.0]
                && store.records == old(store.records)[sessionId := MakeRecord(sessionId, NormalizingStep, 20.0, NormalizingData, NoDetails)]
  {
    ghost var before := store.records;
    store.Update(sessionId, ParsingStep, 10.0, AnalyzingFile, NoDetails);
    written := [10.0];
    ghost var current := store.records;
    if excelFailure.Some? && excelFailure.value.ParseFailed? {
      store.StoreError(sessionId, excelFailure.value.error);
      Rewritten(before, current, store.records, sessionId);
      return Some(ServerError(excelFailure.value.error)), written;
    }
    if |deRows| == 0 || |rastRows| == 0 {
      store.Update(sessionId, ErrorStep, 0.0, EmptySheet, NoDetails);
      Rewritten(before, current, store.records, sessionId);
      written := written + [0.0];
      return Some(EmptySheets), written;
    }
    store.Update(sessionId, NormalizingStep, 20.0, NormalizingData, NoDetails);
    Rewritten(before, current, store.records, sessionId);
    written := written + [20.0];
    if excelFailure.Some? && excelFailure.value.NormalizeFailed? {
      current := store.records;
      store.StoreError(sessionId, excelFailure.value.error);
      Rewritten(before, current, store.records, sessionId);
      return Some(ServerError(excelFailure.value.error)), written;
    }
    stopped := None;
  }

  /**
   * The handler from the similarity stage on: every write it makes, the
   * percentages it writes, the Gemini progress values, and the catch block's
   * write when `generateOutputExcel` throws `outputFailure`.
   */
  method Analyze(store: ProgressStore, sessionId: string, de: seq<Row>, rast: seq<Row>, weights: seq<real>, minScore: real,
                 outputFailure: Option<string>, clientConfigured: bool,
                 responses: nat -> Gemini.CallOutcome, parse: string -> Option<seq<Gemini.ParsedEntry>>)
    returns (response: Response, ghost written: seq<real>, ghost geminiProgress: seq<real>)
    requires store.Valid()
    requires |weights| == 4 && Similarity.Sum(weights) != 0.0
    modifies store
    ensures store.Valid()
    ensures response.ServerError? || response.Spreadsheet?
    ensures response.ServerError?
            ==> outputFailure == Some(response.error)
                && store.records == old(store.records)[sessionId := ErrorRecord(sessionId, response.error)]
                && written == [40.0, 50.0] + GeminiPercentages(geminiProgress) + [90.0]
                && StrictlyIncreasing(geminiProgress)
                && (forall k :: 0 <= k < |geminiProgress| ==> 0.0 < geminiProgress[k] <= 100.0)
    ensures response.Spreadsheet?
            ==> outputFailure.None?
                && Matched(de, rast, weights, minScore, clientConfigured, responses, parse, response.enhanced, geminiProgress)
                && written == [40.0, 50.0] + GeminiPercentages(geminiProgress) + [90.0, 100.0]
                && StrictlyIncreasing(geminiProgress)
                && (forall k :: 0 <= k < |geminiProgress| ==> 0.0 < geminiProgress[k] <= 100.0)
                && store.records == old(store.records)[sessionId := MakeRecord(sessionId, CompletedStep, 100.0, ProcessingDone,
                                                                               Totals(|de|, |response.enhanced|))]
  {
    ghost var before := store.records;
    var total, enhanced;
    total, enhanced, written, geminiProgress := Stages(store, sessionId, de, rast, weights, minScore,
                                                       clientConfigured, responses, parse);
    ghost var current := store.records;
    var failed := Finish(store, sessionId, outputFailure, total, |enhanced|);
    Rewritten(before, current, store.records, sessionId);
    if failed {
      response := ServerError(outputFailure.value);
    } else {
      written := written + [100.0];
      response := Spreadsheet(enhanced);
    }
  }

  /**
   * The last write of the route: the catch block's error record when writing
   * the output fails, the completed record with the totals otherwise.
   */
  method Finish(store: ProgressStore, sessionId: string, outputFailure: Option<string>, total: nat, enhancedCount: nat)
    returns (failed: bool)
    requires store.Valid()
    modifies store
    ensures store.Valid()
    ensures failed <==> outputFailure.Some?
    ensures failed ==> store.records == old(store.records)[sessionId := ErrorRecord(sessionId, outputFailure.value)]
    ensures !failed ==> store.records == old(store.records)[sessionId := MakeRecord(sessionId, CompletedStep, 100.0, ProcessingDone,
                                                                                    Totals(total, enhancedCount))]
  {
    if outputFailure.Some? {
      store.StoreError(sessionId, outputFailure.value);
      return true;
    }
    store.Update(sessionId, CompletedStep, 100.0, ProcessingDone, Totals(total, enhancedCount));
    failed := false;
  }

  /**
   * The writes at 40, 50, the Gemini progress writes and 90, around the
   * similarity and Gemini phases; the store ends on the 90 record.
   */
  method Stages(store: ProgressStore, sessionId: string, de: seq<Row>, rast: seq<Row>, weights: seq<real>, minScore: real,
                clientConfigured: bool, responses: nat -> Gemini.CallOutcome, parse: string -> Option<seq<Gemini.ParsedEntry>>)
    returns (total: nat, enhanced: seq<MatchResult>, ghost written: seq<real>, ghost geminiProgress: seq<real>)
    requires store.Valid()
    requires |weights| == 4 && Similarity.Sum(weights) != 0.0
    modifies store
    ensures store.Valid()
    ensures total == |de| && |enhanced| <= total
    ensures Matched(de, rast, weights, minScore, clientConfigured, responses, parse, enhanced, geminiProgress)
    ensures written == [40.0, 50.0] + GeminiPercentages(geminiProgress) + [90.0]
    ensures StrictlyIncreasing(geminiProgress)
    ensures forall k :: 0 <= k < |geminiProgress| ==> 0.0 < geminiProgress[k] <= 100.0
    ensures store.records == old(store.records)[sessionId := MakeRecord(sessionId, GeneratingStep, 90.0, GeneratingOutput, NoDetails)]
  {
    var progress;
    total, enhanced, progress := Match(de, rast, weights, minScore, clientConfigured, responses, parse);
    written := StageWrites(store, sessionId, |de|, |rast|, progress);
    geminiProgress := progress;
  }

  /**
   * The stage writes of `Stages`: 40 with the row counts, 50, one write per
   * Gemini progress value, and 90.
   */
  method StageWrites(store: ProgressStore, sessionId: string, deCount: nat, rastCount: nat, progress: seq<real>)
    returns (written: seq<real>)
    requires store.Valid()
    modifies store
    ensures store.Valid()
    ensures written == [40.0, 50.0] + GeminiPercentages(progress) + [90.0]
    ensures store.records == old(store.records)[sessionId := MakeRecord(sessionId, GeneratingStep, 90.0, GeneratingOutput, NoDetails)]
  {
    ghost var before, current := store.records, store.records;
    store.Update(sessionId, SimilaritiesStep, 40.0, ComputingSimilarities(deCount, rastCount), NoDetails);
    current := store.records;
    store.Update(sessionId, GeminiStep, 50.0, ApplyingGemini, NoDetails);
    Rewritten(before, current, store.records, sessionId);
    current := store.records;
    var gemini := WriteGeminiProgress(store, sessionId, progress);
    Rewritten(before, current, store.records, sessionId);
    current := store.records;
    store.Update(sessionId, GeneratingStep, 90.0, GeneratingOutput, NoDetails);
    Rewritten(before, current, store.records, sessionId);
    written := [40.0, 50.0] + gemini + [90.0];
  }

  /**
   * What the similarity and Gemini phases leave: without a client, the ranked
   * results of `calculateSimilarities` themselves and no progress; with one,
   * what the Gemini loop makes of those results.
   */
  predicate Matched(de: seq<Row>, rast: seq<Row>, weights: seq<real>, minScore: real, clientConfigured: bool,
                    responses: nat -> Gemini.CallOutcome, parse: string -> Option<seq<Gemini.ParsedEntry>>,
                    enhanced: seq<MatchResult>, progress: seq<real>)
    requires |weights| == 4 && Similarity.Sum(weights) != 0.0
  {
    var results := Similarity.CalculateSimilarities(de, rast, weights);
    && (!clientConfigured ==> enhanced == results && progress == [])
    && (clientConfigured ==> Gemini.LoopResult(results, responses, Gemini.TryBlock(minScore, parse), enhanced, progress))
  }

  /**
   * `calculateSimilarities` followed by `enhanceMatchesWithProgress`: the
   * number of results, the enhanced results, and the values the progress
   * callback receives, which strictly increase within (0, 100].
   */
  method Match(de: seq<Row>, rast: seq<Row>, weights: seq<real>, minScore: real, clientConfigured: bool,
               responses: nat -> Gemini.CallOutcome, parse: string -> Option<seq<Gemini.ParsedEntry>>)
    returns (total: nat, enhanced: seq<MatchResult>, progress: seq<real>)
    requires |weights| == 4 && Similarity.Sum(weights) != 0.0
    ensures total == |de| && |enhanced| <= total
    ensures !clientConfigured ==> |enhanced| == total && progress == []
    ensures Matched(de, rast, weights, minScore, clientConfigured, responses, parse, enhanced, progress)
    ensures StrictlyIncreasing(progress)
    ensures forall k :: 0 <= k < |progress| ==> 0.0 < progress[k] <= 100.0
  {
    var results := Similarity.CalculateSimilarities(de, rast, weights);
    enhanced, progress := Gemini.EnhanceMatchesWithProgress(results, minScore, clientConfigured, responses, parse);
    GeminiProgressIncreasing(results, minScore, clientConfigured, responses, parse, enhanced, progress);
    total := |results|;
  }

  /** The progress callback's writes, one per value, each mapped by `GeminiPercentage`. */
  method WriteGeminiProgress(store: ProgressStore, sessionId: string, progress: seq<real>) returns (written: seq<real>)
    requires store.Valid()
    modifies store
    ensures store.Valid()
    ensures written == GeminiPercentages(progress)
    ensures |progress| == 0 ==> store.records == old(store.records)
    ensures |progress| > 0 ==> store.records == old(store.records)[sessionId := MakeRecord(sessionId, GeminiStep,
                                 GeminiPercentage(progress[|progress| - 1]), GeminiDone(progress[|progress| - 1]),
                                 Processed(progress[|progress| - 1]))]
  {
    written := [];
    var k := 0;
    while k < |progress|
      invariant 0 <= k <= |progress|
      invariant written == GeminiPercentages(progress[..k])
      invariant store.Valid()
      invariant k == 0 ==> store.records == old(store.records)
      invariant k > 0 ==> store.records == old(store.records)[sessionId := MakeRecord(sessionId, GeminiStep,
                            GeminiPercentage(progress[k - 1]), GeminiDone(progress[k - 1]), Processed(progress[k - 1]))]
    {
      store.Update(sessionId, GeminiStep, GeminiPercentage(progress[k]), GeminiDone(progress[k]), Processed(progress[k]));
      written := written + [GeminiPercentage(progress[k])];
      GeminiPercentagesStep(progress, k);
      k := k + 1;
    }
    assert progress[..k] == progress;
  }

  /** One more progress value maps to one more write. */
  lemma GeminiPercentagesStep(progress: seq<real>, k: nat)
    requires k < |progress|
    ensures GeminiPercentages(progress[..k + 1]) == GeminiPercentages(progress[..k]) + [GeminiPercentage(progress[k])]
  {
    var longer, shorter := GeminiPercentages(progress[..k + 1]), GeminiPercentages(progress[..k]);
    assert forall a :: 0 <= a < k ==> longer[a] == shorter[a];
  }

  /** The Gemini progress values of one run strictly increase within (0, 100]. */
  lemma GeminiProgressIncreasing(results: seq<MatchResult>, minScore: real, clientConfigured: bool,
                                 responses: nat -> Gemini.CallOutcome, parse: string -> Option<seq<Gemini.ParsedEntry>>,
                                 enhanced: seq<MatchResult>, progress: seq<real>)
    requires !clientConfigured ==> progress == []
    requires |enhanced| <= |results|
    requires clientConfigured ==> Gemini.LoopResult(results, responses, Gemini.TryBlock(minScore, parse), enhanced, progress)
    ensures StrictlyIncreasing(progress)
    ensures forall k :: 0 <= k < |progress| ==> 0.0 < progress[k] <= 100.0
  {
    if clientConfigured {
      Gemini.LoopProgressIncreasing(results, responses, Gemini.TryBlock(minScore, parse), enhanced, progress);
    }
  }
}

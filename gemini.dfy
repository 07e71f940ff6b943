/**
 * The AI re-ranking of services/geminiService.js: the choice of the top
 * candidates, the fallbacks of `enhanceSingleMatch`, the parsing of the
 * model's answer, the merge of AI scores into the candidates, and the loop
 * `enhanceMatchesWithProgress` with its error breaker and progress reports.
 *
 * The model call itself is an oracle: `responses(i)` is how the call made for
 * record `i` ended, and `parse` stands for `JSON.parse` on the extracted
 * array text (`None` when it throws or yields no array of entries).
 */
module Gemini {

  import opened Wrappers
  import opened Text
  import opened Sorting
  import opened Records
  import Similarity

  /** An entry of the parsed answer; an empty `reason` stands for a missing or empty one. */
  datatype ParsedEntry = ParsedEntry(url: string, geminiScore: real, reason: string)

  /** A candidate with the AI score and reason `enhanceSingleMatch` attaches to it. */
  datatype Enhanced = Enhanced(candidate: Candidate, geminiScore: real, reason: string)

  /** How the call to the model ended: an answer text, or a rejection whose `message` is a string or absent. */
  datatype CallOutcome = Responded(text: string) | Rejected(message: Option<string>)

  // ---------------------------------------------------------------------
  // Extracting the JSON array: `text.match(/\[[\s\S]*\]/)`

  function FirstIndexOf(s: string, c: char): (r: Option<nat>)
    ensures r.Some? ==> r.value < |s| && s[r.value] == c && forall i :: 0 <= i < r.value ==> s[i] != c
    ensures r.None? ==> forall i :: 0 <= i < |s| ==> s[i] != c
  {
    if |s| == 0 then None
    else if s[0] == c then Some(0)
    else match FirstIndexOf(s[1..], c)
      case None => None
      case Some(i) => Some(i + 1)
  }

  function LastIndexOf(s: string, c: char): (r: Option<nat>)
    ensures r.Some? ==> r.value < |s| && s[r.value] == c && forall i :: r.value < i < |s| ==> s[i] != c
    ensures r.None? ==> forall i :: 0 <= i < |s| ==> s[i] != c
  {
    if |s| == 0 then None
    else if s[|s| - 1] == c then Some(|s| - 1)
    else LastIndexOf(s[..|s| - 1], c)
  }

  /**
   * The greedy match: it exists exactly when some `[` precedes some `]`, and
   * then it runs from the first `[` of the text to the last `]`.
   */
  function ExtractJsonArray(text: string): (r: Option<string>)
    ensures r.Some? <==> exists i, j :: 0 <= i < j < |text| && text[i] == '[' && text[j] == ']'
    ensures r.Some? ==> exists i, j :: 0 <= i < j < |text| && r.value == text[i..j + 1]
                          && text[i] == '[' && text[j] == ']'
                          && (forall k :: 0 <= k < i ==> text[k] != '[')
                          && (forall k :: j < k < |text| ==> text[k] != ']')
  {
    var first, last := FirstIndexOf(text, '['), LastIndexOf(text, ']');
    if first.Some? && last.Some? && first.value < last.value then
      Some(text[first.value..last.value + 1])
    else
      None
  }

  // ---------------------------------------------------------------------
  // Parsing the answer

  /** `find` by url: the first element whose url is `url`. */
  function FindByUrl<T(==)>(s: seq<T>, url: string, urlOf: T -> string): (r: Option<T>)
    ensures r.None? <==> forall k :: 0 <= k < |s| ==> urlOf(s[k]) != url
    ensures r.Some? ==> exists k :: 0 <= k < |s| && s[k] == r.value && urlOf(s[k]) == url
                          && forall m :: 0 <= m < k ==> urlOf(s[m]) != url
  {
    if |s| == 0 then None
    else if urlOf(s[0]) == url then Some(s[0])
    else
      var r := FindByUrl(s[1..], url, urlOf);
      assert forall k :: 1 <= k < |s| ==> s[k] == s[1..][k - 1];
      if r.Some? then
        var k :| 0 <= k < |s[1..]| && s[1..][k] == r.value && urlOf(s[1..][k]) == url
                 && forall m :: 0 <= m < k ==> urlOf(s[1..][m]) != url;
        assert s[k + 1] == r.value;
        r
      else r
  }

  function EntryUrl(e: ParsedEntry): string
  {
    e.url
  }

  function CandidateUrl(e: Enhanced): string
  {
    e.candidate.row.url
  }

  /** Every candidate with its own score as AI score, and one fixed reason. */
  function Fallback(candidates: seq<Candidate>, reason: string): (r: seq<Enhanced>)
    ensures |r| == |candidates|
    ensures forall k :: 0 <= k < |r| ==> r[k] == Enhanced(candidates[k], candidates[k].score, reason)
  {
    seq(|candidates|, k requires 0 <= k < |candidates| => Enhanced(candidates[k], candidates[k].score, reason))
  }

  /** One candidate against the parsed entries: its entry's clamped score and reason, or its own score. */
  function Analyze(c: Candidate, entries: seq<ParsedEntry>): Enhanced
  {
    match FindByUrl(entries, c.row.url, EntryUrl)
    case Some(e) => Enhanced(c, Similarity.Clamp01(e.geminiScore), if e.reason == "" then "No reason provided" else e.reason)
    case None => Enhanced(c, c.score, "Not analyzed by Gemini")
  }

  /**
   * `parseGeminiResponse`: exactly one entry per candidate, in candidate
   * order, each with a non-empty reason; an answer without an array, or
   * whose array does not parse, leaves every candidate at its own score.
   */
  function ParseGeminiResponse(text: string, candidates: seq<Candidate>, parse: string -> Option<seq<ParsedEntry>>)
    : (r: seq<Enhanced>)
    ensures |r| == |candidates|
    ensures forall k :: 0 <= k < |r| ==> r[k].candidate == candidates[k] && r[k].reason != ""
    ensures forall k :: 0 <= k < |r| ==> r[k].geminiScore == candidates[k].score || 0.0 <= r[k].geminiScore <= 1.0
    ensures ExtractJsonArray(text).None? || parse(ExtractJsonArray(text).value).None?
            ==> r == Fallback(candidates, "Parse error")
  {
    match ExtractJsonArray(text)
    case None => Fallback(candidates, "Parse error")
    case Some(json) =>
      match parse(json)
      case None => Fallback(candidates, "Parse error")
      case Some(entries) =>
        seq(|candidates|, k requires 0 <= k < |candidates| => Analyze(candidates[k], entries))
  }

  /**
   * A parsed answer gives a candidate with an entry that entry's score,
   * clamped, and its reason, or `No reason provided` when it has none; a
   * candidate without an entry keeps its own score.
   */
  lemma ParsedAnswerScores(text: string, candidates: seq<Candidate>, parse: string -> Option<seq<ParsedEntry>>, k: nat)
    requires ExtractJsonArray(text).Some? && parse(ExtractJsonArray(text).value).Some? && k < |candidates|
    ensures var entries := parse(ExtractJsonArray(text).value).value;
            var e := FindByUrl(entries, candidates[k].row.url, EntryUrl);
            var r := ParseGeminiResponse(text, candidates, parse)[k];
            && (e.Some? ==> r.geminiScore == Similarity.Clamp01(e.value.geminiScore) && 0.0 <= r.geminiScore <= 1.0)
            && (e.Some? ==> r.reason == if e.value.reason == "" then "No reason provided" else e.value.reason)
            && (e.None? ==> r.geminiScore == candidates[k].score && r.reason == "Not analyzed by Gemini")
  {
  }

  // ---------------------------------------------------------------------
  // One call: `enhanceSingleMatch`

  /** The reason given when the call is rejected with a message. */
  function ErrorReason(message: string): (reason: string)
    ensures Contains(message, "404 Not Found") ==> reason == "Model not available"
    ensures !Contains(message, "404 Not Found") && Contains(message, "API key") ==> reason == "API key issue"
    ensures !Contains(message, "404 Not Found") && !Contains(message, "API key") ==> reason == "Gemini API error"
  {
    if Contains(message, "404 Not Found") then "Model not available"
    else if Contains(message, "API key") then "API key issue"
    else "Gemini API error"
  }

  /**
   * `enhanceSingleMatch`. It throws (`None`) only when the call is rejected
   * without a message string, since reading `error.message.includes` then
   * fails inside the handler; every other path yields one entry per
   * candidate, in order.
   */
  function EnhanceSingleMatch(clientConfigured: bool, candidates: seq<Candidate>, outcome: CallOutcome,
                              parse: string -> Option<seq<ParsedEntry>>): (r: Option<seq<Enhanced>>)
    ensures r.None? <==> clientConfigured && outcome.Rejected? && outcome.message.None?
    ensures r.Some? ==> |r.value| == |candidates| && forall k :: 0 <= k < |candidates| ==> r.value[k].candidate == candidates[k]
    ensures !clientConfigured ==> r == Some(Fallback(candidates, "Gemini API not available"))
    ensures clientConfigured && outcome.Rejected? && outcome.message.Some?
            ==> r == Some(Fallback(candidates, ErrorReason(outcome.message.value)))
    ensures clientConfigured && outcome.Responded? ==> r == Some(ParseGeminiResponse(outcome.text, candidates, parse))
  {
    if !clientConfigured then Some(Fallback(candidates, "Gemini API not available"))
    else match outcome
      case Responded(text) => Some(ParseGeminiResponse(text, candidates, parse))
      case Rejected(None) => None
      case Rejected(Some(message)) => Some(Fallback(candidates, ErrorReason(message)))
  }

  /** Whatever the outcome, every AI score is the candidate's own or lies in [0, 1]. */
  lemma EnhancedScoresBounded(clientConfigured: bool, candidates: seq<Candidate>, outcome: CallOutcome,
                              parse: string -> Option<seq<ParsedEntry>>)
    requires forall k :: 0 <= k < |candidates| ==> 0.0 <= candidates[k].score <= 1.0
    ensures var r := EnhanceSingleMatch(clientConfigured, candidates, outcome, parse);
            r.Some? ==> forall k :: 0 <= k < |r.value| ==> 0.0 <= r.value[k].geminiScore <= 1.0
  {
  }

  // ---------------------------------------------------------------------
  // The top candidates: `.filter(c => c.score >= minScore).slice(0, 3)`

  /** `.filter(c => c.score >= minScore)`: the qualifying candidates, all of them, in their order (`AtLeastConcat`). */
  function AtLeast(cs: seq<Candidate>, minScore: real): (r: seq<Candidate>)
    ensures |r| <= |cs|
    ensures forall k :: 0 <= k < |r| ==> r[k].score >= minScore && r[k] in cs
    ensures forall c :: c in cs && c.score >= minScore ==> c in r
    ensures |r| == 0 <==> forall k :: 0 <= k < |cs| ==> cs[k].score < minScore
  {
    if |cs| == 0 then []
    else
      var rest := AtLeast(cs[1..], minScore);
      assert forall k :: 1 <= k < |cs| ==> cs[k] == cs[1..][k - 1];
      if cs[0].score >= minScore then [cs[0]] + rest else rest
  }

  /**
   * The filter keeps the input order: filtering a concatenation filters each
   * part (with `AtLeastSingle`, this determines the filter).
   */
  lemma {:induction false} AtLeastConcat(a: seq<Candidate>, b: seq<Candidate>, minScore: real)
    ensures AtLeast(a + b, minScore) == AtLeast(a, minScore) + AtLeast(b, minScore)
    decreases |a|
  {
    if |a| == 0 {
      assert a + b == b;
    } else {
      var head := if a[0].score >= minScore then [a[0]] else [];
      assert (a + b)[0] == a[0] && (a + b)[1..] == a[1..] + b;
      AtLeastCons(a + b, minScore);
      AtLeastCons(a, minScore);
      AtLeastConcat(a[1..], b, minScore);
      Reassociate(head, AtLeast(a[1..], minScore), AtLeast(b, minScore));
    }
  }

  /** A single candidate is kept exactly when it reaches `minScore`. */
  lemma AtLeastSingle(c: Candidate, minScore: real)
    ensures AtLeast([c], minScore) == if c.score >= minScore then [c] else []
  {
    assert [c][1..] == [];
  }

  /** `.slice(0, 3)` of the filter: its first three candidates, or all of them when fewer qualify. */
  function TopCandidates(cs: seq<Candidate>, minScore: real): (top: seq<Candidate>)
    ensures |top| <= 3
    ensures |top| == if |AtLeast(cs, minScore)| < 3 then |AtLeast(cs, minScore)| else 3
    ensures top == AtLeast(cs, minScore)[..|top|]
    ensures forall k :: 0 <= k < |top| ==> top[k].score >= minScore && top[k] in cs
    ensures |top| == 0 <==> forall k :: 0 <= k < |cs| ==> cs[k].score < minScore
  {
    var all := AtLeast(cs, minScore);
    if |all| <= 3 then all else all[..3]
  }

  /**
   * On candidates ranked by score, as `calculateSimilarities` leaves them,
   * the top candidates are a prefix: the first ones, up to three, that reach
   * `minScore`, and every candidate past the qualifying ones falls short.
   */
  lemma {:induction false} AtLeastOfRanked(cs: seq<Candidate>, minScore: real)
    requires SortedDesc(cs, Similarity.ScoreKey)
    ensures AtLeast(cs, minScore) == cs[..|AtLeast(cs, minScore)|]
    ensures forall k :: |AtLeast(cs, minScore)| <= k < |cs| ==> cs[k].score < minScore
    decreases |cs|
  {
    if |cs| > 0 {
      if cs[0].score >= minScore {
        RankedTail(cs);
        AtLeastOfRanked(cs[1..], minScore);
        AtLeastCons(cs, minScore);
        PrefixStep(cs, AtLeast(cs[1..], minScore), minScore);
      } else {
        AllBelowFirst(cs, minScore);
      }
    }
  }

  /** Concatenation is associative. */
  lemma Reassociate<T>(x: seq<T>, y: seq<T>, z: seq<T>)
    ensures x + (y + z) == (x + y) + z
  {
  }

  /** The filter of a non-empty list: its first candidate when that one qualifies, then the filter of the rest. */
  lemma AtLeastCons(cs: seq<Candidate>, minScore: real)
    requires |cs| > 0
    ensures AtLeast(cs, minScore) == (if cs[0].score >= minScore then [cs[0]] else []) + AtLeast(cs[1..], minScore)
  {
  }

  /** A prefix `a` of the tail, followed only by candidates below the threshold, extends to a prefix of the whole list. */
  lemma PrefixStep(cs: seq<Candidate>, a: seq<Candidate>, minScore: real)
    requires |cs| > 0 && |a| < |cs| && a == cs[1..][..|a|]
    requires forall k :: |a| <= k < |cs| - 1 ==> cs[1..][k].score < minScore
    ensures [cs[0]] + a == cs[..1 + |a|]
    ensures forall k :: 1 + |a| <= k < |cs| ==> cs[k].score < minScore
  {
    assert cs[..1 + |a|] == [cs[0]] + cs[1..][..|a|];
    forall k | 1 + |a| <= k < |cs|
      ensures cs[k].score < minScore
    {
      assert cs[k] == cs[1..][k - 1];
    }
  }

  lemma RankedTail(cs: seq<Candidate>)
    requires |cs| > 0 && SortedDesc(cs, Similarity.ScoreKey)
    ensures SortedDesc(cs[1..], Similarity.ScoreKey)
  {
    forall i, j | 0 <= i < j < |cs[1..]|
      ensures Similarity.ScoreKey(cs[1..][i]) >= Similarity.ScoreKey(cs[1..][j])
    {
      assert cs[1..][i] == cs[i + 1] && cs[1..][j] == cs[j + 1];
    }
  }

  /** When the best-ranked candidate is below the threshold, so are all of them. */
  lemma AllBelowFirst(cs: seq<Candidate>, minScore: real)
    requires |cs| > 0 && SortedDesc(cs, Similarity.ScoreKey) && cs[0].score < minScore
    ensures forall k :: 0 <= k < |cs| ==> cs[k].score < minScore
  {
    forall k | 0 < k < |cs|
      ensures cs[k].score < minScore
    {
      assert Similarity.ScoreKey(cs[0]) >= Similarity.ScoreKey(cs[k]);
    }
  }

  lemma TopCandidatesOfRanked(cs: seq<Candidate>, minScore: real)
    requires SortedDesc(cs, Similarity.ScoreKey)
    ensures TopCandidates(cs, minScore) == cs[..|TopCandidates(cs, minScore)|]
    ensures |TopCandidates(cs, minScore)| < 3 ==> forall k :: |TopCandidates(cs, minScore)| <= k < |cs| ==> cs[k].score < minScore
  {
    AtLeastOfRanked(cs, minScore);
  }

  // ---------------------------------------------------------------------
  // The merge and the re-ranking

  /**
   * A candidate with the AI fields of the first enhanced entry sharing its
   * url: that entry's score and reason, and as final score the mean of the
   * candidate's score and the AI score. Without such an entry it is untouched.
   */
  function MergeCandidate(c: Candidate, enhanced: seq<Enhanced>): (m: Candidate)
    ensures m.row == c.row && m.score == c.score && m.details == c.details
    ensures FindByUrl(enhanced, c.row.url, CandidateUrl).None? ==> m == c
    ensures var e := FindByUrl(enhanced, c.row.url, CandidateUrl);
            e.Some? ==> m.gemini == Some(GeminiInfo(e.value.geminiScore, e.value.reason,
                                                    (c.score + e.value.geminiScore) / 2.0))
  {
    match FindByUrl(enhanced, c.row.url, CandidateUrl)
    case None => c
    case Some(e) => c.(gemini := Some(GeminiInfo(e.geminiScore, e.reason, (c.score + e.geminiScore) / 2.0)))
  }

  /** The merge keeps every candidate, in place, with its row, score and field scores, and merges each one. */
  function Merge(cs: seq<Candidate>, enhanced: seq<Enhanced>): (r: seq<Candidate>)
    ensures |r| == |cs|
    ensures Similarity.Rows(r) == Similarity.Rows(cs)
    ensures forall k :: 0 <= k < |cs| ==> r[k].score == cs[k].score && r[k].details == cs[k].details
    ensures forall k :: 0 <= k < |cs| ==> r[k] == MergeCandidate(cs[k], enhanced)
  {
    seq(|cs|, k requires 0 <= k < |cs| => MergeCandidate(cs[k], enhanced))
  }

  /** The final score of a merged candidate lies between its own score and its AI score. */
  lemma FinalScoreBetween(c: Candidate, enhanced: seq<Enhanced>)
    requires MergeCandidate(c, enhanced).gemini.Some? && c.gemini.None?
    ensures var g := MergeCandidate(c, enhanced).gemini.value;
            (c.score <= g.finalScore <= g.geminiScore) || (g.geminiScore <= g.finalScore <= c.score)
  {
  }

  /** `finalScore || score`: a final score of 0 falls back to the score. */
  function EffectiveScore(c: Candidate): real
  {
    if c.gemini.Some? && c.gemini.value.finalScore != 0.0 then c.gemini.value.finalScore else c.score
  }

  /**
   * The fallback of `||` is harmless on non-negative scores: a merged
   * candidate's effective score is always its final score, since a final
   * score of 0 needs a score of 0.
   */
  lemma EffectiveScoreOfMerged(c: Candidate, enhanced: seq<Enhanced>)
    requires c.gemini.None? && c.score >= 0.0
    requires forall k :: 0 <= k < |enhanced| ==> enhanced[k].geminiScore >= 0.0
    ensures var m := MergeCandidate(c, enhanced);
            EffectiveScore(m) == if m.gemini.Some? then m.gemini.value.finalScore else c.score
  {
    var e := FindByUrl(enhanced, c.row.url, CandidateUrl);
    if e.Some? {
      var k :| 0 <= k < |enhanced| && enhanced[k] == e.value && CandidateUrl(enhanced[k]) == c.row.url
               && forall m :: 0 <= m < k ==> CandidateUrl(enhanced[m]) != c.row.url;
      assert e.value.geminiScore >= 0.0;
    }
  }

  // ---------------------------------------------------------------------
  // One record of the loop

  /** What the loop body makes of one record. */
  datatype RecordOutcome = Skipped | Reranked(candidates: seq<Candidate>) | Failed

  /** The try-block of the loop body for one record, the model's answer given. */
  function ProcessRecord(result: MatchResult, minScore: real, outcome: CallOutcome,
                         parse: string -> Option<seq<ParsedEntry>>): (o: RecordOutcome)
  {
    var top := TopCandidates(result.candidates, minScore);
    if |top| == 0 then Skipped
    else match EnhanceSingleMatch(true, top, outcome, parse)
      case None => Failed
      case Some(enhanced) =>
        var merged := Merge(result.candidates, enhanced);
        Reranked(SortDesc(merged, EffectiveScore))
  }

  /**
   * What the try-block promises: a record is skipped exactly when none of its
   * candidates reaches `minScore`; otherwise it fails exactly on a rejection
   * without a message; a re-ranked record holds its merged candidates (the
   * answer for its top candidates merged into all of them), in descending
   * order of their effective score.
   */
  lemma ProcessRecordOutcome(result: MatchResult, minScore: real, outcome: CallOutcome,
                             parse: string -> Option<seq<ParsedEntry>>)
    ensures var o := ProcessRecord(result, minScore, outcome, parse);
            && (o.Skipped? <==> forall k :: 0 <= k < |result.candidates| ==> result.candidates[k].score < minScore)
            && (o.Failed? <==> !o.Skipped? && outcome.Rejected? && outcome.message.None?)
            && (o.Reranked? ==> multiset(Similarity.Rows(o.candidates)) == multiset(Similarity.Rows(result.candidates)))
            && (o.Reranked? ==> SortedDesc(o.candidates, EffectiveScore))
            && (o.Reranked? ==>
                  var answer := EnhanceSingleMatch(true, TopCandidates(result.candidates, minScore), outcome, parse);
                  answer.Some? && multiset(o.candidates) == multiset(Merge(result.candidates, answer.value)))
  {
    var top := TopCandidates(result.candidates, minScore);
    if |top| > 0 {
      var answer := EnhanceSingleMatch(true, top, outcome, parse);
      if answer.Some? {
        var merged := Merge(result.candidates, answer.value);
        Similarity.RowsPermutation(SortDesc(merged, EffectiveScore), merged);
      }
    }
  }

  /** The record the loop pushes: the re-ranked one, or the original. */
  function Pushed(result: MatchResult, o: RecordOutcome): (r: MatchResult)
  {
    if o.Reranked? then MatchResult(result.de, o.candidates) else result
  }

  /** The try-block as a function of the record and of how its call ended. */
  function TryBlock(minScore: real, parse: string -> Option<seq<ParsedEntry>>): (MatchResult, CallOutcome) -> RecordOutcome
  {
    (result, outcome) => ProcessRecord(result, minScore, outcome, parse)
  }

  /** The outcomes of the first `n` records, in order: outcome `k` is `process` run on record `k` with the `k`-th answer. */
  function Outcomes(results: seq<MatchResult>, responses: nat -> CallOutcome,
                    process: (MatchResult, CallOutcome) -> RecordOutcome, n: nat): (outs: seq<RecordOutcome>)
    requires n <= |results|
    ensures |outs| == n
  {
    seq(n, k requires 0 <= k < n => process(results[k], responses(k)))
  }

  /** One more record appends its outcome. */
  lemma OutcomesStep(results: seq<MatchResult>, responses: nat -> CallOutcome,
                     process: (MatchResult, CallOutcome) -> RecordOutcome, n: nat)
    requires n < |results|
    ensures Outcomes(results, responses, process, n + 1)
            == Outcomes(results, responses, process, n) + [process(results[n], responses(n))]
  {
    var longer, shorter := Outcomes(results, responses, process, n + 1), Outcomes(results, responses, process, n);
    assert forall k :: 0 <= k < n ==> longer[k] == shorter[k];
  }

  function Failures(outs: seq<RecordOutcome>, n: nat): (f: nat)
    requires n <= |outs|
    ensures f <= n
  {
    if n == 0 then 0 else Failures(outs, n - 1) + (if outs[n - 1].Failed? then 1 else 0)
  }

  /** Failures and reports among the first `n` records depend on those records only. */
  lemma {:induction false} FailuresPrefix(a: seq<RecordOutcome>, b: seq<RecordOutcome>, n: nat)
    requires n <= |a| && n <= |b| && a[..n] == b[..n]
    ensures Failures(a, n) == Failures(b, n) && Reported(a, n) == Reported(b, n)
  {
    if n > 0 {
      assert a[n - 1] == a[..n][n - 1] == b[n - 1];
      assert a[..n - 1] == a[..n][..n - 1] == b[..n - 1];
      FailuresPrefix(a, b, n - 1);
    }
  }

  /** `((i + 1) / results.length) * 100`. */
  function Percent(i: nat, total: nat): real
    requires total > 0
  {
    ((i + 1) as real / total as real) * 100.0
  }

  /** The records among the first `n` that made a call, and so reported progress. */
  function Reported(outs: seq<RecordOutcome>, n: nat): (idx: seq<nat>)
    requires n <= |outs|
    ensures forall a :: 0 <= a < |idx| ==> idx[a] < n
    ensures forall a, b :: 0 <= a < b < |idx| ==> idx[a] < idx[b]
  {
    if n == 0 then []
    else Reported(outs, n - 1) + (if outs[n - 1].Skipped? then [] else [n - 1])
  }

  /** The progress values reported for the first `n` records: one per record that made a call. */
  function ProgressValues(outs: seq<RecordOutcome>, n: nat, total: nat): seq<real>
    requires n <= |outs| <= total
  {
    Percents(Reported(outs, n), total)
  }

  /** The progress value of each record index in `idx`. */
  function Percents(idx: seq<nat>, total: nat): seq<real>
    requires forall a :: 0 <= a < |idx| ==> idx[a] < total
  {
    seq(|idx|, a requires 0 <= a < |idx| => Percent(idx[a], total))
  }

  lemma PercentBounds(i: nat, j: nat, total: nat)
    requires i <= j < total
    ensures 0.0 < Percent(i, total) <= Percent(j, total) <= 100.0
    ensures i < j ==> Percent(i, total) < Percent(j, total)
  {
    var t := total as real;
    assert (j + 1) as real / t - (i + 1) as real / t == (j - i) as real / t;
    assert (j - i) as real / t >= 0.0;
    assert i < j ==> (j - i) as real / t > 0.0;
    assert (j + 1) as real / t <= 1.0;
  }

  /** The progress reports strictly increase and lie in (0, 100]. */
  lemma ProgressIncreasing(outs: seq<RecordOutcome>, n: nat, total: nat)
    requires n <= |outs| <= total
    ensures forall a, b :: 0 <= a < b < |ProgressValues(outs, n, total)|
              ==> ProgressValues(outs, n, total)[a] < ProgressValues(outs, n, total)[b]
    ensures forall a :: 0 <= a < |ProgressValues(outs, n, total)| ==> 0.0 < ProgressValues(outs, n, total)[a] <= 100.0
    ensures forall a :: 0 <= a < |ProgressValues(outs, n, total)| ==> ProgressValues(outs, n, total)[a] <= Percent(n - 1, total)
  {
    var idx := Reported(outs, n);
    var p := ProgressValues(outs, n, total);
    forall a, b | 0 <= a < b < |p|
      ensures p[a] < p[b]
    {
      PercentBounds(idx[a], idx[b], total);
    }
    forall a | 0 <= a < |p|
      ensures 0.0 < p[a] <= 100.0 && p[a] <= Percent(n - 1, total)
    {
      PercentBounds(idx[a], n - 1, total);
    }
  }

  // ---------------------------------------------------------------------
  // The loop: `enhanceMatchesWithProgress`

  /**
   * `enhanceMatchesWithProgress`. Without a client the results come back
   * untouched. Otherwise record `k` of the output is record `k` of the input,
   * re-ranked when its call succeeded; the loop stops right after the fourth
   * failed record, dropping the records after it; `progress` lists the values
   * handed to the progress callback.
   */
  method EnhanceMatchesWithProgress(results: seq<MatchResult>, minScore: real, clientConfigured: bool,
                                    responses: nat -> CallOutcome, parse: string -> Option<seq<ParsedEntry>>)
    returns (enhanced: seq<MatchResult>, progress: seq<real>)
    ensures !clientConfigured ==> enhanced == results && progress == []
    ensures |enhanced| <= |results|
    ensures clientConfigured ==> LoopResult(results, responses, TryBlock(minScore, parse), enhanced, progress)
  {
    if !clientConfigured {
      return results, [];
    }
    enhanced, progress := EnhanceLoop(results, responses, TryBlock(minScore, parse));
  }

  /**
   * What the loop leaves when `process` is the try block: record `k` of the
   * output is record `k` of the input as its outcome pushes it; the loop
   * stopped at the fourth failure or at the end of the input, never later;
   * and `progress` holds one value per record that made a call.
   */
  predicate LoopResult(results: seq<MatchResult>, responses: nat -> CallOutcome,
                       process: (MatchResult, CallOutcome) -> RecordOutcome,
                       enhanced: seq<MatchResult>, progress: seq<real>)
  {
    && |enhanced| <= |results|
    && var outs := Outcomes(results, responses, process, |enhanced|);
       && (forall k :: 0 <= k < |enhanced| ==> enhanced[k] == Pushed(results[k], outs[k]))
       && Failures(outs, |enhanced|) <= 4
       && (|enhanced| > 0 ==> Failures(outs, |enhanced| - 1) <= 3)
       && (|enhanced| < |results| ==> Failures(outs, |enhanced|) == 4)
       && progress == ProgressValues(outs, |enhanced|, |results|)
  }

  /**
   * The `for` loop of `enhanceMatchesWithProgress`, with `process` standing
   * for the try block run on each record.
   */
  method EnhanceLoop(results: seq<MatchResult>, responses: nat -> CallOutcome,
                     process: (MatchResult, CallOutcome) -> RecordOutcome)
    returns (enhanced: seq<MatchResult>, progress: seq<real>)
    ensures |enhanced| <= |results|
    ensures LoopResult(results, responses, process, enhanced, progress)
  {
    ghost var outs: seq<RecordOutcome> := [];
    enhanced := [];
    var reported: seq<nat> := [];
    var errorCount := 0;
    var i := 0;
    // The source breaks out right after pushing the record whose failure
    // makes `errorCount` exceed 3; testing the count at the head of the loop
    // stops at the same record.
    while i < |results| && errorCount <= 3
      invariant 0 <= i <= |results| && |enhanced| == i
      invariant outs == Outcomes(results, responses, process, i)
      invariant forall k :: 0 <= k < i ==> enhanced[k] == Pushed(results[k], outs[k])
      invariant errorCount == Failures(outs, i) <= 4
      invariant i > 0 ==> Failures(outs, i - 1) <= 3
      invariant reported == Reported(outs, i)
    {
      enhanced, errorCount, reported, outs := NextRecord(results, responses, process, i, enhanced, errorCount, reported, outs);
      i := i + 1;
    }
    progress := Percents(reported, |results|);
  }

  /** Whatever the try block, the progress values the loop reports strictly increase within (0, 100]. */
  lemma LoopProgressIncreasing(results: seq<MatchResult>, responses: nat -> CallOutcome,
                               process: (MatchResult, CallOutcome) -> RecordOutcome,
                               enhanced: seq<MatchResult>, progress: seq<real>)
    requires LoopResult(results, responses, process, enhanced, progress)
    ensures forall a, b :: 0 <= a < b < |progress| ==> progress[a] < progress[b]
    ensures forall a :: 0 <= a < |progress| ==> 0.0 < progress[a] <= 100.0
  {
    ProgressIncreasing(Outcomes(results, responses, process, |enhanced|), |enhanced|, |results|);
  }

  /** The loop body: process record `|outs|` and push its record. */
  method NextRecord(results: seq<MatchResult>, responses: nat -> CallOutcome,
                    process: (MatchResult, CallOutcome) -> RecordOutcome, i: nat, enhanced: seq<MatchResult>,
                    errorCount: nat, reported: seq<nat>, ghost outs: seq<RecordOutcome>)
    returns (enhanced': seq<MatchResult>, errorCount': nat, reported': seq<nat>, ghost outs': seq<RecordOutcome>)
    requires |enhanced| == |outs| == i < |results|
    requires outs == Outcomes(results, responses, process, |outs|)
    requires forall k :: 0 <= k < |outs| ==> enhanced[k] == Pushed(results[k], outs[k])
    requires errorCount == Failures(outs, |outs|)
    requires reported == Reported(outs, |outs|)
    ensures |enhanced'| == |outs'| == |outs| + 1
    ensures outs' == Outcomes(results, responses, process, |outs'|)
    ensures forall k :: 0 <= k < |outs'| ==> enhanced'[k] == Pushed(results[k], outs'[k])
    ensures errorCount' == Failures(outs', |outs'|)
    ensures Failures(outs', |outs|) == errorCount
    ensures reported' == Reported(outs', |outs'|)
  {
    var result := results[i];
    var o := process(result, responses(i));
    var record := result;
    if o.Reranked? {
      record := MatchResult(result.de, o.candidates);
    }
    errorCount' := errorCount;
    if o.Failed? {
      errorCount' := errorCount + 1;
    }
    reported' := reported;
    if !o.Skipped? {
      reported' := reported + [i];
    }
    PushStep(results, enhanced, outs, record, o);
    OutcomeStep(outs, o);
    OutcomesStep(results, responses, process, i);
    enhanced' := enhanced + [record];
    outs' := outs + [o];
  }

  /** The loop's record-by-record invariant, one record further. */
  lemma PushStep(results: seq<MatchResult>, enhanced: seq<MatchResult>, outs: seq<RecordOutcome>,
                 record: MatchResult, o: RecordOutcome)
    requires |enhanced| == |outs| < |results|
    requires forall k :: 0 <= k < |outs| ==> enhanced[k] == Pushed(results[k], outs[k])
    requires record == Pushed(results[|outs|], o)
    ensures forall k :: 0 <= k < |outs| + 1 ==> (enhanced + [record])[k] == Pushed(results[k], (outs + [o])[k])
  {
  }

  /** Failures and reports with one more outcome. */
  lemma OutcomeStep(outs: seq<RecordOutcome>, o: RecordOutcome)
    ensures Failures(outs + [o], |outs|) == Failures(outs, |outs|)
    ensures Failures(outs + [o], |outs| + 1) == Failures(outs, |outs|) + (if o.Failed? then 1 else 0)
    ensures Reported(outs + [o], |outs| + 1) == Reported(outs, |outs|) + (if o.Skipped? then [] else [|outs|])
  {
    FailuresPrefix(outs + [o], outs, |outs|);
  }

  /** Every record of the output is a record of the input, at the same position, over the same DE row and the same candidate rows. */
  lemma OutputDerivesFromInput(result: MatchResult, minScore: real, outcome: CallOutcome,
                               parse: string -> Option<seq<ParsedEntry>>)
    ensures var r := Pushed(result, ProcessRecord(result, minScore, outcome, parse));
            r.de == result.de && multiset(Similarity.Rows(r.candidates)) == multiset(Similarity.Rows(result.candidates))
  {
    ProcessRecordOutcome(result, minScore, outcome, parse);
  }
}

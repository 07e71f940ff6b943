/**
 * The records that flow through the matching pipeline: spreadsheet rows,
 * scored candidates and the per-row match results.
 */
module Records {

  import opened Wrappers

  /** One DE or RASTREIO row after normalisation (its five text columns). */
  datatype Row = Row(url: string, slug: string, metaTitle: string, metaDescription: string, h1: string)

  /** The per-field similarities kept under `details`, before weighting and clamping. */
  datatype FieldScores = FieldScores(slugScore: real, titleScore: real, descScore: real, h1Score: real)

  /** The fields the AI re-ranking adds to a candidate. */
  datatype GeminiInfo = GeminiInfo(geminiScore: real, geminiReason: string, finalScore: real)

  /** A RASTREIO row with its weighted score, its field scores and, once re-ranked, the AI fields. */
  datatype Candidate = Candidate(row: Row, score: real, details: FieldScores, gemini: Option<GeminiInfo>)

  /** One DE row with its ranked candidates. */
  datatype MatchResult = MatchResult(de: Row, candidates: seq<Candidate>)
}

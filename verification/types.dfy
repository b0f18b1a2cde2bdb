/** `src/lib/types.ts`: the records exchanged between server, page and storage. */
module Types {
  import opened Wrappers

  /** Error codes carried in `ApiResponse.error`. */
  const ApiErrorCode := "API_ERROR"
  const NoTextFoundCode := "NO_TEXT_FOUND"
  const ParseErrorCode := "PARSE_ERROR"
  const TextTooLongCode := "TEXT_TOO_LONG"

  /** The JSON body of an analysis response; `D` is the analysis record. */
  datatype ApiResponse<D> = ApiResponse(success: bool, data: Option<D>, error: Option<string>)

  /** A saved analysis. */
  datatype HistoryItem<D> = HistoryItem(id: string, createdAt: string, thumbnail: string, labelText: string, data: D)
}

/**
 * How `get_historical_data` reads the top-level keys of a daily time-series
 * response before it builds a frame.
 */
module Fetch {
  const InformationKey: string := "Information"
  const NoteKey: string := "Note"
  const SeriesKey: string := "Time Series (Daily)"

  datatype Response = RateLimited | Series | Unavailable

  /**
   * A rate-limit key wins over everything else; otherwise a series key means
   * data; otherwise there is nothing to use.
   */
  function Classify(keys: set<string>): (r: Response)
    ensures r == RateLimited <==> InformationKey in keys || NoteKey in keys
    ensures r == Series <==> SeriesKey in keys && InformationKey !in keys && NoteKey !in keys
    ensures r == Unavailable <==> SeriesKey !in keys && InformationKey !in keys && NoteKey !in keys
  {
    if InformationKey in keys || NoteKey in keys then RateLimited
    else if SeriesKey in keys then Series
    else Unavailable
  }

  /** A frame is built from the response only when it is classified as a series. */
  predicate Accepted(keys: set<string>)
  {
    Classify(keys) == Series
  }

  /** Adding a rate-limit key to any response makes it rate-limited, even beside a series. */
  lemma RateLimitWins(keys: set<string>, extra: string)
    requires extra == InformationKey || extra == NoteKey
    ensures Classify(keys + {extra}) == RateLimited
    ensures !Accepted(keys + {extra})
  {
  }
}

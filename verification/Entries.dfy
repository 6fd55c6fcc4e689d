/** Catalog entries and the keys items are hidden by (internal/catalog/catalog.go, hidden.go). */
module Entries {

  /** The wire format of one catalog item. */
  datatype Entry = Entry(
    globalID: string, itemID: string, name: string, year: int, mediaType: string,
    tmdbID: string, tvdbID: string, imdbID: string, path: string,
    seriesGlobalID: string, seriesName: string, seasonNumber: int, episodeNumber: int)

  function SeriesKey(e: Entry): string {
    if e.seriesGlobalID != "" then e.seriesGlobalID
    else if e.seriesName != "" then e.seriesName
    else e.globalID
  }

  function HideKey(e: Entry): string {
    if e.mediaType == "episode" then SeriesKey(e) else e.globalID
  }

  predicate IsHidden(hidden: set<string>, e: Entry) {
    HideKey(e) != "" && HideKey(e) in hidden
  }
}

/**
  From a Jellyfin listing to the entries a node offers as its own
  (LocalEntries, internal/catalog/catalog.go): jellysync's own .strm redirects
  and series made only of them are left out.
 */
module Listing {
  import opened Bytes
  import opened Entries

  /** One listed Jellyfin item. */
  datatype CatalogItem = CatalogItem(
    itemID: string, name: string, year: int, mediaType: string, path: string,
    tmdbID: string, tvdbID: string, imdbID: string, titleYearHash: string,
    seriesGlobalID: string, seriesName: string, seasonNumber: int, episodeNumber: int)
  {
    function GlobalID(): string {
      if tmdbID != "" then "tmdb:" + tmdbID
      else if tvdbID != "" then "tvdb:" + tvdbID
      else if imdbID != "" then "imdb:" + imdbID
      else "titleyear:" + titleYearHash
    }

    function AsEntry(): Entry {
      Entry(GlobalID(), itemID, name, year, mediaType, tmdbID, tvdbID, imdbID, path,
            seriesGlobalID, seriesName, seasonNumber, episodeNumber)
    }
  }

  /** ext equals ".strm" under Unicode case folding; the long s (bytes C5 BF) folds to s. */
  predicate FoldsToStrm(ext: string) {
    || (|ext| == 5 && ext[0] == '.' && ext[1] in "sS" && ext[2] in "tT" && ext[3] in "rR" && ext[4] in "mM")
    || (|ext| == 6 && ext[0] == '.' && ext[1] == '\U{C5}' && ext[2] == '\U{BF}' &&
        ext[3] in "tT" && ext[4] in "rR" && ext[5] in "mM")
  }

  /** The item is one of jellysync's own redirects. */
  predicate IsStrm(it: CatalogItem, strmDir: string) {
    (strmDir != "" && Clean(strmDir) + "/" <= Clean(it.path) + "/") || FoldsToStrm(Ext(it.path))
  }

  predicate EpisodeOf(it: CatalogItem, series: string) {
    it.mediaType == "episode" && it.seriesGlobalID == series
  }

  ghost predicate HasEpisode(items: seq<CatalogItem>, series: string) {
    exists i :: 0 <= i < |items| && EpisodeOf(items[i], series)
  }

  ghost predicate HasRealEpisode(items: seq<CatalogItem>, strmDir: string, series: string) {
    exists i :: 0 <= i < |items| && EpisodeOf(items[i], series) && !IsStrm(items[i], strmDir)
  }

  /** it is real local media: no redirect, and no series whose every listed episode is one. */
  ghost predicate Real(items: seq<CatalogItem>, strmDir: string, it: CatalogItem) {
    && !IsStrm(it, strmDir)
    && (it.mediaType == "series" && HasEpisode(items, it.GlobalID()) ==> HasRealEpisode(items, strmDir, it.GlobalID()))
  }

  /** The entries of the real items among the first n, in listing order. */
  ghost function RealEntries(items: seq<CatalogItem>, strmDir: string, n: nat): seq<Entry>
    requires n <= |items|
  {
    if n == 0 then []
    else if Real(items, strmDir, items[n - 1]) then RealEntries(items, strmDir, n - 1) + [items[n - 1].AsEntry()]
    else RealEntries(items, strmDir, n - 1)
  }

  function CountAt(counts: map<string, nat>, key: string): nat {
    if key in counts then counts[key] else 0
  }

  method LocalEntries(items: seq<CatalogItem>, strmDir: string) returns (entries: seq<Entry>)
    ensures entries == RealEntries(items, strmDir, |items|)
  {
    var seriesEps: map<string, nat> := map[];
    var seriesReal: map<string, nat> := map[];
    for i := 0 to |items|
      invariant forall s :: CountAt(seriesEps, s) > 0 <==> HasEpisode(items[..i], s)
      invariant forall s :: CountAt(seriesReal, s) > 0 <==> HasRealEpisode(items[..i], strmDir, s)
    {
      var it := items[i];
      var key := it.seriesGlobalID;
      GrowEpisodes(items, strmDir, i);
      ghost var eps, reals := seriesEps, seriesReal;
      if it.mediaType == "episode" {
        seriesEps := seriesEps[key := CountAt(seriesEps, key) + 1];
        if !IsStrm(it, strmDir) {
          seriesReal := seriesReal[key := CountAt(seriesReal, key) + 1];
        }
      }
      assert forall s :: CountAt(seriesEps, s) > 0 <==> CountAt(eps, s) > 0 || EpisodeOf(it, s);
      assert forall s ::
          CountAt(seriesReal, s) > 0 <==> CountAt(reals, s) > 0 || (EpisodeOf(it, s) && !IsStrm(it, strmDir));
    }
    assert items[..|items|] == items;
    entries := [];
    for i := 0 to |items|
      invariant entries == RealEntries(items, strmDir, i)
    {
      var it := items[i];
      if IsStrm(it, strmDir) ||
         (it.mediaType == "series" &&
          CountAt(seriesEps, it.GlobalID()) > 0 && CountAt(seriesReal, it.GlobalID()) == 0) {
        continue;
      }
      entries := entries + [it.AsEntry()];
    }
  }

  lemma GrowEpisodes(items: seq<CatalogItem>, strmDir: string, i: nat)
    requires i < |items|
    ensures forall s :: HasEpisode(items[..i + 1], s) <==> HasEpisode(items[..i], s) || EpisodeOf(items[i], s)
    ensures forall s :: HasRealEpisode(items[..i + 1], strmDir, s) <==>
                        HasRealEpisode(items[..i], strmDir, s) || (EpisodeOf(items[i], s) && !IsStrm(items[i], strmDir))
  {
    var a, b := items[..i], items[..i + 1];
    assert b[i] == items[i] && forall k | 0 <= k < i :: b[k] == a[k];
  }

  /** Every offered entry is the entry of a real listed item; a movie or episode is no redirect. */
  lemma {:induction false} OfferedIsReal(items: seq<CatalogItem>, strmDir: string, n: nat, k: nat)
    requires n <= |items| && k < |RealEntries(items, strmDir, n)|
    ensures exists i ::
              0 <= i < n && Real(items, strmDir, items[i]) && RealEntries(items, strmDir, n)[k] == items[i].AsEntry()
  {
    if Real(items, strmDir, items[n - 1]) && k == |RealEntries(items, strmDir, n)| - 1 {
    } else {
      OfferedIsReal(items, strmDir, n - 1, k);
    }
  }

  /** Conversely, every real listed item is offered. */
  lemma {:induction false} RealIsOffered(items: seq<CatalogItem>, strmDir: string, n: nat, i: nat)
    requires i < n <= |items| && Real(items, strmDir, items[i])
    ensures items[i].AsEntry() in RealEntries(items, strmDir, n)
  {
    var entries := RealEntries(items, strmDir, n);
    if i < n - 1 {
      RealIsOffered(items, strmDir, n - 1, i);
    } else {
      assert entries[|entries| - 1] == items[i].AsEntry();
    }
  }
}

/** Where an elected item's .strm file goes (internal/strm/strm.go). */
module Paths {
  import opened Bytes
  import opened Election

  /** A clean absolute path, element by element. */
  type Path = seq<string>

  // The longest file or directory name.
  const MAX_NAME_BYTES: int := 255
  const MAX_DISAMBIGUATOR_BYTES: int := 64

  /** Eight hexadecimal digits of a hash. */
  type Hex8 = s: string | |s| == 8 witness "00000000"

  function Sanitize(name: string): (r: string)
    ensures r != ""
  {
    var s := TrimSpace(Replace(Replace(name, '/', '-'), '\0', '-'));
    if s == "" then "untitled" else s
  }

  // ------------------------------------------------------------- truncation

  /** The last rune start at or before n. */
  function BackUp(s: string, n: nat): (k: nat)
    requires n < |s|
    ensures k <= n && (k > 0 ==> RuneStart(s[k]))
    ensures forall i | k < i <= n :: !RuneStart(s[i])
  {
    if n > 0 && !RuneStart(s[n]) then BackUp(s, n - 1) else n
  }

  /** s shortened to at most n bytes without splitting a rune. */
  function Truncated(s: string, n: int): (r: string)
    ensures r <= s && |r| <= (if n <= 0 then 0 else n)
    ensures |s| <= n ==> r == s
  {
    if n <= 0 then "" else if |s| <= n then s else s[..BackUp(s, n)]
  }

  method TruncateUTF8(s: string, n: int) returns (r: string)
    ensures r == Truncated(s, n)
  {
    if n <= 0 {
      return "";
    }
    if |s| <= n {
      return s;
    }
    var k := n;
    while k > 0 && !RuneStart(s[k])
      invariant 0 <= k <= n && BackUp(s, n) == BackUp(s, k)
    {
      k := k - 1;
    }
    r := s[..k];
  }

  /** Well-formed text is cut to its longest well-formed prefix of at most n bytes, at most 3 short. */
  lemma TruncatedIsLongestValid(s: string, n: nat)
    requires ValidUTF8(s)
    ensures ValidUTF8(Truncated(s, n))
    ensures forall k | 0 <= k <= |s| && k <= n && ValidUTF8(s[..k]) :: k <= |Truncated(s, n)|
    ensures n < |s| ==> n - 3 <= |Truncated(s, n)|
  {
    if n < |s| {
      var cut := if n == 0 then 0 else BackUp(s, n);
      assert Truncated(s, n) == s[..cut];
      forall k | 0 <= k <= n && ValidUTF8(s[..k]) ensures k <= cut {
        PrefixValid(s, k);
      }
      FirstByteStarts(s);
      PrefixValid(s, cut);
      if n - cut > 3 {
        RunesShort(s, cut);
      }
    }
  }

  lemma FirstByteStarts(s: string)
    requires ValidUTF8(s) && s != ""
    ensures RuneStart(s[0])
  {
  }

  /** A rune starts at i, or the text ends there. */
  predicate Boundary(s: string, i: int) {
    i == |s| || (0 <= i < |s| && RuneStart(s[i]))
  }

  /** After a boundary, well-formed text has another within four bytes. */
  lemma {:induction false} RunesShort(s: string, k: nat)
    requires ValidUTF8(s) && k < |s| && Boundary(s, k)
    ensures exists i :: k < i <= k + 4 && Boundary(s, i)
    decreases |s|
  {
    var n := RuneAt(s);
    if k == 0 {
      if n < |s| {
        FirstByteStarts(s[n..]);
        assert s[n..][0] == s[n];
      }
      assert Boundary(s, n);
    } else {
      assert s[n..][k - n] == s[k];
      RunesShort(s[n..], k - n);
      var i :| k - n < i <= k - n + 4 && Boundary(s[n..], i);
      assert Boundary(s, i + n);
    }
  }

  // ------------------------------------------------------------------- paths

  function MediaRoot(mediaType: string): string {
    if mediaType == "movie" then "movies" else "series"
  }

  function SeasonDirName(season: int): string {
    if season == 0 then "Specials" else "Season " + Pad2(season)
  }

  /** The parts before and after the first colon. */
  function Cut(s: string): (string, string) {
    if s == "" then ("", "")
    else if s[0] == ':' then ("", s[1..])
    else
      var (a, b) := Cut(s[1..]);
      ([s[0]] + a, b)
  }

  function ProviderDisambiguator(globalID: string): string {
    var (kind, id) := Cut(globalID);
    if kind == "tmdb" then "tmdbid-" + id
    else if kind == "tvdb" then "tvdbid-" + id
    else if kind == "imdb" then "imdbid-" + id
    else "id-" + (if |id| > 8 then id[..8] else id)
  }

  function Disambiguator(globalID: string, digest: string -> Hex8): (d: string)
    ensures |d| <= MAX_DISAMBIGUATOR_BYTES
  {
    var d := ProviderDisambiguator(globalID);
    if |d| > MAX_DISAMBIGUATOR_BYTES then "id-" + digest(globalID) else d
  }

  function Suffix(globalID: string, digest: string -> Hex8): (s: string)
    ensures |s| <= MAX_DISAMBIGUATOR_BYTES + 3
  {
    " [" + Disambiguator(globalID, digest) + "]"
  }

  /** A name, shortened as needed, with a suffix and room for more bytes after it. */
  function Shortened(name: string, suffix: string, more: nat): string {
    Truncated(Sanitize(name), MAX_NAME_BYTES - |suffix| - more) + suffix
  }

  /** A movie's folder, which is also its file's name without extension. */
  function ItemDir(name: string, id: string, digest: string -> Hex8): string {
    Shortened(name, Suffix(id, digest), |".strm"|)
  }

  function SeriesDir(seriesName: string, seriesID: string, digest: string -> Hex8): string {
    Shortened(seriesName, Suffix(seriesID, digest), 0)
  }

  function EpisodeMark(season: int, episode: int): string {
    " - S" + Pad2(season) + "E" + Pad2(episode) + " - "
  }

  /** The bytes left for the series and episode names in an episode's file name. */
  function Budget(season: int, episode: int, id: string, digest: string -> Hex8): int {
    MAX_NAME_BYTES - |EpisodeMark(season, episode) + Suffix(id, digest) + ".strm"|
  }

  function Max(a: int, b: int): int {
    if a >= b then a else b
  }

  /** Go's division, which truncates toward zero. */
  function Half(n: int): int {
    if n >= 0 then n / 2 else -(-n / 2)
  }

  /** The series and episode names as they share the budget. */
  function Shared(series: string, name: string, budget: int): (string, string) {
    if |series| + |name| > budget then
      var s := Truncated(series, Max(Half(budget), budget - |name|));
      (s, Truncated(name, budget - |s|))
    else (series, name)
  }

  function EpisodeFile(st: ItemState, id: string, digest: string -> Hex8): string {
    var (series, name) := Shared(Sanitize(st.seriesName), Sanitize(st.name),
                                 Budget(st.seasonNumber, st.episodeNumber, id, digest));
    series + EpisodeMark(st.seasonNumber, st.episodeNumber) + name + Suffix(id, digest) + ".strm"
  }

  predicate IsGroupedEpisode(st: ItemState) {
    st.mediaType == "episode" && st.seriesGlobalID != ""
  }

  function FileName(st: ItemState, id: string, digest: string -> Hex8): string {
    if IsGroupedEpisode(st) then EpisodeFile(st, id, digest) else ItemDir(st.name, id, digest) + ".strm"
  }

  predicate Int64(n: int) {
    -0x8000_0000_0000_0000 <= n < 0x8000_0000_0000_0000
  }

  /**
    For all names and ids and all 64-bit numbers, the file name and the item or series
    folder handed to the join fit MAX_NAME_BYTES and keep the id suffix whole.
   */
  lemma NamesFit(st: ItemState, id: string, digest: string -> Hex8)
    requires Int64(st.seasonNumber) && Int64(st.episodeNumber)
    ensures |FileName(st, id, digest)| <= 255
    ensures HasSuffix(FileName(st, id, digest), Suffix(id, digest) + ".strm")
    ensures |ItemDir(st.name, id, digest)| <= 255 &&
            HasSuffix(ItemDir(st.name, id, digest), Suffix(id, digest))
    ensures var dir := SeriesDir(st.seriesName, st.seriesGlobalID, digest);
            |dir| <= 255 && HasSuffix(dir, Suffix(st.seriesGlobalID, digest))
  {
    if IsGroupedEpisode(st) {
      EpisodeFileFits(st, id, digest);
    } else {
      ItemFileFits(st.name, id, digest);
    }
  }

  lemma Appended(a: string, b: string, c: string)
    ensures HasSuffix(a + b + c, b + c)
  {
    assert a + b + c == a + (b + c);
  }

  lemma ItemFileFits(name: string, id: string, digest: string -> Hex8)
    ensures |ItemDir(name, id, digest) + ".strm"| <= MAX_NAME_BYTES
    ensures HasSuffix(ItemDir(name, id, digest) + ".strm", Suffix(id, digest) + ".strm")
  {
    var suffix := Suffix(id, digest);
    Appended(Truncated(Sanitize(name), MAX_NAME_BYTES - |suffix| - 5), suffix, ".strm");
  }

  lemma EpisodeFileFits(st: ItemState, id: string, digest: string -> Hex8)
    requires Int64(st.seasonNumber) && Int64(st.episodeNumber)
    ensures |EpisodeFile(st, id, digest)| <= MAX_NAME_BYTES
    ensures HasSuffix(EpisodeFile(st, id, digest), Suffix(id, digest) + ".strm")
  {
    BudgetPositive(st.seasonNumber, st.episodeNumber, id, digest);
    var budget := Budget(st.seasonNumber, st.episodeNumber, id, digest);
    var (series, name) := Shared(Sanitize(st.seriesName), Sanitize(st.name), budget);
    SharedFits(Sanitize(st.seriesName), Sanitize(st.name), budget);
    var mark, end := EpisodeMark(st.seasonNumber, st.episodeNumber), Suffix(id, digest) + ".strm";
    assert EpisodeFile(st, id, digest) == (series + mark + name) + end;
  }

  lemma BudgetPositive(season: int, episode: int, id: string, digest: string -> Hex8)
    requires Int64(season) && Int64(episode)
    ensures Budget(season, episode, id, digest) >= 100
  {
    Pad2Length(season);
    Pad2Length(episode);
    assert |EpisodeMark(season, episode)| <= 4 + 20 + 1 + 20 + 3;
  }

  lemma SharedFits(series: string, name: string, budget: nat)
    ensures var (s, n) := Shared(series, name, budget);
            |s| + |n| <= budget && s <= series && n <= name
  {
  }

  /** A series or episode name no longer than half the budget survives whole. */
  lemma ShortNamesSurvive(series: string, name: string, budget: nat)
    ensures |series| <= budget / 2 ==> Shared(series, name, budget).0 == series
    ensures |name| <= budget / 2 ==> Shared(series, name, budget).1 == name
  {
  }

  predicate EndsWithID(f: string, d: string) {
    var k := |f| - 6 - |d|;
    k > 1 && f[k - 2..k] == " [" && f[k..|f| - 6] == d && f[|f| - 6..] == "].strm"
  }

  lemma FileEnd(st: ItemState, id: string, digest: string -> Hex8)
    ensures EndsWithID(FileName(st, id, digest), Disambiguator(id, digest))
  {
    if IsGroupedEpisode(st) {
      EpisodeEnd(st, id, digest);
    } else {
      ItemEnd(st.name, id, digest);
    }
  }

  lemma EpisodeEnd(st: ItemState, id: string, digest: string -> Hex8)
    ensures EndsWithID(EpisodeFile(st, id, digest), Disambiguator(id, digest))
  {
    var (series, name) := Shared(Sanitize(st.seriesName), Sanitize(st.name),
                                 Budget(st.seasonNumber, st.episodeNumber, id, digest));
    BracketsEnd(series + EpisodeMark(st.seasonNumber, st.episodeNumber) + name, Disambiguator(id, digest),
                EpisodeFile(st, id, digest));
  }

  lemma ItemEnd(name: string, id: string, digest: string -> Hex8)
    ensures EndsWithID(ItemDir(name, id, digest) + ".strm", Disambiguator(id, digest))
  {
    BracketsEnd(Truncated(Sanitize(name), MAX_NAME_BYTES - |Suffix(id, digest)| - |".strm"|), Disambiguator(id, digest),
                ItemDir(name, id, digest) + ".strm");
  }

  lemma BracketsEnd(front: string, d: string, f: string)
    requires f == front + (" [" + d + "]") + ".strm"
    ensures EndsWithID(f, d)
  {
    assert f == front + " [" + d + "].strm";
  }

  lemma SuffixFromEnd(f: string, d: string)
    requires EndsWithID(f, d)
    ensures HasSuffix(f, (" [" + d + "]") + ".strm")
  {
    var k := |f| - 6 - |d|;
    assert f[k - 2..] == f[k - 2..k] + f[k..|f| - 6] + f[|f| - 6..];
    assert (" [" + d + "]") + ".strm" == " [" + d + "].strm";
  }

  lemma SuffixTellsApart(f1: string, f2: string, d1: string, d2: string)
    requires EndsWithID(f1, d1) && EndsWithID(f2, d2)
    requires d1 != d2 && '[' !in d1 && '[' !in d2
    ensures f1 != f2
  {
    if f1 == f2 {
      if |d1| < |d2| {
        LastBracket(f1, d1, d2);
      } else if |d2| < |d1| {
        LastBracket(f1, d2, d1);
      }
    }
  }

  /** A shorter id suffix would put its bracket inside the longer one. */
  lemma LastBracket(f: string, d1: string, d2: string)
    requires EndsWithID(f, d1) && EndsWithID(f, d2) && |d1| < |d2|
    ensures '[' in d2
  {
    assert f[|f| - 6 - |d1| - 1] == d2[|d2| - |d1| - 1];
    assert f[|f| - 8 - |d1|..|f| - 6 - |d1|][1] == '[';
  }
}

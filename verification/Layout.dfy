/**
  The names a generated path is made of, spelled out: what can be read back from them
  (pathFor, internal/strm/strm.go).
 */
module Layout {
  import opened Bytes
  import opened Election
  import opened Paths
  import opened Places

  // ---------------------------------------------------------------- numbers

  predicate AllDigits(s: string) {
    forall i | 0 <= i < |s| :: '0' <= s[i] <= '9'
  }

  /** The number that decimal digits stand for. */
  function Value(s: string): int
    requires AllDigits(s)
  {
    if s == "" then 0 else Value(s[..|s| - 1]) * 10 + (s[|s| - 1] as int - '0' as int)
  }

  /** s says n in decimal digits, at least two characters, with a minus sign if n is negative. */
  predicate Says(s: string, n: int) {
    |s| >= 2 && if n < 0 then s[0] == '-' && AllDigits(s[1..]) && Value(s[1..]) == -n else AllDigits(s) && Value(s) == n
  }

  lemma {:induction false} DecimalSays(n: nat)
    ensures AllDigits(Decimal(n)) && Value(Decimal(n)) == n
  {
    if n >= 10 {
      DecimalSays(n / 10);
      var s := Decimal(n);
      assert s[..|s| - 1] == Decimal(n / 10) && s[|s| - 1] == Digit(n % 10);
    } else {
      assert Decimal(n) == [Digit(n)] && Decimal(n)[..0] == "";
    }
  }

  lemma Pad2Says(n: int)
    ensures Says(Pad2(n), n)
  {
    if n < 0 {
      DecimalSays(-n);
      assert Pad2(n)[1..] == Decimal(-n);
    } else if n < 10 {
      assert Decimal(n) == [Digit(n)] && Pad2(n) == ['0', Digit(n)];
      assert Pad2(n)[..1] == ['0'] && ['0'][..0] == "";
      assert Value(['0']) == 0;
    } else {
      DecimalSays(n);
      assert Decimal(n) == Decimal(n / 10) + [Digit(n % 10)];
    }
  }

  // ----------------------------------------------------------------- names

  function Dashes(s: string): string {
    Replace(Replace(s, '/', '-'), '\0', '-')
  }

  lemma DashesKeepSpace(s: string)
    ensures SpaceAt(Dashes(s)) == SpaceAt(s) && SpaceBefore(Dashes(s)) == SpaceBefore(s)
  {
  }

  lemma DashesCut(s: string, n: nat)
    requires n <= |s|
    ensures Dashes(s)[n..] == Dashes(s[n..]) && Dashes(s)[..n] == Dashes(s[..n])
  {
  }

  lemma {:induction false} TrimLeftDashes(s: string)
    ensures TrimLeft(Dashes(s)) == Dashes(TrimLeft(s))
    decreases |s|
  {
    var n := SpaceAt(s);
    DashesKeepSpace(s);
    if n > 0 {
      DashesCut(s, n);
      TrimLeftDashes(s[n..]);
    }
  }

  lemma {:induction false} TrimRightDashes(s: string)
    ensures TrimRight(Dashes(s)) == Dashes(TrimRight(s))
    decreases |s|
  {
    var n := |s| - SpaceBefore(s);
    DashesKeepSpace(s);
    if n < |s| {
      DashesCut(s, n);
      TrimRightDashes(s[..n]);
    }
  }

  /** w is a white space character (property White_Space of Unicode), in UTF-8. */
  predicate WhiteSpace(w: string) {
    || w in {"\t", "\n", "\U{0B}", "\U{0C}", "\r", " ", "\U{C2}\U{85}", "\U{C2}\U{A0}"}
    || w in {"\U{E1}\U{9A}\U{80}", "\U{E2}\U{81}\U{9F}", "\U{E3}\U{80}\U{80}"}
    || w in {"\U{E2}\U{80}\U{A8}", "\U{E2}\U{80}\U{A9}", "\U{E2}\U{80}\U{AF}"}
    || (|w| == 3 && w[..2] == "\U{E2}\U{80}" && '\U{80}' <= w[2] <= '\U{8A}')
  }

  lemma SpacesFound(s: string, w: string)
    requires WhiteSpace(w)
    ensures w <= s ==> SpaceAt(s) > 0
    ensures HasSuffix(s, w) ==> SpaceBefore(s) > 0
  {
    if HasSuffix(s, w) {
      var back := s[|s| - |w|..];
      assert back == w && forall i | 0 <= i < |w| :: s[|s| - |w| + i] == back[i];
    }
  }

  /** What is left of a name neither starts nor ends with white space, and is a part of it as it was. */
  lemma TrimmedOfSpace(s: string) returns (i: nat)
    ensures var t := TrimSpace(s);
            && i + |t| <= |s| && t == s[i..i + |t|]
            && forall w | WhiteSpace(w) :: !(w <= t) && !HasSuffix(t, w)
  {
    var l := TrimLeft(s);
    i := |s| - |l|;
    var t := TrimRight(l);
    assert l == s[i..] && t == l[..|t|];
    forall w | WhiteSpace(w) ensures !(w <= t) && !HasSuffix(t, w) {
      SpacesFound(l, w);
      SpacesFound(t, w);
    }
  }

  /** White space around a name goes, a dash stands for a slash or a zero byte, and nothing is left empty. */
  lemma SanitizeExactly(name: string)
    ensures var t, r := TrimSpace(name), Sanitize(name);
            && (t == "" ==> r == "untitled")
            && (t != "" ==> |r| == |t| && forall i | 0 <= i < |t| ::
                  r[i] == if t[i] == '/' || t[i] == '\0' then '-' else t[i])
  {
    TrimLeftDashes(name);
    TrimRightDashes(TrimLeft(name));
    assert TrimSpace(Dashes(name)) == Dashes(TrimSpace(name));
  }

  /** What an id becomes in a name: the provider's id as Jellyfin reads it, the start of a title's hash, or a hash. */
  lemma DisambiguatorNames(id: string, kind: string, x: string, digest: string -> Hex8)
    requires id == kind + ":" + x && ':' !in kind
    ensures var d := Disambiguator(id, digest);
            && (kind == "tmdb" ==> d == if |x| <= 57 then "tmdbid-" + x else "id-" + digest(id))
            && (kind == "tvdb" ==> d == if |x| <= 57 then "tvdbid-" + x else "id-" + digest(id))
            && (kind == "imdb" ==> d == if |x| <= 57 then "imdbid-" + x else "id-" + digest(id))
            && (kind != "tmdb" && kind != "tvdb" && kind != "imdb" ==> d == "id-" + if |x| > 8 then x[..8] else x)
  {
    CutAtColon(kind, x);
  }

  lemma {:induction false} CutAtColon(kind: string, x: string)
    requires ':' !in kind
    ensures Cut(kind + ":" + x) == (kind, x)
  {
    var s := kind + ":" + x;
    if kind == "" {
      assert s == ":" + x && s[1..] == x;
    } else {
      CutAtColon(kind[1..], x);
      assert s[1..] == kind[1..] + ":" + x && kind == [kind[0]] + kind[1..];
    }
  }

  /**
    Two names too long together for their budget: a name that takes up to half of it stays whole and leaves
    the rest to the series, else the series gets half; the episode's name gets what the series leaves.
   */
  lemma NamesShare(series: string, name: string, budget: nat)
    requires |series| + |name| > budget
    ensures var (s, n) := Shared(series, name, budget);
            && (|name| <= budget / 2 ==> s == Truncated(series, budget - |name|) && n == name)
            && (|name| > budget / 2 ==> s == Truncated(series, budget / 2) && n == Truncated(name, budget - |s|))
  {
  }

  // ---------------------------------------------------------------- layout

  /** A movie, or an episode without a series, has a folder of its own. */
  lemma ItemLayout(out: Root, st: ItemState, id: string, digest: string -> Hex8) returns (name: string)
    requires st.mediaType != "episode" || st.seriesGlobalID == ""
    requires '/' !in Disambiguator(id, digest) && Plain(Sanitize(st.peerID))
    ensures name == Truncated(Sanitize(st.name), 247 - |Disambiguator(id, digest)|)
    ensures var dir := name + (" [" + Disambiguator(id, digest) + "]");
            PathFor(out, st, id, digest) ==
            out + [if st.mediaType == "movie" then "movies" else "series", Sanitize(st.peerID)] + [dir, dir + ".strm"]
  {
    name := ItemDirSpelled(st.name, id, digest);
    ItemFlat(out, st, id, digest);
  }

  lemma ItemFlat(out: Root, st: ItemState, id: string, digest: string -> Hex8)
    requires !IsGroupedEpisode(st) && '/' !in Disambiguator(id, digest) && Plain(Sanitize(st.peerID))
    ensures var dir := ItemDir(st.name, id, digest);
            PathFor(out, st, id, digest) == out + [MediaRoot(st.mediaType), Sanitize(st.peerID)] + [dir, dir + ".strm"]
  {
    PathIsFlat(out, st, id, digest);
    MovieNames(st, id, digest);
  }

  lemma SuffixSpelled(id: string, digest: string -> Hex8)
    ensures Suffix(id, digest) == " [" + Disambiguator(id, digest) + "]"
    ensures |Suffix(id, digest)| == 3 + |Disambiguator(id, digest)|
  {
  }

  lemma ShortenedSpelled(name: string, suffix: string, more: nat) returns (front: string)
    ensures front == Truncated(Sanitize(name), 255 - |suffix| - more) && Shortened(name, suffix, more) == front + suffix
  {
    front := Truncated(Sanitize(name), MAX_NAME_BYTES - |suffix| - more);
  }

  lemma ItemDirSpelled(name: string, id: string, digest: string -> Hex8) returns (front: string)
    ensures front == Truncated(Sanitize(name), 247 - |Disambiguator(id, digest)|)
    ensures ItemDir(name, id, digest) == front + (" [" + Disambiguator(id, digest) + "]")
  {
    SuffixSpelled(id, digest);
    front := ShortenedSpelled(name, Suffix(id, digest), |".strm"|);
  }

  lemma SeriesDirSpelled(name: string, id: string, digest: string -> Hex8) returns (front: string)
    ensures front == Truncated(Sanitize(name), 252 - |Disambiguator(id, digest)|)
    ensures SeriesDir(name, id, digest) == front + (" [" + Disambiguator(id, digest) + "]")
  {
    SuffixSpelled(id, digest);
    front := ShortenedSpelled(name, Suffix(id, digest), 0);
  }

  /** An episode of a series lies in its series' season, under a name that says both numbers. */
  lemma EpisodeLayout(out: Root, st: ItemState, id: string, digest: string -> Hex8)
    returns (show: string, series: string, season: string, episode: string, name: string)
    requires st.mediaType == "episode" && st.seriesGlobalID != ""
    requires '/' !in Disambiguator(id, digest) && '/' !in Disambiguator(st.seriesGlobalID, digest)
    requires Plain(Sanitize(st.peerID))
    ensures Says(season, st.seasonNumber) && Says(episode, st.episodeNumber)
    ensures show == Truncated(Sanitize(st.seriesName), 252 - |Disambiguator(st.seriesGlobalID, digest)|)
    ensures series <= Sanitize(st.seriesName) && name <= Sanitize(st.name)
    ensures |Sanitize(st.seriesName) + Sanitize(st.name)| + |season + episode| + |Disambiguator(id, digest)| <= 239 ==>
              series == Sanitize(st.seriesName) && name == Sanitize(st.name)
    ensures PathFor(out, st, id, digest) ==
            out + ["series", Sanitize(st.peerID)] +
            [show + (" [" + Disambiguator(st.seriesGlobalID, digest) + "]"),
             if st.seasonNumber == 0 then "Specials" else "Season " + season,
             series + (" - S" + season + "E" + episode + " - ") + name +
             (" [" + Disambiguator(id, digest) + "]") + ".strm"]
  {
    season, episode := Pad2(st.seasonNumber), Pad2(st.episodeNumber);
    Pad2Says(st.seasonNumber);
    Pad2Says(st.episodeNumber);
    show := SeriesDirSpelled(st.seriesName, st.seriesGlobalID, digest);
    series, name := EpisodeSpelled(st, id, digest);
    EpisodeFlat(out, st, id, digest);
  }

  lemma EpisodeFlat(out: Root, st: ItemState, id: string, digest: string -> Hex8)
    requires IsGroupedEpisode(st) && Slashless(st, id, digest) && Plain(Sanitize(st.peerID))
    ensures PathFor(out, st, id, digest) ==
            out + ["series", Sanitize(st.peerID)] +
            [SeriesDir(st.seriesName, st.seriesGlobalID, digest), SeasonDirName(st.seasonNumber),
             EpisodeFile(st, id, digest)]
  {
    PathIsFlat(out, st, id, digest);
  }

  lemma EpisodeSpelled(st: ItemState, id: string, digest: string -> Hex8) returns (series: string, name: string)
    ensures series <= Sanitize(st.seriesName) && name <= Sanitize(st.name)
    ensures |Sanitize(st.seriesName) + Sanitize(st.name)| + |Pad2(st.seasonNumber) + Pad2(st.episodeNumber)| +
            |Disambiguator(id, digest)| <= 239 ==>
              series == Sanitize(st.seriesName) && name == Sanitize(st.name)
    ensures EpisodeFile(st, id, digest) ==
            series + (" - S" + Pad2(st.seasonNumber) + "E" + Pad2(st.episodeNumber) + " - ") + name +
            (" [" + Disambiguator(id, digest) + "]") + ".strm"
  {
    var budget := Budget(st.seasonNumber, st.episodeNumber, id, digest);
    var shared := Shared(Sanitize(st.seriesName), Sanitize(st.name), budget);
    series, name := shared.0, shared.1;
    SuffixSpelled(id, digest);
  }
}

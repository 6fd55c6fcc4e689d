/**
  Which ids can share a path at all: exactly those with one suffix, and those of which one's
  suffix can be read as a name followed by the other's (internal/strm/strm.go).
 */
module Suffixes {
  import opened Bytes
  import opened Election
  import opened Paths
  import opened Places

  /** The suffix d' reads as more of a name, and then d in its own brackets. */
  predicate ReadsAs(d': string, d: string) {
    |d'| >= |d| + 2 && d' == d'[..|d'| - |d| - 2] + " [" + d && '\0' !in d'[..|d'| - |d| - 2]
  }

  // ------------------------------------------------------------ names of files

  lemma SanitizeNoNul(name: string)
    ensures '\0' !in Sanitize(name)
  {
    TrimKeepsOut(Replace(Replace(name, '/', '-'), '\0', '-'), '\0');
    assert '\0' !in "untitled";
  }

  lemma MarkNoNul(season: int, episode: int)
    ensures '\0' !in EpisodeMark(season, episode)
  {
    DecimalDigits(if season < 0 then -season else season);
    DecimalDigits(if episode < 0 then -episode else episode);
  }

  /** A file's name is text without a zero byte, and the id suffix in its brackets. */
  lemma FileText(st: ItemState, id: string, digest: string -> Hex8) returns (t: string)
    ensures FileName(st, id, digest) == t + (" [" + Disambiguator(id, digest) + "].strm") && '\0' !in t
  {
    if IsGroupedEpisode(st) {
      t := EpisodeText(st, id, digest);
    } else {
      t := ItemText(st.name, id, digest);
    }
  }

  lemma ItemText(name: string, id: string, digest: string -> Hex8) returns (t: string)
    ensures ItemDir(name, id, digest) + ".strm" == t + (" [" + Disambiguator(id, digest) + "].strm") && '\0' !in t
  {
    SanitizeNoNul(name);
    t := Truncated(Sanitize(name), MAX_NAME_BYTES - |Suffix(id, digest)| - |".strm"|);
    WithExtension(t, Disambiguator(id, digest));
  }

  lemma WithExtension(t: string, d: string)
    ensures t + (" [" + d + "]") + ".strm" == t + (" [" + d + "].strm")
  {
    assert (" [" + d + "]") + ".strm" == " [" + d + "].strm";
  }

  lemma EpisodeText(st: ItemState, id: string, digest: string -> Hex8) returns (t: string)
    ensures EpisodeFile(st, id, digest) == t + (" [" + Disambiguator(id, digest) + "].strm") && '\0' !in t
  {
    var budget := Budget(st.seasonNumber, st.episodeNumber, id, digest);
    var (series, name) := Shared(Sanitize(st.seriesName), Sanitize(st.name), budget);
    SanitizeNoNul(st.seriesName);
    SanitizeNoNul(st.name);
    SharedPrefixes(Sanitize(st.seriesName), Sanitize(st.name), budget);
    MarkNoNul(st.seasonNumber, st.episodeNumber);
    t := series + EpisodeMark(st.seasonNumber, st.episodeNumber) + name;
    WithExtension(t, Disambiguator(id, digest));
  }

  // ------------------------------------------------------------ what is shared

  /** Two texts that end in suffixes of different lengths are one only if the longer reads as the shorter. */
  lemma OneText(t: string, d: string, t': string, d': string)
    requires t + (" [" + d + "].strm") == t' + (" [" + d' + "].strm") && |d| < |d'| && '\0' !in t
    ensures ReadsAs(d', d)
  {
    var f, n, n' := t + (" [" + d + "].strm"), |t|, |t'|;
    assert n - n' == |d'| - |d|;
    assert f[n] == ' ' && f[n + 1] == '[' && f[n'] == ' ' && f[n' + 1] == '[';
    assert n >= n' + 2;
    var e := d'[..n - n' - 2];
    assert f[n' + 2..n' + 2 + |d'|] == d' && f[n + 2..n + 2 + |d|] == d;
    assert e == f[n' + 2..n] == t[n' + 2..];
    assert d' == f[n' + 2..n] + f[n..n + 2] + f[n + 2..n + 2 + |d|];
    assert f[n..n + 2] == " [";
  }

  /** Rows of two ids share a path, in whatever output folders, only if their suffixes allow it. */
  lemma SharedPathSuffixes(
    out1: Path, st1: ItemState, id1: string, out2: Path, st2: ItemState, id2: string, digest: string -> Hex8)
    requires '/' !in Disambiguator(id1, digest) && '/' !in Disambiguator(id2, digest)
    requires PathFor(out1, st1, id1, digest) == PathFor(out2, st2, id2, digest)
    ensures var d1, d2 := Disambiguator(id1, digest), Disambiguator(id2, digest);
            d1 == d2 || ReadsAs(d1, d2) || ReadsAs(d2, d1)
  {
    var d1, d2 := Disambiguator(id1, digest), Disambiguator(id2, digest);
    LastIsFile(out1, st1, id1, digest);
    LastIsFile(out2, st2, id2, digest);
    var t1 := FileText(st1, id1, digest);
    var t2 := FileText(st2, id2, digest);
    if |d1| < |d2| {
      OneText(t1, d1, t2, d2);
    } else if |d2| < |d1| {
      OneText(t2, d2, t1, d1);
    } else {
      SameLengths(t1, d1, t2, d2);
    }
  }

  lemma SameLengths(t1: string, d1: string, t2: string, d2: string)
    requires t1 + (" [" + d1 + "].strm") == t2 + (" [" + d2 + "].strm") && |d1| == |d2|
    ensures d1 == d2
  {
    var f, n := t1 + (" [" + d1 + "].strm"), |t1|;
    assert f[n + 2..n + 2 + |d1|] == d1 && f[n + 2..n + 2 + |d2|] == d2;
  }

  lemma LastIsFile(out: Path, st: ItemState, id: string, digest: string -> Hex8)
    requires '/' !in Disambiguator(id, digest)
    ensures PathFor(out, st, id, digest) != [] && Last(PathFor(out, st, id, digest)) == FileName(st, id, digest)
  {
    PathEnds(out, st, id, digest);
    FileSlash(st, id, digest);
    SplitParts(FileName(st, id, digest), '/');
  }

  // ---------------------------------------------------------- and they do share

  /** As many letters as leave room for a suffix of n bytes in its brackets, and the extension. */
  function Filler(n: nat): (s: string)
    requires n <= MAX_DISAMBIGUATOR_BYTES
    ensures |s| == MAX_NAME_BYTES - n - 8 && forall i | 0 <= i < |s| :: s[i] == 'A'
  {
    seq(MAX_NAME_BYTES - n - 8, i => 'A')
  }

  /** Text without slashes and zero bytes that starts and ends in a letter is left as it is. */
  lemma SanitizeKeeps(s: string)
    requires s != "" && '/' !in s && '\0' !in s && s[0] == 'A' && (s[|s| - 1] == 'A' || s[|s| - 1] == 'x')
    ensures Sanitize(s) == s
  {
    assert Replace(Replace(s, '/', '-'), '\0', '-') == s;
    assert SpaceAt(s) == 0 && SpaceBefore(s) == 0;
  }

  function Movie(name: string): ItemState {
    ItemState(name, "movie", false, "", "peer", "item", "", "", 0, 0, false, "", false)
  }

  /** A name cut right before its last letter leaves the rest whole. */
  lemma CutBefore(t: string)
    requires t != ""
    ensures Truncated(t + "x", |t|) == t
  {
    assert (t + "x")[|t|] == 'x' && RuneStart('x');
    assert (t + "x")[..|t|] == t;
  }

  lemma FillerDir(id: string, digest: string -> Hex8)
    ensures var d := Disambiguator(id, digest);
            ItemDir(Filler(|d|), id, digest) == Filler(|d|) + (" [" + d + "]")
  {
    SanitizeKeeps(Filler(|Disambiguator(id, digest)|));
  }

  /** A longer name with a shorter suffix, cut to the very same folder. */
  lemma ReadingDir(id: string, e: string, n: nat, digest: string -> Hex8)
    requires '/' !in e && '\0' !in e && |e| + 2 + |Disambiguator(id, digest)| == n <= MAX_DISAMBIGUATOR_BYTES
    ensures var t := Filler(n) + (" [" + e);
            ItemDir(t + "x", id, digest) == t + (" [" + Disambiguator(id, digest) + "]")
  {
    var t := Filler(n) + (" [" + e);
    SanitizeKeeps(t + "x");
    CutBefore(t);
    assert |t| == MAX_NAME_BYTES - |Suffix(id, digest)| - |".strm"|;
  }

  lemma ReadingShares(out: Path, id: string, id': string, digest: string -> Hex8)
    requires '/' !in Disambiguator(id', digest) && ReadsAs(Disambiguator(id', digest), Disambiguator(id, digest))
    ensures exists st, st' :: PathFor(out, st, id, digest) == PathFor(out, st', id', digest)
  {
    var d, d' := Disambiguator(id, digest), Disambiguator(id', digest);
    var e := d'[..|d'| - |d| - 2];
    var t := Filler(|d'|) + (" [" + e);
    FillerDir(id', digest);
    ReadingDir(id, e, |d'|, digest);
    SameDir(Filler(|d'|), e, d, d');
    SameDirSamePath(out, t + "x", id, Filler(|d'|), id', digest);
  }

  lemma SameDir(t: string, e: string, d: string, d': string)
    requires d' == e + " [" + d
    ensures t + (" [" + e) + (" [" + d + "]") == t + (" [" + d' + "]")
  {
  }

  lemma SameDirSamePath(out: Path, name: string, id: string, name': string, id': string, digest: string -> Hex8)
    requires ItemDir(name, id, digest) == ItemDir(name', id', digest)
    ensures PathFor(out, Movie(name), id, digest) == PathFor(out, Movie(name'), id', digest)
  {
    MovieNames(Movie(name), id, digest);
    MovieNames(Movie(name'), id', digest);
  }

  /**
    Ids whose suffixes hold no slash: some rows of them share a path exactly if they have one
    suffix, or one's reads as text followed by " [" and the other's.
   */
  lemma SharesExactly(out: Path, id1: string, id2: string, digest: string -> Hex8)
    requires '/' !in Disambiguator(id1, digest) && '/' !in Disambiguator(id2, digest)
    ensures (exists st1, st2 :: PathFor(out, st1, id1, digest) == PathFor(out, st2, id2, digest)) <==>
            var d1, d2 := Disambiguator(id1, digest), Disambiguator(id2, digest);
            d1 == d2 || ReadsAs(d1, d2) || ReadsAs(d2, d1)
  {
    var d1, d2 := Disambiguator(id1, digest), Disambiguator(id2, digest);
    if d1 == d2 {
      SameSuffixSamePath(out, Movie("A"), id1, id2, digest);
    } else if ReadsAs(d2, d1) {
      ReadingShares(out, id1, id2, digest);
    } else if ReadsAs(d1, d2) {
      ReadingShares(out, id2, id1, digest);
      var st2, st1 :| PathFor(out, st2, id2, digest) == PathFor(out, st1, id1, digest);
      assert PathFor(out, st1, id1, digest) == PathFor(out, st2, id2, digest);
    } else if st1, st2 :| PathFor(out, st1, id1, digest) == PathFor(out, st2, id2, digest) {
      SharedPathSuffixes(out, st1, id1, out, st2, id2, digest);
    }
  }
}

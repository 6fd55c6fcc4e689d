/**
  The path a .strm file gets once its names are joined and cleaned (filepath.Join in
  pathFor, internal/strm/strm.go). An id suffix is never sanitized, so it may hold
  slashes: what that changes, and exactly when.
 */
module Places {
  import opened Bytes
  import opened Election
  import opened Paths

  /** A name that joining takes as one path element. */
  predicate Plain(name: string) {
    name != "" && name != "." && name != ".." && '/' !in name
  }

  ghost predicate AllPlain(p: seq<string>) {
    forall i | 0 <= i < |p| :: Plain(p[i])
  }

  /** The output folder, cleaned. */
  type Root = p: Path | forall i | 0 <= i < |p| :: Plain(p[i]) witness []

  /** Every slash-separated part of names, in order. */
  function Pieces(names: seq<string>): seq<string> {
    if names == [] then [] else Split(names[0], '/') + Pieces(names[1..])
  }

  /** names joined onto the folder base, and cleaned. */
  function Joined(base: Path, names: seq<string>): Path {
    CleanElements(Pieces(names), true, base)
  }

  function PeerFolder(out: Path, st: ItemState): Path {
    Joined(out, [MediaRoot(st.mediaType), Sanitize(st.peerID)])
  }

  /** The names joined onto the peer's folder. */
  function Names(st: ItemState, id: string, digest: string -> Hex8): seq<string> {
    if IsGroupedEpisode(st) then
      [SeriesDir(st.seriesName, st.seriesGlobalID, digest), SeasonDirName(st.seasonNumber), FileName(st, id, digest)]
    else
      [ItemDir(st.name, id, digest), FileName(st, id, digest)]
  }

  function PathFor(out: Path, st: ItemState, id: string, digest: string -> Hex8): Path {
    Joined(PeerFolder(out, st), Names(st, id, digest))
  }

  // --------------------------------------------------------------- joining

  lemma {:induction false} PiecesAppend(a: seq<string>, b: seq<string>)
    ensures Pieces(a + b) == Pieces(a) + Pieces(b)
  {
    if a == [] {
      assert a + b == b;
    } else {
      PiecesAppend(a[1..], b);
      assert (a + b)[1..] == a[1..] + b;
    }
  }

  lemma {:induction false} CleanAppend(a: seq<string>, b: seq<string>, base: Path)
    ensures CleanElements(a + b, true, base) == CleanElements(b, true, CleanElements(a, true, base))
    decreases |a|
  {
    if a == [] {
      assert a + b == b;
    } else {
      assert (a + b)[0] == a[0] && (a + b)[1..] == a[1..] + b;
      if a[0] == "" || a[0] == "." {
        CleanAppend(a[1..], b, base);
      } else if a[0] == ".." && base != [] && base[|base| - 1] != ".." {
        CleanAppend(a[1..], b, base[..|base| - 1]);
      } else if a[0] == ".." {
        CleanAppend(a[1..], b, base);
      } else {
        CleanAppend(a[1..], b, base + [a[0]]);
      }
    }
  }

  /** Plain parts are simply appended. */
  lemma {:induction false} CleanPlain(parts: seq<string>, base: Path)
    requires AllPlain(parts)
    ensures CleanElements(parts, true, base) == base + parts
    decreases |parts|
  {
    if parts != [] {
      CleanPlain(parts[1..], base + [parts[0]]);
      assert base + [parts[0]] + parts[1..] == base + parts;
    }
  }

  lemma {:induction false} NoSlashInPieces(names: seq<string>)
    ensures forall i | 0 <= i < |Pieces(names)| :: '/' !in Pieces(names)[i]
  {
    if names != [] {
      SplitParts(names[0], '/');
      NoSlashInPieces(names[1..]);
    }
  }

  /** Cleaning leaves plain elements only. */
  lemma {:induction false} CleanedIsPlain(parts: seq<string>, base: Path)
    requires AllPlain(base) && forall i | 0 <= i < |parts| :: '/' !in parts[i]
    ensures AllPlain(CleanElements(parts, true, base))
    decreases |parts|
  {
    if parts != [] {
      if parts[0] == "" || parts[0] == "." {
        CleanedIsPlain(parts[1..], base);
      } else if parts[0] == ".." && base != [] && base[|base| - 1] != ".." {
        CleanedIsPlain(parts[1..], base[..|base| - 1]);
      } else if parts[0] == ".." {
        CleanedIsPlain(parts[1..], base);
      } else {
        CleanedIsPlain(parts[1..], base + [parts[0]]);
      }
    }
  }

  /** So a generated path, whatever the ids, is again a clean path. */
  lemma PathForIsPlain(out: Root, st: ItemState, id: string, digest: string -> Hex8)
    ensures AllPlain(PathFor(out, st, id, digest))
  {
    NoSlashInPieces([MediaRoot(st.mediaType), Sanitize(st.peerID)]);
    CleanedIsPlain(Pieces([MediaRoot(st.mediaType), Sanitize(st.peerID)]), out);
    NoSlashInPieces(Names(st, id, digest));
    CleanedIsPlain(Pieces(Names(st, id, digest)), PeerFolder(out, st));
  }

  lemma {:induction false} PlainPieces(names: seq<string>)
    requires forall i | 0 <= i < |names| :: '/' !in names[i]
    ensures Pieces(names) == names
  {
    if names != [] {
      SplitParts(names[0], '/');
      PlainPieces(names[1..]);
      assert names == [names[0]] + names[1..];
    }
  }

  // ------------------------------------------------------- the last element

  /** A final part that is a plain name is the last element. */
  lemma {:induction false} CleanEndsWith(parts: seq<string>, base: Path)
    requires parts != [] && Plain(parts[|parts| - 1])
    ensures var p := CleanElements(parts, true, base); p != [] && p[|p| - 1] == parts[|parts| - 1]
    decreases |parts|
  {
    if |parts| > 1 {
      if parts[0] == "" || parts[0] == "." {
        CleanEndsWith(parts[1..], base);
      } else if parts[0] == ".." && base != [] && base[|base| - 1] != ".." {
        CleanEndsWith(parts[1..], base[..|base| - 1]);
      } else if parts[0] == ".." {
        CleanEndsWith(parts[1..], base);
      } else {
        CleanEndsWith(parts[1..], base + [parts[0]]);
      }
    } else {
      assert parts[1..] == [];
    }
  }

  function Last(p: seq<string>): string
    requires p != []
  {
    p[|p| - 1]
  }

  /** What an id suffix leaves of a name: its text after the last slash. */
  lemma LastPart(front: string, back: string)
    requires '/' !in back
    ensures Split(front + back, '/') != [] && HasSuffix(Last(Split(front + back, '/')), back)
    ensures '/' !in Last(Split(front + back, '/'))
  {
    SplitLast(front, back, '/');
    SplitParts(front + back, '/');
  }

  /** The last element of a generated path is the file name after its last slash; it ends in .strm. */
  lemma PathEnds(out: Path, st: ItemState, id: string, digest: string -> Hex8)
    ensures var p := PathFor(out, st, id, digest);
            p != [] && Last(p) == Last(Split(FileName(st, id, digest), '/')) && HasSuffix(Last(p), ".strm")
  {
    FileNameEnds(st, id, digest);
    NamesEnd(st, id, digest);
    JoinedEnds(PeerFolder(out, st), Names(st, id, digest));
  }

  predicate NamedStrm(p: Path) {
    p != [] && HasSuffix(p[|p| - 1], ".strm")
  }

  lemma PathEndsInStrm(out: Path, st: ItemState, id: string, digest: string -> Hex8)
    ensures NamedStrm(PathFor(out, st, id, digest))
  {
    PathEnds(out, st, id, digest);
  }

  lemma NamesEnd(st: ItemState, id: string, digest: string -> Hex8)
    ensures Names(st, id, digest) != [] && Last(Names(st, id, digest)) == FileName(st, id, digest)
  {
  }

  lemma JoinedEnds(base: Path, names: seq<string>)
    requires names != [] && HasSuffix(Last(names), ".strm")
    ensures var p, f := Joined(base, names), Last(Split(Last(names), '/'));
            p != [] && Last(p) == f && HasSuffix(f, ".strm") && '/' !in f
  {
    EndPlain(Last(names));
    PiecesEnd(names);
    CleanEndsWith(Pieces(names), base);
  }

  lemma FileNameEnds(st: ItemState, id: string, digest: string -> Hex8)
    ensures HasSuffix(FileName(st, id, digest), ".strm")
  {
    FileEnd(st, id, digest);
    BracketStrm(FileName(st, id, digest), Disambiguator(id, digest));
  }

  lemma BracketStrm(f: string, d: string)
    requires EndsWithID(f, d)
    ensures HasSuffix(f, ".strm")
  {
  }

  lemma StrmIsPlain(name: string)
    requires HasSuffix(name, ".strm") && '/' !in name
    ensures Plain(name)
  {
  }

  lemma {:induction false} PiecesEnd(names: seq<string>)
    requires names != []
    ensures Pieces(names) != [] && Last(Pieces(names)) == Last(Split(Last(names), '/'))
  {
    if |names| > 1 {
      PiecesEnd(names[1..]);
      assert Last(names[1..]) == Last(names);
    } else {
      assert Pieces(names[1..]) == [];
    }
  }

  // ------------------------------------------------------ names without slashes

  lemma TrimKeepsOut(s: string, c: char)
    requires c !in s
    ensures c !in TrimSpace(s)
  {
    var l := TrimLeft(s);
    assert l == s[|s| - |l|..];
    assert TrimRight(l) <= l;
  }

  lemma SanitizeNoSlash(name: string)
    ensures '/' !in Sanitize(name)
  {
    TrimKeepsOut(Replace(Replace(name, '/', '-'), '\0', '-'), '/');
    assert '/' !in "untitled";
  }

  lemma TruncatedNoSlash(name: string, n: int)
    ensures '/' !in Truncated(Sanitize(name), n)
  {
    SanitizeNoSlash(name);
  }

  lemma Pad2NoSlash(n: int)
    ensures '/' !in Pad2(n)
  {
    DecimalDigits(if n < 0 then -n else n);
  }

  lemma SeasonIsPlain(season: int)
    ensures Plain(SeasonDirName(season))
  {
    Pad2NoSlash(season);
    var s := SeasonDirName(season);
    assert s[0] == 'S';
    if season != 0 {
      assert s == "Season " + Pad2(season);
    }
  }

  /** A name is slash-free text, the id suffix's bracket, the suffix, and slash-free text again. */
  predicate Bracketed(name: string, front: string, d: string, back: string) {
    name == front + d + back && '/' !in front && '/' !in back && '[' in front && ']' in back
  }

  lemma ShortenedBracketed(name: string, suffix: string, d: string, more: nat) returns (front: string)
    requires suffix == " [" + d + "]"
    ensures var s := Shortened(name, suffix, more);
            Bracketed(s, front, d, "]") && Bracketed(s + ".strm", front, d, "].strm")
  {
    var t := ShortenedFrom(name, suffix, more);
    front := t + " [";
    Enclosed(t, suffix, d);
  }

  lemma ShortenedFrom(name: string, suffix: string, more: nat) returns (t: string)
    ensures Shortened(name, suffix, more) == t + suffix && '/' !in t
  {
    t := Truncated(Sanitize(name), MAX_NAME_BYTES - |suffix| - more);
    TruncatedNoSlash(name, MAX_NAME_BYTES - |suffix| - more);
  }

  lemma ItemDirBracketed(name: string, id: string, digest: string -> Hex8) returns (front: string)
    ensures Bracketed(ItemDir(name, id, digest), front, Disambiguator(id, digest), "]")
    ensures Bracketed(ItemDir(name, id, digest) + ".strm", front, Disambiguator(id, digest), "].strm")
  {
    front := ShortenedBracketed(name, Suffix(id, digest), Disambiguator(id, digest), |".strm"|);
  }

  lemma SeriesDirBracketed(name: string, id: string, digest: string -> Hex8) returns (front: string)
    ensures Bracketed(SeriesDir(name, id, digest), front, Disambiguator(id, digest), "]")
  {
    front := ShortenedBracketed(name, Suffix(id, digest), Disambiguator(id, digest), 0);
  }

  lemma Enclosed(t: string, suffix: string, d: string)
    requires suffix == " [" + d + "]" && '/' !in t
    ensures Bracketed(t + suffix, t + " [", d, "]") && Bracketed(t + suffix + ".strm", t + " [", d, "].strm")
  {
    Bracketing(t + suffix, t, d);
  }

  lemma Bracketing(whole: string, t: string, d: string)
    requires whole == t + (" [" + d + "]") && '/' !in t
    ensures Bracketed(whole, t + " [", d, "]") && Bracketed(whole + ".strm", t + " [", d, "].strm")
  {
    assert whole == (t + " [") + d + "]";
    assert whole + ".strm" == (t + " [") + d + "].strm";
    assert (t + " [")[|t| + 1] == '[' && "]"[0] == ']' && "].strm"[0] == ']';
  }

  lemma EpisodeFileBracketed(st: ItemState, id: string, digest: string -> Hex8) returns (front: string)
    ensures Bracketed(EpisodeFile(st, id, digest), front, Disambiguator(id, digest), "].strm")
  {
    var budget := Budget(st.seasonNumber, st.episodeNumber, id, digest);
    var (series, name) := Shared(Sanitize(st.seriesName), Sanitize(st.name), budget);
    var mark, d := EpisodeMark(st.seasonNumber, st.episodeNumber), Disambiguator(id, digest);
    SanitizeNoSlash(st.seriesName);
    SanitizeNoSlash(st.name);
    SharedPrefixes(Sanitize(st.seriesName), Sanitize(st.name), budget);
    MarkNoSlash(st.seasonNumber, st.episodeNumber);
    var t := series + mark + name;
    front := t + " [";
    Bracketing(t + (" [" + d + "]"), t, d);
    assert EpisodeFile(st, id, digest) == t + (" [" + d + "]") + ".strm";
  }

  lemma SharedPrefixes(series: string, name: string, budget: int)
    ensures var (s, n) := Shared(series, name, budget); s <= series && n <= name
  {
  }

  lemma MarkNoSlash(season: int, episode: int)
    ensures '/' !in EpisodeMark(season, episode)
  {
    Pad2NoSlash(season);
    Pad2NoSlash(episode);
  }

  lemma FileBracketed(st: ItemState, id: string, digest: string -> Hex8) returns (front: string)
    ensures Bracketed(FileName(st, id, digest), front, Disambiguator(id, digest), "].strm")
  {
    if IsGroupedEpisode(st) {
      front := EpisodeFileBracketed(st, id, digest);
    } else {
      front := ItemDirBracketed(st.name, id, digest);
    }
  }

  lemma SlashInBracketed(name: string, front: string, d: string, back: string)
    requires Bracketed(name, front, d, back)
    ensures '/' in name <==> '/' in d
  {
    if '/' in d {
      var i :| 0 <= i < |d| && d[i] == '/';
      assert name[|front| + i] == d[i];
    }
  }

  lemma BracketedIsPlain(name: string, front: string, d: string, back: string)
    requires Bracketed(name, front, d, back) && '/' !in d
    ensures Plain(name)
  {
    SlashInBracketed(name, front, d, back);
    var i :| 0 <= i < |front| && front[i] == '[';
    assert name[i] == '[';
  }

  // ------------------------------------------------------------ flat paths

  /** No id suffix in the path holds a slash. */
  predicate Slashless(st: ItemState, id: string, digest: string -> Hex8) {
    '/' !in Disambiguator(id, digest) && (IsGroupedEpisode(st) ==> '/' !in Disambiguator(st.seriesGlobalID, digest))
  }

  /** The path as its layout describes it: one element a name. */
  function FlatPath(out: Path, st: ItemState, id: string, digest: string -> Hex8): Path {
    out + [MediaRoot(st.mediaType), Sanitize(st.peerID)] + Names(st, id, digest)
  }

  /** The id whose suffix the first folder carries. */
  function FirstSuffix(st: ItemState, id: string, digest: string -> Hex8): string {
    Disambiguator(if IsGroupedEpisode(st) then st.seriesGlobalID else id, digest)
  }

  lemma FirstBracketed(st: ItemState, id: string, digest: string -> Hex8) returns (front: string)
    ensures Bracketed(Names(st, id, digest)[0], front, FirstSuffix(st, id, digest), "]")
  {
    if IsGroupedEpisode(st) {
      front := SeriesDirBracketed(st.seriesName, st.seriesGlobalID, digest);
    } else {
      front := ItemDirBracketed(st.name, id, digest);
    }
  }

  lemma FileSlash(st: ItemState, id: string, digest: string -> Hex8)
    ensures '/' in FileName(st, id, digest) <==> '/' in Disambiguator(id, digest)
    ensures '/' !in Disambiguator(id, digest) ==> Plain(FileName(st, id, digest))
  {
    var front := FileBracketed(st, id, digest);
    SlashInBracketed(FileName(st, id, digest), front, Disambiguator(id, digest), "].strm");
    if '/' !in Disambiguator(id, digest) {
      BracketedIsPlain(FileName(st, id, digest), front, Disambiguator(id, digest), "].strm");
    }
  }

  lemma FirstSlash(st: ItemState, id: string, digest: string -> Hex8)
    ensures '/' in Names(st, id, digest)[0] <==> '/' in FirstSuffix(st, id, digest)
    ensures '/' !in FirstSuffix(st, id, digest) ==> Plain(Names(st, id, digest)[0])
  {
    var front := FirstBracketed(st, id, digest);
    SlashInBracketed(Names(st, id, digest)[0], front, FirstSuffix(st, id, digest), "]");
    if '/' !in FirstSuffix(st, id, digest) {
      BracketedIsPlain(Names(st, id, digest)[0], front, FirstSuffix(st, id, digest), "]");
    }
  }

  lemma NamesShape(st: ItemState, id: string, digest: string -> Hex8)
    ensures var names := Names(st, id, digest);
            && Last(names) == FileName(st, id, digest)
            && if IsGroupedEpisode(st) then |names| == 3 && names[1] == SeasonDirName(st.seasonNumber) else |names| == 2
  {
  }

  lemma PlainNames(st: ItemState, id: string, digest: string -> Hex8)
    requires Slashless(st, id, digest)
    ensures AllPlain(Names(st, id, digest))
  {
    NamesShape(st, id, digest);
    FileSlash(st, id, digest);
    FirstSlash(st, id, digest);
    SeasonIsPlain(st.seasonNumber);
    EndsPlain(Names(st, id, digest));
  }

  lemma EndsPlain(names: seq<string>)
    requires 2 <= |names| <= 3 && Plain(names[0]) && Plain(Last(names)) && (|names| == 3 ==> Plain(names[1]))
    ensures AllPlain(names)
  {
  }

  lemma SlashedName(st: ItemState, id: string, digest: string -> Hex8)
    requires !Slashless(st, id, digest)
    ensures exists i :: 0 <= i < |Names(st, id, digest)| && '/' in Names(st, id, digest)[i]
  {
    NamesShape(st, id, digest);
    FileSlash(st, id, digest);
    FirstSlash(st, id, digest);
    var names := Names(st, id, digest);
    assert '/' in names[|names| - 1] || '/' in names[0];
  }

  lemma PeerFolderPlain(out: Root, st: ItemState)
    requires Plain(Sanitize(st.peerID))
    ensures PeerFolder(out, st) == out + [MediaRoot(st.mediaType), Sanitize(st.peerID)] && AllPlain(PeerFolder(out, st))
  {
    var root, peer := MediaRoot(st.mediaType), Sanitize(st.peerID);
    MediaRootPlain(st.mediaType);
    PlainPieces([root, peer]);
    CleanPlain([root, peer], out);
    assert AllPlain(out + [root, peer]);
  }

  lemma MediaRootPlain(mediaType: string)
    ensures Plain(MediaRoot(mediaType))
  {
    assert '/' !in "movies" && '/' !in "series";
  }

  /**
    A path has the documented layout, with every name one element, exactly if no id
    suffix in it holds a slash and the peer's folder is a plain name.
   */
  lemma PathIsFlat(out: Root, st: ItemState, id: string, digest: string -> Hex8)
    ensures PathFor(out, st, id, digest) == FlatPath(out, st, id, digest) <==>
            Slashless(st, id, digest) && Plain(Sanitize(st.peerID))
  {
    PathForIsPlain(out, st, id, digest);
    var flat, names := FlatPath(out, st, id, digest), Names(st, id, digest);
    if Slashless(st, id, digest) && Plain(Sanitize(st.peerID)) {
      FlatIfSlashless(out, st, id, digest);
    } else if !Plain(Sanitize(st.peerID)) {
      assert flat[|out| + 1] == Sanitize(st.peerID);
    } else {
      SlashedName(st, id, digest);
      var i :| 0 <= i < |names| && '/' in names[i];
      assert flat[|out| + 2 + i] == names[i];
    }
  }

  lemma FlatIfSlashless(out: Root, st: ItemState, id: string, digest: string -> Hex8)
    requires Slashless(st, id, digest) && Plain(Sanitize(st.peerID))
    ensures PathFor(out, st, id, digest) == FlatPath(out, st, id, digest)
  {
    PlainNames(st, id, digest);
    PeerFolderPlain(out, st);
    PlainPieces(Names(st, id, digest));
    CleanPlain(Names(st, id, digest), PeerFolder(out, st));
  }

  /** The file's own name keeps the id suffix whole exactly if the suffix holds no slash. */
  lemma SuffixWhole(out: Path, st: ItemState, id: string, digest: string -> Hex8)
    ensures var p := PathFor(out, st, id, digest);
            p != [] && (HasSuffix(Last(p), Suffix(id, digest) + ".strm") <==> '/' !in Disambiguator(id, digest))
  {
    var p, d, f := PathFor(out, st, id, digest), Disambiguator(id, digest), FileName(st, id, digest);
    PathEnds(out, st, id, digest);
    SplitParts(f, '/');
    FileSlash(st, id, digest);
    if '/' !in d {
      FileNameSuffix(st, id, digest);
    } else if HasSuffix(Last(p), Suffix(id, digest) + ".strm") {
      SlashInSuffix(Last(p), d);
    }
  }

  lemma FileNameSuffix(st: ItemState, id: string, digest: string -> Hex8)
    ensures HasSuffix(FileName(st, id, digest), Suffix(id, digest) + ".strm")
  {
    FileEnd(st, id, digest);
    SuffixFromEnd(FileName(st, id, digest), Disambiguator(id, digest));
  }

  lemma SlashInSuffix(name: string, d: string)
    requires HasSuffix(name, " [" + d + "]" + ".strm") && '/' in d
    ensures '/' in name
  {
    var i :| 0 <= i < |d| && d[i] == '/';
    var s := " [" + d + "]" + ".strm";
    assert s[2 + i] == d[i] && name[|name| - |s|..][2 + i] == s[2 + i];
  }

  lemma {:induction false} CleanedFrom(parts: seq<string>, base: Path)
    ensures forall e | e in CleanElements(parts, true, base) :: e in base || e in parts
    decreases |parts|
  {
    if parts != [] {
      if parts[0] == "" || parts[0] == "." {
        CleanedFrom(parts[1..], base);
      } else if parts[0] == ".." && base != [] && base[|base| - 1] != ".." {
        CleanedFrom(parts[1..], base[..|base| - 1]);
      } else if parts[0] == ".." {
        CleanedFrom(parts[1..], base);
      } else {
        CleanedFrom(parts[1..], base + [parts[0]]);
      }
    }
  }

  lemma {:induction false} PiecesShort(names: seq<string>, n: int)
    requires forall i | 0 <= i < |names| :: |names[i]| <= n
    ensures forall e | e in Pieces(names) :: |e| <= n
  {
    if names != [] {
      PartsShort(names[0], '/');
      PiecesShort(names[1..], n);
    }
  }

  lemma NamesShort(st: ItemState, id: string, digest: string -> Hex8)
    requires Int64(st.seasonNumber) && Int64(st.episodeNumber)
    ensures forall i | 0 <= i < |Names(st, id, digest)| :: |Names(st, id, digest)[i]| <= MAX_NAME_BYTES
  {
    NamesShape(st, id, digest);
    NamesFit(st, id, digest);
    FirstFits(st, id, digest);
    Pad2Length(st.seasonNumber);
    ListShort(Names(st, id, digest), MAX_NAME_BYTES);
  }

  lemma FirstFits(st: ItemState, id: string, digest: string -> Hex8)
    requires Int64(st.seasonNumber) && Int64(st.episodeNumber)
    ensures |Names(st, id, digest)[0]| <= MAX_NAME_BYTES
  {
    NamesFit(st, id, digest);
  }

  lemma ListShort(names: seq<string>, n: int)
    requires 2 <= |names| <= 3 && |names[0]| <= n && |Last(names)| <= n && (|names| == 3 ==> |names[1]| <= n)
    ensures forall i | 0 <= i < |names| :: |names[i]| <= n
  {
  }

  /** For all names and ids and all 64-bit numbers, everything joined below the peer's folder fits a file name. */
  lemma ElementsFit(out: Path, st: ItemState, id: string, digest: string -> Hex8)
    requires Int64(st.seasonNumber) && Int64(st.episodeNumber)
    ensures forall e | e in PathFor(out, st, id, digest) :: e in PeerFolder(out, st) || |e| <= MAX_NAME_BYTES
  {
    NamesShort(st, id, digest);
    PiecesShort(Names(st, id, digest), MAX_NAME_BYTES);
    CleanedFrom(Pieces(Names(st, id, digest)), PeerFolder(out, st));
  }

  // ------------------------------------------------- inside the peer's folder

  /** Where parts lead, from down below a folder left by ups levels: the levels left in the end, and the way down. */
  function Follow(parts: seq<string>, ups: nat, down: Path): (nat, Path) {
    if parts == [] then (ups, down)
    else if parts[0] == "" || parts[0] == "." then Follow(parts[1..], ups, down)
    else if parts[0] != ".." then Follow(parts[1..], ups, down + [parts[0]])
    else if down != [] then Follow(parts[1..], ups, down[..|down| - 1])
    else Follow(parts[1..], ups + 1, down)
  }

  /** The folder some levels up; the root has none above. */
  function Above(base: Path, ups: nat): Path {
    base[..if ups <= |base| then |base| - ups else 0]
  }

  /** Joining parts onto any folder is leaving it by some levels, and then going down. */
  lemma {:induction false} FollowCleans(base: Path, parts: seq<string>, ups: nat, down: Path)
    requires AllPlain(base) && AllPlain(down) && forall i | 0 <= i < |parts| :: '/' !in parts[i]
    ensures var (u, d) := Follow(parts, ups, down);
            CleanElements(parts, true, Above(base, ups) + down) == Above(base, u) + d
    decreases |parts|
  {
    if parts != [] {
      var rest, p := parts[1..], Above(base, ups) + down;
      if parts[0] == "" || parts[0] == "." {
        FollowCleans(base, rest, ups, down);
      } else if parts[0] != ".." {
        assert p + [parts[0]] == Above(base, ups) + (down + [parts[0]]);
        FollowCleans(base, rest, ups, down + [parts[0]]);
      } else if down != [] {
        assert p[|p| - 1] == down[|down| - 1] && p[..|p| - 1] == Above(base, ups) + down[..|down| - 1];
        FollowCleans(base, rest, ups, down[..|down| - 1]);
      } else {
        UpAgain(base, ups);
        assert p == Above(base, ups);
        FollowCleans(base, rest, ups + 1, []);
        assert Above(base, ups + 1) + [] == Above(base, ups + 1);
      }
    }
  }

  lemma UpAgain(base: Path, ups: nat)
    requires AllPlain(base)
    ensures var p := Above(base, ups);
            Above(base, ups + 1) == (if p == [] then p else p[..|p| - 1]) && (p != [] ==> p[|p| - 1] != "..")
  {
  }

  /** A plain last part is where the way ends. */
  lemma {:induction false} FollowEnds(parts: seq<string>, ups: nat, down: Path)
    requires parts != [] && Plain(parts[|parts| - 1])
    ensures var (u, d) := Follow(parts, ups, down); d != [] && Last(d) == parts[|parts| - 1]
    decreases |parts|
  {
    if |parts| > 1 {
      FollowEnds(parts[1..], if parts[0] == ".." && down == [] then ups + 1 else ups,
                 if parts[0] == "" || parts[0] == "." then down
                 else if parts[0] != ".." then down + [parts[0]]
                 else if down != [] then down[..|down| - 1] else down);
    }
  }

  lemma {:induction false} NoUps(parts: seq<string>, ups: nat, down: Path)
    requires ".." !in parts
    ensures Follow(parts, ups, down).0 == ups
    decreases |parts|
  {
    if parts != [] {
      NoUps(parts[1..], ups, if parts[0] == "" || parts[0] == "." then down else down + [parts[0]]);
    }
  }

  lemma JoinedFollows(folder: Path, names: seq<string>)
    requires AllPlain(folder)
    ensures var (u, d) := Follow(Pieces(names), 0, []);
            Joined(folder, names) == Above(folder, u) + d
  {
    NoSlashInPieces(names);
    FollowCleans(folder, Pieces(names), 0, []);
    assert Above(folder, 0) + [] == folder;
  }

  /** The row's names, followed from the peer's folder, never step above it. */
  predicate StaysBelow(st: ItemState, id: string, digest: string -> Hex8) {
    Plain(Sanitize(st.peerID)) && Follow(Pieces(Names(st, id, digest)), 0, []).0 == 0
  }

  /** The names lead out of folder, if at all, and back in through the same levels. */
  predicate ComesBack(folder: Path, names: seq<string>) {
    var (u, d) := Follow(Pieces(names), 0, []);
    var n := if u <= |folder| then u else |folder|;
    n < |d| && d[..n] == folder[|folder| - n..]
  }

  /** A row's file is inside its peer's folder exactly if its names do not leave that folder for good. */
  lemma InPeerFolderExactly(out: Root, st: ItemState, id: string, digest: string -> Hex8)
    ensures PeerFolder(out, st) < PathFor(out, st, id, digest) <==>
            ComesBack(PeerFolder(out, st), Names(st, id, digest))
  {
    PeerFolderIsPlain(out, st);
    InsideExactly(PeerFolder(out, st), Names(st, id, digest));
  }

  lemma InsideExactly(folder: Path, names: seq<string>)
    requires AllPlain(folder)
    ensures folder < Joined(folder, names) <==> ComesBack(folder, names)
  {
    JoinedFollows(folder, names);
    var (u, d) := Follow(Pieces(names), 0, []);
    BackThrough(folder, if u <= |folder| then u else |folder|, d);
  }

  lemma BackThrough(folder: Path, n: nat, d: Path)
    requires n <= |folder|
    ensures folder < folder[..|folder| - n] + d <==> n < |d| && d[..n] == folder[|folder| - n..]
  {
    var p, m := folder[..|folder| - n] + d, |folder| - n;
    assert p[..m] == folder[..m] && p[m..] == d && folder == folder[..m] + folder[m..];
    if n < |d| && d[..n] == folder[m..] {
      assert p[..|folder|] == folder[..m] + d[..n];
    }
  }

  lemma PeerFolderIsPlain(out: Root, st: ItemState)
    ensures AllPlain(PeerFolder(out, st))
  {
    NoSlashInPieces([MediaRoot(st.mediaType), Sanitize(st.peerID)]);
    CleanedIsPlain(Pieces([MediaRoot(st.mediaType), Sanitize(st.peerID)]), out);
  }

  /** In particular it is for names that stay below, and then inside movies/ or series/. */
  lemma InPeerFolder(out: Root, st: ItemState, id: string, digest: string -> Hex8)
    requires StaysBelow(st, id, digest)
    ensures PeerFolder(out, st) == out + [MediaRoot(st.mediaType), Sanitize(st.peerID)]
    ensures PeerFolder(out, st) < PathFor(out, st, id, digest)
  {
    PeerFolderPlain(out, st);
    FileNameEnds(st, id, digest);
    NamesEnd(st, id, digest);
    InFolder(PeerFolder(out, st), Names(st, id, digest));
  }

  lemma InFolder(folder: Path, names: seq<string>)
    requires AllPlain(folder) && names != [] && HasSuffix(Last(names), ".strm") && Follow(Pieces(names), 0, []).0 == 0
    ensures folder < Joined(folder, names)
  {
    JoinedFollows(folder, names);
    PiecesEnd(names);
    EndPlain(Last(names));
    FollowEnds(Pieces(names), 0, []);
    BackThrough(folder, 0, Follow(Pieces(names), 0, []).1);
  }

  lemma EndPlain(f: string)
    requires HasSuffix(f, ".strm")
    ensures var e := Last(Split(f, '/')); Plain(e) && HasSuffix(e, ".strm") && '/' !in e
  {
    LastPart(f[..|f| - 5], ".strm");
    assert f == f[..|f| - 5] + ".strm";
    StrmIsPlain(Last(Split(f, '/')));
  }

  /** In particular a row whose id suffixes hold no slash stays below. */
  lemma SlashlessStaysBelow(st: ItemState, id: string, digest: string -> Hex8)
    requires Slashless(st, id, digest) && Plain(Sanitize(st.peerID))
    ensures StaysBelow(st, id, digest)
  {
    PlainNames(st, id, digest);
    PlainPieces(Names(st, id, digest));
    NoUps(Pieces(Names(st, id, digest)), 0, []);
  }

  // -------------------------------------------------------- telling ids apart

  /** Every part of an id suffix between two slashes is a plain name. */
  predicate Tidy(d: string) {
    var parts := Split(d, '/');
    forall i | 0 < i < |parts| - 1 :: Plain(parts[i])
  }

  /** Joining a name with a tidy suffix drops nothing of it. */
  lemma TidyParts(name: string, front: string, d: string, back: string)
    requires Bracketed(name, front, d, back) && Tidy(d)
    ensures AllPlain(Split(name, '/'))
  {
    var mid, parts := Split(d, '/'), Split(name, '/');
    SplitFirst(front, d, '/');
    SplitLast(front + d, back, '/');
    SplitParts(name, '/');
    forall i | 0 <= i < |parts| ensures Plain(parts[i]) {
      if i == 0 {
        var k :| 0 <= k < |front| && front[k] == '[';
        assert parts[0][k] == '[';
      } else if i == |parts| - 1 {
        var k :| 0 <= k < |back| && back[k] == ']';
        assert parts[i] == mid[i] + back && parts[i][|mid[i]| + k] == ']';
      } else {
        assert parts[i] == mid[i];
      }
    }
  }

  /** So the joined path, spelled out, still ends with the whole file name. */
  lemma JoinedKeepsFile(out: Path, st: ItemState, id: string, digest: string -> Hex8)
    requires Tidy(Disambiguator(id, digest))
    ensures EndsWithID(Join(PathFor(out, st, id, digest), "/"), Disambiguator(id, digest))
  {
    var front := FileBracketed(st, id, digest);
    TidyParts(FileName(st, id, digest), front, Disambiguator(id, digest), "].strm");
    FileEnd(st, id, digest);
    NamesEnd(st, id, digest);
    JoinedKeeps(PeerFolder(out, st), Names(st, id, digest), Disambiguator(id, digest));
  }

  lemma JoinedKeeps(base: Path, names: seq<string>, d: string)
    requires names != [] && AllPlain(Split(Last(names), '/')) && EndsWithID(Last(names), d)
    ensures EndsWithID(Join(Joined(base, names), "/"), d)
  {
    var front, f := names[..|names| - 1], Last(names);
    assert names == front + [f];
    PiecesAppend(front, [f]);
    assert Pieces([f]) == Split(f, '/') + Pieces([f][1..]) == Split(f, '/');
    CleanAppend(Pieces(front), Split(f, '/'), base);
    CleanPlain(Split(f, '/'), Joined(base, front));
    SpelledOut(Joined(base, front), f, d);
  }

  lemma SpelledOut(folder: Path, f: string, d: string)
    requires EndsWithID(f, d)
    ensures EndsWithID(Join(folder + Split(f, '/'), "/"), d)
  {
    SplitJoin(f, '/');
    if folder == [] {
      assert folder + Split(f, '/') == Split(f, '/');
    } else {
      JoinConcat(folder, Split(f, '/'), "/");
      EndAfter(Join(folder, "/") + "/", f, d);
    }
  }

  lemma EndAfter(front: string, f: string, d: string)
    requires EndsWithID(f, d)
    ensures EndsWithID(front + f, d)
  {
    var k, g := |f| - 6 - |d|, front + f;
    assert g[|front| + k..|g| - 6] == f[k..|f| - 6] && g[|g| - 6..] == f[|f| - 6..];
    assert g[|front| + k - 2..|front| + k] == f[k - 2..k];
  }

  /**
    Two items whose id suffixes differ, are tidy and hold no bracket never share a path, whatever
    the output folder.
   */
  lemma DistinctSuffixesDistinctPaths(
    out1: Path, st1: ItemState, id1: string, out2: Path, st2: ItemState, id2: string, digest: string -> Hex8)
    requires Disambiguator(id1, digest) != Disambiguator(id2, digest)
    requires '[' !in Disambiguator(id1, digest) && '[' !in Disambiguator(id2, digest)
    requires Tidy(Disambiguator(id1, digest)) && Tidy(Disambiguator(id2, digest))
    ensures PathFor(out1, st1, id1, digest) != PathFor(out2, st2, id2, digest)
  {
    JoinedKeepsFile(out1, st1, id1, digest);
    JoinedKeepsFile(out2, st2, id2, digest);
    SuffixTellsApart(Join(PathFor(out1, st1, id1, digest), "/"), Join(PathFor(out2, st2, id2, digest), "/"),
                     Disambiguator(id1, digest), Disambiguator(id2, digest));
  }

  /** An id suffix without a slash is tidy. */
  lemma SlashlessIsTidy(d: string)
    requires '/' !in d
    ensures Tidy(d)
  {
    SplitParts(d, '/');
  }

  // ---------------------------------------------------- ids that share a place

  /** Ids with one suffix give one path. */
  lemma SameSuffixSamePath(out: Path, st: ItemState, a: string, b: string, digest: string -> Hex8)
    requires Disambiguator(a, digest) == Disambiguator(b, digest)
    ensures PathFor(out, st, a, digest) == PathFor(out, st, b, digest)
  {
    SameSuffixSameNames(st, a, b, digest);
  }

  lemma SameSuffixSameNames(st: ItemState, a: string, b: string, digest: string -> Hex8)
    requires Disambiguator(a, digest) == Disambiguator(b, digest)
    ensures Names(st, a, digest) == Names(st, b, digest)
  {
    SameEpisodeFile(st, a, b, digest);
    SameItemDir(st.name, a, b, digest);
  }

  lemma SameEpisodeFile(st: ItemState, a: string, b: string, digest: string -> Hex8)
    requires Disambiguator(a, digest) == Disambiguator(b, digest)
    ensures EpisodeFile(st, a, digest) == EpisodeFile(st, b, digest)
  {
    assert Budget(st.seasonNumber, st.episodeNumber, a, digest) == Budget(st.seasonNumber, st.episodeNumber, b, digest);
  }

  lemma SameItemDir(name: string, a: string, b: string, digest: string -> Hex8)
    requires Disambiguator(a, digest) == Disambiguator(b, digest)
    ensures ItemDir(name, a, digest) == ItemDir(name, b, digest)
  {
    assert Suffix(a, digest) == Suffix(b, digest);
  }

  /** For anything but a grouped episode the path depends on its kind, its peer, its name and its suffix only. */
  lemma SameNameSamePath(out: Path, st: ItemState, a: string, st': ItemState, b: string, digest: string -> Hex8)
    requires !IsGroupedEpisode(st) && !IsGroupedEpisode(st')
    requires st'.mediaType == st.mediaType && st'.peerID == st.peerID && st'.name == st.name
    requires Disambiguator(a, digest) == Disambiguator(b, digest)
    ensures PathFor(out, st, a, digest) == PathFor(out, st', b, digest)
  {
    SameItemDir(st.name, a, b, digest);
    MovieNames(st, a, digest);
    MovieNames(st', b, digest);
  }

  /** Titles hashed to ids that share eight digits have one suffix. */
  lemma TitleHashSuffix(hash: string, rest: string, digest: string -> Hex8)
    requires |hash| == 8
    ensures Disambiguator("titleyear:" + (hash + rest), digest) == "id-" + hash
  {
    assert "titleyear:" + (hash + rest) == "titleyear" + ":" + (hash + rest);
    CutAt("titleyear", hash + rest);
    assert rest != "" ==> (hash + rest)[..8] == hash;
    assert rest == "" ==> hash + rest == hash;
  }

  // ---------------------------------------------------- ids that go elsewhere

  lemma Pair(a: string, b: string)
    ensures Pieces([a, b]) == Split(a, '/') + Split(b, '/')
  {
    assert [a, b][1..] == [b] && [b][1..] == [];
    assert Pieces([b]) == Split(b, '/') + Pieces([]);
  }

  lemma ThreeParts(x: string, y: string, z: string)
    requires '/' !in x && '/' !in y && '/' !in z
    ensures Split(x + ['/'] + (y + ['/'] + z), '/') == [x, y, z]
  {
    SplitAround(x, '/', y + ['/'] + z);
    SplitAround(y, '/', z);
    SplitParts(x, '/');
    SplitParts(y, '/');
    SplitParts(z, '/');
  }

  /** A name around the id suffix a/../y, part by part. */
  lemma UpParts(front: string, a: string, back: string)
    requires '/' !in front && '/' !in a && '/' !in back
    ensures Split(front + (a + "/../y") + back, '/') == [front + a, "..", "y" + back]
  {
    ThreeParts(front + a, "..", "y" + back);
    assert "/../y" == ['/'] + (".." + ['/'] + "y");
    Regroup(front, a, "..", "y", back);
  }

  lemma Regroup(front: string, a: string, b: string, c: string, back: string)
    ensures front + (a + (['/'] + (b + ['/'] + c))) + back == front + a + ['/'] + (b + ['/'] + (c + back))
  {
  }

  /** The id tmdb:a/../y. */
  function UpID(a: string): string {
    "tmdb:" + (a + "/../y")
  }

  lemma UpIDPath(out: Root, st: ItemState, a: string, digest: string -> Hex8)
    requires !IsGroupedEpisode(st) && |a| == 1 && a[0] != '/'
    ensures Disambiguator(UpID(a), digest) == "tmdbid-" + a + "/../y"
    ensures PathFor(out, st, UpID(a), digest) == PeerFolder(out, st) + ["y]", "y].strm"]
  {
    TmdbSuffix(a + "/../y", digest);
    assert "tmdbid-" + (a + "/../y") == "tmdbid-" + a + "/../y";
    UpPath(out, st, UpID(a), "tmdbid-" + a, digest);
  }

  /**
    Ids whose suffixes differ and hold no bracket, and yet one path for any movie: joining
    cleans away what precedes the "..".
   */
  lemma UntidySuffixesCollide(out: Root, st: ItemState, a: string, b: string, digest: string -> Hex8)
    requires !IsGroupedEpisode(st) && |a| == |b| == 1 && a[0] != '/' && b[0] != '/' && a != b
    ensures Disambiguator(UpID(a), digest) != Disambiguator(UpID(b), digest)
    ensures PathFor(out, st, UpID(a), digest) == PathFor(out, st, UpID(b), digest)
  {
    UpIDPath(out, st, a, digest);
    UpIDPath(out, st, b, digest);
    UpDiffers(a, b);
  }

  lemma UpDiffers(a: string, b: string)
    requires |a| == |b| == 1 && a != b
    ensures "tmdbid-" + a + "/../y" != "tmdbid-" + b + "/../y"
  {
    var x, y := "tmdbid-" + a + "/../y", "tmdbid-" + b + "/../y";
    assert x[7] == a[0] && y[7] == b[0];
  }

  /** A name around the id suffix of an id tmdb:/../../x, part by part: two levels up. */
  lemma TwoUps(front: string, back: string)
    requires '/' !in front && '/' !in back
    ensures Split(front + "tmdbid-/../../x" + back, '/') == [front + "tmdbid-", "..", "..", "x" + back]
  {
    var e, rest := front + "tmdbid-", "x" + back;
    SplitAround(e, '/', ".." + ['/'] + (".." + ['/'] + rest));
    ThreeParts("..", "..", rest);
    SplitParts(e, '/');
    TwoUpsText(front, back);
  }

  lemma TwoUpsText(front: string, back: string)
    ensures front + "tmdbid-/../../x" + back ==
            (front + "tmdbid-") + ['/'] + (".." + ['/'] + (".." + ['/'] + ("x" + back)))
  {
    assert "tmdbid-/../../x" == "tmdbid-" + ['/'] + (".." + ['/'] + (".." + ['/'] + "x"));
  }

  /** And around that of tmdb:/../../../x: three. */
  lemma ThreeUps(front: string, back: string)
    requires '/' !in front && '/' !in back
    ensures Split(front + "tmdbid-/../../../x" + back, '/') == [front + "tmdbid-", "..", "..", "..", "x" + back]
  {
    var e, rest := front + "tmdbid-", "x" + back;
    SplitAround(e, '/', ".." + ['/'] + (".." + ['/'] + (".." + ['/'] + rest)));
    SplitAround("..", '/', ".." + ['/'] + (".." + ['/'] + rest));
    ThreeParts("..", "..", rest);
    SplitParts(e, '/');
    SplitParts("..", '/');
    ThreeUpsText(front, back);
  }

  lemma ThreeUpsText(front: string, back: string)
    ensures front + "tmdbid-/../../../x" + back ==
            (front + "tmdbid-") + ['/'] + (".." + ['/'] + (".." + ['/'] + (".." + ['/'] + ("x" + back))))
  {
    assert "tmdbid-/../../../x" == "tmdbid-" + ['/'] + (".." + ['/'] + (".." + ['/'] + (".." + ['/'] + "x")));
  }

  lemma FollowPush(e: string, rest: seq<string>, ups: nat, down: Path)
    requires Plain(e)
    ensures Follow([e] + rest, ups, down) == Follow(rest, ups, down + [e])
  {
    assert ([e] + rest)[1..] == rest;
  }

  lemma FollowUp(rest: seq<string>, ups: nat, down: Path)
    ensures Follow([".."] + rest, ups, down) ==
            if down == [] then Follow(rest, ups + 1, []) else Follow(rest, ups, down[..|down| - 1])
  {
    assert ([".."] + rest)[1..] == rest;
  }

  /** Down, twice up, and down. */
  lemma FollowTwo(e: string, last: string, rest: seq<string>, ups: nat, down: Path)
    requires Plain(e) && Plain(last) && |down| <= 1
    ensures Follow([e, "..", "..", last] + rest, ups, down) ==
            Follow(rest, if down == [] then ups + 1 else ups, [last])
  {
    assert [e, "..", "..", last] + rest == [e] + ([".."] + ([".."] + ([last] + rest)));
    FollowPush(e, [".."] + ([".."] + ([last] + rest)), ups, down);
    FollowUp([".."] + ([last] + rest), ups, down + [e]);
    assert (down + [e])[..|down|] == down;
    FollowUp([last] + rest, ups, down);
    assert down != [] ==> down[..|down| - 1] == [];
    FollowPush(last, rest, if down == [] then ups + 1 else ups, []);
    assert [] + [last] == [last];
  }

  /** Down, three times up, and down. */
  lemma FollowThree(e: string, last: string, rest: seq<string>, ups: nat, down: Path)
    requires Plain(e) && Plain(last) && |down| <= 1
    ensures Follow([e, "..", "..", "..", last] + rest, ups, down) ==
            Follow(rest, if down == [] then ups + 2 else ups + 1, [last])
  {
    assert [e, "..", "..", "..", last] + rest == [e] + ([".."] + (["..", "..", last] + rest));
    FollowPush(e, [".."] + (["..", "..", last] + rest), ups, down);
    FollowUp(["..", "..", last] + rest, ups, down + [e]);
    assert (down + [e])[..|down|] == down;
    assert ["..", "..", last] + rest == [".."] + ([".."] + ([last] + rest));
    FollowUp([".."] + ([last] + rest), ups, down);
    assert down != [] ==> down[..|down| - 1] == [];
    FollowUp([last] + rest, if down == [] then ups + 1 else ups, []);
    FollowPush(last, rest, if down == [] then ups + 2 else ups + 1, []);
    assert [] + [last] == [last];
  }

  lemma TwoLevels(front: string, dir: string, file: string)
    requires Bracketed(dir, front, "tmdbid-/../../x", "]") && Bracketed(file, front, "tmdbid-/../../x", "].strm")
    ensures Follow(Pieces([dir, file]), 0, []) == (1, ["x].strm"])
  {
    TwoUps(front, "]");
    TwoUps(front, "].strm");
    BracketInFront(front, "tmdbid-");
    Pair(dir, file);
    assert "x" + "]" == "x]" && "x" + "].strm" == "x].strm";
    var e := front + "tmdbid-";
    FollowTwo(e, "x]", [e, "..", "..", "x].strm"], 0, []);
    FollowTwo(e, "x].strm", [], 1, ["x]"]);
    assert [e, "..", "..", "x].strm"] + [] == [e, "..", "..", "x].strm"];
  }

  lemma ThreeLevels(front: string, dir: string, file: string)
    requires Bracketed(dir, front, "tmdbid-/../../../x", "]") && Bracketed(file, front, "tmdbid-/../../../x", "].strm")
    ensures Follow(Pieces([dir, file]), 0, []) == (3, ["x].strm"])
  {
    ThreeUps(front, "]");
    ThreeUps(front, "].strm");
    BracketInFront(front, "tmdbid-");
    Pair(dir, file);
    assert "x" + "]" == "x]" && "x" + "].strm" == "x].strm";
    var e := front + "tmdbid-";
    FollowThree(e, "x]", [e, "..", "..", "..", "x].strm"], 0, []);
    FollowThree(e, "x].strm", [], 2, ["x]"]);
    assert [e, "..", "..", "..", "x].strm"] + [] == [e, "..", "..", "..", "x].strm"];
  }

  /** An id with which every movie's path leaves its peer's folder. */
  lemma ClimbingID(out: Root, st: ItemState, digest: string -> Hex8)
    requires !IsGroupedEpisode(st)
    ensures PathFor(out, st, "tmdb:/../../x", digest) == Above(PeerFolder(out, st), 1) + ["x].strm"]
    ensures PeerFolder(out, st) != [] ==> !(PeerFolder(out, st) < PathFor(out, st, "tmdb:/../../x", digest))
  {
    ClimbingSuffix(digest);
    ClimbingNames(st, "tmdb:/../../x", digest);
    PeerFolderIsPlain(out, st);
    LeadsTo(PeerFolder(out, st), Names(st, "tmdb:/../../x", digest), 1, ["x].strm"]);
  }

  lemma ClimbingSuffix(digest: string -> Hex8)
    ensures Disambiguator("tmdb:/../../x", digest) == "tmdbid-/../../x"
  {
    TmdbSuffix("/../../x", digest);
    assert "tmdb:" + "/../../x" == "tmdb:/../../x" && "tmdbid-" + "/../../x" == "tmdbid-/../../x";
  }

  lemma OutsideSuffix(digest: string -> Hex8)
    ensures Disambiguator("tmdb:/../../../x", digest) == "tmdbid-/../../../x"
  {
    TmdbSuffix("/../../../x", digest);
    assert "tmdb:" + "/../../../x" == "tmdb:/../../../x" && "tmdbid-" + "/../../../x" == "tmdbid-/../../../x";
  }

  lemma ClimbingNames(st: ItemState, id: string, digest: string -> Hex8)
    requires !IsGroupedEpisode(st) && Disambiguator(id, digest) == "tmdbid-/../../x"
    ensures Follow(Pieces(Names(st, id, digest)), 0, []) == (1, ["x].strm"])
  {
    var front := ItemDirBracketed(st.name, id, digest);
    MovieNames(st, id, digest);
    TwoLevels(front, ItemDir(st.name, id, digest), ItemDir(st.name, id, digest) + ".strm");
  }

  /** Names that lead up more levels than they come down end outside the folder. */
  lemma LeadsTo(folder: Path, names: seq<string>, u: nat, d: Path)
    requires AllPlain(folder) && Follow(Pieces(names), 0, []) == (u, d)
    ensures Joined(folder, names) == Above(folder, u) + d
    ensures u <= |folder| && |d| <= u ==> !(folder < Joined(folder, names))
  {
    JoinedFollows(folder, names);
    if u <= |folder| {
      BackThrough(folder, u, d);
    }
  }

  /** An id with which every movie's path leaves the output folder. */
  lemma OutsideID(out: Root, st: ItemState, digest: string -> Hex8)
    requires !IsGroupedEpisode(st) && Plain(Sanitize(st.peerID))
    ensures PathFor(out, st, "tmdb:/../../../x", digest) == Above(out, 1) + ["x].strm"]
  {
    OutsideSuffix(digest);
    OutsideNames(st, "tmdb:/../../../x", digest);
    PeerFolderPlain(out, st);
    LeadsTo(PeerFolder(out, st), Names(st, "tmdb:/../../../x", digest), 3, ["x].strm"]);
    assert Above(PeerFolder(out, st), 3) == Above(out, 1);
  }

  lemma OutsideNames(st: ItemState, id: string, digest: string -> Hex8)
    requires !IsGroupedEpisode(st) && Disambiguator(id, digest) == "tmdbid-/../../../x"
    ensures Follow(Pieces(Names(st, id, digest)), 0, []) == (3, ["x].strm"])
  {
    var front := ItemDirBracketed(st.name, id, digest);
    MovieNames(st, id, digest);
    ThreeLevels(front, ItemDir(st.name, id, digest), ItemDir(st.name, id, digest) + ".strm");
  }

  lemma {:induction false} CutAt(kind: string, x: string)
    requires ':' !in kind
    ensures Cut(kind + ":" + x) == (kind, x)
  {
    var s := kind + ":" + x;
    if kind == "" {
      assert s[0] == ':' && s[1..] == x;
    } else {
      CutAt(kind[1..], x);
      assert s[0] == kind[0] && s[1..] == kind[1..] + ":" + x;
      assert [kind[0]] + kind[1..] == kind;
    }
  }

  lemma TmdbSuffix(x: string, digest: string -> Hex8)
    requires |x| <= 50
    ensures Disambiguator("tmdb:" + x, digest) == "tmdbid-" + x
  {
    assert "tmdb:" + x == "tmdb" + ":" + x;
    CutAt("tmdb", x);
  }

  lemma MovieNames(st: ItemState, id: string, digest: string -> Hex8)
    requires !IsGroupedEpisode(st)
    ensures Names(st, id, digest) == [ItemDir(st.name, id, digest), ItemDir(st.name, id, digest) + ".strm"]
  {
  }

  lemma UpPath(out: Root, st: ItemState, id: string, a: string, digest: string -> Hex8)
    requires !IsGroupedEpisode(st) && Disambiguator(id, digest) == a + "/../y" && '/' !in a
    ensures PathFor(out, st, id, digest) == PeerFolder(out, st) + ["y]", "y].strm"]
  {
    var front := ItemDirBracketed(st.name, id, digest);
    MovieNames(st, id, digest);
    UpNames(PeerFolder(out, st), front, a, ItemDir(st.name, id, digest), ItemDir(st.name, id, digest) + ".strm");
  }

  lemma UpNames(base: Path, front: string, a: string, dir: string, file: string)
    requires Bracketed(dir, front, a + "/../y", "]") && Bracketed(file, front, a + "/../y", "].strm") && '/' !in a
    ensures Joined(base, [dir, file]) == base + ["y]", "y].strm"]
  {
    UpParts(front, a, "]");
    UpParts(front, a, "].strm");
    assert "y" + "]" == "y]" && "y" + "].strm" == "y].strm";
    BracketInFront(front, a);
    Pair(dir, file);
    UpTwice(base, front + a);
  }

  lemma BracketInFront(front: string, a: string)
    requires '[' in front && '/' !in front && '/' !in a
    ensures Plain(front + a)
  {
    var i :| 0 <= i < |front| && front[i] == '[';
    assert (front + a)[i] == '[';
  }

  lemma UpTwice(base: Path, e: string)
    requires Plain(e)
    ensures CleanElements([e, "..", "y]"] + [e, "..", "y].strm"], true, base) == base + ["y]", "y].strm"]
  {
    CleanAppend([e, "..", "y]"], [e, "..", "y].strm"], base);
    UpOnce(base, e, "y]");
    UpOnce(base + ["y]"], e, "y].strm");
    assert base + ["y]"] + ["y].strm"] == base + ["y]", "y].strm"];
  }

  lemma UpOnce(base: Path, e: string, last: string)
    requires Plain(e) && Plain(last)
    ensures CleanElements([e, "..", last], true, base) == base + [last]
  {
    assert [e, "..", last][1..] == ["..", last] && ["..", last][1..] == [last] && [last][1..] == [];
    assert (base + [e])[..|base|] == base;
    assert CleanElements(["..", last], true, base + [e]) == CleanElements([last], true, base);
    assert CleanElements([last], true, base) == CleanElements([], true, base + [last]) == base + [last];
  }
}

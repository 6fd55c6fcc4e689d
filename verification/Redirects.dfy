/**
  Which listed items are taken for jellysync's own redirects, by extension or by where they
  lie, and what is kept of the others (internal/catalog/catalog.go).
 */
module Redirects {
  import opened Bytes
  import opened Entries
  import opened Listing

  // ------------------------------------------------------------ by extension

  lemma {:induction false} ExtAfterDot(front: string, ext: string)
    requires '.' !in ext && '/' !in ext
    ensures Ext(front + "." + ext) == "." + ext
  {
    var path := front + "." + ext;
    if ext == "" {
      assert path == front + ".";
    } else {
      var n := |ext| - 1;
      ExtAfterDot(front, ext[..n]);
      assert path[..|path| - 1] == front + "." + ext[..n];
      assert path[|path| - 1] == ext[n] && ext == ext[..n] + [ext[n]];
    }
  }

  lemma StrmExtension(path: string)
    requires HasSuffix(path, ".strm")
    ensures Ext(path) == ".strm"
  {
    var front := path[..|path| - 5];
    ExtAfterDot(front, "strm");
    assert path == front + ".strm" && front + ".strm" == front + "." + "strm";
  }

  /** The extension is .strm in upper and lower case letters, or with the long s, which folds to one. */
  lemma StrmFoldsExactly(ext: string)
    ensures FoldsToStrm(ext) <==>
              || SameLetters(ext, ".strm")
              || (|ext| == 6 && ext[..3] == ".\U{C5}\U{BF}" && SameLetters(ext[3..], "trm"))
  {
    EitherCase('s', "sS");
    EitherCase('t', "tT");
    EitherCase('r', "rR");
    EitherCase('m', "mM");
    if |ext| == 5 {
      assert SameLetters(ext, ".strm") <==>
             SameLetter(ext[0], '.') && SameLetter(ext[1], 's') && SameLetter(ext[2], 't') &&
             SameLetter(ext[3], 'r') && SameLetter(ext[4], 'm');
    }
    if |ext| == 6 {
      var rest := ext[3..];
      assert SameLetters(rest, "trm") <==>
             SameLetter(rest[0], 't') && SameLetter(rest[1], 'r') && SameLetter(rest[2], 'm');
      assert ext[..3] == [ext[0], ext[1], ext[2]];
    }
  }

  lemma EitherCase(d: char, both: string)
    requires 'a' <= d <= 'z' && both == [d, (d as int - 32) as char]
    ensures forall c :: c in both <==> SameLetter(c, d)
  {
  }

  // ------------------------------------------------------------- by location

  /** The elements of an absolute path, once cleaned. */
  function Cleaned(path: string): seq<string> {
    CleanElements(Split(path, '/'), true, [])
  }

  ghost predicate NoneSlashed(parts: seq<string>) {
    forall i | 0 <= i < |parts| :: '/' !in parts[i]
  }

  ghost predicate NoneEmpty(parts: seq<string>) {
    forall i | 0 <= i < |parts| :: parts[i] != ""
  }

  lemma {:induction false} CleanedHasNoSlash(parts: seq<string>, rooted: bool, done: seq<string>)
    requires NoneSlashed(parts) && NoneSlashed(done) && NoneEmpty(done)
    ensures NoneSlashed(CleanElements(parts, rooted, done)) && NoneEmpty(CleanElements(parts, rooted, done))
    decreases |parts|
  {
    if parts != [] {
      var rest := parts[1..];
      if parts[0] == "" || parts[0] == "." {
        CleanedHasNoSlash(rest, rooted, done);
      } else if parts[0] == ".." && done != [] && done[|done| - 1] != ".." {
        CleanedHasNoSlash(rest, rooted, done[..|done| - 1]);
      } else if parts[0] == ".." && rooted {
        CleanedHasNoSlash(rest, rooted, done);
      } else {
        CleanedHasNoSlash(rest, rooted, done + [parts[0]]);
      }
    }
  }

  lemma PartsNotSlashed(path: string)
    ensures NoneSlashed(Split(path, '/'))
  {
    SplitParts(path, '/');
  }

  lemma CleanParts(path: string)
    requires "/" <= path
    ensures Split(Clean(path), '/') == if Cleaned(path) == [] then ["", ""] else [""] + Cleaned(path)
  {
    var els := Cleaned(path);
    PartsNotSlashed(path);
    CleanedHasNoSlash(Split(path, '/'), true, []);
    assert Clean(path) == "" + ['/'] + Join(els, "/");
    SplitAround("", '/', Join(els, "/"));
    if els != [] {
      JoinSplit(els, '/');
    }
  }

  lemma CleanStaysRelative(path: string)
    requires !("/" <= path)
    ensures !("/" <= Clean(path))
  {
    var els := CleanElements(Split(path, '/'), false, []);
    PartsNotSlashed(path);
    CleanedHasNoSlash(Split(path, '/'), false, []);
    assert "" + Join(els, "/") == Join(els, "/");
    if els != [] {
      assert els[0] in els && els[0][0] in els[0];
      assert Join(els, "/")[0] == els[0][0] != '/';
      assert Clean(path) == Join(els, "/");
    } else {
      assert Clean(path) == "." && "."[0] != "/"[0];
    }
  }

  lemma PrefixWithSlash(a: string, b: string)
    ensures a + "/" <= b + "/" <==> b == a || a + "/" <= b
  {
    if a + "/" <= b + "/" {
      if |a| < |b| {
        assert a + "/" == (b + "/")[..|a| + 1] == b[..|a| + 1];
      } else {
        assert a == (a + "/")[..|b|] == (b + "/")[..|b|] == b;
      }
    }
  }

  /**
    An item is a redirect exactly if its extension says so, or it lies in the output folder: its path,
    cleaned, has the folder's elements first. The root as output folder would hold only itself.
   */
  lemma LocatedExactly(it: CatalogItem, strmDir: string)
    requires "/" <= strmDir
    ensures IsStrm(it, strmDir) <==>
              || FoldsToStrm(Ext(it.path))
              || ("/" <= it.path && if Cleaned(strmDir) == [] then Cleaned(it.path) == []
                                    else Cleaned(strmDir) <= Cleaned(it.path))
  {
    var d, p := Clean(strmDir), Clean(it.path);
    PrefixWithSlash(d, p);
    if "/" <= it.path {
      assert d + ['/'] == d + "/";
      UnderByParts(d, p, '/');
      PartsPrefix(strmDir, it.path);
    } else {
      CleanStaysRelative(it.path);
      assert "/" <= d;
    }
  }

  lemma PartsPrefix(dir: string, path: string)
    requires "/" <= dir && "/" <= path
    ensures Split(Clean(dir), '/') <= Split(Clean(path), '/') <==>
            if Cleaned(dir) == [] then Cleaned(path) == [] else Cleaned(dir) <= Cleaned(path)
  {
    CleanParts(dir);
    CleanParts(path);
    FirstNotEmpty(dir);
    FirstNotEmpty(path);
    FrontPrefix(Cleaned(dir), Cleaned(path));
  }

  lemma FirstNotEmpty(path: string)
    ensures Cleaned(path) != [] ==> Cleaned(path)[0] != ""
  {
    PartsNotSlashed(path);
    CleanedHasNoSlash(Split(path, '/'), true, []);
  }

  lemma FrontPrefix(a: seq<string>, b: seq<string>)
    ensures [""] + a <= [""] + b <==> a <= b
    ensures ["", ""] <= [""] + b <==> b != [] && b[0] == ""
    ensures [""] + a <= ["", ""] ==> a == [] || a[0] == ""
  {
    if [""] + a <= ["", ""] && a != [] {
      assert a[0] == ([""] + a)[1] == ["", ""][1];
    }
    if [""] + a <= [""] + b {
      assert a == ([""] + a)[1..] == ([""] + b)[1..][..|a|] == b[..|a|];
    }
    assert ([""] + b)[1..] == b;
    if ["", ""] <= [""] + b {
      assert ["", ""] == ([""] + b)[..2];
      assert b[0] == ([""] + b)[1] == ["", ""][1];
    }
  }

  /** Without an output folder only the extension counts. */
  lemma UnlocatedExactly(it: CatalogItem)
    ensures IsStrm(it, "") <==> FoldsToStrm(Ext(it.path))
  {
  }

  // ------------------------------------------------------------- what is kept

  /** e says of the item what the listing does, under the first of its ids. */
  predicate Describes(e: Entry, it: CatalogItem) {
    && e.itemID == it.itemID && e.name == it.name && e.year == it.year && e.mediaType == it.mediaType
    && e.path == it.path && e.tmdbID == it.tmdbID && e.tvdbID == it.tvdbID && e.imdbID == it.imdbID
    && e.seriesGlobalID == it.seriesGlobalID && e.seriesName == it.seriesName
    && e.seasonNumber == it.seasonNumber && e.episodeNumber == it.episodeNumber
    && (it.tmdbID != "" ==> e.globalID == "tmdb:" + it.tmdbID)
    && (it.tmdbID == "" && it.tvdbID != "" ==> e.globalID == "tvdb:" + it.tvdbID)
    && (it.tmdbID == "" && it.tvdbID == "" && it.imdbID != "" ==> e.globalID == "imdb:" + it.imdbID)
    && (it.tmdbID == "" && it.tvdbID == "" && it.imdbID == "" ==> e.globalID == "titleyear:" + it.titleYearHash)
  }

  /** Of the others only a series goes of which episodes are listed, and only redirects. */
  lemma RealExactly(items: seq<CatalogItem>, strmDir: string, it: CatalogItem)
    ensures Real(items, strmDir, it) <==>
              && !IsStrm(it, strmDir)
              && (it.mediaType == "series" ==>
                    || (forall e | e in items && e.mediaType == "episode" :: e.seriesGlobalID != it.GlobalID())
                    || (exists e :: e in items && e.mediaType == "episode" && e.seriesGlobalID == it.GlobalID() &&
                                    !IsStrm(e, strmDir)))
  {
    var id := it.GlobalID();
    if e :| e in items && e.mediaType == "episode" && e.seriesGlobalID == id {
      var i :| 0 <= i < |items| && items[i] == e;
      assert EpisodeOf(items[i], id);
    }
    if e :| e in items && e.mediaType == "episode" && e.seriesGlobalID == id && !IsStrm(e, strmDir) {
      var i :| 0 <= i < |items| && items[i] == e;
      assert EpisodeOf(items[i], id) && !IsStrm(items[i], strmDir);
    }
    if i :| 0 <= i < |items| && EpisodeOf(items[i], id) && !IsStrm(items[i], strmDir) {
      assert items[i] in items;
    }
    if i :| 0 <= i < |items| && EpisodeOf(items[i], id) {
      assert items[i] in items;
    }
  }

  /** Each entry offered describes a listed item that is no redirect. */
  lemma OfferedDescribes(items: seq<CatalogItem>, strmDir: string, n: nat, k: nat)
    requires n <= |items| && k < |RealEntries(items, strmDir, n)|
    ensures exists i ::
              0 <= i < n && Describes(RealEntries(items, strmDir, n)[k], items[i]) && !IsStrm(items[i], strmDir)
  {
    OfferedIsReal(items, strmDir, n, k);
    var i :| 0 <= i < n && Real(items, strmDir, items[i]) && RealEntries(items, strmDir, n)[k] == items[i].AsEntry();
    assert Describes(RealEntries(items, strmDir, n)[k], items[i]);
  }

  /** Two listed items are one exactly if the first kind of id either has is the same, and so is the id. */
  lemma SameItemExactly(a: CatalogItem, b: CatalogItem)
    ensures a.GlobalID() == b.GlobalID() <==>
              || (a.tmdbID != "" && b.tmdbID == a.tmdbID)
              || (a.tmdbID == b.tmdbID == "" && a.tvdbID != "" && b.tvdbID == a.tvdbID)
              || (a.tmdbID == b.tmdbID == "" && a.tvdbID == b.tvdbID == "" && a.imdbID != "" && b.imdbID == a.imdbID)
              || (a.tmdbID == b.tmdbID == "" && a.tvdbID == b.tvdbID == "" && a.imdbID == b.imdbID == "" &&
                  a.titleYearHash == b.titleYearHash)
  {
    KindAndID(a);
    KindAndID(b);
  }

  /** The id can be told from what its kind is. */
  lemma KindAndID(it: CatalogItem)
    ensures var g := it.GlobalID();
            && |g| >= 5
            && (it.tmdbID != "" ==> g[..2] == "tm" && g[5..] == it.tmdbID)
            && (it.tmdbID == "" && it.tvdbID != "" ==> g[..2] == "tv" && g[5..] == it.tvdbID)
            && (it.tmdbID == "" && it.tvdbID == "" && it.imdbID != "" ==> g[..2] == "im" && g[5..] == it.imdbID)
            && (it.tmdbID == "" && it.tvdbID == "" && it.imdbID == "" ==>
                  g[..2] == "ti" && |g| >= 10 && g[10..] == it.titleYearHash)
  {
  }
}

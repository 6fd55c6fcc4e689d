/** Folder exclusions (internal/catalog/folders.go). */
module Folders {
  import opened Bytes

  function Slashes(s: string): string {
    Replace(s, '\\', '/')
  }

  function StripSlashes(f: string): (r: string)
    ensures r <= f && (|r| > 1 ==> r[|r| - 1] != '/')
    ensures r == f <==> |f| <= 1 || f[|f| - 1] != '/'
    ensures forall i | |r| <= i < |f| :: f[i] == '/'
  {
    if |f| > 1 && f[|f| - 1] == '/' then StripSlashes(f[..|f| - 1]) else f
  }

  function Normalized(f: string): string {
    StripSlashes(Slashes(TrimSpace(f)))
  }

  method NormalizeFolder(f: string) returns (r: string)
    ensures r == Normalized(f)
  {
    r := Slashes(TrimSpace(f));
    while |r| > 1 && HasSuffix(r, "/")
      invariant StripSlashes(r) == Normalized(f)
      decreases |r|
    {
      r := r[..|r| - 1];
    }
  }

  /** path is folder itself or lies inside it. */
  predicate UnderFolder(path: string, folder: string) {
    if path == "" || folder == "" then false
    else if folder == "/" then "/" <= Slashes(path)
    else Slashes(path) == folder || folder + "/" <= Slashes(path)
  }

  predicate UnderAny(path: string, folders: seq<string>) {
    exists i :: 0 <= i < |folders| && UnderFolder(path, folders[i])
  }

  method UnderAnyFolder(path: string, folders: seq<string>) returns (r: bool)
    ensures r == UnderAny(path, folders)
  {
    for i := 0 to |folders|
      invariant forall k | 0 <= k < i :: !UnderFolder(path, folders[k])
    {
      if UnderFolder(path, folders[i]) {
        return true;
      }
    }
    return false;
  }

  /** The path elements of a slash-separated path. */
  function Elements(path: string): seq<string> {
    Split(path, '/')
  }

  /** For every folder but the root, lying under it is having its elements as first elements. */
  lemma UnderFolderIsElementPrefix(path: string, folder: string)
    requires folder != "" && folder != "/"
    ensures UnderFolder(path, folder) <==> Elements(folder) <= Elements(Slashes(path))
  {
    UnderByParts(folder, Slashes(path), '/');
    SplitParts(folder, '/');
  }

  /** The root holds exactly the paths that start with a slash or a backslash, and an empty folder nothing. */
  lemma UnderRoot(path: string)
    ensures UnderFolder(path, "/") <==> path != "" && (path[0] == '/' || path[0] == '\\')
    ensures !UnderFolder(path, "")
  {
    if path != "" {
      assert Slashes(path)[0] == (if path[0] == '\\' then '/' else path[0]);
      assert "/" <= Slashes(path) <==> Slashes(path)[0] == '/';
    }
  }

  /** A normalized folder has no backslash and, unless it is a single byte, no trailing slash. */
  lemma NormalizedShape(f: string)
    ensures var n := Normalized(f);
            && '\\' !in n
            && (|n| > 1 ==> n[|n| - 1] != '/')
  {
    var s := Slashes(TrimSpace(f));
    assert forall i | 0 <= i < |s| :: s[i] != '\\';
    assert Normalized(f) == s[..|Normalized(f)|];
  }

  /** Text that ends in white space, and then at least one slash to the end. */
  ghost predicate SpaceThenSlashes(t: string) {
    exists k :: 0 < k < |t| && SpaceBefore(t[..k]) > 0 && forall i | k <= i < |t| :: t[i] == '/'
  }

  /**
    Normalizing again changes the result exactly if the folder as given, trimmed, ends in white
    space and then slashes.
   */
  lemma NormalizeAgain(f: string)
    ensures Normalized(Normalized(f)) != Normalized(f) <==> SpaceThenSlashes(Slashes(TrimSpace(f)))
  {
    var t, n := Slashes(TrimSpace(f)), Normalized(f);
    NormalizedShape(f);
    NoLeadingSpace(f);
    SlashesKeepSpace(TrimSpace(f));
    SlashesKeep(n);
    assert n == t[..|n|];
    if SpaceBefore(n) > 0 {
      assert TrimSpace(n) != n && |Normalized(n)| < |n|;
      assert 0 < |n| < |t|;
    } else {
      assert TrimSpace(n) == n;
      if SpaceThenSlashes(t) {
        var k :| 0 < k < |t| && SpaceBefore(t[..k]) > 0 && forall i | k <= i < |t| :: t[i] == '/';
        StripsTo(t, k);
      }
    }
  }

  lemma SlashesKeepSpace(s: string)
    ensures SpaceAt(Slashes(s)) == SpaceAt(s) && SpaceBefore(Slashes(s)) == SpaceBefore(s)
  {
  }

  lemma SpaceOfPrefix(p: string, s: string)
    requires p <= s && SpaceAt(s) == 0
    ensures SpaceAt(p) == 0
  {
  }

  lemma NoLeadingSpace(f: string)
    ensures SpaceAt(Normalized(f)) == 0 && SpaceBefore(TrimSpace(f)) == 0
  {
    var l := TrimLeft(f);
    SpaceOfPrefix(TrimRight(l), l);
    SlashesKeepSpace(TrimSpace(f));
    SpaceOfPrefix(Normalized(f), Slashes(TrimSpace(f)));
  }

  /** Stripping slashes stops at white space. */
  lemma {:induction false} StripsTo(t: string, k: nat)
    requires 0 < k <= |t| && SpaceBefore(t[..k]) > 0 && forall i | k <= i < |t| :: t[i] == '/'
    ensures StripSlashes(t) == t[..k]
    decreases |t|
  {
    if k == |t| {
      assert t[..k] == t;
      SpaceIsNoSlash(t);
    } else {
      assert t[..|t| - 1][..k] == t[..k];
      StripsTo(t[..|t| - 1], k);
    }
  }

  lemma SpaceIsNoSlash(t: string)
    requires SpaceBefore(t) > 0
    ensures t != "" && t[|t| - 1] != '/'
  {
  }

  /** It may: a space before a trailing slash survives the first time and not the second. */
  lemma NormalizeTwiceDiffers()
    ensures Normalized("/a /") == "/a " && Normalized("/a ") != "/a "
  {
    var f := "/a /";
    assert f == ['/', 'a', ' ', '/'];
    SlashesKeep(f);
    assert SpaceAt(f) == 0 && SpaceBefore(f) == 0;
    assert TrimSpace(f) == f;
    assert f[..3] == "/a " && SpaceBefore("/a ") == 1;
    StripsTo(f, 3);
    NormalizeAgain(f);
  }

  lemma SlashesKeep(f: string)
    requires '\\' !in f
    ensures Slashes(f) == f
  {
  }
}

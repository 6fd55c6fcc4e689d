/** What a node's name keeps in its slug (slug, internal/peers/ids.go). */
module Slugs {
  import opened Bytes
  import opened Ids

  // ------------------------------------------------------- upper and lower case

  lemma SpacesAlike(a: string, b: string)
    requires SameLetters(a, b)
    ensures SpaceAt(a) == SpaceAt(b) && SpaceBefore(a) == SpaceBefore(b)
  {
    assert forall i | 0 <= i < |a| && (a[i] >= '\U{80}' || a[i] <= ' ') :: b[i] == a[i];
    assert forall i | 0 <= i < |a| && (b[i] >= '\U{80}' || b[i] <= ' ') :: b[i] == a[i];
  }

  lemma {:induction false} TrimLeftAlike(a: string, b: string)
    requires SameLetters(a, b)
    ensures SameLetters(TrimLeft(a), TrimLeft(b))
    decreases |a|
  {
    SpacesAlike(a, b);
    if SpaceAt(a) > 0 {
      TrimLeftAlike(a[SpaceAt(a)..], b[SpaceAt(a)..]);
    }
  }

  lemma {:induction false} TrimRightAlike(a: string, b: string)
    requires SameLetters(a, b)
    ensures SameLetters(TrimRight(a), TrimRight(b))
    decreases |a|
  {
    SpacesAlike(a, b);
    var n := |a| - SpaceBefore(a);
    if n < |a| {
      FrontAlike(a, b, n);
      TrimRightAlike(a[..n], b[..n]);
    }
  }

  lemma FrontAlike(a: string, b: string, n: nat)
    requires SameLetters(a, b) && n <= |a|
    ensures SameLetters(a[..n], b[..n])
  {
  }

  lemma {:induction false} LowerAlike(a: string, b: string)
    requires SameLetters(a, b)
    ensures Lower(a) == Lower(b)
    decreases |a|
  {
    if a != "" {
      PatternsAlike(a, b);
      LowerAlike(a[1..], b[1..]);
      if "\U{E2}\U{84}\U{AA}" <= a {
        LowerAlike(a[3..], b[3..]);
      } else if "\U{C4}\U{B0}" <= a {
        LowerAlike(a[2..], b[2..]);
      }
    }
  }

  lemma PatternsAlike(a: string, b: string)
    requires SameLetters(a, b)
    ensures "\U{E2}\U{84}\U{AA}" <= a <==> "\U{E2}\U{84}\U{AA}" <= b
    ensures "\U{C4}\U{B0}" <= a <==> "\U{C4}\U{B0}" <= b
  {
    assert forall i | 0 <= i < |a| && (a[i] >= '\U{80}' || b[i] >= '\U{80}') :: b[i] == a[i];
  }

  /** Names that differ in the case of ASCII letters only have one slug. */
  lemma SlugIgnoresCase(a: string, b: string)
    requires SameLetters(a, b)
    ensures Slug(a) == Slug(b)
  {
    TrimLeftAlike(a, b);
    TrimRightAlike(TrimLeft(a), TrimLeft(b));
    LowerAlike(TrimSpace(a), TrimSpace(b));
  }

  // ------------------------------------------------------- letters and digits

  predicate LetterOrDigit(c: char) {
    'a' <= c <= 'z' || '0' <= c <= '9'
  }

  function LetterDigit(c: char): string {
    if 'A' <= c <= 'Z' then [(c as int + 32) as char] else if LetterOrDigit(c) then [c] else ""
  }

  /** The ASCII letters of s, in lower case, and its digits, in order. */
  function LettersDigits(s: string): string {
    if s == "" then "" else LetterDigit(s[0]) + LettersDigits(s[1..])
  }

  /** The Kelvin sign and the dotted capital I lower to an ASCII letter. */
  lemma OddCapitalsLower(s: string)
    ensures Lower("\U{E2}\U{84}\U{AA}" + s) == "k" + Lower(s)
    ensures Lower("\U{C4}\U{B0}" + s) == "i" + Lower(s)
  {
    var k, i := "\U{E2}\U{84}\U{AA}" + s, "\U{C4}\U{B0}" + s;
    assert k[3..] == s && i[2..] == s && i[0] == '\U{C4}';
  }

  /** s holds neither of the two other capitals whose lower case is an ASCII letter. */
  ghost predicate NoOddCapital(s: string) {
    forall i | 0 <= i <= |s| :: !("\U{E2}\U{84}\U{AA}" <= s[i..]) && !("\U{C4}\U{B0}" <= s[i..])
  }

  lemma {:induction false} LettersJoin(a: string, b: string)
    ensures LettersDigits(a + b) == LettersDigits(a) + LettersDigits(b)
  {
    if a == "" {
      assert a + b == b;
    } else {
      var rest := a[1..];
      LettersJoin(rest, b);
      assert (a + b)[1..] == rest + b && (a + b)[0] == a[0];
      Associate(LetterDigit(a[0]), LettersDigits(rest), LettersDigits(b));
    }
  }

  lemma LettersParts(s: string, a: string, b: string)
    requires s == a + b
    ensures LettersDigits(s) == LettersDigits(a) + LettersDigits(b)
  {
    LettersJoin(a, b);
  }

  lemma {:induction false} NoLetters(s: string)
    requires forall i | 0 <= i < |s| :: !LetterOrDigit(s[i]) && !('A' <= s[i] <= 'Z')
    ensures LettersDigits(s) == ""
  {
    if s != "" {
      NoLetters(s[1..]);
    }
  }

  lemma SpaceHasNoLetters(s: string)
    ensures LettersDigits(s[..SpaceAt(s)]) == "" && LettersDigits(s[|s| - SpaceBefore(s)..]) == ""
  {
    NoLetters(s[..SpaceAt(s)]);
    NoLetters(s[|s| - SpaceBefore(s)..]);
  }

  lemma {:induction false} TrimLeftKeeps(s: string)
    ensures LettersDigits(TrimLeft(s)) == LettersDigits(s)
    decreases |s|
  {
    var n := SpaceAt(s);
    if n > 0 {
      SpaceHasNoLetters(s);
      LettersParts(s, s[..n], s[n..]);
      TrimLeftKeeps(s[n..]);
    }
  }

  lemma {:induction false} TrimRightKeeps(s: string)
    ensures LettersDigits(TrimRight(s)) == LettersDigits(s)
    decreases |s|
  {
    var n := |s| - SpaceBefore(s);
    if n < |s| {
      SpaceHasNoLetters(s);
      LettersParts(s, s[..n], s[n..]);
      TrimRightKeeps(s[..n]);
    }
  }

  lemma {:induction false} LowerKeeps(s: string)
    requires NoOddCapital(s)
    ensures LettersDigits(Lower(s)) == LettersDigits(s)
    ensures forall i | 0 <= i < |Lower(s)| :: !('A' <= Lower(s)[i] <= 'Z')
  {
    if s != "" {
      assert s[0..] == s;
      assert forall i | 0 <= i <= |s[1..]| :: s[1..][i..] == s[i + 1..];
      LowerKeeps(s[1..]);
      var c := if 'A' <= s[0] <= 'Z' then (s[0] as int + 32) as char else s[0];
      assert Lower(s) == [c] + Lower(s[1..]);
      LettersJoin([c], Lower(s[1..]));
      assert [c][1..] == "";
    }
  }

  lemma {:induction false} DashedKeeps(s: string, within: bool)
    requires forall i | 0 <= i < |s| :: !('A' <= s[i] <= 'Z')
    ensures LettersDigits(Dashed(s, within)) == LettersDigits(s)
  {
    if s != "" {
      DashedKeeps(s[1..], !SlugChar(s[0]));
      var front := if SlugChar(s[0]) then [s[0]] else if within then "" else "-";
      assert Dashed(s, within) == front + Dashed(s[1..], !SlugChar(s[0]));
      LettersJoin(front, Dashed(s[1..], !SlugChar(s[0])));
      assert front != "" ==> front[1..] == "";
    }
  }

  lemma {:induction false} EdgesLeftKeep(s: string)
    ensures LettersDigits(TrimEdgesLeft(s)) == LettersDigits(s)
  {
    if s != "" && Edge(s[0]) {
      EdgesLeftKeep(s[1..]);
    }
  }

  lemma {:induction false} EdgesRightKeep(s: string)
    ensures LettersDigits(TrimEdgesRight(s)) == LettersDigits(s)
  {
    var n := |s| - 1;
    if s != "" && Edge(s[n]) {
      EdgesRightKeep(s[..n]);
      LettersParts(s, s[..n], s[n..]);
      NoLetters(s[n..]);
    }
  }

  lemma BackHasNoOddCapital(s: string, k: nat)
    requires NoOddCapital(s) && k <= |s|
    ensures NoOddCapital(s[k..])
  {
    forall i | 0 <= i <= |s| - k ensures s[k..][i..] == s[i + k..] {
    }
  }

  lemma FrontHasNoOddCapital(s: string, k: nat)
    requires NoOddCapital(s) && k <= |s|
    ensures NoOddCapital(s[..k])
  {
    forall i | 0 <= i <= k ensures s[..k][i..] <= s[i..] {
    }
  }

  lemma TrimmedHasNoOddCapital(s: string)
    requires NoOddCapital(s)
    ensures NoOddCapital(TrimSpace(s))
  {
    var l := TrimLeft(s);
    BackHasNoOddCapital(s, |s| - |l|);
    assert s[|s| - |l|..] == l;
    var t := TrimRight(l);
    FrontHasNoOddCapital(l, |t|);
    assert l[..|t|] == t;
  }

  /** A slug has the name's ASCII letters, in lower case, and its digits, all of them and in order. */
  lemma SlugKeepsLetters(name: string)
    requires NoOddCapital(name)
    ensures LettersDigits(Slug(name)) == LettersDigits(name)
  {
    TrimLeftKeeps(name);
    TrimRightKeeps(TrimLeft(name));
    TrimmedHasNoOddCapital(name);
    var low := Lower(TrimSpace(name));
    LowerKeeps(TrimSpace(name));
    DashedKeeps(low, false);
    EdgesLeftKeep(Dashed(low, false));
    EdgesRightKeep(TrimEdgesLeft(Dashed(low, false)));
  }
}

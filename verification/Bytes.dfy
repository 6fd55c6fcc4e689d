/**
  Byte strings. A string is a sequence of bytes: every char
  stands for one byte (0..255). Only what the components below need.
 */
module Bytes {

  predicate HasSuffix(s: string, suffix: string) {
    |suffix| <= |s| && s[|s| - |suffix|..] == suffix
  }

  /** s cut at every sep; always at least one part. */
  function Split(s: string, sep: char): (parts: seq<string>)
    ensures |parts| > 0
  {
    if s == "" then [""]
    else if s[0] == sep then [""] + Split(s[1..], sep)
    else
      var rest := Split(s[1..], sep);
      [[s[0]] + rest[0]] + rest[1..]
  }

  function Join(parts: seq<string>, sep: string): string {
    if parts == [] then ""
    else if |parts| == 1 then parts[0]
    else parts[0] + sep + Join(parts[1..], sep)
  }

  /** The parts of a string, given those of all but its first byte. */
  function Consed(c: char, sep: char, parts: seq<string>): seq<string>
    requires parts != []
  {
    if c == sep then [""] + parts else [[c] + parts[0]] + parts[1..]
  }

  lemma SplitCons(c: char, s: string, sep: char)
    ensures Split([c] + s, sep) == Consed(c, sep, Split(s, sep))
  {
    assert ([c] + s)[1..] == s;
  }

  /** Cutting a concatenation around a separator cuts both sides. */
  lemma {:induction false} SplitAround(a: string, sep: char, b: string)
    ensures Split(a + [sep] + b, sep) == Split(a, sep) + Split(b, sep)
  {
    if a == "" {
      SplitCons(sep, b, sep);
      assert a + [sep] + b == [sep] + b;
    } else {
      var t := a[1..];
      SplitAround(t, sep, b);
      SplitCons(a[0], t, sep);
      SplitCons(a[0], t + [sep] + b, sep);
      assert a == [a[0]] + t && a + [sep] + b == [a[0]] + (t + [sep] + b);
      ConsedJoins(a[0], sep, Split(t, sep), Split(b, sep));
    }
  }

  /** No part holds the separator, and a string without it is its own only part. */
  lemma {:induction false} SplitParts(s: string, sep: char)
    ensures forall p | p in Split(s, sep) :: sep !in p
    ensures sep !in s ==> Split(s, sep) == [s]
  {
    if s != "" {
      SplitParts(s[1..], sep);
      assert s == [s[0]] + s[1..];
    }
  }

  lemma ConsedJoins(c: char, sep: char, front: seq<string>, back: seq<string>)
    requires front != []
    ensures Consed(c, sep, front + back) == Consed(c, sep, front) + back
  {
  }

  /** parts with b added to the last one. */
  function Extended(parts: seq<string>, b: string): seq<string>
    requires parts != []
  {
    parts[..|parts| - 1] + [parts[|parts| - 1] + b]
  }

  lemma ConsedExtends(c: char, sep: char, parts: seq<string>, b: string)
    requires parts != []
    ensures Consed(c, sep, Extended(parts, b)) == Extended(Consed(c, sep, parts), b)
  {
    if |parts| == 1 {
      assert [c] + (parts[0] + b) == ([c] + parts[0]) + b;
    }
  }

  /** What follows the last separator goes on the last part. */
  lemma {:induction false} SplitLast(a: string, b: string, sep: char)
    requires sep !in b
    ensures Split(a + b, sep) == Extended(Split(a, sep), b)
  {
    if a == "" {
      SplitParts(b, sep);
      assert a + b == b;
    } else {
      SplitLast(a[1..], b, sep);
      SplitCons(a[0], a[1..], sep);
      SplitCons(a[0], a[1..] + b, sep);
      assert a == [a[0]] + a[1..] && a + b == [a[0]] + (a[1..] + b);
      ConsedExtends(a[0], sep, Split(a[1..], sep), b);
    }
  }

  /** What precedes the first separator goes on the first part. */
  lemma {:induction false} SplitFirst(a: string, b: string, sep: char)
    requires sep !in a
    ensures var parts := Split(b, sep);
            Split(a + b, sep) == [a + parts[0]] + parts[1..]
  {
    if a == "" {
      assert a + b == b && a + Split(b, sep)[0] == Split(b, sep)[0];
    } else {
      SplitFirst(a[1..], b, sep);
      SplitCons(a[0], a[1..] + b, sep);
      assert a + b == [a[0]] + (a[1..] + b);
      assert [a[0]] + (a[1..] + Split(b, sep)[0]) == a + Split(b, sep)[0];
    }
  }

  /** Joining parts without the separator and splitting again gives them back. */
  lemma {:induction false} JoinSplit(parts: seq<string>, sep: char)
    requires parts != [] && forall i | 0 <= i < |parts| :: sep !in parts[i]
    ensures Split(Join(parts, [sep]), sep) == parts
  {
    SplitParts(parts[0], sep);
    if |parts| > 1 {
      JoinSplit(parts[1..], sep);
      SplitAround(parts[0], sep, Join(parts[1..], [sep]));
      assert parts == [parts[0]] + parts[1..];
    }
  }

  lemma {:induction false} PartsShort(s: string, sep: char)
    ensures forall p | p in Split(s, sep) :: |p| <= |s|
  {
    if s != "" {
      PartsShort(s[1..], sep);
    }
  }

  /** Split loses nothing. */
  lemma {:induction false} SplitJoin(s: string, sep: char)
    ensures Join(Split(s, sep), [sep]) == s
  {
    if s == "" {
    } else {
      SplitJoin(s[1..], sep);
      var rest := Split(s[1..], sep);
      var parts := Split(s, sep);
      if s[0] == sep {
        assert parts[1..] == rest;
        assert s == [sep] + s[1..];
      } else {
        if |rest| > 1 {
          assert parts[1..] == rest[1..];
          assert Join(parts, [sep]) == [s[0]] + (rest[0] + [sep] + Join(rest[1..], [sep]));
        }
        assert s == [s[0]] + s[1..];
      }
    }
  }

  lemma {:induction false} JoinConcat(a: seq<string>, b: seq<string>, sep: string)
    requires a != [] && b != []
    ensures Join(a + b, sep) == Join(a, sep) + sep + Join(b, sep)
  {
    var rest := a[1..];
    assert a + b == [a[0]] + (rest + b);
    if rest == [] {
      assert rest + b == b;
    } else {
      JoinConcat(rest, b, sep);
      Associate(a[0] + sep, Join(rest, sep), sep + Join(b, sep));
      Associate(Join(rest, sep), sep, Join(b, sep));
    }
  }

  lemma Associate(a: string, b: string, c: string)
    ensures a + (b + c) == a + b + c
  {
  }

  /** b is a, or goes on after it with a separator, exactly if a's parts are its first parts. */
  lemma UnderByParts(a: string, b: string, sep: char)
    ensures b == a || a + [sep] <= b <==> Split(a, sep) <= Split(b, sep)
  {
    if a + [sep] <= b {
      var rest := b[|a| + 1..];
      assert b == a + [sep] + rest;
      SplitAround(a, sep, rest);
    }
    if Split(a, sep) <= Split(b, sep) {
      FirstPartsFirst(a, b, sep);
    }
  }

  lemma FirstPartsFirst(a: string, b: string, sep: char)
    requires Split(a, sep) <= Split(b, sep)
    ensures b == a || a + [sep] <= b
  {
    var parts, pre := Split(b, sep), Split(a, sep);
    SplitJoin(b, sep);
    SplitJoin(a, sep);
    if pre != parts {
      var more := parts[|pre|..];
      JoinConcat(pre, more, [sep]);
      assert parts == pre + more;
      assert b == a + [sep] + Join(more, [sep]);
    }
  }

  /** Every occurrence of from replaced by to. */
  function Replace(s: string, from: char, to: char): (r: string)
    ensures |r| == |s|
    ensures forall i | 0 <= i < |s| :: r[i] == if s[i] == from then to else s[i]
  {
    seq(|s|, i requires 0 <= i < |s| => if s[i] == from then to else s[i])
  }

  /** The same ASCII letter in either case. */
  predicate SameLetter(c: char, d: char) {
    c == d || ('A' <= c <= 'Z' && d as int == c as int + 32) || ('A' <= d <= 'Z' && c as int == d as int + 32)
  }

  predicate SameLetters(a: string, b: string) {
    |a| == |b| && forall i | 0 <= i < |a| :: SameLetter(a[i], b[i])
  }

  // ------------------------------------------------------------ white space

  predicate AsciiSpace(c: char) {
    c == '\t' || c == '\n' || c == '\U{0B}' || c == '\U{0C}' || c == '\r' || c == ' '
  }

  /** The length of the UTF-8 encoded white space rune s starts with, 0 if none. */
  function SpaceAt(s: string): nat {
    if s == "" then 0
    else if AsciiSpace(s[0]) then 1
    else if |s| >= 2 && s[0] == '\U{C2}' && (s[1] == '\U{85}' || s[1] == '\U{A0}') then 2
    else if |s| >= 3 && ThreeByteSpace(s[0], s[1], s[2]) then 3
    else 0
  }

  /** The length of the UTF-8 encoded white space rune s ends with, 0 if none. */
  function SpaceBefore(s: string): (n: nat)
    ensures n <= |s|
  {
    var k := |s|;
    if s == "" then 0
    else if AsciiSpace(s[k - 1]) then 1
    else if k >= 2 && s[k - 2] == '\U{C2}' && (s[k - 1] == '\U{85}' || s[k - 1] == '\U{A0}') then 2
    else if k >= 3 && ThreeByteSpace(s[k - 3], s[k - 2], s[k - 1]) then 3
    else 0
  }

  predicate ThreeByteSpace(a: char, b: char, c: char) {
    || (a == '\U{E1}' && b == '\U{9A}' && c == '\U{80}')
    || (a == '\U{E2}' && b == '\U{80}' &&
        ('\U{80}' <= c <= '\U{8A}' || c == '\U{A8}' || c == '\U{A9}' || c == '\U{AF}'))
    || (a == '\U{E2}' && b == '\U{81}' && c == '\U{9F}')
    || (a == '\U{E3}' && b == '\U{80}' && c == '\U{80}')
  }

  function TrimLeft(s: string): (r: string)
    ensures |r| <= |s| && HasSuffix(s, r) && SpaceAt(r) == 0
    ensures r == s <==> SpaceAt(s) == 0
    decreases |s|
  {
    if SpaceAt(s) == 0 then s else TrimLeft(s[SpaceAt(s)..])
  }

  function TrimRight(s: string): (r: string)
    ensures r <= s && SpaceBefore(r) == 0
    ensures r == s <==> SpaceBefore(s) == 0
    decreases |s|
  {
    if SpaceBefore(s) == 0 then s else TrimRight(s[..|s| - SpaceBefore(s)])
  }

  function TrimSpace(s: string): (r: string)
    ensures |r| <= |s|
    ensures r == s <==> SpaceAt(s) == 0 && SpaceBefore(s) == 0
  {
    TrimRight(TrimLeft(s))
  }

  // ------------------------------------------------------------------ paths

  /** The extension of the path's last element, from its last dot; "" without one. */
  function Ext(path: string): string
    decreases |path|
  {
    if path == "" || path[|path| - 1] == '/' then ""
    else if path[|path| - 1] == '.' then "."
    else
      var e := Ext(path[..|path| - 1]);
      if e == "" then "" else e + [path[|path| - 1]]
  }

  /** Lexical cleaning of the elements of a path: no empty, "." or inner ".." element left. */
  function CleanElements(parts: seq<string>, rooted: bool, done: seq<string>): seq<string> {
    if parts == [] then done
    else if parts[0] == "" || parts[0] == "." then CleanElements(parts[1..], rooted, done)
    else if parts[0] == ".." && done != [] && done[|done| - 1] != ".." then
      CleanElements(parts[1..], rooted, done[..|done| - 1])
    else if parts[0] == ".." && rooted then CleanElements(parts[1..], rooted, done)
    else CleanElements(parts[1..], rooted, done + [parts[0]])
  }

  function Clean(path: string): string {
    var rooted := "/" <= path;
    var r := (if rooted then "/" else "") + Join(CleanElements(Split(path, '/'), rooted, []), "/");
    if r == "" then "." else r
  }

  // ---------------------------------------------------------------- numbers

  function Digit(d: nat): char
    requires d < 10
  {
    ('0' as int + d) as char
  }

  function Decimal(n: nat): (s: string)
    ensures |s| > 0
  {
    if n < 10 then [Digit(n)] else Decimal(n / 10) + [Digit(n % 10)]
  }

  /** Different numbers have different numerals. */
  lemma {:induction false} DecimalInjective(a: nat, b: nat)
    requires Decimal(a) == Decimal(b)
    ensures a == b
  {
    var s, t := Decimal(a), Decimal(b);
    assert s[|s| - 1] == Digit(a % 10) && t[|t| - 1] == Digit(b % 10);
    if a >= 10 && b >= 10 {
      assert Decimal(a / 10) == s[..|s| - 1] == t[..|t| - 1] == Decimal(b / 10);
      DecimalInjective(a / 10, b / 10);
    }
  }

  lemma {:induction false} DecimalDigits(n: nat)
    ensures forall i | 0 <= i < |Decimal(n)| :: '0' <= Decimal(n)[i] <= '9'
  {
    if n >= 10 {
      DecimalDigits(n / 10);
    }
  }

  function Pow10(k: nat): nat {
    if k == 0 then 1 else 10 * Pow10(k - 1)
  }

  lemma {:induction false} DecimalLength(n: nat, k: nat)
    requires k > 0 && n < Pow10(k)
    ensures |Decimal(n)| <= k
  {
    if n >= 10 {
      DecimalLength(n / 10, k - 1);
    }
  }

  function Itoa(n: int): string {
    if n < 0 then "-" + Decimal(-n) else Decimal(n)
  }

  /** n padded to two characters with zeros, as by the verb %02d. */
  function Pad2(n: int): string {
    if 0 <= n < 10 then "0" + Decimal(n) else Itoa(n)
  }

  /** A 64-bit integer has at most 20 characters. */
  lemma Pad2Length(n: int)
    requires -0x8000_0000_0000_0000 <= n < 0x8000_0000_0000_0000
    ensures |Pad2(n)| <= 20
  {
    assert Pow10(4) == 10_000;
    assert Pow10(8) == 100_000_000;
    assert Pow10(12) == 1_000_000_000_000;
    assert Pow10(16) == 10_000_000_000_000_000;
    assert Pow10(19) == 10_000_000_000_000_000_000;
    DecimalLength(if n < 0 then -n else n, 19);
  }

  // -------------------------------------------------------------------- UTF-8

  /** A byte that does not continue a rune. */
  predicate RuneStart(b: char) {
    !('\U{80}' <= b <= '\U{BF}')
  }

  predicate Tail(s: string, i: nat) {
    i < |s| && !RuneStart(s[i])
  }

  /** The length of the well-formed rune s starts with, 0 if none: section 4 of RFC 3629. */
  function RuneAt(s: string): (n: nat)
    ensures n <= |s| && n <= 4
    ensures n > 0 ==> RuneStart(s[0]) && forall i | 0 < i < n :: !RuneStart(s[i])
  {
    if s == "" then 0
    else if s[0] <= '\U{7F}' then 1
    else if '\U{C2}' <= s[0] <= '\U{DF}' then if Tail(s, 1) then 2 else 0
    else if '\U{E0}' <= s[0] <= '\U{EF}' then
      if Tail(s, 1) && Tail(s, 2) && (s[0] == '\U{E0}' ==> s[1] >= '\U{A0}') &&
         (s[0] == '\U{ED}' ==> s[1] <= '\U{9F}')
      then 3 else 0
    else if '\U{F0}' <= s[0] <= '\U{F4}' then
      if Tail(s, 1) && Tail(s, 2) && Tail(s, 3) && (s[0] == '\U{F0}' ==> s[1] >= '\U{90}') &&
         (s[0] == '\U{F4}' ==> s[1] <= '\U{8F}')
      then 4 else 0
    else 0
  }

  predicate ValidUTF8(s: string)
    decreases |s|
  {
    s == "" || (RuneAt(s) > 0 && ValidUTF8(s[RuneAt(s)..]))
  }

  lemma SliceOfRest(s: string, n: nat, k: nat)
    requires n <= k <= |s|
    ensures s[..k][n..] == s[n..][..k - n]
  {
    var a, b := s[..k][n..], s[n..][..k - n];
    assert forall i | 0 <= i < k - n :: a[i] == s[n + i] && b[i] == s[n + i];
  }

  /** A prefix of well-formed text is well formed exactly if it stops before the start of a rune. */
  lemma {:induction false} PrefixValid(s: string, k: nat)
    requires ValidUTF8(s) && k <= |s|
    ensures ValidUTF8(s[..k]) <==> k == |s| || RuneStart(s[k])
    decreases |s|
  {
    if s != "" && k > 0 {
      var n := RuneAt(s);
      var p := s[..k];
      if k >= n {
        assert RuneAt(p) == n;
        SliceOfRest(s, n, k);
        PrefixValid(s[n..], k - n);
      } else {
        assert RuneAt(p) == 0;
      }
    } else if s != "" {
      assert s[..0] == "";
    } else {
      assert s[..k] == s;
    }
  }
}

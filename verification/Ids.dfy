/** Registry ids: slugs of node names, numbered until unused (internal/peers/ids.go). */
module Ids {
  import opened Bytes

  // ------------------------------------------------------------------- slugs

  predicate SlugChar(c: char) {
    'a' <= c <= 'z' || '0' <= c <= '9' || c == '_' || c == '-'
  }

  /**
    Lower case, byte by byte; the only other letters that lower to ASCII are the Kelvin sign and the
    dotted capital I.
   */
  function Lower(s: string): string
    decreases |s|
  {
    if s == "" then ""
    else if "\U{E2}\U{84}\U{AA}" <= s then "k" + Lower(s[3..])
    else if "\U{C4}\U{B0}" <= s then "i" + Lower(s[2..])
    else if 'A' <= s[0] <= 'Z' then [(s[0] as int + 32) as char] + Lower(s[1..])
    else [s[0]] + Lower(s[1..])
  }

  /** Every run of other characters becomes one dash; within says s continues such a run. */
  function Dashed(s: string, within: bool): string {
    if s == "" then ""
    else if SlugChar(s[0]) then [s[0]] + Dashed(s[1..], false)
    else (if within then "" else "-") + Dashed(s[1..], true)
  }

  predicate Edge(c: char) {
    c == '-' || c == '_'
  }

  function TrimEdgesLeft(s: string): string {
    if s != "" && Edge(s[0]) then TrimEdgesLeft(s[1..]) else s
  }

  function TrimEdgesRight(s: string): string {
    if s != "" && Edge(s[|s| - 1]) then TrimEdgesRight(s[..|s| - 1]) else s
  }

  function Slug(name: string): string {
    TrimEdgesRight(TrimEdgesLeft(Dashed(Lower(TrimSpace(name)), false)))
  }

  /** Safe as a URL path segment and as a folder name: only slug characters, none of them at an edge. */
  predicate Safe(s: string) {
    && (forall i | 0 <= i < |s| :: 'a' <= s[i] <= 'z' || '0' <= s[i] <= '9' || s[i] == '_' || s[i] == '-')
    && (s != "" ==> s[0] !in "-_" && s[|s| - 1] !in "-_")
  }

  predicate AllSlug(s: string) {
    forall i | 0 <= i < |s| :: SlugChar(s[i])
  }

  lemma {:induction false} DashedIsSlug(s: string, within: bool)
    ensures AllSlug(Dashed(s, within))
    ensures AllSlug(s) ==> Dashed(s, within) == s
  {
    if s != "" {
      DashedIsSlug(s[1..], !SlugChar(s[0]));
      assert s == [s[0]] + s[1..];
      if SlugChar(s[0]) && AllSlug(s) {
        assert AllSlug(s[1..]);
      }
    }
  }

  lemma {:induction false} TrimmedLeft(s: string)
    requires AllSlug(s)
    ensures AllSlug(TrimEdgesLeft(s)) && (TrimEdgesLeft(s) != "" ==> !Edge(TrimEdgesLeft(s)[0]))
    ensures s != "" && !Edge(s[0]) ==> TrimEdgesLeft(s) == s
  {
    if s != "" && Edge(s[0]) {
      TrimmedLeft(s[1..]);
    }
  }

  lemma {:induction false} TrimmedRight(s: string)
    requires AllSlug(s) && (s != "" ==> !Edge(s[0]))
    ensures Safe(TrimEdgesRight(s))
    ensures Safe(s) ==> TrimEdgesRight(s) == s
  {
    if s != "" && Edge(s[|s| - 1]) {
      TrimmedRight(s[..|s| - 1]);
    }
  }

  lemma {:induction false} LowerSlug(s: string)
    requires AllSlug(s)
    ensures Lower(s) == s
  {
    if s != "" {
      LowerSlug(s[1..]);
      assert s == [s[0]] + s[1..];
    }
  }

  /** A slug is safe. */
  lemma SlugSafe(name: string)
    ensures Safe(Slug(name))
  {
    var d := Dashed(Lower(TrimSpace(name)), false);
    DashedIsSlug(Lower(TrimSpace(name)), false);
    TrimmedLeft(d);
    TrimmedRight(TrimEdgesLeft(d));
  }

  /** A safe name is its own slug; so slugging twice changes nothing. */
  lemma SafeIsSlug(s: string)
    requires Safe(s)
    ensures Slug(s) == s
  {
    SafeHasNoSpace(s);
    LowerSlug(s);
    DashedIsSlug(s, false);
    TrimmedLeft(s);
    TrimmedRight(s);
  }

  lemma NoSpaceFirst(s: string)
    requires s != "" && SlugChar(s[0])
    ensures SpaceAt(s) == 0
  {
  }

  lemma NoSpaceLast(s: string)
    requires s != "" && SlugChar(s[|s| - 1])
    ensures SpaceBefore(s) == 0
  {
    var c := s[|s| - 1];
    assert c < '\U{80}' && !AsciiSpace(c);
  }

  lemma SafeHasNoSpace(s: string)
    requires Safe(s)
    ensures TrimSpace(s) == s
  {
    if s != "" {
      NoSpaceFirst(s);
      NoSpaceLast(s);
    }
  }

  // ------------------------------------------------------------- numbering

  /** Ids that can never be a peer's. */
  predicate Reserved(id: string) {
    id == "local" || id == "unknown"
  }

  function Numbered(base: string, n: nat): string {
    base + "_" + Pad2(n)
  }

  lemma {:induction false} NoLeadingZero(n: nat)
    requires n > 0
    ensures Decimal(n)[0] != '0'
  {
    if n >= 10 {
      NoLeadingZero(n / 10);
    }
  }

  lemma Pad2Injective(a: nat, b: nat)
    requires Pad2(a) == Pad2(b)
    ensures a == b
  {
    if a < 10 && b < 10 {
      assert ("0" + Decimal(a))[1..] == Decimal(a) && ("0" + Decimal(b))[1..] == Decimal(b);
      DecimalInjective(a, b);
    } else if a >= 10 && b >= 10 {
      DecimalInjective(a, b);
    } else {
      NoLeadingZero(if a < 10 then b else a);
    }
  }

  lemma NumberedInjective(base: string, a: nat, b: nat)
    requires Numbered(base, a) == Numbered(base, b)
    ensures a == b
  {
    assert Numbered(base, a)[|base| + 1..] == Pad2(a);
    assert Numbered(base, b)[|base| + 1..] == Pad2(b);
    Pad2Injective(a, b);
  }

  lemma NumberedNotReserved(base: string, n: nat)
    ensures !Reserved(Numbered(base, n))
  {
    assert Numbered(base, n)[|base|] == '_';
    assert forall i | 0 <= i < |"local"| :: "local"[i] != '_';
    assert forall i | 0 <= i < |"unknown"| :: "unknown"[i] != '_';
  }

  /** The numbered ids 1 to n of a base. */
  function FirstNumbered(base: string, n: nat): (ids: set<string>)
    ensures |ids| == n
    ensures forall k | 1 <= k <= n :: Numbered(base, k) in ids
    ensures forall id | id in ids :: exists k: nat :: 1 <= k <= n && id == Numbered(base, k)
  {
    if n == 0 then {}
    else
      var rest := FirstNumbered(base, n - 1);
      assert Numbered(base, n) !in rest by {
        if Numbered(base, n) in rest {
          var k: nat :| 1 <= k <= n - 1 && Numbered(base, n) == Numbered(base, k);
          NumberedInjective(base, n, k);
        }
      }
      rest + {Numbered(base, n)}
  }

  /** Numbers 1 to n of base are all taken. */
  ghost predicate TakenUpTo(base: string, taken: set<string>, n: nat) {
    forall k: nat | 1 <= k <= n :: Numbered(base, k) in taken
  }

  lemma Subset(a: set<string>, b: set<string>)
    requires a <= b
    ensures |a| <= |b|
  {
    if a != {} {
      var x :| x in a;
      Subset(a - {x}, b - {x});
    }
  }

  /** Only as many numbers can be taken as there are ids taken. */
  lemma NumbersRunOut(base: string, taken: set<string>, n: nat)
    requires TakenUpTo(base, taken, n)
    ensures n <= |taken|
  {
    Subset(FirstNumbered(base, n), taken);
  }

  /** id is base if that can be had, else the first numbered id not taken. */
  ghost predicate FirstFree(base: string, taken: set<string>, id: string) {
    if base !in taken && !Reserved(base) then id == base
    else exists n: nat :: 1 <= n && id == Numbered(base, n) && id !in taken && TakenUpTo(base, taken, n - 1)
  }

  /** The first free id is unused, unreserved, and the only one. */
  lemma FirstFreeFresh(base: string, taken: set<string>, id: string, other: string)
    requires FirstFree(base, taken, id)
    ensures id !in taken && id != "local" && id != "unknown"
    ensures FirstFree(base, taken, other) ==> other == id
  {
    if !(base !in taken && !Reserved(base)) {
      var n: nat :| 1 <= n && id == Numbered(base, n) && id !in taken && TakenUpTo(base, taken, n - 1);
      NumberedNotReserved(base, n);
      if FirstFree(base, taken, other) {
        var m: nat :| 1 <= m && other == Numbered(base, m) && other !in taken && TakenUpTo(base, taken, m - 1);
        assert m == n;
      }
    }
  }

  /** It is base if that is free, and else base with the first of the numbers 01, 02, ... that is. */
  lemma FirstFreeTaken(base: string, taken: set<string>, id: string)
    requires FirstFree(base, taken, id)
    ensures base !in taken && base != "local" && base != "unknown" ==> id == base
    ensures base in taken || base == "local" || base == "unknown" ==>
              && base + "_" <= id
              && (base + "_01" !in taken ==> id == base + "_01")
              && (base + "_01" in taken && base + "_02" !in taken ==> id == base + "_02")
  {
    if base in taken || Reserved(base) {
      var n: nat :| 1 <= n && id == Numbered(base, n) && id !in taken && TakenUpTo(base, taken, n - 1);
      FirstNumbers(base);
      assert n > 1 ==> Numbered(base, 1) in taken;
      assert n > 2 ==> Numbered(base, 2) in taken;
      assert Numbered(base, n) == (base + "_") + Pad2(n);
    }
  }

  lemma FirstNumbers(base: string)
    ensures Numbered(base, 1) == base + "_01" && Numbered(base, 2) == base + "_02"
  {
    assert Pad2(1) == "01" && Pad2(2) == "02";
  }

  /**
    The id for a peer reporting name; uuid is the fallback for a name without a slug.
    The search ends because different numbers give different ids.
   */
  method IdFor(name: string, taken: set<string>, uuid: string) returns (id: string)
    ensures Slug(name) == "" ==> id == uuid
    ensures Slug(name) != "" ==> FirstFree(Slug(name), taken, id) && id !in taken && !Reserved(id)
  {
    var base := Slug(name);
    if base == "" {
      return uuid;
    }
    if base !in taken && !Reserved(base) {
      return base;
    }
    var n := 1;
    id := Numbered(base, n);
    while id in taken
      invariant n >= 1 && id == Numbered(base, n) && TakenUpTo(base, taken, n - 1)
      decreases |taken| - n
    {
      NumbersRunOut(base, taken, n);
      n := n + 1;
      id := Numbered(base, n);
    }
    assert FirstFree(base, taken, id);
    FirstFreeFresh(base, taken, id, id);
  }

  /** What it picks is again safe, so an id is always one plain folder name. */
  lemma FirstFreeSafe(name: string, taken: set<string>, id: string)
    requires Slug(name) != "" && FirstFree(Slug(name), taken, id)
    ensures Safe(id) && id != ""
  {
    SlugSafe(name);
    var base := Slug(name);
    if id != base {
      var n: nat :| 1 <= n && id == Numbered(base, n);
      NumberIsSlug(n);
      SafeWithNumber(base, Pad2(n));
    }
  }

  lemma SafeWithNumber(base: string, digits: string)
    requires Safe(base) && base != "" && digits != ""
    requires forall i | 0 <= i < |digits| :: '0' <= digits[i] <= '9'
    ensures Safe(base + "_" + digits)
  {
    var s := base + "_" + digits;
    forall i | 0 <= i < |s| ensures SlugChar(s[i]) {
      if i > |base| {
        assert s[i] == digits[i - |base| - 1];
      }
    }
    assert s[|s| - 1] == digits[|digits| - 1];
  }

  lemma NumberIsSlug(n: nat)
    ensures |Pad2(n)| > 0 && forall i | 0 <= i < |Pad2(n)| :: '0' <= Pad2(n)[i] <= '9'
  {
    DecimalDigits(n);
  }
}

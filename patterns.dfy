/**
 * The two regular expressions weather_terminal/parsers/weather_com_parser.py applies: `[0-9]+`
 * anchored at the start (`_clear_str_number`), written out as a scanner, and what a match of the
 * today strategy's `H\s+(\d+|\-{,2}).+L\s+(\d+|\-{,2})` is, independently of how the engine finds one.
 */
module Patterns {
  import opened Wrappers

  /** `[0-9]`; the model also reads `\d` as this class. */
  predicate IsDigit(c: char) { '0' <= c <= '9' }

  predicate IsDash(c: char) { c == '-' }

  /** `.`: anything but a newline. */
  predicate NotNewline(c: char) { c != '\n' }

  /** `\s` in a str pattern: exactly the characters `str.isspace` accepts. */
  predicate IsSpace(c: char)
  {
    || '\t' <= c <= '\r'
    || '\U{1C}' <= c <= '\U{1F}'
    || c == ' ' || c == '\U{85}' || c == '\U{A0}' || c == '\U{1680}'
    || '\U{2000}' <= c <= '\U{200A}'
    || c == '\U{2028}' || c == '\U{2029}' || c == '\U{202F}' || c == '\U{205F}' || c == '\U{3000}'
  }

  /** The character classes the two patterns use. */
  datatype Class = Digit | Dash | Space | NotNewlineClass

  predicate In(c: char, p: Class)
  {
    match p
    case Digit => IsDigit(c)
    case Dash => IsDash(c)
    case Space => IsSpace(c)
    case NotNewlineClass => NotNewline(c)
  }

  /** The character at `j` is in class `p`. */
  predicate InAt(s: string, j: int, p: Class)
    requires 0 <= j < |s|
  {
    In(s[j], p)
  }

  /** Every character of `s[a..b]` is in class `p`. */
  predicate AllIn(s: string, a: int, b: int, p: Class)
    requires 0 <= a <= b <= |s|
  {
    forall j :: a <= j < b ==> InAt(s, j, p)
  }

  /** The length of the longest run of class-`p` characters starting at `i`: what a greedy `p+` or `p*` takes first. */
  function Run(s: string, i: nat, p: Class): (n: nat)
    requires i <= |s|
    ensures i + n <= |s| && AllIn(s, i, i + n, p)
    ensures i + n < |s| ==> !In(s[i + n], p)
    decreases |s| - i
  {
    if i < |s| && In(s[i], p) then 1 + Run(s, i + 1, p) else 0
  }

  function Min(a: int, b: int): int { if a < b then a else b }

  /** A slice is all of class `p` exactly when the characters it was cut from are. */
  lemma SliceAllIn(s: string, a: nat, b: nat, p: Class)
    requires a <= b <= |s|
    ensures AllIn(s[a..b], 0, b - a, p) <==> AllIn(s, a, b, p)
  {
    var g := s[a..b];
    if AllIn(s, a, b, p) {
      forall j | 0 <= j < b - a ensures InAt(g, j, p) {
        assert g[j] == s[a + j] && InAt(s, a + j, p);
      }
    }
    if AllIn(g, 0, b - a, p) {
      forall j | a <= j < b ensures InAt(s, j, p) {
        assert g[j - a] == s[j] && InAt(g, j - a, p);
      }
    }
  }

  // ---------------------------------------------------------------- `_clear_str_number`

  /** `_clear_str_number`: the digit run that `[0-9]+` matches at the very start of `s`, or `'--'`. */
  function ClearStrNumber(s: string): (r: string)
    ensures r == "--" <==> (s == [] || !IsDigit(s[0]))
    ensures r != "--" ==> 0 < |r| <= |s| && r == s[..|r|] && AllIn(r, 0, |r|, Digit)
    ensures r != "--" && |r| < |s| ==> !IsDigit(s[|r|])
  {
    var n := Run(s, 0, Digit);
    if n == 0 then "--" else SliceAllIn(s, 0, n, Digit); s[..n]
  }

  /** Cleaning a cleaned number changes nothing. */
  lemma ClearStrNumberIdempotent(s: string)
    ensures ClearStrNumber(ClearStrNumber(s)) == ClearStrNumber(s)
  {
    var r := ClearStrNumber(s);
    if r != "--" {
      var r' := ClearStrNumber(r);
      RunCovers(r, 0, Digit, |r|);
      assert r'[0] == r[0];
    }
  }

  // ---------------------------------------------------------------- the today strategy's hi/lo pattern

  /** `(\d+|\-{,2})`: a non-empty digit run, or at most two dashes (possibly none). */
  predicate IsToken(x: string)
  {
    (|x| > 0 && AllIn(x, 0, |x|, Digit)) || (|x| <= 2 && AllIn(x, 0, |x|, Dash))
  }

  /** The part of a match from `.+` on: where the `L` and group 2 lie, and group 2 itself. */
  datatype Tail = Tail(lAt: nat, lowAt: nat, low: string)

  /** Where one match of the pattern lies: the `H`, group 1, and the tail. */
  datatype HiLoMatch = HiLoMatch(start: nat, highAt: nat, high: string, tail: Tail)

  /** `g` is the text at `p` and a possible value of `(\d+|\-{,2})`. */
  predicate GroupAt(s: string, p: nat, g: string)
  {
    p + |g| <= |s| && s[p..p + |g|] == g && IsToken(g)
  }

  /** `L\s+(\d+|\-{,2})` at `t.lAt`. */
  predicate LowAt(s: string, t: Tail)
  {
    t.lAt + 2 <= t.lowAt <= |s| && s[t.lAt] == 'L' && AllIn(s, t.lAt + 1, t.lowAt, Space) && GroupAt(s, t.lowAt, t.low)
  }

  /** `.+L\s+(\d+|\-{,2})` from `q`, as `t` lays it out. */
  predicate IsTail(s: string, q: nat, t: Tail)
  {
    q < t.lAt < |s| && AllIn(s, q, t.lAt, NotNewlineClass) && LowAt(s, t)
  }

  /** Group 1 `g` taken at `p`, then the rest of the pattern as `t`. */
  predicate IsGroupThenTail(s: string, p: nat, g: string, t: Tail)
  {
    GroupAt(s, p, g) && IsTail(s, p + |g|, t)
  }

  /**
   * `m` is a match of `H\s+(\d+|\-{,2}).+L\s+(\d+|\-{,2})` in `s`, group 1 being `m.high` and group 2
   * `m.tail.low`. This predicate says only what the pattern allows, not which of several matches the
   * engine reports.
   */
  predicate IsHiLoMatch(s: string, m: HiLoMatch)
  {
    m.start + 2 <= m.highAt <= |s| && s[m.start] == 'H' && AllIn(s, m.start + 1, m.highAt, Space)
    && IsGroupThenTail(s, m.highAt, m.high, m.tail)
  }

  /** `L\s` begins at `t`. */
  predicate LAt(s: string, t: int)
  {
    0 <= t && t + 1 < |s| && s[t] == 'L' && IsSpace(s[t + 1])
  }

  /** A greedy run is at least as long as any run of the class that starts where it does. */
  lemma {:induction false} RunCovers(s: string, i: nat, p: Class, k: nat)
    requires i + k <= |s| && AllIn(s, i, i + k, p)
    ensures Run(s, i, p) >= k
    decreases k
  {
    if k > 0 {
      assert InAt(s, i, p);
      RunCovers(s, i + 1, p, k - 1);
    }
  }

  // ---------------------------------------------------------------- which match `search` reports

  /** `\s+` after the `H` is greedy: from no later point within its blanks do group 1 and the rest follow. */
  ghost predicate GreedyBlanks(s: string, m: HiLoMatch)
  {
    forall k, g, t :: m.start + 1 <= k <= |s| && m.highAt < k && AllIn(s, m.start + 1, k, Space) ==> !IsGroupThenTail(s, k, g, t)
  }

  /**
   * Group 1 `g` at `p` is the engine's choice: `\d+` is tried first and backtracks from the longest
   * digit run, then `\-{,2}` from the longest dash run, so no longer candidate of either kind is
   * followed by the rest of the pattern.
   */
  ghost predicate PreferredGroup(s: string, p: nat, g: string)
  {
    && (forall e, t :: p + |g| < e <= |s| && AllIn(s, p, e, Digit) ==> !IsTail(s, e, t))
    && (forall e, t :: p + |g| < e <= |s| && e <= p + 2 && AllIn(s, p, e, Dash) ==> !IsTail(s, e, t))
  }

  /** `.+` is greedy and stays on its line: no `L\s` lies after `t.lAt` on the line that starts at `q`. */
  predicate GreedyDot(s: string, q: nat, t: Tail)
  {
    forall l :: q <= l <= |s| && t.lAt < l && AllIn(s, q, l, NotNewlineClass) ==> !LAt(s, l)
  }

  /**
   * Nothing follows group 2, so the first try stands: `\s+` after the `L` takes every blank, and group 2
   * takes the whole digit run there or, if none starts there, as many dashes as allowed.
   */
  predicate GreedyLow(s: string, t: Tail)
  {
    var end := t.lowAt + |t.low|;
    && (t.lowAt < |s| ==> !IsSpace(s[t.lowAt]))
    && end <= |s|
    && (if t.lowAt < |s| && IsDigit(s[t.lowAt]) then end == |s| || !IsDigit(s[end])
        else |t.low| == 2 || end == |s| || !IsDash(s[end]))
  }

  /**
   * `m` is the match `search` reports: the leftmost one and, at its start, the one the greedy
   * quantifiers and the first-alternative-first order settle on.
   */
  ghost predicate IsReportedMatch(s: string, m: HiLoMatch)
  {
    && IsHiLoMatch(s, m)
    && (forall m' :: IsHiLoMatch(s, m') ==> m.start <= m'.start)
    && GreedyBlanks(s, m)
    && PreferredGroup(s, m.highAt, m.high)
    && GreedyDot(s, m.highAt + |m.high|, m.tail)
    && GreedyLow(s, m.tail)
  }

  /** These preferences leave no choice: a text has at most one reported match. */
  lemma ReportedMatchUnique(s: string, m1: HiLoMatch, m2: HiLoMatch)
    requires IsReportedMatch(s, m1) && IsReportedMatch(s, m2)
    ensures m1 == m2
  {
    SameHighAt(s, m1, m2);
    SameGroup(s, m1.highAt, m1.high, m1.tail, m2.high, m2.tail);
    SameTail(s, m1.highAt + |m1.high|, m1.tail, m2.tail);
  }

  lemma SameHighAt(s: string, m1: HiLoMatch, m2: HiLoMatch)
    requires IsHiLoMatch(s, m1) && IsHiLoMatch(s, m2) && m1.start == m2.start
    requires GreedyBlanks(s, m1) && GreedyBlanks(s, m2)
    ensures m1.highAt == m2.highAt
  {
  }

  /** Under the preference for `g`, no other group 1 followed by a tail is longer. */
  lemma NoLongerGroup(s: string, p: nat, g: string, g': string, t': Tail)
    requires PreferredGroup(s, p, g) && IsGroupThenTail(s, p, g', t')
    ensures |g'| <= |g|
  {
    var e := p + |g'|;
    SliceAllIn(s, p, e, Digit);
    SliceAllIn(s, p, e, Dash);
  }

  lemma SameGroup(s: string, p: nat, g1: string, t1: Tail, g2: string, t2: Tail)
    requires IsGroupThenTail(s, p, g1, t1) && IsGroupThenTail(s, p, g2, t2)
    requires PreferredGroup(s, p, g1) && PreferredGroup(s, p, g2)
    ensures g1 == g2
  {
    NoLongerGroup(s, p, g1, g2, t2);
    NoLongerGroup(s, p, g2, g1, t1);
  }

  /** Under greedy `.+`, no other tail from `q` has its `L` further right. */
  lemma NoLaterL(s: string, q: nat, t: Tail, t': Tail)
    requires GreedyDot(s, q, t) && IsTail(s, q, t')
    ensures t'.lAt <= t.lAt
  {
    if t'.lAt > t.lAt {
      assert InAt(s, t'.lAt + 1, Space);
      assert LAt(s, t'.lAt);
    }
  }

  /** Of two groups at the same place, the longer one continues the shorter in the same class. */
  lemma LongerGroup(s: string, a: nat, g: string, g': string)
    requires GroupAt(s, a, g) && GroupAt(s, a, g')
    ensures |g| < |g'| ==> a + |g| < |s| && if IsDigit(s[a]) then IsDigit(s[a + |g|]) else IsDash(s[a + |g|]) && |g| < 2
  {
    if |g| < |g'| {
      assert s[a + |g|] == g'[|g|] && s[a] == g'[0];
      if AllIn(g', 0, |g'|, Digit) {
        assert InAt(g', |g|, Digit) && InAt(g', 0, Digit);
      } else {
        assert InAt(g', |g|, Dash) && InAt(g', 0, Dash);
      }
    }
  }

  /** Under greedy group 2, no other group 2 at the same place is longer. */
  lemma NoLongerLow(s: string, t: Tail, t': Tail)
    requires GroupAt(s, t.lowAt, t.low) && GroupAt(s, t.lowAt, t'.low) && GreedyLow(s, t)
    ensures |t'.low| <= |t.low|
  {
    LongerGroup(s, t.lowAt, t.low, t'.low);
  }

  /** Two group 2 after the same `L`: the one that starts first starts on a blank. */
  lemma BlankBeforeLow(s: string, t1: Tail, t2: Tail)
    requires LowAt(s, t1) && LowAt(s, t2) && t1.lAt == t2.lAt
    ensures t1.lowAt < t2.lowAt ==> IsSpace(s[t1.lowAt])
  {
    if t1.lowAt < t2.lowAt {
      assert InAt(s, t1.lowAt, Space);
    }
  }

  /** Under greedy `\s+`, two group 2 after the same `L` start at the same place. */
  lemma SameLowAt(s: string, t1: Tail, t2: Tail)
    requires LowAt(s, t1) && LowAt(s, t2) && t1.lAt == t2.lAt && GreedyLow(s, t1) && GreedyLow(s, t2)
    ensures t1.lowAt == t2.lowAt
  {
    BlankBeforeLow(s, t1, t2);
    BlankBeforeLow(s, t2, t1);
  }

  lemma SameTail(s: string, q: nat, t1: Tail, t2: Tail)
    requires IsTail(s, q, t1) && IsTail(s, q, t2)
    requires GreedyDot(s, q, t1) && GreedyDot(s, q, t2) && GreedyLow(s, t1) && GreedyLow(s, t2)
    ensures t1 == t2
  {
    NoLaterL(s, q, t1, t2);
    NoLaterL(s, q, t2, t1);
    SameLowAt(s, t1, t2);
    NoLongerLow(s, t1, t2);
    NoLongerLow(s, t2, t1);
  }
}

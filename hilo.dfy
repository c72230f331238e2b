/**
 * The scanner for the today strategy's hi/lo pattern under `search`, and the proof that it reports
 * exactly the leftmost match `Patterns.IsHiLoMatch` describes.
 */
module HiLoScanner {
  import opened Wrappers
  import opened Patterns

  /** The largest `t` in `[lo, hi]` at which `L\s` begins, trying `hi` first. */
  function LastLAt(s: string, lo: int, hi: int): (r: Option<int>)
    ensures r.Some? ==> lo <= r.value <= hi && LAt(s, r.value) && forall t :: r.value < t <= hi ==> !LAt(s, t)
    ensures r.None? ==> forall t :: lo <= t <= hi ==> !LAt(s, t)
    decreases hi - lo
  {
    if hi < lo then None
    else if LAt(s, hi) then Some(hi)
    else LastLAt(s, lo, hi - 1)
  }

  /** Group 2 at `p`: nothing follows it, so the digit run if there is one, else as many dashes as allowed. */
  function LastGroup(s: string, p: nat): string
    requires p <= |s|
  {
    var digits := Run(s, p, Digit);
    if digits > 0 then s[p..p + digits]
    else s[p..p + Min(2, Run(s, p, Dash))]
  }

  /** Group 2 is a token cut from `s` at `p`. */
  lemma LastGroupSound(s: string, p: nat)
    requires p <= |s|
    ensures var token := LastGroup(s, p); p + |token| <= |s| && s[p..p + |token|] == token && IsToken(token)
  {
    var digits := Run(s, p, Digit);
    if digits > 0 {
      SliceAllIn(s, p, p + digits, Digit);
    } else {
      SliceAllIn(s, p, p + Min(2, Run(s, p, Dash)), Dash);
    }
  }

  /**
   * `.+L\s+(\d+|\-{,2})` from `q`. `.+` is greedy and stays on q's line, so it stops before the LAST
   * `L\s` of that line that leaves it at least one character; `\s+` then takes every blank.
   */
  function TailFrom(s: string, q: nat): (r: Option<Tail>)
    requires q <= |s|
  {
    var lineEnd := q + Run(s, q, NotNewlineClass);
    match LastLAt(s, q + 1, lineEnd - 1)
    case None => None
    case Some(l) => Some(TailAt(s, l))
  }

  /** `L\s+(\d+|\-{,2})` read from the `L` at `l`: `\s+` takes every blank, then group 2. */
  function TailAt(s: string, l: nat): Tail
    requires l < |s|
  {
    var lowAt := l + 1 + Run(s, l + 1, Space);
    Tail(l, lowAt, LastGroup(s, lowAt))
  }

  /** What either alternative of group 1 yields when it ends at `e`, followed by a tail. */
  function Hit(s: string, p: nat, e: nat): Option<(string, Tail)>
    requires p <= e <= |s| && TailFrom(s, e).Some?
  {
    Some((s[p..e], TailFrom(s, e).value))
  }

  /** Group 1's first alternative at `p`: `\d+` backtracking from `n` digits down to one. */
  function TryDigits(s: string, p: nat, n: nat): (r: Option<(string, Tail)>)
    requires p + n <= |s|
    decreases n
  {
    if n == 0 then None
    else if TailFrom(s, p + n).Some? then Hit(s, p, p + n)
    else TryDigits(s, p, n - 1)
  }

  /** Group 1's second alternative at `p`: `\-{,2}` backtracking from `n` dashes down to none. */
  function TryDashes(s: string, p: nat, n: nat): (r: Option<(string, Tail)>)
    requires n <= 2 && p + n <= |s|
    decreases n
  {
    if TailFrom(s, p + n).Some? then Hit(s, p, p + n)
    else if n == 0 then None
    else TryDashes(s, p, n - 1)
  }

  /** `(\d+|\-{,2}).+L\s+(\d+|\-{,2})` at `p`: the digit alternative is tried first. */
  function GroupFrom(s: string, p: nat): (r: Option<(string, Tail)>)
    requires p <= |s|
  {
    match TryDigits(s, p, Run(s, p, Digit))
    case Some(found) => Some(found)
    case None => TryDashes(s, p, Min(2, Run(s, p, Dash)))
  }

  /** `\s+` after the `H` at `i`, backtracking from `k` blanks down to one. */
  function TrySpaces(s: string, i: nat, k: nat): (r: Option<HiLoMatch>)
    requires i < |s| && s[i] == 'H' && i + 1 + k <= |s|
    decreases k
  {
    if k == 0 then None
    else
      match GroupFrom(s, i + 1 + k)
      case Some(found) => Some(HiLoMatch(i, i + 1 + k, found.0, found.1))
      case None => TrySpaces(s, i, k - 1)
  }

  /** The pattern tried at position `i` only. */
  function MatchAt(s: string, i: nat): (r: Option<HiLoMatch>)
    requires i < |s|
  {
    if s[i] != 'H' then None else TrySpaces(s, i, Run(s, i + 1, Space))
  }

  /** `search` from position `i`: the first position at which the pattern matches. */
  function SearchFrom(s: string, i: nat): (r: Option<HiLoMatch>)
    decreases |s| - i
  {
    if i >= |s| then None
    else
      match MatchAt(s, i)
      case Some(m) => Some(m)
      case None => SearchFrom(s, i + 1)
  }

  /** `temp_regex.search(text)`, reduced to what the today strategy keeps: `groups()`. */
  function HiLo(s: string): (r: Option<(string, string)>)
  {
    match SearchFrom(s, 0)
    case None => None
    case Some(m) => Some((m.high, m.tail.low))
  }

  // ---------------------------------------------------------------- soundness of the search

  lemma TailFromSound(s: string, q: nat)
    requires q <= |s| && TailFrom(s, q).Some?
    ensures IsTail(s, q, TailFrom(s, q).value)
  {
    TailIntro(s, q, LastLAt(s, q + 1, q + Run(s, q, NotNewlineClass) - 1).value);
  }

  /** An `L\s` at `l`, after at least one character of the line that starts at `q`: a tail. */
  lemma TailIntro(s: string, q: nat, l: nat)
    requires q <= |s| && q < l < q + Run(s, q, NotNewlineClass) && LAt(s, l)
    ensures IsTail(s, q, TailAt(s, l))
  {
    assert AllIn(s, q, l, NotNewlineClass);
    LowAtIntro(s, l);
  }

  /** From an `L\s` at `l`, the blanks and group 2 that `TailAt` reads are what `L\s+(\d+|\-{,2})` allows. */
  lemma LowAtIntro(s: string, l: nat)
    requires LAt(s, l)
    ensures LowAt(s, TailAt(s, l))
  {
    LowBlanks(s, l);
    LastGroupSound(s, TailAt(s, l).lowAt);
  }

  /** `\s+` after the `L` at `l` takes at least one blank, and group 2 is read where the blanks end. */
  lemma LowBlanks(s: string, l: nat)
    requires LAt(s, l)
    ensures var t := TailAt(s, l);
      t.lAt == l && l + 2 <= t.lowAt <= |s| && AllIn(s, l + 1, t.lowAt, Space) && t.low == LastGroup(s, t.lowAt)
  {
    assert In(s[l + 1], Space);
  }

  /** Group 1 read as the characters of class `c` from `p` up to `e`, followed by a tail. */
  lemma GroupThenTailIntro(s: string, p: nat, e: nat, c: Class, t: Tail)
    requires p <= e <= |s| && AllIn(s, p, e, c) && (c == Digit ==> p < e) && (c == Dash ==> e <= p + 2) && (c == Digit || c == Dash)
    requires IsTail(s, e, t)
    ensures IsGroupThenTail(s, p, s[p..e], t)
  {
    SliceAllIn(s, p, e, c);
  }

  /** The digit alternative, backtracking from `n` digits, settles on the digits up to `e`, followed by a tail. */
  lemma {:induction false} TryDigitsFound(s: string, p: nat, n: nat) returns (e: nat)
    requires p + n <= |s| && TryDigits(s, p, n).Some?
    ensures p < e <= p + n && TailFrom(s, e).Some?
    ensures TryDigits(s, p, n) == Hit(s, p, e)
    decreases n, 1
  {
    if TailFrom(s, p + n).Some? {
      TryDigitsHit(s, p, n);
      e := p + n;
    } else {
      e := TryDigitsFoundShorter(s, p, n);
    }
  }

  lemma TryDigitsHit(s: string, p: nat, n: nat)
    requires 1 <= n && p + n <= |s| && TailFrom(s, p + n).Some?
    ensures TryDigits(s, p, n) == Hit(s, p, p + n)
  {
  }

  /** The same, when no tail follows all `n` characters. */
  lemma {:induction false} TryDigitsFoundShorter(s: string, p: nat, n: nat) returns (e: nat)
    requires p + n <= |s| && TryDigits(s, p, n).Some?
    requires TailFrom(s, p + n).None?
    ensures p < e < p + n && TailFrom(s, e).Some?
    ensures TryDigits(s, p, n) == Hit(s, p, e)
    decreases n, 0
  {
    assert TryDigits(s, p, n) == TryDigits(s, p, n - 1);
    e := TryDigitsFound(s, p, n - 1);
  }

  lemma TryDigitsSound(s: string, p: nat, n: nat)
    requires p + n <= |s| && AllIn(s, p, p + n, Digit) && TryDigits(s, p, n).Some?
    ensures IsGroupThenTail(s, p, TryDigits(s, p, n).value.0, TryDigits(s, p, n).value.1)
  {
    var e := TryDigitsFound(s, p, n);
    assert AllIn(s, p, e, Digit);
    TailFromSound(s, e);
    GroupThenTailIntro(s, p, e, Digit, TailFrom(s, e).value);
  }

  /** The dash alternative, backtracking from `n` dashes, settles on the dashes up to `e`, followed by a tail. */
  lemma {:induction false} TryDashesFound(s: string, p: nat, n: nat) returns (e: nat)
    requires n <= 2 && p + n <= |s| && TryDashes(s, p, n).Some?
    ensures p <= e <= p + n && TailFrom(s, e).Some?
    ensures TryDashes(s, p, n) == Hit(s, p, e)
    decreases n
  {
    if TailFrom(s, p + n).Some? {
      TryDashesHit(s, p, n);
      e := p + n;
    } else {
      TryDashesStep(s, p, n);
      e := TryDashesFound(s, p, n - 1);
    }
  }

  lemma TryDashesHit(s: string, p: nat, n: nat)
    requires n <= 2 && p + n <= |s| && TailFrom(s, p + n).Some?
    ensures TryDashes(s, p, n) == Hit(s, p, p + n)
  {
  }

  lemma TryDashesSound(s: string, p: nat, n: nat)
    requires n <= 2 && p + n <= |s| && AllIn(s, p, p + n, Dash) && TryDashes(s, p, n).Some?
    ensures IsGroupThenTail(s, p, TryDashes(s, p, n).value.0, TryDashes(s, p, n).value.1)
  {
    var e := TryDashesFound(s, p, n);
    assert AllIn(s, p, e, Dash);
    TailFromSound(s, e);
    GroupThenTailIntro(s, p, e, Dash, TailFrom(s, e).value);
  }

  lemma GroupFromSound(s: string, p: nat)
    requires p <= |s| && GroupFrom(s, p).Some?
    ensures IsGroupThenTail(s, p, GroupFrom(s, p).value.0, GroupFrom(s, p).value.1)
  {
    if TryDigits(s, p, Run(s, p, Digit)).Some? {
      TryDigitsSound(s, p, Run(s, p, Digit));
    } else {
      TryDashesSound(s, p, Min(2, Run(s, p, Dash)));
    }
  }

  /** When group 1 fits after all `k` blanks, that is the attempt's result. */
  lemma TrySpacesHit(s: string, i: nat, k: nat)
    requires i < |s| && s[i] == 'H' && 1 <= k && i + 1 + k <= |s|
    requires GroupFrom(s, i + 1 + k).Some?
    ensures TrySpaces(s, i, k) == Some(HiLoMatch(i, i + 1 + k, GroupFrom(s, i + 1 + k).value.0, GroupFrom(s, i + 1 + k).value.1))
  {
  }

  /** `H`, then blanks up to `q`, then what group 1 and the tail found from `q`: a match. */
  lemma HiLoIntro(s: string, i: nat, q: nat)
    requires i < |s| && s[i] == 'H' && i + 2 <= q <= |s| && AllIn(s, i + 1, q, Space)
    requires GroupFrom(s, q).Some?
    ensures IsHiLoMatch(s, HiLoMatch(i, q, GroupFrom(s, q).value.0, GroupFrom(s, q).value.1))
  {
    GroupFromSound(s, q);
  }

  /** The attempt at `i`, backtracking from `k` blanks, settles on group 1 at `q`, after the blanks before it. */
  lemma {:induction false} TrySpacesFound(s: string, i: nat, k: nat) returns (q: nat)
    requires i < |s| && s[i] == 'H' && i + 1 + k <= |s|
    requires TrySpaces(s, i, k).Some?
    ensures i + 2 <= q <= i + 1 + k && GroupFrom(s, q).Some?
    ensures TrySpaces(s, i, k) == Some(HiLoMatch(i, q, GroupFrom(s, q).value.0, GroupFrom(s, q).value.1))
    decreases k, 1
  {
    if GroupFrom(s, i + 1 + k).Some? {
      TrySpacesHit(s, i, k);
      q := i + 1 + k;
    } else {
      q := TrySpacesFoundShorter(s, i, k);
    }
  }

  /** The same, when group 1 does not fit after all `k` blanks. */
  lemma {:induction false} TrySpacesFoundShorter(s: string, i: nat, k: nat) returns (q: nat)
    requires i < |s| && s[i] == 'H' && i + 1 + k <= |s|
    requires TrySpaces(s, i, k).Some? && GroupFrom(s, i + 1 + k).None?
    ensures i + 2 <= q <= i + k && GroupFrom(s, q).Some?
    ensures TrySpaces(s, i, k) == Some(HiLoMatch(i, q, GroupFrom(s, q).value.0, GroupFrom(s, q).value.1))
    decreases k, 0
  {
    TrySpacesMiss(s, i, k);
    q := TrySpacesFound(s, i, k - 1);
  }

  lemma TrySpacesSound(s: string, i: nat, k: nat)
    requires i < |s| && s[i] == 'H' && i + 1 + k <= |s| && AllIn(s, i + 1, i + 1 + k, Space)
    requires TrySpaces(s, i, k).Some?
    ensures IsHiLoMatch(s, TrySpaces(s, i, k).value) && TrySpaces(s, i, k).value.start == i
  {
    var q := TrySpacesFound(s, i, k);
    assert AllIn(s, i + 1, q, Space);
    HiLoIntro(s, i, q);
  }

  /** When group 1 does not fit after `k` blanks, the attempt gives one blank back. */
  lemma TrySpacesMiss(s: string, i: nat, k: nat)
    requires i < |s| && s[i] == 'H' && 1 <= k && i + 1 + k <= |s|
    requires GroupFrom(s, i + 1 + k).None?
    ensures TrySpaces(s, i, k) == TrySpaces(s, i, k - 1)
  {
  }

  /** Whatever `search` reports from `i` on is a genuine match of the pattern, starting at or after `i`. */
  lemma {:induction false} SearchFromSound(s: string, i: nat)
    requires SearchFrom(s, i).Some?
    ensures IsHiLoMatch(s, SearchFrom(s, i).value) && i <= SearchFrom(s, i).value.start
    decreases |s| - i
  {
    if MatchAt(s, i).Some? {
      TrySpacesSound(s, i, Run(s, i + 1, Space));
    } else {
      var later := SearchFrom(s, i + 1);
      assert SearchFrom(s, i) == later;
      SearchFromSound(s, i + 1);
    }
  }

  // ---------------------------------------------------------------- completeness of the search

  lemma TailFromComplete(s: string, q: nat, t: int)
    requires q < t && LAt(s, t) && AllIn(s, q, t, NotNewlineClass)
    ensures TailFrom(s, q).Some?
  {
    RunCovers(s, q, NotNewlineClass, t + 1 - q);
  }

  lemma {:induction false} TryDigitsComplete(s: string, p: nat, n: nat, m: nat)
    requires p + n <= |s|
    requires 1 <= m <= n && TailFrom(s, p + m).Some?
    ensures TryDigits(s, p, n).Some?
    decreases n
  {
    if n > m && TailFrom(s, p + n).None? {
      TryDigitsComplete(s, p, n - 1, m);
    }
  }

  lemma {:induction false} TryDashesComplete(s: string, p: nat, n: nat, m: nat)
    requires n <= 2 && p + n <= |s|
    requires m <= n && TailFrom(s, p + m).Some?
    ensures TryDashes(s, p, n).Some?
    decreases n
  {
    if n > m && TailFrom(s, p + n).None? {
      TryDashesComplete(s, p, n - 1, m);
    }
  }

  lemma DigitsComplete(s: string, p: nat, g: string)
    requires GroupAt(s, p, g) && |g| > 0 && AllIn(g, 0, |g|, Digit) && TailFrom(s, p + |g|).Some?
    ensures TryDigits(s, p, Run(s, p, Digit)).Some?
  {
    SliceAllIn(s, p, p + |g|, Digit);
    RunCovers(s, p, Digit, |g|);
    TryDigitsComplete(s, p, Run(s, p, Digit), |g|);
  }

  lemma DashesComplete(s: string, p: nat, g: string)
    requires GroupAt(s, p, g) && |g| <= 2 && AllIn(g, 0, |g|, Dash) && TailFrom(s, p + |g|).Some?
    ensures TryDashes(s, p, Min(2, Run(s, p, Dash))).Some?
  {
    SliceAllIn(s, p, p + |g|, Dash);
    RunCovers(s, p, Dash, |g|);
    TryDashesComplete(s, p, Min(2, Run(s, p, Dash)), |g|);
  }

  lemma GroupFromComplete(s: string, p: nat, g: string)
    requires GroupAt(s, p, g) && TailFrom(s, p + |g|).Some?
    ensures GroupFrom(s, p).Some?
  {
    if |g| > 0 && AllIn(g, 0, |g|, Digit) {
      DigitsComplete(s, p, g);
    } else if TryDigits(s, p, Run(s, p, Digit)).None? {
      DashesComplete(s, p, g);
    }
  }

  lemma TrySpacesStep(s: string, i: nat, k: nat)
    requires i < |s| && s[i] == 'H' && i + 1 + k <= |s|
    requires 1 <= k && GroupFrom(s, i + 1 + k).None?
    ensures TrySpaces(s, i, k) == TrySpaces(s, i, k - 1)
  {
  }

  lemma {:induction false} TrySpacesComplete(s: string, i: nat, k: nat, k0: nat)
    requires i < |s| && s[i] == 'H' && i + 1 + k <= |s|
    requires 1 <= k0 <= k && GroupFrom(s, i + 1 + k0).Some?
    ensures TrySpaces(s, i, k).Some?
    decreases k
  {
    if GroupFrom(s, i + 1 + k).Some? {
      TrySpacesHit(s, i, k);
    } else {
      TrySpacesComplete(s, i, k - 1, k0);
      TrySpacesStep(s, i, k);
    }
  }

  /** Group 1 and the tail of a match are found again by the engine at group 1's position. */
  lemma GroupThenTailComplete(s: string, p: nat, g: string, t: Tail)
    requires IsGroupThenTail(s, p, g, t)
    ensures GroupFrom(s, p).Some?
  {
    assert InAt(s, t.lAt + 1, Space);
    TailFromComplete(s, p + |g|, t.lAt);
    GroupFromComplete(s, p, g);
  }

  /** An `H` and blanks up to a position where group 1 and the tail are found: the attempt at the `H` succeeds. */
  lemma SpacesComplete(s: string, start: nat, highAt: nat)
    requires start + 2 <= highAt <= |s| && s[start] == 'H' && AllIn(s, start + 1, highAt, Space)
    requires GroupFrom(s, highAt).Some?
    ensures MatchAt(s, start).Some?
  {
    RunCovers(s, start + 1, Space, highAt - start - 1);
    TrySpacesComplete(s, start, Run(s, start + 1, Space), highAt - start - 1);
  }

  /** Wherever a match starts, the engine's attempt at that position succeeds. */
  lemma MatchAtComplete(s: string, m: HiLoMatch)
    requires IsHiLoMatch(s, m)
    ensures MatchAt(s, m.start).Some?
  {
    GroupThenTailComplete(s, m.highAt, m.high, m.tail);
    SpacesComplete(s, m.start, m.highAt);
  }

  /** An attempt that succeeds reports a match starting where it was made. */
  lemma MatchAtStart(s: string, i: nat)
    requires i < |s| && MatchAt(s, i).Some?
    ensures MatchAt(s, i).value.start == i
  {
    TrySpacesSound(s, i, Run(s, i + 1, Space));
  }

  lemma SearchFromStep(s: string, i: nat)
    requires i < |s|
    ensures SearchFrom(s, i) == if MatchAt(s, i).Some? then MatchAt(s, i) else SearchFrom(s, i + 1)
  {
  }

  /** A search from `i` reaches, at the latest, any later position at which the attempt succeeds. */
  lemma {:induction false} SearchFromReaches(s: string, i: nat, start: nat)
    requires i <= start < |s| && MatchAt(s, start).Some?
    ensures SearchFrom(s, i).Some? && SearchFrom(s, i).value.start <= start
    decreases |s| - i
  {
    SearchFromStep(s, i);
    if MatchAt(s, i).Some? {
      MatchAtStart(s, i);
    } else {
      SearchFromReaches(s, i + 1, start);
    }
  }

  /**
   * `search` fails exactly when the pattern occurs nowhere in `s`; when it succeeds, no match
   * starts to the left of the one it reports.
   */
  lemma HiLoLeftmost(s: string)
    ensures HiLo(s).None? <==> !exists m :: IsHiLoMatch(s, m)
    ensures HiLo(s).Some? ==> IsHiLoMatch(s, SearchFrom(s, 0).value) && HiLo(s).value == (SearchFrom(s, 0).value.high, SearchFrom(s, 0).value.tail.low)
    ensures forall m :: IsHiLoMatch(s, m) ==> SearchFrom(s, 0).Some? && SearchFrom(s, 0).value.start <= m.start
  {
    forall m | IsHiLoMatch(s, m)
      ensures SearchFrom(s, 0).Some? && SearchFrom(s, 0).value.start <= m.start
    {
      MatchAtComplete(s, m);
      SearchFromReaches(s, 0, m.start);
    }
    if SearchFrom(s, 0).Some? {
      SearchFromSound(s, 0);
    }
  }

  // ---------------------------------------------------------------- which match the search reports

  /** A tail from `q` is one the engine finds. */
  lemma TailFound(s: string, q: nat, t: Tail)
    requires q <= |s|
    ensures IsTail(s, q, t) ==> TailFrom(s, q).Some?
  {
    if IsTail(s, q, t) {
      assert InAt(s, t.lAt + 1, Space);
      TailFromComplete(s, q, t.lAt);
    }
  }

  /** Group 1 and a tail from `p` are found by the engine. */
  lemma GroupThenTailFound(s: string, p: nat, g: string, t: Tail)
    requires p <= |s|
    ensures IsGroupThenTail(s, p, g, t) ==> GroupFrom(s, p).Some?
  {
    if IsGroupThenTail(s, p, g, t) {
      GroupThenTailComplete(s, p, g, t);
    }
  }

  /** One step of the digit alternative's backtracking. */
  lemma TryDigitsStep(s: string, p: nat, n: nat)
    requires 1 <= n && p + n <= |s|
    ensures TryDigits(s, p, n) == if TailFrom(s, p + n).Some? then Hit(s, p, p + n) else TryDigits(s, p, n - 1)
  {
  }

  /** One step of the dash alternative's backtracking. */
  lemma TryDashesStep(s: string, p: nat, n: nat)
    requires 1 <= n <= 2 && p + n <= |s|
    ensures TryDashes(s, p, n) == if TailFrom(s, p + n).Some? then Hit(s, p, p + n) else TryDashes(s, p, n - 1)
  {
  }

  /** The digit alternative settles on the longest run of digits that a tail follows: none follows a longer one. */
  lemma {:induction false} TryDigitsNoLater(s: string, p: nat, n: nat, e: nat)
    requires p + n <= |s| && TryDigits(s, p, n).Some?
    requires p + |TryDigits(s, p, n).value.0| < e <= p + n
    ensures TailFrom(s, e).None?
    decreases n
  {
    TryDigitsStep(s, p, n);
    if e < p + n {
      TryDigitsNoLater(s, p, n - 1, e);
    }
  }

  /** The digit alternative fails only when no tail follows any of its candidates. */
  lemma {:induction false} TryDigitsNone(s: string, p: nat, n: nat, e: nat)
    requires p + n <= |s| && TryDigits(s, p, n).None?
    requires p < e <= p + n
    ensures TailFrom(s, e).None?
    decreases n
  {
    TryDigitsStep(s, p, n);
    if e < p + n {
      TryDigitsNone(s, p, n - 1, e);
    }
  }

  /** The dash alternative settles on the most dashes that a tail follows: none follows more of them. */
  lemma {:induction false} TryDashesNoLater(s: string, p: nat, n: nat, e: nat)
    requires n <= 2 && p + n <= |s| && TryDashes(s, p, n).Some?
    requires p + |TryDashes(s, p, n).value.0| < e <= p + n
    ensures TailFrom(s, e).None?
    decreases n
  {
    TryDashesStep(s, p, n);
    if e < p + n {
      TryDashesNoLater(s, p, n - 1, e);
    }
  }

  /** No tail follows a run of digits longer than the one up to `e`, when none follows a candidate the digit alternative gave up. */
  lemma DigitClause(s: string, p: nat, e: nat)
    requires p <= e <= |s|
    requires forall e' :: e < e' <= p + Run(s, p, Digit) ==> TailFrom(s, e').None?
    ensures forall e', t :: e < e' <= |s| && AllIn(s, p, e', Digit) ==> !IsTail(s, e', t)
  {
    forall e', t | e < e' <= |s| && AllIn(s, p, e', Digit)
      ensures !IsTail(s, e', t)
    {
      RunCovers(s, p, Digit, e' - p);
      TailFound(s, e', t);
    }
  }

  /** The same for runs of at most two dashes. */
  lemma DashClause(s: string, p: nat, e: nat)
    requires p <= e <= |s|
    requires forall e' :: e < e' <= p + Min(2, Run(s, p, Dash)) ==> TailFrom(s, e').None?
    ensures forall e', t :: e < e' <= |s| && e' <= p + 2 && AllIn(s, p, e', Dash) ==> !IsTail(s, e', t)
  {
    forall e', t | e < e' <= |s| && e' <= p + 2 && AllIn(s, p, e', Dash)
      ensures !IsTail(s, e', t)
    {
      RunCovers(s, p, Dash, e' - p);
      TailFound(s, e', t);
    }
  }

  /** Where a digit starts, no run of dashes does. */
  lemma NoDashRun(s: string, p: nat)
    requires p < |s| && IsDigit(s[p])
    ensures forall e' :: p < e' <= |s| ==> !AllIn(s, p, e', Dash)
  {
    assert !InAt(s, p, Dash);
  }

  /** Group 1 as the characters from `p` up to `e` is preferred when no tail follows a candidate tried before it. */
  lemma PreferredAt(s: string, p: nat, e: nat)
    requires p <= e <= |s|
    requires forall e' :: e < e' <= p + Run(s, p, Digit) ==> TailFrom(s, e').None?
    requires (p < e && IsDigit(s[p])) || forall e' :: e < e' <= p + Min(2, Run(s, p, Dash)) ==> TailFrom(s, e').None?
    ensures PreferredGroup(s, p, s[p..e])
  {
    DigitClause(s, p, e);
    if p < e && IsDigit(s[p]) {
      NoDashRun(s, p);
    } else {
      DashClause(s, p, e);
    }
  }

  /** The digit alternative, when it succeeds, ends at `e`, and no tail follows a longer run of digits. */
  lemma DigitsFoundLast(s: string, p: nat) returns (e: nat)
    requires p <= |s| && TryDigits(s, p, Run(s, p, Digit)).Some?
    ensures p < e <= |s| && IsDigit(s[p]) && TailFrom(s, e).Some? && TryDigits(s, p, Run(s, p, Digit)) == Hit(s, p, e)
    ensures forall e' :: e < e' <= p + Run(s, p, Digit) ==> TailFrom(s, e').None?
  {
    var n := Run(s, p, Digit);
    e := TryDigitsFound(s, p, n);
    assert InAt(s, p, Digit);
    assert |TryDigits(s, p, n).value.0| == e - p;
    forall e' | e < e' <= p + n
      ensures TailFrom(s, e').None?
    {
      TryDigitsNoLater(s, p, n, e');
    }
  }

  /** The dash alternative, when it alone succeeds, ends at `e`, and no tail follows any other candidate tried before it. */
  lemma DashesFoundLast(s: string, p: nat) returns (e: nat)
    requires p <= |s| && TryDigits(s, p, Run(s, p, Digit)).None?
    requires TryDashes(s, p, Min(2, Run(s, p, Dash))).Some?
    ensures p <= e <= |s| && TailFrom(s, e).Some? && TryDashes(s, p, Min(2, Run(s, p, Dash))) == Hit(s, p, e)
    ensures forall e' :: e < e' <= p + Run(s, p, Digit) ==> TailFrom(s, e').None?
    ensures forall e' :: e < e' <= p + Min(2, Run(s, p, Dash)) ==> TailFrom(s, e').None?
  {
    var n, d := Run(s, p, Digit), Min(2, Run(s, p, Dash));
    e := TryDashesFound(s, p, d);
    assert |TryDashes(s, p, d).value.0| == e - p;
    forall e' | e < e' <= p + n
      ensures TailFrom(s, e').None?
    {
      TryDigitsNone(s, p, n, e');
    }
    forall e' | e < e' <= p + d
      ensures TailFrom(s, e').None?
    {
      TryDashesNoLater(s, p, d, e');
    }
  }

  /** Group 1 found at `p` ends at `e`, is the preferred one, and its tail is the one found from `e`. */
  lemma GroupFromPreferred(s: string, p: nat) returns (e: nat)
    requires p <= |s| && GroupFrom(s, p).Some?
    ensures p <= e <= |s| && TailFrom(s, e).Some? && GroupFrom(s, p) == Hit(s, p, e)
    ensures PreferredGroup(s, p, s[p..e])
  {
    if TryDigits(s, p, Run(s, p, Digit)).Some? {
      e := DigitsFoundLast(s, p);
    } else {
      e := DashesFoundLast(s, p);
    }
    PreferredAt(s, p, e);
  }

  /** `.+` reaches the last `L\s` of the line. */
  lemma DotGreedy(s: string, q: nat)
    requires q <= |s| && TailFrom(s, q).Some?
    ensures GreedyDot(s, q, TailFrom(s, q).value)
  {
    forall l | q <= l <= |s| && TailFrom(s, q).value.lAt < l && AllIn(s, q, l, NotNewlineClass)
      ensures !LAt(s, l)
    {
      RunCovers(s, q, NotNewlineClass, l - q);
    }
  }

  /** Group 2 read from the `L` at `l` takes every blank and then the longest group. */
  lemma LowGreedy(s: string, l: nat)
    requires l < |s|
    ensures GreedyLow(s, TailAt(s, l))
  {
    var lowAt := l + 1 + Run(s, l + 1, Space);
    LastGroupSound(s, lowAt);
  }

  /** When group 1 fits after all `k` blanks, the attempt ends there. */
  lemma TrySpacesHitAt(s: string, i: nat, k: nat)
    requires i < |s| && s[i] == 'H' && i + 1 + k <= |s| && TrySpaces(s, i, k).Some?
    ensures GroupFrom(s, i + 1 + k).Some? ==> TrySpaces(s, i, k).value.highAt == i + 1 + k
  {
    if GroupFrom(s, i + 1 + k).Some? {
      TrySpacesHit(s, i, k);
    }
  }

  /** The blanks after the `H` are given back only as far as needed: group 1 fits after none of those given up. */
  lemma {:induction false} TrySpacesNoLater(s: string, i: nat, k: nat, j: nat)
    requires i < |s| && s[i] == 'H' && i + 1 + k <= |s| && TrySpaces(s, i, k).Some?
    requires TrySpaces(s, i, k).value.highAt < j <= i + 1 + k
    ensures GroupFrom(s, j).None?
    decreases k
  {
    TrySpacesHitAt(s, i, k);
    if j < i + 1 + k {
      TrySpacesMiss(s, i, k);
      TrySpacesNoLater(s, i, k - 1, j);
    }
  }

  lemma BlanksGreedy(s: string, i: nat)
    requires i < |s| && MatchAt(s, i).Some?
    ensures GreedyBlanks(s, MatchAt(s, i).value)
  {
    var m := MatchAt(s, i).value;
    MatchAtStart(s, i);
    forall k, g, t | m.start + 1 <= k <= |s| && m.highAt < k && AllIn(s, m.start + 1, k, Space)
      ensures !IsGroupThenTail(s, k, g, t)
    {
      RunCovers(s, i + 1, Space, k - i - 1);
      TrySpacesNoLater(s, i, Run(s, i + 1, Space), k);
      GroupThenTailFound(s, k, g, t);
    }
  }

  /** A successful attempt makes the choices the engine's greedy quantifiers make. */
  lemma AttemptPreferred(s: string, i: nat)
    requires i < |s| && MatchAt(s, i).Some?
    ensures var m := MatchAt(s, i).value;
      && GreedyBlanks(s, m)
      && PreferredGroup(s, m.highAt, m.high)
      && GreedyDot(s, m.highAt + |m.high|, m.tail)
      && GreedyLow(s, m.tail)
  {
    var q := TrySpacesFound(s, i, Run(s, i + 1, Space));
    var e := GroupFromPreferred(s, q);
    assert |s[q..e]| == e - q;
    DotGreedy(s, e);
    LowGreedy(s, LastLAt(s, e + 1, e + Run(s, e, NotNewlineClass) - 1).value);
    BlanksGreedy(s, i);
  }

  /** What the search from `i` reports is the attempt at some position from `i` on. */
  lemma {:induction false} SearchFromAttempt(s: string, i: nat) returns (start: nat)
    requires SearchFrom(s, i).Some?
    ensures i <= start < |s| && MatchAt(s, start) == SearchFrom(s, i)
    decreases |s| - i
  {
    SearchFromStep(s, i);
    if MatchAt(s, i).Some? {
      start := i;
    } else {
      start := SearchFromAttempt(s, i + 1);
    }
  }

  /** `search` reports the leftmost match, read with the engine's preferences. */
  lemma HiLoReported(s: string)
    ensures SearchFrom(s, 0).Some? ==> IsReportedMatch(s, SearchFrom(s, 0).value)
  {
    HiLoLeftmost(s);
    if SearchFrom(s, 0).Some? {
      var start := SearchFromAttempt(s, 0);
      AttemptPreferred(s, start);
    }
  }

  /** The groups `search` yields are exactly those of the one reported match, and there are none without one. */
  lemma HiLoGroups(s: string)
    ensures HiLo(s).Some? <==> exists m :: IsReportedMatch(s, m)
    ensures forall m :: IsReportedMatch(s, m) ==> HiLo(s) == Some((m.high, m.tail.low))
  {
    HiLoReported(s);
    HiLoLeftmost(s);
    forall m | IsReportedMatch(s, m)
      ensures HiLo(s) == Some((m.high, m.tail.low))
    {
      ReportedMatchUnique(s, m, SearchFrom(s, 0).value);
    }
  }

  /** A forecast line of the usual shape, and the match a reader expects in it. */
  const ExampleLine: string := "H 75 L 58"
  const ExampleMatch := HiLoMatch(0, 2, "75", Tail(5, 7, "58"))

  lemma ExampleIsMatch()
    ensures IsHiLoMatch(ExampleLine, ExampleMatch)
  {
    assert ExampleLine[2..4] == "75" && ExampleLine[7..9] == "58";
  }

  lemma ExampleBlanks()
    ensures GreedyBlanks(ExampleLine, ExampleMatch)
  {
    assert !InAt(ExampleLine, 2, Space);
  }

  lemma ExampleGroup()
    ensures PreferredGroup(ExampleLine, 2, "75")
  {
    assert !InAt(ExampleLine, 4, Digit);
  }

  lemma ExampleTail()
    ensures GreedyDot(ExampleLine, 4, ExampleMatch.tail) && GreedyLow(ExampleLine, ExampleMatch.tail)
  {
  }

  /** On that line both temperatures are read whole: `75` and `58`, not a prefix of either. */
  lemma HiLoExample()
    ensures forall m :: IsReportedMatch(ExampleLine, m) ==> m == ExampleMatch
    ensures HiLo(ExampleLine) == Some(("75", "58"))
  {
    ExampleIsMatch();
    ExampleBlanks();
    ExampleGroup();
    ExampleTail();
    assert IsReportedMatch(ExampleLine, ExampleMatch);
    forall m | IsReportedMatch(ExampleLine, m)
      ensures m == ExampleMatch
    {
      ReportedMatchUnique(ExampleLine, ExampleMatch, m);
    }
    HiLoGroups(ExampleLine);
  }
}

/**
 * The text filter screen: a pass over the lines of pasted text that drops
 * chapter headers and blocks of junk lines (comment and vote counters and
 * the like), optionally strips a number at the end of each kept line, then
 * optionally deletes every digit and tidies white space.
 */
module LineFilter {
  import opened Wrappers
  import opened Strings

  /** The five check boxes of the screen. */
  datatype Options = Options(
    removeJunkBlocks: bool,
    removeChapterHeader: bool,
    removeEndNumbers: bool,
    removeNumbers: bool,
    removeWhitespace: bool)

  /** The boxes as first shown: everything but digit removal. */
  const DefaultOptions := Options(true, true, true, false, true)

  /** JavaScript's `toLowerCase`, left abstract. */
  type Lower = string -> string

  function Min(a: int, b: int): int
  {
    if a < b then a else b
  }

  // ---------------------------------------------------------------------------
  // Input lines and keywords
  // ---------------------------------------------------------------------------

  /** `split(/\r?\n/)`: split at each line feed, dropping one carriage return right before it. */
  function SplitLines(s: string): (r: seq<string>)
    ensures |r| == |SplitOn(s, "\n")|
  {
    DropCarriageReturns(SplitOn(s, "\n"))
  }

  /** Drops one trailing `\r` from every piece but the last. */
  function DropCarriageReturns(pieces: seq<string>): (r: seq<string>)
    ensures |r| == |pieces|
  {
    if |pieces| <= 1 then pieces
    else
      var p := pieces[0];
      [if p != [] && p[|p| - 1] == '\r' then p[..|p| - 1] else p] + DropCarriageReturns(pieces[1..])
  }

  /** Line `i` is piece `i`, or, before the last piece, piece `i` without the carriage return that ends it. */
  lemma {:induction false} DropCarriageReturnsAt(pieces: seq<string>, i: nat)
    requires i < |pieces|
    ensures DropCarriageReturns(pieces)[i] == pieces[i]
      || (i < |pieces| - 1 && pieces[i] == DropCarriageReturns(pieces)[i] + "\r")
    decreases i
  {
    if |pieces| > 1 {
      var p := pieces[0];
      if i == 0 {
        if p != [] && p[|p| - 1] == '\r' {
          assert p == p[..|p| - 1] + "\r";
        }
      } else {
        DropCarriageReturnsAt(pieces[1..], i - 1);
      }
    }
  }

  /** No line holds a line feed, and text without carriage returns joins back from its lines. */
  lemma SplitLinesShape(s: string)
    ensures forall i :: 0 <= i < |SplitLines(s)| ==> '\n' !in SplitLines(s)[i]
    ensures '\r' !in s ==> Join(SplitLines(s), "\n") == s
  {
    var pieces := SplitOn(s, "\n");
    var lines := SplitLines(s);
    SplitOnCharPieces(s, '\n');
    SplitOnPieceChars(s, "\n");
    forall i | 0 <= i < |lines| ensures '\n' !in lines[i] && ('\r' !in s ==> lines[i] == pieces[i]) {
      DropCarriageReturnsAt(pieces, i);
      assert pieces[i] in pieces;
      if lines[i] != pieces[i] {
        assert '\r' in pieces[i] by { assert pieces[i][|pieces[i]| - 1] == '\r'; }
      }
    }
    if '\r' !in s {
      assert lines == pieces;
      JoinSplit(s, "\n");
    }
  }

  /** `junkKeywords.split(',').map(k => k.trim().toLowerCase()).filter(k => k !== "")`. */
  function Keywords(junk: string, lower: Lower): seq<string>
  {
    KeywordsOf(SplitOn(junk, ","), lower)
  }

  function KeywordsOf(pieces: seq<string>, lower: Lower): seq<string>
  {
    NonEmpty(LowerAll(pieces, lower))
  }

  /** The `map` step: every piece trimmed and lower-cased, in order. */
  function LowerAll(pieces: seq<string>, lower: Lower): (r: seq<string>)
    ensures |r| == |pieces|
    ensures forall j :: 0 <= j < |pieces| ==> r[j] == lower(Trim(pieces[j]))
  {
    seq(|pieces|, j requires 0 <= j < |pieces| => lower(Trim(pieces[j])))
  }

  /** The `filter` step: the non-empty entries, in order. */
  function NonEmpty(xs: seq<string>): seq<string>
  {
    if xs == [] then []
    else (if xs[0] == "" then [] else [xs[0]]) + NonEmpty(xs[1..])
  }

  /** The filter keeps exactly the non-empty entries. */
  lemma {:induction false} NonEmptyMembers(xs: seq<string>)
    ensures forall k :: k in NonEmpty(xs) <==> k != "" && k in xs
  {
    if xs != [] {
      NonEmptyMembers(xs[1..]);
      assert forall k :: k in xs <==> k == xs[0] || k in xs[1..];
    }
  }

  /** The keywords are exactly the non-empty lower-cased trimmed pieces. */
  lemma KeywordsOfMembers(pieces: seq<string>, lower: Lower)
    ensures forall k :: k in KeywordsOf(pieces, lower) <==> k != "" && exists p :: p in pieces && k == lower(Trim(p))
  {
    NonEmptyMembers(LowerAll(pieces, lower));
    LowerAllFrom(pieces, lower);
    LowerAllOf(pieces, lower);
  }

  /** Every mapped entry is the lower-cased trimmed form of some piece. */
  lemma LowerAllFrom(pieces: seq<string>, lower: Lower)
    ensures forall k :: k in LowerAll(pieces, lower) ==> exists p :: p in pieces && k == lower(Trim(p))
  {
    var all := LowerAll(pieces, lower);
    forall k | k in all ensures exists p :: p in pieces && k == lower(Trim(p)) {
      var j :| 0 <= j < |all| && all[j] == k;
      assert pieces[j] in pieces;
    }
  }

  /** The lower-cased trimmed form of every piece is a mapped entry. */
  lemma LowerAllOf(pieces: seq<string>, lower: Lower)
    ensures forall p :: p in pieces ==> lower(Trim(p)) in LowerAll(pieces, lower)
  {
    var all := LowerAll(pieces, lower);
    forall p | p in pieces ensures lower(Trim(p)) in all {
      var j :| 0 <= j < |pieces| && pieces[j] == p;
      assert all[j] == lower(Trim(p));
    }
  }

  /** A keyword list entry is never empty, so a blank line is never junk. */
  lemma KeywordsNonEmpty(junk: string, lower: Lower)
    ensures forall k :: k in Keywords(junk, lower) ==> k != ""
    ensures forall k :: k in Keywords(junk, lower) <==>
      k != "" && exists p :: p in SplitOn(junk, ",") && k == lower(Trim(p))
  {
    KeywordsOfMembers(SplitOn(junk, ","), lower);
  }

  /** `keywords.some(k => lineLower === k || lineLower.includes(k))`. */
  predicate IsJunk(lineLower: string, keywords: seq<string>)
    decreases |keywords|
  {
    keywords != []
    && (lineLower == keywords[0] || Contains(lineLower, keywords[0]) || IsJunk(lineLower, keywords[1..]))
  }

  /** A lower-cased line is junk exactly when it equals or contains some keyword. */
  lemma {:induction false} IsJunkSome(lineLower: string, keywords: seq<string>)
    ensures IsJunk(lineLower, keywords) <==>
      exists k :: k in keywords && (lineLower == k || Contains(lineLower, k))
    decreases |keywords|
  {
    if keywords != [] {
      IsJunkSome(lineLower, keywords[1..]);
      assert keywords[0] in keywords;
      assert forall k :: k in keywords <==> k == keywords[0] || k in keywords[1..];
    }
  }

  /** The lower-cased trimmed form of line `j`. */
  function LowerLine(lines: seq<string>, j: nat, lower: Lower): string
    requires j < |lines|
  {
    lower(Trim(lines[j]))
  }

  /** A line the look-ahead counts: non-blank and junk. */
  predicate JunkLine(lines: seq<string>, j: nat, keywords: seq<string>, lower: Lower)
    requires j < |lines|
  {
    LowerLine(lines, j, lower) != "" && IsJunk(LowerLine(lines, j, lower), keywords)
  }

  /** A line a junk block swallows: blank or junk. */
  predicate BlankOrJunk(lines: seq<string>, j: nat, keywords: seq<string>, lower: Lower)
    requires j < |lines|
  {
    LowerLine(lines, j, lower) == "" || IsJunk(LowerLine(lines, j, lower), keywords)
  }

  // ---------------------------------------------------------------------------
  // Chapter headers
  // ---------------------------------------------------------------------------

  /** `t` starts with `word`, ignoring case. */
  predicate StartsWithWord(t: string, word: string, lower: Lower)
  {
    |t| >= |word| && lower(t[..|word|]) == word
  }

  /** White space then a digit: `\s+\d`. */
  predicate SpaceThenDigit(rest: string)
  {
    |rest| > 0 && IsWhite(rest[0]) && TrimStart(rest) != [] && IsDigit(TrimStart(rest)[0])
  }

  const Chapter: string := "chapter"
  const Chuong: string := "ch\U{01B0}\U{01A1}ng"

  /** `/^(chapter|chương)\s+\d+/i` on a trimmed line. */
  predicate ChapterHeader(t: string, lower: Lower)
  {
    || (StartsWithWord(t, Chapter, lower) && SpaceThenDigit(t[|Chapter|..]))
    || (StartsWithWord(t, Chuong, lower) && SpaceThenDigit(t[|Chuong|..]))
  }

  // ---------------------------------------------------------------------------
  // Trailing numbers: `/\s+\d+(\+)?\s*$/`
  // ---------------------------------------------------------------------------

  /** `s` with its run of trailing digits removed. */
  function DropDigitsEnd(s: string): (r: string)
    ensures |r| <= |s| && r == s[..|r|]
    ensures AllDigits(s[|r|..])
    ensures r == [] || !IsDigit(r[|r| - 1])
  {
    if |s| > 0 && IsDigit(s[|s| - 1]) then DropDigitsEnd(s[..|s| - 1]) else s
  }

  /** `replace(/\s+\d+(\+)?\s*$/, '')`. */
  function StripEndNumber(line: string): string
  {
    var a := TrimEnd(line);
    var b := DropPlus(a);
    var c := DropDigitsEnd(b);
    var d := TrimEnd(c);
    if |c| < |b| && |d| < |c| then d else line
  }

  /** `s` without one trailing plus sign. */
  function DropPlus(s: string): (r: string)
    ensures |r| <= |s| && r == s[..|r|]
    ensures |r| == |s| || (|r| == |s| - 1 && s[|r|] == '+')
  {
    if s != [] && s[|s| - 1] == '+' then s[..|s| - 1] else s
  }

  /**
   * `x` is a whole match of the pattern: white space `x[..i]`, digits
   * `x[i..j]`, an optional plus sign up to `k`, white space to the end.
   */
  predicate EndNumberParts(x: string, i: nat, j: nat, k: nat)
  {
    && 0 < i < j <= k <= |x|
    && AllWhite(x[..i]) && AllDigits(x[i..j])
    && (k == j || (k == j + 1 && x[j] == '+'))
    && AllWhite(x[k..])
  }

  ghost predicate IsEndNumber(x: string)
  {
    exists i: nat, j: nat, k: nat :: EndNumberParts(x, i, j, k)
  }

  /** Trimming the end of `s[..e]` stops at `m` when `s[m..e]` is white and `s[m - 1]` is not. */
  lemma TrimEndAt(s: string, e: nat, m: nat)
    requires m <= e <= |s| && (forall q :: m <= q < e ==> IsWhite(s[q])) && (m == 0 || !IsWhite(s[m - 1]))
    ensures TrimEnd(s[..e]) == s[..m]
  {
    var p := s[..e];
    var t := TrimEnd(p);
    forall q | |t| <= q < e ensures IsWhite(s[q]) {
      assert p[|t|..][q - |t|] == s[q];
    }
    assert t == [] || s[|t| - 1] == t[|t| - 1];
    assert p[..m] == s[..m];
  }

  /** Dropping the trailing digits of `s[..e]` stops at `m` when `s[m..e]` is digits and `s[m - 1]` is not. */
  lemma DropDigitsEndAt(s: string, e: nat, m: nat)
    requires m <= e <= |s| && (forall q :: m <= q < e ==> IsDigit(s[q])) && (m == 0 || !IsDigit(s[m - 1]))
    ensures DropDigitsEnd(s[..e]) == s[..m]
  {
    var p := s[..e];
    var t := DropDigitsEnd(p);
    forall q | |t| <= q < e ensures IsDigit(s[q]) {
      assert p[|t|..][q - |t|] == s[q];
    }
    assert t == [] || s[|t| - 1] == t[|t| - 1];
    assert p[..m] == s[..m];
  }

  /** The plus sign, if the match has one, sits at `b`. */
  lemma DropPlusAt(s: string, b: nat, c: nat)
    requires 0 < b <= c <= |s| && IsDigit(s[b - 1]) && (c == b || (c == b + 1 && s[b] == '+'))
    ensures DropPlus(s[..c]) == s[..b]
  {
    assert s[..c][c - 1] == s[c - 1];
    assert s[..c][..b] == s[..b];
  }

  /**
   * The match laid out on the line itself: white space in `[n, a)`, digits
   * in `[a, b)`, an optional plus sign up to `c`, white space to the end.
   */
  lemma StripEndNumberAt(line: string, n: nat, a: nat, b: nat, c: nat)
    requires n < a < b <= c <= |line|
    requires forall q :: n <= q < a ==> IsWhite(line[q])
    requires forall q :: a <= q < b ==> IsDigit(line[q])
    requires c == b || (c == b + 1 && line[b] == '+')
    requires forall q :: c <= q < |line| ==> IsWhite(line[q])
    requires n == 0 || !IsWhite(line[n - 1])
    ensures StripEndNumber(line) == line[..n]
  {
    assert line[..|line|] == line;
    TrimEndAt(line, |line|, c);
    DropPlusAt(line, b, c);
    DropDigitsEndAt(line, b, a);
    TrimEndAt(line, a, n);
  }

  /**
   * When the line ends in a match starting at `n`, and the match cannot start
   * earlier (`line[n - 1]` is not white), exactly the match is removed.
   */
  lemma StripEndNumberMatch(line: string, n: nat)
    requires n <= |line| && IsEndNumber(line[n..]) && (n == 0 || !IsWhite(line[n - 1]))
    ensures StripEndNumber(line) == line[..n]
  {
    var x := line[n..];
    var i: nat, j: nat, k: nat :| EndNumberParts(x, i, j, k);
    forall q | n <= q < n + i ensures IsWhite(line[q]) {
      assert x[..i][q - n] == line[q];
    }
    forall q | n + i <= q < n + j ensures IsDigit(line[q]) {
      assert x[i..j][q - n - i] == line[q];
    }
    forall q | n + k <= q < |line| ensures IsWhite(line[q]) {
      assert x[k..][q - n - k] == line[q];
    }
    assert k == j || line[n + j] == x[j];
    StripEndNumberAt(line, n, n + i, n + j, n + k);
  }

  /** Absolute positions on the line give the parts of a match of its tail. */
  lemma EndNumberPartsAt(line: string, n: nat, a: nat, b: nat, c: nat)
    requires n < a < b <= c <= |line|
    requires forall q :: n <= q < a ==> IsWhite(line[q])
    requires forall q :: a <= q < b ==> IsDigit(line[q])
    requires c == b || (c == b + 1 && line[b] == '+')
    requires forall q :: c <= q < |line| ==> IsWhite(line[q])
    ensures IsEndNumber(line[n..])
  {
    var x := line[n..];
    var white, digits, tail := x[..a - n], x[a - n..b - n], x[c - n..];
    forall q | 0 <= q < |white| ensures IsWhite(white[q]) {
      assert white[q] == line[n + q];
    }
    forall q | 0 <= q < |digits| ensures IsDigit(digits[q]) {
      assert digits[q] == line[a + q];
    }
    forall q | 0 <= q < |tail| ensures IsWhite(tail[q]) {
      assert tail[q] == line[c + q];
    }
    assert c == b || x[b - n] == line[b];
    assert EndNumberParts(x, a - n, b - n, c - n);
  }

  /**
   * Conversely, a line that changes ends in a match that cannot start
   * earlier, and only that match is removed.
   */
  lemma StripEndNumberShape(line: string)
    ensures StripEndNumber(line) != line ==>
      && |StripEndNumber(line)| < |line|
      && StripEndNumber(line) == line[..|StripEndNumber(line)|]
      && IsEndNumber(line[|StripEndNumber(line)|..])
      && (StripEndNumber(line) == [] || !IsWhite(StripEndNumber(line)[|StripEndNumber(line)| - 1]))
  {
    var a := TrimEnd(line);
    var b := DropPlus(a);
    var c := DropDigitsEnd(b);
    var d := TrimEnd(c);
    if |c| < |b| && |d| < |c| {
      StripEndNumberLayout(line, a, b, c, d);
    }
  }

  lemma PrefixOfPrefix(s: string, t: string, u: string)
    requires |t| <= |s| && t == s[..|t|] && |u| <= |t| && u == t[..|u|]
    ensures |u| <= |s| && u == s[..|u|]
  {
    assert forall q :: 0 <= q < |u| ==> u[q] == t[q] == s[q];
  }

  lemma WhiteAfterTrimEnd(s: string)
    ensures forall q :: |TrimEnd(s)| <= q < |s| ==> IsWhite(s[q])
  {
    var t := TrimEnd(s);
    forall q | |t| <= q < |s| ensures IsWhite(s[q]) {
      assert s[|t|..][q - |t|] == s[q];
    }
  }

  lemma DigitsAfterDrop(s: string)
    ensures forall q :: |DropDigitsEnd(s)| <= q < |s| ==> IsDigit(s[q])
  {
    var t := DropDigitsEnd(s);
    forall q | |t| <= q < |s| ensures IsDigit(s[q]) {
      assert s[|t|..][q - |t|] == s[q];
    }
  }

  lemma StripEndNumberLayout(line: string, a: string, b: string, c: string, d: string)
    requires a == TrimEnd(line) && b == DropPlus(a) && c == DropDigitsEnd(b) && d == TrimEnd(c)
    requires |c| < |b| && |d| < |c|
    ensures d == line[..|d|] && IsEndNumber(line[|d|..])
  {
    PrefixOfPrefix(line, a, b);
    PrefixOfPrefix(line, b, c);
    PrefixOfPrefix(line, c, d);
    WhiteAfterTrimEnd(line);
    DigitsAfterDrop(b);
    WhiteAfterTrimEnd(c);
    forall q | |c| <= q < |b| ensures IsDigit(line[q]) {
      assert b[q] == line[q];
    }
    forall q | |d| <= q < |c| ensures IsWhite(line[q]) {
      assert c[q] == line[q];
    }
    assert |a| == |b| || line[|b|] == a[|b|];
    EndNumberPartsAt(line, |d|, |c|, |b|, |a|);
  }

  // ---------------------------------------------------------------------------
  // The line loop, as a specification
  // ---------------------------------------------------------------------------

  /** The index of the first non-blank junk line in `[j, stop)`, or -1. */
  function FirstJunk(lines: seq<string>, j: nat, stop: nat, keywords: seq<string>, lower: Lower): (r: int)
    requires stop <= |lines|
    ensures r == -1 || j <= r < stop
    decreases stop - j
  {
    if j >= stop then -1
    else if LowerLine(lines, j, lower) == "" then FirstJunk(lines, j + 1, stop, keywords, lower)
    else if IsJunk(LowerLine(lines, j, lower), keywords) then j
    else FirstJunk(lines, j + 1, stop, keywords, lower)
  }

  /** `FirstJunk` finds a junk line exactly when there is one, and the first. */
  lemma {:induction false} FirstJunkSpec(lines: seq<string>, j: nat, stop: nat, keywords: seq<string>, lower: Lower)
    requires stop <= |lines|
    ensures FirstJunk(lines, j, stop, keywords, lower) == -1 <==>
      forall m :: j <= m < stop ==> !JunkLine(lines, m, keywords, lower)
    ensures FirstJunk(lines, j, stop, keywords, lower) != -1 ==>
      JunkLine(lines, FirstJunk(lines, j, stop, keywords, lower), keywords, lower)
    decreases stop - j
  {
    if j < stop {
      FirstJunkSpec(lines, j + 1, stop, keywords, lower);
      if FirstJunk(lines, j, stop, keywords, lower) == -1 {
        assert !JunkLine(lines, j, keywords, lower);
        forall m | j <= m < stop ensures !JunkLine(lines, m, keywords, lower) {
          if m != j {
            assert j + 1 <= m < stop;
          }
        }
      } else {
        var r := FirstJunk(lines, j, stop, keywords, lower);
        assert j <= r < stop && JunkLine(lines, r, keywords, lower);
      }
    }
  }

  /** For every line, whether a junk block swallows it. */
  function Swallowed(lines: seq<string>, keywords: seq<string>, lower: Lower): (r: seq<bool>)
    ensures |r| == |lines|
    ensures forall j :: 0 <= j < |lines| ==> r[j] == BlankOrJunk(lines, j, keywords, lower)
  {
    seq(|lines|, j requires 0 <= j < |lines| => BlankOrJunk(lines, j, keywords, lower))
  }

  /** The end of the run of set flags starting at `i`. */
  function RunEnd(flags: seq<bool>, i: nat): (r: nat)
    requires i <= |flags|
    ensures i <= r <= |flags|
    ensures i < |flags| && flags[i] ==> r > i
    decreases |flags| - i
  {
    if i == |flags| then i else if flags[i] then RunEnd(flags, i + 1) else i
  }

  /** The run from `i` to `RunEnd` is all set, and the run stops at the end or at an unset flag. */
  lemma {:induction false} RunEndSpec(flags: seq<bool>, i: nat)
    requires i <= |flags|
    ensures forall m :: i <= m < RunEnd(flags, i) ==> flags[m]
    ensures RunEnd(flags, i) == |flags| || !flags[RunEnd(flags, i)]
    decreases |flags| - i
  {
    if i < |flags| && flags[i] {
      RunEndSpec(flags, i + 1);
      forall m | i <= m < RunEnd(flags, i) ensures flags[m] {
        if m != i {
          assert i + 1 <= m < RunEnd(flags, i + 1);
        }
      }
    }
  }

  /** Where a junk block starting at `i` ends: the first line from `i` on that is neither blank nor junk. */
  function SkipEnd(lines: seq<string>, i: nat, keywords: seq<string>, lower: Lower): (r: nat)
    requires i <= |lines|
    ensures i <= r <= |lines|
    ensures i < |lines| && BlankOrJunk(lines, i, keywords, lower) ==> r > i
  {
    RunEnd(Swallowed(lines, keywords, lower), i)
  }

  /** The block ends at the first line from `i` on that is neither blank nor junk. */
  lemma SkipEndSpec(lines: seq<string>, i: nat, keywords: seq<string>, lower: Lower)
    requires i <= |lines|
    ensures forall m :: i <= m < SkipEnd(lines, i, keywords, lower) ==> BlankOrJunk(lines, m, keywords, lower)
    ensures SkipEnd(lines, i, keywords, lower) == |lines|
      || !BlankOrJunk(lines, SkipEnd(lines, i, keywords, lower), keywords, lower)
  {
    RunEndSpec(Swallowed(lines, keywords, lower), i);
  }

  /** A kept line as it is written out. */
  function Cleaned(line: string, opts: Options): string
  {
    if opts.removeEndNumbers then StripEndNumber(line) else line
  }

  /** Line `i` is dropped as a chapter header. */
  predicate HeaderAt(lines: seq<string>, i: nat, opts: Options, lower: Lower)
    requires i < |lines|
  {
    opts.removeChapterHeader && ChapterHeader(Trim(lines[i]), lower)
  }

  /** Line `i` is junk and the look-ahead finds more junk: a block starts here. */
  predicate BlockAt(lines: seq<string>, i: nat, keywords: seq<string>, opts: Options, lower: Lower)
    requires i < |lines|
  {
    && opts.removeJunkBlocks && IsJunk(LowerLine(lines, i, lower), keywords)
    && FirstJunk(lines, i + 1, Min(i + 6, |lines|), keywords, lower) != -1
  }

  /** The output lines from line `i` on. */
  function FilterFrom(lines: seq<string>, i: nat, keywords: seq<string>, opts: Options, lower: Lower): seq<string>
    requires i <= |lines|
    decreases |lines| - i
  {
    if i == |lines| then []
    else if HeaderAt(lines, i, opts, lower) then FilterFrom(lines, i + 1, keywords, opts, lower)
    else if BlockAt(lines, i, keywords, opts, lower) then
      FilterFrom(lines, SkipEnd(lines, i, keywords, lower), keywords, opts, lower)
    else [Cleaned(lines[i], opts)] + FilterFrom(lines, i + 1, keywords, opts, lower)
  }

  /** The indices of the lines `FilterFrom` keeps. */
  ghost function KeptFrom(lines: seq<string>, i: nat, keywords: seq<string>, opts: Options, lower: Lower): seq<nat>
    requires i <= |lines|
    decreases |lines| - i
  {
    if i == |lines| then []
    else if HeaderAt(lines, i, opts, lower) then KeptFrom(lines, i + 1, keywords, opts, lower)
    else if BlockAt(lines, i, keywords, opts, lower) then
      KeptFrom(lines, SkipEnd(lines, i, keywords, lower), keywords, opts, lower)
    else [i] + KeptFrom(lines, i + 1, keywords, opts, lower)
  }

  /** Some non-blank junk line among the five lines after line `i`. */
  predicate JunkNearby(lines: seq<string>, i: nat, keywords: seq<string>, lower: Lower)
    requires i < |lines|
  {
    exists m :: i < m < Min(i + 6, |lines|) && JunkLine(lines, m, keywords, lower)
  }

  /** A line the filter may drop: a chapter header, or a blank or junk line with junk removal on. */
  predicate Droppable(lines: seq<string>, k: nat, keywords: seq<string>, opts: Options, lower: Lower)
    requires k < |lines|
  {
    || HeaderAt(lines, k, opts, lower)
    || (opts.removeJunkBlocks && BlankOrJunk(lines, k, keywords, lower))
  }

  /** A line the filter may keep: no chapter header, and no junk line with another junk line close after it. */
  predicate Keepable(lines: seq<string>, k: nat, keywords: seq<string>, opts: Options, lower: Lower)
    requires k < |lines|
  {
    && !HeaderAt(lines, k, opts, lower)
    && !(opts.removeJunkBlocks && IsJunk(LowerLine(lines, k, lower), keywords) && JunkNearby(lines, k, keywords, lower))
  }

  /**
   * `idx` lists, in increasing order, the lines from `i` on that make up
   * `out`, each cleaned and keepable; every other line from `i` on is
   * droppable.
   */
  ghost predicate Selection(out: seq<string>, lines: seq<string>, i: nat, idx: seq<nat>,
                            keywords: seq<string>, opts: Options, lower: Lower)
  {
    && |idx| == |out|
    && (forall m :: 0 <= m < |idx| ==>
          (i <= idx[m] < |lines| && out[m] == Cleaned(lines[idx[m]], opts)
           && Keepable(lines, idx[m], keywords, opts, lower)))
    && (forall m :: 0 < m < |idx| ==> idx[m - 1] < idx[m])
    && (forall k :: i <= k < |lines| && k !in idx ==> Droppable(lines, k, keywords, opts, lower))
  }

  lemma NearbySpec(lines: seq<string>, i: nat, keywords: seq<string>, lower: Lower)
    requires i < |lines|
    ensures JunkNearby(lines, i, keywords, lower) <==> FirstJunk(lines, i + 1, Min(i + 6, |lines|), keywords, lower) != -1
  {
    FirstJunkSpec(lines, i + 1, Min(i + 6, |lines|), keywords, lower);
  }

  /** Lines `[i, e)` that are all droppable extend a selection from `e` to one from `i`. */
  lemma SelectionSkip(out: seq<string>, lines: seq<string>, i: nat, e: nat, idx: seq<nat>,
                      keywords: seq<string>, opts: Options, lower: Lower)
    requires i <= e <= |lines|
    requires Selection(out, lines, e, idx, keywords, opts, lower)
    requires forall k :: i <= k < e ==> Droppable(lines, k, keywords, opts, lower)
    ensures Selection(out, lines, i, idx, keywords, opts, lower)
  {
  }

  /** A droppable line `i` in front of a selection from `i + 1`. */
  lemma SelectionDrop(out: seq<string>, lines: seq<string>, i: nat, idx: seq<nat>,
                      keywords: seq<string>, opts: Options, lower: Lower)
    requires i < |lines|
    requires Selection(out, lines, i + 1, idx, keywords, opts, lower)
    requires Droppable(lines, i, keywords, opts, lower)
    ensures Selection(out, lines, i, idx, keywords, opts, lower)
  {
  }

  /** A keepable line `i` in front of a selection from `i + 1`. */
  lemma SelectionCons(out: seq<string>, lines: seq<string>, i: nat, idx: seq<nat>,
                      keywords: seq<string>, opts: Options, lower: Lower)
    requires i < |lines|
    requires Selection(out, lines, i + 1, idx, keywords, opts, lower)
    requires Keepable(lines, i, keywords, opts, lower)
    ensures Selection([Cleaned(lines[i], opts)] + out, lines, i, [i] + idx, keywords, opts, lower)
  {
    var out', idx' := [Cleaned(lines[i], opts)] + out, [i] + idx;
    forall m | 0 < m < |idx'| ensures idx'[m] == idx[m - 1] && out'[m] == out[m - 1] {
    }
    forall k | i <= k < |lines| && k !in idx' ensures Droppable(lines, k, keywords, opts, lower) {
      assert k != i && k !in idx;
    }
  }

  /**
   * The output keeps lines in input order, cleaned, and only keepable ones;
   * a line disappears only as a chapter header or as a blank or junk line.
   */
  lemma {:induction false} FilterSelects(lines: seq<string>, i: nat, keywords: seq<string>, opts: Options, lower: Lower)
    requires i <= |lines|
    ensures Selection(FilterFrom(lines, i, keywords, opts, lower), lines, i, KeptFrom(lines, i, keywords, opts, lower),
                      keywords, opts, lower)
    decreases |lines| - i, 1
  {
    if i < |lines| {
      if HeaderAt(lines, i, opts, lower) {
        HeaderSelects(lines, i, keywords, opts, lower);
      } else if BlockAt(lines, i, keywords, opts, lower) {
        BlockSelects(lines, i, keywords, opts, lower);
      } else {
        KeptSelects(lines, i, keywords, opts, lower);
      }
    }
  }

  lemma {:induction false} HeaderSelects(lines: seq<string>, i: nat, keywords: seq<string>, opts: Options, lower: Lower)
    requires i < |lines| && HeaderAt(lines, i, opts, lower)
    ensures Selection(FilterFrom(lines, i, keywords, opts, lower), lines, i, KeptFrom(lines, i, keywords, opts, lower),
                      keywords, opts, lower)
    decreases |lines| - i, 0
  {
    FilterSelects(lines, i + 1, keywords, opts, lower);
    SelectionDrop(FilterFrom(lines, i + 1, keywords, opts, lower), lines, i,
                  KeptFrom(lines, i + 1, keywords, opts, lower), keywords, opts, lower);
  }

  lemma {:induction false} BlockSelects(lines: seq<string>, i: nat, keywords: seq<string>, opts: Options, lower: Lower)
    requires i < |lines| && !HeaderAt(lines, i, opts, lower) && BlockAt(lines, i, keywords, opts, lower)
    ensures Selection(FilterFrom(lines, i, keywords, opts, lower), lines, i, KeptFrom(lines, i, keywords, opts, lower),
                      keywords, opts, lower)
    decreases |lines| - i, 0
  {
    var e := SkipEnd(lines, i, keywords, lower);
    SkipEndSpec(lines, i, keywords, lower);
    FilterSelects(lines, e, keywords, opts, lower);
    SelectionSkip(FilterFrom(lines, e, keywords, opts, lower), lines, i, e,
                  KeptFrom(lines, e, keywords, opts, lower), keywords, opts, lower);
  }

  lemma {:induction false} KeptSelects(lines: seq<string>, i: nat, keywords: seq<string>, opts: Options, lower: Lower)
    requires i < |lines| && !HeaderAt(lines, i, opts, lower) && !BlockAt(lines, i, keywords, opts, lower)
    ensures Selection(FilterFrom(lines, i, keywords, opts, lower), lines, i, KeptFrom(lines, i, keywords, opts, lower),
                      keywords, opts, lower)
    decreases |lines| - i, 0
  {
    NearbySpec(lines, i, keywords, lower);
    FilterSelects(lines, i + 1, keywords, opts, lower);
    SelectionCons(FilterFrom(lines, i + 1, keywords, opts, lower), lines, i,
                  KeptFrom(lines, i + 1, keywords, opts, lower), keywords, opts, lower);
  }

  /**
   * A junk line followed within five lines by another non-blank junk line
   * starts a block: the block runs over every following blank or junk line
   * and the output resumes at the first other line.
   */
  lemma JunkBlockSkipped(lines: seq<string>, i: nat, e: nat, keywords: seq<string>, opts: Options, lower: Lower)
    requires i < e <= |lines|
    requires opts.removeJunkBlocks && !HeaderAt(lines, i, opts, lower)
    requires IsJunk(LowerLine(lines, i, lower), keywords) && JunkNearby(lines, i, keywords, lower)
    requires forall m :: i <= m < e ==> BlankOrJunk(lines, m, keywords, lower)
    requires e == |lines| || !BlankOrJunk(lines, e, keywords, lower)
    ensures FilterFrom(lines, i, keywords, opts, lower) == FilterFrom(lines, e, keywords, opts, lower)
  {
    NearbySpec(lines, i, keywords, lower);
    SkipEndSpec(lines, i, keywords, lower);
  }

  /** A junk line with no other non-blank junk line among the next five lines is kept. */
  lemma LoneJunkKept(lines: seq<string>, i: nat, keywords: seq<string>, opts: Options, lower: Lower)
    requires i < |lines|
    requires !HeaderAt(lines, i, opts, lower)
    requires !JunkNearby(lines, i, keywords, lower)
    ensures FilterFrom(lines, i, keywords, opts, lower)
      == [Cleaned(lines[i], opts)] + FilterFrom(lines, i + 1, keywords, opts, lower)
  {
    NearbySpec(lines, i, keywords, lower);
  }

  // ---------------------------------------------------------------------------
  // The line loop
  // ---------------------------------------------------------------------------

  /** The look-ahead of `processText`: the first non-blank junk line among the next five, or -1. */
  method FindNextJunk(lines: seq<string>, i: nat, keywords: seq<string>, lower: Lower) returns (nextJunkIdx: int)
    requires i < |lines|
    ensures nextJunkIdx == FirstJunk(lines, i + 1, Min(i + 6, |lines|), keywords, lower)
  {
    nextJunkIdx := -1;
    var stop := Min(i + 6, |lines|);
    var j := i + 1;
    while j < stop
      invariant i + 1 <= j <= stop
      invariant FirstJunk(lines, j, stop, keywords, lower) == FirstJunk(lines, i + 1, stop, keywords, lower)
      decreases stop - j
    {
      var nextLineLower := lower(Trim(lines[j]));
      if nextLineLower == "" {
        j := j + 1;
        continue;
      }
      if IsJunk(nextLineLower, keywords) {
        nextJunkIdx := j;
        break;
      }
      j := j + 1;
    }
  }

  /** The skip loop of `processText`: past every blank or junk line from `i` on. */
  method SkipJunkBlock(lines: seq<string>, i: nat, keywords: seq<string>, lower: Lower) returns (next: nat)
    requires i <= |lines|
    ensures next == SkipEnd(lines, i, keywords, lower)
  {
    next := i;
    while next < |lines|
      invariant i <= next <= |lines|
      invariant SkipEnd(lines, next, keywords, lower) == SkipEnd(lines, i, keywords, lower)
      decreases |lines| - next
    {
      var checkLine := LowerLine(lines, next, lower);
      var swallowed := checkLine == "" || IsJunk(checkLine, keywords);
      SkipEndStep(lines, next, keywords, lower, swallowed);
      if swallowed {
        next := next + 1;
      } else {
        break;
      }
    }
  }

  /** One line of the skip loop: a swallowed line moves the end search on, any other line is the end. */
  lemma SkipEndStep(lines: seq<string>, j: nat, keywords: seq<string>, lower: Lower, swallowed: bool)
    requires j < |lines| && swallowed == BlankOrJunk(lines, j, keywords, lower)
    ensures SkipEnd(lines, j, keywords, lower) == if swallowed then SkipEnd(lines, j + 1, keywords, lower) else j
  {
    var flags := Swallowed(lines, keywords, lower);
    assert flags[j] == swallowed;
  }

  /** Keeping line `i` moves it from the rest of the output to the part already built. */
  lemma KeepStep(done: seq<string>, lines: seq<string>, i: nat, keywords: seq<string>, opts: Options, lower: Lower)
    requires i < |lines| && !HeaderAt(lines, i, opts, lower) && !BlockAt(lines, i, keywords, opts, lower)
    ensures done + FilterFrom(lines, i, keywords, opts, lower)
         == (done + [Cleaned(lines[i], opts)]) + FilterFrom(lines, i + 1, keywords, opts, lower)
  {
    AppendAssoc(done, [Cleaned(lines[i], opts)], FilterFrom(lines, i + 1, keywords, opts, lower));
  }

  /** The line loop of `processText`; every turn moves `i` forward. */
  method FilterLines(lines: seq<string>, keywords: seq<string>, opts: Options, lower: Lower) returns (finalLines: seq<string>)
    ensures finalLines == FilterFrom(lines, 0, keywords, opts, lower)
  {
    finalLines := [];
    var i := 0;
    while i < |lines|
      invariant 0 <= i <= |lines|
      invariant finalLines + FilterFrom(lines, i, keywords, opts, lower) == FilterFrom(lines, 0, keywords, opts, lower)
      decreases |lines| - i
    {
      var line := lines[i];
      var lineTrimmed := Trim(line);
      var lineLower := lower(lineTrimmed);
      if opts.removeChapterHeader && ChapterHeader(lineTrimmed, lower) {
        // a chapter heading is dropped
        i := i + 1;
      } else {
        var nextJunkIdx := -1;
        if opts.removeJunkBlocks && IsJunk(lineLower, keywords) {
          nextJunkIdx := FindNextJunk(lines, i, keywords, lower);
        }
        if nextJunkIdx != -1 {
          // junk with more junk close below: the whole block is dropped
          i := SkipJunkBlock(lines, i, keywords, lower);
        } else {
          if opts.removeEndNumbers {
            line := StripEndNumber(line);
          }
          KeepStep(finalLines, lines, i, keywords, opts, lower);
          finalLines := finalLines + [line];
          i := i + 1;
        }
      }
    }
    assert FilterFrom(lines, i, keywords, opts, lower) == [];
    assert finalLines + [] == finalLines;
  }

  // ---------------------------------------------------------------------------
  // The passes over the joined text
  // ---------------------------------------------------------------------------

  /** `replace(/[0-9]/g, '')`. */
  function RemoveDigits(s: string): (r: string)
    ensures |r| <= |s|
  {
    if s == [] then [] else (if IsDigit(s[0]) then [] else [s[0]]) + RemoveDigits(s[1..])
  }

  /** Exactly the digits go: no digit is left and every other character stays. */
  lemma {:induction false} RemoveDigitsChars(s: string)
    ensures forall c :: c in RemoveDigits(s) <==> c in s && !IsDigit(c)
  {
    if s != [] {
      RemoveDigitsChars(s[1..]);
      assert forall c :: c in s <==> c == s[0] || c in s[1..];
    }
  }

  /** Digit removal works piece by piece, so the remaining characters keep their order. */
  lemma {:induction false} RemoveDigitsAppend(a: string, b: string)
    ensures RemoveDigits(a + b) == RemoveDigits(a) + RemoveDigits(b)
  {
    if a == [] {
      assert a + b == b;
    } else {
      RemoveDigitsAppend(a[1..], b);
      assert (a + b)[1..] == a[1..] + b;
      var h: string := if IsDigit(a[0]) then [] else [a[0]];
      AppendAssoc(h, RemoveDigits(a[1..]), RemoveDigits(b));
    }
  }

  /** White space other than a carriage return or a line feed: `[^\S\r\n]`. */
  predicate IsHorizontal(c: char)
  {
    IsWhite(c) && c != '\r' && c != '\n'
  }

  /** The length of the leading run of horizontal white space. */
  function HorizontalRun(s: string): (n: nat)
    ensures n <= |s|
    ensures forall k :: 0 <= k < n ==> IsHorizontal(s[k])
    ensures n == |s| || !IsHorizontal(s[n])
  {
    if s != [] && IsHorizontal(s[0]) then 1 + HorizontalRun(s[1..]) else 0
  }

  /** `replace(/[^\S\r\n]+/g, ' ')`. */
  function Collapse(s: string): string
    decreases |s|
  {
    if s == [] then []
    else if IsHorizontal(s[0]) then " " + Collapse(s[HorizontalRun(s)..])
    else [s[0]] + Collapse(s[1..])
  }

  /** Every horizontal white character is a plain space, and no two are adjacent. */
  predicate Collapsed(r: string)
  {
    && (forall k :: 0 <= k < |r| && IsHorizontal(r[k]) ==> r[k] == ' ')
    && (forall k :: 0 < k < |r| && IsHorizontal(r[k - 1]) ==> !IsHorizontal(r[k]))
  }

  /** Collapsing keeps the non-white characters and the kind of the first character, and leaves a collapsed string. */
  lemma CollapseShape(s: string)
    ensures Collapsed(Collapse(s))
    ensures NonWhite(Collapse(s)) == NonWhite(s)
    ensures s != [] ==> Collapse(s) != [] && (IsHorizontal(Collapse(s)[0]) <==> IsHorizontal(s[0]))
  {
    CollapseAll(s);
  }

  /** A run of horizontal white space followed by anything else is measured to its end. */
  lemma {:induction false} HorizontalRunOf(w: string, b: string)
    requires forall k :: 0 <= k < |w| ==> IsHorizontal(w[k])
    requires b == [] || !IsHorizontal(b[0])
    ensures HorizontalRun(w + b) == |w|
  {
    if w == [] {
      assert w + b == b;
    } else {
      assert (w + b)[0] == w[0] && (w + b)[1..] == w[1..] + b;
      HorizontalRunOf(w[1..], b);
    }
  }

  /** A run that ends inside `a` ends at the same place in `a + x`. */
  lemma {:induction false} HorizontalRunPrefix(a: string, x: string)
    requires HorizontalRun(a) < |a|
    ensures HorizontalRun(a + x) == HorizontalRun(a)
  {
    assert (a + x)[0] == a[0];
    if IsHorizontal(a[0]) {
      assert (a + x)[1..] == a[1..] + x;
      HorizontalRunPrefix(a[1..], x);
    }
  }

  /**
   * Every maximal run of horizontal white space becomes a single space, and
   * the text on either side is kept: `Collapse("a \t b")` is `"a b"`.
   */
  lemma {:induction false} CollapseSplice(a: string, w: string, b: string)
    requires a == [] || !IsHorizontal(a[|a| - 1])
    requires w != [] && forall k :: 0 <= k < |w| ==> IsHorizontal(w[k])
    requires b == [] || !IsHorizontal(b[0])
    ensures Collapse(a + w + b) == Collapse(a) + " " + Collapse(b)
    decreases |a|
  {
    if a == [] {
      assert a + w + b == w + b;
      CollapseRunFront(w, b);
    } else if IsHorizontal(a[0]) {
      var n := HorizontalRun(a);
      CollapseSplice(a[n..], w, b);
      CollapseLeadRun(a, w, b);
    } else {
      CollapseSplice(a[1..], w, b);
      CollapseLeadChar(a, w, b);
    }
  }

  /** A run at the very front becomes one space. */
  lemma CollapseRunFront(w: string, b: string)
    requires w != [] && forall k :: 0 <= k < |w| ==> IsHorizontal(w[k])
    requires b == [] || !IsHorizontal(b[0])
    ensures Collapse(w + b) == " " + Collapse(b)
  {
    HorizontalRunOf(w, b);
    assert (w + b)[0] == w[0] && (w + b)[|w|..] == b;
  }

  /** The splice step for a first piece that starts with its own run of horizontal white space. */
  lemma CollapseLeadRun(a: string, w: string, b: string)
    requires a != [] && IsHorizontal(a[0]) && !IsHorizontal(a[|a| - 1])
    requires HorizontalRun(a) < |a|
    requires Collapse(a[HorizontalRun(a)..] + w + b) == Collapse(a[HorizontalRun(a)..]) + " " + Collapse(b)
    ensures Collapse(a + w + b) == Collapse(a) + " " + Collapse(b)
  {
    var n := HorizontalRun(a);
    var s := a + w + b;
    AppendAssoc(a, w, b);
    HorizontalRunPrefix(a, w + b);
    assert s[0] == a[0] && s[n..] == a[n..] + w + b;
    var x, y := Collapse(a[n..]), Collapse(b);
    AppendAssoc(" ", x + " ", y);
    AppendAssoc(" ", x, " ");
  }

  /** The splice step for a first piece that starts with any other character: that character is kept. */
  lemma CollapseLeadChar(a: string, w: string, b: string)
    requires a != [] && !IsHorizontal(a[0])
    requires Collapse(a[1..] + w + b) == Collapse(a[1..]) + " " + Collapse(b)
    ensures Collapse(a + w + b) == Collapse(a) + " " + Collapse(b)
  {
    var s := a + w + b;
    assert s[0] == a[0] && s[1..] == a[1..] + w + b;
    var x, y := Collapse(a[1..]), Collapse(b);
    AppendAssoc([a[0]], x + " ", y);
    AppendAssoc([a[0]], x, " ");
  }

  /** A collapsed string is left as it is, so collapsing twice is collapsing once. */
  lemma {:induction false} CollapseFixed(s: string)
    requires Collapsed(s)
    ensures Collapse(s) == s
  {
    if s != [] {
      var t := s[1..];
      assert Collapsed(t) by {
        assert forall k :: 0 <= k < |t| ==> t[k] == s[k + 1];
      }
      CollapseFixed(t);
      if IsHorizontal(s[0]) {
        assert |s| > 1 ==> !IsHorizontal(s[1]);
        HorizontalRunOf(s[..1], t);
        assert s[..1] + t == s;
      }
      assert s == [s[0]] + t;
    }
  }

  /** The three facts of `CollapseShape` for one string. */
  predicate CollapseFacts(s: string)
  {
    && Collapsed(Collapse(s))
    && NonWhite(Collapse(s)) == NonWhite(s)
    && (s != [] ==> Collapse(s) != [] && (IsHorizontal(Collapse(s)[0]) <==> IsHorizontal(s[0])))
  }

  lemma {:induction false} CollapseAll(s: string)
    ensures CollapseFacts(s)
    decreases |s|
  {
    if s != [] {
      if IsHorizontal(s[0]) {
        CollapseAll(s[HorizontalRun(s)..]);
        CollapseRunStep(s);
      } else {
        CollapseAll(s[1..]);
        CollapseCharStep(s);
      }
    }
  }

  /** A leading run of horizontal white space becomes one space in front of the collapsed rest. */
  lemma CollapseRunStep(s: string)
    requires s != [] && IsHorizontal(s[0]) && CollapseFacts(s[HorizontalRun(s)..])
    ensures CollapseFacts(s)
  {
    var n := HorizontalRun(s);
    var t := s[n..];
    var ct := Collapse(t);
    var r := Collapse(s);
    assert r == " " + ct;
    assert forall k :: 0 < k < |r| ==> r[k] == ct[k - 1];
    assert AllWhite(s[..n]);
    NonWhiteSplitAt(s, n);
    NonWhiteOfWhite(s[..n]);
    NonWhiteAppend(" ", ct);
    assert NonWhite(" ") == [];
  }

  /** Any other first character is kept in front of the collapsed rest. */
  lemma CollapseCharStep(s: string)
    requires s != [] && !IsHorizontal(s[0]) && CollapseFacts(s[1..])
    ensures CollapseFacts(s)
  {
    var ct := Collapse(s[1..]);
    var r := Collapse(s);
    assert r == [s[0]] + ct;
    assert forall k :: 0 < k < |r| ==> r[k] == ct[k - 1];
    NonWhiteAppend([s[0]], ct);
    NonWhiteAppend([s[0]], s[1..]);
    assert [s[0]] + s[1..] == s;
  }

  predicate IsBreak(c: char)
  {
    c == '\r' || c == '\n'
  }

  /** The leading white space of `s` holds a carriage return or line feed: `\s*[\r\n]` matches at the start. */
  predicate HasBlankLine(s: string)
  {
    s != [] && IsWhite(s[0]) && (IsBreak(s[0]) || HasBlankLine(s[1..]))
  }

  /** The end of the longest match of `\s*[\r\n]` at the start: just past the last break in the leading white space. */
  function BlankEnd(s: string): (e: nat)
    requires HasBlankLine(s)
    ensures 0 < e <= |s| && AllWhite(s[..e]) && !HasBlankLine(s[e..])
  {
    if HasBlankLine(s[1..]) then
      var e := 1 + BlankEnd(s[1..]);
      assert forall k :: 1 <= k < e ==> s[..e][k] == s[1..][..e - 1][k - 1];
      assert s[e..] == s[1..][e - 1..];
      e
    else 1
  }

  /**
   * `replace(/^\s*[\r\n]/gm, '')`: at the start of the text and after each
   * line terminator, white space through the last break in it is removed.
   */
  function DropBlankLines(s: string, atLineStart: bool): string
    decreases |s|
  {
    if s == [] then []
    else if atLineStart && HasBlankLine(s) then DropBlankLines(s[BlankEnd(s)..], true)
    else [s[0]] + DropBlankLines(s[1..], IsLineTerminator(s[0]))
  }

  /** No line start of `r` is followed by white space holding a break: no blank lines. */
  predicate LineStartsClean(r: string, atLineStart: bool)
    decreases |r|
  {
    r == [] || ((atLineStart ==> !HasBlankLine(r)) && LineStartsClean(r[1..], IsLineTerminator(r[0])))
  }

  lemma {:induction false} NoBlankLineKept(s: string, b: bool)
    requires !HasBlankLine(s)
    ensures !HasBlankLine(DropBlankLines(s, b))
    decreases |s|
  {
    if s != [] && IsWhite(s[0]) {
      NoBlankLineKept(s[1..], IsLineTerminator(s[0]));
    }
  }

  /** After the pass no blank line is left. */
  lemma {:induction false} DropBlankLinesClean(s: string, b: bool)
    ensures LineStartsClean(DropBlankLines(s, b), b)
    decreases |s|
  {
    if s != [] {
      if b && HasBlankLine(s) {
        DropBlankLinesClean(s[BlankEnd(s)..], true);
      } else {
        DropBlankLinesClean(s[1..], IsLineTerminator(s[0]));
        if b && IsWhite(s[0]) {
          NoBlankLineKept(s[1..], IsLineTerminator(s[0]));
        }
      }
    }
  }

  /** Text without blank lines passes unchanged. */
  lemma {:induction false} DropBlankLinesFixed(r: string, b: bool)
    requires LineStartsClean(r, b)
    ensures DropBlankLines(r, b) == r
    decreases |r|
  {
    if r != [] {
      DropBlankLinesFixed(r[1..], IsLineTerminator(r[0]));
    }
  }

  /** Running the pass twice gives what running it once gives. */
  lemma DropBlankLinesIdempotent(s: string)
    ensures DropBlankLines(DropBlankLines(s, true), true) == DropBlankLines(s, true)
  {
    DropBlankLinesClean(s, true);
    DropBlankLinesFixed(DropBlankLines(s, true), true);
  }

  /** The pass removes white space only. */
  lemma {:induction false} DropBlankLinesNonWhite(s: string, b: bool)
    ensures NonWhite(DropBlankLines(s, b)) == NonWhite(s)
    decreases |s|
  {
    if s != [] {
      if b && HasBlankLine(s) {
        var e := BlankEnd(s);
        DropBlankLinesNonWhite(s[e..], true);
        NonWhiteSplitAt(s, e);
        NonWhiteOfWhite(s[..e]);
      } else {
        DropBlankLinesNonWhite(s[1..], IsLineTerminator(s[0]));
        NonWhiteAppend([s[0]], DropBlankLines(s[1..], IsLineTerminator(s[0])));
        NonWhiteAppend([s[0]], s[1..]);
        assert [s[0]] + s[1..] == s;
      }
    }
  }

  /** The white space option: collapse runs, drop blank lines, trim. */
  function TidyWhitespace(s: string): string
  {
    Trim(DropBlankLines(Collapse(s), true))
  }

  /** Tidying keeps every visible character in order and leaves no white space at the ends. */
  lemma TidyWhitespaceShape(s: string)
    ensures NonWhite(TidyWhitespace(s)) == NonWhite(s)
    ensures IsTrimmed(TidyWhitespace(s))
  {
    CollapseShape(s);
    DropBlankLinesNonWhite(Collapse(s), true);
    NonWhiteTrim(DropBlankLines(Collapse(s), true));
  }

  /** The passes after the line loop, in order. */
  function PostProcess(joined: string, opts: Options): string
  {
    var r := if opts.removeNumbers then RemoveDigits(joined) else joined;
    if opts.removeWhitespace then TidyWhitespace(r) else r
  }

  /** `processText` as a function: nothing for input that is only white space. */
  function FilterText(input: string, junk: string, opts: Options, lower: Lower): Option<string>
  {
    if AllWhite(input) then None
    else
      var lines := SplitLines(input);
      Some(PostProcess(Join(FilterFrom(lines, 0, Keywords(junk, lower), opts, lower), "\n"), opts))
  }

  /** The component state of the filter screen. */
  class TextFilter {
    var inputText: string
    var outputText: string
    var junkKeywords: string
    var options: Options

    constructor(junk: string)
      ensures inputText == "" && outputText == "" && junkKeywords == junk && options == DefaultOptions
    {
      inputText := "";
      outputText := "";
      junkKeywords := junk;
      options := DefaultOptions;
    }

    /** `processText`: input that is only white space leaves the output as it was. */
    method ProcessText(lower: Lower)
      modifies this
      ensures AllWhite(inputText) ==> outputText == old(outputText)
      ensures !AllWhite(inputText) ==> Some(outputText) == FilterText(inputText, junkKeywords, options, lower)
      ensures inputText == old(inputText) && junkKeywords == old(junkKeywords) && options == old(options)
    {
      if Trim(inputText) == [] {
        return;
      }
      var lines := SplitLines(inputText);
      var keywords := Keywords(junkKeywords, lower);
      var finalLines := FilterLines(lines, keywords, options, lower);
      var result := Join(finalLines, "\n");
      if options.removeNumbers {
        result := RemoveDigits(result);
      }
      if options.removeWhitespace {
        result := Collapse(result);
        result := DropBlankLines(result, true);
        result := Trim(result);
      }
      outputText := result;
    }
  }
}

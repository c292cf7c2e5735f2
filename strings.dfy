/**
 * The JavaScript string primitives the core relies on (`trim`, `split`,
 * `join`, `includes`, the regex class `\s`), stated over `seq<char>`.
 */
module Strings {

  /** The characters removed by JavaScript's `trim` and matched by the regex class `\s`. */
  predicate IsWhite(c: char)
  {
    c == ' ' || c == '\t' || c == '\n' || c == '\U{000B}' || c == '\U{000C}' || c == '\r'
    || c == '\U{00A0}' || c == '\U{1680}' || ('\U{2000}' <= c <= '\U{200A}')
    || c == '\U{2028}' || c == '\U{2029}' || c == '\U{202F}' || c == '\U{205F}'
    || c == '\U{3000}' || c == '\U{FEFF}'
  }

  /** The characters after which a multi-line regex `^` matches. */
  predicate IsLineTerminator(c: char)
  {
    c == '\n' || c == '\r' || c == '\U{2028}' || c == '\U{2029}'
  }

  /** ASCII digits, the regex class `\d`. */
  predicate IsDigit(c: char)
  {
    '0' <= c <= '9'
  }

  predicate AllWhite(s: string)
  {
    forall i :: 0 <= i < |s| ==> IsWhite(s[i])
  }

  predicate AllDigits(s: string)
  {
    forall i :: 0 <= i < |s| ==> IsDigit(s[i])
  }

  /** No white space at either end. */
  predicate IsTrimmed(s: string)
  {
    s == [] || (!IsWhite(s[0]) && !IsWhite(s[|s| - 1]))
  }

  function TrimStart(s: string): (r: string)
    ensures |r| <= |s| && r == s[|s| - |r|..]
    ensures AllWhite(s[..|s| - |r|])
    ensures r == [] || !IsWhite(r[0])
  {
    if |s| > 0 && IsWhite(s[0]) then
      var t := s[1..];
      var r := TrimStart(t);
      var n := |s| - |r|;
      assert t[|t| - |r|..] == s[n..];
      assert AllWhite(s[..n]) by {
        forall i | 0 <= i < n ensures IsWhite(s[..n][i]) {
          if i > 0 {
            assert s[..n][i] == t[..|t| - |r|][i - 1];
          }
        }
      }
      r
    else s
  }

  function TrimEnd(s: string): (r: string)
    ensures |r| <= |s| && r == s[..|r|]
    ensures AllWhite(s[|r|..])
    ensures r == [] || !IsWhite(r[|r| - 1])
  {
    if |s| > 0 && IsWhite(s[|s| - 1]) then
      var t := s[..|s| - 1];
      var r := TrimEnd(t);
      assert t[..|r|] == s[..|r|];
      assert AllWhite(s[|r|..]) by {
        forall i | 0 <= i < |s| - |r| ensures IsWhite(s[|r|..][i]) {
          if i < |t| - |r| {
            assert s[|r|..][i] == t[|r|..][i];
          }
        }
      }
      r
    else s
  }

  /** JavaScript's `String.prototype.trim`. */
  function Trim(s: string): (r: string)
    ensures IsTrimmed(r)
    ensures |r| <= |s|
    ensures r == [] <==> AllWhite(s)
    ensures IsTrimmed(s) ==> r == s
    ensures forall c :: c in r ==> c in s
  {
    var t := TrimStart(s);
    var r := TrimEnd(t);
    TrimParts(s, t, r);
    r
  }

  /** What `TrimStart` followed by `TrimEnd` leaves; the facts `Trim` promises. */
  lemma TrimParts(s: string, t: string, r: string)
    requires t == TrimStart(s) && r == TrimEnd(t)
    ensures IsTrimmed(r)
    ensures r == [] <==> AllWhite(s)
    ensures IsTrimmed(s) ==> r == s
    ensures forall c :: c in r ==> c in s
  {
    var n := |s| - |t|;
    assert t == s[n..];
    if r == [] {
      assert AllWhite(t) by {
        assert t[|r|..] == t;
      }
      forall i | 0 <= i < |s| ensures IsWhite(s[i]) {
        if i < n {
          assert s[i] == s[..n][i];
        } else {
          assert s[i] == t[i - n];
        }
      }
    } else {
      assert r[0] == t[0];
    }
    if t != [] {
      assert t[0] == s[n];
    }
    if IsTrimmed(s) && s != [] {
      assert TrimStart(s) == s;
      assert TrimEnd(s) == s;
    }
    forall c | c in r ensures c in s {
      var i :| 0 <= i < |r| && r[i] == c;
      assert r[i] == t[..|r|][i] == t[i];
      assert t[i] == s[n..][i] == s[n + i];
    }
  }

  /** The characters of `s` that are not white space, in order. */
  function NonWhite(s: string): (r: string)
    ensures |r| <= |s|
  {
    if s == [] then [] else (if IsWhite(s[0]) then [] else [s[0]]) + NonWhite(s[1..])
  }

  lemma {:induction false} NonWhiteAppend(a: string, b: string)
    ensures NonWhite(a + b) == NonWhite(a) + NonWhite(b)
  {
    if a != [] {
      assert (a + b)[0] == a[0];
      assert (a + b)[1..] == a[1..] + b;
      NonWhiteAppend(a[1..], b);
      var h: string := if IsWhite(a[0]) then [] else [a[0]];
      calc {
        NonWhite(a + b);
        h + NonWhite(a[1..] + b);
        h + (NonWhite(a[1..]) + NonWhite(b));
        (h + NonWhite(a[1..])) + NonWhite(b);
        NonWhite(a) + NonWhite(b);
      }
    } else {
      assert a + b == b;
    }
  }

  lemma {:induction false} NonWhiteOfWhite(s: string)
    requires AllWhite(s)
    ensures NonWhite(s) == []
  {
    if s != [] {
      assert AllWhite(s[1..]) by {
        forall i | 0 <= i < |s[1..]| ensures IsWhite(s[1..][i]) {
          assert s[1..][i] == s[i + 1];
        }
      }
      NonWhiteOfWhite(s[1..]);
    }
  }

  lemma NonWhiteTrimStart(s: string)
    ensures NonWhite(TrimStart(s)) == NonWhite(s)
  {
    var t := TrimStart(s);
    assert s == s[..|s| - |t|] + t;
    NonWhiteAppend(s[..|s| - |t|], t);
    NonWhiteOfWhite(s[..|s| - |t|]);
  }

  lemma NonWhiteTrimEnd(s: string)
    ensures NonWhite(TrimEnd(s)) == NonWhite(s)
  {
    var t := TrimEnd(s);
    assert s == t + s[|t|..];
    NonWhiteAppend(t, s[|t|..]);
    NonWhiteOfWhite(s[|t|..]);
  }

  /** Trimming removes white space only. */
  lemma NonWhiteTrim(s: string)
    ensures NonWhite(Trim(s)) == NonWhite(s)
  {
    NonWhiteTrimStart(s);
    NonWhiteTrimEnd(TrimStart(s));
  }

  /** Trimming that removes nothing leaves the string as it was. */
  lemma TrimKeepsLength(s: string)
    requires |Trim(s)| == |s|
    ensures Trim(s) == s
  {
    var t := TrimStart(s);
    assert |t| == |s|;
    assert t == s;
  }

  /** Re-brackets `x + a + b` once `a + b` is known. */
  lemma Regroup(x: string, a: string, b: string, ab: string)
    requires a + b == ab
    ensures x + a + b == x + ab
  {
    assert x + a + b == x + (a + b);
  }

  /** Extending a prefix of the parts by one part adds that part's non-white characters. */
  lemma NonWhiteConcatPrefix(parts: seq<string>, i: nat)
    requires 0 < i <= |parts|
    ensures NonWhite(Concat(parts[..i])) == NonWhite(Concat(parts[..i - 1])) + NonWhite(parts[i - 1])
  {
    assert parts[..i] == parts[..i - 1] + [parts[i - 1]];
    NonWhiteConcatSnoc(parts[..i - 1], parts[i - 1]);
  }

  /** Cutting a string in two splits its non-white characters the same way. */
  lemma NonWhiteSplitAt(s: string, k: nat)
    requires k <= |s|
    ensures NonWhite(s[..k]) + NonWhite(s[k..]) == NonWhite(s)
  {
    SliceGlue(s, k);
    NonWhiteGlue(s[..k], s[k..], s);
  }

  lemma SliceGlue<T>(s: seq<T>, k: nat)
    requires k <= |s|
    ensures s[..k] + s[k..] == s
  {
  }

  /** `NonWhiteAppend` for a string already known to be the two parts together. */
  lemma NonWhiteGlue(a: string, b: string, s: string)
    requires a + b == s
    ensures NonWhite(a) + NonWhite(b) == NonWhite(s)
  {
    NonWhiteAppend(a, b);
  }

  /** Appending one part adds exactly its non-white characters. */
  lemma NonWhiteConcatSnoc(parts: seq<string>, x: string)
    ensures NonWhite(Concat(parts + [x])) == NonWhite(Concat(parts)) + NonWhite(x)
  {
    NonWhiteConcatAppend(parts, [x]);
    assert [x][1..] == [];
    assert Concat([x]) == x;
  }

  /** All parts written one after another. */
  function Concat(parts: seq<string>): (r: string)
  {
    if parts == [] then [] else parts[0] + Concat(parts[1..])
  }

  /** The characters of a suffix occur in the whole string. */
  lemma SuffixChars(s: string, k: nat)
    requires k <= |s|
    ensures forall c :: c in s[k..] ==> c in s
  {
    forall c | c in s[k..] ensures c in s {
      var i :| 0 <= i < |s| - k && s[k..][i] == c;
      assert s[k + i] == c;
    }
  }

  /** Sequence concatenation is associative; stated on plain variables so that it is cheap to apply. */
  lemma AppendAssoc<T>(a: seq<T>, b: seq<T>, c: seq<T>)
    ensures a + b + c == a + (b + c)
  {
  }

  /** A prefix one element longer. */
  lemma PrefixSnoc<T>(xs: seq<T>, i: nat)
    requires 0 < i <= |xs|
    ensures xs[..i] == xs[..i - 1] + [xs[i - 1]]
  {
  }

  /** A non-empty sequence is its front followed by its last element. */
  lemma InitLast<T>(xs: seq<T>)
    requires xs != []
    ensures xs == xs[..|xs| - 1] + [xs[|xs| - 1]]
  {
  }

  /** A single part is written as it is. */
  lemma ConcatSingle(x: string)
    ensures Concat([x]) == x
  {
    assert [x][1..] == [];
  }

  /** The first part, then the rest. */
  lemma ConcatCons(x: string, rest: seq<string>)
    ensures Concat([x] + rest) == x + Concat(rest)
  {
    assert ([x] + rest)[1..] == rest;
  }

  lemma {:induction false} ConcatAppend(a: seq<string>, b: seq<string>)
    ensures Concat(a + b) == Concat(a) + Concat(b)
  {
    if a != [] {
      assert (a + b)[0] == a[0];
      assert (a + b)[1..] == a[1..] + b;
      ConcatAppend(a[1..], b);
      calc {
        Concat(a + b);
        a[0] + Concat(a[1..] + b);
        a[0] + (Concat(a[1..]) + Concat(b));
        (a[0] + Concat(a[1..])) + Concat(b);
        Concat(a) + Concat(b);
      }
    } else {
      assert a + b == b;
    }
  }

  lemma NonWhiteConcatAppend(a: seq<string>, b: seq<string>)
    ensures NonWhite(Concat(a + b)) == NonWhite(Concat(a)) + NonWhite(Concat(b))
  {
    ConcatAppend(a, b);
    NonWhiteAppend(Concat(a), Concat(b));
  }

  /** JavaScript's `Array.prototype.join`. */
  function Join(parts: seq<string>, sep: string): (r: string)
  {
    if |parts| == 0 then [] else if |parts| == 1 then parts[0] else parts[0] + sep + Join(parts[1..], sep)
  }

  lemma {:induction false} JoinAppend(parts: seq<string>, x: string, sep: string)
    requires parts != []
    ensures Join(parts + [x], sep) == Join(parts, sep) + sep + x
  {
    if |parts| > 1 {
      assert (parts + [x])[1..] == parts[1..] + [x];
      JoinAppend(parts[1..], x, sep);
    }
  }

  /** Joining with white space keeps exactly the non-white characters of the parts. */
  lemma {:induction false} NonWhiteJoin(parts: seq<string>, sep: string)
    requires AllWhite(sep)
    ensures NonWhite(Join(parts, sep)) == NonWhite(Concat(parts))
  {
    if |parts| == 1 {
      assert parts[1..] == [];
      assert Concat(parts) == parts[0] + Concat([]);
      assert Concat(parts) == parts[0];
    } else if |parts| > 1 {
      NonWhiteJoin(parts[1..], sep);
      NonWhiteAppend(parts[0] + sep, Join(parts[1..], sep));
      NonWhiteAppend(parts[0], sep);
      NonWhiteOfWhite(sep);
      NonWhiteAppend(parts[0], Concat(parts[1..]));
    }
  }

  /** Joining with a one-character separator is at most as long as the parts plus one separator each. */
  lemma {:induction false} JoinLength(parts: seq<string>, sep: string)
    requires parts != []
    ensures |Join(parts, sep)| == |Concat(parts)| + (|parts| - 1) * |sep|
  {
    if |parts| == 1 {
      assert parts[1..] == [];
      assert Concat(parts) == parts[0] + Concat([]);
    } else {
      JoinLength(parts[1..], sep);
    }
  }

  /** JavaScript's `split` with a non-empty string separator: cuts at each leftmost, non-overlapping occurrence. */
  function SplitOn(s: string, sep: string): (r: seq<string>)
    requires |sep| > 0
    ensures |r| >= 1
    decreases |s|
  {
    if |s| < |sep| then [s]
    else if sep <= s then [[]] + SplitOn(s[|sep|..], sep)
    else
      var rest := SplitOn(s[1..], sep);
      [[s[0]] + rest[0]] + rest[1..]
  }

  /** Splitting and joining again with the same separator gives back the input. */
  lemma {:induction false} JoinSplit(s: string, sep: string)
    requires |sep| > 0
    ensures Join(SplitOn(s, sep), sep) == s
    decreases |s|
  {
    if |s| < |sep| {
    } else if sep <= s {
      JoinSplit(s[|sep|..], sep);
      JoinAfterSep(s[|sep|..], SplitOn(s[|sep|..], sep), sep);
      assert s == sep + s[|sep|..];
    } else {
      JoinSplit(s[1..], sep);
      JoinAfterChar(s[0], s[1..], SplitOn(s[1..], sep), sep);
      assert s == [s[0]] + s[1..];
    }
  }

  /** An empty first piece puts the separator in front of the rest. */
  lemma JoinAfterSep(t: string, rest: seq<string>, sep: string)
    requires rest != [] && Join(rest, sep) == t
    ensures Join([[]] + rest, sep) == sep + t
  {
    var r := [[]] + rest;
    assert |r| > 1 && r[0] == [] && r[1..] == rest;
    assert [] + sep + t == sep + t;
  }

  /** A character glued to the first piece comes first in the joined string. */
  lemma JoinAfterChar(c: char, t: string, rest: seq<string>, sep: string)
    requires rest != [] && Join(rest, sep) == t
    ensures Join([[c] + rest[0]] + rest[1..], sep) == [c] + t
  {
    var r := [[c] + rest[0]] + rest[1..];
    if |rest| == 1 {
      assert r == [[c] + rest[0]];
    } else {
      assert r[1..] == rest[1..];
      AppendAssoc([c], rest[0], sep + Join(rest[1..], sep));
      assert rest[0] + sep + Join(rest[1..], sep) == rest[0] + (sep + Join(rest[1..], sep));
      assert ([c] + rest[0]) + sep + Join(rest[1..], sep) == ([c] + rest[0]) + (sep + Join(rest[1..], sep));
    }
  }

  /** No piece of a split on one character contains that character. */
  lemma {:induction false} SplitOnCharPieces(s: string, c: char)
    ensures forall p :: p in SplitOn(s, [c]) ==> c !in p
    decreases |s|
  {
    if |s| < 1 {
    } else if [c] <= s {
      SplitOnCharPieces(s[1..], c);
    } else {
      SplitOnCharPieces(s[1..], c);
      var rest := SplitOn(s[1..], [c]);
      assert s[0] != c;
      assert c !in rest[0];
      forall p | p in [[s[0]] + rest[0]] + rest[1..] ensures c !in p {
        if p == [s[0]] + rest[0] {
        } else {
          assert p in rest;
        }
      }
    }
  }

  /** Every piece of a split is at most as long as the input. */
  lemma {:induction false} SplitOnPieceLength(s: string, sep: string)
    requires |sep| > 0
    ensures forall p :: p in SplitOn(s, sep) ==> |p| <= |s|
    decreases |s|
  {
    if |s| < |sep| {
    } else if sep <= s {
      SplitOnPieceLength(s[|sep|..], sep);
    } else {
      SplitOnPieceLength(s[1..], sep);
    }
  }

  /** Every character of a piece of a split comes from the input. */
  lemma {:induction false} SplitOnPieceChars(s: string, sep: string)
    requires |sep| > 0
    ensures forall p, c :: p in SplitOn(s, sep) && c in p ==> c in s
    decreases |s|
  {
    if |s| < |sep| {
    } else if sep <= s {
      SplitOnPieceChars(s[|sep|..], sep);
      forall p, c | p in SplitOn(s, sep) && c in p ensures c in s {
        if p != [] {
          assert p in SplitOn(s[|sep|..], sep);
          assert c in s[|sep|..];
        }
      }
    } else {
      SplitOnPieceChars(s[1..], sep);
      var rest := SplitOn(s[1..], sep);
      forall p, c | p in SplitOn(s, sep) && c in p ensures c in s {
        if p == [s[0]] + rest[0] {
          if c != s[0] {
            assert c in rest[0];
            assert c in s[1..];
          }
        } else {
          assert p in rest;
          assert c in s[1..];
        }
      }
    }
  }

  /** Every character of a join comes from a part or from the separator. */
  lemma {:induction false} JoinChars(parts: seq<string>, sep: string)
    ensures forall c :: c in Join(parts, sep) ==> c in sep || exists p :: p in parts && c in p
  {
    if |parts| > 1 {
      JoinChars(parts[1..], sep);
      forall c | c in Join(parts, sep) ensures c in sep || exists p :: p in parts && c in p {
        if c in parts[0] {
        } else if c in sep {
        } else {
          assert c in Join(parts[1..], sep);
          if !(c in sep) {
            var p :| p in parts[1..] && c in p;
            assert p in parts;
          }
        }
      }
    } else if |parts| == 1 {
      assert parts[0] in parts;
    }
  }

  /** The separator does not occur in `p + sep` before position `|p|`. */
  predicate NoEarlyMatch(p: string, sep: string)
  {
    forall i :: 0 <= i < |p| ==> !(sep <= (p + sep)[i..])
  }

  /** Splitting `p + sep + rest` cuts first right after `p` when the separator cannot be found earlier. */
  lemma {:induction false} SplitOnFirst(p: string, sep: string, rest: string)
    requires |sep| > 0
    requires NoEarlyMatch(p, sep)
    ensures SplitOn(p + sep + rest, sep) == [p] + SplitOn(rest, sep)
    decreases |p|
  {
    var s := p + sep + rest;
    if p == [] {
      assert s == sep + rest;
      assert s[|sep|..] == rest;
    } else {
      assert !(sep <= (p + sep)[0..]);
      assert (p + sep)[0..] == p + sep;
      assert !(sep <= s);
      assert NoEarlyMatch(p[1..], sep) by {
        forall i | 0 <= i < |p[1..]| ensures !(sep <= (p[1..] + sep)[i..]) {
          assert (p[1..] + sep)[i..] == (p + sep)[i + 1..];
        }
      }
      SplitOnFirst(p[1..], sep, rest);
      assert s[1..] == p[1..] + sep + rest;
      var r := SplitOn(s[1..], sep);
      assert r == [p[1..]] + SplitOn(rest, sep);
      assert SplitOn(s, sep) == [[s[0]] + r[0]] + r[1..];
      assert r[1..] == SplitOn(rest, sep);
      assert [s[0]] + r[0] == p;
    }
  }

  /** A one-character join of pieces that avoid the character splits back into those pieces. */
  lemma {:induction false} SplitOnJoin(parts: seq<string>, c: char)
    requires parts != []
    requires forall p :: p in parts ==> c !in p
    ensures SplitOn(Join(parts, [c]), [c]) == parts
  {
    if |parts| == 1 {
      SplitOnNoSep(parts[0], c);
    } else {
      assert NoEarlyMatch(parts[0], [c]) by {
        forall i | 0 <= i < |parts[0]| ensures !([c] <= (parts[0] + [c])[i..]) {
          assert parts[0][i] in parts[0];
          assert (parts[0] + [c])[i..][0] == parts[0][i];
        }
      }
      SplitOnFirst(parts[0], [c], Join(parts[1..], [c]));
      SplitOnJoin(parts[1..], c);
    }
  }

  /** A string without the separator character splits into itself. */
  lemma {:induction false} SplitOnNoSep(s: string, c: char)
    requires c !in s
    ensures SplitOn(s, [c]) == [s]
    decreases |s|
  {
    if |s| >= 1 {
      assert s[0] != c;
      SplitOnNoSep(s[1..], c);
      assert [s[0]] + s[1..] == s;
    }
  }

  /** JavaScript's `endsWith` for a single character. */
  predicate EndsWithChar(s: string, c: char)
  {
    |s| > 0 && s[|s| - 1] == c
  }

  /** JavaScript's `includes`: `k` occurs somewhere in `s`. */
  predicate Contains(s: string, k: string)
    decreases |s|
  {
    k <= s || (s != [] && Contains(s[1..], k))
  }

  /** `Contains` holds exactly when `k` starts at some index of `s`. */
  lemma {:induction false} ContainsAt(s: string, k: string)
    ensures Contains(s, k) <==> exists i :: 0 <= i <= |s| && k <= s[i..]
    decreases |s|
  {
    assert s[0..] == s;
    if s != [] {
      ContainsAt(s[1..], k);
      if Contains(s[1..], k) {
        var i :| 0 <= i <= |s[1..]| && k <= s[1..][i..];
        assert s[1..][i..] == s[i + 1..];
      }
      if !(k <= s) && exists i :: 0 <= i <= |s| && k <= s[i..] {
        var i :| 0 <= i <= |s| && k <= s[i..];
        assert i > 0 && s[1..][i - 1..] == s[i..];
      }
    }
  }
  /** A string in which the separator cannot be found splits into itself. */
  lemma {:induction false} SplitOnNoMatch(p: string, sep: string)
    requires |sep| > 0
    requires NoEarlyMatch(p, sep)
    ensures SplitOn(p, sep) == [p]
    decreases |p|
  {
    if |p| >= |sep| {
      assert (p + sep)[0..] == p + sep;
      assert p[..|sep|] == (p + sep)[0..][..|sep|];
      assert !(sep <= p);
      assert NoEarlyMatch(p[1..], sep) by {
        forall i | 0 <= i < |p[1..]| ensures !(sep <= (p[1..] + sep)[i..]) {
          assert (p[1..] + sep)[i..] == (p + sep)[i + 1..];
        }
      }
      SplitOnNoMatch(p[1..], sep);
      assert [p[0]] + p[1..] == p;
    }
  }

  /** Joining pieces in which the separator cannot be found and splitting again gives the pieces back. */
  lemma {:induction false} SplitOnJoinSep(parts: seq<string>, sep: string)
    requires |sep| > 0 && parts != []
    requires forall k :: 0 <= k < |parts| ==> NoEarlyMatch(parts[k], sep)
    ensures SplitOn(Join(parts, sep), sep) == parts
  {
    if |parts| == 1 {
      SplitOnNoMatch(parts[0], sep);
    } else {
      SplitOnFirst(parts[0], sep, Join(parts[1..], sep));
      SplitOnJoinSep(parts[1..], sep);
    }
  }

  /** A character that does not occur cannot be found as a one-character separator. */
  lemma NoEarlyMatchChar(p: string, c: char)
    requires c !in p
    ensures NoEarlyMatch(p, [c])
  {
    forall i | 0 <= i < |p| ensures !([c] <= (p + [c])[i..]) {
      assert (p + [c])[i..][0] == p[i];
    }
  }

  /** `trim` of a trimmed, non-empty string followed by one newline removes just that newline. */
  lemma TrimNewline(s: string)
    requires s != [] && IsTrimmed(s)
    ensures Trim(s + "\n") == s
  {
    var t := s + "\n";
    assert TrimStart(t) == t;
    assert t[..|t| - 1] == s;
    assert TrimEnd(t) == TrimEnd(s);
  }

  /** The first part opens the join and the last part closes it. */
  lemma {:induction false} JoinEnds(parts: seq<string>, sep: string)
    requires parts != []
    ensures |parts[0]| <= |Join(parts, sep)| && Join(parts, sep)[..|parts[0]|] == parts[0]
    ensures |parts[|parts| - 1]| <= |Join(parts, sep)|
    ensures Join(parts, sep)[|Join(parts, sep)| - |parts[|parts| - 1]|..] == parts[|parts| - 1]
  {
    if |parts| > 1 {
      var init := parts[..|parts| - 1];
      var last := parts[|parts| - 1];
      assert init + [last] == parts;
      JoinAppend(init, last, sep);
      JoinEnds(parts[1..], sep);
      assert parts[1..][|parts[1..]| - 1] == last;
    }
  }
}

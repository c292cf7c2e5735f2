/**
 * The text segmenter of services/textProcessor.ts: it normalises raw prose,
 * splits it into period-terminated sentences and packs those greedily into
 * chunks of at most `maxChars` characters, hard-splitting sentences that are
 * longer on their own, and finally corrects a too-short tail chunk.
 */
module TextProcessor {
  import opened Wrappers
  import opened Strings

  type Pos = n: nat | n > 0 witness 1

  const DefaultMaxChars: int := 1500
  const DefaultMinCharsToMerge: int := 30

  /** A configured segmenter; the constructor guarantees `maxChars > 0`. */
  datatype Processor = Processor(maxChars: Pos, minCharsToMerge: int)

  /** The `TextProcessor` constructor: it throws for a non-positive `maxChars`. */
  function NewProcessor(maxChars: int, minCharsToMerge: int): (r: Result<Processor, string>)
    ensures r.Failure? <==> maxChars <= 0
    ensures r.Success? ==> r.value.maxChars == maxChars && r.value.minCharsToMerge == minCharsToMerge
  {
    if maxChars <= 0 then Failure("max_chars must be a positive number.")
    else Success(Processor(maxChars, minCharsToMerge))
  }

  // ---------------------------------------------------------------------------
  // cleanText
  // ---------------------------------------------------------------------------

  /** `replace(/\r\n/g, '\n')`. */
  function ReplaceCrLf(s: string): (r: string)
    ensures forall c :: c in r ==> c in s
  {
    if |s| >= 2 && s[0] == '\r' && s[1] == '\n' then
      assert s[1] in s;
      var t := ReplaceCrLf(s[2..]);
      assert forall c :: c in t ==> c in s;
      "\n" + t
    else if s == [] then []
    else
      var t := ReplaceCrLf(s[1..]);
      assert forall c :: c in t ==> c in s;
      [s[0]] + t
  }

  /** `replace(/\r/g, '\n')`. */
  function CrToLf(s: string): (r: string)
    ensures |r| == |s|
    ensures forall i :: 0 <= i < |s| ==> r[i] == (if s[i] == '\r' then '\n' else s[i])
  {
    if s == [] then [] else [if s[0] == '\r' then '\n' else s[0]] + CrToLf(s[1..])
  }

  /** No two line feeds in a row. */
  predicate NoDoubleNewline(s: string)
  {
    forall i :: 0 <= i < |s| - 1 ==> !(s[i] == '\n' && s[i + 1] == '\n')
  }

  /** `replace(/\n{2,}/g, '\n')`. */
  function CollapseNewlines(s: string): (r: string)
    ensures NoDoubleNewline(r)
    ensures forall c :: c in r ==> c in s
    ensures s != [] ==> r != [] && r[0] == s[0]
  {
    if |s| < 2 then s
    else if s[0] == '\n' && s[1] == '\n' then CollapseNewlines(s[1..])
    else
      var t := CollapseNewlines(s[1..]);
      assert forall c :: c in t ==> c in s;
      [s[0]] + t
  }

  /** The class `[\x00-\x08\x0b-\x1f\x7f]`: control characters other than tab and line feed. */
  predicate IsStrippedControl(c: char)
  {
    c <= '\U{0008}' || ('\U{000B}' <= c <= '\U{001F}') || c == '\U{007F}'
  }

  /** `replace(/[\x00-\x08\x0b-\x1f\x7f]/g, '')`. */
  function RemoveControls(s: string): (r: string)
    ensures forall c :: c in r ==> c in s && !IsStrippedControl(c)
  {
    if s == [] then []
    else
      var t := RemoveControls(s[1..]);
      if IsStrippedControl(s[0]) then t else [s[0]] + t
  }

  /** The class `[ \t]`. */
  predicate IsBlank(c: char)
  {
    c == ' ' || c == '\t'
  }

  /** No two spaces in a row. */
  predicate NoDoubleSpace(s: string)
  {
    forall i :: 0 <= i < |s| - 1 ==> !(s[i] == ' ' && s[i + 1] == ' ')
  }

  /** `s` without its leading run of blanks. */
  function DropBlanks(s: string): (r: string)
    ensures |r| <= |s|
    ensures r == [] || !IsBlank(r[0])
  {
    if s != [] && IsBlank(s[0]) then DropBlanks(s[1..]) else s
  }

  /** What `DropBlanks` leaves is a suffix of its argument. */
  lemma {:induction false} DropBlanksSuffix(s: string)
    ensures DropBlanks(s) == s[|s| - |DropBlanks(s)|..]
  {
    if s != [] && IsBlank(s[0]) {
      DropBlanksSuffix(s[1..]);
    }
  }

  /** `replace(/[ \t]+/g, ' ')`. */
  function CollapseBlanks(s: string): (r: string)
    ensures '\t' !in r && NoDoubleSpace(r)
    ensures forall c :: c in r ==> c in s || c == ' '
    ensures s != [] ==> r != [] && (r[0] == ' ' <==> IsBlank(s[0]))
    decreases |s|
  {
    if s == [] then []
    else if IsBlank(s[0]) then
      var d := DropBlanks(s[1..]);
      var t := CollapseBlanks(d);
      DropBlanksSuffix(s[1..]);
      SuffixChars(s, |s| - |d|);
      assert d == s[|s| - |d|..];
      " " + t
    else
      var t := CollapseBlanks(s[1..]);
      [s[0]] + t
  }

  lemma NoDoubleSpaceTrim(s: string)
    requires NoDoubleSpace(s)
    ensures NoDoubleSpace(Trim(s))
  {
    var t := TrimStart(s);
    var k := |s| - |t|;
    NoDoubleSpaceSlice(s, k, |s|);
    assert t == s[k..|s|];
    var r := TrimEnd(t);
    NoDoubleSpaceSlice(t, 0, |r|);
    assert r == t[0..|r|];
  }

  /** A piece of a single-spaced string is single-spaced. */
  lemma NoDoubleSpaceSlice(s: string, a: nat, b: nat)
    requires a <= b <= |s| && NoDoubleSpace(s)
    ensures NoDoubleSpace(s[a..b])
  {
    var u := s[a..b];
    forall i | 0 <= i < |u| - 1 ensures !(u[i] == ' ' && u[i + 1] == ' ') {
      assert u[i] == s[a + i] && u[i + 1] == s[a + i + 1];
    }
  }

  /** One line of `cleanText`: blanks collapsed, then trimmed. */
  function CleanLine(line: string): (r: string)
  {
    Trim(CollapseBlanks(line))
  }

  function CleanLines(lines: seq<string>): (r: seq<string>)
    ensures |r| == |lines|
    ensures forall i :: 0 <= i < |lines| ==> r[i] == CleanLine(lines[i])
  {
    if lines == [] then [] else [CleanLine(lines[0])] + CleanLines(lines[1..])
  }

  /** Line endings unified, runs of line feeds collapsed, control characters removed. */
  function Unified(text: string): (r: string)
  {
    RemoveControls(CollapseNewlines(CrToLf(ReplaceCrLf(text))))
  }

  /** The line-ending, control-character and blank normalisation of `cleanText` before the final trim. */
  function NormalizeLines(text: string): (r: string)
  {
    Join(CleanLines(SplitOn(Unified(text), "\n")), "\n")
  }

  /** `cleanText`. */
  function CleanText(text: string): (r: string)
  {
    Trim(NormalizeLines(text))
  }

  /** What `cleanText` guarantees about its output. */
  predicate IsClean(s: string)
  {
    && IsTrimmed(s)
    && NoDoubleSpace(s)
    && forall c :: c in s ==> c != '\r' && c != '\t' && !IsStrippedControl(c)
  }

  lemma WhiteIn(s: string, c: char)
    requires AllWhite(s) && c in s
    ensures IsWhite(c)
  {
  }

  lemma UnifiedChars(text: string)
    ensures forall c :: c in Unified(text) ==> c != '\r' && !IsStrippedControl(c)
    ensures AllWhite(text) ==> AllWhite(Unified(text))
  {
    var a := ReplaceCrLf(text);
    var b := CrToLf(a);
    assert forall c :: c in b ==> c != '\r' && (c in a || c == '\n');
    var v := Unified(text);
    assert forall c :: c in v ==> c in b;
    if AllWhite(text) {
      forall i | 0 <= i < |v| ensures IsWhite(v[i]) {
        assert v[i] in v;
        if v[i] != '\n' {
          WhiteIn(text, v[i]);
        }
      }
    }
  }

  lemma CleanLineChars(line: string)
    ensures forall c :: c in CleanLine(line) ==> c != '\t' && (c in line || c == ' ')
  {
  }

  /** Every character of a cleaned line is a character of the lines or a space, and never a tab. */
  lemma CleanedLinesChars(v: string, lines: seq<string>)
    requires forall p, c :: p in lines && c in p ==> c in v
    ensures forall p, c :: p in CleanLines(lines) && c in p ==> c != '\t' && (c in v || c == ' ')
  {
    var cleaned := CleanLines(lines);
    forall p, c | p in cleaned && c in p ensures c != '\t' && (c in v || c == ' ') {
      var i :| 0 <= i < |cleaned| && cleaned[i] == p;
      CleanLineChars(lines[i]);
      assert lines[i] in lines;
    }
  }

  /** Every character of the normalised text is a line feed, a space or a character of the unified text. */
  lemma NormalizeLinesFrom(text: string)
    ensures forall c :: c in NormalizeLines(text) ==> c != '\t' && (c in Unified(text) || c == ' ' || c == '\n')
  {
    var v := Unified(text);
    var cleaned := CleanLines(SplitOn(v, "\n"));
    SplitOnPieceChars(v, "\n");
    CleanedLinesChars(v, SplitOn(v, "\n"));
    JoinChars(cleaned, "\n");
  }

  /** Facts about the characters of the normalised text, before the final trim. */
  lemma NormalizeLinesChars(text: string)
    ensures forall c :: c in NormalizeLines(text) ==> c != '\r' && c != '\t' && !IsStrippedControl(c)
    ensures AllWhite(text) ==> AllWhite(NormalizeLines(text))
  {
    var v := Unified(text);
    var r := NormalizeLines(text);
    UnifiedChars(text);
    NormalizeLinesFrom(text);
    if AllWhite(text) {
      forall i | 0 <= i < |r| ensures IsWhite(r[i]) {
        assert r[i] in r;
        if r[i] in v {
          WhiteIn(v, r[i]);
        }
      }
    }
  }

  /**
   * `cleanText` yields text without carriage returns, tabs or control
   * characters, with single spaces, trimmed, and it keeps every visible
   * character of the input, in order.
   */
  lemma CleanTextIsClean(text: string)
    ensures IsClean(CleanText(text))
    ensures NonWhite(CleanText(text)) == Visible(text)
  {
    var n := NormalizeLines(text);
    NormalizeLinesNonWhite(text);
    NonWhiteTrim(n);
    NormalizeLinesChars(text);
    NormalizeLinesSpaces(text);
    NoDoubleSpaceTrim(n);
    assert forall c :: c in Trim(n) ==> c in n;
  }

  /** Every cleaned line is trimmed and single-spaced, so joining them with line feeds is single-spaced too. */
  lemma NormalizeLinesSpaces(text: string)
    ensures NoDoubleSpace(NormalizeLines(text))
  {
    var lines := SplitOn(Unified(text), "\n");
    var cleaned := CleanLines(lines);
    forall i | 0 <= i < |cleaned| ensures NoDoubleSpace(cleaned[i]) && IsTrimmed(cleaned[i]) {
      assert cleaned[i] == Trim(CollapseBlanks(lines[i]));
      NoDoubleSpaceTrim(CollapseBlanks(lines[i]));
    }
    JoinTrimmedNoDoubleSpace(cleaned);
  }

  lemma {:induction false} JoinTrimmedNoDoubleSpace(lines: seq<string>)
    requires forall i :: 0 <= i < |lines| ==> NoDoubleSpace(lines[i]) && IsTrimmed(lines[i])
    ensures NoDoubleSpace(Join(lines, "\n"))
  {
    if |lines| > 1 {
      JoinTrimmedNoDoubleSpace(lines[1..]);
      var a := lines[0];
      var b := Join(lines[1..], "\n");
      var j := a + "\n" + b;
      forall i | 0 <= i < |j| - 1 ensures !(j[i] == ' ' && j[i + 1] == ' ') {
        if i < |a| - 1 {
          assert j[i] == a[i] && j[i + 1] == a[i + 1];
        } else if i > |a| {
          assert j[i] == b[i - |a| - 1] && j[i + 1] == b[i - |a|];
        }
      }
    }
  }

  /** White-space-only input cleans to the empty string. */
  lemma CleanTextOfWhite(text: string)
    requires AllWhite(text)
    ensures CleanText(text) == []
  {
    NormalizeLinesChars(text);
  }

  // ---------------------------------------------------------------------------
  // What each cleanText step keeps
  // ---------------------------------------------------------------------------

  /** The characters of `s` that are neither white space nor a stripped control character, in order. */
  function Visible(s: string): string
  {
    if s == [] then []
    else (if IsWhite(s[0]) || IsStrippedControl(s[0]) then [] else [s[0]]) + Visible(s[1..])
  }

  /** The CR LF replacement works piece by piece wherever the first piece does not end in a carriage return. */
  lemma {:induction false} ReplaceCrLfAppend(a: string, b: string)
    requires a == [] || a[|a| - 1] != '\r'
    ensures ReplaceCrLf(a + b) == ReplaceCrLf(a) + ReplaceCrLf(b)
  {
    var s := a + b;
    if a == [] {
      assert s == b;
    } else if |a| >= 2 && a[0] == '\r' && a[1] == '\n' {
      assert s[0] == '\r' && s[1] == '\n' && s[2..] == a[2..] + b;
      ReplaceCrLfAppend(a[2..], b);
      AppendAssoc("\n", ReplaceCrLf(a[2..]), ReplaceCrLf(b));
    } else {
      assert s[0] == a[0] && s[1..] == a[1..] + b;
      assert |a| >= 2 ==> s[1] == a[1];
      ReplaceCrLfAppend(a[1..], b);
      AppendAssoc([a[0]], ReplaceCrLf(a[1..]), ReplaceCrLf(b));
    }
  }

  /** Each CR LF pair becomes one line feed, and the text on either side is treated on its own. */
  lemma ReplaceCrLfSplice(a: string, b: string)
    requires a == [] || a[|a| - 1] != '\r'
    ensures ReplaceCrLf(a + "\r\n" + b) == ReplaceCrLf(a) + "\n" + ReplaceCrLf(b)
  {
    var t := "\r\n" + b;
    assert t[0] == '\r' && t[1] == '\n' && t[2..] == b;
    AppendAssoc(a, "\r\n", b);
    ReplaceCrLfAppend(a, t);
    AppendAssoc(ReplaceCrLf(a), "\n", ReplaceCrLf(b));
  }

  /** Text without a CR LF pair is left as it is. */
  lemma {:induction false} ReplaceCrLfFixed(s: string)
    requires forall i :: 0 <= i < |s| - 1 ==> !(s[i] == '\r' && s[i + 1] == '\n')
    ensures ReplaceCrLf(s) == s
  {
    if s != [] {
      var t := s[1..];
      assert forall i :: 0 <= i < |t| ==> t[i] == s[i + 1];
      ReplaceCrLfFixed(t);
      assert s == [s[0]] + t;
    }
  }

  /** The CR LF replacement only turns white space into white space. */
  lemma {:induction false} ReplaceCrLfNonWhite(s: string)
    ensures NonWhite(ReplaceCrLf(s)) == NonWhite(s)
    decreases |s|
  {
    if |s| >= 2 && s[0] == '\r' && s[1] == '\n' {
      ReplaceCrLfNonWhite(s[2..]);
      var t := ReplaceCrLf(s[2..]);
      assert ("\n" + t)[1..] == t;
      assert s[1..][1..] == s[2..];
    } else if s != [] {
      ReplaceCrLfNonWhite(s[1..]);
      assert ([s[0]] + ReplaceCrLf(s[1..]))[1..] == ReplaceCrLf(s[1..]);
    }
  }

  /** Turning carriage returns into line feeds only changes white space. */
  lemma {:induction false} CrToLfNonWhite(s: string)
    ensures NonWhite(CrToLf(s)) == NonWhite(s)
  {
    if s != [] {
      CrToLfNonWhite(s[1..]);
      var t := CrToLf(s);
      assert t[1..] == CrToLf(s[1..]);
    }
  }

  /** A run of line feeds in front of a line becomes one line feed. */
  lemma {:induction false} CollapseNewlinesRun(w: string, b: string)
    requires w != [] && forall i :: 0 <= i < |w| ==> w[i] == '\n'
    requires b == [] || b[0] != '\n'
    ensures CollapseNewlines(w + b) == "\n" + CollapseNewlines(b)
    decreases |w|
  {
    var s := w + b;
    if |w| == 1 {
      if b == [] {
        assert s == "\n";
      } else {
        assert s[0] == '\n' && s[1] == b[0] && s[1..] == b;
      }
    } else {
      assert s[0] == '\n' && s[1] == '\n' && s[1..] == w[1..] + b;
      CollapseNewlinesRun(w[1..], b);
    }
  }

  /** Every maximal run of line feeds becomes a single line feed, and the text on either side is kept. */
  lemma {:induction false} CollapseNewlinesSplice(a: string, w: string, b: string)
    requires a == [] || a[|a| - 1] != '\n'
    requires w != [] && forall i :: 0 <= i < |w| ==> w[i] == '\n'
    requires b == [] || b[0] != '\n'
    ensures CollapseNewlines(a + w + b) == CollapseNewlines(a) + "\n" + CollapseNewlines(b)
    decreases |a|
  {
    var s := a + w + b;
    if a == [] {
      assert s == w + b;
      CollapseNewlinesRun(w, b);
    } else {
      assert s[0] == a[0] && s[1..] == a[1..] + w + b;
      assert |a| >= 2 ==> s[1] == a[1];
      assert |a| == 1 ==> s[1] == '\n' && a[0] != '\n';
      CollapseNewlinesSplice(a[1..], w, b);
      var x, y := CollapseNewlines(a[1..]), CollapseNewlines(b);
      AppendAssoc([a[0]], x + "\n", y);
      AppendAssoc([a[0]], x, "\n");
    }
  }

  /** Text without two line feeds in a row is left as it is. */
  lemma {:induction false} CollapseNewlinesFixed(s: string)
    requires NoDoubleNewline(s)
    ensures CollapseNewlines(s) == s
  {
    if |s| >= 2 {
      var t := s[1..];
      assert forall i :: 0 <= i < |t| ==> t[i] == s[i + 1];
      CollapseNewlinesFixed(t);
      assert s == [s[0]] + t;
    }
  }

  /** Collapsing line feeds only removes line feeds. */
  lemma {:induction false} CollapseNewlinesNonWhite(s: string)
    ensures NonWhite(CollapseNewlines(s)) == NonWhite(s)
  {
    if |s| >= 2 {
      CollapseNewlinesNonWhite(s[1..]);
      if !(s[0] == '\n' && s[1] == '\n') {
        assert ([s[0]] + CollapseNewlines(s[1..]))[1..] == CollapseNewlines(s[1..]);
      }
    }
  }

  /** Control stripping works piece by piece, so every other character keeps its place in the order. */
  lemma {:induction false} RemoveControlsAppend(a: string, b: string)
    ensures RemoveControls(a + b) == RemoveControls(a) + RemoveControls(b)
  {
    if a == [] {
      assert a + b == b;
    } else {
      assert (a + b)[0] == a[0] && (a + b)[1..] == a[1..] + b;
      RemoveControlsAppend(a[1..], b);
      if !IsStrippedControl(a[0]) {
        AppendAssoc([a[0]], RemoveControls(a[1..]), RemoveControls(b));
      }
    }
  }

  /** Text without a stripped control character is left as it is. */
  lemma {:induction false} RemoveControlsFixed(s: string)
    requires forall i :: 0 <= i < |s| ==> !IsStrippedControl(s[i])
    ensures RemoveControls(s) == s
  {
    if s != [] {
      RemoveControlsFixed(s[1..]);
      assert s == [s[0]] + s[1..];
    }
  }

  /** Stripping controls, then keeping the non-white characters, keeps exactly the visible ones. */
  lemma {:induction false} NonWhiteRemoveControls(s: string)
    ensures NonWhite(RemoveControls(s)) == Visible(s)
  {
    if s != [] {
      NonWhiteRemoveControls(s[1..]);
      if !IsStrippedControl(s[0]) {
        assert ([s[0]] + RemoveControls(s[1..]))[1..] == RemoveControls(s[1..]);
      }
    }
  }

  /** Keeping the non-white characters, then stripping controls, keeps exactly the visible ones. */
  lemma {:induction false} RemoveControlsNonWhite(s: string)
    ensures RemoveControls(NonWhite(s)) == Visible(s)
  {
    if s != [] {
      RemoveControlsNonWhite(s[1..]);
      var h: string := if IsWhite(s[0]) then [] else [s[0]];
      RemoveControlsAppend(h, NonWhite(s[1..]));
      if h != [] {
        assert h[1..] == [];
      }
    }
  }

  /** Skipping a leading run of blanks skips white space only. */
  lemma DropBlanksNonWhite(s: string)
    ensures NonWhite(DropBlanks(s)) == NonWhite(s)
  {
    var d := DropBlanks(s);
    var k := |s| - |d|;
    DropBlanksPrefix(s);
    NonWhiteSplitAt(s, k);
    NonWhiteOfWhite(s[..k]);
  }

  /** What `DropBlanks` skips is a run of blanks. */
  lemma {:induction false} DropBlanksPrefix(s: string)
    ensures forall i :: 0 <= i < |s| - |DropBlanks(s)| ==> IsBlank(s[i])
  {
    if s != [] && IsBlank(s[0]) {
      DropBlanksPrefix(s[1..]);
    }
  }

  /** A run of blanks followed by a non-blank is skipped entirely. */
  lemma {:induction false} DropBlanksRun(w: string, b: string)
    requires forall i :: 0 <= i < |w| ==> IsBlank(w[i])
    requires b == [] || !IsBlank(b[0])
    ensures DropBlanks(w + b) == b
  {
    if w == [] {
      assert w + b == b;
    } else {
      assert (w + b)[0] == w[0] && (w + b)[1..] == w[1..] + b;
      DropBlanksRun(w[1..], b);
    }
  }

  /** In a string that ends in a non-blank, skipping blanks stops inside it, before that last character. */
  lemma {:induction false} DropBlanksAppend(a: string, x: string)
    requires a != [] && !IsBlank(a[|a| - 1])
    ensures DropBlanks(a + x) == DropBlanks(a) + x
    ensures DropBlanks(a) != [] && DropBlanks(a)[|DropBlanks(a)| - 1] == a[|a| - 1]
  {
    assert (a + x)[0] == a[0];
    if IsBlank(a[0]) {
      assert (a + x)[1..] == a[1..] + x;
      DropBlanksAppend(a[1..], x);
    }
  }

  /** A run of blanks at the front becomes one space. */
  lemma CollapseBlanksRun(w: string, b: string)
    requires w != [] && forall i :: 0 <= i < |w| ==> IsBlank(w[i])
    requires b == [] || !IsBlank(b[0])
    ensures CollapseBlanks(w + b) == " " + CollapseBlanks(b)
  {
    var s := w + b;
    assert s[0] == w[0] && s[1..] == w[1..] + b;
    DropBlanksRun(w[1..], b);
  }

  /** Every maximal run of blanks becomes a single space, and the text on either side is kept. */
  lemma {:induction false} CollapseBlanksSplice(a: string, w: string, b: string)
    requires a == [] || !IsBlank(a[|a| - 1])
    requires w != [] && forall i :: 0 <= i < |w| ==> IsBlank(w[i])
    requires b == [] || !IsBlank(b[0])
    ensures CollapseBlanks(a + w + b) == CollapseBlanks(a) + " " + CollapseBlanks(b)
    decreases |a|
  {
    if a == [] {
      assert a + w + b == w + b;
      CollapseBlanksRun(w, b);
    } else if IsBlank(a[0]) {
      var d := DropBlanks(a[1..]);
      DropBlanksAppend(a[1..], w + b);
      CollapseBlanksSplice(d, w, b);
      CollapseBlanksLead(a, w + b, d);
      AppendAssoc(a, w, b);
      AppendAssoc(d, w, b);
      var x, y := CollapseBlanks(d), CollapseBlanks(b);
      AppendAssoc(" ", x + " ", y);
      AppendAssoc(" ", x, " ");
    } else {
      CollapseBlanksSplice(a[1..], w, b);
      CollapseBlanksKeep(a, w, b);
    }
  }

  /** The splice step for a first piece that starts with blanks: its leading run becomes the first space. */
  lemma CollapseBlanksLead(a: string, x: string, d: string)
    requires a != [] && IsBlank(a[0]) && d == DropBlanks(a[1..]) && DropBlanks(a[1..] + x) == d + x
    ensures CollapseBlanks(a + x) == " " + CollapseBlanks(d + x)
    ensures CollapseBlanks(a) == " " + CollapseBlanks(d)
  {
    var s := a + x;
    assert s[0] == a[0] && s[1..] == a[1..] + x;
    CollapseBlanksAtBlank(s);
    CollapseBlanksAtBlank(a);
  }

  /** A leading blank starts a run that becomes one space. */
  lemma CollapseBlanksAtBlank(s: string)
    requires s != [] && IsBlank(s[0])
    ensures CollapseBlanks(s) == " " + CollapseBlanks(DropBlanks(s[1..]))
  {
  }

  /** The splice step for a first piece that starts with another character: that character is kept. */
  lemma CollapseBlanksKeep(a: string, w: string, b: string)
    requires a != [] && !IsBlank(a[0])
    requires CollapseBlanks(a[1..] + w + b) == CollapseBlanks(a[1..]) + " " + CollapseBlanks(b)
    ensures CollapseBlanks(a + w + b) == CollapseBlanks(a) + " " + CollapseBlanks(b)
  {
    var s := a + w + b;
    assert s[0] == a[0] && s[1..] == a[1..] + w + b;
    var x, y := CollapseBlanks(a[1..]), CollapseBlanks(b);
    AppendAssoc([a[0]], x + " ", y);
    AppendAssoc([a[0]], x, " ");
  }

  /** Text without tabs or two spaces in a row is left as it is. */
  lemma {:induction false} CollapseBlanksFixed(s: string)
    requires '\t' !in s && NoDoubleSpace(s)
    ensures CollapseBlanks(s) == s
  {
    if s != [] {
      var t := s[1..];
      NoDoubleSpaceSlice(s, 1, |s|);
      SuffixChars(s, 1);
      CollapseBlanksFixed(t);
      if IsBlank(s[0]) {
        assert t != [] ==> t[0] == s[1] && s[1] != ' ' && s[1] in s;
      }
      assert s == [s[0]] + t;
    }
  }

  /** Collapsing blanks only turns white space into white space. */
  lemma {:induction false} CollapseBlanksNonWhite(s: string)
    ensures NonWhite(CollapseBlanks(s)) == NonWhite(s)
    decreases |s|
  {
    if s != [] {
      if IsBlank(s[0]) {
        var d := DropBlanks(s[1..]);
        CollapseBlanksNonWhite(d);
        DropBlanksNonWhite(s[1..]);
        NonWhiteAppend(" ", CollapseBlanks(d));
        assert NonWhite(" ") == [];
      } else {
        CollapseBlanksNonWhite(s[1..]);
        assert ([s[0]] + CollapseBlanks(s[1..]))[1..] == CollapseBlanks(s[1..]);
      }
    }
  }

  /** Cleaning the lines one by one keeps their non-white characters, in order. */
  lemma {:induction false} CleanLinesNonWhite(lines: seq<string>)
    ensures NonWhite(Concat(CleanLines(lines))) == NonWhite(Concat(lines))
  {
    if lines != [] {
      CleanLinesNonWhite(lines[1..]);
      var c := CleanLines(lines);
      assert c[1..] == CleanLines(lines[1..]);
      CollapseBlanksNonWhite(lines[0]);
      NonWhiteTrim(CollapseBlanks(lines[0]));
      NonWhiteAppend(c[0], Concat(c[1..]));
      NonWhiteAppend(lines[0], Concat(lines[1..]));
    }
  }

  /** The unified text keeps exactly the visible characters of the input. */
  lemma UnifiedNonWhite(text: string)
    ensures NonWhite(Unified(text)) == Visible(text)
  {
    var a := ReplaceCrLf(text);
    var b := CrToLf(a);
    var c := CollapseNewlines(b);
    ReplaceCrLfNonWhite(text);
    CrToLfNonWhite(a);
    CollapseNewlinesNonWhite(b);
    NonWhiteRemoveControls(c);
    RemoveControlsNonWhite(c);
    RemoveControlsNonWhite(text);
  }

  /** The normalised lines keep exactly the visible characters of the input. */
  lemma NormalizeLinesNonWhite(text: string)
    ensures NonWhite(NormalizeLines(text)) == Visible(text)
  {
    var v := Unified(text);
    LinesNonWhite(v);
    UnifiedNonWhite(text);
  }

  /** Splitting into lines, cleaning each and joining them again keeps the non-white characters. */
  lemma LinesNonWhite(v: string)
    ensures NonWhite(Join(CleanLines(SplitOn(v, "\n")), "\n")) == NonWhite(v)
  {
    var lines := SplitOn(v, "\n");
    CleanedJoinNonWhite(lines);
    JoinSplit(v, "\n");
  }

  /** Cleaning every line keeps the non-white characters of the lines joined by line feeds. */
  lemma CleanedJoinNonWhite(lines: seq<string>)
    ensures NonWhite(Join(CleanLines(lines), "\n")) == NonWhite(Join(lines, "\n"))
  {
    assert AllWhite("\n");
    NonWhiteJoin(CleanLines(lines), "\n");
    CleanLinesNonWhite(lines);
    NonWhiteJoin(lines, "\n");
  }

  // ---------------------------------------------------------------------------
  // Paragraphs and sentences
  // ---------------------------------------------------------------------------

  /** `filter(p => p)`: the non-empty strings, in order. */
  function NonEmpty(parts: seq<string>): (r: seq<string>)
    ensures forall p :: p in r <==> p in parts && p != []
    ensures |r| <= |parts|
  {
    if parts == [] then []
    else
      var t := NonEmpty(parts[1..]);
      assert forall p :: p in parts <==> p == parts[0] || p in parts[1..];
      if parts[0] == [] then t else [parts[0]] + t
  }

  /** Dropping empty strings changes no character. */
  lemma {:induction false} ConcatNonEmpty(parts: seq<string>)
    ensures Concat(NonEmpty(parts)) == Concat(parts)
  {
    if parts != [] {
      ConcatNonEmpty(parts[1..]);
      if parts[0] != [] {
        var t := NonEmpty(parts[1..]);
        assert ([parts[0]] + t)[1..] == t;
      }
    }
  }

  /** The paragraphs: the non-empty lines of the cleaned text. */
  function Paragraphs(cleaned: string): (r: seq<string>)
  {
    NonEmpty(SplitOn(cleaned, "\n"))
  }

  function TrimAll(parts: seq<string>): (r: seq<string>)
    ensures |r| == |parts|
    ensures forall i :: 0 <= i < |parts| ==> r[i] == Trim(parts[i])
  {
    if parts == [] then [] else [Trim(parts[0])] + TrimAll(parts[1..])
  }

  function WithPeriods(parts: seq<string>): (r: seq<string>)
    ensures |r| == |parts|
    ensures forall i :: 0 <= i < |parts| ==> r[i] == parts[i] + "."
  {
    if parts == [] then [] else [parts[0] + "."] + WithPeriods(parts[1..])
  }

  /** The trimmed, non-empty pieces of a paragraph between its periods. */
  function Fragments(para: string): (r: seq<string>)
    ensures forall f :: f in r ==> f != [] && IsTrimmed(f) && '.' !in f
  {
    var pieces := SplitOn(para, ".");
    SplitOnCharPieces(para, '.');
    var trimmed := TrimAll(pieces);
    assert forall t :: t in trimmed ==> '.' !in t by {
      forall t | t in trimmed ensures '.' !in t {
        var i :| 0 <= i < |trimmed| && trimmed[i] == t;
        assert pieces[i] in pieces;
      }
    }
    NonEmpty(trimmed)
  }

  /**
   * The sentences of one paragraph (lines 82-90): each fragment gets a period
   * back, and the last loses it again when the paragraph did not end with one.
   */
  function SentencesOf(para: string): (r: seq<string>)
    ensures var f := Fragments(para);
      && |r| == |f|
      && (forall i :: 0 <= i < |r| - 1 ==> r[i] == f[i] + ".")
      && (r != [] ==> r[|r| - 1] == if EndsWithChar(para, '.') then f[|f| - 1] + "." else f[|f| - 1])
  {
    var s := WithPeriods(Fragments(para));
    if !EndsWithChar(para, '.') && |s| > 0 then
      s[..|s| - 1] + [s[|s| - 1][..|s[|s| - 1]| - 1]]
    else s
  }

  /** A fragment with or without its period is non-empty, trimmed and has no inner period. */
  lemma SentenceOfFragment(f: string, dot: bool)
    requires f != [] && IsTrimmed(f) && '.' !in f
    ensures var r := if dot then f + "." else f;
      && r != [] && IsTrimmed(r)
      && (forall k :: 0 <= k < |r| - 1 ==> r[k] != '.')
      && (EndsWithChar(r, '.') <==> dot)
  {
    var r := if dot then f + "." else f;
    forall k | 0 <= k < |r| - 1 ensures r[k] != '.' {
      assert r[k] == f[k] && f[k] in f;
    }
    if !dot {
      assert f[|f| - 1] in f;
    }
  }

  /**
   * Sentence fragments are non-empty and trimmed, carry no period except as
   * their last character, all end in a period except possibly the last, and
   * the last ends in a period exactly when the paragraph does.
   */
  lemma SentencesOfShape(para: string)
    ensures var r := SentencesOf(para);
      && (forall i :: 0 <= i < |r| ==> r[i] != [] && IsTrimmed(r[i]))
      && (forall i, k :: 0 <= i < |r| && 0 <= k < |r[i]| - 1 ==> r[i][k] != '.')
      && (forall i :: 0 <= i < |r| - 1 ==> EndsWithChar(r[i], '.'))
      && (r != [] ==> (EndsWithChar(r[|r| - 1], '.') <==> EndsWithChar(para, '.')))
  {
    var f := Fragments(para);
    var r := SentencesOf(para);
    forall i | 0 <= i < |r|
      ensures r[i] != [] && IsTrimmed(r[i])
      ensures forall k :: 0 <= k < |r[i]| - 1 ==> r[i][k] != '.'
      ensures i < |r| - 1 ==> EndsWithChar(r[i], '.')
      ensures i == |r| - 1 ==> (EndsWithChar(r[i], '.') <==> EndsWithChar(para, '.'))
    {
      assert f[i] in f;
      SentenceOfFragment(f[i], i < |r| - 1 || EndsWithChar(para, '.'));
    }
  }

  /** `allSentences`: the sentences of every paragraph, in order. */
  function AllSentences(paragraphs: seq<string>): (r: seq<string>)
  {
    if paragraphs == [] then []
    else AllSentences(paragraphs[..|paragraphs| - 1]) + SentencesOf(paragraphs[|paragraphs| - 1])
  }

  /** Every collected sentence is non-empty and trimmed. */
  lemma {:induction false} AllSentencesShape(paragraphs: seq<string>)
    ensures forall s :: s in AllSentences(paragraphs) ==> s != [] && IsTrimmed(s)
  {
    if paragraphs != [] {
      AllSentencesShape(paragraphs[..|paragraphs| - 1]);
      SentencesOfShape(paragraphs[|paragraphs| - 1]);
    }
  }

  /** The sentences `process` packs, for a given input. */
  function Sentences(text: string): seq<string>
  {
    AllSentences(Paragraphs(CleanText(text)))
  }

  // ---------------------------------------------------------------------------
  // What the sentences keep of the input
  // ---------------------------------------------------------------------------

  /**
   * The characters of `s` other than white space and periods, in order. A
   * period survives sentence splitting only where it ends a non-empty
   * fragment, so this is what the sentences are guaranteed to carry.
   */
  function Letters(s: string): string
  {
    if s == [] then [] else (if IsWhite(s[0]) || s[0] == '.' then [] else [s[0]]) + Letters(s[1..])
  }

  lemma {:induction false} LettersAppend(a: string, b: string)
    ensures Letters(a + b) == Letters(a) + Letters(b)
  {
    if a == [] {
      assert a + b == b;
    } else {
      assert (a + b)[0] == a[0] && (a + b)[1..] == a[1..] + b;
      LettersAppend(a[1..], b);
      var h: string := if IsWhite(a[0]) || a[0] == '.' then [] else [a[0]];
      AppendAssoc(h, Letters(a[1..]), Letters(b));
    }
  }

  /** Dropping white space first changes nothing. */
  lemma {:induction false} LettersNonWhite(s: string)
    ensures Letters(NonWhite(s)) == Letters(s)
  {
    if s != [] {
      LettersNonWhite(s[1..]);
      var h: string := if IsWhite(s[0]) then [] else [s[0]];
      LettersAppend(h, NonWhite(s[1..]));
      if h != [] {
        assert h[1..] == [];
      }
    }
  }

  /** Strings with the same non-white characters have the same letters. */
  lemma LettersOfSameNonWhite(x: string, y: string)
    requires NonWhite(x) == NonWhite(y)
    ensures Letters(x) == Letters(y)
  {
    LettersNonWhite(x);
    LettersNonWhite(y);
  }

  /** Visible characters are not white. */
  lemma {:induction false} VisibleNonWhite(s: string)
    ensures NonWhite(Visible(s)) == Visible(s)
  {
    if s != [] {
      VisibleNonWhite(s[1..]);
      var h: string := if IsWhite(s[0]) || IsStrippedControl(s[0]) then [] else [s[0]];
      NonWhiteAppend(h, Visible(s[1..]));
      if h != [] {
        assert h[1..] == [];
      }
    }
  }

  /** Joining with periods adds no letter. */
  lemma {:induction false} LettersJoinPeriods(parts: seq<string>)
    ensures Letters(Join(parts, ".")) == Letters(Concat(parts))
  {
    if |parts| == 1 {
      assert parts[1..] == [];
      assert Concat(parts) == parts[0] + Concat([]);
      assert Concat(parts) == parts[0];
    } else if |parts| > 1 {
      LettersJoinPeriods(parts[1..]);
      LettersAppend(parts[0] + ".", Join(parts[1..], "."));
      LettersAppend(parts[0], ".");
      assert Letters(".") == [];
      LettersAppend(parts[0], Concat(parts[1..]));
    }
  }

  /** Trimming every part keeps the non-white characters of them all. */
  lemma {:induction false} TrimAllNonWhite(parts: seq<string>)
    ensures NonWhite(Concat(TrimAll(parts))) == NonWhite(Concat(parts))
  {
    if parts != [] {
      TrimAllNonWhite(parts[1..]);
      var t := TrimAll(parts);
      assert t[1..] == TrimAll(parts[1..]);
      NonWhiteTrim(parts[0]);
      NonWhiteAppend(t[0], Concat(t[1..]));
      NonWhiteAppend(parts[0], Concat(parts[1..]));
    }
  }

  /** The fragments of a paragraph carry all of its letters. */
  lemma FragmentsLetters(para: string)
    ensures Letters(Concat(Fragments(para))) == Letters(para)
  {
    var pieces := SplitOn(para, ".");
    var trimmed := TrimAll(pieces);
    ConcatNonEmpty(trimmed);
    TrimAllNonWhite(pieces);
    LettersOfSameNonWhite(Concat(trimmed), Concat(pieces));
    LettersJoinPeriods(pieces);
    JoinSplit(para, ".");
  }

  /** Two lists whose parts have the same letters pairwise have the same letters in all. */
  lemma {:induction false} LettersPointwise(xs: seq<string>, ys: seq<string>)
    requires |xs| == |ys|
    requires forall i :: 0 <= i < |xs| ==> Letters(xs[i]) == Letters(ys[i])
    ensures Letters(Concat(xs)) == Letters(Concat(ys))
  {
    if xs != [] {
      LettersPointwise(xs[1..], ys[1..]);
      LettersAppend(xs[0], Concat(xs[1..]));
      LettersAppend(ys[0], Concat(ys[1..]));
    }
  }

  /** The sentences of a paragraph carry all of its letters: only periods are added or dropped. */
  lemma SentencesOfLetters(para: string)
    ensures Letters(Concat(SentencesOf(para))) == Letters(para)
  {
    var f := Fragments(para);
    var r := SentencesOf(para);
    forall i | 0 <= i < |r| ensures Letters(r[i]) == Letters(f[i]) {
      LettersAppend(f[i], ".");
      assert Letters(".") == [];
    }
    LettersPointwise(r, f);
    FragmentsLetters(para);
  }

  /** The sentences of all paragraphs carry the letters of all paragraphs, in order. */
  lemma {:induction false} AllSentencesLetters(paragraphs: seq<string>)
    ensures Letters(Concat(AllSentences(paragraphs))) == Letters(Concat(paragraphs))
  {
    if paragraphs != [] {
      var init, last := paragraphs[..|paragraphs| - 1], paragraphs[|paragraphs| - 1];
      AllSentencesLetters(init);
      SentencesOfLetters(last);
      LettersSnoc(AllSentences(init), SentencesOf(last), init, last);
      InitLast(paragraphs);
    }
  }

  /** Letters of lists put one after another, when each list matches a list or a string. */
  lemma LettersSnoc(xs: seq<string>, ys: seq<string>, init: seq<string>, last: string)
    requires Letters(Concat(xs)) == Letters(Concat(init)) && Letters(Concat(ys)) == Letters(last)
    ensures Letters(Concat(xs + ys)) == Letters(Concat(init + [last]))
  {
    ConcatAppend(xs, ys);
    LettersAppend(Concat(xs), Concat(ys));
    ConcatAppend(init, [last]);
    ConcatSingle(last);
    LettersAppend(Concat(init), last);
  }

  /**
   * The sentences carry exactly the letters of the cleaned text, and so of
   * the input: every visible character other than a period, in order.
   */
  lemma SentencesLetters(text: string)
    ensures Letters(Concat(Sentences(text))) == Letters(CleanText(text))
    ensures Letters(Concat(Sentences(text))) == Letters(Visible(text))
  {
    var c := CleanText(text);
    var lines := SplitOn(c, "\n");
    AllSentencesLetters(Paragraphs(c));
    ConcatNonEmpty(lines);
    assert AllWhite("\n");
    NonWhiteJoin(lines, "\n");
    JoinSplit(c, "\n");
    LettersOfSameNonWhite(Join(lines, "\n"), Concat(lines));
    CleanTextIsClean(text);
    VisibleNonWhite(text);
    LettersOfSameNonWhite(c, Visible(text));
  }

  // ---------------------------------------------------------------------------
  // splitLongSentence
  // ---------------------------------------------------------------------------

  /** The cut delimiters, in priority order. */
  const Delimiters: seq<char> := [',', '!', '?', ':', ';', ' ']

  /** The place of a delimiter in the priority order. */
  function Rank(c: char): (k: nat)
    requires c in Delimiters
    ensures k < |Delimiters| && Delimiters[k] == c
    ensures forall j :: 0 <= j < |Delimiters| && Delimiters[j] == c ==> j == k
  {
    if c == ',' then 0 else if c == '!' then 1 else if c == '?' then 2
    else if c == ':' then 3 else if c == ';' then 4 else 5
  }

  /** `s.lastIndexOf(c, from)` for one character: the last index not after `from` holding `c`, or -1. */
  function LastIndexOf(s: string, c: char, from: nat): (r: int)
    ensures -1 <= r < |s| && r <= from
    ensures r >= 0 ==> s[r] == c
    ensures forall k :: r < k < |s| && k <= from ==> s[k] != c
  {
    LastIndexAtOrBefore(s, c, if from < |s| then from else |s| - 1)
  }

  function LastIndexAtOrBefore(s: string, c: char, i: int): (r: int)
    requires -1 <= i < |s|
    ensures -1 <= r <= i
    ensures r >= 0 ==> s[r] == c
    ensures forall k :: r < k <= i ==> s[k] != c
    decreases i + 1
  {
    if i < 0 then -1 else if s[i] == c then i else LastIndexAtOrBefore(s, c, i - 1)
  }

  /**
   * The cut position chosen by the delimiter loop of `splitLongSentence`
   * (lines 56-66) once the delimiters before index `k` were found absent.
   */
  function CutFrom(maxChars: Pos, part: string, k: nat): (cut: nat)
    requires |part| > maxChars && k <= |Delimiters|
    ensures 1 <= cut <= maxChars + 1
    decreases |Delimiters| - k
  {
    if k == |Delimiters| then maxChars
    else
      var foundPos := LastIndexOf(part, Delimiters[k], maxChars);
      if foundPos != -1 then foundPos + 1 else CutFrom(maxChars, part, k + 1)
  }

  /** With no delimiter in the first `maxChars + 1` characters, the cut falls at `maxChars`. */
  lemma {:induction false} CutFromNone(maxChars: Pos, part: string, k: nat)
    requires |part| > maxChars && k <= |Delimiters|
    requires forall j :: k <= j < |Delimiters| ==> Delimiters[j] !in part[..maxChars + 1]
    ensures CutFrom(maxChars, part, k) == maxChars
    decreases |Delimiters| - k
  {
    if k < |Delimiters| {
      CutFromNone(maxChars, part, k + 1);
    }
  }

  /**
   * When some delimiter occurs in the first `maxChars + 1` characters, the
   * cut falls one past the last occurrence there of the first delimiter in
   * priority order that occurs there at all.
   */
  lemma {:induction false} CutFromFound(maxChars: Pos, part: string, k: nat, present: nat)
    requires |part| > maxChars && k <= present < |Delimiters|
    requires Delimiters[present] in part[..maxChars + 1]
    ensures var cut := CutFrom(maxChars, part, k);
      && part[cut - 1] in Delimiters
      && k <= Rank(part[cut - 1]) <= present
      && (forall j :: k <= j < Rank(part[cut - 1]) ==> Delimiters[j] !in part[..maxChars + 1])
      && part[cut - 1] !in part[cut..maxChars + 1]
    decreases |Delimiters| - k
  {
    var w := part[..maxChars + 1];
    var foundPos := LastIndexOf(part, Delimiters[k], maxChars);
    if foundPos != -1 {
      assert Delimiters[k] !in part[foundPos + 1..maxChars + 1] by {
        forall i | foundPos + 1 <= i < maxChars + 1 ensures part[i] != Delimiters[k] {
        }
      }
    } else {
      assert Delimiters[k] !in w by {
        forall i | 0 <= i < |w| ensures w[i] != Delimiters[k] {
          assert w[i] == part[i];
        }
      }
      CutFromFound(maxChars, part, k + 1, present);
    }
  }

  /** The delimiter loop of `splitLongSentence` (lines 56-66), with its early exit. */
  method FindCutPosition(p: Processor, part: string) returns (cut: nat)
    requires |part| > p.maxChars
    ensures cut == CutFrom(p.maxChars, part, 0)
  {
    var cutPos: int := -1;
    var k := 0;
    while k < |Delimiters|
      invariant 0 <= k <= |Delimiters|
      invariant cutPos == -1
      invariant CutFrom(p.maxChars, part, k) == CutFrom(p.maxChars, part, 0)
    {
      var foundPos := LastIndexOf(part, Delimiters[k], p.maxChars);
      if foundPos != -1 {
        cutPos := foundPos + 1;
        break;
      }
      k := k + 1;
    }
    if cutPos == -1 {
      cutPos := p.maxChars;
    }
    cut := cutPos;
  }

  /**
   * A hard-split piece is at most `maxChars` long, or exactly one longer when
   * the cut fell just after a delimiter other than a space sitting at index
   * `maxChars`.
   */
  predicate WithinCutBound(maxChars: nat, piece: string)
  {
    |piece| <= maxChars || (|piece| == maxChars + 1 && piece[maxChars] in ",!?:;")
  }

  /** The piece cut off by one iteration keeps the cut bound. */
  lemma CutPieceBound(maxChars: Pos, part: string)
    requires |part| > maxChars
    ensures WithinCutBound(maxChars, Trim(part[..CutFrom(maxChars, part, 0)]))
  {
    var cut := CutFrom(maxChars, part, 0);
    var piece := Trim(part[..cut]);
    if |piece| > maxChars {
      if forall j :: 0 <= j < |Delimiters| ==> Delimiters[j] !in part[..maxChars + 1] {
        CutFromNone(maxChars, part, 0);
      } else {
        var present :| 0 <= present < |Delimiters| && Delimiters[present] in part[..maxChars + 1];
        CutFromFound(maxChars, part, 0, present);
      }
      assert cut == maxChars + 1;
      TrimKeepsLength(part[..cut]);
      assert part[cut - 1] in Delimiters;
      assert piece[maxChars] == part[cut - 1];
      assert !IsWhite(piece[|piece| - 1]);
    }
  }

  /**
   * The pieces `splitLongSentence` returns for a remainder `part`: cut pieces
   * off the front, trimming both sides, while the remainder is too long, and
   * keep the final remainder when it is not empty.
   */
  function SplitPieces(maxChars: Pos, part: string): seq<string>
    decreases |part|
  {
    if |part| > maxChars then
      var cut := CutFrom(maxChars, part, 0);
      [Trim(part[..cut])] + SplitPieces(maxChars, Trim(part[cut..]))
    else if part == [] then []
    else [part]
  }

  /** Every piece keeps the cut bound; in particular the final remainder fits. */
  lemma {:induction false} SplitPiecesBound(maxChars: Pos, part: string)
    ensures forall piece :: piece in SplitPieces(maxChars, part) ==> WithinCutBound(maxChars, piece)
    decreases |part|
  {
    if |part| > maxChars {
      var cut := CutFrom(maxChars, part, 0);
      CutPieceBound(maxChars, part);
      SplitPiecesBound(maxChars, Trim(part[cut..]));
    }
  }

  /** Hard splitting drops white space only. */
  lemma {:induction false} SplitPiecesContent(maxChars: Pos, part: string)
    ensures NonWhite(Concat(SplitPieces(maxChars, part))) == NonWhite(part)
    decreases |part|
  {
    var r := SplitPieces(maxChars, part);
    if |part| > maxChars {
      var cut := CutFrom(maxChars, part, 0);
      var head, tail := Trim(part[..cut]), Trim(part[cut..]);
      var rest := SplitPieces(maxChars, tail);
      SplitPiecesContent(maxChars, tail);
      assert r == [head] + rest;
      ConcatCons(head, rest);
      NonWhiteAppend(head, Concat(rest));
      NonWhiteTrim(part[..cut]);
      NonWhiteTrim(part[cut..]);
      NonWhiteSplitAt(part, cut);
    } else if part != [] {
      assert r == [part] + [];
      ConcatCons(part, []);
      assert part + [] == part;
    }
  }

  /** The piece cut off the front of a trimmed remainder is not empty. */
  lemma CutHeadTrimmed(part: string, cut: nat)
    requires IsTrimmed(part) && 0 < cut <= |part|
    ensures Trim(part[..cut]) != []
  {
    assert part[..cut][0] == part[0];
  }

  /** A trimmed sentence gives non-empty, trimmed pieces, and at least one when it is not empty. */
  lemma {:induction false} SplitPiecesTrimmed(maxChars: Pos, part: string)
    requires IsTrimmed(part)
    ensures forall piece :: piece in SplitPieces(maxChars, part) ==> piece != [] && IsTrimmed(piece)
    ensures part != [] ==> SplitPieces(maxChars, part) != []
    decreases |part|
  {
    if |part| > maxChars {
      var cut := CutFrom(maxChars, part, 0);
      var head, tail := Trim(part[..cut]), Trim(part[cut..]);
      CutHeadTrimmed(part, cut);
      SplitPiecesTrimmed(maxChars, tail);
      var rest := SplitPieces(maxChars, tail);
      assert SplitPieces(maxChars, part) == [head] + rest;
      forall piece | piece in [head] + rest ensures piece != [] && IsTrimmed(piece) {
        if piece != head {
          assert piece in rest;
        }
      }
    } else if part != [] {
      assert SplitPieces(maxChars, part) == [part];
    }
  }

  /**
   * `splitLongSentence` (lines 51-74): the pieces of `SplitPieces`, hence each
   * within the cut bound and together holding every non-white character of
   * the sentence.
   */
  method SplitLongSentence(p: Processor, sentence: string) returns (pieces: seq<string>)
    ensures pieces == SplitPieces(p.maxChars, sentence)
    ensures forall piece :: piece in pieces ==> WithinCutBound(p.maxChars, piece)
    ensures NonWhite(Concat(pieces)) == NonWhite(sentence)
  {
    pieces := [];
    var currentPart := sentence;
    while |currentPart| > p.maxChars
      invariant pieces + SplitPieces(p.maxChars, currentPart) == SplitPieces(p.maxChars, sentence)
      decreases |currentPart|
    {
      var cutPos := FindCutPosition(p, currentPart);
      var piece, rest := Trim(currentPart[..cutPos]), Trim(currentPart[cutPos..]);
      AppendAssoc(pieces, [piece], SplitPieces(p.maxChars, rest));
      pieces := pieces + [piece];
      currentPart := rest;
    }
    if currentPart != [] {
      assert SplitPieces(p.maxChars, currentPart) == [currentPart];
      pieces := pieces + [currentPart];
    } else {
      assert pieces == pieces + SplitPieces(p.maxChars, currentPart);
    }
    SplitPiecesBound(p.maxChars, sentence);
    SplitPiecesContent(p.maxChars, sentence);
  }

  // ---------------------------------------------------------------------------
  // Greedy packing (process, lines 94-117)
  // ---------------------------------------------------------------------------

  /** The packing loop's variables: the chunks pushed so far and `currentChunk`. */
  datatype PackState = PackState(chunks: seq<string>, current: string)

  /** The chunks once the current chunk, when it is not empty, is pushed. */
  function Flush(st: PackState): seq<string>
  {
    if st.current != [] then st.chunks + [st.current] else st.chunks
  }

  /** One iteration of the packing loop. */
  function PackStep(maxChars: Pos, st: PackState, sentence: string): PackState
  {
    if |sentence| > maxChars then PackState(Flush(st) + SplitPieces(maxChars, sentence), "")
    else if |st.current| + |sentence| + 1 > maxChars then PackState(Flush(st), sentence)
    else PackState(st.chunks, if st.current != [] then st.current + " " + sentence else sentence)
  }

  /** The loop variables after the first `i` sentences. */
  function PackPrefix(maxChars: Pos, sentences: seq<string>, i: nat): PackState
    requires i <= |sentences|
  {
    if i == 0 then PackState([], "")
    else PackStep(maxChars, PackPrefix(maxChars, sentences, i - 1), sentences[i - 1])
  }

  /** The chunks the packing loop produces. */
  function Pack(maxChars: Pos, sentences: seq<string>): seq<string>
  {
    Flush(PackPrefix(maxChars, sentences, |sentences|))
  }

  /** One packing step adds exactly the non-white characters of the sentence. */
  lemma PackStepContent(maxChars: Pos, st: PackState, sentence: string)
    ensures NonWhite(Concat(Flush(PackStep(maxChars, st, sentence))))
         == NonWhite(Concat(Flush(st))) + NonWhite(sentence)
  {
    var next := PackStep(maxChars, st, sentence);
    if |sentence| > maxChars {
      assert next == PackState(Flush(st) + SplitPieces(maxChars, sentence), "");
      NonWhiteConcatAppend(Flush(st), SplitPieces(maxChars, sentence));
      SplitPiecesContent(maxChars, sentence);
    } else if |st.current| + |sentence| + 1 > maxChars {
      assert next == PackState(Flush(st), sentence);
      if sentence != [] {
        NonWhiteConcatSnoc(Flush(st), sentence);
      }
    } else if st.current != [] {
      assert next == PackState(st.chunks, st.current + " " + sentence);
      JoinedContent(st.chunks, st.current, sentence);
    } else {
      assert next == PackState(st.chunks, sentence);
      if sentence != [] {
        NonWhiteConcatSnoc(st.chunks, sentence);
      }
    }
  }

  /** Joining the sentence to a non-empty current chunk adds the sentence's non-white characters. */
  lemma JoinedContent(chunks: seq<string>, current: string, sentence: string)
    requires current != []
    ensures NonWhite(Concat(chunks + [current + " " + sentence]))
         == NonWhite(Concat(chunks + [current])) + NonWhite(sentence)
  {
    var spaced := current + " ";
    var joined := spaced + sentence;
    var a, b, c := NonWhite(Concat(chunks)), NonWhite(current), NonWhite(sentence);
    NonWhiteConcatSnoc(chunks, current);
    NonWhiteConcatSnoc(chunks, joined);
    NonWhiteAppend(spaced, sentence);
    NonWhiteAppend(current, " ");
    assert NonWhite(" ") == [];
    assert NonWhite(spaced) == b;
    assert NonWhite(joined) == b + c;
    AppendAssoc(a, b, c);
  }

  /** Packing drops white space only: the chunks hold the non-white characters of the sentences, in order. */
  lemma {:induction false} PackPrefixContent(maxChars: Pos, sentences: seq<string>, i: nat)
    requires i <= |sentences|
    ensures NonWhite(Concat(Flush(PackPrefix(maxChars, sentences, i)))) == NonWhite(Concat(sentences[..i]))
  {
    if i > 0 {
      PackPrefixContent(maxChars, sentences, i - 1);
      PackStepContent(maxChars, PackPrefix(maxChars, sentences, i - 1), sentences[i - 1]);
      NonWhiteConcatPrefix(sentences, i);
    }
  }

  /** Sentences as `process` hands them to the packing loop: non-empty and trimmed. */
  predicate WellFormedSentences(sentences: seq<string>)
  {
    forall s :: s in sentences ==> s != [] && IsTrimmed(s)
  }

  /** What holds of the loop variables after every iteration. */
  predicate PackInvariant(maxChars: Pos, st: PackState)
  {
    && (forall c :: c in st.chunks ==> c != [] && WithinCutBound(maxChars, c))
    && |st.current| <= maxChars
  }

  /** One packing step keeps the invariant and leaves something to flush. */
  lemma PackStepShape(maxChars: Pos, st: PackState, sentence: string)
    requires PackInvariant(maxChars, st)
    requires sentence != [] && IsTrimmed(sentence)
    ensures PackInvariant(maxChars, PackStep(maxChars, st, sentence))
    ensures Flush(PackStep(maxChars, st, sentence)) != []
  {
    var flushed := Flush(st);
    assert forall c :: c in flushed ==> c != [] && WithinCutBound(maxChars, c);
    if |sentence| > maxChars {
      SplitPiecesBound(maxChars, sentence);
      SplitPiecesTrimmed(maxChars, sentence);
      assert SplitPieces(maxChars, sentence)[0] in flushed + SplitPieces(maxChars, sentence);
    }
  }

  /**
   * The chunks of well-formed sentences are non-empty and keep the cut bound,
   * and there are none exactly when there are no sentences.
   */
  lemma {:induction false} PackPrefixShape(maxChars: Pos, sentences: seq<string>, i: nat)
    requires i <= |sentences| && WellFormedSentences(sentences)
    ensures PackInvariant(maxChars, PackPrefix(maxChars, sentences, i))
    ensures forall c :: c in Flush(PackPrefix(maxChars, sentences, i)) ==> c != [] && WithinCutBound(maxChars, c)
    ensures Flush(PackPrefix(maxChars, sentences, i)) == [] <==> i == 0
  {
    if i > 0 {
      PackPrefixShape(maxChars, sentences, i - 1);
      assert sentences[i - 1] in sentences;
      PackStepShape(maxChars, PackPrefix(maxChars, sentences, i - 1), sentences[i - 1]);
    }
  }

  /** Every sentence fits in a chunk on its own, so the hard split never runs. */
  predicate AllFit(maxChars: nat, sentences: seq<string>)
  {
    forall s :: s in sentences ==> |s| <= maxChars
  }

  /** Groups of sentences written one after another. */
  function Flatten(groups: seq<seq<string>>): seq<string>
  {
    if groups == [] then [] else Flatten(groups[..|groups| - 1]) + groups[|groups| - 1]
  }

  /** Each group joined by single spaces. */
  function JoinEach(groups: seq<seq<string>>): (r: seq<string>)
    ensures |r| == |groups|
    ensures forall k :: 0 <= k < |groups| ==> r[k] == Join(groups[k], " ")
  {
    if groups == [] then [] else JoinEach(groups[..|groups| - 1]) + [Join(groups[|groups| - 1], " ")]
  }

  /** A greedy grouping in progress: the closed groups and the open one. */
  datatype Grouping = Grouping(closed: seq<seq<string>>, open: seq<string>)

  /**
   * The greedy grouping of the first `i` sentences, stated on the sentences
   * themselves: a sentence closes the open group and starts a new one exactly
   * when joining it to the open group would pass `maxChars`.
   */
  function GroupPrefix(maxChars: Pos, sentences: seq<string>, i: nat): Grouping
    requires i <= |sentences|
  {
    if i == 0 then Grouping([], [])
    else GroupStep(maxChars, GroupPrefix(maxChars, sentences, i - 1), sentences[i - 1])
  }

  /** A sentence closes the open group and starts a new one exactly when joining it would pass `maxChars`. */
  function GroupStep(maxChars: Pos, g: Grouping, s: string): Grouping
  {
    if g.open != [] && |Join(g.open, " ")| + 1 + |s| > maxChars then Grouping(g.closed + [g.open], [s])
    else Grouping(g.closed, g.open + [s])
  }

  /** All groups of the greedy grouping. */
  function Groups(maxChars: Pos, sentences: seq<string>): seq<seq<string>>
  {
    var g := GroupPrefix(maxChars, sentences, |sentences|);
    if g.open != [] then g.closed + [g.open] else g.closed
  }

  /** Closing one more group extends the flattening by that group. */
  lemma FlattenSnoc(groups: seq<seq<string>>, grp: seq<string>)
    ensures Flatten(groups + [grp]) == Flatten(groups) + grp
  {
    assert (groups + [grp])[..|groups|] == groups;
  }

  /** The groups cover the sentences in order, and only the start has no open group. */
  lemma {:induction false} GroupPrefixCover(maxChars: Pos, sentences: seq<string>, i: nat)
    requires i <= |sentences|
    ensures var g := GroupPrefix(maxChars, sentences, i);
      && Flatten(g.closed) + g.open == sentences[..i]
      && (i > 0 ==> g.open != [])
  {
    if i > 0 {
      GroupPrefixCover(maxChars, sentences, i - 1);
      var g := GroupPrefix(maxChars, sentences, i - 1);
      var s := sentences[i - 1];
      PrefixSnoc(sentences, i);
      if g.open != [] && |Join(g.open, " ")| + 1 + |s| > maxChars {
        FlattenSnoc(g.closed, g.open);
      } else {
        AppendAssoc(Flatten(g.closed), g.open, [s]);
      }
    }
  }

  /** Every group joined by spaces, the open one included, fits in `maxChars`. */
  predicate GroupingFits(maxChars: Pos, g: Grouping)
  {
    && (forall k :: 0 <= k < |g.closed| ==> |Join(g.closed[k], " ")| <= maxChars)
    && |Join(g.open, " ")| <= maxChars
  }

  /** When every sentence fits, every group joined by spaces fits too. */
  lemma {:induction false} GroupPrefixFit(maxChars: Pos, sentences: seq<string>, i: nat)
    requires i <= |sentences| && AllFit(maxChars, sentences)
    ensures GroupingFits(maxChars, GroupPrefix(maxChars, sentences, i))
  {
    if i > 0 {
      GroupPrefixFit(maxChars, sentences, i - 1);
      var s := sentences[i - 1];
      assert s in sentences;
      GroupStepFits(maxChars, GroupPrefix(maxChars, sentences, i - 1), s);
    }
  }

  lemma GroupStepFits(maxChars: Pos, g: Grouping, s: string)
    requires GroupingFits(maxChars, g) && |s| <= maxChars
    ensures GroupingFits(maxChars, GroupStep(maxChars, g, s))
  {
    if g.open != [] && |Join(g.open, " ")| + 1 + |s| > maxChars {
      var g' := GroupStep(maxChars, g, s);
      assert g'.closed == g.closed + [g.open] && g'.open == [s];
      assert Join([s], " ") == s;
    } else if g.open != [] {
      JoinAppend(g.open, s, " ");
    } else {
      assert g.open + [s] == [s];
    }
  }

  /**
   * Every closed group is non-empty, and was closed only because the first
   * sentence of the next group would have made it pass `maxChars`.
   */
  predicate GroupingGreedy(maxChars: Pos, g: Grouping)
  {
    && (forall k :: 0 <= k < |g.closed| ==> g.closed[k] != [])
    && (g.closed != [] ==> g.open != [])
    && (forall k :: 0 <= k < |g.closed| - 1 ==> |Join(g.closed[k], " ")| + 1 + |g.closed[k + 1][0]| > maxChars)
    && (g.closed != [] ==> |Join(g.closed[|g.closed| - 1], " ")| + 1 + |g.open[0]| > maxChars)
  }

  /** A group was closed only because the next sentence would not have fitted. */
  lemma {:induction false} GroupPrefixGreedy(maxChars: Pos, sentences: seq<string>, i: nat)
    requires i <= |sentences|
    ensures GroupingGreedy(maxChars, GroupPrefix(maxChars, sentences, i))
  {
    if i > 0 {
      GroupPrefixGreedy(maxChars, sentences, i - 1);
      GroupStepGreedy(maxChars, GroupPrefix(maxChars, sentences, i - 1), sentences[i - 1]);
    }
  }

  lemma GroupStepGreedy(maxChars: Pos, g: Grouping, s: string)
    requires GroupingGreedy(maxChars, g)
    ensures GroupingGreedy(maxChars, GroupStep(maxChars, g, s))
  {
    var g' := GroupStep(maxChars, g, s);
    if g.open != [] && |Join(g.open, " ")| + 1 + |s| > maxChars {
      assert g'.closed == g.closed + [g.open] && g'.open == [s];
      forall k | 0 <= k < |g'.closed| - 1
        ensures |Join(g'.closed[k], " ")| + 1 + |g'.closed[k + 1][0]| > maxChars
      {
        if k + 1 == |g.closed| {
          assert g'.closed[k + 1] == g.open;
        } else {
          assert g'.closed[k] == g.closed[k] && g'.closed[k + 1] == g.closed[k + 1];
        }
      }
    } else {
      assert g'.closed == g.closed && g'.open == g.open + [s];
      if g.open != [] {
        assert g'.open[0] == g.open[0];
      }
    }
  }

  /**
   * When every sentence fits, the packing loop builds exactly the greedy
   * grouping: its chunks are the closed groups joined by spaces and its
   * current chunk is the open group joined by spaces.
   */
  lemma {:induction false} PackPrefixGroups(maxChars: Pos, sentences: seq<string>, i: nat)
    requires i <= |sentences| && WellFormedSentences(sentences) && AllFit(maxChars, sentences)
    ensures PacksGroups(PackPrefix(maxChars, sentences, i), GroupPrefix(maxChars, sentences, i))
  {
    if i > 0 {
      PackPrefixGroups(maxChars, sentences, i - 1);
      var s := sentences[i - 1];
      assert s in sentences;
      PackGroupStep(maxChars, PackPrefix(maxChars, sentences, i - 1), GroupPrefix(maxChars, sentences, i - 1), s);
    }
  }

  /** The packing loop's variables are the closed groups joined by spaces and the open group joined by spaces. */
  predicate PacksGroups(st: PackState, g: Grouping)
  {
    && st.chunks == JoinEach(g.closed)
    && st.current == Join(g.open, " ")
    && (st.current == [] <==> g.open == [])
  }

  /** A packing step and a grouping step on a fitting sentence keep the loop variables equal to the joined groups. */
  lemma PackGroupStep(maxChars: Pos, st: PackState, g: Grouping, s: string)
    requires PacksGroups(st, g) && s != [] && |s| <= maxChars
    ensures PacksGroups(PackStep(maxChars, st, s), GroupStep(maxChars, g, s))
  {
    assert Join([s], " ") == s;
    if st.current == [] {
      assert g.open + [s] == [s];
    } else if |st.current| + |s| + 1 > maxChars {
      assert (g.closed + [g.open])[..|g.closed|] == g.closed;
    } else {
      JoinAppend(g.open, s, " ");
    }
  }

  /** When every sentence fits, the chunks are the greedy groups joined by single spaces. */
  lemma PackIsGrouped(maxChars: Pos, sentences: seq<string>)
    requires WellFormedSentences(sentences) && AllFit(maxChars, sentences)
    ensures Pack(maxChars, sentences) == JoinEach(Groups(maxChars, sentences))
  {
    var n := |sentences|;
    if n > 0 {
      var g := GroupPrefix(maxChars, sentences, n);
      PackPrefixGroups(maxChars, sentences, n);
      GroupPrefixCover(maxChars, sentences, n);
      assert (g.closed + [g.open])[..|g.closed|] == g.closed;
    }
  }

  /** The groups hold the sentences in order, none dropped or repeated. */
  lemma GroupsCover(maxChars: Pos, sentences: seq<string>)
    ensures Flatten(Groups(maxChars, sentences)) == sentences
  {
    var n := |sentences|;
    GroupPrefixCover(maxChars, sentences, n);
    assert sentences[..n] == sentences;
    var g := GroupPrefix(maxChars, sentences, n);
    if g.open != [] {
      FlattenSnoc(g.closed, g.open);
    }
  }

  /** When every sentence fits, each group is non-empty and fits in one chunk joined by spaces. */
  lemma GroupsFit(maxChars: Pos, sentences: seq<string>)
    requires AllFit(maxChars, sentences)
    ensures var groups := Groups(maxChars, sentences);
      forall k :: 0 <= k < |groups| ==> groups[k] != [] && |Join(groups[k], " ")| <= maxChars
  {
    GroupPrefixFit(maxChars, sentences, |sentences|);
    GroupPrefixGreedy(maxChars, sentences, |sentences|);
  }

  /** A chunk was closed only because the first sentence of the next one would not have fitted. */
  lemma GroupsGreedy(maxChars: Pos, sentences: seq<string>)
    ensures var groups := Groups(maxChars, sentences);
      forall k :: 0 < k < |groups| ==> groups[k] != [] && |Join(groups[k - 1], " ")| + 1 + |groups[k][0]| > maxChars
  {
    GroupPrefixGreedy(maxChars, sentences, |sentences|);
  }

  /** The body of the packing loop (lines 98-113) for one sentence, proved against `PackStep`. */
  method PackOne(p: Processor, chunks: seq<string>, currentChunk: string, sentence: string)
    returns (chunks': seq<string>, currentChunk': string)
    ensures PackState(chunks', currentChunk') == PackStep(p.maxChars, PackState(chunks, currentChunk), sentence)
  {
    chunks', currentChunk' := chunks, currentChunk;
    if |sentence| > p.maxChars {
      if currentChunk' != [] {
        chunks' := chunks' + [currentChunk'];
      }
      currentChunk' := "";
      var pieces := SplitLongSentence(p, sentence);
      chunks' := chunks' + pieces;
      return;
    }
    if |currentChunk'| + |sentence| + 1 > p.maxChars {
      if currentChunk' != [] {
        chunks' := chunks' + [currentChunk'];
      }
      currentChunk' := sentence;
    } else {
      currentChunk' := if currentChunk' != [] then currentChunk' + " " + sentence else sentence;
    }
  }

  /**
   * The packing loop of `process` (lines 94-117), proved against `Pack`: the
   * chunks keep every non-white character of the sentences, and for
   * well-formed sentences they are non-empty, keep the cut bound, and exist
   * exactly when there are sentences.
   */
  method PackSentences(p: Processor, sentences: seq<string>) returns (chunks: seq<string>)
    ensures chunks == Pack(p.maxChars, sentences)
    ensures NonWhite(Concat(chunks)) == NonWhite(Concat(sentences))
    ensures WellFormedSentences(sentences) ==>
      && (forall c :: c in chunks ==> c != [] && WithinCutBound(p.maxChars, c))
      && (chunks == [] <==> sentences == [])
  {
    chunks := [];
    var currentChunk: string := "";
    for i := 0 to |sentences|
      invariant PackState(chunks, currentChunk) == PackPrefix(p.maxChars, sentences, i)
    {
      chunks, currentChunk := PackOne(p, chunks, currentChunk, sentences[i]);
    }
    if currentChunk != [] {
      chunks := chunks + [currentChunk];
    }
    PackPrefixContent(p.maxChars, sentences, |sentences|);
    assert sentences[..|sentences|] == sentences;
    if WellFormedSentences(sentences) {
      PackPrefixShape(p.maxChars, sentences, |sentences|);
    }
  }

  // ---------------------------------------------------------------------------
  // Tail-merge correction (process, lines 125-147)
  // ---------------------------------------------------------------------------

  /** The class `[.?!]` of the look-behind. */
  predicate IsSentenceEnd(c: char)
  {
    c == '.' || c == '?' || c == '!'
  }

  /** The index just past the run of white space starting at `i`. */
  function WhiteRunEnd(s: string, i: nat): (j: nat)
    requires i <= |s|
    ensures i <= j <= |s|
    ensures forall k :: i <= k < j ==> IsWhite(s[k])
    ensures j == |s| || !IsWhite(s[j])
    decreases |s| - i
  {
    if i < |s| && IsWhite(s[i]) then WhiteRunEnd(s, i + 1) else i
  }

  /** `s.split(/(?<=[.?!])\s+/)`: cut at every run of white space that follows a sentence end. */
  function SentenceSplit(s: string): seq<string>
  {
    SplitScan(s, 0, 0)
  }

  /** The split of `s[start..]`, where no cut was found between `start` and `i`. */
  function SplitScan(s: string, start: nat, i: nat): (r: seq<string>)
    requires start <= i <= |s|
    ensures |r| >= 1
    decreases |s| - i
  {
    if i == |s| then [s[start..]]
    else if i > 0 && IsSentenceEnd(s[i - 1]) && IsWhite(s[i]) then
      var j := WhiteRunEnd(s, i);
      [s[start..i]] + SplitScan(s, j, j)
    else SplitScan(s, start, i + 1)
  }

  /**
   * The split drops white space only, and joining the parts again with single
   * spaces never makes the text longer.
   */
  lemma {:induction false} SplitScanContent(s: string, start: nat, i: nat)
    requires start <= i <= |s|
    ensures NonWhite(Concat(SplitScan(s, start, i))) == NonWhite(s[start..])
    ensures |Join(SplitScan(s, start, i), " ")| <= |s| - start
    decreases |s| - i
  {
    if i == |s| {
      ConcatSingle(s[start..]);
    } else if i > 0 && IsSentenceEnd(s[i - 1]) && IsWhite(s[i]) {
      var j := WhiteRunEnd(s, i);
      SplitScanContent(s, j, j);
      assert s[start..] == s[start..i] + s[i..j] + s[j..];
      CutRunContent(s[start..i], s[i..j], s[j..], SplitScan(s, j, j));
    } else {
      SplitScanContent(s, start, i + 1);
    }
  }

  /** Cutting out a non-empty run of white space between `a` and the parts of `b`. */
  lemma CutRunContent(a: string, w: string, b: string, rest: seq<string>)
    requires AllWhite(w) && w != [] && rest != []
    requires NonWhite(Concat(rest)) == NonWhite(b) && |Join(rest, " ")| <= |b|
    ensures NonWhite(Concat([a] + rest)) == NonWhite(a + w + b)
    ensures |Join([a] + rest, " ")| <= |a + w + b|
  {
    ConcatCons(a, rest);
    NonWhiteAppend(a, Concat(rest));
    NonWhiteAppend(a + w, b);
    NonWhiteAppend(a, w);
    NonWhiteOfWhite(w);
    assert ([a] + rest)[1..] == rest;
  }

  /** What `SentenceSplit` promises about one chunk. */
  lemma SentenceSplitContent(s: string)
    ensures NonWhite(Concat(SentenceSplit(s))) == NonWhite(s)
    ensures |Join(SentenceSplit(s), " ")| <= |s|
  {
    SplitScanContent(s, 0, 0);
    assert s[0..] == s;
  }

  /**
   * The chunks after the tail-merge correction: when there are at least two
   * chunks and the last is shorter than `minCharsToMerge`, it is appended to
   * the previous one if the result fits, or else the last sentence of the
   * previous chunk moves onto it if that chunk had more than one sentence and
   * the new last chunk fits; otherwise nothing changes.
   */
  function TailMerged(maxChars: Pos, minCharsToMerge: int, chunks: seq<string>): seq<string>
  {
    var n := |chunks|;
    if n >= 2 && |chunks[n - 1]| < minCharsToMerge then
      var prev, last := chunks[n - 2], chunks[n - 1];
      if |prev| + |last| + 1 <= maxChars then chunks[..n - 2] + [prev + " " + last]
      else
        var parts := SentenceSplit(prev);
        if |parts| > 1 && |parts[|parts| - 1] + " " + last| <= maxChars then
          chunks[..n - 2] + [Join(parts[..|parts| - 1], " "), parts[|parts| - 1] + " " + last]
        else chunks
    else chunks
  }

  /**
   * The tail merge touches the last two chunks only; a merge keeps one chunk
   * fewer and happens only when the two fit together; a move keeps the count,
   * shortens the previous chunk and leaves a last chunk that fits; and a
   * non-empty last chunk stays non-empty.
   */
  lemma TailMergeScope(maxChars: Pos, minCharsToMerge: int, chunks: seq<string>)
    ensures var r, n := TailMerged(maxChars, minCharsToMerge, chunks), |chunks|;
      && (!(n >= 2 && |chunks[n - 1]| < minCharsToMerge) ==> r == chunks)
      && (|r| == n || (n >= 2 && |r| == n - 1))
      && (n >= 2 ==> r[..n - 2] == chunks[..n - 2])
      && (n >= 2 && |r| == n - 1 ==>
            && |chunks[n - 2]| + |chunks[n - 1]| + 1 <= maxChars
            && r[n - 2] == chunks[n - 2] + " " + chunks[n - 1])
      && (|r| == n && r != chunks ==>
            && n >= 2 && |chunks[n - 2]| + |chunks[n - 1]| + 1 > maxChars
            && |SentenceSplit(chunks[n - 2])| > 1
            && |r[n - 2]| < |chunks[n - 2]|
            && |r[n - 1]| <= maxChars)
      && (n > 0 && chunks[n - 1] != [] ==> r != [] && r[|r| - 1] != [])
  {
    var n := |chunks|;
    if n >= 2 && |chunks[n - 1]| < minCharsToMerge && |chunks[n - 2]| + |chunks[n - 1]| + 1 > maxChars {
      var prev, last := chunks[n - 2], chunks[n - 1];
      var parts := SentenceSplit(prev);
      if |parts| > 1 && |parts[|parts| - 1] + " " + last| <= maxChars {
        var kept, moved := parts[..|parts| - 1], parts[|parts| - 1];
        SentenceSplitContent(prev);
        assert parts == kept + [moved];
        JoinAppend(kept, moved, " ");
      }
    }
  }

  /** The correction moves white space only. */
  lemma TailMergeContent(maxChars: Pos, minCharsToMerge: int, chunks: seq<string>)
    ensures NonWhite(Concat(TailMerged(maxChars, minCharsToMerge, chunks))) == NonWhite(Concat(chunks))
  {
    var n := |chunks|;
    if n >= 2 && |chunks[n - 1]| < minCharsToMerge {
      var pre, prev, last := chunks[..n - 2], chunks[n - 2], chunks[n - 1];
      assert chunks == pre + [prev, last];
      if |prev| + |last| + 1 <= maxChars {
        MergeContent(pre, prev, last);
      } else {
        var parts := SentenceSplit(prev);
        if |parts| > 1 && |parts[|parts| - 1] + " " + last| <= maxChars {
          MoveContent(pre, prev, last);
        }
      }
    }
  }

  /** Merging the last two chunks keeps every non-white character. */
  lemma MergeContent(pre: seq<string>, prev: string, last: string)
    ensures NonWhite(Concat(pre + [prev + " " + last])) == NonWhite(Concat(pre + [prev, last]))
  {
    PairContent(pre, prev, last);
    NonWhiteConcatSnoc(pre, prev + " " + last);
    SpaceJoinContent(prev, last);
    AppendAssoc(NonWhite(Concat(pre)), NonWhite(prev), NonWhite(last));
  }

  /** Moving the last sentence of the previous chunk onto the last chunk keeps every non-white character. */
  lemma MoveContent(pre: seq<string>, prev: string, last: string)
    requires |SentenceSplit(prev)| > 1
    ensures var parts := SentenceSplit(prev);
      NonWhite(Concat(pre + [Join(parts[..|parts| - 1], " "), parts[|parts| - 1] + " " + last]))
      == NonWhite(Concat(pre + [prev, last]))
  {
    var parts := SentenceSplit(prev);
    var kept, moved := parts[..|parts| - 1], parts[|parts| - 1];
    assert parts == kept + [moved];
    SentenceSplitContent(prev);
    NonWhiteConcatSnoc(kept, moved);
    NonWhiteJoin(kept, " ");
    PairContent(pre, Join(kept, " "), moved + " " + last);
    PairContent(pre, prev, last);
    SpaceJoinContent(moved, last);
    MoveRegroup(NonWhite(Concat(pre)), NonWhite(Concat(kept)), NonWhite(moved), NonWhite(last));
  }

  lemma MoveRegroup(x: string, a: string, b: string, c: string)
    ensures x + a + (b + c) == x + (a + b) + c
  {
  }

  /** Two more parts add their non-white characters. */
  lemma PairContent(pre: seq<string>, a: string, b: string)
    ensures NonWhite(Concat(pre + [a, b])) == NonWhite(Concat(pre)) + NonWhite(a) + NonWhite(b)
  {
    assert pre + [a, b] == pre + [a] + [b];
    NonWhiteConcatSnoc(pre + [a], b);
    NonWhiteConcatSnoc(pre, a);
  }

  /** Joining two strings with a space adds no non-white character. */
  lemma SpaceJoinContent(a: string, b: string)
    ensures NonWhite(a + " " + b) == NonWhite(a) + NonWhite(b)
  {
    NonWhiteAppend(a + " ", b);
    NonWhiteAppend(a, " ");
    assert NonWhite(" ") == [];
  }

  /** When every chunk keeps the cut bound, so does every chunk after the correction. */
  lemma TailMergeBound(maxChars: Pos, minCharsToMerge: int, chunks: seq<string>)
    requires forall c :: c in chunks ==> WithinCutBound(maxChars, c)
    ensures forall c :: c in TailMerged(maxChars, minCharsToMerge, chunks) ==> WithinCutBound(maxChars, c)
  {
    var n := |chunks|;
    var r := TailMerged(maxChars, minCharsToMerge, chunks);
    TailMergeScope(maxChars, minCharsToMerge, chunks);
    if r != chunks {
      assert chunks[n - 2] in chunks;
      forall c | c in r ensures WithinCutBound(maxChars, c) {
        var k :| 0 <= k < |r| && r[k] == c;
        if k < n - 2 {
          assert r[..n - 2][k] == c;
          assert chunks[..n - 2][k] in chunks;
        }
      }
    }
  }

  /** The in-place correction of lines 125-147, on the local chunk array. */
  method MergeTail(p: Processor, chunks: seq<string>) returns (r: seq<string>)
    ensures r == TailMerged(p.maxChars, p.minCharsToMerge, chunks)
  {
    r := chunks;
    if |r| >= 2 && |r[|r| - 1]| < p.minCharsToMerge {
      var lastChunk := r[|r| - 1];
      r := r[..|r| - 1];
      var secondToLastChunk := r[|r| - 1];
      if |secondToLastChunk| + |lastChunk| + 1 <= p.maxChars {
        r := r[|r| - 1 := secondToLastChunk + " " + lastChunk];
      } else {
        var sentencesInChunk := SentenceSplit(secondToLastChunk);
        if |sentencesInChunk| > 1 {
          var sentenceToMove := sentencesInChunk[|sentencesInChunk| - 1];
          sentencesInChunk := sentencesInChunk[..|sentencesInChunk| - 1];
          var newLastChunk := sentenceToMove + " " + lastChunk;
          if |newLastChunk| <= p.maxChars {
            r := r[|r| - 1 := Join(sentencesInChunk, " ")];
            r := r + [newLastChunk];
          } else {
            r := r + [lastChunk];
          }
        } else {
          r := r + [lastChunk];
        }
      }
    }
  }

  // ---------------------------------------------------------------------------
  // process
  // ---------------------------------------------------------------------------

  /**
   * The chunks `process` returns: the packed sentences after the tail-merge
   * correction with empty chunks filtered out; when packing yields nothing,
   * the untrimmed input if it has any non-white character, and nothing
   * otherwise.
   */
  function Chunks(p: Processor, text: string): seq<string>
  {
    var packed := Pack(p.maxChars, Sentences(text));
    if packed == [] then (if !AllWhite(text) then [text] else [])
    else NonEmpty(TailMerged(p.maxChars, p.minCharsToMerge, packed))
  }

  /**
   * No chunk is empty; there are none exactly for white-space-only input;
   * input with content but no sentence comes back as the single, untrimmed
   * original.
   */
  lemma ChunksShape(p: Processor, text: string)
    ensures forall c :: c in Chunks(p, text) ==> c != []
    ensures Chunks(p, text) == [] <==> AllWhite(text)
    ensures Sentences(text) == [] && !AllWhite(text) ==> Chunks(p, text) == [text]
  {
    var sentences := Sentences(text);
    AllSentencesShape(Paragraphs(CleanText(text)));
    PackShape(p.maxChars, sentences);
    if AllWhite(text) {
      WhiteTextNoSentences(text);
    }
    var packed := Pack(p.maxChars, sentences);
    if packed != [] {
      MergedNotEmpty(p.maxChars, p.minCharsToMerge, packed);
    } else if text == [] {
      assert AllWhite(text);
    }
  }

  /** White-space-only text has no sentences. */
  lemma WhiteTextNoSentences(text: string)
    requires AllWhite(text)
    ensures Sentences(text) == []
  {
    CleanTextOfWhite(text);
    assert SplitOn([], "\n") == [[]];
    assert Paragraphs(CleanText(text)) == [];
  }

  /** The tail merge of non-empty chunks leaves at least one non-empty chunk. */
  lemma MergedNotEmpty(maxChars: Pos, minCharsToMerge: int, chunks: seq<string>)
    requires chunks != [] && forall c :: c in chunks ==> c != []
    ensures NonEmpty(TailMerged(maxChars, minCharsToMerge, chunks)) != []
  {
    assert chunks[|chunks| - 1] in chunks;
    TailMergeScope(maxChars, minCharsToMerge, chunks);
    var r := TailMerged(maxChars, minCharsToMerge, chunks);
    assert r[|r| - 1] in r;
  }

  /**
   * When the text has sentences, every chunk keeps the cut bound, the chunks
   * hold exactly the non-white characters of the sentences, in order, and so
   * every visible character of the input other than a period, in order.
   */
  lemma ChunksContent(p: Processor, text: string)
    requires Sentences(text) != []
    ensures forall c :: c in Chunks(p, text) ==> WithinCutBound(p.maxChars, c)
    ensures NonWhite(Concat(Chunks(p, text))) == NonWhite(Concat(Sentences(text)))
    ensures Letters(Concat(Chunks(p, text))) == Letters(Visible(text))
  {
    var packed := Pack(p.maxChars, Sentences(text));
    PackedFacts(p, text);
    var merged := TailMerged(p.maxChars, p.minCharsToMerge, packed);
    TailMergeBound(p.maxChars, p.minCharsToMerge, packed);
    TailMergeContent(p.maxChars, p.minCharsToMerge, packed);
    ConcatNonEmpty(merged);
    LettersOfSameNonWhite(Concat(Chunks(p, text)), Concat(Sentences(text)));
    SentencesLetters(text);
  }

  /** The packed chunks of a text with sentences: there are some, each within the cut bound, holding the sentences' characters. */
  lemma PackedFacts(p: Processor, text: string)
    requires Sentences(text) != []
    ensures var packed := Pack(p.maxChars, Sentences(text));
      && packed != []
      && Chunks(p, text) == NonEmpty(TailMerged(p.maxChars, p.minCharsToMerge, packed))
      && (forall c :: c in packed ==> WithinCutBound(p.maxChars, c))
      && NonWhite(Concat(packed)) == NonWhite(Concat(Sentences(text)))
  {
    var sentences := Sentences(text);
    AllSentencesShape(Paragraphs(CleanText(text)));
    PackShape(p.maxChars, sentences);
    PackContent(p.maxChars, sentences);
  }

  /** Packing well-formed sentences gives non-empty chunks within the cut bound, and some when there are sentences. */
  lemma PackShape(maxChars: Pos, sentences: seq<string>)
    requires WellFormedSentences(sentences)
    ensures forall c :: c in Pack(maxChars, sentences) ==> c != [] && WithinCutBound(maxChars, c)
    ensures Pack(maxChars, sentences) == [] <==> sentences == []
  {
    PackPrefixShape(maxChars, sentences, |sentences|);
  }

  /** Packing keeps every non-white character of the sentences, in order. */
  lemma PackContent(maxChars: Pos, sentences: seq<string>)
    ensures NonWhite(Concat(Pack(maxChars, sentences))) == NonWhite(Concat(sentences))
  {
    PackPrefixContent(maxChars, sentences, |sentences|);
    assert sentences[..|sentences|] == sentences;
  }

  /** The paragraph loop of `process` (lines 80-92). */
  method CollectSentences(paragraphs: seq<string>) returns (allSentences: seq<string>)
    ensures allSentences == AllSentences(paragraphs)
  {
    allSentences := [];
    for k := 0 to |paragraphs|
      invariant allSentences == AllSentences(paragraphs[..k])
    {
      AllSentencesSnoc(paragraphs, k);
      allSentences := allSentences + SentencesOf(paragraphs[k]);
    }
    assert paragraphs[..|paragraphs|] == paragraphs;
  }

  /** One more paragraph adds its sentences at the end. */
  lemma AllSentencesSnoc(paragraphs: seq<string>, k: nat)
    requires k < |paragraphs|
    ensures AllSentences(paragraphs[..k + 1]) == AllSentences(paragraphs[..k]) + SentencesOf(paragraphs[k])
  {
    var q := paragraphs[..k + 1];
    assert q[..|q| - 1] == paragraphs[..k] && q[|q| - 1] == paragraphs[k];
  }

  /** `process` (lines 76-149), proved against `Chunks`. */
  method Process(p: Processor, text: string) returns (result: seq<string>)
    ensures result == Chunks(p, text)
    ensures forall c :: c in result ==> c != []
    ensures result == [] <==> AllWhite(text)
  {
    var cleanedText := CleanText(text);
    var allSentences := CollectSentences(Paragraphs(cleanedText));
    var chunks := PackSentences(p, allSentences);
    ChunksShape(p, text);
    if chunks == [] && |Trim(text)| > 0 {
      return [text];
    }
    if chunks == [] {
      return [];
    }
    var merged := MergeTail(p, chunks);
    result := NonEmpty(merged);
  }
}

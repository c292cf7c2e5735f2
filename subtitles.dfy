/**
 * Subtitle import and export: `parseSrtContent` and `parseVttContent`, which
 * turn a subtitle file into cues, and `TextProcessor.generateSrt`, which writes
 * the finished jobs of the queue as an SRT document.
 */
module Subtitles {
  import opened Wrappers
  import opened Strings
  import opened Jobs

  /** `SubtitleChunk`: a cue's text and its timing line, kept as written. */
  datatype Cue = Cue(text: string, timestamp: string)

  // ---------------------------------------------------------------------------
  // Reading subtitle files
  // ---------------------------------------------------------------------------

  /** The regex replacement `/\r/g` with the empty string. */
  function RemoveCR(s: string): (r: string)
    ensures '\r' !in r
    ensures forall c :: c in r ==> c in s
    ensures '\r' !in s ==> r == s
  {
    if s == [] then []
    else if s[0] == '\r' then RemoveCR(s[1..])
    else [s[0]] + RemoveCR(s[1..])
  }

  /** The position of the first `c` in `s`. */
  function IndexOfChar(s: string, c: char): (i: nat)
    requires c in s
    ensures i < |s| && s[i] == c && c !in s[..i]
  {
    if s[0] == c then 0
    else
      var j := IndexOfChar(s[1..], c);
      assert s[..j + 1] == [s[0]] + s[1..][..j];
      j + 1
  }

  /**
   * The regex replacement `/<[^>]*>/g` with the empty string: a `<` is removed
   * together with everything up to and including the next `>`; a `<` that no
   * `>` follows stays.
   */
  function StripTags(s: string): (r: string)
    ensures |r| <= |s|
    ensures forall c :: c in r ==> c in s
    decreases |s|
  {
    if s == [] then []
    else if s[0] == '<' && '>' in s then StripTags(s[IndexOfChar(s, '>') + 1..])
    else [s[0]] + StripTags(s[1..])
  }

  /** No `<` is followed, anywhere later, by a `>`: nothing the tag pattern could match. */
  predicate TagFree(s: string)
  {
    forall i, j :: 0 <= i < j < |s| && s[i] == '<' ==> s[j] != '>'
  }

  /** Stripping leaves no tag behind. */
  lemma {:induction false} StripTagsTagFree(s: string)
    ensures TagFree(StripTags(s))
    decreases |s|
  {
    if s == [] {
    } else if s[0] == '<' && '>' in s {
      StripTagsTagFree(s[IndexOfChar(s, '>') + 1..]);
    } else {
      var rest := StripTags(s[1..]);
      StripTagsTagFree(s[1..]);
      var r := [s[0]] + rest;
      assert StripTags(s) == r;
      if s[0] == '<' {
        forall j | 0 <= j < |r| ensures r[j] != '>' {
          assert r[j] in r;
        }
      } else {
        forall i, j | 0 <= i < j < |r| && r[i] == '<' ensures r[j] != '>' {
          assert r[i] == rest[i - 1] && r[j] == rest[j - 1];
        }
      }
    }
  }

  /** Text without tags passes through stripping unchanged; together with StripTagsTagFree, stripping is idempotent. */
  lemma {:induction false} StripTagsOfTagFree(s: string)
    requires TagFree(s)
    ensures StripTags(s) == s
    decreases |s|
  {
    if s != [] {
      assert TagFree(s[1..]) by {
        forall i, j | 0 <= i < j < |s[1..]| && s[1..][i] == '<' ensures s[1..][j] != '>' {
          assert s[1..][i] == s[i + 1] && s[1..][j] == s[j + 1];
        }
      }
      StripTagsOfTagFree(s[1..]);
      if s[0] == '<' {
        forall j | 0 <= j < |s| ensures s[j] != '>' {
        }
      }
      assert [s[0]] + s[1..] == s;
    }
  }

  lemma TagFreeSlice(s: string, a: nat, b: nat)
    requires TagFree(s) && a <= b <= |s|
    ensures TagFree(s[a..b])
  {
    forall i, j | 0 <= i < j < |s[a..b]| && s[a..b][i] == '<' ensures s[a..b][j] != '>' {
      assert s[a..b][i] == s[a + i] && s[a..b][j] == s[a + j];
    }
  }

  /** Trimming cannot create a tag. */
  lemma TagFreeTrim(s: string)
    requires TagFree(s)
    ensures TagFree(Trim(s))
  {
    var t := TrimStart(s);
    TagFreeSlice(s, |s| - |t|, |s|);
    TagFreeSlice(t, 0, |TrimEnd(t)|);
  }

  /**
   * One blank-line separated block. `header` leading lines are skipped (the
   * SRT index line; none in WebVTT), the next line is the timing line, and
   * the remaining lines, joined, stripped of tags and trimmed, are the text.
   * A block with too few lines or with no text left is dropped.
   */
  function ParseBlock(block: string, header: nat): Option<Cue>
  {
    var lines := SplitOn(block, "\n");
    if |lines| < header + 2 then None
    else
      var text := Trim(StripTags(Join(lines[header + 1..], "\n")));
      if text == [] then None else Some(Cue(text, lines[header]))
  }

  /** The blocks' cues in file order, dropped blocks left out. */
  function ParseCues(blocks: seq<string>, header: nat): (r: seq<Cue>)
    ensures |r| <= |blocks|
  {
    if blocks == [] then []
    else
      var rest := ParseCues(blocks[1..], header);
      match ParseBlock(blocks[0], header)
      case Some(c) => [c] + rest
      case None => rest
  }

  /** The blocks of a subtitle file: trimmed, carriage returns removed, cut at blank lines. */
  function Blocks(data: string): (r: seq<string>)
  {
    SplitOn(RemoveCR(Trim(data)), "\n\n")
  }

  /** `parseSrtContent`: every block is an index line, a timing line and text lines. */
  function ParseSrt(data: string): seq<Cue>
  {
    ParseCues(Blocks(data), 1)
  }

  /** `parseVttContent`: the first block is the `WEBVTT` header; every other block is a timing line and text lines. */
  function ParseVtt(data: string): seq<Cue>
  {
    ParseCues(Blocks(data)[1..], 0)
  }

  /** What every parsed cue looks like: non-empty, trimmed, tag-free text, and a single-line timing line. */
  predicate WellFormedCue(c: Cue)
  {
    c.text != [] && IsTrimmed(c.text) && TagFree(c.text) && '\r' !in c.text
    && '\n' !in c.timestamp && '\r' !in c.timestamp
  }

  /** A block either yields a well-formed cue, or is dropped exactly when it has too few lines or no text. */
  lemma ParseBlockShape(block: string, header: nat)
    requires '\r' !in block
    ensures var lines := SplitOn(block, "\n");
      match ParseBlock(block, header)
      case None =>
        |lines| < header + 2 || AllWhite(StripTags(Join(lines[header + 1..], "\n")))
      case Some(c) =>
        WellFormedCue(c) && |lines| >= header + 2 && c.timestamp == lines[header]
  {
    var lines := SplitOn(block, "\n");
    if |lines| >= header + 2 {
      var joined := Join(lines[header + 1..], "\n");
      var stripped := StripTags(joined);
      SplitOnPieceChars(block, "\n");
      SplitOnCharPieces(block, '\n');
      assert lines[header] in lines;
      JoinChars(lines[header + 1..], "\n");
      assert '\r' !in joined by {
        forall p | p in lines[header + 1..] ensures '\r' !in p {
          assert p in lines;
        }
      }
      StripTagsTagFree(joined);
      TagFreeTrim(stripped);
    }
  }

  /** Every cue read from carriage-return-free blocks is well formed. */
  lemma {:induction false} ParseCuesShape(blocks: seq<string>, header: nat)
    requires forall k :: 0 <= k < |blocks| ==> '\r' !in blocks[k]
    ensures forall c :: c in ParseCues(blocks, header) ==> WellFormedCue(c)
  {
    if blocks != [] {
      ParseBlockShape(blocks[0], header);
      ParseCuesShape(blocks[1..], header);
    }
  }

  lemma BlocksNoCR(data: string)
    ensures forall k :: 0 <= k < |Blocks(data)| ==> '\r' !in Blocks(data)[k]
  {
    var s := RemoveCR(Trim(data));
    SplitOnPieceChars(s, "\n\n");
    forall k | 0 <= k < |Blocks(data)| ensures '\r' !in Blocks(data)[k] {
      assert Blocks(data)[k] in SplitOn(s, "\n\n");
    }
  }

  /** Every cue of an SRT file is well formed, and the file has at least as many blocks as cues. */
  lemma ParseSrtShape(data: string)
    ensures forall c :: c in ParseSrt(data) ==> WellFormedCue(c)
    ensures |ParseSrt(data)| <= |Blocks(data)|
  {
    BlocksNoCR(data);
    ParseCuesShape(Blocks(data), 1);
  }

  /** Every cue of a WebVTT file is well formed, and the header block never yields a cue. */
  lemma ParseVttShape(data: string)
    ensures forall c :: c in ParseVtt(data) ==> WellFormedCue(c)
    ensures |ParseVtt(data)| < |Blocks(data)|
  {
    BlocksNoCR(data);
    var bs := Blocks(data)[1..];
    forall k | 0 <= k < |bs| ensures '\r' !in bs[k] {
      assert bs[k] == Blocks(data)[k + 1];
    }
    ParseCuesShape(bs, 0);
  }
  // ---------------------------------------------------------------------------
  // Writing an SRT document
  // ---------------------------------------------------------------------------

  function DigitChar(d: nat): (c: char)
    requires d < 10
    ensures IsDigit(c)
  {
    ('0' as int + d) as char
  }

  /** The number a string of decimal digits denotes. */
  function DigitsValue(s: string): nat
    requires AllDigits(s)
  {
    if s == [] then 0 else 10 * DigitsValue(s[..|s| - 1]) + (s[|s| - 1] as int - '0' as int)
  }

  /** `toString()` of a non-negative integer. */
  function Decimal(n: nat): (r: string)
    ensures r != [] && AllDigits(r)
    ensures n < 10 ==> |r| == 1
    ensures n < 100 ==> |r| <= 2
    ensures n < 1000 ==> |r| <= 3
  {
    if n < 10 then [DigitChar(n)] else Decimal(n / 10) + [DigitChar(n % 10)]
  }

  /** Writing a number in decimal and reading it back gives the number. */
  lemma {:induction false} DecimalValue(n: nat)
    ensures DigitsValue(Decimal(n)) == n
  {
    if n >= 10 {
      var r := Decimal(n);
      assert r[..|r| - 1] == Decimal(n / 10);
      DecimalValue(n / 10);
    }
  }

  /** `padStart(width, '0')`. */
  function PadStart(s: string, width: nat): (r: string)
    ensures |r| == if |s| < width then width else |s|
  {
    if |s| < width then seq(width - |s|, _ => '0') + s else s
  }

  lemma {:induction false} ZerosValue(z: string)
    requires forall i :: 0 <= i < |z| ==> z[i] == '0'
    ensures AllDigits(z) && DigitsValue(z) == 0
  {
    if z != [] {
      ZerosValue(z[..|z| - 1]);
    }
  }

  /** Leading zeros do not change the value read back. */
  lemma {:induction false} PadStartValue(s: string, width: nat)
    requires AllDigits(s)
    ensures AllDigits(PadStart(s, width)) && DigitsValue(PadStart(s, width)) == DigitsValue(s)
    decreases |s|
  {
    if |s| < width {
      var z := seq(width - |s|, _ => '0');
      ZerosPrefixValue(z, s);
    }
  }

  lemma {:induction false} ZerosPrefixValue(z: string, s: string)
    requires forall i :: 0 <= i < |z| ==> z[i] == '0'
    requires AllDigits(s)
    ensures AllDigits(z + s) && DigitsValue(z + s) == DigitsValue(s)
    decreases |s|
  {
    if s == [] {
      assert z + s == z;
      ZerosValue(z);
    } else {
      var t := z + s;
      assert t[..|t| - 1] == z + s[..|s| - 1];
      ZerosPrefixValue(z, s[..|s| - 1]);
    }
  }

  /**
   * `formatTime`: the `HH:MM:SS,mmm` reading of a UTC clock started at the
   * epoch and set to `seconds`. The clock keeps whole seconds only
   * (`setSeconds` truncates), its hour wraps at 24, and the milliseconds are
   * the truncated fraction of `seconds`.
   */
  function FormatTime(seconds: real): (r: string)
    requires seconds >= 0.0
    ensures |r| == 12 && r[2] == ':' && r[5] == ':' && r[8] == ','
  {
    var whole := seconds.Floor;
    var ms := ((seconds - whole as real) * 1000.0).Floor;
    PadStart(Decimal((whole / 3600) % 24), 2) + ":" + PadStart(Decimal((whole / 60) % 60), 2) + ":"
      + PadStart(Decimal(whole % 60), 2) + "," + PadStart(Decimal(ms), 3)
  }

  /** The three clock fields of a count of whole seconds make up that count modulo one day. */
  lemma ClockFields(w: nat)
    ensures ((w / 3600) % 24) * 3600 + ((w / 60) % 60) * 60 + w % 60 == w % 86400
  {
    var q, t := w / 86400, w % 86400;
    var h, rh := t / 3600, t % 3600;
    var m, sec := rh / 60, rh % 60;
    assert w == 3600 * (24 * q + h) + rh;
    assert w / 3600 == 24 * q + h;
    assert (24 * q + h) % 24 == h;
    assert w == 60 * (1440 * q + 60 * h + m) + sec;
    assert w / 60 == 1440 * q + 60 * h + m && w % 60 == sec;
    assert (1440 * q + 60 * h + m) % 60 == m;
  }

  /**
   * Reading a formatted time back: the three clock fields give the whole
   * seconds modulo one day, minutes and seconds are below 60, and the last
   * field is the milliseconds of the fraction.
   */
  lemma FormatTimeValue(seconds: real)
    requires seconds >= 0.0
    ensures var r := FormatTime(seconds);
      AllDigits(r[..2]) && AllDigits(r[3..5]) && AllDigits(r[6..8]) && AllDigits(r[9..])
      && DigitsValue(r[3..5]) < 60 && DigitsValue(r[6..8]) < 60
      && DigitsValue(r[..2]) * 3600 + DigitsValue(r[3..5]) * 60 + DigitsValue(r[6..8]) == seconds.Floor % 86400
      && DigitsValue(r[9..]) == ((seconds - seconds.Floor as real) * 1000.0).Floor
  {
    var whole := seconds.Floor;
    var ms := ((seconds - whole as real) * 1000.0).Floor;
    var h, m, sec := (whole / 3600) % 24, (whole / 60) % 60, whole % 60;
    var hh, mm, ss, mmm := PadStart(Decimal(h), 2), PadStart(Decimal(m), 2), PadStart(Decimal(sec), 2), PadStart(Decimal(ms), 3);
    var r := FormatTime(seconds);
    assert r == hh + ":" + mm + ":" + ss + "," + mmm;
    assert r[..2] == hh && r[3..5] == mm && r[6..8] == ss && r[9..] == mmm;
    DecimalValue(h);
    DecimalValue(m);
    DecimalValue(sec);
    DecimalValue(ms);
    PadStartValue(Decimal(h), 2);
    PadStartValue(Decimal(m), 2);
    PadStartValue(Decimal(sec), 2);
    PadStartValue(Decimal(ms), 3);
    ClockFields(whole);
  }

  /** A point on the estimated timeline, in seconds. */
  type Seconds = x: real | x >= 0.0

  /** Seconds a job of `length` characters is expected to last: 18 characters per second at speed 1. */
  function Duration(length: nat, speed: real): (d: Seconds)
    requires speed > 0.0
  {
    length as real / (18.0 * speed)
  }

  /** A job read from a subtitle file carries its own timing line (`!timestamp` is false). */
  predicate HasTimestamp(job: Job)
  {
    job.timestamp.Some? && job.timestamp.value != []
  }

  /** Where an entry sits: a timing line copied from the job, or an estimated interval. */
  datatype Timing = Given(line: string) | Estimated(start: Seconds, end: Seconds)

  /** An entry before it is written out: its text and its timing. */
  datatype Slot = Slot(text: string, timing: Timing)

  /**
   * The slot of a finished job and where the estimated timeline stands after
   * it: a job with a timing line keeps it and leaves the timeline alone; any
   * other gets an interval as long as its estimated duration that starts at
   * `time`, after which the timeline moves on by that duration plus a 0.3 s
   * pause.
   */
  function NextSlot(job: Job, speed: real, time: Seconds): (Slot, Seconds)
    requires speed > 0.0
  {
    if HasTimestamp(job) then (Slot(job.text, Given(job.timestamp.value)), time)
    else
      var d := Duration(|job.text|, speed);
      (Slot(job.text, Estimated(time, time + d)), time + d + 0.3)
  }

  /** The slots of `jobs` when the estimated timeline stands at `time`: finished jobs only, in queue order. */
  function Schedule(jobs: seq<Job>, speed: real, time: Seconds): seq<Slot>
    requires speed > 0.0
  {
    if jobs == [] then []
    else if jobs[0].status != Finished then Schedule(jobs[1..], speed, time)
    else
      var (slot, next) := NextSlot(jobs[0], speed, time);
      [slot] + Schedule(jobs[1..], speed, next)
  }

  /** The timing line written for a slot: the given line, or `start --> end`. */
  function TimingLine(t: Timing): string
  {
    match t
    case Given(line) => line
    case Estimated(start, end) => FormatTime(start) + " --> " + FormatTime(end)
  }

  /** The cues written for the slots. */
  function CuesOf(slots: seq<Slot>): (r: seq<Cue>)
    ensures |r| == |slots|
  {
    if slots == [] then [] else [Cue(slots[0].text, TimingLine(slots[0].timing))] + CuesOf(slots[1..])
  }

  /** The cues `generateSrt` writes for `jobs`. */
  function SrtCues(jobs: seq<Job>, speed: real): seq<Cue>
    requires speed > 0.0
  {
    CuesOf(Schedule(jobs, speed, 0.0))
  }

  /** An SRT block without its closing newline: index line, timing line, text. */
  function SrtBlock(n: nat, c: Cue): string
  {
    Decimal(n) + "\n" + c.timestamp + "\n" + c.text
  }

  /** The entries for `cues`, numbered from `n`; each ends in a newline. */
  function Entries(cues: seq<Cue>, n: nat): (r: seq<string>)
    ensures |r| == |cues|
  {
    if cues == [] then [] else [SrtBlock(n, cues[0]) + "\n"] + Entries(cues[1..], n + 1)
  }

  /** The SRT document: the entries numbered from 1 and joined by newlines. */
  function RenderSrt(cues: seq<Cue>): string
  {
    Join(Entries(cues, 1), "\n")
  }

  /** The `k`-th entry carries number `n + k`. */
  lemma {:induction false} EntriesNumbered(cues: seq<Cue>, n: nat)
    ensures forall k :: 0 <= k < |cues| ==> Entries(cues, n)[k] == SrtBlock(n + k, cues[k]) + "\n"
  {
    if cues != [] {
      EntriesNumbered(cues[1..], n + 1);
      forall k | 0 < k < |cues| ensures Entries(cues, n)[k] == SrtBlock(n + k, cues[k]) + "\n" {
        assert Entries(cues, n)[k] == Entries(cues[1..], n + 1)[k - 1];
        assert cues[1..][k - 1] == cues[k];
      }
    }
  }

  /** `TextProcessor.generateSrt`. */
  method GenerateSrt(jobs: seq<Job>, speed: real) returns (srt: string)
    requires speed > 0.0
    ensures srt == RenderSrt(SrtCues(jobs, speed))
  {
    var entries: seq<string> := [];
    var currentTime: Seconds := 0.0;
    for i := 0 to |jobs|
      invariant entries + Entries(CuesOf(Schedule(jobs[i..], speed, currentTime)), |entries| + 1)
        == Entries(SrtCues(jobs, speed), 1)
    {
      var job := jobs[i];
      assert jobs[i..][1..] == jobs[i + 1..];
      if job.status == Finished {
        var (slot, next) := NextSlot(job, speed, currentTime);
        var rest := Schedule(jobs[i + 1..], speed, next);
        var entry := SrtBlock(|entries| + 1, Cue(slot.text, TimingLine(slot.timing))) + "\n";
        assert ([slot] + rest)[1..] == rest;
        assert Entries(CuesOf(Schedule(jobs[i..], speed, currentTime)), |entries| + 1) == [entry] + Entries(CuesOf(rest), |entries| + 2);
        AppendAssoc(entries, [entry], Entries(CuesOf(rest), |entries| + 2));
        entries := entries + [entry];
        currentTime := next;
      }
    }
    assert jobs[|jobs|..] == [];
    assert Entries(CuesOf(Schedule([], speed, currentTime)), |entries| + 1) == [];
    assert entries == Entries(SrtCues(jobs, speed), 1);
    srt := Join(entries, "\n");
  }

  // ---------------------------------------------------------------------------
  // What the SRT document holds
  // ---------------------------------------------------------------------------

  /** The jobs whose status is finished, in queue order. */
  function FinishedJobs(jobs: seq<Job>): (r: seq<Job>)
    ensures |r| <= |jobs|
  {
    if jobs == [] then []
    else (if jobs[0].status == Finished then [jobs[0]] else []) + FinishedJobs(jobs[1..])
  }

  /** How far the estimated timeline advances over one job: its duration plus the pause, unless it has a timing line. */
  function Gap(job: Job, speed: real): Seconds
    requires speed > 0.0
  {
    if HasTimestamp(job) then 0.0 else Duration(|job.text|, speed) + 0.3
  }

  /** How far the estimated timeline advances over `jobs`. */
  function Elapsed(jobs: seq<Job>, speed: real): Seconds
    requires speed > 0.0
  {
    if jobs == [] then 0.0 else Gap(jobs[0], speed) + Elapsed(jobs[1..], speed)
  }

  /**
   * `slot` is the one written for `job` when its estimated interval would
   * start at `start`: the job's text, and the job's own timing line when it
   * has one, otherwise an interval from `start` as long as the job's
   * estimated duration.
   */
  predicate Describes(slot: Slot, job: Job, start: Seconds, speed: real)
    requires speed > 0.0
  {
    slot.text == job.text
    && slot.timing == if HasTimestamp(job) then Given(job.timestamp.value) else Estimated(start, start + Duration(|job.text|, speed))
  }

  /** One slot per finished job. */
  lemma {:induction false} ScheduleLength(jobs: seq<Job>, speed: real, time: Seconds)
    requires speed > 0.0
    ensures |Schedule(jobs, speed, time)| == |FinishedJobs(jobs)|
  {
    if jobs != [] {
      ScheduleLength(jobs[1..], speed, NextSlot(jobs[0], speed, time).1);
      ScheduleLength(jobs[1..], speed, time);
    }
  }

  /**
   * The slot at position `k` describes the `k`-th finished job, its estimated
   * interval starting once all earlier finished jobs without a timing line,
   * and their pauses, have elapsed.
   */
  lemma {:induction false} ScheduleAt(jobs: seq<Job>, speed: real, time: Seconds, k: nat)
    requires speed > 0.0
    requires k < |FinishedJobs(jobs)|
    ensures k < |Schedule(jobs, speed, time)|
    ensures Describes(Schedule(jobs, speed, time)[k], FinishedJobs(jobs)[k], time + Elapsed(FinishedJobs(jobs)[..k], speed), speed)
  {
    ScheduleLength(jobs, speed, time);
    var job := jobs[0];
    var fin, fin' := FinishedJobs(jobs), FinishedJobs(jobs[1..]);
    if job.status == Finished {
      var (slot, next) := NextSlot(job, speed, time);
      assert Schedule(jobs, speed, time) == [slot] + Schedule(jobs[1..], speed, next);
      assert fin == [job] + fin';
      if k == 0 {
        assert fin[..0] == [];
      } else {
        ScheduleAt(jobs[1..], speed, next, k - 1);
        assert fin[..k][1..] == fin'[..k - 1];
        assert time + Elapsed(fin[..k], speed) == next + Elapsed(fin'[..k - 1], speed);
      }
    } else {
      assert fin == fin';
      ScheduleAt(jobs[1..], speed, time, k);
    }
  }

  /** The cue written for each slot carries the slot's text and its timing line. */
  lemma {:induction false} CuesOfAt(slots: seq<Slot>, k: nat)
    requires k < |slots|
    ensures CuesOf(slots)[k] == Cue(slots[k].text, TimingLine(slots[k].timing))
  {
    if k > 0 {
      CuesOfAt(slots[1..], k - 1);
    }
  }

  // ---------------------------------------------------------------------------
  // Reading back what was written
  // ---------------------------------------------------------------------------

  /** No two newlines in a row: the text has no blank line that would end its block early. */
  predicate NoBlankLine(s: string)
  {
    forall i :: 0 < i < |s| ==> s[i - 1] != '\n' || s[i] != '\n'
  }

  /** A cue that survives being written out and read back: well formed, with a timing line and no blank line in its text. */
  predicate Portable(c: Cue)
  {
    WellFormedCue(c) && c.timestamp != [] && NoBlankLine(c.text)
  }

  lemma NoBlankLineOfLine(s: string)
    requires '\n' !in s
    ensures NoBlankLine(s)
  {
    forall i | 0 < i < |s| ensures s[i - 1] != '\n' || s[i] != '\n' {
      assert s[i] in s;
    }
  }

  lemma NoBlankLineAppend(a: string, b: string)
    requires NoBlankLine(a) && NoBlankLine(b)
    requires a == [] || b == [] || a[|a| - 1] != '\n' || b[0] != '\n'
    ensures NoBlankLine(a + b)
  {
    var s := a + b;
    forall i | 0 < i < |s| ensures s[i - 1] != '\n' || s[i] != '\n' {
      if i < |a| {
        assert s[i - 1] == a[i - 1] && s[i] == a[i];
      } else if i == |a| {
        assert s[i - 1] == a[i - 1] && s[i] == b[0];
      } else {
        assert s[i - 1] == b[i - 1 - |a|] && s[i] == b[i - |a|];
      }
    }
  }

  /** Without a blank line and without a closing newline, a string cannot contain a block separator, even where it meets the next one. */
  lemma NoEarlyMatchBlank(p: string)
    requires NoBlankLine(p) && (p == [] || p[|p| - 1] != '\n')
    ensures NoEarlyMatch(p, "\n\n")
  {
    forall i | 0 <= i < |p| ensures !("\n\n" <= (p + "\n\n")[i..]) {
      var t := (p + "\n\n")[i..];
      assert t[0] == p[i];
      if i + 1 < |p| {
        assert t[1] == p[i + 1];
      }
    }
  }

  lemma DigitsNoNewline(s: string)
    requires AllDigits(s)
    ensures '\n' !in s && '\r' !in s
  {
    forall i | 0 <= i < |s| ensures s[i] != '\n' && s[i] != '\r' {
      assert IsDigit(s[i]);
    }
  }

  /** `line + "\n" + rest` is cut into `line` and the lines of `rest` when `line` has no newline. */
  lemma SplitLine(line: string, rest: string)
    requires '\n' !in line
    ensures SplitOn(line + "\n" + rest, "\n") == [line] + SplitOn(rest, "\n")
  {
    NoEarlyMatchChar(line, '\n');
    SplitOnFirst(line, "\n", rest);
  }

  /** A block's text lines, read back, give the text of a portable cue. */
  lemma TextLinesBack(c: Cue)
    requires Portable(c)
    ensures Trim(StripTags(Join(SplitOn(c.text, "\n"), "\n"))) == c.text
  {
    JoinSplit(c.text, "\n");
    StripTagsOfTagFree(c.text);
  }

  /** The lines of an SRT block of a portable cue read back as that cue. */
  lemma SrtBlockLines(n: nat, c: Cue)
    requires Portable(c)
    ensures ParseBlock(SrtBlock(n, c), 1) == Some(c)
  {
    var d, ts, text := Decimal(n), c.timestamp, c.text;
    var rest := ts + "\n" + text;
    DigitsNoNewline(d);
    AppendAssoc(d + "\n", ts + "\n", text);
    AppendAssoc(d + "\n", ts, "\n");
    assert SrtBlock(n, c) == d + "\n" + rest;
    SplitLine(d, rest);
    SplitLine(ts, text);
    var lines := SplitOn(SrtBlock(n, c), "\n");
    assert lines == [d] + ([ts] + SplitOn(text, "\n"));
    assert lines[1] == ts && lines[2..] == SplitOn(text, "\n");
    TextLinesBack(c);
  }

  /** An SRT block of a portable cue has no blank line and no line break at either end. */
  lemma SrtBlockNoBlank(n: nat, c: Cue)
    requires Portable(c)
    ensures NoBlankLine(SrtBlock(n, c))
  {
    var d, ts, text := Decimal(n), c.timestamp, c.text;
    DigitsNoNewline(d);
    NoBlankLineOfLine(d);
    NoBlankLineOfLine(ts);
    assert NoBlankLine("\n");
    assert ts[0] in ts;
    assert !IsWhite(text[0]);
    NoBlankLineAppend(d, "\n");
    NoBlankLineAppend(d + "\n", ts);
    NoBlankLineAppend(d + "\n" + ts, "\n");
    NoBlankLineAppend(d + "\n" + ts + "\n", text);
  }

  /** An SRT block of a portable cue can be told apart from its neighbours in a document. */
  lemma SrtBlockSeparate(n: nat, c: Cue)
    requires Portable(c)
    ensures var b := SrtBlock(n, c);
      b != [] && !IsWhite(b[0]) && !IsWhite(b[|b| - 1]) && '\r' !in b && NoEarlyMatch(b, "\n\n")
  {
    var d, ts, text := Decimal(n), c.timestamp, c.text;
    var b := SrtBlock(n, c);
    DigitsNoNewline(d);
    assert b[0] == d[0] && IsDigit(d[0]);
    assert b[|b| - 1] == text[|text| - 1];
    SrtBlockNoBlank(n, c);
    NoEarlyMatchBlank(b);
  }

  /** The SRT blocks for `cues`, numbered from `n`, without their closing newlines. */
  function SrtBlocks(cues: seq<Cue>, n: nat): (r: seq<string>)
    ensures |r| == |cues|
  {
    if cues == [] then [] else [SrtBlock(n, cues[0])] + SrtBlocks(cues[1..], n + 1)
  }

  /** Entries that each end in a newline, joined by newlines, are the blocks joined by blank lines plus one newline. */
  lemma {:induction false} RenderBlocks(cues: seq<Cue>, n: nat)
    requires cues != []
    ensures Join(Entries(cues, n), "\n") == Join(SrtBlocks(cues, n), "\n\n") + "\n"
  {
    if |cues| > 1 {
      RenderBlocks(cues[1..], n + 1);
      var b := SrtBlock(n, cues[0]);
      var j := Join(SrtBlocks(cues[1..], n + 1), "\n\n");
      AppendAssoc(b, "\n", "\n");
      AppendAssoc(b + "\n\n", j, "\n");
      AppendAssoc(b + "\n" + "\n", j, "\n");
    }
  }

  lemma {:induction false} SrtBlocksAt(cues: seq<Cue>, n: nat)
    ensures forall k :: 0 <= k < |cues| ==> SrtBlocks(cues, n)[k] == SrtBlock(n + k, cues[k])
  {
    if cues != [] {
      SrtBlocksAt(cues[1..], n + 1);
      forall k | 0 < k < |cues| ensures SrtBlocks(cues, n)[k] == SrtBlock(n + k, cues[k]) {
        assert SrtBlocks(cues, n)[k] == SrtBlocks(cues[1..], n + 1)[k - 1];
      }
    }
  }

  /** A document of blocks joined by blank lines, closed by a newline, splits back into those blocks. */
  lemma DocumentBlocks(blocks: seq<string>)
    requires blocks != []
    requires forall k :: 0 <= k < |blocks| ==> blocks[k] != [] && '\r' !in blocks[k] && NoEarlyMatch(blocks[k], "\n\n")
    requires !IsWhite(blocks[0][0]) && !IsWhite(blocks[|blocks| - 1][|blocks[|blocks| - 1]| - 1])
    ensures Blocks(Join(blocks, "\n\n") + "\n") == blocks
  {
    var j := Join(blocks, "\n\n");
    var last := blocks[|blocks| - 1];
    JoinEnds(blocks, "\n\n");
    assert j[0] == j[..|blocks[0]|][0];
    assert j[|j| - 1] == j[|j| - |last|..][|last| - 1];
    TrimNewline(j);
    JoinChars(blocks, "\n\n");
    assert '\r' !in j by {
      forall p | p in blocks ensures '\r' !in p {
      }
    }
    SplitOnJoinSep(blocks, "\n\n");
  }

  lemma {:induction false} ParseCuesAll(blocks: seq<string>, cues: seq<Cue>, header: nat)
    requires |blocks| == |cues|
    requires forall k :: 0 <= k < |blocks| ==> ParseBlock(blocks[k], header) == Some(cues[k])
    ensures ParseCues(blocks, header) == cues
  {
    if blocks != [] {
      ParseCuesAll(blocks[1..], cues[1..], header);
      assert ParseBlock(blocks[0], header) == Some(cues[0]);
      assert [cues[0]] + cues[1..] == cues;
    }
  }

  /** Reading an SRT document written from portable cues gives those cues back. */
  lemma SrtRoundTrip(cues: seq<Cue>)
    requires forall c :: c in cues ==> Portable(c)
    ensures ParseSrt(RenderSrt(cues)) == cues
  {
    if cues == [] {
      assert RenderSrt(cues) == "";
      assert Blocks("") == [""];
      assert SplitOn("", "\n") == [""];
      assert ParseBlock("", 1) == None;
      assert ParseCues([""], 1) == [];
    } else {
      var blocks := SrtBlocks(cues, 1);
      SrtBlocksAt(cues, 1);
      forall k | 0 <= k < |blocks|
        ensures blocks[k] != [] && '\r' !in blocks[k] && NoEarlyMatch(blocks[k], "\n\n")
        ensures ParseBlock(blocks[k], 1) == Some(cues[k])
        ensures !IsWhite(blocks[k][0]) && !IsWhite(blocks[k][|blocks[k]| - 1])
      {
        assert cues[k] in cues;
        SrtBlockLines(1 + k, cues[k]);
        SrtBlockSeparate(1 + k, cues[k]);
      }
      RenderBlocks(cues, 1);
      DocumentBlocks(blocks);
      assert Blocks(RenderSrt(cues)) == blocks;
      ParseCuesAll(blocks, cues, 1);
    }
  }

  /** A WebVTT cue block: timing line and text. */
  function VttBlock(c: Cue): string
  {
    c.timestamp + "\n" + c.text
  }

  function VttBlocks(cues: seq<Cue>): (r: seq<string>)
    ensures |r| == |cues|
    ensures forall k :: 0 <= k < |cues| ==> r[k] == VttBlock(cues[k])
  {
    seq(|cues|, k requires 0 <= k < |cues| => VttBlock(cues[k]))
  }

  /** A WebVTT document: the `WEBVTT` header line, then the cue blocks, separated by blank lines. */
  function RenderVtt(cues: seq<Cue>): string
  {
    Join(["WEBVTT"] + VttBlocks(cues), "\n\n") + "\n"
  }

  lemma VttBlockLines(c: Cue)
    requires Portable(c)
    ensures ParseBlock(VttBlock(c), 0) == Some(c)
  {
    SplitLine(c.timestamp, c.text);
    TextLinesBack(c);
  }

  lemma VttBlockSeparate(c: Cue)
    requires Portable(c)
    ensures var b := VttBlock(c);
      b != [] && !IsWhite(b[|b| - 1]) && '\r' !in b && NoEarlyMatch(b, "\n\n")
  {
    var ts, text := c.timestamp, c.text;
    var b := VttBlock(c);
    assert b[|b| - 1] == text[|text| - 1];
    NoBlankLineOfLine(ts);
    assert NoBlankLine("\n");
    assert ts[0] in ts;
    assert !IsWhite(text[0]);
    NoBlankLineAppend(ts, "\n");
    NoBlankLineAppend(ts + "\n", text);
    NoEarlyMatchBlank(b);
  }

  /** Reading a WebVTT document written from portable cues gives those cues back; the header yields none. */
  lemma VttRoundTrip(cues: seq<Cue>)
    requires forall c :: c in cues ==> Portable(c)
    ensures ParseVtt(RenderVtt(cues)) == cues
  {
    var header := "WEBVTT";
    var blocks := [header] + VttBlocks(cues);
    forall k | 0 <= k < |blocks|
      ensures blocks[k] != [] && '\r' !in blocks[k] && NoEarlyMatch(blocks[k], "\n\n")
      ensures !IsWhite(blocks[k][|blocks[k]| - 1])
      ensures 0 < k ==> ParseBlock(blocks[k], 0) == Some(cues[k - 1])
    {
      if k == 0 {
        NoBlankLineOfLine(header);
        NoEarlyMatchBlank(header);
      } else {
        assert cues[k - 1] in cues;
        VttBlockLines(cues[k - 1]);
        VttBlockSeparate(cues[k - 1]);
      }
    }
    DocumentBlocks(blocks);
    assert blocks[1..] == VttBlocks(cues);
    ParseCuesAll(VttBlocks(cues), cues, 0);
  }
  /** A formatted time is one line: digits and the `:` and `,` separators only. */
  lemma FormatTimeOneLine(seconds: real)
    requires seconds >= 0.0
    ensures '\n' !in FormatTime(seconds) && '\r' !in FormatTime(seconds)
  {
    var r := FormatTime(seconds);
    FormatTimeValue(seconds);
    forall i | 0 <= i < |r| ensures r[i] != '\n' && r[i] != '\r' {
      if i < 2 {
        assert r[i] == r[..2][i];
      } else if 2 < i < 5 {
        assert r[i] == r[3..5][i - 3];
      } else if 5 < i < 8 {
        assert r[i] == r[6..8][i - 6];
      } else if 8 < i {
        assert r[i] == r[9..][i - 9];
      }
    }
  }

  /** A job whose entry survives writing and reading back. */
  predicate PortableJob(job: Job)
  {
    job.text != [] && IsTrimmed(job.text) && TagFree(job.text) && NoBlankLine(job.text) && '\r' !in job.text
    && (HasTimestamp(job) ==> '\n' !in job.timestamp.value && '\r' !in job.timestamp.value)
  }

  /** The text and the given timing line of each slot, without the arithmetic of the estimated ones. */
  lemma ScheduleKeeps(jobs: seq<Job>, speed: real, time: Seconds, k: nat)
    requires speed > 0.0
    requires k < |FinishedJobs(jobs)|
    ensures k < |Schedule(jobs, speed, time)|
    ensures var slot, job := Schedule(jobs, speed, time)[k], FinishedJobs(jobs)[k];
      slot.text == job.text
      && (slot.timing.Given? <==> HasTimestamp(job))
      && (HasTimestamp(job) ==> slot.timing.line == job.timestamp.value)
  {
    ScheduleAt(jobs, speed, time, k);
  }

  /** The cue written for a slot with portable text and a one-line given timing line is portable. */
  lemma SlotPortable(slot: Slot)
    requires slot.text != [] && IsTrimmed(slot.text) && TagFree(slot.text) && NoBlankLine(slot.text) && '\r' !in slot.text
    requires slot.timing.Given? ==> slot.timing.line != [] && '\n' !in slot.timing.line && '\r' !in slot.timing.line
    ensures Portable(Cue(slot.text, TimingLine(slot.timing)))
  {
    match slot.timing
    case Given(line) =>
    case Estimated(start, end) =>
      FormatTimeOneLine(start);
      FormatTimeOneLine(end);
  }

  /**
   * Importing what `generateSrt` exported: the document read back holds one
   * cue per finished job, in queue order, with that job's text and the timing
   * line written for it.
   */
  lemma SrtExportImport(jobs: seq<Job>, speed: real)
    requires speed > 0.0
    requires forall j :: j in FinishedJobs(jobs) ==> PortableJob(j)
    ensures ParseSrt(RenderSrt(SrtCues(jobs, speed))) == SrtCues(jobs, speed)
    ensures |SrtCues(jobs, speed)| == |FinishedJobs(jobs)|
    ensures forall k :: 0 <= k < |SrtCues(jobs, speed)| ==> SrtCues(jobs, speed)[k].text == FinishedJobs(jobs)[k].text
  {
    var slots := Schedule(jobs, speed, 0.0);
    var cues := SrtCues(jobs, speed);
    var fin := FinishedJobs(jobs);
    ScheduleLength(jobs, speed, 0.0);
    forall k | 0 <= k < |cues| ensures Portable(cues[k]) && cues[k].text == fin[k].text {
      CuesOfAt(slots, k);
      ScheduleKeeps(jobs, speed, 0.0, k);
      assert fin[k] in fin;
      SlotPortable(slots[k]);
    }
    SrtRoundTrip(cues);
  }
}

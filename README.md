# Text-to-speech workbench: a verified model of its core

The web application turns long prose into spoken audio. The model covers its core:

- **Segmenter** (`services/textProcessor.ts`, module `TextProcessor`). It normalises raw text and splits it into
  sentences at periods. It packs the sentences greedily into chunks of at most `maxChars` characters,
  hard-splits a sentence that is too long on its own, and then corrects a too-short tail chunk.
- **Subtitle import and export** (the same file, module `Subtitles`). `parseSrtContent` and `parseVttContent` read
  cues from an SRT or WebVTT file. `generateSrt` writes the finished jobs as an SRT document with estimated timings.
- **Key manager** (`services/keyManager.ts`, module `Keys`, class `KeyManager`). It keeps a newline-separated key
  list in browser storage and picks a key per task: the task's primary row, then a fallback pool, then a last
  resort. It also keeps a session set of keys marked bad.
- **Speech job queue** (`components/TextToSpeech.tsx`, module `SpeechQueue`, class `TextToSpeech`). It adds content
  as pending jobs and edits, retries, removes and cancels them. It keeps the status counts and the trigger for
  merging the finished audio. Its run claims the pending jobs in order, calls the synthesis service, records the
  outcome and marks the key bad on an authentication or rate-limit failure.
- **Text filter** (`components/TextFilter.tsx`, module `LineFilter`, class `TextFilter`). `processText` drops
  chapter headers and blocks of junk lines, strips a trailing counter from each kept line, and can delete all
  digits and tidy white space.

Shared modules: `Wrappers` holds `Option` and `Result`. `Strings` holds JavaScript's white-space set, `trim`,
`split`, `join` and `includes` on `seq<char>`. `Jobs` holds the `ChunkJob` record.

Each loop of the source is a `method` proved against a specification function. For example, `SplitLongSentence`
is proved against `SplitPieces`, `PackSentences` against `Pack`, `FilterLines` against `FilterFrom` and
`SkipJunkBlock` against `SkipEnd`. The lemmas then prove what the source promises about those functions.

Behaviour of the code that a reader might not expect, all of it modelled as written:

- `process` returns the original, untrimmed input as its only chunk when packing yields nothing and the input is not
  all white space (line 119).
- Periods with nothing but white space between them, and a period at the start of a paragraph, disappear: the
  paragraph is split at `.`, empty fragments are dropped and each remaining fragment gets one period back (lines
  82-90). So `"a..b"` gives the sentences `"a."` and `"b"`. The content lemmas therefore compare the characters other
  than white space and periods (`Letters`).
- A hard-split piece may be `maxChars + 1` long. `lastIndexOf(delim, maxChars)` can find a delimiter at index
  `maxChars`, and the cut falls just after it. Trimming removes a space there but not `,`, `!`, `?`, `:` or `;`.
  `WithinCutBound` states exactly this bound.
- `getKey` tries the environment key before the primary slot as a last resort (line 59), for every task.
- `handleCancel` is a no-op only before any run has created an abort controller, not whenever the queue is idle.

## Model

| member | source | states |
|---|---|---|
| TextProcessor.NewProcessor | services/textProcessor.ts:34-40 | construction fails exactly when `maxChars <= 0`; otherwise both settings are kept |
| TextProcessor.CleanTextIsClean | services/textProcessor.ts:42-49 | `cleanText` output has no carriage return, tab or stripped control character, no two spaces in a row, and is trimmed; its non-white characters are exactly the input's characters that are neither white space nor stripped controls, in order |
| TextProcessor.CleanText | services/textProcessor.ts:42-49 | the cleaning chain: CR LF and CR to LF, line-feed runs collapsed, controls stripped, each line's blanks collapsed and trimmed, lines joined and trimmed |
| TextProcessor.NormalizeLinesNonWhite | services/textProcessor.ts:43-48 | before the final trim the normalised text keeps exactly the visible characters of the input, in order |
| TextProcessor.UnifiedNonWhite | services/textProcessor.ts:43-45 | unifying line ends, collapsing line feeds and stripping controls keeps exactly the visible characters |
| TextProcessor.LinesNonWhite | services/textProcessor.ts:46-48 | splitting into lines, cleaning each and joining them again keeps every non-white character |
| TextProcessor.CleanedJoinNonWhite | services/textProcessor.ts:47-48 | cleaning each line keeps the non-white characters of the joined lines |
| TextProcessor.CleanLinesNonWhite | services/textProcessor.ts:47 | cleaning the lines one by one keeps their non-white characters, in order |
| TextProcessor.ReplaceCrLfAppend | services/textProcessor.ts:43 | the CR LF replacement works piece by piece where the first piece does not end in a carriage return |
| TextProcessor.ReplaceCrLfSplice | services/textProcessor.ts:43 | each CR LF pair becomes one line feed and the text on either side is treated on its own |
| TextProcessor.ReplaceCrLfFixed | services/textProcessor.ts:43 | text without a CR LF pair is unchanged |
| TextProcessor.ReplaceCrLfNonWhite | services/textProcessor.ts:43 | the replacement changes white space only |
| TextProcessor.CrToLfNonWhite | services/textProcessor.ts:43 | turning carriage returns into line feeds changes white space only |
| TextProcessor.CollapseNewlinesRun | services/textProcessor.ts:44 | a run of line feeds in front of a line becomes one line feed |
| TextProcessor.CollapseNewlinesSplice | services/textProcessor.ts:44 | every maximal run of line feeds becomes a single line feed and the text on either side is kept |
| TextProcessor.CollapseNewlinesFixed | services/textProcessor.ts:44 | text without two line feeds in a row is unchanged |
| TextProcessor.CollapseNewlinesNonWhite | services/textProcessor.ts:44 | collapsing removes line feeds only |
| TextProcessor.RemoveControlsAppend | services/textProcessor.ts:45 | control stripping works piece by piece, so every other character keeps its order |
| TextProcessor.RemoveControlsFixed | services/textProcessor.ts:45 | text without a stripped control character is unchanged |
| TextProcessor.NonWhiteRemoveControls | services/textProcessor.ts:45 | the non-white characters left after stripping are exactly the visible characters |
| TextProcessor.RemoveControlsNonWhite | services/textProcessor.ts:45 | stripping controls from the non-white characters leaves exactly the visible characters |
| TextProcessor.DropBlanksNonWhite | services/textProcessor.ts:47 | skipping a leading run of blanks skips white space only |
| TextProcessor.DropBlanksRun | services/textProcessor.ts:47 | a run of blanks followed by a non-blank is skipped entirely |
| TextProcessor.DropBlanksAppend | services/textProcessor.ts:47 | in a string ending in a non-blank the skipped run ends inside it |
| TextProcessor.CollapseBlanksRun | services/textProcessor.ts:47 | a run of blanks at the front becomes one space |
| TextProcessor.CollapseBlanksSplice | services/textProcessor.ts:47 | every maximal run of blanks becomes a single space and the text on either side is kept |
| TextProcessor.CollapseBlanksFixed | services/textProcessor.ts:47 | text without tabs or two spaces in a row is unchanged |
| TextProcessor.CollapseBlanksNonWhite | services/textProcessor.ts:47 | collapsing blanks changes white space only |
| TextProcessor.CleanTextOfWhite | services/textProcessor.ts:42-49 | white-space-only input cleans to the empty string |
| TextProcessor.CollapseBlanks | services/textProcessor.ts:47 | the blank-collapsing replacement leaves no tab and no double space, adds only spaces, and starts with a space exactly when the input starts with a blank |
| TextProcessor.ReplaceCrLf | services/textProcessor.ts:43 | replacing CR LF pairs invents no character |
| TextProcessor.CrToLf | services/textProcessor.ts:43 | every remaining carriage return becomes a line feed, and nothing else changes |
| TextProcessor.CollapseNewlines | services/textProcessor.ts:44 | no two line feeds remain, no character is invented, and the first character is kept |
| TextProcessor.RemoveControls | services/textProcessor.ts:45 | every remaining character was in the input and is not in the stripped control class |
| TextProcessor.ConcatNonEmpty | services/textProcessor.ts:78 | dropping empty paragraphs changes no character |
| TextProcessor.Sentences | services/textProcessor.ts:77-92 | the sentences `process` packs: those of every non-empty line of the cleaned text, in order |
| TextProcessor.LettersAppend | services/textProcessor.ts:82-90 | the letters of two strings together are the letters of each, in order |
| TextProcessor.LettersNonWhite | services/textProcessor.ts:82-90 | removing white space first leaves the letters as they were |
| TextProcessor.VisibleNonWhite | services/textProcessor.ts:43-48 | the visible characters contain no white space |
| TextProcessor.LettersJoinPeriods | services/textProcessor.ts:82 | joining fragments with periods adds no letter |
| TextProcessor.TrimAllNonWhite | services/textProcessor.ts:83 | trimming every fragment keeps their non-white characters |
| TextProcessor.FragmentsLetters | services/textProcessor.ts:82-84 | the non-empty trimmed fragments carry every letter of the paragraph, in order |
| TextProcessor.LettersPointwise | services/textProcessor.ts:85-90 | parts with the same letters pairwise have the same letters together |
| TextProcessor.SentencesOfLetters | services/textProcessor.ts:82-90 | the sentences of a paragraph carry all its letters: only periods are added or dropped |
| TextProcessor.AllSentencesLetters | services/textProcessor.ts:80-92 | the sentences of all paragraphs carry the letters of all paragraphs, in order |
| TextProcessor.LettersSnoc | services/textProcessor.ts:91 | appending one paragraph's sentences appends its letters |
| TextProcessor.SentencesLetters | services/textProcessor.ts:77-92 | the sentences carry exactly the letters of the cleaned text, and so every visible character of the input other than a period, in order |
| TextProcessor.SentencesOfShape | services/textProcessor.ts:82-90 | each sentence is non-empty and trimmed with a period only at its end; all but the last end in a period; the last does exactly when the paragraph does |
| TextProcessor.AllSentencesShape | services/textProcessor.ts:80-92 | every collected sentence is non-empty and trimmed |
| TextProcessor.CollectSentences | services/textProcessor.ts:80-92 | the paragraph loop appends each paragraph's sentences in order (equals `AllSentences`) |
| TextProcessor.AllSentencesSnoc | services/textProcessor.ts:91 | one more paragraph appends exactly its sentences |
| TextProcessor.FindCutPosition | services/textProcessor.ts:56-66 | the delimiter loop with early exit yields the cut of `CutFrom` |
| TextProcessor.LastIndexOf | services/textProcessor.ts:58 | `lastIndexOf(c, from)` is -1 or an index not after `from` holding `c`, with no later such index |
| TextProcessor.CutFromNone | services/textProcessor.ts:64-66 | with no delimiter in the first `maxChars + 1` characters the cut is `maxChars` |
| TextProcessor.CutFromFound | services/textProcessor.ts:57-62 | otherwise the cut is one past the last occurrence of the highest-priority delimiter present |
| TextProcessor.CutPieceBound | services/textProcessor.ts:67 | the piece cut off is at most `maxChars`, or `maxChars + 1` when it ends in a non-space delimiter at index `maxChars` |
| TextProcessor.SplitPiecesBound | services/textProcessor.ts:55-72 | every hard-split piece keeps that cut bound, the final remainder included |
| TextProcessor.SplitPieces | services/textProcessor.ts:51-74 | the hard-split pieces: while the remainder is longer than `maxChars`, cut at `CutFrom`, trim both sides, and keep a non-empty final remainder |
| TextProcessor.SplitPiecesContent | services/textProcessor.ts:55-72 | hard splitting drops white space only: the pieces hold the sentence's non-white characters in order |
| TextProcessor.SplitPiecesTrimmed | services/textProcessor.ts:67-72 | a trimmed sentence gives non-empty trimmed pieces, at least one when the sentence is not empty |
| TextProcessor.CutHeadTrimmed | services/textProcessor.ts:67 | a cut at a positive position of a trimmed remainder gives a non-empty piece |
| TextProcessor.SplitLongSentence | services/textProcessor.ts:51-74 | the loop returns `SplitPieces`; each piece keeps the cut bound and together they keep every non-white character |
| TextProcessor.PackOne | services/textProcessor.ts:98-113 | one iteration of the packing loop equals `PackStep` |
| TextProcessor.PackStepContent | services/textProcessor.ts:98-113 | one packing step adds exactly the sentence's non-white characters to the flushed chunks |
| TextProcessor.JoinedContent | services/textProcessor.ts:112 | joining a sentence to the current chunk with a space adds only its non-white characters |
| TextProcessor.PackPrefixContent | services/textProcessor.ts:97-117 | after any prefix of sentences the flushed chunks hold that prefix's non-white characters in order |
| TextProcessor.PackStepShape | services/textProcessor.ts:98-113 | a step on a non-empty trimmed sentence keeps the loop invariant and leaves something to flush |
| TextProcessor.PackPrefixShape | services/textProcessor.ts:97-117 | chunks of well-formed sentences are non-empty and keep the cut bound, and are empty exactly before the first sentence |
| TextProcessor.PackShape | services/textProcessor.ts:94-117 | packing well-formed sentences gives non-empty chunks within the cut bound, none exactly when there are no sentences |
| TextProcessor.PackContent | services/textProcessor.ts:94-117 | packing keeps every non-white character of the sentences, in order |
| TextProcessor.Pack | services/textProcessor.ts:94-117 | the packing loop's chunks: the steps of `PackStep` over all sentences, with the open chunk flushed at the end |
| TextProcessor.GroupPrefixCover | services/textProcessor.ts:106-113 | the greedy groups of a prefix cover it in order, and only the empty prefix has no open group |
| TextProcessor.GroupPrefixFit | services/textProcessor.ts:106-113 | when every sentence fits, every group joined by spaces fits in `maxChars` |
| TextProcessor.GroupStepFits | services/textProcessor.ts:106-113 | a grouping step on a fitting sentence keeps every group within `maxChars` |
| TextProcessor.GroupPrefixGreedy | services/textProcessor.ts:106-110 | a group is closed only because its next sentence would have made it pass `maxChars` |
| TextProcessor.GroupStepGreedy | services/textProcessor.ts:106-110 | a grouping step keeps the greedy property |
| TextProcessor.PackPrefixGroups | services/textProcessor.ts:97-114 | when every sentence fits, the loop variables are the closed groups and the open group joined by spaces |
| TextProcessor.PackGroupStep | services/textProcessor.ts:106-113 | a packing step and a grouping step on a fitting sentence keep that correspondence |
| TextProcessor.PackIsGrouped | services/textProcessor.ts:94-117 | when every sentence fits, the chunks are exactly the greedy groups joined by single spaces |
| TextProcessor.GroupsCover | services/textProcessor.ts:94-117 | the groups hold the sentences in order, none dropped or repeated |
| TextProcessor.GroupsFit | services/textProcessor.ts:106-113 | when every sentence fits, each group is non-empty and fits in one chunk |
| TextProcessor.GroupsGreedy | services/textProcessor.ts:106-110 | no chunk could have taken the first sentence of the next one |
| TextProcessor.PackSentences | services/textProcessor.ts:94-117 | the packing loop equals `Pack`; the chunks keep every non-white character, and for well-formed sentences are non-empty, keep the cut bound and exist exactly when there are sentences |
| TextProcessor.SentenceSplitContent | services/textProcessor.ts:132 | the look-behind split drops white space only, and rejoining with single spaces never lengthens the chunk |
| TextProcessor.SplitScanContent | services/textProcessor.ts:132 | the same for the split of every suffix |
| TextProcessor.CutRunContent | services/textProcessor.ts:132 | cutting out one white-space run between parts keeps the non-white characters and does not lengthen the rejoined text |
| TextProcessor.TailMergeScope | services/textProcessor.ts:125-147 | only the last two chunks change; a merge happens only when both fit together and makes them one; a move happens only when they did not fit, the previous chunk had several sentences and the new last chunk fits; a non-empty last chunk stays non-empty |
| TextProcessor.TailMerged | services/textProcessor.ts:125-147 | the tail correction: merge the last two chunks when they fit, else move the previous chunk's last sentence when that fits, else leave them |
| TextProcessor.TailMergeContent | services/textProcessor.ts:125-147 | the correction moves white space only |
| TextProcessor.MergeContent | services/textProcessor.ts:129-130 | merging the last two chunks keeps every non-white character |
| TextProcessor.MoveContent | services/textProcessor.ts:132-139 | moving the previous chunk's last sentence onto the last chunk keeps every non-white character |
| TextProcessor.TailMergeBound | services/textProcessor.ts:125-147 | when every chunk keeps the cut bound, so does every corrected chunk |
| TextProcessor.MergeTail | services/textProcessor.ts:125-147 | the in-place correction on the chunk array equals `TailMerged` |
| TextProcessor.MergedNotEmpty | services/textProcessor.ts:125-148 | the correction of non-empty chunks leaves a non-empty chunk after filtering |
| TextProcessor.WhiteTextNoSentences | services/textProcessor.ts:77-92 | white-space-only text has no sentences |
| TextProcessor.ChunksShape | services/textProcessor.ts:76-149 | no chunk is empty; there are none exactly for white-space-only input; content without a sentence comes back as the single untrimmed input |
| TextProcessor.ChunksContent | services/textProcessor.ts:76-149 | when there are sentences, every chunk keeps the cut bound, the chunks hold exactly the sentences' non-white characters in order, and so every visible character of the input other than a period, in order |
| TextProcessor.Chunks | services/textProcessor.ts:76-149 | what `process` returns: the untrimmed input when packing yields nothing for non-blank input, otherwise the tail-corrected packed chunks without empty ones |
| TextProcessor.PackedFacts | services/textProcessor.ts:94-117 | the packed chunks of a text with sentences are some, each within the cut bound, holding the sentences' characters |
| TextProcessor.Process | services/textProcessor.ts:76-149 | `process` equals `Chunks`; no chunk is empty; the result is empty exactly for white-space-only input |
| Subtitles.RemoveCR | services/textProcessor.ts:7 | the result has no carriage return, invents no character, and is unchanged when there was none |
| Subtitles.StripTags | services/textProcessor.ts:12 | tag removal never lengthens and invents no character |
| Subtitles.StripTagsTagFree | services/textProcessor.ts:12 | no tag is left after removal |
| Subtitles.StripTagsOfTagFree | services/textProcessor.ts:12 | text without tags passes unchanged, so removal is idempotent |
| Subtitles.ParseBlockShape | services/textProcessor.ts:8-15 | a block gives a well-formed cue whose timing line is the line after the header, or is dropped exactly when it has too few lines or no text |
| Subtitles.ParseCuesShape | services/textProcessor.ts:8-15 | every cue read from carriage-return-free blocks is well formed |
| Subtitles.BlocksNoCR | services/textProcessor.ts:7 | no block holds a carriage return |
| Subtitles.ParseSrtShape | services/textProcessor.ts:6-16 | every SRT cue is well formed, at most one per block |
| Subtitles.ParseVttShape | services/textProcessor.ts:18-28 | every WebVTT cue is well formed, and the header block never yields one |
| Subtitles.ParseSrt | services/textProcessor.ts:6-16 | `parseSrtContent`: the cues of the blank-line-separated blocks, each block's first line (its index) skipped |
| Subtitles.ParseVtt | services/textProcessor.ts:18-28 | `parseVttContent`: the cues of every block after the header block |
| Subtitles.DecimalValue | services/textProcessor.ts:198-201 | a number written in decimal reads back as itself |
| Subtitles.PadStartValue | services/textProcessor.ts:198-201 | zero padding keeps the value read back |
| Subtitles.FormatTimeValue | services/textProcessor.ts:195-203 | the clock fields give the whole seconds modulo one day, minutes and seconds are below 60, and the last field is the truncated milliseconds |
| Subtitles.FormatTime | services/textProcessor.ts:195-203 | the time has the `HH:MM:SS,mmm` layout |
| Subtitles.FormatTimeOneLine | services/textProcessor.ts:195-203 | a formatted time holds no line break |
| Subtitles.ScheduleLength | services/textProcessor.ts:206-208 | one entry per finished job |
| Subtitles.ScheduleAt | services/textProcessor.ts:205-222 | entry `k` describes the `k`-th finished job: its text, and its own timing line or an estimated interval starting after the earlier estimated jobs and their pauses |
| Subtitles.ScheduleKeeps | services/textProcessor.ts:209-221 | entry `k` carries the job's text, and its timing line when it has one |
| Subtitles.CuesOfAt | services/textProcessor.ts:221 | each cue written carries its entry's text and timing line |
| Subtitles.EntriesNumbered | services/textProcessor.ts:208-221 | entry `k` is numbered `k + 1` |
| Subtitles.RenderSrt | services/textProcessor.ts:208-223 | the SRT text: numbered entries of index, time line and text, separated by blank lines |
| Subtitles.GenerateSrt | services/textProcessor.ts:194-224 | the generator equals `RenderSrt` of the scheduled cues |
| Subtitles.SrtBlockLines | services/textProcessor.ts:8-15 | an SRT block written for a portable cue reads back as that cue |
| Subtitles.VttBlockLines | services/textProcessor.ts:20-27 | a WebVTT block written for a portable cue reads back as that cue |
| Subtitles.DocumentBlocks | services/textProcessor.ts:7 | a document of blocks joined by blank lines splits back into those blocks |
| Subtitles.SrtRoundTrip | services/textProcessor.ts:6-16 | reading an SRT document written from portable cues gives those cues back |
| Subtitles.VttRoundTrip | services/textProcessor.ts:18-28 | reading a WebVTT document written from portable cues gives those cues back |
| Subtitles.SlotPortable | services/textProcessor.ts:209-221 | an entry with portable text and a one-line timing line is portable |
| Subtitles.SrtExportImport | services/textProcessor.ts:194-224 | importing what the generator exported gives one cue per finished job, in order, with that job's text |
| Keys.KeyListShape | services/keyManager.ts:17-22 | every key read from storage is non-empty and trimmed |
| Keys.KeyList | services/keyManager.ts:17-22 | `getAllKeys`: the stored text split at line feeds, trimmed, blank rows dropped |
| Keys.KeyListCons | services/keyManager.ts:17-22 | a blank line adds no key, any other line adds its trimmed self in front |
| Keys.KeyListJoin | services/keyManager.ts:8-22 | saving keys one per line and reading them back gives the same keys in order |
| Keys.FirstGoodAt | services/keyManager.ts:52-56 | the fallback scan returns the key at the first index that is not bad |
| Keys.FirstGoodNone | services/keyManager.ts:52-56 | with every key bad the scan finds nothing |
| Keys.ChooseKeyOrder | services/keyManager.ts:30-60 | the environment key wins for image and translation tasks; otherwise a good primary key; otherwise the first good key of the fallback pool from row 2 or 3 |
| Keys.ChooseKey | services/keyManager.ts:30-60 | the choice of `getKey`: environment key for image and translation tasks, good primary key, first good pool key, last resort |
| Keys.LastResort | services/keyManager.ts:59 | the last resort: the environment key, else the primary slot, else the first key, else the empty string |
| Keys.ChooseKeyAvoidsBad | services/keyManager.ts:44-59 | a bad key is returned only as the last resort, when the primary key is missing or bad and every fallback key is bad |
| Keys.MarkedKeyAvoided | services/keyManager.ts:30-67 | after marking a key bad it is chosen again only as the last resort |
| Keys.KeyManager.constructor | services/keyManager.ts:4-6 | the manager starts from the stored blob with no bad key |
| Keys.KeyManager.AllKeys | services/keyManager.ts:17-22 | every key is non-empty and trimmed |
| Keys.KeyManager.SaveKeys | services/keyManager.ts:8-11 | saving stores the blob and clears every bad mark |
| Keys.KeyManager.MarkKeyAsBad | services/keyManager.ts:62-67 | a non-empty key joins the bad set; an empty one changes nothing |
| Keys.KeyManager.FirstUsable | services/keyManager.ts:52-56 | the scan loop returns `FirstGood` |
| Keys.KeyManager.GetKey | services/keyManager.ts:30-60 | `getKey` returns `ChooseKey` of the stored keys and bad set |
| SpeechQueue.ApplyPatch | components/TextToSpeech.tsx:107-113 | a patch sets the fields it carries and keeps the rest |
| SpeechQueue.RemovedMembers | components/TextToSpeech.tsx:99-101 | removal keeps exactly the jobs with another id |
| SpeechQueue.Removed | components/TextToSpeech.tsx:99-101 | `filter(c => c.id !== id)` |
| SpeechQueue.RemovedAppend | components/TextToSpeech.tsx:99-101 | removal works piece by piece, so the rest keep their order |
| SpeechQueue.RemovedAbsent | components/TextToSpeech.tsx:99-101 | removing an absent id changes nothing |
| SpeechQueue.PatchedAt | components/TextToSpeech.tsx:107-113 | only jobs with the id change, and they receive the patch |
| SpeechQueue.Patched | components/TextToSpeech.tsx:107-113 | `map` that patches the jobs with the id |
| SpeechQueue.RetriedAt | components/TextToSpeech.tsx:115-120 | the retried job is pending with no error; others are unchanged |
| SpeechQueue.RetriedFailedAt | components/TextToSpeech.tsx:122-127 | failed jobs become pending with no error; others are unchanged |
| SpeechQueue.RetriedFailedCounts | components/TextToSpeech.tsx:122-127 | afterwards no job has failed; the failed are counted as pending; other counts stay |
| SpeechQueue.CancelledAt | components/TextToSpeech.tsx:211 | processing jobs become pending, keeping their error; others are unchanged |
| SpeechQueue.CancelledIdle | components/TextToSpeech.tsx:211 | after a cancel no job is processing |
| SpeechQueue.CancelledCounts | components/TextToSpeech.tsx:211 | the processing jobs are now counted as pending; other counts stay |
| SpeechQueue.CountsAddUp | components/TextToSpeech.tsx:27-30 | successful, failed and remaining jobs make up the whole queue |
| SpeechQueue.CountZero | components/TextToSpeech.tsx:27-31 | a status count is zero exactly when no job has that status |
| SpeechQueue.CountStatus | components/TextToSpeech.tsx:27-30 | the number of jobs with a status |
| SpeechQueue.MergeReadyAllFinished | components/TextToSpeech.tsx:56-59 | merging happens exactly when idle and every job of a non-empty queue is finished |
| SpeechQueue.MergeReady | components/TextToSpeech.tsx:56-59 | the merge trigger: idle, a non-empty queue, every job finished or failed, at least one finished and none failed |
| SpeechQueue.MergedAudioAppend | components/TextToSpeech.tsx:36-43 | merged audio of two queues in a row is the first's followed by the second's |
| SpeechQueue.MergedAudioClips | components/TextToSpeech.tsx:36-43 | the merged audio is every finished clip in full, in queue order, and only finished jobs with audio contribute |
| SpeechQueue.TextJobsAt | components/TextToSpeech.tsx:80-86 | job `i` is a pending job for chunk `i` with a fresh id |
| SpeechQueue.CueJobsAt | components/TextToSpeech.tsx:88-93 | job `i` is a pending job for cue `i`, keeping its timing line |
| SpeechQueue.PendingQueued | components/TextToSpeech.tsx:141 | with distinct ids, a job is in the work list exactly when it is pending |
| SpeechQueue.PendingNotQueued | components/TextToSpeech.tsx:141 | an id no job carries is not in the work list |
| SpeechQueue.ClaimAt | components/TextToSpeech.tsx:147-172 | an uncancelled claim leaves the claimed job finished or failed and every other job as it was |
| SpeechQueue.Claim | components/TextToSpeech.tsx:147-172 | one claim on a live run: the job is set processing; a cancelled call sends every processing job back to pending and aborts the run, otherwise the outcome is recorded on the job; a key failure marks the token bad |
| SpeechQueue.RunClaimsCompletes | components/TextToSpeech.tsx:174-189 | without a cancel, every queued job ends finished or failed, every other job is untouched, and ids stay in place |
| SpeechQueue.RunClaims | components/TextToSpeech.tsx:174-189 | the claims of a run in queue order, stopping once the run is aborted |
| SpeechQueue.ClaimIdle | components/TextToSpeech.tsx:147-172 | a claim never leaves a job processing |
| SpeechQueue.RunClaimsIdle | components/TextToSpeech.tsx:174-189 | a whole run, cancelled or not, leaves no job processing |
| SpeechQueue.ClaimCancelledRecordsNothing | components/TextToSpeech.tsx:160-169 | a call whose run was cancelled records no outcome and aborts the run |
| SpeechQueue.RunClaimsTokenBad | components/TextToSpeech.tsx:163-166 | the token is marked bad exactly when some call failed blaming the key; at most one call per queued job |
| SpeechQueue.RemovedKeepsValid | components/TextToSpeech.tsx:99-101 | removal keeps ids distinct and below the next fresh id |
| SpeechQueue.PatchedKeepsValid | components/TextToSpeech.tsx:107-113 | patching keeps every id |
| SpeechQueue.TextToSpeech.constructor | components/TextToSpeech.tsx:13-25 | an empty idle queue with the default settings and no controller |
| SpeechQueue.TextToSpeech.SetLimits | components/TextToSpeech.tsx:17-18 | only the two segmenter settings change |
| SpeechQueue.TextToSpeech.AddText | components/TextToSpeech.tsx:76-97 | invalid settings change nothing; otherwise one pending job per chunk of `process` is appended |
| SpeechQueue.TextToSpeech.AddCues | components/TextToSpeech.tsx:76-97 | one pending job per cue is appended, keeping its timing line |
| SpeechQueue.TextToSpeech.Append | components/TextToSpeech.tsx:96 | the jobs are appended with fresh ids |
| SpeechQueue.TextToSpeech.RemoveChunk | components/TextToSpeech.tsx:99-101 | the queue becomes `Removed`; nothing else changes |
| SpeechQueue.TextToSpeech.ClearQueue | components/TextToSpeech.tsx:103-105 | the queue becomes empty; nothing else changes |
| SpeechQueue.TextToSpeech.UpdateChunk | components/TextToSpeech.tsx:107-113 | the queue becomes `Patched`; nothing else changes |
| SpeechQueue.TextToSpeech.RetryChunk | components/TextToSpeech.tsx:115-120 | the queue becomes `Retried`; nothing else changes |
| SpeechQueue.TextToSpeech.RetryAllFailed | components/TextToSpeech.tsx:122-127 | the queue becomes `RetriedFailed`; nothing else changes |
| SpeechQueue.TextToSpeech.HandleCancel | components/TextToSpeech.tsx:208-214 | with a controller the run is aborted, in-flight jobs requeued and the phase idle; without one nothing changes |
| SpeechQueue.TextToSpeech.RefreshMerged | components/TextToSpeech.tsx:33-73 | merged audio is set to the joined clips when ready, kept when ready with no clip, dropped otherwise |
| SpeechQueue.TextToSpeech.ProcessSingleChunk | components/TextToSpeech.tsx:147-172 | the queue follows `Claim`; the token is marked bad exactly on a key failure of an unaborted run |
| SpeechQueue.TextToSpeech.Worker | components/TextToSpeech.tsx:176-187 | the worker loop follows `RunClaims`, marking the token bad when the run did |
| SpeechQueue.TextToSpeech.StartRun | components/TextToSpeech.tsx:137-193 | the run claims the pending jobs in order as `RunClaims` does and ends idle |
| SpeechQueue.TextToSpeech.ProcessQueue | components/TextToSpeech.tsx:129-195 | without a key nothing changes; otherwise the run on the chosen key |
| LineFilter.SplitLinesShape | components/TextFilter.tsx:26 | no line holds a line feed, and text without carriage returns joins back from its lines |
| LineFilter.DropCarriageReturnsAt | components/TextFilter.tsx:26 | a line is its piece, or, before the last, its piece without the closing carriage return |
| LineFilter.KeywordsOfMembers | components/TextFilter.tsx:27 | the keywords are exactly the non-empty lower-cased trimmed pieces |
| LineFilter.KeywordsNonEmpty | components/TextFilter.tsx:27 | no keyword is empty, and they are the pieces of the comma split |
| LineFilter.NonEmptyMembers | components/TextFilter.tsx:27 | the filter keeps exactly the non-empty entries |
| LineFilter.LowerAllFrom | components/TextFilter.tsx:27 | every mapped keyword is the lower-cased trimmed form of some piece |
| LineFilter.LowerAllOf | components/TextFilter.tsx:27 | the lower-cased trimmed form of every piece is among the mapped keywords |
| LineFilter.IsJunkSome | components/TextFilter.tsx:48 | a line is junk exactly when it equals or contains some keyword |
| LineFilter.StripEndNumberMatch | components/TextFilter.tsx:79 | when the line ends in a match of the pattern that cannot start earlier, exactly the match is removed |
| LineFilter.StripEndNumber | components/TextFilter.tsx:79 | `replace(/\s+\d+(\+)?\s*$/, '')` read from the end: trailing white space, an optional plus, digits, and white space before them; the line changes only when both the digits and that white space are there |
| LineFilter.StripEndNumberShape | components/TextFilter.tsx:79 | a line that changes ends in such a match, and only that match is removed |
| LineFilter.StripEndNumberAt | components/TextFilter.tsx:79 | a match laid out by positions on the line is removed |
| LineFilter.EndNumberPartsAt | components/TextFilter.tsx:79 | positions of space, digits, optional plus and space make the tail a match |
| LineFilter.StripEndNumberLayout | components/TextFilter.tsx:79 | the removal steps leave a prefix whose cut-off tail is a match |
| LineFilter.FirstJunkSpec | components/TextFilter.tsx:53-60 | the look-ahead finds a non-blank junk line exactly when there is one, and the first |
| LineFilter.FindNextJunk | components/TextFilter.tsx:51-60 | the look-ahead loop over the next five lines equals `FirstJunk` |
| LineFilter.NearbySpec | components/TextFilter.tsx:51-62 | some non-blank junk line is among the next five exactly when the look-ahead finds one |
| LineFilter.RunEndSpec | components/TextFilter.tsx:64-71 | the run before its end is all swallowed, and it stops at the end or at a kept line |
| LineFilter.SkipEndSpec | components/TextFilter.tsx:64-71 | a junk block covers every following blank or junk line and ends at the first other line |
| LineFilter.SkipEndStep | components/TextFilter.tsx:65-70 | a swallowed line moves the block's end on; any other line is the end |
| LineFilter.SkipJunkBlock | components/TextFilter.tsx:64-71 | the skip loop equals `SkipEnd` |
| LineFilter.KeepStep | components/TextFilter.tsx:82-83 | keeping a line moves it from the rest of the output to the built part |
| LineFilter.FilterLines | components/TextFilter.tsx:29-84 | the line loop equals `FilterFrom` |
| LineFilter.FilterSelects | components/TextFilter.tsx:32-84 | the output keeps lines in input order, cleaned, only keepable ones; a line disappears only as a chapter header or a blank or junk line |
| LineFilter.FilterFrom | components/TextFilter.tsx:32-84 | the output lines from a position: chapter headers and junk blocks skipped, every other line cleaned and kept |
| LineFilter.SelectionSkip | components/TextFilter.tsx:62-73 | droppable lines in front of a selection keep it a selection |
| LineFilter.SelectionCons | components/TextFilter.tsx:82-83 | a keepable line in front of a selection extends it |
| LineFilter.JunkBlockSkipped | components/TextFilter.tsx:47-75 | a junk line with another junk line within five lines starts a block; the output resumes at the first other line |
| LineFilter.LoneJunkKept | components/TextFilter.tsx:47-83 | a junk line with no junk line among the next five is kept |
| LineFilter.RemoveDigitsChars | components/TextFilter.tsx:89-91 | exactly the digits go |
| LineFilter.RemoveDigitsAppend | components/TextFilter.tsx:89-91 | digit removal works piece by piece, so the order is kept |
| LineFilter.CollapseShape | components/TextFilter.tsx:95 | every horizontal white run becomes one space; visible characters and the kind of the first character are kept |
| LineFilter.Collapse | components/TextFilter.tsx:95 | `replace(/[^\S\r\n]+/g, ' ')` |
| LineFilter.CollapseSplice | components/TextFilter.tsx:95 | every maximal run of horizontal white space becomes a single space and the text on either side is kept |
| LineFilter.CollapseFixed | components/TextFilter.tsx:95 | a collapsed string is unchanged, so collapsing twice is collapsing once |
| LineFilter.CollapseRunFront | components/TextFilter.tsx:95 | a run of horizontal white space at the front becomes one space |
| LineFilter.HorizontalRunOf | components/TextFilter.tsx:95 | a run followed by another character is matched to its end |
| LineFilter.BlankEnd | components/TextFilter.tsx:96 | the longest match of `\s*[\r\n]` at a line start is white space and leaves no further match |
| LineFilter.DropBlankLinesClean | components/TextFilter.tsx:96 | after the pass no blank line is left |
| LineFilter.DropBlankLines | components/TextFilter.tsx:96 | `replace(/^\s*[\r\n]/gm, '')` as a scan over line starts |
| LineFilter.DropBlankLinesFixed | components/TextFilter.tsx:96 | text without blank lines passes unchanged |
| LineFilter.DropBlankLinesIdempotent | components/TextFilter.tsx:96 | running the pass twice gives what running it once gives |
| LineFilter.DropBlankLinesNonWhite | components/TextFilter.tsx:96 | the pass removes white space only |
| LineFilter.TidyWhitespaceShape | components/TextFilter.tsx:94-98 | tidying keeps every visible character in order and leaves no white space at the ends |
| LineFilter.TextFilter.constructor | components/TextFilter.tsx:5-15 | empty input and output, the given keywords, the default check boxes |
| LineFilter.TextFilter.ProcessText | components/TextFilter.tsx:23-101 | white-space-only input leaves the output as it was; otherwise the output is `FilterText`; input, keywords and options are unchanged |
| LineFilter.FilterText | components/TextFilter.tsx:23-99 | the filter's output: none for white-space-only input, otherwise the kept lines joined, then the optional digit and white-space passes |
| Strings.TrimParts | services/keyManager.ts:20 | `trim` leaves a trimmed string that is empty exactly for white-space-only input and invents no character |
| Strings.JoinSplit | services/keyManager.ts:18-19 | joining the pieces of a split with the same separator gives the string back |
| Strings.ContainsAt | components/TextFilter.tsx:48 | `includes` holds exactly when the keyword occurs at some index |

## Left out

- Concurrency: `processQueue` runs `concurrentThreads` workers on a shared list. The model runs one worker, so the
  claims happen in list order. The pause between requests (`requestDelay`, `setTimeout`) is not modelled.
- Whether a cancel arrived during a call is an input (`Outcome.cancelled`). The outcome of the `n`-th synthesis
  call is a function parameter. `synthesizeChunk`, `fetch`, `Blob` and object URLs are not part of this model, and
  audio is a byte sequence.
- `uuidv4` is modelled as a counter that hands out fresh ids. Browser storage is a field of the key manager.
  `process.env.API_KEY` is a parameter, empty when unset.
- The `shouldProcess` effect and its 50 ms timer are left out, because they only schedule `processQueue`.
  `RetryChunk` and `RetryAllFailed` leave the run they request to the caller.
- `alert`, `console.warn`, `console.error`, the toast, `copyResult`, `handleOptionChange`, `clearAll` and the other
  screens are user-interface code and are left out.
- `processFromFile` is not part of this model: it reads files and runs a DOCX extractor. The SRT and WebVTT parsers
  it calls are modelled.
- `toLowerCase` and the `/i` flag of the chapter pattern are an abstract function parameter (`Lower`). Unicode case
  mapping is not modelled.
- `generateSrt` computes times in floating point. The model uses exact reals, so rounding of `seconds % 1` is not
  captured. The speed comes from a slider that keeps it positive, so `speed > 0` is a precondition.
- The default junk keyword list of the filter screen is not modelled: the constructor takes the list.
- `RemoveChunk` models the handler itself. The card's button offers it only for pending jobs, which is user-interface
  code outside this model.
- `UpdateChunk` patches only `status`, `audioUrl` and `error`, the fields the source ever updates.
- `LineFilter.SplitLines`: its own contract states only the number of lines; `SplitLinesShape` and
  `DropCarriageReturnsAt` state the rest.
- String lengths: JavaScript's `length`, `lastIndexOf` and `substring` count UTF-16 code units. The model counts
  Unicode scalar values (Dafny's `char`). The two agree on text inside the Basic Multilingual Plane. A character
  outside it, such as an emoji, is one unit in the model and two in the source. A lone surrogate, which the source
  can produce by cutting between the two halves of a pair, cannot be represented. The members below inherit this.
- FindCutPosition: `maxChars` and the `lastIndexOf` positions are counted in scalar values, not UTF-16 units; a cut
  inside a surrogate pair is not represented.
- SplitLongSentence: the `length > maxChars` test and the `substring` cuts count scalar values, so a sentence of
  emoji is hard-split later than the source splits it, and never between the halves of a surrogate pair.
- PackSentences: the tests `sentence.length > maxChars` and `current.length + sentence.length + 1 > maxChars` count
  scalar values, not UTF-16 units.
- MergeTail: the comparisons with `minCharsToMerge` and `maxChars` count scalar values, not UTF-16 units.
- GenerateSrt: the estimated duration of a cue (`Duration`) uses the text's length in scalar values; the source's
  `text.length` counts UTF-16 units, so text outside the Basic Multilingual Plane gets shorter cues in the model.
- ReplaceCrLf: its own contract states only that no character is invented; `ReplaceCrLfSplice`,
  `ReplaceCrLfFixed` and `ReplaceCrLfNonWhite` state that each CR LF pair becomes a line feed and all else is kept.
- CollapseNewlines: its own contract states the shape of the result; `CollapseNewlinesSplice` and
  `CollapseNewlinesFixed` state that each run of line feeds becomes one line feed and all else is kept.
- RemoveControls: its own contract states that no stripped control is left and nothing is invented;
  `RemoveControlsAppend` and `RemoveControlsFixed` state that every other character is kept, in order.
- CollapseBlanks: its own contract states the shape of the result; `CollapseBlanksSplice` and `CollapseBlanksFixed`
  state that each run of blanks becomes one space and all else is kept.
- CollapseShape: states the shape of the collapsed text; `CollapseSplice` and `CollapseFixed` state that each
  horizontal white run becomes exactly one space and all else is kept.

/**
 * The speech job queue of the text-to-speech screen: adding content as
 * pending jobs, editing and retrying single jobs, cancelling a run, the
 * status counts, the trigger for merging the finished audio, and the run
 * that claims pending jobs one after another and sends them to synthesis.
 */
module SpeechQueue {
  import opened Wrappers
  import opened Strings
  import opened Jobs
  import TextProcessor
  import Subtitles
  import Keys

  /** `ProcessingState`: `'idle'` or `'processing'`. */
  datatype Phase = Idle | Working

  /** The fields a `Partial<ChunkJob>` update sets; `None` leaves a field as it is. */
  datatype Patch = Patch(status: Option<Status>, audio: Option<Audio>, error: Option<Option<string>>)

  /** `{ ...job, ...patch }`. */
  function ApplyPatch(job: Job, p: Patch): (r: Job)
    ensures r.id == job.id && r.text == job.text && r.timestamp == job.timestamp
    ensures r.status == (if p.status.Some? then p.status.value else job.status)
    ensures r.audio == (if p.audio.Some? then Some(p.audio.value) else job.audio)
    ensures r.error == (if p.error.Some? then p.error.value else job.error)
  {
    job.(status := if p.status.Some? then p.status.value else job.status,
         audio := if p.audio.Some? then Some(p.audio.value) else job.audio,
         error := if p.error.Some? then p.error.value else job.error)
  }

  // ---------------------------------------------------------------------------
  // Queue updates, each the pure array computation handed to `setChunks`
  // ---------------------------------------------------------------------------

  /** No two jobs share an id (`uuidv4` hands out fresh ids). */
  predicate DistinctIds(jobs: seq<Job>)
  {
    forall i, j :: 0 <= i < j < |jobs| ==> jobs[i].id != jobs[j].id
  }

  /** `filter(chunk => chunk.id !== id)`. */
  function Removed(jobs: seq<Job>, id: JobId): (r: seq<Job>)
    ensures |r| <= |jobs|
  {
    if jobs == [] then []
    else (if jobs[0].id == id then [] else [jobs[0]]) + Removed(jobs[1..], id)
  }

  /** Removal keeps exactly the jobs with another id. */
  lemma {:induction false} RemovedMembers(jobs: seq<Job>, id: JobId)
    ensures forall j :: j in Removed(jobs, id) <==> j in jobs && j.id != id
  {
    if jobs != [] {
      RemovedMembers(jobs[1..], id);
      assert forall j :: j in jobs <==> j == jobs[0] || j in jobs[1..];
    }
  }

  /** Removal works piece by piece, so the remaining jobs keep their order. */
  lemma {:induction false} RemovedAppend(a: seq<Job>, b: seq<Job>, id: JobId)
    ensures Removed(a + b, id) == Removed(a, id) + Removed(b, id)
  {
    if a == [] {
      assert a + b == b;
    } else {
      RemovedAppend(a[1..], b, id);
      assert (a + b)[1..] == a[1..] + b;
      var head: seq<Job> := if a[0].id == id then [] else [a[0]];
      assert Removed(a + b, id) == head + (Removed(a[1..], id) + Removed(b, id));
      AppendAssoc(head, Removed(a[1..], id), Removed(b, id));
    }
  }

  /** Removing an id no job carries changes nothing. */
  lemma {:induction false} RemovedAbsent(jobs: seq<Job>, id: JobId)
    requires forall i :: 0 <= i < |jobs| ==> jobs[i].id != id
    ensures Removed(jobs, id) == jobs
  {
    if jobs != [] {
      RemovedAbsent(jobs[1..], id);
      assert [jobs[0]] + jobs[1..] == jobs;
    }
  }

  /** `map(chunk => chunk.id === id ? { ...chunk, ...patch } : chunk)`. */
  function Patched(jobs: seq<Job>, id: JobId, p: Patch): (r: seq<Job>)
    ensures |r| == |jobs|
  {
    if jobs == [] then []
    else [if jobs[0].id == id then ApplyPatch(jobs[0], p) else jobs[0]] + Patched(jobs[1..], id, p)
  }

  /** Only the jobs carrying `id` change, and they receive the patch. */
  lemma {:induction false} PatchedAt(jobs: seq<Job>, id: JobId, p: Patch, i: nat)
    requires i < |jobs|
    ensures Patched(jobs, id, p)[i] == if jobs[i].id == id then ApplyPatch(jobs[i], p) else jobs[i]
  {
    if i > 0 {
      PatchedAt(jobs[1..], id, p, i - 1);
    }
  }

  /** Retrying: back to pending with no error. */
  const RetryPatch := Patch(Some(Pending), None, Some(None))

  /** `retryChunk`'s update. */
  function Retried(jobs: seq<Job>, id: JobId): (r: seq<Job>)
    ensures |r| == |jobs|
  {
    Patched(jobs, id, RetryPatch)
  }

  /** The retried job is pending with no error whatever its status was; every other job is unchanged. */
  lemma RetriedAt(jobs: seq<Job>, id: JobId, i: nat)
    requires i < |jobs|
    ensures jobs[i].id == id ==> Retried(jobs, id)[i] == jobs[i].(status := Pending, error := None)
    ensures jobs[i].id != id ==> Retried(jobs, id)[i] == jobs[i]
  {
    PatchedAt(jobs, id, RetryPatch, i);
  }

  /** `retryAllFailed`'s update: every failed job back to pending with no error. */
  function RetriedFailed(jobs: seq<Job>): (r: seq<Job>)
    ensures |r| == |jobs|
  {
    if jobs == [] then []
    else
      [if jobs[0].status == Error then jobs[0].(status := Pending, error := None) else jobs[0]]
      + RetriedFailed(jobs[1..])
  }

  lemma {:induction false} RetriedFailedAt(jobs: seq<Job>, i: nat)
    requires i < |jobs|
    ensures jobs[i].status == Error ==> RetriedFailed(jobs)[i] == jobs[i].(status := Pending, error := None)
    ensures jobs[i].status != Error ==> RetriedFailed(jobs)[i] == jobs[i]
  {
    if i > 0 {
      RetriedFailedAt(jobs[1..], i - 1);
    }
  }

  /** `handleCancel`'s update: jobs caught mid-synthesis go back to pending, keeping their error. */
  function Cancelled(jobs: seq<Job>): (r: seq<Job>)
    ensures |r| == |jobs|
  {
    if jobs == [] then []
    else
      [if jobs[0].status == Processing then jobs[0].(status := Pending) else jobs[0]]
      + Cancelled(jobs[1..])
  }

  lemma {:induction false} CancelledAt(jobs: seq<Job>, i: nat)
    requires i < |jobs|
    ensures jobs[i].status == Processing ==> Cancelled(jobs)[i] == jobs[i].(status := Pending)
    ensures jobs[i].status != Processing ==> Cancelled(jobs)[i] == jobs[i]
  {
    if i > 0 {
      CancelledAt(jobs[1..], i - 1);
    }
  }

  /** No job is left mid-synthesis after a cancel. */
  lemma CancelledIdle(jobs: seq<Job>)
    ensures forall i :: 0 <= i < |jobs| ==> Cancelled(jobs)[i].status != Processing
  {
    forall i | 0 <= i < |jobs| ensures Cancelled(jobs)[i].status != Processing {
      CancelledAt(jobs, i);
    }
  }

  // ---------------------------------------------------------------------------
  // Counts and the merge trigger
  // ---------------------------------------------------------------------------

  /** `chunks.filter(c => c.status === s).length`. */
  function CountStatus(jobs: seq<Job>, s: Status): (n: nat)
    ensures n <= |jobs|
  {
    if jobs == [] then 0
    else (if jobs[0].status == s then 1 else 0) + CountStatus(jobs[1..], s)
  }

  /** The number of jobs still to be synthesised: pending or processing. */
  function RemainingCount(jobs: seq<Job>): nat
  {
    CountStatus(jobs, Pending) + CountStatus(jobs, Processing)
  }

  /** Successful, failed and remaining jobs together make up the whole queue. */
  lemma {:induction false} CountsAddUp(jobs: seq<Job>)
    ensures CountStatus(jobs, Finished) + CountStatus(jobs, Error) + RemainingCount(jobs) == |jobs|
  {
    if jobs != [] {
      CountsAddUp(jobs[1..]);
    }
  }

  /** A status that does not occur has count zero, and conversely. */
  lemma {:induction false} CountZero(jobs: seq<Job>, s: Status)
    ensures CountStatus(jobs, s) == 0 <==> forall i :: 0 <= i < |jobs| ==> jobs[i].status != s
  {
    if jobs != [] {
      CountZero(jobs[1..], s);
      assert forall i :: 0 < i < |jobs| ==> jobs[i] == jobs[1..][i - 1];
    }
  }

  /** After `retryAllFailed` no job has failed; the failed ones are now counted as pending. */
  lemma {:induction false} RetriedFailedCounts(jobs: seq<Job>)
    ensures CountStatus(RetriedFailed(jobs), Error) == 0
    ensures CountStatus(RetriedFailed(jobs), Pending) == CountStatus(jobs, Pending) + CountStatus(jobs, Error)
    ensures CountStatus(RetriedFailed(jobs), Processing) == CountStatus(jobs, Processing)
    ensures CountStatus(RetriedFailed(jobs), Finished) == CountStatus(jobs, Finished)
  {
    if jobs != [] {
      RetriedFailedCounts(jobs[1..]);
    }
  }

  /** After a cancel no job is processing; those jobs are now counted as pending. */
  lemma {:induction false} CancelledCounts(jobs: seq<Job>)
    ensures CountStatus(Cancelled(jobs), Processing) == 0
    ensures CountStatus(Cancelled(jobs), Pending) == CountStatus(jobs, Pending) + CountStatus(jobs, Processing)
    ensures CountStatus(Cancelled(jobs), Error) == CountStatus(jobs, Error)
    ensures CountStatus(Cancelled(jobs), Finished) == CountStatus(jobs, Finished)
  {
    if jobs != [] {
      CancelledCounts(jobs[1..]);
    }
  }

  /**
   * The condition under which the finished audio is merged: idle, a non-empty
   * queue, every job done, at least one finished and none failed.
   */
  predicate MergeReady(jobs: seq<Job>, phase: Phase)
  {
    && phase == Idle
    && |jobs| > 0
    && (forall i :: 0 <= i < |jobs| ==> jobs[i].status == Finished || jobs[i].status == Error)
    && (exists i :: 0 <= i < |jobs| && jobs[i].status == Finished)
    && CountStatus(jobs, Error) == 0
  }

  /** Merging happens exactly when the run is idle and every job of a non-empty queue is finished. */
  lemma MergeReadyAllFinished(jobs: seq<Job>, phase: Phase)
    ensures MergeReady(jobs, phase) <==>
      phase == Idle && |jobs| > 0 && forall i :: 0 <= i < |jobs| ==> jobs[i].status == Finished
  {
    CountZero(jobs, Error);
    if phase == Idle && |jobs| > 0 && forall i :: 0 <= i < |jobs| ==> jobs[i].status == Finished {
      assert jobs[0].status == Finished;
    }
  }

  /** The finished jobs that carry audio, in queue order. */
  function FinishedWithAudio(jobs: seq<Job>): (r: seq<Job>)
    ensures |r| <= |jobs|
  {
    if jobs == [] then []
    else
      (if jobs[0].status == Finished && jobs[0].audio.Some? then [jobs[0]] else [])
      + FinishedWithAudio(jobs[1..])
  }

  /** The merged audio: the finished jobs' audio joined in queue order. */
  function MergedAudio(jobs: seq<Job>): Audio
  {
    if jobs == [] then []
    else
      (if jobs[0].status == Finished && jobs[0].audio.Some? then jobs[0].audio.value else [])
      + MergedAudio(jobs[1..])
  }

  /** The merged audio of two queues in a row is the first one's followed by the second one's. */
  lemma {:induction false} MergedAudioAppend(a: seq<Job>, b: seq<Job>)
    ensures MergedAudio(a + b) == MergedAudio(a) + MergedAudio(b)
  {
    if a == [] {
      assert a + b == b;
    } else {
      MergedAudioAppend(a[1..], b);
      assert (a + b)[1..] == a[1..] + b;
      var h: Audio := if a[0].status == Finished && a[0].audio.Some? then a[0].audio.value else [];
      AppendAssoc(h, MergedAudio(a[1..]), MergedAudio(b));
    }
  }

  /** The merged audio is the list of finished audio clips, each in full, in queue order. */
  lemma {:induction false} MergedAudioClips(jobs: seq<Job>)
    ensures MergedAudio(jobs) == Flatten(Clips(FinishedWithAudio(jobs)))
    ensures forall j :: j in FinishedWithAudio(jobs) ==> j in jobs && j.status == Finished && j.audio.Some?
  {
    if jobs != [] {
      MergedAudioClips(jobs[1..]);
      var rest := FinishedWithAudio(jobs[1..]);
      if jobs[0].status == Finished && jobs[0].audio.Some? {
        assert FinishedWithAudio(jobs) == [jobs[0]] + rest;
        assert Clips([jobs[0]] + rest) == [jobs[0].audio.value] + Clips(rest);
        assert Flatten([jobs[0].audio.value] + Clips(rest)) == jobs[0].audio.value + Flatten(Clips(rest));
      } else {
        assert FinishedWithAudio(jobs) == rest;
      }
    }
  }

  function Clips(jobs: seq<Job>): seq<Audio>
  {
    if jobs == [] then [] else [if jobs[0].audio.Some? then jobs[0].audio.value else []] + Clips(jobs[1..])
  }

  function Flatten(clips: seq<Audio>): Audio
  {
    if clips == [] then [] else clips[0] + Flatten(clips[1..])
  }

  // ---------------------------------------------------------------------------
  // New jobs
  // ---------------------------------------------------------------------------

  /** The job `addContent` makes for one piece of text. */
  function NewJob(id: JobId, text: string, timestamp: Option<string>): Job
  {
    Job(id, text, timestamp, Pending, None, None)
  }

  /** One pending job per text chunk, numbered from `first`. */
  function TextJobs(texts: seq<string>, first: JobId): (r: seq<Job>)
    ensures |r| == |texts|
  {
    if texts == [] then [] else [NewJob(first, texts[0], None)] + TextJobs(texts[1..], first + 1)
  }

  lemma {:induction false} TextJobsAt(texts: seq<string>, first: JobId, i: nat)
    requires i < |texts|
    ensures TextJobs(texts, first)[i] == Job(first + i, texts[i], None, Pending, None, None)
  {
    if i > 0 {
      TextJobsAt(texts[1..], first + 1, i - 1);
    }
  }

  /** One pending job per imported cue, keeping its timestamp, numbered from `first`. */
  function CueJobs(cues: seq<Subtitles.Cue>, first: JobId): (r: seq<Job>)
    ensures |r| == |cues|
  {
    if cues == [] then []
    else [NewJob(first, cues[0].text, Some(cues[0].timestamp))] + CueJobs(cues[1..], first + 1)
  }

  lemma {:induction false} CueJobsAt(cues: seq<Subtitles.Cue>, first: JobId, i: nat)
    requires i < |cues|
    ensures CueJobs(cues, first)[i] == Job(first + i, cues[i].text, Some(cues[i].timestamp), Pending, None, None)
  {
    if i > 0 {
      CueJobsAt(cues[1..], first + 1, i - 1);
    }
  }

  // ---------------------------------------------------------------------------
  // The run: claiming pending jobs one after another
  // ---------------------------------------------------------------------------

  /** What one call to the synthesis service gives: audio, or a failure message. */
  datatype CallResult = Synthesized(audio: Audio) | Failed(message: string)

  /**
   * The outcome of one call, and whether the user cancelled the run while the
   * call was in flight.
   */
  datatype Outcome = Outcome(result: CallResult, cancelled: bool)

  /** A failure message that blames the key: it mentions `token`, `401` or `429`. */
  predicate KeyFailure(r: CallResult)
  {
    r.Failed? && (Contains(r.message, "token") || Contains(r.message, "401") || Contains(r.message, "429"))
  }

  /** The state of a run: the queue, the abort signal, whether the token was marked bad, and the calls made. */
  datatype Run = Run(jobs: seq<Job>, aborted: bool, tokenBad: bool, calls: nat)

  const StartPatch := Patch(Some(Processing), None, Some(None))

  function FinishPatch(r: CallResult): Patch
  {
    match r
    case Synthesized(a) => Patch(Some(Finished), Some(a), None)
    case Failed(m) => Patch(Some(Error), None, Some(Some(m)))
  }

  /**
   * `processSingleChunk` for `job`: nothing once aborted; otherwise mark it
   * processing, call the service, and record the outcome unless the run was
   * cancelled meanwhile, in which case the cancel has put it back to pending.
   * A key failure marks the token bad either way.
   */
  function Claim(s: Run, job: Job, o: Outcome): Run
  {
    if s.aborted then s
    else
      var started := Patched(s.jobs, job.id, StartPatch);
      var jobs := if o.cancelled then Cancelled(started) else Patched(started, job.id, FinishPatch(o.result));
      Run(jobs, o.cancelled, s.tokenBad || KeyFailure(o.result), s.calls + 1)
  }

  /** The worker loop over the claim queue, stopping at the first abort. */
  function RunClaims(s: Run, queue: seq<Job>, synth: nat -> Outcome): Run
    decreases |queue|
  {
    if queue == [] || s.aborted then s
    else RunClaims(Claim(s, queue[0], synth(s.calls)), queue[1..], synth)
  }

  /** `chunks.filter(c => c.status === 'pending')`. */
  function PendingJobs(jobs: seq<Job>): (r: seq<Job>)
    ensures |r| == CountStatus(jobs, Pending)
  {
    if jobs == [] then []
    else (if jobs[0].status == Pending then [jobs[0]] else []) + PendingJobs(jobs[1..])
  }

  /** Whether some job of `queue` carries `id`. */
  predicate Queued(queue: seq<Job>, id: JobId)
  {
    exists k :: 0 <= k < |queue| && queue[k].id == id
  }

  /** A job whose id is queued for claiming is exactly a pending job, when ids are distinct. */
  lemma {:induction false} PendingQueued(jobs: seq<Job>, i: nat)
    requires DistinctIds(jobs) && i < |jobs|
    ensures Queued(PendingJobs(jobs), jobs[i].id) <==> jobs[i].status == Pending
  {
    if i == 0 {
      PendingNotQueued(jobs[1..], jobs[0].id);
      if jobs[0].status == Pending {
        assert PendingJobs(jobs)[0] == jobs[0];
      } else {
        assert PendingJobs(jobs) == PendingJobs(jobs[1..]);
      }
    } else {
      PendingQueued(jobs[1..], i - 1);
      var rest := PendingJobs(jobs[1..]);
      var head: seq<Job> := if jobs[0].status == Pending then [jobs[0]] else [];
      assert PendingJobs(jobs) == head + rest;
      assert jobs[0].id != jobs[i].id;
      if Queued(rest, jobs[i].id) {
        var k :| 0 <= k < |rest| && rest[k].id == jobs[i].id;
        assert PendingJobs(jobs)[|head| + k] == rest[k];
      }
      if Queued(PendingJobs(jobs), jobs[i].id) {
        var k :| 0 <= k < |PendingJobs(jobs)| && PendingJobs(jobs)[k].id == jobs[i].id;
        if k >= |head| {
          assert rest[k - |head|].id == jobs[i].id;
        }
      }
    }
  }

  lemma {:induction false} PendingNotQueued(jobs: seq<Job>, id: JobId)
    requires forall i :: 0 <= i < |jobs| ==> jobs[i].id != id
    ensures !Queued(PendingJobs(jobs), id)
  {
    if jobs != [] {
      PendingNotQueued(jobs[1..], id);
      var rest := PendingJobs(jobs[1..]);
      var head: seq<Job> := if jobs[0].status == Pending then [jobs[0]] else [];
      assert PendingJobs(jobs) == head + rest;
      forall k | 0 <= k < |PendingJobs(jobs)| ensures PendingJobs(jobs)[k].id != id {
        if k >= |head| {
          assert PendingJobs(jobs)[k] == rest[k - |head|];
        }
      }
    }
  }

  /** A claim that is not cancelled leaves the claimed job finished or failed and every other job as it was. */
  lemma ClaimAt(s: Run, job: Job, o: Outcome, i: nat)
    requires !s.aborted && !o.cancelled && i < |s.jobs|
    ensures |Claim(s, job, o).jobs| == |s.jobs|
    ensures Claim(s, job, o).jobs[i].id == s.jobs[i].id
    ensures s.jobs[i].id == job.id ==> Claim(s, job, o).jobs[i].status in {Finished, Error}
    ensures s.jobs[i].id != job.id ==> Claim(s, job, o).jobs[i] == s.jobs[i]
  {
    var started := Patched(s.jobs, job.id, StartPatch);
    PatchedAt(s.jobs, job.id, StartPatch, i);
    PatchedAt(started, job.id, FinishPatch(o.result), i);
  }

  /**
   * A run without cancellation claims every queued job: each job whose id was
   * queued ends finished or failed, and every other job is left as it was.
   */
  lemma {:induction false} RunClaimsCompletes(s: Run, queue: seq<Job>, synth: nat -> Outcome, i: nat)
    requires !s.aborted && i < |s.jobs|
    requires forall n :: !synth(n).cancelled
    ensures !RunClaims(s, queue, synth).aborted
    ensures |RunClaims(s, queue, synth).jobs| == |s.jobs|
    ensures RunClaims(s, queue, synth).jobs[i].id == s.jobs[i].id
    ensures Queued(queue, s.jobs[i].id) ==> RunClaims(s, queue, synth).jobs[i].status in {Finished, Error}
    ensures !Queued(queue, s.jobs[i].id) ==> RunClaims(s, queue, synth).jobs[i] == s.jobs[i]
    decreases |queue|
  {
    if queue != [] {
      var s' := Claim(s, queue[0], synth(s.calls));
      ClaimAt(s, queue[0], synth(s.calls), i);
      RunClaimsCompletes(s', queue[1..], synth, i);
      var id := s.jobs[i].id;
      if Queued(queue[1..], id) {
        var k :| 0 <= k < |queue[1..]| && queue[1..][k].id == id;
        assert queue[k + 1].id == id;
      }
      if Queued(queue, id) && queue[0].id != id {
        var k :| 0 <= k < |queue| && queue[k].id == id;
        assert queue[1..][k - 1].id == id;
      }
    }
  }

  /** A claim never leaves a job processing when none was before. */
  lemma ClaimIdle(s: Run, job: Job, o: Outcome)
    requires forall i :: 0 <= i < |s.jobs| ==> s.jobs[i].status != Processing
    ensures |Claim(s, job, o).jobs| == |s.jobs|
    ensures forall i :: 0 <= i < |s.jobs| ==> Claim(s, job, o).jobs[i].status != Processing
  {
    if !s.aborted {
      var started := Patched(s.jobs, job.id, StartPatch);
      if o.cancelled {
        CancelledIdle(started);
      } else {
        forall i | 0 <= i < |s.jobs| ensures Claim(s, job, o).jobs[i].status != Processing {
          PatchedAt(s.jobs, job.id, StartPatch, i);
          PatchedAt(started, job.id, FinishPatch(o.result), i);
        }
      }
    }
  }

  /** A whole run, cancelled or not, leaves no job processing when none was before. */
  lemma {:induction false} RunClaimsIdle(s: Run, queue: seq<Job>, synth: nat -> Outcome)
    requires forall i :: 0 <= i < |s.jobs| ==> s.jobs[i].status != Processing
    ensures |RunClaims(s, queue, synth).jobs| == |s.jobs|
    ensures forall i :: 0 <= i < |s.jobs| ==> RunClaims(s, queue, synth).jobs[i].status != Processing
    decreases |queue|
  {
    if queue != [] && !s.aborted {
      ClaimIdle(s, queue[0], synth(s.calls));
      RunClaimsIdle(Claim(s, queue[0], synth(s.calls)), queue[1..], synth);
    }
  }

  /**
   * A claim cancelled in flight records no outcome: every job that is finished
   * or failed afterwards was already so, unchanged.
   */
  lemma ClaimCancelledRecordsNothing(s: Run, job: Job, o: Outcome, i: nat)
    requires o.cancelled && i < |s.jobs|
    ensures |Claim(s, job, o).jobs| == |s.jobs|
    ensures Claim(s, job, o).jobs[i].status in {Finished, Error} ==> Claim(s, job, o).jobs[i] == s.jobs[i]
    ensures Claim(s, job, o).aborted
  {
    if !s.aborted {
      var started := Patched(s.jobs, job.id, StartPatch);
      PatchedAt(s.jobs, job.id, StartPatch, i);
      CancelledAt(started, i);
    }
  }

  /**
   * The token is marked bad exactly when some call of the run failed with a
   * message blaming the key, and the run makes at most one call per queued job.
   */
  lemma {:induction false} RunClaimsTokenBad(s: Run, queue: seq<Job>, synth: nat -> Outcome)
    ensures s.calls <= RunClaims(s, queue, synth).calls <= s.calls + |queue|
    ensures RunClaims(s, queue, synth).tokenBad <==>
      s.tokenBad || exists n :: s.calls <= n < RunClaims(s, queue, synth).calls && KeyFailure(synth(n).result)
    decreases |queue|
  {
    if queue != [] && !s.aborted {
      var s' := Claim(s, queue[0], synth(s.calls));
      RunClaimsTokenBad(s', queue[1..], synth);
      var r := RunClaims(s, queue, synth);
      if KeyFailure(synth(s.calls).result) {
        assert s.calls <= s.calls < r.calls;
      }
      if exists n :: s.calls <= n < r.calls && KeyFailure(synth(n).result) {
        var n :| s.calls <= n < r.calls && KeyFailure(synth(n).result);
        if n > s.calls {
          assert s'.calls <= n < r.calls;
        }
      }
    }
  }

  // ---------------------------------------------------------------------------
  // The component state
  // ---------------------------------------------------------------------------

  /**
   * The `TextToSpeech` component's queue state: the jobs, the run phase, the
   * abort controller (whether one exists and whether it has fired), the
   * merged audio, the segmenter settings, and the next fresh job id.
   */
  class TextToSpeech {
    var jobs: seq<Job>
    var phase: Phase
    var hasController: bool
    var aborted: bool
    var merged: Option<Audio>
    var maxChars: int
    var minCharsToMerge: int
    var nextId: JobId

    /** Job ids are distinct and all below the next fresh id. */
    predicate Valid()
      reads this
    {
      DistinctIds(jobs) && forall i :: 0 <= i < |jobs| ==> jobs[i].id < nextId
    }

    constructor()
      ensures Valid()
      ensures jobs == [] && phase == Idle && !hasController && !aborted && merged == None
      ensures maxChars == TextProcessor.DefaultMaxChars && minCharsToMerge == TextProcessor.DefaultMinCharsToMerge
    {
      jobs := [];
      phase := Idle;
      hasController := false;
      aborted := false;
      merged := None;
      maxChars := TextProcessor.DefaultMaxChars;
      minCharsToMerge := TextProcessor.DefaultMinCharsToMerge;
      nextId := 0;
    }

    /** `setMaxChars` and `setMinCharsToMerge`. */
    method SetLimits(newMaxChars: int, newMinCharsToMerge: int)
      modifies this
      ensures maxChars == newMaxChars && minCharsToMerge == newMinCharsToMerge
      ensures jobs == old(jobs) && phase == old(phase) && nextId == old(nextId)
      ensures hasController == old(hasController) && aborted == old(aborted) && merged == old(merged)
    {
      maxChars := newMaxChars;
      minCharsToMerge := newMinCharsToMerge;
    }

    /** The counts shown beside the queue. */
    function SuccessfulCount(): nat reads this { CountStatus(jobs, Finished) }
    function FailedCount(): nat reads this { CountStatus(jobs, Error) }
    function PendingCount(): nat reads this { CountStatus(jobs, Pending) }
    function TotalCount(): nat reads this { |jobs| }
    function Remaining(): nat reads this { RemainingCount(jobs) }

    /**
     * `addContent` for a string: the text is segmented with the current
     * settings and each chunk becomes a pending job behind the existing ones.
     * Invalid settings make the segmenter throw and the queue stays as it is.
     */
    method AddText(text: string) returns (failure: Option<string>)
      requires Valid()
      modifies this
      ensures Valid()
      ensures failure.Some? <==> maxChars <= 0
      ensures failure.Some? ==> jobs == old(jobs) && nextId == old(nextId)
      ensures failure.None? ==>
        jobs == old(jobs) + TextJobs(TextProcessor.Chunks(TextProcessor.NewProcessor(maxChars, minCharsToMerge).value, text), old(nextId))
      ensures phase == old(phase) && hasController == old(hasController) && aborted == old(aborted)
      ensures merged == old(merged) && maxChars == old(maxChars) && minCharsToMerge == old(minCharsToMerge)
    {
      var processor := TextProcessor.NewProcessor(maxChars, minCharsToMerge);
      if processor.Failure? {
        return Some(processor.error);
      }
      var textChunks := TextProcessor.Process(processor.value, text);
      forall i | 0 <= i < |textChunks| ensures TextJobs(textChunks, nextId)[i].id == nextId + i {
        TextJobsAt(textChunks, nextId, i);
      }
      Append(TextJobs(textChunks, nextId));
      failure := None;
    }

    /** `addContent` for imported cues: one pending job per cue, keeping its timestamp. */
    method AddCues(cues: seq<Subtitles.Cue>)
      requires Valid()
      modifies this
      ensures Valid()
      ensures jobs == old(jobs) + CueJobs(cues, old(nextId))
      ensures phase == old(phase) && hasController == old(hasController) && aborted == old(aborted)
      ensures merged == old(merged) && maxChars == old(maxChars) && minCharsToMerge == old(minCharsToMerge)
    {
      forall i | 0 <= i < |cues| ensures CueJobs(cues, nextId)[i].id == nextId + i {
        CueJobsAt(cues, nextId, i);
      }
      Append(CueJobs(cues, nextId));
    }

    /** Appends jobs numbered from `nextId` and moves `nextId` past them. */
    method Append(added: seq<Job>)
      requires Valid()
      requires forall i :: 0 <= i < |added| ==> added[i].id == nextId + i
      modifies this
      ensures Valid()
      ensures jobs == old(jobs) + added && nextId == old(nextId) + |added|
      ensures phase == old(phase) && hasController == old(hasController) && aborted == old(aborted)
      ensures merged == old(merged) && maxChars == old(maxChars) && minCharsToMerge == old(minCharsToMerge)
    {
      jobs := jobs + added;
      nextId := nextId + |added|;
    }

    /** `removeChunk`: any status may be removed; only the pending-only button guards it. */
    method RemoveChunk(id: JobId)
      requires Valid()
      modifies this
      ensures Valid()
      ensures jobs == Removed(old(jobs), id)
      ensures phase == old(phase) && nextId == old(nextId) && hasController == old(hasController)
      ensures aborted == old(aborted) && merged == old(merged)
      ensures maxChars == old(maxChars) && minCharsToMerge == old(minCharsToMerge)
    {
      RemovedMembers(jobs, id);
      RemovedKeepsValid(jobs, id, nextId);
      jobs := Removed(jobs, id);
    }

    /** `clearQueue`. */
    method ClearQueue()
      modifies this
      ensures Valid()
      ensures jobs == []
      ensures phase == old(phase) && nextId == old(nextId) && hasController == old(hasController)
      ensures aborted == old(aborted) && merged == old(merged)
      ensures maxChars == old(maxChars) && minCharsToMerge == old(minCharsToMerge)
    {
      jobs := [];
    }

    /** `updateChunk`. */
    method UpdateChunk(id: JobId, p: Patch)
      requires Valid()
      modifies this
      ensures Valid()
      ensures jobs == Patched(old(jobs), id, p)
      ensures phase == old(phase) && nextId == old(nextId) && hasController == old(hasController)
      ensures aborted == old(aborted) && merged == old(merged)
      ensures maxChars == old(maxChars) && minCharsToMerge == old(minCharsToMerge)
    {
      PatchedKeepsValid(jobs, id, p, nextId);
      jobs := Patched(jobs, id, p);
    }

    /** `retryChunk` (the run it requests is left to the caller). */
    method RetryChunk(id: JobId)
      requires Valid()
      modifies this
      ensures Valid()
      ensures jobs == Retried(old(jobs), id)
      ensures phase == old(phase) && nextId == old(nextId) && hasController == old(hasController)
      ensures aborted == old(aborted) && merged == old(merged)
      ensures maxChars == old(maxChars) && minCharsToMerge == old(minCharsToMerge)
    {
      UpdateChunk(id, RetryPatch);
    }

    /** `retryAllFailed` (the run it requests is left to the caller). */
    method RetryAllFailed()
      requires Valid()
      modifies this
      ensures Valid()
      ensures jobs == RetriedFailed(old(jobs))
      ensures phase == old(phase) && nextId == old(nextId) && hasController == old(hasController)
      ensures aborted == old(aborted) && merged == old(merged)
      ensures maxChars == old(maxChars) && minCharsToMerge == old(minCharsToMerge)
    {
      forall i | 0 <= i < |jobs| ensures RetriedFailed(jobs)[i].id == jobs[i].id {
        RetriedFailedAt(jobs, i);
      }
      jobs := RetriedFailed(jobs);
    }

    /** `handleCancel`: with a run started, fire its abort signal, requeue the jobs in flight and go idle. */
    method HandleCancel()
      requires Valid()
      modifies this
      ensures Valid()
      ensures old(hasController) ==> jobs == Cancelled(old(jobs)) && aborted && phase == Idle
      ensures !old(hasController) ==> jobs == old(jobs) && aborted == old(aborted) && phase == old(phase)
      ensures nextId == old(nextId) && hasController == old(hasController) && merged == old(merged)
      ensures maxChars == old(maxChars) && minCharsToMerge == old(minCharsToMerge)
    {
      if hasController {
        aborted := true;
        forall i | 0 <= i < |jobs| ensures Cancelled(jobs)[i].id == jobs[i].id {
          CancelledAt(jobs, i);
        }
        jobs := Cancelled(jobs);
        phase := Idle;
      }
    }

    /**
     * The merge effect: when `MergeReady` holds and some finished job has
     * audio, the merged audio is replaced by the joined clips; when it does
     * not hold, any merged audio is dropped.
     */
    method RefreshMerged()
      modifies this
      ensures MergeReady(jobs, phase) && FinishedWithAudio(jobs) != [] ==> merged == Some(MergedAudio(jobs))
      ensures MergeReady(jobs, phase) && FinishedWithAudio(jobs) == [] ==> merged == old(merged)
      ensures !MergeReady(jobs, phase) ==> merged == None
      ensures jobs == old(jobs) && phase == old(phase) && nextId == old(nextId)
      ensures hasController == old(hasController) && aborted == old(aborted)
      ensures maxChars == old(maxChars) && minCharsToMerge == old(minCharsToMerge)
    {
      if MergeReady(jobs, phase) {
        if FinishedWithAudio(jobs) != [] {
          merged := Some(MergedAudio(jobs));
        }
      } else {
        merged := None;
      }
    }

    /**
     * `processSingleChunk`: `o` is what the service call gives for this job
     * and whether a cancel arrived while it was in flight; `s` is the run so
     * far.
     */
    method ProcessSingleChunk(job: Job, token: string, keys: Keys.KeyManager, o: Outcome, ghost s: Run)
      requires Valid() && hasController && token != ""
      requires s.jobs == jobs && s.aborted == aborted
      modifies this, keys
      ensures Valid() && hasController
      ensures jobs == Claim(s, job, o).jobs && aborted == Claim(s, job, o).aborted
      ensures keys.badKeys == old(keys.badKeys) + (if !s.aborted && KeyFailure(o.result) then {token} else {})
      ensures old(aborted) || !o.cancelled ==> phase == old(phase)
      ensures !old(aborted) && o.cancelled ==> phase == Idle
      ensures keys.stored == old(keys.stored)
      ensures nextId == old(nextId) && merged == old(merged)
      ensures maxChars == old(maxChars) && minCharsToMerge == old(minCharsToMerge)
    {
      if aborted {
        return;
      }
      UpdateChunk(job.id, StartPatch);
      if o.cancelled {
        HandleCancel();
      }
      if KeyFailure(o.result) {
        keys.MarkKeyAsBad(token);
      }
      if !aborted {
        UpdateChunk(job.id, FinishPatch(o.result));
      }
    }

    /**
     * One worker of `processQueue`: it takes jobs off the front of `queue`
     * one at a time until the queue is empty or the run is aborted.
     */
    method Worker(queue: seq<Job>, token: string, keys: Keys.KeyManager, synth: nat -> Outcome)
      requires Valid() && hasController && token != "" && !aborted && phase == Working
      modifies this, keys
      ensures Valid() && hasController
      ensures jobs == RunClaims(Run(old(jobs), false, false, 0), queue, synth).jobs
      ensures aborted == RunClaims(Run(old(jobs), false, false, 0), queue, synth).aborted
      ensures keys.badKeys == old(keys.badKeys)
        + (if RunClaims(Run(old(jobs), false, false, 0), queue, synth).tokenBad then {token} else {})
      ensures phase == (if aborted then Idle else Working)
      ensures keys.stored == old(keys.stored)
      ensures nextId == old(nextId) && merged == old(merged)
      ensures maxChars == old(maxChars) && minCharsToMerge == old(minCharsToMerge)
    {
      ghost var final := RunClaims(Run(jobs, false, false, 0), queue, synth);
      ghost var badBefore := keys.badKeys;
      var remaining := queue;
      var calls := 0;
      ghost var tokenBad := false;
      while remaining != []
        invariant Valid() && hasController
        invariant RunClaims(Run(jobs, aborted, tokenBad, calls), remaining, synth) == final
        invariant keys.badKeys == badBefore + (if tokenBad then {token} else {})
        invariant phase == (if aborted then Idle else Working)
        invariant keys.stored == old(keys.stored)
        invariant nextId == old(nextId) && merged == old(merged)
        invariant maxChars == old(maxChars) && minCharsToMerge == old(minCharsToMerge)
        decreases |remaining|
      {
        if aborted {
          break;
        }
        ghost var current := Run(jobs, aborted, tokenBad, calls);
        var chunk := remaining[0];
        remaining := remaining[1..];
        ProcessSingleChunk(chunk, token, keys, synth(calls), current);
        tokenBad := tokenBad || KeyFailure(synth(calls).result);
        calls := calls + 1;
        assert Run(jobs, aborted, tokenBad, calls) == Claim(current, chunk, synth(current.calls));
      }
    }

    /**
     * `processQueue` with a single worker: fetch the speech key (without one
     * nothing happens), then run on it. `synth(n)` is the outcome of the
     * `n`-th service call and `env` the environment key.
     */
    method ProcessQueue(keys: Keys.KeyManager, env: string, synth: nat -> Outcome)
      requires Valid()
      modifies this, keys
      ensures Valid()
      ensures keys.stored == old(keys.stored)
      ensures Keys.ChooseKey(Keys.KeyList(old(keys.stored)), old(keys.badKeys), Keys.Tts, env) == "" ==>
        jobs == old(jobs) && phase == old(phase) && hasController == old(hasController)
        && aborted == old(aborted) && keys.badKeys == old(keys.badKeys)
      ensures Keys.ChooseKey(Keys.KeyList(old(keys.stored)), old(keys.badKeys), Keys.Tts, env) != "" ==>
        var r := RunClaims(Run(old(jobs), false, false, 0), PendingJobs(old(jobs)), synth);
        jobs == r.jobs && aborted == r.aborted && phase == Idle && hasController
        && keys.badKeys == old(keys.badKeys)
          + (if r.tokenBad then {Keys.ChooseKey(Keys.KeyList(old(keys.stored)), old(keys.badKeys), Keys.Tts, env)} else {})
      ensures nextId == old(nextId) && merged == old(merged)
      ensures maxChars == old(maxChars) && minCharsToMerge == old(minCharsToMerge)
    {
      var token := keys.GetKey(Keys.Tts, env);
      if token != "" {
        StartRun(token, keys, synth);
      }
    }

    /**
     * The run on a fetched key: claim the pending jobs in queue order, each
     * once, until the queue is empty or the run is aborted.
     */
    method StartRun(token: string, keys: Keys.KeyManager, synth: nat -> Outcome)
      requires Valid() && token != ""
      modifies this, keys
      ensures Valid()
      ensures keys.stored == old(keys.stored)
      ensures var r := RunClaims(Run(old(jobs), false, false, 0), PendingJobs(old(jobs)), synth);
        jobs == r.jobs && aborted == r.aborted && phase == Idle && hasController
        && keys.badKeys == old(keys.badKeys) + (if r.tokenBad then {token} else {})
      ensures nextId == old(nextId) && merged == old(merged)
      ensures maxChars == old(maxChars) && minCharsToMerge == old(minCharsToMerge)
    {
      phase := Working;
      hasController := true;
      aborted := false;
      var chunksToProcess := PendingJobs(jobs);
      if chunksToProcess == [] {
        phase := Idle;
        return;
      }
      Worker(chunksToProcess, token, keys, synth);
      if !aborted {
        phase := Idle;
      }
    }
  }

  /** Removing jobs keeps ids distinct and below the next fresh id. */
  lemma {:induction false} RemovedKeepsValid(jobs: seq<Job>, id: JobId, nextId: JobId)
    requires DistinctIds(jobs) && forall i :: 0 <= i < |jobs| ==> jobs[i].id < nextId
    ensures DistinctIds(Removed(jobs, id))
    ensures forall i :: 0 <= i < |Removed(jobs, id)| ==> Removed(jobs, id)[i].id < nextId
  {
    if jobs != [] {
      var rest := Removed(jobs[1..], id);
      RemovedKeepsValid(jobs[1..], id, nextId);
      RemovedMembers(jobs[1..], id);
      if jobs[0].id != id {
        assert Removed(jobs, id) == [jobs[0]] + rest;
        forall k | 0 <= k < |rest| ensures rest[k].id != jobs[0].id {
          assert rest[k] in jobs[1..];
          var m :| 0 <= m < |jobs[1..]| && jobs[1..][m] == rest[k];
          assert jobs[m + 1] == rest[k];
        }
      } else {
        assert Removed(jobs, id) == rest;
      }
    }
  }

  /** Patching keeps every job's id, so ids stay distinct and below the next fresh id. */
  lemma PatchedKeepsValid(jobs: seq<Job>, id: JobId, p: Patch, nextId: JobId)
    requires DistinctIds(jobs) && forall i :: 0 <= i < |jobs| ==> jobs[i].id < nextId
    ensures DistinctIds(Patched(jobs, id, p)) && forall i :: 0 <= i < |jobs| ==> Patched(jobs, id, p)[i].id < nextId
  {
    forall i | 0 <= i < |jobs| ensures Patched(jobs, id, p)[i].id == jobs[i].id {
      PatchedAt(jobs, id, p, i);
    }
  }
}

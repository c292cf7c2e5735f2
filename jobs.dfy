/**
 * The synthesis job record (`ChunkJob`) shared by the job queue and the
 * subtitle generator.
 */
module Jobs {
  import opened Wrappers

  /** Stands for the `uuidv4` string each job receives when it is added. */
  type JobId = nat

  /** The bytes behind a job's audio URL. */
  type Audio = seq<bv8>

  datatype Status = Pending | Processing | Finished | Error

  /**
   * One unit of synthesis work. `timestamp` is present for jobs imported from a
   * subtitle file, `audio` once synthesis returned, `error` after a failure.
   */
  datatype Job = Job(
    id: JobId,
    text: string,
    timestamp: Option<string>,
    status: Status,
    audio: Option<Audio>,
    error: Option<string>)
}

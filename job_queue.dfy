/**
 * The Celery broker as the services see it: `.delay(...)` appends one job to a queue.
 * Delivery, retries and the workers that take jobs off the queue are not part of this
 * model; what matters to the stages is which job each of them hands on.
 */
module Jobs {

  /** The three tasks that are queued with `.delay`, with their arguments. */
  datatype Job =
    | DownloadJob(taskId: string, url: string)
    | ConvertJob(taskId: string, audioFile: string)
    | CleanupJob(taskId: string, filePath: string)

  /** The queue of jobs handed to the broker, oldest first. */
  class JobQueue {
    var jobs: seq<Job>

    constructor ()
      ensures jobs == []
    {
      jobs := [];
    }

    /** `task.delay(args)`. */
    method Enqueue(job: Job)
      modifies this
      ensures jobs == old(jobs) + [job]
    {
      jobs := jobs + [job];
    }
  }
}

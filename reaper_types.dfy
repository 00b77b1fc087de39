/** Values the expired-post cleanup task consumes and produces.

    The task's collaborators (the session factory, the post service, the file
    storage accessor and the session itself) are not modelled: each awaited call
    is replaced by the outcome it had, scripted in advance. */
module ReaperTypes {

  /** Python's `None` or a value. */
  datatype Option<T> = None | Some(value: T)

  /** How one awaited call ends: it returns a value, raises an ordinary
      `Exception`, or raises `asyncio.CancelledError`. */
  datatype Outcome<T> = Ok(value: T) | Fail | Cancel

  /** One expired-post descriptor as the post service lists it. Only the
      `image_id` key is read by the task; `post_id` is carried along opaquely. */
  datatype PostInfo = PostInfo(postId: int, imageId: Option<string>)

  /** Python truthiness of `post_info.get("image_id")`: present and non-empty. */
  predicate Truthy(imageId: Option<string>)
  {
    imageId.Some? && imageId.value != ""
  }

  /** The outcomes of one per-image attempt: the storage accessor (whose value
      is the truthiness of the storage it yields) and, when storage is present,
      `delete_file`. */
  datatype BlobOracle = BlobOracle(storage: Outcome<bool>, delete: Outcome<()>)

  /** The attempt is cut short by cancellation. */
  predicate Cancels(b: BlobOracle)
  {
    b.storage.Cancel? || (b.storage == Ok(true) && b.delete.Cancel?)
  }

  /** The attempt raises an ordinary error, which the task logs and swallows. */
  predicate Fails(b: BlobOracle)
  {
    b.storage.Fail? || (b.storage == Ok(true) && b.delete.Fail?)
  }

  /** Everything the outside world decides during one iteration of the loop.
      `blob(k)` is the outcome of the attempt for the k-th listed descriptor. */
  datatype Script = Script(
    sleepCancelled: bool,            // the 10-minute sleep is cancelled
    session: Outcome<()>,            // get_db_session()
    expired: Outcome<seq<PostInfo>>, // PostService.get_expired_posts_info(db)
    deleted: Outcome<int>,           // PostService.delete_expired_posts(db)
    blob: nat -> BlobOracle,         // per-descriptor storage access and delete_file
    rollback: Outcome<()>,           // db.rollback()
    backoffCancelled: bool,          // the 30-minute sleep is cancelled
    close: Outcome<()>)              // db.close()

  /** One observable action of the task, in the order it happens. */
  datatype Event =
    | Sleep(seconds: nat)   // asyncio.sleep is awaited
    | Acquire               // get_db_session is awaited
    | List                  // get_expired_posts_info is awaited
    | DeleteRows            // delete_expired_posts is awaited
    | AttemptBlob(id: string)  // the deletion attempt for one image begins
    | DeleteFile(id: string)   // delete_file is awaited for this image
    | StorageMissing        // error logged: file storage not initialised
    | BlobFailed(id: string)  // error logged: deleting this image failed
    | Rollback              // db.rollback is awaited
    | Close                 // db.close is awaited
    | Stop                  // cancellation logged, loop left by `break`

  /** Nominal delay between iterations, in seconds (60 * 10). */
  const Period: nat := 600

  /** Delay after a failed iteration, in seconds (60 * 30). */
  const Backoff: nat := 1800

  /** The events a per-image attempt may produce. */
  predicate BlobEvent(e: Event)
  {
    e.AttemptBlob? || e.DeleteFile? || e.StorageMissing? || e.BlobFailed?
  }
}

/** The cleanup task as functions of the scripted outcomes: what one iteration
    of `while True` does (its `try` body, its two `except` clauses and its
    `finally`), and what a bounded run of iterations does. */
module ReaperSpec {
  import opened ReaperTypes

  // ---------------------------------------------------------------- traces

  /** The images whose deletion is attempted, in trace order. */
  function Attempts(events: seq<Event>): (ids: seq<string>)
    ensures |ids| <= |events|
    ensures ids == [] <==> forall i :: 0 <= i < |events| ==> !events[i].AttemptBlob?
  {
    if events == [] then []
    else (if events[0].AttemptBlob? then [events[0].id] else []) + Attempts(events[1..])
  }

  /** The images passed to `delete_file`, in trace order. */
  function Deletes(events: seq<Event>): (ids: seq<string>)
    ensures |ids| <= |events|
    ensures ids == [] <==> forall i :: 0 <= i < |events| ==> !events[i].DeleteFile?
  {
    if events == [] then []
    else (if events[0].DeleteFile? then [events[0].id] else []) + Deletes(events[1..])
  }

  /** How often `e` occurs in `events`. */
  function Count(events: seq<Event>, e: Event): (n: nat)
    ensures n <= |events|
    ensures n == 0 <==> e !in events
  {
    if events == [] then 0
    else (if events[0] == e then 1 else 0) + Count(events[1..], e)
  }

  /** The truthy `image_id`s of the descriptors, in list order, duplicates kept. */
  function TruthyIds(infos: seq<PostInfo>): (ids: seq<string>)
    ensures |ids| <= |infos|
    ensures forall i :: 0 <= i < |ids| ==> ids[i] != ""
    ensures forall i :: 0 <= i < |ids| ==>
      exists k :: 0 <= k < |infos| && infos[k].imageId == Some(ids[i])
    decreases |infos|
  {
    if infos == [] then []
    else
      var last := infos[|infos| - 1];
      var prev := TruthyIds(infos[..|infos| - 1]);
      if Truthy(last.imageId) then prev + [last.imageId.value] else prev
  }

  /** The truthy `image_id`s whose storage is there, in list order,
      duplicates kept: the ones whose deletion reaches `delete_file`. */
  function StoredIds(infos: seq<PostInfo>, blob: nat -> BlobOracle): (ids: seq<string>)
    ensures |ids| <= |infos|
    ensures forall i :: 0 <= i < |ids| ==> ids[i] != ""
    decreases |infos|
  {
    if infos == [] then []
    else
      var k := |infos| - 1;
      var prev := StoredIds(infos[..k], blob);
      if Truthy(infos[k].imageId) && blob(k).storage == Ok(true)
      then prev + [infos[k].imageId.value] else prev
  }

  /** How many truthy descriptors find no file storage. */
  function Missing(infos: seq<PostInfo>, blob: nat -> BlobOracle): (n: nat)
    ensures n <= |infos|
    decreases |infos|
  {
    if infos == [] then 0
    else
      var k := |infos| - 1;
      Missing(infos[..k], blob) +
        (if Truthy(infos[k].imageId) && blob(k).storage == Ok(false) then 1 else 0)
  }

  /** How many truthy descriptors with `image_id` `x` have an attempt that
      raises an ordinary error. */
  function Failures(infos: seq<PostInfo>, blob: nat -> BlobOracle, x: string): (n: nat)
    ensures n <= |infos|
    decreases |infos|
  {
    if infos == [] then 0
    else
      var k := |infos| - 1;
      Failures(infos[..k], blob, x) +
        (if Truthy(infos[k].imageId) && infos[k].imageId.value == x && Fails(blob(k)) then 1 else 0)
  }

  predicate IsPrefix(a: seq<string>, b: seq<string>)
  {
    |a| <= |b| && a == b[..|a|]
  }

  // ------------------------------------------------------ per-image loop

  /** What a per-image attempt or a run of them produced, and whether a
      cancellation escaped from it. */
  datatype PassResult = PassResult(events: seq<Event>, cancelled: bool)

  /** The inner `try` for one truthy `image_id`: ask for the storage, delete
      the file when the storage is there, log and swallow ordinary errors. */
  function AttemptImage(id: string, b: BlobOracle): (r: PassResult)
  {
    var start := [AttemptBlob(id)];
    match b.storage
    case Cancel => PassResult(start, true)
    case Fail => PassResult(start + [BlobFailed(id)], false)
    case Ok(present) =>
      if !present then PassResult(start + [StorageMissing], false)
      else
        var deleting := start + [DeleteFile(id)];
        match b.delete
        case Ok(_) => PassResult(deleting, false)
        case Fail => PassResult(deleting + [BlobFailed(id)], false)
        case Cancel => PassResult(deleting, true)
  }

  /** Some truthy descriptor's attempt is cancelled. */
  predicate BlobCancelled(infos: seq<PostInfo>, blob: nat -> BlobOracle)
  {
    exists k :: 0 <= k < |infos| && Truthy(infos[k].imageId) && Cancels(blob(k))
  }

  /** The inner `for post_info in expired_posts_info` loop: one attempt per
      truthy `image_id`, in list order, until a cancellation escapes. */
  function ImagePass(infos: seq<PostInfo>, blob: nat -> BlobOracle): (r: PassResult)
    decreases |infos|
  {
    if infos == [] then PassResult([], false)
    else
      var n := |infos| - 1;
      var prev := ImagePass(infos[..n], blob);
      if prev.cancelled || !Truthy(infos[n].imageId) then prev
      else
        var step := AttemptImage(infos[n].imageId.value, blob(n));
        PassResult(prev.events + step.events, step.cancelled)
  }

  // ------------------------------------------------------ one iteration

  /** The session was acquired, so `db` is truthy in `except` and `finally`. */
  predicate Acquired(s: Script)
  {
    !s.sleepCancelled && s.session.Ok?
  }

  /** The listing returned at least one descriptor. */
  predicate ListedSome(s: Script)
  {
    Acquired(s) && s.expired.Ok? && s.expired.value != []
  }

  /** Rows were deleted with a non-zero count, so the per-image loop runs. */
  predicate ReachesBlobs(s: Script)
  {
    ListedSome(s) && s.deleted.Ok? && s.deleted.value != 0
  }

  /** An ordinary error escapes the `try` body: from acquiring the session,
      listing the expired posts or deleting their rows. */
  predicate StoreFailed(s: Script)
  {
    !s.sleepCancelled &&
    (s.session.Fail? || (Acquired(s) && s.expired.Fail?) || (ListedSome(s) && s.deleted.Fail?))
  }

  /** A cancellation escapes the `try` body. */
  predicate BodyCancelled(s: Script)
  {
    s.sleepCancelled || s.session.Cancel? ||
    (Acquired(s) && s.expired.Cancel?) ||
    (ListedSome(s) && s.deleted.Cancel?) ||
    (ReachesBlobs(s) && BlobCancelled(s.expired.value, s.blob))
  }

  /** A cancellation is raised somewhere the iteration reaches: in its body,
      in the rollback or backoff sleep of the error handler, or in `close`. */
  predicate Interrupted(s: Script)
  {
    BodyCancelled(s) ||
    (StoreFailed(s) && Acquired(s) && s.rollback.Cancel?) ||
    (StoreFailed(s) && s.backoffCancelled) ||
    (Acquired(s) && s.close.Cancel?)
  }

  /** The events only the `except` clauses and `finally` produce. */
  predicate HandlerEvent(e: Event)
  {
    e.Stop? || e.Rollback? || e.Close? || e == Sleep(Backoff)
  }

  /** How the `try` body ended. */
  datatype Raised = Completed | Failed | Cancelled

  datatype BodyResult = BodyResult(events: seq<Event>, acquired: bool, raised: Raised)

  function Raise<T>(o: Outcome<T>): (r: Raised)
  {
    if o.Cancel? then Cancelled else Failed
  }

  /** The collaborator calls the `try` body makes before the per-image loop,
      up to the first one that raises or the empty listing or zero count that
      ends the body early. */
  function Calls(s: Script): (events: seq<Event>)
  {
    if s.sleepCancelled then [Sleep(Period)]
    else if !s.session.Ok? then [Sleep(Period), Acquire]
    else if !s.expired.Ok? || s.expired.value == [] then [Sleep(Period), Acquire, List]
    else [Sleep(Period), Acquire, List, DeleteRows]
  }

  /** The `try` body of one iteration (lines 40-59). An empty listing and a
      zero count both end it normally. */
  function Body(s: Script): (r: BodyResult)
  {
    var raised :=
      if s.sleepCancelled then Cancelled
      else if !s.session.Ok? then Raise(s.session)
      else if !s.expired.Ok? then Raise(s.expired)
      else if s.expired.value == [] then Completed
      else if !s.deleted.Ok? then Raise(s.deleted)
      else if s.deleted.value == 0 || !ImagePass(s.expired.value, s.blob).cancelled then Completed
      else Cancelled;
    var images := if ReachesBlobs(s) then ImagePass(s.expired.value, s.blob).events else [];
    BodyResult(Calls(s) + images, Acquired(s), raised)
  }

  /** Whether the loop goes on after an iteration, leaves it by `break`, or
      is left because a cancellation escaped the handlers. */
  datatype Control = Continue | Break | Escape

  datatype Handled = Handled(events: seq<Event>, control: Control)

  /** The two `except` clauses (lines 60-70). Cancellation logs and breaks;
      an ordinary error rolls back an acquired session (an ordinary error from
      the rollback is swallowed, a cancellation is not) and sleeps for the
      backoff period. */
  function Except(s: Script, b: BodyResult): (h: Handled)
  {
    match b.raised
    case Completed => Handled([], Continue)
    case Cancelled => Handled([Stop], Break)
    case Failed =>
      if b.acquired && s.rollback.Cancel? then Handled([Rollback], Escape)
      else
        var rolledBack := if b.acquired then [Rollback] else [];
        Handled(rolledBack + [Sleep(Backoff)], if s.backoffCancelled then Escape else Continue)
  }

  datatype CycleResult = CycleResult(events: seq<Event>, control: Control)

  /** One iteration of `while True` (lines 38-76): the body, the handlers,
      then `finally`, which closes an acquired session (an ordinary error
      from `close` is swallowed, a cancellation is not). */
  function Cycle(s: Script): (r: CycleResult)
  {
    var b := Body(s);
    var h := Except(s, b);
    if b.acquired then
      CycleResult(b.events + h.events + [Close], if s.close.Cancel? then Escape else h.control)
    else
      CycleResult(b.events + h.events, h.control)
  }

  // ------------------------------------------------------ bounded run

  /** `Running`: the scripts ran out while the loop would go on. `Stopped`:
      the loop was left by `break`. `Escaped`: a cancellation escaped. */
  datatype Exit = Running | Stopped | Escaped

  function ExitOf(c: Control): (e: Exit)
  {
    match c
    case Continue => Running
    case Break => Stopped
    case Escape => Escaped
  }

  /** The iterations' traces, one after the other. */
  function Traces(scripts: seq<Script>): (trace: seq<Event>)
    decreases |scripts|
  {
    if scripts == [] then []
    else Traces(scripts[..|scripts| - 1]) + Cycle(scripts[|scripts| - 1]).events
  }

  datatype RunResult = RunResult(trace: seq<Event>, exit: Exit, cycles: nat)

  /** The loop run over `scripts`, one per iteration, until the loop is left
      or the scripts run out. `cycles` is how many iterations ran. */
  function Run(scripts: seq<Script>): (r: RunResult)
    ensures r.cycles <= |scripts|
    decreases |scripts|
  {
    if scripts == [] then RunResult([], Running, 0)
    else
      var n := |scripts| - 1;
      var prev := Run(scripts[..n]);
      if prev.exit != Running then prev
      else
        var c := Cycle(scripts[n]);
        RunResult(prev.trace + c.events, ExitOf(c.control), |scripts|)
  }
}

/** The cleanup task itself, written as the source runs it: a loop over
    iterations, each a `try` body with its handlers and `finally`, and inside
    it the loop over the listed descriptors. Each method is proved to do what
    the matching function of `ReaperSpec` describes. */
module Reaper {
  import opened ReaperTypes
  import opened ReaperSpec
  import ImageLoopProperties
  import RunProperties

  /** The `for post_info in expired_posts_info` loop (lines 48-59): for each
      truthy `image_id`, ask for the storage and delete the file; log and
      skip ordinary errors; a cancellation ends the loop. */
  method DeleteImages(infos: seq<PostInfo>, blob: nat -> BlobOracle)
    returns (events: seq<Event>, cancelled: bool)
    ensures PassResult(events, cancelled) == ImagePass(infos, blob)
  {
    events, cancelled := [], false;
    var i := 0;
    while i < |infos| && !cancelled
      invariant 0 <= i <= |infos|
      invariant PassResult(events, cancelled) == ImagePass(infos[..i], blob)
    {
      var imageId := infos[i].imageId;
      if Truthy(imageId) {
        var id := imageId.value;
        events := events + [AttemptBlob(id)];
        var b := blob(i);
        match b.storage {
          case Cancel =>
            cancelled := true;
          case Fail =>
            events := events + [BlobFailed(id)];
          case Ok(present) =>
            if !present {
              events := events + [StorageMissing];
            } else {
              events := events + [DeleteFile(id)];
              match b.delete {
                case Ok(_) =>
                case Fail => events := events + [BlobFailed(id)];
                case Cancel => cancelled := true;
              }
            }
        }
      }
      assert infos[..i + 1][..i] == infos[..i];
      i := i + 1;
    }
    if cancelled {
      ImageLoopProperties.CancelledPassIsFinal(infos, i, blob);
    } else {
      assert infos[..i] == infos;
    }
  }

  /** The `try` body of one iteration (lines 40-59). `acquired` stands for
      `db` being a session rather than `None`; `raised` is what escaped. */
  method TryBody(s: Script) returns (events: seq<Event>, acquired: bool, raised: Raised)
    ensures BodyResult(events, acquired, raised) == Body(s)
  {
    acquired, raised := false, Completed;
    events := [Sleep(Period)];
    if s.sleepCancelled {
      raised := Cancelled;
      return;
    }
    events := events + [Acquire];
    if !s.session.Ok? {
      raised := Raise(s.session);
      return;
    }
    acquired := true;
    events := events + [List];
    if !s.expired.Ok? {
      raised := Raise(s.expired);
      return;
    }
    var infos := s.expired.value;
    if infos == [] {
      return;
    }
    events := events + [DeleteRows];
    if !s.deleted.Ok? {
      raised := Raise(s.deleted);
      return;
    }
    if s.deleted.value != 0 {
      var images, cancelled := DeleteImages(infos, s.blob);
      events := events + images;
      if cancelled {
        raised := Cancelled;
      }
    }
  }

  /** The two `except` clauses (lines 60-70) for a body that ended as `b`
      says. */
  method Handle(s: Script, b: BodyResult) returns (events: seq<Event>, control: Control)
    ensures Handled(events, control) == Except(s, b)
  {
    events, control := [], Continue;
    if b.raised == Cancelled {
      events, control := [Stop], Break;
    } else if b.raised == Failed {
      if b.acquired {
        events := [Rollback];
        if s.rollback.Cancel? {
          control := Escape;
          return;
        }
      }
      events := events + [Sleep(Backoff)];
      if s.backoffCancelled {
        control := Escape;
      }
    }
  }

  /** One iteration of `while True` (lines 38-76): the body, its handlers,
      then `finally`, which closes a session that was acquired. */
  method Iteration(s: Script) returns (events: seq<Event>, control: Control)
    ensures CycleResult(events, control) == Cycle(s)
  {
    var body, acquired, raised := TryBody(s);
    var handled;
    handled, control := Handle(s, BodyResult(body, acquired, raised));
    events := body + handled;
    // finally
    if acquired {
      events := events + [Close];
      if s.close.Cancel? {
        control := Escape;
      }
    }
  }

  /** `cleanup_expired_posts_task` (lines 32-76), run for at most one
      iteration per script; the real loop has no bound. */
  method CleanupExpiredPosts(scripts: seq<Script>) returns (trace: seq<Event>, exit: Exit)
    ensures trace == Run(scripts).trace && exit == Run(scripts).exit
  {
    trace, exit := [], Running;
    var i := 0;
    while i < |scripts| && exit == Running
      invariant 0 <= i <= |scripts|
      invariant Run(scripts[..i]) == RunResult(trace, exit, i)
    {
      var events, control := Iteration(scripts[i]);
      trace := trace + events;
      exit := ExitOf(control);
      assert scripts[..i + 1][..i] == scripts[..i];
      i := i + 1;
    }
    if exit != Running {
      assert scripts[..i] + scripts[i..] == scripts;
      RunProperties.NoCycleAfterExit(scripts[..i], scripts[i..]);
    } else {
      assert scripts[..i] == scripts;
    }
  }
}

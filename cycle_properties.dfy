/** What one iteration of the cleanup loop guarantees, stated over its trace. */
module CycleProperties {
  import opened ReaperTypes
  import opened ReaperSpec
  import opened ImageLoopProperties

  // ------------------------------------------------ the parts of an iteration

  /** The body's calls begin with the 10-minute sleep and include row
      deletion exactly when the per-image loop may follow. */
  lemma CallsFacts(s: Script)
    ensures 1 <= |Calls(s)| <= 4 && Calls(s)[0] == Sleep(Period)
    ensures forall i :: 0 <= i < |Calls(s)| ==> !BlobEvent(Calls(s)[i]) && !HandlerEvent(Calls(s)[i])
    ensures ReachesBlobs(s) ==> Calls(s) == [Sleep(Period), Acquire, List, DeleteRows]
    ensures Acquire in Calls(s) <==> !s.sleepCancelled
    ensures List in Calls(s) <==> Acquired(s)
    ensures DeleteRows in Calls(s) <==> ListedSome(s)
  {
  }

  /** The body holds a session exactly when it acquired one, and ends in an
      ordinary error or a cancellation exactly when one of the calls it
      reaches raises it. */
  lemma BodyOutcome(s: Script)
    ensures Body(s).acquired <==> Acquired(s)
    ensures Body(s).raised == Failed <==> StoreFailed(s)
    ensures Body(s).raised == Cancelled <==> BodyCancelled(s)
  {
    if ReachesBlobs(s) {
      ImagePassAttempts(s.expired.value, s.blob);
    }
  }

  /** What the body's trace holds: its calls, then, only once rows were
      deleted with a non-zero count, the image attempts, which are the
      listing's truthy `image_id`s in order up to any cancellation. */
  lemma BodyEvents(s: Script)
    ensures |Body(s).events| >= 1 && Body(s).events[0] == Sleep(Period)
    ensures forall i :: 0 <= i < |Body(s).events| ==> !HandlerEvent(Body(s).events[i])
    ensures forall i :: 0 <= i < |Body(s).events| && Body(s).events[i].AttemptBlob? ==>
      ReachesBlobs(s) && 4 <= i && Body(s).events[3] == DeleteRows
    ensures !ReachesBlobs(s) ==> Attempts(Body(s).events) == []
    ensures ReachesBlobs(s) ==> IsPrefix(Attempts(Body(s).events), TruthyIds(s.expired.value))
    ensures ReachesBlobs(s) && !BlobCancelled(s.expired.value, s.blob) ==>
      Attempts(Body(s).events) == TruthyIds(s.expired.value)
  {
    var images := BodyParts(s);
    AttemptsConcat(Calls(s), images);
    if ReachesBlobs(s) {
      ImagePassAttempts(s.expired.value, s.blob);
    }
  }

  /** The body is its calls followed by the image attempts, if any. */
  lemma BodyParts(s: Script) returns (images: seq<Event>)
    ensures Body(s).events == Calls(s) + images
    ensures 1 <= |Calls(s)| <= 4 && Calls(s)[0] == Sleep(Period)
    ensures forall i :: 0 <= i < |Calls(s)| ==> !BlobEvent(Calls(s)[i]) && !HandlerEvent(Calls(s)[i])
    ensures Attempts(Calls(s)) == []
    ensures forall i :: 0 <= i < |images| ==> BlobEvent(images[i])
    ensures images != [] ==> ReachesBlobs(s) && Calls(s) == [Sleep(Period), Acquire, List, DeleteRows]
    ensures images == (if ReachesBlobs(s) then ImagePass(s.expired.value, s.blob).events else [])
  {
    CallsFacts(s);
    images := if ReachesBlobs(s) then ImagePass(s.expired.value, s.blob).events else [];
    if ReachesBlobs(s) {
      ImagePassOnlyImages(s.expired.value, s.blob);
    }
  }

  /** The handlers: nothing after a normal end, the cancellation log after a
      cancellation, and after an ordinary error a rollback of a held session
      followed by the backoff sleep unless the rollback is cancelled. */
  lemma ExceptFacts(s: Script, b: BodyResult)
    ensures b.raised == Completed ==> Except(s, b) == Handled([], Continue)
    ensures b.raised == Cancelled ==> Except(s, b) == Handled([Stop], Break)
    ensures b.raised == Failed && !b.acquired ==>
      Except(s, b) == Handled([Sleep(Backoff)], if s.backoffCancelled then Escape else Continue)
    ensures b.raised == Failed && b.acquired && s.rollback.Cancel? ==>
      Except(s, b) == Handled([Rollback], Escape)
    ensures b.raised == Failed && b.acquired && !s.rollback.Cancel? ==>
      Except(s, b) == Handled([Rollback, Sleep(Backoff)], if s.backoffCancelled then Escape else Continue)
  {
  }

  /** The handlers produce only handler events, and never `close`. */
  lemma HandlersOnly(s: Script, b: BodyResult)
    ensures forall i :: 0 <= i < |Except(s, b).events| ==>
      HandlerEvent(Except(s, b).events[i]) && !Except(s, b).events[i].Close?
  {
    ExceptFacts(s, b);
  }

  /** The body never produces what only the handlers and `finally` do. */
  lemma BodyQuiet(s: Script)
    ensures Stop !in Body(s).events && Rollback !in Body(s).events
    ensures Close !in Body(s).events && Sleep(Backoff) !in Body(s).events
  {
    var images := BodyParts(s);
    forall e | e in Body(s).events
      ensures !HandlerEvent(e)
    {
      var i :| 0 <= i < |Body(s).events| && Body(s).events[i] == e;
      if i >= |Calls(s)| {
        assert e == images[i - |Calls(s)|];
      }
    }
  }

  /** After its collaborator calls an iteration only attempts images and
      runs its handlers and `finally`. */
  lemma AfterCalls(s: Script) returns (rest: seq<Event>)
    ensures Cycle(s).events == Calls(s) + rest
    ensures forall i :: 0 <= i < |rest| ==> BlobEvent(rest[i]) || HandlerEvent(rest[i])
  {
    var b := Body(s);
    var h := Except(s, b);
    HandlersOnly(s, b);
    var images := if ReachesBlobs(s) then ImagePass(s.expired.value, s.blob).events else [];
    if ReachesBlobs(s) {
      ImagePassOnlyImages(s.expired.value, s.blob);
    }
    var tail := h.events + (if b.acquired then [Close] else []);
    assert b.events == Calls(s) + images;
    assert Cycle(s).events == b.events + tail;
    rest := images + tail;
    assert forall i :: 0 <= i < |tail| ==> HandlerEvent(tail[i]);
  }

  /** An event no element of `b` can be is in `a + b` only if it is in `a`. */
  lemma NotInSuffix(a: seq<Event>, b: seq<Event>, e: Event)
    requires !BlobEvent(e) && !HandlerEvent(e)
    requires forall i :: 0 <= i < |b| ==> BlobEvent(b[i]) || HandlerEvent(b[i])
    ensures e in a + b <==> e in a
  {
  }

  // ------------------------------------------------ properties of an iteration

  /** Every iteration begins with the 10-minute sleep, before any session is
      requested or any query made; a cancelled sleep ends the loop there,
      with nothing rolled back and nothing closed. */
  lemma SleepComesFirst(s: Script)
    ensures |Cycle(s).events| >= 1 && Cycle(s).events[0] == Sleep(Period)
    ensures s.sleepCancelled ==> Cycle(s) == CycleResult([Sleep(Period), Stop], Break)
  {
    BodyEvents(s);
    ExceptFacts(s, Body(s));
  }

  /** The calls an iteration makes stop at the first one that does not
      return: a session is requested only after the sleep, the listing only
      once a session is held, row deletion only once something was listed. */
  lemma CallsInOrder(s: Script)
    ensures Acquire in Cycle(s).events <==> !s.sleepCancelled
    ensures List in Cycle(s).events <==> Acquired(s)
    ensures DeleteRows in Cycle(s).events <==> ListedSome(s)
  {
    CallsFacts(s);
    var rest := AfterCalls(s);
    NotInSuffix(Calls(s), rest, Acquire);
    NotInSuffix(Calls(s), rest, List);
    NotInSuffix(Calls(s), rest, DeleteRows);
  }

  /** An empty listing ends the iteration quietly: no row deletion, no image
      attempt, no rollback, no backoff; the session is still closed. */
  lemma EmptyListingIsQuiet(s: Script)
    requires Acquired(s) && s.expired == Ok([])
    ensures Cycle(s).events == [Sleep(Period), Acquire, List, Close]
    ensures Cycle(s).control == Continue <==> !s.close.Cancel?
  {
    ExceptFacts(s, Body(s));
  }

  /** Every image attempt comes after the rows were deleted with a non-zero
      count; a zero count means no attempt at all. */
  lemma RowsDeletedBeforeImages(s: Script)
    ensures forall i :: 0 <= i < |Cycle(s).events| && Cycle(s).events[i].AttemptBlob? ==>
      ReachesBlobs(s) && exists j :: 0 <= j < i && Cycle(s).events[j] == DeleteRows
    ensures s.deleted == Ok(0) ==> Attempts(Cycle(s).events) == []
  {
    ImageAttemptsExact(s);
    BodyEvents(s);
    var b := Body(s).events;
    var tail := HandlersAfterBody(s);
    forall i | 0 <= i < |Cycle(s).events| && Cycle(s).events[i].AttemptBlob?
      ensures ReachesBlobs(s) && exists j :: 0 <= j < i && Cycle(s).events[j] == DeleteRows
    {
      assert i < |b|;
      assert Cycle(s).events[i] == b[i];
      assert Cycle(s).events[3] == b[3];
    }
  }

  /** The images an iteration attempts to delete are the truthy `image_id`s
      of the listing, one attempt per descriptor, in list order, duplicates
      attempted again; a cancellation may cut the sequence short. Without row
      deletion at a non-zero count there is no attempt. */
  lemma ImageAttemptsExact(s: Script)
    ensures !ReachesBlobs(s) ==> Attempts(Cycle(s).events) == []
    ensures ReachesBlobs(s) ==> IsPrefix(Attempts(Cycle(s).events), TruthyIds(s.expired.value))
    ensures ReachesBlobs(s) && !BlobCancelled(s.expired.value, s.blob) ==>
      Attempts(Cycle(s).events) == TruthyIds(s.expired.value)
  {
    BodyEvents(s);
    var tail := HandlersAfterBody(s);
    AttemptsConcat(Body(s).events, tail);
  }

  /** The files an iteration asks the store to delete are the listing's
      truthy `image_id`s whose storage is there, in list order, duplicates
      again; a cancellation may cut them short, and there are none without
      rows deleted at a non-zero count. */
  lemma FileDeletesExact(s: Script)
    ensures !ReachesBlobs(s) ==> Deletes(Cycle(s).events) == []
    ensures ReachesBlobs(s) ==> Deletes(Cycle(s).events) <= StoredIds(s.expired.value, s.blob)
    ensures ReachesBlobs(s) && !BlobCancelled(s.expired.value, s.blob) ==>
      Deletes(Cycle(s).events) == StoredIds(s.expired.value, s.blob)
  {
    var images := BodyParts(s);
    var tail := HandlersAfterBody(s);
    assert Deletes(Calls(s)) == [];
    assert Deletes(tail) == [];
    DeletesConcat(Calls(s), images);
    DeletesConcat(Body(s).events, tail);
    if ReachesBlobs(s) {
      ImagePassDeletes(s.expired.value, s.blob);
    }
  }

  /** After the body an iteration only runs its handlers and `finally`. */
  lemma HandlersAfterBody(s: Script) returns (tail: seq<Event>)
    ensures Cycle(s).events == Body(s).events + tail
    ensures forall k :: 0 <= k < |tail| ==> HandlerEvent(tail[k])
    ensures Attempts(tail) == []
  {
    var b := Body(s);
    var h := Except(s, b);
    HandlersOnly(s, b);
    tail := h.events + (if b.acquired then [Close] else []);
    assert forall k :: 0 <= k < |tail| ==> HandlerEvent(tail[k]);
  }

  /** Only a cancellation reached during the iteration leaves the loop, and
      the loop is left by `break` exactly when it is raised in the body and
      `close` does not raise another. */
  lemma OnlyCancellationLeavesLoop(s: Script)
    ensures Cycle(s).control != Continue <==> Interrupted(s)
    ensures Cycle(s).control == Break <==> BodyCancelled(s) && !(Acquired(s) && s.close.Cancel?)
  {
    BodyOutcome(s);
    ExceptFacts(s, Body(s));
  }

  /** A failing image attempt (missing storage, failing accessor, failing
      `delete_file`) neither stops the other attempts nor sends the iteration
      into rollback or backoff. */
  lemma ImageErrorsSwallowed(s: Script)
    requires ReachesBlobs(s) && !BlobCancelled(s.expired.value, s.blob)
    ensures Attempts(Cycle(s).events) == TruthyIds(s.expired.value)
    ensures Rollback !in Cycle(s).events && Sleep(Backoff) !in Cycle(s).events
    ensures Stop !in Cycle(s).events
    ensures Cycle(s).events[|Cycle(s).events| - 1] == Close
    ensures Cycle(s).control == Continue <==> !s.close.Cancel?
  {
    ImageAttemptsExact(s);
    BodyQuiet(s);
    BodyOutcome(s);
    var b := Body(s);
    ExceptFacts(s, b);
    assert Cycle(s).events == b.events + [Close];
  }

  /** An ordinary error from acquiring, listing or deleting rows ends the
      body there: no image is attempted, an acquired session is rolled back
      and then closed, the backoff sleep follows the rollback, and the loop
      goes on unless a cancellation arrives in the rollback, the backoff
      sleep or `close`. */
  lemma StoreErrorBacksOff(s: Script)
    requires StoreFailed(s)
    ensures Attempts(Cycle(s).events) == []
    ensures Stop !in Cycle(s).events
    ensures !Acquired(s) ==> Cycle(s).events == [Sleep(Period), Acquire, Sleep(Backoff)]
    ensures Acquired(s) && !s.rollback.Cancel? ==>
      Cycle(s).events[|Cycle(s).events| - 3..] == [Rollback, Sleep(Backoff), Close]
    ensures Acquired(s) && s.rollback.Cancel? ==>
      Cycle(s).events[|Cycle(s).events| - 2..] == [Rollback, Close]
    ensures Cycle(s).control == Continue <==>
      (if Acquired(s) then !s.rollback.Cancel? && !s.backoffCancelled && !s.close.Cancel?
       else !s.backoffCancelled)
    ensures Cycle(s).control != Break
  {
    ImageAttemptsExact(s);
    if Acquired(s) {
      StoreErrorWithSession(s);
    } else {
      StoreErrorWithoutSession(s);
    }
  }

  lemma StoreErrorWithSession(s: Script)
    requires StoreFailed(s) && Acquired(s)
    ensures Stop !in Cycle(s).events
    ensures !s.rollback.Cancel? ==>
      Cycle(s).events[|Cycle(s).events| - 3..] == [Rollback, Sleep(Backoff), Close]
    ensures s.rollback.Cancel? ==> Cycle(s).events[|Cycle(s).events| - 2..] == [Rollback, Close]
    ensures Cycle(s).control == Continue <==>
      !s.rollback.Cancel? && !s.backoffCancelled && !s.close.Cancel?
    ensures Cycle(s).control != Break
  {
    BodyQuiet(s);
    BodyOutcome(s);
    var b := Body(s);
    var h := Except(s, b);
    ExceptFacts(s, b);
    assert Cycle(s).events == b.events + h.events + [Close];
  }

  lemma StoreErrorWithoutSession(s: Script)
    requires StoreFailed(s) && !Acquired(s)
    ensures Cycle(s).events == [Sleep(Period), Acquire, Sleep(Backoff)]
    ensures Cycle(s).control == Continue <==> !s.backoffCancelled
    ensures Cycle(s).control != Break
  {
    BodyOutcome(s);
    var b := Body(s);
    ExceptFacts(s, b);
    assert b.events == [Sleep(Period), Acquire];
  }

  /** A cancellation raised in the body is logged and breaks the loop with no
      rollback and no backoff sleep; `finally` still closes the session. */
  lemma CancellationSkipsRecovery(s: Script)
    requires BodyCancelled(s)
    ensures Rollback !in Cycle(s).events && Sleep(Backoff) !in Cycle(s).events
    ensures Stop in Cycle(s).events
    ensures Cycle(s).control != Continue
    ensures Acquired(s) ==> Cycle(s).events[|Cycle(s).events| - 2..] == [Stop, Close]
  {
    BodyQuiet(s);
    BodyOutcome(s);
    var b := Body(s);
    ExceptFacts(s, b);
    assert Cycle(s).events == b.events + [Stop] + (if b.acquired then [Close] else []);
  }

  /** The handlers never close the session and roll it back once exactly
      when an ordinary error escaped a body that held one. */
  lemma HandlerCounts(s: Script, b: BodyResult)
    ensures Count(Except(s, b).events, Close) == 0
    ensures Count(Except(s, b).events, Rollback) ==
      (if b.raised == Failed && b.acquired then 1 else 0)
  {
    ExceptFacts(s, b);
    if b.raised == Failed && b.acquired && !s.rollback.Cancel? {
      CountConcat([Rollback], [Sleep(Backoff)], Rollback);
    }
  }

  /** Counting an event the body never produces: what the handlers produce,
      plus the `close` of `finally` for an acquired session. */
  lemma CountAfterBody(s: Script, e: Event)
    requires HandlerEvent(e)
    ensures Count(Cycle(s).events, e) ==
      Count(Except(s, Body(s)).events, e) + (if Acquired(s) && e == Close then 1 else 0)
  {
    BodyEvents(s);
    BodyOutcome(s);
    var b := Body(s);
    var h := Except(s, b);
    var close := if b.acquired then [Close] else [];
    assert Cycle(s).events == b.events + h.events + close;
    assert e !in b.events;
    CountConcat(b.events, h.events, e);
    CountConcat(b.events + h.events, close, e);
  }

  /** The last thing an iteration does is `close` exactly when it acquired a
      session. */
  lemma CloseIsLast(s: Script)
    ensures Acquired(s) <==> Cycle(s).events[|Cycle(s).events| - 1] == Close
  {
    BodyOutcome(s);
    var b := Body(s);
    var h := Except(s, b);
    if !b.acquired {
      ExceptFacts(s, b);
      assert |h.events| > 0;
      assert Cycle(s).events == b.events + h.events;
      assert Cycle(s).events[|Cycle(s).events| - 1] == h.events[|h.events| - 1];
    }
  }

  /** An acquired session is closed exactly once, as the last action of the
      iteration, and rolled back at most once, only after an ordinary error;
      a session that was never acquired is neither rolled back nor closed. */
  lemma SessionClosedOnce(s: Script)
    ensures Count(Cycle(s).events, Close) == (if Acquired(s) then 1 else 0)
    ensures Count(Cycle(s).events, Rollback) == (if Acquired(s) && StoreFailed(s) then 1 else 0)
    ensures Acquired(s) <==> Cycle(s).events[|Cycle(s).events| - 1] == Close
  {
    BodyOutcome(s);
    HandlerCounts(s, Body(s));
    CountAfterBody(s, Close);
    CountAfterBody(s, Rollback);
    CloseIsLast(s);
  }
}

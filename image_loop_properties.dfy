/** What the per-image loop guarantees, and the facts about traces the other
    proofs are built from. */
module ImageLoopProperties {
  import opened ReaperTypes
  import opened ReaperSpec

  /** `Attempts` distributes over concatenation. */
  lemma {:induction false} AttemptsConcat(a: seq<Event>, b: seq<Event>)
    ensures Attempts(a + b) == Attempts(a) + Attempts(b)
  {
    if a != [] {
      assert (a + b)[0] == a[0];
      assert (a + b)[1..] == a[1..] + b;
      AttemptsConcat(a[1..], b);
    } else {
      assert a + b == b;
    }
  }

  /** `Count` distributes over concatenation. */
  lemma {:induction false} CountConcat(a: seq<Event>, b: seq<Event>, e: Event)
    ensures Count(a + b, e) == Count(a, e) + Count(b, e)
  {
    if a != [] {
      assert (a + b)[0] == a[0];
      assert (a + b)[1..] == a[1..] + b;
      CountConcat(a[1..], b, e);
    } else {
      assert a + b == b;
    }
  }

  /** One attempt is one `AttemptBlob` for its image, followed at most by the
      log line of a swallowed error; only a cancellation escapes it. */
  lemma AttemptImageFacts(id: string, b: BlobOracle)
    ensures |AttemptImage(id, b).events| >= 1 && AttemptImage(id, b).events[0] == AttemptBlob(id)
    ensures Attempts(AttemptImage(id, b).events) == [id]
    ensures forall i :: 0 <= i < |AttemptImage(id, b).events| ==> BlobEvent(AttemptImage(id, b).events[i])
    ensures AttemptImage(id, b).cancelled <==> Cancels(b)
    ensures BlobFailed(id) in AttemptImage(id, b).events <==> Fails(b)
    ensures StorageMissing in AttemptImage(id, b).events <==> b.storage == Ok(false)
  {
  }

  /** The per-image loop does nothing but attempt images and log their errors. */
  lemma {:induction false} ImagePassOnlyImages(infos: seq<PostInfo>, blob: nat -> BlobOracle)
    ensures forall i :: 0 <= i < |ImagePass(infos, blob).events| ==>
      BlobEvent(ImagePass(infos, blob).events[i])
    decreases |infos|
  {
    if infos != [] {
      var n := |infos| - 1;
      ImagePassOnlyImages(infos[..n], blob);
      if Truthy(infos[n].imageId) {
        AttemptImageFacts(infos[n].imageId.value, blob(n));
      }
    }
  }

  /** Cancellation among the first `n + 1` descriptors is cancellation among
      the first `n` or at the last one. */
  lemma BlobCancelledLast(infos: seq<PostInfo>, blob: nat -> BlobOracle)
    requires infos != []
    ensures var n := |infos| - 1;
      BlobCancelled(infos, blob) <==>
        BlobCancelled(infos[..n], blob) || (Truthy(infos[n].imageId) && Cancels(blob(n)))
  {
    var n := |infos| - 1;
    if BlobCancelled(infos[..n], blob) {
      var k :| 0 <= k < n && Truthy(infos[..n][k].imageId) && Cancels(blob(k));
      assert infos[k] == infos[..n][k];
    }
    if BlobCancelled(infos, blob) {
      var k :| 0 <= k < |infos| && Truthy(infos[k].imageId) && Cancels(blob(k));
      if k < n {
        assert infos[..n][k] == infos[k];
      }
    }
  }

  /** The per-image loop attempts exactly the truthy `image_id`s, in order,
      unless an attempt is cancelled, which happens exactly when one of them
      meets a cancellation; then it attempts a prefix of them. */
  lemma {:induction false} ImagePassAttempts(infos: seq<PostInfo>, blob: nat -> BlobOracle)
    ensures IsPrefix(Attempts(ImagePass(infos, blob).events), TruthyIds(infos))
    ensures !ImagePass(infos, blob).cancelled ==>
      Attempts(ImagePass(infos, blob).events) == TruthyIds(infos)
    ensures ImagePass(infos, blob).cancelled <==> BlobCancelled(infos, blob)
    decreases |infos|
  {
    if infos != [] {
      var n := |infos| - 1;
      ImagePassAttempts(infos[..n], blob);
      BlobCancelledLast(infos, blob);
      var prev := ImagePass(infos[..n], blob);
      if !prev.cancelled && Truthy(infos[n].imageId) {
        AttemptImageFacts(infos[n].imageId.value, blob(n));
        AttemptsConcat(prev.events, AttemptImage(infos[n].imageId.value, blob(n)).events);
      }
    }
  }

  /** A cancellation ends the per-image loop: the descriptors after it are
      never looked at. */
  lemma {:induction false} CancelledPassIsFinal(infos: seq<PostInfo>, i: nat, blob: nat -> BlobOracle)
    requires i <= |infos|
    requires ImagePass(infos[..i], blob).cancelled
    ensures ImagePass(infos, blob) == ImagePass(infos[..i], blob)
    decreases |infos|
  {
    if i == |infos| {
      assert infos[..i] == infos;
    } else {
      var n := |infos| - 1;
      assert infos[..n][..i] == infos[..i];
      CancelledPassIsFinal(infos[..n], i, blob);
    }
  }

  /** `Deletes` distributes over concatenation. */
  lemma {:induction false} DeletesConcat(a: seq<Event>, b: seq<Event>)
    ensures Deletes(a + b) == Deletes(a) + Deletes(b)
  {
    if a != [] {
      assert (a + b)[0] == a[0];
      assert (a + b)[1..] == a[1..] + b;
      DeletesConcat(a[1..], b);
    } else {
      assert a + b == b;
    }
  }

  /** One attempt calls `delete_file` for its own image exactly when the
      storage is there, whatever `delete_file` then does. */
  lemma AttemptDeletes(id: string, b: BlobOracle)
    ensures Deletes(AttemptImage(id, b).events) == (if b.storage == Ok(true) then [id] else [])
  {
    var ev := AttemptImage(id, b).events;
    if |ev| == 1 {
      assert ev[1..] == [];
    } else if |ev| == 2 {
      assert ev[1..][1..] == [];
    } else {
      assert ev[1..][1..][1..] == [];
    }
  }

  /** The loop calls `delete_file` for the truthy `image_id`s whose storage is
      there, in list order, duplicates again; all of them unless an attempt
      is cancelled, and then a prefix of them. */
  lemma {:induction false} ImagePassDeletes(infos: seq<PostInfo>, blob: nat -> BlobOracle)
    ensures Deletes(ImagePass(infos, blob).events) <= StoredIds(infos, blob)
    ensures !BlobCancelled(infos, blob) ==>
      Deletes(ImagePass(infos, blob).events) == StoredIds(infos, blob)
    decreases |infos|
  {
    if infos != [] {
      var n := |infos| - 1;
      ImagePassDeletes(infos[..n], blob);
      ImagePassAttempts(infos[..n], blob);
      BlobCancelledLast(infos, blob);
      var prev := ImagePass(infos[..n], blob);
      if !prev.cancelled && Truthy(infos[n].imageId) {
        AttemptDeletes(infos[n].imageId.value, blob(n));
        DeletesConcat(prev.events, AttemptImage(infos[n].imageId.value, blob(n)).events);
      }
    }
  }

  /** One attempt logs a missing storage once when there is none, and the
      failure of its own image once when it fails. */
  lemma AttemptLogCounts(id: string, b: BlobOracle, x: string)
    ensures Count(AttemptImage(id, b).events, StorageMissing) ==
      (if b.storage == Ok(false) then 1 else 0)
    ensures Count(AttemptImage(id, b).events, BlobFailed(x)) ==
      (if Fails(b) && x == id then 1 else 0)
  {
    var ev := AttemptImage(id, b).events;
    if |ev| == 1 {
      assert ev[1..] == [];
    } else if |ev| == 2 {
      assert ev[1..][1..] == [];
    } else {
      assert ev[1..][1..][1..] == [];
    }
  }

  /** Without cancellation the loop logs one missing storage per truthy
      descriptor that finds none, and one failure of `x` per truthy
      descriptor for `x` whose attempt fails; duplicates are logged again. */
  lemma {:induction false} ImageLogCounts(infos: seq<PostInfo>, blob: nat -> BlobOracle, x: string)
    requires !BlobCancelled(infos, blob)
    ensures Count(ImagePass(infos, blob).events, StorageMissing) == Missing(infos, blob)
    ensures Count(ImagePass(infos, blob).events, BlobFailed(x)) == Failures(infos, blob, x)
    decreases |infos|
  {
    if infos != [] {
      var n := |infos| - 1;
      BlobCancelledLast(infos, blob);
      ImageLogCounts(infos[..n], blob, x);
      ImagePassAttempts(infos[..n], blob);
      var prev := ImagePass(infos[..n], blob);
      if Truthy(infos[n].imageId) {
        var step := AttemptImage(infos[n].imageId.value, blob(n));
        AttemptLogCounts(infos[n].imageId.value, blob(n), x);
        CountConcat(prev.events, step.events, StorageMissing);
        CountConcat(prev.events, step.events, BlobFailed(x));
      }
    }
  }

  /** The loop only appends: what it did for the first `i` descriptors is a
      prefix of what it does for all of them. */
  lemma {:induction false} ImagePassGrows(infos: seq<PostInfo>, i: nat, blob: nat -> BlobOracle)
    requires i <= |infos|
    ensures ImagePass(infos[..i], blob).events <= ImagePass(infos, blob).events
    decreases |infos|
  {
    if i == |infos| {
      assert infos[..i] == infos;
    } else {
      var n := |infos| - 1;
      assert infos[..n][..i] == infos[..i];
      ImagePassGrows(infos[..n], i, blob);
    }
  }

  /** Every failure the loop reaches before any cancellation is logged, one
      line per failing attempt, even when a later attempt is cancelled. */
  lemma ImageFailuresLogged(infos: seq<PostInfo>, blob: nat -> BlobOracle, i: nat, x: string)
    requires i <= |infos| && !BlobCancelled(infos[..i], blob)
    ensures Count(ImagePass(infos, blob).events, StorageMissing) >= Missing(infos[..i], blob)
    ensures Count(ImagePass(infos, blob).events, BlobFailed(x)) >= Failures(infos[..i], blob, x)
  {
    ImageLogCounts(infos[..i], blob, x);
    ImagePassGrows(infos, i, blob);
    CountPrefix(ImagePass(infos[..i], blob).events, ImagePass(infos, blob).events, StorageMissing);
    CountPrefix(ImagePass(infos[..i], blob).events, ImagePass(infos, blob).events, BlobFailed(x));
  }

  /** A prefix has no more occurrences of an event than the whole. */
  lemma CountPrefix(p: seq<Event>, q: seq<Event>, e: Event)
    requires p <= q
    ensures Count(p, e) <= Count(q, e)
  {
    assert q == p + q[|p|..];
    CountConcat(p, q[|p|..], e);
  }

  /** The truthy ids of a prefix of the descriptors are a prefix of theirs. */
  lemma {:induction false} TruthyIdsGrow(infos: seq<PostInfo>, i: nat)
    requires i <= |infos|
    ensures TruthyIds(infos[..i]) <= TruthyIds(infos)
    decreases |infos|
  {
    if i == |infos| {
      assert infos[..i] == infos;
    } else {
      var n := |infos| - 1;
      assert infos[..n][..i] == infos[..i];
      TruthyIdsGrow(infos[..n], i);
    }
  }

  /** Each truthy descriptor contributes its own entry: the `image_id` of
      descriptor `k` stands right after the ids of the descriptors before
      it, so every truthy descriptor is kept, in order, duplicates included. */
  lemma TruthyIdsPosition(infos: seq<PostInfo>, k: nat)
    requires k < |infos| && Truthy(infos[k].imageId)
    ensures |TruthyIds(infos[..k + 1])| == |TruthyIds(infos[..k])| + 1
    ensures |TruthyIds(infos[..k])| < |TruthyIds(infos)|
    ensures TruthyIds(infos)[|TruthyIds(infos[..k])|] == infos[k].imageId.value
  {
    TruthyIdsGrow(infos, k + 1);
    assert infos[..k + 1][..k] == infos[..k];
    assert TruthyIds(infos[..k + 1]) == TruthyIds(infos[..k]) + [infos[k].imageId.value];
  }

  /** A cancelled attempt is the last one: the loop attempts the truthy ids
      up to and including that of the first descriptor whose attempt is
      cancelled, and nothing after it. */
  lemma CancelledPassAttempts(infos: seq<PostInfo>, blob: nat -> BlobOracle, k: nat)
    requires k < |infos| && Truthy(infos[k].imageId) && Cancels(blob(k))
    requires !BlobCancelled(infos[..k], blob)
    ensures ImagePass(infos, blob).cancelled
    ensures Attempts(ImagePass(infos, blob).events) == TruthyIds(infos[..k + 1])
  {
    var pre := infos[..k + 1];
    assert pre[..k] == infos[..k];
    ImagePassAttempts(infos[..k], blob);
    var prev := ImagePass(infos[..k], blob);
    var step := AttemptImage(infos[k].imageId.value, blob(k));
    AttemptImageFacts(infos[k].imageId.value, blob(k));
    AttemptsConcat(prev.events, step.events);
    assert ImagePass(pre, blob) == PassResult(prev.events + step.events, true);
    CancelledPassIsFinal(infos, k + 1, blob);
  }
}

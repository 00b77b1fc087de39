/** Concrete iterations of the cleanup loop, worked out in full. */
module Scenarios {
  import opened ReaperTypes
  import opened ReaperSpec
  import opened CycleProperties

  /** Three expired posts, the second without an attachment. */
  function MixedListing(): (infos: seq<PostInfo>)
  {
    [PostInfo(1, Some("a")), PostInfo(2, None), PostInfo(3, Some("c"))]
  }

  /** An iteration in which every call the body makes returns. */
  predicate Smooth(s: Script, listing: seq<PostInfo>, count: int)
  {
    !s.sleepCancelled && s.session == Ok(()) && s.expired == Ok(listing) &&
    s.deleted == Ok(count) && s.close == Ok(())
  }

  /** Mixed attachments: exactly the two truthy images are deleted, in list
      order, after the rows; the session is closed and the loop goes on. */
  lemma MixedAttachments(s: Script)
    requires Smooth(s, MixedListing(), 3)
    requires forall k :: s.blob(k) == BlobOracle(Ok(true), Ok(()))
    ensures Cycle(s).events ==
      [Sleep(Period), Acquire, List, DeleteRows,
       AttemptBlob("a"), DeleteFile("a"), AttemptBlob("c"), DeleteFile("c"), Close]
    ensures Cycle(s).control == Continue
  {
    var infos := MixedListing();
    FirstTwoPass(s.blob);
    assert ImagePass(infos, s.blob) == PassResult([AttemptBlob("a"), DeleteFile("a"), AttemptBlob("c"), DeleteFile("c")], false);
    ExceptFacts(s, Body(s));
  }

  /** Mixed attachments where deleting `"c"` fails: the failure is logged
      after `"a"` was deleted, and the iteration still ends normally. */
  lemma MixedAttachmentsOneFails(s: Script)
    requires Smooth(s, MixedListing(), 3)
    requires s.blob(0) == BlobOracle(Ok(true), Ok(()))
    requires s.blob(2) == BlobOracle(Ok(true), Fail)
    ensures Cycle(s).events ==
      [Sleep(Period), Acquire, List, DeleteRows,
       AttemptBlob("a"), DeleteFile("a"), AttemptBlob("c"), DeleteFile("c"), BlobFailed("c"), Close]
    ensures Cycle(s).control == Continue
  {
    var infos := MixedListing();
    FirstTwoPass(s.blob);
    assert ImagePass(infos, s.blob) ==
      PassResult([AttemptBlob("a"), DeleteFile("a"), AttemptBlob("c"), DeleteFile("c"), BlobFailed("c")], false);
    ExceptFacts(s, Body(s));
  }

  /** The first two descriptors of the mixed listing: one attempt, for `"a"`. */
  lemma FirstTwoPass(blob: nat -> BlobOracle)
    requires blob(0) == BlobOracle(Ok(true), Ok(()))
    ensures ImagePass(MixedListing()[..2], blob) == PassResult([AttemptBlob("a"), DeleteFile("a")], false)
  {
    var infos := MixedListing();
    assert infos[..2][..1] == infos[..1];
    assert infos[..1][..0] == [];
    assert ImagePass(infos[..1], blob) == PassResult([AttemptBlob("a"), DeleteFile("a")], false);
  }

  /** A cancellation while the rows are being deleted is logged and breaks
      the loop; the code does not roll back, it only closes the session. */
  lemma CancelDuringRowDeletion(s: Script)
    requires !s.sleepCancelled && s.session == Ok(()) && s.expired == Ok(MixedListing())
    requires s.deleted.Cancel? && s.close == Ok(())
    ensures Cycle(s).events == [Sleep(Period), Acquire, List, DeleteRows, Stop, Close]
    ensures Cycle(s).control == Break
  {
    ExceptFacts(s, Body(s));
  }
}

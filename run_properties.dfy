/** What a bounded run of the cleanup loop guarantees. */
module RunProperties {
  import opened ReaperTypes
  import opened ReaperSpec
  import opened ImageLoopProperties
  import opened CycleProperties

  /** A run is the first `cycles` iterations, one after the other: all of
      the scripts when the loop is still running, otherwise up to and
      including the iteration whose control left the loop. */
  lemma RunShape(scripts: seq<Script>)
    ensures Run(scripts).exit == Running ==> Run(scripts).cycles == |scripts|
    ensures Run(scripts).exit != Running ==>
      1 <= Run(scripts).cycles &&
      ExitOf(Cycle(scripts[Run(scripts).cycles - 1]).control) == Run(scripts).exit
    ensures Run(scripts).trace == Traces(scripts[..Run(scripts).cycles])
  {
    RunExit(scripts);
    RunTrace(scripts);
  }

  /** Which iteration ended a run. */
  lemma {:induction false} RunExit(scripts: seq<Script>)
    ensures Run(scripts).exit == Running ==> Run(scripts).cycles == |scripts|
    ensures Run(scripts).exit != Running ==>
      1 <= Run(scripts).cycles &&
      ExitOf(Cycle(scripts[Run(scripts).cycles - 1]).control) == Run(scripts).exit
    decreases |scripts|
  {
    if scripts != [] {
      var n := |scripts| - 1;
      RunExit(scripts[..n]);
      var prev := Run(scripts[..n]);
      if prev.exit != Running {
        assert scripts[..n][prev.cycles - 1] == scripts[prev.cycles - 1];
      }
    }
  }

  /** What a run did: its iterations' traces, one after the other. */
  lemma {:induction false} RunTrace(scripts: seq<Script>)
    ensures Run(scripts).trace == Traces(scripts[..Run(scripts).cycles])
    decreases |scripts|
  {
    if scripts == [] {
      assert scripts[..0] == [];
    } else {
      var n := |scripts| - 1;
      RunExit(scripts[..n]);
      RunTrace(scripts[..n]);
      var prev := Run(scripts[..n]);
      if prev.exit != Running {
        assert scripts[..n][..prev.cycles] == scripts[..prev.cycles];
      } else {
        assert scripts[..|scripts|] == scripts;
        assert scripts[..n][..n] == scripts[..n];
      }
    }
  }

  /** The first thing a run does is the 10-minute sleep: the first cleanup
      happens one period after the task starts. */
  lemma RunStartsWithSleep(scripts: seq<Script>)
    requires scripts != []
    ensures Run(scripts).cycles >= 1
    ensures |Run(scripts).trace| >= 1 && Run(scripts).trace[0] == Sleep(Period)
  {
    RunShape(scripts);
    TracesStartWithSleep(scripts[..Run(scripts).cycles]);
  }

  lemma {:induction false} TracesStartWithSleep(scripts: seq<Script>)
    requires scripts != []
    ensures |Traces(scripts)| >= 1 && Traces(scripts)[0] == Sleep(Period)
    decreases |scripts|
  {
    var n := |scripts| - 1;
    if n == 0 {
      assert scripts[..n] == [];
      SleepComesFirst(scripts[n]);
    } else {
      TracesStartWithSleep(scripts[..n]);
    }
  }

  /** Every iteration but the last of a run continued the loop; the last one
      continued it too exactly when the scripts ran out. */
  lemma {:induction false} RunControl(scripts: seq<Script>)
    ensures forall k :: 0 <= k < Run(scripts).cycles ==>
      (Cycle(scripts[k]).control == Continue <==>
         Run(scripts).exit == Running || k < Run(scripts).cycles - 1)
    decreases |scripts|
  {
    if scripts != [] {
      var n := |scripts| - 1;
      RunControl(scripts[..n]);
      RunShape(scripts[..n]);
      var prev := Run(scripts[..n]);
      var r := Run(scripts);
      forall k | 0 <= k < r.cycles
        ensures Cycle(scripts[k]).control == Continue <==> r.exit == Running || k < r.cycles - 1
      {
        if prev.exit != Running {
          assert r == prev;
          assert scripts[..n][k] == scripts[k];
        } else if k < n {
          assert scripts[..n][k] == scripts[k];
        }
      }
    }
  }

  /** Once the loop is left no further iteration begins: more scripts do not
      change the run. */
  lemma {:induction false} NoCycleAfterExit(p: seq<Script>, q: seq<Script>)
    requires Run(p).exit != Running
    ensures Run(p + q) == Run(p)
    decreases |q|
  {
    if q == [] {
      assert p + q == p;
    } else {
      var m := |q| - 1;
      NoCycleAfterExit(p, q[..m]);
      assert (p + q)[..|p + q| - 1] == p + q[..m];
    }
  }

  /** A run in which no iteration reaches a cancellation never leaves the
      loop: ordinary errors are absorbed and every script is used. */
  lemma UninterruptedRunKeepsGoing(scripts: seq<Script>)
    requires forall k :: 0 <= k < |scripts| ==> !Interrupted(scripts[k])
    ensures Run(scripts).exit == Running
    ensures Run(scripts).cycles == |scripts|
    ensures Run(scripts).trace == Traces(scripts)
  {
    RunShape(scripts);
    var r := Run(scripts);
    if r.exit != Running {
      var last := scripts[r.cycles - 1];
      OnlyCancellationLeavesLoop(last);
      assert false;
    }
    assert scripts[..|scripts|] == scripts;
  }

  /** How many of the iterations acquire a session. */
  function Sessions(scripts: seq<Script>): (n: nat)
    ensures n <= |scripts|
    decreases |scripts|
  {
    if scripts == [] then 0
    else Sessions(scripts[..|scripts| - 1]) + (if Acquired(scripts[|scripts| - 1]) then 1 else 0)
  }

  /** Across iterations, `close` is awaited once per acquired session. */
  lemma {:induction false} TracesCloseSessions(scripts: seq<Script>)
    ensures Count(Traces(scripts), Close) == Sessions(scripts)
    decreases |scripts|
  {
    if scripts != [] {
      var n := |scripts| - 1;
      TracesCloseSessions(scripts[..n]);
      SessionClosedOnce(scripts[n]);
      CountConcat(Traces(scripts[..n]), Cycle(scripts[n]).events, Close);
    }
  }

  /** No session taken by a run is left open, whatever the outcomes. */
  lemma RunClosesEverySession(scripts: seq<Script>)
    ensures Count(Run(scripts).trace, Close) == Sessions(scripts[..Run(scripts).cycles])
  {
    RunShape(scripts);
    TracesCloseSessions(scripts[..Run(scripts).cycles]);
  }

  /** An iteration against an empty store whose `close` is not cancelled. */
  predicate Quiet(s: Script)
  {
    Acquired(s) && s.expired == Ok([]) && !s.close.Cancel?
  }

  /** `n` quiet iterations, one after the other. */
  function QuietTrace(n: nat): (trace: seq<Event>)
    ensures |trace| == 4 * n
  {
    if n == 0 then [] else QuietTrace(n - 1) + [Sleep(Period), Acquire, List, Close]
  }

  /** Runs against an empty store are all alike: they sleep, query and close,
      never delete rows or images, and never leave the loop. */
  lemma {:induction false} EmptyStoreRunsQuietly(scripts: seq<Script>)
    requires forall k :: 0 <= k < |scripts| ==> Quiet(scripts[k])
    ensures Run(scripts) == RunResult(QuietTrace(|scripts|), Running, |scripts|)
    decreases |scripts|
  {
    if scripts != [] {
      var n := |scripts| - 1;
      EmptyStoreRunsQuietly(scripts[..n]);
      EmptyListingIsQuiet(scripts[n]);
    }
  }
}

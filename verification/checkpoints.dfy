/** The resumable batch loop shared by the scripts: batch `k` is skipped
    when its checkpoint file exists, otherwise it is processed, and
    processing either writes the checkpoint, writes nothing (the batch is
    retried by the next run), or raises out of the loop and ends the run.
    The checkpoint directory is a map from batch id to record; the outcome
    of processing a batch, which depends on the remote database, is a
    parameter. */
module Checkpoints {
  import opened Base

  /** What processing one batch does. */
  datatype Attempt<R> = Written(record: R) | NotWritten | Aborted

  /** The checkpoints after a run, the batch ids handed to the processor in
      order, and whether the run ended on an exception. */
  datatype RunResult<R> = RunResult(store: map<nat, R>, calls: seq<nat>, aborted: bool)

  /** The loop `for batch_id in range(next, n)` of one run. An existing
      checkpoint is never handed to the processor, and the batches are
      handed over in increasing order. */
  function RunFrom<R>(store: map<nat, R>, outcome: nat -> Attempt<R>, next: nat, n: nat): (r: RunResult<R>)
    ensures forall i :: 0 <= i < |r.calls| ==> next <= r.calls[i] < n && r.calls[i] !in store
    ensures forall i, j :: 0 <= i < j < |r.calls| ==> r.calls[i] < r.calls[j]
    decreases n - next
  {
    if next >= n then RunResult(store, [], false)
    else if next in store then RunFrom(store, outcome, next + 1, n)
    else
      match outcome(next)
      case Written(rec) =>
        var rest := RunFrom(store[next := rec], outcome, next + 1, n);
        RunResult(rest.store, [next] + rest.calls, rest.aborted)
      case NotWritten =>
        var rest := RunFrom(store, outcome, next + 1, n);
        RunResult(rest.store, [next] + rest.calls, rest.aborted)
      case Aborted =>
        RunResult(store, [next], true)
  }

  /** Existing checkpoints are kept as they are, and a new checkpoint is
      exactly the record its batch's processing wrote: a batch has a
      checkpoint after the run if and only if it had one before or the
      run processed it and the processing wrote one. */
  lemma {:induction false} RunStore<R>(store: map<nat, R>, outcome: nat -> Attempt<R>, next: nat, n: nat)
    ensures var r := RunFrom(store, outcome, next, n);
      && (forall k :: k in store ==> k in r.store && r.store[k] == store[k])
      && (forall k :: k in r.store && k !in store ==> k in r.calls && outcome(k) == Written(r.store[k]))
      && (forall k :: k in r.calls && outcome(k).Written? ==> k in r.store)
    decreases n - next
  {
    if next < n {
      if next in store {
        RunStore(store, outcome, next + 1, n);
      } else {
        match outcome(next)
        case Written(rec) =>
          RunStore(store[next := rec], outcome, next + 1, n);
        case NotWritten =>
          RunStore(store, outcome, next + 1, n);
        case Aborted =>
      }
    }
  }

  /** The calls of a run raise only at the end, and the run is marked
      aborted exactly when the last call raised. */
  predicate StopsOnRaise<R>(calls: seq<nat>, aborted: bool, outcome: nat -> Attempt<R>)
  {
    && (forall i :: 0 <= i < |calls| - 1 ==> !outcome(calls[i]).Aborted?)
    && (aborted <==> |calls| > 0 && outcome(calls[|calls| - 1]).Aborted?)
  }

  /** Processing a batch that did not raise in front of such a run keeps
      the property. */
  lemma PrependStops<R>(k: nat, calls: seq<nat>, aborted: bool, outcome: nat -> Attempt<R>)
    requires StopsOnRaise(calls, aborted, outcome) && !outcome(k).Aborted?
    ensures StopsOnRaise([k] + calls, aborted, outcome)
  {
    var c := [k] + calls;
    forall i | 0 <= i < |c| - 1
      ensures !outcome(c[i]).Aborted?
    {
      if i > 0 {
        assert c[i] == calls[i - 1];
      }
    }
  }

  /** A run ends early exactly when the last batch it processed raised. */
  lemma {:induction false} RunStopsOnRaise<R>(store: map<nat, R>, outcome: nat -> Attempt<R>, next: nat, n: nat)
    ensures var r := RunFrom(store, outcome, next, n);
      StopsOnRaise(r.calls, r.aborted, outcome)
    decreases n - next
  {
    if next < n && next in store {
      RunStopsOnRaise(store, outcome, next + 1, n);
    } else if next < n {
      match outcome(next)
      case Written(rec) =>
        RunStopsOnRaise(store[next := rec], outcome, next + 1, n);
        var rest := RunFrom(store[next := rec], outcome, next + 1, n);
        PrependStops(next, rest.calls, rest.aborted, outcome);
      case NotWritten =>
        RunStopsOnRaise(store, outcome, next + 1, n);
        var rest := RunFrom(store, outcome, next + 1, n);
        PrependStops(next, rest.calls, rest.aborted, outcome);
      case Aborted =>
    }
  }

  /** A run that did not raise handed every batch without a checkpoint to
      the processor. */
  lemma {:induction false} RunCoversMissing<R>(store: map<nat, R>, outcome: nat -> Attempt<R>, next: nat, n: nat)
    ensures var r := RunFrom(store, outcome, next, n);
      !r.aborted ==> forall k :: next <= k < n && k !in store ==> k in r.calls
    decreases n - next
  {
    if next < n && next !in store {
      var store' := if outcome(next).Written? then store[next := outcome(next).record] else store;
      if !outcome(next).Aborted? {
        RunCoversMissing(store', outcome, next + 1, n);
      }
    } else if next < n {
      RunCoversMissing(store, outcome, next + 1, n);
    }
  }

  /** One run of the script over batches `0 .. n - 1`. */
  function Run<R>(store: map<nat, R>, outcome: nat -> Attempt<R>, n: nat): RunResult<R>
  {
    RunFrom(store, outcome, 0, n)
  }

  /** A strictly increasing sequence holds every id at most once. */
  lemma {:induction false} IncreasingOnce(s: seq<nat>, k: nat)
    requires forall i, j :: 0 <= i < j < |s| ==> s[i] < s[j]
    ensures multiset(s)[k] == if k in s then 1 else 0
  {
    if |s| > 0 {
      assert s == [s[0]] + s[1..];
      IncreasingOnce(s[1..], k);
      if k == s[0] {
        assert k !in s[1..];
      }
    }
  }

  /** Two consecutive runs over the same batches, the second starting from
      the checkpoints the first left. A batch is processed by the second run
      only if the first did not write it; and when neither run raised, each
      batch that had no checkpoint at the start is processed once if the
      first run wrote it and twice otherwise. */
  lemma ResumeProcessesOnlyMissing<R>(store: map<nat, R>, first: nat -> Attempt<R>, second: nat -> Attempt<R>, n: nat, k: nat)
    ensures var r1 := Run(store, first, n);
      var r2 := Run(r1.store, second, n);
      && (k in r2.calls ==> k !in store && !(k in r1.calls && first(k).Written?))
      && (!r1.aborted && !r2.aborted && k < n && k !in store ==>
            multiset(r1.calls + r2.calls)[k] == if first(k).Written? then 1 else 2)
  {
    var r1 := Run(store, first, n);
    var r2 := Run(r1.store, second, n);
    RunStore(store, first, 0, n);
    RunStopsOnRaise(store, first, 0, n);
    RunCoversMissing(store, first, 0, n);
    RunStore(r1.store, second, 0, n);
    RunStopsOnRaise(r1.store, second, 0, n);
    RunCoversMissing(r1.store, second, 0, n);
    IncreasingOnce(r1.calls, k);
    IncreasingOnce(r2.calls, k);
    assert multiset(r1.calls + r2.calls) == multiset(r1.calls) + multiset(r2.calls);
  }
}

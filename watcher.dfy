/**
 * What the watcher's event loop does, as functions of the records it reads:
 * the per-record step, one buffer, and the `while (running)` loop over
 * successive reads.
 */
module Watcher {
  import opened Wrappers
  import opened Codecs
  import opened FileLayout
  import opened Inotify

  /** `WatcherState`: set once by the watcher, after it tried to add its watch. */
  datatype WatcherState = NotInitialized | Watching | Error

  /** The part of a parameter the loop changes: the cached value and the loop flag. */
  datatype Cell<T> = Cell(current: T, running: bool)

  /**
   * One record: a modification re-reads the file; otherwise a deletion of the
   * file stops the loop; any other record changes nothing.
   */
  function HandleEvent<T>(codec: Codec<T>, defaultValue: T, c: Cell<T>, d: Delivery): Cell<T>
  {
    if IsModify(d.event) then c.(current := ReadCurrentValue(codec, defaultValue, d.disk))
    else if IsDeleteSelf(d.event) then c.(running := false)
    else c
  }

  /** One buffer: its records handled in order. */
  function HandleBatch<T>(codec: Codec<T>, defaultValue: T, c: Cell<T>, batch: seq<Delivery>): Cell<T>
  {
    if batch == [] then c
    else HandleEvent(codec, defaultValue, HandleBatch(codec, defaultValue, c, batch[..|batch| - 1]), batch[|batch| - 1])
  }

  /**
   * Why the loop is no longer handling records: the file was deleted, a read
   * failed, the loop is waiting in `read` for more, or it never started
   * because the watch could not be added.
   */
  datatype Exit = Deleted | ReadError | Blocked | NeverStarted

  /** Where the loop ends: its cell, how many reads it used, and why it stopped. */
  datatype Final<T> = Final(cell: Cell<T>, consumed: nat, exit: Exit) {
    /** The same ending, seen from `n` reads earlier. */
    function After(n: nat): Final<T> {
      this.(consumed := consumed + n)
    }
  }

  /**
   * The `while (running)` loop over a finite prefix of the reads the watcher
   * will make.  A failed read leaves the loop; so does a buffer after which
   * `running` is false.
   */
  function Run<T>(codec: Codec<T>, defaultValue: T, c: Cell<T>, results: seq<ReadResult>): (f: Final<T>)
    ensures f.consumed <= |results|
    ensures f.exit != NeverStarted
    ensures f.exit == Deleted <==> !f.cell.running
    ensures f.exit == Blocked ==> f.consumed == |results|
    ensures f.exit == ReadError ==> f.consumed > 0 && results[f.consumed - 1] == Failed
    ensures f.exit == Deleted && c.running ==> f.consumed > 0 && results[f.consumed - 1].Filled?
    ensures forall k :: 0 <= k < f.consumed - 1 ==> results[k].Filled?
    decreases |results|
  {
    if !c.running then Final(c, 0, Deleted)
    else if results == [] then Final(c, 0, Blocked)
    else
      match results[0]
      case Failed => Final(c, 1, ReadError)
      case Filled(batch) =>
        Run(codec, defaultValue, HandleBatch(codec, defaultValue, c, batch), results[1..]).After(1)
  }

  /** One turn of the loop: a buffer read while running is handled, and the loop goes on from the next read. */
  lemma RunStep<T>(codec: Codec<T>, defaultValue: T, c: Cell<T>, results: seq<ReadResult>, n: nat)
    requires c.running && n < |results| && results[n].Filled?
    ensures Run(codec, defaultValue, c, results[n..])
         == Run(codec, defaultValue, HandleBatch(codec, defaultValue, c, results[n].batch), results[n + 1..]).After(1)
  {
    assert results[n..][1..] == results[n + 1..];
  }

  /** A record that deletes the file without also modifying it. */
  predicate StopsLoop(d: Delivery) {
    !IsModify(d.event) && IsDeleteSelf(d.event)
  }

  /**
   * After a buffer, `running` holds exactly when it held before and no record
   * in the buffer deleted the file: only a deletion clears it, and nothing sets
   * it again.
   */
  lemma {:induction false} RunningAfterBatch<T>(codec: Codec<T>, defaultValue: T, c: Cell<T>, batch: seq<Delivery>)
    ensures HandleBatch(codec, defaultValue, c, batch).running
        <==> c.running && forall m :: 0 <= m < |batch| ==> !StopsLoop(batch[m])
  {
    if batch != [] {
      var init := batch[..|batch| - 1];
      RunningAfterBatch(codec, defaultValue, c, init);
      assert forall m :: 0 <= m < |init| ==> init[m] == batch[m];
    }
  }

  /**
   * The value after a buffer is what the file held when the last
   * modification in it was handled; what came before does not matter.
   */
  lemma {:induction false} LastModifyWins<T>(codec: Codec<T>, defaultValue: T, c: Cell<T>, batch: seq<Delivery>, j: nat)
    requires j < |batch| && IsModify(batch[j].event)
    requires forall m :: j < m < |batch| ==> !IsModify(batch[m].event)
    ensures HandleBatch(codec, defaultValue, c, batch).current == ReadCurrentValue(codec, defaultValue, batch[j].disk)
  {
    if j < |batch| - 1 {
      var init := batch[..|batch| - 1];
      LastModifyWins(codec, defaultValue, c, init, j);
    }
  }

  /** A buffer without a modification leaves the value as it was. */
  lemma {:induction false} NoModifyKeepsValue<T>(codec: Codec<T>, defaultValue: T, c: Cell<T>, batch: seq<Delivery>)
    requires forall m :: 0 <= m < |batch| ==> !IsModify(batch[m].event)
    ensures HandleBatch(codec, defaultValue, c, batch).current == c.current
  {
    if batch != [] {
      NoModifyKeepsValue(codec, defaultValue, c, batch[..|batch| - 1]);
    }
  }

  /** A modification replaces the value regardless of the value it replaces. */
  lemma ModifyIgnoresPrevious<T>(codec: Codec<T>, defaultValue: T, x: T, y: T, running: bool, d: Delivery)
    requires IsModify(d.event)
    ensures HandleEvent(codec, defaultValue, Cell(x, running), d).current
         == HandleEvent(codec, defaultValue, Cell(y, running), d).current
         == ReadCurrentValue(codec, defaultValue, d.disk)
  {
  }

  /** A buffer that deletes the file ends the loop after that read; later reads are never made. */
  lemma DeleteEndsRun<T>(codec: Codec<T>, defaultValue: T, c: Cell<T>, batch: seq<Delivery>, j: nat, later: seq<ReadResult>)
    requires c.running && j < |batch| && StopsLoop(batch[j])
    ensures Run(codec, defaultValue, c, [Filled(batch)] + later)
         == Final(HandleBatch(codec, defaultValue, c, batch), 1, Deleted)
  {
    RunningAfterBatch(codec, defaultValue, c, batch);
    assert ([Filled(batch)] + later)[1..] == later;
  }

  /** A failed read ends the loop with the value unchanged; later reads are never made. */
  lemma ReadErrorEndsRun<T>(codec: Codec<T>, defaultValue: T, c: Cell<T>, later: seq<ReadResult>)
    requires c.running
    ensures Run(codec, defaultValue, c, [Failed] + later) == Final(c, 1, ReadError)
  {
  }

  /** A read loop that has handled everything so far is still running and waiting. */
  predicate Quiet(results: seq<ReadResult>) {
    forall k :: 0 <= k < |results| ==> results[k].Filled? && forall m :: 0 <= m < |results[k].batch| ==> !StopsLoop(results[k].batch[m])
  }

  /**
   * Last write wins: over any number of reads with no failure and no deletion,
   * if the last record read is a modification, the value is what the file
   * held when that record was handled, and the loop waits for more.
   */
  lemma {:induction false} LastWriteWins<T>(codec: Codec<T>, defaultValue: T, c: Cell<T>, results: seq<ReadResult>)
    requires c.running && results != [] && Quiet(results)
    requires var last := results[|results| - 1].batch; last != [] && IsModify(last[|last| - 1].event)
    ensures var last := results[|results| - 1].batch;
      Run(codec, defaultValue, c, results)
        == Final(Cell(ReadCurrentValue(codec, defaultValue, last[|last| - 1].disk), true), |results|, Blocked)
    decreases |results|
  {
    var batch := results[0].batch;
    var next := HandleBatch(codec, defaultValue, c, batch);
    RunningAfterBatch(codec, defaultValue, c, batch);
    if |results| == 1 {
      LastModifyWins(codec, defaultValue, c, batch, |batch| - 1);
      assert results[1..] == [];
    } else {
      assert Quiet(results[1..]) by {
        forall k | 0 <= k < |results| - 1
          ensures results[1..][k] == results[k + 1]
        {
        }
      }
      LastWriteWins(codec, defaultValue, next, results[1..]);
    }
  }
}

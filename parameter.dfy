/**
 * `painless::Parameter<T>`: a value backed by a file, kept up to date by a
 * watcher.  The constructor writes the file and waits until the watcher has
 * tried to add its watch; the watcher's loop then updates the cached value.
 * The two threads are modelled as one sequence of method calls: the
 * watcher's setup runs inside the constructor (whose wait guarantees it has
 * happened before the constructor returns), and its loop is `WatchLoop`.
 */
module Parameters {
  import opened Wrappers
  import opened Text
  import opened Printer
  import opened Codecs
  import opened FileLayout
  import opened Inotify
  import opened Watcher

  class Parameter<T> {
    const name: string
    const codec: Codec<T>
    const defaultValue: T
    /** Whether the constructor could create the backing file, and so started a watcher. */
    const watcherStarted: bool
    /** What the constructor left in the backing file, when it could open it. */
    const initialFile: Option<string>

    /** The cached value `value()` returns; only the watcher's loop changes it. */
    var current: T
    var state: WatcherState
    /** The watcher loop's flag; false until the loop starts. */
    var running: bool
    /** Whether the watcher's loop has returned, after a deletion or a failed read. */
    var ended: bool

    /**
     * `fileOpened` is whether the `std::ofstream` on the backing file opened;
     * `wd` is what `inotify_add_watch` returns to the watcher thread.
     */
    constructor (name: string, defaultValue: T, codec: Codec<T>, fileOpened: bool, wd: int)
      ensures this.name == name && this.defaultValue == defaultValue && this.codec == codec
      ensures current == defaultValue && !running && !ended
      ensures watcherStarted == fileOpened
      ensures initialFile == if fileOpened then Some(InitialFile(codec, name, defaultValue)) else None
      ensures watcherStarted ==> state != NotInitialized
      ensures state == if !fileOpened then NotInitialized else if wd < 0 then Error else Watching
    {
      this.name := name;
      this.codec := codec;
      this.defaultValue := defaultValue;
      current := defaultValue;
      state := NotInitialized;
      running := false;
      ended := false;
      watcherStarted := fileOpened;
      initialFile := if fileOpened then Some(InitialFile(codec, name, defaultValue)) else None;
      new;
      if fileOpened {
        ArmWatch(wd);
      }
    }

    /**
     * The watcher's setup: it reports whether `inotify_add_watch` succeeded.
     * The state leaves `NotInitialized` here and nowhere else.
     */
    method ArmWatch(wd: int)
      requires watcherStarted && state == NotInitialized
      modifies this`state
      ensures state == if wd < 0 then Error else Watching
    {
      if wd < 0 {
        state := Error;
      } else {
        state := Watching;
      }
    }

    /** `value()`: the cached value, read without touching the file. */
    method Value() returns (v: T)
      ensures v == current
    {
      v := current;
    }

    /**
     * One buffer of records, walked from offset 0 and stepping by
     * `EVENT_SIZE + len` until the offset reaches the number of bytes read.
     */
    method HandleBuffer(batch: seq<Delivery>)
      modifies this`current, this`running
      ensures Cell(current, running) == HandleBatch(codec, defaultValue, old(Cell(current, running)), batch)
    {
      ghost var before := Cell(current, running);
      var length := BufferLength(batch);
      var i := 0;
      ghost var k := 0;
      ThroughBuffer(batch, k);
      while i < length
        invariant 0 <= k <= |batch|
        invariant i == BufferLength(batch[..k])
        invariant i < length <==> k < |batch|
        invariant Cell(current, running) == HandleBatch(codec, defaultValue, before, batch[..k])
        decreases length - i
      {
        RecordBoundary(batch, k);
        var d := RecordAt(batch, i);
        if IsModify(d.event) {
          current := ReadCurrentValue(codec, defaultValue, d.disk);
        } else if IsDeleteSelf(d.event) {
          running := false;
        }
        assert batch[..k + 1] == batch[..k] + [d];
        BufferLengthAppend(batch[..k], d);
        i := i + EVENT_SIZE + d.event.len;
        k := k + 1;
        ThroughBuffer(batch, k);
      }
      assert batch[..k] == batch;
    }

    /**
     * The watcher's loop (it is never entered when the watch could not be
     * added).  Each iteration reads a buffer and walks it record by record,
     * stepping by `EVENT_SIZE + len`.  `results` are the reads the watcher
     * makes; when they run out while the loop is still running, the watcher
     * is waiting in `read`, and a later call goes on with further reads.
     * Once the loop has returned, the thread is gone and no call is made.
     */
    method WatchLoop(results: seq<ReadResult>) returns (consumed: nat, exit: Exit)
      requires !ended
      modifies this`current, this`running, this`ended
      ensures state != Watching ==> current == old(current) && running == old(running) && !ended
      ensures state != Watching ==> consumed == 0 && exit == NeverStarted
      ensures state == Watching ==>
        Final(Cell(current, running), consumed, exit) == Run(codec, defaultValue, Cell(old(current), true), results)
      ensures ended <==> exit == Deleted || exit == ReadError
    {
      if state != Watching {
        return 0, NeverStarted;
      }
      ghost var start := Cell(current, true);
      running := true;
      var n := 0;
      while running
        invariant 0 <= n <= |results|
        invariant state == Watching && !ended
        invariant Run(codec, defaultValue, start, results)
               == Run(codec, defaultValue, Cell(current, running), results[n..]).After(n)
        decreases |results| - n
      {
        if n == |results| {
          return n, Blocked;
        }
        var result := results[n];
        if result.Failed? {
          ended := true;
          return n + 1, ReadError;
        }
        var batch := result.batch;
        RunStep(codec, defaultValue, Cell(current, running), results, n);
        n := n + 1;
        HandleBuffer(batch);
      }
      ended := true;
      return n, Deleted;
    }
  }

  /** A parameter whose file is never written holds its default (any supported type). */
  method ReproducesDefault<T>(name: string, defaultValue: T, codec: Codec<T>, fileOpened: bool, wd: int) returns (v: T)
    ensures v == defaultValue
  {
    var p := new Parameter(name, defaultValue, codec, fileOpened, wd);
    v := p.Value();
  }

  /**
   * When the watch cannot be added, the loop is never entered and the
   * parameter keeps its default, whatever happens to the file.
   */
  method DegradedParameterKeepsDefault<T>(name: string, defaultValue: T, codec: Codec<T>, wd: int, results: seq<ReadResult>)
    returns (v: T)
    requires wd < 0
    ensures v == defaultValue
  {
    var p := new Parameter(name, defaultValue, codec, true, wd);
    var _, _ := p.WatchLoop(results);
    v := p.Value();
  }

  /** Writing a rendered `int` to the file makes the parameter take that value. */
  method ReadsUpdatedInt(name: string, defaultValue: int32, n: int32, wd: int) returns (v: int32)
    requires wd >= 0
    ensures v == n
  {
    var p := new Parameter(name, defaultValue, IntCodec(), true, wd);
    var write := Delivery(Event(IN_MODIFY, 0), Some(RenderInt(n) + "\n"));
    var _, _ := p.WatchLoop([Filled([write])]);
    v := p.Value();
    LastWriteWins(IntCodec(), defaultValue, Cell(defaultValue, true), [Filled([write])]);
    IntFileReadsBack(defaultValue, n, []);
    assert RenderInt(n) + "\n" + [] == RenderInt(n) + "\n";
  }

  /**
   * After a good value, a line that does not parse resets the parameter to
   * its default, not to the good value it held.
   */
  method ParseErrorRestoresDefault(name: string, defaultValue: int32, n: int32, garbage: string, wd: int)
    returns (before: int32, after: int32)
    requires wd >= 0
    requires var t := Parser.SkipWhitespace(FirstLine(garbage));
      t == [] || !(IsDigit(t[0]) || ((t[0] == '-' || t[0] == '+') && |t| > 1 && IsDigit(t[1])))
    ensures before == n && after == defaultValue
  {
    var p := new Parameter(name, defaultValue, IntCodec(), true, wd);
    var good := Delivery(Event(IN_MODIFY, 0), Some(RenderInt(n) + "\n"));
    var _, _ := p.WatchLoop([Filled([good])]);
    LastWriteWins(IntCodec(), defaultValue, Cell(defaultValue, true), [Filled([good])]);
    IntFileReadsBack(defaultValue, n, []);
    assert RenderInt(n) + "\n" + [] == RenderInt(n) + "\n";
    before := p.Value();
    var bad := Delivery(Event(IN_MODIFY, 0), Some(garbage));
    var _, _ := p.WatchLoop([Filled([bad])]);
    LastWriteWins(IntCodec(), defaultValue, Cell(n, true), [Filled([bad])]);
    IntGarbageReadsDefault(defaultValue, garbage);
    after := p.Value();
  }

  /**
   * Many quick writes of `int`s: however the modifications are grouped into
   * reads, once the last record handled is the last write, the value is the
   * last number written.
   */
  lemma RepeatedIntWritesLastWins(defaultValue: int32, c: Cell<int32>, results: seq<ReadResult>, n: int32)
    requires c.running && results != [] && Quiet(results)
    requires var last := results[|results| - 1].batch;
      last != [] && IsModify(last[|last| - 1].event) && last[|last| - 1].disk == Some(RenderInt(n) + "\n")
    ensures Run(IntCodec(), defaultValue, c, results).cell.current == n
    ensures Run(IntCodec(), defaultValue, c, results).exit == Blocked
  {
    LastWriteWins(IntCodec(), defaultValue, c, results);
    IntFileReadsBack(defaultValue, n, []);
    assert RenderInt(n) + "\n" + [] == RenderInt(n) + "\n";
  }
}

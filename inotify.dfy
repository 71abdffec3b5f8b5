/**
 * The inotify records the watcher reads: each is a fixed-size header
 * (`struct inotify_event`) followed by `len` bytes of name, packed one after
 * another in the buffer `read` fills.
 */
module Inotify {
  import opened Wrappers

  /** `sizeof(struct inotify_event)` on Linux: four 32-bit fields. */
  const EVENT_SIZE: nat := 16

  const IN_MODIFY: bv32 := 0x0000_0002
  const IN_DELETE_SELF: bv32 := 0x0000_0400

  /** The header fields the watcher looks at: the event mask and the length of the name after it. */
  datatype Event = Event(mask: bv32, len: nat)

  predicate IsModify(e: Event) {
    e.mask & IN_MODIFY != 0
  }

  predicate IsDeleteSelf(e: Event) {
    e.mask & IN_DELETE_SELF != 0
  }

  /**
   * A record together with the content the watcher finds in the backing file
   * when it handles that record (`None` when the file cannot be opened).
   */
  datatype Delivery = Delivery(event: Event, disk: Option<string>)

  /** One `read` of the inotify descriptor: an error (a negative length) or a buffer of records. */
  datatype ReadResult = Failed | Filled(batch: seq<Delivery>)

  /** The bytes one record takes in the buffer: `EVENT_SIZE + len`. */
  function RecordSize(d: Delivery): nat
  {
    EVENT_SIZE + d.event.len
  }

  /** The length `read` reports for a buffer of records. */
  function BufferLength(batch: seq<Delivery>): nat
  {
    if batch == [] then 0 else RecordSize(batch[0]) + BufferLength(batch[1..])
  }

  /** The record whose bytes hold position `offset` of the buffer. */
  function RecordAt(batch: seq<Delivery>, offset: nat): (d: Delivery)
    requires offset < BufferLength(batch)
    ensures d in batch
  {
    if offset < RecordSize(batch[0]) then batch[0]
    else RecordAt(batch[1..], offset - RecordSize(batch[0]))
  }

  /** Appending a record lengthens the buffer by exactly that record's size. */
  lemma {:induction false} BufferLengthAppend(batch: seq<Delivery>, d: Delivery)
    ensures BufferLength(batch + [d]) == BufferLength(batch) + RecordSize(d)
  {
    if batch != [] {
      assert (batch + [d])[1..] == batch[1..] + [d];
      BufferLengthAppend(batch[1..], d);
    }
  }

  /**
   * The k-th record starts at the sum of the sizes of the records before it,
   * that offset lies inside the buffer, and the header read there is the k-th
   * record's.  So stepping by `EVENT_SIZE + len` from 0 visits every record
   * once, in order.
   */
  lemma {:induction false} RecordBoundary(batch: seq<Delivery>, k: nat)
    requires k < |batch|
    ensures BufferLength(batch[..k]) < BufferLength(batch)
    ensures RecordAt(batch, BufferLength(batch[..k])) == batch[k]
  {
    if k > 0 {
      assert batch[..k][1..] == batch[1..][..k - 1];
      RecordBoundary(batch[1..], k - 1);
    }
  }

  /** The walk is inside the buffer exactly while records remain to be read. */
  lemma ThroughBuffer(batch: seq<Delivery>, k: nat)
    requires k <= |batch|
    ensures BufferLength(batch[..k]) < BufferLength(batch) <==> k < |batch|
  {
    if k < |batch| {
      RecordBoundary(batch, k);
    } else {
      assert batch[..k] == batch;
    }
  }
}

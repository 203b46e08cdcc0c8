/**
 The serializing work queue: a singly linked list with a tail pointer, drained in batches by one
 work item. The tail doubles as the busy mark, so while a batch is worked on it may point to an
 entry that is gone. Every method is one block under the lock, or one step outside it; threads
 interleave by calling them in any order their preconditions allow.
 */
module WorkQueue {

  class Entry {
    var next: Entry?

    constructor ()
      ensures next == null
    {
      next := null;
    }
  }

  /** The work item: idle, queued with a batch to take, or in the routine. */
  datatype Work = Idle | Scheduled | Processing

  /** The owner of the queue, from use through shutdown. */
  datatype Owner = Using | Waiting | ToDrop(waited: bool) | Done(waited: bool)

  /** The history of a queue: all entries inserted and handed to the routine, those queued, where the
      work item and the owner are, work items about to signal a shutdown or to drop their
      reference, and whether an insert found the work item idle after shutdown began. */
  datatype Book = Book(
    inserted: seq<Entry>, delivered: seq<Entry>, queued: seq<Entry>, work: Work, owner: Owner,
    signalling: nat, dropping: nat, signaled: bool, late: bool)

  /** Nothing is queued and no batch is in progress. */
  ghost predicate Quiet(b: Book) {
    b.work == Idle && b.queued == []
  }

  ghost predicate Accounted(b: Book, busy: bool, shutdownEvent: bool, refs: nat, frees: nat) {
    && (busy <==> b.work != Idle)
    && (b.work == Idle ==> b.queued == [])
    && (b.work == Scheduled ==> b.queued != [])
    && b.inserted == b.delivered + b.queued
    && refs == (if b.owner.Done? then 0 else 1) + (if b.work == Idle then 0 else 1) + b.signalling + b.dropping
    && frees == (if refs == 0 then 1 else 0)
    && (b.signalling > 0 || b.signaled || b.owner.Waiting? ==> shutdownEvent)
    && (shutdownEvent ==> b.owner.Waiting? || b.owner == ToDrop(true) || b.owner == Done(true))
    && (!b.late && b.signalling > 0 ==> b.owner.Waiting? && !b.signaled && b.signalling == 1)
    && (b.owner.Waiting? && b.work == Idle ==> b.signalling > 0 || b.signaled)
    && (!b.late && (b.signalling > 0 || b.signaled) ==> b.work == Idle)
    && (!b.late && (b.owner == ToDrop(true) || b.owner == Done(true)) ==> b.work == Idle)
  }

  ghost function Inserted(b: Book, entry: Entry): Book {
    b.(inserted := b.inserted + [entry], queued := b.queued + [entry],
       work := if b.work == Idle then Scheduled else b.work,
       late := b.late || (!b.owner.Using? && b.work == Idle))
  }

  lemma {:induction false} InsertedAccounted(
    b: Book, busy: bool, shutdownEvent: bool, refs: nat, frees: nat, entry: Entry)
    requires Accounted(b, busy, shutdownEvent, refs, frees) && refs > 0
    ensures Accounted(Inserted(b, entry), true, shutdownEvent, if busy then refs else refs + 1, frees)
  {
    assert b.inserted + [entry] == b.delivered + (b.queued + [entry]);
  }

  /** The entries of a list, in order. */
  ghost predicate Linked(head: Entry?, entries: seq<Entry>)
    reads entries
  {
    && (head == if entries == [] then null else entries[0])
    && (forall k :: 0 <= k < |entries| ==>
          entries[k].next == if k + 1 < |entries| then entries[k + 1] else null)
    && (forall a, b :: 0 <= a < b < |entries| ==> entries[a] != entries[b])
  }

  /** Follows the tail to hang an entry behind the last one. */
  method LinkLast(head: Entry, last: Entry, entry: Entry, ghost entries: seq<Entry>)
    requires Linked(head, entries) && entries != [] && last == entries[|entries| - 1]
    requires entry !in entries && entry.next == null
    modifies last
    ensures Linked(head, entries + [entry])
  {
    last.next := entry;
  }

  class WorkQueue {
    var head: Entry?
    var tail: Entry?
    var shutdownEvent: bool
    var refs: nat
    var frees: nat
    ghost var book: Book

    ghost predicate Valid()
      reads this, book.queued
    {
      && Linked(head, book.queued)
      && (book.queued != [] ==> tail == book.queued[|book.queued| - 1])
      && Accounted(book, tail != null, shutdownEvent, refs, frees)
    }

    constructor ()
      ensures Valid() && book == Book([], [], [], Idle, Using, 0, 0, false, false) && !shutdownEvent
    {
      head, tail, shutdownEvent, refs, frees := null, null, false, 1, 0;
      book := Book([], [], [], Idle, Using, 0, 0, false, false);
    }

    /** Inserts an entry, by a client or by the routine itself. The tail is followed only while its
        entry is on the list; the entry after a flush starts a new list. */
    method Insert(entry: Entry)
      requires Valid() && refs > 0 && entry !in book.queued
      modifies `head, `tail, `refs, `book, entry, tail
      ensures Valid() && book == Inserted(old(book), entry)
    {
      InsertedAccounted(book, tail != null, shutdownEvent, refs, frees, entry);
      entry.next := null;
      if tail == null {
        head, tail := entry, entry;
        refs := refs + 1;
      } else if head == null {
        head, tail := entry, entry;
      } else {
        assert tail in book.queued;
        LinkLast(head, tail, entry, book.queued);
        tail := entry;
      }
      book := Inserted(book, entry);
    }

    /** The work item captures the whole list and leaves the lock for the routine. */
    method TakeBatch() returns (batch: Entry?, ghost entries: seq<Entry>)
      requires Valid() && book.work == Scheduled
      modifies `head, `book
      ensures Valid() && batch != null && entries == old(book).queued && Linked(batch, entries)
      ensures book == old(book).(delivered := old(book).delivered + entries, queued := [], work := Processing)
    {
      batch, entries := head, book.queued;
      head := null;
      assert book.delivered + entries + [] == book.delivered + entries;
      book := book.(delivered := book.delivered + entries, queued := [], work := Processing);
    }

    /** Back from the routine: another batch, or the end of the work item. */
    method LookForMore() returns (more: bool)
      requires Valid() && book.work == Processing
      modifies `tail, `book
      ensures Valid() && more == (old(book).queued != [])
      ensures book == if more then old(book).(work := Scheduled)
                      else if shutdownEvent then old(book).(work := Idle, signalling := old(book).signalling + 1)
                      else old(book).(work := Idle, dropping := old(book).dropping + 1)
    {
      more := head != null;
      if more {
        book := book.(work := Scheduled);
        return;
      }
      tail := null;
      if shutdownEvent {
        book := book.(work := Idle, signalling := book.signalling + 1);
      } else {
        book := book.(work := Idle, dropping := book.dropping + 1);
      }
    }

    /** A work item that saw the shutdown event sets it, outside the lock. The event lives on the stack of the
        waiting shutdown: unless an insert has found the work item idle since shutdown began, that shutdown
        is still waiting, and is signaled this once. */
    method SetShutdownEvent()
      requires Valid() && book.signalling > 0
      modifies `book
      ensures Valid()
      ensures book == old(book).(signalling := old(book).signalling - 1, dropping := old(book).dropping + 1,
              signaled := true)
      ensures !book.late ==> book.owner.Waiting? && !old(book).signaled && book.signalling == 0
    {
      book := book.(signalling := book.signalling - 1, dropping := book.dropping + 1, signaled := true);
    }

    /** Drops a reference; the last one frees the queue. */
    method DropReference()
      requires refs > 0
      modifies `refs, `frees
      ensures refs == old(refs) - 1 && frees == old(frees) + if refs == 0 then 1 else 0
    {
      refs := refs - 1;
      if refs == 0 {
        frees := frees + 1;
      }
    }

    /** A work item ends. If that frees the queue, nothing is queued or in progress. */
    method EndWorkItem()
      requires Valid() && book.dropping > 0
      modifies `refs, `frees, `book
      ensures Valid() && book == old(book).(dropping := old(book).dropping - 1)
      ensures frees == 1 ==> Quiet(book) && book.inserted == book.delivered && book.owner.Done?
    {
      DropReference();
      book := book.(dropping := book.dropping - 1);
    }

    /** Shutdown begins; a waiting one leaves its event if the work item is at work. */
    method BeginShutdown(wait: bool)
      requires Valid() && book.owner.Using?
      modifies `book, `shutdownEvent
      ensures Valid() && book == old(book).(owner := if wait && tail != null then Waiting else ToDrop(wait))
      ensures shutdownEvent == (wait && tail != null)
    {
      if wait && tail != null {
        shutdownEvent := true;
        book := book.(owner := Waiting);
      } else {
        book := book.(owner := ToDrop(wait));
      }
    }

    /** The wait is over. Unless an insert has found the work item idle since shutdown began, everything
        inserted has been delivered and nothing is in progress; inserts that found it busy were drained
        before the signal. */
    method WaitOver()
      requires Valid() && book.owner.Waiting? && book.signaled
      modifies `book
      ensures Valid() && book == old(book).(owner := ToDrop(true))
      ensures !book.late ==> Quiet(book) && book.inserted == book.delivered
    {
      book := book.(owner := ToDrop(true));
    }

    /** The owner's reference goes, and shutdown returns. */
    method EndShutdown()
      requires Valid() && book.owner.ToDrop?
      modifies `refs, `frees, `book
      ensures Valid() && book == old(book).(owner := Done(old(book).owner.waited))
      ensures frees == 1 ==> Quiet(book) && book.inserted == book.delivered
      ensures book.owner.waited && !book.late ==> Quiet(book) && book.inserted == book.delivered
    {
      DropReference();
      book := book.(owner := Done(book.owner.waited));
    }
  }

  /** A queue whose work item has just come to its end with a shutdown waiting. */
  method BusyShutdown() returns (q: WorkQueue)
    ensures fresh(q) && q.Valid() && q.book.owner == Waiting && Quiet(q.book) && q.book.signalling == 1
            && !q.book.signaled
    ensures |q.book.inserted| == 1 && |q.book.delivered| == 1 && q.tail == null
  {
    q := new WorkQueue();
    var entry := new Entry();
    q.Insert(entry);
    q.BeginShutdown(true);
    var batch;
    ghost var entries;
    batch, entries := q.TakeBatch();
    var more := q.LookForMore();
  }

  /** The guard is exact: from any queue whose waiting shutdown has not returned, an insert that finds
      the work item idle can still be queued when it returns. */
  method IdleInsertTells(q: WorkQueue, entry: Entry, waiting: bool, signaled: bool)
    requires q.Valid() && q.book.owner == (if waiting then Waiting else ToDrop(true)) && q.book.work == Idle
    requires signaled == q.book.signaled
    modifies q, entry
    ensures q.Valid() && q.book.owner == Done(true) && q.book.late && q.shutdownEvent == old(q.shutdownEvent)
    ensures !Quiet(q.book) && q.book.queued == [entry] && q.book.work == Scheduled
    ensures q.book.inserted == old(q.book).inserted + [entry] && q.book.delivered == old(q.book).delivered
  {
    q.Insert(entry);
    if waiting {
      if !signaled {
        q.SetShutdownEvent();
      }
      q.WaitOver();
    }
    q.EndShutdown();
  }

  /** And if the shutdown had waited, the work item that takes the entry will set its event again, after it has
      returned: the queue's pointer to the event is never cleared. */
  method StaleSignal(q: WorkQueue, entry: Entry, waiting: bool, signaled: bool)
    requires q.Valid() && q.book.owner == (if waiting then Waiting else ToDrop(true)) && q.book.work == Idle
    requires q.shutdownEvent && signaled == q.book.signaled
    modifies q, entry
    ensures q.Valid() && q.book.owner == Done(true) && q.book.late && q.book.signalling > 0
  {
    IdleInsertTells(q, entry, waiting, signaled);
    var batch;
    ghost var entries;
    batch, entries := q.TakeBatch();
    var more := q.LookForMore();
  }

  /** A run from the start to that point. */
  method StaleSignalRun() returns (q: WorkQueue)
    ensures fresh(q) && q.Valid() && q.book.owner == Done(true) && q.book.signalling > 0
  {
    q := BusyShutdown();
    var entry := new Entry();
    StaleSignal(q, entry, true, false);
  }

  /** One such run from the start. */
  method LateInsert() returns (q: WorkQueue)
    ensures fresh(q) && q.Valid() && q.book.owner == Done(true) && q.book.late
    ensures !Quiet(q.book) && |q.book.inserted| == 2 && |q.book.delivered| == 1
  {
    q := BusyShutdown();
    var entry := new Entry();
    IdleInsertTells(q, entry, true, false);
  }
}

/**
 * LocalQueue.cs: the spool of serialized events that could not be published.
 * The queue lives in memory; the file LocalQueue.json is modelled as the field
 * queueFile (None: the file does not exist). Whether a file operation succeeds
 * is an input of the method that performs it.
 */
module Spool {
  import opened Wrappers

  class LocalQueue {
    /** LocalTempQueue, front first. */
    var localTempQueue: seq<string>
    /** The public Count property; the source keeps it by hand, apart from the queue. */
    var count: int
    /** The contents of LocalQueue.json, if the file exists. */
    var queueFile: Option<seq<string>>

    /** Count agrees with the queue. Every operation but Dequeue restores this. */
    ghost predicate Synced()
      reads this
    {
      count == |localTempQueue|
    }

    /** new LocalQueue(), next to whatever spool file is on disk. */
    constructor (disk: Option<seq<string>>)
      ensures localTempQueue == [] && count == 0 && queueFile == disk
      ensures Synced()
    {
      localTempQueue := [];
      count := 0;
      queueFile := disk;
    }

    /** Empties the queue in memory; the file is left as it is. */
    method Clear()
      modifies this
      ensures localTempQueue == [] && count == 0
      ensures queueFile == old(queueFile)
      ensures Synced()
    {
      localTempQueue := [];
      count := 0;
    }

    /** Appends a message at the back. */
    method Enqueue(message: string)
      modifies this
      ensures localTempQueue == old(localTempQueue) + [message]
      ensures count == |localTempQueue| == old(|localTempQueue|) + 1
      ensures queueFile == old(queueFile)
    {
      localTempQueue := localTempQueue + [message];
      count := |localTempQueue|;
    }

    /**
     * Removes and returns the front message. Count is taken BEFORE the
     * removal, so afterwards it is one more than the queue length. On an empty
     * queue Queue.Dequeue throws (None here), after Count has been set to 0.
     */
    method Dequeue() returns (front: Option<string>)
      modifies this
      ensures count == old(|localTempQueue|)
      ensures queueFile == old(queueFile)
      ensures old(localTempQueue) == [] ==> front == None && localTempQueue == []
      ensures old(localTempQueue) != [] ==>
        front == Some(old(localTempQueue)[0]) && localTempQueue == old(localTempQueue)[1..]
      ensures old(localTempQueue) != [] ==> count == |localTempQueue| + 1
    {
      count := |localTempQueue|;
      if localTempQueue == [] {
        return None;
      }
      front := Some(localTempQueue[0]);
      localTempQueue := localTempQueue[1..];
    }

    /** Whether the spool file exists. */
    method QueueFileExists() returns (present: bool)
      ensures present <==> queueFile.Some?
    {
      if queueFile.Some? {
        return true;
      } else {
        return false;
      }
    }

    /**
     * Writes the whole queue to the file, overwriting it, when Count > 0.
     * writeOk says whether the write succeeds; a failed write returns false.
     */
    method SaveQueue(writeOk: bool) returns (saved: bool)
      modifies this`queueFile
      ensures saved <==> count > 0 && writeOk
      ensures saved ==> queueFile == Some(localTempQueue)
      ensures !saved ==> queueFile == old(queueFile)
      ensures localTempQueue == old(localTempQueue) && count == old(count)
    {
      if count > 0 {
        if writeOk {
          queueFile := Some(localTempQueue);
          return true;
        } else {
          return false;
        }
      } else {
        return false;
      }
    }

    /**
     * Replaces the queue with the file's contents and deletes the file, when
     * Count == 0 and the file exists. readOk says whether reading and
     * deserializing succeed; a failure changes nothing and returns false.
     */
    method LoadQueue(readOk: bool) returns (loaded: bool)
      modifies this
      ensures loaded <==> old(count) == 0 && old(queueFile).Some? && readOk
      ensures loaded ==> localTempQueue == old(queueFile).value && queueFile == None && Synced()
      ensures !loaded ==> localTempQueue == old(localTempQueue) && count == old(count) && queueFile == old(queueFile)
    {
      if count == 0 {
        if queueFile.Some? {
          if !readOk {
            return false;
          }
          localTempQueue := queueFile.value;
          queueFile := None;
          count := |localTempQueue|;
          return true;
        } else {
          return false;
        }
      } else {
        return false;
      }
    }
  }

  /** Save, Clear, then Load gives back exactly the saved queue and leaves no file. */
  method SaveClearLoad(spool: LocalQueue) returns (saved: bool, loaded: bool)
    requires spool.count > 0
    modifies spool
    ensures saved && loaded
    ensures spool.localTempQueue == old(spool.localTempQueue)
    ensures spool.queueFile == None && spool.Synced()
  {
    saved := spool.SaveQueue(true);
    spool.Clear();
    loaded := spool.LoadQueue(true);
  }
}

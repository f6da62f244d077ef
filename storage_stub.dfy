/**
 * The object queues of the storage stub's connection state
 * (src/lib/transport/socket/storagestub/sstub_api.c).  A connection keeps two
 * rings of queued objects: one for objects that passed the whole filter
 * chain ("complete") and one for objects only partly processed ("partial").
 * The connection mutex is not modelled; the release callback is modelled as
 * appending the object to `released`.
 */
module StorageStub {
  import opened Wrappers
  import opened Ring

  /** A handle on a search object (obj_data_t *). */
  type ObjHandle = int

  /** obj_info_t: a queued object and the search version it belongs to. */
  datatype ObjInfo = ObjInfo(obj: ObjHandle, verNum: int)

  /** The bits of cstate->flags, one name per bit. */
  datatype ConnFlag = ObjData | OtherFlag(bit: nat)

  /** The objects carried by a sequence of queue entries, in order. */
  function Objects(infos: seq<ObjInfo>): (objs: seq<ObjHandle>)
    ensures |objs| == |infos|
  {
    if infos == [] then [] else [infos[0].obj] + Objects(infos[1..])
  }

  class ConnState {
    var flags: set<ConnFlag>
    const completeRing: RingData<ObjInfo>
    const partialRing: RingData<ObjInfo>
    /** The objects handed to release_obj_cb so far, in call order. */
    var released: seq<ObjHandle>

    ghost predicate Valid()
      reads this, completeRing, partialRing, completeRing.data, partialRing.data
    {
      completeRing.Valid() && partialRing.Valid() &&
      completeRing != partialRing && completeRing.data != partialRing.data
    }

    ghost function CompleteItems(): seq<ObjInfo>
      reads this, completeRing
    {
      completeRing.Contents
    }

    ghost function PartialItems(): seq<ObjInfo>
      reads this, partialRing
    {
      partialRing.Contents
    }

    constructor (completeSlots: nat, partialSlots: nat)
      ensures Valid() && fresh(completeRing) && fresh(partialRing)
      ensures fresh(completeRing.data) && fresh(partialRing.data)
      ensures flags == {} && released == []
      ensures CompleteItems() == [] && PartialItems() == []
    {
      flags := {};
      completeRing := new RingData(completeSlots);
      partialRing := new RingData(partialSlots);
      released := [];
    }

    /**
     * sstub_send_obj: marks the connection as carrying object data, then
     * queues the object on the complete or the partial ring.  Returns the
     * ring's error (1) when that ring is full, otherwise 0.
     */
    method SendObj(obj: ObjHandle, verNo: int, complete: bool) returns (err: int)
      requires Valid()
      modifies this`flags, completeRing`head, completeRing`Contents, completeRing.data
      modifies partialRing`head, partialRing`Contents, partialRing.data
      ensures Valid()
      ensures flags == old(flags) + {ObjData}
      ensures released == old(released)
      ensures complete ==> PartialItems() == old(PartialItems())
      ensures !complete ==> CompleteItems() == old(CompleteItems())
      ensures complete ==> err == (if |old(CompleteItems())| == Capacity(completeRing.size) then 1 else 0)
      ensures !complete ==> err == (if |old(PartialItems())| == Capacity(partialRing.size) then 1 else 0)
      ensures complete && err == 0 ==> CompleteItems() == old(CompleteItems()) + [ObjInfo(obj, verNo)]
      ensures !complete && err == 0 ==> PartialItems() == old(PartialItems()) + [ObjInfo(obj, verNo)]
      ensures err != 0 ==> CompleteItems() == old(CompleteItems()) && PartialItems() == old(PartialItems())
    {
      var oi := ObjInfo(obj, verNo);
      flags := flags + {ObjData};
      if complete {
        err := completeRing.Enqueue(oi);
      } else {
        err := partialRing.Enqueue(oi);
      }
      if err != 0 {
        return err;
      }
      return 0;
    }

    /**
     * sstub_get_partial: takes the oldest partial object.  `cur` is the
     * caller's `*obj`: on an empty partial ring the result is 1 and `obj`
     * is `cur` unchanged.
     */
    method GetPartial(cur: ObjHandle) returns (rc: int, obj: ObjHandle)
      requires Valid()
      modifies partialRing`tail, partialRing`Contents
      ensures Valid()
      ensures CompleteItems() == old(CompleteItems())
      ensures old(PartialItems()) == [] ==> rc == 1 && obj == cur && PartialItems() == []
      ensures old(PartialItems()) != [] ==> rc == 0 && obj == old(PartialItems())[0].obj
      ensures old(PartialItems()) != [] ==> PartialItems() == old(PartialItems())[1..]
    {
      var oi := partialRing.Dequeue();
      if oi.None? {
        return 1, cur;
      }
      return 0, oi.value.obj;
    }

    /**
     * sstub_flush_objs: drains the complete ring, then the partial ring,
     * releasing every queued object exactly once in queue order; both rings
     * end empty and the result is 0.
     */
    method FlushObjs(verNo: int) returns (rc: int)
      requires Valid()
      modifies this`released, completeRing`tail, completeRing`Contents, partialRing`tail, partialRing`Contents
      ensures Valid()
      ensures rc == 0
      ensures CompleteItems() == [] && PartialItems() == []
      ensures released == old(released) + Objects(old(CompleteItems())) + Objects(old(PartialItems()))
    {
      released := ReleaseAll(completeRing, released);
      released := ReleaseAll(partialRing, released);
      return 0;
    }
  }

  /**
   * One of the two `while (1)` loops of sstub_flush_objs: dequeue and
   * release until the ring is empty.  `released` is the release log before
   * the loop; the result is the log after it.
   */
  method ReleaseAll(ring: RingData<ObjInfo>, released: seq<ObjHandle>) returns (log: seq<ObjHandle>)
    requires ring.Valid()
    modifies ring`tail, ring`Contents
    ensures ring.Valid() && ring.head == old(ring.head)
    ensures ring.Contents == []
    ensures log == released + Objects(old(ring.Contents))
  {
    log := released;
    while true
      invariant ring.Valid() && ring.head == old(ring.head)
      invariant log + Objects(ring.Contents) == released + Objects(old(ring.Contents))
      decreases |ring.Contents|
    {
      ghost var before := ring.Contents;
      var oi := ring.Dequeue();
      if oi.None? {
        return;
      }
      assert Objects(before) == [oi.value.obj] + Objects(ring.Contents);
      log := log + [oi.value.obj];
    }
  }
}

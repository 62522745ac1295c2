/**
 The hand-over functions over the workers' shared structures, updated in place.
 The spin loops become preconditions: what they wait for is the business of
 module TripleBuffer, whose steps these functions are made of.
 */
module MegaBatch {
  import opened BatchSpec

  class WorkerBatch {
    var bufs: seq<Buf>
    var receiverBufId: int
    var gpuBufId: int
    var senderBufId: int
    var available: seq<int>
    var delay: int

    ghost predicate Valid()
      reads this
    {
      |available| == 2 && |bufs| == 3
    }

    function Value(): (b: Batch)
      requires |available| == 2
      reads this
    {
      Batch(bufs, receiverBufId, gpuBufId, senderBufId, available[0], available[1], delay)
    }

    /** The hand-over part of mega_receiver_batch_init. */
    constructor ()
      ensures Valid() && Value() == InitBatch()
    {
      bufs := [Buf([]), Buf([]), Buf([])];
      senderBufId, gpuBufId, delay, receiverBufId := -1, -1, -1, 0;
      available := [1, 2];
    }

    method GetAvailableBufId() returns (id: int)
      requires Valid()
      modifies this`available
      ensures Valid() && id == old(available[0]) && available == [old(available[1]), NONE]
    {
      id := available[0];
      available := available[0 := available[1]];
      available := available[1 := NONE];
    }

    /** mega_sender_refresh_buffer. */
    method RefreshBuffer()
      requires Valid() && 0 <= senderBufId < 3
      modifies this`bufs
      ensures Valid() && Value() == Refresh(old(Value()))
    {
      if delay == 0 {
        bufs := bufs[senderBufId := Buf([])];
      }
    }

    /** mega_sender_give_available_buffer: refresh, push, and only then forget the id. */
    method GiveAvailableBuffer()
      requires Valid() && 0 <= senderBufId < 3 && !PushFails(Value())
      modifies this
      ensures Valid() && Value() == Reset(Push(Refresh(old(Value()))))
    {
      RefreshBuffer();
      if available[0] == NONE {
        available := available[0 := senderBufId];
      } else if available[1] == NONE {
        available := available[1 := senderBufId];
      } else {
        assert false; // "Three buffers available"
      }
      senderBufId := NONE;
    }
  }

  ghost predicate Distinct(batchSet: seq<WorkerBatch>)
  {
    forall i, j | 0 <= i < j < |batchSet| :: batchSet[i] != batchSet[j]
  }

  /** mega_gpu_get_batch: takes every worker's buffer and returns the last one's id. */
  method GetBatch(batchSet: seq<WorkerBatch>) returns (id: int)
    requires |batchSet| > 0 && Distinct(batchSet)
    requires forall i | 0 <= i < |batchSet| :: batchSet[i].Valid() && batchSet[i].gpuBufId == NONE
    modifies batchSet
    ensures forall i | 0 <= i < |batchSet| ::
              old(batchSet[i].Valid()) && batchSet[i].Valid() && batchSet[i].Value() == Take(old(batchSet[i].Value()))
    ensures id == old(batchSet[|batchSet| - 1].receiverBufId)
  {
    for i := 0 to |batchSet|
      invariant forall k | 0 <= k < |batchSet| :: batchSet[k].Valid()
      invariant forall k | 0 <= k < i :: batchSet[k].Value() == Take(old(batchSet[k].Value()))
      invariant forall k | i <= k < |batchSet| :: batchSet[k].Value() == old(batchSet[k].Value())
    {
      var batch := batchSet[i];
      var availableBufId := batch.GetAvailableBufId();
      batch.gpuBufId := batch.receiverBufId;
      batch.receiverBufId := availableBufId;
    }
    id := batchSet[|batchSet| - 1].gpuBufId;
    assert batchSet[|batchSet| - 1].Value() == Take(old(batchSet[|batchSet| - 1].Value()));
  }

  /** mega_gpu_give_to_sender, all senders having finished their last batch. */
  method GiveToSender(batchSet: seq<WorkerBatch>, schedInsDel: nat, schedInsDelMax: nat)
    requires Distinct(batchSet)
    requires forall i | 0 <= i < |batchSet| :: batchSet[i].Valid() && batchSet[i].senderBufId == NONE
    modifies batchSet
    ensures forall i | 0 <= i < |batchSet| ::
              old(batchSet[i].Valid()) && batchSet[i].Valid()
                  && batchSet[i].Value() == Give(old(batchSet[i].Value()), schedInsDel == schedInsDelMax)
  {
    for i := 0 to |batchSet|
      invariant forall k | 0 <= k < |batchSet| :: batchSet[k].Valid()
      invariant forall k | 0 <= k < i ::
                  batchSet[k].Value() == Give(old(batchSet[k].Value()), schedInsDel == schedInsDelMax)
      invariant forall k | i <= k < |batchSet| :: batchSet[k].Value() == old(batchSet[k].Value())
    {
      var batch := batchSet[i];
      if schedInsDel == schedInsDelMax {
        batch.delay := 0;
      } else {
        batch.delay := 1;
      }
      batch.senderBufId := batch.gpuBufId;
      batch.gpuBufId := NONE;
    }
  }
}

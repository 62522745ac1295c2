/**
 The three buffers of one worker and the shared variables through which the
 receiver, the scheduler and the sender pass them around.  -1 means "none".
 */
module BatchSpec {

  const NONE: int := -1

  datatype Job = InsertJob(id: nat) | DeleteJob(id: nat)

  /** The insert and delete jobs collected in one buffer, in the order of their arrival. */
  datatype Buf = Buf(jobs: seq<Job>)

  /** The inserts, or the deletes, among these jobs. */
  function OfKind(jobs: seq<Job>, inserts: bool): (r: multiset<Job>)
    ensures forall j :: r[j] == if j.InsertJob? == inserts then multiset(jobs)[j] else 0
  {
    if jobs == [] then multiset{}
    else
      var n := |jobs| - 1;
      assert jobs == jobs[..n] + [jobs[n]];
      OfKind(jobs[..n], inserts) + if jobs[n].InsertJob? == inserts then multiset{jobs[n]} else multiset{}
  }

  datatype Batch = Batch(
    bufs: seq<Buf>,
    receiverBufId: int,
    gpuBufId: int,
    senderBufId: int,
    available0: int,
    available1: int,
    delay: int)

  predicate BatchOk(b: Batch)
  {
    && |b.bufs| == 3
    && 0 <= b.receiverBufId < 3
    && NONE <= b.gpuBufId < 3
    && NONE <= b.senderBufId < 3
    && NONE <= b.available0 < 3
    && NONE <= b.available1 < 3
  }

  /** The initial hand: #0 receives, #1 and #2 are available. */
  function InitBatch(): (b: Batch)
  {
    Batch([Buf([]), Buf([]), Buf([])], 0, NONE, NONE, 1, 2, -1)
  }

  /** The scheduler takes what was received and passes the receiver the oldest available buffer. */
  function Take(b: Batch): (b': Batch)
  {
    b.(gpuBufId := b.receiverBufId,
       receiverBufId := b.available0,
       available0 := b.available1,
       available1 := NONE)
  }

  /** The scheduler hands the processed buffer to the sender. */
  function Give(b: Batch, executed: bool): (b': Batch)
  {
    b.(delay := if executed then 0 else 1,
       senderBufId := b.gpuBufId,
       gpuBufId := NONE)
  }

  /** The sender empties the buffer, unless its jobs are still to be executed. */
  function Refresh(b: Batch): (b': Batch)
    requires 0 <= b.senderBufId < |b.bufs|
  {
    if b.delay == 0 then b.(bufs := b.bufs[b.senderBufId := Buf([])]) else b
  }

  /** "Three buffers available": the branch the source asserts away. */
  predicate PushFails(b: Batch)
  {
    b.available0 != NONE && b.available1 != NONE
  }

  /** The sender makes the buffer available, keeping its id for the moment. */
  function Push(b: Batch): (b': Batch)
  {
    if b.available0 == NONE then b.(available0 := b.senderBufId)
    else if b.available1 == NONE then b.(available1 := b.senderBufId)
    else b
  }

  function Reset(b: Batch): (b': Batch)
  {
    b.(senderBufId := NONE)
  }

  /** The receiver adds a job to the buffer it is filling. */
  function Receive(b: Batch, job: Job): (b': Batch)
    requires 0 <= b.receiverBufId < |b.bufs|
  {
    b.(bufs := b.bufs[b.receiverBufId := Buf(b.bufs[b.receiverBufId].jobs + [job])])
  }
}

/**
 The plain response loop of the sender over one buffer: three nested loops that
 consume the jobs in place and fill one frame after the other.
 */
module ResponseLoop {
  import opened Wire
  import opened JobList
  import opened ReplySpec
  import opened GetPath
  import CuckooSpec

  /** All jobs not yet begun have something to ask. */
  ghost predicate NonEmpty(jobs: seq<Job>)
  {
    forall k | 0 <= k < |jobs| :: jobs[k].num > 0
  }

  ghost predicate Replies(replies: seq<Reply>, out: seq<nat>, items: nat -> Item)
  {
    && (forall l: nat :: |items(l).value| < 0x1_0000_0000)
    && |out| == 2 * |replies|
    && forall k | 0 <= k < |replies| :: replies[k] == ReplyTo(out, k, items)
  }

  /** Answer one request of the job in hand. */
  method Consume(jobs: array<Job>, jobMark: nat, total: nat, ghost k: nat, ghost asked: seq<Address>)
    requires jobMark < total <= jobs.Length && jobs[jobMark].num > 0
    requires Stands(jobs[jobMark..total], k, asked)
    modifies jobs
    ensures Stands(jobs[jobMark..total], k + 1, asked)
    ensures jobs[jobMark].client == old(jobs[jobMark].client)
    ensures jobs[..jobMark] == old(jobs[..jobMark]) && jobs[jobMark + 1..] == old(jobs[jobMark + 1..])
    ensures jobs[jobMark + 1..total] == old(jobs[jobMark + 1..total])
  {
    ghost var before := jobs[jobMark..total];
    var j := jobs[jobMark];
    jobs[jobMark] := Job(j.client, j.num - 1, j.index + 1);
    assert jobs[jobMark..total][1..] == before[1..];
  }

  /** Whether the frame has room for the reply, and what is written then. */
  method Answer(out: seq<nat>, index: nat, items: nat -> Item, body: seq<Byte>)
    returns (exceeds: bool, body': seq<Byte>, hit: bool)
    requires 2 * index + 1 < |out|
    requires forall l: nat :: |items(l).value| < 0x1_0000_0000
    ensures exceeds <==> HEADER_LEN + |body| + ReplyTo(out, index, items).need > FRAME_LEN
    ensures body' == if exceeds then body else body + ReplyTo(out, index, items).bytes
    ensures hit <==> !exceeds && ReplyTo(out, index, items).hit
  {
    var loc := out[2 * index];
    if loc == 0 {
      loc := out[2 * index + 1];
    }
    if loc != 0 {
      var it := items(loc);
      if HEADER_LEN + |body| + |it.key| + |it.value| + 6 > FRAME_LEN {
        return true, body, false;
      }
      return false, body + Found(it).bytes, true;
    }
    if HEADER_LEN + |body| + 1 > FRAME_LEN {
      return true, body, false;
    }
    return false, body + [PROTOCOL_GET_NOT_FOUND], false;
  }

  /**
   The innermost loop: one frame for the client of the job in hand, which stays empty if
   its first reply is too large.
   */
  method FillFrame(jobs: array<Job>, jobMark0: nat, total: nat, out: seq<nat>, items: nat -> Item,
                   ghost k0: nat, ghost asked: seq<Address>, ghost replies: seq<Reply>)
    returns (jobMark: nat, packet: Packet, hits: nat, misses: nat, ghost k: nat)
    requires jobMark0 < total <= jobs.Length
    requires |asked| == |replies| && Replies(replies, out, items)
    requires Stands(jobs[jobMark0..total], k0, asked) && NonEmpty(jobs[jobMark0..total])
    modifies jobs
    ensures jobMark0 <= jobMark <= total && k0 <= k <= |asked| && k0 < |asked|
    ensures k == NextFrame(asked, replies, k0)
    ensures packet == Packet(asked[k0], Bodies(replies, k0, k))
    ensures hits + misses == k - k0 && Hits(replies[..k]) == Hits(replies[..k0]) + hits
    ensures Stands(jobs[jobMark..total], k, asked) && NonEmpty(jobs[jobMark..total])
    ensures jobMark == total ==> k == |asked|
  {
    hide Stands, Hits, EndOf, Bodies, ReplyTo, Replies, NonEmpty;
    var to := AddressOf(jobs[jobMark0].client);
    FirstJob(jobs[jobMark0..total], k0, asked);
    assert jobs[jobMark0].num > 0 by { HeadAndTail(jobs[jobMark0..total]); }
    ghost var end := EndOf(asked, replies, to, k0, HEADER_LEN);
    var body: seq<Byte> := [];
    NoBodies(replies, k0);
    HeadAndTail(jobs[jobMark0..total]);
    assert jobs[jobMark0..total][1..] == jobs[jobMark0 + 1..total];
    jobMark, k, hits, misses := jobMark0, k0, 0, 0;
    while true
      invariant jobMark0 <= jobMark <= total && k0 <= k <= |asked|
      invariant body == Bodies(replies, k0, k)
      invariant EndOf(asked, replies, to, k, HEADER_LEN + |body|) == end
      invariant hits + misses == k - k0 && Hits(replies[..k]) == Hits(replies[..k0]) + hits
      invariant Stands(jobs[jobMark..total], k, asked)
      invariant jobMark < total ==> NonEmpty(jobs[jobMark + 1..total])
      invariant jobMark < total && jobs[jobMark].num == 0 ==> AddressOf(jobs[jobMark].client) == to
      decreases |asked| - k + total - jobMark
    {
      if jobMark >= total {
        assert jobs[jobMark..total] == [];
        NothingLeft(asked, replies, to, k, HEADER_LEN + |body|);
        break;
      }
      var thisJob := jobs[jobMark];
      FirstJob(jobs[jobMark..total], k, asked);
      if AddressOf(thisJob.client) != to {
        FrameStops(jobs[..], jobMark, total, asked, replies, to, k, HEADER_LEN + |body|);
        break;
      }
      if thisJob.num == 0 {
        SkipJob(jobs[..], jobMark, total, k, asked);
        jobMark := jobMark + 1;
        continue;
      }
      RepliesAt(replies, out, items, k);
      var exceeds, body', hit := Answer(out, thisJob.index, items, body);
      if exceeds {
        FrameStops(jobs[..], jobMark, total, asked, replies, to, k, HEADER_LEN + |body|);
        break;
      }
      FrameGoesOn(asked, replies, to, k0, k);
      body := body';
      if hit {
        hits := hits + 1;
      } else {
        misses := misses + 1;
      }
      OneMoreHit(replies, k);
      Consume(jobs, jobMark, total, k, asked);
      k := k + 1;
    }
    packet := Packet(to, body);
  }

  function Flat(chunks: seq<seq<Packet>>): seq<Packet>
  {
    if chunks == [] then [] else Flat(chunks[..|chunks| - 1]) + chunks[|chunks| - 1]
  }

  /** No chunk is empty or larger than the array of frames, and all but the last fill it. */
  ghost predicate FullChunks(chunks: seq<seq<Packet>>, ioBatch: nat)
  {
    forall i | 0 <= i < |chunks| :: 0 < |chunks[i]| <= ioBatch && (i < |chunks| - 1 ==> |chunks[i]| == ioBatch)
  }

  ghost predicate InChunks(chunks: seq<seq<Packet>>, packets: seq<Packet>, ioBatch: nat)
  {
    Flat(chunks) == packets && FullChunks(chunks, ioBatch)
  }

  lemma NoChunks()
    ensures Flat([]) == []
  {
  }

  lemma OneMoreChunk(chunks: seq<seq<Packet>>, chunk: seq<Packet>, rest: seq<Packet>)
    ensures Flat(chunks + [chunk]) + rest == Flat(chunks) + (chunk + rest)
  {
    assert (chunks + [chunk])[..|chunks|] == chunks;
  }

  /** The two outer loops: chunks of ioBatch frames until all jobs are done. */
  method SendReplies(jobs: array<Job>, total: nat, out: seq<nat>, items: nat -> Item, ioBatch: nat,
                     ghost asked: seq<Address>, ghost replies: seq<Reply>)
    returns (sent: seq<seq<Packet>>, hits: nat, misses: nat)
    requires 1 <= total <= jobs.Length && ioBatch > 0
    requires |asked| == |replies| && Replies(replies, out, items) && AllFit(replies)
    requires Stands(jobs[1..total], 0, asked) && NonEmpty(jobs[1..total])
    modifies jobs
    ensures InChunks(sent, Pack(asked, replies, 0), ioBatch)
    ensures hits == Hits(replies) && hits + misses == |asked|
  {
    hide Stands, AllFit, Hits, Pack, Replies, NonEmpty, Flat;
    var jobMark := 1;
    sent, hits, misses := [], 0, 0;
    ghost var k := 0;
    NoHits(replies);
    if jobMark == total {
      assert jobs[1..total] == [];
      NoJob(0, asked);
    }
    NoChunks();
    while jobMark < total
      invariant 1 <= jobMark <= total && k <= |asked|
      invariant Flat(sent) + Pack(asked, replies, k) == Pack(asked, replies, 0) && FullChunks(sent, ioBatch)
      invariant jobMark < total ==> forall i | 0 <= i < |sent| :: |sent[i]| == ioBatch
      invariant hits == Hits(replies[..k]) && hits + misses == k
      invariant Stands(jobs[jobMark..total], k, asked) && NonEmpty(jobs[jobMark..total])
      invariant jobMark == total ==> k == |asked|
      decreases |asked| - k
    {
      var pktMark, chunk := 0, [];
      ghost var k1 := k;
      while pktMark < ioBatch && jobMark < total
        invariant 1 <= jobMark <= total && k1 <= k <= |asked|
        invariant pktMark == 0 ==> jobMark < total
        invariant pktMark > 0 ==> k1 < k
        invariant Flat(sent) + (chunk + Pack(asked, replies, k)) == Pack(asked, replies, 0)
        invariant |chunk| == pktMark <= ioBatch
        invariant hits == Hits(replies[..k]) && hits + misses == k
        invariant Stands(jobs[jobMark..total], k, asked) && NonEmpty(jobs[jobMark..total])
        invariant jobMark == total ==> k == |asked|
        decreases |asked| - k
      {
        var packet, h, m;
        ghost var k';
        jobMark, packet, h, m, k' := FillFrame(jobs, jobMark, total, out, items, k, asked, replies);
        PackStep(asked, replies, k);
        assert k < k';
        assert (chunk + [packet]) + Pack(asked, replies, k') == chunk + Pack(asked, replies, k);
        // total_length > eiu_hdr_len
        chunk := chunk + [packet];
        pktMark := pktMark + 1;
        hits, misses, k := hits + h, misses + m, k';
      }
      OneMoreChunk(sent, chunk, Pack(asked, replies, k));
      sent := sent + [chunk];
    }
    PackEnd(asked, replies);
    assert replies[..|asked|] == replies;
  }

  /**
   One buffer from the receiver's compact list to the frames on the wire: every
   request is answered once, to the client that made it.  If the results are what the
   search kernel leaves over a duplicate-free index t, the answer is the item that t
   names for the key.
   */
  method ServeBuffer(buf: SearchBuf, out: seq<Quad>, items: nat -> Item, ioBatch: nat, ghost replies: seq<Reply>,
                     ghost t: CuckooSpec.Table)
    returns (sent: seq<seq<Packet>>, hits: nat, misses: nat)
    requires buf.Valid() && ioBatch > 0
    requires |buf.asked| == |replies| && Replies(replies, out, items) && AllFit(replies)
    modifies buf.jobList
    ensures InChunks(sent, Pack(buf.asked, replies, 0), ioBatch)
    ensures hits == Hits(replies) && hits + misses == buf.numSearchJob
    ensures CuckooSpec.AllUnique(t) && Searched(t, out, buf.sigs[..|replies|], buf.hashes[..|replies|]) ==>
              forall k: nat | k < |replies| && buf.sigs[k] != 0 ::
                SmallValues(items) && replies[k] == AnswerTo(t, buf.sigs[k], buf.hashes[k], items)
  {
    hide Stands, AllFit, Replies, AnswerTo, Searched, CuckooSpec.AllUnique, Pack, Flat;
    RepliesAreAnswers(t, out, buf.sigs[..|replies|], buf.hashes[..|replies|], items, replies);
    if buf.numSearchJob == 0 {
      PackEnd(buf.asked, replies);
      NoChunks();
      return [], 0, 0;
    }
    sent, hits, misses := SendReplies(buf.jobList, buf.numCompactSearchJob + 1, out, items, ioBatch, buf.asked,
        replies);
  }

  lemma RepliesAreAnswers(t: CuckooSpec.Table, out: seq<Quad>, sigs: seq<Quad>, hashes: seq<Quad>, items: nat -> Item,
                          replies: seq<Reply>)
    requires Replies(replies, out, items) && |sigs| == |hashes| == |replies|
    ensures SmallValues(items)
    ensures CuckooSpec.AllUnique(t) && Searched(t, out, sigs, hashes) ==>
              forall k: nat | k < |replies| && sigs[k] != 0 :: replies[k] == AnswerTo(t, sigs[k], hashes[k], items)
  {
    hide CuckooSpec.AllUnique, SearchedAt, AnswerTo, ReplyTo;
    if CuckooSpec.AllUnique(t) && Searched(t, out, sigs, hashes) {
      forall k: nat | k < |replies| && sigs[k] != 0 ensures replies[k] == AnswerTo(t, sigs[k], hashes[k], items) {
        ReplyIsAnswer(t, out, k, sigs[k], hashes[k], items);
      }
    }
  }

  /** What two servers send is the same only if they answer the same clients with the same bytes. */
  lemma ServedIsReadable(a1: seq<Address>, r1: seq<Reply>, out1: seq<nat>, items1: nat -> Item,
                         a2: seq<Address>, r2: seq<Reply>, out2: seq<nat>, items2: nat -> Item)
    requires |a1| == |r1| && Replies(r1, out1, items1) && AllFit(r1)
    requires |a2| == |r2| && Replies(r2, out2, items2) && AllFit(r2)
    requires Pack(a1, r1, 0) == Pack(a2, r2, 0)
    ensures a1 == a2 && Texts(r1) == Texts(r2)
  {
    hide Pack, Wellformed, AllFit, Texts, ReplyTo;
    forall k | 0 <= k < |r1| ensures Wellformed(r1[k]) {
      ReplyIsWellformed(out1, k, items1);
    }
    forall k | 0 <= k < |r2| ensures Wellformed(r2[k]) {
      ReplyIsWellformed(out2, k, items2);
    }
    FramesReadable(a1, r1, 0, a2, r2, 0);
    assert a1[0..] == a1 && a2[0..] == a2;
    assert Texts(r1)[0..] == Texts(r1) && Texts(r2)[0..] == Texts(r2);
  }

  // ----- small facts --------------------------------------------------------

  lemma FirstJob(jobs: seq<Job>, k: nat, asked: seq<Address>)
    requires jobs != [] && Stands(jobs, k, asked)
    ensures jobs[0].index == k <= |asked|
    ensures jobs[0].num > 0 ==> k < |asked| && asked[k] == AddressOf(jobs[0].client)
  {
  }

  lemma NextJob(jobs: seq<Job>, k: nat, asked: seq<Address>)
    requires jobs != [] && Stands(jobs, k, asked) && jobs[0].num == 0
    ensures Stands(jobs[1..], k, asked)
  {
  }

  lemma NoJob(k: nat, asked: seq<Address>)
    ensures Stands([], k, asked) ==> k == |asked|
  {
  }

  lemma SkipJob(jobs: seq<Job>, jobMark: nat, total: nat, k: nat, asked: seq<Address>)
    requires jobMark < total <= |jobs| && Stands(jobs[jobMark..total], k, asked) && jobs[jobMark].num == 0
    requires NonEmpty(jobs[jobMark + 1..total])
    ensures Stands(jobs[jobMark + 1..total], k, asked)
    ensures jobMark + 1 < total ==> jobs[jobMark + 1].num > 0 && NonEmpty(jobs[jobMark + 2..total])
  {
    hide Stands, NonEmpty;
    NextJob(jobs[jobMark..total], k, asked);
    assert jobs[jobMark..total][1..] == jobs[jobMark + 1..total];
    if jobMark + 1 < total {
      HeadAndTail(jobs[jobMark + 1..total]);
      assert jobs[jobMark + 2..total] == jobs[jobMark + 1..total][1..];
    }
  }

  lemma AllOf(jobs: seq<Job>, jobMark: nat, total: nat)
    requires jobMark < total <= |jobs| && jobs[jobMark].num > 0 && NonEmpty(jobs[jobMark + 1..total])
    ensures NonEmpty(jobs[jobMark..total])
  {
    assert jobs[jobMark..total] == [jobs[jobMark]] + jobs[jobMark + 1..total];
  }

  lemma HeadAndTail(jobs: seq<Job>)
    requires jobs != [] && NonEmpty(jobs)
    ensures jobs[0].num > 0 && NonEmpty(jobs[1..])
  {
  }

  lemma RepliesAt(replies: seq<Reply>, out: seq<nat>, items: nat -> Item, k: nat)
    requires Replies(replies, out, items) && k < |replies|
    ensures (forall l: nat :: |items(l).value| < 0x1_0000_0000) && 2 * k + 1 < |out|
            && replies[k] == ReplyTo(out, k, items)
  {
  }

  lemma NoBodies(replies: seq<Reply>, k: nat)
    requires k <= |replies|
    ensures Bodies(replies, k, k) == []
  {
  }

  /** The frame ends with the jobs. */
  lemma NothingLeft(asked: seq<Address>, replies: seq<Reply>, to: Address, k: nat, len: nat)
    requires |asked| == |replies| && Stands([], k, asked)
    ensures k == |asked| && EndOf(asked, replies, to, k, len) == k && NonEmpty([])
  {
  }

  /** It ends before a job for another client, and before a reply for which there is no room. */
  lemma FrameStops(jobs: seq<Job>, jobMark: nat, total: nat, asked: seq<Address>, replies: seq<Reply>, to: Address,
                   k: nat, len: nat)
    requires jobMark < total <= |jobs| && jobs[jobMark].num > 0 && NonEmpty(jobs[jobMark + 1..total])
    requires |asked| == |replies| && k < |asked| && (asked[k] != to || len + replies[k].need > FRAME_LEN)
    ensures NonEmpty(jobs[jobMark..total]) && EndOf(asked, replies, to, k, len) == k
  {
    hide NonEmpty;
    AllOf(jobs, jobMark, total);
  }

  lemma FrameGoesOn(asked: seq<Address>, replies: seq<Reply>, to: Address, k0: nat, k: nat)
    requires |asked| == |replies| && k0 <= k < |asked| && asked[k] == to
    requires HEADER_LEN + |Bodies(replies, k0, k)| + replies[k].need <= FRAME_LEN
    ensures Bodies(replies, k0, k + 1) == Bodies(replies, k0, k) + replies[k].bytes
    ensures EndOf(asked, replies, to, k, HEADER_LEN + |Bodies(replies, k0, k)|) ==
            EndOf(asked, replies, to, k + 1, HEADER_LEN + |Bodies(replies, k0, k + 1)|)
  {
  }

  lemma OneMoreHit(replies: seq<Reply>, k: nat)
    requires k < |replies|
    ensures Hits(replies[..k + 1]) == Hits(replies[..k]) + (if replies[k].hit then 1 else 0)
  {
    assert replies[..k + 1][..k] == replies[..k];
  }

  lemma NoHits(replies: seq<Reply>)
    ensures Hits(replies[..0]) == 0
  {
  }

  lemma PackStep(asked: seq<Address>, replies: seq<Reply>, k: nat)
    requires |asked| == |replies| && k < |asked| && AllFit(replies)
    ensures var e := NextFrame(asked, replies, k);
            k < e && Pack(asked, replies, k) == [Packet(asked[k], Bodies(replies, k, e))] + Pack(asked, replies, e)
  {
    FrameTakesOne(asked, replies, k);
  }

  lemma PackEnd(asked: seq<Address>, replies: seq<Reply>)
    requires |asked| == |replies| && AllFit(replies)
    ensures Pack(asked, replies, |asked|) == []
  {
  }
}

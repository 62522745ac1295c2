/**
 The compact job list of one buffer.  Consecutive search requests of one client
 share a job: its address, how many there are, and the index of the first.
 Entry 0 is a sentinel that no client may match.
 */
module JobList {
  import opened Wire

  datatype Client = Client(eth: nat, ip: nat, port: nat)

  /** What a reply is addressed by. */
  datatype Address = Address(ip: nat, port: nat)

  function AddressOf(c: Client): Address
  {
    Address(c.ip, c.port)
  }

  datatype Job = Job(client: Client, num: nat, index: nat)

  /** Jobs jobs, from search index `at` on, stand for exactly the requesters asked. */
  predicate Stands(jobs: seq<Job>, at: nat, asked: seq<Address>)
  {
    if jobs == [] then at == |asked|
    else
      var j := jobs[0];
      && j.index == at
      && at + j.num <= |asked|
      && (forall k | at <= k < at + j.num :: asked[k] == AddressOf(j.client))
      && Stands(jobs[1..], at + j.num, asked)
  }

  /** As short as possible: no empty job, and neighbours differ. */
  ghost predicate Compact(jobs: seq<Job>)
  {
    && (forall k | 0 <= k < |jobs| :: jobs[k].num > 0)
    && (forall k | 0 < k < |jobs| :: AddressOf(jobs[k - 1].client) != AddressOf(jobs[k].client))
  }

  /** The jobs expanded: the requester of each search index. */
  function Expand(jobs: seq<Job>): (s: seq<Address>)
  {
    if jobs == [] then []
    else seq(jobs[0].num, _ => AddressOf(jobs[0].client)) + Expand(jobs[1..])
  }

  /** Expanding a list gives back the requesters it stands for. */
  lemma {:induction false} StandsExpands(jobs: seq<Job>, at: nat, asked: seq<Address>)
    requires Stands(jobs, at, asked)
    ensures at <= |asked| && Expand(jobs) == asked[at..]
    decreases jobs
  {
    if jobs != [] {
      var n := jobs[0].num;
      StandsExpands(jobs[1..], at + n, asked);
      assert asked[at..] == asked[at..at + n] + asked[at + n..];
      assert asked[at..at + n] == seq(n, _ => AddressOf(jobs[0].client));
    }
  }

  /** The compact list is determined by the requesters, up to the clients' hardware addresses. */
  lemma {:induction false} CompactIsCanonical(j1: seq<Job>, j2: seq<Job>, at: nat, asked: seq<Address>)
    requires Stands(j1, at, asked) && Stands(j2, at, asked) && Compact(j1) && Compact(j2)
    ensures |j1| == |j2|
    ensures forall k | 0 <= k < |j1| ::
              AddressOf(j1[k].client) == AddressOf(j2[k].client) && j1[k].num == j2[k].num && j1[k].index == j2[k].index
    decreases j1
  {
    if j1 != [] && j2 != [] {
      var a, b := j1[0], j2[0];
      assert asked[at] == AddressOf(a.client) == AddressOf(b.client);
      FirstRun(j1, at, asked);
      FirstRun(j2, at, asked);
      assert a.num == b.num;
      CompactTail(j1);
      CompactTail(j2);
      CompactIsCanonical(j1[1..], j2[1..], at + a.num, asked);
    }
  }

  /** The first job covers exactly the run of equal requesters. */
  lemma FirstRun(jobs: seq<Job>, at: nat, asked: seq<Address>)
    requires jobs != [] && Stands(jobs, at, asked) && Compact(jobs)
    ensures var e := at + jobs[0].num; e < |asked| ==> asked[e] != AddressOf(jobs[0].client)
    ensures var e := at + jobs[0].num; at < e <= |asked| && asked[e - 1] == AddressOf(jobs[0].client)
  {
    if |jobs| > 1 {
      assert jobs[1] == jobs[1..][0];
      assert asked[at + jobs[0].num] == AddressOf(jobs[1].client);
    }
  }

  lemma CompactTail(jobs: seq<Job>)
    requires jobs != [] && Compact(jobs)
    ensures Compact(jobs[1..])
  {
    forall k | 0 < k < |jobs[1..]| ensures AddressOf(jobs[1..][k - 1].client) != AddressOf(jobs[1..][k].client) {
      assert jobs[1..][k - 1] == jobs[k] && jobs[1..][k] == jobs[k + 1];
    }
  }

  /** One more request of the last job's client. */
  lemma {:induction false} StandsLonger(jobs: seq<Job>, at: nat, asked: seq<Address>)
    requires jobs != [] && Stands(jobs, at, asked)
    ensures var n := |jobs| - 1; var j := jobs[n];
            Stands(jobs[n := Job(j.client, j.num + 1, j.index)], at, asked + [AddressOf(j.client)])
    decreases jobs
  {
    var n := |jobs| - 1;
    var j := jobs[n];
    var jobs' := jobs[n := Job(j.client, j.num + 1, j.index)];
    if n > 0 {
      StandsLonger(jobs[1..], at + jobs[0].num, asked);
      assert jobs[1..][n - 1] == j;
      assert jobs'[1..] == jobs[1..][n - 1 := Job(j.client, j.num + 1, j.index)];
    } else {
      assert jobs[1..] == [] && jobs'[1..] == [];
    }
  }

  /** One request of another client. */
  lemma {:induction false} StandsNext(jobs: seq<Job>, at: nat, asked: seq<Address>, c: Client)
    requires Stands(jobs, at, asked)
    ensures Stands(jobs + [Job(c, 1, |asked|)], at, asked + [AddressOf(c)])
    decreases jobs
  {
    if jobs != [] {
      StandsNext(jobs[1..], at + jobs[0].num, asked, c);
      assert (jobs + [Job(c, 1, |asked|)])[1..] == jobs[1..] + [Job(c, 1, |asked|)];
    }
  }

  // ----- a request taken back -----------------------------------------------

  predicate OfLast(jobs: seq<Job>, c: Client)
  {
    jobs != [] && AddressOf(jobs[|jobs| - 1].client) == AddressOf(c)
  }

  /** The list with the request of index `at`, by c, counted in. */
  function Counted(jobs: seq<Job>, c: Client, at: nat): seq<Job>
  {
    if OfLast(jobs, c) then
      var n := |jobs| - 1;
      jobs[n := Job(jobs[n].client, jobs[n].num + 1, jobs[n].index)]
    else jobs + [Job(c, 1, at)]
  }

  /** Counting a request in keeps the list the shortest one for its requesters. */
  lemma CountedStands(jobs: seq<Job>, c: Client, asked: seq<Address>)
    requires Stands(jobs, 0, asked) && Compact(jobs)
    ensures var jobs' := Counted(jobs, c, |asked|); Stands(jobs', 0, asked + [AddressOf(c)]) && Compact(jobs')
  {
    hide Stands;
    if OfLast(jobs, c) {
      StandsLonger(jobs, 0, asked);
    } else {
      StandsNext(jobs, 0, asked, c);
    }
  }

  /** uint16_t */
  function Decremented(num: nat): nat
  {
    (num + 0xFFFF) % 0x1_0000
  }

  /**
   When the buffer was swapped in between, the request is taken back at the job that
   was last before it, number n; without such a job the sentinel is decremented.
   */
  function TakenBack(jobs: seq<Job>, n: nat): seq<Job>
    requires n <= |jobs|
  {
    if n == 0 then jobs
    else
      var j := jobs[n - 1];
      var jobs' := jobs[n - 1 := Job(j.client, Decremented(j.num), j.index)];
      if Decremented(j.num) == 0 then jobs'[..|jobs| - 1] else jobs'
  }

  lemma {:induction false} LastStands(jobs: seq<Job>, at: nat, asked: seq<Address>)
    requires jobs != [] && Stands(jobs, at, asked)
    ensures var j := jobs[|jobs| - 1]; j.index + j.num == |asked|
  {
    if |jobs| > 1 {
      LastStands(jobs[1..], at + jobs[0].num, asked);
    }
  }

  /**
   Taking a request back restores the list if it was counted in the last job.
   Otherwise the job of the client before loses one of its requests in its place,
   and the list no longer stands for the requests it had.
   */
  lemma TakenBackIff(jobs: seq<Job>, c: Client, asked: seq<Address>)
    requires Stands(jobs, 0, asked) && Compact(jobs) && |asked| < 0xFFFF
    ensures var back := TakenBack(Counted(jobs, c, |asked|), |jobs|);
            (back == jobs <==> OfLast(jobs, c)) && (Stands(back, 0, asked) <==> OfLast(jobs, c))
  {
    hide Stands, Compact;
    var back := TakenBack(Counted(jobs, c, |asked|), |jobs|);
    if jobs != [] {
      LastStands(jobs, 0, asked);
      LastCounts(jobs);
    }
    if OfLast(jobs, c) {
      assert back == jobs;
    } else if Stands(back, 0, asked) {
      LastStands(back, 0, asked);
      assert false;
    }
  }

  lemma LastCounts(jobs: seq<Job>)
    requires jobs != [] && Compact(jobs)
    ensures jobs[|jobs| - 1].num > 0
  {
  }

  /** The search part of one batch buffer. */
  class SearchBuf {
    const jobList: array<Job>
    const sigs: array<Quad>
    const hashes: array<Quad>
    var numSearchJob: nat
    var numCompactSearchJob: nat
    ghost var asked: seq<Address>

    ghost predicate Valid()
      reads this, jobList
    {
      && sigs != hashes
      && jobList.Length == sigs.Length == hashes.Length
      && numCompactSearchJob <= numSearchJob == |asked|
      && numSearchJob < jobList.Length
      && Stands(jobList[1..numCompactSearchJob + 1], 0, asked)
      && Compact(jobList[1..numCompactSearchJob + 1])
    }

    /** A request that would match the sentinel would never be answered. */
    ghost predicate Admissible(c: Client)
      reads this, jobList
    {
      jobList.Length > 0 && AddressOf(c) != AddressOf(jobList[0].client)
    }

    constructor (max: nat, sentinel: Client)
      requires max > 0
      ensures Valid() && asked == [] && jobList.Length == max && jobList[0].client == sentinel
    {
      jobList := new Job[max](_ => Job(sentinel, 0, 0));
      sigs := new Quad[max](_ => 0);
      hashes := new Quad[max](_ => 0);
      numSearchJob, numCompactSearchJob := 0, 0;
      asked := [];
    }

    /** Count one more request of c, in the last job if it is c's. */
    method CountJob(c: Client)
      requires Valid() && Admissible(c) && numSearchJob < jobList.Length - 1
      modifies jobList, this`numCompactSearchJob
      ensures old(numCompactSearchJob) <= numCompactSearchJob <= old(numCompactSearchJob) + 1
      ensures Stands(jobList[1..numCompactSearchJob + 1], 0, asked + [AddressOf(c)])
      ensures Compact(jobList[1..numCompactSearchJob + 1])
      ensures jobList[1..numCompactSearchJob + 1] == Counted(old(jobList[1..numCompactSearchJob + 1]), c, numSearchJob)
      ensures jobList[0] == old(jobList[0])
    {
      hide Stands, Compact;
      var n := numCompactSearchJob;
      ghost var jobs := jobList[1..n + 1];
      CountedStands(jobs, c, asked);
      var job := jobList[n];
      assert n > 0 ==> jobs[n - 1] == job;
      if job.client.ip == c.ip && job.client.port == c.port {
        jobList[n] := Job(job.client, job.num + 1, job.index);
        assert jobList[1..n + 1] == jobs[n - 1 := Job(job.client, job.num + 1, job.index)];
      } else {
        numCompactSearchJob := n + 1;
        jobList[n + 1] := Job(c, 1, numSearchJob);
        assert jobList[1..n + 2] == jobs + [Job(c, 1, numSearchJob)];
      }
    }

    /** The GET case of process_packet, without a swap of the buffer. */
    method AddSearchJob(c: Client, sig: Quad, hash: Quad) returns (ok: bool)
      requires Valid() && Admissible(c)
      modifies this, jobList, sigs, hashes
      ensures Valid() && ok == (old(numSearchJob) < jobList.Length - 1)
      ensures asked == if ok then old(asked) + [AddressOf(c)] else old(asked)
      ensures ok ==> sigs[|old(asked)|] == sig && hashes[|old(asked)|] == hash
      ensures forall k | 0 <= k < |old(asked)| :: sigs[k] == old(sigs[k]) && hashes[k] == old(hashes[k])
      ensures jobList[0] == old(jobList[0])
    {
      hide Stands, Compact;
      if numSearchJob >= jobList.Length - 1 {
        return false;
      }
      CountJob(c);
      asked := asked + [AddressOf(c)];
      sigs[numSearchJob] := sig;
      hashes[numSearchJob] := hash;
      numSearchJob := numSearchJob + 1;
      return true;
    }

    /**
     The undo after a swap; the request was counted when the list had n jobs.  The
     sender may have cleared the buffer since, so both counters stop at zero.
     */
    method TakeBack(n: nat)
      requires n < jobList.Length && numCompactSearchJob < jobList.Length
      requires n <= numCompactSearchJob || numCompactSearchJob == 0
      requires n > 0 || Decremented(jobList[0].num) != 0
      modifies jobList, this`numSearchJob, this`numCompactSearchJob
      ensures numSearchJob == if old(numSearchJob) == 0 then 0 else old(numSearchJob) - 1
      ensures numCompactSearchJob <= old(numCompactSearchJob)
      ensures jobList[1..numCompactSearchJob + 1] ==
              if old(numCompactSearchJob) == 0 then [] else TakenBack(old(jobList[1..numCompactSearchJob + 1]), n)
    {
      ghost var jobs := jobList[1..numCompactSearchJob + 1];
      var job := jobList[n];
      assert 0 < n <= numCompactSearchJob ==> jobs[n - 1] == job;
      jobList[n] := Job(job.client, Decremented(job.num), job.index);
      assert n <= numCompactSearchJob ==>
        jobList[1..numCompactSearchJob + 1] == if n == 0 then jobs else jobs[n - 1 := jobList[n]];
      if jobList[n].num == 0 && numCompactSearchJob > 0 {
        numCompactSearchJob := numCompactSearchJob - 1;
        assert jobList[1..numCompactSearchJob + 1] == jobs[n - 1 := jobList[n]][..|jobs| - 1];
      }
      if numSearchJob > 0 {
        numSearchJob := numSearchJob - 1;
      }
    }
  }
}

/**
 Replies and the way they are packed into frames.  A frame takes replies in the
 order of the search indices as long as they go to one client and fit.
 */
module ReplySpec {
  import opened Arithmetic
  import opened Wire
  import opened JobList

  const PROTOCOL_VALUE: Half := 1
  const PROTOCOL_GET_NOT_FOUND: Byte := 2

  datatype Item = Item(key: seq<Byte>, value: seq<Byte>)

  /** The bytes a reply adds to a frame, and the room it asks for beforehand. */
  datatype Reply = Reply(bytes: seq<Byte>, need: nat, hit: bool)

  /**
   WRITE_PKT without KEY_MATCH: key and value are copied, but the frame grows by
   the value's length only, so the reply keeps that many bytes of key and value.
   */
  function Found(it: Item): (r: Reply)
    requires |it.value| < 0x1_0000_0000
  {
    Reply(Put16(PROTOCOL_VALUE) + Put32(|it.value|) + (it.key + it.value)[..|it.value|],
          |it.key| + |it.value| + 6, true)
  }

  /** All that is copied into the frame for a hit; what lies behind the reply is overwritten by the next one. */
  function Copied(it: Item): (s: seq<Byte>)
    requires |it.value| < 0x1_0000_0000
  {
    Put16(PROTOCOL_VALUE) + Put32(|it.value|) + it.key + it.value
  }

  /** The room a reply asks for is what is copied, and the reply is the front of it. */
  lemma FoundIsCopied(it: Item)
    requires |it.value| < 0x1_0000_0000
    ensures Found(it).bytes == Copied(it)[..6 + |it.value|] && Found(it).need == |Copied(it)|
  {
    var head := Put16(PROTOCOL_VALUE) + Put32(|it.value|);
    assert Copied(it) == head + (it.key + it.value);
  }

  function NotFound(): (r: Reply)
  {
    Reply([PROTOCOL_GET_NOT_FOUND], 1, false)
  }

  /** The first nonzero search result names the item. */
  function ReplyTo(out: seq<nat>, index: nat, items: nat -> Item): (r: Reply)
    requires 2 * index + 1 < |out|
    requires forall l: nat :: |items(l).value| < 0x1_0000_0000
  {
    if out[2 * index] != 0 then Found(items(out[2 * index]))
    else if out[2 * index + 1] != 0 then Found(items(out[2 * index + 1]))
    else NotFound()
  }

  datatype Packet = Packet(to: Address, body: seq<Byte>)

  function Bodies(replies: seq<Reply>, k: nat, e: nat): (s: seq<Byte>)
    requires k <= e <= |replies|
    decreases e
  {
    if k == e then [] else Bodies(replies, k, e - 1) + replies[e - 1].bytes
  }

  /** Where a frame for address a that is at index k with len bytes ends. */
  function EndOf(asked: seq<Address>, replies: seq<Reply>, a: Address, k: nat, len: nat): (e: nat)
    requires |asked| == |replies| && k <= |asked|
    ensures k <= e <= |asked|
    decreases |asked| - k
  {
    if k == |asked| || asked[k] != a || len + replies[k].need > FRAME_LEN then k
    else EndOf(asked, replies, a, k + 1, len + |replies[k].bytes|)
  }

  /** Every reply would fit into an empty frame. */
  ghost predicate AllFit(replies: seq<Reply>)
  {
    forall k | 0 <= k < |replies| ::
      0 < |replies[k].bytes| <= replies[k].need && HEADER_LEN + replies[k].need <= FRAME_LEN
  }

  lemma FrameTakesOne(asked: seq<Address>, replies: seq<Reply>, k: nat)
    requires |asked| == |replies| && k < |asked| && AllFit(replies)
    ensures EndOf(asked, replies, asked[k], k, HEADER_LEN) > k
  {
  }

  // ----- whether the loop gets anywhere -------------------------------------

  predicate FitsFrame(r: Reply)
  {
    HEADER_LEN + r.need <= FRAME_LEN
  }

  /** One turn of the packet loop: where the frame begun at index k ends, whether or not it holds anything. */
  function NextFrame(asked: seq<Address>, replies: seq<Reply>, k: nat): (e: nat)
    requires |asked| == |replies| && k <= |asked|
    ensures k <= e <= |asked|
  {
    if k == |asked| then k else EndOf(asked, replies, asked[k], k, HEADER_LEN)
  }

  /** A hit fits a frame of 1514 bytes, 42 of them headers, iff key and value have 1466 bytes at most. */
  lemma FoundFitsIff(it: Item)
    requires |it.value| < 0x1_0000_0000
    ensures FitsFrame(Found(it)) <==> |it.key| + |it.value| <= 1466
  {
  }

  function FramesLater(asked: seq<Address>, replies: seq<Reply>, k: nat, n: nat): (e: nat)
    requires |asked| == |replies| && k <= |asked|
    ensures k <= e <= |asked|
  {
    if n == 0 then k else NextFrame(asked, replies, FramesLater(asked, replies, k, n - 1))
  }

  /** The first reply from k on that is too large for a frame of its own, or the end. */
  function FirstMisfit(replies: seq<Reply>, k: nat): (f: nat)
    requires k <= |replies|
    ensures k <= f <= |replies|
    ensures forall i | k <= i < f :: FitsFrame(replies[i])
    ensures f < |replies| ==> !FitsFrame(replies[f])
    decreases |replies| - k
  {
    if k == |replies| || !FitsFrame(replies[k]) then k else FirstMisfit(replies, k + 1)
  }

  /** No frame gets past a reply that is too large. */
  lemma {:induction false} EndsBefore(asked: seq<Address>, replies: seq<Reply>, a: Address, k: nat, len: nat, f: nat)
    requires |asked| == |replies| && k <= f <= |asked| && HEADER_LEN <= len
    requires f < |replies| ==> !FitsFrame(replies[f])
    ensures EndOf(asked, replies, a, k, len) <= f
    decreases |asked| - k
  {
    if k < f && asked[k] == a && len + replies[k].need <= FRAME_LEN {
      EndsBefore(asked, replies, a, k + 1, len + |replies[k].bytes|, f);
    }
  }

  /** After at most as many frames as there are replies before it, the loop stands at the first misfit, for good. */
  lemma {:induction false} LoopSettles(asked: seq<Address>, replies: seq<Reply>, k: nat, n: nat)
    requires |asked| == |replies| && k <= |asked|
    ensures var f := FirstMisfit(replies, k); var e := FramesLater(asked, replies, k, n);
            e <= f && (n >= f - k ==> e == f) && (n < f - k ==> e >= k + n)
  {
    hide EndOf;
    var f := FirstMisfit(replies, k);
    if n > 0 {
      LoopSettles(asked, replies, k, n - 1);
      var e := FramesLater(asked, replies, k, n - 1);
      if e < |asked| {
        EndsBefore(asked, replies, asked[e], e, HEADER_LEN, f);
        FrameMoves(asked, replies, e);
      }
    }
  }

  lemma FrameMoves(asked: seq<Address>, replies: seq<Reply>, k: nat)
    requires |asked| == |replies| && k < |asked|
    ensures NextFrame(asked, replies, k) > k <==> FitsFrame(replies[k])
  {
  }

  /** The response loop comes to its end if and only if every reply fits a frame of its own. */
  lemma LoopEndsIff(asked: seq<Address>, replies: seq<Reply>)
    requires |asked| == |replies|
    ensures (exists n: nat :: FramesLater(asked, replies, 0, n) == |asked|) <==>
            (forall k | 0 <= k < |replies| :: FitsFrame(replies[k]))
  {
    hide FitsFrame;
    var f := FirstMisfit(replies, 0);
    if f == |replies| {
      LoopSettles(asked, replies, 0, f);
      assert FramesLater(asked, replies, 0, f) == |asked|;
    } else {
      forall n: nat ensures FramesLater(asked, replies, 0, n) != |asked| {
        LoopSettles(asked, replies, 0, n);
      }
    }
  }

  /** The frames for the requests from k on. */
  function Pack(asked: seq<Address>, replies: seq<Reply>, k: nat): (packets: seq<Packet>)
    requires |asked| == |replies| && k <= |asked| && AllFit(replies)
    decreases |asked| - k
  {
    if k == |asked| then []
    else
      FrameTakesOne(asked, replies, k);
      var e := EndOf(asked, replies, asked[k], k, HEADER_LEN);
      [Packet(asked[k], Bodies(replies, k, e))] + Pack(asked, replies, e)
  }

  function Hits(replies: seq<Reply>): nat
  {
    if replies == [] then 0 else Hits(replies[..|replies| - 1]) + (if replies[|replies| - 1].hit then 1 else 0)
  }

  // ----- what packing guarantees --------------------------------------------

  lemma {:induction false} FrameContent(asked: seq<Address>, replies: seq<Reply>, a: Address, k0: nat, k: nat)
    requires |asked| == |replies| && k0 <= k <= |asked| && AllFit(replies)
    requires forall i | k0 <= i < k :: asked[i] == a
    requires HEADER_LEN + |Bodies(replies, k0, k)| <= FRAME_LEN
    ensures var e := EndOf(asked, replies, a, k, HEADER_LEN + |Bodies(replies, k0, k)|);
            && (forall i | k0 <= i < e :: asked[i] == a)
            && HEADER_LEN + |Bodies(replies, k0, e)| <= FRAME_LEN
            && (e < |asked| ==> asked[e] != a || HEADER_LEN + |Bodies(replies, k0, e)| + replies[e].need > FRAME_LEN)
    decreases |asked| - k
  {
    if k < |asked| && asked[k] == a && HEADER_LEN + |Bodies(replies, k0, k)| + replies[k].need <= FRAME_LEN {
      assert Bodies(replies, k0, k + 1) == Bodies(replies, k0, k) + replies[k].bytes;
      FrameContent(asked, replies, a, k0, k + 1);
    }
  }

  /** Every reply in a frame has found the room it asks for, so all that is copied for it stays inside the frame. */
  lemma {:induction false} RoomInFrame(asked: seq<Address>, replies: seq<Reply>, a: Address, k0: nat, k: nat, i: nat)
    requires |asked| == |replies| && k0 <= k <= i < |asked|
    requires i < EndOf(asked, replies, a, k, HEADER_LEN + |Bodies(replies, k0, k)|)
    ensures HEADER_LEN + |Bodies(replies, k0, i)| + replies[i].need <= FRAME_LEN
    decreases i - k
  {
    if k < i {
      assert Bodies(replies, k0, k + 1) == Bodies(replies, k0, k) + replies[k].bytes;
      RoomInFrame(asked, replies, a, k0, k + 1, i);
    }
  }

  lemma {:induction false} BodiesAdd(replies: seq<Reply>, k: nat, m: nat, e: nat)
    requires k <= m <= e <= |replies|
    ensures Bodies(replies, k, e) == Bodies(replies, k, m) + Bodies(replies, m, e)
    decreases e
  {
    if m < e {
      BodiesAdd(replies, k, m, e - 1);
    }
  }

  lemma {:induction false} BodiesGrow(replies: seq<Reply>, k: nat, e: nat)
    requires k < e <= |replies| && AllFit(replies)
    ensures |Bodies(replies, k, e)| > 0
  {
  }

  /** All bodies of the frames one after the other. */
  function Stream(packets: seq<Packet>): seq<Byte>
  {
    if packets == [] then [] else packets[0].body + Stream(packets[1..])
  }

  /** Nothing is lost, doubled or reordered: the frames hold the replies to index k, k+1, ... in order. */
  lemma {:induction false} PackIsFaithful(asked: seq<Address>, replies: seq<Reply>, k: nat)
    requires |asked| == |replies| && k <= |asked| && AllFit(replies)
    ensures Stream(Pack(asked, replies, k)) == Bodies(replies, k, |asked|)
    decreases |asked| - k
  {
    if k < |asked| {
      FrameTakesOne(asked, replies, k);
      var e := EndOf(asked, replies, asked[k], k, HEADER_LEN);
      PackIsFaithful(asked, replies, e);
      BodiesAdd(replies, k, e, |asked|);
      var p := Packet(asked[k], Bodies(replies, k, e));
      assert ([p] + Pack(asked, replies, e))[1..] == Pack(asked, replies, e);
    }
  }

  /**
   Frame number n carries the replies to a run of indices first..last, not
   empty, all asked by the client it is addressed to; it is at most 1514 bytes
   long, and it ends only where the client changes or the next reply does not fit.
   */
  lemma {:induction false} PackedFrame(asked: seq<Address>, replies: seq<Reply>, k: nat, n: nat)
    returns (first: nat, last: nat)
    requires |asked| == |replies| && k <= |asked| && AllFit(replies)
    requires n < |Pack(asked, replies, k)|
    ensures var p := Pack(asked, replies, k)[n];
            && k <= first < last <= |asked|
            && p.body == Bodies(replies, first, last) && 0 < |p.body| && HEADER_LEN + |p.body| <= FRAME_LEN
            && (forall i | first <= i < last :: asked[i] == p.to)
            && (last < |asked| ==> asked[last] != p.to || HEADER_LEN + |p.body| + replies[last].need > FRAME_LEN)
    decreases |asked| - k
  {
    FrameTakesOne(asked, replies, k);
    var e := EndOf(asked, replies, asked[k], k, HEADER_LEN);
    if n == 0 {
      first, last := k, e;
      FrameContent(asked, replies, asked[k], k, k);
      BodiesGrow(replies, k, e);
    } else {
      first, last := PackedFrame(asked, replies, e, n - 1);
    }
  }

  // ----- reading replies back -----------------------------------------------

  /** A frame's replies can be told apart: equal bytes mean equal replies. */
  lemma {:induction false} RepliesReadable(r1: seq<Reply>, r2: seq<Reply>)
    requires forall k | 0 <= k < |r1| :: Wellformed(r1[k])
    requires forall k | 0 <= k < |r2| :: Wellformed(r2[k])
    requires Joined(r1) == Joined(r2)
    ensures |r1| == |r2| && forall k | 0 <= k < |r1| :: r1[k].bytes == r2[k].bytes
    decreases |r1|
  {
    if r1 != [] && r2 != [] {
      FirstReply(r1);
      FirstReply(r2);
      assert r1[0].bytes == r2[0].bytes;
      assert Joined(r1)[|r1[0].bytes|..] == Joined(r1[1..]);
      assert Joined(r2)[|r2[0].bytes|..] == Joined(r2[1..]);
      RepliesReadable(r1[1..], r2[1..]);
      forall k | 0 <= k < |r1| ensures r1[k].bytes == r2[k].bytes {
        if k > 0 {
          assert r1[k] == r1[1..][k - 1] && r2[k] == r2[1..][k - 1];
        }
      }
    } else if r1 != [] {
      FirstReply(r1);
    } else if r2 != [] {
      FirstReply(r2);
    }
  }

  function Joined(rs: seq<Reply>): seq<Byte>
  {
    if rs == [] then [] else rs[0].bytes + Joined(rs[1..])
  }

  /** What a frame carries is the replies of its run of indices, joined. */
  lemma {:induction false} BodiesAreJoined(replies: seq<Reply>, k: nat, e: nat)
    requires k <= e <= |replies|
    ensures Bodies(replies, k, e) == Joined(replies[k..e])
    decreases e - k
  {
    if k < e {
      BodiesAreJoined(replies, k + 1, e);
      BodiesAdd(replies, k, k + 1, e);
      assert Bodies(replies, k, k + 1) == Bodies(replies, k, k) + replies[k].bytes;
      assert replies[k..e][1..] == replies[k + 1..e];
    }
  }

  ghost predicate AllWellformed(replies: seq<Reply>)
  {
    forall k | 0 <= k < |replies| :: Wellformed(replies[k])
  }

  function Texts(replies: seq<Reply>): (s: seq<seq<Byte>>)
    ensures |s| == |replies|
  {
    seq(|replies|, k requires 0 <= k < |replies| => replies[k].bytes)
  }

  /**
   Frames can be read: two lists of requests and replies that are packed into the
   same frames ask for the same clients and carry the same bytes, index by index.
   */
  lemma {:induction false} FramesReadable(a1: seq<Address>, r1: seq<Reply>, k1: nat, a2: seq<Address>,
                                          r2: seq<Reply>, k2: nat)
    requires |a1| == |r1| && k1 <= |r1| && AllFit(r1) && AllWellformed(r1)
    requires |a2| == |r2| && k2 <= |r2| && AllFit(r2) && AllWellformed(r2)
    requires Pack(a1, r1, k1) == Pack(a2, r2, k2)
    ensures a1[k1..] == a2[k2..] && Texts(r1)[k1..] == Texts(r2)[k2..]
    decreases |r1| - k1
  {
    hide AllFit, EndOf, AllWellformed, Bodies, Texts, Pack;
    if k1 == |r1| || k2 == |r2| {
      PackEmptyIff(a1, r1, k1);
      PackEmptyIff(a2, r2, k2);
    }
    if k1 < |r1| && k2 < |r2| {
      var e1 := FirstFrame(a1, r1, k1);
      var e2 := FirstFrame(a2, r2, k2);
      FramesReadable(a1, r1, e1, a2, r2, e2);
      SameRun(a1, r1, k1, e1, a2, r2, k2, e2);
      Halves(a1, k1, e1, a2, k2, e2);
      Halves(Texts(r1), k1, e1, Texts(r2), k2, e2);
    }
  }

  lemma PackEmptyIff(asked: seq<Address>, replies: seq<Reply>, k: nat)
    requires |asked| == |replies| && k <= |asked| && AllFit(replies)
    ensures Pack(asked, replies, k) == [] <==> k == |asked|
  {
    hide AllFit;
    if k < |asked| { FrameTakesOne(asked, replies, k); }
  }

  lemma Halves<T>(a: seq<T>, k1: nat, e1: nat, b: seq<T>, k2: nat, e2: nat)
    requires k1 <= e1 <= |a| && k2 <= e2 <= |b|
    requires a[k1..e1] == b[k2..e2] && a[e1..] == b[e2..]
    ensures a[k1..] == b[k2..]
  {
    assert a[k1..] == a[k1..e1] + a[e1..];
    assert b[k2..] == b[k2..e2] + b[e2..];
  }

  /** Equal frames come from equal runs of requests and replies. */
  lemma SameRun(a1: seq<Address>, r1: seq<Reply>, k1: nat, e1: nat, a2: seq<Address>, r2: seq<Reply>, k2: nat, e2: nat)
    requires k1 < e1 <= |r1| == |a1| && k2 < e2 <= |r2| == |a2| && AllWellformed(r1) && AllWellformed(r2)
    requires forall i | k1 <= i < e1 :: a1[i] == a1[k1]
    requires forall i | k2 <= i < e2 :: a2[i] == a2[k2]
    requires a1[k1] == a2[k2] && Bodies(r1, k1, e1) == Bodies(r2, k2, e2)
    ensures a1[k1..e1] == a2[k2..e2] && Texts(r1)[k1..e1] == Texts(r2)[k2..e2]
  {
    hide Wellformed, Joined, Bodies;
    BodiesAreJoined(r1, k1, e1);
    BodiesAreJoined(r2, k2, e2);
    RepliesReadable(r1[k1..e1], r2[k2..e2]);
    TextsOf(r1, k1, e1);
    TextsOf(r2, k2, e2);
  }

  lemma TextsOf(replies: seq<Reply>, k: nat, e: nat)
    requires k <= e <= |replies|
    ensures Texts(replies)[k..e] == Texts(replies[k..e])
  {
  }

  /** The first frame of a packing, and the rest. */
  lemma FirstFrame(asked: seq<Address>, replies: seq<Reply>, k: nat) returns (e: nat)
    requires |asked| == |replies| && k < |asked| && AllFit(replies)
    ensures k < e <= |asked| && (forall i | k <= i < e :: asked[i] == asked[k])
    ensures var ps := Pack(asked, replies, k);
            ps != [] && ps[0] == Packet(asked[k], Bodies(replies, k, e)) && ps[1..] == Pack(asked, replies, e)
  {
    e := EndOf(asked, replies, asked[k], k, HEADER_LEN);
    FrameTakesOne(asked, replies, k);
    FrameContent(asked, replies, asked[k], k, k);
  }

  /** A reply as ReplyTo makes it. */
  predicate Wellformed(r: Reply)
  {
    || r.bytes == [PROTOCOL_GET_NOT_FOUND]
    || (|r.bytes| >= 6 && Get16(r.bytes, 0) == PROTOCOL_VALUE && |r.bytes| == 6 + Get32(r.bytes, 2))
  }

  lemma ReplyIsWellformed(out: seq<nat>, index: nat, items: nat -> Item)
    requires 2 * index + 1 < |out|
    requires forall l: nat :: |items(l).value| < 0x1_0000_0000
    ensures Wellformed(ReplyTo(out, index, items))
  {
    var r := ReplyTo(out, index, items);
    if r.hit {
      var l := if out[2 * index] != 0 then out[2 * index] else out[2 * index + 1];
      var it := items(l);
      var tail := (it.key + it.value)[..|it.value|];
      assert r.bytes == [] + Put16(PROTOCOL_VALUE) + (Put32(|it.value|) + tail);
      Read16([], PROTOCOL_VALUE, Put32(|it.value|) + tail);
      Read32(Put16(PROTOCOL_VALUE), |it.value|, tail);
    }
  }

  /** The length of the first reply shows in the first bytes of the frame. */
  lemma FirstReply(rs: seq<Reply>)
    requires rs != [] && Wellformed(rs[0])
    ensures var s := Joined(rs);
            && |s| > 0 && rs[0].bytes <= s
            && (s[0] == PROTOCOL_GET_NOT_FOUND ==> |rs[0].bytes| == 1)
            && (s[0] != PROTOCOL_GET_NOT_FOUND ==> |s| >= 6 && |rs[0].bytes| == 6 + Get32(s, 2))
  {
    var r, s := rs[0], Joined(rs);
    assert forall k | 0 <= k < |r.bytes| :: s[k] == r.bytes[k];
  }

  function KeyByte(key: seq<Byte>, k: nat): Byte
    requires |key| > 0
  {
    key[k % |key|]
  }

  lemma KeyByteBefore(key: seq<Byte>, k: nat)
    requires |key| > 0
    ensures KeyByte(key, k) == if k < |key| then key[k] else KeyByte(key, k - |key|)
  {
    if k >= |key| { SameRemainder(k, |key|); }
  }

  /** The value is the key over and over. */
  ghost predicate RepeatsKey(it: Item)
  {
    |it.key| == 0 || forall k: nat | k < |it.value| :: it.value[k] == KeyByte(it.key, k)
  }

  lemma {:induction false} CarriedRepeats(it: Item, k: nat)
    requires |it.key| > 0 && k < |it.value| && (it.key + it.value)[..|it.value|] == it.value
    ensures it.value[k] == KeyByte(it.key, k)
  {
    hide KeyByte;
    var n := |it.key|;
    assert (it.key + it.value)[..|it.value|][k] == (it.key + it.value)[k];
    KeyByteBefore(it.key, k);
    if k >= n { CarriedRepeats(it, k - n); }
  }

  lemma RepeatsCarried(it: Item, k: nat)
    requires RepeatsKey(it) && k < |it.value|
    ensures (it.key + it.value)[k] == it.value[k]
  {
    hide KeyByte;
    if |it.key| > 0 { KeyByteBefore(it.key, k); }
  }

  /** The client gets the stored value if and only if that value is the key over and over, or there is no key. */
  lemma ReplyCarriesValueIff(it: Item)
    requires |it.value| < 0x1_0000_0000
    ensures Found(it).bytes[6..] == it.value <==> RepeatsKey(it)
  {
    hide RepeatsKey;
    var sent := (it.key + it.value)[..|it.value|];
    assert Found(it).bytes[6..] == sent;
    if sent == it.value {
      CarriedIsRepeated(it);
    }
    if RepeatsKey(it) {
      forall k: nat | k < |it.value| ensures sent[k] == it.value[k] {
        RepeatsCarried(it, k);
      }
    }
  }

  lemma CarriedIsRepeated(it: Item)
    requires (it.key + it.value)[..|it.value|] == it.value
    ensures RepeatsKey(it)
  {
    if |it.key| > 0 {
      forall k: nat | k < |it.value| ensures it.value[k] == KeyByte(it.key, k) {
        CarriedRepeats(it, k);
      }
    }
  }

  /** A miss is one byte. */
  lemma LiteralMiss()
    ensures NotFound().bytes == [2] && FitsFrame(NotFound())
  {
  }

  /** With an ordinary key and value it is the key that arrives. */
  lemma ReplyWithoutValue()
    ensures var it := Item([1, 0, 0, 0, 1, 0, 0, 0], [7, 7, 7, 7, 7, 7, 7, 7]);
            Found(it).bytes == [1, 0, 8, 0, 0, 0] + it.key && it.key != it.value
  {
    var it := Item([1, 0, 0, 0, 1, 0, 0, 0], [7, 7, 7, 7, 7, 7, 7, 7]);
    assert (it.key + it.value)[..|it.value|] == it.key;
    assert it.key[0] != it.value[0];
    assert Put32(8) == [8, 0, 0, 0];
  }
}

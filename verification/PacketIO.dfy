/**
 The parse loop of the receiver, and the loops that fill request frames in place.
 */
module PacketIO {
  import opened Wire
  import opened PacketKeys
  import opened PacketTurns
  import opened PacketSpec

  /** process_packet. */
  method ProcessPacket(mem: Memory, pktLen: nat, c: Lengths, room: Room) returns (requests: seq<Request>, ret: int)
    ensures Parsed(requests, ret) == Parse(mem, pktLen, c, room)
    ensures ret == -1 || ret == |requests|
    ensures forall k: nat | k < |requests| :: room(requests[..k], requests[k])
  {
    hide Word16, Word32, Read;
    requests := [];
    if Word16(mem, HEADER_LEN) != PROTOCOL_MAGIC {
      return [], -1;
    }
    var ptr: nat := HEADER_LEN + 2;
    ParseReturns(mem, pktLen, c, room, ptr, []);
    while true
      invariant ParseFrom(mem, pktLen, c, room, ptr, requests) == Parse(mem, pktLen, c, room)
      decreases if ptr < pktLen then pktLen - ptr else 0
    {
      var jobType := Word16(mem, ptr);
      ptr := ptr + 2;
      if jobType == END_MARK {
        return requests, |requests|;
      } else if jobType == JOB_GET {
        var nkey := Word16(mem, ptr);
        ptr := ptr + 2;
        if nkey == c.key {
          var r := Search(Word32(mem, ptr), Word32(mem, ptr + 4));
          if !room(requests, r) {
            return requests, -1;
          }
          requests := requests + [r];
        }
        ptr := ptr + nkey;
      } else if jobType == JOB_SET {
        var nkey := Word16(mem, ptr);
        ptr := ptr + 2;
        var nbyte := Word32(mem, ptr);
        ptr := ptr + 4;
        if nkey == c.key && nbyte == c.value {
          var r := Insert(Word32(mem, ptr), Word32(mem, ptr + 4), Read(mem, ptr, nkey), Read(mem, ptr + nkey, nbyte));
          if !room(requests, r) {
            return requests, -1;
          }
          requests := requests + [r];
        }
        ptr := ptr + (nkey + nbyte) % 0x1_0000_0000;
      } else {
        return requests, -1;
      }
      if ptr >= pktLen {
        return requests, -1;
      }
    }
  }

  // ----- writing frames in place --------------------------------------------

  method Store16(pkt: array<Byte>, at: nat, v: Half)
    requires at + 2 <= pkt.Length
    modifies pkt
    ensures pkt[..at + 2] == old(pkt[..at]) + Put16(v)
  {
    pkt[at] := v % 0x100;
    pkt[at + 1] := v / 0x100;
  }

  method Store32(pkt: array<Byte>, at: nat, v: Quad)
    requires at + 4 <= pkt.Length
    modifies pkt
    ensures pkt[..at + 4] == old(pkt[..at]) + Put32(v)
  {
    hide Put16;
    Store16(pkt, at, v % 0x1_0000);
    Store16(pkt, at + 2, v / 0x1_0000);
  }

  /** A query whose key starts with these two words. */
  ghost predicate Starts(q: Query, sig: Quad, hash: Quad)
  {
    |q.key| >= 8 && Get32(q.key, 0) == sig && Get32(q.key, 4) == hash
  }

  lemma TwoWords(s: seq<Byte>, sig: Quad, hash: Quad, rest: seq<Byte>)
    requires s == Put32(sig) + Put32(hash) + rest
    ensures |s| >= 8 && Get32(s, 0) == sig && Get32(s, 4) == hash
  {
    assert s == [] + Put32(sig) + (Put32(hash) + rest);
    Read32([], sig, Put32(hash) + rest);
    Read32(Put32(sig), hash, rest);
  }

  lemma {:induction false} EncodeOneMore(qs: seq<Query>, q: Query, c: Lengths)
    requires Usable(c) && AllFit(qs, c) && Fits(q, c)
    ensures AllFit(qs + [q], c) && EncodeAll(qs + [q]) == EncodeAll(qs) + Encode(q)
    decreases |qs|
  {
    hide Encode;
    if qs == [] {
      assert [q][1..] == [];
    } else {
      EncodeOneMore(qs[1..], q, c);
      assert (qs + [q])[1..] == qs[1..] + [q];
      assert EncodeAll(qs) == Encode(qs[0]) + EncodeAll(qs[1..]);
    }
  }

  /** Writes the two key words; the rest of the key keeps what the buffer held. */
  method StoreKey(pkt: array<Byte>, at: nat, sig: Quad, hash: Quad)
    requires at + 8 <= pkt.Length
    modifies pkt
    ensures pkt[..at + 8] == old(pkt[..at]) + (Put32(sig) + Put32(hash))
  {
    hide Put32;
    Store32(pkt, at, sig);
    Store32(pkt, at + 4, hash);
  }

  lemma KeyAt(s: seq<Byte>, pre: seq<Byte>, sig: Quad, hash: Quad, end: nat)
    requires |pre| + 8 <= end <= |s| && s[..|pre| + 8] == pre + (Put32(sig) + Put32(hash))
    ensures var key := s[|pre|..end]; Get32(key, 0) == sig && Get32(key, 4) == hash && s[..end] == pre + key
  {
    hide Put32, Get32;
    var words := Put32(sig) + Put32(hash);
    var key, rest := s[|pre|..end], s[|pre| + 8..end];
    assert key == s[..|pre| + 8][|pre|..] + rest;
    assert s[..|pre| + 8][|pre|..] == words;
    TwoWords(key, sig, hash, rest);
    assert s[..end] == s[..|pre| + 8] + rest;
  }

  /** A GET query; returns the place behind it. */
  method StoreGet(pkt: array<Byte>, ptr: nat, sig: Quad, hash: Quad, c: Lengths) returns (next: nat, ghost q: Query)
    requires Usable(c) && ptr + c.key + 4 <= pkt.Length
    modifies pkt
    ensures next == ptr + c.key + 4
    ensures q.Get? && Fits(q, c) && Starts(q, sig, hash)
    ensures pkt[..next] == old(pkt[..ptr]) + Encode(q)
  {
    hide Put16, Put32, Get32;
    ghost var pre := pkt[..ptr];
    Store16(pkt, ptr, JOB_GET);
    Store16(pkt, ptr + 2, c.key);
    ghost var head := Put16(JOB_GET) + Put16(c.key);
    assert pkt[..ptr + 4] == pre + head;
    StoreKey(pkt, ptr + 4, sig, hash);
    next := ptr + 4 + c.key;
    KeyAt(pkt[..], pre + head, sig, hash, next);
    q := Get(pkt[ptr + 4..next]);
    assert Encode(q) == head + q.key;
  }

  /** A SET query; its value, too, is what the buffer held. */
  method StoreSet(pkt: array<Byte>, ptr: nat, sig: Quad, hash: Quad, c: Lengths) returns (next: nat, ghost q: Query)
    requires Usable(c) && ptr + c.key + c.value + 8 <= pkt.Length
    modifies pkt
    ensures next == ptr + c.key + c.value + 8
    ensures q.Set? && Fits(q, c) && Starts(q, sig, hash)
    ensures pkt[..next] == old(pkt[..ptr]) + Encode(q)
  {
    hide Put16, Put32, Get32, Encode;
    ghost var pre := pkt[..ptr];
    Store16(pkt, ptr, JOB_SET);
    Store16(pkt, ptr + 2, c.key);
    Store32(pkt, ptr + 4, c.value);
    ghost var head := Put16(JOB_SET) + Put16(c.key) + Put32(c.value);
    assert pkt[..ptr + 8] == pre + head;
    StoreKey(pkt, ptr + 8, sig, hash);
    var mid := ptr + 8 + c.key;
    next := mid + c.value;
    ghost var s := pkt[..];
    KeyAt(s, pre + head, sig, hash, mid);
    q := Set(s[ptr + 8..mid], s[mid..next]);
    assert s[..next] == s[..mid] + s[mid..next];
    SetEncoded(pre, head, q.key, q.value);
  }

  lemma SetEncoded(pre: seq<Byte>, head: seq<Byte>, key: seq<Byte>, value: seq<Byte>)
    requires Encodable(Set(key, value))
    requires head == Put16(JOB_SET) + Put16(|key|) + Put32(|value|)
    ensures pre + Encode(Set(key, value)) == (pre + head) + key + value
  {
    hide Put16, Put32;
    assert Encode(Set(key, value)) == head + key + value;
  }

  /** A frame under construction: magic number and the queries so far. */
  ghost predicate Holding(pkt: array<Byte>, ptr: nat, qs: seq<Query>, c: Lengths)
    reads pkt
  {
    && HEADER_LEN <= ptr <= pkt.Length && Usable(c) && AllFit(qs, c)
    && pkt[HEADER_LEN..ptr] == Put16(PROTOCOL_MAGIC) + EncodeAll(qs)
  }

  lemma HoldingMore(before: seq<Byte>, after: seq<Byte>, qs: seq<Query>, q: Query, c: Lengths)
    requires Usable(c) && AllFit(qs, c) && Fits(q, c)
    requires |before| >= HEADER_LEN && before[HEADER_LEN..] == Put16(PROTOCOL_MAGIC) + EncodeAll(qs)
    requires after == before + Encode(q)
    ensures AllFit(qs + [q], c) && after[HEADER_LEN..] == Put16(PROTOCOL_MAGIC) + EncodeAll(qs + [q])
  {
    hide Encode;
    EncodeOneMore(qs, q, c);
    assert after[HEADER_LEN..] == before[HEADER_LEN..] + Encode(q);
  }

  /** The packet loop of preload: SET queries with consecutive keys, until the frame or the keys run out. */
  method WriteSets(pkt: array<Byte>, setKey0: Quad, preloadCnt: Quad, c: Lengths, bits: nat)
    returns (payloadLen: nat, setKey: Quad, ghost qs: seq<Query>)
    requires pkt.Length == FRAME_LEN && Usable(c) && bits <= 8 && setKey0 < preloadCnt
    requires pkt[HEADER_LEN..HEADER_LEN + 2] == Put16(PROTOCOL_MAGIC)
    modifies pkt
    ensures HEADER_LEN <= payloadLen <= FRAME_LEN && AllFit(qs, c)
    ensures pkt[HEADER_LEN..payloadLen] == Payload(qs)
    ensures setKey == setKey0 + |qs| <= preloadCnt
    ensures setKey < preloadCnt ==> payloadLen + c.key + c.value + 8 > FRAME_LEN
    ensures forall k | 0 <= k < |qs| :: qs[k].Set? && Starts(qs[k], setKey0 + k, HashWord(setKey0 + k, bits))
  {
    hide Encode, EncodeAll, HashWord, Starts, Put16;
    var ptr := HEADER_LEN + 2;
    payloadLen, setKey, qs := HEADER_LEN + 2 + 2, setKey0, [];
    EncodeNothing(c);
    while payloadLen + c.key + c.value + 8 <= FRAME_LEN
      invariant payloadLen == ptr + 2 <= FRAME_LEN && Holding(pkt, ptr, qs, c)
      invariant setKey == setKey0 + |qs| < preloadCnt
      invariant forall k | 0 <= k < |qs| :: qs[k].Set? && Starts(qs[k], setKey0 + k, HashWord(setKey0 + k, bits))
      decreases FRAME_LEN - payloadLen
    {
      ghost var before := pkt[..ptr];
      assert before[HEADER_LEN..] == pkt[HEADER_LEN..ptr];
      var next;
      ghost var q;
      next, q := StoreSet(pkt, ptr, setKey, HashWord(setKey, bits), c);
      HoldingMore(before, pkt[..next], qs, q, c);
      assert pkt[..next][HEADER_LEN..] == pkt[HEADER_LEN..next];
      qs := qs + [q];
      ptr := next;
      payloadLen := payloadLen + c.key + c.value + 8;
      setKey := setKey + 1;
      if setKey >= preloadCnt {
        break;
      }
    }
    ghost var s := pkt[HEADER_LEN..ptr];
    Store16(pkt, ptr, END_MARK);
    assert pkt[HEADER_LEN..payloadLen] == s + Put16(END_MARK);
  }

  /**
   The packet loop of the local test: runs of GET and SET queries take turns.
   The program stops when its own SET keys have run out.
   */
  method WriteMixed(pkt: array<Byte>, numGet0: nat, numSet0: nat, definedGet: nat, definedSet: nat,
                    getKeys: nat -> Quad, setKey0: Quad, setLimit: Quad, c: Lengths, bits: nat)
    returns (exhausted: bool, payloadLen: nat, numGet: nat, numSet: nat, setKey: Quad, ghost qs: seq<Query>,
        ghost keys: seq<Quad>)
    requires pkt.Length == FRAME_LEN && Usable(c) && bits <= 8 && setKey0 < setLimit
    requires definedGet + definedSet > 0 && numGet0 + numSet0 > 0
    requires pkt[HEADER_LEN..HEADER_LEN + 2] == Put16(PROTOCOL_MAGIC)
    modifies pkt
    ensures HEADER_LEN <= payloadLen <= FRAME_LEN && AllFit(qs, c) && |keys| == |qs|
    ensures !exhausted ==> pkt[HEADER_LEN..payloadLen] == Payload(qs) && numGet + numSet > 0 && setKey < setLimit
    ensures !exhausted ==> payloadLen + (if numGet > 0 then c.key + 4 else c.key + c.value + 8) > FRAME_LEN
    ensures forall k | 0 <= k < |qs| :: Starts(qs[k], keys[k], HashWord(keys[k], bits))
    ensures InTurn(Turns(numGet0, numSet0, definedGet, definedSet), Turns(numGet, numSet, definedGet, definedSet),
                   qs, keys, getKeys, setKey0 + 1)
    ensures setKey == setKey0 + |qs| - Gets(qs)
    ensures exhausted ==> numGet == 0 && setKey + 1 == setLimit
  {
    hide Encode, EncodeAll, HashWord, Starts, Put16, Holding, InTurn, Gets;
    ghost var t0 := Turns(numGet0, numSet0, definedGet, definedSet);
    var ptr, gets := HEADER_LEN + 2, 0;
    exhausted, payloadLen, setKey, qs, keys := false, HEADER_LEN + 2 + 2, setKey0, [], [];
    numGet, numSet := numGet0, numSet0;
    NothingHeld(pkt, c);
    NothingYet(t0, getKeys, setKey0 + 1);
    while true
      invariant payloadLen == ptr + 2 <= FRAME_LEN && Holding(pkt, ptr, qs, c)
      invariant !exhausted && numGet + numSet > 0 && setKey < setLimit && |keys| == |qs|
      invariant forall k | 0 <= k < |qs| :: Starts(qs[k], keys[k], HashWord(keys[k], bits))
      invariant InTurn(t0, Turns(numGet, numSet, definedGet, definedSet), qs, keys, getKeys, setKey0 + 1)
      invariant gets == Gets(qs) && setKey == setKey0 + |qs| - gets
      decreases FRAME_LEN - payloadLen
    {
      ghost var before, qs0, keys0 := pkt[..ptr], qs, keys;
      ghost var t := Turns(numGet, numSet, definedGet, definedSet);
      ghost var q;
      if numGet > 0 {
        if payloadLen + c.key + 4 > FRAME_LEN {
          break;
        }
        var key := getKeys(gets);
        gets := gets + 1;
        HeldSoFar(pkt, ptr, qs, c);
        ptr, q := StoreGet(pkt, ptr, key, HashWord(key, bits), c);
        qs, keys := qs + [q], keys + [key];
        payloadLen := payloadLen + c.key + 4;
        numGet := numGet - 1;
        if numGet == 0 && definedSet > 0 {
          numSet := definedSet;
        } else if numGet == 0 {
          numGet := definedGet;
        }
      } else {
        if payloadLen + c.key + c.value + 8 > FRAME_LEN {
          break;
        }
        if setKey + 1 >= setLimit {
          HeldSoFar(pkt, ptr, qs, c);
          exhausted := true;
          return;
        }
        setKey := setKey + 1;
        HeldSoFar(pkt, ptr, qs, c);
        ptr, q := StoreSet(pkt, ptr, setKey, HashWord(setKey, bits), c);
        qs, keys := qs + [q], keys + [setKey];
        payloadLen := payloadLen + c.key + c.value + 8;
        numSet := numSet - 1;
        if numSet == 0 && definedGet > 0 {
          numGet := definedGet;
        } else if numSet == 0 {
          numSet := definedSet;
        }
      }
      HeldMore(pkt, ptr, before, qs0, q, c);
      OneMoreTurn(t0, t, qs0, keys0, getKeys, setKey0 + 1, q, keys[|qs0|]);
      assert NextTurn(t) == Turns(numGet, numSet, definedGet, definedSet);
    }
    HeldSoFar(pkt, ptr, qs, c);
    ghost var s := pkt[..ptr];
    Store16(pkt, ptr, END_MARK);
    assert pkt[HEADER_LEN..payloadLen] == s[HEADER_LEN..] + Put16(END_MARK);
  }

  lemma NothingHeld(pkt: array<Byte>, c: Lengths)
    requires Usable(c) && pkt.Length == FRAME_LEN && pkt[HEADER_LEN..HEADER_LEN + 2] == Put16(PROTOCOL_MAGIC)
    ensures Holding(pkt, HEADER_LEN + 2, [], c)
  {
  }

  lemma HeldSoFar(pkt: array<Byte>, ptr: nat, qs: seq<Query>, c: Lengths)
    requires Holding(pkt, ptr, qs, c)
    ensures HEADER_LEN <= ptr <= pkt.Length && Usable(c) && AllFit(qs, c)
    ensures pkt[..ptr][HEADER_LEN..] == Put16(PROTOCOL_MAGIC) + EncodeAll(qs)
  {
  }

  lemma HeldMore(pkt: array<Byte>, ptr: nat, before: seq<Byte>, qs: seq<Query>, q: Query, c: Lengths)
    requires Usable(c) && AllFit(qs, c) && Fits(q, c)
    requires |before| >= HEADER_LEN && before[HEADER_LEN..] == Put16(PROTOCOL_MAGIC) + EncodeAll(qs)
    requires ptr <= pkt.Length && pkt[..ptr] == before + Encode(q)
    ensures Holding(pkt, ptr, qs + [q], c)
  {
    hide Encode, EncodeAll;
    HoldingMore(before, pkt[..ptr], qs, q, c);
    assert pkt[..ptr][HEADER_LEN..] == pkt[HEADER_LEN..ptr];
  }

  /** A written frame, read by the receiver, yields the written keys as signature and hash, in order and number. */
  lemma WrittenFrameParses(frame: seq<Byte>, payloadLen: nat, qs: seq<Query>, keys: seq<Quad>, c: Lengths, bits: nat,
                           mem: Memory, room: Room)
    requires Usable(c) && AllFit(qs, c) && |keys| == |qs| && bits <= 8
    requires HEADER_LEN <= payloadLen <= |frame| && frame[HEADER_LEN..payloadLen] == Payload(qs)
    requires forall k | 0 <= k < |qs| :: Starts(qs[k], keys[k], HashWord(keys[k], bits))
    requires forall k | 0 <= k < |frame| :: mem(k) == frame[k]
    requires RoomForAll(room, [], qs, c)
    ensures var p := Parse(mem, payloadLen, c, room);
            && p.ret == |qs| == |p.requests|
            && forall k | 0 <= k < |qs| ::
                 p.requests[k].sig == keys[k] && p.requests[k].hash == HashWord(keys[k], bits)
                     && p.requests[k].Search? == qs[k].Get?
  {
    hide HashWord, Parse, Payload, RoomForAll;
    assert Read(mem, HEADER_LEN, payloadLen - HEADER_LEN) == frame[HEADER_LEN..payloadLen];
    PacketRoundTrip(mem, payloadLen, c, room, qs);
    forall k | 0 <= k < |qs|
      ensures RequestsOf(qs, c)[k].sig == keys[k] && RequestsOf(qs, c)[k].hash == HashWord(keys[k], bits)
      ensures RequestsOf(qs, c)[k].Search? == qs[k].Get?
    {
      RequestAt(qs, c, k);
    }
  }

  lemma {:induction false} RequestAt(qs: seq<Query>, c: Lengths, k: nat)
    requires Usable(c) && AllFit(qs, c) && k < |qs|
    ensures |qs[k].key| >= 8 && RequestsOf(qs, c)[k] == RequestOf(qs[k])
    decreases k
  {
    assert Fits(qs[k], c);
    if k > 0 {
      RequestAt(qs[1..], c, k - 1);
    }
  }

  lemma EncodeNothing(c: Lengths)
    requires Usable(c)
    ensures AllFit([], c) && EncodeAll([]) == []
  {
  }
}

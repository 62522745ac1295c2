/**
 Request packets: a 16-bit magic number, GET and SET queries, and a 16-bit end
 mark, behind 42 bytes of network headers.
 */
module PacketSpec {
  import opened Wire

  const PROTOCOL_MAGIC: Half := 0x1234
  const END_MARK: Half := 0xFFFF
  const JOB_GET: Half := 2
  const JOB_SET: Half := 3

  /** The one key and value length a server is built for. */
  datatype Lengths = Lengths(key: nat, value: nat)

  ghost predicate Usable(c: Lengths)
  {
    8 <= c.key < 0x1_0000 && c.value < 0x1_0000_0000 && c.key + c.value < 0x1_0000_0000
  }

  datatype Query =
    | Get(key: seq<Byte>)
    | Set(key: seq<Byte>, value: seq<Byte>)

  ghost predicate Fits(q: Query, c: Lengths)
  {
    |q.key| == c.key && (q.Set? ==> |q.value| == c.value)
  }

  ghost predicate AllFit(qs: seq<Query>, c: Lengths)
  {
    forall k | 0 <= k < |qs| :: Fits(qs[k], c)
  }

  // ----- writing ------------------------------------------------------------

  /** The lengths can be written down, and their sum does not wrap around. */
  predicate Encodable(q: Query)
  {
    |q.key| < 0x1_0000 && (q.Set? ==> |q.key| + |q.value| < 0x1_0000_0000)
  }

  predicate AllEncodable(qs: seq<Query>)
  {
    forall k | 0 <= k < |qs| :: Encodable(qs[k])
  }

  function Encode(q: Query): (s: seq<Byte>)
    requires Encodable(q)
    ensures |s| == if q.Get? then |q.key| + 4 else |q.key| + |q.value| + 8
  {
    match q
    case Get(key) => Put16(JOB_GET) + Put16(|key|) + key
    case Set(key, value) => Put16(JOB_SET) + Put16(|key|) + Put32(|value|) + key + value
  }

  function EncodeAll(qs: seq<Query>): (s: seq<Byte>)
    requires AllEncodable(qs)
  {
    if qs == [] then [] else Encode(qs[0]) + EncodeAll(qs[1..])
  }

  /** The payload of a packet. */
  function Payload(qs: seq<Query>): (s: seq<Byte>)
    requires AllEncodable(qs)
  {
    Put16(PROTOCOL_MAGIC) + EncodeAll(qs) + Put16(END_MARK)
  }

  /** Queries of the right lengths can be written. */
  lemma FitIsEncodable(qs: seq<Query>, c: Lengths)
    requires Usable(c) && AllFit(qs, c)
    ensures AllEncodable(qs)
  {
    forall k | 0 <= k < |qs| ensures Encodable(qs[k]) {
      assert Fits(qs[k], c);
    }
  }

  lemma EncodeFirst(qs: seq<Query>)
    requires AllEncodable(qs) && qs != []
    ensures EncodeAll(qs) == Encode(qs[0]) + EncodeAll(qs[1..]) && EncodeAll([]) == []
  {
  }

  const GET_EXAMPLE: Query := Get([1, 0, 0, 0, 5, 0, 0, 0])
  const SET_EXAMPLE: Query := Set([2, 0, 0, 0, 6, 0, 0, 0], [7, 8])

  /** A query of each kind, byte by byte. */
  lemma LiteralGet()
    ensures Encodable(GET_EXAMPLE) && Encode(GET_EXAMPLE) == [2, 0, 8, 0, 1, 0, 0, 0, 5, 0, 0, 0]
  {
  }

  lemma LiteralSet()
    ensures Encodable(SET_EXAMPLE)
    ensures Encode(SET_EXAMPLE) == [3, 0, 8, 0, 2, 0, 0, 0, 2, 0, 0, 0, 6, 0, 0, 0, 7, 8]
  {
  }

  /** A packet with both. */
  lemma LiteralPacket()
    ensures AllEncodable([GET_EXAMPLE, SET_EXAMPLE])
    ensures Payload([GET_EXAMPLE, SET_EXAMPLE]) ==
            [0x34, 0x12] +
            [2, 0, 8, 0, 1, 0, 0, 0, 5, 0, 0, 0] +
            [3, 0, 8, 0, 2, 0, 0, 0, 2, 0, 0, 0, 6, 0, 0, 0, 7, 8] +
            [0xFF, 0xFF]
  {
    hide Encode, Encodable, EncodeAll;
    LiteralGet();
    LiteralSet();
    var qs := [GET_EXAMPLE, SET_EXAMPLE];
    assert qs[1..] == [SET_EXAMPLE] && [SET_EXAMPLE][1..] == [];
    EncodeFirst(qs);
    EncodeFirst([SET_EXAMPLE]);
  }

  // ----- parsing ------------------------------------------------------------

  /** What the parser makes of a query: signature and hash are the first two words of the key. */
  datatype Request =
    | Search(sig: Quad, hash: Quad)
    | Insert(sig: Quad, hash: Quad, key: seq<Byte>, value: seq<Byte>)

  /** Memory from the start of the packet on; the parser looks ahead of its length checks. */
  type Memory = nat -> Byte

  function Read(mem: Memory, at: nat, n: nat): (s: seq<Byte>)
    ensures |s| == n && forall k | 0 <= k < n :: s[k] == mem(at + k)
  {
    seq(n, k requires 0 <= k < n => mem(at + k))
  }

  function Word16(mem: Memory, at: nat): Half
  {
    Get16(Read(mem, at, 2), 0)
  }

  function Word32(mem: Memory, at: nat): Quad
  {
    Get32(Read(mem, at, 4), 0)
  }

  /** Requests accepted, and the value returned: their number, or -1. */
  datatype Parsed = Parsed(requests: seq<Request>, ret: int)

  /** Whether the batch buffer has room for one more request after those of this packet. */
  type Room = (seq<Request>, Request) -> bool

  /** The parse loop from ptr on, after the requests in `got`. */
  function ParseFrom(mem: Memory, pktLen: nat, c: Lengths, room: Room, ptr: nat, got: seq<Request>): (p: Parsed)
    decreases if ptr < pktLen then pktLen - ptr else 0
  {
    var jobType := Word16(mem, ptr);
    if jobType == END_MARK then Parsed(got, |got|)
    else if jobType == JOB_GET then
      var nkey := Word16(mem, ptr + 2);
      var key := ptr + 4;
      if nkey == c.key then
        var r := Search(Word32(mem, key), Word32(mem, key + 4));
        if room(got, r) then Continue(mem, pktLen, c, room, ptr, key + nkey, got + [r]) else Parsed(got, -1)
      else
        Continue(mem, pktLen, c, room, ptr, key + nkey, got)
    else if jobType == JOB_SET then
      var nkey := Word16(mem, ptr + 2);
      var nbyte := Word32(mem, ptr + 4);
      var key := ptr + 8;
      var next := key + (nkey + nbyte) % 0x1_0000_0000;
      if nkey == c.key && nbyte == c.value then
        var r := Insert(Word32(mem, key), Word32(mem, key + 4), Read(mem, key, nkey), Read(mem, key + nkey, nbyte));
        if room(got, r) then Continue(mem, pktLen, c, room, ptr, next, got + [r]) else Parsed(got, -1)
      else
        Continue(mem, pktLen, c, room, ptr, next, got)
    else Parsed(got, -1)
  }

  /** The check at the end of the loop body. */
  function Continue(mem: Memory, pktLen: nat, c: Lengths, room: Room, ptr: nat, next: nat,
                    got: seq<Request>): (p: Parsed)
    requires ptr + 4 <= next
    decreases if ptr < pktLen then pktLen - ptr else 0, 0
  {
    if next >= pktLen then Parsed(got, -1)
    else ParseFrom(mem, pktLen, c, room, next, got)
  }

  function Parse(mem: Memory, pktLen: nat, c: Lengths, room: Room): (p: Parsed)
  {
    if Word16(mem, HEADER_LEN) != PROTOCOL_MAGIC then Parsed([], -1)
    else ParseFrom(mem, pktLen, c, room, HEADER_LEN + 2, [])
  }

  // ----- round trip ---------------------------------------------------------

  function RequestOf(q: Query): Request
    requires |q.key| >= 8
  {
    match q
    case Get(key) => Search(Get32(key, 0), Get32(key, 4))
    case Set(key, value) => Insert(Get32(key, 0), Get32(key, 4), key, value)
  }

  function RequestsOf(qs: seq<Query>, c: Lengths): (rs: seq<Request>)
    requires Usable(c) && AllFit(qs, c)
    ensures |rs| == |qs|
  {
    if qs == [] then []
    else
      assert Fits(qs[0], c);
      [RequestOf(qs[0])] + RequestsOf(qs[1..], c)
  }

  /** The bytes s lie in memory at `at`. */
  ghost predicate Holds(mem: Memory, at: nat, s: seq<Byte>)
  {
    Read(mem, at, |s|) == s
  }

  lemma HoldsParts(mem: Memory, at: nat, a: seq<Byte>, b: seq<Byte>)
    requires Holds(mem, at, a + b)
    ensures Holds(mem, at, a) && Holds(mem, at + |a|, b)
  {
    var s := Read(mem, at, |a + b|);
    assert Read(mem, at, |a|) == a by {
      forall k | 0 <= k < |a| ensures mem(at + k) == a[k] {
        assert s[k] == (a + b)[k];
      }
    }
    assert Read(mem, at + |a|, |b|) == b by {
      forall k | 0 <= k < |b| ensures mem(at + |a| + k) == b[k] {
        assert s[|a| + k] == (a + b)[|a| + k];
      }
    }
  }

  lemma Holds16(mem: Memory, at: nat, v: Half)
    requires Holds(mem, at, Put16(v))
    ensures Word16(mem, at) == v
  {
  }

  lemma Holds32(mem: Memory, at: nat, v: Quad)
    requires Holds(mem, at, Put32(v))
    ensures Word32(mem, at) == v
  {
    Read32([], v, []);
    assert [] + Put32(v) + [] == Put32(v);
  }

  /** The first two words of a key are read in place. */
  lemma HoldsKey(mem: Memory, at: nat, key: seq<Byte>)
    requires Holds(mem, at, key) && |key| >= 8
    ensures Word32(mem, at) == Get32(key, 0) && Word32(mem, at + 4) == Get32(key, 4)
  {
    var s := Read(mem, at, |key|);
    forall k: nat | k < |key| ensures mem(at + k) == key[k] {
      assert s[k] == key[k];
    }
    assert mem(at + 4 + 0) == key[4] && mem(at + 4 + 1) == key[5];
    assert mem(at + 4 + 2) == key[6] && mem(at + 4 + 3) == key[7];
  }

  // ----- any list of queries ------------------------------------------------

  /** What the server accepts of a list of queries, and whether it then refuses one for lack of room. */
  datatype Take = Take(requests: seq<Request>, refused: bool)

  /** The queries of the right lengths, in order, up to the first that finds no room. */
  ghost function TakenFrom(qs: seq<Query>, c: Lengths, room: Room, got: seq<Request>): Take
    requires Usable(c)
  {
    if qs == [] then Take(got, false)
    else if !Fits(qs[0], c) then TakenFrom(qs[1..], c, room, got)
    else if !room(got, RequestOf(qs[0])) then Take(got, true)
    else TakenFrom(qs[1..], c, room, got + [RequestOf(qs[0])])
  }

  ghost function RightOnes(qs: seq<Query>, c: Lengths): (r: seq<Query>)
    ensures AllFit(r, c)
  {
    if qs == [] then []
    else (if Fits(qs[0], c) then [qs[0]] else []) + RightOnes(qs[1..], c)
  }

  /** All right ones among the first n; the next one, if there is one, is right and has been refused. */
  lemma {:induction false} TakenIs(qs: seq<Query>, c: Lengths, room: Room, got: seq<Request>) returns (n: nat)
    requires Usable(c)
    ensures var d := TakenFrom(qs, c, room, got);
            && n <= |qs| && d.requests == got + RequestsOf(RightOnes(qs[..n], c), c)
            && (if d.refused then n < |qs| && Fits(qs[n], c) && !room(d.requests, RequestOf(qs[n])) else n == |qs|)
            && forall k: nat | |got| <= k < |d.requests| :: room(d.requests[..k], d.requests[k])
    decreases |qs|
  {
    hide RequestOf;
    if qs == [] {
      n := 0;
      assert got + RequestsOf(RightOnes([], c), c) == got;
    } else if Fits(qs[0], c) && !room(got, RequestOf(qs[0])) {
      n := 0;
      assert qs[..0] == [];
      assert got + RequestsOf(RightOnes([], c), c) == got;
    } else {
      var got' := if Fits(qs[0], c) then got + [RequestOf(qs[0])] else got;
      var m := TakenIs(qs[1..], c, room, got');
      n := m + 1;
      assert qs[..n][1..] == qs[1..][..m];
      var right := RightOnes(qs[1..][..m], c);
      var d := TakenFrom(qs, c, room, got);
      if Fits(qs[0], c) {
        assert RightOnes(qs[..n], c) == [qs[0]] + right;
        assert ([qs[0]] + right)[1..] == right;
        assert got' + RequestsOf(right, c) == got + RequestsOf([qs[0]] + right, c);
        assert d.requests[..|got|] == got;
      } else {
        assert RightOnes(qs[..n], c) == [] + right == right;
      }
    }
  }

  /** The parser is inside the packet after every query but the last. */
  predicate Inside(qs: seq<Query>, ptr: nat, pktLen: nat)
    requires AllEncodable(qs)
  {
    |qs| <= 1 || (ptr + |Encode(qs[0])| < pktLen && Inside(qs[1..], ptr + |Encode(qs[0])|, pktLen))
  }

  /** One query in memory is one step of the parse loop. */
  lemma ParseGet(mem: Memory, pktLen: nat, c: Lengths, room: Room, ptr: nat, got: seq<Request>, key: seq<Byte>)
    requires Usable(c) && Encodable(Get(key)) && Holds(mem, ptr, Encode(Get(key)))
    ensures ParseFrom(mem, pktLen, c, room, ptr, got) == OneQuery(mem, pktLen, c, room, ptr, got, Get(key))
  {
    hide Read, Holds, Put16, Get32, Word16, Word32;
    var head := Put16(JOB_GET) + Put16(|key|);
    HoldsParts(mem, ptr, head, key);
    HoldsParts(mem, ptr, Put16(JOB_GET), Put16(|key|));
    Holds16(mem, ptr, JOB_GET);
    Holds16(mem, ptr + 2, |key|);
    if |key| >= 8 { HoldsKey(mem, ptr + 4, key); }
  }

  lemma ParseSet(mem: Memory, pktLen: nat, c: Lengths, room: Room, ptr: nat, got: seq<Request>, key: seq<Byte>,
                 value: seq<Byte>)
    requires Usable(c) && Encodable(Set(key, value)) && Holds(mem, ptr, Encode(Set(key, value)))
    ensures ParseFrom(mem, pktLen, c, room, ptr, got) == OneQuery(mem, pktLen, c, room, ptr, got, Set(key, value))
  {
    hide Read, Put16, Put32, Get32, Word16, Word32;
    var jobType, nkey, nbyte := Put16(JOB_SET), Put16(|key|), Put32(|value|);
    HoldsParts(mem, ptr, jobType + nkey + nbyte + key, value);
    HoldsParts(mem, ptr, jobType + nkey + nbyte, key);
    HoldsParts(mem, ptr, jobType + nkey, nbyte);
    HoldsParts(mem, ptr, jobType, nkey);
    Holds16(mem, ptr, JOB_SET);
    Holds16(mem, ptr + 2, |key|);
    Holds32(mem, ptr + 4, |value|);
    if |key| >= 8 { HoldsKey(mem, ptr + 8, key); }
  }

  /** The parser behind a query it has found at ptr. */
  ghost function OneQuery(mem: Memory, pktLen: nat, c: Lengths, room: Room, ptr: nat, got: seq<Request>,
                          q: Query): Parsed
    requires Usable(c) && Encodable(q)
  {
    if !Fits(q, c) then Behind(mem, pktLen, c, room, ptr + |Encode(q)|, got)
    else if !room(got, RequestOf(q)) then Parsed(got, -1)
    else Behind(mem, pktLen, c, room, ptr + |Encode(q)|, got + [RequestOf(q)])
  }

  ghost function Behind(mem: Memory, pktLen: nat, c: Lengths, room: Room, ptr: nat, got: seq<Request>): Parsed
  {
    if ptr >= pktLen then Parsed(got, -1) else ParseFrom(mem, pktLen, c, room, ptr, got)
  }

  /** A list of queries in memory, lengths right or wrong, and whatever follows it. */
  lemma {:induction false} ParseQueries(mem: Memory, pktLen: nat, c: Lengths, room: Room, ptr: nat,
                                        got: seq<Request>, qs: seq<Query>)
    requires Usable(c) && AllEncodable(qs) && qs != []
    requires Holds(mem, ptr, EncodeAll(qs)) && Inside(qs, ptr, pktLen)
    ensures var d := TakenFrom(qs, c, room, got);
            ParseFrom(mem, pktLen, c, room, ptr, got) ==
            if d.refused then Parsed(d.requests, -1)
            else Behind(mem, pktLen, c, room, ptr + |EncodeAll(qs)|, d.requests)
    decreases |qs|
  {
    hide Read, Put16, Put32, Get32, Word16, Word32, Holds, Encode, ParseFrom, RequestOf;
    var q, rest := qs[0], qs[1..];
    HoldsParts(mem, ptr, Encode(q), EncodeAll(rest));
    match q {
      case Get(key) => ParseGet(mem, pktLen, c, room, ptr, got, key);
      case Set(key, value) => ParseSet(mem, pktLen, c, room, ptr, got, key, value);
    }
    if rest != [] && (Fits(q, c) ==> room(got, RequestOf(q))) {
      var got' := if Fits(q, c) then got + [RequestOf(q)] else got;
      ParseQueries(mem, pktLen, c, room, ptr + |Encode(q)|, got', rest);
    }
  }

  /**
   What a packet with any list of queries is parsed into: the queries of the right
   lengths, in order, up to the first that finds no room.  Their number is returned if
   all have been taken and the end mark follows; a refusal, the end of the packet or an
   unknown job type gives -1.
   */
  lemma AnyPacket(mem: Memory, pktLen: nat, c: Lengths, room: Room, qs: seq<Query>)
    requires Usable(c) && AllEncodable(qs) && Inside(qs, HEADER_LEN + 2, pktLen)
    requires Holds(mem, HEADER_LEN, Put16(PROTOCOL_MAGIC) + EncodeAll(qs))
    ensures var d, end, p := TakenFrom(qs, c, room, []), HEADER_LEN + 2 + |EncodeAll(qs)|, Parse(mem, pktLen, c, room);
            var inside, next := qs == [] || end < pktLen, Word16(mem, end);
            && (d.refused || !inside ==> p == Parsed(d.requests, -1))
            && (!d.refused && inside && next == END_MARK ==> p == Parsed(d.requests, |d.requests|))
            && (!d.refused && inside && next != END_MARK && next != JOB_GET && next != JOB_SET ==>
                  p == Parsed(d.requests, -1))
  {
    hide Read, Put16, EncodeAll, Holds, TakenFrom, Inside;
    HoldsParts(mem, HEADER_LEN, Put16(PROTOCOL_MAGIC), EncodeAll(qs));
    Holds16(mem, HEADER_LEN, PROTOCOL_MAGIC);
    NothingTaken(c, room, []);
    if qs != [] {
      ParseQueries(mem, pktLen, c, room, HEADER_LEN + 2, [], qs);
    }
  }

  lemma NothingTaken(c: Lengths, room: Room, got: seq<Request>)
    requires Usable(c)
    ensures TakenFrom([], c, room, got) == Take(got, false) && EncodeAll([]) == []
  {
  }

  /** Without the magic number nothing is accepted. */
  lemma WrongMagic(mem: Memory, pktLen: nat, c: Lengths, room: Room)
    requires Word16(mem, 42) != 0x1234
    ensures Parse(mem, pktLen, c, room) == Parsed([], -1)
  {
  }

  /** A SET whose lengths add up to 2^32 or more: the parser goes on where the sum has wrapped around to. */
  lemma OverlongSet(mem: Memory, pktLen: nat, c: Lengths, room: Room, ptr: nat, got: seq<Request>, nkey: Half,
                    nbyte: Quad)
    requires Usable(c) && nkey + nbyte >= 0x1_0000_0000
    requires Holds(mem, ptr, Put16(JOB_SET) + Put16(nkey) + Put32(nbyte))
    ensures ParseFrom(mem, pktLen, c, room, ptr, got) ==
            Behind(mem, pktLen, c, room, ptr + 8 + nkey + nbyte - 0x1_0000_0000, got)
  {
    hide Read, Put16, Put32, Get32, Word16, Word32;
    HoldsParts(mem, ptr, Put16(JOB_SET) + Put16(nkey), Put32(nbyte));
    HoldsParts(mem, ptr, Put16(JOB_SET), Put16(nkey));
    Holds16(mem, ptr, JOB_SET);
    Holds16(mem, ptr + 2, nkey);
    Holds32(mem, ptr + 4, nbyte);
  }

  // ----- queries that all are accepted --------------------------------------

  /** The buffer takes all requests of the queries, one after the other. */
  ghost predicate RoomForAll(room: Room, got: seq<Request>, qs: seq<Query>, c: Lengths)
    requires Usable(c) && AllFit(qs, c)
    decreases |qs|
  {
    qs == [] ||
    (assert Fits(qs[0], c); room(got, RequestOf(qs[0])) && RoomForAll(room, got + [RequestOf(qs[0])], qs[1..], c))
  }

  lemma {:induction false} AllTaken(room: Room, got: seq<Request>, qs: seq<Query>, c: Lengths)
    requires Usable(c) && AllFit(qs, c) && RoomForAll(room, got, qs, c)
    ensures TakenFrom(qs, c, room, got) == Take(got + RequestsOf(qs, c), false)
    decreases |qs|
  {
    hide RequestOf;
    if qs == [] {
      assert got + RequestsOf(qs, c) == got;
    } else {
      assert Fits(qs[0], c);
      var r := RequestOf(qs[0]);
      AllTaken(room, got + [r], qs[1..], c);
      assert (got + [r]) + RequestsOf(qs[1..], c) == got + RequestsOf(qs, c);
    }
  }

  lemma {:induction false} InsideAll(qs: seq<Query>, ptr: nat, pktLen: nat)
    requires AllEncodable(qs) && ptr + |EncodeAll(qs)| < pktLen
    ensures Inside(qs, ptr, pktLen)
    decreases |qs|
  {
    if |qs| > 1 {
      InsideAll(qs[1..], ptr + |Encode(qs[0])|, pktLen);
    }
  }

  /**
   Round trip: whatever follows it in memory, a packet is parsed into exactly the
   queries that were written, in order, and their number is returned.
   */
  lemma PacketRoundTrip(mem: Memory, pktLen: nat, c: Lengths, room: Room, qs: seq<Query>)
    requires Usable(c) && AllFit(qs, c) && AllEncodable(qs)
    requires Holds(mem, HEADER_LEN, Payload(qs)) && HEADER_LEN + |Payload(qs)| <= pktLen
    requires RoomForAll(room, [], qs, c)
    ensures Parse(mem, pktLen, c, room) == Parsed(RequestsOf(qs, c), |qs|)
  {
    hide Read, Put16, EncodeAll, RoomForAll, Holds, Parse, TakenFrom, Inside, Word16;
    var body := Put16(PROTOCOL_MAGIC) + EncodeAll(qs);
    assert Payload(qs) == body + Put16(END_MARK);
    HoldsParts(mem, HEADER_LEN, body, Put16(END_MARK));
    Holds16(mem, HEADER_LEN + |body|, END_MARK);
    AllTaken(room, [], qs, c);
    InsideAll(qs, HEADER_LEN + 2, pktLen);
    AnyPacket(mem, pktLen, c, room, qs);
    assert [] + RequestsOf(qs, c) == RequestsOf(qs, c);
  }

  /**
   Whatever the bytes, the parser stops, and returns -1 or the number of requests it has
   accepted; each of them has found room behind those before it.
   */
  lemma {:induction false} ParseReturns(mem: Memory, pktLen: nat, c: Lengths, room: Room, ptr: nat, got: seq<Request>)
    ensures var p := ParseFrom(mem, pktLen, c, room, ptr, got);
            && (p.ret == -1 || p.ret == |p.requests|) && got <= p.requests
            && forall k: nat | |got| <= k < |p.requests| :: room(p.requests[..k], p.requests[k])
    decreases if ptr < pktLen then pktLen - ptr else 0
  {
    hide Word16, Word32, Read;
    var jobType, nkey, nbyte := Word16(mem, ptr), Word16(mem, ptr + 2), Word32(mem, ptr + 4);
    if jobType == JOB_GET {
      var r := Search(Word32(mem, ptr + 4), Word32(mem, ptr + 8));
      ContinueReturns(mem, pktLen, c, room, ptr, ptr + 4 + nkey, got);
      ContinueReturns(mem, pktLen, c, room, ptr, ptr + 4 + nkey, got + [r]);
      RoomBefore(room, got, r, Continue(mem, pktLen, c, room, ptr, ptr + 4 + nkey, got + [r]).requests);
    } else if jobType == JOB_SET {
      var key := ptr + 8;
      var next := key + (nkey + nbyte) % 0x1_0000_0000;
      var r := Insert(Word32(mem, key), Word32(mem, key + 4), Read(mem, key, nkey), Read(mem, key + nkey, nbyte));
      ContinueReturns(mem, pktLen, c, room, ptr, next, got);
      ContinueReturns(mem, pktLen, c, room, ptr, next, got + [r]);
      RoomBefore(room, got, r, Continue(mem, pktLen, c, room, ptr, next, got + [r]).requests);
    }
  }

  lemma RoomBefore(room: Room, got: seq<Request>, r: Request, all: seq<Request>)
    requires got + [r] <= all && forall k: nat | |got| < k < |all| :: room(all[..k], all[k])
    ensures room(got, r) ==> forall k: nat | |got| <= k < |all| :: room(all[..k], all[k])
  {
    assert all[..|got|] == got;
  }

  lemma {:induction false} ContinueReturns(mem: Memory, pktLen: nat, c: Lengths, room: Room, ptr: nat, next: nat,
                                           got: seq<Request>)
    requires ptr + 4 <= next
    ensures var p := Continue(mem, pktLen, c, room, ptr, next, got);
            && (p.ret == -1 || p.ret == |p.requests|) && got <= p.requests
            && forall k: nat | |got| <= k < |p.requests| :: room(p.requests[..k], p.requests[k])
    decreases if ptr < pktLen then pktLen - ptr else 0, 0
  {
    if next < pktLen {
      ParseReturns(mem, pktLen, c, room, next, got);
    }
  }
}

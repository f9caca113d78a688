// Messages split over a BD and a BE packet (tools/egc_decode.cpp, lines 590-624): what the packets
// received so far determine, with no mention of the reassembly state.

module EgcMessages {
  import opened Values
  import opened Viterbi
  import opened EgcChecksum
  import opened EgcPackets

  // ---- The packets that open and close a message -----------------------------------------

  // The bytes of a message that a BD or BE packet carries.
  function Part(p: seq<Byte>): seq<Byte>
    requires |p| >= 4
  {
    p[2..|p| - 2]
  }

  predicate Opens(p: seq<Byte>) {
    IsPacket(p) && p[0] == 0xBD && CrcOk(p) && |p| >= 4 && AnnouncedLength(p) > 0
  }

  predicate Closes(p: seq<Byte>) {
    IsPacket(p) && p[0] == 0xBE && CrcOk(p) && |p| >= 4
  }

  // What is in the buffer once a message is complete: a second part that does not fit is dropped,
  // and the two check bytes at the end are not sent but zero.
  function Message(p: seq<Byte>, q: seq<Byte>): seq<Byte>
    requires |p| >= 4 && |q| >= 4
  {
    Part(p) + (if |Part(p)| + |Part(q)| <= AnnouncedLength(p) then Part(q) else []) + [0, 0]
  }

  // What comes of a message opened by p and closed by q.
  function Delivered(p: seq<Byte>, q: seq<Byte>): seq<Event>
    requires |p| >= 4 && |q| >= 4
  {
    var m := Message(p, q);
    if |m| != AnnouncedLength(p) || (m[0] != 0xB1 && m[0] != 0xB2) then []
    else if |Part(p)| >= 2 || m[1] as int + 2 == |m| then [Egc(Multiframe, m)]
    else if m[1] as int + 2 > |m| then [Unspecified]
    else if CrcOk(m[..m[1] + 2]) then [Egc(Multiframe, m[..m[1] + 2])]
    else []
  }

  // A BD packet announces the length of the packet it begins, as that packet says itself; what
  // begins no known form announces nothing and opens nothing.
  lemma AnnouncedIsInner(p: seq<Byte>, inner: seq<Byte>)
    requires |p| >= 4
    ensures IsWhole(inner) && inner[0] == p[2] && (|inner| >= 2 ==> inner[1] == p[3]) ==> AnnouncedLength(p) == |inner|
    ensures p[2] >= 192 ==> AnnouncedLength(p) == 0
    ensures p[2] < 192 && IsPacket(p) && p[0] == 0xBD && CrcOk(p) ==> Opens(p)
  {
    hide CrcOk;
    if p[2] >= 192 {
      assert p[2] / 64 == 3;
    }
  }

  lemma StartedHolds(p: seq<Byte>, s: Mfa)
    requires Opens(p) && s.Valid()
    ensures Started(p, s) == Started(p, NO_MESSAGE) && Started(p, s).Valid()
    ensures var t := Started(p, s);
            && t.active && t.filled == |Part(p)| && t.expected == |t.data| == AnnouncedLength(p)
            && (t.filled <= t.expected ==> t.data == Part(p) + Zeroed(t.expected - t.filled))
  {
    hide CrcOk, IsPacket;
    var t := Started(p, s);
    if t.filled <= t.expected {
      assert t.data == Part(p) + Zeroed(t.expected - t.filled);
    }
  }

  // The second part completes the message exactly when the sum of the parts says so.
  lemma ContinuedHolds(p: seq<Byte>, q: seq<Byte>)
    requires Opens(p) && Closes(q)
    ensures var t := Continued(q, Started(p, NO_MESSAGE));
            && t.expected == |t.data| == AnnouncedLength(p)
            && (t.filled == t.expected - 2 <==> |Message(p, q)| == AnnouncedLength(p))
            && (t.filled == t.expected - 2 ==> t.data == Message(p, q))
  {
    hide CrcOk, IsPacket, AnnouncedLength, Started;
    StartedHolds(p, NO_MESSAGE);
    var t := Continued(q, Started(p, NO_MESSAGE));
    if t.filled == t.expected - 2 {
      assert t.data == Message(p, q);
    }
  }

  // The length of the inner packet is the announced one as soon as the first part has two bytes.
  lemma InnerLength(p: seq<Byte>, q: seq<Byte>)
    requires |p| >= 4 && |q| >= 4
    requires var m := Message(p, q); |m| == AnnouncedLength(p) && (m[0] == 0xB1 || m[0] == 0xB2)
    ensures var m := Message(p, q);
            && PacketLength(m, 0) == m[1] as int + 2
            && (|Part(p)| >= 2 ==> PacketLength(m, 0) == |m|)
  {
    var m := Message(p, q);
    if |Part(p)| >= 2 {
      assert m[0] == p[2] && m[1] == p[3];
    }
  }

  lemma ZeroFieldPasses(m: seq<Byte>)
    requires |m| >= 2 && Field(m) == (0, 0)
    ensures CrcOk(m)
  {}

  lemma ClosingDelivers(p: seq<Byte>, q: seq<Byte>)
    requires Opens(p) && Closes(q)
    ensures Assembled(Continued(q, Started(p, NO_MESSAGE))) == Delivered(p, q)
  {
    hide CrcOk, IsPacket, AnnouncedLength, Started, Continued, Message, PacketLength;
    ContinuedHolds(p, q);
    var m := Message(p, q);
    if |m| == AnnouncedLength(p) {
      MessageEnds(p, q);
      if m[0] == 0xB1 || m[0] == 0xB2 {
        InnerLength(p, q);
        ZeroFieldPasses(m);
        assert m[..|m|] == m;
      }
    }
  }

  lemma MessageEnds(p: seq<Byte>, q: seq<Byte>)
    requires |p| >= 4 && |q| >= 4
    ensures |Message(p, q)| >= 2 && Field(Message(p, q)) == (0, 0)
  {}

  // ---- The history decides ---------------------------------------------------------------

  // The packet that opened the message in progress.
  function LastOpen(ps: seq<seq<Byte>>): (p: Option<seq<Byte>>)
    ensures p.Some? ==> Opens(p.value)
  {
    if ps == [] then None
    else if Opens(ps[|ps| - 1]) then Some(ps[|ps| - 1])
    else if Closes(ps[|ps| - 1]) then None
    else LastOpen(ps[..|ps| - 1])
  }

  // What the packet at place j reports, by the packets before it.
  function Reported(ps: seq<seq<Byte>>, j: nat): seq<Event>
    requires ArePackets(ps) && j < |ps|
  {
    var q := ps[j];
    assert q in ps;
    if Closes(q) then
      var p := LastOpen(ps[..j]);
      if p.Some? then Delivered(p.value, q) else []
    else if !CrcOk(q) then []
    else if q[0] == 0x7D then [Bulletin(q)]
    else if q[0] == 0xB1 then [Egc(B1, q)]
    else if q[0] == 0xB2 then [Egc(B2, q)]
    else []
  }

  function AllReported(ps: seq<seq<Byte>>, n: nat): seq<Event>
    requires ArePackets(ps) && n <= |ps|
  {
    if n == 0 then [] else AllReported(ps, n - 1) + Reported(ps, n - 1)
  }

  // The reassembly state is open exactly while a message is, and then holds what opened it.
  ghost predicate Remembers(s: Mfa, p: Option<seq<Byte>>) {
    && s.Valid()
    && (s.active <==> p.Some?)
    && (p.Some? ==> Opens(p.value) && s == Started(p.value, NO_MESSAGE))
  }

  lemma HandleRemembers(q: seq<Byte>, s: Mfa, p: Option<seq<Byte>>)
    requires IsPacket(q) && Remembers(s, p)
    ensures Closes(q) ==> Handle(q, s).0 == (if p.Some? then Delivered(p.value, q) else [])
    ensures Remembers(Handle(q, s).1, if Opens(q) then Some(q) else if Closes(q) then None else p)
  {
    hide CrcOk, AnnouncedLength, Started, Continued, Assembled, Delivered;
    if CrcOk(q) && (q[0] == 0xBD || q[0] == 0xBE) {
      OkIsLong(q);
      if Opens(q) {
        StartedHolds(q, s);
      } else if q[0] == 0xBD {
        NotOpened(q, s);
      } else if p.Some? {
        ClosingDelivers(p.value, q);
      }
    }
  }

  lemma NotOpened(q: seq<Byte>, s: Mfa)
    requires |q| >= 4 && AnnouncedLength(q) == 0
    ensures Started(q, s) == s
  {}

  lemma Reporting(ps: seq<seq<Byte>>, n: nat, s: Mfa)
    requires ArePackets(ps) && n < |ps| && Remembers(s, LastOpen(ps[..n]))
    ensures IsPacket(ps[n]) && Handle(ps[n], s).0 == Reported(ps, n)
    ensures Remembers(Handle(ps[n], s).1, LastOpen(ps[..n + 1]))
  {
    hide CrcOk, Started, Delivered, Assembled, Continued, Remembers;
    var q := ps[n];
    assert q in ps;
    HandleRemembers(q, s, LastOpen(ps[..n]));
    assert ps[..n + 1][..n] == ps[..n] && ps[..n + 1][n] == q;
    RemembersValid(s, LastOpen(ps[..n]));
    if !Closes(q) && CrcOk(q) && q[0] == 0xBE {
      OkIsLong(q);
      assert false;
    }
  }

  lemma RemembersValid(s: Mfa, p: Option<seq<Byte>>)
    requires Remembers(s, p)
    ensures s.Valid()
  {}

  lemma {:induction false} HistorySteps(ps: seq<seq<Byte>>, n: nat)
    requires ArePackets(ps) && n <= |ps|
    ensures ArePackets(ps[..n]) && Events(ps[..n], NO_MESSAGE) == AllReported(ps, n)
    ensures Remembers(After(ps[..n], NO_MESSAGE), LastOpen(ps[..n]))
  {
    hide IsPacket, Handle, Reported, LastOpen, Remembers;
    if n == 0 {
      Nothing(ps[..0]);
    } else {
      HistorySteps(ps, n - 1);
      var s := After(ps[..n - 1], NO_MESSAGE);
      Reporting(ps, n - 1, s);
      HandleAppend(ps[..n - 1], [ps[n - 1]], NO_MESSAGE);
      HandleOne(ps[n - 1], s);
      assert ps[..n - 1] + [ps[n - 1]] == ps[..n];
    }
  }

  lemma Nothing(ps: seq<seq<Byte>>)
    requires ps == []
    ensures Remembers(NO_MESSAGE, LastOpen(ps))
  {}

  // Over any frames, what is reported is what each packet reports by the packets before it: a BE
  // packet delivers the message of the last BD packet with no other BE between, and nothing else
  // of the past matters.
  lemma HistoryDecides(frames: seq<seq<Byte>>)
    ensures var ps := AllPackets(frames); Events(ps, NO_MESSAGE) == AllReported(ps, |ps|)
  {
    var ps := AllPackets(frames);
    HistorySteps(ps, |ps|);
    assert ps[..|ps|] == ps;
  }

  // ---- A message that was split ----------------------------------------------------------

  // Neither starts nor continues a split message.
  predicate IsBystander(p: seq<Byte>) {
    IsPacket(p) && !((p[0] == 0xBD || p[0] == 0xBE) && CrcOk(p))
  }

  lemma {:induction false} BystandersKeepState(ps: seq<seq<Byte>>, s: Mfa)
    requires ArePackets(ps) && (forall p :: p in ps ==> IsBystander(p)) && s.Valid()
    ensures After(ps, s) == s
  {
    if ps != [] {
      assert ps[0] in ps && IsBystander(ps[0]);
      BystandersKeepState(ps[1..], s);
    }
  }

  // Two packets that carry the two parts of a message. Either check field may be zero, the second
  // part may be empty, and the first may be a single byte.
  ghost predicate IsSplit(message: seq<Byte>, p: seq<Byte>, q: seq<Byte>) {
    && Opens(p) && Closes(q)
    && message == Part(p) + Part(q) + [0, 0]
    && (message[0] == 0xB1 || message[0] == 0xB2)
    && message[1] as int + 2 == |message| == AnnouncedLength(p)
  }

  // A packet of the medium form around some bytes of a message.
  function Wrapped(kind: Byte, part: seq<Byte>): (p: seq<Byte>)
    requires kind / 64 == 2 && |part| <= 253
    ensures |p| == |part| + 4 && IsWhole(p) && CrcOk(p) && p[0] == kind && Part(p) == part
  {
    var body := [kind, |part| + 2] + part;
    SealedIsOk(body);
    assert Sealed(body)[..|body|] == body;
    assert Sealed(body)[2..2 + |part|] == body[2..];
    Sealed(body)
  }

  // The transmitter's packets, and the same with their check fields left zero, are such a pair.
  lemma WrappedIsSplit(message: seq<Byte>, first: seq<Byte>, second: seq<Byte>, p: seq<Byte>, q: seq<Byte>)
    requires 2 <= |first| <= 253 && |second| <= 253 && message == first + second + [0, 0]
    requires first[0] == 0xB1 || first[0] == 0xB2
    requires first[1] as int + 2 == |message|
    requires p == Wrapped(0xBD, first) || p == [0xBD, |first| + 2] + first + [0, 0]
    requires q == Wrapped(0xBE, second) || q == [0xBE, |second| + 2] + second + [0, 0]
    ensures IsSplit(message, p, q)
  {
    hide Sealed, Check;
    WrappedBytes(0xBD, first);
    WrappedBytes(0xBE, second);
    hide Wrapped;
    assert Part(p) == first && p[2] == first[0] && p[3] == first[1];
    assert Part(q) == second;
    assert message[0] == first[0] && message[1] == first[1];
  }

  lemma WrappedBytes(kind: Byte, part: seq<Byte>)
    requires kind / 64 == 2 && |part| <= 253
    ensures var p := Wrapped(kind, part); p[1] == |part| + 2 && p[..2 + |part|] == [kind, |part| + 2] + part
  {
    var body := [kind, |part| + 2] + part;
    var p := Wrapped(kind, part);
    assert p == Sealed(body) && p[..|body|] == body;
    assert p[1] == p[..|body|][1];
  }

  lemma SplitIsDelivered(message: seq<Byte>, p: seq<Byte>, q: seq<Byte>)
    requires IsSplit(message, p, q)
    ensures Delivered(p, q) == [Egc(Multiframe, message)]
  {
    hide CrcOk, AnnouncedLength, IsPacket;
    assert Message(p, q) == message;
  }

  // A message split over a BD packet and a later BE packet, with any other packets between and
  // around them and however they fall into frames, reaches decodeEgc whole, and nothing else
  // comes of the two packets.
  lemma SplitMessageArrives(frames: seq<seq<Byte>>, s: Mfa, before: seq<seq<Byte>>, between: seq<seq<Byte>>, after: seq<seq<Byte>>,
                            message: seq<Byte>, p: seq<Byte>, q: seq<Byte>) returns (s1: Mfa, s2: Mfa)
    requires s.Valid() && IsSplit(message, p, q)
    requires ArePackets(before) && ArePackets(between) && ArePackets(after)
    requires forall b :: b in between ==> IsBystander(b)
    requires AllPackets(frames) == before + [p] + between + [q] + after
    ensures s1.Valid() && s2.Valid() && !s2.active
    ensures Events(AllPackets(frames), s)
         == Events(before, s) + Events(between, s1) + [Egc(Multiframe, message)] + Events(after, s2)
  {
    hide CrcOk, Handle, Events, After, IsBystander, IsPacket, AllPackets, IsSplit, Delivered, Remembers;
    SplitPair(message, p, q);
    var sb := After(before, s);
    s1 := Handle(p, sb).1;
    s2 := Handle(q, s1).1;
    OpenRemembers(p, sb);
    BystandersKeepState(between, s1);
    HandleRemembers(q, s1, Some(p));
    CloseForgets(s2, p, q);
    SplitIsDelivered(message, p, q);
    HandleOne(p, sb);
    HandleOne(q, s1);
    HandleAppend(before, [p], s);
    HandleAppend(before + [p], between, s);
    HandleAppend(before + [p] + between, [q], s);
    HandleAppend(before + [p] + between + [q], after, s);
  }

  lemma SplitPair(message: seq<Byte>, p: seq<Byte>, q: seq<Byte>)
    requires IsSplit(message, p, q)
    ensures Opens(p) && Closes(q) && !Opens(q)
  {}

  lemma OpenRemembers(p: seq<Byte>, s: Mfa)
    requires Opens(p) && s.Valid()
    ensures Handle(p, s).0 == [] && Remembers(Handle(p, s).1, Some(p))
  {
    hide CrcOk, IsPacket, AnnouncedLength, Started;
    StartedHolds(p, s);
  }

  lemma CloseForgets(s: Mfa, p: seq<Byte>, q: seq<Byte>)
    requires Opens(p) && Closes(q) && Remembers(s, if Opens(q) then Some(q) else if Closes(q) then None else Some(p))
    ensures s.Valid() && !s.active
  {}
}

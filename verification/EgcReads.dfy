// Which bytes the packet layer reads (tools/egc_decode.cpp, lines 476-502, 545-566 and 568-628),
// and exactly when all of them are inside their buffer.

module EgcReads {
  import opened Values
  import opened Viterbi
  import opened EgcChecksum
  import opened EgcPackets
  import opened EgcMessages

  // Byte `at` of a buffer of `size` bytes.
  datatype Read = Read(size: nat, at: int)

  predicate Inside(r: Read) {
    0 <= r.at < r.size
  }

  ghost predicate AllInside(rs: set<Read>) {
    forall r :: r in rs ==> Inside(r)
  }

  function Span(size: nat, lo: int, hi: int): set<Read> {
    set k | lo <= k < hi :: Read(size, k)
  }

  lemma SpanInside(size: nat, lo: int, hi: int)
    requires 0 <= lo
    ensures AllInside(Span(size, lo, hi)) <==> (lo < hi ==> hi <= size)
  {
    if lo < hi {
      assert Read(size, hi - 1) in Span(size, lo, hi);
    }
  }

  lemma UnionInside(a: set<Read>, b: set<Read>)
    ensures AllInside(a + b) <==> AllInside(a) && AllInside(b)
  {
    forall r | r in a || r in b
      ensures r in a + b
    {}
  }

  // ---- What is read ----------------------------------------------------------------------

  function AddressLength(mt: Byte): nat {
    if mt == 0x00 then 3
    else if mt in {0x11, 0x31} then 4
    else if mt in {0x02, 0x72} then 5
    else if mt in {0x13, 0x23, 0x33, 0x73} then 6
    else if mt in {0x04, 0x14, 0x24, 0x34, 0x44} then 7
    else 3
  }

  // packetLength
  function LengthReads(f: seq<Byte>, pos: nat): set<Read>
    requires pos < |f|
  {
    Span(|f|, pos, if f[pos] / 64 == 2 && pos + 1 < |f| then pos + 2 else pos + 1)
  }

  // crcOk: the body for the sums and the two bytes of the field.
  function CheckReads(size: nat, pos: nat, plen: nat): set<Read> {
    if plen < 2 then {} else Span(size, pos, pos + plen)
  }

  // decodeEgc: six header bytes whatever the length of the packet, then text if there is any.
  function HeaderReads(f: seq<Byte>, pos: nat, plen: nat): set<Read> {
    Span(|f|, pos + 2, pos + 8)
    + (if pos + 8 <= |f| && f[pos + 7] == 0
       then Span(|f|, pos + 8 + AddressLength(f[pos + 2]), pos + plen - 2) else {})
  }

  // A complete message: its type and length, its check, its header.
  function AssembledReads(t: Mfa): set<Read>
    requires t.data != []
  {
    if t.filled != t.expected - 2 then {}
    else
      var ep := PacketLength(t.data, 0);
      LengthReads(t.data, 0)
      + (if t.data[0] != 0xB1 && t.data[0] != 0xB2 then {}
         else CheckReads(|t.data|, 0, ep)
              + (if ep <= |t.data| && CrcOk(t.data[..ep]) then HeaderReads(t.data, 0, ep) else {}))
  }

  // A BD packet: the type of the message, its length byte if it has one, and the part copied.
  function StartReads(size: nat, pos: nat, p: seq<Byte>): set<Read>
    requires |p| >= 4
  {
    Span(size, pos + 2, if p[2] / 64 == 2 then pos + 4 else pos + 3)
    + (if 0 < |p| - 4 <= AnnouncedLength(p) then Span(size, pos + 2, pos + |p| - 2) else {})
  }

  function PacketReads(f: seq<Byte>, pos: nat, s: Mfa): set<Read>
    requires pos < |f| && f[pos] != 0 && pos + PacketLength(f, pos) <= |f| && s.Valid()
  {
    var plen := PacketLength(f, pos);
    var p := f[pos..pos + plen];
    CheckReads(|f|, pos, plen)
    + (if !CrcOk(p) then {}
       else if p[0] == 0x7D then Span(|f|, pos + 2, pos + 4)
       else if p[0] == 0xB1 || p[0] == 0xB2 then HeaderReads(f, pos, plen)
       else
         NextPacket(f, pos);
         if p[0] == 0xBD then
           OkIsLong(p);
           StartReads(|f|, pos, p)
         else if p[0] == 0xBE && s.active then
           OkIsLong(p);
           (if |p| > 4 && s.filled + |p| - 4 <= |s.data| then Span(|f|, pos + 2, pos + plen - 2) else {})
           + AssembledReads(Continued(p, s))
         else {})
  }

  // One frame from `pos` on.
  function FrameReads(f: seq<Byte>, pos: nat, s: Mfa): set<Read>
    requires s.Valid()
    decreases |f| - pos
  {
    if pos >= |f| then {}
    else
      LengthReads(f, pos)
      + (if f[pos] == 0 || pos + PacketLength(f, pos) > |f| then {}
         else
           var next := pos + PacketLength(f, pos);
           NextPacket(f, pos);
           PacketReads(f, pos, s) + FrameReads(f, next, Handle(f[pos..next], s).1))
  }

  function RunReads(frames: seq<seq<Byte>>): set<Read> {
    if frames == [] then {}
    else
      var n := |frames| - 1;
      RunReads(frames[..n]) + FrameReads(frames[n], 0, After(AllPackets(frames[..n]), NO_MESSAGE))
  }

  // ---- When that is inside ---------------------------------------------------------------

  predicate HasHeader(p: seq<Byte>) {
    p != [] && (p[0] == 0xB1 || p[0] == 0xB2) && CrcOk(p)
  }

  // Every header of the frame begins eight bytes before its end or earlier.
  ghost predicate HeadersFit(f: seq<Byte>, pos: nat) {
    var ps := Packets(f, pos);
    forall k :: 0 <= k < |ps| && HasHeader(ps[k]) ==> pos + |Joined(ps[..k])| + 8 <= |f|
  }

  // The message that q completes says it is longer than announced, or is too short for a header.
  predicate Overruns(p: seq<Byte>, q: seq<Byte>)
    requires |p| >= 4 && |q| >= 4
  {
    var m := Message(p, q);
    && |m| == AnnouncedLength(p) && (m[0] == 0xB1 || m[0] == 0xB2)
    && (m[1] as int + 2 > |m| || (|m| < 8 && CrcOk(m[..m[1] + 2])))
  }

  predicate ClosesInside(q: seq<Byte>, p: Option<seq<Byte>>)
    requires p.Some? ==> Opens(p.value)
  {
    Closes(q) && p.Some? ==> !Overruns(p.value, q)
  }

  lemma HeaderInside(f: seq<Byte>, pos: nat, plen: nat)
    requires pos + plen <= |f|
    ensures AllInside(HeaderReads(f, pos, plen)) <==> pos + 8 <= |f|
  {
    SpanInside(|f|, pos + 2, pos + 8);
    if pos + 8 <= |f| {
      var lo := pos + 8 + AddressLength(f[pos + 2]);
      SpanInside(|f|, lo, pos + plen - 2);
      UnionInside(Span(|f|, pos + 2, pos + 8), Span(|f|, lo, pos + plen - 2));
    }
    hide AllInside, AddressLength;
    UnionInside(Span(|f|, pos + 2, pos + 8), {});
    NoneInside();
  }

  lemma NoneInside()
    ensures AllInside({})
  {}

  lemma LengthInside(f: seq<Byte>, pos: nat)
    requires pos < |f|
    ensures AllInside(LengthReads(f, pos))
  {}

  lemma CheckInside(size: nat, pos: nat, plen: nat)
    ensures AllInside(CheckReads(size, pos, plen)) <==> (plen < 2 || pos + plen <= size)
  {
    SpanInside(size, pos, pos + plen);
  }

  lemma StartInside(size: nat, pos: nat, p: seq<Byte>)
    requires |p| >= 4 && pos + |p| <= size
    ensures AllInside(StartReads(size, pos, p))
  {}

  lemma AssembledInside(p: seq<Byte>, q: seq<Byte>)
    requires Opens(p) && Closes(q)
    ensures var t := Continued(q, Started(p, NO_MESSAGE));
            && t.data != []
            && (AllInside(AssembledReads(t)) <==> !Overruns(p, q))
  {
    hide AllInside, CrcOk, Started, Continued, AnnouncedLength, Message, HeaderReads, LengthReads, CheckReads, PacketLength;
    StartedHolds(p, NO_MESSAGE);
    ContinuedHolds(p, q);
    Announced(p);
    var t := Continued(q, Started(p, NO_MESSAGE));
    NoneInside();
    if t.filled == t.expected - 2 {
      var m := t.data;
      LengthInside(m, 0);
      if m[0] != 0xB1 && m[0] != 0xB2 {
        UnionInside(LengthReads(m, 0), {});
      } else {
        MessageEnds(p, q);
        InnerLength(p, q);
        var ep := PacketLength(m, 0);
        var last := if ep <= |m| && CrcOk(m[..ep]) then HeaderReads(m, 0, ep) else {};
        CheckInside(|m|, 0, ep);
        if ep <= |m| {
          HeaderInside(m, 0, ep);
        }
        UnionInside(CheckReads(|m|, 0, ep), last);
        UnionInside(LengthReads(m, 0), CheckReads(|m|, 0, ep) + last);
      }
    }
  }

  lemma Announced(p: seq<Byte>)
    requires Opens(p)
    ensures AnnouncedLength(p) > 0
  {}

  // The reads of one packet that the walk has found.
  lemma PacketInside(f: seq<Byte>, pos: nat, s: Mfa, o: Option<seq<Byte>>)
    requires pos < |f| && f[pos] != 0 && pos + PacketLength(f, pos) <= |f| && Remembers(s, o)
    ensures var p := f[pos..pos + PacketLength(f, pos)];
            AllInside(PacketReads(f, pos, s)) <==> (HasHeader(p) ==> pos + 8 <= |f|) && ClosesInside(p, o)
  {
    hide AllInside, CrcOk, PacketLength, Started, Continued, AnnouncedLength, Overruns, IsPacket;
    hide HeaderReads, CheckReads, StartReads, AssembledReads, Span;
    NextPacket(f, pos);
    var plen := PacketLength(f, pos);
    var p := f[pos..pos + plen];
    assert p[0] == f[pos];
    CheckInside(|f|, pos, plen);
    NoneInside();
    UnionInside(CheckReads(|f|, pos, plen), {});
    if CrcOk(p) {
      if p[0] == 0x7D {
        BulletinLength(f, pos);
        SpanInside(|f|, pos + 2, pos + 4);
        UnionInside(CheckReads(|f|, pos, plen), Span(|f|, pos + 2, pos + 4));
      } else if p[0] == 0xB1 || p[0] == 0xB2 {
        HeaderInside(f, pos, plen);
        UnionInside(CheckReads(|f|, pos, plen), HeaderReads(f, pos, plen));
      } else if p[0] == 0xBD {
        OkIsLong(p);
        StartInside(|f|, pos, p);
        UnionInside(CheckReads(|f|, pos, plen), StartReads(|f|, pos, p));
      } else if p[0] == 0xBE && s.active {
        OkIsLong(p);
        SpanInside(|f|, pos + 2, pos + plen - 2);
        AssembledInside(o.value, p);
        var copied := if |p| > 4 && s.filled + |p| - 4 <= |s.data| then Span(|f|, pos + 2, pos + plen - 2) else {};
        var rest := AssembledReads(Continued(p, s));
        UnionInside(copied, rest);
        UnionInside(CheckReads(|f|, pos, plen), copied + rest);
      }
    }
  }

  lemma BulletinLength(f: seq<Byte>, pos: nat)
    requires pos < |f| && f[pos] == 0x7D
    ensures PacketLength(f, pos) == 14
  {}

  // Every closing packet of ps from place n on is inside.
  ghost predicate ClosingsFit(ps: seq<seq<Byte>>, n: nat) {
    forall j :: n <= j < |ps| ==> ClosesInside(ps[j], LastOpen(ps[..j]))
  }

  lemma HeadersFitNext(f: seq<Byte>, pos: nat)
    requires pos < |f| && f[pos] != 0 && pos + PacketLength(f, pos) <= |f|
    ensures var next := pos + PacketLength(f, pos);
            HeadersFit(f, pos) <==> (HasHeader(f[pos..next]) ==> pos + 8 <= |f|) && HeadersFit(f, next)
  {
    hide PacketLength, HasHeader, IsPacket;
    NextPacket(f, pos);
    var next := pos + PacketLength(f, pos);
    var p, rest := f[pos..next], Packets(f, next);
    var ps := Packets(f, pos);
    hide Packets;
    assert ps == [p] + rest;
    assert Joined(ps[..0]) == [];
    forall k | 0 < k < |ps|
      ensures ps[k] == rest[k - 1] && pos + |Joined(ps[..k])| == next + |Joined(rest[..k - 1])|
    {
      assert ps[..k][1..] == rest[..k - 1];
    }
    forall k | 0 <= k < |rest|
      ensures rest[k] == ps[k + 1] && pos + |Joined(ps[..k + 1])| == next + |Joined(rest[..k])|
    {
      assert ps[..k + 1][1..] == rest[..k];
    }
  }

  lemma ClosingsFitNext(ps: seq<seq<Byte>>, n: nat)
    requires n < |ps|
    ensures ClosingsFit(ps, n) <==> ClosesInside(ps[n], LastOpen(ps[..n])) && ClosingsFit(ps, n + 1)
  {
    hide ClosesInside, LastOpen;
  }

  // The rest of a frame, after the packets `past`.
  lemma {:induction false} FrameInside(f: seq<Byte>, pos: nat, s: Mfa, past: seq<seq<Byte>>)
    requires ArePackets(past) && Remembers(s, LastOpen(past)) && s.Valid()
    ensures AllInside(FrameReads(f, pos, s))
       <==> HeadersFit(f, pos) && ClosingsFit(past + Packets(f, pos), |past|)
    decreases |f| - pos
  {
    hide AllInside, PacketLength, Handle, LengthReads, PacketReads, HasHeader, ClosesInside, LastOpen;
    hide Remembers, Joined, IsPacket, CrcOk;
    NoneInside();
    if pos >= |f| {
      WalkEnd(f, pos);
    } else {
      NextPacket(f, pos);
      LengthInside(f, pos);
      if f[pos] == 0 || pos + PacketLength(f, pos) > |f| {
        UnionInside(LengthReads(f, pos), {});
      } else {
        var next := pos + PacketLength(f, pos);
        var p := f[pos..next];
        var all := past + Packets(f, pos);
        assert all == (past + [p]) + Packets(f, next) && all[|past|] == p && all[..|past|] == past;
        assert ArePackets(past + [p]);
        Step(past, p, s);
        PacketInside(f, pos, s, LastOpen(past));
        FrameInside(f, next, Handle(p, s).1, past + [p]);
        HeadersFitNext(f, pos);
        ClosingsFitNext(all, |past|);
        var rest := FrameReads(f, next, Handle(p, s).1);
        UnionInside(PacketReads(f, pos, s), rest);
        UnionInside(LengthReads(f, pos), PacketReads(f, pos, s) + rest);
      }
    }
  }

  lemma Step(past: seq<seq<Byte>>, p: seq<Byte>, s: Mfa)
    requires ArePackets(past) && IsPacket(p) && s.Valid() && Remembers(s, LastOpen(past))
    ensures Remembers(Handle(p, s).1, LastOpen(past + [p]))
  {
    hide IsPacket, Handle, Remembers, LastOpen;
    var ps := past + [p];
    assert ps[..|past|] == past && ps[..|past| + 1] == ps;
    Reporting(ps, |past|, s);
  }

  // All reads over any frames are inside their buffers exactly when every checked B1 or B2 packet
  // begins eight bytes before the end of its frame or earlier, and no BE packet completes a
  // message that overruns.
  lemma {:induction false} RunInside(frames: seq<seq<Byte>>)
    ensures AllInside(RunReads(frames)) <==> AllHeadersFit(frames) && ClosingsFit(AllPackets(frames), 0)
  {
    hide AllInside, FrameReads, HeadersFit, ClosingsFit, LastOpen, Remembers, Packets, After, ArePackets;
    NoneInside();
    if frames == [] {
      NoClosings(AllPackets(frames));
    } else {
      var n := |frames| - 1;
      var past, f := AllPackets(frames[..n]), frames[n];
      RunInside(frames[..n]);
      LastFrameInside(past, f);
      UnionInside(RunReads(frames[..n]), FrameReads(f, 0, After(past, NO_MESSAGE)));
      assert forall i :: 0 <= i < n ==> frames[i] == frames[..n][i];
    }
  }

  ghost predicate AllHeadersFit(frames: seq<seq<Byte>>) {
    forall i :: 0 <= i < |frames| ==> HeadersFit(frames[i], 0)
  }

  lemma NoClosings(ps: seq<seq<Byte>>)
    requires ps == []
    ensures ClosingsFit(ps, 0)
  {}

  lemma LastFrameInside(past: seq<seq<Byte>>, f: seq<Byte>)
    requires ArePackets(past)
    ensures ClosingsFit(past, 0) && AllInside(FrameReads(f, 0, After(past, NO_MESSAGE)))
       <==> HeadersFit(f, 0) && ClosingsFit(past + Packets(f, 0), 0)
  {
    hide AllInside, FrameReads, HeadersFit, ClosingsFit, LastOpen, Remembers, Packets, After, IsPacket;
    HistorySteps(past, |past|);
    assert past[..|past|] == past;
    var s := After(past, NO_MESSAGE);
    RemembersValid(s, LastOpen(past));
    FrameInside(f, 0, s, past);
    ClosingsSplit(past, Packets(f, 0));
  }

  lemma ClosingsSplit(past: seq<seq<Byte>>, more: seq<seq<Byte>>)
    ensures ClosingsFit(past + more, 0) <==> ClosingsFit(past, 0) && ClosingsFit(past + more, |past|)
  {
    hide ClosesInside, LastOpen;
    var all := past + more;
    forall j | 0 <= j < |past|
      ensures all[j] == past[j] && all[..j] == past[..j]
    {}
  }

  // ---- When it is not --------------------------------------------------------------------

  // What a sender can check: unless the first part is a single byte, a message of eight bytes or
  // more never overruns.
  lemma SafeParts(p: seq<Byte>, q: seq<Byte>)
    requires Opens(p) && Closes(q) && |Part(p)| != 1 && AnnouncedLength(p) >= 8
    ensures !Overruns(p, q)
  {
    hide CrcOk, IsPacket;
    if |Part(p)| == 0 {
      EmptyPartIsShort(p);
      assert false;
    }
    var m, part := Message(p, q), Part(p);
    assert |part| >= 2 && part[0] == p[2] && part[1] == p[3];
    assert m[0] == part[0] && m[1] == part[1];
  }

  // Of an empty part the check field is read, and that announces one byte or none.
  lemma EmptyPartIsShort(p: seq<Byte>)
    requires Opens(p) && |p| == 4
    ensures AnnouncedLength(p) <= 1
  {
    hide C0, C1;
    NoSum(p);
    NextSum(p, 0);
    NextSum(p, 1);
    NextSum(p, 2);
    NextSum(p, 3);
    assert p[1] == 2 && Check(p).0 == 197;
  }

  // A frame that ends in a B1 packet without a body: the header is read behind the frame.
  lemma ShortHeaderOverruns(ps: seq<seq<Byte>>)
    requires forall p :: p in ps ==> IsWhole(p)
    ensures !AllInside(RunReads([Joined(ps) + [0xB1, 2, 0, 0]]))
  {
    hide AllInside, RunReads, Packets, IsWhole;
    var last: seq<Byte> := [0xB1, 2, 0, 0];
    var f := Joined(ps) + last;
    ShortIsHeader(last);
    JoinedAppend(ps, last);
    WalkFindsWhole([], ps + [last], []);
    assert [] + Joined(ps + [last]) + [] == f;
    var qs := Packets(f, 0);
    assert HasHeader(qs[|ps|]) && qs[..|ps|] == ps;
    assert !HeadersFit(f, 0) && [f][0] == f;
    RunInside([f]);
  }

  lemma ShortIsHeader(p: seq<Byte>)
    requires p == [0xB1, 2, 0, 0]
    ensures IsWhole(p) && HasHeader(p)
  {}

  lemma {:induction false} JoinedAppend(ps: seq<seq<Byte>>, p: seq<Byte>)
    ensures Joined(ps + [p]) == Joined(ps) + p
  {
    if ps == [] {
      assert Joined([p]) == p + Joined([p][1..]);
    } else {
      JoinedAppend(ps[1..], p);
      assert (ps + [p])[1..] == ps[1..] + [p];
    }
  }

  // A first part of one byte: its check byte is taken for the length of the message, and the
  // second part brings another one.
  lemma OneByteOverruns() returns (p: seq<Byte>, q: seq<Byte>)
    ensures Opens(p) && Closes(q) && Overruns(p, q) && Delivered(p, q) == [Unspecified]
    ensures !AllInside(RunReads([p + q]))
  {
    p := OneBytePart();
    q := LargeBytePart();
    ClaimsTooMuch(p, q);
    OpensTheRun(p, q);
    hide AllInside, RunReads, Overruns, LastOpen, Opens, Closes, Delivered, IsWhole;
    RunInside([p + q]);
    var ps := AllPackets([p + q]);
    assert !ClosesInside(ps[1], LastOpen(ps[..1]));
  }

  lemma LargeBytePart() returns (q: seq<Byte>)
    ensures Closes(q) && IsWhole(q) && |q| == 164 && q[2] == 255
  {
    q := [0xBE, 162, 255] + Zeroed(161);
    ZeroFieldPasses(q);
  }

  lemma ClaimsTooMuch(p: seq<Byte>, q: seq<Byte>)
    requires |p| == 5 && p[2] == 0xB1 && AnnouncedLength(p) == 163
    requires |q| == 164 && q[2] == 255
    ensures Overruns(p, q) && Delivered(p, q) == [Unspecified]
  {
    hide CrcOk, AnnouncedLength;
    var m := Message(p, q);
    assert Part(p) == [0xB1] && Part(q)[0] == 255;
    assert |m| == 163 && m[0] == 0xB1 && m[1] == 255;
  }

  lemma OneBytePart() returns (p: seq<Byte>)
    ensures Opens(p) && IsWhole(p) && |p| == 5 && p[2] == 0xB1 && AnnouncedLength(p) == 163
  {
    p := Wrapped(0xBD, [0xB1]);
    WrappedBytes(0xBD, [0xB1]);
    var body: seq<Byte> := [0xBD, 3, 0xB1, 0, 0];
    assert p[..3] == [0xBD, 3, 0xB1];
    assert p[2] == p[..3][2];
    OneByteCheck(body);
    hide Check, CrcOk;
    assert [0xBD as Byte, 3] + [0xB1] + [0, 0] == body;
  }

  lemma OneByteCheck(p: seq<Byte>)
    requires p == [0xBD, 3, 0xB1, 0, 0]
    ensures Check(p).0 == 161
  {
    hide C0, C1;
    NoSum(p);
    NextSum(p, 0);
    NextSum(p, 1);
    NextSum(p, 2);
    NextSum(p, 3);
    NextSum(p, 4);
  }

  lemma OneFrame(f: seq<Byte>)
    ensures AllPackets([f]) == Packets(f, 0)
  {
    hide Packets;
    assert [f][..0] == [] && [f][|[f]| - 1] == f;
  }

  lemma OpensTheRun(p: seq<Byte>, q: seq<Byte>)
    requires IsWhole(p) && IsWhole(q) && Opens(p)
    ensures AllPackets([p + q]) == [p, q] && LastOpen([p, q][..1]) == Some(p)
  {
    hide Opens, Closes, IsWhole, Packets;
    assert Joined([]) == [];
    JoinedAppend([], p);
    JoinedAppend([p], q);
    assert [] + [p] == [p] && [p] + [q] == [p, q];
    WalkFindsWhole([], [p, q], []);
    assert [] + Joined([p, q]) + [] == p + q;
    assert Packets(p + q, 0) == [p, q];
    OneFrame(p + q);
    assert [p, q][..1] == [p];
  }
}

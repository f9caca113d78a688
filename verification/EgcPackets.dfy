// The packet layer of tools/egc_decode.cpp, lines 462-490, 531 and 568-628: the checksum, the
// walk over a frame, and the reassembly of a message split over a BD and a BE packet.

module EgcChecksum {
  import opened PowersOfTwo
  import opened Viterbi

  // (int16_t)x
  function Int16(x: int): (y: int)
    ensures -32768 <= y < 32768 && (y - x) % 65536 == 0
  {
    (x + 32768) % 65536 - 32768
  }

  // The byte that enters the sums: the check field counts as zero.
  function Summand(p: seq<Byte>, i: nat): Byte
    requires i < |p|
  {
    if i < |p| - 2 then p[i] else 0
  }

  // The running sums, not wrapped.
  function C0(p: seq<Byte>, n: nat): nat
    requires n <= |p|
  {
    if n == 0 then 0 else C0(p, n - 1) + Summand(p, n - 1)
  }

  function C1(p: seq<Byte>, n: nat): nat
    requires n <= |p|
  {
    if n == 0 then 0 else C1(p, n - 1) + C0(p, n)
  }

  // The two check bytes of a packet.
  function Check(p: seq<Byte>): (Byte, Byte) {
    ((C0(p, |p|) - C1(p, |p|)) % 256, (C1(p, |p|) - 2 * C0(p, |p|)) % 256)
  }

  function Field(p: seq<Byte>): (Byte, Byte)
    requires |p| >= 2
  {
    (p[|p| - 2], p[|p| - 1])
  }

  // crcOk, for a packet given by its own bytes: a zero field passes.
  predicate CrcOk(p: seq<Byte>) {
    |p| >= 2 && (Field(p) == (0, 0) || Field(p) == Check(p))
  }

  // a and b are the same modulo 2^16, hence modulo 2^8.
  ghost predicate Congruent(a: int, b: int) {
    exists k :: IsApart(a, b, k)
  }

  ghost predicate IsApart(a: int, b: int, k: int) {
    a == b + 65536 * k
  }

  lemma CongruentAdd(a: int, b: int, c: int, d: int)
    requires Congruent(a, b) && Congruent(c, d)
    ensures Congruent(Int16(a + c), b + d)
  {
    var j :| IsApart(a, b, j);
    var k :| IsApart(c, d, k);
    var x := a + c;
    var y := Int16(x);
    var q := (x + 32768) / 65536;
    assert y == x - 65536 * q;
    assert IsApart(y, b + d, j + k - q);
  }

  lemma CongruentSelf(a: int)
    ensures Congruent(a, a)
  {
    assert IsApart(a, a, 0);
  }

  lemma CongruentByte(a: int, b: int, c: int, d: int)
    requires Congruent(a, b) && Congruent(c, d)
    ensures (a - c) % 256 == (b - d) % 256 && (c - 2 * a) % 256 == (d - 2 * b) % 256
  {
    var j :| IsApart(a, b, j);
    var k :| IsApart(c, d, k);
    SameByte(a - c, b - d, 256 * (j - k));
    SameByte(c - 2 * a, d - 2 * b, 256 * (k - 2 * j));
  }

  lemma SameByte(x: int, y: int, k: int)
    requires x == y + 256 * k
    ensures x % 256 == y % 256
  {
    DivModUnique(x, 256, y / 256 + k, y % 256);
  }

  // ---- What the check bytes are for --------------------------------------------------------

  // The sum of the first n bytes, check bytes and all.
  function ByteSum(p: seq<Byte>, n: nat): nat
    requires n <= |p|
  {
    if n == 0 then 0 else ByteSum(p, n - 1) + p[n - 1]
  }

  // The same with every byte weighed by its distance from the end.
  function WeighedSum(p: seq<Byte>, n: nat): nat
    requires n <= |p|
  {
    if n == 0 then 0
    else
      MulOrder(0, p[n - 1], |p| - n + 1);
      WeighedSum(p, n - 1) + (|p| - n + 1) * p[n - 1]
  }

  // The running sums in closed form: byte i has been added n - i times.
  lemma {:induction false} SumsAreWeighed(p: seq<Byte>, n: nat)
    requires n + 2 <= |p|
    ensures C0(p, n) == ByteSum(p, n)
    ensures C1(p, n) == WeighedSum(p, n) - (|p| - n) * ByteSum(p, n)
  {
    if n > 0 {
      SumsAreWeighed(p, n - 1);
      WeighOne(|p| - n, ByteSum(p, n - 1), p[n - 1]);
    }
  }

  lemma WeighOne(rest: int, sum: int, b: int)
    ensures (rest + 1) * sum == rest * sum + sum && rest * (sum + b) == rest * sum + rest * b && (rest + 1) * b == rest * b + b
  {}

  // The law of the two check bytes: with them in place both sums vanish modulo 256, and no other
  // pair does that. A packet whose field is zero passes anyway.
  lemma CrcClosesSums(p: seq<Byte>)
    requires |p| >= 2 && Field(p) != (0, 0)
    ensures CrcOk(p) <==> ByteSum(p, |p|) % 256 == 0 && WeighedSum(p, |p|) % 256 == 0
  {
    var n := |p| - 2;
    SumsAreWeighed(p, n);
    LastSums(p);
    var s: int, w: int := ByteSum(p, n), WeighedSum(p, n);
    hide C0, C1, ByteSum, WeighedSum;
    assert C0(p, |p|) == s && C1(p, |p|) == w;
    assert Check(p).0 == (s - w) % 256 && Check(p).1 == (w - 2 * s) % 256;
    FieldIsForced(s, w, p[n], p[n + 1]);
  }

  lemma LastSums(p: seq<Byte>)
    requires |p| >= 2
    ensures var n: nat := |p| - 2;
      && C0(p, |p|) == C0(p, n) && C1(p, |p|) == C1(p, n) + 2 * C0(p, n)
      && ByteSum(p, |p|) == ByteSum(p, n) + p[n] + p[n + 1]
      && WeighedSum(p, |p|) == WeighedSum(p, n) + 2 * p[n] as int + p[n + 1]
  {
    var n: nat := |p| - 2;
    assert C0(p, n + 1) == C0(p, n) && C0(p, n + 2) == C0(p, n + 1);
    assert C1(p, n + 1) == C1(p, n) + C0(p, n) && C1(p, n + 2) == C1(p, n + 1) + C0(p, n);
    assert ByteSum(p, n + 1) == ByteSum(p, n) + p[n];
    assert WeighedSum(p, n + 1) == WeighedSum(p, n) + 2 * p[n] as int;
  }

  lemma FieldIsForced(s: int, w: int, a: int, b: int)
    requires 0 <= a < 256 && 0 <= b < 256
    ensures a == (s - w) % 256 && b == (w - 2 * s) % 256 <==> (s + a + b) % 256 == 0 && (w + 2 * a + b) % 256 == 0
  {}

  // The source's loop over int16_t sums gives the check bytes of the unbounded sums.
  method EgcCrc(p: seq<Byte>) returns (crc: int)
    ensures crc == Check(p).0 * 256 + Check(p).1
  {
    var c0, c1 := 0, 0;
    CongruentSelf(0);
    for i := 0 to |p|
      invariant Congruent(c0, C0(p, i)) && Congruent(c1, C1(p, i))
    {
      var b := if i < |p| - 2 then p[i] else 0;
      CongruentSelf(b);
      CongruentAdd(c0, C0(p, i), b, b);
      c0 := Int16(c0 + b);
      CongruentAdd(c1, C1(p, i), c0, C0(p, i + 1));
      c1 := Int16(c1 + c0);
    }
    CongruentByte(c0, C0(p, |p|), c1, C1(p, |p|));
    var cb1, cb2 := (c0 - c1) % 256, (c1 - 2 * c0) % 256;
    crc := cb1 * 256 + cb2;
  }

  // ---- What the checksum detects ---------------------------------------------------------

  function Delta(p: seq<Byte>, q: seq<Byte>, k: nat): int
    requires k < |p| && k < |q|
  {
    q[k] as int - p[k] as int
  }

  // How far one changed byte moves the sums.
  lemma {:induction false} ChangedByte(p: seq<Byte>, q: seq<Byte>, k: nat, n: nat)
    requires |p| == |q| && k < |p| - 2 && n <= |p| && q == p[k := q[k]]
    ensures C0(q, n) - C0(p, n) == if n <= k then 0 else Delta(p, q, k)
    ensures C1(q, n) - C1(p, n) == if n <= k then 0 else (n - k) * Delta(p, q, k)
  {
    if n > 0 {
      ChangedByte(p, q, k, n - 1);
      OneMore(n - k, Delta(p, q, k));
    }
  }

  lemma OneMore(m: int, d: int)
    ensures m * d == (m - 1) * d + d
  {}

  // A packet that was right and has one body byte changed is rejected.
  lemma BodyErrorDetected(p: seq<Byte>, q: seq<Byte>, k: nat)
    requires CrcOk(p) && Field(p) != (0, 0)
    requires |q| == |p| && k < |p| - 2 && q == p[k := q[k]] && q[k] != p[k]
    ensures !CrcOk(q)
  {
    var n := |p|;
    ChangedByte(p, q, k, n);
    assert Field(q) == Field(p);
    ChecksDiffer(C0(p, n), C1(p, n), C0(q, n), C1(q, n));
    hide C0, C1;
  }

  // The two check bytes add up to minus the plain sum.
  lemma ChecksDiffer(a0: int, a1: int, b0: int, b1: int)
    requires 0 < b0 - a0 < 256 || -256 < b0 - a0 < 0
    ensures (a0 - a1) % 256 != (b0 - b1) % 256 || (a1 - 2 * a0) % 256 != (b1 - 2 * b0) % 256
  {
    if (a0 - a1) % 256 == (b0 - b1) % 256 && (a1 - 2 * a0) % 256 == (b1 - 2 * b0) % 256 {
      SameRemainder(a0 - a1, b0 - b1);
      SameRemainder(a1 - 2 * a0, b1 - 2 * b0);
      assert false;
    }
  }

  lemma SameRemainder(a: int, b: int)
    requires a % 256 == b % 256
    ensures (a - b) % 256 == 0
  {}

  // A change in the check field is noticed unless it makes the field zero.
  lemma FieldErrorDetected(p: seq<Byte>, q: seq<Byte>)
    requires |p| == |q| >= 2 && CrcOk(p) && Field(p) != (0, 0)
    requires p[..|p| - 2] == q[..|q| - 2] && Field(q) != Field(p)
    ensures CrcOk(q) <==> Field(q) == (0, 0)
  {
    SumsIgnoreField(p, q, |p|);
  }

  lemma {:induction false} SumsIgnoreField(p: seq<Byte>, q: seq<Byte>, n: nat)
    requires |p| == |q| >= 2 && p[..|p| - 2] == q[..|q| - 2] && n <= |p|
    ensures C0(p, n) == C0(q, n) && C1(p, n) == C1(q, n)
  {
    if n > 0 {
      SumsIgnoreField(p, q, n - 1);
      if n - 1 < |p| - 2 {
        assert p[n - 1] == p[..|p| - 2][n - 1] && q[n - 1] == q[..|q| - 2][n - 1];
      }
    }
  }

  // A packet with its check bytes in place.
  function Sealed(body: seq<Byte>): (p: seq<Byte>)
    ensures |p| == |body| + 2 && p[..|body|] == body
  {
    var check := Check(body + [0, 0]);
    body + [check.0, check.1]
  }

  lemma SealedIsOk(body: seq<Byte>)
    ensures CrcOk(Sealed(body))
  {
    var p, q := Sealed(body), body + [0, 0];
    assert p[..|p| - 2] == q[..|q| - 2];
    SumsIgnoreField(p, q, |p|);
  }
}

module EgcPackets {
  import opened Viterbi
  import opened EgcChecksum

  datatype Tag = B1 | B2 | Multiframe

  // What decodeFrame hands on: a bulletin board, or the packet given to decodeEgc. Unspecified
  // stands for the outcome of a check over bytes behind the end of the reassembly buffer.
  datatype Event = Bulletin(packet: seq<Byte>) | Egc(tag: Tag, packet: seq<Byte>) | Unspecified

  // ---- The walk over a frame -------------------------------------------------------------

  function PacketLength(f: seq<Byte>, pos: nat): (plen: nat)
    requires pos < |f|
    ensures plen >= 1
  {
    var d := f[pos];
    if d / 128 == 0 then d % 16 + 1
    else if d / 64 == 2 && pos + 1 < |f| then f[pos + 1] as int + 2
    else |f| - pos
  }

  // A type byte, and for the medium form a length byte that counts what follows it.
  predicate IsPacket(p: seq<Byte>) {
    && p != [] && p[0] != 0
    && (p[0] / 128 == 0 ==> |p| == p[0] % 16 + 1)
    && (p[0] / 64 == 2 && |p| >= 2 ==> |p| == p[1] as int + 2)
  }

  predicate ArePackets(ps: seq<seq<Byte>>) {
    forall p :: p in ps ==> IsPacket(p)
  }

  // The packets of a frame from `pos` on.
  function Packets(f: seq<Byte>, pos: nat): (ps: seq<seq<Byte>>)
    ensures ArePackets(ps)
    decreases |f| - pos
  {
    if pos >= |f| || f[pos] == 0 || pos + PacketLength(f, pos) > |f| then []
    else
      var next := pos + PacketLength(f, pos);
      [f[pos..next]] + Packets(f, next)
  }

  function Joined(ps: seq<seq<Byte>>): seq<Byte> {
    if ps == [] then [] else ps[0] + Joined(ps[1..])
  }

  // The walk cuts a frame into adjacent packets: together they are the frame up to where it stops.
  lemma {:induction false} WalkCovers(f: seq<Byte>, pos: nat)
    requires pos <= |f|
    ensures var end := pos + |Joined(Packets(f, pos))|;
            end <= |f| && Joined(Packets(f, pos)) == f[pos..end]
    decreases |f| - pos
  {
    var ps := Packets(f, pos);
    if ps != [] {
      var next := pos + PacketLength(f, pos);
      WalkCovers(f, next);
      assert ps[1..] == Packets(f, next);
      assert f[pos..next] + f[next..next + |Joined(ps[1..])|] == f[pos..next + |Joined(ps[1..])|];
    }
  }

  // A packet whose length can be told from its own bytes.
  predicate IsWhole(p: seq<Byte>) {
    IsPacket(p) && (p[0] / 128 == 0 || (p[0] / 64 == 2 && |p| >= 2))
  }

  // Packets of both forms laid end to end, with zeros behind them, are found again: a short one, or
  // one with a length byte that counts what follows it.
  lemma WalkFindsPackets(before: seq<Byte>, ps: seq<seq<Byte>>, after: seq<Byte>)
    requires forall p :: p in ps ==>
      || (|p| >= 1 && 0 < p[0] < 0x80 && |p| == p[0] % 16 + 1)
      || (|p| >= 2 && 0x80 <= p[0] < 0xC0 && |p| == p[1] as int + 2)
    requires after == [] || after[0] == 0
    ensures Packets(before + Joined(ps) + after, |before|) == ps
  {
    WalkFindsWhole(before, ps, after);
  }

  lemma {:induction false} WalkFindsWhole(before: seq<Byte>, ps: seq<seq<Byte>>, after: seq<Byte>)
    requires forall p :: p in ps ==> IsWhole(p)
    requires after == [] || after[0] == 0
    ensures Packets(before + Joined(ps) + after, |before|) == ps
    decreases |ps|
  {
    hide Packets, IsWhole, PacketLength;
    if ps == [] {
      WalkEnds(before + Joined(ps) + after, |before|);
    } else {
      var p := ps[0];
      assert p in ps;
      var rest := Joined(ps[1..]) + after;
      WalkStep(before, p, rest);
      WalkFindsWhole(before + p, ps[1..], after);
      assert before + p + rest == before + Joined(ps) + after == (before + p) + Joined(ps[1..]) + after;
    }
  }

  lemma WalkEnds(f: seq<Byte>, pos: nat)
    requires pos >= |f| || f[pos] == 0
    ensures Packets(f, pos) == []
  {}

  lemma WalkStep(before: seq<Byte>, p: seq<Byte>, after: seq<Byte>)
    requires IsWhole(p)
    ensures var f := before + p + after; Packets(f, |before|) == [p] + Packets(f, |before + p|)
  {
    hide Packets, PacketLength, IsWhole;
    var f := before + p + after;
    var pos := |before|;
    LengthFits(before, p, after);
    assert pos + |p| <= |f|;
    PacketsUnfold(f, pos);
    assert f[pos..pos + |p|] == p;
  }

  lemma PacketsUnfold(f: seq<Byte>, pos: nat)
    requires pos < |f| && f[pos] != 0 && pos + PacketLength(f, pos) <= |f|
    ensures var next := pos + PacketLength(f, pos); Packets(f, pos) == [f[pos..next]] + Packets(f, next)
  {}

  // A byte that starts no known form, or a medium form cut off behind its first byte, is taken with
  // all that is left of the frame.
  lemma RestIsOnePacket(f: seq<Byte>, pos: nat)
    requires pos < |f| && (f[pos] >= 192 || (f[pos] >= 128 && pos + 1 == |f|))
    ensures Packets(f, pos) == [f[pos..]]
  {
    assert PacketLength(f, pos) == |f| - pos;
    WalkEnds(f, |f|);
    assert f[pos..|f|] == f[pos..];
  }

  lemma LengthFits(before: seq<Byte>, p: seq<Byte>, after: seq<Byte>)
    requires IsWhole(p)
    ensures var f := before + p + after; f[|before|] == p[0] != 0 && PacketLength(f, |before|) == |p|
  {
    var f := before + p + after;
    assert f[|before|] == p[0] && (|p| >= 2 ==> f[|before| + 1] == p[1]);
  }

  // ---- One packet ------------------------------------------------------------------------

  datatype Mfa = Mfa(data: seq<Byte>, expected: int, filled: int, active: bool) {
    ghost predicate Valid() {
      filled >= 0 && (active ==> |data| == expected >= 1)
    }
  }

  const NO_MESSAGE := Mfa([], 0, 0, false)

  lemma ShortChecks(p: seq<Byte>)
    ensures |p| == 2 ==> Check(p).0 == 0
    ensures |p| == 3 ==> Check(p).0 == -2 * (p[0] as int) % 256
  {
    hide C0, C1;
    NoSum(p);
    if 2 <= |p| <= 3 {
      NextSum(p, 0);
      NextSum(p, 1);
      if |p| == 3 {
        NextSum(p, 2);
      }
    }
  }

  lemma NoSum(p: seq<Byte>)
    ensures C0(p, 0) == 0 && C1(p, 0) == 0
  {}

  lemma NextSum(p: seq<Byte>, n: nat)
    requires n < |p|
    ensures C0(p, n + 1) == C0(p, n) + Summand(p, n)
    ensures C1(p, n + 1) == C1(p, n) + C0(p, n + 1)
  {}

  // The shortest BD and BE packets do not pass the check, so four bytes are always there.
  lemma OkIsLong(p: seq<Byte>)
    requires IsPacket(p) && (p[0] == 0xBD || p[0] == 0xBE) && CrcOk(p)
    ensures |p| >= 4
  {
    ShortChecks(p);
  }

  function Zeroed(n: nat): (z: seq<Byte>)
    ensures |z| == n && forall i :: 0 <= i < n ==> z[i] == 0
  {
    seq(n, _ => 0)
  }

  // std::memcpy(&data[at], bytes, |bytes|)
  function Overwrite(data: seq<Byte>, at: nat, bytes: seq<Byte>): (r: seq<Byte>)
    requires at + |bytes| <= |data|
    ensures |r| == |data|
  {
    data[..at] + bytes + data[at + |bytes|..]
  }

  // The length of the message that a BD packet announces.
  function AnnouncedLength(p: seq<Byte>): nat
    requires |p| >= 4
  {
    var md := p[2];
    if md / 128 == 0 then md % 16 + 1 else if md / 64 == 2 then p[3] as int + 2 else 0
  }

  function Started(p: seq<Byte>, s: Mfa): Mfa
    requires |p| >= 4
  {
    var mlen := AnnouncedLength(p);
    var filled := |p| - 4;
    if mlen == 0 then s
    else Mfa(if 0 < filled <= mlen then Overwrite(Zeroed(mlen), 0, p[2..2 + filled]) else Zeroed(mlen), mlen, filled, true)
  }

  function Continued(p: seq<Byte>, s: Mfa): Mfa
    requires |p| >= 4 && s.filled >= 0
  {
    var cnt := |p| - 4;
    if cnt > 0 && s.filled + cnt <= |s.data| then
      s.(data := Overwrite(s.data, s.filled, p[2..2 + cnt]), filled := s.filled + cnt)
    else s
  }

  // The assembled packet, when it is complete, of the right type and passes its check. The length
  // checked is the one its own second byte gives: the source does not compare it with the buffer.
  function Assembled(s: Mfa): seq<Event> {
    if s.filled == s.expected - 2 && s.data != [] && (s.data[0] == 0xB1 || s.data[0] == 0xB2) then
      var ep := PacketLength(s.data, 0);
      if ep > |s.data| then [Unspecified]
      else if CrcOk(s.data[..ep]) then [Egc(Multiframe, s.data[..ep])]
      else []
    else []
  }

  function Handle(p: seq<Byte>, s: Mfa): (r: (seq<Event>, Mfa))
    requires IsPacket(p) && s.Valid()
    ensures r.1.Valid()
  {
    if !CrcOk(p) then ([], s)
    else if p[0] == 0x7D then ([Bulletin(p)], s)
    else if p[0] == 0xB1 then ([Egc(B1, p)], s)
    else if p[0] == 0xB2 then ([Egc(B2, p)], s)
    else if p[0] == 0xBD then
      OkIsLong(p);
      ([], Started(p, s))
    else if p[0] == 0xBE then
      OkIsLong(p);
      if s.active then (Assembled(Continued(p, s)), Continued(p, s).(active := false)) else ([], s)
    else ([], s)
  }

  // A packet list, in order.
  function Events(ps: seq<seq<Byte>>, s: Mfa): seq<Event>
    requires ArePackets(ps) && s.Valid()
  {
    if ps == [] then [] else Handle(ps[0], s).0 + Events(ps[1..], Handle(ps[0], s).1)
  }

  function After(ps: seq<seq<Byte>>, s: Mfa): (s': Mfa)
    requires ArePackets(ps) && s.Valid()
    ensures s'.Valid()
  {
    if ps == [] then s else After(ps[1..], Handle(ps[0], s).1)
  }

  // The packets of many frames.
  function AllPackets(frames: seq<seq<Byte>>): (ps: seq<seq<Byte>>)
    ensures ArePackets(ps)
  {
    if frames == [] then [] else AllPackets(frames[..|frames| - 1]) + Packets(frames[|frames| - 1], 0)
  }

  lemma {:induction false} HandleAppend(ps: seq<seq<Byte>>, qs: seq<seq<Byte>>, s: Mfa)
    requires ArePackets(ps) && ArePackets(qs) && s.Valid()
    ensures Events(ps + qs, s) == Events(ps, s) + Events(qs, After(ps, s))
    ensures After(ps + qs, s) == After(qs, After(ps, s))
  {
    hide Handle;
    if ps == [] {
      assert ps + qs == qs;
    } else {
      HandleAppend(ps[1..], qs, Handle(ps[0], s).1);
      assert (ps + qs)[1..] == ps[1..] + qs;
    }
  }

  // One packet of the walk, or its end.
  lemma NextPacket(f: seq<Byte>, pos: nat)
    requires pos < |f|
    ensures f[pos] == 0 || pos + PacketLength(f, pos) > |f| ==> Packets(f, pos) == []
    ensures f[pos] != 0 && pos + PacketLength(f, pos) <= |f| ==>
              && Packets(f, pos) == [f[pos..pos + PacketLength(f, pos)]] + Packets(f, pos + PacketLength(f, pos))
              && IsPacket(f[pos..pos + PacketLength(f, pos)])
  {
    hide PacketLength, IsPacket;
    if f[pos] != 0 && pos + PacketLength(f, pos) <= |f| {
      assert f[pos..pos + PacketLength(f, pos)] in Packets(f, pos);
    }
  }

  lemma NoPackets(s: Mfa)
    requires s.Valid()
    ensures ArePackets([]) && Events([], s) == [] && After([], s) == s
  {}

  lemma WalkEnd(f: seq<Byte>, pos: nat)
    ensures pos >= |f| ==> Packets(f, pos) == []
  {}

  lemma FirstPacket(p: seq<Byte>, rest: seq<seq<Byte>>, s: Mfa)
    requires IsPacket(p) && ArePackets(rest) && s.Valid()
    ensures ArePackets([p] + rest)
    ensures Events([p] + rest, s) == Handle(p, s).0 + Events(rest, Handle(p, s).1)
    ensures After([p] + rest, s) == After(rest, Handle(p, s).1)
  {
    hide Handle;
    assert ([p] + rest)[1..] == rest;
  }

  class PacketDecoder {
    var data: seq<Byte>
    var expected: int
    var filled: int
    var active: bool

    ghost function State(): Mfa
      reads this
    {
      Mfa(data, expected, filled, active)
    }

    ghost predicate Valid()
      reads this
    {
      State().Valid()
    }

    constructor ()
      ensures Valid() && State() == NO_MESSAGE
    {
      data, expected, filled, active := [], 0, 0, false;
    }

    method DecodeFrame(f: seq<Byte>) returns (events: seq<Event>)
      requires Valid()
      modifies this
      ensures Valid() && State() == After(Packets(f, 0), old(State()))
      ensures events == Events(Packets(f, 0), old(State()))
    {
      hide CrcOk, Handle, Events, After, Packets, PacketLength, IsPacket, ArePackets, Mfa.Valid;
      ghost var s0 := State();
      events := [];
      var pos := 0;
      while pos < |f|
        invariant 0 <= pos <= |f| && Valid()
        invariant events + Events(Packets(f, pos), State()) == Events(Packets(f, 0), s0)
        invariant After(Packets(f, pos), State()) == After(Packets(f, 0), s0)
        decreases |f| - pos
      {
        NextPacket(f, pos);
        var d := f[pos];
        if d == 0x00 {
          break;
        }
        var plen := PacketLength(f, pos);
        if pos + plen > |f| {
          break;
        }
        ghost var rest := Packets(f, pos + plen);
        FirstPacket(f[pos..pos + plen], rest, State());
        var more := HandlePacket(f[pos..pos + plen]);
        events := events + more;
        pos := pos + plen;
        assert events + Events(rest, State()) == Events(Packets(f, 0), s0);
      }
      WalkEnd(f, pos);
      NoPackets(State());
    }

    method HandlePacket(p: seq<Byte>) returns (events: seq<Event>)
      requires Valid() && IsPacket(p)
      modifies this
      ensures Valid() && (events, State()) == Handle(p, old(State()))
    {
      hide CrcOk, AnnouncedLength;
      events := [];
      var d := p[0];
      var ok := CrcOk(p);
      if d == 0x7D && ok {
        events := [Bulletin(p)];
      } else if (d == 0xB1 || d == 0xB2) && ok {
        events := [Egc(if d == 0xB1 then B1 else B2, p)];
      } else if d == 0xBD && ok {
        OkIsLong(p);
        var mlen := AnnouncedLength(p);
        if mlen > 0 {
          data := Zeroed(mlen);
          expected := mlen;
          filled := |p| - 4;
          if filled > 0 && filled <= mlen {
            data := Overwrite(data, 0, p[2..2 + filled]);
          }
          active := true;
        }
      } else if d == 0xBE && ok {
        OkIsLong(p);
        if active {
          var cnt := |p| - 4;
          if cnt > 0 && filled + cnt <= |data| {
            data := Overwrite(data, filled, p[2..2 + cnt]);
            filled := filled + cnt;
          }
          if filled == expected - 2 {
            var ed := data[0];
            var ep := PacketLength(data, 0);
            if ed == 0xB1 || ed == 0xB2 {
              if ep > |data| {
                events := [Unspecified];
              } else if CrcOk(data[..ep]) {
                events := [Egc(Multiframe, data[..ep])];
              }
            }
          }
          active := false;
        }
      }
    }

    // The loop of main over the decoded frames.
    method DecodeFrames(frames: seq<seq<Byte>>) returns (events: seq<Event>)
      requires Valid()
      modifies this
      ensures Valid() && State() == After(AllPackets(frames), old(State()))
      ensures events == Events(AllPackets(frames), old(State()))
    {
      hide Handle;
      ghost var s0 := State();
      events := [];
      for i := 0 to |frames|
        invariant Valid() && State() == After(AllPackets(frames[..i]), s0)
        invariant events == Events(AllPackets(frames[..i]), s0)
      {
        assert frames[..i + 1][..i] == frames[..i];
        HandleAppend(AllPackets(frames[..i]), Packets(frames[i], 0), s0);
        var more := DecodeFrame(frames[i]);
        events := events + more;
      }
      assert frames[..|frames|] == frames;
    }
  }

  // ---- Runs of packets -------------------------------------------------------------------

  lemma HandleOne(p: seq<Byte>, s: Mfa)
    requires IsPacket(p) && s.Valid()
    ensures Events([p], s) == Handle(p, s).0 && After([p], s) == Handle(p, s).1
  {
    hide Handle;
    assert [p][1..] == [];
  }

  // One BE packet for each BD packet: without an open message BE does nothing.
  lemma LateContinuationIgnored(p: seq<Byte>, s: Mfa)
    requires IsPacket(p) && p[0] == 0xBE && s.Valid() && !s.active
    ensures Handle(p, s) == ([], s)
  {}
}

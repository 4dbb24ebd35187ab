/** adapters/generic-modbus/protocol.py: read requests and responses over Modbus RTU and TCP
    (sections 6.3 and 6.4 of MODBUS Application Protocol Specification V1.1b3) and the values
    in their registers. */
module Modbus {
  import opened Wrappers
  import opened Crc
  import opened CrcErrors
  import opened CrcOrder
  import opened CrcPreset

  type Register = bv16

  datatype Failure =
    | ModbusError(reason: Reason)
    | IndexError

  datatype Reason =
    | ShortFrame
    | CrcMismatch
    | UnitMismatch
    | TransactionMismatch
    | BadProtocolId
    | DeviceException(code: Byte)
    | FunctionMismatch
    | ByteCountMismatch
    | UnsupportedType

  function High(r: Register): Byte {
    (r >> 8) as Byte
  }

  function LowByte(r: Register): Byte {
    (r & 0xFF) as Byte
  }

  // ---- the shared part --------------------------------------------------------------

  function Registers(data: seq<Byte>): (regs: seq<Register>)
    requires |data| % 2 == 0
    ensures 2 * |regs| == |data|
    decreases |data|
  {
    if data == [] then [] else [WordOf(data[1], data[0])] + Registers(data[2..])
  }

  function ParsePdu(pdu: seq<Byte>, expectFunc: Byte): Result<seq<Register>, Failure> {
    if pdu == [] then Err(IndexError)
    else if pdu[0] == expectFunc | 0x80 then
      if |pdu| < 2 then Err(IndexError) else Err(ModbusError(DeviceException(pdu[1])))
    else if pdu[0] != expectFunc then Err(ModbusError(FunctionMismatch))
    else if |pdu| < 2 then Err(IndexError)
    else DataOf(pdu[2..], pdu[1] as int)
  }

  function DataOf(rest: seq<Byte>, byteCount: nat): Result<seq<Register>, Failure> {
    if |rest| < byteCount || byteCount % 2 == 1 then Err(ModbusError(ByteCountMismatch))
    else Ok(Registers(rest[..byteCount]))
  }

  // ---- RTU framing ---------------------------------------------------------------------

  function BuildReadRtu(unitId: Byte, func: Byte, offset: bv16, count: bv16): seq<Byte> {
    var body := [unitId, func, High(offset), LowByte(offset), High(count), LowByte(count)];
    body + CheckBytes(CrcOf(body))
  }

  function ParseReadRtu(frame: seq<Byte>, expectUnit: Byte, expectFunc: Byte): Result<seq<Register>, Failure> {
    if |frame| < 5 then Err(ModbusError(ShortFrame))
    else
      var n := |frame| - 2;
      var body := frame[..n];
      if CrcOf(body) != WordOf(frame[n], frame[n + 1]) then Err(ModbusError(CrcMismatch))
      else if body[0] != expectUnit then Err(ModbusError(UnitMismatch))
      else ParsePdu(body[1..], expectFunc)
  }

  // ---- TCP framing ---------------------------------------------------------------------

  function BuildReadTcp(tid: bv16, unitId: Byte, func: Byte, offset: bv16, count: bv16): seq<Byte> {
    [High(tid), LowByte(tid), 0, 0, 0, 6, unitId] +
    [func, High(offset), LowByte(offset), High(count), LowByte(count)]
  }

  // The part of the frame that the length field of the header covers, after the unit.
  function PduOfTcp(frame: seq<Byte>): seq<Byte>
    requires |frame| >= 9
  {
    Cut(frame, 6 + WordOf(frame[5], frame[4]) as int)
  }

  // A slice from byte 7 on, which ends with the frame at the latest.
  function Cut(frame: seq<Byte>, end: nat): seq<Byte>
    requires |frame| >= 9
  {
    if end <= 7 then [] else if end < |frame| then frame[7..end] else frame[7..]
  }

  function ParseReadTcp(frame: seq<Byte>, expectTid: bv16, expectFunc: Byte): Result<seq<Register>, Failure> {
    if |frame| < 9 then Err(ModbusError(ShortFrame))
    else if WordOf(frame[1], frame[0]) != expectTid then Err(ModbusError(TransactionMismatch))
    else if WordOf(frame[3], frame[2]) != 0 then Err(ModbusError(BadProtocolId))
    else ParsePdu(PduOfTcp(frame), expectFunc)
  }

  // ---- what a device sends ---------------------------------------------------------------

  function RegisterBytes(regs: seq<Register>): (data: seq<Byte>)
    ensures |data| == 2 * |regs|
  {
    if regs == [] then [] else [High(regs[0]), LowByte(regs[0])] + RegisterBytes(regs[1..])
  }

  // The byte that stands for a number.
  function ByteOf(n: nat): (b: Byte)
    requires n < 0x100
    ensures b as int == n
    decreases n
  {
    if n == 0 then 0 else ByteOf(n - 1) + 1
  }

  // The byte count is one byte, so a response holds at most 127 registers (the standard allows 125).
  function ResponsePdu(func: Byte, regs: seq<Register>): seq<Byte>
    requires |regs| <= 127
  {
    [func, ByteOf(2 * |regs|)] + RegisterBytes(regs)
  }

  function WithCheck(body: seq<Byte>): seq<Byte> {
    body + CheckBytes(CrcOf(body))
  }

  function WithHeader(tid: bv16, length: bv16, unitId: Byte, pdu: seq<Byte>): seq<Byte> {
    [High(tid), LowByte(tid), 0, 0, High(length), LowByte(length), unitId] + pdu
  }

  // ---- the encoding of registers is undone ---------------------------------------------

  lemma WordOfParts(r: Register, lo: Byte, hi: Byte)
    ensures WordOf(LowByte(r), High(r)) == r
    ensures High(WordOf(lo, hi)) == hi && LowByte(WordOf(lo, hi)) == lo
  {
  }

  lemma {:induction false} RegistersRoundTrip(regs: seq<Register>)
    ensures Registers(RegisterBytes(regs)) == regs
  {
    if regs != [] {
      WordOfParts(regs[0], 0, 0);
      var data := RegisterBytes(regs);
      assert data[2..] == RegisterBytes(regs[1..]);
      RegistersRoundTrip(regs[1..]);
    }
  }

  lemma {:induction false} RegisterBytesRoundTrip(data: seq<Byte>)
    requires |data| % 2 == 0
    ensures RegisterBytes(Registers(data)) == data
    decreases |data|
  {
    if data != [] {
      WordOfParts(0, data[1], data[0]);
      RegisterBytesRoundTrip(data[2..]);
      assert Registers(data)[1..] == Registers(data[2..]);
      assert data == [data[0], data[1]] + data[2..];
    }
  }

  lemma SameByte(a: Byte, b: Byte)
    requires a as int == b as int
    ensures a == b
  {
  }

  predicate PlainFunction(func: Byte) {
    func & 0x80 == 0
  }

  lemma PlainIff(func: Byte)
    ensures PlainFunction(func) <==> func != func | 0x80
  {
  }

  lemma DataOfExactly(rest: seq<Byte>, byteCount: nat, regs: seq<Register>)
    ensures DataOf(rest, byteCount) == Ok(regs)
            <==> byteCount == 2 * |regs| && RegisterBytes(regs) <= rest
  {
    if DataOf(rest, byteCount) == Ok(regs) {
      DataIsPrefix(rest, byteCount, regs);
    }
    if byteCount == 2 * |regs| && RegisterBytes(regs) <= rest {
      PrefixIsData(rest, RegisterBytes(regs));
      RegistersRoundTrip(regs);
    }
  }

  lemma PrefixIsData(rest: seq<Byte>, data: seq<Byte>)
    requires data <= rest && |data| % 2 == 0
    ensures DataOf(rest, |data|) == Ok(Registers(data))
  {
    assert rest[..|data|] == data;
  }

  lemma DataIsPrefix(rest: seq<Byte>, byteCount: nat, regs: seq<Register>)
    requires DataOf(rest, byteCount) == Ok(regs)
    ensures byteCount == 2 * |regs| && RegisterBytes(regs) <= rest
  {
    var data := rest[..byteCount];
    RegisterBytesRoundTrip(data);
    assert Registers(data) == regs && RegisterBytes(regs) == data;
  }

  lemma CountByte(b: Byte, n: nat)
    requires n < 0x100
    ensures b as int == n <==> b == ByteOf(n)
    ensures b as int < 0x100
  {
    if b as int == n {
      SameByte(b, ByteOf(n));
    }
  }

  lemma PrefixSplits(func: Byte, count: Byte, data: seq<Byte>, pdu: seq<Byte>)
    requires |pdu| >= 2
    ensures [func, count] + data <= pdu <==> pdu[0] == func && pdu[1] == count && data <= pdu[2..]
  {
    var whole := [func, count] + data;
    if whole <= pdu {
      assert pdu[..|whole|] == whole && pdu[0] == whole[0] && pdu[1] == whole[1];
      assert pdu[2..][..|data|] == whole[2..];
    }
    if pdu[0] == func && pdu[1] == count && data <= pdu[2..] {
      assert pdu[..|whole|] == whole;
    }
  }

  // The parser accepts a response, whatever follows it, and nothing else.
  lemma PduAcceptsExactly(pdu: seq<Byte>, func: Byte, regs: seq<Register>)
    ensures ParsePdu(pdu, func) == Ok(regs)
            <==> PlainFunction(func) && |regs| <= 127 && ResponsePdu(func, regs) <= pdu
  {
    PlainIff(func);
    if |pdu| >= 2 {
      DataOfExactly(pdu[2..], pdu[1] as int, regs);
      CountByte(pdu[1], 0);
      if |regs| <= 127 {
        CountByte(pdu[1], 2 * |regs|);
        PrefixSplits(func, ByteOf(2 * |regs|), RegisterBytes(regs), pdu);
      }
    }
  }

  // ---- RTU ------------------------------------------------------------------------------

  lemma CheckBytesOf(body: seq<Byte>, lo: Byte, hi: Byte)
    ensures CheckBytes(CrcOf(body)) == [lo, hi] <==> CrcOf(body) == WordOf(lo, hi)
  {
    CheckBytesOfWord(CrcOf(body), lo, hi);
  }

  lemma CheckBytesOfWord(c: bv16, lo: Byte, hi: Byte)
    ensures CheckBytes(c) == [lo, hi] <==> c == WordOf(lo, hi)
  {
    WordRoundTrip(c, lo, hi);
    assert CheckBytes(c) == [lo, hi] <==> CheckBytes(c)[0] == lo && CheckBytes(c)[1] == hi;
  }

  predicate Checked(frame: seq<Byte>)
    requires |frame| >= 2
  {
    CrcOf(frame[..|frame| - 2]) == WordOf(frame[|frame| - 2], frame[|frame| - 1])
  }

  // The receiver's comparison is that the whole frame has remainder zero.
  lemma CheckedIffRemainderZero(frame: seq<Byte>)
    requires |frame| >= 2
    ensures Checked(frame) <==> CrcOf(frame) == 0
  {
    var n := |frame| - 2;
    assert frame == frame[..n] + [frame[n], frame[n + 1]];
    CheckedIffZero(frame[..n], frame[n], frame[n + 1]);
  }

  lemma WithCheckIsChecked(body: seq<Byte>)
    ensures Checked(WithCheck(body)) && CrcOf(WithCheck(body)) == 0
  {
    var frame := WithCheck(body);
    assert frame[..|frame| - 2] == body;
    WordRoundTrip(CrcOf(body), 0, 0);
    CheckedIffRemainderZero(frame);
  }

  // Every request carries a check that a device accepts.
  lemma RequestIsChecked(unitId: Byte, func: Byte, offset: bv16, count: bv16)
    ensures Checked(BuildReadRtu(unitId, func, offset, count))
  {
    WithCheckIsChecked([unitId, func, High(offset), LowByte(offset), High(count), LowByte(count)]);
  }

  lemma RtuParts(body: seq<Byte>)
    requires |body| >= 3
    ensures forall unitId, func ::
      ParseReadRtu(WithCheck(body), unitId, func)
      == if body[0] != unitId then Err(ModbusError(UnitMismatch)) else ParsePdu(body[1..], func)
  {
    var frame := WithCheck(body);
    assert frame[..|frame| - 2] == body;
    WithCheckIsChecked(body);
  }

  // An RTU frame is accepted exactly when it leaves the register at zero and what is under the check
  // begins with a response of that unit to that function.
  lemma RtuAcceptsExactly(frame: seq<Byte>, unitId: Byte, func: Byte, regs: seq<Register>)
    ensures ParseReadRtu(frame, unitId, func) == Ok(regs)
            <==> && |frame| >= 5 && CrcOf(frame) == 0 && frame[0] == unitId
                 && PlainFunction(func) && |regs| <= 127
                 && ResponsePdu(func, regs) <= frame[1..|frame| - 2]
  {
    if |frame| >= 5 {
      var n := |frame| - 2;
      CheckedIffRemainderZero(frame);
      assert frame[..n][1..] == frame[1..n];
      PduAcceptsExactly(frame[1..n], func, regs);
    }
  }

  // Parsing undoes the response that the standard prescribes.
  lemma RtuRoundTrip(unitId: Byte, func: Byte, regs: seq<Register>)
    requires PlainFunction(func) && |regs| <= 127
    ensures ParseReadRtu(WithCheck([unitId] + ResponsePdu(func, regs)), unitId, func) == Ok(regs)
  {
    var body := [unitId] + ResponsePdu(func, regs);
    RtuParts(body);
    assert body[1..] == ResponsePdu(func, regs);
    PduAcceptsExactly(body[1..], func, regs);
  }

  // What is reported of a frame that is not accepted: the first thing that is wrong with it.
  lemma RtuReports(frame: seq<Byte>, unitId: Byte, func: Byte)
    ensures var r := ParseReadRtu(frame, unitId, func);
      && (r == Err(ModbusError(ShortFrame)) <==> |frame| < 5)
      && (r == Err(ModbusError(CrcMismatch)) <==> |frame| >= 5 && CrcOf(frame) != 0)
      && (|frame| >= 5 && CrcOf(frame) == 0 ==>
            && (r == Err(ModbusError(UnitMismatch)) <==> frame[0] != unitId)
            && (frame[0] == unitId ==> PduReports(r, frame[1..|frame| - 2], func)))
  {
    if |frame| >= 5 {
      CheckedIffRemainderZero(frame);
      assert frame[..|frame| - 2][1..] == frame[1..|frame| - 2];
      PduReportsFirst(frame[1..|frame| - 2], func);
    }
  }

  ghost predicate PduReports(r: Result<seq<Register>, Failure>, pdu: seq<Byte>, func: Byte) {
    if |pdu| < 2 then true
    else
      && (forall code :: r == Err(ModbusError(DeviceException(code))) <==> pdu[0] == func | 0x80 && pdu[1] == code)
      && (r == Err(ModbusError(FunctionMismatch)) <==> pdu[0] != func && pdu[0] != func | 0x80)
      && (r == Err(ModbusError(ByteCountMismatch))
          <==> pdu[0] == func && pdu[0] != func | 0x80 && (|pdu| - 2 < pdu[1] as int || pdu[1] as int % 2 == 1))
  }

  lemma PduReportsFirst(pdu: seq<Byte>, func: Byte)
    ensures PduReports(ParsePdu(pdu, func), pdu, func)
  {
  }

  // An exception response is reported with its code.
  lemma RtuException(unitId: Byte, func: Byte, code: Byte)
    ensures ParseReadRtu(WithCheck([unitId, func | 0x80, code]), unitId, func)
            == Err(ModbusError(DeviceException(code)))
  {
    RtuParts([unitId, func | 0x80, code]);
  }

  // Whatever arrives, the RTU parser never reads past the end.
  lemma RtuIsTotal(frame: seq<Byte>, unitId: Byte, func: Byte)
    ensures ParseReadRtu(frame, unitId, func) != Err(IndexError)
  {
  }

  // ---- what a damaged response comes to ---------------------------------------------------

  lemma DamageIsReported(frame: seq<Byte>, unitId: Byte, func: Byte)
    requires |frame| >= 5 && CrcOf(frame) != 0
    ensures ParseReadRtu(frame, unitId, func) == Err(ModbusError(CrcMismatch))
  {
    CheckedIffRemainderZero(frame);
  }

  lemma AcceptedIsChecked(frame: seq<Byte>, unitId: Byte, func: Byte)
    requires ParseReadRtu(frame, unitId, func).Ok?
    ensures |frame| >= 5 && CrcOf(frame) == 0
  {
    CheckedIffRemainderZero(frame);
  }

  // A frame that differs from an accepted one within 16 consecutive bits is rejected.
  lemma BurstIsRejected(f: seq<Byte>, g: seq<Byte>, before: seq<bool>, u: seq<bool>, v: seq<bool>,
                        after: seq<bool>, unitId: Byte, func: Byte)
    requires ParseReadRtu(f, unitId, func).Ok? && |f| == |g| && f != g
    requires FrameBits(f) == before + u + after && FrameBits(g) == before + v + after && |u| == |v| <= 16
    ensures ParseReadRtu(g, unitId, func) == Err(ModbusError(CrcMismatch))
  {
    AcceptedIsChecked(f, unitId, func);
    BurstsAreDetected(f, g, before, u, v, after);
    DamageIsReported(g, unitId, func);
  }

  lemma AdjacentBytesAreRejected(before: seq<Byte>, u: seq<Byte>, v: seq<Byte>, after: seq<Byte>,
                                 unitId: Byte, func: Byte)
    requires |u| == |v| <= 2 && u != v
    requires ParseReadRtu(before + u + after, unitId, func).Ok?
    ensures ParseReadRtu(before + v + after, unitId, func) == Err(ModbusError(CrcMismatch))
  {
    AcceptedIsChecked(before + u + after, unitId, func);
    AdjacentBytesAreDetected(before, u, v, after);
    DamageIsReported(before + v + after, unitId, func);
  }

  // So is one with an odd number of flipped bits, and one with up to three in a frame of up to
  // 4095 bytes.
  lemma FlipsAreRejected(f: seq<Byte>, g: seq<Byte>, unitId: Byte, func: Byte)
    requires ParseReadRtu(f, unitId, func).Ok? && |f| == |g|
    requires var n := Count(Flips(FrameBits(f), FrameBits(g)));
             n % 2 == 1 || (1 <= n <= 3 && |f| <= 4095)
    ensures ParseReadRtu(g, unitId, func) == Err(ModbusError(CrcMismatch))
  {
    AcceptedIsChecked(f, unitId, func);
    var w := Flips(FrameBits(f), FrameBits(g));
    if Count(w) % 2 == 1 {
      OddIffCountOdd(w);
      OddErrorsAreDetected(f, g);
    } else {
      FewErrorsAreDetected(f, g);
    }
    DamageIsReported(g, unitId, func);
  }

  // ---- TCP ----------------------------------------------------------------------------------

  predicate HeaderMatches(frame: seq<Byte>, tid: bv16)
    requires |frame| >= 9
  {
    WordOf(frame[1], frame[0]) == tid && WordOf(frame[3], frame[2]) == 0
  }

  function LengthField(frame: seq<Byte>): nat
    requires |frame| >= 9
  {
    WordOf(frame[5], frame[4]) as int
  }

  // The TCP parser reads past the end exactly when the length field leaves less than the part of
  // the response that it looks at.
  lemma TcpIndexErrorIff(frame: seq<Byte>, tid: bv16, func: Byte)
    ensures ParseReadTcp(frame, tid, func) == Err(IndexError)
            <==> |frame| >= 9 && HeaderMatches(frame, tid)
                 && (LengthField(frame) <= 1
                     || (LengthField(frame) == 2 && (frame[7] == func || frame[7] == func | 0x80)))
  {
    if |frame| >= 9 && HeaderMatches(frame, tid) {
      var pdu := PduOfTcp(frame);
      assert |pdu| == 0 <==> LengthField(frame) <= 1;
      assert |pdu| == 1 <==> LengthField(frame) == 2;
      assert pdu != [] ==> pdu[0] == frame[7];
    }
  }

  // Nine bytes in answer to transaction 1 and function 3, whose header claims no bytes, or only two.
  lemma TcpIndexErrors()
    ensures ParseReadTcp([0, 1, 0, 0, 0, 0, 9, 3, 0], 1, 3) == Err(IndexError)
    ensures ParseReadTcp([0, 1, 0, 0, 0, 2, 9, 3, 0], 1, 3) == Err(IndexError)
  {
    assert WordOf(1, 0) == 1 && WordOf(0, 0) == 0 && WordOf(2, 0) == 2;
    assert (0 as bv16) as int == 0 && (2 as bv16) as int == 2;
    TcpIndexErrorIff([0, 1, 0, 0, 0, 0, 9, 3, 0], 1, 3);
    TcpIndexErrorIff([0, 1, 0, 0, 0, 2, 9, 3, 0], 1, 3);
  }

  lemma TcpAcceptsExactly(frame: seq<Byte>, tid: bv16, func: Byte, regs: seq<Register>)
    ensures ParseReadTcp(frame, tid, func) == Ok(regs)
            <==> |frame| >= 9 && HeaderMatches(frame, tid)
                 && PlainFunction(func) && |regs| <= 127
                 && ResponsePdu(func, regs) <= frame[7..] && |ResponsePdu(func, regs)| < LengthField(frame)
  {
    if |frame| >= 9 && HeaderMatches(frame, tid) {
      PduAcceptsExactly(PduOfTcp(frame), func, regs);
      if |regs| <= 127 {
        CutPrefix(ResponsePdu(func, regs), frame, LengthField(frame));
      }
    }
  }

  // What begins the part that the length field covers begins what follows the header, and fits.
  lemma CutPrefix(p: seq<Byte>, frame: seq<Byte>, length: nat)
    requires p != [] && |frame| >= 9
    ensures p <= Cut(frame, 6 + length) <==> p <= frame[7..] && |p| < length
  {
    var rest := frame[7..];
    if 7 < 6 + length < |frame| {
      assert Cut(frame, 6 + length) == rest[..length - 1];
    }
  }

  // What is reported: the first thing that is wrong with the header, then with what it covers.
  lemma TcpReports(frame: seq<Byte>, tid: bv16, func: Byte)
    ensures var r := ParseReadTcp(frame, tid, func);
      && (r == Err(ModbusError(ShortFrame)) <==> |frame| < 9)
      && (|frame| >= 9 ==>
            && (r == Err(ModbusError(TransactionMismatch)) <==> WordOf(frame[1], frame[0]) != tid)
            && (r == Err(ModbusError(BadProtocolId))
                <==> WordOf(frame[1], frame[0]) == tid && WordOf(frame[3], frame[2]) != 0)
            && (HeaderMatches(frame, tid) && LengthField(frame) >= |frame| - 6 ==> PduReports(r, frame[7..], func)))
  {
    if |frame| >= 9 && HeaderMatches(frame, tid) {
      PduReportsFirst(PduOfTcp(frame), func);
      assert LengthField(frame) >= |frame| - 6 ==> PduOfTcp(frame) == frame[7..];
    }
  }

  // Parsing undoes the response with a header whose length field covers it.
  lemma TcpRoundTrip(tid: bv16, length: bv16, unitId: Byte, func: Byte, regs: seq<Register>)
    requires PlainFunction(func) && |regs| <= 127 && length as int == 3 + 2 * |regs|
    ensures ParseReadTcp(WithHeader(tid, length, unitId, ResponsePdu(func, regs)), tid, func) == Ok(regs)
  {
    var pdu := ResponsePdu(func, regs);
    var frame := WithHeader(tid, length, unitId, pdu);
    WordOfParts(tid, 0, 0);
    WordOfParts(length, 0, 0);
    WordOfParts(0, 0, 0);
    assert frame[7..] == pdu && PduOfTcp(frame) == pdu;
    TcpAcceptsExactly(frame, tid, func, regs);
  }

  // ---- frames with their bytes written out -----------------------------------------------

  lemma TwoByteWords()
    ensures WordOf(0x0A, 0x00) == 10 && High(0) == 0 && LowByte(0) == 0 && High(10) == 0 && LowByte(10) == 10
    ensures CheckBytes(0xCDC5) == [0xC5, 0xCD] && WordOf(0x38, 0x43) == 0x4338
    ensures (2 as Byte) as int == 2 && (3 as Byte) | 0x80 == 0x83
  {
  }

  // Unit 1 answers that its register holds 10; ten registers are asked of it.
  lemma RtuExample()
    ensures ParseReadRtu([0x01, 0x03, 0x02, 0x00, 0x0A, 0x38, 0x43], 1, 3) == Ok([10])
    ensures BuildReadRtu(1, 3, 0, 10) == [0x01, 0x03, 0x00, 0x00, 0x00, 0x0A, 0xC5, 0xCD]
  {
    var frame: seq<Byte> := [0x01, 0x03, 0x02, 0x00, 0x0A, 0x38, 0x43];
    CheckOfResponse();
    CheckOfRequest();
    TwoByteWords();
    assert frame[..5] == [0x01, 0x03, 0x02, 0x00, 0x0A];
    var pdu := frame[..5][1..];
    assert pdu == [0x03, 0x02, 0x00, 0x0A] && pdu[2..] == [0x00, 0x0A];
    OneRegister(pdu[2..]);
  }

  lemma OneRegister(data: seq<Byte>)
    requires |data| == 2
    ensures Registers(data) == [WordOf(data[1], data[0])] && data[..2] == data
  {
    assert data[2..] == [];
  }

  // Three registers from 0x6B on are asked for in transaction 1, and one comes back.
  lemma TcpExample()
    ensures BuildReadTcp(1, 9, 3, 0x6B, 3) == [0, 1, 0, 0, 0, 6, 9, 3, 0x00, 0x6B, 0, 3]
    ensures ParseReadTcp([0, 1, 0, 0, 0, 5, 9, 3, 2, 0x00, 0x0A], 1, 3) == Ok([10])
  {
    var frame: seq<Byte> := [0, 1, 0, 0, 0, 5, 9, 3, 2, 0x00, 0x0A];
    TwoByteWords();
    assert WordOf(1, 0) == 1 && WordOf(0, 0) == 0 && WordOf(5, 0) == 5 && (5 as bv16) as int == 5;
    assert High(1) == 0 && LowByte(1) == 1 && High(0x6B) == 0 && LowByte(0x6B) == 0x6B;
    assert High(3) == 0 && LowByte(3) == 3;
    var pdu := PduOfTcp(frame);
    assert pdu == frame[7..] && pdu == [3, 2, 0x00, 0x0A] && pdu[2..] == [0x00, 0x0A];
    OneRegister(pdu[2..]);
  }
}

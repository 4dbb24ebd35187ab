/** adapters/generic-modbus/protocol.py: the value that one or two registers hold. */
module RegisterValues {
  import opened Wrappers
  import opened Crc
  import opened Modbus

  // Python returns an int for a whole number and a float for any other.
  datatype Value = Whole(n: int) | Fraction(x: real)

  function NumberOf(v: Value): real {
    match v
    case Whole(n) => n as real
    case Fraction(x) => x
  }

  // The number whose two's complement is a word, and the number of two words.
  function Signed(word: int): int {
    if word < 0x8000 then word else word - 0x1_0000
  }

  function Joined(hi: int, lo: int): int {
    hi * 0x1_0000 + lo
  }

  type Word = n: int | 0 <= n < 0x1_0000

  function NumberIn(r: Register): Word {
    WordBounds(r);
    r as int
  }

  function NumbersIn(regs: seq<Register>): seq<Word> {
    seq(|regs|, i requires 0 <= i < |regs| => NumberIn(regs[i]))
  }

  lemma WordBounds(r: Register)
    ensures 0 <= r as int < 0x1_0000
  {
  }

  function RawValue(regs: seq<Word>, regType: string): Result<int, Failure> {
    if regType == "u16" then
      if |regs| < 1 then Err(IndexError) else Ok(regs[0])
    else if regType == "s16" then
      if |regs| < 1 then Err(IndexError)
      else Ok(Signed(regs[0]))
    else if regType == "u32" then
      if |regs| < 2 then Err(IndexError) else Ok(Joined(regs[0], regs[1]))
    else if regType == "u32_swapped" then
      if |regs| < 2 then Err(IndexError) else Ok(Joined(regs[1], regs[0]))
    else Err(ModbusError(UnsupportedType))
  }

  function DecodeValue(regs: seq<Word>, regType: string, scale: real): Result<Value, Failure> {
    match RawValue(regs, regType)
    case Err(e) => Err(e)
    case Ok(raw) =>
      var value := raw as real * scale;
      Ok(if value.Floor as real == value then Whole(value.Floor) else Fraction(value))
  }

  function RegCount(regType: string): nat {
    if "u32" <= regType then 2 else 1
  }

  const SUPPORTED: set<string> := {"u16", "s16", "u32", "u32_swapped"}

  // The numbers that a type represents.
  predicate InRange(n: int, regType: string) {
    if regType == "u16" then 0 <= n < 0x1_0000
    else if regType == "s16" then -0x8000 <= n < 0x8000
    else regType in {"u32", "u32_swapped"} && 0 <= n < 0x1_0000_0000
  }

  // Registers that hold a number: the words of its two's complement, high word first unless swapped.
  ghost predicate Holds(regs: seq<Word>, n: int, regType: string) {
    if regType in {"u16", "s16"} then
      |regs| == 1 && regs[0] == n % 0x1_0000
    else
      && |regs| == 2
      && var (hi, lo) := if regType == "u32" then (regs[0], regs[1]) else (regs[1], regs[0]);
         hi == n / 0x1_0000 && lo == n % 0x1_0000
  }

  lemma SignedIff(word: int, n: int)
    requires 0 <= word < 0x1_0000
    ensures -0x8000 <= Signed(word) < 0x8000
    ensures Signed(word) == n <==> -0x8000 <= n < 0x8000 && word == n % 0x1_0000
  {
  }

  lemma JoinedIff(hi: int, lo: int, n: int)
    requires 0 <= hi < 0x1_0000 && 0 <= lo < 0x1_0000
    ensures 0 <= Joined(hi, lo) < 0x1_0000_0000
    ensures Joined(hi, lo) == n <==> hi == n / 0x1_0000 && lo == n % 0x1_0000
  {
  }

  lemma RegCounts()
    ensures RegCount("u16") == 1 && RegCount("s16") == 1
    ensures RegCount("u32") == 2 && RegCount("u32_swapped") == 2
  {
    assert "u16"[1] != "u32"[1] && "s16"[0] != "u32"[0];
    assert "u32_swapped"[..3] == "u32";
  }

  // With the registers that the type asks for, decoding always gives a number in range, and it is
  // the one that they hold.
  lemma DecodeIffHolds(regs: seq<Word>, regType: string, n: int)
    requires regType in SUPPORTED && |regs| == RegCount(regType)
    ensures RawValue(regs, regType) == Ok(n) <==> InRange(n, regType) && Holds(regs, n, regType)
    ensures RawValue(regs, regType).Ok?
  {
    RegCounts();
    if |regs| == 1 {
      SignedIff(regs[0], n);
    } else {
      JoinedIff(regs[0], regs[1], n);
      JoinedIff(regs[1], regs[0], n);
    }
  }

  // An answer is exactly the scaled number, and is an int exactly when that is whole; the errors
  // are too few registers and an unknown type.
  lemma DecodeExactly(regs: seq<Word>, regType: string, scale: real)
    ensures DecodeValue(regs, regType, scale).Ok?
            <==> (regType in {"u16", "s16"} && |regs| >= 1) || (regType in {"u32", "u32_swapped"} && |regs| >= 2)
    ensures DecodeValue(regs, regType, scale) == Err(IndexError)
            <==> (regType in {"u16", "s16"} && |regs| < 1) || (regType in {"u32", "u32_swapped"} && |regs| < 2)
    ensures forall v | DecodeValue(regs, regType, scale) == Ok(v) ::
      && NumberOf(v) == RawValue(regs, regType).value as real * scale
      && (v.Whole? <==> NumberOf(v).Floor as real == NumberOf(v))
  {
    RegCounts();
  }

  lemma HoldsCount(regs: seq<Word>, regType: string, n: int)
    requires regType in SUPPORTED && Holds(regs, n, regType)
    ensures |regs| == RegCount(regType)
  {
    RegCounts();
  }

  lemma DecodeUnscaled(regs: seq<Word>, regType: string, n: int)
    requires RawValue(regs, regType) == Ok(n)
    ensures DecodeValue(regs, regType, 1.0) == Ok(Whole(n))
  {
    assert n as real * 1.0 == n as real && (n as real).Floor == n;
  }

  // A device's number survives the frame, the parser and the decoder.
  lemma ValueRoundTrip(tid: bv16, length: bv16, unitId: Byte, func: Byte, regs: seq<Register>, n: int, regType: string)
    requires regType in SUPPORTED && InRange(n, regType) && Holds(NumbersIn(regs), n, regType)
    requires PlainFunction(func) && length as int == 3 + 2 * |regs|
    ensures |regs| <= 127
    ensures ParseReadRtu(WithCheck([unitId] + ResponsePdu(func, regs)), unitId, func) == Ok(regs)
    ensures ParseReadTcp(WithHeader(tid, length, unitId, ResponsePdu(func, regs)), tid, func) == Ok(regs)
    ensures DecodeValue(NumbersIn(regs), regType, 1.0) == Ok(Whole(n))
  {
    HoldsCount(NumbersIn(regs), regType, n);
    DecodeIffHolds(NumbersIn(regs), regType, n);
    DecodeUnscaled(NumbersIn(regs), regType, n);
    RtuRoundTrip(unitId, func, regs);
    TcpRoundTrip(tid, length, unitId, func, regs);
  }

  // Registers beyond those that the type asks for are not looked at.
  lemma OnlyFirstAreRead(regs: seq<Word>, more: seq<Word>, regType: string)
    requires regType in SUPPORTED && |regs| == RegCount(regType)
    ensures RawValue(regs + more, regType) == RawValue(regs, regType)
  {
    RegCounts();
  }
}

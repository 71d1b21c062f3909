/** The steering mirror driver of pat/fsm.cpp: a cached position over a four-channel DAC with input and output
    registers (AD5664), reached through three byte channels of the FPGA. */
module Mirror {
  import opened Basics

  const VBIAS := 22000
  const VMAX := 12000

  const DAC_ADDR_XP := 0
  const DAC_ADDR_XM := 1
  const DAC_ADDR_YM := 2
  const DAC_ADDR_YP := 3
  const DAC_FULL_RESET := 0x280001
  const DAC_ENABLE_INTERNAL_REFERENCE := 0x380001
  const DAC_ENABLE_ALL_DAC_CHANNELS := 0x20000F
  const DAC_ENABLE_SOFTWARE_LDAC := 0x300000
  const DAC_CMD_WRITE_INPUT_REG := 0
  const DAC_CMD_WRITE_INPUT_UPDATE_ALL := 0x10

  // ---- the DAC behind the FPGA ----

  datatype Registers = Registers(xp: int, xm: int, ym: int, yp: int)

  function With(r: Registers, addr: int, value: int): Registers {
    if addr == DAC_ADDR_XP then r.(xp := value) else if addr == DAC_ADDR_XM then r.(xm := value)
    else if addr == DAC_ADDR_YM then r.(ym := value) else if addr == DAC_ADDR_YP then r.(yp := value) else r
  }

  datatype Dac = Dac(input: Registers, output: Registers)

  /** A 24-bit command: three bits of command, three of address, sixteen of value. */
  function Execute(d: Dac, a: byte, b: byte, c: byte): Dac {
    var command, addr, value := a as int / 8 % 8, a as int % 8, b as int * 256 + c as int;
    if command == 0 then d.(input := With(d.input, addr, value))
    else if command == 2 then var now := With(d.input, addr, value); Dac(now, now)
    else if command == 5 then Dac(Registers(0, 0, 0, 0), Registers(0, 0, 0, 0))
    else d
  }

  datatype Channel = A | B | C

  /** The FPGA keeps a byte per channel, and passes all three on when the last one is written. */
  datatype Fpga = Fpga(a: byte, b: byte, c: byte, dac: Dac)

  function Written(f: Fpga, channel: Channel, data: byte): Fpga {
    match channel
    case A => f.(a := data)
    case B => f.(b := data)
    case C => f.(c := data, dac := Execute(f.dac, f.a, f.b, data))
  }

  /** The bytes of a command, as one number. */
  function Joined24(a: byte, b: byte, c: byte): int { a as int * 0x10000 + b as int * 0x100 + c as int }

  /** The command that a write of the channel passes on. */
  function PassedOn(f: Fpga, channel: Channel): seq<int> { if channel == C then [Joined24(f.a, f.b, f.c)] else [] }

  /** What the FPGA answers to one write: the bias check, the bias command, and the acknowledgement; a write
      that is acknowledged has reached it, one that is not may have. */
  datatype Reply = Reply(biasIsOn: bool, biasWritten: bool, acknowledged: bool, reached: bool)

  predicate Acknowledged(r: Reply) { (r.biasIsOn || r.biasWritten) && r.acknowledged }

  predicate Honest(r: Reply) { r.acknowledged ==> r.reached }

  predicate AllAcknowledged(replies: seq<Reply>) {
    forall i | 0 <= i < |replies| :: Acknowledged(replies[i]) && Honest(replies[i])
  }

  /** The byte reaches the FPGA, acknowledged or not. */
  predicate Reaches(r: Reply) { (r.biasIsOn || r.biasWritten) && r.reached }

  // ---- commands of which bytes are lost ----

  /** Which bytes of a command reach the FPGA. */
  datatype Got = Got(a: bool, b: bool, c: bool)

  const ALL_GOT := Got(true, true, true)
  const NONE_GOT := Got(false, false, false)

  function GotOf(replies: seq<Reply>): Got
    requires |replies| == 3
  {
    Got(Reaches(replies[0]), Reaches(replies[1]), Reaches(replies[2]))
  }

  /** The FPGA after a command: bytes that are lost leave their channels as they were, and without the last byte nothing
      is passed on. */
  function After(f: Fpga, a: byte, b: byte, c: byte, g: Got): Fpga {
    var fa, fb := if g.a then a else f.a, if g.b then b else f.b;
    if g.c then Fpga(fa, fb, c, Execute(f.dac, fa, fb, c)) else Fpga(fa, fb, f.c, f.dac)
  }

  function CommandOf(cmd: int, addr: int): byte
    requires 0 <= cmd + addr < 0x100
  {
    cmd + addr
  }

  function High(value: int): byte { value / 0x100 % 0x100 }

  function Low(value: int): byte { value % 0x100 }

  /** The FPGA after one register command. */
  function AfterWrite(f: Fpga, command: byte, value: int, g: Got): Fpga {
    After(f, command, High(value), Low(value), g)
  }

  const WRITE_XP: byte := 0
  const WRITE_XM: byte := 1
  const WRITE_YP: byte := 3
  const UPDATE_YM: byte := 0x12

  datatype Gots = Gots(xp: Got, xm: Got, yp: Got, ym: Got)

  function GotsOf(replies: seq<Reply>): Gots
    requires |replies| == 12
  {
    Gots(GotOf(replies[..3]), GotOf(replies[3..6]), GotOf(replies[6..9]), GotOf(replies[9..]))
  }

  /** The FPGA after the four commands of a position. */
  function Moved(f: Fpga, x: int, y: int, g: Gots): Fpga {
    var xp := AfterWrite(f, WRITE_XP, VBIAS + x, g.xp);
    var xm := AfterWrite(xp, WRITE_XM, VBIAS - x, g.xm);
    var yp := AfterWrite(xm, WRITE_YP, VBIAS + y, g.yp);
    AfterWrite(yp, UPDATE_YM, VBIAS - y, g.ym)
  }

  const EVERYTHING := Gots(ALL_GOT, ALL_GOT, ALL_GOT, ALL_GOT)

  // ---- positions ----

  /** (int16_t)(v & 0xFFFF). */
  function ToInt16(v: int): int { if v % 0x10000 < 0x8000 then v % 0x10000 else v % 0x10000 - 0x10000 }

  function Code(x: real): int { ToInt16(Truncate(VMAX as real * Clamp(x))) }

  /** Truncation and the cut to sixteen bits keep a code in the range of the mirror, and do not change it. */
  lemma CodeInRange(x: real)
    ensures -VMAX <= Code(x) <= VMAX && Code(x) == Truncate(VMAX as real * Clamp(x))
  {
    var v := VMAX as real * Clamp(x);
    assert -12000.0 <= v <= 12000.0;
    TruncateBounds(v);
  }

  lemma TruncateBounds(v: real)
    requires -12000.0 <= v <= 12000.0
    ensures -12000 <= Truncate(v) <= 12000
  {
    if v >= 0.0 {
      assert v.Floor as real <= v;
    } else {
      assert (-v).Floor as real <= -v;
    }
  }

  /** The four codes of a position: each pair around the bias. */
  function Around(x: int, y: int): Registers { Registers(VBIAS + x, VBIAS - x, VBIAS - y, VBIAS + y) }

  /** Both pairs sum to twice the bias, and all codes are in their range. */
  predicate Balanced(r: Registers) {
    && r.xp + r.xm == 2 * VBIAS && r.yp + r.ym == 2 * VBIAS
    && 10000 <= r.xp <= 34000 && 10000 <= r.xm <= 34000 && 10000 <= r.yp <= 34000 && 10000 <= r.ym <= 34000
  }

  /** The FPGA with a position in all registers, after its last command. */
  function Rested(x: int, y: int): Fpga {
    Fpga(UPDATE_YM, High(VBIAS - y), Low(VBIAS - y), Dac(Around(x, y), Around(x, y)))
  }

  predicate InRange(x: int, y: int) { -VMAX <= x <= VMAX && -VMAX <= y <= VMAX }

  // ---- the mirror ----

  class FSM {
    var oldX: int
    var oldY: int
    var spiBuffer: seq<byte>
    var requestNumber: nat
    var fpga: Fpga
    var outputs: seq<Registers>  // the DAC's outputs after every write since construction
    var executed: seq<int>       // the 24-bit commands that were passed on to the DAC

    /** The cache is what the DAC puts out. */
    predicate Agrees() reads this { fpga.dac.output == Around(oldX, oldY) }

    /** So are the DAC's inputs, and the FPGA still holds the bytes of the last command. */
    predicate Settled() reads this { fpga == Rested(oldX, oldY) }

    predicate Valid() reads this { InRange(oldX, oldY) && requestNumber < 0xFF && |spiBuffer| == 3 }

    /** Reset and enable the DAC, then command the centre. */
    constructor (f: Fpga, replies: seq<Reply>)
      requires |replies| == 24
      ensures Valid() && oldX == 0 && oldY == 0 && outputs == []
      ensures AllAcknowledged(replies) ==> Agrees() && Settled()
      ensures AllAcknowledged(replies) ==> [0x280001, 0x380001, 0x20000F, 0x300000] <= executed
    {
      oldX, oldY := 1, 1;
      spiBuffer, requestNumber, fpga, outputs, executed := [0, 0, 0], 0, f, [], [];
      new;
      SetUp(replies[..12]);
      assert Code(0.0) == 0;
      hide OldThenNew;
      SetNormalizedAngles(0.0, 0.0, replies[12..]);
      outputs := [];
    }

    /** The commands before the first position. */
    method SetUp(replies: seq<Reply>)
      requires |replies| == 12 && requestNumber < 0xFF
      modifies this`spiBuffer, this`requestNumber, this`fpga, this`outputs, this`executed
      ensures requestNumber < 0xFF && |spiBuffer| == 3
      ensures AllAcknowledged(replies) ==> executed == old(executed) + [0x280001, 0x380001, 0x20000F, 0x300000]
    {
      if AllAcknowledged(replies) {
        PartsAcknowledged(replies);
      }
      hide AllAcknowledged;
      SendLongCommand(DAC_FULL_RESET, replies[..3]);
      SendLongCommand(DAC_ENABLE_INTERNAL_REFERENCE, replies[3..6]);
      SendLongCommand(DAC_ENABLE_ALL_DAC_CHANNELS, replies[6..9]);
      SendLongCommand(DAC_ENABLE_SOFTWARE_LDAC, replies[9..]);
    }

    /** One byte, once the bias is known to be on. */
    method FsmWrite(channel: Channel, data: byte, r: Reply)
      requires requestNumber < 0xFF
      modifies this`requestNumber, this`fpga, this`outputs, this`executed
      ensures requestNumber < 0xFF
      ensures requestNumber == if r.biasIsOn || r.biasWritten then (old(requestNumber) + 1) % 0xFF
                               else old(requestNumber)
      ensures fpga == if (r.biasIsOn || r.biasWritten) && r.reached then Written(old(fpga), channel, data)
                      else old(fpga)
      ensures outputs == old(outputs) + [fpga.dac.output]
      ensures executed == if (r.biasIsOn || r.biasWritten) && r.reached then old(executed) + PassedOn(fpga, channel)
                          else old(executed)
    {
      if r.biasIsOn {
        if r.reached {
          fpga := Written(fpga, channel, data);
          executed := executed + PassedOn(fpga, channel);
        }
        requestNumber := (requestNumber + 1) % 0xFF;
      } else {
        if r.biasWritten {
          if r.reached {
            fpga := Written(fpga, channel, data);
            executed := executed + PassedOn(fpga, channel);
          }
          requestNumber := (requestNumber + 1) % 0xFF;
        }
      }
      outputs := outputs + [fpga.dac.output];
    }

    /** The three bytes of the buffer, one after the other. */
    method WriteBuffer(replies: seq<Reply>)
      requires |replies| == 3 && |spiBuffer| == 3 && requestNumber < 0xFF
      modifies this`requestNumber, this`fpga, this`outputs, this`executed
      ensures requestNumber < 0xFF
      ensures fpga == After(old(fpga), spiBuffer[0], spiBuffer[1], spiBuffer[2], GotOf(replies))
      ensures outputs == old(outputs) + [old(fpga.dac.output), old(fpga.dac.output), fpga.dac.output]
      ensures old(executed) <= executed
      ensures AllAcknowledged(replies) ==>
                executed == old(executed) + [Joined24(spiBuffer[0], spiBuffer[1], spiBuffer[2])]
    {
      hide Execute, Joined24;
      FsmWrite(A, spiBuffer[0], replies[0]);
      FsmWrite(B, spiBuffer[1], replies[1]);
      FsmWrite(C, spiBuffer[2], replies[2]);
    }

    method SendLongCommand(cmd: int, replies: seq<Reply>)
      requires 0 <= cmd < 0x100_0000 && |replies| == 3 && requestNumber < 0xFF
      modifies this`spiBuffer, this`requestNumber, this`fpga, this`outputs, this`executed
      ensures requestNumber < 0xFF && |spiBuffer| == 3
      ensures AllAcknowledged(replies) ==> executed == old(executed) + [cmd]
    {
      spiBuffer := [cmd / 0x10000 % 0x100, cmd / 0x100 % 0x100, cmd % 0x100];
      SplitCommand(cmd);
      hide After, AllAcknowledged, Joined24, GotOf;
      WriteBuffer(replies);
    }

    /** One DAC command with its value. */
    method SendCommand(cmd: int, addr: int, value: int, replies: seq<Reply>)
      requires (cmd == DAC_CMD_WRITE_INPUT_REG || cmd == DAC_CMD_WRITE_INPUT_UPDATE_ALL) && 0 <= addr < 4
      requires 0 <= value < 0x10000 && |replies| == 3 && requestNumber < 0xFF
      modifies this`spiBuffer, this`requestNumber, this`fpga, this`outputs, this`executed
      ensures requestNumber < 0xFF && |spiBuffer| == 3 && old(executed) <= executed
      ensures fpga == AfterWrite(old(fpga), CommandOf(cmd, addr), value, GotOf(replies))
      ensures outputs == old(outputs) + [old(fpga.dac.output), old(fpga.dac.output), fpga.dac.output]
      ensures AllAcknowledged(replies) ==>
                var input := With(old(fpga.dac.input), addr, value);
                fpga.dac == Dac(input, if cmd == DAC_CMD_WRITE_INPUT_REG then old(fpga.dac.output) else input)
    {
      spiBuffer := [cmd + addr, value / 0x100 % 0x100, value % 0x100];
      SplitValue(value);
      CommandByte(cmd, addr);
      hide With;
      WriteBuffer(replies);
    }

    /** Write all four codes; the outputs change with the last one only. */
    method WriteAll(x: int, y: int, replies: seq<Reply>)
      requires InRange(x, y) && |replies| == 12 && requestNumber < 0xFF
      modifies this`spiBuffer, this`requestNumber, this`fpga, this`outputs, this`executed
      ensures requestNumber < 0xFF && |spiBuffer| == 3 && old(executed) <= executed
      ensures fpga == Moved(old(fpga), x, y, GotsOf(replies))
      ensures AllAcknowledged(replies) ==>
                && fpga == Rested(x, y)
                && OldThenNew(outputs, old(outputs), old(fpga.dac.output), Around(x, y))
    {
      ghost var was, output, f := outputs, fpga.dac.output, fpga;
      if AllAcknowledged(replies) {
        PartsAcknowledged(replies);
        EverythingMoves(fpga, x, y);
      }
      hide AfterWrite;
      SendCommand(DAC_CMD_WRITE_INPUT_REG, DAC_ADDR_XP, VBIAS + x, replies[..3]);
      SendCommand(DAC_CMD_WRITE_INPUT_REG, DAC_ADDR_XM, VBIAS - x, replies[3..6]);
      SendCommand(DAC_CMD_WRITE_INPUT_REG, DAC_ADDR_YP, VBIAS + y, replies[6..9]);
      SendCommand(DAC_CMD_WRITE_INPUT_UPDATE_ALL, DAC_ADDR_YM, VBIAS - y, replies[9..]);
      assert fpga == Moved(f, x, y, GotsOf(replies));
      hide AllAcknowledged, Moved, GotOf;
      if AllAcknowledged(replies) {
        ghost var o := output;
        assert outputs == was + [o, o, o] + [o, o, o] + [o, o, o] + [o, o, Around(x, y)];
        TwelveOutputs(outputs, was, output, Around(x, y));
      }
    }

    /** Clamp, truncate, and write the four codes unless the position is the cached one. */
    method SetNormalizedAngles(x: real, y: real, replies: seq<Reply>)
      requires |replies| == 12 && requestNumber < 0xFF && |spiBuffer| == 3
      modifies this
      ensures Valid() && oldX == Code(x) && oldY == Code(y) && old(executed) <= executed
      ensures Code(x) == old(oldX) && Code(y) == old(oldY) ==> fpga == old(fpga) && outputs == old(outputs)
      ensures Code(x) != old(oldX) || Code(y) != old(oldY) ==>
                fpga == Moved(old(fpga), Code(x), Code(y), GotsOf(replies))
      ensures AllAcknowledged(replies) && (Code(x) != old(oldX) || Code(y) != old(oldY) || old(Settled())) ==> Settled()
      ensures AllAcknowledged(replies) ==>
                (Agrees() <==> Code(x) != old(oldX) || Code(y) != old(oldY) || old(Agrees()))
      ensures AllAcknowledged(replies) ==>
                || (outputs == old(outputs) && fpga == old(fpga))
                || OldThenNew(outputs, old(outputs), old(fpga.dac.output), Around(oldX, oldY))
    {
      CodeInRange(x);
      CodeInRange(y);
      var cx, cy := Clamp(x), Clamp(y);
      var newX := ToInt16(Truncate(VMAX as real * cx));
      var newY := ToInt16(Truncate(VMAX as real * cy));
      hide Code, AllAcknowledged, OldThenNew, GotsOf, Moved;
      assert newX == Code(x) && newY == Code(y);
      if newX != oldX || newY != oldY {
        WriteAll(newX, newY, replies);
        oldX := newX;
        oldY := newY;
      }
    }

    /** Write the cached position again, whatever the DAC holds. */
    method ForceTransfer(replies: seq<Reply>)
      requires Valid() && |replies| == 12
      modifies this`spiBuffer, this`requestNumber, this`fpga, this`outputs, this`executed
      ensures Valid() && oldX == old(oldX) && oldY == old(oldY)
      ensures AllAcknowledged(replies) ==> Agrees() && Settled()
      ensures AllAcknowledged(replies) ==> OldThenNew(outputs, old(outputs), old(fpga.dac.output), Around(oldX, oldY))
    {
      hide AllAcknowledged, OldThenNew, Moved;
      WriteAll(oldX, oldY, replies);
    }
  }

  lemma SplitValue(value: int)
    requires 0 <= value < 0x10000
    ensures value / 0x100 % 0x100 * 256 + value % 0x100 == value
  {}

  lemma SplitCommand(cmd: int)
    requires 0 <= cmd < 0x100_0000
    ensures Joined24(cmd / 0x10000 % 0x100, cmd / 0x100 % 0x100, cmd % 0x100) == cmd
  {
    var high, rest := cmd / 0x10000, cmd % 0x10000;
    assert cmd == high * 0x10000 + rest && high < 0x100;
    SplitValue(rest);
    assert cmd / 0x100 == high * 0x100 + rest / 0x100;
  }

  lemma CommandByte(cmd: int, addr: int)
    requires (cmd == DAC_CMD_WRITE_INPUT_REG || cmd == DAC_CMD_WRITE_INPUT_UPDATE_ALL) && 0 <= addr < 4
    ensures (cmd + addr) % 8 == addr && (cmd + addr) / 8 % 8 == if cmd == DAC_CMD_WRITE_INPUT_REG then 0 else 2
  {}

  lemma PartsAcknowledged(replies: seq<Reply>)
    requires |replies| == 12 && AllAcknowledged(replies)
    ensures AllAcknowledged(replies[..3]) && AllAcknowledged(replies[3..6]) && AllAcknowledged(replies[6..9])
    ensures AllAcknowledged(replies[9..]) && GotsOf(replies) == EVERYTHING
  {}

  /** The FPGA after a position that got through: all registers hold it, and the channels the last command. */
  lemma EverythingMoves(f: Fpga, x: int, y: int)
    requires InRange(x, y)
    ensures Moved(f, x, y, EVERYTHING) == Rested(x, y)
  {
    hide AfterWrite, High, Low;
    var xp := AfterWrite(f, WRITE_XP, VBIAS + x, ALL_GOT);
    var xm := AfterWrite(xp, WRITE_XM, VBIAS - x, ALL_GOT);
    var yp := AfterWrite(xm, WRITE_YP, VBIAS + y, ALL_GOT);
    WholeWrite(f, WRITE_XP, VBIAS + x);
    WholeWrite(xp, WRITE_XM, VBIAS - x);
    WholeWrite(xm, WRITE_YP, VBIAS + y);
    WholeWrite(yp, UPDATE_YM, VBIAS - y);
  }

  lemma WholeWrite(f: Fpga, command: byte, value: int)
    requires OfAPosition(command) && 0 <= value < 0x10000
    ensures AfterWrite(f, command, value, ALL_GOT) ==
            Fpga(command, High(value), Low(value), Do(f.dac, command, value))
  {
    SplitValue(value);
  }

  /** Some outputs as they were, and at the end the new ones. */
  predicate OldThenNew(outputs: seq<Registers>, before: seq<Registers>, output: Registers, now: Registers) {
    && |outputs| > |before| && before <= outputs && outputs[|outputs| - 1] == now
    && forall i | |before| <= i < |outputs| - 1 :: outputs[i] == output
  }

  lemma TwelveOutputs(outputs: seq<Registers>, before: seq<Registers>, o: Registers, now: Registers)
    requires outputs == before + [o, o, o] + [o, o, o] + [o, o, o] + [o, o, now]
    ensures OldThenNew(outputs, before, o, now)
  {}

  // ---- whole histories ----

  datatype Command = Set(x: real, y: real) | Force

  predicate AllBalanced(outputs: seq<Registers>) { forall i | 0 <= i < |outputs| :: Balanced(outputs[i]) }

  lemma AroundBalanced(x: int, y: int)
    requires InRange(x, y)
    ensures Balanced(Around(x, y))
  {}

  lemma MoreBalanced(outputs: seq<Registers>, before: seq<Registers>, output: Registers, now: Registers)
    requires AllBalanced(before) && Balanced(output) && Balanced(now) && OldThenNew(outputs, before, output, now)
    ensures AllBalanced(outputs)
  {
    forall i | 0 <= i < |outputs| ensures Balanced(outputs[i]) {
      if i < |before| {
        assert outputs[i] == before[i];
      }
    }
  }

  /** Any commands, with acknowledged writes: the cache agrees with the DAC after each one, so an unchanged
      position may be skipped; and the outputs are balanced after every single write. */
  method Steer(m: FSM, commands: seq<Command>, replies: seq<seq<Reply>>)
    requires m.Valid() && m.Settled() && m.outputs == []
    requires |replies| == |commands|
    requires forall i | 0 <= i < |replies| :: |replies[i]| == 12 && AllAcknowledged(replies[i])
    modifies m
    ensures m.Valid() && m.Agrees() && m.Settled() && AllBalanced(m.outputs)
  {
    hide Balanced, AllBalanced, OldThenNew, AllAcknowledged;
    assert AllBalanced([]) by { NothingUnbalanced(); }
    for n := 0 to |commands|
      invariant m.Valid() && m.Agrees() && m.Settled() && AllBalanced(m.outputs)
    {
      ghost var before, output := m.outputs, m.fpga.dac.output;
      AroundBalanced(m.oldX, m.oldY);
      if commands[n].Set? {
        m.SetNormalizedAngles(commands[n].x, commands[n].y, replies[n]);
      } else {
        m.ForceTransfer(replies[n]);
      }
      AroundBalanced(m.oldX, m.oldY);
      if m.outputs != before {
        MoreBalanced(m.outputs, before, output, Around(m.oldX, m.oldY));
      }
    }
  }

  lemma NothingUnbalanced()
    ensures AllBalanced([])
  {}

  // ---- losses ----

  /** The high byte of one value with the low byte of another. */
  function Mixed(high: int, low: int): int { High(high) * 0x100 + Low(low) }

  lemma MixedIs(high: int, low: int)
    requires 0 <= low < 0x10000
    ensures Mixed(high, low) == low <==> High(high) == High(low)
  {
    SplitValue(low);
  }

  /** What the commands of a position do. */
  function Do(d: Dac, command: byte, value: int): Dac {
    if command == WRITE_XP then d.(input := d.input.(xp := value))
    else if command == WRITE_XM then d.(input := d.input.(xm := value))
    else if command == WRITE_YP then d.(input := d.input.(yp := value))
    else var now := d.input.(ym := value); Dac(now, now)
  }

  predicate OfAPosition(command: byte) {
    command == WRITE_XP || command == WRITE_XM || command == WRITE_YP || command == UPDATE_YM
  }

  /** The DAC, with the command byte and the value whose high byte the FPGA holds. */
  datatype Latch = Latch(command: byte, value: int, dac: Dac)

  function Latched(l: Latch, command: byte, value: int, g: Got): Latch {
    var c, v := if g.a then command else l.command, if g.b then value else l.value;
    Latch(c, v, if g.c then Do(l.dac, c, Mixed(v, value)) else l.dac)
  }

  function MovedLatch(l: Latch, x: int, y: int, g: Gots): Latch {
    var xp := Latched(l, WRITE_XP, VBIAS + x, g.xp);
    var xm := Latched(xp, WRITE_XM, VBIAS - x, g.xm);
    var yp := Latched(xm, WRITE_YP, VBIAS + y, g.yp);
    Latched(yp, UPDATE_YM, VBIAS - y, g.ym)
  }

  predicate Represents(l: Latch, f: Fpga) {
    OfAPosition(l.command) && f.a == l.command && f.b == High(l.value) && f.dac == l.dac
  }

  lemma LatchedIs(l: Latch, f: Fpga, command: byte, value: int, g: Got)
    requires Represents(l, f) && OfAPosition(command)
    ensures Represents(Latched(l, command, value, g), AfterWrite(f, command, value, g))
  {
    hide High, Low;
  }

  lemma MovedLatchIs(l: Latch, f: Fpga, x: int, y: int, g: Gots)
    requires Represents(l, f)
    ensures Represents(MovedLatch(l, x, y, g), Moved(f, x, y, g))
  {
    hide AfterWrite, Latched, Represents;
    var fxp, lxp := AfterWrite(f, WRITE_XP, VBIAS + x, g.xp), Latched(l, WRITE_XP, VBIAS + x, g.xp);
    var fxm, lxm := AfterWrite(fxp, WRITE_XM, VBIAS - x, g.xm), Latched(lxp, WRITE_XM, VBIAS - x, g.xm);
    var fyp, lyp := AfterWrite(fxm, WRITE_YP, VBIAS + y, g.yp), Latched(lxm, WRITE_YP, VBIAS + y, g.yp);
    LatchedIs(l, f, WRITE_XP, VBIAS + x, g.xp);
    LatchedIs(lxp, fxp, WRITE_XM, VBIAS - x, g.xm);
    LatchedIs(lxm, fxm, WRITE_YP, VBIAS + y, g.yp);
    LatchedIs(lyp, fyp, UPDATE_YM, VBIAS - y, g.ym);
  }

  /** The DAC after a position, from a rested FPGA. */
  lemma MovedFromRest(oldX: int, oldY: int, x: int, y: int, g: Gots)
    ensures var l := Latch(UPDATE_YM, VBIAS - oldY, Dac(Around(oldX, oldY), Around(oldX, oldY)));
            Moved(Rested(oldX, oldY), x, y, g).dac == MovedLatch(l, x, y, g).dac
  {
    var l := Latch(UPDATE_YM, VBIAS - oldY, Dac(Around(oldX, oldY), Around(oldX, oldY)));
    MovedLatchIs(l, Rested(oldX, oldY), x, y, g);
    hide Moved, MovedLatch;
  }

  lemma AllMixed(x: int, y: int)
    requires InRange(x, y)
    ensures forall high :: Mixed(high, VBIAS + x) == VBIAS + x <==> High(high) == High(VBIAS + x)
    ensures forall high :: Mixed(high, VBIAS - x) == VBIAS - x <==> High(high) == High(VBIAS - x)
    ensures forall high :: Mixed(high, VBIAS + y) == VBIAS + y <==> High(high) == High(VBIAS + y)
    ensures forall high :: Mixed(high, VBIAS - y) == VBIAS - y <==> High(high) == High(VBIAS - y)
  {
    forall high, low | 0 <= low < 0x10000
      ensures Mixed(high, low) == low <==> High(high) == High(low)
    {
      MixedIs(high, low);
    }
    hide Mixed, High;
  }

  predicate Whole(g: Got) { g == ALL_GOT || g == NONE_GOT }

  /** With each command lost as a whole or not at all, the outputs are those of a position exactly when the last command
      got through, and so did the others on each axis that moved; or nothing was to move. */
  lemma WholeCommandsLost(oldX: int, oldY: int, x: int, y: int, g: Gots)
    requires InRange(oldX, oldY) && InRange(x, y) && Whole(g.xp) && Whole(g.xm) && Whole(g.yp) && Whole(g.ym)
    ensures Moved(Rested(oldX, oldY), x, y, g).dac.output == Around(x, y) <==>
              || (x == oldX && y == oldY)
              || (g.ym == ALL_GOT && (x == oldX || (g.xp == g.xm == ALL_GOT)) && (y == oldY || g.yp == ALL_GOT))
  {
    MovedFromRest(oldX, oldY, x, y, g);
    AllMixed(x, y);
    hide Moved, Mixed, High, Rested;
  }

  /** Everything but byte k, of the twelve. */
  function AllBut(k: nat): Gots {
    Gots(Got(k != 0, k != 1, k != 2), Got(k != 3, k != 4, k != 5),
         Got(k != 6, k != 7, k != 8), Got(k != 9, k != 10, k != 11))
  }

  /** When a single lost byte does no harm. A command without its first byte is taken for the one before it, without its
      second gets the high byte of the one before it, and without its third is not passed on. */
  predicate Harmless(oldX: int, oldY: int, x: int, y: int, k: nat) {
    match k
    case 0 => x == oldX
    case 1 => High(VBIAS - oldY) == High(VBIAS + x)
    case 2 => x == oldX
    case 3 => x == 0 && oldX == 0
    case 4 => High(VBIAS + x) == High(VBIAS - x)
    case 5 => x == oldX
    case 6 => y == -x && y == oldY
    case 7 => High(VBIAS - x) == High(VBIAS + y)
    case 8 => y == oldY
    case 9 => x == oldX && y == oldY
    case 10 => High(VBIAS + y) == High(VBIAS - y)
    case _ => x == oldX && y == oldY
  }

  lemma OneByteLost(oldX: int, oldY: int, x: int, y: int, k: nat)
    requires InRange(oldX, oldY) && InRange(x, y) && k < 12
    ensures Moved(Rested(oldX, oldY), x, y, AllBut(k)).dac.output == Around(x, y) <==> Harmless(oldX, oldY, x, y, k)
  {
    hide Moved, Rested, MovedLatch, Harmless, Around;
    MovedFromRest(oldX, oldY, x, y, AllBut(k));
    if k < 3 {
      LostInXp(oldX, oldY, x, y, k);
    } else if k < 6 {
      LostInXm(oldX, oldY, x, y, k);
    } else if k < 9 {
      LostInYp(oldX, oldY, x, y, k);
    } else {
      LostInYm(oldX, oldY, x, y, k);
    }
  }

  predicate DeliversButOne(oldX: int, oldY: int, x: int, y: int, k: nat) {
    var l := Latch(UPDATE_YM, VBIAS - oldY, Dac(Around(oldX, oldY), Around(oldX, oldY)));
    MovedLatch(l, x, y, AllBut(k)).dac.output == Around(x, y)
  }

  /** A byte of the command for X+ is lost. */
  lemma LostInXp(oldX: int, oldY: int, x: int, y: int, k: nat)
    requires InRange(oldX, oldY) && InRange(x, y) && 0 <= k < 3
    ensures DeliversButOne(oldX, oldY, x, y, k) <==> Harmless(oldX, oldY, x, y, k)
  {
    AllMixed(x, y);
    hide Mixed, High;
  }

  /** A byte of the command for X- is lost. */
  lemma LostInXm(oldX: int, oldY: int, x: int, y: int, k: nat)
    requires InRange(oldX, oldY) && InRange(x, y) && 3 <= k < 6
    ensures DeliversButOne(oldX, oldY, x, y, k) <==> Harmless(oldX, oldY, x, y, k)
  {
    AllMixed(x, y);
    hide Mixed, High;
  }

  /** A byte of the command for Y+ is lost. */
  lemma LostInYp(oldX: int, oldY: int, x: int, y: int, k: nat)
    requires InRange(oldX, oldY) && InRange(x, y) && 6 <= k < 9
    ensures DeliversButOne(oldX, oldY, x, y, k) <==> Harmless(oldX, oldY, x, y, k)
  {
    AllMixed(x, y);
    hide Mixed, High;
  }

  /** A byte of the command for Y- is lost. */
  lemma LostInYm(oldX: int, oldY: int, x: int, y: int, k: nat)
    requires InRange(oldX, oldY) && InRange(x, y) && 9 <= k < 12
    ensures DeliversButOne(oldX, oldY, x, y, k) <==> Harmless(oldX, oldY, x, y, k)
  {
    AllMixed(x, y);
    hide Mixed, High;
  }

  /** What losses in a command do, whichever bytes of it reach the FPGA. The cache moves on in any case; it agrees with
      the DAC exactly when the position did not change, or the bytes that arrived over those that the FPGA held make the
      outputs those of the position. Repeating the command never changes that; a forced transfer repairs it, and so does
      a command to any other position. */
  method LoseCommand(m: FSM, x: real, y: real, other: Option<(real, real)>, lost: seq<Reply>, good: seq<Reply>)
    returns (afterLost: bool, afterRepeat: bool, afterRepair: bool)
    requires m.Valid() && m.Settled() && |lost| == 12 && |good| == 12 && AllAcknowledged(good)
    modifies m
    ensures var oldX, oldY, newX, newY := old(m.oldX), old(m.oldY), Code(x), Code(y);
            afterLost <==>
              || (newX == oldX && newY == oldY)
              || Moved(Rested(oldX, oldY), newX, newY, GotsOf(lost)).dac.output == Around(newX, newY)
    ensures afterRepeat == afterLost
    ensures afterRepair <==>
              afterLost || other.None? || Code(other.value.0) != Code(x) || Code(other.value.1) != Code(y)
  {
    hide Code, GotsOf, AllAcknowledged, Moved;
    m.SetNormalizedAngles(x, y, lost);
    afterLost := m.Agrees();
    m.SetNormalizedAngles(x, y, good);
    afterRepeat := m.Agrees();
    if other.None? {
      m.ForceTransfer(good);
    } else {
      m.SetNormalizedAngles(other.value.0, other.value.1, good);
    }
    afterRepair := m.Agrees();
  }

  /** A mirror at the centre that is sent to the end of both axes, and loses the first byte of the last command: the
      cache is wrong, and stays so when the command is repeated. */
  method LastCommandByteLost(m: FSM, good: seq<Reply>) returns (afterLost: bool, afterRepeat: bool)
    requires m.Valid() && m.Settled() && m.oldX == 0 && m.oldY == 0 && |good| == 12 && AllAcknowledged(good)
    modifies m
    ensures !afterLost && !afterRepeat
  {
    var never := Reply(true, false, false, false);
    var lost := good[..9] + [never] + good[10..];
    ghost var g := GotsOf(lost);
    assert g == AllBut(9);
    assert Code(1.0) == 12000;
    OneByteLost(0, 0, 12000, 12000, 9);
    hide Code, Moved, GotsOf, AllAcknowledged;
    var afterRepair;
    afterLost, afterRepeat, afterRepair := LoseCommand(m, 1.0, 1.0, None, lost, good);
  }
}

/** The transmitter packet of lib/tx_packet.py: one frame of bit-mapped data between two frame bytes. */
module TxPacket {
  import opened Basics
  import opened Modulation

  /** 0x80 with the log2(order) lowest bits set. */
  function OrderByte(order: nat): nat requires KnownOrder(order) { 0x80 + (Pow2(SymbolBits(order)) - 1) }

  lemma OrderByteIsFrameByte(order: nat)
    requires KnownOrder(order)
    ensures OrderByte(order) == FrameByte(order)
  {
    OrderPower(order);
  }

  class Packet {
    const order: nat
    const data: seq<byte>
    var symbols: seq<nat>

    constructor (order: nat, data: seq<byte>)
      requires KnownOrder(order)
      ensures this.order == order && this.data == data && symbols == []
    {
      this.order, this.data := order, data;
      symbols := [];
    }

    /** The words of the data, between two frame bytes: what bit mapping makes of a single frame. */
    method Pack()
      requires KnownOrder(order)
      modifies this
      ensures symbols == Mapped([data], order) + [FrameByte(order)]
    {
      var setter := 6;
      if order == 16 {
        setter := 4;
      } else if order == 32 {
        setter := 5;
      } else if order == 128 {
        setter := 7;
      }
      OrderByteIsFrameByte(order);
      var bits := FrameBits(data);
      var words := Words(bits, setter);
      OneFrame(data, order);
      hide FrameByte, OrderByte, Digits;
      symbols := [OrderByte(order)];
      symbols := symbols + words;
      symbols := symbols + [OrderByte(order)];
    }
  }

  lemma OneFrame(data: seq<byte>, order: nat)
    requires KnownOrder(order)
    ensures Mapped([data], order) == [FrameByte(order)] + Digits(Bits(data), WordBits(order))
  {
    hide MappedFrame, Digits, Bits, FrameByte;
    assert [data][..0] == [] && Mapped([], order) == [];
    assert Mapped([data], order) == Mapped([], order) + MappedFrame(data, order);
    MappedFrameIs(data, order);
  }

  lemma MappedFrameIs(data: seq<byte>, order: nat)
    requires KnownOrder(order)
    ensures MappedFrame(data, order) == [FrameByte(order)] + Digits(Bits(data), WordBits(order))
  {}
}

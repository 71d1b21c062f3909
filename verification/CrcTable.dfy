/** The lookup table of bus/driver/crc.c, cut into 16 rows, and the proof that every one of its 256
    entries is eight steps of the feedback shift register on its index. */
module CrcTable {
  const TABLE_00: seq<bv16> := [
    0x0000, 0x1021, 0x2042, 0x3063, 0x4084, 0x50A5, 0x60C6, 0x70E7,
    0x8108, 0x9129, 0xA14A, 0xB16B, 0xC18C, 0xD1AD, 0xE1CE, 0xF1EF]
  const TABLE_10: seq<bv16> := [
    0x1231, 0x0210, 0x3273, 0x2252, 0x52B5, 0x4294, 0x72F7, 0x62D6,
    0x9339, 0x8318, 0xB37B, 0xA35A, 0xD3BD, 0xC39C, 0xF3FF, 0xE3DE]
  const TABLE_20: seq<bv16> := [
    0x2462, 0x3443, 0x0420, 0x1401, 0x64E6, 0x74C7, 0x44A4, 0x5485,
    0xA56A, 0xB54B, 0x8528, 0x9509, 0xE5EE, 0xF5CF, 0xC5AC, 0xD58D]
  const TABLE_30: seq<bv16> := [
    0x3653, 0x2672, 0x1611, 0x0630, 0x76D7, 0x66F6, 0x5695, 0x46B4,
    0xB75B, 0xA77A, 0x9719, 0x8738, 0xF7DF, 0xE7FE, 0xD79D, 0xC7BC]
  const TABLE_40: seq<bv16> := [
    0x48C4, 0x58E5, 0x6886, 0x78A7, 0x0840, 0x1861, 0x2802, 0x3823,
    0xC9CC, 0xD9ED, 0xE98E, 0xF9AF, 0x8948, 0x9969, 0xA90A, 0xB92B]
  const TABLE_50: seq<bv16> := [
    0x5AF5, 0x4AD4, 0x7AB7, 0x6A96, 0x1A71, 0x0A50, 0x3A33, 0x2A12,
    0xDBFD, 0xCBDC, 0xFBBF, 0xEB9E, 0x9B79, 0x8B58, 0xBB3B, 0xAB1A]
  const TABLE_60: seq<bv16> := [
    0x6CA6, 0x7C87, 0x4CE4, 0x5CC5, 0x2C22, 0x3C03, 0x0C60, 0x1C41,
    0xEDAE, 0xFD8F, 0xCDEC, 0xDDCD, 0xAD2A, 0xBD0B, 0x8D68, 0x9D49]
  const TABLE_70: seq<bv16> := [
    0x7E97, 0x6EB6, 0x5ED5, 0x4EF4, 0x3E13, 0x2E32, 0x1E51, 0x0E70,
    0xFF9F, 0xEFBE, 0xDFDD, 0xCFFC, 0xBF1B, 0xAF3A, 0x9F59, 0x8F78]
  const TABLE_80: seq<bv16> := [
    0x9188, 0x81A9, 0xB1CA, 0xA1EB, 0xD10C, 0xC12D, 0xF14E, 0xE16F,
    0x1080, 0x00A1, 0x30C2, 0x20E3, 0x5004, 0x4025, 0x7046, 0x6067]
  const TABLE_90: seq<bv16> := [
    0x83B9, 0x9398, 0xA3FB, 0xB3DA, 0xC33D, 0xD31C, 0xE37F, 0xF35E,
    0x02B1, 0x1290, 0x22F3, 0x32D2, 0x4235, 0x5214, 0x6277, 0x7256]
  const TABLE_A0: seq<bv16> := [
    0xB5EA, 0xA5CB, 0x95A8, 0x8589, 0xF56E, 0xE54F, 0xD52C, 0xC50D,
    0x34E2, 0x24C3, 0x14A0, 0x0481, 0x7466, 0x6447, 0x5424, 0x4405]
  const TABLE_B0: seq<bv16> := [
    0xA7DB, 0xB7FA, 0x8799, 0x97B8, 0xE75F, 0xF77E, 0xC71D, 0xD73C,
    0x26D3, 0x36F2, 0x0691, 0x16B0, 0x6657, 0x7676, 0x4615, 0x5634]
  const TABLE_C0: seq<bv16> := [
    0xD94C, 0xC96D, 0xF90E, 0xE92F, 0x99C8, 0x89E9, 0xB98A, 0xA9AB,
    0x5844, 0x4865, 0x7806, 0x6827, 0x18C0, 0x08E1, 0x3882, 0x28A3]
  const TABLE_D0: seq<bv16> := [
    0xCB7D, 0xDB5C, 0xEB3F, 0xFB1E, 0x8BF9, 0x9BD8, 0xABBB, 0xBB9A,
    0x4A75, 0x5A54, 0x6A37, 0x7A16, 0x0AF1, 0x1AD0, 0x2AB3, 0x3A92]
  const TABLE_E0: seq<bv16> := [
    0xFD2E, 0xED0F, 0xDD6C, 0xCD4D, 0xBDAA, 0xAD8B, 0x9DE8, 0x8DC9,
    0x7C26, 0x6C07, 0x5C64, 0x4C45, 0x3CA2, 0x2C83, 0x1CE0, 0x0CC1]
  const TABLE_F0: seq<bv16> := [
    0xEF1F, 0xFF3E, 0xCF5D, 0xDF7C, 0xAF9B, 0xBFBA, 0x8FD9, 0x9FF8,
    0x6E17, 0x7E36, 0x4E55, 0x5E74, 0x2E93, 0x3EB2, 0x0ED1, 0x1EF0]

  const TABLE: seq<bv16> :=
    (TABLE_00 + TABLE_10 + TABLE_20 + TABLE_30) + (TABLE_40 + TABLE_50 + TABLE_60 + TABLE_70) +
    (TABLE_80 + TABLE_90 + TABLE_A0 + TABLE_B0) + (TABLE_C0 + TABLE_D0 + TABLE_E0 + TABLE_F0)

  /** One step of the register for the polynomial x^16 + x^12 + x^5 + 1. */
  function Shift(c: bv16): bv16 {
    if c & 0x8000 != 0 then (c << 1) ^ 0x1021 else c << 1
  }

  function Shift8(c: bv16): bv16 {
    Shift(Shift(Shift(Shift(Shift(Shift(Shift(Shift(c))))))))
  }

  lemma Row00(t: bv16)
    requires 0x00 <= t as int < 0x10
    ensures |TABLE_00| == 16 && TABLE_00[t as int - 0x00] == Shift8(t << 8)
  {
    assert TABLE_00 == [
      Shift8(0x0000), Shift8(0x0100), Shift8(0x0200), Shift8(0x0300),
      Shift8(0x0400), Shift8(0x0500), Shift8(0x0600), Shift8(0x0700),
      Shift8(0x0800), Shift8(0x0900), Shift8(0x0A00), Shift8(0x0B00),
      Shift8(0x0C00), Shift8(0x0D00), Shift8(0x0E00), Shift8(0x0F00)];
    hide *;
  }

  lemma Row10(t: bv16)
    requires 0x10 <= t as int < 0x20
    ensures |TABLE_10| == 16 && TABLE_10[t as int - 0x10] == Shift8(t << 8)
  {
    assert TABLE_10 == [
      Shift8(0x1000), Shift8(0x1100), Shift8(0x1200), Shift8(0x1300),
      Shift8(0x1400), Shift8(0x1500), Shift8(0x1600), Shift8(0x1700),
      Shift8(0x1800), Shift8(0x1900), Shift8(0x1A00), Shift8(0x1B00),
      Shift8(0x1C00), Shift8(0x1D00), Shift8(0x1E00), Shift8(0x1F00)];
    hide *;
  }

  lemma Row20(t: bv16)
    requires 0x20 <= t as int < 0x30
    ensures |TABLE_20| == 16 && TABLE_20[t as int - 0x20] == Shift8(t << 8)
  {
    assert TABLE_20 == [
      Shift8(0x2000), Shift8(0x2100), Shift8(0x2200), Shift8(0x2300),
      Shift8(0x2400), Shift8(0x2500), Shift8(0x2600), Shift8(0x2700),
      Shift8(0x2800), Shift8(0x2900), Shift8(0x2A00), Shift8(0x2B00),
      Shift8(0x2C00), Shift8(0x2D00), Shift8(0x2E00), Shift8(0x2F00)];
    hide *;
  }

  lemma Row30(t: bv16)
    requires 0x30 <= t as int < 0x40
    ensures |TABLE_30| == 16 && TABLE_30[t as int - 0x30] == Shift8(t << 8)
  {
    assert TABLE_30 == [
      Shift8(0x3000), Shift8(0x3100), Shift8(0x3200), Shift8(0x3300),
      Shift8(0x3400), Shift8(0x3500), Shift8(0x3600), Shift8(0x3700),
      Shift8(0x3800), Shift8(0x3900), Shift8(0x3A00), Shift8(0x3B00),
      Shift8(0x3C00), Shift8(0x3D00), Shift8(0x3E00), Shift8(0x3F00)];
    hide *;
  }

  lemma Row40(t: bv16)
    requires 0x40 <= t as int < 0x50
    ensures |TABLE_40| == 16 && TABLE_40[t as int - 0x40] == Shift8(t << 8)
  {
    assert TABLE_40 == [
      Shift8(0x4000), Shift8(0x4100), Shift8(0x4200), Shift8(0x4300),
      Shift8(0x4400), Shift8(0x4500), Shift8(0x4600), Shift8(0x4700),
      Shift8(0x4800), Shift8(0x4900), Shift8(0x4A00), Shift8(0x4B00),
      Shift8(0x4C00), Shift8(0x4D00), Shift8(0x4E00), Shift8(0x4F00)];
    hide *;
  }

  lemma Row50(t: bv16)
    requires 0x50 <= t as int < 0x60
    ensures |TABLE_50| == 16 && TABLE_50[t as int - 0x50] == Shift8(t << 8)
  {
    assert TABLE_50 == [
      Shift8(0x5000), Shift8(0x5100), Shift8(0x5200), Shift8(0x5300),
      Shift8(0x5400), Shift8(0x5500), Shift8(0x5600), Shift8(0x5700),
      Shift8(0x5800), Shift8(0x5900), Shift8(0x5A00), Shift8(0x5B00),
      Shift8(0x5C00), Shift8(0x5D00), Shift8(0x5E00), Shift8(0x5F00)];
    hide *;
  }

  lemma Row60(t: bv16)
    requires 0x60 <= t as int < 0x70
    ensures |TABLE_60| == 16 && TABLE_60[t as int - 0x60] == Shift8(t << 8)
  {
    assert TABLE_60 == [
      Shift8(0x6000), Shift8(0x6100), Shift8(0x6200), Shift8(0x6300),
      Shift8(0x6400), Shift8(0x6500), Shift8(0x6600), Shift8(0x6700),
      Shift8(0x6800), Shift8(0x6900), Shift8(0x6A00), Shift8(0x6B00),
      Shift8(0x6C00), Shift8(0x6D00), Shift8(0x6E00), Shift8(0x6F00)];
    hide *;
  }

  lemma Row70(t: bv16)
    requires 0x70 <= t as int < 0x80
    ensures |TABLE_70| == 16 && TABLE_70[t as int - 0x70] == Shift8(t << 8)
  {
    assert TABLE_70 == [
      Shift8(0x7000), Shift8(0x7100), Shift8(0x7200), Shift8(0x7300),
      Shift8(0x7400), Shift8(0x7500), Shift8(0x7600), Shift8(0x7700),
      Shift8(0x7800), Shift8(0x7900), Shift8(0x7A00), Shift8(0x7B00),
      Shift8(0x7C00), Shift8(0x7D00), Shift8(0x7E00), Shift8(0x7F00)];
    hide *;
  }

  lemma Row80(t: bv16)
    requires 0x80 <= t as int < 0x90
    ensures |TABLE_80| == 16 && TABLE_80[t as int - 0x80] == Shift8(t << 8)
  {
    assert TABLE_80 == [
      Shift8(0x8000), Shift8(0x8100), Shift8(0x8200), Shift8(0x8300),
      Shift8(0x8400), Shift8(0x8500), Shift8(0x8600), Shift8(0x8700),
      Shift8(0x8800), Shift8(0x8900), Shift8(0x8A00), Shift8(0x8B00),
      Shift8(0x8C00), Shift8(0x8D00), Shift8(0x8E00), Shift8(0x8F00)];
    hide *;
  }

  lemma Row90(t: bv16)
    requires 0x90 <= t as int < 0xA0
    ensures |TABLE_90| == 16 && TABLE_90[t as int - 0x90] == Shift8(t << 8)
  {
    assert TABLE_90 == [
      Shift8(0x9000), Shift8(0x9100), Shift8(0x9200), Shift8(0x9300),
      Shift8(0x9400), Shift8(0x9500), Shift8(0x9600), Shift8(0x9700),
      Shift8(0x9800), Shift8(0x9900), Shift8(0x9A00), Shift8(0x9B00),
      Shift8(0x9C00), Shift8(0x9D00), Shift8(0x9E00), Shift8(0x9F00)];
    hide *;
  }

  lemma RowA0(t: bv16)
    requires 0xA0 <= t as int < 0xB0
    ensures |TABLE_A0| == 16 && TABLE_A0[t as int - 0xA0] == Shift8(t << 8)
  {
    assert TABLE_A0 == [
      Shift8(0xA000), Shift8(0xA100), Shift8(0xA200), Shift8(0xA300),
      Shift8(0xA400), Shift8(0xA500), Shift8(0xA600), Shift8(0xA700),
      Shift8(0xA800), Shift8(0xA900), Shift8(0xAA00), Shift8(0xAB00),
      Shift8(0xAC00), Shift8(0xAD00), Shift8(0xAE00), Shift8(0xAF00)];
    hide *;
  }

  lemma RowB0(t: bv16)
    requires 0xB0 <= t as int < 0xC0
    ensures |TABLE_B0| == 16 && TABLE_B0[t as int - 0xB0] == Shift8(t << 8)
  {
    assert TABLE_B0 == [
      Shift8(0xB000), Shift8(0xB100), Shift8(0xB200), Shift8(0xB300),
      Shift8(0xB400), Shift8(0xB500), Shift8(0xB600), Shift8(0xB700),
      Shift8(0xB800), Shift8(0xB900), Shift8(0xBA00), Shift8(0xBB00),
      Shift8(0xBC00), Shift8(0xBD00), Shift8(0xBE00), Shift8(0xBF00)];
    hide *;
  }

  lemma RowC0(t: bv16)
    requires 0xC0 <= t as int < 0xD0
    ensures |TABLE_C0| == 16 && TABLE_C0[t as int - 0xC0] == Shift8(t << 8)
  {
    assert TABLE_C0 == [
      Shift8(0xC000), Shift8(0xC100), Shift8(0xC200), Shift8(0xC300),
      Shift8(0xC400), Shift8(0xC500), Shift8(0xC600), Shift8(0xC700),
      Shift8(0xC800), Shift8(0xC900), Shift8(0xCA00), Shift8(0xCB00),
      Shift8(0xCC00), Shift8(0xCD00), Shift8(0xCE00), Shift8(0xCF00)];
    hide *;
  }

  lemma RowD0(t: bv16)
    requires 0xD0 <= t as int < 0xE0
    ensures |TABLE_D0| == 16 && TABLE_D0[t as int - 0xD0] == Shift8(t << 8)
  {
    assert TABLE_D0 == [
      Shift8(0xD000), Shift8(0xD100), Shift8(0xD200), Shift8(0xD300),
      Shift8(0xD400), Shift8(0xD500), Shift8(0xD600), Shift8(0xD700),
      Shift8(0xD800), Shift8(0xD900), Shift8(0xDA00), Shift8(0xDB00),
      Shift8(0xDC00), Shift8(0xDD00), Shift8(0xDE00), Shift8(0xDF00)];
    hide *;
  }

  lemma RowE0(t: bv16)
    requires 0xE0 <= t as int < 0xF0
    ensures |TABLE_E0| == 16 && TABLE_E0[t as int - 0xE0] == Shift8(t << 8)
  {
    assert TABLE_E0 == [
      Shift8(0xE000), Shift8(0xE100), Shift8(0xE200), Shift8(0xE300),
      Shift8(0xE400), Shift8(0xE500), Shift8(0xE600), Shift8(0xE700),
      Shift8(0xE800), Shift8(0xE900), Shift8(0xEA00), Shift8(0xEB00),
      Shift8(0xEC00), Shift8(0xED00), Shift8(0xEE00), Shift8(0xEF00)];
    hide *;
  }

  lemma RowF0(t: bv16)
    requires 0xF0 <= t as int < 0x100
    ensures |TABLE_F0| == 16 && TABLE_F0[t as int - 0xF0] == Shift8(t << 8)
  {
    assert TABLE_F0 == [
      Shift8(0xF000), Shift8(0xF100), Shift8(0xF200), Shift8(0xF300),
      Shift8(0xF400), Shift8(0xF500), Shift8(0xF600), Shift8(0xF700),
      Shift8(0xF800), Shift8(0xF900), Shift8(0xFA00), Shift8(0xFB00),
      Shift8(0xFC00), Shift8(0xFD00), Shift8(0xFE00), Shift8(0xFF00)];
    hide *;
  }

  /** Indexing four concatenated blocks of n entries. */
  lemma Blocks(a: seq<bv16>, b: seq<bv16>, c: seq<bv16>, d: seq<bv16>, n: nat, k: nat)
    requires |a| == |b| == |c| == |d| == n && k < 4 * n
    ensures |a + b + c + d| == 4 * n
    ensures (a + b + c + d)[k] == if k < n then a[k] else if k < 2 * n then b[k - n]
            else if k < 3 * n then c[k - 2 * n] else d[k - 3 * n]
  {}

  lemma Quarter(t: bv16, first: nat, a: seq<bv16>, b: seq<bv16>, c: seq<bv16>, d: seq<bv16>)
    requires |a| == |b| == |c| == |d| == 16 && first <= t as int < first + 64
    requires first <= t as int < first + 16 ==> a[t as int - first] == Shift8(t << 8)
    requires first + 16 <= t as int < first + 32 ==> b[t as int - first - 16] == Shift8(t << 8)
    requires first + 32 <= t as int < first + 48 ==> c[t as int - first - 32] == Shift8(t << 8)
    requires first + 48 <= t as int < first + 64 ==> d[t as int - first - 48] == Shift8(t << 8)
    ensures (a + b + c + d)[t as int - first] == Shift8(t << 8)
  {
    hide Shift8;
    Blocks(a, b, c, d, 16, t as int - first);
  }

  lemma Quarter00(t: bv16)
    requires 0x00 <= t as int < 0x00 + 64
    ensures |TABLE_00| == |TABLE_10| == |TABLE_20| == |TABLE_30| == 16
    ensures (TABLE_00 + TABLE_10 + TABLE_20 + TABLE_30)[t as int - 0x00] == Shift8(t << 8)
  {
    hide Shift8;
    if t as int < 0x10 { Row00(t); } else if t as int < 0x20 { Row10(t); }
    else if t as int < 0x30 { Row20(t); } else { Row30(t); }
    Quarter(t, 0x00, TABLE_00, TABLE_10, TABLE_20, TABLE_30);
  }

  lemma Quarter40(t: bv16)
    requires 0x40 <= t as int < 0x40 + 64
    ensures |TABLE_40| == |TABLE_50| == |TABLE_60| == |TABLE_70| == 16
    ensures (TABLE_40 + TABLE_50 + TABLE_60 + TABLE_70)[t as int - 0x40] == Shift8(t << 8)
  {
    hide Shift8;
    if t as int < 0x50 { Row40(t); } else if t as int < 0x60 { Row50(t); }
    else if t as int < 0x70 { Row60(t); } else { Row70(t); }
    Quarter(t, 0x40, TABLE_40, TABLE_50, TABLE_60, TABLE_70);
  }

  lemma Quarter80(t: bv16)
    requires 0x80 <= t as int < 0x80 + 64
    ensures |TABLE_80| == |TABLE_90| == |TABLE_A0| == |TABLE_B0| == 16
    ensures (TABLE_80 + TABLE_90 + TABLE_A0 + TABLE_B0)[t as int - 0x80] == Shift8(t << 8)
  {
    hide Shift8;
    if t as int < 0x90 { Row80(t); } else if t as int < 0xA0 { Row90(t); }
    else if t as int < 0xB0 { RowA0(t); } else { RowB0(t); }
    Quarter(t, 0x80, TABLE_80, TABLE_90, TABLE_A0, TABLE_B0);
  }

  lemma QuarterC0(t: bv16)
    requires 0xC0 <= t as int < 0xC0 + 64
    ensures |TABLE_C0| == |TABLE_D0| == |TABLE_E0| == |TABLE_F0| == 16
    ensures (TABLE_C0 + TABLE_D0 + TABLE_E0 + TABLE_F0)[t as int - 0xC0] == Shift8(t << 8)
  {
    hide Shift8;
    if t as int < 0xD0 { RowC0(t); } else if t as int < 0xE0 { RowD0(t); }
    else if t as int < 0xF0 { RowE0(t); } else { RowF0(t); }
    Quarter(t, 0xC0, TABLE_C0, TABLE_D0, TABLE_E0, TABLE_F0);
  }

  lemma TableSize()
    ensures |TABLE| == 256
  {
    Blocks(TABLE_00 + TABLE_10 + TABLE_20 + TABLE_30, TABLE_40 + TABLE_50 + TABLE_60 + TABLE_70,
           TABLE_80 + TABLE_90 + TABLE_A0 + TABLE_B0, TABLE_C0 + TABLE_D0 + TABLE_E0 + TABLE_F0, 64, 0);
  }

  function Entry(t: bv16): bv16 requires t as int < 256 {
    TableSize(); TABLE[t as int]
  }

  lemma EntryRow(t: bv16)
    requires t as int < 256
    ensures Entry(t) == if t as int < 0x40 then (TABLE_00 + TABLE_10 + TABLE_20 + TABLE_30)[t as int]
                        else if t as int < 0x80 then (TABLE_40 + TABLE_50 + TABLE_60 + TABLE_70)[t as int - 0x40]
                        else if t as int < 0xC0 then (TABLE_80 + TABLE_90 + TABLE_A0 + TABLE_B0)[t as int - 0x80]
                        else (TABLE_C0 + TABLE_D0 + TABLE_E0 + TABLE_F0)[t as int - 0xC0]
  {
    Blocks(TABLE_00 + TABLE_10 + TABLE_20 + TABLE_30, TABLE_40 + TABLE_50 + TABLE_60 + TABLE_70,
           TABLE_80 + TABLE_90 + TABLE_A0 + TABLE_B0, TABLE_C0 + TABLE_D0 + TABLE_E0 + TABLE_F0, 64, t as int);
  }

  function Up8(x: bv16): bv16 { x << 8 }

  /** Every entry of the table is eight steps of the register. */
  lemma Lookup(t: bv16)
    requires t as int < 256
    ensures Entry(t) == Shift8(Up8(t))
  {
    hide Shift8, Entry;
    EntryRow(t);
    if t as int < 0x40 { Quarter00(t); } else if t as int < 0x80 { Quarter40(t); }
    else if t as int < 0xC0 { Quarter80(t); } else { QuarterC0(t); }
  }
}

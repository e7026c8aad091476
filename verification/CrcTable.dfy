/** The 256-entry table, and the proof that each entry is one clock of the shift register on another. */
module CrcTable {
  import opened Bytes
  import opened Bits
  import opened CrcRegister

  // `Crc16Table`, sixteen entries to a row.
  const ROW_0: seq<word16> := [
    0x0000, 0x1021, 0x2042, 0x3063, 0x4084, 0x50A5, 0x60C6, 0x70E7,
    0x8108, 0x9129, 0xA14A, 0xB16B, 0xC18C, 0xD1AD, 0xE1CE, 0xF1EF
  ]
  const ROW_1: seq<word16> := [
    0x1231, 0x0210, 0x3273, 0x2252, 0x52B5, 0x4294, 0x72F7, 0x62D6,
    0x9339, 0x8318, 0xB37B, 0xA35A, 0xD3BD, 0xC39C, 0xF3FF, 0xE3DE
  ]
  const ROW_2: seq<word16> := [
    0x2462, 0x3443, 0x0420, 0x1401, 0x64E6, 0x74C7, 0x44A4, 0x5485,
    0xA56A, 0xB54B, 0x8528, 0x9509, 0xE5EE, 0xF5CF, 0xC5AC, 0xD58D
  ]
  const ROW_3: seq<word16> := [
    0x3653, 0x2672, 0x1611, 0x0630, 0x76D7, 0x66F6, 0x5695, 0x46B4,
    0xB75B, 0xA77A, 0x9719, 0x8738, 0xF7DF, 0xE7FE, 0xD79D, 0xC7BC
  ]
  const ROW_4: seq<word16> := [
    0x48C4, 0x58E5, 0x6886, 0x78A7, 0x0840, 0x1861, 0x2802, 0x3823,
    0xC9CC, 0xD9ED, 0xE98E, 0xF9AF, 0x8948, 0x9969, 0xA90A, 0xB92B
  ]
  const ROW_5: seq<word16> := [
    0x5AF5, 0x4AD4, 0x7AB7, 0x6A96, 0x1A71, 0x0A50, 0x3A33, 0x2A12,
    0xDBFD, 0xCBDC, 0xFBBF, 0xEB9E, 0x9B79, 0x8B58, 0xBB3B, 0xAB1A
  ]
  const ROW_6: seq<word16> := [
    0x6CA6, 0x7C87, 0x4CE4, 0x5CC5, 0x2C22, 0x3C03, 0x0C60, 0x1C41,
    0xEDAE, 0xFD8F, 0xCDEC, 0xDDCD, 0xAD2A, 0xBD0B, 0x8D68, 0x9D49
  ]
  const ROW_7: seq<word16> := [
    0x7E97, 0x6EB6, 0x5ED5, 0x4EF4, 0x3E13, 0x2E32, 0x1E51, 0x0E70,
    0xFF9F, 0xEFBE, 0xDFDD, 0xCFFC, 0xBF1B, 0xAF3A, 0x9F59, 0x8F78
  ]
  const ROW_8: seq<word16> := [
    0x9188, 0x81A9, 0xB1CA, 0xA1EB, 0xD10C, 0xC12D, 0xF14E, 0xE16F,
    0x1080, 0x00A1, 0x30C2, 0x20E3, 0x5004, 0x4025, 0x7046, 0x6067
  ]
  const ROW_9: seq<word16> := [
    0x83B9, 0x9398, 0xA3FB, 0xB3DA, 0xC33D, 0xD31C, 0xE37F, 0xF35E,
    0x02B1, 0x1290, 0x22F3, 0x32D2, 0x4235, 0x5214, 0x6277, 0x7256
  ]
  const ROW_A: seq<word16> := [
    0xB5EA, 0xA5CB, 0x95A8, 0x8589, 0xF56E, 0xE54F, 0xD52C, 0xC50D,
    0x34E2, 0x24C3, 0x14A0, 0x0481, 0x7466, 0x6447, 0x5424, 0x4405
  ]
  const ROW_B: seq<word16> := [
    0xA7DB, 0xB7FA, 0x8799, 0x97B8, 0xE75F, 0xF77E, 0xC71D, 0xD73C,
    0x26D3, 0x36F2, 0x0691, 0x16B0, 0x6657, 0x7676, 0x4615, 0x5634
  ]
  const ROW_C: seq<word16> := [
    0xD94C, 0xC96D, 0xF90E, 0xE92F, 0x99C8, 0x89E9, 0xB98A, 0xA9AB,
    0x5844, 0x4865, 0x7806, 0x6827, 0x18C0, 0x08E1, 0x3882, 0x28A3
  ]
  const ROW_D: seq<word16> := [
    0xCB7D, 0xDB5C, 0xEB3F, 0xFB1E, 0x8BF9, 0x9BD8, 0xABBB, 0xBB9A,
    0x4A75, 0x5A54, 0x6A37, 0x7A16, 0x0AF1, 0x1AD0, 0x2AB3, 0x3A92
  ]
  const ROW_E: seq<word16> := [
    0xFD2E, 0xED0F, 0xDD6C, 0xCD4D, 0xBDAA, 0xAD8B, 0x9DE8, 0x8DC9,
    0x7C26, 0x6C07, 0x5C64, 0x4C45, 0x3CA2, 0x2C83, 0x1CE0, 0x0CC1
  ]
  const ROW_F: seq<word16> := [
    0xEF1F, 0xFF3E, 0xCF5D, 0xDF7C, 0xAF9B, 0xBFBA, 0x8FD9, 0x9FF8,
    0x6E17, 0x7E36, 0x4E55, 0x5E74, 0x2E93, 0x3EB2, 0x0ED1, 0x1EF0
  ]
  function Row(k: nat): (row: seq<word16>)
    requires k < 16
    ensures |row| == 16
  {
    [ROW_0, ROW_1, ROW_2, ROW_3, ROW_4, ROW_5, ROW_6, ROW_7,
     ROW_8, ROW_9, ROW_A, ROW_B, ROW_C, ROW_D, ROW_E, ROW_F][k]
  }

  function Entry(t: nat): word16
    requires t < 256
  {
    Row(t / 16)[t % 16]
  }

  /** A sum with the generator toggles bits 12, 5 and 0. */
  function Toggled(x: word16): int {
    x + (if x / 0x1000 % 2 == 0 then 0x1000 else -0x1000)
      + (if x / 0x20 % 2 == 0 then 0x20 else -0x20)
      + (if x % 2 == 0 then 1 else -1)
  }

  lemma Pow2Of5And12()
    ensures Pow2(5) == 0x20 && Pow2(12) == 0x1000
  {
    assert Pow2(5) == 2 * Pow2(4) && Pow2(4) == 2 * Pow2(3) && Pow2(3) == 8;
    assert Pow2(8) == 2 * Pow2(7) && Pow2(7) == 2 * Pow2(6) && Pow2(6) == 2 * Pow2(5);
    assert Pow2(12) == 2 * Pow2(11) && Pow2(11) == 2 * Pow2(10) && Pow2(10) == 2 * Pow2(9) && Pow2(9) == 2 * Pow2(8);
  }

  lemma FlipLowBit(h: nat)
    ensures BitXor(h, 1) == if h % 2 == 0 then h + 1 else h - 1
  {
    XorWithZero(h / 2);
    XorHalves(h, 1);
  }

  lemma Cuts(x: word16, top: nat, rest: nat, middle: nat, low: nat)
    requires top == x / 0x1000 && rest == x % 0x1000 && middle == rest / 0x20 && low == rest % 0x20
    ensures x == 0x1000 * top + rest && rest == 0x20 * middle + low
    ensures x / 0x20 % 2 == middle % 2 && x % 2 == low % 2
  {
    CutAt5(x, 0x80 * top + middle, low);
  }

  lemma CutAt5(x: nat, high: nat, low: nat)
    requires x == 0x20 * high + low && low < 0x20
    ensures x / 0x20 == high && x % 2 == low % 2
  {
  }

  lemma XorWithGenerator(x: word16)
    ensures Xor(x, GENERATOR) == Toggled(x)
  {
    hide BitXor;
    hide Pow2;
    Pow2Of5And12();
    var top, rest := x / 0x1000, x % 0x1000;
    var middle, low := rest / 0x20, rest % 0x20;
    Cuts(x, top, rest, middle, low);
    XorSplit(top, rest, 1, 0x21, 12);
    XorSplit(middle, low, 1, 1, 5);
    FlipLowBit(top);
    FlipLowBit(middle);
    FlipLowBit(low);
  }

  lemma Clock(x: word16, y0: word16, y1: word16)
    requires if x < 0x8000 then y0 == 2 * x && y1 == Toggled(2 * x)
             else y0 == Toggled(2 * x - 0x1_0000) && y1 == 2 * x - 0x1_0000
    ensures StepBit(x, false) == y0 && StepBit(x, true) == y1
  {
    hide Xor;
    XorWithGenerator(2 * x % 0x1_0000);
  }

  function Half(row: seq<word16>, side: nat): (half: seq<word16>)
    requires |row| == 16 && side < 2
    ensures |half| == 8
  {
    row[8 * side..][..8]
  }

  /** Eight entries, each followed by either bit. */
  function Followed(f: seq<word16>): (row: seq<word16>)
    requires |f| == 8
  {
    [StepBit(f[0], false), StepBit(f[0], true), StepBit(f[1], false), StepBit(f[1], true),
     StepBit(f[2], false), StepBit(f[2], true), StepBit(f[3], false), StepBit(f[3], true),
     StepBit(f[4], false), StepBit(f[4], true), StepBit(f[5], false), StepBit(f[5], true),
     StepBit(f[6], false), StepBit(f[6], true), StepBit(f[7], false), StepBit(f[7], true)]
  }

  lemma FollowedAt(f: seq<word16>, j: nat)
    requires |f| == 8 && j < 16
    ensures Followed(f)[j] == StepBit(f[j / 2], j % 2 == 1)
  {
    hide StepBit;
  }

  lemma Row0()
    ensures ROW_0 == Followed(Half(ROW_0, 0))
  {
    hide StepBit;
    Clock(0x0000, 0x0000, 0x1021);
    Clock(0x1021, 0x2042, 0x3063);
    Clock(0x2042, 0x4084, 0x50A5);
    Clock(0x3063, 0x60C6, 0x70E7);
    Clock(0x4084, 0x8108, 0x9129);
    Clock(0x50A5, 0xA14A, 0xB16B);
    Clock(0x60C6, 0xC18C, 0xD1AD);
    Clock(0x70E7, 0xE1CE, 0xF1EF);
  }

  lemma Row1()
    ensures ROW_1 == Followed(Half(ROW_0, 1))
  {
    hide StepBit;
    Clock(0x8108, 0x1231, 0x0210);
    Clock(0x9129, 0x3273, 0x2252);
    Clock(0xA14A, 0x52B5, 0x4294);
    Clock(0xB16B, 0x72F7, 0x62D6);
    Clock(0xC18C, 0x9339, 0x8318);
    Clock(0xD1AD, 0xB37B, 0xA35A);
    Clock(0xE1CE, 0xD3BD, 0xC39C);
    Clock(0xF1EF, 0xF3FF, 0xE3DE);
  }

  lemma Row2()
    ensures ROW_2 == Followed(Half(ROW_1, 0))
  {
    hide StepBit;
    Clock(0x1231, 0x2462, 0x3443);
    Clock(0x0210, 0x0420, 0x1401);
    Clock(0x3273, 0x64E6, 0x74C7);
    Clock(0x2252, 0x44A4, 0x5485);
    Clock(0x52B5, 0xA56A, 0xB54B);
    Clock(0x4294, 0x8528, 0x9509);
    Clock(0x72F7, 0xE5EE, 0xF5CF);
    Clock(0x62D6, 0xC5AC, 0xD58D);
  }

  lemma Row3()
    ensures ROW_3 == Followed(Half(ROW_1, 1))
  {
    hide StepBit;
    Clock(0x9339, 0x3653, 0x2672);
    Clock(0x8318, 0x1611, 0x0630);
    Clock(0xB37B, 0x76D7, 0x66F6);
    Clock(0xA35A, 0x5695, 0x46B4);
    Clock(0xD3BD, 0xB75B, 0xA77A);
    Clock(0xC39C, 0x9719, 0x8738);
    Clock(0xF3FF, 0xF7DF, 0xE7FE);
    Clock(0xE3DE, 0xD79D, 0xC7BC);
  }

  lemma Row4()
    ensures ROW_4 == Followed(Half(ROW_2, 0))
  {
    hide StepBit;
    Clock(0x2462, 0x48C4, 0x58E5);
    Clock(0x3443, 0x6886, 0x78A7);
    Clock(0x0420, 0x0840, 0x1861);
    Clock(0x1401, 0x2802, 0x3823);
    Clock(0x64E6, 0xC9CC, 0xD9ED);
    Clock(0x74C7, 0xE98E, 0xF9AF);
    Clock(0x44A4, 0x8948, 0x9969);
    Clock(0x5485, 0xA90A, 0xB92B);
  }

  lemma Row5()
    ensures ROW_5 == Followed(Half(ROW_2, 1))
  {
    hide StepBit;
    Clock(0xA56A, 0x5AF5, 0x4AD4);
    Clock(0xB54B, 0x7AB7, 0x6A96);
    Clock(0x8528, 0x1A71, 0x0A50);
    Clock(0x9509, 0x3A33, 0x2A12);
    Clock(0xE5EE, 0xDBFD, 0xCBDC);
    Clock(0xF5CF, 0xFBBF, 0xEB9E);
    Clock(0xC5AC, 0x9B79, 0x8B58);
    Clock(0xD58D, 0xBB3B, 0xAB1A);
  }

  lemma Row6()
    ensures ROW_6 == Followed(Half(ROW_3, 0))
  {
    hide StepBit;
    Clock(0x3653, 0x6CA6, 0x7C87);
    Clock(0x2672, 0x4CE4, 0x5CC5);
    Clock(0x1611, 0x2C22, 0x3C03);
    Clock(0x0630, 0x0C60, 0x1C41);
    Clock(0x76D7, 0xEDAE, 0xFD8F);
    Clock(0x66F6, 0xCDEC, 0xDDCD);
    Clock(0x5695, 0xAD2A, 0xBD0B);
    Clock(0x46B4, 0x8D68, 0x9D49);
  }

  lemma Row7()
    ensures ROW_7 == Followed(Half(ROW_3, 1))
  {
    hide StepBit;
    Clock(0xB75B, 0x7E97, 0x6EB6);
    Clock(0xA77A, 0x5ED5, 0x4EF4);
    Clock(0x9719, 0x3E13, 0x2E32);
    Clock(0x8738, 0x1E51, 0x0E70);
    Clock(0xF7DF, 0xFF9F, 0xEFBE);
    Clock(0xE7FE, 0xDFDD, 0xCFFC);
    Clock(0xD79D, 0xBF1B, 0xAF3A);
    Clock(0xC7BC, 0x9F59, 0x8F78);
  }

  lemma Row8()
    ensures ROW_8 == Followed(Half(ROW_4, 0))
  {
    hide StepBit;
    Clock(0x48C4, 0x9188, 0x81A9);
    Clock(0x58E5, 0xB1CA, 0xA1EB);
    Clock(0x6886, 0xD10C, 0xC12D);
    Clock(0x78A7, 0xF14E, 0xE16F);
    Clock(0x0840, 0x1080, 0x00A1);
    Clock(0x1861, 0x30C2, 0x20E3);
    Clock(0x2802, 0x5004, 0x4025);
    Clock(0x3823, 0x7046, 0x6067);
  }

  lemma Row9()
    ensures ROW_9 == Followed(Half(ROW_4, 1))
  {
    hide StepBit;
    Clock(0xC9CC, 0x83B9, 0x9398);
    Clock(0xD9ED, 0xA3FB, 0xB3DA);
    Clock(0xE98E, 0xC33D, 0xD31C);
    Clock(0xF9AF, 0xE37F, 0xF35E);
    Clock(0x8948, 0x02B1, 0x1290);
    Clock(0x9969, 0x22F3, 0x32D2);
    Clock(0xA90A, 0x4235, 0x5214);
    Clock(0xB92B, 0x6277, 0x7256);
  }

  lemma RowA()
    ensures ROW_A == Followed(Half(ROW_5, 0))
  {
    hide StepBit;
    Clock(0x5AF5, 0xB5EA, 0xA5CB);
    Clock(0x4AD4, 0x95A8, 0x8589);
    Clock(0x7AB7, 0xF56E, 0xE54F);
    Clock(0x6A96, 0xD52C, 0xC50D);
    Clock(0x1A71, 0x34E2, 0x24C3);
    Clock(0x0A50, 0x14A0, 0x0481);
    Clock(0x3A33, 0x7466, 0x6447);
    Clock(0x2A12, 0x5424, 0x4405);
  }

  lemma RowB()
    ensures ROW_B == Followed(Half(ROW_5, 1))
  {
    hide StepBit;
    Clock(0xDBFD, 0xA7DB, 0xB7FA);
    Clock(0xCBDC, 0x8799, 0x97B8);
    Clock(0xFBBF, 0xE75F, 0xF77E);
    Clock(0xEB9E, 0xC71D, 0xD73C);
    Clock(0x9B79, 0x26D3, 0x36F2);
    Clock(0x8B58, 0x0691, 0x16B0);
    Clock(0xBB3B, 0x6657, 0x7676);
    Clock(0xAB1A, 0x4615, 0x5634);
  }

  lemma RowC()
    ensures ROW_C == Followed(Half(ROW_6, 0))
  {
    hide StepBit;
    Clock(0x6CA6, 0xD94C, 0xC96D);
    Clock(0x7C87, 0xF90E, 0xE92F);
    Clock(0x4CE4, 0x99C8, 0x89E9);
    Clock(0x5CC5, 0xB98A, 0xA9AB);
    Clock(0x2C22, 0x5844, 0x4865);
    Clock(0x3C03, 0x7806, 0x6827);
    Clock(0x0C60, 0x18C0, 0x08E1);
    Clock(0x1C41, 0x3882, 0x28A3);
  }

  lemma RowD()
    ensures ROW_D == Followed(Half(ROW_6, 1))
  {
    hide StepBit;
    Clock(0xEDAE, 0xCB7D, 0xDB5C);
    Clock(0xFD8F, 0xEB3F, 0xFB1E);
    Clock(0xCDEC, 0x8BF9, 0x9BD8);
    Clock(0xDDCD, 0xABBB, 0xBB9A);
    Clock(0xAD2A, 0x4A75, 0x5A54);
    Clock(0xBD0B, 0x6A37, 0x7A16);
    Clock(0x8D68, 0x0AF1, 0x1AD0);
    Clock(0x9D49, 0x2AB3, 0x3A92);
  }

  lemma RowE()
    ensures ROW_E == Followed(Half(ROW_7, 0))
  {
    hide StepBit;
    Clock(0x7E97, 0xFD2E, 0xED0F);
    Clock(0x6EB6, 0xDD6C, 0xCD4D);
    Clock(0x5ED5, 0xBDAA, 0xAD8B);
    Clock(0x4EF4, 0x9DE8, 0x8DC9);
    Clock(0x3E13, 0x7C26, 0x6C07);
    Clock(0x2E32, 0x5C64, 0x4C45);
    Clock(0x1E51, 0x3CA2, 0x2C83);
    Clock(0x0E70, 0x1CE0, 0x0CC1);
  }

  lemma RowF()
    ensures ROW_F == Followed(Half(ROW_7, 1))
  {
    hide StepBit;
    Clock(0xFF9F, 0xEF1F, 0xFF3E);
    Clock(0xEFBE, 0xCF5D, 0xDF7C);
    Clock(0xDFDD, 0xAF9B, 0xBFBA);
    Clock(0xCFFC, 0x8FD9, 0x9FF8);
    Clock(0xBF1B, 0x6E17, 0x7E36);
    Clock(0xAF3A, 0x4E55, 0x5E74);
    Clock(0x9F59, 0x2E93, 0x3EB2);
    Clock(0x8F78, 0x0ED1, 0x1EF0);
  }

  lemma AllRows(k: nat)
    requires k < 16
    ensures Row(k) == Followed(Half(Row(k / 2), k % 2))
  {
    hide Followed;
    hide Half;
    if k < 1 { Row0(); }
    else if k < 2 { Row1(); }
    else if k < 3 { Row2(); }
    else if k < 4 { Row3(); }
    else if k < 5 { Row4(); }
    else if k < 6 { Row5(); }
    else if k < 7 { Row6(); }
    else if k < 8 { Row7(); }
    else if k < 9 { Row8(); }
    else if k < 10 { Row9(); }
    else if k < 11 { RowA(); }
    else if k < 12 { RowB(); }
    else if k < 13 { RowC(); }
    else if k < 14 { RowD(); }
    else if k < 15 { RowE(); }
    else { RowF(); }
  }

  /** Appending a bit to the index clocks that bit into the entry. */
  lemma EntryStep(t: nat)
    requires t < 256
    ensures Entry(t) == StepBit(Entry(t / 2), t % 2 == 1)
  {
    hide StepBit;
    hide Followed;
    hide Row;
    var k, j := t / 16, t % 16;
    AllRows(k);
    FollowedAt(Half(Row(k / 2), k % 2), j);
    assert t / 2 / 16 == k / 2 && t / 2 % 16 == 8 * (k % 2) + j / 2 && j % 2 == t % 2;
  }
}

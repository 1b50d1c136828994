/** The check value of CRC-32 (sigan/src/frame.cpp), byte after byte. */
module CrcExample {
  import opened Bytes
  import opened Crc

  lemma FedByte(data: seq<u8>, k: nat, b: u8, c: bv32, v: bv32, d: bv32)
    requires k < |data| && BitSerial(Not(ZERO), data[..k]) == Word(c)
    requires data[k] == b && Widen(b) == Word(v) && Steps(Word(c ^ v), 8) == Word(d)
    ensures BitSerial(Not(ZERO), data[..k + 1]) == Word(d)
  {
    hide Steps, FeedBits, Widen;
    TableIsBitSerial(Word(c), b);
    assert data[..k + 1][..k] == data[..k];
  }

  /** The digits from 1 to 9. */
  const CHECK: seq<u8> := [0x31, 0x32, 0x33, 0x34, 0x35, 0x36, 0x37, 0x38, 0x39]

  lemma Digits1()
    ensures Widen(0x31) == Word(0x31) && Widen(0x32) == Word(0x32) && Widen(0x33) == Word(0x33)
  {
    assert Bits(3, 4) == Word(3);
    assert Bits(6, 5) == Word(6);
    assert Bits(12, 6) == Word(12);
    assert Bits(24, 7) == Word(24) && Bits(25, 7) == Word(25);
  }

  lemma Digits2()
    ensures Widen(0x34) == Word(0x34) && Widen(0x35) == Word(0x35) && Widen(0x36) == Word(0x36)
  {
    assert Bits(3, 4) == Word(3);
    assert Bits(6, 5) == Word(6);
    assert Bits(13, 6) == Word(13);
    assert Bits(26, 7) == Word(26) && Bits(27, 7) == Word(27);
  }

  lemma Digits3()
    ensures Widen(0x37) == Word(0x37) && Widen(0x38) == Word(0x38) && Widen(0x39) == Word(0x39)
  {
    assert Bits(3, 4) == Word(3);
    assert Bits(6, 5) == Word(6) && Bits(7, 5) == Word(7);
    assert Bits(13, 6) == Word(13) && Bits(14, 6) == Word(14);
    assert Bits(27, 7) == Word(27) && Bits(28, 7) == Word(28);
  }

  lemma Checked0()
    ensures BitSerial(Not(ZERO), CHECK[..0]) == Word(0xffffffff)
  {
  }

  lemma Shifted1()
    ensures Steps(Word(0xffffffce), 8) == Word(0x7c231048)
  {
  }

  lemma Checked1()
    ensures BitSerial(Not(ZERO), CHECK[..1]) == Word(0x7c231048)
  {
    hide BitSerial, Steps, Widen;
    Digits1();
    Shifted1();
    Checked0();
    FedByte(CHECK, 0, 0x31, 0xffffffff, 0x31, 0x7c231048);
  }

  lemma Shifted2()
    ensures Steps(Word(0x7c23107a), 8) == Word(0xb0acbb32)
  {
  }

  lemma Checked2()
    ensures BitSerial(Not(ZERO), CHECK[..2]) == Word(0xb0acbb32)
  {
    hide BitSerial, Steps, Widen;
    Digits1();
    Shifted2();
    Checked1();
    FedByte(CHECK, 1, 0x32, 0x7c231048, 0x32, 0xb0acbb32);
  }

  lemma Shifted3()
    ensures Steps(Word(0xb0acbb01), 8) == Word(0x77b79c2d)
  {
  }

  lemma Checked3()
    ensures BitSerial(Not(ZERO), CHECK[..3]) == Word(0x77b79c2d)
  {
    hide BitSerial, Steps, Widen;
    Digits1();
    Shifted3();
    Checked2();
    FedByte(CHECK, 2, 0x33, 0xb0acbb32, 0x33, 0x77b79c2d);
  }

  lemma Shifted4()
    ensures Steps(Word(0x77b79c19), 8) == Word(0x641c1f5c)
  {
  }

  lemma Checked4()
    ensures BitSerial(Not(ZERO), CHECK[..4]) == Word(0x641c1f5c)
  {
    hide BitSerial, Steps, Widen;
    Digits2();
    Shifted4();
    Checked3();
    FedByte(CHECK, 3, 0x34, 0x77b79c2d, 0x34, 0x641c1f5c);
  }

  lemma Shifted5()
    ensures Steps(Word(0x641c1f69), 8) == Word(0x340ac5e3)
  {
  }

  lemma Checked5()
    ensures BitSerial(Not(ZERO), CHECK[..5]) == Word(0x340ac5e3)
  {
    hide BitSerial, Steps, Widen;
    Digits2();
    Shifted5();
    Checked4();
    FedByte(CHECK, 4, 0x35, 0x641c1f5c, 0x35, 0x340ac5e3);
  }

  lemma Shifted6()
    ensures Steps(Word(0x340ac5d5), 8) == Word(0xf68d2c9e)
  {
  }

  lemma Checked6()
    ensures BitSerial(Not(ZERO), CHECK[..6]) == Word(0xf68d2c9e)
  {
    hide BitSerial, Steps, Widen;
    Digits2();
    Shifted6();
    Checked5();
    FedByte(CHECK, 5, 0x36, 0x340ac5e3, 0x36, 0xf68d2c9e);
  }

  lemma Shifted7()
    ensures Steps(Word(0xf68d2ca9), 8) == Word(0xaffc9660)
  {
  }

  lemma Checked7()
    ensures BitSerial(Not(ZERO), CHECK[..7]) == Word(0xaffc9660)
  {
    hide BitSerial, Steps, Widen;
    Digits3();
    Shifted7();
    Checked6();
    FedByte(CHECK, 6, 0x37, 0xf68d2c9e, 0x37, 0xaffc9660);
  }

  lemma Shifted8()
    ensures Steps(Word(0xaffc9658), 8) == Word(0x651f2550)
  {
  }

  lemma Checked8()
    ensures BitSerial(Not(ZERO), CHECK[..8]) == Word(0x651f2550)
  {
    hide BitSerial, Steps, Widen;
    Digits3();
    Shifted8();
    Checked7();
    FedByte(CHECK, 7, 0x38, 0xaffc9660, 0x38, 0x651f2550);
  }

  lemma Shifted9()
    ensures Steps(Word(0x651f2569), 8) == Word(0x340bc6d9)
  {
  }

  lemma Checked9()
    ensures BitSerial(Not(ZERO), CHECK[..9]) == Word(0x340bc6d9)
  {
    hide BitSerial, Steps, Widen;
    Digits3();
    Shifted9();
    Checked8();
    FedByte(CHECK, 8, 0x39, 0x651f2550, 0x39, 0x340bc6d9);
  }

  /** The check value of CRC-32: that of the digits from 1 to 9. It tells the polynomial, the order of the bits
      and both inversions. */
  lemma CheckValue()
    ensures Crc32(CHECK, ZERO) == Word(0xCBF43926)
  {
    hide BitSerial;
    Checked9();
    assert CHECK[..9] == CHECK;
  }

  lemma CheckBytes()
    ensures Widen(0x26) == Word(0x26) && Widen(0xF4) == Word(0xF4) && Widen(0xCB) == Word(0xCB)
  {
    assert Bits(2, 4) == Word(2) && Bits(15, 4) == Word(15) && Bits(12, 4) == Word(12);
    assert Bits(4, 5) == Word(4) && Bits(30, 5) == Word(30) && Bits(25, 5) == Word(25);
    assert Bits(9, 6) == Word(9) && Bits(61, 6) == Word(61) && Bits(50, 6) == Word(50);
    assert Bits(19, 7) == Word(19) && Bits(122, 7) == Word(122) && Bits(101, 7) == Word(101);
  }

  /** A stored checksum starts with its lowest byte. */
  lemma LowestFirst()
    ensures PutCrc(Word(0xCBF43926)) == [0x26, 0x39, 0xF4, 0xCB]
  {
    hide Widen, PutCrc;
    Digits3();
    CheckBytes();
    GetPutCrc(Word(0xCBF43926));
    GetCrcInjective(PutCrc(Word(0xCBF43926)), [0x26, 0x39, 0xF4, 0xCB]);
  }
}

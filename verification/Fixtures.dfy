/** The examples of the repository's own tests, as facts about the model. */
module Fixtures {
  import opened Prelude
  import Cbor
  import Crc
  import Utf8
  import Boot2
  import opened Protocol
  import opened ServerFrames
  import opened WireFormat

  // ---- The checksum of test/provisioning-format.test.js:40 ----

  lemma EightSteps(c: bv32)
    ensures Crc.Steps(c, 8) == Eight(c)
  {
    hide Crc.BitStep;
    assert Crc.Steps(c, 8) == Crc.Steps(Crc.BitStep(Crc.BitStep(c)), 6);
    var d := Crc.BitStep(Crc.BitStep(c));
    assert Crc.Steps(d, 6) == Crc.Steps(Crc.BitStep(Crc.BitStep(d)), 4);
    var e := Crc.BitStep(Crc.BitStep(d));
    assert Crc.Steps(e, 4) == Crc.Steps(Crc.BitStep(Crc.BitStep(e)), 2);
  }

  function Eight(c: bv32): bv32 {
    var d := Crc.BitStep(Crc.BitStep(Crc.BitStep(Crc.BitStep(c))));
    Crc.BitStep(Crc.BitStep(Crc.BitStep(Crc.BitStep(d))))
  }

  lemma ByteFixture(c: bv32, b: byte, word: bv32, next: bv32)
    requires Crc.ToWord(b) == word && Eight(c ^ word) == next
    ensures Crc.ByteStep(c, b) == next
  {
    hide Eight, Crc.Steps, Crc.BitStep, Crc.ToWord;
    EightSteps(c ^ word);
  }

  lemma DigitsOf(b: byte, n1: nat, n2: nat, n3: nat, n4: nat, n5: nat, n6: nat, n7: nat)
    requires n1 == b / 2 && n2 == n1 / 2 && n3 == n2 / 2 && n4 == n3 / 2 && n5 == n4 / 2 && n6 == n5 / 2 && n7 == n6 / 2
    ensures Crc.Digits(b) == [b % 2 == 1, n1 % 2 == 1, n2 % 2 == 1, n3 % 2 == 1,
                              n4 % 2 == 1, n5 % 2 == 1, n6 % 2 == 1, n7 % 2 == 1]
  {
    hide Crc.Halves;
    HalvesFour(b, n1, n2, n3, 4);
    HalvesFour(n4, n5, n6, n7, 0);
  }

  lemma HalvesFour(n: nat, x: nat, y: nat, z: nat, more: nat)
    requires x == n / 2 && y == x / 2 && z == y / 2
    ensures Crc.Halves(n, more + 4) ==
            [n % 2 == 1, x % 2 == 1, y % 2 == 1, z % 2 == 1] + Crc.Halves(z / 2, more)
  {
    assert Crc.Halves(z, more + 1) == [z % 2 == 1] + Crc.Halves(z / 2, more);
    assert Crc.Halves(y, more + 2) == [y % 2 == 1] + Crc.Halves(z, more + 1);
    assert Crc.Halves(x, more + 3) == [x % 2 == 1] + Crc.Halves(y, more + 2);
    assert Crc.Halves(n, more + 4) == [n % 2 == 1] + Crc.Halves(x, more + 3);
  }

  /** The words of the digits one to nine. */
  lemma DigitWord(b: byte)
    requires 0x31 <= b <= 0x39
    ensures Crc.ToWord(b) == DigitAsWord(b)
  {
    hide Crc.Digits;
    DigitsOf(b, b / 2, if b < 0x34 then 12 else if b < 0x38 then 13 else 14, if b < 0x38 then 6 else 7, 3, 1, 0, 0);
  }

  function DigitAsWord(b: byte): bv32 {
    match b
    case 0x31 => 0x31
    case 0x32 => 0x32
    case 0x33 => 0x33
    case 0x34 => 0x34
    case 0x35 => 0x35
    case 0x36 => 0x36
    case 0x37 => 0x37
    case 0x38 => 0x38
    case _ => 0x39
  }

  lemma RunNext(data: Bytes, c: bv32, b: byte, next: bv32)
    requires Crc.Run(Crc.START, data) == c && Crc.ByteStep(c, b) == next
    ensures Crc.Run(Crc.START, data + [b]) == next
  {
    hide Crc.ByteStep;
    assert (data + [b])[..|data|] == data;
  }

  lemma Byte1()
    ensures Crc.ByteStep(0xffffffff, 0x31) == 0x7c231048
  {
    DigitWord(0x31);
    hide Crc.ToWord, Crc.ByteStep;
    ByteFixture(0xffffffff, 0x31, 0x31, 0x7c231048);
  }

  lemma Byte2()
    ensures Crc.ByteStep(0x7c231048, 0x32) == 0xb0acbb32
  {
    DigitWord(0x32);
    hide Crc.ToWord, Crc.ByteStep;
    ByteFixture(0x7c231048, 0x32, 0x32, 0xb0acbb32);
  }

  lemma Byte3()
    ensures Crc.ByteStep(0xb0acbb32, 0x33) == 0x77b79c2d
  {
    DigitWord(0x33);
    hide Crc.ToWord, Crc.ByteStep;
    ByteFixture(0xb0acbb32, 0x33, 0x33, 0x77b79c2d);
  }

  lemma Byte4()
    ensures Crc.ByteStep(0x77b79c2d, 0x34) == 0x641c1f5c
  {
    DigitWord(0x34);
    hide Crc.ToWord, Crc.ByteStep;
    ByteFixture(0x77b79c2d, 0x34, 0x34, 0x641c1f5c);
  }

  lemma Byte5()
    ensures Crc.ByteStep(0x641c1f5c, 0x35) == 0x340ac5e3
  {
    DigitWord(0x35);
    hide Crc.ToWord, Crc.ByteStep;
    ByteFixture(0x641c1f5c, 0x35, 0x35, 0x340ac5e3);
  }

  lemma Byte6()
    ensures Crc.ByteStep(0x340ac5e3, 0x36) == 0xf68d2c9e
  {
    DigitWord(0x36);
    hide Crc.ToWord, Crc.ByteStep;
    ByteFixture(0x340ac5e3, 0x36, 0x36, 0xf68d2c9e);
  }

  lemma Byte7()
    ensures Crc.ByteStep(0xf68d2c9e, 0x37) == 0xaffc9660
  {
    DigitWord(0x37);
    hide Crc.ToWord, Crc.ByteStep;
    ByteFixture(0xf68d2c9e, 0x37, 0x37, 0xaffc9660);
  }

  lemma Byte8()
    ensures Crc.ByteStep(0xaffc9660, 0x38) == 0x651f2550
  {
    DigitWord(0x38);
    hide Crc.ToWord, Crc.ByteStep;
    ByteFixture(0xaffc9660, 0x38, 0x38, 0x651f2550);
  }

  lemma Byte9()
    ensures Crc.ByteStep(0x651f2550, 0x39) == 0x340bc6d9
  {
    DigitWord(0x39);
    hide Crc.ToWord, Crc.ByteStep;
    ByteFixture(0x651f2550, 0x39, 0x39, 0x340bc6d9);
  }

  lemma CrcFixture()
    ensures Crc.Checksum([0x31, 0x32, 0x33, 0x34, 0x35, 0x36, 0x37, 0x38, 0x39]) == 0xcbf43926
  {
    hide Crc.ByteStep;
    var data: Bytes := [];
    assert Crc.Run(Crc.START, data) == 0xffffffff;
    hide Crc.Run;
    Byte1();
    RunNext(data, 0xffffffff, 0x31, 0x7c231048);
    data := data + [0x31];
    Byte2();
    RunNext(data, 0x7c231048, 0x32, 0xb0acbb32);
    data := data + [0x32];
    Byte3();
    RunNext(data, 0xb0acbb32, 0x33, 0x77b79c2d);
    data := data + [0x33];
    Byte4();
    RunNext(data, 0x77b79c2d, 0x34, 0x641c1f5c);
    data := data + [0x34];
    Byte5();
    RunNext(data, 0x641c1f5c, 0x35, 0x340ac5e3);
    data := data + [0x35];
    Byte6();
    RunNext(data, 0x340ac5e3, 0x36, 0xf68d2c9e);
    data := data + [0x36];
    Byte7();
    RunNext(data, 0xf68d2c9e, 0x37, 0xaffc9660);
    data := data + [0x37];
    Byte8();
    RunNext(data, 0xaffc9660, 0x38, 0x651f2550);
    data := data + [0x38];
    Byte9();
    RunNext(data, 0x651f2550, 0x39, 0x340bc6d9);
    data := data + [0x39];
    assert data == [0x31, 0x32, 0x33, 0x34, 0x35, 0x36, 0x37, 0x38, 0x39];
  }

  // ---- The frames of test/device-protocol.test.js:16-29 ----

  const CONTROLLER1: Bytes := [0x63, 0x6f, 0x6e, 0x74, 0x72, 0x6f, 0x6c, 0x6c, 0x65, 0x72, 0x31]
  const VERSION123: Bytes := [0x31, 0x2e, 0x32, 0x2e, 0x33]
  const HARDWARE: Bytes := [0x6d, 0x69, 0x6e, 0x64, 0x66, 0x6c, 0x61, 0x79, 0x65, 0x72, 0x2d, 0x6b, 0x65, 0x79, 0x70,
                            0x61, 0x64, 0x2d, 0x76, 0x31]
  const FILE: Bytes := [0x2f, 0x66, 0x69, 0x72, 0x6d, 0x77, 0x61, 0x72, 0x65, 0x2f, 0x61, 0x2f, 0x31, 0x2e, 0x32, 0x2e,
                        0x33]

  lemma PlainSays(text: Bytes, max: nat)
    requires 0 < |text| <= max && forall i :: 0 <= i < |text| ==> 0 < text[i] < 0x80
    ensures Says(text, max, text)
  {
    Utf8.AsciiIsValid(text);
  }

  /** The keypad's frames of the fixtures are read as the messages that belong to them. */
  lemma KeypadFixtures()
    ensures Delivered([0x84, 1, 2, 0x6b] + CONTROLLER1 + [0x58, 0x20] + Repeat(0x22, 32)) ==
            Some((2, AuthResponse(CONTROLLER1, Repeat(0x22, 32))))
    ensures Delivered([0x84, 3, 2, 0x65] + VERSION123 + [0x74] + HARDWARE) ==
            Some((2, Registration(VERSION123, KEYPAD_HARDWARE)))
    ensures Delivered([0x84, 4, 2, 1, 1]) == Some((2, KeyEvent("W", "down")))
    ensures Delivered([0x83, 4, 1, 1]) == Some((1, KeyEvent("W", "down")))
  {
    hide Delivered, Utf8.Valid;
    HardwareName();
    PlainSays(CONTROLLER1, 64);
    PlainSays(VERSION123, 47);
    PlainSays(HARDWARE, 64);
    AuthenticationFixture();
    RegistrationFixture();
    assert Opening(4, 2, 2) + [1, 1] == [0x84, 4, 2, 1, 1] && Opening(4, 1, 2) + [1, 1] == [0x83, 4, 1, 1];
    KeyBytes([0x84, 4, 2, 1, 1], 2, "W", "down");
    KeyBytes([0x83, 4, 1, 1], 1, "W", "down");
  }

  lemma HardwareName()
    ensures HARDWARE == KEYPAD_HARDWARE
  {
    var name := "mindflayer-keypad-v1";
    assert name[0] == 'm' && name[1] == 'i' && name[2] == 'n' && name[3] == 'd' && name[4] == 'f' && name[5] == 'l';
    assert name[6] == 'a' && name[7] == 'y' && name[8] == 'e' && name[9] == 'r' && name[10] == '-' && name[11] == 'k';
    assert name[12] == 'e' && name[13] == 'y' && name[14] == 'p' && name[15] == 'a' && name[16] == 'd';
    assert name[17] == '-' && name[18] == 'v' && name[19] == '1';
  }

  lemma AuthenticationFixture()
    requires Says(CONTROLLER1, 64, CONTROLLER1)
    ensures Delivered([0x84, 1, 2, 0x6b] + CONTROLLER1 + [0x58, 0x20] + Repeat(0x22, 32)) ==
            Some((2, AuthResponse(CONTROLLER1, Repeat(0x22, 32))))
  {
    hide Delivered, Says;
    var input := [0x84, 1, 2, 0x6b] + CONTROLLER1 + [0x58, 0x20] + Repeat(0x22, 32);
    assert input == Opening(1, 2, 2) + TextBytes(CONTROLLER1) + Blob32(Repeat(0x22, 32));
    AuthenticationBytes(input, 2, CONTROLLER1, Repeat(0x22, 32));
  }

  lemma RegistrationFixture()
    requires Says(VERSION123, 47, VERSION123) && Says(HARDWARE, 64, HARDWARE)
    ensures Delivered([0x84, 3, 2, 0x65] + VERSION123 + [0x74] + HARDWARE) ==
            Some((2, Registration(VERSION123, HARDWARE)))
  {
    hide Delivered, Says;
    var input := [0x84, 3, 2, 0x65] + VERSION123 + [0x74] + HARDWARE;
    assert input == Opening(3, 2, 2) + TextBytes(VERSION123) + TextBytes(HARDWARE);
    RegistrationBytes(input, 2, VERSION123, HARDWARE);
  }

  lemma FirstItem(item: Item, rest: seq<Item>)
    ensures EncodeItems([item] + rest) == EncodeItem(item) + EncodeItems(rest) && EncodeItems([]) == []
  {
    assert ([item] + rest)[1..] == rest;
  }

  lemma ArrayBytes(items: seq<Item>)
    requires |items| < 24
    ensures EncodeArray(items) == [0x80 + |items|] + EncodeItems(items)
  {
    Cbor.HeadBytes(Cbor.ARRAY, |items|);
  }

  lemma ThreeItems(a: Item, b: Item, c: Item)
    ensures EncodeArray([a, b, c]) == [0x83] + EncodeItem(a) + EncodeItem(b) + EncodeItem(c)
  {
    hide EncodeItem, EncodeItems, EncodeArray;
    ArrayBytes([a, b, c]);
    FirstItem(a, [b, c]);
    FirstItem(b, [c]);
    FirstItem(c, []);
    assert [a, b, c] == [a] + [b, c] && [b, c] == [b] + [c] && [c] == [c] + [];
  }

  lemma FourItems(a: Item, b: Item, c: Item, d: Item)
    ensures EncodeArray([a, b, c, d]) == [0x84] + EncodeItem(a) + EncodeItem(b) + EncodeItem(c) + EncodeItem(d)
  {
    hide EncodeItem, EncodeItems, EncodeArray;
    ArrayBytes([a, b, c, d]);
    FirstItem(a, [b, c, d]);
    FirstItem(b, [c, d]);
    FirstItem(c, [d]);
    FirstItem(d, []);
    assert [a, b, c, d] == [a] + [b, c, d] && [b, c, d] == [b] + [c, d] && [c, d] == [c] + [d] && [d] == [d] + [];
  }

  lemma SevenItems(a: Item, b: Item, c: Item, d: Item, e: Item, f: Item, g: Item)
    ensures EncodeArray([a, b, c, d, e, f, g]) ==
            [0x87] + EncodeItem(a) + EncodeItem(b) + EncodeItem(c) + EncodeItem(d) + EncodeItem(e) + EncodeItem(f)
            + EncodeItem(g)
  {
    hide EncodeItem, EncodeItems, EncodeArray;
    ArrayBytes([a, b, c, d, e, f, g]);
    FirstItem(a, [b, c, d, e, f, g]);
    FirstItem(b, [c, d, e, f, g]);
    FirstItem(c, [d, e, f, g]);
    assert [a, b, c, d, e, f, g] == [a] + [b, c, d, e, f, g] && [b, c, d, e, f, g] == [b] + [c, d, e, f, g];
    assert [c, d, e, f, g] == [c] + [d, e, f, g];
    LastFour(d, e, f, g);
  }

  lemma LastFour(d: Item, e: Item, f: Item, g: Item)
    ensures EncodeItems([d, e, f, g]) == EncodeItem(d) + EncodeItem(e) + EncodeItem(f) + EncodeItem(g)
  {
    hide EncodeItem, EncodeItems;
    FirstItem(d, [e, f, g]);
    FirstItem(e, [f, g]);
    FirstItem(f, [g]);
    FirstItem(g, []);
    assert [d, e, f, g] == [d] + [e, f, g] && [e, f, g] == [e] + [f, g] && [f, g] == [f] + [g] && [g] == [g] + [];
  }

  lemma SizeItem()
    ensures EncodeItem(Uint(123)) == [0x18, 0x7b]
  {
    Cbor.HeadBytes(Cbor.UINT, 123);
  }

  /** The server's frames of the fixtures are the bytes that the tests expect. */
  lemma ChallengeFixture()
    ensures Encode(AuthChallenge(Repeat(0x11, 32))) == Some([0x83, 0, 1, 0x58, 0x20] + Repeat(0x11, 32))
  {
    hide EncodeItem, EncodeArray;
    ThreeItems(Uint(0), Uint(1), Blob(Repeat(0x11, 32)));
    UintByte(0);
    UintByte(1);
    BlobItem(Repeat(0x11, 32));
    LimitNeverHit(AuthChallenge(Repeat(0x11, 32)));
    assert [0x83] + [0] + [1] + Blob32(Repeat(0x11, 32)) == [0x83, 0, 1, 0x58, 0x20] + Repeat(0x11, 32);
  }

  lemma ResultFixture()
    ensures Encode(AuthResult(2, 0, CONTROLLER1)) == Some([0x84, 2, 2, 0, 0x6b] + CONTROLLER1)
  {
    hide EncodeItem, EncodeArray;
    FourItems(Uint(2), Uint(2), Uint(0), Text(CONTROLLER1));
    UintByte(2);
    UintByte(0);
    TextItem(CONTROLLER1);
    LimitNeverHit(AuthResult(2, 0, CONTROLLER1));
    assert ServerItems(AuthResult(2, 0, CONTROLLER1)) == [Uint(2), Uint(2), Uint(0), Text(CONTROLLER1)];
    assert [0x84] + [2] + [2] + [0] + TextBytes(CONTROLLER1) == [0x84, 2, 2, 0, 0x6b] + CONTROLLER1;
  }

  lemma AcceptedFixture()
    ensures Encode(FirmwareAccepted(2, VERSION123)) == Some([0x83, 7, 2, 0x65] + VERSION123)
  {
    hide EncodeItem, EncodeArray;
    ThreeItems(Uint(7), Uint(2), Text(VERSION123));
    UintByte(7);
    UintByte(2);
    TextItem(VERSION123);
    LimitNeverHit(FirmwareAccepted(2, VERSION123));
    assert ServerItems(FirmwareAccepted(2, VERSION123)) == [Uint(7), Uint(2), Text(VERSION123)];
    assert [0x83] + [7] + [2] + TextBytes(VERSION123) == [0x83, 7, 2, 0x65] + VERSION123;
  }

  lemma UpdateFixture()
    ensures Encode(UpdateAvailable(2, VERSION123, 123, Repeat(0, 32), FILE, Repeat(0x33, 32))) ==
            Some([0x87, 6, 2, 0x65] + VERSION123 + [0x18, 0x7b, 0x58, 0x20] + Repeat(0, 32) + [0x71] + FILE
                 + [0x58, 0x20] + Repeat(0x33, 32))
  {
    hide EncodeItem, EncodeArray;
    var frame := UpdateAvailable(2, VERSION123, 123, Repeat(0, 32), FILE, Repeat(0x33, 32));
    SevenItems(Uint(6), Uint(2), Text(VERSION123), Uint(123), Blob(Repeat(0, 32)), Text(FILE), Blob(Repeat(0x33, 32)));
    UintByte(6);
    UintByte(2);
    SizeItem();
    TextItem(VERSION123);
    TextItem(FILE);
    BlobItem(Repeat(0, 32));
    BlobItem(Repeat(0x33, 32));
    LimitNeverHit(frame);
    assert ServerItems(frame) ==
           [Uint(6), Uint(2), Text(VERSION123), Uint(123), Blob(Repeat(0, 32)), Text(FILE), Blob(Repeat(0x33, 32))];
    assert [0x87] + [6] + [2] + TextBytes(VERSION123) + [0x18, 0x7b] + Blob32(Repeat(0, 32)) + TextBytes(FILE)
           + Blob32(Repeat(0x33, 32)) ==
           [0x87, 6, 2, 0x65] + VERSION123 + [0x18, 0x7b, 0x58, 0x20] + Repeat(0, 32) + [0x71] + FILE
           + [0x58, 0x20] + Repeat(0x33, 32);
  }

  // ---- A firmware image ----

  /** The smallest image: one byte of flash code and one of RAM at the entry point. */
  const SMALLEST: Bytes :=
    [0xea, 4, 2, 0x40, 0, 0, 0x10, 0x40, 0, 0, 0, 0, 1, 0, 0, 0,
     0, 0, 0, 0, 0, 0, 0, 0, 0, 0, 0, 0, 0, 0, 0, 0,
     0xe9, 1, 2, 0x40, 0, 0, 0x10, 0x40, 0, 0, 0x10, 0x40, 1, 0, 0, 0,
     1, 0, 0, 0, 0, 0, 0, 0, 0, 0, 0, 0, 0, 0, 0, 0xee]

  const SMALLEST_LAYOUT := Boot2.Image(0x40100000, [0], Repeat(0, 15), [Boot2.Segment(0x40100000, [1])], Repeat(0, 14),
    0xee)

  lemma SmallestPrinted()
    ensures Boot2.Print(SMALLEST_LAYOUT) == SMALLEST
  {
    hide WriteLE, Boot2.PrintRam, Boot2.PrintIrom;
    RamPrinted();
    IromPrinted();
    assert Repeat(0, 14) == [0, 0, 0, 0, 0, 0, 0, 0, 0, 0, 0, 0, 0, 0];
  }

  lemma RamPrinted()
    ensures Boot2.PrintRam(SMALLEST_LAYOUT) ==
            [0xe9, 1, 2, 0x40, 0, 0, 0x10, 0x40, 0, 0, 0x10, 0x40, 1, 0, 0, 0, 1]
  {
    hide WriteLE;
    LittleEndian(0x40100000);
    LittleEndian(1);
    var s := Boot2.Segment(0x40100000, [1]);
    assert [s][1..] == [];
    assert Boot2.PrintSegments([s]) == Boot2.PrintSegment(s) + Boot2.PrintSegments([]);
    assert Boot2.PrintSegment(s) == [0, 0, 0x10, 0x40, 1, 0, 0, 0, 1];
  }

  lemma IromPrinted()
    ensures Boot2.PrintIrom(SMALLEST_LAYOUT) ==
            [0xea, 4, 2, 0x40, 0, 0, 0x10, 0x40, 0, 0, 0, 0, 1, 0, 0, 0,
             0, 0, 0, 0, 0, 0, 0, 0, 0, 0, 0, 0, 0, 0, 0, 0]
  {
    hide WriteLE;
    LittleEndian(0x40100000);
    LittleEndian(0);
    LittleEndian(1);
    assert Repeat(0, 15) == [0, 0, 0, 0, 0, 0, 0, 0, 0, 0, 0, 0, 0, 0, 0];
  }

  lemma SmallestSummed()
    ensures Boot2.Summed(SMALLEST_LAYOUT)
  {
    hide Boot2.Xor;
    var s := Boot2.Segment(0x40100000, [1]);
    assert [s][..0] == [] && Boot2.Loaded([s]) == [] + [1];
    XorFixture();
    assert [0][..0] == [] && [1][..0] == [];
    assert Boot2.Checksum(0xef, [0]) == Boot2.XorByte(0xef, 0);
    assert Boot2.Checksum(0xef, [1]) == Boot2.XorByte(0xef, 1);
  }

  lemma XorFixture()
    ensures Boot2.Xor(0xef, 0, 8) == 0xef && Boot2.Xor(0xef, 1, 8) == 0xee
  {
    assert Boot2.Xor(0x0e, 0, 4) == 0x0e;
    assert Boot2.Xor(0x77, 0, 7) == 0x77 by {
      assert Boot2.Xor(0x1d, 0, 5) == 0x1d;
      assert Boot2.Xor(0x3b, 0, 6) == 0x3b;
    }
  }

  /** It is accepted. */
  lemma SmallestAccepted()
    ensures Boot2.Accepts(SMALLEST)
  {
    hide Boot2.Accepts, Boot2.Print, Boot2.Summed;
    SmallestPrinted();
    SmallestSummed();
    assert Boot2.Holds(SMALLEST_LAYOUT.segments[0], SMALLEST_LAYOUT.entry);
    assert Boot2.Laid(SMALLEST_LAYOUT);
    Boot2.AcceptsExactly(SMALLEST);
  }
}

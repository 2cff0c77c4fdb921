/** Table-driven CRC-32 against the shift register it stands for. */
module Crc32 {

  const POLYNOMIAL: bv32 := 0xEDB88320

  // ---------------------------------------------------------------------------------------------
  // The table, in rows of sixteen

  const ROW_0: seq<bv32> := [
    0x00000000, 0x77073096, 0xee0e612c, 0x990951ba, 0x076dc419, 0x706af48f, 0xe963a535, 0x9e6495a3,
    0x0edb8832, 0x79dcb8a4, 0xe0d5e91e, 0x97d2d988, 0x09b64c2b, 0x7eb17cbd, 0xe7b82d07, 0x90bf1d91]
  const ROW_1: seq<bv32> := [
    0x1db71064, 0x6ab020f2, 0xf3b97148, 0x84be41de, 0x1adad47d, 0x6ddde4eb, 0xf4d4b551, 0x83d385c7,
    0x136c9856, 0x646ba8c0, 0xfd62f97a, 0x8a65c9ec, 0x14015c4f, 0x63066cd9, 0xfa0f3d63, 0x8d080df5]
  const ROW_2: seq<bv32> := [
    0x3b6e20c8, 0x4c69105e, 0xd56041e4, 0xa2677172, 0x3c03e4d1, 0x4b04d447, 0xd20d85fd, 0xa50ab56b,
    0x35b5a8fa, 0x42b2986c, 0xdbbbc9d6, 0xacbcf940, 0x32d86ce3, 0x45df5c75, 0xdcd60dcf, 0xabd13d59]
  const ROW_3: seq<bv32> := [
    0x26d930ac, 0x51de003a, 0xc8d75180, 0xbfd06116, 0x21b4f4b5, 0x56b3c423, 0xcfba9599, 0xb8bda50f,
    0x2802b89e, 0x5f058808, 0xc60cd9b2, 0xb10be924, 0x2f6f7c87, 0x58684c11, 0xc1611dab, 0xb6662d3d]
  const ROW_4: seq<bv32> := [
    0x76dc4190, 0x01db7106, 0x98d220bc, 0xefd5102a, 0x71b18589, 0x06b6b51f, 0x9fbfe4a5, 0xe8b8d433,
    0x7807c9a2, 0x0f00f934, 0x9609a88e, 0xe10e9818, 0x7f6a0dbb, 0x086d3d2d, 0x91646c97, 0xe6635c01]
  const ROW_5: seq<bv32> := [
    0x6b6b51f4, 0x1c6c6162, 0x856530d8, 0xf262004e, 0x6c0695ed, 0x1b01a57b, 0x8208f4c1, 0xf50fc457,
    0x65b0d9c6, 0x12b7e950, 0x8bbeb8ea, 0xfcb9887c, 0x62dd1ddf, 0x15da2d49, 0x8cd37cf3, 0xfbd44c65]
  const ROW_6: seq<bv32> := [
    0x4db26158, 0x3ab551ce, 0xa3bc0074, 0xd4bb30e2, 0x4adfa541, 0x3dd895d7, 0xa4d1c46d, 0xd3d6f4fb,
    0x4369e96a, 0x346ed9fc, 0xad678846, 0xda60b8d0, 0x44042d73, 0x33031de5, 0xaa0a4c5f, 0xdd0d7cc9]
  const ROW_7: seq<bv32> := [
    0x5005713c, 0x270241aa, 0xbe0b1010, 0xc90c2086, 0x5768b525, 0x206f85b3, 0xb966d409, 0xce61e49f,
    0x5edef90e, 0x29d9c998, 0xb0d09822, 0xc7d7a8b4, 0x59b33d17, 0x2eb40d81, 0xb7bd5c3b, 0xc0ba6cad]
  const ROW_8: seq<bv32> := [
    0xedb88320, 0x9abfb3b6, 0x03b6e20c, 0x74b1d29a, 0xead54739, 0x9dd277af, 0x04db2615, 0x73dc1683,
    0xe3630b12, 0x94643b84, 0x0d6d6a3e, 0x7a6a5aa8, 0xe40ecf0b, 0x9309ff9d, 0x0a00ae27, 0x7d079eb1]
  const ROW_9: seq<bv32> := [
    0xf00f9344, 0x8708a3d2, 0x1e01f268, 0x6906c2fe, 0xf762575d, 0x806567cb, 0x196c3671, 0x6e6b06e7,
    0xfed41b76, 0x89d32be0, 0x10da7a5a, 0x67dd4acc, 0xf9b9df6f, 0x8ebeeff9, 0x17b7be43, 0x60b08ed5]
  const ROW_A: seq<bv32> := [
    0xd6d6a3e8, 0xa1d1937e, 0x38d8c2c4, 0x4fdff252, 0xd1bb67f1, 0xa6bc5767, 0x3fb506dd, 0x48b2364b,
    0xd80d2bda, 0xaf0a1b4c, 0x36034af6, 0x41047a60, 0xdf60efc3, 0xa867df55, 0x316e8eef, 0x4669be79]
  const ROW_B: seq<bv32> := [
    0xcb61b38c, 0xbc66831a, 0x256fd2a0, 0x5268e236, 0xcc0c7795, 0xbb0b4703, 0x220216b9, 0x5505262f,
    0xc5ba3bbe, 0xb2bd0b28, 0x2bb45a92, 0x5cb36a04, 0xc2d7ffa7, 0xb5d0cf31, 0x2cd99e8b, 0x5bdeae1d]
  const ROW_C: seq<bv32> := [
    0x9b64c2b0, 0xec63f226, 0x756aa39c, 0x026d930a, 0x9c0906a9, 0xeb0e363f, 0x72076785, 0x05005713,
    0x95bf4a82, 0xe2b87a14, 0x7bb12bae, 0x0cb61b38, 0x92d28e9b, 0xe5d5be0d, 0x7cdcefb7, 0x0bdbdf21]
  const ROW_D: seq<bv32> := [
    0x86d3d2d4, 0xf1d4e242, 0x68ddb3f8, 0x1fda836e, 0x81be16cd, 0xf6b9265b, 0x6fb077e1, 0x18b74777,
    0x88085ae6, 0xff0f6a70, 0x66063bca, 0x11010b5c, 0x8f659eff, 0xf862ae69, 0x616bffd3, 0x166ccf45]
  const ROW_E: seq<bv32> := [
    0xa00ae278, 0xd70dd2ee, 0x4e048354, 0x3903b3c2, 0xa7672661, 0xd06016f7, 0x4969474d, 0x3e6e77db,
    0xaed16a4a, 0xd9d65adc, 0x40df0b66, 0x37d83bf0, 0xa9bcae53, 0xdebb9ec5, 0x47b2cf7f, 0x30b5ffe9]
  const ROW_F: seq<bv32> := [
    0xbdbdf21c, 0xcabac28a, 0x53b39330, 0x24b4a3a6, 0xbad03605, 0xcdd70693, 0x54de5729, 0x23d967bf,
    0xb3667a2e, 0xc4614ab8, 0x5d681b02, 0x2a6f2b94, 0xb40bbe37, 0xc30c8ea1, 0x5a05df1b, 0x2d02ef8d]
  const QUARTER_0 := ROW_0 + ROW_1 + ROW_2 + ROW_3
  const QUARTER_1 := ROW_4 + ROW_5 + ROW_6 + ROW_7
  const QUARTER_2 := ROW_8 + ROW_9 + ROW_A + ROW_B
  const QUARTER_3 := ROW_C + ROW_D + ROW_E + ROW_F
  const TABLE := QUARTER_0 + QUARTER_1 + QUARTER_2 + QUARTER_3

  lemma InTable(x: bv32)
    ensures (x & 0xFF) as nat < |TABLE| == 256
  {
    TableSize();
    hide TABLE;
    ByteNat(x);
  }

  lemma ByteNat(x: bv32)
    ensures (x & 0xFF) as nat < 256
  {
  }

  // ---------------------------------------------------------------------------------------------
  // The program

  function Lookup(i: bv32): bv32 {
    InTable(i);
    TABLE[(i & 0xFF) as nat]
  }

  function Next(byte: bv8, crc: bv32): bv32 {
    Lookup(crc ^ byte as bv32) ^ (crc >> 8)
  }

  function Final(crc: bv32): bv32 {
    crc ^ 0
  }

  method Crc(buf: array<bv8>, crc: bv32) returns (r: bv32)
    ensures r == Value(buf[..], crc)
  {
    hide Next;
    var c, p := crc, 0;
    assert buf[0..] == buf[..];
    while p < buf.Length
      invariant p <= buf.Length
      invariant Value(buf[p..], c) == Value(buf[..], crc)
    {
      assert buf[p..] == [buf[p]] + buf[p + 1..];
      ByteStep(buf[p], buf[p + 1..], c);
      c := Next(buf[p], c);
      p := p + 1;
    }
    FinalIsIdentity(c);
    r := Final(c);
  }

  // ---------------------------------------------------------------------------------------------
  // The shift register

  /** One bit enters the register, which shifts towards the low end. */
  function Feed(c: bv32, bit: bool): bv32 {
    if (c & 1 == 1) != bit then (c >> 1) ^ POLYNOMIAL else c >> 1
  }

  function Register(bits: seq<bool>, c: bv32): bv32 {
    if bits == [] then c else Register(bits[1..], Feed(c, bits[0]))
  }

  predicate Odd(x: bv32) {
    x & 1 == 1
  }

  function Half(x: bv32): bv32 {
    x >> 1
  }

  /** The lowest `n` bits, lowest first. */
  function LowBits(x: bv32, n: nat): (b: seq<bool>)
    ensures |b| == n
    decreases n
  {
    if n == 0 then [] else [Odd(x)] + LowBits(Half(x), n - 1)
  }

  /** A byte is sent lowest bit first. */
  function BitsOf(bytes: seq<bv8>): seq<bool> {
    if bytes == [] then [] else LowBits(bytes[0] as bv32, 8) + BitsOf(bytes[1..])
  }

  /** What the program computes, by the definition of the register. */
  function Value(bytes: seq<bv8>, c: bv32): bv32 {
    Register(BitsOf(bytes), c)
  }

  // ---------------------------------------------------------------------------------------------
  // The register is linear

  function Xor(a: bv32, b: bv32): bv32 {
    a ^ b
  }

  lemma ShiftXor(a: bv32, b: bv32)
    ensures (a ^ b) >> 1 == (a >> 1) ^ (b >> 1)
  {
  }

  lemma LowXor(a: bv32, b: bv32)
    ensures ((a ^ b) & 1 == 1) == ((a & 1 == 1) != (b & 1 == 1))
  {
  }

  lemma HalfXor(a: bv32, b: bv32)
    ensures Half(Xor(a, b)) == Xor(Half(a), Half(b))
  {
    ShiftXor(a, b);
  }

  lemma OddXor(a: bv32, b: bv32)
    ensures Odd(Xor(a, b)) == (Odd(a) != Odd(b))
  {
    LowXor(a, b);
  }

  lemma RawSwap(a: bv32, b: bv32, p: bv32)
    ensures (a ^ p) ^ b == (a ^ b) ^ p && a ^ (b ^ p) == (a ^ b) ^ p && (a ^ p) ^ (b ^ p) == a ^ b
  {
  }

  lemma XorSwap(a: bv32, b: bv32, p: bv32)
    ensures Xor(Xor(a, p), b) == Xor(Xor(a, b), p) && Xor(a, Xor(b, p)) == Xor(Xor(a, b), p)
    ensures Xor(Xor(a, p), Xor(b, p)) == Xor(a, b)
  {
    RawSwap(a, b, p);
  }

  lemma FeedIs(c: bv32, bit: bool)
    ensures Feed(c, bit) == if Odd(c) != bit then Xor(Half(c), POLYNOMIAL) else Half(c)
  {
  }

  /** The difference of two registers develops like a register. */
  lemma FeedXor(a: bv32, b: bv32)
    ensures Feed(Xor(a, b), false) == Xor(Feed(a, false), Feed(b, false))
  {
    hide Feed, Xor, Odd, Half;
    FeedIs(a, false);
    FeedIs(b, false);
    FeedIs(Xor(a, b), false);
    OddXor(a, b);
    HalfXor(a, b);
    XorSwap(Half(a), Half(b), POLYNOMIAL);
  }

  function Four(c: bv32): bv32 {
    Feed(Feed(Feed(Feed(c, false), false), false), false)
  }

  /** Eight bits of zero. */
  function Eight(c: bv32): bv32 {
    Four(Four(c))
  }

  lemma FourXor(a: bv32, b: bv32)
    ensures Four(Xor(a, b)) == Xor(Four(a), Four(b))
  {
    hide Feed, Xor;
    var a1, b1 := Feed(a, false), Feed(b, false);
    var a2, b2 := Feed(a1, false), Feed(b1, false);
    var a3, b3 := Feed(a2, false), Feed(b2, false);
    FeedXor(a, b);
    FeedXor(a1, b1);
    FeedXor(a2, b2);
    FeedXor(a3, b3);
  }

  lemma EightXor(a: bv32, b: bv32)
    ensures Eight(Xor(a, b)) == Xor(Eight(a), Eight(b))
  {
    hide Four, Xor;
    FourXor(a, b);
    FourXor(Four(a), Four(b));
  }

  // ---------------------------------------------------------------------------------------------
  // The table is right

  predicate IsNibble(l: bv32) {
    l & 0x0F == l
  }

  lemma NibbleNat(l: bv32)
    requires IsNibble(l)
    ensures l as nat < 16
    ensures || l == 0 || l == 1 || l == 2 || l == 3 || l == 4 || l == 5 || l == 6 || l == 7
            || l == 8 || l == 9 || l == 10 || l == 11 || l == 12 || l == 13 || l == 14 || l == 15
    ensures l == 0 ==> l as nat == 0
    ensures l == 1 ==> l as nat == 1
    ensures l == 2 ==> l as nat == 2
    ensures l == 3 ==> l as nat == 3
    ensures l == 4 ==> l as nat == 4
    ensures l == 5 ==> l as nat == 5
    ensures l == 6 ==> l as nat == 6
    ensures l == 7 ==> l as nat == 7
    ensures l == 8 ==> l as nat == 8
    ensures l == 9 ==> l as nat == 9
    ensures l == 10 ==> l as nat == 10
    ensures l == 11 ==> l as nat == 11
    ensures l == 12 ==> l as nat == 12
    ensures l == 13 ==> l as nat == 13
    ensures l == 14 ==> l as nat == 14
    ensures l == 15 ==> l as nat == 15
  {
  }

  /** The entries of the row of sixteen that begins at index `first`. */
  ghost predicate RowIs(row: seq<bv32>, first: bv32) {
    |row| == 16 && forall l: bv32 :: IsNibble(l) ==> (NibbleNat(l); row[l as nat] == Eight(Xor(first, l)))
  }

  lemma UnitValues()
    ensures Eight(0) == 0 && Eight(1) == 0x77073096 && Eight(2) == 0xee0e612c
    ensures Eight(4) == 0x076dc419 && Eight(8) == 0x0edb8832
  {
  }

  lemma FirstValues()
    ensures ROW_0[0] == 0 && ROW_0[1] == 0x77073096 && ROW_0[2] == 0xee0e612c
    ensures ROW_0[4] == 0x076dc419 && ROW_0[8] == 0x0edb8832
  {
  }

  lemma FirstSums()
    ensures ROW_0[3] == Xor(ROW_0[2], ROW_0[1]) && ROW_0[5] == Xor(ROW_0[4], ROW_0[1])
    ensures ROW_0[6] == Xor(ROW_0[4], ROW_0[2]) && ROW_0[7] == Xor(ROW_0[4], ROW_0[3])
    ensures ROW_0[9] == Xor(ROW_0[8], ROW_0[1]) && ROW_0[10] == Xor(ROW_0[8], ROW_0[2])
    ensures ROW_0[11] == Xor(ROW_0[8], ROW_0[3]) && ROW_0[12] == Xor(ROW_0[8], ROW_0[4])
    ensures ROW_0[13] == Xor(ROW_0[8], ROW_0[5]) && ROW_0[14] == Xor(ROW_0[8], ROW_0[6])
    ensures ROW_0[15] == Xor(ROW_0[8], ROW_0[7])
  {
  }

  lemma SmallXors()
    ensures Xor(2, 1) == 3 && Xor(4, 1) == 5 && Xor(4, 2) == 6 && Xor(4, 3) == 7 && Xor(8, 1) == 9 && Xor(8, 2) == 10
    ensures Xor(8, 3) == 11 && Xor(8, 4) == 12 && Xor(8, 5) == 13 && Xor(8, 6) == 14 && Xor(8, 7) == 15
  {
  }

  lemma FirstRow()
    ensures RowIs(ROW_0, 0)
  {
    UnitValues();
    FirstValues();
    FirstSums();
    SmallXors();
    hide Eight, Xor;
    EightXor(2, 1);
    EightXor(4, 1);
    EightXor(4, 2);
    EightXor(4, 3);
    EightXor(8, 1);
    EightXor(8, 2);
    EightXor(8, 3);
    EightXor(8, 4);
    EightXor(8, 5);
    EightXor(8, 6);
    EightXor(8, 7);
    forall l: bv32 | IsNibble(l) ensures l as nat < 16 && ROW_0[l as nat] == Eight(Xor(0, l)) {
      NibbleNat(l);
      ZeroXor(l);
    }
  }

  lemma ZeroXor(x: bv32)
    ensures Xor(0, x) == x && Xor(x, 0) == x
  {
  }

  /** The other rows differ from the first by their first entry. */
  predicate Sums(row: seq<bv32>) {
    && |row| == 16
    && row[1] == Xor(row[0], ROW_0[1]) && row[2] == Xor(row[0], ROW_0[2]) && row[3] == Xor(row[0], ROW_0[3])
    && row[4] == Xor(row[0], ROW_0[4]) && row[5] == Xor(row[0], ROW_0[5]) && row[6] == Xor(row[0], ROW_0[6])
    && row[7] == Xor(row[0], ROW_0[7]) && row[8] == Xor(row[0], ROW_0[8]) && row[9] == Xor(row[0], ROW_0[9])
    && row[10] == Xor(row[0], ROW_0[10]) && row[11] == Xor(row[0], ROW_0[11]) && row[12] == Xor(row[0], ROW_0[12])
    && row[13] == Xor(row[0], ROW_0[13]) && row[14] == Xor(row[0], ROW_0[14]) && row[15] == Xor(row[0], ROW_0[15])
  }

  lemma Sums1()
    ensures Sums(ROW_1)
  {
  }

  lemma Sums2()
    ensures Sums(ROW_2)
  {
  }

  lemma Sums3()
    ensures Sums(ROW_3)
  {
  }

  lemma Sums4()
    ensures Sums(ROW_4)
  {
  }

  lemma Sums5()
    ensures Sums(ROW_5)
  {
  }

  lemma Sums6()
    ensures Sums(ROW_6)
  {
  }

  lemma Sums7()
    ensures Sums(ROW_7)
  {
  }

  lemma Sums8()
    ensures Sums(ROW_8)
  {
  }

  lemma Sums9()
    ensures Sums(ROW_9)
  {
  }

  lemma SumsA()
    ensures Sums(ROW_A)
  {
  }

  lemma SumsB()
    ensures Sums(ROW_B)
  {
  }

  lemma SumsC()
    ensures Sums(ROW_C)
  {
  }

  lemma SumsD()
    ensures Sums(ROW_D)
  {
  }

  lemma SumsE()
    ensures Sums(ROW_E)
  {
  }

  lemma SumsF()
    ensures Sums(ROW_F)
  {
  }

  lemma RowSums(k: nat)
    requires 0 < k < 16
    ensures Sums(Row(k))
  {
    hide Sums;
    hide ROW_0, ROW_1, ROW_2, ROW_3, ROW_4, ROW_5, ROW_6, ROW_7;
    hide ROW_8, ROW_9, ROW_A, ROW_B, ROW_C, ROW_D, ROW_E, ROW_F;
    Sums1();
    Sums2();
    Sums3();
    Sums4();
    Sums5();
    Sums6();
    Sums7();
    Sums8();
    Sums9();
    SumsA();
    SumsB();
    SumsC();
    SumsD();
    SumsE();
    SumsF();
  }

  lemma SumAt(row: seq<bv32>, l: bv32)
    requires Sums(row) && IsNibble(l)
    ensures l as nat < 16 && row[l as nat] == Xor(row[0], ROW_0[l as nat])
  {
    NibbleNat(l);
    FirstValues();
    ZeroXor(row[0]);
    hide Xor;
  }

  lemma OtherRow(row: seq<bv32>, first: bv32)
    requires Sums(row) && row[0] == Eight(first)
    ensures RowIs(row, first)
  {
    FirstRow();
    assert |row| == 16;
    hide Eight, Xor, Sums;
    forall l: bv32 | IsNibble(l) ensures l as nat < 16 && row[l as nat] == Eight(Xor(first, l)) {
      SumAt(row, l);
      ZeroXor(l);
      EightXor(first, l);
    }
  }

  lemma SixteenValues()
    ensures Eight(0x10) == 0x1db71064 && Eight(0x20) == 0x3b6e20c8
    ensures Eight(0x40) == 0x76dc4190 && Eight(0x80) == 0xedb88320
  {
  }

  lemma LargeXors()
    ensures Xor(0x20, 0x10) == 0x30 && Xor(0x40, 0x10) == 0x50 && Xor(0x40, 0x20) == 0x60 && Xor(0x40, 0x30) == 0x70
    ensures Xor(0x80, 0x10) == 0x90 && Xor(0x80, 0x20) == 0xA0 && Xor(0x80, 0x30) == 0xB0 && Xor(0x80, 0x40) == 0xC0
    ensures Xor(0x80, 0x50) == 0xD0 && Xor(0x80, 0x60) == 0xE0 && Xor(0x80, 0x70) == 0xF0
  {
  }

  lemma FirstColumnValues()
    ensures ROW_1[0] == 0x1db71064 && ROW_2[0] == 0x3b6e20c8
    ensures ROW_4[0] == 0x76dc4190 && ROW_8[0] == 0xedb88320
  {
  }

  lemma LargeSums()
    ensures ROW_3[0] == Xor(ROW_2[0], ROW_1[0]) && ROW_5[0] == Xor(ROW_4[0], ROW_1[0])
    ensures ROW_6[0] == Xor(ROW_4[0], ROW_2[0]) && ROW_7[0] == Xor(ROW_4[0], ROW_3[0])
    ensures ROW_9[0] == Xor(ROW_8[0], ROW_1[0]) && ROW_A[0] == Xor(ROW_8[0], ROW_2[0])
    ensures ROW_B[0] == Xor(ROW_8[0], ROW_3[0]) && ROW_C[0] == Xor(ROW_8[0], ROW_4[0])
    ensures ROW_D[0] == Xor(ROW_8[0], ROW_5[0]) && ROW_E[0] == Xor(ROW_8[0], ROW_6[0])
    ensures ROW_F[0] == Xor(ROW_8[0], ROW_7[0])
  {
  }

  predicate FirstIs(row: seq<bv32>, first: bv32) {
    row != [] && row[0] == Eight(first)
  }

  lemma FirstColumn()
    ensures FirstIs(ROW_1, 0x10) && FirstIs(ROW_2, 0x20) && FirstIs(ROW_3, 0x30)
    ensures FirstIs(ROW_4, 0x40) && FirstIs(ROW_5, 0x50)
    ensures FirstIs(ROW_6, 0x60) && FirstIs(ROW_7, 0x70) && FirstIs(ROW_8, 0x80)
    ensures FirstIs(ROW_9, 0x90) && FirstIs(ROW_A, 0xA0)
    ensures FirstIs(ROW_B, 0xB0) && FirstIs(ROW_C, 0xC0) && FirstIs(ROW_D, 0xD0)
    ensures FirstIs(ROW_E, 0xE0) && FirstIs(ROW_F, 0xF0)
  {
    SixteenValues();
    LargeXors();
    FirstColumnValues();
    LargeSums();
    hide Eight, Xor;
    EightXor(0x20, 0x10);
    EightXor(0x40, 0x10);
    EightXor(0x40, 0x20);
    EightXor(0x40, 0x30);
    EightXor(0x80, 0x10);
    EightXor(0x80, 0x20);
    EightXor(0x80, 0x30);
    EightXor(0x80, 0x40);
    EightXor(0x80, 0x50);
    EightXor(0x80, 0x60);
    EightXor(0x80, 0x70);
  }

  function Row(k: nat): seq<bv32>
    requires k < 16
  {
    if k == 0 then ROW_0
    else if k == 1 then ROW_1
    else if k == 2 then ROW_2
    else if k == 3 then ROW_3
    else if k == 4 then ROW_4
    else if k == 5 then ROW_5
    else if k == 6 then ROW_6
    else if k == 7 then ROW_7
    else if k == 8 then ROW_8
    else if k == 9 then ROW_9
    else if k == 10 then ROW_A
    else if k == 11 then ROW_B
    else if k == 12 then ROW_C
    else if k == 13 then ROW_D
    else if k == 14 then ROW_E
    else ROW_F
  }

  /** The index at which row `k` begins. */
  function FirstOf(k: nat): bv32
    requires k < 16
  {
    if k == 0 then 0
    else if k == 1 then 0x10
    else if k == 2 then 0x20
    else if k == 3 then 0x30
    else if k == 4 then 0x40
    else if k == 5 then 0x50
    else if k == 6 then 0x60
    else if k == 7 then 0x70
    else if k == 8 then 0x80
    else if k == 9 then 0x90
    else if k == 10 then 0xA0
    else if k == 11 then 0xB0
    else if k == 12 then 0xC0
    else if k == 13 then 0xD0
    else if k == 14 then 0xE0
    else 0xF0
  }

  predicate IsFirst(h: bv32) {
    h & 0xF0 == h
  }

  lemma FirstNat(h: bv32) returns (k: nat)
    requires IsFirst(h)
    ensures k < 16 && h == FirstOf(k) && h as nat == 16 * k
  {
    FirstValue(h);
    k :=
      if h == 0 then 0
      else if h == 0x10 then 1
      else if h == 0x20 then 2
      else if h == 0x30 then 3
      else if h == 0x40 then 4
      else if h == 0x50 then 5
      else if h == 0x60 then 6
      else if h == 0x70 then 7
      else if h == 0x80 then 8
      else if h == 0x90 then 9
      else if h == 0xA0 then 10
      else if h == 0xB0 then 11
      else if h == 0xC0 then 12
      else if h == 0xD0 then 13
      else if h == 0xE0 then 14
      else 15;
  }

  lemma FirstValue(h: bv32)
    requires IsFirst(h)
    ensures || h == 0 || h == 0x10 || h == 0x20 || h == 0x30 || h == 0x40 || h == 0x50 || h == 0x60 || h == 0x70
            || h == 0x80 || h == 0x90 || h == 0xA0 || h == 0xB0 || h == 0xC0 || h == 0xD0 || h == 0xE0 || h == 0xF0
    ensures h == 0x00 ==> h as nat == 0x00
    ensures h == 0x10 ==> h as nat == 0x10
    ensures h == 0x20 ==> h as nat == 0x20
    ensures h == 0x30 ==> h as nat == 0x30
    ensures h == 0x40 ==> h as nat == 0x40
    ensures h == 0x50 ==> h as nat == 0x50
    ensures h == 0x60 ==> h as nat == 0x60
    ensures h == 0x70 ==> h as nat == 0x70
    ensures h == 0x80 ==> h as nat == 0x80
    ensures h == 0x90 ==> h as nat == 0x90
    ensures h == 0xA0 ==> h as nat == 0xA0
    ensures h == 0xB0 ==> h as nat == 0xB0
    ensures h == 0xC0 ==> h as nat == 0xC0
    ensures h == 0xD0 ==> h as nat == 0xD0
    ensures h == 0xE0 ==> h as nat == 0xE0
    ensures h == 0xF0 ==> h as nat == 0xF0
  {
  }

  lemma RowRight(k: nat)
    requires k < 16
    ensures RowIs(Row(k), FirstOf(k))
  {
    hide RowIs, Sums, Eight;
    hide ROW_0, ROW_1, ROW_2, ROW_3, ROW_4, ROW_5, ROW_6, ROW_7;
    hide ROW_8, ROW_9, ROW_A, ROW_B, ROW_C, ROW_D, ROW_E, ROW_F;
    if k == 0 {
      FirstRow();
    } else {
      RowSums(k);
      FirstColumn();
      OtherRow(Row(k), FirstOf(k));
    }
  }

  lemma RowSizes()
    ensures |ROW_0| == |ROW_1| == |ROW_2| == |ROW_3| == |ROW_4| == |ROW_5| == |ROW_6| == |ROW_7| == 16
    ensures |ROW_8| == |ROW_9| == |ROW_A| == |ROW_B| == |ROW_C| == |ROW_D| == |ROW_E| == |ROW_F| == 16
  {
  }

  lemma TableSize()
    ensures |TABLE| == 256
  {
    RowSizes();
    hide ROW_0, ROW_1, ROW_2, ROW_3, ROW_4, ROW_5, ROW_6, ROW_7;
    hide ROW_8, ROW_9, ROW_A, ROW_B, ROW_C, ROW_D, ROW_E, ROW_F;
  }

  lemma Joined(a: seq<bv32>, b: seq<bv32>, c: seq<bv32>, d: seq<bv32>, n: nat, j: nat)
    requires |a| == |b| == |c| == |d| == n && j < n
    ensures |a + b + c + d| == 4 * n
    ensures (a + b + c + d)[j] == a[j] && (a + b + c + d)[n + j] == b[j]
    ensures (a + b + c + d)[2 * n + j] == c[j] && (a + b + c + d)[3 * n + j] == d[j]
  {
  }

  /** Entry `j` of each row of four. */
  lemma Quarter(quarter: seq<bv32>, a: seq<bv32>, b: seq<bv32>, c: seq<bv32>, d: seq<bv32>, j: nat)
    requires |a| == |b| == |c| == |d| == 16 && j < 16 && quarter == a + b + c + d
    ensures |quarter| == 64
    ensures quarter[j] == a[j] && quarter[16 + j] == b[j] && quarter[32 + j] == c[j] && quarter[48 + j] == d[j]
  {
    Joined(a, b, c, d, 16, j);
  }

  /** Entry `j` of each row, in the table. */
  lemma TableParts(j: nat)
    requires j < 16
    ensures |TABLE| == 256
    ensures |ROW_0| == 16 && TABLE[j] == ROW_0[j]
    ensures |ROW_1| == 16 && TABLE[16 + j] == ROW_1[j]
    ensures |ROW_2| == 16 && TABLE[32 + j] == ROW_2[j]
    ensures |ROW_3| == 16 && TABLE[48 + j] == ROW_3[j]
    ensures |ROW_4| == 16 && TABLE[64 + j] == ROW_4[j]
    ensures |ROW_5| == 16 && TABLE[80 + j] == ROW_5[j]
    ensures |ROW_6| == 16 && TABLE[96 + j] == ROW_6[j]
    ensures |ROW_7| == 16 && TABLE[112 + j] == ROW_7[j]
    ensures |ROW_8| == 16 && TABLE[128 + j] == ROW_8[j]
    ensures |ROW_9| == 16 && TABLE[144 + j] == ROW_9[j]
    ensures |ROW_A| == 16 && TABLE[160 + j] == ROW_A[j]
    ensures |ROW_B| == 16 && TABLE[176 + j] == ROW_B[j]
    ensures |ROW_C| == 16 && TABLE[192 + j] == ROW_C[j]
    ensures |ROW_D| == 16 && TABLE[208 + j] == ROW_D[j]
    ensures |ROW_E| == 16 && TABLE[224 + j] == ROW_E[j]
    ensures |ROW_F| == 16 && TABLE[240 + j] == ROW_F[j]
  {
    hide ROW_0, ROW_1, ROW_2, ROW_3, ROW_4, ROW_5, ROW_6, ROW_7;
    hide ROW_8, ROW_9, ROW_A, ROW_B, ROW_C, ROW_D, ROW_E, ROW_F;
    RowSizes();
    Quarter(QUARTER_0, ROW_0, ROW_1, ROW_2, ROW_3, j);
    Quarter(QUARTER_1, ROW_4, ROW_5, ROW_6, ROW_7, j);
    Quarter(QUARTER_2, ROW_8, ROW_9, ROW_A, ROW_B, j);
    Quarter(QUARTER_3, ROW_C, ROW_D, ROW_E, ROW_F, j);
    hide QUARTER_0, QUARTER_1, QUARTER_2, QUARTER_3;
    Joined(QUARTER_0, QUARTER_1, QUARTER_2, QUARTER_3, 64, j);
    Joined(QUARTER_0, QUARTER_1, QUARTER_2, QUARTER_3, 64, 16 + j);
    Joined(QUARTER_0, QUARTER_1, QUARTER_2, QUARTER_3, 64, 32 + j);
    Joined(QUARTER_0, QUARTER_1, QUARTER_2, QUARTER_3, 64, 48 + j);
    hide TABLE;
  }

  lemma TableRow(k: nat, j: nat)
    requires k < 16 && j < 16
    ensures |Row(k)| == 16 && 16 * k + j < |TABLE| && TABLE[16 * k + j] == Row(k)[j]
  {
    hide TABLE, QUARTER_0, QUARTER_1, QUARTER_2, QUARTER_3;
    hide ROW_0, ROW_1, ROW_2, ROW_3, ROW_4, ROW_5, ROW_6, ROW_7;
    hide ROW_8, ROW_9, ROW_A, ROW_B, ROW_C, ROW_D, ROW_E, ROW_F;
    TableParts(j);
    match k
    case 0 => assert Row(0) == ROW_0;
    case 1 => assert Row(1) == ROW_1;
    case 2 => assert Row(2) == ROW_2;
    case 3 => assert Row(3) == ROW_3;
    case 4 => assert Row(4) == ROW_4;
    case 5 => assert Row(5) == ROW_5;
    case 6 => assert Row(6) == ROW_6;
    case 7 => assert Row(7) == ROW_7;
    case 8 => assert Row(8) == ROW_8;
    case 9 => assert Row(9) == ROW_9;
    case 10 => assert Row(10) == ROW_A;
    case 11 => assert Row(11) == ROW_B;
    case 12 => assert Row(12) == ROW_C;
    case 13 => assert Row(13) == ROW_D;
    case 14 => assert Row(14) == ROW_E;
    case 15 => assert Row(15) == ROW_F;
  }

  lemma EntryRight(h: bv32, l: bv32)
    requires IsFirst(h) && IsNibble(l)
    ensures h as nat + l as nat < |TABLE| && TABLE[h as nat + l as nat] == Eight(Xor(h, l))
  {
    hide Row, TABLE, Eight, Xor, FirstOf;
    NibbleNat(l);
    var k := FirstNat(h);
    RowRight(k);
    TableRow(k, l as nat);
  }

  lemma IndexParts(x: bv32)
    requires x < 256
    ensures x as nat == ((x & 0xF0) as nat) + ((x & 0x0F) as nat)
    ensures Xor(x & 0xF0, x & 0x0F) == x && IsFirst(x & 0xF0) && IsNibble(x & 0x0F)
  {
  }

  /** Each entry of the table is what eight zero bits make of its index. */
  lemma TableRight(x: bv32)
    requires x < 256
    ensures x as nat < |TABLE| && TABLE[x as nat] == Eight(x)
  {
    hide TABLE, Eight, Xor, IsFirst, IsNibble;
    IndexParts(x);
    EntryRight(x & 0xF0, x & 0x0F);
  }

  // ---------------------------------------------------------------------------------------------
  // A byte at a time against a bit at a time

  /** The bits of `x` may as well be in the register before it shifts. */
  lemma FeedEarly(c: bv32, x: bv32)
    ensures Feed(Xor(c, x), false) == Xor(Feed(c, Odd(x)), Half(x))
  {
    hide Feed, Xor, Odd, Half;
    FeedIs(Xor(c, x), false);
    FeedIs(c, Odd(x));
    OddXor(c, x);
    HalfXor(c, x);
    XorSwap(Half(c), Half(x), POLYNOMIAL);
  }

  function Zeros(c: bv32, n: nat): bv32
    decreases n
  {
    if n == 0 then c else Zeros(Feed(c, false), n - 1)
  }

  function Drop(x: bv32, n: nat): bv32
    decreases n
  {
    if n == 0 then x else Drop(Half(x), n - 1)
  }

  lemma {:induction false} Early(c: bv32, x: bv32, n: nat)
    ensures Zeros(Xor(c, x), n) == Xor(Register(LowBits(x, n), c), Drop(x, n))
    decreases n
  {
    hide Xor, Feed, Odd, Half;
    if n > 0 {
      FeedEarly(c, x);
      var low := LowBits(x, n);
      assert low[1..] == LowBits(Half(x), n - 1);
      Early(Feed(c, Odd(x)), Half(x), n - 1);
    }
  }

  lemma EightZeros(c: bv32)
    ensures Zeros(c, 8) == Eight(c)
  {
    hide Feed;
    var d := Four(c);
    assert Zeros(d, 4) == Zeros(Feed(d, false), 3) == Zeros(Feed(Feed(d, false), false), 2) == Four(d);
    assert Zeros(c, 8) == Zeros(Feed(c, false), 7) == Zeros(Feed(Feed(c, false), false), 6) == Zeros(d, 4);
  }

  lemma {:induction false} DropOn(x: bv32, m: nat, n: nat)
    ensures Drop(x, m + n) == Drop(Drop(x, m), n)
    decreases m
  {
    hide Half;
    if m > 0 {
      DropOn(Half(x), m - 1, n);
    }
  }

  lemma DropFour(x: bv32)
    ensures Drop(x, 4) == x >> 4
  {
    var y := Half(Half(x));
    assert Drop(x, 4) == Drop(y, 2) == Half(Half(y)) by { hide Half; }
    Shifts(x);
  }

  lemma Shifts(x: bv32)
    ensures (((x >> 1) >> 1) >> 1) >> 1 == x >> 4
  {
  }

  lemma ByteDrops(x: bv32)
    requires x < 256
    ensures Drop(x, 8) == 0
  {
    DropOn(x, 4, 4);
    DropFour(x);
    DropFour(x >> 4);
    NoByte(x);
    hide Drop;
  }

  lemma NoByte(x: bv32)
    requires x < 256
    ensures (x >> 4) >> 4 == 0
  {
  }

  /** A register whose low byte is zero just shifts. */
  lemma HighByte(x: bv32)
    requires x & 0xFF == 0
    ensures Eight(x) == x >> 8
  {
    HighBits(x);
  }

  lemma HighBits(x: bv32)
    requires x & 0xFF == 0
    ensures x & 1 == 0 && (x >> 1) & 1 == 0 && (x >> 2) & 1 == 0 && (x >> 3) & 1 == 0
    ensures (x >> 4) & 1 == 0 && (x >> 5) & 1 == 0 && (x >> 6) & 1 == 0 && (x >> 7) & 1 == 0
    ensures (x >> 1) >> 1 == x >> 2 && (x >> 2) >> 1 == x >> 3 && (x >> 3) >> 1 == x >> 4 && (x >> 4) >> 1 == x >> 5
    ensures (x >> 5) >> 1 == x >> 6 && (x >> 6) >> 1 == x >> 7 && (x >> 7) >> 1 == x >> 8
  {
  }

  lemma Split(v: bv32)
    ensures Xor(v & 0xFF, v & 0xFFFFFF00) == v && (v & 0xFFFFFF00) & 0xFF == 0
    ensures (v & 0xFFFFFF00) >> 8 == v >> 8 && v & 0xFF < 256
  {
  }

  lemma ByteGone(c: bv32, b: bv32)
    requires b < 256
    ensures (c ^ b) >> 8 == c >> 8
  {
  }

  lemma LookupRight(v: bv32)
    ensures Lookup(v) == Eight(v & 0xFF)
  {
    Split(v);
    hide TABLE, Eight;
    TableRight(v & 0xFF);
  }

  lemma NextParts(byte: bv8, c: bv32)
    ensures
      var v := Xor(c, byte as bv32);
      Next(byte, c) == Xor(Lookup(v), v >> 8)
  {
    hide Lookup;
    ByteGone(c, byte as bv32);
  }

  /** One step through the table is eight steps of the register. */
  lemma NextIsEightSteps(byte: bv8, c: bv32)
    ensures Next(byte, c) == Register(LowBits(byte as bv32, 8), c)
  {
    hide Next, Lookup, Xor, Eight, Zeros, Drop, LowBits, Register;
    var x := byte as bv32;
    var v := Xor(c, x);
    NextParts(byte, c);
    LookupRight(v);
    Split(v);
    HighByte(v & 0xFFFFFF00);
    EightXor(v & 0xFF, v & 0xFFFFFF00);
    EightZeros(v);
    Early(c, x, 8);
    ByteDrops(x);
    XorZero(Register(LowBits(x, 8), c));
  }

  lemma XorZero(c: bv32)
    ensures Xor(c, 0) == c
  {
  }

  // ---------------------------------------------------------------------------------------------
  // Sequences of bytes

  lemma {:induction false} RegisterConcat(a: seq<bool>, b: seq<bool>, c: bv32)
    ensures Register(a + b, c) == Register(b, Register(a, c))
  {
    if a == [] {
      assert a + b == b;
    } else {
      assert (a + b)[1..] == a[1..] + b;
      RegisterConcat(a[1..], b, Feed(c, a[0]));
    }
  }

  lemma {:induction false} BitsConcat(a: seq<bv8>, b: seq<bv8>)
    ensures BitsOf(a + b) == BitsOf(a) + BitsOf(b)
  {
    hide LowBits;
    if a == [] {
      assert a + b == b;
    } else {
      assert (a + b)[1..] == a[1..] + b;
      BitsConcat(a[1..], b);
    }
  }

  lemma ByteStep(byte: bv8, rest: seq<bv8>, c: bv32)
    ensures Register(BitsOf([byte] + rest), c) == Register(BitsOf(rest), Next(byte, c))
  {
    hide Next;
    NextIsEightSteps(byte, c);
    assert ([byte] + rest)[1..] == rest;
    RegisterConcat(LowBits(byte as bv32, 8), BitsOf(rest), c);
  }

  lemma FinalIsIdentity(c: bv32)
    ensures Final(c) == c
  {
  }

  /** A value can be computed in pieces. */
  lemma Pieces(a: seq<bv8>, b: seq<bv8>, c: bv32)
    ensures Value(a + b, c) == Value(b, Value(a, c))
  {
    BitsConcat(a, b);
    RegisterConcat(BitsOf(a), BitsOf(b), c);
  }

  // ---------------------------------------------------------------------------------------------
  // Errors that are always detected

  const TOP: bv32 := 0x80000000

  lemma FeedReversible(a: bv32, b: bv32, bit: bool)
    requires Feed(a, bit) == Feed(b, bit)
    ensures a == b
  {
    FeedTop(a, bit);
    FeedTop(b, bit);
    Undo(a, b);
  }

  lemma Undo(a: bv32, b: bv32)
    requires a >> 1 == b >> 1 && (a & 1 == 1) == (b & 1 == 1)
    ensures a == b
  {
  }

  /** The highest bit of the register tells whether the polynomial went in. */
  lemma FeedTop(c: bv32, bit: bool)
    ensures Feed(c, bit) & TOP == if (c & 1 == 1) != bit then TOP else 0
    ensures c >> 1 == if Feed(c, bit) & TOP == TOP then Feed(c, bit) ^ POLYNOMIAL else Feed(c, bit)
  {
    ShiftTop(c);
  }

  lemma ShiftTop(c: bv32)
    ensures (c >> 1) & TOP == 0 && ((c >> 1) ^ POLYNOMIAL) & TOP == TOP
    ensures ((c >> 1) ^ POLYNOMIAL) ^ POLYNOMIAL == c >> 1
  {
  }

  lemma {:induction false} RegisterReversible(bits: seq<bool>, a: bv32, b: bv32)
    requires Register(bits, a) == Register(bits, b)
    ensures a == b
  {
    if bits != [] {
      hide Feed;
      RegisterReversible(bits[1..], Feed(a, bits[0]), Feed(b, bits[0]));
      FeedReversible(a, b, bits[0]);
    }
  }

  function And(a: bv32, b: bv32): bv32 {
    a & b
  }

  lemma ShiftAnd(a: bv32, b: bv32)
    ensures (a & b) >> 1 == (a >> 1) & (b >> 1)
  {
  }

  lemma HalfAnd(a: bv32, b: bv32)
    ensures Half(And(a, b)) == And(Half(a), Half(b))
  {
    ShiftAnd(a, b);
  }

  lemma {:induction false} DropAnd(a: bv32, b: bv32, n: nat)
    ensures Drop(And(a, b), n) == And(Drop(a, n), Drop(b, n))
    decreases n
  {
    hide And, Half;
    if n > 0 {
      HalfAnd(a, b);
      DropAnd(Half(a), Half(b), n - 1);
    }
  }

  lemma {:induction false} DropXor(a: bv32, b: bv32, n: nat)
    ensures Drop(Xor(a, b), n) == Xor(Drop(a, n), Drop(b, n))
    decreases n
  {
    hide Xor, Half;
    if n > 0 {
      HalfXor(a, b);
      DropXor(Half(a), Half(b), n - 1);
    }
  }

  lemma {:induction false} DropZero(n: nat)
    ensures Drop(0, n) == 0
  {
    if n > 0 {
      DropZero(n - 1);
    }
  }

  lemma DropTop()
    ensures Drop(TOP, 31) != 0
  {
    hide Drop;
    DropOn(TOP, 4, 27);
    DropOn(TOP >> 4, 4, 23);
    DropOn(TOP >> 8, 4, 19);
    DropOn(TOP >> 12, 4, 15);
    DropOn(TOP >> 16, 4, 11);
    DropOn(TOP >> 20, 4, 7);
    DropOn(TOP >> 24, 4, 3);
    DropFour(TOP);
    DropFour(TOP >> 4);
    DropFour(TOP >> 8);
    DropFour(TOP >> 12);
    DropFour(TOP >> 16);
    DropFour(TOP >> 20);
    DropFour(TOP >> 24);
    DropThree();
  }

  lemma DropThree()
    ensures Drop(8, 3) == 1
  {
  }

  /** The highest bit survives 31 shifts. */
  lemma TopKept(a: bv32, b: bv32, n: nat)
    requires n <= 31 && Drop(a, n) == Drop(b, n)
    ensures a & TOP == b & TOP
  {
    DropTop();
    DropOn(TOP, n, 31 - n);
    DropZero(31 - n);
    DropZero(n);
    DropAnd(a, TOP, n);
    DropAnd(b, TOP, n);
    OneBit(a);
    OneBit(b);
    hide Drop;
  }

  lemma OneBit(a: bv32)
    ensures And(a, TOP) == 0 || And(a, TOP) == TOP
  {
  }

  /** What a register was, but for its lowest bits, can be told from what it has become, whatever the bits were. */
  lemma {:induction false} Backward(u: seq<bool>, w: seq<bool>, a: bv32, b: bv32)
    requires |u| == |w| <= 32 && Register(u, a) == Register(w, b)
    ensures Drop(a, |u|) == Drop(b, |w|)
  {
    if u != [] {
      var n := |u| - 1;
      var a', b' := Feed(a, u[0]), Feed(b, w[0]);
      Backward(u[1..], w[1..], a', b');
      TopKept(a', b', n);
      FeedTop(a, u[0]);
      FeedTop(b, w[0]);
      DropXor(a', POLYNOMIAL, n);
      DropXor(b', POLYNOMIAL, n);
    }
  }

  /** Up to 32 bits that differ leave the register different. */
  lemma {:induction false} Burst(u: seq<bool>, w: seq<bool>, c: bv32)
    requires |u| == |w| <= 32 && u != w
    ensures Register(u, c) != Register(w, c)
  {
    if u[0] == w[0] {
      assert u == [u[0]] + u[1..] && w == [w[0]] + w[1..];
      Burst(u[1..], w[1..], Feed(c, u[0]));
    } else {
      FeedTop(c, u[0]);
      FeedTop(c, w[0]);
      var a, b := Feed(c, u[0]), Feed(c, w[0]);
      if Register(u, c) == Register(w, c) {
        Backward(u[1..], w[1..], a, b);
        TopKept(a, b, |u| - 1);
      }
    }
  }

  /** An error that is confined to 32 bits in a row always changes the value. */
  lemma BurstDetected(a: seq<bv8>, b: seq<bv8>, before: seq<bool>, u: seq<bool>, w: seq<bool>, after: seq<bool>,
                      c: bv32)
    requires BitsOf(a) == before + u + after && BitsOf(b) == before + w + after
    requires |u| == |w| <= 32 && u != w
    ensures Value(a, c) != Value(b, c)
  {
    var d := Register(before, c);
    RegisterConcat(before + u, after, c);
    RegisterConcat(before, u, c);
    RegisterConcat(before + w, after, c);
    RegisterConcat(before, w, c);
    Burst(u, w, d);
    if Value(a, c) == Value(b, c) {
      RegisterReversible(after, Register(u, d), Register(w, d));
    }
  }
}

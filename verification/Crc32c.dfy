/** Repeated application of a function, and the laws that iteration inherits from one step. */
module Iteration {

  function Iterate<T>(f: T -> T, x: T, n: nat): T
  {
    if n == 0 then x else f(Iterate(f, x, n - 1))
  }

  lemma {:induction false} IterateAdd<T>(f: T -> T, x: T, m: nat, n: nat)
    ensures Iterate(f, x, m + n) == Iterate(f, Iterate(f, x, m), n)
  {
    if n > 0 {
      IterateAdd(f, x, m, n - 1);
    }
  }

  lemma IterateFour<T>(f: T -> T, x: T)
    ensures Iterate(f, x, 4) == f(f(f(f(x))))
  {
    assert Iterate(f, x, 2) == f(f(x));
  }

  ghost predicate Commutative<T(!new)>(op: (T, T) -> T)
  {
    forall a, b :: op(a, b) == op(b, a)
  }

  ghost predicate Associative<T(!new)>(op: (T, T) -> T)
  {
    forall a, b, c :: op(op(a, b), c) == op(a, op(b, c))
  }

  lemma Interchange<T(!new)>(op: (T, T) -> T, a: T, b: T, c: T, d: T)
    requires Commutative(op) && Associative(op)
    ensures op(op(a, b), op(c, d)) == op(op(a, c), op(b, d))
  {
    calc {
      op(op(a, b), op(c, d));
      op(a, op(b, op(c, d)));
      op(a, op(op(b, c), d));
      op(a, op(op(c, b), d));
      op(a, op(c, op(b, d)));
      op(op(a, c), op(b, d));
    }
  }

  ghost predicate Linear<T(!new)>(f: T -> T, op: (T, T) -> T)
  {
    forall a, b :: f(op(a, b)) == op(f(a), f(b))
  }

  lemma {:induction false} IterateLinear<T(!new)>(f: T -> T, op: (T, T) -> T, x: T, y: T, n: nat)
    requires Linear(f, op)
    ensures Iterate(f, op(x, y), n) == op(Iterate(f, x, n), Iterate(f, y, n))
  {
    if n > 0 {
      IterateLinear(f, op, x, y, n - 1);
    }
  }

  ghost predicate Injective<T(!new)>(f: T -> T)
  {
    forall a, b :: f(a) == f(b) ==> a == b
  }

  lemma {:induction false} IterateInjective<T(!new)>(f: T -> T, x: T, y: T, n: nat)
    requires Injective(f) && Iterate(f, x, n) == Iterate(f, y, n)
    ensures x == y
  {
    if n > 0 {
      IterateInjective(f, x, y, n - 1);
    }
  }
}

/** CRC32C: the bit-at-a-time form, the table-driven form, and what the checksum detects. */
module Crc32c {
  import opened Iteration

  const POLY_LE: bv32 := 0x82F63B78

  // ---- definition, one bit at a time ----

  function Xor(a: bv32, b: bv32): bv32 { a ^ b }

  function Half(x: bv32): bv32 { x >> 1 }

  function Feedback(crc: bv32): bv32
  {
    if crc & 1 == 1 then POLY_LE else 0
  }

  function BitStep(crc: bv32): bv32
  {
    Xor(Half(crc), Feedback(crc))
  }

  function Shift(crc: bv32, n: nat): bv32
  {
    Iterate(BitStep, crc, n)
  }

  function ByteStep(crc: bv32, b: bv8): bv32
  {
    Shift(Xor(crc, b as bv32), 8)
  }

  /** The checksum of a message, starting from `seed`. */
  function Crc(seed: bv32, msg: seq<bv8>): bv32
  {
    if msg == [] then seed else ByteStep(Crc(seed, msg[..|msg| - 1]), msg[|msg| - 1])
  }

  /** crc32c_le as compiled with CRC_LE_BITS == 1. */
  method BitwiseCrc(seed: bv32, data: seq<bv8>) returns (crc: bv32)
    ensures crc == Crc(seed, data)
  {
    crc := seed;
    for k := 0 to |data|
      invariant crc == Crc(seed, data[..k])
    {
      assert data[..k + 1][..k] == data[..k];
      crc := BitwiseByte(crc, data[k]);
    }
    assert data[..|data|] == data;
  }

  /** The inner loop of the bitwise form. */
  method BitwiseByte(seed: bv32, b: bv8) returns (crc: bv32)
    ensures crc == ByteStep(seed, b)
  {
    crc := Xor(seed, b as bv32);
    var i := 0;
    while i < 8
      invariant i <= 8 && crc == Shift(Xor(seed, b as bv32), i)
    {
      crc := BitStep(crc);
      i := i + 1;
    }
  }

  // ---- the table ----

  /** crc32c_table, as sixteen rows of sixteen. */
  function TableRow(hi: bv32): (row: seq<bv32>)
    requires hi < 16
    ensures |row| == 16
  {
    match hi
    case 0 =>
      [0x00000000, 0xF26B8303, 0xE13B70F7, 0x1350F3F4, 0xC79A971F, 0x35F1141C, 0x26A1E7E8, 0xD4CA64EB,
       0x8AD958CF, 0x78B2DBCC, 0x6BE22838, 0x9989AB3B, 0x4D43CFD0, 0xBF284CD3, 0xAC78BF27, 0x5E133C24]
    case 1 =>
      [0x105EC76F, 0xE235446C, 0xF165B798, 0x030E349B, 0xD7C45070, 0x25AFD373, 0x36FF2087, 0xC494A384,
       0x9A879FA0, 0x68EC1CA3, 0x7BBCEF57, 0x89D76C54, 0x5D1D08BF, 0xAF768BBC, 0xBC267848, 0x4E4DFB4B]
    case 2 =>
      [0x20BD8EDE, 0xD2D60DDD, 0xC186FE29, 0x33ED7D2A, 0xE72719C1, 0x154C9AC2, 0x061C6936, 0xF477EA35,
       0xAA64D611, 0x580F5512, 0x4B5FA6E6, 0xB93425E5, 0x6DFE410E, 0x9F95C20D, 0x8CC531F9, 0x7EAEB2FA]
    case 3 =>
      [0x30E349B1, 0xC288CAB2, 0xD1D83946, 0x23B3BA45, 0xF779DEAE, 0x05125DAD, 0x1642AE59, 0xE4292D5A,
       0xBA3A117E, 0x4851927D, 0x5B016189, 0xA96AE28A, 0x7DA08661, 0x8FCB0562, 0x9C9BF696, 0x6EF07595]
    case 4 =>
      [0x417B1DBC, 0xB3109EBF, 0xA0406D4B, 0x522BEE48, 0x86E18AA3, 0x748A09A0, 0x67DAFA54, 0x95B17957,
       0xCBA24573, 0x39C9C670, 0x2A993584, 0xD8F2B687, 0x0C38D26C, 0xFE53516F, 0xED03A29B, 0x1F682198]
    case 5 =>
      [0x5125DAD3, 0xA34E59D0, 0xB01EAA24, 0x42752927, 0x96BF4DCC, 0x64D4CECF, 0x77843D3B, 0x85EFBE38,
       0xDBFC821C, 0x2997011F, 0x3AC7F2EB, 0xC8AC71E8, 0x1C661503, 0xEE0D9600, 0xFD5D65F4, 0x0F36E6F7]
    case 6 =>
      [0x61C69362, 0x93AD1061, 0x80FDE395, 0x72966096, 0xA65C047D, 0x5437877E, 0x4767748A, 0xB50CF789,
       0xEB1FCBAD, 0x197448AE, 0x0A24BB5A, 0xF84F3859, 0x2C855CB2, 0xDEEEDFB1, 0xCDBE2C45, 0x3FD5AF46]
    case 7 =>
      [0x7198540D, 0x83F3D70E, 0x90A324FA, 0x62C8A7F9, 0xB602C312, 0x44694011, 0x5739B3E5, 0xA55230E6,
       0xFB410CC2, 0x092A8FC1, 0x1A7A7C35, 0xE811FF36, 0x3CDB9BDD, 0xCEB018DE, 0xDDE0EB2A, 0x2F8B6829]
    case 8 =>
      [0x82F63B78, 0x709DB87B, 0x63CD4B8F, 0x91A6C88C, 0x456CAC67, 0xB7072F64, 0xA457DC90, 0x563C5F93,
       0x082F63B7, 0xFA44E0B4, 0xE9141340, 0x1B7F9043, 0xCFB5F4A8, 0x3DDE77AB, 0x2E8E845F, 0xDCE5075C]
    case 9 =>
      [0x92A8FC17, 0x60C37F14, 0x73938CE0, 0x81F80FE3, 0x55326B08, 0xA759E80B, 0xB4091BFF, 0x466298FC,
       0x1871A4D8, 0xEA1A27DB, 0xF94AD42F, 0x0B21572C, 0xDFEB33C7, 0x2D80B0C4, 0x3ED04330, 0xCCBBC033]
    case 10 =>
      [0xA24BB5A6, 0x502036A5, 0x4370C551, 0xB11B4652, 0x65D122B9, 0x97BAA1BA, 0x84EA524E, 0x7681D14D,
       0x2892ED69, 0xDAF96E6A, 0xC9A99D9E, 0x3BC21E9D, 0xEF087A76, 0x1D63F975, 0x0E330A81, 0xFC588982]
    case 11 =>
      [0xB21572C9, 0x407EF1CA, 0x532E023E, 0xA145813D, 0x758FE5D6, 0x87E466D5, 0x94B49521, 0x66DF1622,
       0x38CC2A06, 0xCAA7A905, 0xD9F75AF1, 0x2B9CD9F2, 0xFF56BD19, 0x0D3D3E1A, 0x1E6DCDEE, 0xEC064EED]
    case 12 =>
      [0xC38D26C4, 0x31E6A5C7, 0x22B65633, 0xD0DDD530, 0x0417B1DB, 0xF67C32D8, 0xE52CC12C, 0x1747422F,
       0x49547E0B, 0xBB3FFD08, 0xA86F0EFC, 0x5A048DFF, 0x8ECEE914, 0x7CA56A17, 0x6FF599E3, 0x9D9E1AE0]
    case 13 =>
      [0xD3D3E1AB, 0x21B862A8, 0x32E8915C, 0xC083125F, 0x144976B4, 0xE622F5B7, 0xF5720643, 0x07198540,
       0x590AB964, 0xAB613A67, 0xB831C993, 0x4A5A4A90, 0x9E902E7B, 0x6CFBAD78, 0x7FAB5E8C, 0x8DC0DD8F]
    case 14 =>
      [0xE330A81A, 0x115B2B19, 0x020BD8ED, 0xF0605BEE, 0x24AA3F05, 0xD6C1BC06, 0xC5914FF2, 0x37FACCF1,
       0x69E9F0D5, 0x9B8273D6, 0x88D28022, 0x7AB90321, 0xAE7367CA, 0x5C18E4C9, 0x4F48173D, 0xBD23943E]
    case _ =>
      [0xF36E6F75, 0x0105EC76, 0x12551F82, 0xE03E9C81, 0x34F4F86A, 0xC69F7B69, 0xD5CF889D, 0x27A40B9E,
       0x79B737BA, 0x8BDCB4B9, 0x988C474D, 0x6AE7C44E, 0xBE2DA0A5, 0x4C4623A6, 0x5F16D052, 0xAD7D5351]
  }

  function Table(i: bv32): bv32
    requires i < 0x100
  {
    TableRow(i >> 4)[(i & 0xF) as nat]
  }

  /** crc32c_le as compiled with CRC_LE_BITS == 8. */
  method TableCrc(seed: bv32, data: seq<bv8>) returns (crc: bv32)
    ensures crc == Crc(seed, data)
  {
    crc := seed;
    for k := 0 to |data|
      invariant crc == Crc(seed, data[..k])
    {
      assert data[..k + 1][..k] == data[..k];
      var i := (crc ^ (data[k] as bv32)) & 0xFF;
      TableIsShift(i, 8);
      TableStep(crc, data[k], Table(i), 8);
      crc := Xor(Table(i), crc >> 8);
    }
    assert data[..|data|] == data;
  }

  // ---- a bit step is linear over exclusive or, and injective ----

  lemma LowBit(x: bv32)
    ensures x & 1 == 0 || x & 1 == 1
  {
  }

  lemma FeedbackLinear(x: bv32, y: bv32)
    ensures Feedback(Xor(x, y)) == Xor(Feedback(x), Feedback(y))
  {
    assert (x ^ y) & 1 == (x & 1) ^ (y & 1);
    LowBit(x);
    LowBit(y);
  }

  lemma HalfLinear(x: bv32, y: bv32)
    ensures Half(Xor(x, y)) == Xor(Half(x), Half(y))
  {
  }

  lemma XorLaws()
    ensures Commutative(Xor) && Associative(Xor)
  {
    forall a, b
      ensures Xor(a, b) == Xor(b, a)
    {
    }
    forall a, b, c
      ensures Xor(Xor(a, b), c) == Xor(a, Xor(b, c))
    {
      XorAssociates(a, b, c);
    }
  }

  lemma XorAssociates(a: bv32, b: bv32, c: bv32)
    ensures Xor(Xor(a, b), c) == Xor(a, Xor(b, c))
  {
  }

  lemma BitStepLinear(x: bv32, y: bv32)
    ensures BitStep(Xor(x, y)) == Xor(BitStep(x), BitStep(y))
  {
    HalfLinear(x, y);
    FeedbackLinear(x, y);
    XorLaws();
    Interchange(Xor, Half(x), Feedback(x), Half(y), Feedback(y));
  }

  lemma BitStepIsLinear()
    ensures Linear(BitStep, Xor)
  {
    forall a, b
      ensures BitStep(Xor(a, b)) == Xor(BitStep(a), BitStep(b))
    {
      BitStepLinear(a, b);
    }
  }

  /** Shifting a sum (exclusive or) is the sum of the shifts. */
  lemma ShiftLinear(x: bv32, y: bv32, n: nat)
    ensures Shift(Xor(x, y), n) == Xor(Shift(x, n), Shift(y, n))
  {
    BitStepIsLinear();
    IterateLinear(BitStep, Xor, x, y, n);
  }

  /** The polynomial's top bit is set, so the bit shifted out can be read back off the top. */
  lemma BitStepInjective(x: bv32, y: bv32)
    requires BitStep(x) == BitStep(y)
    ensures x == y
  {
  }

  lemma ShiftInjective(x: bv32, y: bv32, n: nat)
    requires Shift(x, n) == Shift(y, n)
    ensures x == y
  {
    assert Injective(BitStep) by {
      forall a, b | BitStep(a) == BitStep(b)
        ensures a == b
      {
        BitStepInjective(a, b);
      }
    }
    IterateInjective(BitStep, x, y, n);
  }

  // ---- bits above the low ones only move down ----

  lemma BitStepEven(x: bv32)
    requires x & 1 == 0
    ensures BitStep(x) == Half(x)
  {
  }

  lemma HalfFour(x: bv32)
    ensures Half(Half(Half(Half(x)))) == x >> 4
  {
  }

  lemma NibbleEven(x: bv32)
    requires x & 0xF == 0
    ensures x & 1 == 0 && Half(x) & 1 == 0 && Half(Half(x)) & 1 == 0 && Half(Half(Half(x))) & 1 == 0
  {
  }

  lemma ShiftFourHigh(x: bv32, n: nat)
    requires n == 4 && x & 0xF == 0
    ensures Shift(x, n) == Half(Half(Half(Half(x))))
  {
    NibbleEven(x);
    BitStepEven(x);
    BitStepEven(Half(x));
    BitStepEven(Half(Half(x)));
    BitStepEven(Half(Half(Half(x))));
    IterateFour(BitStep, x);
  }

  /** Eight steps move everything above the low byte down by a byte. */
  lemma ShiftEightHigh(x: bv32, n: nat)
    requires n == 8 && x & 0xFF == 0
    ensures Shift(x, n) == x >> 8
  {
    HalfFour(x);
    HalfFour(x >> 4);
    ShiftFourHigh(x, 4);
    ShiftFourHigh(x >> 4, 4);
    IterateAdd(BitStep, x, 4, 4);
  }

  // ---- every table entry is the eight-step image of its index ----

  /** A table row, given its first entry: row zero with that entry added. */
  function RowFrom(b: bv32): (row: seq<bv32>)
    ensures |row| == 16
    ensures forall i :: 0 <= i < 16 ==> row[i] == Xor(b, TableRow(0)[i])
  {
    var z := TableRow(0);
    [Xor(b, z[0]), Xor(b, z[1]), Xor(b, z[2]), Xor(b, z[3]),
     Xor(b, z[4]), Xor(b, z[5]), Xor(b, z[6]), Xor(b, z[7]),
     Xor(b, z[8]), Xor(b, z[9]), Xor(b, z[10]), Xor(b, z[11]),
     Xor(b, z[12]), Xor(b, z[13]), Xor(b, z[14]), Xor(b, z[15])]
  }

  lemma EightSteps(x: bv32)
    ensures Shift(x, 8) == BitStep(BitStep(BitStep(BitStep(BitStep(BitStep(BitStep(BitStep(x))))))))
  {
    IterateFour(BitStep, x);
    IterateFour(BitStep, Shift(x, 4));
    IterateAdd(BitStep, x, 4, 4);
  }

  lemma RowBase(hi: bv32)
    requires hi < 16
    ensures TableRow(hi)[0] == Shift(hi << 4, 8)
  {
    EightSteps(hi << 4);
  }

  lemma RowZero(lo: bv32)
    requires lo < 16
    ensures TableRow(0)[lo as nat] == Shift(lo, 8)
  {
    EightSteps(lo);
  }

  lemma Rows0(hi: bv32)
    requires 0 <= hi < 4
    ensures TableRow(hi) == RowFrom(TableRow(hi)[0])
  {
  }

  lemma Rows4(hi: bv32)
    requires 4 <= hi < 8
    ensures TableRow(hi) == RowFrom(TableRow(hi)[0])
  {
  }

  lemma Rows8(hi: bv32)
    requires 8 <= hi < 12
    ensures TableRow(hi) == RowFrom(TableRow(hi)[0])
  {
  }

  lemma Rows12(hi: bv32)
    requires 12 <= hi < 16
    ensures TableRow(hi) == RowFrom(TableRow(hi)[0])
  {
  }

  lemma Rows(hi: bv32)
    requires hi < 16
    ensures TableRow(hi) == RowFrom(TableRow(hi)[0])
  {
    if hi < 4 {
      Rows0(hi);
    } else if hi < 8 {
      Rows4(hi);
    } else if hi < 12 {
      Rows8(hi);
    } else {
      Rows12(hi);
    }
  }

  lemma SplitByte(i: bv32)
    requires i < 0x100
    ensures i == Xor((i >> 4) << 4, i & 0xF)
  {
  }

  /** The table holds, for every byte, the eight-step image of that byte. */
  lemma TableIsShift(i: bv32, n: nat)
    requires i < 0x100 && n == 8
    ensures Table(i) == Shift(i, n)
  {
    var hi, lo := i >> 4, i & 0xF;
    Rows(hi);
    RowBase(hi);
    RowZero(lo);
    ShiftLinear(hi << 4, lo, n);
    SplitByte(i);
  }

  lemma SplitWord(x: bv32)
    ensures x == Xor(x & 0xFF, x & 0xFFFF_FF00)
    ensures (x & 0xFFFF_FF00) & 0xFF == 0
    ensures (x & 0xFFFF_FF00) >> 8 == x >> 8
  {
  }

  lemma ShiftEightSplit(x: bv32, lo: bv32, hi: bv32, n: nat)
    requires n == 8 && x == Xor(lo, hi) && hi & 0xFF == 0
    ensures Shift(x, n) == Xor(Shift(lo, n), hi >> 8)
  {
    ShiftEightHigh(hi, n);
    ShiftLinear(lo, hi, n);
  }

  /** One table step is eight bit steps: `t` is the entry looked up for the low byte. */
  lemma TableStep(crc: bv32, b: bv8, t: bv32, n: nat)
    requires n == 8 && t == Shift((crc ^ (b as bv32)) & 0xFF, n)
    ensures Xor(t, crc >> 8) == ByteStep(crc, b)
  {
    var x := Xor(crc, b as bv32);
    SplitWord(x);
    HighUntouched(crc, b);
    ShiftEightSplit(x, x & 0xFF, x & 0xFFFF_FF00, n);
  }

  lemma HighUntouched(crc: bv32, b: bv8)
    ensures Xor(crc, b as bv32) >> 8 == crc >> 8
  {
  }

  // ---- what the checksum detects ----

  lemma {:induction false} CrcAppend(seed: bv32, a: seq<bv8>, b: seq<bv8>)
    ensures Crc(seed, a + b) == Crc(Crc(seed, a), b)
  {
    if b == [] {
      assert a + b == a;
    } else {
      assert (a + b)[..|a + b| - 1] == a + b[..|b| - 1];
      CrcAppend(seed, a, b[..|b| - 1]);
    }
  }

  lemma XorInjective(a: bv32, b: bv32, c: bv32)
    requires Xor(a, c) == Xor(b, c) || Xor(c, a) == Xor(c, b)
    ensures a == b
  {
    assert (a ^ c) ^ c == a && (b ^ c) ^ c == b;
  }

  /** Different register contents stay different under the same message. */
  lemma {:induction false} CrcInjectiveInSeed(s: bv32, t: bv32, msg: seq<bv8>)
    requires Crc(s, msg) == Crc(t, msg)
    ensures s == t
  {
    if msg != [] {
      var p, b := msg[..|msg| - 1], msg[|msg| - 1] as bv32;
      ShiftInjective(Xor(Crc(s, p), b), Xor(Crc(t, p), b), 8);
      XorInjective(Crc(s, p), Crc(t, p), b);
      CrcInjectiveInSeed(s, t, p);
    }
  }

  function Shl8(w: bv32): bv32 { w << 8 }

  /** The little-endian word of at most four bytes. */
  function Word(bs: seq<bv8>): bv32
  {
    if bs == [] then 0 else Xor(bs[0] as bv32, Shl8(Word(bs[1..])))
  }

  lemma WordSmall(bs: seq<bv8>)
    requires |bs| <= 3
    ensures |bs| == 0 ==> Word(bs) == 0
    ensures |bs| == 1 ==> Word(bs) < 0x100
    ensures |bs| == 2 ==> Word(bs) < 0x1_0000
    ensures Word(bs) < 0x100_0000
  {
    if bs != [] {
      WordSmall(bs[1..]);
    }
  }

  /** Feeding at most four bytes is adding their word to the register and shifting it out. */
  lemma {:induction false} CrcOfWord(s: bv32, bs: seq<bv8>, n: nat)
    requires |bs| <= 4 && n == 8
    decreases |bs|
    ensures Crc(s, bs) == Shift(Xor(s, Word(bs)), n * |bs|)
  {
    if bs == [] {
      XorZero(s);
    } else {
      var b, rest := bs[0], bs[1..];
      var t := ByteStep(s, b);
      CrcOfWord(t, rest, n);
      assert bs == [b] + rest;
      CrcOfWordCons(s, b, rest, t, n);
    }
  }

  lemma CrcOfWordCons(s: bv32, b: bv8, rest: seq<bv8>, t: bv32, n: nat)
    requires |rest| <= 3 && n == 8 && t == ByteStep(s, b)
    requires Crc(t, rest) == Shift(Xor(t, Word(rest)), n * |rest|)
    ensures Crc(s, [b] + rest) == Shift(Xor(s, Word([b] + rest)), n * |[b] + rest|)
  {
    CrcCons(s, b, rest);
    WordSmall(rest);
    WordCons(b, rest);
    CrcOfWordStep(s, b, Word(rest), n);
    ShiftOn(Xor(s, Word([b] + rest)), Xor(t, Word(rest)), n, n * |rest|, n * |[b] + rest|);
  }

  lemma ShiftOn(x: bv32, y: bv32, m: nat, n: nat, total: nat)
    requires Shift(x, m) == y && total == m + n
    ensures Shift(x, total) == Shift(y, n)
  {
    IterateAdd(BitStep, x, m, n);
  }

  lemma WordCons(b: bv8, rest: seq<bv8>)
    ensures Word([b] + rest) == Xor(b as bv32, Shl8(Word(rest)))
  {
    assert ([b] + rest)[1..] == rest;
  }

  lemma CrcCons(s: bv32, b: bv8, rest: seq<bv8>)
    ensures Crc(s, [b] + rest) == Crc(ByteStep(s, b), rest)
  {
    CrcAppend(s, [b], rest);
    assert [b][..0] == [];
  }

  lemma CrcOfWordStep(s: bv32, b: bv8, w: bv32, n: nat)
    requires n == 8 && w < 0x100_0000
    ensures Shift(Xor(s, Xor(b as bv32, Shl8(w))), n) == Xor(ByteStep(s, b), w)
  {
    ShiftedOut(w);
    XorAssociates(s, b as bv32, Shl8(w));
    ShiftEightHigh(Shl8(w), n);
    ShiftLinear(Xor(s, b as bv32), Shl8(w), n);
  }

  lemma XorZero(s: bv32)
    ensures Xor(s, 0) == s
  {
  }

  lemma ShiftedOut(w: bv32)
    requires w < 0x100_0000
    ensures Shl8(w) & 0xFF == 0 && Shl8(w) >> 8 == w
  {
  }

  lemma WordInjectiveStep(a: bv8, b: bv8, v: bv32, w: bv32)
    requires v < 0x100_0000 && w < 0x100_0000
    requires Xor(a as bv32, Shl8(v)) == Xor(b as bv32, Shl8(w))
    ensures a == b && v == w
  {
  }

  lemma {:induction false} WordInjective(a: seq<bv8>, b: seq<bv8>)
    requires |a| == |b| <= 4 && Word(a) == Word(b)
    ensures a == b
  {
    if a != [] {
      WordSmall(a[1..]);
      WordSmall(b[1..]);
      WordInjectiveStep(a[0], b[0], Word(a[1..]), Word(b[1..]));
      WordInjective(a[1..], b[1..]);
    }
  }

  lemma SameWindow(s: bv32, a: seq<bv8>, b: seq<bv8>)
    requires |a| == |b| <= 4 && Crc(s, a) == Crc(s, b)
    ensures a == b
  {
    CrcOfWord(s, a, 8);
    CrcOfWord(s, b, 8);
    ShiftInjective(Xor(s, Word(a)), Xor(s, Word(b)), 8 * |a|);
    XorInjective(Word(a), Word(b), s);
    WordInjective(a, b);
  }

  lemma CrcParts(seed: bv32, p: seq<bv8>, a: seq<bv8>, q: seq<bv8>)
    ensures Crc(seed, p + a + q) == Crc(Crc(Crc(seed, p), a), q)
  {
    CrcAppend(seed, p + a, q);
    CrcAppend(seed, p, a);
  }

  lemma SameBetween(seed: bv32, p: seq<bv8>, a: seq<bv8>, b: seq<bv8>, q: seq<bv8>)
    requires |a| == |b| <= 4 && Crc(seed, p + a + q) == Crc(seed, p + b + q)
    ensures a == b
  {
    CrcParts(seed, p, a, q);
    CrcParts(seed, p, b, q);
    CrcInjectiveInSeed(Crc(Crc(seed, p), a), Crc(Crc(seed, p), b), q);
    SameWindow(Crc(seed, p), a, b);
  }

  lemma SplitAround<T>(m: seq<T>, n: seq<T>, lo: nat, hi: nat)
    requires lo <= hi <= |m| == |n|
    requires forall i :: 0 <= i < |m| && !(lo <= i < hi) ==> m[i] == n[i]
    ensures m == m[..lo] + m[lo..hi] + m[hi..]
    ensures n == m[..lo] + n[lo..hi] + m[hi..]
  {
  }

  /** Two different messages of one length that agree outside four consecutive bytes never share a checksum. */
  lemma BurstDetected(seed: bv32, m: seq<bv8>, n: seq<bv8>, k: nat)
    requires |m| == |n| && m != n
    requires forall i :: 0 <= i < |m| && !(k <= i < k + 4) ==> m[i] == n[i]
    ensures Crc(seed, m) != Crc(seed, n)
  {
    var lo := if k <= |m| then k else |m|;
    var hi := if k + 4 <= |m| then k + 4 else |m|;
    SplitAround(m, n, lo, hi);
    if Crc(seed, m) == Crc(seed, n) {
      SameBetween(seed, m[..lo], m[lo..hi], n[lo..hi], m[hi..]);
    }
  }
}

/** The CRC-32 of `nmxp_crc32.c`: a table built by doubling, one byte a step. Proved
    equal to the CRC that RFC 1952, section 8, defines one bit at a time. */
module Crc32 {
  const POLYNOMIAL: bv32 := 0xedb8_8320
  const ONES: bv32 := 0xffff_ffff

  // ----- words --------------------------------------------------------------

  // Named, so that proofs can leave the bits of a word alone.
  function Xor(a: bv32, b: bv32): bv32 { a ^ b }

  function LowBit(b: bv32): bv32 { b & 1 }

  function Half(b: bv32): bv32 { b >> 1 }

  function LowByte(x: bv32): bv32 { x & 0xff }

  function HighBytes(x: bv32): bv32 { x & 0xffff_ff00 }

  // ----- the definition, one bit at a time ----------------------------------

  /** The register moves on by one bit. */
  function Shift(h: bv32): bv32 {
    (h >> 1) ^ (if h & 1 != 0 then POLYNOMIAL else 0)
  }

  /** The n low bits of `b` enter the register, the lowest first. */
  function FeedBits(c: bv32, b: bv32, n: nat): bv32
    decreases n
  {
    if n == 0 then c else FeedBits(Shift(Xor(c, LowBit(b))), Half(b), n - 1)
  }

  function FeedBytes(c: bv32, message: seq<bv8>): bv32
    decreases |message|
  {
    if message == [] then c else FeedBytes(FeedBits(c, message[0] as bv32, 8), message[1..])
  }

  /** CRC-32 of a message, continuing from the CRC `v` of what came before. */
  function Crc(v: bv32, message: seq<bv8>): bv32 {
    Xor(FeedBytes(Xor(v, ONES), message), ONES)
  }

  // ----- the shift is linear over xor ---------------------------------------

  function Shifts(h: bv32, n: nat): bv32
    decreases n
  {
    if n == 0 then h else Shifts(Shift(h), n - 1)
  }

  lemma ShiftCases(h: bv32)
    ensures h & 1 == 0 ==> Shift(h) == h >> 1
    ensures h & 1 != 0 ==> Shift(h) == (h >> 1) ^ POLYNOMIAL
  {
  }

  lemma HalvesXor(a: bv32, b: bv32)
    ensures (a ^ b) >> 1 == (a >> 1) ^ (b >> 1)
    ensures (a ^ b) & 1 == 0 <==> (a & 1 == 0 <==> b & 1 == 0)
  {
  }

  lemma XorRules(x: bv32, y: bv32, p: bv32)
    ensures (x ^ p) ^ (y ^ p) == x ^ y
    ensures (x ^ p) ^ y == (x ^ y) ^ p
    ensures x ^ (y ^ p) == (x ^ y) ^ p
  {
  }

  lemma ShiftXor(a: bv32, b: bv32)
    ensures Shift(Xor(a, b)) == Xor(Shift(a), Shift(b))
  {
    ShiftCases(a);
    ShiftCases(b);
    ShiftCases(a ^ b);
    HalvesXor(a, b);
    XorRules(a >> 1, b >> 1, POLYNOMIAL);
    hide Shift;
  }

  lemma {:induction false} ShiftsXor(a: bv32, b: bv32, n: nat)
    ensures Shifts(Xor(a, b), n) == Xor(Shifts(a, n), Shifts(b, n))
    decreases n
  {
    hide Shift, Xor;
    if n > 0 {
      ShiftXor(a, b);
      ShiftsXor(Shift(a), Shift(b), n - 1);
    }
  }

  lemma {:induction false} ShiftsPlus(h: bv32, n: nat, m: nat)
    ensures Shifts(Shifts(h, n), m) == Shifts(h, n + m)
    decreases n
  {
    hide Shift;
    if n > 0 {
      ShiftsPlus(Shift(h), n - 1, m);
    }
  }

  // ----- a byte at a time ---------------------------------------------------

  /** Only the n low bits of `b` are set. */
  predicate Within(b: bv32, n: nat)
    decreases n
  {
    if n == 0 then b == 0 else Within(Half(b), n - 1)
  }

  lemma LowBitApart(c: bv32, b: bv32)
    ensures Xor(Xor(c, LowBit(b)), b & 0xffff_fffe) == Xor(c, b)
  {
  }

  lemma RestShift(b: bv32)
    ensures Shift(b & 0xffff_fffe) == Half(b)
  {
  }

  /** One bit in and a shift is a shift with the bits above it already in. */
  lemma BitByBit(c: bv32, b: bv32)
    ensures Xor(Shift(Xor(c, LowBit(b))), Half(b)) == Shift(Xor(c, b))
  {
    hide Shift, Xor, LowBit, Half;
    LowBitApart(c, b);
    RestShift(b);
    ShiftXor(Xor(c, LowBit(b)), b & 0xffff_fffe);
  }

  /** Feeding bits one by one is the same as xor-ing them all in and then shifting. */
  lemma {:induction false} FeedIsShift(c: bv32, b: bv32, n: nat)
    requires Within(b, n)
    ensures FeedBits(c, b, n) == Shifts(Xor(c, b), n)
    decreases n
  {
    if n == 0 {
      assert Xor(c, b) == c;
    } else {
      hide Shift, Xor, LowBit, Half;
      BitByBit(c, b);
      FeedIsShift(Shift(Xor(c, LowBit(b))), Half(b), n - 1);
    }
  }

  lemma ByteWithin(b: bv8)
    ensures Within(b as bv32, 8)
  {
    var x := b as bv32;
    assert x >> 1 >> 1 >> 1 >> 1 >> 1 >> 1 >> 1 >> 1 == 0;
    assert Within(x >> 1 >> 1 >> 1 >> 1 >> 1 >> 1, 2);
    assert Within(x >> 1 >> 1 >> 1 >> 1, 4);
    assert Within(x >> 1 >> 1, 6);
  }

  function Down(h: bv32): bv32 { h >> 2 }

  lemma EvenShifts(h: bv32)
    requires h & 3 == 0
    ensures Shifts(h, 2) == Down(h)
  {
    ShiftCases(h);
    ShiftCases(h >> 1);
    hide Shift;
    assert Shifts(h, 2) == Shift(Shift(h));
  }

  lemma FourDowns(h: bv32)
    requires h & 0xff == 0
    ensures h & 3 == Down(h) & 3 == Down(Down(h)) & 3 == Down(Down(Down(h))) & 3 == 0
    ensures Down(Down(Down(Down(h)))) == h >> 8
  {
  }

  /** A register without low bits just moves down. */
  lemma HighShifts(h: bv32)
    requires h & 0xff == 0
    ensures Shifts(h, 8) == h >> 8
  {
    hide Shift, Shifts, Down;
    FourDowns(h);
    EvenShifts(h);
    EvenShifts(Down(h));
    EvenShifts(Down(Down(h)));
    EvenShifts(Down(Down(Down(h))));
    ShiftsPlus(h, 2, 2);
    ShiftsPlus(h, 4, 2);
    ShiftsPlus(h, 6, 2);
  }

  lemma LowByteApart(x: bv32)
    ensures x == Xor(LowByte(x), HighBytes(x))
    ensures HighBytes(x) & 0xff == 0
    ensures HighBytes(x) >> 8 == x >> 8
  {
  }

  /** The table step: look the low byte up, move the rest down. */
  lemma TableStep(x: bv32)
    ensures Shifts(x, 8) == Xor(Shifts(LowByte(x), 8), x >> 8)
  {
    hide Shifts, Xor, LowByte, HighBytes;
    LowByteApart(x);
    ShiftsXor(LowByte(x), HighBytes(x), 8);
    HighShifts(HighBytes(x));
  }

  lemma FeedByteIsTableStep(c: bv32, b: bv8)
    ensures FeedBits(c, b as bv32, 8) == Xor(Shifts(LowByte(Xor(c, b as bv32)), 8), c >> 8)
  {
    ByteWithin(b);
    ByteStaysLow(c, b);
    hide Shifts, Xor, LowByte, Within, FeedBits;
    FeedIsShift(c, b as bv32, 8);
    TableStep(Xor(c, b as bv32));
  }

  lemma ByteStaysLow(c: bv32, b: bv8)
    ensures Xor(c, b as bv32) >> 8 == c >> 8
  {
  }

  // ----- the table ----------------------------------------------------------

  /** Entry k of the table is right: k shifted out bit by bit. */
  ghost predicate Right(tab: array<bv32>, k: bv32)
    requires tab.Length == 256
    reads tab
  {
    k < 256 ==> InTable(k) && tab[k as int] == Shifts(k, 8)
  }

  ghost predicate InTable(k: bv32) { k as int < 256 }

  lemma Small(k: bv32)
    requires k < 256
    ensures k as int < 256
  {
  }

  lemma IndexInjective(a: bv32, b: bv32)
    requires a as int == b as int
    ensures a == b
  {
    assert (a as int) as bv32 == a;
    assert (b as int) as bv32 == b;
  }

  method SetEntry(tab: array<bv32>, k: bv32, v: bv32)
    requires tab.Length == 256 && k < 256
    modifies tab
    ensures InTable(k) && tab[k as int] == v
    ensures forall m: bv32 :: m != k && old(Right(tab, m)) ==> Right(tab, m)
  {
    Small(k);
    tab[k as int] := v;
    hide Shifts;
    forall m: bv32 | m != k && old(Right(tab, m)) ensures Right(tab, m) {
      if m < 256 {
        Small(m);
        if m as int == k as int {
          IndexInjective(m, k);
        }
      }
    }
  }

  /** The rounds of the table builder: i is 128, 64, ..., 1, and at last 0; the multiples
      of 2i are the numbers without a bit of the mask. */
  ghost predicate Round(i: bv32, mask: bv32) {
    && mask in {0xff, 0x7f, 0x3f, 0x1f, 0xf, 7, 3, 1, 0}
    && i == (mask + 1) >> 1
  }

  lemma NextRound(i: bv32, mask: bv32)
    requires Round(i, mask) && i != 0
    ensures Round(i >> 1, mask >> 1) && mask + 1 == 2 * i && (mask >> 1) + 1 == i
    ensures (2 * i) & 1 == 0 && (2 * i) >> 1 == i && (i >> 1) < i
  {
    assert i in {128, 64, 32, 16, 8, 4, 2, 1};
    if i == 128 {} else if i == 64 {} else if i == 32 {} else if i == 16 {}
    else if i == 8 {} else if i == 4 {} else if i == 2 {} else {}
  }

  lemma Multiples(i: bv32, mask: bv32, j: bv32)
    requires Round(i, mask) && i != 0 && j < 256 && j & mask == 0
    ensures j < i + j < 256 && (i + j) & mask != 0 && i + j == Xor(j, i)
    ensures j < j + 2 * i <= 256 && (j + 2 * i) & mask == 0
  {
  }

  lemma NoMultipleBetween(i: bv32, mask: bv32, j: bv32, k: bv32)
    requires Round(i, mask) && i != 0 && j < 256 && j & mask == 0
    requires j < k < j + 2 * i && k & (mask >> 1) == 0
    ensures k == i + j
  {
  }

  /** One more shift of h turns the entry of 2i into the entry of i. */
  lemma NextPower(i: bv32)
    requires (2 * i) & 1 == 0 && (2 * i) >> 1 == i
    ensures Shift(Shifts(2 * i, 8)) == Shifts(i, 8)
  {
    ShiftCases(2 * i);
    assert Shift(2 * i) == i;
    hide Shift;
    assert Shifts(2 * i, 8) == Shifts(i, 7);
    ShiftsPlus(i, 7, 1);
  }

  /** The slots of the multiples of 2i are right. */
  ghost predicate Done(tab: array<bv32>, mask: bv32)
    requires tab.Length == 256
    reads tab
  {
    forall k: bv32 :: k & mask == 0 ==> Right(tab, k)
  }

  /** The slots of the multiples of i below j are right. */
  ghost predicate DoneBelow(tab: array<bv32>, mask: bv32, j: bv32)
    requires tab.Length == 256
    reads tab
  {
    forall k: bv32 :: k < j && k & (mask >> 1) == 0 ==> Right(tab, k)
  }

  lemma SumEntry(i: bv32, mask: bv32, j: bv32)
    requires Round(i, mask) && i != 0 && j < 256 && j & mask == 0
    ensures Shifts(i + j, 8) == Xor(Shifts(j, 8), Shifts(i, 8))
  {
    Multiples(i, mask, j);
    hide Round, Xor, Shifts;
    ShiftsXor(j, i, 8);
  }

  lemma NextMultiple(tab: array<bv32>, i: bv32, mask: bv32, j: bv32)
    requires tab.Length == 256 && Round(i, mask) && i != 0 && j < 256 && j & mask == 0
    requires Right(tab, j) && Right(tab, i + j) && DoneBelow(tab, mask, j)
    ensures DoneBelow(tab, mask, j + 2 * i)
  {
    hide Right;
    forall k: bv32 | k < j + 2 * i && k & (mask >> 1) == 0 ensures Right(tab, k) {
      if j < k {
        NoMultipleBetween(i, mask, j, k);
      }
    }
  }

  /** The inner step: entry i + j from the entry j and h, the entry of i. */
  method PutSum(tab: array<bv32>, i: bv32, j: bv32, h: bv32, ghost mask: bv32)
    requires tab.Length == 256 && Round(i, mask) && i != 0 && j < 256 && j & mask == 0
    requires h == Shifts(i, 8) && Done(tab, mask) && DoneBelow(tab, mask, j)
    modifies tab
    ensures Done(tab, mask) && DoneBelow(tab, mask, j + 2 * i)
  {
    SumEntry(i, mask, j);
    Multiples(i, mask, j);
    Small(j);
    assert Right(tab, j);
    hide Shifts, Xor, Round;
    SetEntry(tab, i + j, Xor(tab[j as int], h));
    assert Right(tab, i + j);
    NextMultiple(tab, i, mask, j);
  }

  /** The inner loop: from the multiples of 2i to those of i. */
  method FillRound(tab: array<bv32>, i: bv32, h: bv32, ghost mask: bv32)
    requires tab.Length == 256 && Round(i, mask) && i != 0 && h == Shifts(i, 8) && Done(tab, mask)
    modifies tab
    ensures Done(tab, mask >> 1)
  {
    var j: bv32 := 0;
    NothingYet(tab, mask);
    hide Round, Done, DoneBelow, Shifts;
    while j < 256
      invariant j <= 256 && j & mask == 0
      invariant Done(tab, mask) && DoneBelow(tab, mask, j)
      decreases 256 - j
    {
      PutSum(tab, i, j, h, mask);
      Multiples(i, mask, j);
      j := j + 2 * i;
    }
    AllDone(tab, mask, j);
  }

  lemma NothingYet(tab: array<bv32>, mask: bv32)
    requires tab.Length == 256
    ensures DoneBelow(tab, mask, 0) && 0 & mask == 0
  {
  }

  lemma AllDone(tab: array<bv32>, mask: bv32, j: bv32)
    requires tab.Length == 256 && j >= 256 && DoneBelow(tab, mask, j)
    ensures Done(tab, mask >> 1)
  {
    hide Shifts, InTable;
  }

  /** crc32_init_table */
  method InitTable(tab: array<bv32>)
    requires tab.Length == 256
    modifies tab
    ensures forall k: bv32 :: Right(tab, k)
  {
    var h: bv32 := 1;
    SetEntry(tab, 0, 0);
    var i: bv32 := 128;
    ghost var mask: bv32 := 0xff;
    while i != 0
      invariant Round(i, mask) && h == Shifts(mask + 1, 8) && Done(tab, mask)
      decreases i
    {
      NextRound(i, mask);
      NextPower(i);
      h := Shift(h);
      FillRound(tab, i, h, mask);
      i := i >> 1;
      mask := mask >> 1;
    }
  }

  /** One byte by table. */
  method TableByte(tab: array<bv32>, c: bv32, b: bv8) returns (next: bv32)
    requires tab.Length == 256 && forall k: bv32 :: Right(tab, k)
    ensures next == FeedBits(c, b as bv32, 8)
  {
    var index := LowByte(Xor(c, b as bv32));
    LowByteSmall(Xor(c, b as bv32));
    Small(index);
    assert Right(tab, index);
    hide Shifts, FeedBits, Xor, LowByte;
    FeedByteIsTableStep(c, b);
    next := Xor(tab[index as int], c >> 8);
  }

  lemma LowByteSmall(x: bv32)
    ensures LowByte(x) < 256
  {
  }

  /** The loop over the message. */
  method FeedAll(tab: array<bv32>, start: bv32, s: seq<bv8>) returns (crc: bv32)
    requires tab.Length == 256 && forall k: bv32 :: Right(tab, k)
    ensures crc == FeedBytes(start, s)
  {
    hide FeedBits, FeedBytes, Right;
    crc := start;
    var i := 0;
    assert s[0..] == s;
    while i < |s|
      invariant i <= |s|
      invariant FeedBytes(crc, s[i..]) == FeedBytes(start, s)
    {
      FeedNext(crc, s, i);
      crc := TableByte(tab, crc, s[i]);
      i := i + 1;
    }
    FeedNothing(crc, s);
  }

  /** crc32: the table-driven CRC is the CRC that RFC 1952 defines bit by bit. */
  method Crc32(crc32val: bv32, s: seq<bv8>) returns (crc: bv32)
    ensures crc == Crc(crc32val, s)
  {
    var tab := new bv32[256];
    InitTable(tab);
    hide Right, FeedBytes, Xor;
    crc := Xor(crc32val, ONES);
    crc := FeedAll(tab, crc, s);
    crc := Xor(crc, ONES);
  }

  lemma FeedNext(c: bv32, s: seq<bv8>, i: nat)
    requires i < |s|
    ensures FeedBytes(c, s[i..]) == FeedBytes(FeedBits(c, s[i] as bv32, 8), s[i + 1..])
  {
    hide FeedBits;
    assert s[i..][1..] == s[i + 1..];
  }

  lemma FeedNothing(c: bv32, s: seq<bv8>)
    ensures FeedBytes(c, s[|s|..]) == c
  {
  }

  // ----- what follows for messages ------------------------------------------

  lemma {:induction false} FeedConcat(c: bv32, a: seq<bv8>, b: seq<bv8>)
    ensures FeedBytes(c, a + b) == FeedBytes(FeedBytes(c, a), b)
    decreases |a|
  {
    hide FeedBits;
    if a == [] {
      assert a + b == b;
    } else {
      FeedConcat(FeedBits(c, a[0] as bv32, 8), a[1..], b);
      assert (a + b)[1..] == a[1..] + b;
    }
  }

  lemma XorTwice(x: bv32)
    ensures Xor(Xor(x, ONES), ONES) == x
  {
  }

  /** A CRC can be continued: message parts may be fed one after the other. */
  lemma CrcConcat(v: bv32, a: seq<bv8>, b: seq<bv8>)
    ensures Crc(Crc(v, a), b) == Crc(v, a + b)
  {
    hide Xor;
    FeedConcat(Xor(v, ONES), a, b);
    XorTwice(FeedBytes(Xor(v, ONES), a));
  }

  lemma ShiftInjective(a: bv32, b: bv32)
    requires Shift(a) == Shift(b)
    ensures a == b
  {
  }

  lemma {:induction false} ShiftsInjective(a: bv32, b: bv32, n: nat)
    requires Shifts(a, n) == Shifts(b, n)
    ensures a == b
    decreases n
  {
    hide Shift;
    if n > 0 {
      ShiftsInjective(Shift(a), Shift(b), n - 1);
      ShiftInjective(a, b);
    }
  }

  lemma XorInjective(c: bv32, a: bv32, b: bv32)
    requires Xor(c, a) == Xor(c, b) || Xor(a, c) == Xor(b, c)
    ensures a == b
  {
  }

  lemma ByteInjective(c: bv32, d: bv32, x: bv8, y: bv8)
    requires FeedBits(c, x as bv32, 8) == FeedBits(d, y as bv32, 8)
    ensures Xor(c, x as bv32) == Xor(d, y as bv32)
  {
    hide FeedBits, Shifts, Xor, Within;
    ByteWithin(x);
    ByteWithin(y);
    FeedIsShift(c, x as bv32, 8);
    FeedIsShift(d, y as bv32, 8);
    ShiftsInjective(Xor(c, x as bv32), Xor(d, y as bv32), 8);
  }

  lemma {:induction false} FeedInjective(c: bv32, d: bv32, message: seq<bv8>)
    requires FeedBytes(c, message) == FeedBytes(d, message)
    ensures c == d
    decreases |message|
  {
    hide FeedBits, Xor;
    if message != [] {
      var b := message[0];
      FeedInjective(FeedBits(c, b as bv32, 8), FeedBits(d, b as bv32, 8), message[1..]);
      ByteInjective(c, d, b, b);
      XorInjective(b as bv32, c, d);
    }
  }

  lemma WideInjective(x: bv8, y: bv8)
    requires x as bv32 == y as bv32
    ensures x == y
  {
  }

  /** A message with one changed byte never keeps its CRC. */
  lemma ChangedByteIsDetected(v: bv32, a: seq<bv8>, x: bv8, y: bv8, b: seq<bv8>)
    requires x != y
    ensures Crc(v, a + [x] + b) != Crc(v, a + [y] + b)
  {
    hide FeedBits, Xor;
    var c := FeedBytes(Xor(v, ONES), a);
    FeedConcat(Xor(v, ONES), a + [x], b);
    FeedConcat(Xor(v, ONES), a + [y], b);
    FeedConcat(Xor(v, ONES), a, [x]);
    FeedConcat(Xor(v, ONES), a, [y]);
    OneByte(c, x);
    OneByte(c, y);
    if Crc(v, a + [x] + b) == Crc(v, a + [y] + b) {
      SameCrcSameByte(c, x, y, b);
    }
  }

  lemma OneByte(c: bv32, x: bv8)
    ensures FeedBytes(c, [x]) == FeedBits(c, x as bv32, 8)
  {
    hide FeedBits;
    assert FeedBytes(FeedBits(c, x as bv32, 8), []) == FeedBits(c, x as bv32, 8);
  }

  lemma SameCrcSameByte(c: bv32, x: bv8, y: bv8, b: seq<bv8>)
    requires Xor(FeedBytes(FeedBits(c, x as bv32, 8), b), ONES) == Xor(FeedBytes(FeedBits(c, y as bv32, 8), b), ONES)
    ensures x == y
  {
    hide FeedBits, FeedBytes, Xor;
    var cx, cy := FeedBits(c, x as bv32, 8), FeedBits(c, y as bv32, 8);
    XorInjective(ONES, FeedBytes(cx, b), FeedBytes(cy, b));
    FeedInjective(cx, cy, b);
    ByteInjective(c, c, x, y);
    XorInjective(c, x as bv32, y as bv32);
    WideInjective(x, y);
  }

  // ----- the polynomial -----------------------------------------------------

  /** The four bytes of a word, the lowest first. */
  function WordBytes(w: bv32): seq<bv8> {
    [(w & 0xff) as bv8, ((w >> 8) & 0xff) as bv8, ((w >> 16) & 0xff) as bv8, ((w >> 24) & 0xff) as bv8]
  }

  function NextByte(w: bv32): bv32 { w >> 8 }

  /** One byte fed is eight shifts of the register with the whole word xor-ed in; the rest
      of the word moves down. */
  lemma FeedLowByte(c: bv32, w: bv32)
    ensures Shifts(Xor(c, w), 8) == Xor(FeedBits(c, LowByte(w), 8), NextByte(w))
  {
    hide *;
    var low, high := LowByte(w), HighBytes(w);
    HighDown(w);
    ByteOf(w);
    FeedIsShift(c, low, 8);
    XorThree(c, low, high);
    ShiftsXor(Xor(c, low), high, 8);
  }

  lemma HighDown(w: bv32)
    ensures w == Xor(LowByte(w), HighBytes(w)) && Shifts(HighBytes(w), 8) == NextByte(w)
  {
    hide *;
    HighApart(w);
    HighMoves(HighBytes(w));
  }

  lemma HighApart(w: bv32)
    ensures w == Xor(LowByte(w), HighBytes(w))
    ensures LowByte(HighBytes(w)) == 0 && NextByte(HighBytes(w)) == NextByte(w)
  {
  }

  lemma HighMoves(h: bv32)
    requires LowByte(h) == 0
    ensures Shifts(h, 8) == NextByte(h)
  {
    HighShifts(h);
    hide Shifts;
  }

  lemma ByteOf(w: bv32)
    ensures Within(LowByte(w), 8) && ((w & 0xff) as bv8) as bv32 == LowByte(w)
  {
    var b := (w & 0xff) as bv8;
    ByteWithin(b);
    assert b as bv32 == w & 0xff;
  }

  lemma XorThree(a: bv32, b: bv32, c: bv32)
    ensures Xor(a, Xor(b, c)) == Xor(Xor(a, b), c)
  {
  }

  /** A word fed byte by byte, the lowest first, is the word xor-ed in and 32 shifts. */
  lemma FeedWord(c: bv32, w: bv32)
    ensures FeedBytes(c, WordBytes(w)) == Shifts(Xor(c, w), 32)
  {
    var w1, w2, w3 := NextByte(w), NextByte(NextByte(w)), NextByte(NextByte(NextByte(w)));
    WordFed(c, w);
    LastByte(w);
    hide *;
    var c1 := FeedBits(c, LowByte(w), 8);
    var c2 := FeedBits(c1, LowByte(w1), 8);
    var c3 := FeedBits(c2, LowByte(w2), 8);
    FeedLowByte(c, w);
    FeedLowByte(c1, w1);
    FeedLowByte(c2, w2);
    FeedLowByte(c3, w3);
    ShiftsPlus(Xor(c, w), 8, 24);
    ShiftsPlus(Xor(c1, w1), 8, 16);
    ShiftsPlus(Xor(c2, w2), 8, 8);
    XorZero(FeedBits(c3, LowByte(w3), 8));
  }

  lemma XorZero(c: bv32)
    ensures Xor(c, 0) == c
  {
  }

  lemma WordParts(w: bv32)
    ensures |WordBytes(w)| == 4 && WordBytes(w)[0] as bv32 == LowByte(w)
    ensures WordBytes(w)[1] as bv32 == LowByte(NextByte(w))
    ensures WordBytes(w)[2] as bv32 == LowByte(NextByte(NextByte(w)))
    ensures WordBytes(w)[3] as bv32 == LowByte(NextByte(NextByte(NextByte(w))))
  {
    assert (w >> 8) >> 8 == w >> 16 && (w >> 16) >> 8 == w >> 24;
    ByteOf(w);
    ByteOf(w >> 8);
    ByteOf(w >> 16);
    ByteOf(w >> 24);
  }

  lemma LastByte(w: bv32)
    ensures NextByte(NextByte(NextByte(NextByte(w)))) == 0
  {
  }

  lemma WordFed(c: bv32, w: bv32)
    ensures var w1, w2, w3 := NextByte(w), NextByte(NextByte(w)), NextByte(NextByte(NextByte(w)));
      FeedBytes(c, WordBytes(w)) ==
      FeedBits(FeedBits(FeedBits(FeedBits(c, LowByte(w), 8), LowByte(w1), 8), LowByte(w2), 8), LowByte(w3), 8)
  {
    WordParts(w);
    hide *;
    FeedFour(c, WordBytes(w));
  }

  lemma FeedFour(c: bv32, m: seq<bv8>)
    requires |m| == 4
    ensures FeedBytes(c, m) ==
            FeedBits(FeedBits(FeedBits(FeedBits(c, m[0] as bv32, 8), m[1] as bv32, 8), m[2] as bv32, 8),
                     m[3] as bv32, 8)
  {
    hide FeedBits;
    assert m == [m[0]] + [m[1]] + [m[2]] + [m[3]];
    FeedConcat(c, [m[0]] + [m[1]] + [m[2]], [m[3]]);
    FeedConcat(c, [m[0]] + [m[1]], [m[2]]);
    FeedConcat(c, [m[0]], [m[1]]);
    OneByte(c, m[0]);
    OneByte(FeedBytes(c, [m[0]]), m[1]);
    OneByte(FeedBytes(c, [m[0]] + [m[1]]), m[2]);
    OneByte(FeedBytes(c, [m[0]] + [m[1]] + [m[2]]), m[3]);
  }

  /** The residue of CRC-32: a message followed by its own CRC, the lowest byte first, has
      the same CRC whatever the message. */
  lemma Residue(v: bv32, m: seq<bv8>)
    ensures Crc(v, m + WordBytes(Crc(v, m))) == 0x2144_df1c
  {
    var r := FeedBytes(Xor(v, ONES), m);
    FeedConcat(Xor(v, ONES), m, WordBytes(Crc(v, m)));
    FeedWord(r, Xor(r, ONES));
    assert Xor(r, Xor(r, ONES)) == ONES;
    hide Shifts, FeedBytes, WordBytes;
    OnesShifted();
    assert Xor(0xdebb_20e3, ONES) == 0x2144_df1c;
  }

  /** Eight shifts, one by one. */
  lemma Eight(h0: bv32, h1: bv32, h2: bv32, h3: bv32, h4: bv32, h5: bv32, h6: bv32, h7: bv32, h8: bv32)
    requires Shift(h0) == h1 && Shift(h1) == h2 && Shift(h2) == h3 && Shift(h3) == h4
    requires Shift(h4) == h5 && Shift(h5) == h6 && Shift(h6) == h7 && Shift(h7) == h8
    ensures Shifts(h0, 8) == h8
  {
    hide Shift;
    ShiftsPlus(h0, 4, 4);
  }

  lemma OnesShifted()
    ensures Shifts(ONES, 32) == 0xdebb_20e3
  {
    hide Shifts;
    Eight(0xffff_ffff, 0x9247_7cdf, 0xa49b_3d4f, 0xbff5_1d87, 0xb242_0de3,
          0xb499_85d1, 0xb7f4_41c8, 0x5bfa_20e4, 0x2dfd_1072);
    Eight(0x2dfd_1072, 0x16fe_8839, 0xe6c7_c73c, 0x7363_e39e, 0x39b1_f1cf,
          0xf160_7bc7, 0x9508_bec3, 0xa73c_dc41, 0xbe26_ed00);
    Eight(0xbe26_ed00, 0x5f13_7680, 0x2f89_bb40, 0x17c4_dda0, 0x0be2_6ed0,
          0x05f1_3768, 0x02f8_9bb4, 0x017c_4dda, 0x00be_26ed);
    Eight(0x00be_26ed, 0xede7_9056, 0x76f3_c82b, 0xd6c1_6735, 0x86d8_30ba,
          0x436c_185d, 0xcc0e_8f0e, 0x6607_4787, 0xdebb_20e3);
    hide Shift;
    ShiftsPlus(0xffff_ffff, 8, 24);
    ShiftsPlus(0x2dfd_1072, 8, 16);
    ShiftsPlus(0xbe26_ed00, 8, 8);
  }

  /** The check value of CRC-32: the CRC of the text "123456789". */
  lemma CheckValue()
    ensures Crc(0, [0x31, 0x32, 0x33, 0x34, 0x35, 0x36, 0x37, 0x38, 0x39]) == 0xcbf4_3926
  {
    FirstFive();
    LastFour();
    hide FeedBits, FeedBytes;
    assert [0x31, 0x32, 0x33, 0x34, 0x35, 0x36, 0x37, 0x38, 0x39] == FIVE + FOUR;
    FeedConcat(ONES, FIVE, FOUR);
    assert Xor(0, ONES) == ONES && Xor(0x340b_c6d9, ONES) == 0xcbf4_3926;
  }

  const FIVE: seq<bv8> := [0x31, 0x32, 0x33, 0x34, 0x35]
  const FOUR: seq<bv8> := [0x36, 0x37, 0x38, 0x39]

  /** A byte fed, shift by shift. */
  lemma FeedEight(c: bv32, b: bv8, h0: bv32, h1: bv32, h2: bv32, h3: bv32, h4: bv32, h5: bv32, h6: bv32, h7: bv32,
                  h8: bv32)
    requires Xor(c, b as bv32) == h0
    requires Shift(h0) == h1 && Shift(h1) == h2 && Shift(h2) == h3 && Shift(h3) == h4
    requires Shift(h4) == h5 && Shift(h5) == h6 && Shift(h6) == h7 && Shift(h7) == h8
    ensures FeedBits(c, b as bv32, 8) == h8
  {
    hide Shift, Shifts, FeedBits, Xor;
    ByteWithin(b);
    FeedIsShift(c, b as bv32, 8);
    Eight(h0, h1, h2, h3, h4, h5, h6, h7, h8);
  }

  lemma FirstFive()
    ensures FeedBytes(ONES, FIVE) == 0x340a_c5e3
  {
    hide FeedBits, FeedBytes;
    FeedEight(0xffff_ffff, 0x31, 0xffff_ffce, 0x7fff_ffe7, 0xd247_7cd3, 0x849b_3d49,
              0xaff5_1d84, 0x57fa_8ec2, 0x2bfd_4761, 0xf846_2090, 0x7c23_1048);
    FeedEight(0x7c23_1048, 0x32, 0x7c23_107a, 0x3e11_883d, 0xf2b0_473e, 0x7958_239f,
              0xd114_92ef, 0x8532_ca57, 0xaf21_e60b, 0xba28_7025, 0xb0ac_bb32);
    FeedEight(0xb0ac_bb32, 0x33, 0xb0ac_bb01, 0xb5ee_dea0, 0x5af7_6f50, 0x2d7b_b7a8,
              0x16bd_dbd4, 0x0b5e_edea, 0x05af_76f5, 0xef6f_385a, 0x77b7_9c2d);
    FeedEight(0x77b7_9c2d, 0x34, 0x77b7_9c19, 0xd663_4d2c, 0x6b31_a696, 0x3598_d34b,
              0xf774_ea85, 0x9602_f662, 0x4b01_7b31, 0xc838_3eb8, 0x641c_1f5c);
    FeedEight(0x641c_1f5c, 0x35, 0x641c_1f69, 0xdfb6_8c94, 0x6fdb_464a, 0x37ed_a325,
              0xf64e_52b2, 0x7b27_2959, 0xd02b_178c, 0x6815_8bc6, 0x340a_c5e3);
    hide Shift;
    assert FIVE == [0x31] + FIVE[1..];
    FeedConcat(ONES, [0x31], FIVE[1..]);
    OneByte(ONES, 0x31);
    FeedFour(0x7c23_1048, FIVE[1..]);
  }

  lemma LastFour()
    ensures FeedBytes(0x340a_c5e3, FOUR) == 0x340b_c6d9
  {
    hide FeedBits, FeedBytes;
    FeedEight(0x340a_c5e3, 0x36, 0x340a_c5d5, 0xf7bd_e1ca, 0x7bde_f0e5, 0xd057_fb52,
              0x682b_fda9, 0xd9ad_7df4, 0x6cd6_befa, 0x366b_5f7d, 0xf68d_2c9e);
    FeedEight(0xf68d_2c9e, 0x37, 0xf68d_2ca9, 0x96fe_1574, 0x4b7f_0aba, 0x25bf_855d,
              0xff67_418e, 0x7fb3_a0c7, 0xd261_5343, 0x8488_2a81, 0xaffc_9660);
    FeedEight(0xaffc_9660, 0x38, 0xaffc_9658, 0x57fe_4b2c, 0x2bff_2596, 0x15ff_92cb,
              0xe747_4a45, 0x9e1b_2602, 0x4f0d_9301, 0xca3e_4aa0, 0x651f_2550);
    FeedEight(0x651f_2550, 0x39, 0x651f_2569, 0xdf37_1194, 0x6f9b_88ca, 0x37cd_c465,
              0xf65e_6112, 0x7b2f_3089, 0xd02f_1b64, 0x6817_8db2, 0x340b_c6d9);
    hide Shift;
    FeedFour(0x340a_c5e3, FOUR);
  }
}

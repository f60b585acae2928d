/** Packed bit buffers, most significant bit of each byte first, and the six bit symbols the
    Reed-Solomon codes keep in them. */
module Bits {
  import opened Gf64
  import opened Words

  function Mask(k: nat): (m: bv8)
    requires k < 8
  {
    match k
    case 0 => 0x80 case 1 => 0x40 case 2 => 0x20 case 3 => 0x10
    case 4 => 0x08 case 5 => 0x04 case 6 => 0x02 case _ => 0x01
  }

  predicate HasBit(x: bv8, k: nat)
    requires k < 8
  {
    x & Mask(k) != 0
  }

  function SetBit(x: bv8, k: nat, b: bool): bv8
    requires k < 8
  {
    if b then x | Mask(k) else x & !Mask(k)
  }

  lemma SetBitBits(x: bv8, p: nat, b: bool, q: nat)
    requires p < 8 && q < 8
    ensures HasBit(SetBit(x, p, b), q) == if p == q then b else HasBit(x, q)
  {}

  predicate BitAt(d: seq<bv8>, i: nat)
    requires i < 8 * |d|
  {
    HasBit(d[i / 8], i % 8)
  }

  /** The buffers agree on every bit outside [lo, hi). */
  ghost predicate SameOutside(d: seq<bv8>, e: seq<bv8>, lo: nat, hi: nat) {
    && |d| == |e|
    && forall j :: 0 <= j < 8 * |d| && !(lo <= j < hi) ==> BitAt(d, j) == BitAt(e, j)
  }

  lemma WrittenBits(d: seq<bv8>, i: nat, b: bool)
    requires i < 8 * |d|
    ensures var e := d[i / 8 := SetBit(d[i / 8], i % 8, b)];
            BitAt(e, i) == b && SameOutside(e, d, i, i + 1)
  {
    var e := d[i / 8 := SetBit(d[i / 8], i % 8, b)];
    forall j | 0 <= j < 8 * |d|
      ensures BitAt(e, j) == if j == i then b else BitAt(d, j)
    {
      SetBitBits(d[i / 8], i % 8, b, j % 8);
    }
  }

  method WriteBit(data: array<bv8>, i: nat, b: bool)
    requires i < 8 * data.Length
    modifies data
    ensures BitAt(data[..], i) == b && SameOutside(data[..], old(data[..]), i, i + 1)
  {
    ghost var d := data[..];
    WrittenBits(d, i, b);
    data[i / 8] := SetBit(data[i / 8], i % 8, b);
    assert data[..] == d[i / 8 := SetBit(d[i / 8], i % 8, b)];
  }

  function FromBits(b0: bool, b1: bool, b2: bool, b3: bool, b4: bool, b5: bool): Sym {
    (if b0 then 0x20 else 0) | (if b1 then 0x10 else 0) | (if b2 then 0x08 else 0)
    | (if b3 then 0x04 else 0) | (if b4 then 0x02 else 0) | (if b5 then 0x01 else 0)
  }

  predicate SymBit(s: Sym, k: nat)
    requires k < 6
  {
    HasBit(s as bv8, k + 2)
  }

  /** The six bit symbol at a bit offset. */
  function SymbolAt(d: seq<bv8>, offset: nat): Sym
    requires offset + 6 <= 8 * |d|
  {
    FromBits(BitAt(d, offset), BitAt(d, offset + 1), BitAt(d, offset + 2),
             BitAt(d, offset + 3), BitAt(d, offset + 4), BitAt(d, offset + 5))
  }

  /** The symbol at an offset is s exactly when the six bits there are those of s. */
  lemma SymbolBits(d: seq<bv8>, offset: nat, s: Sym)
    requires offset + 6 <= 8 * |d|
    ensures SymbolAt(d, offset) == s <==>
      && BitAt(d, offset) == SymBit(s, 0) && BitAt(d, offset + 1) == SymBit(s, 1)
      && BitAt(d, offset + 2) == SymBit(s, 2) && BitAt(d, offset + 3) == SymBit(s, 3)
      && BitAt(d, offset + 4) == SymBit(s, 4) && BitAt(d, offset + 5) == SymBit(s, 5)
  {
    FromToBits(s, BitAt(d, offset), BitAt(d, offset + 1), BitAt(d, offset + 2),
               BitAt(d, offset + 3), BitAt(d, offset + 4), BitAt(d, offset + 5));
  }

  lemma FromToBits(s: Sym, b0: bool, b1: bool, b2: bool, b3: bool, b4: bool, b5: bool)
    ensures FromBits(b0, b1, b2, b3, b4, b5) == s <==>
      && b0 == SymBit(s, 0) && b1 == SymBit(s, 1) && b2 == SymBit(s, 2)
      && b3 == SymBit(s, 3) && b4 == SymBit(s, 4) && b5 == SymBit(s, 5)
  {}

  // ---- Bits and symbols as numbers ----

  function Value(x: bv8): nat { x as nat }

  lemma Bit0(x: bv8)
    ensures HasBit(x, 0) <==> Binary(Value(x), 128) == 1
  {}

  lemma Bit1(x: bv8)
    ensures HasBit(x, 1) <==> Binary(Value(x), 64) == 1
  {}

  lemma Bit2(x: bv8)
    ensures HasBit(x, 2) <==> Binary(Value(x), 32) == 1
  {}

  lemma Bit3(x: bv8)
    ensures HasBit(x, 3) <==> Binary(Value(x), 16) == 1
  {}

  lemma Bit4(x: bv8)
    ensures HasBit(x, 4) <==> Binary(Value(x), 8) == 1
  {}

  lemma Bit5(x: bv8)
    ensures HasBit(x, 5) <==> Binary(Value(x), 4) == 1
  {}

  lemma Bit6(x: bv8)
    ensures HasBit(x, 6) <==> Binary(Value(x), 2) == 1
  {}

  lemma Bit7(x: bv8)
    ensures HasBit(x, 7) <==> Binary(Value(x), 1) == 1
  {}

  lemma ByteBit(x: bv8, k: nat)
    requires k < 8
    ensures HasBit(x, k) <==> Binary(Value(x), Pow2(7 - k)) == 1
  {
    SmallPowers();
    hide *;
    match k {
      case 0 => Bit0(x);
      case 1 => Bit1(x);
      case 2 => Bit2(x);
      case 3 => Bit3(x);
      case 4 => Bit4(x);
      case 5 => Bit5(x);
      case 6 => Bit6(x);
      case _ => Bit7(x);
    }
  }

  /** Bit i of a buffer is a binary digit of the value of its byte, most significant first. */
  lemma BitIsDigit(d: seq<bv8>, i: nat)
    requires i < 8 * |d|
    ensures BitAt(d, i) <==> d[i / 8] as nat / Pow2(7 - i % 8) % 2 == 1
  {
    ByteBit(d[i / 8], i % 8);
  }

  /** The buffer as one number, first byte most significant. */
  function BigEndian(d: seq<bv8>): nat {
    if d == [] then 0 else 256 * BigEndian(d[..|d| - 1]) + d[|d| - 1] as nat
  }

  lemma LowDigit(b: nat, x: nat, e: nat)
    requires e < 8
    ensures Binary(256 * b + x, Pow2(e)) == Binary(x, Pow2(e))
  {
    var m := Prod(Pow2(7 - e), b);
    ProdNonNegative(Pow2(7 - e), b);
    SplitByte(b, e);
    hide Pow2, Prod, Quot;
    DivAdd(Pow2(e), 2 * m, x);
    EvenPlus(m, Quot(x, Pow2(e)));
  }

  lemma SplitByte(b: nat, e: nat)
    requires e < 8
    ensures 256 * b == Prod(Pow2(e), 2 * Prod(Pow2(7 - e), b))
  {
    SmallPowers();
    PowerSum(e, 8 - e);
    assert Pow2(8 - e) == 2 * Pow2(7 - e);
    hide Pow2;
    ProdIs(256, b);
    hide Prod;
    TwiceProd(Pow2(7 - e), b);
    ProdAssociates(Pow2(e), Pow2(8 - e), b);
  }

  lemma ProdIs(a: int, b: int)
    ensures Prod(a, b) == a * b
  {}

  lemma EvenPlus(m: nat, y: nat)
    ensures (2 * m + y) % 2 == y % 2
  {}

  lemma HighDigit(b: nat, x: nat, e: nat)
    requires x < 256
    ensures Binary(256 * b + x, Pow2(e + 8)) == Binary(b, Pow2(e))
  {
    SmallPowers();
    PowerSum(8, e);
    ByteOff(b, x);
    ProdIs(256, Pow2(e));
    hide Pow2, Quot, Prod;
    DivDiv(256 * b + x, 256, Pow2(e));
  }

  lemma ByteOff(b: nat, x: nat)
    requires x < 256
    ensures Quot(256 * b + x, 256) == b
  {}

  /** And a digit of the number of the whole buffer. */
  lemma {:induction false} BitOfNumber(d: seq<bv8>, i: nat)
    requires i < 8 * |d|
    ensures BitAt(d, i) <==> Binary(BigEndian(d), Pow2(8 * |d| - 1 - i)) == 1
    decreases |d|
  {
    var n := |d| - 1;
    var b, x := BigEndian(d[..n]), Value(d[n]);
    NumberSnoc(d);
    hide HasBit, Pow2, Binary, BigEndian, Value;
    if i < 8 * n {
      BitOfNumber(d[..n], i);
      assert d[..n][i / 8] == d[i / 8];
      HighDigit(b, x, 8 * n - 1 - i);
    } else {
      assert i / 8 == n && 7 - i % 8 == 8 * |d| - 1 - i;
      ByteBit(d[n], i % 8);
      LowDigit(b, x, 7 - i % 8);
    }
  }

  lemma NumberSnoc(d: seq<bv8>)
    requires d != []
    ensures BigEndian(d) == 256 * BigEndian(d[..|d| - 1]) + Value(d[|d| - 1]) && Value(d[|d| - 1]) < 256
  {}

  function Digit(b: bool): nat { if b then 1 else 0 }

  lemma FromBitsValue(b0: bool, b1: bool, b2: bool, b3: bool, b4: bool, b5: bool)
    ensures FromBits(b0, b1, b2, b3, b4, b5) as nat ==
      32 * Digit(b0) + 16 * Digit(b1) + 8 * Digit(b2) + 4 * Digit(b3) + 2 * Digit(b4) + Digit(b5)
  {}

  /** The number of the six bits at an offset: the low six digits of the buffer's number without
      what is behind them. */
  function SixAt(d: seq<bv8>, offset: nat): nat
    requires offset + 6 <= 8 * |d|
  {
    BigEndian(d) / Pow2(8 * |d| - offset - 6) % 64
  }

  lemma DigitBit(n: nat, c: nat)
    requires c > 0
    ensures Binary(n, c) == 0 || Binary(n, c) == 1
  {}

  lemma DigitBelow(d: seq<bv8>, offset: nat, j: nat)
    requires offset + 6 <= 8 * |d| && j < 6
    ensures Digit(BitAt(d, offset + j)) == Binary(Quot(BigEndian(d), Pow2(8 * |d| - offset - 6)), Pow2(5 - j))
  {
    var s := 8 * |d| - offset - 6;
    BitOfNumber(d, offset + j);
    PowerSum(s, 5 - j);
    assert s + (5 - j) == 8 * |d| - 1 - (offset + j);
    DigitBit(BigEndian(d), Pow2(8 * |d| - 1 - (offset + j)));
    hide BitAt, Pow2, BigEndian, Quot;
    DivDiv(BigEndian(d), Pow2(s), Pow2(5 - j));
  }

  /** The number whose digits are the six bits at an offset. */
  function SixSum(d: seq<bv8>, offset: nat): nat
    requires offset + 6 <= 8 * |d|
  {
    32 * Digit(BitAt(d, offset)) + 16 * Digit(BitAt(d, offset + 1)) + 8 * Digit(BitAt(d, offset + 2))
    + 4 * Digit(BitAt(d, offset + 3)) + 2 * Digit(BitAt(d, offset + 4)) + Digit(BitAt(d, offset + 5))
  }

  lemma SymbolSum(d: seq<bv8>, offset: nat)
    requires offset + 6 <= 8 * |d|
    ensures SymbolAt(d, offset) as nat == SixSum(d, offset)
  {
    hide BitAt, Digit;
    FromBitsValue(BitAt(d, offset), BitAt(d, offset + 1), BitAt(d, offset + 2),
                  BitAt(d, offset + 3), BitAt(d, offset + 4), BitAt(d, offset + 5));
    hide FromBits;
  }

  lemma NumberSum(d: seq<bv8>, offset: nat)
    requires offset + 6 <= 8 * |d|
    ensures SixAt(d, offset) == SixSum(d, offset)
  {
    SmallPowers();
    hide Pow2, BigEndian, Digit, Binary, BitAt;
    var m := Quot(BigEndian(d), Pow2(8 * |d| - offset - 6));
    assert SixAt(d, offset) == m % 64;
    hide SixAt, Quot;
    DigitBelow(d, offset, 0);
    DigitBelow(d, offset, 1);
    DigitBelow(d, offset, 2);
    DigitBelow(d, offset, 3);
    DigitBelow(d, offset, 4);
    DigitBelow(d, offset, 5);
    SixDigits(m);
  }

  /** The symbol at an offset is that number. */
  lemma SymbolIsNumber(d: seq<bv8>, offset: nat)
    requires offset + 6 <= 8 * |d|
    ensures SymbolAt(d, offset) as nat == SixAt(d, offset)
  {
    SymbolSum(d, offset);
    NumberSum(d, offset);
    hide *;
  }

  /** bin2Hex: six bits as a number. */
  method Bin2Hex(input: array<bv8>, offset: nat) returns (output: Sym)
    requires offset + 6 <= 8 * input.Length
    ensures output == SymbolAt(input[..], offset) && output as nat == SixAt(input[..], offset)
  {
    var d := input[..];
    SymbolIsNumber(d, offset);
    hide SixAt;
    output := 0;
    output := output | if BitAt(d, offset) then 0x20 else 0;
    output := output | if BitAt(d, offset + 1) then 0x10 else 0;
    output := output | if BitAt(d, offset + 2) then 0x08 else 0;
    output := output | if BitAt(d, offset + 3) then 0x04 else 0;
    output := output | if BitAt(d, offset + 4) then 0x02 else 0;
    output := output | if BitAt(d, offset + 5) then 0x01 else 0;
  }

  /** hex2Bin: writes a symbol; the two are inverse, and no other bit moves. */
  method Hex2Bin(input: Sym, output: array<bv8>, offset: nat)
    requires offset + 6 <= 8 * output.Length
    modifies output
    ensures SymbolAt(output[..], offset) == input
    ensures SameOutside(output[..], old(output[..]), offset, offset + 6)
  {
    hide BitAt, SymBit, SymbolAt;
    WriteBit(output, offset, SymBit(input, 0));
    WriteBit(output, offset + 1, SymBit(input, 1));
    WriteBit(output, offset + 2, SymBit(input, 2));
    WriteBit(output, offset + 3, SymBit(input, 3));
    WriteBit(output, offset + 4, SymBit(input, 4));
    WriteBit(output, offset + 5, SymBit(input, 5));
    SymbolBits(output[..], offset, input);
  }

  /** The first n symbols of a buffer. */
  function Symbols(d: seq<bv8>, n: nat): (w: seq<Sym>)
    requires 6 * n <= 8 * |d|
    ensures |w| == n
    ensures forall i :: 0 <= i < n ==> w[i] == SymbolAt(d, 6 * i)
  {
    seq(n, i requires 0 <= i < n => SymbolAt(d, 6 * i))
  }

  /** The symbols are the groups of six binary digits of the buffer's number, from the front. */
  ghost predicate IsWordOf(w: seq<Sym>, d: seq<bv8>) {
    6 * |w| <= 8 * |d| && forall i :: 0 <= i < |w| ==> w[i] as nat == SixAt(d, 6 * i)
  }

  lemma SymbolsAreWord(d: seq<bv8>, n: nat)
    requires 6 * n <= 8 * |d|
    ensures IsWordOf(Symbols(d, n), d)
  {
    hide SymbolAt, SixAt;
    forall i | 0 <= i < n ensures Symbols(d, n)[i] as nat == SixAt(d, 6 * i) { SymbolIsNumber(d, 6 * i); }
  }

  lemma SymbolUnchanged(d: seq<bv8>, e: seq<bv8>, lo: nat, hi: nat, offset: nat)
    requires SameOutside(d, e, lo, hi) && offset + 6 <= 8 * |d| && (offset + 6 <= lo || hi <= offset)
    ensures SymbolAt(d, offset) == SymbolAt(e, offset)
  {}

  ghost predicate Holds(d: seq<bv8>, w: seq<Sym>, n: nat)
    requires n <= |w| && 6 * n <= 8 * |d|
  {
    forall k :: 0 <= k < n ==> SymbolAt(d, 6 * k) == w[k]
  }

  lemma HoldsNext(d: seq<bv8>, e: seq<bv8>, w: seq<Sym>, i: nat)
    requires i < |w| && 6 * i + 6 <= 8 * |d| && SameOutside(e, d, 6 * i, 6 * i + 6)
    requires Holds(d, w, i) && SymbolAt(e, 6 * i) == w[i]
    ensures Holds(e, w, i + 1)
  {
    hide BitAt, FromBits;
    forall k | 0 <= k < i ensures SymbolAt(e, 6 * k) == w[k] {
      SymbolUnchanged(e, d, 6 * i, 6 * i + 6, 6 * k);
    }
  }

  lemma SameOutsideJoins(d: seq<bv8>, e: seq<bv8>, f: seq<bv8>, m: nat, hi: nat)
    requires SameOutside(e, d, 0, m) && SameOutside(f, e, m, hi) && m <= hi
    ensures SameOutside(f, d, 0, hi)
  {}

  /** Packs a word of symbols into a buffer: exactly those symbols change. */
  method Pack(cw: seq<Sym>, data: array<bv8>)
    requires 6 * |cw| <= 8 * data.Length
    modifies data
    ensures Symbols(data[..], |cw|) == cw
    ensures SameOutside(data[..], old(data[..]), 0, 6 * |cw|)
  {
    ghost var start := data[..];
    assert SameOutside(start, start, 0, 0);
    hide SymbolAt, SameOutside;
    var offset := 0;
    for i := 0 to |cw|
      invariant offset == 6 * i
      invariant Holds(data[..], cw, i)
      invariant SameOutside(data[..], start, 0, 6 * i)
    {
      ghost var before := data[..];
      Hex2Bin(cw[i], data, offset);
      HoldsNext(before, data[..], cw, i);
      SameOutsideJoins(start, before, data[..], 6 * i, 6 * i + 6);
      offset := offset + 6;
    }
  }

  /** Equal symbols have equal bits. */
  lemma SameSymbolsSameBits(d: seq<bv8>, e: seq<bv8>, k: nat, hi: nat)
    requires SameOutside(e, d, 0, hi) && 6 * k <= 8 * |d| && 6 * k <= hi
    requires forall i :: 0 <= i < k ==> SymbolAt(d, 6 * i) == SymbolAt(e, 6 * i)
    ensures SameOutside(e, d, 6 * k, hi)
  {
    hide HasBit, FromBits, SymbolAt;
    forall j | 0 <= j < 6 * k ensures BitAt(d, j) == BitAt(e, j) {
      var i := j / 6;
      SymbolBits(d, 6 * i, SymbolAt(d, 6 * i));
      SymbolBits(e, 6 * i, SymbolAt(e, 6 * i));
      assert j == 6 * i + j % 6;
    }
  }
}

/**
  The Base32 encoder of account-identity.ts and its inverse, the decoding loop that the boundary
  tests of the API use to read the secret back. Both accumulate bits in a JavaScript number with
  `<<` and `|`, that is, in 32 bits: on long inputs the high bits fall off. The accumulator is
  modelled as the unsigned 32-bit residue; its sign never matters, because it is only read
  through `>>>` and a mask.

  What is proved is section 6 of RFC 4648: read as one bit stream, most significant bit first, the
  symbols are the bytes followed by fewer than five zero bits.
*/
module Base32 {
  import opened Prelude

  const ALPHABET := "ABCDEFGHIJKLMNOPQRSTUVWXYZ234567"
  const WORD := 0x1_0000_0000

  type Byte = b: int | 0 <= b < 256
  type Word = w: int | 0 <= w < WORD

  // ---- bit streams ----

  /** The low `width` bits of `n`, most significant first. */
  function Bits(n: nat, width: nat): (bits: seq<bool>)
    ensures |bits| == width
  {
    if width == 0 then [] else Bits(n / 2, width - 1) + [n % 2 == 1]
  }

  function ByteBits(bytes: seq<Byte>): (bits: seq<bool>)
    ensures |bits| == 8 * |bytes|
  {
    if bytes == [] then [] else ByteBits(Init(bytes)) + Bits(Last(bytes), 8)
  }

  /** The symbol of a five-bit value: `A`-`Z` for 0-25, `2`-`7` for 26-31. */
  function Symbol(v: nat): (c: char)
    requires v < 32
  {
    if v < 26 then 'A' + v as char else '2' + (v - 26) as char
  }

  /** The value of a symbol, or -1. */
  function IndexOf(c: char): (i: int)
    ensures -1 <= i < 32
    ensures i >= 0 ==> Symbol(i) == c
  {
    if 'A' <= c <= 'Z' then (c - 'A') as int
    else if '2' <= c <= '7' then (c - '2') as int + 26
    else -1
  }

  /** The alphabet string is the table of the symbols, each of them once. */
  lemma AlphabetTable(v: nat)
    requires v < 32
    ensures ALPHABET[v] == Symbol(v) && IndexOf(Symbol(v)) == v
  {
  }

  /** JavaScript's `s.indexOf(c)`: the first position, or -1. */
  function FirstIndex(s: string, c: char): (i: int)
    ensures i == -1 || (0 <= i < |s| && s[i] == c)
  {
    if s == [] then -1
    else if s[0] == c then 0
    else
      var i := FirstIndex(s[1..], c);
      if i < 0 then -1 else i + 1
  }

  lemma {:induction false} FirstIndexFinds(s: string, v: nat)
    requires v < |s| && forall i :: 0 <= i < v ==> s[i] != s[v]
    ensures FirstIndex(s, s[v]) == v
  {
    if v > 0 { FirstIndexFinds(s[1..], v - 1); }
  }

  /** Looking a character up in the alphabet string gives its value. */
  lemma LookupGivesValue(c: char)
    ensures FirstIndex(ALPHABET, c) == IndexOf(c)
  {
    var v := IndexOf(c);
    if v >= 0 {
      AlphabetTable(v);
      forall i | 0 <= i < v ensures ALPHABET[i] != ALPHABET[v] { AlphabetTable(i); }
      FirstIndexFinds(ALPHABET, v);
    } else {
      var i := FirstIndex(ALPHABET, c);
      if i >= 0 { AlphabetTable(i); }
    }
  }

  predicate InAlphabet(text: string) {
    forall k :: 0 <= k < |text| ==> IndexOf(text[k]) >= 0
  }

  function SymbolBits(text: string): (bits: seq<bool>)
    requires InAlphabet(text)
    ensures |bits| == 5 * |text|
  {
    if text == [] then [] else SymbolBits(Init(text)) + Bits(IndexOf(Last(text)), 5)
  }

  function Zeros(n: nat): (z: seq<bool>)
    ensures |z| == n && forall k :: 0 <= k < n ==> !z[k]
  {
    if n == 0 then [] else Zeros(n - 1) + [false]
  }

  /** Section 6 of RFC 4648 without padding characters. */
  predicate IsEncoding(bytes: seq<Byte>, text: string) {
    && InAlphabet(text)
    && |text| == (8 * |bytes| + 4) / 5
    && SymbolBits(text) == ByteBits(bytes) + Zeros(5 * |text| - 8 * |bytes|)
  }

  function Ones(n: nat): (o: seq<bool>)
    ensures |o| == n && forall k :: 0 <= k < n ==> o[k]
  {
    if n == 0 then [] else Ones(n - 1) + [true]
  }

  /**
    The bit stream that the decoder reads off a text: five bits a symbol. A character outside the
    alphabet sets all bits that are not yet written out as bytes, and its own five.
  */
  function DecodedBits(text: string): (bits: seq<bool>)
    ensures |bits| == 5 * |text|
  {
    if text == [] then []
    else
      var before, index := DecodedBits(Init(text)), IndexOf(Last(text));
      if index >= 0 then before + Bits(index, 5) else SetPending(before)
  }

  function SetPending(stream: seq<bool>): (bits: seq<bool>)
    ensures |bits| == |stream| + 5
  {
    stream[..|stream| - |stream| % 8] + Ones(|stream| % 8 + 5)
  }

  lemma {:induction false} DecodedSymbols(text: string)
    requires InAlphabet(text)
    ensures DecodedBits(text) == SymbolBits(text)
  {
    if text != [] { DecodedSymbols(Init(text)); }
  }

  /** The bytes are the whole octets at the front of the stream. */
  predicate IsDecoding(text: string, bytes: seq<Byte>) {
    && |bytes| == 5 * |text| / 8
    && ByteBits(bytes) <= DecodedBits(text)
  }

  // ---- bits of arithmetic ----

  lemma {:induction false} BitsOfSum(a: nat, b: nat, w: nat, k: nat)
    requires b < Pow2(k)
    ensures Bits(a * Pow2(k) + b, w + k) == Bits(a, w) + Bits(b, k)
    decreases k
  {
    if k > 0 {
      var n := a * Pow2(k) + b;
      assert n == 2 * (a * Pow2(k - 1)) + b;
      assert n / 2 == a * Pow2(k - 1) + b / 2 && n % 2 == b % 2;
      BitsOfSum(a, b / 2, w, k - 1);
      assert w + k - 1 == w + (k - 1);
      assert Bits(n, w + k) == Bits(n / 2, w + (k - 1)) + [n % 2 == 1];
    } else {
      assert Bits(a, w) + Bits(b, 0) == Bits(a, w);
    }
  }

  lemma {:induction false} BitsInjective(m: nat, n: nat, k: nat)
    requires m < Pow2(k) && n < Pow2(k) && Bits(m, k) == Bits(n, k)
    ensures m == n
  {
    if k > 0 {
      assert Last(Bits(m, k)) == Last(Bits(n, k));
      assert Init(Bits(m, k)) == Bits(m / 2, k - 1) && Init(Bits(n, k)) == Bits(n / 2, k - 1);
      BitsInjective(m / 2, n / 2, k - 1);
    }
  }

  /** Only the low `k` bits of a number show in `Bits(_, k)`. */
  lemma {:induction false} BitsIgnoreHigh(q: nat, r: nat, k: nat)
    ensures Bits(q * Pow2(k) + r, k) == Bits(r, k)
    decreases k
  {
    if k > 0 {
      var n := q * Pow2(k) + r;
      assert n == 2 * (q * Pow2(k - 1)) + r;
      assert n / 2 == q * Pow2(k - 1) + r / 2 && n % 2 == r % 2;
      BitsIgnoreHigh(q, r / 2, k - 1);
    }
  }

  lemma SmallPowers()
    ensures Pow2(0) == 1 && Pow2(1) == 2 && Pow2(2) == 4 && Pow2(3) == 8 && Pow2(4) == 16
    ensures Pow2(5) == 32 && Pow2(6) == 64 && Pow2(7) == 128 && Pow2(8) == 256
  {
    assert Pow2(3) == 8;
    assert Pow2(6) == 64;
  }

  lemma {:induction false} PowSum(a: nat, b: nat)
    ensures Pow2(a + b) == Pow2(a) * Pow2(b)
    decreases a
  {
    if a > 0 { PowSum(a - 1, b); }
  }

  lemma WordPower()
    ensures Pow2(32) == WORD
  {
    SmallPowers();
    PowSum(8, 8);
    PowSum(16, 16);
  }

  lemma DivMod(n: nat, p: nat)
    requires p > 0
    ensures n == (n / p) * p + n % p && n / p >= 0 && 0 <= n % p < p
  {
  }

  lemma MulAssoc(a: nat, b: nat, c: nat)
    ensures a * (b * c) == (a * b) * c
  {
  }

  /** Losing everything above bit 31 is invisible in the low 32 bits. */
  lemma WrapKeepsLowBits(n: nat, k: nat)
    requires k <= 32
    ensures Bits(n % WORD, k) == Bits(n, k)
  {
    var q, r, h, p := n / WORD, n % WORD, Pow2(32 - k), Pow2(k);
    assert WORD == h * p by {
      WordPower();
      PowSum(32 - k, k);
    }
    DivMod(n, WORD);
    MulAssoc(q, h, p);
    assert n == (q * h) * p + r;
    BitsIgnoreHigh(q * h, r, k);
  }

  /** `(value << shift) | low`, in 32 bits, when `low` fits in the vacated bits. */
  function ShiftIn(value: Word, shift: nat, low: nat): (r: Word)
    requires low < Pow2(shift)
  {
    (value * Pow2(shift) + low) % WORD
  }

  /** `(value >>> shift) & (2^width - 1)` */
  function Field(value: Word, shift: nat, width: nat): (r: nat)
    ensures r < Pow2(width)
  {
    (value / Pow2(shift)) % Pow2(width)
  }

  lemma ShiftInBits(value: Word, held: nat, shift: nat, low: nat)
    requires low < Pow2(shift) && held + shift <= 32
    ensures Bits(ShiftIn(value, shift, low), held + shift) == Bits(value, held) + Bits(low, shift)
  {
    ShiftInLowBits(value, shift, low, held + shift);
    BitsOfSum(value, low, held, shift);
  }

  lemma ShiftInLowBits(value: Word, shift: nat, low: nat, k: nat)
    requires low < Pow2(shift) && k <= 32
    ensures value * Pow2(shift) + low >= 0
    ensures Bits(ShiftIn(value, shift, low), k) == Bits(value * Pow2(shift) + low, k)
  {
    NotNegative(value, Pow2(shift));
    WrapKeepsLowBits(value * Pow2(shift) + low, k);
  }

  lemma NotNegative(a: nat, b: nat)
    ensures a * b >= 0
  {
  }

  lemma LowBits(n: nat, k: nat)
    ensures Bits(n % Pow2(k), k) == Bits(n, k)
  {
    DivMod(n, Pow2(k));
    BitsIgnoreHigh(n / Pow2(k), n % Pow2(k), k);
  }

  lemma FieldBits(value: Word, held: nat, width: nat)
    requires width <= held
    ensures Bits(value, held) == Bits(Field(value, held - width, width), width) + Bits(value, held - width)
  {
    var k := held - width;
    var q, r := value / Pow2(k), value % Pow2(k);
    DivMod(value, Pow2(k));
    BitsOfSum(q, r, width, k);
    LowBits(value, k);
    LowBits(q, width);
    assert width + k == held;
  }

  lemma {:induction false} ZeroBits(k: nat)
    ensures Bits(0, k) == Zeros(k)
  {
    if k > 0 { ZeroBits(k - 1); }
  }

  lemma ConcatAssoc<T>(a: seq<T>, b: seq<T>, c: seq<T>)
    ensures a + (b + c) == (a + b) + c
  {
  }

  // ---- the two loops ----

  /** The symbols so far and the `bits` bits still held spell the stream. */
  ghost predicate Spells(output: string, value: Word, bits: nat, stream: seq<bool>) {
    InAlphabet(output) && SymbolBits(output) + Bits(value, bits) == stream
  }

  method Encode(bytes: seq<Byte>) returns (output: string)
    ensures IsEncoding(bytes, output)
  {
    var bits: nat := 0;
    var value: Word := 0;
    output := "";
    for i := 0 to |bytes|
      invariant bits < 5
      invariant Spells(output, value, bits, ByteBits(bytes[..i]))
    {
      AbsorbByte(output, bytes, i, value, bits);
      value := ShiftIn(value, 8, bytes[i]);
      bits := bits + 8;
      while bits >= 5
        invariant bits <= 12
        invariant Spells(output, value, bits, ByteBits(bytes[..i + 1]))
      {
        output := Emit(output, value, bits, ByteBits(bytes[..i + 1]));
        bits := bits - 5;
      }
    }
    assert bytes[..|bytes|] == bytes;
    if bits > 0 {
      PadBits(output, value, bits, ByteBits(bytes));
      output := Emit(output, ShiftIn(value, 5 - bits, 0), 5, ByteBits(bytes) + Zeros(5 - bits));
    }
  }

  lemma AbsorbByte(output: string, bytes: seq<Byte>, i: nat, value: Word, bits: nat)
    requires i < |bytes| && bits < 5
    requires Spells(output, value, bits, ByteBits(bytes[..i]))
    ensures bytes[i] < Pow2(8)
    ensures Spells(output, ShiftIn(value, 8, bytes[i]), bits + 8, ByteBits(bytes[..i + 1]))
  {
    SmallPowers();
    assert Init(bytes[..i + 1]) == bytes[..i];
    ShiftInBits(value, bits, 8, bytes[i]);
    ConcatAssoc(SymbolBits(output), Bits(value, bits), Bits(bytes[i], 8));
  }

  /** The final partial group is filled with zero bits on the right. */
  lemma PadBits(output: string, value: Word, bits: nat, stream: seq<bool>)
    requires 0 < bits < 5 && Spells(output, value, bits, stream)
    ensures Spells(output, ShiftIn(value, 5 - bits, 0), 5, stream + Zeros(5 - bits))
  {
    ShiftInBits(value, bits, 5 - bits, 0);
    ZeroBits(5 - bits);
    ConcatAssoc(SymbolBits(output), Bits(value, bits), Zeros(5 - bits));
  }

  /** Appends the symbol for the top five of the `bits` bits held in `value`. */
  method Emit(output: string, value: Word, bits: nat, ghost stream: seq<bool>) returns (r: string)
    requires bits >= 5 && Spells(output, value, bits, stream)
    ensures |r| == |output| + 1
    ensures Spells(r, value, bits - 5, stream)
  {
    var v := Field(value, bits - 5, 5);
    SpellsMore(output, value, bits, stream);
    AlphabetTable(v);
    r := output + [ALPHABET[v]];
  }

  lemma SpellsMore(output: string, value: Word, bits: nat, stream: seq<bool>)
    requires bits >= 5 && Spells(output, value, bits, stream)
    ensures Field(value, bits - 5, 5) < 32
    ensures Spells(output + [Symbol(Field(value, bits - 5, 5))], value, bits - 5, stream)
  {
    SmallPowers();
    var v := Field(value, bits - 5, 5);
    var r := output + [Symbol(v)];
    FieldBits(value, bits, 5);
    AlphabetTable(v);
    assert Init(r) == output;
    ConcatAssoc(SymbolBits(output), Bits(v, 5), Bits(value, bits - 5));
  }

  /** The bytes so far and the `bits` bits still held are the stream of the first `i` characters. */
  ghost predicate Reads(text: string, i: nat, bytes: seq<Byte>, value: Word, bits: nat)
    requires i <= |text|
  {
    DecodedBits(text[..i]) == ByteBits(bytes) + Bits(value, bits)
  }

  method Decode(text: string) returns (bytes: seq<Byte>)
    ensures IsDecoding(text, bytes)
  {
    var bits: nat := 0;
    var value: Word := 0;
    bytes := [];
    ReadsNothing(text);
    for i := 0 to |text|
      invariant bits < 8 && 5 * i == 8 * |bytes| + bits
      invariant Reads(text, i, bytes, value, bits)
    {
      bytes, value, bits := TakeSymbol(text, i, bytes, value, bits);
    }
    ReadsAll(text, bytes, value, bits);
  }

  /** The body of the loop. */
  method TakeSymbol(text: string, i: nat, bytes: seq<Byte>, value: Word, bits: nat)
    returns (more: seq<Byte>, word: Word, held: nat)
    requires i < |text| && bits < 8 && Reads(text, i, bytes, value, bits)
    ensures held < 8 && 8 * |more| + held == 8 * |bytes| + bits + 5
    ensures Reads(text, i + 1, more, word, held)
  {
    word := Absorb(text, i, bytes, value, bits);
    more, held := bytes, bits + 5;
    if held >= 8 {
      more := EmitByte(more, word, held, DecodedBits(text[..i + 1]));
      held := held - 8;
    }
  }

  lemma ReadsNothing(text: string)
    ensures Reads(text, 0, [], 0, 0)
  {
  }

  lemma ReadsAll(text: string, bytes: seq<Byte>, value: Word, bits: nat)
    requires Reads(text, |text|, bytes, value, bits) && 5 * |text| == 8 * |bytes| + bits && bits < 8
    ensures IsDecoding(text, bytes)
  {
    assert text[..|text|] == text;
  }

  /** Takes one character into the word. */
  method Absorb(text: string, i: nat, ghost bytes: seq<Byte>, value: Word, ghost bits: nat) returns (v: Word)
    requires i < |text| && bits < 8 && Reads(text, i, bytes, value, bits)
    ensures Reads(text, i + 1, bytes, v, bits + 5)
  {
    AbsorbCharacter(text, i, bytes, value, bits);
    LookupGivesValue(text[i]);
    v := OrIndex(value, FirstIndex(ALPHABET, text[i]));
  }

  /** `(value << 5) | index`; an index of -1 sets every bit. */
  function OrIndex(value: Word, index: int): Word
    requires -1 <= index < 32
  {
    SmallPowers();
    if index < 0 then WORD - 1 else ShiftIn(value, 5, index)
  }

  lemma {:induction false} AllOnes(k: nat)
    ensures Bits(Pow2(k) - 1, k) == Ones(k)
  {
    if k > 0 {
      assert (Pow2(k) - 1) / 2 == Pow2(k - 1) - 1 && (Pow2(k) - 1) % 2 == 1;
      AllOnes(k - 1);
    }
  }

  /** The low bits of the full word. */
  lemma FullWord(k: nat)
    requires k <= 32
    ensures Bits(WORD - 1, k) == Ones(k)
  {
    var h, p := Pow2(32 - k), Pow2(k);
    assert WORD == h * p by {
      WordPower();
      PowSum(32 - k, k);
    }
    OneLess(h, p);
    BitsIgnoreHigh(h - 1, p - 1, k);
    AllOnes(k);
  }

  lemma OneLess(h: nat, p: nat)
    requires h >= 1 && p >= 1
    ensures (h - 1) * p + (p - 1) == h * p - 1
  {
  }

  lemma AbsorbCharacter(text: string, i: nat, bytes: seq<Byte>, value: Word, bits: nat)
    requires i < |text| && bits < 8 && Reads(text, i, bytes, value, bits)
    ensures Reads(text, i + 1, bytes, OrIndex(value, IndexOf(text[i])), bits + 5)
  {
    SmallPowers();
    var index := IndexOf(text[i]);
    assert Init(text[..i + 1]) == text[..i];
    if index >= 0 {
      ShiftInBits(value, bits, 5, index);
      ConcatAssoc(ByteBits(bytes), Bits(value, bits), Bits(index, 5));
    } else {
      FullWord(bits + 5);
      PendingSet(ByteBits(bytes), Bits(value, bits));
    }
  }

  lemma PendingSet(whole: seq<bool>, held: seq<bool>)
    requires |whole| % 8 == 0 && |held| < 8
    ensures SetPending(whole + held) == whole + Ones(|held| + 5)
  {
    assert |whole + held| % 8 == |held|;
    assert (whole + held)[..|whole|] == whole;
  }

  /** Appends the top eight of the `bits` bits held in `value`. */
  method EmitByte(bytes: seq<Byte>, value: Word, bits: nat, ghost stream: seq<bool>) returns (r: seq<Byte>)
    requires bits >= 8 && stream == ByteBits(bytes) + Bits(value, bits)
    ensures |r| == |bytes| + 1
    ensures stream == ByteBits(r) + Bits(value, bits - 8)
  {
    SmallPowers();
    FieldBits(value, bits, 8);
    var byte: Byte := Field(value, bits - 8, 8);
    r := bytes + [byte];
    assert Init(r) == bytes;
    ConcatAssoc(ByteBits(bytes), Bits(byte, 8), Bits(value, bits - 8));
  }

  // ---- round trip ----

  lemma {:induction false} ByteBitsInjective(a: seq<Byte>, b: seq<Byte>)
    requires ByteBits(a) == ByteBits(b)
    ensures a == b
  {
    assert |a| == |b|;
    if a != [] {
      var n := 8 * (|a| - 1);
      assert ByteBits(a)[..n] == ByteBits(Init(a)) && ByteBits(b)[..n] == ByteBits(Init(b));
      assert ByteBits(a)[n..] == Bits(Last(a), 8) && ByteBits(b)[n..] == Bits(Last(b), 8);
      SmallPowers();
      BitsInjective(Last(a), Last(b), 8);
      ByteBitsInjective(Init(a), Init(b));
      assert a == Init(a) + [Last(a)] && b == Init(b) + [Last(b)];
    }
  }

  /** Whatever text encodes the bytes, decoding it gives the bytes back. */
  lemma DecodingInvertsEncoding(bytes: seq<Byte>, text: string, decoded: seq<Byte>)
    requires IsEncoding(bytes, text) && IsDecoding(text, decoded)
    ensures decoded == bytes
  {
    assert |decoded| == |bytes|;
    DecodedSymbols(text);
    assert ByteBits(decoded) == SymbolBits(text)[..8 * |bytes|] == ByteBits(bytes);
    ByteBitsInjective(decoded, bytes);
  }

  /** And every text one decoding, whatever its characters. */
  lemma DecodingUnique(text: string, a: seq<Byte>, b: seq<Byte>)
    requires IsDecoding(text, a) && IsDecoding(text, b)
    ensures a == b
  {
    assert ByteBits(a) == DecodedBits(text)[..8 * |a|] == ByteBits(b);
    ByteBitsInjective(a, b);
  }

  lemma {:induction false} SymbolBitsInjective(s: string, t: string)
    requires InAlphabet(s) && InAlphabet(t) && SymbolBits(s) == SymbolBits(t)
    ensures s == t
  {
    assert |s| == |t|;
    if s != [] {
      var n := 5 * (|s| - 1);
      assert SymbolBits(s)[..n] == SymbolBits(Init(s)) && SymbolBits(t)[..n] == SymbolBits(Init(t));
      assert SymbolBits(s)[n..] == Bits(IndexOf(Last(s)), 5) && SymbolBits(t)[n..] == Bits(IndexOf(Last(t)), 5);
      SmallPowers();
      BitsInjective(IndexOf(Last(s)), IndexOf(Last(t)), 5);
      SymbolBitsInjective(Init(s), Init(t));
      assert s == Init(s) + [Last(s)] && t == Init(t) + [Last(t)];
    }
  }

  /** The specification leaves no choice: a byte string has exactly one encoding. */
  lemma EncodingUnique(bytes: seq<Byte>, s: string, t: string)
    requires IsEncoding(bytes, s) && IsEncoding(bytes, t)
    ensures s == t
  {
    SymbolBitsInjective(s, t);
  }

  /** The secret shown to an authenticator app and read back. */
  method RoundTrip(bytes: seq<Byte>) returns (decoded: seq<Byte>)
    ensures decoded == bytes
  {
    var text := Encode(bytes);
    decoded := Decode(text);
    DecodingInvertsEncoding(bytes, text, decoded);
  }
}

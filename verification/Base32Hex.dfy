/**
 * Unpadded base32hex. Both directions move bits through a 32-bit buffer that is never masked: only its low `bits` bits
 * matter. The specification keeps exactly those as `pending`, and the numbers that digit strings and byte strings stand
 * for connect the two directions.
 */
module Base32Hex {
  import opened Wrappers
  import opened Dns

  // ---- Shifts ----

  function Shl(v: nat, n: nat): nat {
    if n == 0 then v else 2 * Shl(v, n - 1)
  }

  function Shr(v: nat, n: nat): nat {
    if n == 0 then v else Shr(v / 2, n - 1)
  }

  /** The low `n` bits. */
  function Low(v: nat, n: nat): nat {
    if n == 0 then 0 else 2 * Low(v / 2, n - 1) + v % 2
  }

  lemma {:induction false} ShlAdd(a: nat, b: nat, n: nat)
    ensures Shl(a + b, n) == Shl(a, n) + Shl(b, n)
  {
    if n > 0 {
      ShlAdd(a, b, n - 1);
    }
  }

  lemma {:induction false} ShlShl(v: nat, a: nat, b: nat)
    ensures Shl(Shl(v, a), b) == Shl(v, a + b)
    decreases b
  {
    if b > 0 {
      ShlShl(v, a, b - 1);
    }
  }

  lemma {:induction false} ShlLess(a: nat, b: nat, n: nat)
    requires a < b
    ensures Shl(a, n) + Shl(1, n) <= Shl(b, n)
  {
    if n > 0 {
      ShlLess(a, b, n - 1);
    }
  }

  lemma {:induction false} ShlZero(n: nat)
    ensures Shl(0, n) == 0
  {
    if n > 0 {
      ShlZero(n - 1);
    }
  }

  lemma {:induction false} Split(v: nat, n: nat)
    ensures v == Shl(Shr(v, n), n) + Low(v, n) && Low(v, n) < Shl(1, n)
  {
    if n > 0 {
      Split(v / 2, n - 1);
    }
  }

  lemma SplitUnique(x: nat, i: nat, y: nat, j: nat, n: nat)
    requires i < Shl(1, n) && j < Shl(1, n) && Shl(x, n) + i == Shl(y, n) + j
    ensures x == y && i == j
  {
    if x < y {
      ShlLess(x, y, n);
    } else if y < x {
      ShlLess(y, x, n);
    }
  }

  lemma SplitInto(v: nat, q: nat, r: nat, n: nat)
    requires v == Shl(q, n) + r && r < Shl(1, n)
    ensures Shr(v, n) == q && Low(v, n) == r
  {
    Split(v, n);
    SplitUnique(Shr(v, n), Low(v, n), q, r, n);
  }

  lemma LowOfLow(v: nat, m: nat, n: nat)
    requires n <= m
    ensures Low(Low(v, m), n) == Low(v, n)
  {
    var (h, l) := (Shr(v, m), Low(v, m));
    Split(v, m);
    Split(l, n);
    ShlShl(h, m - n, n);
    ShlAdd(Shl(h, m - n), Shr(l, n), n);
    SplitInto(v, Shl(h, m - n) + Shr(l, n), Low(l, n), n);
  }

  /** Shifting `x` in below `v`, and seen from the low bits of the result. */
  lemma ShiftIn(v: nat, x: nat, n: nat, k: nat)
    requires x < Shl(1, k)
    ensures Low(Shl(v, k) + x, n + k) == Shl(Low(v, n), k) + x
    ensures v < Shl(1, n) ==> Shl(v, k) + x < Shl(1, n + k)
  {
    var (h, l) := (Shr(v, n), Low(v, n));
    Split(v, n);
    ShlAdd(Shl(h, n), l, k);
    ShlShl(h, n, k);
    ShlShl(1, n, k);
    ShlLess(l, Shl(1, n), k);
    SplitInto(Shl(v, k) + x, h, Shl(l, k) + x, n + k);
    if v < Shl(1, n) {
      ShlLess(v, Shl(1, n), k);
    }
  }

  /** A window of `k` bits above the low `n`. */
  lemma Window(v: nat, n: nat, k: nat)
    ensures Shr(Low(v, n + k), n) == Low(Shr(v, n), k) && Low(Low(v, n + k), n) == Low(v, n)
    ensures v < Shl(1, n + k) ==> Shr(v, n) < Shl(1, k)
  {
    var (q, r) := (Shr(v, n), Low(v, n));
    var (h, l) := (Shr(q, k), Low(q, k));
    Split(v, n);
    Split(q, k);
    ShlAdd(Shl(h, k), l, n);
    ShlShl(h, k, n);
    ShlShl(1, k, n);
    ShlLess(l, Shl(1, k), n);
    SplitInto(v, h, Shl(l, n) + r, n + k);
    SplitInto(Shl(l, n) + r, l, r, n);
    ShlZero(k);
    if h > 0 {
      ShlLess(0, h, n + k);
    }
  }

  lemma Shl5(v: nat)
    ensures Shl(v, 5) == 32 * v
  {
    assert Shl(v, 1) == 2 * v;
    assert Shl(v, 3) == 8 * v;
  }

  lemma Shl8(v: nat)
    ensures Shl(v, 8) == 256 * v
  {
    Shl5(v);
    assert Shl(v, 7) == 128 * v;
  }

  /** `32 * v + d` and `256 * v + b` as shifts: sizes and values. */
  lemma TakeDigit(value: nat, pending: nat, bits: nat, d: nat)
    requires pending < Shl(1, bits) && d < 32
    ensures 32 * pending + d < Shl(1, bits + 5)
    ensures Shl(value, bits + 5) + (32 * pending + d) == 32 * (Shl(value, bits) + pending) + d
  {
    Shl5(1);
    Shl5(pending);
    Shl5(Shl(value, bits));
    ShiftIn(pending, d, bits, 5);
    ShlShl(value, bits, 5);
  }

  lemma TakeByte(value: nat, pending: nat, bits: nat, b: nat)
    requires pending < Shl(1, bits) && b < 256
    ensures 256 * pending + b < Shl(1, bits + 8)
    ensures Shl(value, bits + 8) + (256 * pending + b) == 256 * (Shl(value, bits) + pending) + b
  {
    Shl8(1);
    Shl8(pending);
    Shl8(Shl(value, bits));
    ShiftIn(pending, b, bits, 8);
    ShlShl(value, bits, 8);
  }

  /** Moving the top pending bits into the output leaves the number as it is. */
  lemma GiveByte(value: nat, pending: nat, rest: nat)
    requires pending < Shl(1, rest + 8)
    ensures Shr(pending, rest) < 256 && Low(pending, rest) < Shl(1, rest)
    ensures Shl(256 * value + Shr(pending, rest), rest) + Low(pending, rest) == Shl(value, rest + 8) + pending
  {
    Shl8(1);
    Shl8(value);
    Window(pending, rest, 8);
    Split(pending, rest);
    ShlAdd(Shl(value, 8), Shr(pending, rest), rest);
    ShlShl(value, 8, rest);
  }

  lemma GiveDigit(value: nat, pending: nat, rest: nat)
    requires pending < Shl(1, rest + 5)
    ensures Shr(pending, rest) < 32 && Low(pending, rest) < Shl(1, rest)
    ensures Shl(32 * value + Shr(pending, rest), rest) + Low(pending, rest) == Shl(value, rest + 5) + pending
  {
    Shl5(1);
    Shl5(value);
    Window(pending, rest, 5);
    Split(pending, rest);
    ShlAdd(Shl(value, 5), Shr(pending, rest), rest);
    ShlShl(value, 5, rest);
  }

  // ---- Digits and characters ----

  type Digit = x: nat | x < 32

  function DigitOf(b: Byte): Option<Digit> {
    if 48 <= b <= 57 then Some(b - 48)
    else if 97 <= b <= 118 then Some(b - 97 + 10)
    else if 65 <= b <= 86 then Some(b - 65 + 10)
    else None
  }

  function CharOf(d: Digit): Byte {
    if d < 10 then 48 + d else 97 + (d - 10)
  }

  function Chars(ds: seq<Digit>): seq<Byte> {
    seq(|ds|, i requires 0 <= i < |ds| => CharOf(ds[i]))
  }

  function LowerCased(s: seq<Byte>): seq<Byte> {
    seq(|s|, i requires 0 <= i < |s| => LowerCase(s[i]))
  }

  function Digits(s: seq<Byte>): Option<seq<Digit>> {
    if forall i | 0 <= i < |s| :: DigitOf(s[i]).Some?
    then Some(seq(|s|, i requires 0 <= i < |s| => DigitOf(s[i]).value))
    else None
  }

  /** Ten figures and twenty-two letters, printed in lower case. */
  lemma AlphabetIs(d: Digit)
    ensures CharOf(d) == "0123456789abcdefghijklmnopqrstuv"[d] as int
  {
  }

  /** They are read in either case: the other spelling of a letter is 32 below. */
  lemma ReadsEitherCase(b: Byte, d: Digit)
    ensures DigitOf(b) == Some(d) <==> b == CharOf(d) || (d >= 10 && b + 32 == CharOf(d))
  {
  }

  lemma CharsAreDigits(ds: seq<Digit>)
    ensures Digits(Chars(ds)) == Some(ds)
  {
    var s := Chars(ds);
    assert forall i | 0 <= i < |s| :: s[i] == CharOf(ds[i]) && DigitOf(s[i]) == Some(ds[i]);
    assert Digits(s).value == ds;
  }

  lemma DigitsAreChars(s: seq<Byte>)
    requires Digits(s).Some?
    ensures Chars(Digits(s).value) == LowerCased(s)
  {
  }

  // ---- The numbers strings stand for ----

  function DigitValue(s: seq<Digit>): nat {
    if s == [] then 0 else 32 * DigitValue(s[..|s| - 1]) + s[|s| - 1]
  }

  lemma {:induction false} BigEndianInjective(a: seq<Byte>, b: seq<Byte>)
    requires |a| == |b| && BigEndian(a) == BigEndian(b)
    ensures a == b
  {
    if a != [] {
      BigEndianInjective(a[..|a| - 1], b[..|b| - 1]);
      assert a == a[..|a| - 1] + [a[|a| - 1]] && b == b[..|b| - 1] + [b[|b| - 1]];
    }
  }

  lemma {:induction false} DigitValueInjective(a: seq<Digit>, b: seq<Digit>)
    requires |a| == |b| && DigitValue(a) == DigitValue(b)
    ensures a == b
  {
    if a != [] {
      DigitValueInjective(a[..|a| - 1], b[..|b| - 1]);
      assert a == a[..|a| - 1] + [a[|a| - 1]] && b == b[..|b| - 1] + [b[|b| - 1]];
    }
  }

  // ---- Decoding ----

  /** Bytes completed so far, and the `bits` bits not yet part of one. */
  datatype Decoding = Decoding(out: seq<Byte>, pending: nat, bits: nat)

  ghost predicate DecodingOk(st: Decoding) {
    st.bits < 8 && st.pending < Shl(1, st.bits)
  }

  ghost function DecodedValue(st: Decoding): nat {
    Shl(BigEndian(st.out), st.bits) + st.pending
  }

  ghost function BitCount(st: Decoding): nat {
    8 * |st.out| + st.bits
  }

  function DecodeDigit(st: Decoding, d: Digit): (st': Decoding)
    requires DecodingOk(st)
    ensures DecodingOk(st')
  {
    TakeDigit(0, st.pending, st.bits, d);
    var pending := 32 * st.pending + d;
    if st.bits + 5 < 8 then Decoding(st.out, pending, st.bits + 5)
    else
      var rest := st.bits + 5 - 8;
      GiveByte(0, pending, rest);
      Decoding(st.out + [Shr(pending, rest)], Low(pending, rest), rest)
  }

  lemma DecodeDigitValue(st: Decoding, d: Digit)
    requires DecodingOk(st)
    ensures DecodedValue(DecodeDigit(st, d)) == 32 * DecodedValue(st) + d
  {
    var (value, pending, bits) := (BigEndian(st.out), 32 * st.pending + d, st.bits + 5);
    TakeDigit(value, st.pending, st.bits, d);
    if bits < 8 {
      assert DecodeDigit(st, d) == Decoding(st.out, pending, bits);
    } else {
      var rest := bits - 8;
      DecodedByte(st.out, pending, rest);
      assert DecodeDigit(st, d) == Decoding(st.out + [Shr(pending, rest)], Low(pending, rest), rest);
    }
  }

  /** Moving a byte to the output leaves the value as it is. */
  lemma DecodedByte(out: seq<Byte>, pending: nat, rest: nat)
    requires pending < Shl(1, rest + 8)
    ensures Shr(pending, rest) < 256
    ensures DecodedValue(Decoding(out + [Shr(pending, rest)], Low(pending, rest), rest))
         == Shl(BigEndian(out), rest + 8) + pending
  {
    var value := BigEndian(out);
    GiveByte(value, pending, rest);
    var longer := out + [Shr(pending, rest)];
    assert longer[..|out|] == out;
    assert BigEndian(longer) == 256 * value + Shr(pending, rest);
  }

  function DecodeDigits(ds: seq<Digit>): (st: Decoding)
    ensures DecodingOk(st)
  {
    if ds == [] then Decoding([], 0, 0) else DecodeDigit(DecodeDigits(ds[..|ds| - 1]), ds[|ds| - 1])
  }

  lemma {:induction false} DecodeValue(ds: seq<Digit>)
    ensures DecodedValue(DecodeDigits(ds)) == DigitValue(ds)
  {
    if ds != [] {
      var st := DecodeDigits(ds[..|ds| - 1]);
      DecodeValue(ds[..|ds| - 1]);
      DecodeDigitValue(st, ds[|ds| - 1]);
      assert DecodeDigits(ds) == DecodeDigit(st, ds[|ds| - 1]);
      assert DigitValue(ds) == 32 * DigitValue(ds[..|ds| - 1]) + ds[|ds| - 1];
    }
  }

  lemma {:induction false} DecodeCount(ds: seq<Digit>)
    ensures BitCount(DecodeDigits(ds)) == 5 * |ds|
  {
    if ds != [] {
      var (init, last) := (ds[..|ds| - 1], ds[|ds| - 1]);
      DecodeCount(init);
      var st := DecodeDigits(init);
      DecodeDigitCount(st, last);
      assert 5 * |ds| == 5 * |init| + 5;
      assert DecodeDigits(ds) == DecodeDigit(st, last);
    }
  }

  lemma DecodeDigitCount(st: Decoding, d: Digit)
    requires DecodingOk(st)
    ensures BitCount(DecodeDigit(st, d)) == BitCount(st) + 5
  {
  }

  /** Leftover bits must be zero. */
  function Decode(s: seq<Byte>): Option<seq<Byte>> {
    match Digits(s)
    case None => None
    case Some(ds) =>
      var st := DecodeDigits(ds);
      if st.pending == 0 then Some(st.out) else None
  }

  // ---- Encoding ----

  datatype Encoding = Encoding(out: seq<Digit>, pending: nat, bits: nat)

  ghost predicate EncodingOk(st: Encoding) {
    st.pending < Shl(1, st.bits)
  }

  ghost function EncodedValue(st: Encoding): nat {
    Shl(DigitValue(st.out), st.bits) + st.pending
  }

  /** Emits digits while five bits are pending. */
  function Emit(st: Encoding): (st': Encoding)
    requires EncodingOk(st)
    ensures EncodingOk(st') && st'.bits < 5
    ensures EncodedValue(st') == EncodedValue(st)
    decreases st.bits
  {
    if st.bits < 5 then st
    else
      var rest := st.bits - 5;
      GiveDigit(DigitValue(st.out), st.pending, rest);
      assert (st.out + [Shr(st.pending, rest)])[..|st.out|] == st.out;
      Emit(Encoding(st.out + [Shr(st.pending, rest)], Low(st.pending, rest), rest))
  }

  function EncodeByte(st: Encoding, b: Byte): (st': Encoding)
    requires EncodingOk(st)
    ensures EncodingOk(st') && st'.bits < 5
  {
    TakeByte(0, st.pending, st.bits, b);
    Emit(Encoding(st.out, 256 * st.pending + b, st.bits + 8))
  }

  lemma EncodeBigEndian(st: Encoding, b: Byte)
    requires EncodingOk(st)
    ensures EncodedValue(EncodeByte(st, b)) == 256 * EncodedValue(st) + b
  {
    TakeByte(DigitValue(st.out), st.pending, st.bits, b);
  }

  lemma {:induction false} EmitCount(st: Encoding)
    requires EncodingOk(st)
    ensures 5 * |Emit(st).out| + Emit(st).bits == 5 * |st.out| + st.bits
    decreases st.bits
  {
    if st.bits >= 5 {
      var rest := st.bits - 5;
      GiveDigit(DigitValue(st.out), st.pending, rest);
      EmitCount(Encoding(st.out + [Shr(st.pending, rest)], Low(st.pending, rest), rest));
    }
  }

  lemma EncodeByteCount(st: Encoding, b: Byte, st': Encoding)
    requires EncodingOk(st) && st' == EncodeByte(st, b)
    ensures 5 * |st'.out| + st'.bits == 5 * |st.out| + st.bits + 8
  {
    var full := EncodeByteEmits(st, b);
    EmitCount(full);
  }

  lemma EncodeByteEmits(st: Encoding, b: Byte) returns (full: Encoding)
    requires EncodingOk(st)
    ensures EncodingOk(full) && EncodeByte(st, b) == Emit(full) && full.out == st.out && full.bits == st.bits + 8
  {
    TakeByte(0, st.pending, st.bits, b);
    full := Encoding(st.out, 256 * st.pending + b, st.bits + 8);
  }

  function EncodePrefix(input: seq<Byte>): (st: Encoding)
    ensures EncodingOk(st) && st.bits < 5
  {
    if input == [] then Encoding([], 0, 0) else EncodeByte(EncodePrefix(input[..|input| - 1]), input[|input| - 1])
  }

  lemma {:induction false} EncodeValue(input: seq<Byte>)
    ensures EncodedValue(EncodePrefix(input)) == BigEndian(input)
  {
    if input != [] {
      var st := EncodePrefix(input[..|input| - 1]);
      EncodeValue(input[..|input| - 1]);
      EncodeBigEndian(st, input[|input| - 1]);
    }
  }

  lemma {:induction false} EncodeCount(input: seq<Byte>)
    ensures 5 * |EncodePrefix(input).out| + EncodePrefix(input).bits == 8 * |input|
  {
    if input != [] {
      var st := EncodePrefix(input[..|input| - 1]);
      EncodeCount(input[..|input| - 1]);
      EncodeByteCount(st, input[|input| - 1], EncodePrefix(input));
    }
  }

  lemma PadDigit(value: nat, pending: nat, bits: nat, pad: nat)
    requires bits + pad == 5 && pending < Shl(1, bits)
    ensures Shl(pending, pad) < 32
    ensures 32 * value + Shl(pending, pad) == Shl(Shl(value, bits) + pending, pad)
  {
    Shl5(1);
    Shl5(value);
    ShlShl(1, bits, pad);
    ShlLess(pending, Shl(1, bits), pad);
    ShlAdd(Shl(value, bits), pending, pad);
    ShlShl(value, bits, pad);
  }

  function EncodeDigits(input: seq<Byte>): seq<Digit> {
    var st := EncodePrefix(input);
    if st.bits == 0 then st.out
    else
      PadDigit(DigitValue(st.out), st.pending, st.bits, 5 - st.bits);
      st.out + [Shl(st.pending, 5 - st.bits)]
  }

  function Encode(input: seq<Byte>): seq<Byte> {
    Chars(EncodeDigits(input))
  }

  lemma EncodeDigitsValue(input: seq<Byte>) returns (pad: nat)
    ensures pad < 5 && 5 * |EncodeDigits(input)| == 8 * |input| + pad
    ensures DigitValue(EncodeDigits(input)) == Shl(BigEndian(input), pad)
  {
    var st := EncodePrefix(input);
    EncodeCount(input);
    EncodeValue(input);
    pad := if st.bits == 0 then 0 else 5 - st.bits;
    if st.bits > 0 {
      PadDigit(DigitValue(st.out), st.pending, st.bits, pad);
      assert (st.out + [Shl(st.pending, pad)])[..|st.out|] == st.out;
    }
  }

  // ---- Round trips ----

  lemma DecodePadded(st: Decoding, input: seq<Byte>, pad: nat)
    requires DecodingOk(st) && st.bits == pad && |st.out| == |input|
    requires DecodedValue(st) == Shl(BigEndian(input), pad)
    ensures st.out == input && st.pending == 0
  {
    ShlLess(0, 1, pad);
    SplitUnique(BigEndian(st.out), st.pending, BigEndian(input), 0, pad);
    BigEndianInjective(st.out, input);
  }

  /** Decoding inverts encoding, at every length. */
  lemma DecodeInvertsEncode(input: seq<Byte>)
    ensures Decode(Encode(input)) == Some(input)
  {
    var pad := EncodeDigitsValue(input);
    var ds := EncodeDigits(input);
    CharsAreDigits(ds);
    DecodeValue(ds);
    DecodeCount(ds);
    var st := DecodeDigits(ds);
    SameLength(|st.out|, st.bits, |input|, pad);
    DecodePadded(st, input, pad);
  }

  /**
   * The decoder also accepts a spare digit of zero bits at the end. What it accepts is the encoding of the result, up
   * to case, exactly when fewer than five bits are left over.
   */
  lemma EncodeInvertsDecodeIff(s: seq<Byte>)
    requires Decode(s).Some?
    ensures Encode(Decode(s).value) == LowerCased(s) <==> 5 * |s| % 8 < 5
  {
    var ds := Digits(s).value;
    var out := Decode(s).value;
    DigitsAreChars(s);
    var pad := EncodeDigitsValue(out);
    DecodeValue(ds);
    DecodeCount(ds);
    var bits := DecodeDigits(ds).bits;
    var back := EncodeDigits(out);
    LengthsCompare(|s|, |out|, bits, |back|, pad);
    if bits < 5 {
      DigitValueInjective(back, ds);
    } else {
      assert |Chars(back)| == |back|;
    }
  }

  lemma SameLength(bytes: nat, bits: nat, bytes': nat, bits': nat)
    requires bits < 8 && bits' < 8 && 8 * bytes + bits == 8 * bytes' + bits'
    ensures bytes == bytes' && bits == bits'
  {
  }

  lemma LengthsCompare(digits: nat, bytes: nat, bits: nat, digits': nat, pad: nat)
    requires bits < 8 && pad < 5 && 8 * bytes + bits == 5 * digits && 5 * digits' == 8 * bytes + pad
    ensures 5 * digits % 8 == bits
    ensures if bits < 5 then pad == bits && digits' == digits else digits' < digits
  {
  }

  // ---- The buffer loop ----

  /** One more digit in the buffer: bits shifted out at the top of the word never reach the low ones. */
  lemma BufferStep(word: nat, buffer: nat, d: Digit, bits: nat)
    requires bits + 5 <= word
    ensures Low(Low(32 * buffer + d, word), bits + 5) == 32 * Low(buffer, bits) + d
  {
    Shl5(1);
    Shl5(buffer);
    Shl5(Low(buffer, bits));
    LowOfLow(32 * buffer + d, word, bits + 5);
    ShiftIn(buffer, d, bits, 5);
  }

  /** The decoding step on the buffer: the byte is read above the bits that remain. */
  lemma BufferDigit(word: nat, st: Decoding, buffer: nat, d: Digit)
    requires word >= 12 && DecodingOk(st) && st.pending == Low(buffer, st.bits)
    ensures var next := Low(32 * buffer + d, word);
            if st.bits + 5 < 8 then DecodeDigit(st, d) == Decoding(st.out, Low(next, st.bits + 5), st.bits + 5)
            else
              var rest := st.bits + 5 - 8;
              && Low(Shr(next, rest), 8) < 256
              && DecodeDigit(st, d) == Decoding(st.out + [Low(Shr(next, rest), 8)], Low(next, rest), rest)
  {
    BufferStep(word, buffer, d, st.bits);
    var next := Low(32 * buffer + d, word);
    if st.bits + 5 >= 8 {
      var rest := st.bits + 5 - 8;
      Shl8(1);
      Window(next, rest, 8);
      Split(Shr(next, rest), 8);
    }
  }

  method DecodeNoPad(input: seq<Byte>) returns (r: Option<seq<Byte>>)
    ensures r == Decode(input)
  {
    r := DecodeInBuffer(input, 32);
  }

  /** The decoding loop on a buffer of `word` bits; twelve would do. */
  method DecodeInBuffer(input: seq<Byte>, word: nat) returns (r: Option<seq<Byte>>)
    requires word >= 12
    ensures r == Decode(input)
  {
    var out: seq<Byte> := [];
    var buffer: nat := 0;
    var bits := 0;
    ghost var ds: seq<Digit> := [];
    assert Digits([]).value == ds;
    for i := 0 to |input|
      invariant Digits(input[..i]) == Some(ds)
      invariant bits < 8 && DecodeDigits(ds) == Decoding(out, Low(buffer, bits), bits)
    {
      var value := DigitOf(input[i]);
      if value.None? {
        return None;
      }
      BufferDigit(word, DecodeDigits(ds), buffer, value.value);
      ds := SnocDigit(input, i, ds, value.value);
      buffer := Low(32 * buffer + value.value, word);
      bits := bits + 5;
      if bits >= 8 {
        bits := bits - 8;
        out := out + [Low(Shr(buffer, bits), 8)];
      }
    }
    assert input[..|input|] == input;
    if bits > 0 && Low(buffer, bits) != 0 {
      return None;
    }
    return Some(out);
  }

  lemma SnocDigit(input: seq<Byte>, i: nat, ds: seq<Digit>, d: Digit) returns (ds': seq<Digit>)
    requires i < |input| && Digits(input[..i]) == Some(ds) && DigitOf(input[i]) == Some(d)
    ensures Digits(input[..i + 1]) == Some(ds')
    ensures DecodeDigits(ds') == DecodeDigit(DecodeDigits(ds), d)
  {
    ds' := ds + [d];
    assert ds'[..|ds' | - 1] == ds;
    var s := input[..i + 1];
    assert forall k | 0 <= k < i :: s[k] == input[..i][k];
    assert Digits(s).Some? && Digits(s).value == ds';
  }

  /** One digit zero decodes to no bytes, which encode to no digits. */
  lemma SpareDigit()
    ensures Decode([48]) == Some([]) && Encode([]) == []
  {
    assert DigitOf(48) == Some(0);
    assert Digits([48]).value == [0];
    assert [0][..0] == [];
    assert DecodeDigits([0]) == DecodeDigit(DecodeDigits([]), 0);
  }

  // ---- The encoding loop ----

  lemma BufferTakeByte(word: nat, buffer: nat, b: Byte, bits: nat)
    requires bits + 8 <= word
    ensures Low(Low(256 * buffer + b, word), bits + 8) == 256 * Low(buffer, bits) + b
  {
    Shl8(1);
    Shl8(buffer);
    Shl8(Low(buffer, bits));
    LowOfLow(256 * buffer + b, word, bits + 8);
    ShiftIn(buffer, b, bits, 8);
  }

  lemma BufferGiveDigit(buffer: nat, rest: nat)
    ensures Low(Shr(buffer, rest), 5) < 32
    ensures Shr(Low(buffer, rest + 5), rest) == Low(Shr(buffer, rest), 5)
    ensures Low(Low(buffer, rest + 5), rest) == Low(buffer, rest)
  {
    Shl5(1);
    Split(Shr(buffer, rest), 5);
    Window(buffer, rest, 5);
  }

  lemma BufferPadDigit(word: nat, buffer: nat, bits: nat, pad: nat)
    requires bits + pad == 5 <= word
    ensures Low(Low(Shl(buffer, pad), word), 5) == Shl(Low(buffer, bits), pad)
  {
    ShlLess(0, 1, pad);
    LowOfLow(Shl(buffer, pad), word, bits + pad);
    ShiftIn(buffer, 0, bits, pad);
  }

  method EmitDigits(given: seq<Digit>, buffer: nat, pending: nat) returns (out: seq<Digit>, bits: nat)
    requires EncodingOk(Encoding(given, Low(buffer, pending), pending))
    ensures Encoding(out, Low(buffer, bits), bits) == Emit(Encoding(given, Low(buffer, pending), pending))
  {
    out, bits := given, pending;
    while bits >= 5
      invariant EncodingOk(Encoding(out, Low(buffer, bits), bits))
      invariant Emit(Encoding(given, Low(buffer, pending), pending)) == Emit(Encoding(out, Low(buffer, bits), bits))
    {
      var rest := bits - 5;
      BufferGiveDigit(buffer, rest);
      Split(buffer, rest);
      out := out + [Low(Shr(buffer, rest), 5)];
      bits := rest;
    }
  }

  /** The encoding step on the buffer. */
  lemma BufferByte(word: nat, st: Encoding, buffer: nat, b: Byte, next: nat, full: nat)
    requires EncodingOk(st) && st.pending == Low(buffer, st.bits) && full == st.bits + 8 <= word
    requires next == Low(256 * buffer + b, word)
    ensures EncodingOk(Encoding(st.out, Low(next, full), full))
    ensures EncodeByte(st, b) == Emit(Encoding(st.out, Low(next, full), full))
  {
    BufferTakeByte(word, buffer, b, st.bits);
    TakeByte(0, st.pending, st.bits, b);
  }

  lemma SnocByte(input: seq<Byte>, i: nat)
    requires i < |input|
    ensures EncodePrefix(input[..i + 1]) == EncodeByte(EncodePrefix(input[..i]), input[i])
  {
    var longer := input[..i + 1];
    assert longer[..i] == input[..i] && longer[i] == input[i];
  }

  /** One round of the loop: a byte goes into the buffer, and digits come out. */
  method EncodeStep(word: nat, ghost st: Encoding, given: seq<Digit>, buffer: nat, pending: nat, b: Byte)
    returns (out: seq<Digit>, buffer': nat, bits: nat)
    requires word >= 12 && pending < 5 && EncodingOk(st) && st == Encoding(given, Low(buffer, pending), pending)
    ensures bits < 5 && Encoding(out, Low(buffer', bits), bits) == EncodeByte(st, b)
  {
    buffer' := Low(256 * buffer + b, word);
    BufferByte(word, st, buffer, b, buffer', pending + 8);
    out, bits := EmitDigits(given, buffer', pending + 8);
  }

  /** The encoding loop on a buffer of `word` bits; here too twelve would do. */
  method EncodeInBuffer(input: seq<Byte>, word: nat) returns (out: seq<Digit>)
    requires word >= 12
    ensures out == EncodeDigits(input)
  {
    out := [];
    var buffer: nat, bits: nat := 0, 0;
    for i := 0 to |input|
      invariant bits < 5 && EncodePrefix(input[..i]) == Encoding(out, Low(buffer, bits), bits)
    {
      SnocByte(input, i);
      out, buffer, bits := EncodeStep(word, EncodePrefix(input[..i]), out, buffer, bits, input[i]);
    }
    assert input[..|input|] == input;
    if bits > 0 {
      LastDigit(word, input, out, buffer, bits, 5 - bits);
      out := out + [Low(Low(Shl(buffer, 5 - bits), word), 5)];
    }
  }

  lemma LastDigit(word: nat, input: seq<Byte>, out: seq<Digit>, buffer: nat, bits: nat, pad: nat)
    requires word >= 5 && bits + pad == 5 && bits > 0 && EncodePrefix(input) == Encoding(out, Low(buffer, bits), bits)
    ensures var d := Low(Low(Shl(buffer, pad), word), 5); d < 32 && EncodeDigits(input) == out + [d]
  {
    BufferPadDigit(word, buffer, bits, pad);
    PadDigit(DigitValue(out), Low(buffer, bits), bits, pad);
  }

  method EncodeNoPad(input: seq<Byte>) returns (r: seq<Byte>)
    ensures r == Encode(input)
  {
    var digits := EncodeInBuffer(input, 32);
    return Chars(digits);
  }
}

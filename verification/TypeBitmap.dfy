/** The type bitmaps of NSEC and NSEC3 records: blocks of a window number, a length and that many bytes. */
module TypeBitmap {
  import opened Wrappers

  predicate ValidAfter(bitmap: seq<Byte>, previous: int)
    decreases |bitmap|
  {
    bitmap == [] ||
    (&& |bitmap| >= 2
     && 1 <= bitmap[1] <= 32
     && 2 + bitmap[1] <= |bitmap|
     && bitmap[0] > previous
     && ValidAfter(bitmap[2 + bitmap[1]..], bitmap[0]))
  }

  predicate ValidBitmap(bitmap: seq<Byte>) {
    ValidAfter(bitmap, -1)
  }

  function Mask(k: nat): nat
    requires k < 8
    ensures Mask(k) > 0
  {
    [128, 64, 32, 16, 8, 4, 2, 1][k]
  }

  /** Bit `k` of a byte, counted from the most significant. */
  predicate BitSet(b: Byte, k: nat)
    requires k < 8
  {
    b / Mask(k) % 2 == 1
  }

  datatype Block = Block(window: Byte, bits: seq<Byte>)

  /** All blocks of a bitmap in order, up to the first that is cut short. */
  function Blocks(bitmap: seq<Byte>): seq<Block>
    decreases |bitmap|
  {
    if |bitmap| < 2 || 2 + bitmap[1] > |bitmap| then []
    else
      [Block(bitmap[0], bitmap[2..2 + bitmap[1]])] + Blocks(bitmap[2 + bitmap[1]..])
  }

  predicate InBlock(block: Block, code: U16) {
    && block.window == code / 256
    && code % 256 / 8 < |block.bits|
    && BitSet(block.bits[code % 256 / 8], code % 256 % 8)
  }

  /** The set of type codes a bitmap stands for: those with their bit set in some block. */
  ghost predicate Lists(bitmap: seq<Byte>, code: U16) {
    exists block <- Blocks(bitmap) :: InBlock(block, code)
  }

  /** Scans for the first block of the window and decides there. */
  function Contains(bitmap: seq<Byte>, code: U16): bool
    decreases |bitmap|
  {
    if |bitmap| < 2 || 2 + bitmap[1] > |bitmap| then false
    else if bitmap[0] == code / 256 then
      code % 256 / 8 < bitmap[1] && BitSet(bitmap[2 + code % 256 / 8], code % 256 % 8)
    else Contains(bitmap[2 + bitmap[1]..], code)
  }

  lemma {:induction false} LaterWindows(bitmap: seq<Byte>, previous: int)
    requires ValidAfter(bitmap, previous)
    ensures forall block <- Blocks(bitmap) :: block.window > previous
    decreases |bitmap|
  {
    if bitmap != [] {
      LaterWindows(bitmap[2 + bitmap[1]..], bitmap[0]);
    }
  }

  /** The first-match scan is membership in the listed set, because windows strictly increase. */
  lemma {:induction false} ContainsIffListed(bitmap: seq<Byte>, previous: int, code: U16)
    requires ValidAfter(bitmap, previous)
    ensures Contains(bitmap, code) <==> Lists(bitmap, code)
    decreases |bitmap|
  {
    if bitmap != [] {
      var rest := bitmap[2 + bitmap[1]..];
      var block := Block(bitmap[0], bitmap[2..2 + bitmap[1]]);
      LaterWindows(rest, bitmap[0]);
      ContainsIffListed(rest, bitmap[0], code);
      assert Blocks(bitmap) == [block] + Blocks(rest);
      assert block in Blocks(bitmap);
      assert forall later <- Blocks(rest) :: later in Blocks(bitmap);
    }
  }

  method ValidateTypeBitMaps(bitmap: seq<Byte>) returns (ok: bool)
    ensures ok <==> ValidBitmap(bitmap)
  {
    var cursor := 0;
    var previous: int := -1;
    while cursor < |bitmap|
      invariant cursor <= |bitmap|
      invariant ValidBitmap(bitmap) <==> ValidAfter(bitmap[cursor..], previous)
    {
      ghost var rest := bitmap[cursor..];
      if cursor + 2 > |bitmap| {
        return false;
      }
      var window, length := bitmap[cursor], bitmap[cursor + 1];
      cursor := cursor + 2;
      if length == 0 || length > 32 || cursor + length > |bitmap| {
        return false;
      }
      if window <= previous {
        return false;
      }
      assert rest[2 + length..] == bitmap[cursor + length..];
      previous := window;
      cursor := cursor + length;
    }
    return true;
  }

  method ScanBlocks(bitmap: seq<Byte>, code: U16) returns (found: bool)
    requires ValidBitmap(bitmap)
    ensures found <==> Contains(bitmap, code)
  {
    var targetWindow, targetBit := code / 256, code % 256;
    var cursor := 0;
    ghost var previous: int := -1;
    while cursor < |bitmap|
      invariant cursor <= |bitmap|
      invariant ValidAfter(bitmap[cursor..], previous)
      invariant Contains(bitmap, code) <==> Contains(bitmap[cursor..], code)
    {
      ghost var rest := bitmap[cursor..];
      var window, length := bitmap[cursor], bitmap[cursor + 1];
      cursor := cursor + 2;
      if window == targetWindow {
        var byteIndex := targetBit / 8;
        if byteIndex >= length {
          return false;
        }
        return BitSet(bitmap[cursor + byteIndex], targetBit % 8);
      }
      assert rest[2 + length..] == bitmap[cursor + length..];
      previous := window;
      cursor := cursor + length;
    }
    return false;
  }

  /** Rejects what the validator rejects; on everything else answers membership in the listed set. */
  method TypeBitMapsContain(bitmap: seq<Byte>, code: U16) returns (r: Option<bool>)
    ensures r.None? <==> !ValidBitmap(bitmap)
    ensures r.Some? ==> (r.value <==> Lists(bitmap, code))
  {
    var valid := ValidateTypeBitMaps(bitmap);
    if !valid {
      return None;
    }
    var found := ScanBlocks(bitmap, code);
    ContainsIffListed(bitmap, -1, code);
    return Some(found);
  }
}

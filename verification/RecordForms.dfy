/** The byte forms of the DNSSEC records: each parser accepts exactly the printed records and gives them back. */
module RecordForms {
  import opened Wrappers
  import opened Dns
  import opened TypeBitmap
  import opened DnssecRecords
  import opened SignedData

  // ---- Key tags ----

  /** The big-endian 16-bit words of the data, an odd last byte padded with zero. */
  function Words(rdata: seq<Byte>): seq<nat> {
    if |rdata| == 0 then []
    else if |rdata| == 1 then [rdata[0] as int * 256]
    else [rdata[0] as int * 256 + rdata[1]] + Words(rdata[2..])
  }

  function Sum(words: seq<nat>): nat {
    if words == [] then 0 else words[0] + Sum(words[1..])
  }

  /** Two bytes in front shift the positions by two, so each byte keeps its weight. */
  lemma {:induction false} TagSumTail(rdata: seq<Byte>)
    requires |rdata| >= 2
    ensures TagSum(rdata) == rdata[0] as int * 256 + rdata[1] + TagSum(rdata[2..])
    decreases |rdata|
  {
    var init := rdata[..|rdata| - 1];
    if |rdata| > 2 {
      TagSumTail(init);
      assert init[2..] == rdata[2..][..|rdata| - 3];
      assert rdata[2..][|rdata| - 3] == rdata[|rdata| - 1];
    } else {
      assert init == [rdata[0]] && init[..0] == [] && rdata[2..] == [];
      assert TagSum(init) == TagSum(init[..0]) + rdata[0] as int * 256;
    }
  }

  lemma {:induction false} TagSumIsWordSum(rdata: seq<Byte>)
    ensures TagSum(rdata) == Sum(Words(rdata))
    decreases |rdata|
  {
    if |rdata| >= 2 {
      TagSumTail(rdata);
      TagSumIsWordSum(rdata[2..]);
    } else if |rdata| == 1 {
      assert rdata[..0] == [];
      assert TagSum(rdata) == TagSum(rdata[..0]) + rdata[0] as int * 256;
      assert Sum(Words(rdata)) == Words(rdata)[0] + Sum(Words(rdata)[1..]);
    }
  }

  /** What exceeds sixteen bits is added once to what does not. */
  function Fold(sum: nat): nat {
    (sum % 0x1_0000 + sum / 0x1_0000) % 0x1_0000
  }

  /** The key tag is the folded word sum. */
  lemma TagIs(rdata: seq<Byte>)
    requires |rdata| <= 0xffff
    ensures TagOf(rdata) == Fold(Sum(Words(rdata)))
  {
    TagSumIsWordSum(rdata);
    TagSumFits(rdata);
    TagFolds(rdata, TagSum(rdata));
  }

  lemma TagSumFits(rdata: seq<Byte>)
    requires |rdata| <= 0xffff
    ensures TagSum(rdata) <= U32_MAX
  {
    TagSumBound(rdata);
  }

  lemma TagFolds(rdata: seq<Byte>, sum: nat)
    requires TagSum(rdata) == sum && sum <= U32_MAX
    ensures TagOf(rdata) == Fold(sum)
  {
    var (carry, low) := (sum / 0x1_0000, sum % 0x1_0000);
    assert sum == 0x1_0000 * carry + low && carry < 0x1_0000;
    assert sum + carry == 0x1_0000 * carry + (low + carry);
  }

  // ---- DNSKEY, DS and RRSIG ----

  lemma Be16Iff(s: seq<Byte>, i: nat, x: U16)
    requires i + 1 < |s|
    ensures U16At(s, i) == x <==> s[i..i + 2] == Be16(x)
  {
    assert s[i..i + 2] == [s[i], s[i + 1]];
  }

  lemma Be32Iff(s: seq<Byte>, i: nat, x: U32)
    requires i + 3 < |s|
    ensures U32At(s, i) == x <==> s[i..i + 4] == Be32(x)
  {
    Be16Iff(s, i, x / 0x1_0000);
    Be16Iff(s, i + 2, x % 0x1_0000);
    assert s[i..i + 4] == s[i..i + 2] + s[i + 2..i + 4];
    assert s[i..i + 4][..2] == s[i..i + 2] && s[i..i + 4][2..] == s[i + 2..i + 4];
    assert Be32(x)[..2] == Be16(x / 0x1_0000) && Be32(x)[2..] == Be16(x % 0x1_0000);
  }

  /** Flags, the protocol number three, the algorithm and the key. */
  lemma ParseDnskeyIff(rdata: seq<Byte>, key: DnskeyRecord)
    ensures ParseDnskey(rdata) == Ok(key) <==>
            rdata == key.rdata == Be16(key.flags) + [3, key.algorithm] + key.publicKey
    ensures ParseDnskey(rdata).Err? ==> ParseDnskey(rdata) == Err(InvalidDnskey)
  {
    if |rdata| >= 4 {
      Be16Iff(rdata, 0, key.flags);
      assert rdata == rdata[0..2] + [rdata[2], rdata[3]] + rdata[4..];
    }
    var printed := Be16(key.flags) + [3, key.algorithm] + key.publicKey;
    assert printed[0..2] == Be16(key.flags) && printed[4..] == key.publicKey;
  }

  /** A key signs zone data exactly when the last bit of its first byte is set. */
  lemma ZoneKeyIff(rdata: seq<Byte>)
    requires ParseDnskey(rdata).Ok?
    ensures ParseDnskey(rdata).value.IsZoneKey() <==> rdata[0] % 2 == 1
  {
    assert U16At(rdata, 0) / 0x100 == rdata[0];
  }

  /** The key tag, the algorithm, the digest type and a digest that is not empty. */
  lemma ParseDsIff(rdata: seq<Byte>, ds: DsRecord)
    ensures ParseDs(rdata) == Ok(ds) <==>
            rdata == Be16(ds.keyTag) + [ds.algorithm, ds.digestType] + ds.digest && ds.digest != []
    ensures ParseDs(rdata).Err? ==> ParseDs(rdata) == Err(InvalidDs)
  {
    if |rdata| >= 4 {
      Be16Iff(rdata, 0, ds.keyTag);
      assert rdata == rdata[0..2] + [rdata[2], rdata[3]] + rdata[4..];
    }
    var printed := Be16(ds.keyTag) + [ds.algorithm, ds.digestType] + ds.digest;
    assert printed[0..2] == Be16(ds.keyTag) && printed[4..] == ds.digest;
  }

  /** The eighteen bytes that hold the fixed fields. */
  function FixedFields(r: RrsigRecord): seq<Byte> {
    Be16(r.typeCovered) + [r.algorithm, r.labels] + Be32(r.originalTtl) + Be32(r.expiration) + Be32(r.inception)
    + Be16(r.keyTag)
  }

  lemma FixedFieldsIff(s: seq<Byte>, r: RrsigRecord)
    requires |s| == 18
    ensures s == FixedFields(r) <==>
            && U16At(s, 0) == r.typeCovered && s[2] == r.algorithm && s[3] == r.labels && U32At(s, 4) == r.originalTtl
            && U32At(s, 8) == r.expiration && U32At(s, 12) == r.inception && U16At(s, 16) == r.keyTag
  {
    Be16Iff(s, 0, r.typeCovered);
    Be32Iff(s, 4, r.originalTtl);
    Be32Iff(s, 8, r.expiration);
    Be32Iff(s, 12, r.inception);
    Be16Iff(s, 16, r.keyTag);
    assert s == s[0..2] + [s[2], s[3]] + s[4..8] + s[8..12] + s[12..16] + s[16..18];
    FieldsAt(r);
  }

  lemma FieldsAt(r: RrsigRecord)
    ensures var f := FixedFields(r);
            && |f| == 18 && f[0..2] == Be16(r.typeCovered) && f[2] == r.algorithm && f[3] == r.labels
            && f[4..8] == Be32(r.originalTtl) && f[8..12] == Be32(r.expiration) && f[12..16] == Be32(r.inception)
            && f[16..18] == Be16(r.keyTag)
  {
    var head := Be16(r.typeCovered) + [r.algorithm, r.labels] + Be32(r.originalTtl);
    var tail := Be32(r.expiration) + Be32(r.inception) + Be16(r.keyTag);
    var f := FixedFields(r);
    assert f == head + tail && |head| == 8 && |tail| == 10;
    assert f[8..12] == tail[0..4] && f[12..16] == tail[4..8] && f[16..18] == tail[8..10];
  }

  /** The fixed fields, a signer name that the name parser reads, and a signature that is not empty. */
  lemma ParseRrsigIff(env: Env, rdata: seq<Byte>, r: RrsigRecord)
    ensures ParseRrsig(env, rdata) == Ok(r) <==>
            && |rdata| >= 19 && rdata[..18] == FixedFields(r)
            && (exists end: nat :: end < |rdata| && env.parseName(rdata, 18) == Some((r.signerName, end))
                                   && r.signature == rdata[end..])
            && r.signedRdata == FixedFields(r) + EncodeName(r.signerName)
    ensures ParseRrsig(env, rdata).Err? ==> ParseRrsig(env, rdata) == Err(InvalidRrsig)
  {
    if |rdata| >= 19 {
      FixedFieldsIff(rdata[..18], r);
      assert U32At(rdata[..18], 4) == U32At(rdata, 4) && U32At(rdata[..18], 8) == U32At(rdata, 8);
      assert U32At(rdata[..18], 12) == U32At(rdata, 12);
    }
  }

  // ---- NSEC and NSEC3 ----

  /** A name and the type bitmap, which is not empty. */
  lemma ParseNsecIff(env: Env, rdata: seq<Byte>, r: NsecRecord)
    ensures ParseNsec(env, rdata) == Ok(r) <==>
            && ValidBitmap(r.bitmap) && r.bitmap != []
            && exists end: nat :: end < |rdata| && env.parseName(rdata, 0) == Some((r.next, end))
                                  && r.bitmap == rdata[end..]
    ensures ParseNsec(env, rdata).Err? ==> ParseNsec(env, rdata) == Err(InvalidNsec)
  {
  }

  /** Algorithm, flags and iterations, then salt, next hash and type bitmap, the first two behind their lengths. */
  function Nsec3Rdata(r: Nsec3Record): seq<Byte>
    requires |r.salt| <= 255 && |r.nextHash| <= 255
  {
    [r.hashAlgorithm, r.flags] + Be16(r.iterations) + [|r.salt|] + r.salt + [|r.nextHash|] + r.nextHash + r.bitmap
  }

  lemma ParseNsec3Iff(rdata: seq<Byte>, r: Nsec3Record)
    ensures ParseNsec3(rdata) == Ok(r) <==>
            && |r.salt| <= 255 && 1 <= |r.nextHash| <= 255 && ValidBitmap(r.bitmap) && rdata == Nsec3Rdata(r)
    ensures ParseNsec3(rdata).Err? ==> ParseNsec3(rdata) == Err(InvalidNsec3)
  {
    if ParseNsec3(rdata) == Ok(r) {
      PrintsNsec3(rdata, r);
    }
    if |r.salt| <= 255 && 1 <= |r.nextHash| <= 255 && ValidBitmap(r.bitmap) {
      ReadsNsec3(r);
    }
  }

  lemma PrintsNsec3(rdata: seq<Byte>, r: Nsec3Record)
    requires ParseNsec3(rdata) == Ok(r)
    ensures |r.salt| <= 255 && 1 <= |r.nextHash| <= 255 && rdata == Nsec3Rdata(r)
  {
    var (m, n) := (5 + |r.salt|, 6 + |r.salt| + |r.nextHash|);
    Be16Iff(rdata, 2, r.iterations);
    assert rdata == [rdata[0], rdata[1]] + rdata[2..4] + [rdata[4]] + rdata[5..m] + [rdata[m]] + rdata[m + 1..n]
                    + rdata[n..];
  }

  lemma ReadsNsec3(r: Nsec3Record)
    requires |r.salt| <= 255 && 1 <= |r.nextHash| <= 255 && ValidBitmap(r.bitmap)
    ensures ParseNsec3(Nsec3Rdata(r)) == Ok(r)
  {
    var (rdata, m, n) := (Nsec3Rdata(r), 5 + |r.salt|, 6 + |r.salt| + |r.nextHash|);
    assert rdata[2..4] == Be16(r.iterations);
    Be16Iff(rdata, 2, r.iterations);
    assert rdata[4] == |r.salt| && rdata[5..m] == r.salt && rdata[m] == |r.nextHash|;
    assert rdata[m + 1..n] == r.nextHash && rdata[n..] == r.bitmap;
  }

  // ---- Type bitmaps ----

  function PrintBlocks(blocks: seq<Block>): seq<Byte>
    requires forall block <- blocks :: |block.bits| <= 255
  {
    if blocks == [] then [] else [blocks[0].window, |blocks[0].bits|] + blocks[0].bits + PrintBlocks(blocks[1..])
  }

  /** One to thirty-two bytes in each block, and windows that increase. */
  ghost predicate ProperBlocks(blocks: seq<Block>) {
    && (forall block <- blocks :: 1 <= |block.bits| <= 32)
    && (forall i: nat, j: nat | i < j < |blocks| :: blocks[i].window < blocks[j].window)
  }

  lemma {:induction false} PrintedValid(blocks: seq<Block>, previous: int)
    requires ProperBlocks(blocks) && (blocks != [] ==> blocks[0].window > previous)
    ensures ValidAfter(PrintBlocks(blocks), previous) && Blocks(PrintBlocks(blocks)) == blocks
    decreases |blocks|
  {
    if blocks != [] {
      var rest, printed := blocks[1..], PrintBlocks(blocks);
      PrintedValid(rest, blocks[0].window);
      assert printed[0] == blocks[0].window && printed[1] == |blocks[0].bits|;
      assert printed[2 + printed[1]..] == PrintBlocks(rest) && printed[2..2 + printed[1]] == blocks[0].bits;
    }
  }

  lemma {:induction false} ValidIsProper(bitmap: seq<Byte>, previous: int)
    requires ValidAfter(bitmap, previous)
    ensures ProperBlocks(Blocks(bitmap))
    decreases |bitmap|
  {
    if bitmap != [] {
      var rest := bitmap[2 + bitmap[1]..];
      ValidIsProper(rest, bitmap[0]);
      LaterWindows(rest, bitmap[0]);
      var (blocks, later) := (Blocks(bitmap), Blocks(rest));
      assert blocks == [blocks[0]] + later && blocks[0].window == bitmap[0];
      forall i: nat, j: nat | i < j < |blocks| ensures blocks[i].window < blocks[j].window {
        assert blocks[j] == later[j - 1] && later[j - 1] in later;
        assert i > 0 ==> blocks[i] == later[i - 1];
      }
    }
  }

  lemma {:induction false} ValidPrints(bitmap: seq<Byte>, previous: int)
    requires ValidAfter(bitmap, previous) && ProperBlocks(Blocks(bitmap))
    ensures PrintBlocks(Blocks(bitmap)) == bitmap
    decreases |bitmap|
  {
    if bitmap != [] {
      var n := 2 + bitmap[1] as int;
      var rest := bitmap[n..];
      ValidIsProper(rest, bitmap[0]);
      ValidPrints(rest, bitmap[0]);
      assert Blocks(bitmap)[1..] == Blocks(rest);
      assert bitmap == [bitmap[0], bitmap[1]] + bitmap[2..n] + rest;
    }
  }

  /** A bitmap is accepted exactly when it is the printed form of proper blocks. */
  lemma ValidBitmapIff(bitmap: seq<Byte>)
    ensures ValidBitmap(bitmap) <==> exists blocks :: ProperBlocks(blocks) && bitmap == PrintBlocks(blocks)
  {
    if ValidBitmap(bitmap) {
      ValidIsProper(bitmap, -1);
      ValidPrints(bitmap, -1);
    }
    if blocks :| ProperBlocks(blocks) && bitmap == PrintBlocks(blocks) {
      PrintedValid(blocks, -1);
    }
  }

  function Bit(b: Byte, k: nat): nat
    requires k < 8
  {
    if BitSet(b, k) then 1 else 0
  }

  /** The bits of a byte are its binary digits, the most significant first. */
  lemma BitsOfByte(b: Byte)
    ensures b == 128 * Bit(b, 0) + 64 * Bit(b, 1) + 32 * Bit(b, 2) + 16 * Bit(b, 3)
                 + 8 * Bit(b, 4) + 4 * Bit(b, 5) + 2 * Bit(b, 6) + Bit(b, 7)
  {
    assert b / 128 == Bit(b, 0);
    assert b / 64 == 2 * (b / 128) + Bit(b, 1);
    assert b / 32 == 2 * (b / 64) + Bit(b, 2);
    assert b / 16 == 2 * (b / 32) + Bit(b, 3);
    assert b / 8 == 2 * (b / 16) + Bit(b, 4);
    assert b / 4 == 2 * (b / 8) + Bit(b, 5);
    assert b / 2 == 2 * (b / 4) + Bit(b, 6);
    assert b / 1 == 2 * (b / 2) + Bit(b, 7);
  }
}

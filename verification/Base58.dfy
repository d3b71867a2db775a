/**
 The block Base58 decoder behind Monero address validation, proved inverse to the
 encoder of CryptoNote Standard 007 (Keys and Addresses).
 */
module Base58 {
  import opened Common
  import opened Positional

  type Byte = b: int | 0 <= b < 256

  // The 58 characters, written as their six runs of consecutive letters: 0, I, O and l are missing.
  const ALPHABET := "123456789" + "ABCDEFGH" + "JKLMN" + "PQRSTUVWXYZ" + "abcdefghijk" + "mnopqrstuvwxyz"
  const FULL_BLOCK_SIZE := 8
  const FULL_ENCODED_BLOCK_SIZE := 11
  // ENCODED_BLOCK_SIZES[k] characters carry k bytes
  const ENCODED_BLOCK_SIZES := [0, 2, 3, 5, 6, 7, 9, 10, 11]

  // BadCharacter is the ValueError of str.index, Overflow the OverflowError of int.to_bytes.
  datatype DecodeError = BadCharacter | Overflow | BadTrailingSize

  type Decoded = Result<seq<Byte>, DecodeError>

  // ---------------------------------------------------------------- characters

  /** The position of the first `c` in the alphabet from position `i` on, or 58. */
  function IndexFrom(c: char, i: nat): (r: nat)
    requires i <= 58
    ensures i <= r <= 58
    ensures r < 58 ==> ALPHABET[r] == c
    ensures forall k :: i <= k < r ==> ALPHABET[k] != c
    decreases 58 - i
  {
    if i == 58 || ALPHABET[i] == c then i else IndexFrom(c, i + 1)
  }

  function Index(c: char): nat {
    IndexFrom(c, 0)
  }

  predicate InAlphabet(s: string) {
    forall i :: 0 <= i < |s| ==> Index(s[i]) < 58
  }

  function Run(first: char, n: nat): string
    requires first as int + n < 128
  {
    seq(n, i requires 0 <= i < n => (first as int + i) as char)
  }

  lemma AlphabetRuns()
    ensures ALPHABET == Run('1', 9) + Run('A', 8) + Run('J', 5) + Run('P', 11) + Run('a', 11) + Run('m', 14)
  {
    assert "123456789" == Run('1', 9);
    assert "ABCDEFGH" == Run('A', 8);
    assert "JKLMN" == Run('J', 5);
    assert "PQRSTUVWXYZ" == Run('P', 11);
    assert "abcdefghijk" == Run('a', 11);
    assert "mnopqrstuvwxyz" == Run('m', 14);
  }

  /** The alphabet is in strictly increasing character order, so it repeats nothing. */
  lemma RunsIncreasing(s: string, i: nat, j: nat)
    requires s == Run('1', 9) + Run('A', 8) + Run('J', 5) + Run('P', 11) + Run('a', 11) + Run('m', 14)
    requires i < j < 58
    ensures s[i] < s[j]
  {
  }

  lemma AlphabetIncreasing(i: nat, j: nat)
    requires i < j < |ALPHABET|
    ensures ALPHABET[i] < ALPHABET[j]
  {
    AlphabetRuns();
    RunsIncreasing(ALPHABET, i, j);
  }

  lemma IndexOfCharacter(i: nat)
    requires i < |ALPHABET|
    ensures Index(ALPHABET[i]) == i
  {
    var r := Index(ALPHABET[i]);
    if r < i { AlphabetIncreasing(r, i); }
  }

  predicate Printed(c: char) {
    || ('1' <= c <= '9')
    || ('A' <= c <= 'Z' && c != 'I' && c != 'O')
    || ('a' <= c <= 'z' && c != 'l')
  }

  lemma RunsArePrinted(s: string, c: char)
    requires s == Run('1', 9) + Run('A', 8) + Run('J', 5) + Run('P', 11) + Run('a', 11) + Run('m', 14)
    ensures Printed(c) <==> exists i :: 0 <= i < 58 && s[i] == c
  {
    if Printed(c) {
      var i := if c <= '9' then c as int - '1' as int
               else if c <= 'H' then c as int - 'A' as int + 9
               else if c <= 'N' then c as int - 'J' as int + 17
               else if c <= 'Z' then c as int - 'P' as int + 22
               else if c <= 'k' then c as int - 'a' as int + 33
               else c as int - 'm' as int + 44;
      assert s[i] == c;
    }
  }

  /** Digits and letters, but for the digit 0, the capitals I and O and the small l. */
  lemma AlphabetExactly(c: char)
    ensures Index(c) < 58 <==> Printed(c)
  {
    AlphabetRuns();
    RunsArePrinted(ALPHABET, c);
    if i :| 0 <= i < 58 && ALPHABET[i] == c { IndexOfCharacter(i); }
  }

  function ToIndices(s: string): (ds: seq<int>)
    requires InAlphabet(s)
    ensures |ds| == |s| && AreDigits(ds, 58)
  {
    seq(|s|, i requires 0 <= i < |s| => Index(s[i]))
  }

  function ToCharacters(ds: seq<int>): (s: string)
    requires AreDigits(ds, 58)
    ensures |s| == |ds| && InAlphabet(s)
  {
    seq(|ds|, i requires 0 <= i < |ds| => ALPHABET[ds[i]])
  }

  lemma CharactersAndIndices(ds: seq<int>, s: string)
    requires AreDigits(ds, 58) && InAlphabet(s)
    ensures ToIndices(ToCharacters(ds)) == ds
    ensures ToCharacters(ToIndices(s)) == s
  {
    forall i | 0 <= i < |ds| ensures ToIndices(ToCharacters(ds))[i] == ds[i] {
      IndexOfCharacter(ds[i]);
    }
  }

  // ---------------------------------------------------------------- one block

  function BlockValue(block: string): (n: nat)
    requires InAlphabet(block)
  {
    FromDigitsBound(ToIndices(block), 58);
    FromDigits(ToIndices(block), 58)
  }

  /** Python's int.to_bytes(size, "big"). */
  function ToBytes(n: nat, size: nat): (r: Decoded)
    ensures r.Ok? <==> n < Pow(256, size)
    ensures r.Ok? ==> |r.value| == size
  {
    if n < Pow(256, size) then Ok(ToDigits(n, 256, size)) else Err(Overflow)
  }

  function BlockSpec(block: string, size: nat): Decoded {
    if InAlphabet(block) then ToBytes(BlockValue(block), size) else Err(BadCharacter)
  }

  /** A block fails for a character outside the alphabet, and otherwise only if its value needs more bytes. */
  lemma BlockFailsExactly(block: string, size: nat)
    ensures BlockSpec(block, size) == Err(BadCharacter) <==> !InAlphabet(block)
    ensures BlockSpec(block, size) == Err(Overflow) <==> InAlphabet(block) && BlockValue(block) >= Pow(256, size)
  {
  }

  lemma BlockValueStep(block: string, i: nat)
    requires i < |block| && InAlphabet(block[..i]) && Index(block[i]) < 58
    ensures InAlphabet(block[..i + 1])
    ensures BlockValue(block[..i + 1]) == BlockValue(block[..i]) * 58 + Index(block[i])
  {
    assert ToIndices(block[..i + 1])[..i] == ToIndices(block[..i]);
  }

  method DecodeBlock(block: string, targetSize: nat) returns (r: Decoded)
    ensures r == BlockSpec(block, targetSize)
  {
    var num: nat := 0;
    for i := 0 to |block|
      invariant InAlphabet(block[..i])
      invariant num == BlockValue(block[..i])
    {
      if Index(block[i]) == 58 {
        return Err(BadCharacter);
      }
      BlockValueStep(block, i);
      num := num * 58 + Index(block[i]);
    }
    assert block[..|block|] == block;
    r := ToBytes(num, targetSize);
  }

  function EncodeBlock(bytes: seq<Byte>, width: nat): (s: string)
    ensures |s| == width && InAlphabet(s)
  {
    FromDigitsBound(bytes, 256);
    ToCharacters(ToDigits(FromDigits(bytes, 256), 58, width))
  }

  /** The encoded width of a block always has room for its bytes. */
  lemma BlockFits(k: nat)
    requires 1 <= k <= 8
    ensures Pow(256, k) <= Pow(58, ENCODED_BLOCK_SIZES[k])
  {
    assert Pow(58, 2) == 3364;
    assert Pow(58, 3) == 195112;
    assert Pow(58, 5) == 656356768;
    assert Pow(58, 6) == 38068692544;
    assert Pow(58, 7) == 2207984167552;
    assert Pow(58, 9) == 7427658739644928;
    assert Pow(58, 10) == 430804206899405824;
    assert Pow(58, 11) == 24986644000165537792;
    assert Pow(256, 2) == 65536;
    assert Pow(256, 4) == 4294967296;
    assert Pow(256, 6) == 281474976710656;
    assert Pow(256, 8) == 18446744073709551616;
  }

  /** Decoding an encoded block gives its bytes back. */
  lemma BlockDecodesEncoded(bytes: seq<Byte>)
    requires 1 <= |bytes| <= 8
    ensures BlockSpec(EncodeBlock(bytes, ENCODED_BLOCK_SIZES[|bytes|]), |bytes|) == Ok(bytes)
  {
    var n, width := FromDigits(bytes, 256), ENCODED_BLOCK_SIZES[|bytes|];
    FromDigitsBound(bytes, 256);
    BlockFits(|bytes|);
    var ds := ToDigits(n, 58, width);
    CharactersAndIndices(ds, []);
    WriteThenRead(n, 58, width);
    ReadThenWrite(bytes, 256);
  }

  lemma FullBlockDecodesEncoded(bytes: seq<Byte>)
    requires |bytes| == 8
    ensures BlockSpec(EncodeBlock(bytes, 11), 8) == Ok(bytes)
  {
    assert ENCODED_BLOCK_SIZES[8] == 11;
    BlockDecodesEncoded(bytes);
  }

  /** Encoding what a block decodes to gives the block back. */
  lemma BlockEncodesDecoded(block: string, size: nat)
    requires BlockSpec(block, size).Ok?
    ensures EncodeBlock(BlockSpec(block, size).value, |block|) == block
  {
    WriteThenRead(BlockValue(block), 256, size);
    ReadThenWrite(ToIndices(block), 58);
    CharactersAndIndices([], block);
  }

  // ---------------------------------------------------------------- whole strings

  /** How many bytes a trailing block of `len` characters carries: its position in the table. */
  function TrailingBytes(len: nat): (k: Option<nat>)
    requires 0 < len < 11
    ensures k == None <==> len in {1, 4, 8}
    ensures k.Some? ==> 1 <= k.value < 8 && ENCODED_BLOCK_SIZES[k.value] == len
  {
    match len
    case 2 => Some(1)
    case 3 => Some(2)
    case 5 => Some(3)
    case 6 => Some(4)
    case 7 => Some(5)
    case 9 => Some(6)
    case 10 => Some(7)
    case _ => None
  }

  function LastBlockSpec(block: string): Decoded
    requires 0 < |block| < 11
  {
    match TrailingBytes(|block|)
    case None => Err(BadTrailingSize)
    case Some(size) => BlockSpec(block, size)
  }

  /** Blocks decode left to right; the first failure is the one reported. */
  function Decode(address: string): Decoded {
    if address == "" then Ok([])
    else if |address| < 11 then LastBlockSpec(address)
    else Append(BlockSpec(address[..11], 8), Decode(address[11..]))
  }

  function Append(first: Decoded, second: Decoded): Decoded {
    match (first, second)
    case (Err(_), _) => first
    case (_, Err(_)) => second
    case (Ok(a), Ok(b)) => Ok(a + b)
  }

  lemma DecodeSplit(head: string, tail: string)
    requires |head| == 11
    ensures Decode(head + tail) == Append(BlockSpec(head, 8), Decode(tail))
  {
    assert (head + tail)[..11] == head && (head + tail)[11..] == tail;
  }

  lemma AppendAssociative(a: Decoded, b: Decoded, c: Decoded)
    ensures Append(Append(a, b), c) == Append(a, Append(b, c))
  {
    if a.Ok? && b.Ok? && c.Ok? {
      assert a.value + b.value + c.value == a.value + (b.value + c.value);
    }
  }

  lemma AppendNothing(a: Decoded)
    ensures Append(Ok([]), a) == a && Append(a, Ok([])) == a
  {
    if a.Ok? { assert [] + a.value == a.value + [] == a.value; }
  }

  lemma DecodeBlockAfter(done: Decoded, block: string, rest: string)
    requires |block| == 11
    ensures Append(done, Decode(block + rest)) == Append(Append(done, BlockSpec(block, 8)), Decode(rest))
  {
    DecodeSplit(block, rest);
    AppendAssociative(done, BlockSpec(block, 8), Decode(rest));
  }

  lemma SliceStep(s: string, a: nat, b: nat)
    requires a <= b <= |s|
    ensures s[a..] == s[a..b] + s[b..]
  {
  }

  method DecodeFullBlocks(address: string, fullBlocks: nat) returns (r: Decoded)
    requires 11 * fullBlocks <= |address|
    ensures Decode(address) == Append(r, Decode(address[11 * fullBlocks..]))
  {
    r := Ok([]);
    AppendNothing(Decode(address));
    assert address[11 * 0..] == address;
    for i := 0 to fullBlocks
      invariant Decode(address) == Append(r, Decode(address[11 * i..]))
    {
      var start := i * FULL_ENCODED_BLOCK_SIZE;
      var block := DecodeBlock(address[start..start + FULL_ENCODED_BLOCK_SIZE], FULL_BLOCK_SIZE);
      SliceStep(address, start, start + FULL_ENCODED_BLOCK_SIZE);
      DecodeBlockAfter(r, address[start..start + FULL_ENCODED_BLOCK_SIZE], address[start + FULL_ENCODED_BLOCK_SIZE..]);
      r := Append(r, block);
      if r.Err? {
        return;
      }
    }
  }

  method MoneroBase58Decode(address: string) returns (r: Decoded)
    ensures r == Decode(address)
  {
    var fullBlocks := |address| / FULL_ENCODED_BLOCK_SIZE;
    var lastBlockSize := |address| % FULL_ENCODED_BLOCK_SIZE;
    r := DecodeFullBlocks(address, fullBlocks);
    if r.Ok? {
      if lastBlockSize > 0 {
        var last := DecodeLastBlock(address[fullBlocks * FULL_ENCODED_BLOCK_SIZE..]);
        r := Append(r, last);
      } else {
        AppendNothing(r);
      }
    }
  }

  method DecodeLastBlock(lastBlock: string) returns (r: Decoded)
    requires 0 < |lastBlock| < 11
    ensures r == LastBlockSpec(lastBlock)
  {
    var size := TrailingBytes(|lastBlock|);
    if size.None? {
      return Err(BadTrailingSize);
    }
    r := DecodeBlock(lastBlock, size.value);
  }

  /** The encoder of the standard: full blocks of eight bytes, then one shorter block. */
  function Encode(bytes: seq<Byte>): (s: string)
    ensures InAlphabet(s)
  {
    if bytes == [] then ""
    else if |bytes| < 8 then EncodeBlock(bytes, ENCODED_BLOCK_SIZES[|bytes|])
    else EncodeBlock(bytes[..8], 11) + Encode(bytes[8..])
  }

  lemma TrailingSizes(k: nat)
    requires 1 <= k < 8
    ensures 0 < ENCODED_BLOCK_SIZES[k] < 11 && TrailingBytes(ENCODED_BLOCK_SIZES[k]) == Some(k)
  {
  }

  lemma DecodeOfShortEncode(bytes: seq<Byte>)
    requires 0 < |bytes| < 8
    ensures Decode(Encode(bytes)) == Ok(bytes)
  {
    BlockDecodesEncoded(bytes);
    TrailingSizes(|bytes|);
  }

  lemma EncodeSplit(head: seq<Byte>, tail: seq<Byte>)
    requires |head| == 8
    ensures Encode(head + tail) == EncodeBlock(head, 11) + Encode(tail)
  {
    assert (head + tail)[..8] == head && (head + tail)[8..] == tail;
  }

  lemma DecodeOfLongEncode(head: seq<Byte>, tail: seq<Byte>)
    requires |head| == 8 && Decode(Encode(tail)) == Ok(tail)
    ensures Decode(Encode(head + tail)) == Ok(head + tail)
  {
    var block := EncodeBlock(head, 11);
    EncodeSplit(head, tail);
    FullBlockDecodesEncoded(head);
    DecodeSplit(block, Encode(tail));
  }

  lemma {:induction false} DecodeOfEncode(bytes: seq<Byte>)
    ensures Decode(Encode(bytes)) == Ok(bytes)
  {
    if 0 < |bytes| < 8 {
      DecodeOfShortEncode(bytes);
    } else if |bytes| >= 8 {
      DecodeOfEncode(bytes[8..]);
      DecodeOfLongEncode(bytes[..8], bytes[8..]);
      assert bytes[..8] + bytes[8..] == bytes;
    }
  }

  lemma {:induction false} EncodeOfDecode(address: string)
    requires Decode(address).Ok?
    ensures Encode(Decode(address).value) == address
  {
    if 0 < |address| < 11 {
      BlockEncodesDecoded(address, TrailingBytes(|address|).value);
    } else if |address| >= 11 {
      var head, tail := BlockSpec(address[..11], 8).value, Decode(address[11..]).value;
      BlockEncodesDecoded(address[..11], 8);
      EncodeOfDecode(address[11..]);
      assert (head + tail)[..8] == head && (head + tail)[8..] == tail;
      assert address[..11] + address[11..] == address;
    }
  }

  /** Two different strings never decode to the same bytes. */
  lemma DecodeInjective(a: string, b: string)
    requires Decode(a).Ok? && Decode(a) == Decode(b)
    ensures a == b
  {
    EncodeOfDecode(a);
    EncodeOfDecode(b);
  }

  /** The bytes a string of `len` characters decodes to: eight per full block, then the table. */
  function DecodedLength(len: nat): nat
    requires len % 11 !in {1, 4, 8}
  {
    len / 11 * 8 + if len % 11 == 0 then 0 else TrailingBytes(len % 11).value
  }

  ghost predicate FullBlockInRange(address: string, i: nat)
    requires InAlphabet(address) && 11 * i + 11 <= |address|
  {
    BlockValue(address[11 * i..11 * i + 11]) < Pow(256, 8)
  }

  ghost predicate LastBlockInRange(address: string)
    requires InAlphabet(address) && |address| % 11 !in {1, 4, 8}
  {
    |address| % 11 == 0 ||
    BlockValue(address[|address| / 11 * 11..]) < Pow(256, TrailingBytes(|address| % 11).value)
  }

  ghost predicate Decodable(address: string) {
    && InAlphabet(address)
    && |address| % 11 !in {1, 4, 8}
    && (forall i: nat :: 11 * i + 11 <= |address| ==> FullBlockInRange(address, i))
    && LastBlockInRange(address)
  }

  lemma AlphabetSplit(head: string, tail: string)
    ensures InAlphabet(head + tail) <==> InAlphabet(head) && InAlphabet(tail)
  {
    if InAlphabet(head + tail) {
      forall i | 0 <= i < |head| ensures Index(head[i]) < 58 { assert (head + tail)[i] == head[i]; }
      forall i | 0 <= i < |tail| ensures Index(tail[i]) < 58 { assert (head + tail)[|head| + i] == tail[i]; }
    }
  }

  lemma BlockSplit(head: string, tail: string, i: nat)
    requires |head| == 11 && InAlphabet(head + tail) && InAlphabet(tail) && 11 * i + 11 <= |tail|
    ensures FullBlockInRange(head + tail, i + 1) == FullBlockInRange(tail, i)
  {
    assert (head + tail)[11 * (i + 1)..11 * (i + 1) + 11] == tail[11 * i..11 * i + 11];
  }

  lemma LastBlockSplit(head: string, tail: string)
    requires |head| == 11 && InAlphabet(head + tail) && InAlphabet(tail)
    requires |tail| % 11 !in {1, 4, 8}
    ensures |head + tail| % 11 == |tail| % 11 && |head + tail| / 11 == |tail| / 11 + 1
    ensures LastBlockInRange(head + tail) == LastBlockInRange(tail)
  {
    assert (head + tail)[|head + tail| / 11 * 11..] == tail[|tail| / 11 * 11..];
  }

  lemma DecodableSplit(head: string, tail: string)
    requires |head| == 11
    ensures Decodable(head + tail) <==> BlockSpec(head, 8).Ok? && Decodable(tail)
  {
    var address := head + tail;
    AlphabetSplit(head, tail);
    assert |address| % 11 == |tail| % 11;
    if InAlphabet(address) && |tail| % 11 !in {1, 4, 8} {
      LastBlockSplit(head, tail);
      assert address[11 * 0..11 * 0 + 11] == head;
      assert FullBlockInRange(address, 0) <==> BlockSpec(head, 8).Ok?;
      if Decodable(address) {
        forall i: nat | 11 * i + 11 <= |tail| ensures FullBlockInRange(tail, i) {
          BlockSplit(head, tail, i);
          assert FullBlockInRange(address, i + 1);
        }
      }
      if BlockSpec(head, 8).Ok? && Decodable(tail) {
        forall i: nat | 11 * i + 11 <= |address| ensures FullBlockInRange(address, i) {
          if i > 0 { BlockSplit(head, tail, i - 1); }
        }
      }
    }
  }

  lemma AcceptsShort(address: string)
    requires |address| < 11
    ensures Decode(address).Ok? <==> Decodable(address)
    ensures Decode(address).Ok? ==> |Decode(address).value| == DecodedLength(|address|)
  {
    if |address| > 0 {
      assert address[|address| / 11 * 11..] == address;
      if TrailingBytes(|address|).Some? && InAlphabet(address) {
        assert LastBlockSpec(address).Ok? <==> LastBlockInRange(address);
      }
    }
  }

  /**
   A string is accepted exactly when it is over the alphabet, its trailing block does not
   have 1, 4 or 8 characters, and every block is below 256 to the number of bytes it carries.
   */
  lemma {:induction false} AcceptsExactly(address: string)
    ensures Decode(address).Ok? <==> Decodable(address)
    ensures Decode(address).Ok? ==> |Decode(address).value| == DecodedLength(|address|)
  {
    if |address| < 11 {
      AcceptsShort(address);
    } else {
      var head, tail := address[..11], address[11..];
      assert address == head + tail;
      AcceptsExactly(tail);
      DecodableSplit(head, tail);
      DecodeSplit(head, tail);
      if Decode(address).Ok? {
        LastBlockSplit(head, tail);
      }
    }
  }

  lemma LengthOfDecoded(address: string)
    requires Decode(address).Ok?
    ensures |address| % 11 !in {1, 4, 8} && |Decode(address).value| == DecodedLength(|address|)
  {
    AcceptsExactly(address);
  }

  lemma EncodedIsDecodable(bytes: seq<Byte>)
    ensures Decodable(Encode(bytes)) && DecodedLength(|Encode(bytes)|) == |bytes|
  {
    DecodeOfEncode(bytes);
    AcceptsExactly(Encode(bytes));
  }
}

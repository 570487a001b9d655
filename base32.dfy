/** Unpadded base32 with the alphabet of section 6 of RFC 4648, as the
    `art-spot` contract encodes and decodes bytes. Bytes are `bv8`; the
    encoder and decoder are loops over 5-byte and 8-character groups
    proved equal to the group-wise specification functions below. */
module Base32 {
  import opened Wrappers

  /** base32.rs:4 */
  const RFC4648: string := "ABCDEFGHIJKLMNOPQRSTUVWXYZ234567"

  /** base32.rs:7-12: the value of the character `'0' + i`, or -1 (the
      rows of the source table). */
  const RFC4648_INV: seq<int> :=
    [-1, -1, 26, 27, 28, 29, 30, 31, -1, -1, -1, -1, -1, -1, -1, -1, -1,  0,  1,  2] +
    [ 3,  4,  5,  6,  7,  8,  9, 10, 11, 12, 13, 14, 15, 16, 17, 18, 19, 20, 21, 22] +
    [23, 24, 25, -1, -1, -1, -1, -1, -1, -1, -1, -1, -1, -1, -1, -1, -1, -1, -1, -1] +
    [-1, -1, -1, -1, -1, -1, -1, -1, -1, -1, -1, -1, -1, -1, -1]

  /** The alphabet is `A`..`Z` followed by `2`..`7`. */
  lemma AlphabetShape()
    ensures |RFC4648| == 32
    ensures forall i :: 0 <= i < 32 ==> RFC4648[i] as int == if i < 26 then 'A' as int + i else '2' as int + (i - 26)
  {
  }

  /** The inverse table maps `A`..`Z` to 0..25, `2`..`7` to 26..31 and
      every other character to -1. */
  lemma InverseShape()
    ensures |RFC4648_INV| == 75
    ensures forall i :: 0 <= i < 75 ==>
              RFC4648_INV[i] == if 17 <= i < 43 then i - 17 else if 2 <= i < 8 then i + 24 else -1
  {
  }

  /** The characters of the alphabet. */
  predicate IsBase32Char(c: char)
  {
    'A' <= c <= 'Z' || '2' <= c <= '7'
  }

  /** The index a 5-bit value selects, read off its five low bits
      (the `as usize` conversion of base32.rs:32-39). */
  function Index(v: bv8): (n: nat)
    ensures n < 32
  {
    (if v & 16 != 0 then 16 else 0) + (if v & 8 != 0 then 8 else 0) + (if v & 4 != 0 then 4 else 0)
    + (if v & 2 != 0 then 2 else 0) + (if v & 1 != 0 then 1 else 0)
  }

  /** For a 5-bit value that is the value itself, and converting it back
      gives the value. */
  lemma IndexIsValue(v: bv8)
    requires v < 32
    ensures Index(v) == v as int && Index(v) as bv8 == v
  {
  }

  /** The letter at index `n` of the alphabet, `A`..`Z` then `2`..`7`. */
  function Letter(n: nat): (c: char)
    requires n < 32
    ensures IsBase32Char(c)
  {
    if n < 26 then ('A' as int + n) as char else ('2' as int + (n - 26)) as char
  }

  /** That is the entry of the alphabet table. */
  lemma LetterIsAlphabet(n: nat)
    requires n < 32
    ensures Letter(n) == RFC4648[n]
  {
    AlphabetShape();
  }

  /** The character for a 5-bit value. */
  function SymbolChar(v: bv8): (c: char)
    requires v < 32
    ensures IsBase32Char(c)
  {
    Letter(Index(v))
  }

  /** `alphabet[v as usize]` (base32.rs:32-39). */
  lemma SymbolCharIsTable(v: bv8)
    requires v < 32
    ensures SymbolChar(v) == RFC4648[v as int]
  {
    IndexIsValue(v);
    LetterIsAlphabet(Index(v));
  }

  /** The entry of the inverse table at `index`. */
  function Inverse(index: int): (n: int)
    ensures -1 <= n < 32
  {
    if 17 <= index < 43 then index - 17 else if 2 <= index < 8 then index + 24 else -1
  }

  /** That is the entry of the inverse table. */
  lemma InverseIsTable(index: int)
    requires 0 <= index < |RFC4648_INV|
    ensures Inverse(index) == RFC4648_INV[index]
  {
    InverseShape();
  }

  /** The lookup of an ASCII character in the inverse table, indexed by
      the character minus `'0'` with 8-bit wrap-around. */
  function SymbolValue(c: char): (r: Option<bv8>)
    requires c as int < 128
    ensures r.Some? ==> r.value < 32
  {
    var index := (c as int - '0' as int) % 256;
    if index < 75 && Inverse(index) != -1 then Some(Inverse(index) as bv8) else None
  }

  /** `alphabet.get(c.wrapping_sub(b'0') as usize)` (base32.rs:76-79). */
  lemma SymbolValueIsTable(c: char)
    requires c as int < 128
    ensures var index := (c as int - '0' as int) % 256;
            SymbolValue(c) ==
              if index < |RFC4648_INV| && RFC4648_INV[index] != -1 then Some(RFC4648_INV[index] as bv8) else None
  {
    var index := (c as int - '0' as int) % 256;
    InverseShape();
    if index < |RFC4648_INV| {
      InverseIsTable(index);
    }
  }

  /** The table reads every character of the alphabet back as its value. */
  lemma SymbolRoundTrip(v: bv8)
    requires v < 32
    ensures SymbolValue(SymbolChar(v)) == Some(v)
  {
    var n := Index(v);
    IndexIsValue(v);
    LetterBack(n);
  }

  /** The inverse table takes a letter back to its index. */
  lemma LetterBack(n: nat)
    requires n < 32
    ensures (Letter(n) as int - '0' as int) % 256 < 75
    ensures Inverse((Letter(n) as int - '0' as int) % 256) == n
  {
    if n < 26 {
      assert Letter(n) as int == 'A' as int + n;
    } else {
      assert Letter(n) as int == '2' as int + (n - 26);
    }
  }

  /** The table accepts exactly the characters of the alphabet. */
  lemma SymbolAccepts(c: char)
    requires c as int < 128
    ensures SymbolValue(c).Some? <==> IsBase32Char(c)
  {
  }

  /** The eight 5-bit values of one 5-byte group (base32.rs:32-39). */
  function EncodeChunk(b: seq<bv8>): (v: seq<bv8>)
    requires |b| == 5
    ensures |v| == 8 && forall i :: 0 <= i < 8 ==> v[i] < 32
  {
    [ (b[0] & 0xF8) >> 3,
      ((b[0] & 0x07) << 2) | ((b[1] & 0xC0) >> 6),
      (b[1] & 0x3E) >> 1,
      ((b[1] & 0x01) << 4) | ((b[2] & 0xF0) >> 4),
      ((b[2] & 0x0F) << 1) | (b[3] >> 7),
      (b[3] & 0x7C) >> 2,
      ((b[3] & 0x03) << 3) | ((b[4] & 0xE0) >> 5),
      b[4] & 0x1F ]
  }

  /** The five bytes of one group of eight 5-bit values (base32.rs:83-87). */
  function DecodeChunk(v: seq<bv8>): (b: seq<bv8>)
    requires |v| == 8
    ensures |b| == 5
  {
    [ (v[0] << 3) | (v[1] >> 2),
      (v[1] << 6) | (v[2] << 1) | (v[3] >> 4),
      (v[3] << 4) | (v[4] >> 1),
      (v[4] << 7) | (v[5] << 2) | (v[6] >> 3),
      (v[6] << 5) | v[7] ]
  }

  /** The group's eight values are its 40 bits, five at a time, most
      significant first. */
  lemma EncodeChunkMsbFirst(b0: bv8, b1: bv8, b2: bv8, b3: bv8, b4: bv8)
    ensures var x: bv40 := (b0 as bv40 << 32) | (b1 as bv40 << 24) | (b2 as bv40 << 16) | (b3 as bv40 << 8) | b4 as bv40;
            var v := EncodeChunk([b0, b1, b2, b3, b4]);
            v[0] as bv40 == (x >> 35) & 31 && v[1] as bv40 == (x >> 30) & 31
            && v[2] as bv40 == (x >> 25) & 31 && v[3] as bv40 == (x >> 20) & 31
            && v[4] as bv40 == (x >> 15) & 31 && v[5] as bv40 == (x >> 10) & 31
            && v[6] as bv40 == (x >> 5) & 31 && v[7] as bv40 == x & 31
  {
  }

  /** Decoding a group undoes encoding it. */
  lemma ChunkRoundTrip(b: seq<bv8>)
    requires |b| == 5
    ensures DecodeChunk(EncodeChunk(b)) == b
  {
    var b0, b1, b2, b3, b4 := b[0], b[1], b[2], b[3], b[4];
    assert (((b0 & 0xF8) >> 3) << 3) | ((((b0 & 0x07) << 2) | ((b1 & 0xC0) >> 6)) >> 2) == b0;
    assert (((((b0 & 0x07) << 2) | ((b1 & 0xC0) >> 6))) << 6) | (((b1 & 0x3E) >> 1) << 1)
           | ((((b1 & 0x01) << 4) | ((b2 & 0xF0) >> 4)) >> 4) == b1;
    assert ((((b1 & 0x01) << 4) | ((b2 & 0xF0) >> 4)) << 4) | ((((b2 & 0x0F) << 1) | (b3 >> 7)) >> 1) == b2;
    assert ((((b2 & 0x0F) << 1) | (b3 >> 7)) << 7) | (((b3 & 0x7C) >> 2) << 2)
           | ((((b3 & 0x03) << 3) | ((b4 & 0xE0) >> 5)) >> 3) == b3;
    assert ((((b3 & 0x03) << 3) | ((b4 & 0xE0) >> 5)) << 5) | (b4 & 0x1F) == b4;
  }

  /** `s` followed by zeros up to length `n`, as a zero-initialised
      buffer filled from the front. */
  function Pad(s: seq<bv8>, n: nat): (r: seq<bv8>)
    requires |s| <= n
    ensures |r| == n && r[..|s|] == s && forall i :: |s| <= i < n ==> r[i] == 0
  {
    s + seq(n - |s|, _ => 0)
  }

  /** Writing the next element into a padded buffer. */
  lemma PadStep(s: seq<bv8>, x: bv8, n: nat)
    requires |s| < n
    ensures Pad(s, n)[|s| := x] == Pad(s + [x], n)
  {
  }

  function Min(a: nat, b: nat): nat
  {
    if a <= b then a else b
  }

  /** The values of all groups, the last one zero-padded (base32.rs:24-40). */
  function EncodeGroups(data: seq<bv8>): (v: seq<bv8>)
    ensures |v| == 8 * ((|data| + 4) / 5)
    ensures forall i :: 0 <= i < |v| ==> v[i] < 32
    decreases |data|
  {
    if |data| == 0 then []
    else
      var n := Min(5, |data|);
      EncodeChunk(Pad(data[..n], 5)) + EncodeGroups(data[n..])
  }

  /** The number of characters kept (base32.rs:42-51): whole groups give
      eight; a last group of `m` bytes drops `8 - (8m + 4) / 5` of them. */
  function EncodedLength(n: nat): nat
  {
    if n % 5 == 0 then 8 * (n / 5) else 8 * (n / 5 + 1) - (8 - (n % 5 * 8 + 4) / 5)
  }

  /** That is ceil(8n / 5). */
  lemma EncodedLengthIsCeiling(n: nat)
    ensures EncodedLength(n) == (8 * n + 4) / 5
    ensures EncodedLength(n) <= 8 * ((n + 4) / 5)
  {
  }

  /** The characters kept out of the eight per group. */
  lemma EncodedLengthOfGroups(n: nat)
    ensures n % 5 == 0 ==> EncodedLength(n) == 8 * ((n + 4) / 5)
    ensures n % 5 != 0 ==> EncodedLength(n) == 8 * ((n + 4) / 5) - (8 - (n % 5 * 8 + 4) / 5)
  {
  }

  /** The 5-bit values `encode` keeps. */
  function EncodeValues(data: seq<bv8>): (v: seq<bv8>)
    ensures |v| == EncodedLength(|data|)
    ensures forall i :: 0 <= i < |v| ==> v[i] < 32
  {
    EncodedLengthIsCeiling(|data|);
    EncodeGroups(data)[..EncodedLength(|data|)]
  }

  function Chars(v: seq<bv8>): (s: string)
    requires forall i :: 0 <= i < |v| ==> v[i] < 32
    ensures |s| == |v| && forall i :: 0 <= i < |v| ==> s[i] == SymbolChar(v[i])
  {
    seq(|v|, i requires 0 <= i < |v| => SymbolChar(v[i]))
  }

  /** The specification of `encode`. */
  function EncodeSpec(data: seq<bv8>): (s: string)
    ensures |s| == (8 * |data| + 4) / 5
    ensures forall i :: 0 <= i < |s| ==> IsBase32Char(s[i])
  {
    EncodedLengthIsCeiling(|data|);
    Chars(EncodeValues(data))
  }

  /** `data.is_ascii()` */
  predicate IsAscii(s: string)
  {
    forall i :: 0 <= i < |s| ==> s[i] as int < 128
  }

  /** The number of trailing `=` the decoder skips, at most six
      (base32.rs:63-69). */
  function TrailingPads(s: string, limit: nat): (n: nat)
    ensures n <= limit && n <= |s|
    decreases limit
  {
    if limit == 0 || |s| == 0 || s[|s| - 1] != '=' then 0
    else 1 + TrailingPads(s[..|s| - 1], limit - 1)
  }

  /** The table lookup of every character. */
  function Lookups(s: string): (o: seq<Option<bv8>>)
    requires IsAscii(s)
    ensures |o| == |s| && forall i :: 0 <= i < |s| ==> o[i] == SymbolValue(s[i])
  {
    seq(|s|, i requires 0 <= i < |s| => SymbolValue(s[i]))
  }

  /** All the values, or None when one lookup failed. */
  function AllSome(o: seq<Option<bv8>>): (r: Option<seq<bv8>>)
    ensures r.Some? <==> forall i :: 0 <= i < |o| ==> o[i].Some?
    ensures r.Some? ==> |r.value| == |o| && forall i :: 0 <= i < |o| ==> o[i] == Some(r.value[i])
  {
    if forall i :: 0 <= i < |o| ==> o[i].Some? then
      Some(seq(|o|, i requires 0 <= i < |o| => o[i].value))
    else None
  }

  /** The values of an ASCII string, or None when a character is
      outside the table. */
  function Values(s: string): (r: Option<seq<bv8>>)
    requires IsAscii(s)
    ensures r.Some? ==> |r.value| == |s|
  {
    AllSome(Lookups(s))
  }

  /** The bytes of all 8-value groups, the last one zero-padded. */
  function DecodeGroups(v: seq<bv8>): (b: seq<bv8>)
    ensures |b| == 5 * ((|v| + 7) / 8)
    decreases |v|
  {
    if |v| == 0 then []
    else
      var n := Min(8, |v|);
      DecodeChunk(Pad(v[..n], 8)) + DecodeGroups(v[n..])
  }

  /** The specification of `decode` (base32.rs:57-91). */
  function DecodeSpec(s: string): (r: Option<seq<bv8>>)
    ensures r.Some? ==> |r.value| == (|s| - TrailingPads(s, 6)) * 5 / 8
  {
    if !IsAscii(s) then None
    else match Values(s)
      case None => None
      case Some(v) => Some(DecodeGroups(v)[..(|s| - TrailingPads(s, 6)) * 5 / 8])
  }

  /** The specification on a string whose characters all have values. */
  lemma DecodeSpecAccepted(s: string, v: seq<bv8>, n: nat)
    requires IsAscii(s) && Values(s) == Some(v)
    requires n == (|s| - TrailingPads(s, 6)) * 5 / 8
    ensures n <= |DecodeGroups(v)|
    ensures DecodeSpec(s) == Some(DecodeGroups(v)[..n])
  {
  }

  /** `decode` refuses every string with a character outside the
      alphabet, including `=` and lower-case letters. */
  lemma DecodeRejects(s: string, i: nat)
    requires i < |s| && !IsBase32Char(s[i])
    ensures DecodeSpec(s).None?
  {
    if IsAscii(s) {
      SymbolAccepts(s[i]);
    }
  }

  /** A string of the alphabet is never refused, and has no padding. */
  lemma DecodeAccepts(s: string)
    requires forall i :: 0 <= i < |s| ==> IsBase32Char(s[i])
    ensures DecodeSpec(s).Some? && |DecodeSpec(s).value| == |s| * 5 / 8
  {
    assert IsAscii(s);
    forall i | 0 <= i < |s|
      ensures SymbolValue(s[i]).Some?
    {
      SymbolAccepts(s[i]);
    }
    if |s| > 0 {
      assert s[|s| - 1] != '=';
    }
  }

  /** The values that `encode` drops from a short last group are zero. */
  lemma DroppedValuesZero(b: seq<bv8>, m: nat)
    requires |b| == 5 && 1 <= m < 5 && forall i :: m <= i < 5 ==> b[i] == 0
    ensures forall i :: (8 * m + 4) / 5 <= i < 8 ==> EncodeChunk(b)[i] == 0
  {
    var b0, b1, b2, b3, b4 := b[0], b[1], b[2], b[3], b[4];
    if m == 1 {
      assert b1 == 0 && b2 == 0 && b3 == 0 && b4 == 0;
    } else if m == 2 {
      assert b2 == 0 && b3 == 0 && b4 == 0;
    } else if m == 3 {
      assert b3 == 0 && b4 == 0;
    } else {
      assert b4 == 0;
    }
  }

  /** A short last group: the values kept, padded back with zeros by
      the decoder, are the group's full values. */
  lemma ShortGroupRoundTrip(data: seq<bv8>)
    requires 1 <= |data| < 5
    ensures |DecodeGroups(EncodeValues(data))| >= |data|
    ensures DecodeGroups(EncodeValues(data))[..|data|] == data
  {
    var m := |data|;
    var p := Pad(data, 5);
    var full := EncodeChunk(p);
    assert data[..Min(5, m)] == data;
    assert EncodeGroups(data) == full + EncodeGroups(data[m..]);
    var v := EncodeValues(data);
    assert v == full[..(8 * m + 4) / 5];
    DroppedValuesZero(p, m);
    assert Pad(v, 8) == full;
    assert v[..Min(8, |v|)] == v;
    assert DecodeGroups(v) == DecodeChunk(full) + DecodeGroups(v[|v|..]);
    ChunkRoundTrip(p);
  }

  /** A whole first group contributes its eight values in front. */
  lemma EncodeValuesFirstGroup(data: seq<bv8>)
    requires |data| >= 5
    ensures EncodeValues(data) == EncodeChunk(data[..5]) + EncodeValues(data[5..])
  {
    var rest := data[5..];
    assert Pad(data[..5], 5) == data[..5];
    assert EncodeGroups(data) == EncodeChunk(data[..5]) + EncodeGroups(rest);
    EncodedLengthIsCeiling(|data|);
    EncodedLengthIsCeiling(|rest|);
    assert EncodedLength(|data|) == 8 + EncodedLength(|rest|);
  }

  /** Eight values in front decode to one group of five bytes in front. */
  lemma DecodeGroupsFirstGroup(head: seq<bv8>, rest: seq<bv8>)
    requires |head| == 8
    ensures DecodeGroups(head + rest) == DecodeChunk(head) + DecodeGroups(rest)
  {
    var v := head + rest;
    assert v[..Min(8, |v|)] == head && v[8..] == rest;
    assert Pad(head, 8) == head;
  }

  /** Decoding the values `encode` keeps gives the data back. */
  lemma {:induction false} DecodeGroupsEncodeValues(data: seq<bv8>)
    ensures |DecodeGroups(EncodeValues(data))| >= |data|
    ensures DecodeGroups(EncodeValues(data))[..|data|] == data
    decreases |data|
  {
    if |data| == 0 {
    } else if |data| < 5 {
      ShortGroupRoundTrip(data);
    } else {
      var rest := data[5..];
      var head := EncodeChunk(data[..5]);
      EncodeValuesFirstGroup(data);
      DecodeGroupsFirstGroup(head, EncodeValues(rest));
      ChunkRoundTrip(data[..5]);
      DecodeGroupsEncodeValues(rest);
      assert data == data[..5] + rest;
    }
  }

  /** `decode(encode(d)) == Some(d)` for every byte sequence `d`. */
  lemma DecodeEncode(data: seq<bv8>)
    ensures DecodeSpec(EncodeSpec(data)) == Some(data)
  {
    var s := EncodeSpec(data);
    var v := EncodeValues(data);
    DecodeAccepts(s);
    forall i | 0 <= i < |s|
      ensures SymbolValue(s[i]) == Some(v[i])
    {
      SymbolRoundTrip(v[i]);
    }
    assert Values(s).value == v;
    if |s| > 0 {
      assert s[|s| - 1] != '=';
    }
    EncodedLengthIsCeiling(|data|);
    assert |s| * 5 / 8 == |data|;
    DecodeGroupsEncodeValues(data);
  }

  /** The empty cases. */
  lemma EmptyCases()
    ensures EncodeSpec([]) == ""
    ensures DecodeSpec("") == Some([])
  {
  }

  lemma CharsAppend(a: seq<bv8>, b: seq<bv8>)
    requires forall i :: 0 <= i < |a| ==> a[i] < 32
    requires forall i :: 0 <= i < |b| ==> b[i] < 32
    ensures Chars(a + b) == Chars(a) + Chars(b)
  {
  }

  lemma CharsPrefix(a: seq<bv8>, n: nat)
    requires forall i :: 0 <= i < |a| ==> a[i] < 32
    requires n <= |a|
    ensures Chars(a)[..n] == Chars(a[..n])
  {
  }

  /** The buffer the inner copy loop leaves: the group, then zeros. */
  lemma CopiedGroup(data: seq<bv8>, i: nat, j: nat, buf: seq<bv8>)
    requires i < j <= |data| && j == Min(i + 5, |data|)
    requires buf == Pad(data[i..j], 5)
    ensures EncodeGroups(data[i..]) == EncodeChunk(buf) + EncodeGroups(data[j..])
  {
    assert data[i..][..Min(5, |data[i..]|)] == data[i..j];
    assert data[i..][Min(5, |data[i..]|)..] == data[j..];
  }

  /** The zeroed 5-byte buffer with a group copied to its front
      (base32.rs:25-31). */
  method CopyGroup(chunk: seq<bv8>) returns (buf: seq<bv8>)
    requires |chunk| <= 5
    ensures buf == Pad(chunk, 5)
  {
    buf := [0, 0, 0, 0, 0];
    for k := 0 to |chunk|
      invariant buf == Pad(chunk[..k], 5)
    {
      PadStep(chunk[..k], chunk[k], 5);
      assert chunk[..k] + [chunk[k]] == chunk[..k + 1];
      buf := buf[k := chunk[k]];
    }
    assert chunk[..|chunk|] == chunk;
  }

  /** One group of the encoding loop: the characters so far stay a
      prefix of the characters of all groups. */
  lemma EncodeStep(data: seq<bv8>, i: nat, j: nat, ret: string, buf: seq<bv8>)
    requires i < j <= |data| && j == Min(i + 5, |data|)
    requires buf == Pad(data[i..j], 5)
    requires ret + Chars(EncodeGroups(data[i..])) == Chars(EncodeGroups(data))
    ensures (ret + Chars(EncodeChunk(buf))) + Chars(EncodeGroups(data[j..])) == Chars(EncodeGroups(data))
  {
    CopiedGroup(data, i, j, buf);
    CharsAppend(EncodeChunk(buf), EncodeGroups(data[j..]));
    Regroup(ret, Chars(EncodeGroups(data[i..])), Chars(EncodeChunk(buf)), Chars(EncodeGroups(data[j..])),
            Chars(EncodeGroups(data)));
  }

  lemma Regroup<T>(done: seq<T>, rest: seq<T>, a: seq<T>, b: seq<T>, all: seq<T>)
    requires rest == a + b && done + rest == all
    ensures (done + a) + b == all
  {
  }

  /** No bytes give no characters. */
  lemma CharsOfNoGroups(d: seq<bv8>)
    requires |d| == 0
    ensures Chars(EncodeGroups(d)) == []
  {
  }

  /** After the last group the characters are those of all groups. */
  lemma EncodeLoopEnd(data: seq<bv8>, ret: string, rest: string)
    requires rest == Chars(EncodeGroups(data[|data|..]))
    requires ret + rest == Chars(EncodeGroups(data))
    ensures ret == Chars(EncodeGroups(data))
    ensures |ret| == 8 * ((|data| + 4) / 5)
  {
    CharsOfNoGroups(data[|data|..]);
  }

  /** The kept characters are the specification. */
  lemma EncodeSpecIsPrefix(data: seq<bv8>)
    ensures EncodedLength(|data|) <= |Chars(EncodeGroups(data))|
    ensures EncodeSpec(data) == Chars(EncodeGroups(data))[..EncodedLength(|data|)]
  {
    EncodedLengthIsCeiling(|data|);
    CharsPrefix(EncodeGroups(data), EncodedLength(|data|));
  }

  /** Cutting the characters of all groups as `encode` does keeps the
      first `EncodedLength(n)` of them. */
  lemma CutAt<T>(all: seq<T>, kept: seq<T>, n: nat)
    requires |all| == 8 * ((n + 4) / 5) && EncodedLength(n) <= |all| && kept == all[..EncodedLength(n)]
    ensures n % 5 != 0 ==> 0 <= |all| - (8 - (n % 5 * 8 + 4) / 5) <= |all|
    ensures n % 5 != 0 ==> all[..|all| - (8 - (n % 5 * 8 + 4) / 5)] == kept
    ensures n % 5 == 0 ==> all == kept
  {
    EncodedLengthOfGroups(n);
  }

  /** `encode` (base32.rs:20-55): groups of five bytes, copied into a
      zeroed buffer, give eight characters each; a short last group is
      then cut to `(8m + 4) / 5` characters. */
  method Encode(data: seq<bv8>) returns (s: string)
    ensures s == EncodeSpec(data)
  {
    var ret: string := [];
    var i := 0;
    while i < |data|
      invariant 0 <= i <= |data|
      invariant ret + Chars(EncodeGroups(data[i..])) == Chars(EncodeGroups(data))
      decreases |data| - i
    {
      var j := Min(i + 5, |data|);
      var buf := CopyGroup(data[i..j]);
      EncodeStep(data, i, j, ret, buf);
      ret := ret + Chars(EncodeChunk(buf));
      i := j;
    }
    EncodeLoopEnd(data, ret, Chars(EncodeGroups(data[|data|..])));
    EncodeSpecIsPrefix(data);
    CutAt(ret, EncodeSpec(data), |data|);
    if |data| % 5 != 0 {
      var len := |ret|;
      var numExtra := 8 - (|data| % 5 * 8 + 4) / 5;
      ret := ret[..len - numExtra];
    }
    s := ret;
  }

  lemma LookupsSlice(s: string, p: nat, j: nat)
    requires IsAscii(s) && p <= j <= |s|
    ensures IsAscii(s[p..j]) && Lookups(s[p..j]) == Lookups(s)[p..j]
  {
    assert forall q :: 0 <= q < j - p ==> s[p..j][q] == s[p + q];
  }

  lemma AllSomeSlice(o: seq<Option<bv8>>, p: nat, j: nat)
    requires p <= j <= |o|
    ensures AllSome(o[p..j]).None? ==> AllSome(o).None?
    ensures AllSome(o).Some? ==> AllSome(o[p..j]) == Some(AllSome(o).value[p..j])
  {
    if AllSome(o[p..j]).None? {
      var q :| 0 <= q < j - p && o[p..j][q].None?;
      assert o[p + q].None?;
    } else if AllSome(o).Some? {
      assert AllSome(o[p..j]).value == AllSome(o).value[p..j];
    }
  }

  lemma AllSomeSnoc(o: seq<Option<bv8>>, v: bv8)
    requires AllSome(o).Some?
    ensures AllSome(o + [Some(v)]) == Some(AllSome(o).value + [v])
  {
    var t := o + [Some(v)];
    assert forall i :: 0 <= i < |o| ==> t[i] == o[i];
    assert AllSome(t).value == AllSome(o).value + [v];
  }

  /** A character refused in a slice is refused in the whole string. */
  lemma ValuesSliceRefused(s: string, p: nat, j: nat)
    requires IsAscii(s) && p <= j <= |s|
    ensures IsAscii(s[p..j])
    ensures Values(s[p..j]).None? ==> Values(s).None?
  {
    LookupsSlice(s, p, j);
    AllSomeSlice(Lookups(s), p, j);
  }

  /** The values of a slice are the slice of the values. */
  lemma ValuesSlice(s: string, p: nat, j: nat)
    requires IsAscii(s) && p <= j <= |s| && Values(s).Some?
    ensures IsAscii(s[p..j])
    ensures Values(s[p..j]) == Some(Values(s).value[p..j])
  {
    LookupsSlice(s, p, j);
    AllSomeSlice(Lookups(s), p, j);
  }

  lemma AllSomePrefixGrows(o: seq<Option<bv8>>, p: nat, j: nat)
    requires p <= j <= |o|
    requires AllSome(o[..p]).Some? && AllSome(o[p..j]).Some?
    ensures AllSome(o[..j]).Some?
  {
    forall q | 0 <= q < j
      ensures o[..j][q].Some?
    {
      if q < p {
        assert o[..j][q] == o[..p][q];
      } else {
        assert o[..j][q] == o[p..j][q - p];
      }
    }
  }

  /** Two accepted neighbouring slices make an accepted prefix. */
  lemma ValuesPrefixGrows(s: string, p: nat, j: nat)
    requires IsAscii(s) && p <= j <= |s|
    requires Values(s[..p]).Some? && Values(s[p..j]).Some?
    ensures Values(s[..j]).Some?
  {
    LookupsSlice(s, 0, p);
    LookupsSlice(s, p, j);
    LookupsSlice(s, 0, j);
    assert s[0..p] == s[..p] && s[0..j] == s[..j];
    var o := Lookups(s);
    assert o[0..p] == o[..p] && o[0..j] == o[..j];
    AllSomePrefixGrows(o, p, j);
  }

  /** Values of a string grown by one character. */
  lemma ValuesSnoc(s: string, c: char, v: bv8)
    requires IsAscii(s) && c as int < 128 && Values(s).Some? && SymbolValue(c) == Some(v)
    ensures IsAscii(s + [c]) && Values(s + [c]) == Some(Values(s).value + [v])
  {
    assert forall i :: 0 <= i < |s| ==> (s + [c])[i] == s[i];
    assert Lookups(s + [c]) == Lookups(s) + [Some(v)];
    AllSomeSnoc(Lookups(s), v);
  }

  /** The zeroed 8-value buffer filled from a group of characters through
      the inverse table, or None at a character outside it
      (base32.rs:73-82). */
  method LookupGroup(chunk: string) returns (r: Option<seq<bv8>>)
    requires IsAscii(chunk) && |chunk| <= 8
    ensures r.None? <==> Values(chunk).None?
    ensures r.Some? ==> r.value == Pad(Values(chunk).value, 8)
  {
    var buf: seq<bv8> := [0, 0, 0, 0, 0, 0, 0, 0];
    for k := 0 to |chunk|
      invariant Values(chunk[..k]).Some?
      invariant buf == Pad(Values(chunk[..k]).value, 8)
    {
      assert chunk[..k + 1] == chunk[..k] + [chunk[k]];
      match SymbolValue(chunk[k]) {
        case None =>
          return None;
        case Some(value) =>
          ValuesSnoc(chunk[..k], chunk[k], value);
          PadStep(Values(chunk[..k]).value, value, 8);
          buf := buf[k := value];
      }
    }
    assert chunk[..|chunk|] == chunk;
    r := Some(buf);
  }

  /** The length without up to six trailing `=` (base32.rs:63-69). */
  method UnpaddedLength(data: string) returns (n: nat)
    ensures n == |data| - TrailingPads(data, 6)
  {
    n := |data|;
    assert data[..|data|] == data;
    var limit := if 6 <= |data| then 6 else |data|;
    var i := 1;
    while i <= limit
      invariant 1 <= i <= limit + 1
      invariant n == |data| - (i - 1)
      invariant TrailingPads(data, 6) == (i - 1) + TrailingPads(data[..|data| - (i - 1)], 6 - (i - 1))
    {
      if data[|data| - i] != '=' {
        break;
      }
      assert data[..|data| - (i - 1)][..|data| - i] == data[..|data| - i];
      n := n - 1;
      i := i + 1;
    }
  }

  /** The first group of values decodes to the first five bytes. */
  lemma DecodedGroup(vs: seq<bv8>, p: nat, j: nat, buf: seq<bv8>)
    requires p < j <= |vs| && j == Min(p + 8, |vs|)
    requires buf == Pad(vs[p..j], 8)
    ensures DecodeGroups(vs[p..]) == DecodeChunk(buf) + DecodeGroups(vs[j..])
  {
    assert vs[p..][..Min(8, |vs[p..]|)] == vs[p..j];
    assert vs[p..][Min(8, |vs[p..]|)..] == vs[j..];
  }

  /** One group of the decoding loop: the accepted prefix grows and the
      bytes so far stay a prefix of the decoded groups. */
  lemma DecodeStep(data: string, p: nat, j: nat, ret: seq<bv8>, buf: seq<bv8>)
    requires IsAscii(data) && p < j <= |data| && j == Min(p + 8, |data|)
    requires Values(data[..p]).Some? && Values(data[p..j]).Some?
    requires buf == Pad(Values(data[p..j]).value, 8)
    requires Values(data).Some? ==>
               ret + DecodeGroups(Values(data).value[p..]) == DecodeGroups(Values(data).value)
    ensures Values(data[..j]).Some?
    ensures Values(data).Some? ==>
              (ret + DecodeChunk(buf)) + DecodeGroups(Values(data).value[j..]) == DecodeGroups(Values(data).value)
  {
    ValuesPrefixGrows(data, p, j);
    if Values(data).Some? {
      var vs := Values(data).value;
      ValuesSlice(data, p, j);
      DecodedGroup(vs, p, j, buf);
      Regroup(ret, DecodeGroups(vs[p..]), DecodeChunk(buf), DecodeGroups(vs[j..]), DecodeGroups(vs));
    }
  }

  /** After the last group the bytes are all the decoded groups. */
  lemma DecodeLoopEnd(data: string, ret: seq<bv8>)
    requires IsAscii(data) && Values(data[..|data|]).Some?
    requires Values(data).Some? ==>
               ret + DecodeGroups(Values(data).value[|data|..]) == DecodeGroups(Values(data).value)
    ensures Values(data).Some? && ret == DecodeGroups(Values(data).value)
  {
    assert data[..|data|] == data;
    var vs := Values(data).value;
    assert vs[|data|..] == [];
    assert ret + [] == ret;
  }

  /** `decode` (base32.rs:57-91): refuses non-ASCII text, counts up to six
      trailing `=`, decodes groups of eight characters through the
      inverse table, refusing any character outside it, and cuts the
      bytes to five per eight unpadded characters. */
  method Decode(data: string) returns (r: Option<seq<bv8>>)
    ensures r == DecodeSpec(data)
  {
    if !IsAscii(data) {
      return None;
    }
    var unpadded := UnpaddedLength(data);
    var outputLength := unpadded * 5 / 8;
    var ret: seq<bv8> := [];
    var p := 0;
    assert data[..0] == [];
    while p < |data|
      invariant 0 <= p <= |data|
      invariant Values(data[..p]).Some?
      invariant Values(data).Some? ==>
                  ret + DecodeGroups(Values(data).value[p..]) == DecodeGroups(Values(data).value)
      decreases |data| - p
    {
      var j := Min(p + 8, |data|);
      ValuesSliceRefused(data, p, j);
      var buf := LookupGroup(data[p..j]);
      if buf.None? {
        return None;
      }
      DecodeStep(data, p, j, ret, buf.value);
      ret := ret + DecodeChunk(buf.value);
      p := j;
    }
    DecodeLoopEnd(data, ret);
    DecodeSpecAccepted(data, Values(data).value, outputLength);
    r := Some(ret[..outputLength]);
  }
}

/** The generated marshalling code: sizes first, then a buffer filled from its end; and the field loops that read it back. */
module CodecLoops {
  import opened Wrappers
  import opened Bytes
  import opened Messages
  import opened Words
  import opened Varint
  import opened Wire
  import opened Codec

  // ----- sizes

  method SizeVarint(v: Uint64) returns (n: nat)
    ensures forall num :: 1 <= num <= 15 ==> n == |VarintBytes(num, v)|
  {
    SovIsLength(v);
    n := if v != 0 then 1 + Sov(v) else 0;
  }

  method SizeLength(l: nat) returns (n: nat)
    ensures n == 1 + |EncodeVarint(l)| + l
  {
    SovIsLength(l);
    n := 1 + l + Sov(l);
  }

  method SizeSlice(p: Bytes) returns (n: nat)
    ensures forall num :: 1 <= num <= 15 ==> n == |SliceBytes(num, p)|
  {
    n := 0;
    if |p| > 0 {
      n := SizeLength(|p|);
    }
  }

  method SizeKeyInfo(m: KeyInfo) returns (n: nat)
    ensures n == |EncodeKeyInfo(m)|
  {
    hide VarintBytes, SliceBytes, AsUint64;
    var n1 := SizeVarint(AsUint64(m.keyType));
    var n2 := SizeVarint(AsUint64(m.cryptoKitID));
    var n3 := SizeVarint(AsUint64(m.timeCreated));
    var n4 := SizeSlice(m.pubKey);
    n := n1 + n2 + n3 + n4;
  }

  method SizeKeyEntry(m: KeyEntry) returns (n: nat)
    ensures n == |EncodeKeyEntry(m)|
  {
    hide EncodeKeyInfo, SliceBytes;
    n := 0;
    if m.keyInfo.Some? {
      var l := SizeKeyInfo(m.keyInfo.value);
      n := SizeLength(l);
    }
    var l := SizeSlice(m.privKey);
    n := n + l;
  }

  lemma EncodeKeysSnoc(keys: seq<KeyEntry>, e: KeyEntry)
    ensures EncodeKeys(keys + [e]) == EncodeKeys(keys) + LengthBytes(2, EncodeKeyEntry(e))
  {
    hide LengthBytes, EncodeKeyEntry;
    if keys == [] {
      assert [] + [e] == [e];
    } else {
      assert (keys + [e])[1..] == keys[1..] + [e];
      EncodeKeysSnoc(keys[1..], e);
    }
  }

  lemma EncodeKeyringsSnoc(krs: seq<KeyringMsg>, k: KeyringMsg)
    ensures EncodeKeyrings(krs + [k]) == EncodeKeyrings(krs) + LengthBytes(2, EncodeKeyring(k))
  {
    hide LengthBytes, EncodeKeyring;
    if krs == [] {
      assert [] + [k] == [k];
    } else {
      assert (krs + [k])[1..] == krs[1..] + [k];
      EncodeKeyringsSnoc(krs[1..], k);
    }
  }

  method SizeKeyring(m: KeyringMsg) returns (n: nat)
    ensures n == |EncodeKeyring(m)|
  {
    hide EncodeKeyEntry, SliceBytes, EncodeKeys;
    n := SizeSlice(m.name);
    var i := 0;
    EncodeNoKeys();
    while i < |m.keys|
      invariant 0 <= i <= |m.keys|
      invariant n == |SliceBytes(1, m.name)| + |EncodeKeys(m.keys[..i])|
    {
      var l := SizeKeyEntry(m.keys[i]);
      var k := SizeLength(l);
      EncodeKeysSnoc(m.keys[..i], m.keys[i]);
      assert m.keys[..i + 1] == m.keys[..i] + [m.keys[i]];
      n := n + k;
      i := i + 1;
    }
    assert m.keys[..i] == m.keys;
    if m.sortedByPubKey {
      n := n + 2;
    }
    var l := SizeSlice(m.newestPubKey);
    n := n + l;
  }

  lemma EncodeNoKeys()
    ensures EncodeKeys([]) == [] && EncodeKeyrings([]) == []
  {
  }

  method SizeKeyTome(m: KeyTomeMsg) returns (n: nat)
    ensures n == |EncodeKeyTome(m)|
  {
    hide EncodeKeyring, VarintBytes, EncodeKeyrings, AsUint64;
    n := SizeVarint(AsUint64(m.rev));
    var i := 0;
    EncodeNoKeys();
    while i < |m.keyrings|
      invariant 0 <= i <= |m.keyrings|
      invariant n == |VarintBytes(1, AsUint64(m.rev))| + |EncodeKeyrings(m.keyrings[..i])|
    {
      var l := SizeKeyring(m.keyrings[i]);
      var k := SizeLength(l);
      EncodeKeyringsSnoc(m.keyrings[..i], m.keyrings[i]);
      assert m.keyrings[..i + 1] == m.keyrings[..i] + [m.keyrings[i]];
      n := n + k;
      i := i + 1;
    }
    assert m.keyrings[..i] == m.keyrings;
    if m.sortedByName {
      n := n + 2;
    }
  }

  method SizeSigHeader(m: SigHeader) returns (n: nat)
    ensures n == |EncodeSigHeader(m)|
  {
    hide VarintBytes, SliceBytes, AsUint64;
    var n1 := SizeVarint(AsUint64(m.signerCryptoKit));
    var n2 := SizeSlice(m.signerPubKey);
    var n6 := SizeVarint(AsUint64(m.hashKitID));
    var n7 := SizeVarint(m.headerSz);
    var n8 := SizeVarint(m.headerCodec);
    var n9 := SizeVarint(m.bodySz);
    n := n1 + n2 + n6 + n7 + n8 + n9;
  }

  // ----- marshalling

  /** From one state of a buffer to the next, exactly these bytes were put in front of index hi, and nothing else changed. */
  ghost predicate Prepended(before: Bytes, after: Bytes, lo: int, hi: int, bytes: Bytes) {
    && 0 <= lo <= hi <= |before| == |after|
    && after[lo..hi] == bytes
    && after[..lo] == before[..lo] && after[hi..] == before[hi..]
  }

  lemma PrependedTwice(s0: Bytes, s1: Bytes, s2: Bytes, lo: int, mid: int, hi: int, front: Bytes, back: Bytes)
    requires Prepended(s0, s1, mid, hi, back) && Prepended(s1, s2, lo, mid, front)
    ensures Prepended(s0, s2, lo, hi, front + back)
  {
    assert s2[lo..hi] == s2[lo..mid] + s2[mid..][..hi - mid];
    assert s1[mid..hi] == s1[mid..][..hi - mid];
    assert s2[..lo] == s1[..mid][..lo] == s0[..lo];
    assert s2[hi..] == s2[mid..][hi - mid..] == s0[hi..];
  }

  lemma PrependedNothing(s: Bytes, hi: nat)
    requires hi <= |s|
    ensures Prepended(s, s, hi, hi, [])
  {
  }

  method CopyTo(dAtA: array<Byte>, at: nat, src: Bytes)
    requires at + |src| <= dAtA.Length
    modifies dAtA
    ensures Prepended(old(dAtA[..]), dAtA[..], at, at + |src|, src)
  {
    var k := 0;
    while k < |src|
      invariant 0 <= k <= |src|
      invariant dAtA[at..at + k] == src[..k]
      invariant dAtA[..at] == old(dAtA[..at]) && dAtA[at + |src|..] == old(dAtA[at + |src|..])
    {
      dAtA[at + k] := src[k];
      k := k + 1;
      assert dAtA[at..at + k] == dAtA[at..at + k - 1] + [dAtA[at + k - 1]];
    }
  }

  method WriteByte(dAtA: array<Byte>, hi: nat, b: Byte) returns (i: nat)
    requires 1 <= hi <= dAtA.Length
    modifies dAtA
    ensures Prepended(old(dAtA[..]), dAtA[..], i, hi, [b])
  {
    i := hi - 1;
    dAtA[i] := b;
  }

  // Each writer is told, for the proof, what the buffer held at first, and what has been put in front of index end.

  /** Puts the length and the tag in front of a payload. */
  method WriteLengthPrefix(dAtA: array<Byte>, hi: nat, num: nat, l: nat, ghost from: Bytes, ghost end: nat, ghost back: Bytes)
    returns (i: nat)
    requires 1 <= num <= 15 && l < INT_LIMIT
    requires 1 + |EncodeVarint(l)| <= hi <= dAtA.Length && Prepended(from, dAtA[..], hi, end, back)
    modifies dAtA
    ensures i == hi - 1 - |EncodeVarint(l)| && Prepended(from, dAtA[..], i, end, [num * 8 + 2] + EncodeVarint(l) + back)
  {
    hide EncodeVarint, Sov;
    SovIsLength(l);
    ghost var s0 := dAtA[..];
    i := EncodeVarintApiSki(dAtA, hi, l);
    assert Prepended(s0, dAtA[..], i, hi, EncodeVarint(l));
    ghost var s1, mid := dAtA[..], i;
    PrependedTwice(from, s0, s1, mid, hi, end, EncodeVarint(l), back);
    i := WriteByte(dAtA, i, num * 8 + 2);
    PrependedTwice(from, s1, dAtA[..], i, mid, end, [num * 8 + 2], EncodeVarint(l) + back);
    assert [num * 8 + 2] + (EncodeVarint(l) + back) == [num * 8 + 2] + EncodeVarint(l) + back;
  }

  method WriteVarint(dAtA: array<Byte>, hi: nat, num: nat, v: Uint64, ghost from: Bytes, ghost end: nat, ghost back: Bytes)
    returns (i: nat)
    requires 1 <= num <= 15 && |VarintBytes(num, v)| <= hi <= dAtA.Length && Prepended(from, dAtA[..], hi, end, back)
    modifies dAtA
    ensures i == hi - |VarintBytes(num, v)| && Prepended(from, dAtA[..], i, end, VarintBytes(num, v) + back)
  {
    hide EncodeVarint, Sov;
    i := hi;
    if v != 0 {
      SovIsLength(v);
      ghost var s0 := dAtA[..];
      i := EncodeVarintApiSki(dAtA, i, v);
      assert Prepended(s0, dAtA[..], i, hi, EncodeVarint(v));
      ghost var s1, mid := dAtA[..], i;
      PrependedTwice(from, s0, s1, mid, hi, end, EncodeVarint(v), back);
      i := WriteByte(dAtA, i, num * 8);
      PrependedTwice(from, s1, dAtA[..], i, mid, end, [num * 8], EncodeVarint(v) + back);
      assert [num * 8] + (EncodeVarint(v) + back) == VarintBytes(num, v) + back;
    } else {
      assert [] + back == back;
    }
  }

  method WriteSlice(dAtA: array<Byte>, hi: nat, num: nat, p: Bytes, ghost from: Bytes, ghost end: nat, ghost back: Bytes)
    returns (i: nat)
    requires 1 <= num <= 15 && |SliceBytes(num, p)| <= hi <= dAtA.Length < INT_LIMIT
    requires Prepended(from, dAtA[..], hi, end, back)
    modifies dAtA
    ensures i == hi - |SliceBytes(num, p)| && Prepended(from, dAtA[..], i, end, SliceBytes(num, p) + back)
  {
    hide EncodeVarint, Prepended, SliceBytes;
    SliceParts(num, p, back);
    i := hi;
    if |p| > 0 {
      ghost var s0 := dAtA[..];
      i := i - |p|;
      CopyTo(dAtA, i, p);
      PrependedTwice(from, s0, dAtA[..], i, hi, end, p, back);
      i := WriteLengthPrefix(dAtA, i, num, |p|, from, end, p + back);
    }
  }

  method WriteBool(dAtA: array<Byte>, hi: nat, num: nat, b: bool, ghost from: Bytes, ghost end: nat, ghost back: Bytes)
    returns (i: nat)
    requires 1 <= num <= 15 && |BoolBytes(num, b)| <= hi <= dAtA.Length && Prepended(from, dAtA[..], hi, end, back)
    modifies dAtA
    ensures i == hi - |BoolBytes(num, b)| && Prepended(from, dAtA[..], i, end, BoolBytes(num, b) + back)
  {
    hide Prepended;
    i := hi;
    if b {
      ghost var s0 := dAtA[..];
      i := WriteByte(dAtA, i, 1);
      ghost var s1, mid := dAtA[..], i;
      PrependedTwice(from, s0, s1, mid, hi, end, [1], back);
      i := WriteByte(dAtA, i, num * 8);
      PrependedTwice(from, s1, dAtA[..], i, mid, end, [num * 8], [1] + back);
      assert [num * 8] + ([1] + back) == [num * 8, 1] + back;
    } else {
      assert [] + back == back;
    }
  }

  /** A nested message just written gets its length and tag. */
  method FinishNested(dAtA: array<Byte>, hi: nat, size: nat, num: nat, ghost p: Bytes, ghost s0: Bytes,
                      ghost from: Bytes, ghost end: nat, ghost back: Bytes)
    returns (i: nat)
    requires 1 <= num <= 15 && size == |p| && |LengthBytes(num, p)| <= hi <= dAtA.Length < INT_LIMIT
    requires Prepended(s0, dAtA[..], hi - size, hi, p) && Prepended(from, s0, hi, end, back)
    modifies dAtA
    ensures i == hi - |LengthBytes(num, p)| && Prepended(from, dAtA[..], i, end, LengthBytes(num, p) + back)
  {
    hide EncodeVarint, Prepended, LengthBytes;
    LengthParts(num, p, back);
    PrependedTwice(from, s0, dAtA[..], hi - size, hi, end, p, back);
    i := WriteLengthPrefix(dAtA, hi - size, num, size, from, end, p + back);
  }

  lemma LengthParts(num: nat, p: Bytes, back: Bytes)
    requires 1 <= num <= 15
    ensures [num * 8 + 2] + EncodeVarint(|p|) + (p + back) == LengthBytes(num, p) + back
    ensures |LengthBytes(num, p)| == 1 + |EncodeVarint(|p|)| + |p|
  {
    hide EncodeVarint;
  }

  lemma SliceParts(num: nat, p: Bytes, back: Bytes)
    requires 1 <= num <= 15
    ensures p == [] ==> SliceBytes(num, p) == [] && SliceBytes(num, p) + back == back
    ensures p != [] ==>
              && [num * 8 + 2] + EncodeVarint(|p|) + (p + back) == SliceBytes(num, p) + back
              && |SliceBytes(num, p)| == 1 + |EncodeVarint(|p|)| + |p|
  {
    hide EncodeVarint, LengthBytes;
    LengthParts(num, p, back);
    assert [] + back == back;
  }

  /** KeyInfo.MarshalToSizedBuffer on the part of the buffer before index hi. */
  method MarshalKeyInfo(m: KeyInfo, dAtA: array<Byte>, hi: nat) returns (n: nat)
    requires |EncodeKeyInfo(m)| <= hi <= dAtA.Length < INT_LIMIT
    modifies dAtA
    ensures n == |EncodeKeyInfo(m)| && Prepended(old(dAtA[..]), dAtA[..], hi - n, hi, EncodeKeyInfo(m))
  {
    hide VarintBytes, SliceBytes, AsUint64, Prepended;
    ghost var from := dAtA[..];
    ghost var b4 := SliceBytes(4, m.pubKey);
    ghost var b3 := VarintBytes(3, AsUint64(m.timeCreated)) + b4;
    ghost var b2 := VarintBytes(2, AsUint64(m.cryptoKitID)) + b3;
    PrependedNothing(from, hi);
    assert b4 + [] == b4;
    var i := WriteSlice(dAtA, hi, 4, m.pubKey, from, hi, []);
    i := WriteVarint(dAtA, i, 3, AsUint64(m.timeCreated), from, hi, b4);
    i := WriteVarint(dAtA, i, 2, AsUint64(m.cryptoKitID), from, hi, b3);
    i := WriteVarint(dAtA, i, 1, AsUint64(m.keyType), from, hi, b2);
    n := hi - i;
  }

  method MarshalKeyEntry(m: KeyEntry, dAtA: array<Byte>, hi: nat) returns (n: nat)
    requires |EncodeKeyEntry(m)| <= hi <= dAtA.Length < INT_LIMIT
    modifies dAtA
    ensures n == |EncodeKeyEntry(m)| && Prepended(old(dAtA[..]), dAtA[..], hi - n, hi, EncodeKeyEntry(m))
  {
    hide LengthBytes, SliceBytes, EncodeKeyInfo, Prepended;
    ghost var from := dAtA[..];
    ghost var b6 := SliceBytes(6, m.privKey);
    PrependedNothing(from, hi);
    assert b6 + [] == b6;
    var i := WriteSlice(dAtA, hi, 6, m.privKey, from, hi, []);
    if m.keyInfo.Some? {
      ghost var p, s0 := EncodeKeyInfo(m.keyInfo.value), dAtA[..];
      LengthBytesLonger(1, p);
      var size := MarshalKeyInfo(m.keyInfo.value, dAtA, i);
      i := FinishNested(dAtA, i, size, 1, p, s0, from, hi, b6);
    } else {
      assert EncodeKeyEntry(m) == b6;
    }
    n := hi - i;
  }

  method MarshalKeyring(m: KeyringMsg, dAtA: array<Byte>, hi: nat) returns (n: nat)
    requires |EncodeKeyring(m)| <= hi <= dAtA.Length < INT_LIMIT
    modifies dAtA
    ensures n == |EncodeKeyring(m)| && Prepended(old(dAtA[..]), dAtA[..], hi - n, hi, EncodeKeyring(m))
  {
    hide LengthBytes, SliceBytes, BoolBytes, EncodeKeys, EncodeKeyEntry, Prepended;
    ghost var from := dAtA[..];
    ghost var b4 := SliceBytes(4, m.newestPubKey);
    ghost var b3 := BoolBytes(3, m.sortedByPubKey) + b4;
    assert |EncodeKeyring(m)| == |SliceBytes(1, m.name)| + |EncodeKeys(m.keys)| + |b3|;
    PrependedNothing(from, hi);
    assert b4 + [] == b4;
    var i := WriteSlice(dAtA, hi, 4, m.newestPubKey, from, hi, []);
    i := WriteBool(dAtA, i, 3, m.sortedByPubKey, from, hi, b4);
    var iNdEx := |m.keys|;
    EncodeNoKeys();
    assert [] + b3 == b3 && m.keys[|m.keys|..] == [];
    while iNdEx > 0
      invariant 0 <= iNdEx <= |m.keys| && i <= hi
      invariant i == hi - |b3| - |EncodeKeys(m.keys[iNdEx..])|
      invariant Prepended(from, dAtA[..], i, hi, EncodeKeys(m.keys[iNdEx..]) + b3)
    {
      iNdEx := iNdEx - 1;
      KeysFrom(m.keys, iNdEx);
      KeysBefore(m.keys, iNdEx);
      ghost var p, s0, back := EncodeKeyEntry(m.keys[iNdEx]), dAtA[..], EncodeKeys(m.keys[iNdEx + 1..]);
      LengthBytesLonger(2, p);
      var size := MarshalKeyEntry(m.keys[iNdEx], dAtA, i);
      i := FinishNested(dAtA, i, size, 2, p, s0, from, hi, back + b3);
      assert LengthBytes(2, p) + (back + b3) == LengthBytes(2, p) + back + b3;
    }
    assert m.keys[0..] == m.keys;
    i := WriteSlice(dAtA, i, 1, m.name, from, hi, EncodeKeys(m.keys) + b3);
    n := hi - i;
  }

  lemma KeysFrom(keys: seq<KeyEntry>, k: nat)
    requires k < |keys|
    ensures EncodeKeys(keys[k..]) == LengthBytes(2, EncodeKeyEntry(keys[k])) + EncodeKeys(keys[k + 1..])
  {
    hide LengthBytes, EncodeKeyEntry;
    assert keys[k..][1..] == keys[k + 1..];
  }

  lemma {:induction false} KeysBefore(keys: seq<KeyEntry>, k: nat)
    requires k <= |keys|
    ensures |EncodeKeys(keys[k..])| <= |EncodeKeys(keys)|
  {
    if k > 0 {
      KeysBefore(keys, k - 1);
      KeysFrom(keys, k - 1);
    } else {
      assert keys[0..] == keys;
    }
  }

  method MarshalKeyTome(m: KeyTomeMsg, dAtA: array<Byte>, hi: nat) returns (n: nat)
    requires |EncodeKeyTome(m)| <= hi <= dAtA.Length < INT_LIMIT
    modifies dAtA
    ensures n == |EncodeKeyTome(m)| && Prepended(old(dAtA[..]), dAtA[..], hi - n, hi, EncodeKeyTome(m))
  {
    hide LengthBytes, VarintBytes, BoolBytes, EncodeKeyrings, EncodeKeyring, AsUint64, Prepended;
    ghost var from := dAtA[..];
    ghost var b3 := BoolBytes(3, m.sortedByName);
    assert |EncodeKeyTome(m)| == |VarintBytes(1, AsUint64(m.rev))| + |EncodeKeyrings(m.keyrings)| + |b3|;
    PrependedNothing(from, hi);
    assert b3 + [] == b3;
    var i := WriteBool(dAtA, hi, 3, m.sortedByName, from, hi, []);
    var iNdEx := |m.keyrings|;
    EncodeNoKeys();
    assert [] + b3 == b3 && m.keyrings[|m.keyrings|..] == [];
    while iNdEx > 0
      invariant 0 <= iNdEx <= |m.keyrings| && i <= hi
      invariant i == hi - |b3| - |EncodeKeyrings(m.keyrings[iNdEx..])|
      invariant Prepended(from, dAtA[..], i, hi, EncodeKeyrings(m.keyrings[iNdEx..]) + b3)
    {
      iNdEx := iNdEx - 1;
      KeyringsFrom(m.keyrings, iNdEx);
      KeyringsBefore(m.keyrings, iNdEx);
      ghost var p, s0, back := EncodeKeyring(m.keyrings[iNdEx]), dAtA[..], EncodeKeyrings(m.keyrings[iNdEx + 1..]);
      LengthBytesLonger(2, p);
      var size := MarshalKeyring(m.keyrings[iNdEx], dAtA, i);
      i := FinishNested(dAtA, i, size, 2, p, s0, from, hi, back + b3);
      assert LengthBytes(2, p) + (back + b3) == LengthBytes(2, p) + back + b3;
    }
    assert m.keyrings[0..] == m.keyrings;
    i := WriteVarint(dAtA, i, 1, AsUint64(m.rev), from, hi, EncodeKeyrings(m.keyrings) + b3);
    n := hi - i;
  }

  lemma KeyringsFrom(krs: seq<KeyringMsg>, k: nat)
    requires k < |krs|
    ensures EncodeKeyrings(krs[k..]) == LengthBytes(2, EncodeKeyring(krs[k])) + EncodeKeyrings(krs[k + 1..])
  {
    hide LengthBytes, EncodeKeyring;
    assert krs[k..][1..] == krs[k + 1..];
  }

  lemma {:induction false} KeyringsBefore(krs: seq<KeyringMsg>, k: nat)
    requires k <= |krs|
    ensures |EncodeKeyrings(krs[k..])| <= |EncodeKeyrings(krs)|
  {
    if k > 0 {
      KeyringsBefore(krs, k - 1);
      KeyringsFrom(krs, k - 1);
    } else {
      assert krs[0..] == krs;
    }
  }

  method MarshalSigHeader(m: SigHeader, dAtA: array<Byte>, hi: nat) returns (n: nat)
    requires |EncodeSigHeader(m)| <= hi <= dAtA.Length < INT_LIMIT
    modifies dAtA
    ensures n == |EncodeSigHeader(m)| && Prepended(old(dAtA[..]), dAtA[..], hi - n, hi, EncodeSigHeader(m))
  {
    hide VarintBytes, SliceBytes, AsUint64, Prepended;
    ghost var from := dAtA[..];
    ghost var b9 := VarintBytes(9, m.bodySz);
    ghost var b8 := VarintBytes(8, m.headerCodec) + b9;
    ghost var b7 := VarintBytes(7, m.headerSz) + b8;
    ghost var b6 := VarintBytes(6, AsUint64(m.hashKitID)) + b7;
    ghost var b2 := SliceBytes(2, m.signerPubKey) + b6;
    PrependedNothing(from, hi);
    assert b9 + [] == b9;
    var i := WriteVarint(dAtA, hi, 9, m.bodySz, from, hi, []);
    i := WriteVarint(dAtA, i, 8, m.headerCodec, from, hi, b9);
    i := WriteVarint(dAtA, i, 7, m.headerSz, from, hi, b8);
    i := WriteVarint(dAtA, i, 6, AsUint64(m.hashKitID), from, hi, b7);
    i := WriteSlice(dAtA, i, 2, m.signerPubKey, from, hi, b6);
    i := WriteVarint(dAtA, i, 1, AsUint64(m.signerCryptoKit), from, hi, b2);
    n := hi - i;
  }

  /** KeyTome.Marshal: a buffer of the computed size is filled exactly, down to index 0. */
  method KeyTomeMarshal(m: KeyTomeMsg) returns (dAtA: array<Byte>)
    requires |EncodeKeyTome(m)| < INT_LIMIT
    ensures fresh(dAtA) && dAtA[..] == EncodeKeyTome(m)
  {
    var size := SizeKeyTome(m);
    dAtA := new Byte[size];
    var n := MarshalKeyTome(m, dAtA, size);
    assert n == size && dAtA[..] == dAtA[0..size];
  }

  // ----- unmarshalling

  /** skipApiSki */
  method SkipApiSki(dAtA: Bytes) returns (r: Result<nat, WireError>)
    requires |dAtA| < INT_LIMIT
    ensures r == Skip(dAtA, 0, 0)
  {
    hide Skip, SkipOne, ReadVarint, ToInt64, Cut, Pow2;
    var l := |dAtA|;
    var iNdEx := 0;
    var depth := 0;
    assert dAtA[0..] == dAtA;
    while iNdEx < l
      invariant 0 <= iNdEx <= l
      invariant Skip(dAtA, 0, 0) == Skip(dAtA[iNdEx..], iNdEx, depth)
      decreases l - iNdEx
    {
      ghost var s, at, was := dAtA[iNdEx..], iNdEx, depth;
      SkipUnfolds(s, at, depth);
      var tag, _ := DecodeVarint(dAtA, iNdEx, 64);
      SkipOneUnfolds(s);
      if tag.Err? {
        return Err(tag.error);
      }
      CutTo64Mod8(ReadVarint(s).value.0);
      var wireType := tag.value.0 % 8;
      iNdEx := tag.value.1;
      ghost var n := iNdEx - at;
      assert s[n..] == dAtA[iNdEx..];
      if wireType == 0 {
        var end := SkipVarint(dAtA, iNdEx);
        if end.Err? {
          return Err(end.error);
        }
        iNdEx := end.value;
      } else if wireType == 1 {
        iNdEx := iNdEx + 8;
      } else if wireType == 2 {
        var len, _ := DecodeVarint(dAtA, iNdEx, 64);
        if len.Err? {
          return Err(len.error);
        }
        CutKeepsInt64(ReadVarint(s[n..]).value.0);
        var length := ToInt64(len.value.0);
        iNdEx := len.value.1;
        if length < 0 {
          return Err(InvalidLength);
        }
        iNdEx := iNdEx + length;
      } else if wireType == 3 {
        depth := depth + 1;
      } else if wireType == 4 {
        if depth == 0 {
          return Err(UnexpectedEndOfGroup);
        }
        depth := depth - 1;
      } else if wireType == 5 {
        iNdEx := iNdEx + 4;
      } else {
        return Err(IllegalWireType);
      }
      // an index that passes the limit of an int has wrapped around to a negative one
      if iNdEx >= INT_LIMIT {
        return Err(InvalidLength);
      }
      if depth == 0 {
        return Ok(iNdEx);
      }
      if iNdEx > l {
        return Err(UnexpectedEOF);
      }
      assert s[iNdEx - at..] == dAtA[iNdEx..];
    }
    SkipUnfolds(dAtA[iNdEx..], iNdEx, depth);
    return Err(UnexpectedEOF);
  }

  /** Passes over the bytes of a varint without reading it. */
  method SkipVarint(dAtA: Bytes, start: nat) returns (r: Result<nat, WireError>)
    requires start <= |dAtA|
    ensures match VarintEnd(dAtA[start..], 0)
            case Err(e) => r == Err(e)
            case Ok(n) => r == Ok(start + n)
  {
    var iNdEx, shift := start, 0;
    while true
      invariant start <= iNdEx <= |dAtA| && shift == 7 * (iNdEx - start)
      invariant VarintEnd(dAtA[start..], 0) == VarintEnd(dAtA[start..], iNdEx - start)
      decreases |dAtA| - iNdEx
    {
      if shift >= 64 {
        return Err(IntOverflow);
      }
      if iNdEx >= |dAtA| {
        return Err(UnexpectedEOF);
      }
      iNdEx := iNdEx + 1;
      if dAtA[iNdEx - 1] < 0x80 {
        break;
      }
      shift := shift + 7;
    }
    return Ok(iNdEx);
  }

  lemma SkipUnfolds(s: Bytes, at: nat, depth: nat)
    ensures Skip(s, at, depth) ==
            if s == [] then Err(UnexpectedEOF) else
            match SkipOne(s)
            case Err(e) => Err(e)
            case Ok((n, change)) =>
              if depth + change < 0 then Err(UnexpectedEndOfGroup)
              else if at + n >= INT_LIMIT then Err(InvalidLength)
              else if depth + change == 0 then Ok(at + n)
              else if n > |s| then Err(UnexpectedEOF)
              else Skip(s[n..], at + n, depth + change)
  {
    hide SkipOne;
  }

  lemma SkipOneUnfolds(s: Bytes)
    ensures ReadVarint(s).Err? ==> SkipOne(s) == Err(ReadVarint(s).error)
    ensures ReadVarint(s).Ok? ==>
              var (wire, n) := ReadVarint(s).value;
              var wireType := wire % 8;
              && 0 < n <= |s|
              && (wireType == 0 ==> SkipOne(s) == (match VarintEnd(s[n..], 0) case Err(e) => Err(e) case Ok(m) => Ok((n + m, 0))))
              && (wireType == 1 ==> SkipOne(s) == Ok((n + 8, 0)))
              && (wireType == 2 ==> SkipOne(s) == (match ReadVarint(s[n..])
                                                   case Err(e) => Err(e)
                                                   case Ok((v, m)) => if ToInt64(v) < 0 then Err(InvalidLength)
                                                                      else Ok((n + m + ToInt64(v), 0))))
              && (wireType == 3 ==> SkipOne(s) == Ok((n, 1)))
              && (wireType == 4 ==> SkipOne(s) == Ok((n, -1)))
              && (wireType == 5 ==> SkipOne(s) == Ok((n + 4, 0)))
              && (wireType > 5 ==> SkipOne(s) == Err(IllegalWireType))
  {
    hide ToInt64;
  }

  lemma CutTo64Mod8(v: nat)
    ensures Cut(v, 64) % 8 == v % 8
  {
    Pow2Of7And32And64();
    hide Pow2;
  }

  lemma CutKeepsInt64(v: nat)
    ensures ToInt64(Cut(v, 64)) == ToInt64(v)
  {
    Pow2Of7And32And64();
    hide Pow2;
  }

  /** Reads the field at index iNdEx of the message, or passes over one that the message does not know. When it fails in
      the value of a varint field, it has set some bits of that. */
  method ReadField(schema: Schema, dAtA: Bytes, iNdEx: nat) returns (r: Result<(Field, nat), WireError>, bits: Option<Field>)
    requires iNdEx <= |dAtA| < INT_LIMIT
    ensures match NextField(schema, dAtA[iNdEx..], iNdEx)
            case Err(e) => r == Err(e) && bits == PartialField(schema, dAtA[iNdEx..])
            case Ok((f, n)) => r == Ok((f, iNdEx + n))
  {
    hide ReadVarint, ToInt64, Cut, Pow2, FieldNum, NextVarint, NextBytes, NextUnknown, BitsRead;
    bits := None;
    var tag, _ := DecodeVarint(dAtA, iNdEx, 64);
    if tag.Err? {
      return Err(tag.error), None;
    }
    var (wire, at) := tag.value;
    CutTo64Mod8(ReadVarint(dAtA[iNdEx..]).value.0);
    CutKeepsFieldNum(ReadVarint(dAtA[iNdEx..]).value.0);
    var fieldNum := ToInt32(wire / 8);
    var wireType := wire % 8;
    if wireType == 4 {
      return Err(EndGroupForNonGroup), None;
    }
    if fieldNum <= 0 {
      return Err(IllegalTag), None;
    }
    assert dAtA[iNdEx..][at - iNdEx..] == dAtA[at..];
    if fieldNum in schema.varints {
      if wireType != 0 {
        return Err(WrongWireType), None;
      }
      var v;
      r, v := ReadVarintField(fieldNum, schema.varints[fieldNum], dAtA, iNdEx, at);
      bits := Some(VarintField(fieldNum, v));
    } else if fieldNum in schema.lengthDelimited {
      if wireType != 2 {
        return Err(WrongWireType), None;
      }
      r := ReadBytesField(fieldNum, dAtA, iNdEx, at);
    } else {
      r := SkipField(dAtA, iNdEx);
    }
  }

  lemma CutKeepsFieldNum(v: nat)
    ensures FieldNum(v) == ToInt32(Cut(v, 64) / 8)
  {
    hide ToInt32, Pow2;
    Pow2Of7And32And64();
  }

  method ReadVarintField(num: int, width: nat, dAtA: Bytes, preIndex: nat, at: nat)
    returns (r: Result<(Field, nat), WireError>, v: nat)
    requires preIndex <= at <= |dAtA|
    ensures match NextVarint(num, width, dAtA[at..], at - preIndex)
            case Err(e) => r == Err(e) && v == BitsRead(dAtA[at..], width)
            case Ok((f, n)) => r == Ok((f, preIndex + n))
  {
    hide ReadVarint, Cut, BitsRead;
    var decoded;
    decoded, v := DecodeVarint(dAtA, at, width);
    if decoded.Err? {
      return Err(decoded.error), v;
    }
    r := Ok((VarintField(num, v), decoded.value.1));
  }

  method ReadBytesField(num: int, dAtA: Bytes, preIndex: nat, at: nat) returns (r: Result<(Field, nat), WireError>)
    requires preIndex <= at <= |dAtA| < INT_LIMIT
    ensures match NextBytes(num, dAtA[at..], at - preIndex, at)
            case Err(e) => r == Err(e)
            case Ok((f, n)) => r == Ok((f, preIndex + n))
  {
    hide ReadVarint, Cut, ToInt64;
    var len, _ := DecodeVarint(dAtA, at, 64);
    if len.Err? {
      return Err(len.error);
    }
    CutKeepsInt64(ReadVarint(dAtA[at..]).value.0);
    var byteLen := ToInt64(len.value.0);
    var iNdEx := len.value.1;
    if byteLen < 0 {
      return Err(InvalidLength);
    }
    var postIndex := iNdEx + byteLen;
    // a sum that passes the limit of an int has wrapped around to a negative one
    if postIndex >= INT_LIMIT {
      return Err(InvalidLength);
    }
    if postIndex > |dAtA| {
      return Err(UnexpectedEOF);
    }
    assert dAtA[at..][iNdEx - at..postIndex - at] == dAtA[iNdEx..postIndex];
    return Ok((BytesField(num, dAtA[iNdEx..postIndex]), postIndex));
  }

  method SkipField(dAtA: Bytes, preIndex: nat) returns (r: Result<(Field, nat), WireError>)
    requires preIndex <= |dAtA| < INT_LIMIT
    ensures match NextUnknown(dAtA[preIndex..], preIndex)
            case Err(e) => r == Err(e)
            case Ok((f, n)) => r == Ok((f, preIndex + n))
  {
    hide Skip;
    var skippy := SkipApiSki(dAtA[preIndex..]);
    if skippy.Err? {
      return Err(skippy.error);
    }
    if preIndex + skippy.value >= INT_LIMIT {
      return Err(InvalidLength);
    }
    if preIndex + skippy.value > |dAtA| {
      return Err(UnexpectedEOF);
    }
    return Ok((UnknownField, preIndex + skippy.value));
  }

  lemma DecodeUnfolds<M>(schema: Schema, apply: (M, Field) -> Result<M, WireError>, m: M, s: Bytes, base: nat)
    ensures s == [] ==> DecodeWith(schema, apply, m, s, base) == Ok(m)
    ensures s != [] && NextField(schema, s, base).Err? ==>
              DecodeWith(schema, apply, m, s, base) == Err(NextField(schema, s, base).error)
    ensures s != [] && NextField(schema, s, base).Ok? ==>
              var (field, n) := NextField(schema, s, base).value;
              && 1 <= n <= |s|
              && (apply(m, field).Err? ==> DecodeWith(schema, apply, m, s, base) == Err(apply(m, field).error))
              && (apply(m, field).Ok? ==>
                    DecodeWith(schema, apply, m, s, base) == DecodeWith(schema, apply, apply(m, field).value, s[n..], base + n))
  {
    NextFieldFits(schema, s, base);
    hide NextField;
  }

  /** KeyInfo.Unmarshal, onto what the message holds already. */
  method UnmarshalKeyInfo(before: KeyInfo, dAtA: Bytes) returns (r: Result<KeyInfo, WireError>)
    requires |dAtA| < INT_LIMIT
    ensures r == DecodeKeyInfo(before, dAtA)
  {
    hide NextField, DecodeWith, ToInt32, ToInt64;
    var m := before;
    var iNdEx := 0;
    assert dAtA[0..] == dAtA;
    while iNdEx < |dAtA|
      invariant 0 <= iNdEx <= |dAtA|
      invariant DecodeKeyInfo(before, dAtA) == DecodeWith(KEY_INFO_SCHEMA, ApplyKeyInfo, m, dAtA[iNdEx..], iNdEx)
    {
      DecodeUnfolds(KEY_INFO_SCHEMA, ApplyKeyInfo, m, dAtA[iNdEx..], iNdEx);
      var next, _ := ReadField(KEY_INFO_SCHEMA, dAtA, iNdEx);
      if next.Err? {
        return Err(next.error);
      }
      match next.value.0 {
        case VarintField(num, v) =>
          if num == 1 {
            m := m.(keyType := ToInt32(v));
          } else if num == 2 {
            m := m.(cryptoKitID := ToInt32(v));
          } else {
            m := m.(timeCreated := ToInt64(v));
          }
        case BytesField(_, p) => m := m.(pubKey := p);
        case UnknownField =>
      }
      assert dAtA[iNdEx..][next.value.1 - iNdEx..] == dAtA[next.value.1..];
      iNdEx := next.value.1;
    }
    DecodeUnfolds(KEY_INFO_SCHEMA, ApplyKeyInfo, m, dAtA[iNdEx..], iNdEx);
    return Ok(m);
  }

  method UnmarshalKeyEntry(before: KeyEntry, dAtA: Bytes) returns (r: Result<KeyEntry, WireError>)
    requires |dAtA| < INT_LIMIT
    ensures r == DecodeKeyEntry(before, dAtA)
  {
    hide NextField, DecodeWith, DecodeKeyInfo;
    var m := before;
    var iNdEx := 0;
    assert dAtA[0..] == dAtA;
    while iNdEx < |dAtA|
      invariant 0 <= iNdEx <= |dAtA|
      invariant DecodeKeyEntry(before, dAtA) == DecodeWith(KEY_ENTRY_SCHEMA, ApplyKeyEntry, m, dAtA[iNdEx..], iNdEx)
    {
      DecodeUnfolds(KEY_ENTRY_SCHEMA, ApplyKeyEntry, m, dAtA[iNdEx..], iNdEx);
      PayloadFits(KEY_ENTRY_SCHEMA, dAtA[iNdEx..], iNdEx);
      var next, _ := ReadField(KEY_ENTRY_SCHEMA, dAtA, iNdEx);
      if next.Err? {
        return Err(next.error);
      }
      match next.value.0 {
        case VarintField(_, _) =>
        case BytesField(num, p) =>
          if num == 1 {
            var info := UnmarshalKeyInfo(if m.keyInfo.Some? then m.keyInfo.value else EMPTY_KEY_INFO, p);
            if info.Err? {
              return Err(info.error);
            }
            m := m.(keyInfo := Some(info.value));
          } else {
            m := m.(privKey := p);
          }
        case UnknownField =>
      }
      assert dAtA[iNdEx..][next.value.1 - iNdEx..] == dAtA[next.value.1..];
      iNdEx := next.value.1;
    }
    DecodeUnfolds(KEY_ENTRY_SCHEMA, ApplyKeyEntry, m, dAtA[iNdEx..], iNdEx);
    return Ok(m);
  }

  lemma PayloadFits(schema: Schema, s: Bytes, base: nat)
    ensures NextField(schema, s, base).Ok? && NextField(schema, s, base).value.0.BytesField? ==>
              |NextField(schema, s, base).value.0.payload| <= |s|
  {
    hide ToInt64, Skip;
  }

  method UnmarshalKeyring(before: KeyringMsg, dAtA: Bytes) returns (r: Result<KeyringMsg, WireError>)
    requires |dAtA| < INT_LIMIT
    ensures r == DecodeKeyring(before, dAtA)
  {
    hide NextField, DecodeWith, DecodeKeyEntry;
    var m := before;
    var iNdEx := 0;
    assert dAtA[0..] == dAtA;
    while iNdEx < |dAtA|
      invariant 0 <= iNdEx <= |dAtA|
      invariant DecodeKeyring(before, dAtA) == DecodeWith(KEYRING_SCHEMA, ApplyKeyring, m, dAtA[iNdEx..], iNdEx)
    {
      DecodeUnfolds(KEYRING_SCHEMA, ApplyKeyring, m, dAtA[iNdEx..], iNdEx);
      PayloadFits(KEYRING_SCHEMA, dAtA[iNdEx..], iNdEx);
      var next, _ := ReadField(KEYRING_SCHEMA, dAtA, iNdEx);
      if next.Err? {
        return Err(next.error);
      }
      match next.value.0 {
        case VarintField(_, v) => m := m.(sortedByPubKey := v != 0);
        case BytesField(num, p) =>
          if num == 1 {
            m := m.(name := p);
          } else if num == 2 {
            var entry := UnmarshalKeyEntry(EMPTY_KEY_ENTRY, p);
            if entry.Err? {
              return Err(entry.error);
            }
            m := m.(keys := m.keys + [entry.value]);
          } else {
            m := m.(newestPubKey := p);
          }
        case UnknownField =>
      }
      assert dAtA[iNdEx..][next.value.1 - iNdEx..] == dAtA[next.value.1..];
      iNdEx := next.value.1;
    }
    DecodeUnfolds(KEYRING_SCHEMA, ApplyKeyring, m, dAtA[iNdEx..], iNdEx);
    return Ok(m);
  }

  method UnmarshalKeyTome(before: KeyTomeMsg, dAtA: Bytes) returns (r: Result<KeyTomeMsg, WireError>)
    requires |dAtA| < INT_LIMIT
    ensures r == DecodeKeyTome(before, dAtA)
  {
    hide NextField, DecodeWith, DecodeKeyring, ToInt64;
    var m := before;
    var iNdEx := 0;
    assert dAtA[0..] == dAtA;
    while iNdEx < |dAtA|
      invariant 0 <= iNdEx <= |dAtA|
      invariant DecodeKeyTome(before, dAtA) == DecodeWith(KEY_TOME_SCHEMA, ApplyKeyTome, m, dAtA[iNdEx..], iNdEx)
    {
      DecodeUnfolds(KEY_TOME_SCHEMA, ApplyKeyTome, m, dAtA[iNdEx..], iNdEx);
      PayloadFits(KEY_TOME_SCHEMA, dAtA[iNdEx..], iNdEx);
      var next, _ := ReadField(KEY_TOME_SCHEMA, dAtA, iNdEx);
      if next.Err? {
        return Err(next.error);
      }
      match next.value.0 {
        case VarintField(num, v) =>
          if num == 1 {
            m := m.(rev := ToInt64(v));
          } else {
            m := m.(sortedByName := v != 0);
          }
        case BytesField(_, p) =>
          var kr := UnmarshalKeyring(EMPTY_KEYRING, p);
          if kr.Err? {
            return Err(kr.error);
          }
          m := m.(keyrings := m.keyrings + [kr.value]);
        case UnknownField =>
      }
      assert dAtA[iNdEx..][next.value.1 - iNdEx..] == dAtA[next.value.1..];
      iNdEx := next.value.1;
    }
    DecodeUnfolds(KEY_TOME_SCHEMA, ApplyKeyTome, m, dAtA[iNdEx..], iNdEx);
    return Ok(m);
  }

  /** SigHeader.Unmarshal; m is what the message holds when it returns. */
  method UnmarshalSigHeader(before: SigHeader, dAtA: Bytes) returns (r: Result<SigHeader, WireError>, m: SigHeader)
    requires |dAtA| < INT_LIMIT
    ensures r == DecodeSigHeader(before, dAtA) && m == LeftBySigHeader(before, dAtA, 0)
  {
    hide NextField, DecodeWith, LeftBySigHeader, PartialField, ToInt32, ToUint32, ToUint64;
    m := before;
    var iNdEx := 0;
    assert dAtA[0..] == dAtA;
    while iNdEx < |dAtA|
      invariant 0 <= iNdEx <= |dAtA|
      invariant DecodeSigHeader(before, dAtA) == DecodeWith(SIG_HEADER_SCHEMA, ApplySigHeader, m, dAtA[iNdEx..], iNdEx)
      invariant LeftBySigHeader(before, dAtA, 0) == LeftBySigHeader(m, dAtA[iNdEx..], iNdEx)
    {
      DecodeUnfolds(SIG_HEADER_SCHEMA, ApplySigHeader, m, dAtA[iNdEx..], iNdEx);
      LeftUnfolds(m, dAtA[iNdEx..], iNdEx);
      var next, bits := ReadField(SIG_HEADER_SCHEMA, dAtA, iNdEx);
      var field := if next.Ok? then next.value.0 else if bits.Some? then bits.value else UnknownField;
      match field {
        case VarintField(num, v) =>
          if num == 1 {
            m := m.(signerCryptoKit := ToInt32(v));
          } else if num == 6 {
            m := m.(hashKitID := ToInt32(v));
          } else if num == 7 {
            m := m.(headerSz := ToUint32(v));
          } else if num == 8 {
            m := m.(headerCodec := ToUint32(v));
          } else {
            m := m.(bodySz := ToUint64(v));
          }
        case BytesField(_, p) => m := m.(signerPubKey := p);
        case UnknownField =>
      }
      if next.Err? {
        return Err(next.error), m;
      }
      assert dAtA[iNdEx..][next.value.1 - iNdEx..] == dAtA[next.value.1..];
      iNdEx := next.value.1;
    }
    DecodeUnfolds(SIG_HEADER_SCHEMA, ApplySigHeader, m, dAtA[iNdEx..], iNdEx);
    LeftUnfolds(m, dAtA[iNdEx..], iNdEx);
    r := Ok(m);
  }

  lemma LeftUnfolds(m: SigHeader, s: Bytes, base: nat)
    ensures s == [] ==> LeftBySigHeader(m, s, base) == m
    ensures s != [] ==>
              match NextField(SIG_HEADER_SCHEMA, s, base)
              case Ok((field, n)) =>
                1 <= n <= |s| && LeftBySigHeader(m, s, base) == LeftBySigHeader(ApplySigHeader(m, field).value, s[n..], base + n)
              case Err(_) =>
                match PartialField(SIG_HEADER_SCHEMA, s)
                case Some(field) => LeftBySigHeader(m, s, base) == ApplySigHeader(m, field).value
                case None => LeftBySigHeader(m, s, base) == m
  {
    hide NextField, ApplySigHeader, PartialField;
  }
}

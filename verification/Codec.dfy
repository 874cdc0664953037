/** The messages of the key interface on the wire: what marshalling writes, what unmarshalling reads. */
module Codec {
  import opened Wrappers
  import opened Bytes
  import opened Messages
  import opened Words
  import opened Varint
  import opened Wire

  // ----- what marshalling writes

  /** A varint field; zero is left out. */
  function VarintBytes(num: nat, v: Uint64): Bytes
    requires 1 <= num <= 15
  {
    if v == 0 then [] else [num * 8] + EncodeVarint(v)
  }

  /** A length-delimited field. */
  function LengthBytes(num: nat, p: Bytes): Bytes
    requires 1 <= num <= 15
  {
    [num * 8 + 2] + EncodeVarint(|p|) + p
  }

  /** A byte slice field; an empty one is left out. */
  function SliceBytes(num: nat, p: Bytes): Bytes
    requires 1 <= num <= 15
  {
    if p == [] then [] else LengthBytes(num, p)
  }

  function BoolBytes(num: nat, b: bool): Bytes
    requires 1 <= num <= 15
  {
    if b then [num * 8, 1] else []
  }

  function EncodeKeyInfo(m: KeyInfo): Bytes {
    VarintBytes(1, AsUint64(m.keyType)) + (VarintBytes(2, AsUint64(m.cryptoKitID)) +
    (VarintBytes(3, AsUint64(m.timeCreated)) + SliceBytes(4, m.pubKey)))
  }

  function EncodeKeyEntry(m: KeyEntry): Bytes {
    (if m.keyInfo.Some? then LengthBytes(1, EncodeKeyInfo(m.keyInfo.value)) else []) + SliceBytes(6, m.privKey)
  }

  function EncodeKeys(keys: seq<KeyEntry>): Bytes {
    if keys == [] then [] else LengthBytes(2, EncodeKeyEntry(keys[0])) + EncodeKeys(keys[1..])
  }

  function EncodeKeyring(m: KeyringMsg): Bytes {
    SliceBytes(1, m.name) + (EncodeKeys(m.keys) + (BoolBytes(3, m.sortedByPubKey) + SliceBytes(4, m.newestPubKey)))
  }

  function EncodeKeyrings(krs: seq<KeyringMsg>): Bytes {
    if krs == [] then [] else LengthBytes(2, EncodeKeyring(krs[0])) + EncodeKeyrings(krs[1..])
  }

  function EncodeKeyTome(m: KeyTomeMsg): Bytes {
    VarintBytes(1, AsUint64(m.rev)) + (EncodeKeyrings(m.keyrings) + BoolBytes(3, m.sortedByName))
  }

  function EncodeSigHeader(m: SigHeader): Bytes {
    VarintBytes(1, AsUint64(m.signerCryptoKit)) + (SliceBytes(2, m.signerPubKey) +
    (VarintBytes(6, AsUint64(m.hashKitID)) + (VarintBytes(7, m.headerSz) +
    (VarintBytes(8, m.headerCodec) + VarintBytes(9, m.bodySz)))))
  }

  // ----- the same byte by byte: each field behind its tag, absent when it has its zero value

  lemma KeyInfoLayout(m: KeyInfo)
    ensures EncodeKeyInfo(m)
         == (if m.keyType == 0 then [] else [0x08] + EncodeVarint(AsUint64(m.keyType)))
          + ((if m.cryptoKitID == 0 then [] else [0x10] + EncodeVarint(AsUint64(m.cryptoKitID)))
          + ((if m.timeCreated == 0 then [] else [0x18] + EncodeVarint(AsUint64(m.timeCreated)))
          + (if m.pubKey == [] then [] else [0x22] + EncodeVarint(|m.pubKey|) + m.pubKey)))
  {
    hide EncodeVarint;
  }

  lemma KeyEntryLayout(m: KeyEntry)
    ensures EncodeKeyEntry(m)
         == (if m.keyInfo.None? then [] else
             var info := EncodeKeyInfo(m.keyInfo.value); [0x0a] + EncodeVarint(|info|) + info)
          + (if m.privKey == [] then [] else [0x32] + EncodeVarint(|m.privKey|) + m.privKey)
  {
    hide EncodeVarint, EncodeKeyInfo;
  }

  lemma KeyringLayout(m: KeyringMsg)
    ensures EncodeKeyring(m)
         == (if m.name == [] then [] else [0x0a] + EncodeVarint(|m.name|) + m.name)
          + (EncodeKeys(m.keys)
          + ((if m.sortedByPubKey then [0x18, 1] else [])
          + (if m.newestPubKey == [] then [] else [0x22] + EncodeVarint(|m.newestPubKey|) + m.newestPubKey)))
    ensures EncodeKeys([]) == []
    ensures forall e :: EncodeKeys(m.keys + [e])
                     == EncodeKeys(m.keys) + ([0x12] + EncodeVarint(|EncodeKeyEntry(e)|) + EncodeKeyEntry(e))
  {
    hide EncodeVarint, EncodeKeyEntry;
    forall e ensures EncodeKeys(m.keys + [e])
                  == EncodeKeys(m.keys) + ([0x12] + EncodeVarint(|EncodeKeyEntry(e)|) + EncodeKeyEntry(e))
    {
      KeysAppend(m.keys, e);
    }
  }

  lemma {:induction false} KeysAppend(keys: seq<KeyEntry>, e: KeyEntry)
    ensures EncodeKeys(keys + [e]) == EncodeKeys(keys) + LengthBytes(2, EncodeKeyEntry(e))
  {
    hide LengthBytes, EncodeKeyEntry;
    if keys == [] {
      assert keys + [e] == [e] && [e][1..] == [];
    } else {
      assert (keys + [e])[1..] == keys[1..] + [e];
      KeysAppend(keys[1..], e);
    }
  }

  lemma KeyTomeLayout(m: KeyTomeMsg)
    ensures EncodeKeyTome(m)
         == (if m.rev == 0 then [] else [0x08] + EncodeVarint(AsUint64(m.rev)))
          + (EncodeKeyrings(m.keyrings) + (if m.sortedByName then [0x18, 1] else []))
    ensures EncodeKeyrings([]) == []
    ensures forall kr :: EncodeKeyrings(m.keyrings + [kr])
                      == EncodeKeyrings(m.keyrings) + ([0x12] + EncodeVarint(|EncodeKeyring(kr)|) + EncodeKeyring(kr))
  {
    hide EncodeVarint, EncodeKeyring;
    forall kr ensures EncodeKeyrings(m.keyrings + [kr])
                   == EncodeKeyrings(m.keyrings) + ([0x12] + EncodeVarint(|EncodeKeyring(kr)|) + EncodeKeyring(kr))
    {
      KeyringsAppend(m.keyrings, kr);
    }
  }

  lemma {:induction false} KeyringsAppend(krs: seq<KeyringMsg>, kr: KeyringMsg)
    ensures EncodeKeyrings(krs + [kr]) == EncodeKeyrings(krs) + LengthBytes(2, EncodeKeyring(kr))
  {
    hide LengthBytes, EncodeKeyring;
    if krs == [] {
      assert krs + [kr] == [kr] && [kr][1..] == [];
    } else {
      assert (krs + [kr])[1..] == krs[1..] + [kr];
      KeyringsAppend(krs[1..], kr);
    }
  }

  lemma SigHeaderLayout(m: SigHeader)
    ensures EncodeSigHeader(m)
         == (if m.signerCryptoKit == 0 then [] else [0x08] + EncodeVarint(AsUint64(m.signerCryptoKit)))
          + ((if m.signerPubKey == [] then [] else [0x12] + EncodeVarint(|m.signerPubKey|) + m.signerPubKey)
          + ((if m.hashKitID == 0 then [] else [0x30] + EncodeVarint(AsUint64(m.hashKitID)))
          + ((if m.headerSz == 0 then [] else [0x38] + EncodeVarint(m.headerSz))
          + ((if m.headerCodec == 0 then [] else [0x40] + EncodeVarint(m.headerCodec))
          + (if m.bodySz == 0 then [] else [0x48] + EncodeVarint(m.bodySz))))))
  {
    hide EncodeVarint;
  }

  // ----- what unmarshalling reads

  const EMPTY_KEY_INFO := KeyInfo(0, 0, 0, [])
  const EMPTY_KEY_ENTRY := KeyEntry(None, [])
  const EMPTY_KEYRING := KeyringMsg([], [], false, [])
  const EMPTY_KEY_TOME := KeyTomeMsg(0, [], false)
  const EMPTY_SIG_HEADER := SigHeader(0, [], 0, 0, 0, 0)

  const KEY_INFO_SCHEMA := Schema(map[1 := 32, 2 := 32, 3 := 64], {4})
  const KEY_ENTRY_SCHEMA := Schema(map[], {1, 6})
  const KEYRING_SCHEMA := Schema(map[3 := 64], {1, 2, 4})
  const KEY_TOME_SCHEMA := Schema(map[1 := 64, 3 := 64], {2})
  const SIG_HEADER_SCHEMA := Schema(map[1 := 32, 6 := 32, 7 := 32, 8 := 32, 9 := 64], {2})

  function ToUint32(pattern: nat): Uint32 { pattern % 0x1_0000_0000 }

  function ToUint64(pattern: nat): Uint64 { pattern % 0x1_0000_0000_0000_0000 }

  function ApplyKeyInfo(m: KeyInfo, f: Field): Result<KeyInfo, WireError> {
    match f
    case VarintField(num, v) =>
      if num == 1 then Ok(m.(keyType := ToInt32(v)))
      else if num == 2 then Ok(m.(cryptoKitID := ToInt32(v)))
      else Ok(m.(timeCreated := ToInt64(v)))
    case BytesField(_, p) => Ok(m.(pubKey := p))
    case UnknownField => Ok(m)
  }

  function DecodeKeyInfo(m: KeyInfo, s: Bytes): Result<KeyInfo, WireError> {
    DecodeWith(KEY_INFO_SCHEMA, ApplyKeyInfo, m, s, 0)
  }

  /** A nested info is decoded into the one already there. */
  function ApplyKeyEntry(m: KeyEntry, f: Field): Result<KeyEntry, WireError> {
    match f
    case VarintField(_, _) => Ok(m)
    case BytesField(num, p) =>
      if num == 1 then
        match DecodeKeyInfo(if m.keyInfo.Some? then m.keyInfo.value else EMPTY_KEY_INFO, p) {
          case Err(e) => Err(e)
          case Ok(info) => Ok(m.(keyInfo := Some(info)))
        }
      else Ok(m.(privKey := p))
    case UnknownField => Ok(m)
  }

  function DecodeKeyEntry(m: KeyEntry, s: Bytes): Result<KeyEntry, WireError> {
    DecodeWith(KEY_ENTRY_SCHEMA, ApplyKeyEntry, m, s, 0)
  }

  function ApplyKeyring(m: KeyringMsg, f: Field): Result<KeyringMsg, WireError> {
    match f
    case VarintField(_, v) => Ok(m.(sortedByPubKey := v != 0))
    case BytesField(num, p) =>
      if num == 1 then Ok(m.(name := p))
      else if num == 2 then
        match DecodeKeyEntry(EMPTY_KEY_ENTRY, p) {
          case Err(e) => Err(e)
          case Ok(entry) => Ok(m.(keys := m.keys + [entry]))
        }
      else Ok(m.(newestPubKey := p))
    case UnknownField => Ok(m)
  }

  function DecodeKeyring(m: KeyringMsg, s: Bytes): Result<KeyringMsg, WireError> {
    DecodeWith(KEYRING_SCHEMA, ApplyKeyring, m, s, 0)
  }

  function ApplyKeyTome(m: KeyTomeMsg, f: Field): Result<KeyTomeMsg, WireError> {
    match f
    case VarintField(num, v) => if num == 1 then Ok(m.(rev := ToInt64(v))) else Ok(m.(sortedByName := v != 0))
    case BytesField(_, p) =>
      (match DecodeKeyring(EMPTY_KEYRING, p)
       case Err(e) => Err(e)
       case Ok(kr) => Ok(m.(keyrings := m.keyrings + [kr])))
    case UnknownField => Ok(m)
  }

  function DecodeKeyTome(m: KeyTomeMsg, s: Bytes): Result<KeyTomeMsg, WireError> {
    DecodeWith(KEY_TOME_SCHEMA, ApplyKeyTome, m, s, 0)
  }

  function ApplySigHeader(m: SigHeader, f: Field): (r: Result<SigHeader, WireError>)
    ensures r.Ok?
  {
    match f
    case VarintField(num, v) =>
      if num == 1 then Ok(m.(signerCryptoKit := ToInt32(v)))
      else if num == 6 then Ok(m.(hashKitID := ToInt32(v)))
      else if num == 7 then Ok(m.(headerSz := ToUint32(v)))
      else if num == 8 then Ok(m.(headerCodec := ToUint32(v)))
      else Ok(m.(bodySz := ToUint64(v)))
    case BytesField(_, p) => Ok(m.(signerPubKey := p))
    case UnknownField => Ok(m)
  }

  function DecodeSigHeader(m: SigHeader, s: Bytes): Result<SigHeader, WireError> {
    DecodeWith(SIG_HEADER_SCHEMA, ApplySigHeader, m, s, 0)
  }

  /** What SigHeader.Unmarshal has made of m when it returns, with or without an error. */
  function LeftBySigHeader(m: SigHeader, s: Bytes, base: nat): SigHeader
    decreases |s|
  {
    if s == [] then m else
    match NextField(SIG_HEADER_SCHEMA, s, base)
    case Ok((field, n)) => LeftBySigHeader(ApplySigHeader(m, field).value, s[n..], base + n)
    case Err(_) =>
      match PartialField(SIG_HEADER_SCHEMA, s)
      case Some(field) => ApplySigHeader(m, field).value
      case None => m
  }

  // ----- one field there and back

  lemma TagIsOneByte(num: nat, wireType: nat, s: Bytes)
    requires 1 <= num <= 15 && wireType < 8
    ensures ReadVarint([num * 8 + wireType] + s) == Ok((num * 8 + wireType, 1))
    ensures FieldNum(num * 8 + wireType) == num && (num * 8 + wireType) % 8 == wireType
    ensures ([num * 8 + wireType] + s)[1..] == s
  {
    var t := [num * 8 + wireType] + s;
    assert VarintEnd(t, 0) == Ok(1);
    assert t[..1] == [num * 8 + wireType];
    assert GroupsValue(t[..1]) == num * 8 + wireType + 128 * GroupsValue(t[..1][1..]);
  }

  lemma NextOfVarintBytes(schema: Schema, num: nat, v: Uint64, rest: Bytes, base: nat)
    requires 1 <= num <= 15 && num in schema.varints && v != 0
    ensures NextField(schema, VarintBytes(num, v) + rest, base) == Ok((VarintField(num, Cut(v, schema.varints[num])), |VarintBytes(num, v)|))
  {
    hide ReadVarint, EncodeVarint, FieldNum, Sov, Cut;
    var tail := EncodeVarint(v) + rest;
    assert VarintBytes(num, v) + rest == [num * 8 + 0] + tail;
    TagIsOneByte(num, 0, tail);
    VarintRoundTrip(v, rest);
    SovIsLength(v);
  }

  lemma NextOfLengthBytes(schema: Schema, num: nat, p: Bytes, rest: Bytes, base: nat)
    requires 1 <= num <= 15 && num in schema.lengthDelimited && num !in schema.varints
    requires base + |LengthBytes(num, p) + rest| < INT_LIMIT
    ensures NextField(schema, LengthBytes(num, p) + rest, base) == Ok((BytesField(num, p), |LengthBytes(num, p)|))
  {
    hide ReadVarint, EncodeVarint, FieldNum, Sov, ToInt64;
    var tail := EncodeVarint(|p|) + (p + rest);
    assert LengthBytes(num, p) + rest == [num * 8 + 2] + tail;
    TagIsOneByte(num, 2, tail);
    ReadLength(|p|, p + rest);
    var m := |EncodeVarint(|p|)|;
    assert tail[m..m + |p|] == p;
  }

  /** Decoding a varint field that marshalling wrote, or left out as zero, applies its value. */
  lemma DecodesVarint<M>(schema: Schema, apply: (M, Field) -> Result<M, WireError>, m: M, num: nat, v: Uint64, rest: Bytes,
                         base: nat, m': M)
    requires 1 <= num <= 15 && num in schema.varints
    requires if v == 0 then m' == m else apply(m, VarintField(num, Cut(v, schema.varints[num]))) == Ok(m')
    ensures DecodeWith(schema, apply, m, VarintBytes(num, v) + rest, base)
         == DecodeWith(schema, apply, m', rest, base + |VarintBytes(num, v)|)
  {
    hide NextField, VarintBytes, Cut, DecodeWith;
    var s := VarintBytes(num, v) + rest;
    if v == 0 {
      VarintBytesOfZero(num);
      assert s == rest;
    } else {
      NextOfVarintBytes(schema, num, v, rest, base);
      DecodeStep(schema, apply, m, s, base, VarintField(num, Cut(v, schema.varints[num])), |VarintBytes(num, v)|, m');
      assert s[|VarintBytes(num, v)|..] == rest;
    }
  }

  lemma VarintBytesOfZero(num: nat)
    requires 1 <= num <= 15
    ensures VarintBytes(num, 0) == []
  {
  }

  lemma DecodesLength<M>(schema: Schema, apply: (M, Field) -> Result<M, WireError>, m: M, num: nat, p: Bytes, rest: Bytes,
                         base: nat, m': M)
    requires 1 <= num <= 15 && num in schema.lengthDelimited && num !in schema.varints
    requires base + |LengthBytes(num, p) + rest| < INT_LIMIT
    requires apply(m, BytesField(num, p)) == Ok(m')
    ensures DecodeWith(schema, apply, m, LengthBytes(num, p) + rest, base)
         == DecodeWith(schema, apply, m', rest, base + |LengthBytes(num, p)|)
  {
    hide NextField, LengthBytes, DecodeWith;
    var s := LengthBytes(num, p) + rest;
    NextOfLengthBytes(schema, num, p, rest, base);
    DecodeStep(schema, apply, m, s, base, BytesField(num, p), |LengthBytes(num, p)|, m');
    assert s[|LengthBytes(num, p)|..] == rest;
  }

  lemma DecodesSlice<M>(schema: Schema, apply: (M, Field) -> Result<M, WireError>, m: M, num: nat, p: Bytes, rest: Bytes,
                        base: nat, m': M)
    requires 1 <= num <= 15 && num in schema.lengthDelimited && num !in schema.varints
    requires base + |SliceBytes(num, p) + rest| < INT_LIMIT
    requires if p == [] then m' == m else apply(m, BytesField(num, p)) == Ok(m')
    ensures DecodeWith(schema, apply, m, SliceBytes(num, p) + rest, base)
         == DecodeWith(schema, apply, m', rest, base + |SliceBytes(num, p)|)
  {
    hide LengthBytes, DecodeWith, NextField;
    if p == [] {
      assert SliceBytes(num, p) + rest == rest;
    } else {
      DecodesLength(schema, apply, m, num, p, rest, base, m');
    }
  }

  lemma DecodesBool<M>(schema: Schema, apply: (M, Field) -> Result<M, WireError>, m: M, num: nat, b: bool, rest: Bytes,
                       base: nat, m': M)
    requires 1 <= num <= 15 && num in schema.varints
    requires schema.varints[num] == 64
    requires if b then apply(m, VarintField(num, 1)) == Ok(m') else m' == m
    ensures DecodeWith(schema, apply, m, BoolBytes(num, b) + rest, base)
         == DecodeWith(schema, apply, m', rest, base + |BoolBytes(num, b)|)
  {
    hide Cut, DecodeWith;
    if b {
      assert EncodeVarint(1) == [1];
      CutTo64(1);
      assert BoolBytes(num, b) == VarintBytes(num, 1);
      DecodesVarint(schema, apply, m, num, 1, rest, base, m');
    } else {
      assert BoolBytes(num, b) + rest == rest;
    }
  }

  // ----- whole messages there and back

  lemma DecodesNothing<M>(schema: Schema, apply: (M, Field) -> Result<M, WireError>, m: M, base: nat)
    ensures DecodeWith(schema, apply, m, [], base) == Ok(m)
  {
  }

  // Unmarshalling into a message that holds something already: a field that is there on the wire wins, repeated fields are
  // added, and a nested info is merged in the same way.

  function Latest<T(==)>(zero: T, was: T, now: T): T { if now == zero then was else now }

  function MergedInfo(a: KeyInfo, b: KeyInfo): KeyInfo {
    KeyInfo(Latest(0, a.keyType, b.keyType), Latest(0, a.cryptoKitID, b.cryptoKitID), Latest(0, a.timeCreated, b.timeCreated),
            Latest([], a.pubKey, b.pubKey))
  }

  function InfoOf(e: KeyEntry): KeyInfo { if e.keyInfo.Some? then e.keyInfo.value else EMPTY_KEY_INFO }

  function MergedEntry(a: KeyEntry, b: KeyEntry): KeyEntry {
    KeyEntry(if b.keyInfo.None? then a.keyInfo else Some(MergedInfo(InfoOf(a), b.keyInfo.value)), Latest([], a.privKey, b.privKey))
  }

  function MergedKeyring(a: KeyringMsg, b: KeyringMsg): KeyringMsg {
    KeyringMsg(Latest([], a.name, b.name), a.keys + b.keys, a.sortedByPubKey || b.sortedByPubKey,
               Latest([], a.newestPubKey, b.newestPubKey))
  }

  function MergedTome(a: KeyTomeMsg, b: KeyTomeMsg): KeyTomeMsg {
    KeyTomeMsg(Latest(0, a.rev, b.rev), a.keyrings + b.keyrings, a.sortedByName || b.sortedByName)
  }

  function MergedSigHeader(a: SigHeader, b: SigHeader): SigHeader {
    SigHeader(Latest(0, a.signerCryptoKit, b.signerCryptoKit), Latest([], a.signerPubKey, b.signerPubKey),
              Latest(0, a.hashKitID, b.hashKitID), Latest(0, a.headerSz, b.headerSz), Latest(0, a.headerCodec, b.headerCodec),
              Latest(0, a.bodySz, b.bodySz))
  }

  lemma KeyInfoInto(m0: KeyInfo, m: KeyInfo, base: nat)
    requires base + |EncodeKeyInfo(m)| < INT_LIMIT
    ensures DecodeWith(KEY_INFO_SCHEMA, ApplyKeyInfo, m0, EncodeKeyInfo(m), base) == Ok(MergedInfo(m0, m))
  {
    hide DecodeWith, VarintBytes, SliceBytes, ToInt32, ToInt64, AsUint64, Cut;
    var sch := KEY_INFO_SCHEMA;
    var t1, t2, t3 := AsUint64(m.keyType), AsUint64(m.cryptoKitID), AsUint64(m.timeCreated);
    var b1, b2, b3, b4 := VarintBytes(1, t1), VarintBytes(2, t2), VarintBytes(3, t3), SliceBytes(4, m.pubKey);
    var end := MergedInfo(m0, m);
    var m1 := m0.(keyType := end.keyType);
    var m2 := m1.(cryptoKitID := end.cryptoKitID);
    var m3 := m2.(timeCreated := end.timeCreated);
    WordOf(m.keyType);
    WordOf(m.cryptoKitID);
    WordOf(m.timeCreated);
    DecodesVarint(sch, ApplyKeyInfo, m0, 1, t1, b2 + (b3 + b4), base, m1);
    DecodesVarint(sch, ApplyKeyInfo, m1, 2, t2, b3 + b4, base + |b1|, m2);
    DecodesVarint(sch, ApplyKeyInfo, m2, 3, t3, b4, base + |b1| + |b2|, m3);
    assert b4 + [] == b4;
    DecodesSlice(sch, ApplyKeyInfo, m3, 4, m.pubKey, [], base + |b1| + |b2| + |b3|, end);
    DecodesNothing(sch, ApplyKeyInfo, end, base + |b1| + |b2| + |b3| + |b4|);
  }

  lemma KeyInfoRoundTrip(m: KeyInfo)
    requires |EncodeKeyInfo(m)| < INT_LIMIT
    ensures DecodeKeyInfo(EMPTY_KEY_INFO, EncodeKeyInfo(m)) == Ok(m)
  {
    hide DecodeWith, EncodeKeyInfo;
    KeyInfoInto(EMPTY_KEY_INFO, m, 0);
  }

  lemma CutTo64(v: Uint64)
    ensures Cut(v, 64) == v
  {
    Pow2Of7And32And64();
  }

  lemma CutTo32(v: Uint64)
    ensures Cut(v, 32) == v % 0x1_0000_0000
  {
    Pow2Of7And32And64();
  }

  /** A signed word, sign-extended to 64 bits and read back at its own width. */
  lemma WordOf(x: Int64)
    ensures AsUint64(x) == 0 <==> x == 0
    ensures ToInt64(Cut(AsUint64(x), 64)) == x
    ensures -0x8000_0000 <= x < 0x8000_0000 ==> ToInt32(Cut(AsUint64(x), 32)) == x
  {
    hide Cut;
    SignedRoundTrip(x);
    CutTo64(AsUint64(x));
    CutTo32(AsUint64(x));
  }

  lemma UnsignedWordOf(x: Uint64)
    ensures ToUint64(Cut(x, 64)) == x
    ensures x < 0x1_0000_0000 ==> ToUint32(Cut(x, 32)) == x
  {
    hide Cut;
    CutTo64(x);
    CutTo32(x);
  }

  lemma KeyEntryInto(m0: KeyEntry, m: KeyEntry, base: nat)
    requires base + |EncodeKeyEntry(m)| < INT_LIMIT
    ensures DecodeWith(KEY_ENTRY_SCHEMA, ApplyKeyEntry, m0, EncodeKeyEntry(m), base) == Ok(MergedEntry(m0, m))
  {
    hide DecodeWith, LengthBytes, SliceBytes, EncodeKeyInfo;
    var sch := KEY_ENTRY_SCHEMA;
    var b6 := SliceBytes(6, m.privKey);
    var end := MergedEntry(m0, m);
    var m1 := m0.(keyInfo := end.keyInfo);
    var at := base;
    if m.keyInfo.Some? {
      var p := EncodeKeyInfo(m.keyInfo.value);
      LengthBytesLonger(1, p);
      KeyInfoInto(InfoOf(m0), m.keyInfo.value, 0);
      DecodesLength(sch, ApplyKeyEntry, m0, 1, p, b6, base, m1);
      at := base + |LengthBytes(1, p)|;
    } else {
      assert EncodeKeyEntry(m) == b6;
    }
    assert b6 + [] == b6;
    DecodesSlice(sch, ApplyKeyEntry, m1, 6, m.privKey, [], at, end);
    DecodesNothing(sch, ApplyKeyEntry, end, at + |b6|);
  }

  lemma KeyEntryRoundTrip(m: KeyEntry)
    requires |EncodeKeyEntry(m)| < INT_LIMIT
    ensures DecodeKeyEntry(EMPTY_KEY_ENTRY, EncodeKeyEntry(m)) == Ok(m)
  {
    hide DecodeWith, EncodeKeyEntry;
    KeyEntryInto(EMPTY_KEY_ENTRY, m, 0);
  }

  lemma LengthBytesLonger(num: nat, p: Bytes)
    requires 1 <= num <= 15
    ensures |LengthBytes(num, p)| > |p|
  {
  }

  lemma {:induction false} DecodesKeys(m: KeyringMsg, keys: seq<KeyEntry>, rest: Bytes, base: nat)
    requires base + |EncodeKeys(keys) + rest| < INT_LIMIT
    ensures DecodeWith(KEYRING_SCHEMA, ApplyKeyring, m, EncodeKeys(keys) + rest, base)
         == DecodeWith(KEYRING_SCHEMA, ApplyKeyring, m.(keys := m.keys + keys), rest, base + |EncodeKeys(keys)|)
    decreases keys
  {
    hide DecodeWith, LengthBytes, EncodeKeyEntry, DecodeKeyEntry;
    if keys == [] {
      assert EncodeKeys(keys) + rest == rest && m.keys + keys == m.keys;
    } else {
      var p := EncodeKeyEntry(keys[0]);
      var more := EncodeKeys(keys[1..]) + rest;
      assert EncodeKeys(keys) + rest == LengthBytes(2, p) + more;
      LengthBytesLonger(2, p);
      KeyEntryRoundTrip(keys[0]);
      var m1 := m.(keys := m.keys + [keys[0]]);
      DecodesLength(KEYRING_SCHEMA, ApplyKeyring, m, 2, p, more, base, m1);
      DecodesKeys(m1, keys[1..], rest, base + |LengthBytes(2, p)|);
      assert m.keys + [keys[0]] + keys[1..] == m.keys + keys;
    }
  }

  lemma KeyringInto(m0: KeyringMsg, m: KeyringMsg, base: nat)
    requires base + |EncodeKeyring(m)| < INT_LIMIT
    ensures DecodeWith(KEYRING_SCHEMA, ApplyKeyring, m0, EncodeKeyring(m), base) == Ok(MergedKeyring(m0, m))
  {
    hide DecodeWith, SliceBytes, BoolBytes, EncodeKeys;
    var sch := KEYRING_SCHEMA;
    var b1, b2, b3, b4 := SliceBytes(1, m.name), EncodeKeys(m.keys), BoolBytes(3, m.sortedByPubKey), SliceBytes(4, m.newestPubKey);
    var end := MergedKeyring(m0, m);
    var m1 := m0.(name := end.name);
    var m2 := m1.(keys := end.keys);
    var m3 := m2.(sortedByPubKey := end.sortedByPubKey);
    DecodesSlice(sch, ApplyKeyring, m0, 1, m.name, b2 + (b3 + b4), base, m1);
    DecodesKeys(m1, m.keys, b3 + b4, base + |b1|);
    DecodesBool(sch, ApplyKeyring, m2, 3, m.sortedByPubKey, b4, base + |b1| + |b2|, m3);
    assert b4 + [] == b4;
    DecodesSlice(sch, ApplyKeyring, m3, 4, m.newestPubKey, [], base + |b1| + |b2| + |b3|, end);
    DecodesNothing(sch, ApplyKeyring, end, base + |b1| + |b2| + |b3| + |b4|);
  }

  lemma KeyringRoundTrip(m: KeyringMsg)
    requires |EncodeKeyring(m)| < INT_LIMIT
    ensures DecodeKeyring(EMPTY_KEYRING, EncodeKeyring(m)) == Ok(m)
  {
    hide DecodeWith, EncodeKeyring;
    KeyringInto(EMPTY_KEYRING, m, 0);
    assert [] + m.keys == m.keys;
  }

  lemma {:induction false} DecodesKeyrings(m: KeyTomeMsg, krs: seq<KeyringMsg>, rest: Bytes, base: nat)
    requires base + |EncodeKeyrings(krs) + rest| < INT_LIMIT
    ensures DecodeWith(KEY_TOME_SCHEMA, ApplyKeyTome, m, EncodeKeyrings(krs) + rest, base)
         == DecodeWith(KEY_TOME_SCHEMA, ApplyKeyTome, m.(keyrings := m.keyrings + krs), rest, base + |EncodeKeyrings(krs)|)
    decreases krs
  {
    hide DecodeWith, LengthBytes, EncodeKeyring, DecodeKeyring;
    if krs == [] {
      assert EncodeKeyrings(krs) + rest == rest && m.keyrings + krs == m.keyrings;
    } else {
      var p := EncodeKeyring(krs[0]);
      var more := EncodeKeyrings(krs[1..]) + rest;
      assert EncodeKeyrings(krs) + rest == LengthBytes(2, p) + more;
      LengthBytesLonger(2, p);
      KeyringRoundTrip(krs[0]);
      var m1 := m.(keyrings := m.keyrings + [krs[0]]);
      DecodesLength(KEY_TOME_SCHEMA, ApplyKeyTome, m, 2, p, more, base, m1);
      DecodesKeyrings(m1, krs[1..], rest, base + |LengthBytes(2, p)|);
      assert m.keyrings + [krs[0]] + krs[1..] == m.keyrings + krs;
    }
  }

  lemma KeyTomeInto(m0: KeyTomeMsg, m: KeyTomeMsg, base: nat)
    requires base + |EncodeKeyTome(m)| < INT_LIMIT
    ensures DecodeWith(KEY_TOME_SCHEMA, ApplyKeyTome, m0, EncodeKeyTome(m), base) == Ok(MergedTome(m0, m))
  {
    hide DecodeWith, VarintBytes, BoolBytes, EncodeKeyrings, AsUint64, ToInt64, Cut;
    var sch := KEY_TOME_SCHEMA;
    var t1 := AsUint64(m.rev);
    var b1, b2, b3 := VarintBytes(1, t1), EncodeKeyrings(m.keyrings), BoolBytes(3, m.sortedByName);
    var end := MergedTome(m0, m);
    var m1 := m0.(rev := end.rev);
    var m2 := m1.(keyrings := end.keyrings);
    WordOf(m.rev);
    DecodesVarint(sch, ApplyKeyTome, m0, 1, t1, b2 + b3, base, m1);
    DecodesKeyrings(m1, m.keyrings, b3, base + |b1|);
    assert b3 + [] == b3;
    DecodesBool(sch, ApplyKeyTome, m2, 3, m.sortedByName, [], base + |b1| + |b2|, end);
    DecodesNothing(sch, ApplyKeyTome, end, base + |b1| + |b2| + |b3|);
  }

  /** Unmarshalling a marshalled tome into a fresh one succeeds and yields the same tome, whatever its keyrings,
      entries, times and enums, negative ones included. */
  lemma KeyTomeRoundTrip(m: KeyTomeMsg)
    requires |EncodeKeyTome(m)| < INT_LIMIT
    ensures DecodeKeyTome(EMPTY_KEY_TOME, EncodeKeyTome(m)) == Ok(m)
  {
    hide DecodeWith, EncodeKeyTome;
    KeyTomeInto(EMPTY_KEY_TOME, m, 0);
    assert [] + m.keyrings == m.keyrings;
  }

  lemma SigHeaderInto(m0: SigHeader, m: SigHeader, base: nat)
    requires base + |EncodeSigHeader(m)| < INT_LIMIT
    ensures DecodeWith(SIG_HEADER_SCHEMA, ApplySigHeader, m0, EncodeSigHeader(m), base) == Ok(MergedSigHeader(m0, m))
  {
    hide DecodeWith, VarintBytes, SliceBytes, AsUint64, ToInt32, ToInt64, ToUint32, ToUint64, Cut;
    var sch := SIG_HEADER_SCHEMA;
    var t1, t6 := AsUint64(m.signerCryptoKit), AsUint64(m.hashKitID);
    var b1, b2, b6 := VarintBytes(1, t1), SliceBytes(2, m.signerPubKey), VarintBytes(6, t6);
    var b7, b8, b9 := VarintBytes(7, m.headerSz), VarintBytes(8, m.headerCodec), VarintBytes(9, m.bodySz);
    var end := MergedSigHeader(m0, m);
    var m1 := m0.(signerCryptoKit := end.signerCryptoKit);
    var m2 := m1.(signerPubKey := end.signerPubKey);
    var m6 := m2.(hashKitID := end.hashKitID);
    var m7 := m6.(headerSz := end.headerSz);
    var m8 := m7.(headerCodec := end.headerCodec);
    WordOf(m.signerCryptoKit);
    WordOf(m.hashKitID);
    UnsignedWordOf(m.headerSz);
    UnsignedWordOf(m.headerCodec);
    UnsignedWordOf(m.bodySz);
    DecodesVarint(sch, ApplySigHeader, m0, 1, t1, b2 + (b6 + (b7 + (b8 + b9))), base, m1);
    DecodesSlice(sch, ApplySigHeader, m1, 2, m.signerPubKey, b6 + (b7 + (b8 + b9)), base + |b1|, m2);
    DecodesVarint(sch, ApplySigHeader, m2, 6, t6, b7 + (b8 + b9), base + |b1| + |b2|, m6);
    DecodesVarint(sch, ApplySigHeader, m6, 7, m.headerSz, b8 + b9, base + |b1| + |b2| + |b6|, m7);
    DecodesVarint(sch, ApplySigHeader, m7, 8, m.headerCodec, b9, base + |b1| + |b2| + |b6| + |b7|, m8);
    assert b9 + [] == b9;
    DecodesVarint(sch, ApplySigHeader, m8, 9, m.bodySz, [], base + |b1| + |b2| + |b6| + |b7| + |b8|, end);
    DecodesNothing(sch, ApplySigHeader, end, base + |b1| + |b2| + |b6| + |b7| + |b8| + |b9|);
  }

  lemma SigHeaderRoundTrip(m: SigHeader)
    requires |EncodeSigHeader(m)| < INT_LIMIT
    ensures DecodeSigHeader(EMPTY_SIG_HEADER, EncodeSigHeader(m)) == Ok(m)
  {
    hide DecodeWith, EncodeSigHeader;
    SigHeaderInto(EMPTY_SIG_HEADER, m, 0);
  }

  /** Two marshalled entries one behind the other unmarshal to the two merged, down to the nested info. */
  lemma KeyEntriesMerge(a: KeyEntry, b: KeyEntry)
    requires |EncodeKeyEntry(a) + EncodeKeyEntry(b)| < INT_LIMIT
    ensures DecodeKeyEntry(EMPTY_KEY_ENTRY, EncodeKeyEntry(a) + EncodeKeyEntry(b)) == Ok(MergedEntry(a, b))
  {
    hide DecodeWith, EncodeKeyEntry;
    KeyEntryRoundTrip(a);
    DecodeAppend(KEY_ENTRY_SCHEMA, ApplyKeyEntry, EMPTY_KEY_ENTRY, EncodeKeyEntry(a), EncodeKeyEntry(b), 0);
    KeyEntryInto(a, b, |EncodeKeyEntry(a)|);
  }

  /** Two marshalled tomes one behind the other unmarshal to the keyrings of both, with the later revision. */
  lemma KeyTomesMerge(a: KeyTomeMsg, b: KeyTomeMsg)
    requires |EncodeKeyTome(a) + EncodeKeyTome(b)| < INT_LIMIT
    ensures DecodeKeyTome(EMPTY_KEY_TOME, EncodeKeyTome(a) + EncodeKeyTome(b)) == Ok(MergedTome(a, b))
  {
    hide DecodeWith, EncodeKeyTome;
    KeyTomeRoundTrip(a);
    DecodeAppend(KEY_TOME_SCHEMA, ApplyKeyTome, EMPTY_KEY_TOME, EncodeKeyTome(a), EncodeKeyTome(b), 0);
    KeyTomeInto(a, b, |EncodeKeyTome(a)|);
  }

  /** A key's info, its entry, a keyring, a signature header and a tome each decode alike with and without an unknown field at any
      field boundary. */
  lemma KeyInfoIgnoresUnknown(m: KeyInfo, front: Bytes, t: Tree, back: Bytes)
    requires WellFormed(t) && t.num !in {1, 2, 3, 4}
    requires |front + EncodeTree(t) + back| < INT_LIMIT
    requires DecodeKeyInfo(m, front).Ok?
    ensures SameOutcome(DecodeKeyInfo(m, front + EncodeTree(t) + back), DecodeKeyInfo(m, front + back))
  {
    hide DecodeWith, EncodeTree;
    UnknownFieldIsTransparent(KEY_INFO_SCHEMA, ApplyKeyInfo, m, front, t, back);
  }

  lemma KeyEntryIgnoresUnknown(m: KeyEntry, front: Bytes, t: Tree, back: Bytes)
    requires WellFormed(t) && t.num !in {1, 6}
    requires |front + EncodeTree(t) + back| < INT_LIMIT
    requires DecodeKeyEntry(m, front).Ok?
    ensures SameOutcome(DecodeKeyEntry(m, front + EncodeTree(t) + back), DecodeKeyEntry(m, front + back))
  {
    hide DecodeWith, EncodeTree;
    UnknownFieldIsTransparent(KEY_ENTRY_SCHEMA, ApplyKeyEntry, m, front, t, back);
  }

  lemma KeyringIgnoresUnknown(m: KeyringMsg, front: Bytes, t: Tree, back: Bytes)
    requires WellFormed(t) && t.num !in {1, 2, 3, 4}
    requires |front + EncodeTree(t) + back| < INT_LIMIT
    requires DecodeKeyring(m, front).Ok?
    ensures SameOutcome(DecodeKeyring(m, front + EncodeTree(t) + back), DecodeKeyring(m, front + back))
  {
    hide DecodeWith, EncodeTree;
    UnknownFieldIsTransparent(KEYRING_SCHEMA, ApplyKeyring, m, front, t, back);
  }

  lemma SigHeaderIgnoresUnknown(m: SigHeader, front: Bytes, t: Tree, back: Bytes)
    requires WellFormed(t) && t.num !in {1, 2, 6, 7, 8, 9}
    requires |front + EncodeTree(t) + back| < INT_LIMIT
    requires DecodeSigHeader(m, front).Ok?
    ensures SameOutcome(DecodeSigHeader(m, front + EncodeTree(t) + back), DecodeSigHeader(m, front + back))
  {
    hide DecodeWith, EncodeTree;
    UnknownFieldIsTransparent(SIG_HEADER_SCHEMA, ApplySigHeader, m, front, t, back);
  }

  lemma KeyTomeIgnoresUnknown(m: KeyTomeMsg, front: Bytes, t: Tree, back: Bytes)
    requires WellFormed(t) && t.num !in {1, 2, 3}
    requires |front + EncodeTree(t) + back| < INT_LIMIT
    requires DecodeKeyTome(m, front).Ok?
    ensures SameOutcome(DecodeKeyTome(m, front + EncodeTree(t) + back), DecodeKeyTome(m, front + back))
  {
    hide DecodeWith, EncodeTree;
    UnknownFieldIsTransparent(KEY_TOME_SCHEMA, ApplyKeyTome, m, front, t, back);
  }

  // ----- unknown fields inside nested messages

  /** Two payloads of a nested message that are applied alike leave the message around them alike. */
  lemma NestedAlike<M>(schema: Schema, apply: (M, Field) -> Result<M, WireError>, m: M, front: Bytes, num: nat, p: Bytes, q: Bytes,
                       back: Bytes)
    requires 1 <= num <= 15 && num in schema.lengthDelimited && num !in schema.varints
    requires |front + LengthBytes(num, p) + back| < INT_LIMIT && |front + LengthBytes(num, q) + back| < INT_LIMIT
    requires DecodeWith(schema, apply, m, front, 0).Ok?
    requires var m' := DecodeWith(schema, apply, m, front, 0).value;
             SameOutcome(apply(m', BytesField(num, p)), apply(m', BytesField(num, q)))
    ensures SameOutcome(DecodeWith(schema, apply, m, front + LengthBytes(num, p) + back, 0),
                        DecodeWith(schema, apply, m, front + LengthBytes(num, q) + back, 0))
  {
    hide DecodeWith, NextField, LengthBytes;
    var m' := DecodeWith(schema, apply, m, front, 0).value;
    NestedNext(schema, apply, m, front, num, p, back, m');
    NestedNext(schema, apply, m, front, num, q, back, m');
    if apply(m', BytesField(num, p)).Ok? {
      DecodeAnywhere(schema, apply, apply(m', BytesField(num, p)).value, back, |front| + |LengthBytes(num, p)|,
                     |front| + |LengthBytes(num, q)|);
    }
  }

  lemma NestedNext<M>(schema: Schema, apply: (M, Field) -> Result<M, WireError>, m: M, front: Bytes, num: nat, p: Bytes, back: Bytes,
                      m': M)
    requires 1 <= num <= 15 && num in schema.lengthDelimited && num !in schema.varints
    requires |front + LengthBytes(num, p) + back| < INT_LIMIT
    requires DecodeWith(schema, apply, m, front, 0) == Ok(m')
    ensures var r := DecodeWith(schema, apply, m, front + LengthBytes(num, p) + back, 0);
            match apply(m', BytesField(num, p))
            case Err(_) => r.Err?
            case Ok(m'') => r == DecodeWith(schema, apply, m'', back, |front| + |LengthBytes(num, p)|)
  {
    hide DecodeWith, NextField, LengthBytes;
    var f := LengthBytes(num, p);
    assert front + f + back == front + (f + back);
    DecodeAppend(schema, apply, m, front, f + back, 0);
    NextOfLengthBytes(schema, num, p, back, |front|);
    LengthBytesLonger(num, p);
    if apply(m', BytesField(num, p)).Ok? {
      DecodeStep(schema, apply, m', f + back, |front|, BytesField(num, p), |f|, apply(m', BytesField(num, p)).value);
      assert (f + back)[|f|..] == back;
    } else {
      ApplyFails(schema, apply, m', f + back, |front|, BytesField(num, p), |f|);
    }
  }

  lemma ApplyFails<M>(schema: Schema, apply: (M, Field) -> Result<M, WireError>, m: M, s: Bytes, base: nat, x: Field, n: nat)
    requires s != [] && NextField(schema, s, base) == Ok((x, n)) && apply(m, x).Err?
    ensures DecodeWith(schema, apply, m, s, base).Err?
  {
    hide NextField;
  }

  /** The bytes of a message around one field. */
  datatype Around = Around(front: Bytes, back: Bytes) {
    function With(f: Bytes): Bytes { front + f + back }
  }

  lemma KeyEntryAlike(m: KeyEntry, a: Around, p: Bytes, q: Bytes)
    requires |a.With(LengthBytes(1, p))| < INT_LIMIT && |a.With(LengthBytes(1, q))| < INT_LIMIT
    requires DecodeKeyEntry(m, a.front).Ok?
    requires var info := InfoOf(DecodeKeyEntry(m, a.front).value); SameOutcome(DecodeKeyInfo(info, p), DecodeKeyInfo(info, q))
    ensures SameOutcome(DecodeKeyEntry(m, a.With(LengthBytes(1, p))), DecodeKeyEntry(m, a.With(LengthBytes(1, q))))
  {
    hide DecodeWith, LengthBytes, DecodeKeyInfo;
    NestedAlike(KEY_ENTRY_SCHEMA, ApplyKeyEntry, m, a.front, 1, p, q, a.back);
  }

  lemma KeyringAlike(m: KeyringMsg, a: Around, p: Bytes, q: Bytes)
    requires |a.With(LengthBytes(2, p))| < INT_LIMIT && |a.With(LengthBytes(2, q))| < INT_LIMIT
    requires DecodeKeyring(m, a.front).Ok?
    requires SameOutcome(DecodeKeyEntry(EMPTY_KEY_ENTRY, p), DecodeKeyEntry(EMPTY_KEY_ENTRY, q))
    ensures SameOutcome(DecodeKeyring(m, a.With(LengthBytes(2, p))), DecodeKeyring(m, a.With(LengthBytes(2, q))))
  {
    hide DecodeWith, LengthBytes, DecodeKeyEntry;
    NestedAlike(KEYRING_SCHEMA, ApplyKeyring, m, a.front, 2, p, q, a.back);
  }

  lemma KeyTomeAlike(m: KeyTomeMsg, a: Around, p: Bytes, q: Bytes)
    requires |a.With(LengthBytes(2, p))| < INT_LIMIT && |a.With(LengthBytes(2, q))| < INT_LIMIT
    requires DecodeKeyTome(m, a.front).Ok?
    requires SameOutcome(DecodeKeyring(EMPTY_KEYRING, p), DecodeKeyring(EMPTY_KEYRING, q))
    ensures SameOutcome(DecodeKeyTome(m, a.With(LengthBytes(2, p))), DecodeKeyTome(m, a.With(LengthBytes(2, q))))
  {
    hide DecodeWith, LengthBytes, DecodeKeyring;
    NestedAlike(KEY_TOME_SCHEMA, ApplyKeyTome, m, a.front, 2, p, q, a.back);
  }

  /** How deep inside a tome a message stands: a keyring, an entry in a keyring, or the info of an entry in a keyring, with
      the bytes around it at every level. */
  datatype Depth =
    | InKeyring(ring: Around)
    | InEntry(ring: Around, entry: Around)
    | InInfo(ring: Around, entry: Around, info: Around)
  {
    /** The numbers of the fields that the message at that place knows. */
    function Known(): set<nat> { if InEntry? then {1, 6} else {1, 2, 3, 4} }

    /** The entry with this field in it, or in its info. */
    function Entry(f: Bytes): Bytes
      requires !InKeyring?
    {
      if InEntry? then entry.With(f) else entry.With(LengthBytes(1, info.With(f)))
    }

    /** The keyring with this field at its place. */
    function Ring(f: Bytes): Bytes { if InKeyring? then ring.With(f) else ring.With(LengthBytes(2, Entry(f))) }

    /** What is in front of the field, on every level, can be decoded. */
    predicate FrontsDecode() {
      && DecodeKeyring(EMPTY_KEYRING, ring.front).Ok?
      && (!InKeyring? ==> DecodeKeyEntry(EMPTY_KEY_ENTRY, entry.front).Ok?)
      && (InInfo? ==> DecodeKeyInfo(InfoOf(DecodeKeyEntry(EMPTY_KEY_ENTRY, entry.front).value), info.front).Ok?)
    }
  }

  /** A field that the message it stands in does not know leaves the whole tome as it is, however deep it stands. */
  lemma KeyTomeIgnoresNested(m: KeyTomeMsg, tome: Around, d: Depth, t: Tree)
    requires WellFormed(t) && t.num !in d.Known()
    requires |tome.With(LengthBytes(2, d.Ring(EncodeTree(t))))| < INT_LIMIT && |tome.With(LengthBytes(2, d.Ring([])))| < INT_LIMIT
    requires DecodeKeyTome(m, tome.front).Ok? && d.FrontsDecode()
    ensures SameOutcome(DecodeKeyTome(m, tome.With(LengthBytes(2, d.Ring(EncodeTree(t))))),
                        DecodeKeyTome(m, tome.With(LengthBytes(2, d.Ring([])))))
  {
    hide DecodeKeyInfo, DecodeKeyEntry, DecodeKeyring, DecodeKeyTome, EncodeTree, LengthBytes, WellFormed;
    var u := EncodeTree(t);
    LengthBytesLonger(2, d.Ring(u));
    LengthBytesLonger(2, d.Ring([]));
    RingIgnoresNested(d, t);
    KeyTomeAlike(m, tome, d.Ring(u), d.Ring([]));
  }

  lemma RingIgnoresNested(d: Depth, t: Tree)
    requires WellFormed(t) && t.num !in d.Known()
    requires |d.Ring(EncodeTree(t))| < INT_LIMIT && |d.Ring([])| < INT_LIMIT && d.FrontsDecode()
    ensures SameOutcome(DecodeKeyring(EMPTY_KEYRING, d.Ring(EncodeTree(t))), DecodeKeyring(EMPTY_KEYRING, d.Ring([])))
  {
    hide DecodeKeyInfo, DecodeKeyEntry, DecodeKeyring, EncodeTree, LengthBytes, WellFormed;
    var u := EncodeTree(t);
    assert d.ring.front + [] + d.ring.back == d.ring.front + d.ring.back;
    if d.InKeyring? {
      KeyringIgnoresUnknown(EMPTY_KEYRING, d.ring.front, t, d.ring.back);
    } else {
      LengthBytesLonger(2, d.Entry(u));
      LengthBytesLonger(2, d.Entry([]));
      EntryIgnoresNested(d, t);
      KeyringAlike(EMPTY_KEYRING, d.ring, d.Entry(u), d.Entry([]));
    }
  }

  lemma EntryIgnoresNested(d: Depth, t: Tree)
    requires WellFormed(t) && t.num !in d.Known() && !d.InKeyring?
    requires |d.Entry(EncodeTree(t))| < INT_LIMIT && |d.Entry([])| < INT_LIMIT && d.FrontsDecode()
    ensures SameOutcome(DecodeKeyEntry(EMPTY_KEY_ENTRY, d.Entry(EncodeTree(t))), DecodeKeyEntry(EMPTY_KEY_ENTRY, d.Entry([])))
  {
    hide DecodeKeyInfo, DecodeKeyEntry, DecodeKeyring, EncodeTree, LengthBytes, WellFormed;
    var u := EncodeTree(t);
    if d.InEntry? {
      assert d.entry.front + [] + d.entry.back == d.entry.front + d.entry.back;
      KeyEntryIgnoresUnknown(EMPTY_KEY_ENTRY, d.entry.front, t, d.entry.back);
    } else {
      var info := InfoOf(DecodeKeyEntry(EMPTY_KEY_ENTRY, d.entry.front).value);
      LengthBytesLonger(1, d.info.With(u));
      LengthBytesLonger(1, d.info.With([]));
      assert d.info.front + [] + d.info.back == d.info.front + d.info.back;
      KeyInfoIgnoresUnknown(info, d.info.front, t, d.info.back);
      KeyEntryAlike(EMPTY_KEY_ENTRY, d.entry, d.info.With(u), d.info.With([]));
    }
  }
}

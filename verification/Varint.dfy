/** Base 128 varints of the Protocol Buffers wire format. */
module Varint {
  import opened Wrappers
  import opened Bytes
  import opened Messages
  import opened Words

  datatype WireError =
    | IntOverflow
    | UnexpectedEOF
    | InvalidLength
    | UnexpectedEndOfGroup
    | IllegalWireType
    | EndGroupForNonGroup
    | IllegalTag
    | WrongWireType

  // ----- what the bytes mean

  /** The number whose seven-bit groups, low group first, are the low bits of these bytes. */
  function GroupsValue(s: Bytes): nat {
    if s == [] then 0 else s[0] % 128 + 128 * GroupsValue(s[1..])
  }

  /** Where the varint at the front ends: the byte without the high bit, which must be among the first ten. */
  function VarintEnd(s: Bytes, k: nat): (r: Result<nat, WireError>)
    ensures r.Ok? ==> k < r.value <= |s| && r.value <= 10
    decreases |s| - k
  {
    if k >= 10 then Err(IntOverflow)
    else if k >= |s| then Err(UnexpectedEOF)
    else if s[k] < 128 then Ok(k + 1)
    else VarintEnd(s, k + 1)
  }

  /** The value of the varint at the front, not yet cut to a word, and its length. */
  function ReadVarint(s: Bytes): (r: Result<(nat, nat), WireError>)
    ensures r.Ok? ==> 0 < r.value.1 <= |s|
  {
    match VarintEnd(s, 0)
    case Err(e) => Err(e)
    case Ok(n) => Ok((GroupsValue(s[..n]), n))
  }

  /** The bits that the bytes read before a failure have set in a word: all there are, or the first ten. */
  function BitsRead(s: Bytes, width: nat): nat { Cut(GroupsValue(s[..if |s| < 10 then |s| else 10]), width) }

  /** The shortest varint with this value. */
  function EncodeVarint(v: nat): (r: Bytes)
    ensures |r| >= 1
  {
    if v < 128 then [v] else [v % 128 + 128] + EncodeVarint(v / 128)
  }

  // ----- lengths

  /** bits.Len64 */
  function Len64(x: nat): nat {
    if x == 0 then 0 else 1 + Len64(x / 2)
  }

  /** sovApiSki: the length of the varint that the marshaller is going to write. */
  function Sov(x: nat): nat {
    (Len64(BitOr(x, 1)) + 6) / 7
  }

  lemma OrOne(x: nat)
    ensures BitOr(x, 1) == if x % 2 == 1 then x else x + 1
  {
    assert BitOr(x / 2, 0) == x / 2;
  }

  lemma Len64OfShift7(x: nat)
    requires x >= 128
    ensures Len64(x) == 7 + Len64(x / 128)
  {
    assert x / 128 == x / 2 / 2 / 2 / 2 / 2 / 2 / 2;
    assert Len64(x) == 1 + Len64(x / 2);
    assert Len64(x / 2) == 1 + Len64(x / 2 / 2);
    assert Len64(x / 2 / 2) == 1 + Len64(x / 2 / 2 / 2);
    assert Len64(x / 2 / 2 / 2) == 1 + Len64(x / 2 / 2 / 2 / 2);
    assert Len64(x / 2 / 2 / 2 / 2) == 1 + Len64(x / 2 / 2 / 2 / 2 / 2);
    assert Len64(x / 2 / 2 / 2 / 2 / 2) == 1 + Len64(x / 2 / 2 / 2 / 2 / 2 / 2);
  }

  /** Setting the lowest bit changes the length of zero alone. */
  lemma Len64OfOrOne(x: nat)
    ensures Len64(BitOr(x, 1)) == if x == 0 then 1 else Len64(x)
  {
    OrOne(x);
    if x > 0 { assert BitOr(x, 1) / 2 == x / 2; } else { assert Len64(1) == 1; }
  }

  /** (bits.Len64(x|1) + 6) / 7 is the number of bytes that the varint loop writes. */
  lemma {:induction false} SovIsLength(v: nat)
    ensures |EncodeVarint(v)| == Sov(v)
  {
    Len64OfOrOne(v);
    if v < 128 {
      Len64Below128(v);
    } else {
      SovIsLength(v / 128);
      Len64OfOrOne(v / 128);
      Len64OfShift7(v);
    }
  }

  lemma Len64Below128(v: nat)
    requires v < 128
    ensures v > 0 ==> 1 <= Len64(v) <= 7
  {
    Len64Bound(v, 7, 128);
  }

  lemma {:induction false} Len64Bound(v: nat, k: nat, p: nat)
    requires p == Pow2(k) && v < p
    ensures Len64(v) <= k
  {
    if k > 0 && v > 0 { Len64Bound(v / 2, k - 1, p / 2); }
  }

  // ----- round trip

  lemma {:induction false} LengthBound(v: nat, k: nat)
    requires k >= 1 && v < Pow2(7 * k)
    ensures |EncodeVarint(v)| <= k
  {
    hide Pow2;
    Pow2Zero();
    Pow2Next7(k - 1);
    if v >= 128 {
      LengthBound(v / 128, k - 1);
    }
  }

  lemma {:induction false} GroupsOfEncoding(v: nat)
    ensures GroupsValue(EncodeVarint(v)) == v
  {
    if v < 128 {
      assert EncodeVarint(v)[1..] == [];
    } else {
      GroupsOfEncoding(v / 128);
      assert EncodeVarint(v)[1..] == EncodeVarint(v / 128);
    }
  }

  lemma {:induction false} EndOfEncoding(v: nat, s: Bytes, k: nat)
    requires k + |EncodeVarint(v)| <= |s| && k + |EncodeVarint(v)| <= 10
    requires s[k..k + |EncodeVarint(v)|] == EncodeVarint(v)
    ensures VarintEnd(s, k) == Ok(k + |EncodeVarint(v)|)
  {
    assert s[k] == s[k..k + |EncodeVarint(v)|][0];
    if v >= 128 {
      assert s[k + 1..k + 1 + |EncodeVarint(v / 128)|] == s[k..k + |EncodeVarint(v)|][1..];
      EndOfEncoding(v / 128, s, k + 1);
    }
  }

  /** For every uint64, reading what was written gives it back, and takes exactly the bytes written, at most ten. */
  lemma VarintRoundTrip(v: Uint64, rest: Bytes)
    ensures ReadVarint(EncodeVarint(v) + rest) == Ok((v, Sov(v)))
    ensures 1 <= Sov(v) <= 10
  {
    hide Pow2, Sov;
    SovIsLength(v);
    Pow2Of7And32And64();
    Pow2Adds(64, 6);
    LengthBound(v, 10);
    var s := EncodeVarint(v) + rest;
    EndOfEncoding(v, s, 0);
    assert s[..|EncodeVarint(v)|] == EncodeVarint(v);
    GroupsOfEncoding(v);
  }

  /** Cutting the value to the width of an enum recovers a sign-extended enum. */
  lemma EnumRoundTrip(x: Int32, rest: Bytes)
    ensures ReadVarint(EncodeVarint(AsUint64(x)) + rest).Ok?
    ensures ToInt32(ReadVarint(EncodeVarint(AsUint64(x)) + rest).value.0) == x
  {
    VarintRoundTrip(AsUint64(x), rest);
    SignedRoundTrip(x);
  }

  // ----- reading depends on the varint alone

  lemma {:induction false} VarintEndLocal(a: Bytes, b: Bytes, k: nat)
    requires VarintEnd(a, k).Ok?
    ensures VarintEnd(a + b, k) == VarintEnd(a, k)
    decreases |a| - k
  {
    if a[k] >= 128 { VarintEndLocal(a, b, k + 1); }
  }

  lemma ReadVarintLocal(a: Bytes, b: Bytes)
    requires ReadVarint(a).Ok?
    ensures ReadVarint(a + b) == ReadVarint(a)
  {
    VarintEndLocal(a, b, 0);
    var n := ReadVarint(a).value.1;
    assert (a + b)[..n] == a[..n];
  }

  // ----- the loops

  lemma {:induction false} GroupsValueBound(s: Bytes)
    ensures GroupsValue(s) < Pow2(7 * |s|)
  {
    hide Pow2;
    Pow2Zero();
    if s != [] {
      GroupsValueBound(s[1..]);
      Pow2Next7(|s| - 1);
    }
  }

  lemma {:induction false} GroupsValueAppend(s: Bytes, b: Byte)
    ensures GroupsValue(s + [b]) == GroupsValue(s) + (b % 128) * Pow2(7 * |s|)
  {
    hide Pow2;
    Pow2Zero();
    if s == [] {
      assert [] + [b] == [b] && [b][1..] == [];
    } else {
      GroupsValueAppend(s[1..], b);
      assert (s + [b])[1..] == s[1..] + [b];
      Pow2Next7(|s| - 1);
      var p := Pow2(7 * (|s| - 1));
      assert 128 * ((b % 128) * p) == (b % 128) * (128 * p);
    }
  }

  /** The decode loop that every field, tag and length is read with, in a word v of the given width. */
  method DecodeVarint(dAtA: Bytes, start: nat, width: nat) returns (r: Result<(nat, nat), WireError>, v: nat)
    requires start <= |dAtA|
    ensures match ReadVarint(dAtA[start..])
            case Err(e) => r == Err(e) && v == BitsRead(dAtA[start..], width)
            case Ok((x, n)) => r == Ok((Cut(x, width), start + n)) && v == Cut(x, width)
  {
    hide Pow2, GroupsValue, BitOr, Shl, Cut;
    var l := |dAtA|;
    var iNdEx := start;
    v := 0;
    var shift := 0;
    assert dAtA[start..start] == [];
    GroupsOfNone(width);
    while true
      invariant start <= iNdEx <= l && iNdEx - start <= 10 && shift == 7 * (iNdEx - start)
      invariant v == Cut(GroupsValue(dAtA[start..iNdEx]), width)
      invariant VarintEnd(dAtA[start..], 0) == VarintEnd(dAtA[start..], iNdEx - start)
      decreases l - iNdEx
    {
      assert dAtA[start..][..iNdEx - start] == dAtA[start..iNdEx];
      if shift >= 64 {
        return Err(IntOverflow), v;
      }
      if iNdEx >= l {
        return Err(UnexpectedEOF), v;
      }
      var b := dAtA[iNdEx];
      ghost var before := dAtA[start..iNdEx];
      GroupsValueBound(before);
      GroupsValueAppend(before, b);
      OrShifted(GroupsValue(before), b % 128, shift, width);
      assert dAtA[start..iNdEx + 1] == before + [b];
      iNdEx := iNdEx + 1;
      v := BitOr(v, Shl(b % 128, shift, width));
      if b < 0x80 {
        break;
      }
      shift := shift + 7;
    }
    assert dAtA[start..][..iNdEx - start] == dAtA[start..iNdEx];
    r := Ok((v, iNdEx));
  }

  lemma GroupsOfNone(width: nat)
    ensures Cut(GroupsValue([]), width) == 0
  {
  }

  /** Writes the varint so that it ends just before the offset, and returns where it starts. */
  method EncodeVarintApiSki(dAtA: array<Byte>, offset: nat, v: Uint64) returns (base: nat)
    requires Sov(v) <= offset <= dAtA.Length
    modifies dAtA
    ensures base == offset - Sov(v)
    ensures dAtA[..base] == old(dAtA[..base]) && dAtA[offset..] == old(dAtA[offset..])
    ensures dAtA[base..offset] == EncodeVarint(v)
  {
    hide Sov, BitOr, EncodeVarint;
    SovIsLength(v);
    var at := offset - Sov(v);
    base := at;
    var rest := v;
    while rest >= 128
      invariant base <= at && at + |EncodeVarint(rest)| == offset
      invariant dAtA[..base] == old(dAtA[..base]) && dAtA[offset..] == old(dAtA[offset..])
      invariant dAtA[base..at] + EncodeVarint(rest) == EncodeVarint(v)
    {
      ghost var done := dAtA[base..at];
      EncodingUnfolds(rest);
      OrWithHighBit(rest % 128);
      dAtA[at] := BitOr(rest % 128, 0x80);
      rest := rest / 128;
      at := at + 1;
      assert dAtA[base..at] == done + [dAtA[at - 1]];
    }
    ghost var done := dAtA[base..at];
    EncodingUnfolds(rest);
    dAtA[at] := rest;
    assert dAtA[base..offset] == done + [rest];
  }

  lemma EncodingUnfolds(v: nat)
    ensures EncodeVarint(v) == if v < 128 then [v] else [v % 128 + 128] + EncodeVarint(v / 128)
  {
  }

  lemma OrWithHighBit(a: nat)
    requires a < 128
    ensures BitOr(a, 0x80) == a + 128
  {
    Pow2Of7And32And64();
    OrDisjoint(a, 7, 1);
  }
}

/** Signed payloads: a framed SigHeader, a header and a body, then the signature of a digest of all that. */
module SignedPayload {
  import opened Wrappers
  import opened Bytes
  import opened Messages
  import opened Words
  import opened Varint
  import opened Wire
  import opened Codec
  import opened CodecLoops

  const SIGNING_KEY: Int32 := 3
  const UINT32_LIMIT := 0x1_0000_0000

  /** The hashers and the signing service, as functions: only what the code relies on is known of them. */
  datatype Crypto = Crypto(
    digest: (int, Bytes) -> Bytes,
    sign: (KeyInfo, Bytes) -> Result<Bytes, PackError>,
    verify: (int, Bytes, Bytes, Bytes) -> bool)
  {
    /** Digests have the size of their kit, and verification accepts what signing made. */
    ghost predicate Lawful() {
      && (forall kit, b :: KnownHashKit(kit) ==> |digest(kit, b)| == HashSz(kit))
      && (forall k: KeyInfo, d :: sign(k, d).Ok? ==> verify(k.cryptoKitID, sign(k, d).value, d, k.pubKey))
    }
  }

  datatype PackError = SessionNotReady | AssertFailed | SignFailed | IndexOutOfRange

  predicate KnownHashKit(kit: int) { 1 <= kit <= 6 }

  function HashSz(kit: int): nat { if kit == 2 || kit == 4 || kit == 6 then 64 else 32 }

  // ----- the frame

  function FrameFront(hdr: Bytes, header: Bytes, body: Bytes): Bytes {
    [|hdr| % 256, |hdr| / 256 % 256] + hdr + header + body
  }

  /** A packed buffer: the size of the SigHeader in two bytes, the SigHeader, header, body, and the signature
      after its length. */
  function Frame(hdr: Bytes, header: Bytes, body: Bytes, sig: Bytes): Bytes
    requires |sig| < 256
  {
    FrameFront(hdr, header, body) + [|sig|] + sig
  }

  /** The SigHeader that a packer writes. */
  function HeaderFor(key: KeyInfo, hashKitID: Int32, codec: Uint32, header: Bytes, body: Bytes): SigHeader
    requires |header| < UINT32_LIMIT && |body| < INT_LIMIT
  {
    SigHeader(key.cryptoKitID, key.pubKey, hashKitID, |header|, codec, |body|)
  }

  // ----- packing

  /** Ranges of one buffer: the signed bytes at its front, the digest further on, and the signature. */
  datatype PackingInfo = PackingInfo(buf: array<Byte>, signedSz: nat, hashPos: nat, hashSz: nat, sigPos: nat, sigSz: nat)

  class PayloadPacker {
    var hashKitID: Int32
    var sessionOpen: bool
    var keyringName: Bytes
    var signingKey: KeyInfo

    constructor ()
      ensures !Ready()
    {
      hashKitID, sessionOpen, keyringName := 0, false, [];
      signingKey := EMPTY_KEY_INFO;
    }

    /** checkReady; a hash kit that is set is a known one. */
    predicate Ready()
      reads this
    {
      KnownHashKit(hashKitID) && sessionOpen && keyringName != [] && signingKey.cryptoKitID != 0
    }

    /** ResetSession, given what the session answers for the signing key. */
    method ResetSession(fetched: Option<KeyInfo>, ringName: Bytes, inHashKit: Int32) returns (err: bool)
      modifies this
      ensures !err <==> Ready()
      ensures !err <==>
                && fetched.Some? && fetched.value.keyType == SIGNING_KEY && fetched.value.cryptoKitID != 0
                && ringName != [] && 0 <= inHashKit <= 6
      ensures !err ==> signingKey == fetched.value && hashKitID == if inHashKit == 0 then 1 else inHashKit
    {
      sessionOpen, keyringName := false, [];
      signingKey := EMPTY_KEY_INFO;
      if fetched.None? || fetched.value.keyType != SIGNING_KEY {
        return true;
      }
      var kit := EffectiveKit(inHashKit);
      if !KnownHashKit(kit) {
        hashKitID := 0;
        return true;
      }
      hashKitID := kit;
      sessionOpen := true;
      keyringName := ringName;
      signingKey := fetched.value;
      return !Ready();
    }

    /** Fills one buffer with the frame, with room for the signature and, 100 bytes past the body, for the digest. */
    method PackAndSign(codec: Uint32, header: Bytes, body: Bytes, extraAlloc: nat, crypto: Crypto)
      returns (r: Result<PackingInfo, PackError>)
      requires |header| < UINT32_LIMIT && |body| < INT_LIMIT
      requires 200 + |EncodeSigHeader(HeaderFor(signingKey, hashKitID, codec, header, body))| + |header| + |body| + extraAlloc
               < INT_LIMIT
      ensures !Ready() ==> r == Err(SessionNotReady)
      ensures Ready() ==>
        var hdr := EncodeSigHeader(HeaderFor(signingKey, hashKitID, codec, header, body));
        var digest := crypto.digest(hashKitID, FrameFront(hdr, header, body));
        if |digest| != HashSz(hashKitID) then r == Err(AssertFailed) else
        match crypto.sign(signingKey, digest)
        case Err(e) => r == Err(e)
        case Ok(sig) =>
          if |sig| > 255 then r == Err(AssertFailed)
          else if |sig| > 99 + extraAlloc + HashSz(hashKitID) then r == Err(IndexOutOfRange)
          else r.Ok? && Packs(r.value, hdr, header, body, digest, sig)
    {
      hide EncodeSigHeader, FrameFront;
      if !Ready() {
        return Err(SessionNotReady);
      }
      var hdr := HeaderFor(signingKey, hashKitID, codec, header, body);
      ghost var enc := EncodeSigHeader(hdr);
      var size := SizeSigHeader(hdr);
      var hashSz := HashSz(hashKitID);
      var extra := extraAlloc + hashSz;
      var bufSz := 2 + size + |header| + |body| + 100 + extra;
      var buf := new Byte[bufSz](_ => 0);

      var pos := WriteFront(buf, hdr, size, header, body);

      var digest := crypto.digest(hashKitID, buf[..pos]);
      if |digest| != hashSz {
        return Err(AssertFailed);
      }
      var extraPos := bufSz - extra;
      ghost var front := buf[..pos];
      CopyTo(buf, extraPos, digest);
      assert buf[..pos] == buf[..extraPos][..pos] == front;

      var signed := crypto.sign(signingKey, digest);
      if signed.Err? {
        return Err(signed.error);
      }
      var sig := signed.value;
      if |sig| > 255 {
        return Err(AssertFailed);
      }
      if pos + 1 + |sig| > bufSz {
        return Err(IndexOutOfRange);
      }
      var info := AppendSignature(buf, pos, sig, hashSz, enc, header, body, digest);
      return Ok(info);
    }
  }

  /** Steps 1 to 3 of packing: everything that is hashed. */
  method WriteFront(buf: array<Byte>, hdr: SigHeader, size: nat, header: Bytes, body: Bytes) returns (pos: nat)
    requires size == |EncodeSigHeader(hdr)| && 2 + size + |header| + |body| <= buf.Length < INT_LIMIT
    modifies buf
    ensures pos == 2 + size + |header| + |body|
    ensures buf[..pos] == FrameFront(EncodeSigHeader(hdr), header, body)
  {
    hide EncodeSigHeader;
    ghost var enc := EncodeSigHeader(hdr);
    var sigHdrSz := MarshalSigHeader(hdr, buf, 2 + size);
    assert buf[2..2 + size] == enc;
    pos := 2 + sigHdrSz;
    buf[0] := sigHdrSz % 256;
    buf[1] := sigHdrSz / 256 % 256;
    assert buf[2..2 + size] == enc;
    assert buf[..pos] == [size % 256, size / 256 % 256] + enc;
    ghost var s1 := buf[..pos];
    CopyTo(buf, pos, header);
    assert buf[..pos + |header|] == buf[..pos] + buf[pos..pos + |header|];
    pos := pos + |header|;
    ghost var s2 := buf[..pos];
    CopyTo(buf, pos, body);
    assert buf[..pos + |body|] == buf[..pos] + buf[pos..pos + |body|];
    pos := pos + |body|;
  }

  /** Step 6 of packing: the signature and its length behind what is hashed. */
  method AppendSignature(buf: array<Byte>, at: nat, sig: Bytes, hashSz: nat,
                         ghost hdr: Bytes, ghost header: Bytes, ghost body: Bytes, ghost digest: Bytes)
    returns (info: PackingInfo)
    requires |sig| < 256 && hashSz == |digest| && at + 1 + |sig| <= buf.Length && at + 100 + hashSz <= buf.Length
    requires |FrameFront(hdr, header, body)| == at && buf[..at] == FrameFront(hdr, header, body)
    requires buf[at + 100..at + 100 + hashSz] == digest
    modifies buf
    ensures info.buf == buf && Packs(info, hdr, header, body, digest, sig)
  {
    hide FrameFront;
    buf[at] := |sig|;
    var pos := at + 1;
    assert buf[..pos] == FrameFront(hdr, header, body) + [|sig|];
    ghost var stored := buf[..];
    assert forall k :: 0 <= k < hashSz ==> stored[at + 100 + k] == digest[k];
    CopyTo(buf, pos, sig);
    assert buf[..pos + |sig|] == buf[..pos] + buf[pos..pos + |sig|];
    forall k | 0 <= k < hashSz
      ensures buf[at + 100 + k] == if 99 + k < |sig| then sig[99 + k] else digest[k]
    {
      if 99 + k < |sig| {
        assert buf[at + 100 + k] == buf[pos..pos + |sig|][99 + k];
      } else {
        assert buf[at + 100 + k] == buf[pos + |sig|..][99 + k - |sig|];
        assert stored[at + 100 + k] == stored[pos + |sig|..][99 + k - |sig|];
      }
    }
    info := PackingInfo(buf, pos + |sig|, at + 100, hashSz, pos, |sig|);
  }

  /** What a successful packing leaves in its buffer: the frame at its front, and the digest where it was put, except
      that a signature longer than 99 bytes runs over its beginning. */
  ghost predicate Packs(info: PackingInfo, hdr: Bytes, header: Bytes, body: Bytes, digest: Bytes, sig: Bytes)
    requires |sig| < 256
    reads info.buf
  {
    var pos := |FrameFront(hdr, header, body)|;
    && info.signedSz == pos + 1 + |sig| <= info.buf.Length
    && info.buf[..info.signedSz] == Frame(hdr, header, body, sig)
    && info.hashPos == pos + 100 && info.hashSz == |digest| && info.hashPos + info.hashSz <= info.buf.Length
    && info.sigPos == pos + 1 && info.sigSz == |sig|
    && forall k :: 0 <= k < |digest| ==>
         info.buf[info.hashPos + k] == if 99 + k < |sig| then sig[99 + k] else digest[k]
  }

  /** The stored digest is intact exactly when what a signature of more than 99 bytes writes over its beginning is the same,
      so always for a signature of at most 99 bytes; the stored signature is intact either way. */
  lemma DigestKept(info: PackingInfo, hdr: Bytes, header: Bytes, body: Bytes, digest: Bytes, sig: Bytes)
    requires |sig| < 256 && Packs(info, hdr, header, body, digest, sig)
    ensures info.buf[info.hashPos..info.hashPos + info.hashSz] == digest
       <==> forall k :: 0 <= k < |digest| && 99 + k < |sig| ==> sig[99 + k] == digest[k]
    ensures info.buf[info.sigPos..info.sigPos + info.sigSz] == sig
  {
    var frame := Frame(hdr, header, body, sig);
    assert info.buf[info.sigPos..info.sigPos + info.sigSz] == frame[info.sigPos..];
    var stored := info.buf[info.hashPos..info.hashPos + info.hashSz];
    assert forall k :: 0 <= k < |digest| ==> stored[k] == if 99 + k < |sig| then sig[99 + k] else digest[k];
  }

  // ----- unpacking

  /** What unpacking hands out. */
  datatype Payload = Payload(headerCodec: Uint32, header: Bytes, body: Bytes, hashKit: Int32, hash: Bytes, hashSig: Bytes,
                             signer: KeyInfo)

  /** A payload whose signature holds, an error, or a panic: an index or a slice bound out of range, or the use of a hasher
      that is not set. */
  datatype Unpacked = Verified(payload: Payload) | Refused | Panics

  /** Where the SigHeader is taken to end: + and | have one precedence in Go, so the sum 2 + low is or-ed. */
  function HeaderEnd(low: Byte, high: Byte): (r: nat)
    ensures r >= 2
  {
    OrAtLeast(2 + low, high * 256);
    BitOr(2 + low, high * 256)
  }

  lemma {:induction false} OrAtLeast(a: nat, b: nat)
    ensures BitOr(a, b) >= a
  {
    if a > 0 && b > 0 { OrAtLeast(a / 2, b / 2); }
  }

  /** The sum of two uint32; what is added may be a wider word. */
  function Add32(a: nat, b: nat): nat { (a + b % UINT32_LIMIT) % UINT32_LIMIT }

  lemma Add32Fits(a: nat, b: nat)
    ensures a + b < UINT32_LIMIT ==> Add32(a, b) == a + b
    ensures a < UINT32_LIMIT && Add32(a, b) >= a ==> Add32(a, b) - a == b % UINT32_LIMIT
  {
  }

  function EffectiveKit(kit: Int32): int { if kit == 0 then 1 else kit }

  /** The first steps: whether there is an error, the end of the SigHeader, and what is known of the SigHeader. */
  function ReadHeader(buf: Bytes): (r: (bool, nat, SigHeader))
    requires |buf| < UINT32_LIMIT
    ensures r.1 < UINT32_LIMIT
  {
    if |buf| < 50 then (true, 0, EMPTY_SIG_HEADER) else
    HeaderEndFits(buf[0], buf[1]);
    var hdrEnd := HeaderEnd(buf[0], buf[1]);
    if hdrEnd > |buf| - 10 then (true, hdrEnd, EMPTY_SIG_HEADER) else
    (DecodeSigHeader(EMPTY_SIG_HEADER, buf[2..hdrEnd]).Err?, hdrEnd, LeftBySigHeader(EMPTY_SIG_HEADER, buf[2..hdrEnd], 0))
  }

  lemma HeaderEndFits(low: Byte, high: Byte)
    ensures HeaderEnd(low, high) < UINT32_LIMIT
  {
    OrAtMost(2 + low, high * 256);
  }

  lemma {:induction false} OrAtMost(a: nat, b: nat)
    ensures BitOr(a, b) <= a + b
  {
    if a > 0 && b > 0 { OrAtMost(a / 2, b / 2); }
  }

  /** UnpackAndVerify, step by step. An error does not end it: the index and the slices after it are evaluated all the same. */
  function Unpack(buf: Bytes, crypto: Crypto): Unpacked
    requires |buf| < UINT32_LIMIT
  {
    var (failed, hdrEnd, hdr) := ReadHeader(buf);
    var headerEnd := Add32(hdrEnd, hdr.headerSz);
    var bodyEnd := Add32(headerEnd, hdr.bodySz);
    if bodyEnd >= |buf| then Panics else
    var sigPos := bodyEnd + 1;
    var sigEnd := sigPos + buf[bodyEnd];
    if !failed && !KnownHashKit(EffectiveKit(hdr.hashKitID)) then Panics else
    if sigEnd > |buf| || !(hdrEnd <= headerEnd <= bodyEnd) then Panics else
    if failed then Refused else
    var hash := crypto.digest(EffectiveKit(hdr.hashKitID), buf[..bodyEnd]);
    if !crypto.verify(hdr.signerCryptoKit, buf[sigPos..sigEnd], hash, hdr.signerPubKey) then Refused else
    Verified(Payload(hdr.headerCodec, buf[hdrEnd..headerEnd], buf[headerEnd..bodyEnd], hdr.hashKitID, hash,
                     buf[sigPos..sigEnd], KeyInfo(SIGNING_KEY, hdr.signerCryptoKit, 0, hdr.signerPubKey)))
  }

  class PayloadUnpacker {
    /** The kits whose hashers are already made. */
    var hashKits: set<int>

    ghost predicate Valid()
      reads this
    {
      forall k :: k in hashKits ==> 0 <= k <= 6
    }

    constructor ()
      ensures Valid() && hashKits == {}
    {
      hashKits := {};
    }

    method UnpackAndVerify(buf: Bytes, crypto: Crypto) returns (r: Unpacked)
      requires Valid() && |buf| < UINT32_LIMIT
      modifies this
      ensures Valid() && old(hashKits) <= hashKits
      ensures r == Unpack(buf, crypto)
      ensures forall p :: r == Verified(p) <==> Opens(buf, p, crypto)
      ensures r.Verified? ==> hashKits == old(hashKits) + {r.payload.hashKit}
    {
      hide BitOr, HeaderEnd, DecodeSigHeader, LeftBySigHeader, Add32, HashSz, Opens;
      VerifiedIffOpens(buf, crypto);
      var failed, hdr, sigHdrEnd, hash := false, EMPTY_SIG_HEADER, 0, [];
      var bufLen := |buf|;
      if bufLen < 50 {
        failed := true;
      }
      if !failed {
        sigHdrEnd := HeaderEnd(buf[0], buf[1]);
        if sigHdrEnd > bufLen - 10 {
          failed := true;
        }
      }
      if !failed {
        var decoded;
        decoded, hdr := UnmarshalSigHeader(hdr, buf[2..sigHdrEnd]);
        if decoded.Err? {
          failed := true;
        }
      }
      var headerPos := sigHdrEnd;
      var headerEnd := Add32(headerPos, hdr.headerSz);
      var bodyPos := headerEnd;
      var bodyEnd := Add32(bodyPos, hdr.bodySz);
      if !failed && bodyEnd > bufLen - 1 {
        failed := true;
      }
      var sigPos := bodyEnd + 1;
      if bodyEnd >= bufLen {
        return Panics;
      }
      var sigEnd := sigPos + buf[bodyEnd];
      if !failed {
        if hdr.hashKitID !in hashKits {
          if KnownHashKit(EffectiveKit(hdr.hashKitID)) {
            hashKits := hashKits + {hdr.hashKitID};
          } else {
            return Panics;
          }
        }
        hash := crypto.digest(EffectiveKit(hdr.hashKitID), buf[..bodyEnd]);
        if sigEnd > bufLen {
          return Panics;
        }
        if !crypto.verify(hdr.signerCryptoKit, buf[sigPos..sigEnd], hash, hdr.signerPubKey) {
          failed := true;
        }
      }
      if !(headerPos <= headerEnd <= bodyEnd) || sigEnd > bufLen {
        return Panics;
      }
      if failed {
        return Refused;
      }
      return Verified(Payload(hdr.headerCodec, buf[headerPos..headerEnd], buf[bodyPos..bodyEnd], hdr.hashKitID, hash,
                              buf[sigPos..sigEnd], KeyInfo(SIGNING_KEY, hdr.signerCryptoKit, 0, hdr.signerPubKey)));
    }
  }

  // ----- what a buffer must be to be handed out

  /** Where the body ends, by the sizes in the SigHeader, of which the second is cut to 32 bits. */
  function BodyEnd(hdrEnd: nat, hdr: SigHeader): nat { hdrEnd + hdr.headerSz + hdr.bodySz % UINT32_LIMIT }

  /** The buffer starts with a SigHeader that decodes, header and body of the sizes it says, and a signature after its length;
      and the signer's key verifies that signature for the digest of all that is before it. */
  ghost predicate Opens(buf: Bytes, p: Payload, crypto: Crypto) {
    && |buf| >= 50
    && var hdrEnd := HeaderEnd(buf[0], buf[1]);
    && hdrEnd + 10 <= |buf|
    && var decoded := DecodeSigHeader(EMPTY_SIG_HEADER, buf[2..hdrEnd]);
    && decoded.Ok?
    && var hdr := decoded.value;
    && p.headerCodec == hdr.headerCodec && p.hashKit == hdr.hashKitID && KnownHashKit(EffectiveKit(p.hashKit))
    && p.signer == KeyInfo(SIGNING_KEY, hdr.signerCryptoKit, 0, hdr.signerPubKey)
    && |p.header| == hdr.headerSz && |p.body| == hdr.bodySz % UINT32_LIMIT && |p.hashSig| < 256
    && var front := buf[..hdrEnd] + p.header + p.body;
    && front + [|p.hashSig|] + p.hashSig <= buf
    && p.hash == crypto.digest(EffectiveKit(p.hashKit), front)
    && crypto.verify(p.signer.cryptoKitID, p.hashSig, p.hash, p.signer.pubKey)
  }

  /** A payload is handed out exactly when the buffer holds it, signed. */
  lemma VerifiedIffOpens(buf: Bytes, crypto: Crypto)
    requires |buf| < UINT32_LIMIT
    ensures forall p :: Unpack(buf, crypto) == Verified(p) <==> Opens(buf, p, crypto)
  {
    hide Unpack, Opens;
    forall p ensures Unpack(buf, crypto) == Verified(p) <==> Opens(buf, p, crypto) {
      if Unpack(buf, crypto) == Verified(p) { OpensIfVerified(buf, p, crypto); }
      if Opens(buf, p, crypto) { VerifiedIfOpens(buf, p, crypto); }
    }
  }

  lemma OpensIfVerified(buf: Bytes, p: Payload, crypto: Crypto)
    requires |buf| < UINT32_LIMIT && Unpack(buf, crypto) == Verified(p)
    ensures Opens(buf, p, crypto)
  {
    hide DecodeWith, LeftBySigHeader, HeaderEnd, Add32, HashSz, EffectiveKit, KnownHashKit;
    var (_, hdrEnd, hdr) := ReadHeader(buf);
    LeftIsDecoded(EMPTY_SIG_HEADER, buf[2..hdrEnd], 0);
    Add32WrapsIff(hdrEnd, hdr.headerSz);
    Add32WrapsIff(Add32(hdrEnd, hdr.headerSz), hdr.bodySz);
    SlicesOf(buf, hdrEnd, hdrEnd + hdr.headerSz, BodyEnd(hdrEnd, hdr));
  }

  lemma VerifiedIfOpens(buf: Bytes, p: Payload, crypto: Crypto)
    requires |buf| < UINT32_LIMIT && Opens(buf, p, crypto)
    ensures Unpack(buf, crypto) == Verified(p)
  {
    hide DecodeWith, LeftBySigHeader, HeaderEnd, Add32, HashSz, EffectiveKit, KnownHashKit;
    var hdrEnd := HeaderEnd(buf[0], buf[1]);
    var hdr := DecodeSigHeader(EMPTY_SIG_HEADER, buf[2..hdrEnd]).value;
    LeftIsDecoded(EMPTY_SIG_HEADER, buf[2..hdrEnd], 0);
    var (h, b) := (hdrEnd + |p.header|, hdrEnd + |p.header| + |p.body|);
    PartsOf(buf, buf[..hdrEnd], p.header, p.body, p.hashSig);
    Add32WrapsIff(hdrEnd, hdr.headerSz);
    assert Add32(hdrEnd, hdr.headerSz) == h;
    Add32WrapsIff(h, hdr.bodySz);
    assert Add32(h, hdr.bodySz) == b;
  }

  lemma SlicesOf(buf: Bytes, a: nat, b: nat, c: nat)
    requires a <= b <= c < |buf| && c + 1 + buf[c] <= |buf|
    ensures buf[..a] + buf[a..b] + buf[b..c] == buf[..c]
    ensures buf[..c] + [buf[c]] + buf[c + 1..c + 1 + buf[c]] == buf[..c + 1 + buf[c]] <= buf
  {
  }

  lemma PartsOf(buf: Bytes, pre: Bytes, header: Bytes, body: Bytes, sig: Bytes)
    requires |sig| < 256 && pre + header + body + [|sig|] + sig <= buf
    ensures var (h, b) := (|pre| + |header|, |pre| + |header| + |body|);
            && b + 1 + |sig| <= |buf| && buf[..b] == pre + header + body && buf[|pre|..h] == header && buf[h..b] == body
            && buf[b] == |sig| && buf[b + 1..b + 1 + |sig|] == sig
  {
    var all := pre + header + body + [|sig|] + sig;
    assert forall k :: 0 <= k < |all| ==> buf[k] == all[k];
  }

  /** Whether the bytes in the signature's place verify. */
  ghost predicate SignatureHolds(buf: Bytes, hdrEnd: nat, hdr: SigHeader, crypto: Crypto) {
    var end := BodyEnd(hdrEnd, hdr);
    && end < |buf| && end + 1 + buf[end] <= |buf|
    && crypto.verify(hdr.signerCryptoKit, buf[end + 1..end + 1 + buf[end]],
                     crypto.digest(EffectiveKit(hdr.hashKitID), buf[..end]), hdr.signerPubKey)
  }

  /** A buffer that does not make it panic is refused exactly when it is too small, its SigHeader ends too late or does not
      decode, or the signature does not hold. */
  lemma RefusedIff(buf: Bytes, crypto: Crypto)
    requires |buf| < UINT32_LIMIT && !Unpack(buf, crypto).Panics?
    ensures Unpack(buf, crypto) == Refused
       <==> || |buf| < 50
            || HeaderEnd(buf[0], buf[1]) + 10 > |buf|
            || DecodeSigHeader(EMPTY_SIG_HEADER, buf[2..HeaderEnd(buf[0], buf[1])]).Err?
            || !SignatureHolds(buf, HeaderEnd(buf[0], buf[1]),
                               DecodeSigHeader(EMPTY_SIG_HEADER, buf[2..HeaderEnd(buf[0], buf[1])]).value, crypto)
  {
    hide DecodeWith, LeftBySigHeader, HeaderEnd, Add32, HashSz, EffectiveKit, KnownHashKit;
    var (_, hdrEnd, hdr) := ReadHeader(buf);
    if |buf| >= 50 && hdrEnd + 10 <= |buf| {
      LeftIsDecoded(EMPTY_SIG_HEADER, buf[2..hdrEnd], 0);
      Add32WrapsIff(hdrEnd, hdr.headerSz);
      Add32WrapsIff(Add32(hdrEnd, hdr.headerSz), hdr.bodySz);
    }
  }

  /** A buffer of fewer than 50 bytes, which is always refused as too small, panics exactly when it is empty or its first
      byte counts more bytes than there are behind it. */
  lemma ShortBufferPanicsIff(buf: Bytes, crypto: Crypto)
    requires |buf| < 50
    ensures Unpack(buf, crypto) == Panics <==> buf == [] || buf[0] > |buf| - 1
    ensures Unpack(buf, crypto).Panics? || Unpack(buf, crypto).Refused?
  {
    hide DecodeSigHeader, LeftBySigHeader, HeaderEnd;
  }

  /** It panics exactly when the body, by the sum of its sizes without wrap-around, does not end before the last byte, or the
      signature behind it does not fit, or the hash kit is not known: so the errors for the first and the last are never
      returned. */
  lemma PanicsIff(buf: Bytes, crypto: Crypto)
    requires |buf| < UINT32_LIMIT
    ensures var (failed, hdrEnd, hdr) := ReadHeader(buf);
            var end := BodyEnd(hdrEnd, hdr);
            Unpack(buf, crypto) == Panics
            <==> end >= |buf| || end + 1 + buf[end] > |buf| || (!failed && !KnownHashKit(EffectiveKit(hdr.hashKitID)))
  {
    hide ReadHeader, Add32, HashSz, EffectiveKit, KnownHashKit;
    var (_, hdrEnd, hdr) := ReadHeader(buf);
    Add32WrapsIff(hdrEnd, hdr.headerSz);
    Add32WrapsIff(Add32(hdrEnd, hdr.headerSz), hdr.bodySz);
  }

  lemma Add32WrapsIff(a: nat, b: nat)
    requires a < UINT32_LIMIT
    ensures Add32(a, b) < UINT32_LIMIT
    ensures if a + b % UINT32_LIMIT < UINT32_LIMIT then Add32(a, b) == a + b % UINT32_LIMIT else Add32(a, b) < a
  {
  }

  // ----- when unpacking gives back what was packed

  /** The sizes of a SigHeader whose two length bytes are read back as that size. */
  predicate SizeReadsBack(size: nat) {
    size < 0x1_0000 && (size % 256 < 254 || size / 256 % 2 == 0)
  }

  /** The first sizes misread are 510 and 511. */
  lemma HeaderEndIff(size: nat)
    ensures HeaderEnd(size % 256, size / 256 % 256) == 2 + size <==> SizeReadsBack(size)
    ensures HeaderEnd(size % 256, size / 256 % 256) <= 2 + size
    ensures var (low, high) := (size % 256, size / 256 % 256);
            HeaderEnd(low, high) == if low < 254 then 2 + low + 256 * high
                                    else low - 254 + 256 * (if high % 2 == 0 then high + 1 else high)
  {
    hide BitOr;
    var low, high := size % 256, size / 256 % 256;
    if low < 254 {
      OrBelow256(2 + low, high);
    } else {
      // 2 + low is 256 or 257: its high bit meets the low bit of high
      OrWithCarry(low - 254, high);
    }
    ThirdByte(size);
  }

  lemma OrBelow256(a: nat, high: nat)
    requires a < 256
    ensures BitOr(a, high * 256) == a + high * 256
  {
    hide BitOr;
    Pow2Of8();
    OrDisjoint(a, 8, high);
  }

  lemma ThirdByte(size: nat)
    ensures size % 256 + 256 * (size / 256 % 256) <= size
    ensures size % 256 + 256 * (size / 256 % 256) == size <==> size < 0x1_0000
  {
  }

  lemma Pow2Of8()
    ensures Pow2(8) == 256
  {
    Pow2Adds(4, 4);
    assert Pow2(4) == 16;
  }

  /** (256 + c) | (high << 8), for c of at most one bit. */
  lemma OrWithCarry(c: nat, high: nat)
    requires c <= 1 && high < 256
    ensures BitOr(256 + c, high * 256) == c + 256 * (if high % 2 == 0 then high + 1 else high)
  {
    hide BitOr;
    OrOfDoubles(128, c, 128 * high);
    OrOfDoubles(64, 0, 64 * high);
    OrOfDoubles(32, 0, 32 * high);
    OrOfDoubles(16, 0, 16 * high);
    OrOfDoubles(8, 0, 8 * high);
    OrOfDoubles(4, 0, 4 * high);
    OrOfDoubles(2, 0, 2 * high);
    OrOfDoubles(1, 0, high);
    OrCommutes(1, high);
    OrOne(high);
  }

  lemma {:induction false} OrCommutes(a: nat, b: nat)
    ensures BitOr(a, b) == BitOr(b, a)
  {
    if a > 0 && b > 0 { OrCommutes(a / 2, b / 2); }
  }

  lemma OrOfDoubles(a: nat, x: nat, b: nat)
    requires x <= 1
    ensures BitOr(2 * a + x, 2 * b) == 2 * BitOr(a, b) + x
  {
    assert (2 * a + x) / 2 == a && (2 * a + x) % 2 == x && (2 * b) / 2 == b && (2 * b) % 2 == 0;
    assert BitOr(0, b) == b;
    OrZero(a);
  }

  /** A message that ends inside a field cannot be decoded. */
  lemma CutInside<M>(schema: Schema, apply: (M, Field) -> Result<M, WireError>, m: M, f: Bytes, p: Bytes, base: nat, x: Field)
    requires p != [] && p <= f && |p| < |f|
    requires NextField(schema, f, base) == Ok((x, |f|))
    ensures DecodeWith(schema, apply, m, p, base).Err?
  {
    hide NextField, DecodeWith;
    DecodeUnfolds(schema, apply, m, p, base);
    assert p + f[|p|..] == f;
    NextFieldFits(schema, p, base);
    if NextField(schema, p, base).Ok? {
      NextFieldLocal(schema, p, f[|p|..], base);
    }
  }

  lemma StrictPrefixOfSum(p: Bytes, f: Bytes, rest: Bytes)
    requires p <= f + rest && p != f + rest
    ensures |p| < |f| ==> p <= f
    ensures |p| >= |f| ==> p == f + p[|f|..] && p[|f|..] <= rest && p[|f|..] != rest
  {
    if |p| < |f| {
      assert p == (f + rest)[..|p|] == f[..|p|];
    } else {
      var tail := p[|f|..];
      assert p == (f + rest)[..|p|];
      assert tail == rest[..|tail|];
      assert p == f + tail;
    }
  }

  /** Cutting a message short inside or just before a field f: it fails, or stops just before f, or goes on behind f. */
  lemma CutShort<M>(schema: Schema, apply: (M, Field) -> Result<M, WireError>, m: M, f: Bytes, rest: Bytes, p: Bytes, base: nat,
                    x: Field, m': M)
    requires p <= f + rest && p != f + rest
    requires f == [] ==> m' == m
    requires f != [] ==> NextField(schema, f, base) == Ok((x, |f|)) && apply(m, x) == Ok(m')
    ensures var r := DecodeWith(schema, apply, m, p, base);
            || r.Err?
            || r == Ok(m)
            || (|f| <= |p| && p[|f|..] <= rest && p[|f|..] != rest
                && r == DecodeWith(schema, apply, m', p[|f|..], base + |f|))
  {
    hide NextField, DecodeWith;
    StrictPrefixOfSum(p, f, rest);
    if p == [] {
      DecodesNothing(schema, apply, m, base);
    } else if |p| < |f| {
      CutInside(schema, apply, m, f, p, base, x);
    } else {
      GoesOnBehind(schema, apply, m, f, p[|f|..], base, x, m');
    }
  }

  lemma GoesOnBehind<M>(schema: Schema, apply: (M, Field) -> Result<M, WireError>, m: M, f: Bytes, tail: Bytes, base: nat,
                        x: Field, m': M)
    requires f == [] ==> m' == m
    requires f != [] ==> NextField(schema, f, base) == Ok((x, |f|)) && apply(m, x) == Ok(m')
    ensures DecodeWith(schema, apply, m, f + tail, base) == DecodeWith(schema, apply, m', tail, base + |f|)
  {
    hide NextField, DecodeWith;
    if f == [] {
      assert f + tail == tail;
    } else {
      NextFieldLocal(schema, f, tail, base);
      DecodeStep(schema, apply, m, f + tail, base, x, |f|, m');
      assert (f + tail)[|f|..] == tail;
    }
  }

  lemma CutVarint<M>(schema: Schema, apply: (M, Field) -> Result<M, WireError>, m: M, num: nat, v: Uint64, rest: Bytes, p: Bytes,
                     base: nat, m': M)
    requires 1 <= num <= 15 && num in schema.varints
    requires p <= VarintBytes(num, v) + rest && p != VarintBytes(num, v) + rest
    requires if v == 0 then m' == m else apply(m, VarintField(num, Cut(v, schema.varints[num]))) == Ok(m')
    ensures var (r, n) := (DecodeWith(schema, apply, m, p, base), |VarintBytes(num, v)|);
            || r.Err?
            || r == Ok(m)
            || (n <= |p| && p[n..] <= rest && p[n..] != rest && r == DecodeWith(schema, apply, m', p[n..], base + n))
  {
    hide NextField, DecodeWith, Cut, EncodeVarint;
    var f := VarintBytes(num, v);
    if v != 0 {
      NextOfVarintBytes(schema, num, v, [], base);
      assert f + [] == f;
    }
    CutShort(schema, apply, m, f, rest, p, base, VarintField(num, Cut(v, schema.varints[num])), m');
  }

  lemma CutSlice<M>(schema: Schema, apply: (M, Field) -> Result<M, WireError>, m: M, num: nat, q: Bytes, rest: Bytes, p: Bytes,
                    base: nat, m': M)
    requires 1 <= num <= 15 && num in schema.lengthDelimited && num !in schema.varints
    requires base + |SliceBytes(num, q)| < INT_LIMIT
    requires p <= SliceBytes(num, q) + rest && p != SliceBytes(num, q) + rest
    requires if q == [] then m' == m else apply(m, BytesField(num, q)) == Ok(m')
    ensures var (r, n) := (DecodeWith(schema, apply, m, p, base), |SliceBytes(num, q)|);
            || r.Err?
            || r == Ok(m)
            || (n <= |p| && p[n..] <= rest && p[n..] != rest && r == DecodeWith(schema, apply, m', p[n..], base + n))
  {
    hide NextField, DecodeWith, LengthBytes;
    var f := SliceBytes(num, q);
    if q != [] {
      LengthBytesLonger(num, q);
      NextOfLengthBytes(schema, num, q, [], base);
      assert f + [] == f;
    }
    CutShort(schema, apply, m, f, rest, p, base, BytesField(num, q), m');
  }

  // No proper prefix of a marshalled SigHeader decodes to that SigHeader: field by field from the last one on.

  ghost predicate FallsShort(r: Result<SigHeader, WireError>, m: SigHeader) {
    r.Ok? ==> r.value != m && (r.value.bodySz == 0 || r.value.bodySz == m.bodySz)
  }

  function Bytes9(m: SigHeader): Bytes { VarintBytes(9, m.bodySz) }
  function Bytes8(m: SigHeader): Bytes { VarintBytes(8, m.headerCodec) + Bytes9(m) }
  function Bytes7(m: SigHeader): Bytes { VarintBytes(7, m.headerSz) + Bytes8(m) }
  function Bytes6(m: SigHeader): Bytes { VarintBytes(6, AsUint64(m.hashKitID)) + Bytes7(m) }
  function Bytes2(m: SigHeader): Bytes { SliceBytes(2, m.signerPubKey) + Bytes6(m) }

  lemma CutAt9(m: SigHeader, p: Bytes, base: nat)
    requires p <= Bytes9(m) && p != Bytes9(m)
    ensures FallsShort(DecodeWith(SIG_HEADER_SCHEMA, ApplySigHeader, m.(bodySz := 0), p, base), m)
  {
    hide DecodeWith, VarintBytes, ToUint64, Cut;
    EmptyFields();
    UnsignedWordOf(m.bodySz);
    assert Bytes9(m) + [] == Bytes9(m);
    CutVarint(SIG_HEADER_SCHEMA, ApplySigHeader, m.(bodySz := 0), 9, m.bodySz, [], p, base, m);
  }

  lemma CutAt8(m: SigHeader, p: Bytes, base: nat)
    requires p <= Bytes8(m) && p != Bytes8(m)
    ensures FallsShort(DecodeWith(SIG_HEADER_SCHEMA, ApplySigHeader, m.(headerCodec := 0, bodySz := 0), p, base), m)
  {
    hide DecodeWith, VarintBytes, ToUint32, Cut;
    EmptyFields();
    UnsignedWordOf(m.headerCodec);
    CutVarint(SIG_HEADER_SCHEMA, ApplySigHeader, m.(headerCodec := 0, bodySz := 0), 8, m.headerCodec, Bytes9(m), p, base,
              m.(bodySz := 0));
    var n := |VarintBytes(8, m.headerCodec)|;
    if n <= |p| && p[n..] <= Bytes9(m) && p[n..] != Bytes9(m) { CutAt9(m, p[n..], base + n); }
  }

  lemma CutAt7(m: SigHeader, p: Bytes, base: nat)
    requires p <= Bytes7(m) && p != Bytes7(m)
    ensures FallsShort(DecodeWith(SIG_HEADER_SCHEMA, ApplySigHeader, m.(headerSz := 0, headerCodec := 0, bodySz := 0), p, base), m)
  {
    hide DecodeWith, VarintBytes, ToUint32, Cut;
    EmptyFields();
    UnsignedWordOf(m.headerSz);
    CutVarint(SIG_HEADER_SCHEMA, ApplySigHeader, m.(headerSz := 0, headerCodec := 0, bodySz := 0), 7, m.headerSz, Bytes8(m), p,
              base, m.(headerCodec := 0, bodySz := 0));
    var n := |VarintBytes(7, m.headerSz)|;
    if n <= |p| && p[n..] <= Bytes8(m) && p[n..] != Bytes8(m) { CutAt8(m, p[n..], base + n); }
  }

  lemma CutAt6(m: SigHeader, p: Bytes, base: nat)
    requires p <= Bytes6(m) && p != Bytes6(m)
    ensures FallsShort(DecodeWith(SIG_HEADER_SCHEMA, ApplySigHeader,
                                  m.(hashKitID := 0, headerSz := 0, headerCodec := 0, bodySz := 0), p, base), m)
  {
    hide DecodeWith, VarintBytes, AsUint64, ToInt32, Cut;
    EmptyFields();
    WordOf(m.hashKitID);
    CutVarint(SIG_HEADER_SCHEMA, ApplySigHeader, m.(hashKitID := 0, headerSz := 0, headerCodec := 0, bodySz := 0), 6,
              AsUint64(m.hashKitID), Bytes7(m), p, base, m.(headerSz := 0, headerCodec := 0, bodySz := 0));
    var n := |VarintBytes(6, AsUint64(m.hashKitID))|;
    if n <= |p| && p[n..] <= Bytes7(m) && p[n..] != Bytes7(m) { CutAt7(m, p[n..], base + n); }
  }

  lemma CutAt2(m: SigHeader, p: Bytes, base: nat)
    requires base + |Bytes2(m)| < INT_LIMIT
    requires p <= Bytes2(m) && p != Bytes2(m)
    ensures FallsShort(DecodeWith(SIG_HEADER_SCHEMA, ApplySigHeader, SigHeader(m.signerCryptoKit, [], 0, 0, 0, 0), p, base), m)
  {
    hide DecodeWith, VarintBytes, SliceBytes, AsUint64;
    EmptyFields();
    WordOf(0);
    CutSlice(SIG_HEADER_SCHEMA, ApplySigHeader, SigHeader(m.signerCryptoKit, [], 0, 0, 0, 0), 2, m.signerPubKey, Bytes6(m), p,
             base, m.(hashKitID := 0, headerSz := 0, headerCodec := 0, bodySz := 0));
    var n := |SliceBytes(2, m.signerPubKey)|;
    if n <= |p| && p[n..] <= Bytes6(m) && p[n..] != Bytes6(m) { CutAt6(m, p[n..], base + n); }
  }

  lemma PrefixDiffers(m: SigHeader, p: Bytes)
    requires |EncodeSigHeader(m)| < INT_LIMIT
    requires p <= EncodeSigHeader(m) && p != EncodeSigHeader(m)
    ensures FallsShort(DecodeSigHeader(EMPTY_SIG_HEADER, p), m)
  {
    hide DecodeWith, VarintBytes, SliceBytes, AsUint64, ToInt32, Cut;
    EmptyFields();
    WordOf(0);
    WordOf(m.signerCryptoKit);
    assert EncodeSigHeader(m) == VarintBytes(1, AsUint64(m.signerCryptoKit)) + Bytes2(m);
    CutVarint(SIG_HEADER_SCHEMA, ApplySigHeader, EMPTY_SIG_HEADER, 1, AsUint64(m.signerCryptoKit), Bytes2(m), p, 0,
              EMPTY_SIG_HEADER.(signerCryptoKit := m.signerCryptoKit));
    var n := |VarintBytes(1, AsUint64(m.signerCryptoKit))|;
    if n <= |p| && p[n..] <= Bytes2(m) && p[n..] != Bytes2(m) { CutAt2(m, p[n..], n); }
  }

  lemma EmptyFields()
    ensures VarintBytes(1, 0) == VarintBytes(6, 0) == VarintBytes(7, 0) == VarintBytes(8, 0) == VarintBytes(9, 0) == []
    ensures SliceBytes(2, []) == []
  {
  }

  // ----- the round trip

  /** What a receiver is meant to get. */
  function Intended(key: KeyInfo, hashKitID: Int32, codec: Uint32, header: Bytes, body: Bytes, digest: Bytes, sig: Bytes): Payload {
    Payload(codec, header, body, hashKitID, digest, sig, KeyInfo(SIGNING_KEY, key.cryptoKitID, 0, key.pubKey))
  }

  lemma FrameSlices(hdr: Bytes, header: Bytes, body: Bytes, sig: Bytes)
    requires |sig| < 256
    ensures var (f, h, b) := (Frame(hdr, header, body, sig), 2 + |hdr|, 2 + |hdr| + |header|);
            && |f| == b + |body| + 1 + |sig|
            && f[0] == |hdr| % 256 && f[1] == |hdr| / 256 % 256
            && f[2..h] == hdr && f[h..b] == header && f[b..b + |body|] == body
            && f[..b + |body|] == FrameFront(hdr, header, body)
            && f[b + |body|] == |sig| && f[b + |body| + 1..] == sig
  {
  }

  /** A packed payload comes back as it was, signed by its signer and with its digest and signature, exactly when
      there are at least 50 bytes in all and 10 behind the SigHeader, and the size of the SigHeader is read back. */
  lemma UnpackInvertsPack(crypto: Crypto, key: KeyInfo, hashKitID: Int32, codec: Uint32, header: Bytes, body: Bytes)
    requires crypto.Lawful() && KnownHashKit(hashKitID)
    requires |header| < UINT32_LIMIT && |body| < UINT32_LIMIT
    requires var enc := EncodeSigHeader(HeaderFor(key, hashKitID, codec, header, body));
             var signed := crypto.sign(key, crypto.digest(hashKitID, FrameFront(enc, header, body)));
             signed.Ok? && |signed.value| < 256 && |Frame(enc, header, body, signed.value)| < UINT32_LIMIT
    ensures var enc := EncodeSigHeader(HeaderFor(key, hashKitID, codec, header, body));
            var digest := crypto.digest(hashKitID, FrameFront(enc, header, body));
            var sig := crypto.sign(key, digest).value;
            var frame := Frame(enc, header, body, sig);
            Unpack(frame, crypto) == Verified(Intended(key, hashKitID, codec, header, body, digest, sig))
            <==> |frame| >= 50 && |header| + |body| + 1 + |sig| >= 10 && SizeReadsBack(|enc|)
  {
    hide EncodeSigHeader, DecodeSigHeader, HeaderEnd, FrameFront, Unpack, SizeReadsBack, Frame;
    var hdr := HeaderFor(key, hashKitID, codec, header, body);
    var enc := EncodeSigHeader(hdr);
    var sig := crypto.sign(key, crypto.digest(hashKitID, FrameFront(enc, header, body))).value;
    HeaderEndIff(|enc|);
    FrameSlices(enc, header, body, sig);
    if SizeReadsBack(|enc|) {
      UnpacksIfReadBack(crypto, key, hashKitID, codec, header, body, enc, sig);
    } else {
      DiffersIfMisread(crypto, key, hashKitID, codec, header, body, enc, sig);
    }
  }

  /** A SigHeader that decodes is what Unmarshal leaves. */
  lemma {:induction false} LeftIsDecoded(m: SigHeader, s: Bytes, base: nat)
    ensures DecodeWith(SIG_HEADER_SCHEMA, ApplySigHeader, m, s, base).Ok? ==>
              DecodeWith(SIG_HEADER_SCHEMA, ApplySigHeader, m, s, base) == Ok(LeftBySigHeader(m, s, base))
    decreases |s|
  {
    hide NextField, DecodeWith, LeftBySigHeader, ApplySigHeader, PartialField;
    DecodeUnfolds(SIG_HEADER_SCHEMA, ApplySigHeader, m, s, base);
    LeftUnfolds(m, s, base);
    if s != [] && NextField(SIG_HEADER_SCHEMA, s, base).Ok? {
      var (field, n) := NextField(SIG_HEADER_SCHEMA, s, base).value;
      LeftIsDecoded(ApplySigHeader(m, field).value, s[n..], base + n);
    }
  }

  lemma UnpacksIfReadBack(crypto: Crypto, key: KeyInfo, hashKitID: Int32, codec: Uint32, header: Bytes, body: Bytes,
                          enc: Bytes, sig: Bytes)
    requires crypto.Lawful() && KnownHashKit(hashKitID)
    requires |header| < UINT32_LIMIT && |body| < UINT32_LIMIT
    requires enc == EncodeSigHeader(HeaderFor(key, hashKitID, codec, header, body))
    requires |sig| < 256 && |Frame(enc, header, body, sig)| < UINT32_LIMIT
    requires Ok(sig) == crypto.sign(key, crypto.digest(hashKitID, FrameFront(enc, header, body)))
    requires HeaderEnd(|enc| % 256, |enc| / 256 % 256) == 2 + |enc|
    ensures var digest := crypto.digest(hashKitID, FrameFront(enc, header, body));
            if |Frame(enc, header, body, sig)| >= 50 && |header| + |body| + 1 + |sig| >= 10
            then Unpack(Frame(enc, header, body, sig), crypto) == Verified(Intended(key, hashKitID, codec, header, body, digest, sig))
            else !Unpack(Frame(enc, header, body, sig), crypto).Verified?
  {
    hide EncodeSigHeader, DecodeWith, LeftBySigHeader, HeaderEnd, FrameFront, Frame, HashSz, Add32;
    var f := Frame(enc, header, body, sig);
    FrameSlices(enc, header, body, sig);
    SigHeaderRoundTrip(HeaderFor(key, hashKitID, codec, header, body));
    LeftIsDecoded(EMPTY_SIG_HEADER, enc, 0);
    var headerEnd := 2 + |enc| + |header|;
    var bodyEnd := headerEnd + |body|;
    Add32Fits(2 + |enc|, |header|);
    Add32Fits(headerEnd, |body|);
    assert f[bodyEnd + 1..bodyEnd + 1 + |sig|] == sig;
  }

  lemma DiffersIfMisread(crypto: Crypto, key: KeyInfo, hashKitID: Int32, codec: Uint32, header: Bytes, body: Bytes,
                         enc: Bytes, sig: Bytes)
    requires KnownHashKit(hashKitID)
    requires |header| < UINT32_LIMIT && |body| < UINT32_LIMIT
    requires enc == EncodeSigHeader(HeaderFor(key, hashKitID, codec, header, body))
    requires |sig| < 256 && |Frame(enc, header, body, sig)| < UINT32_LIMIT
    requires 2 <= HeaderEnd(|enc| % 256, |enc| / 256 % 256) < 2 + |enc|
    ensures forall digest :: Unpack(Frame(enc, header, body, sig), crypto)
                          != Verified(Intended(key, hashKitID, codec, header, body, digest, sig))
  {
    hide EncodeSigHeader, DecodeWith, LeftBySigHeader, HeaderEnd, FrameFront, Frame, HashSz, Add32;
    var f := Frame(enc, header, body, sig);
    FrameSlices(enc, header, body, sig);
    var hdrEnd := HeaderEnd(f[0], f[1]);
    PrefixOfSlice(f, 2, hdrEnd, 2 + |enc|);
    var hdr := HeaderFor(key, hashKitID, codec, header, body);
    PrefixDiffers(hdr, f[2..hdrEnd]);
    LeftIsDecoded(EMPTY_SIG_HEADER, f[2..hdrEnd], 0);
    var u := Unpack(f, crypto);
    if u.Verified? {
      var got := DecodeSigHeader(EMPTY_SIG_HEADER, f[2..hdrEnd]).value;
      Add32Fits(hdrEnd, got.headerSz);
      Add32Fits(Add32(hdrEnd, got.headerSz), got.bodySz);
    }
  }

  lemma PrefixOfSlice(f: Bytes, lo: nat, mid: nat, hi: nat)
    requires lo <= mid < hi <= |f|
    ensures f[lo..mid] <= f[lo..hi] && f[lo..mid] != f[lo..hi]
  {
    assert f[lo..mid] == f[lo..hi][..mid - lo];
  }

  /** A key session, a payload packed in it and the receiver together: with a signature of 9 to 99 bytes, a frame of
      at least 50 bytes and a SigHeader under 510 bytes, everything comes back and the stored digest is intact. */
  method SendAndReceive(packer: PayloadPacker, unpacker: PayloadUnpacker, codec: Uint32, header: Bytes, body: Bytes, crypto: Crypto)
    returns (sent: Result<PackingInfo, PackError>, received: Unpacked)
    requires crypto.Lawful() && packer.Ready() && unpacker.Valid()
    requires |header| < UINT32_LIMIT && |body| < UINT32_LIMIT
    requires |EncodeSigHeader(HeaderFor(packer.signingKey, packer.hashKitID, codec, header, body))| < 510
    requires 1000 + |header| + |body| < UINT32_LIMIT
    modifies unpacker
    ensures unpacker.Valid()
    ensures
      var (key, kit) := (packer.signingKey, packer.hashKitID);
      var front := FrameFront(EncodeSigHeader(HeaderFor(key, kit, codec, header, body)), header, body);
      var digest := crypto.digest(kit, front);
      match crypto.sign(key, digest)
      case Err(e) => sent == Err(e)
      case Ok(sig) =>
        9 <= |sig| <= 99 && |front| + 1 + |sig| >= 50 ==>
          && received == Verified(Intended(key, kit, codec, header, body, digest, sig))
          && sent.Ok? && sent.value.hashPos + sent.value.hashSz <= sent.value.buf.Length
          && sent.value.buf[sent.value.hashPos..sent.value.hashPos + sent.value.hashSz] == digest
  {
    hide EncodeSigHeader, Unpack, FrameFront, Frame, SizeReadsBack;
    ghost var (key, kit) := (packer.signingKey, packer.hashKitID);
    ghost var enc := EncodeSigHeader(HeaderFor(key, kit, codec, header, body));
    ghost var digest := crypto.digest(kit, FrameFront(enc, header, body));
    sent := packer.PackAndSign(codec, header, body, 0, crypto);
    received := Refused;
    if sent.Ok? {
      ghost var sig := crypto.sign(key, digest).value;
      FrameSlices(enc, header, body, sig);
      var buf := sent.value.buf[..sent.value.signedSz];
      UnpackInvertsPack(crypto, key, kit, codec, header, body);
      DigestKept(sent.value, enc, header, body, digest, sig);
      received := unpacker.UnpackAndVerify(buf, crypto);
      Below510ReadsBack(|enc|);
    }
  }

  lemma Below510ReadsBack(size: nat)
    ensures size < 510 ==> SizeReadsBack(size)
    ensures !SizeReadsBack(510) && !SizeReadsBack(511) && SizeReadsBack(512)
  {
  }

  /** A SigHeader of 510 bytes: a pub key of 501, and a header of 10. */
  lemma HeaderOf510(pub: Bytes, header: Bytes)
    requires |pub| == 501 && |header| == 10
    ensures |EncodeSigHeader(HeaderFor(KeyInfo(SIGNING_KEY, 1, 0, pub), 1, 0, header, []))| == 510
  {
    assert EncodeVarint(1) == [1] && EncodeVarint(10) == [10];
    assert |EncodeVarint(501)| == 2;
    EmptyFields();
  }

  /** Whatever the keys, hashers and signatures, a payload packed with it does not come back. */
  lemma LostAt510(crypto: Crypto, pub: Bytes, header: Bytes)
    requires crypto.Lawful() && |pub| == 501 && |header| == 10
    requires var enc := EncodeSigHeader(HeaderFor(KeyInfo(SIGNING_KEY, 1, 0, pub), 1, 0, header, []));
             var signed := crypto.sign(KeyInfo(SIGNING_KEY, 1, 0, pub), crypto.digest(1, FrameFront(enc, header, [])));
             signed.Ok? && |signed.value| < 256
    ensures var key := KeyInfo(SIGNING_KEY, 1, 0, pub);
            var enc := EncodeSigHeader(HeaderFor(key, 1, 0, header, []));
            var digest := crypto.digest(1, FrameFront(enc, header, []));
            var sig := crypto.sign(key, digest).value;
            var frame := Frame(enc, header, [], sig);
            |frame| < UINT32_LIMIT && Unpack(frame, crypto) != Verified(Intended(key, 1, 0, header, [], digest, sig))
  {
    hide EncodeSigHeader, Unpack, Frame, FrameFront;
    var key := KeyInfo(SIGNING_KEY, 1, 0, pub);
    var enc := EncodeSigHeader(HeaderFor(key, 1, 0, header, []));
    HeaderOf510(pub, header);
    FrameSlices(enc, header, [], crypto.sign(key, crypto.digest(1, FrameFront(enc, header, []))).value);
    UnpackInvertsPack(crypto, key, 1, 0, header, []);
    Below510ReadsBack(510);
  }
}

/** The messages of the key interface, as values: what a pointer tree holds at one moment.
    A byte slice that is nil and one that is empty are the same value. */
module Messages {
  import opened Wrappers
  import opened Bytes

  type Int32 = x: int | -0x8000_0000 <= x < 0x8000_0000
  type Int64 = x: int | -0x8000_0000_0000_0000 <= x < 0x8000_0000_0000_0000
  type Uint32 = x: int | 0 <= x < 0x1_0000_0000
  type Uint64 = x: int | 0 <= x < 0x1_0000_0000_0000_0000

  datatype KeyInfo = KeyInfo(keyType: Int32, cryptoKitID: Int32, timeCreated: Int64, pubKey: Bytes)

  datatype KeyEntry = KeyEntry(keyInfo: Option<KeyInfo>, privKey: Bytes)

  datatype KeyringMsg = KeyringMsg(name: Bytes, keys: seq<KeyEntry>, sortedByPubKey: bool, newestPubKey: Bytes)

  datatype KeyTomeMsg = KeyTomeMsg(rev: Int64, keyrings: seq<KeyringMsg>, sortedByName: bool)

  datatype SigHeader = SigHeader(signerCryptoKit: Int32, signerPubKey: Bytes, hashKitID: Int32,
                                 headerSz: Uint32, headerCodec: Uint32, bodySz: Uint64)
}

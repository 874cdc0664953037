/** Exporting part of a tome as bytes, and importing it into another tome. */
module KeyExport {
  import opened Wrappers
  import opened Lists
  import opened Bytes
  import opened Messages
  import opened KeyOrder
  import opened KeyLists
  import opened KeyringStore
  import opened TomeMerge
  import opened KeyTomeStore
  import opened Varint
  import opened Wire
  import opened Codec
  import opened CodecLoops

  /** What a guide keyring asks for: some pub keys of the keyring of this name, or with none listed all of it. */
  datatype Guide = Guide(name: Bytes, pubKeys: seq<Bytes>)

  datatype ExportError = KeyringNotFound

  // ----- what an export holds

  /** What a keyring holds now. */
  function Held(kr: Keyring): KeyringMsg
    reads kr
  {
    KeyringMsg(kr.name, kr.keys, kr.sortedByPubKey, kr.newestPubKey)
  }

  /** The entries found for these pub keys, in the order asked. */
  function Found(keys: seq<Entry>, pubKeys: seq<Bytes>): seq<Entry> {
    if pubKeys == [] then []
    else
      var found := FirstWithKey(keys, pubKeys[0]);
      (if found.Some? then [found.value] else []) + Found(keys, pubKeys[1..])
  }

  function ExportedRing(kr: Keyring, pubKeys: seq<Bytes>): KeyringMsg
    reads kr
  {
    if pubKeys == [] then Held(kr) else KeyringMsg(kr.name, Found(kr.keys, pubKeys), false, [])
  }

  function Exported(krs: seq<Keyring>, guides: seq<Guide>): seq<KeyringMsg>
    reads krs
  {
    if guides == [] then []
    else
      var kr := FirstNamed(krs, guides[0].name);
      (if kr != null then [ExportedRing(kr, guides[0].pubKeys)] else []) + Exported(krs, guides[1..])
  }

  /** Everything the guides ask for is there. */
  predicate AllFound(krs: seq<Keyring>, guides: seq<Guide>)
    reads krs
  {
    forall g :: g in guides ==> GuideFound(krs, g)
  }

  predicate GuideFound(krs: seq<Keyring>, g: Guide)
    reads krs
  {
    var kr := FirstNamed(krs, g.name);
    kr != null && forall p :: p in g.pubKeys ==> FirstWithKey(kr.keys, p).Some?
  }

  lemma FoundSnoc(keys: seq<Entry>, pubKeys: seq<Bytes>, p: Bytes)
    ensures Found(keys, pubKeys + [p]) ==
            Found(keys, pubKeys) + if FirstWithKey(keys, p).Some? then [FirstWithKey(keys, p).value] else []
  {
    if pubKeys == [] {
      assert [] + [p] == [p];
    } else {
      assert (pubKeys + [p])[1..] == pubKeys[1..] + [p];
      FoundSnoc(keys, pubKeys[1..], p);
    }
  }

  lemma ExportedSnoc(krs: seq<Keyring>, guides: seq<Guide>, g: Guide)
    ensures Exported(krs, guides + [g]) ==
            Exported(krs, guides) + if FirstNamed(krs, g.name) != null then [ExportedRing(FirstNamed(krs, g.name), g.pubKeys)] else []
  {
    hide ExportedRing, FirstNamed;
    if guides == [] {
      assert [] + [g] == [g];
    } else {
      assert (guides + [g])[1..] == guides[1..] + [g];
      ExportedSnoc(krs, guides[1..], g);
    }
  }

  // ----- exporting

  /** KeyTome.ExportUsingGuide. With the option to report what is missing, anything missing is an error;
      without it, what is missing is left out. */
  method ExportUsingGuide(tome: KeyTome, guides: seq<Guide>, errorOnKeyNotFound: bool) returns (r: Result<array<Byte>, ExportError>)
    requires tome.Valid()
    requires |EncodeKeyTome(KeyTomeMsg(tome.rev, Exported(tome.keyrings, guides), false))| < INT_LIMIT
    ensures r.Err? <==> errorOnKeyNotFound && !AllFound(tome.keyrings, guides)
    ensures r.Ok? ==>
              && fresh(r.value)
              && r.value[..] == EncodeKeyTome(KeyTomeMsg(tome.rev, Exported(tome.keyrings, guides), false))
  {
    hide FirstNamed, FirstWithKey, EncodeKeyTome, Sorted, NamesSorted, Storable, ExportedRing, Exported, GuideFound;
    var keyrings: seq<KeyringMsg> := [];
    var i := 0;
    ExportedNone(tome.keyrings);
    while i < |guides|
      invariant 0 <= i <= |guides|
      invariant keyrings == Exported(tome.keyrings, guides[..i])
      invariant errorOnKeyNotFound ==> AllFound(tome.keyrings, guides[..i])
    {
      var krGuide := guides[i];
      ExportedSnoc(tome.keyrings, guides[..i], krGuide);
      GuideFoundIff(tome.keyrings, krGuide);
      assert guides[..i + 1] == guides[..i] + [krGuide] && krGuide in guides;
      var krSrc := tome.FetchKeyring(krGuide.name);
      if krSrc == null {
        if errorOnKeyNotFound {
          return Err(KeyringNotFound);
        }
      } else {
        assert krSrc.Valid();
        if |krGuide.pubKeys| == 0 {
          keyrings := keyrings + [Held(krSrc)];
        } else {
          var keys, missing := CollectKeys(krSrc, krGuide.pubKeys, errorOnKeyNotFound);
          if missing {
            return Err(KeyringNotFound);
          }
          keyrings := keyrings + [KeyringMsg(krSrc.name, keys, false, [])];
        }
      }
      i := i + 1;
    }
    assert guides[..i] == guides;
    var buf := KeyTomeMarshal(KeyTomeMsg(tome.rev, keyrings, false));
    return Ok(buf);
  }

  lemma ExportedNone(krs: seq<Keyring>)
    ensures Exported(krs, []) == []
  {
  }

  lemma GuideFoundIff(krs: seq<Keyring>, g: Guide)
    ensures FirstNamed(krs, g.name) == null ==> !GuideFound(krs, g)
    ensures var kr := FirstNamed(krs, g.name);
            kr != null ==>
              && kr in krs
              && (GuideFound(krs, g) <==> forall p :: p in g.pubKeys ==> FirstWithKey(kr.keys, p).Some?)
              && ExportedRing(kr, g.pubKeys)
                 == if g.pubKeys == [] then Held(kr) else KeyringMsg(kr.name, Found(kr.keys, g.pubKeys), false, [])
  {
    hide FirstWithKey;
  }

  /** The inner loop of an export: the entries found, or that one is missing and that is an error. */
  method CollectKeys(krSrc: Keyring, pubKeys: seq<Bytes>, errorOnKeyNotFound: bool) returns (keys: seq<Entry>, missing: bool)
    requires krSrc.Valid()
    ensures missing <==> errorOnKeyNotFound && exists p :: p in pubKeys && FirstWithKey(krSrc.keys, p).None?
    ensures !missing ==> keys == Found(krSrc.keys, pubKeys)
  {
    hide FirstWithKey, Sorted, Storable;
    keys := [];
    var j := 0;
    while j < |pubKeys|
      invariant 0 <= j <= |pubKeys|
      invariant keys == Found(krSrc.keys, pubKeys[..j])
      invariant errorOnKeyNotFound ==> forall p :: p in pubKeys[..j] ==> FirstWithKey(krSrc.keys, p).Some?
    {
      var p := pubKeys[j];
      FoundSnoc(krSrc.keys, pubKeys[..j], p);
      assert pubKeys[..j + 1] == pubKeys[..j] + [p];
      var found := krSrc.FetchKey(p);
      if found.None? {
        if errorOnKeyNotFound {
          assert p in pubKeys;
          return keys, true;
        }
      } else {
        keys := keys + [found.value];
      }
      j := j + 1;
    }
    assert pubKeys[..j] == pubKeys;
    return keys, false;
  }

  lemma NamedIsIn(krs: seq<Keyring>, name: Bytes)
    ensures FirstNamed(krs, name) != null ==> FirstNamed(krs, name) in krs && FirstNamed(krs, name).name == name
  {
  }

  // ----- importing

  /** Every entry of these keyrings can be stored, and their sorted flags are honest. */
  ghost predicate Importable(msgs: seq<KeyringMsg>) {
    forall m :: m in msgs ==>
      && (forall e :: e in m.keys ==> Storable(e))
      && (m.sortedByPubKey ==> Sorted(Entries(m.keys)))
  }

  /** The same entries, known to be storable. */
  function Entries(keys: seq<KeyEntry>): (r: seq<Entry>)
    requires forall e :: e in keys ==> Storable(e)
    ensures r == keys
  {
    if keys == [] then [] else [keys[0]] + Entries(keys[1..])
  }

  /** Objects for the keyrings of a message. */
  method LoadKeyrings(msgs: seq<KeyringMsg>) returns (krs: seq<Keyring>)
    requires Importable(msgs)
    ensures |krs| == |msgs| && NoDuplicates(krs) && fresh(krs)
    ensures forall i :: 0 <= i < |krs| ==> Held(krs[i]) == msgs[i] && krs[i].Valid()
  {
    hide Sorted, Storable;
    krs := [];
    for i := 0 to |msgs|
      invariant |krs| == i && NoDuplicates(krs) && fresh(krs)
      invariant forall j :: 0 <= j < i ==> Held(krs[j]) == msgs[j] && krs[j].Valid()
    {
      var m := msgs[i];
      assert m in msgs;
      var kr := new Keyring(m.name, Entries(m.keys), m.sortedByPubKey, m.newestPubKey);
      krs := krs + [kr];
    }
  }

  /** What is exported from an honest tome can be imported. */
  lemma {:induction false} ExportedIsImportable(krs: seq<Keyring>, guides: seq<Guide>)
    requires forall k :: k in krs ==> k.Valid()
    ensures Importable(Exported(krs, guides))
  {
    hide Sorted, Storable, FirstNamed;
    if guides != [] {
      ExportedIsImportable(krs, guides[1..]);
      NamedIsIn(krs, guides[0].name);
      var kr := FirstNamed(krs, guides[0].name);
      if kr != null { RingIsImportable(kr, guides[0].pubKeys); }
    }
  }

  lemma RingIsImportable(kr: Keyring, pubKeys: seq<Bytes>)
    requires kr.Valid()
    ensures Importable([ExportedRing(kr, pubKeys)])
  {
    hide Sorted;
    var m := ExportedRing(kr, pubKeys);
    var entries: seq<Entry> := if pubKeys == [] then kr.keys else Found(kr.keys, pubKeys);
    forall e | e in m.keys ensures Storable(e) {
      assert e in entries;
    }
  }

  /** The keyring of the guide's name, as a whole; or only the entries asked for, neither sorted nor with a cache. */
  ghost predicate IsExportedFor(krs: seq<Keyring>, g: Guide, m: KeyringMsg)
    reads krs
  {
    var kr := FirstNamed(krs, g.name);
    && kr != null && m.name == g.name
    && if g.pubKeys == [] then m.keys == kr.keys && m.sortedByPubKey == kr.sortedByPubKey && m.newestPubKey == kr.newestPubKey
       else m.keys == Found(kr.keys, g.pubKeys) && !m.sortedByPubKey && m.newestPubKey == []
  }

  lemma IsExportedForIff(krs: seq<Keyring>, g: Guide, m: KeyringMsg)
    ensures IsExportedFor(krs, g, m)
       <==> FirstNamed(krs, g.name) != null && m == ExportedRing(FirstNamed(krs, g.name), g.pubKeys)
  {
    hide Found;
  }

  /** A guide keyring is exported exactly when the tome has a keyring of that name, and nothing else is. */
  lemma {:induction false} ExportedNames(krs: seq<Keyring>, guides: seq<Guide>, m: KeyringMsg)
    ensures m in Exported(krs, guides) <==>
            exists g :: g in guides && IsExportedFor(krs, g, m)
  {
    hide ExportedRing, FirstNamed, IsExportedFor;
    if guides != [] {
      ExportedNames(krs, guides[1..], m);
      IsExportedForIff(krs, guides[0], m);
      if g :| g in guides && IsExportedFor(krs, g, m) {
        assert g == guides[0] || g in guides[1..];
      }
      if IsExportedFor(krs, guides[0], m) {
        assert guides[0] in guides;
      }
      assert forall g :: g in guides[1..] ==> g in guides;
    }
  }

  lemma {:induction false} ExportedNamesDistinct(krs: seq<Keyring>, guides: seq<Guide>)
    requires forall i, j :: 0 <= i < j < |guides| ==> guides[i].name != guides[j].name
    ensures forall i, j :: 0 <= i < j < |Exported(krs, guides)| ==> Exported(krs, guides)[i].name != Exported(krs, guides)[j].name
  {
    hide FirstNamed;
    if guides != [] {
      ExportedNamesDistinct(krs, guides[1..]);
      NamedIsIn(krs, guides[0].name);
      var kr := FirstNamed(krs, guides[0].name);
      forall m | m in Exported(krs, guides[1..]) && kr != null ensures m.name != guides[0].name {
        ExportedNames(krs, guides[1..], m);
        var g :| g in guides[1..] && IsExportedFor(krs, g, m);
      }
    }
  }

  function ExportedKeys(kr: Keyring, pubKeys: seq<Bytes>): seq<Entry>
    reads kr
  {
    if pubKeys == [] then kr.keys else Found(kr.keys, pubKeys)
  }

  /** The entries found are those a lookup of one of the pub keys finds. */
  lemma {:induction false} FoundExactly(keys: seq<Entry>, pubKeys: seq<Bytes>, e: Entry)
    ensures e in Found(keys, pubKeys) <==> exists p :: p in pubKeys && FirstWithKey(keys, p) == Some(e)
  {
    hide FirstWithKey, Storable;
    if pubKeys != [] {
      FoundExactly(keys, pubKeys[1..], e);
      if p :| p in pubKeys && FirstWithKey(keys, p) == Some(e) {
        assert p == pubKeys[0] || p in pubKeys[1..];
      }
      if FirstWithKey(keys, pubKeys[0]) == Some(e) {
        assert pubKeys[0] in pubKeys;
      }
      assert forall p :: p in pubKeys[1..] ==> p in pubKeys;
    }
  }

  /** Distinct pub keys find distinct entries. */
  lemma {:induction false} FoundOnce(keys: seq<Entry>, pubKeys: seq<Bytes>)
    requires NoDuplicates(pubKeys)
    ensures DistinctPubKeys(Found(keys, pubKeys))
  {
    hide FirstWithKey, Storable;
    if pubKeys != [] {
      FoundOnce(keys, pubKeys[1..]);
      FirstWithKeyIff(keys, pubKeys[0]);
      forall e | e in Found(keys, pubKeys[1..]) ensures PubKey(e) != pubKeys[0] {
        FoundExactly(keys, pubKeys[1..], e);
        var p :| p in pubKeys[1..] && FirstWithKey(keys, p) == Some(e);
        FirstWithKeyIff(keys, p);
      }
    }
  }

  /** The keyring of the imported tome that answers a guide. */
  ghost predicate Answers(d: Keyring, tome: KeyTome, g: Guide)
    reads d, tome, tome.keyrings
  {
    var kr := FirstNamed(tome.keyrings, g.name);
    kr != null && d.name == g.name && d.keys == Sort(ExportedKeys(kr, g.pubKeys))
  }

  ghost predicate HoldsImported(d: Keyring, m: KeyringMsg)
    requires forall e :: e in m.keys ==> Storable(e)
    reads d
  {
    d.name == m.name && d.keys == Sort(Entries(m.keys))
  }

  /** Merges the keyrings of a message into an empty tome: all of them move there, sorted. */
  method ImportTome(msg: KeyTomeMsg) returns (dst: KeyTome, src: KeyTome)
    requires Importable(msg.keyrings) && !msg.sortedByName
    requires forall i, j :: 0 <= i < j < |msg.keyrings| ==> msg.keyrings[i].name != msg.keyrings[j].name
    ensures src.keyrings == [] && dst.Valid() && DistinctNames(dst.keyrings)
    ensures forall m :: m in msg.keyrings ==> exists d :: d in dst.keyrings && HoldsImported(d, m)
    ensures forall d :: d in dst.keyrings ==> exists m :: m in msg.keyrings && HoldsImported(d, m)
  {
    hide Sorted, NamesSorted, Storable, Sort, Entries, NoDuplicates;
    var krs := LoadKeyrings(msg.keyrings);
    src := new KeyTome(msg.rev, krs, msg.sortedByName);
    dst := new KeyTome(1, [], false);
    NoDuplicatesInNone<Keyring>();
    dst.MergeTome(src);
    forall m | m in msg.keyrings ensures exists d :: d in dst.keyrings && HoldsImported(d, m) {
      var i :| 0 <= i < |msg.keyrings| && msg.keyrings[i] == m;
      assert krs[i] in krs;
      assert HoldsImported(krs[i], m);
    }
    forall d | d in dst.keyrings ensures exists m :: m in msg.keyrings && HoldsImported(d, m) {
      var i :| 0 <= i < |krs| && krs[i] == d;
      assert HoldsImported(d, msg.keyrings[i]);
    }
  }

  lemma NoDuplicatesInNone<T>()
    ensures NoDuplicates<T>([])
  {
  }

  lemma AnswersIff(d: Keyring, tome: KeyTome, g: Guide)
    requires tome.Valid() && FirstNamed(tome.keyrings, g.name) != null
    ensures var m := ExportedRing(FirstNamed(tome.keyrings, g.name), g.pubKeys);
            && (forall e :: e in m.keys ==> Storable(e))
            && (HoldsImported(d, m) <==> Answers(d, tome, g))
  {
    hide Sort, Sorted, NamesSorted;
    var kr := FirstNamed(tome.keyrings, g.name);
    RingIsImportable(kr, g.pubKeys);
    assert ExportedRing(kr, g.pubKeys) in [ExportedRing(kr, g.pubKeys)];
  }

  /** Exports by a guide and imports the bytes into an empty tome: there the guided keyrings are, and no others,
      each with exactly the entries the guide asked for; and nothing is left in the import source. */
  method ExportThenImport(tome: KeyTome, guides: seq<Guide>) returns (dst: KeyTome, src: KeyTome)
    requires tome.Valid()
    requires forall i, j :: 0 <= i < j < |guides| ==> guides[i].name != guides[j].name
    requires |EncodeKeyTome(KeyTomeMsg(tome.rev, Exported(tome.keyrings, guides), false))| < INT_LIMIT
    ensures src.keyrings == []
    ensures dst.Valid() && DistinctNames(dst.keyrings)
    ensures forall g :: g in guides && FirstNamed(tome.keyrings, g.name) != null ==>
              exists d :: d in dst.keyrings && Answers(d, tome, g)
    ensures forall d :: d in dst.keyrings ==> exists g :: g in guides && Answers(d, tome, g)
  {
    hide FirstNamed, FirstWithKey, EncodeKeyTome, DecodeKeyTome, Sorted, NamesSorted, Storable, Sort, Found, DistinctNames,
      Exported, ExportedRing, ExportedKeys, HoldsImported, Answers;
    var exported := ExportUsingGuide(tome, guides, false);
    ghost var rings := Exported(tome.keyrings, guides);
    var buf := exported.value;
    KeyTomeRoundTrip(KeyTomeMsg(tome.rev, rings, false));
    var decoded := UnmarshalKeyTome(EMPTY_KEY_TOME, buf[..]);
    ExportedIsImportable(tome.keyrings, guides);
    ExportedNamesDistinct(tome.keyrings, guides);
    dst, src := ImportTome(decoded.value);
    EveryGuideAnswered(tome, guides, dst.keyrings);
    OnlyGuidesAnswered(tome, guides, dst.keyrings);
  }

  /** If what is exported was imported, every guide is answered. */
  lemma EveryGuideAnswered(tome: KeyTome, guides: seq<Guide>, krs: seq<Keyring>)
    requires tome.Valid() && Importable(Exported(tome.keyrings, guides))
    requires forall m :: m in Exported(tome.keyrings, guides) ==> exists d :: d in krs && HoldsImported(d, m)
    ensures forall g :: g in guides && FirstNamed(tome.keyrings, g.name) != null ==>
              exists d :: d in krs && Answers(d, tome, g)
  {
    hide FirstNamed, Sorted, NamesSorted, Storable, HoldsImported, Answers, Exported, ExportedRing;
    forall g | g in guides && FirstNamed(tome.keyrings, g.name) != null
      ensures exists d :: d in krs && Answers(d, tome, g)
    {
      var m := ExportedRing(FirstNamed(tome.keyrings, g.name), g.pubKeys);
      ExportedNames(tome.keyrings, guides, m);
      IsExportedForIff(tome.keyrings, g, m);
      var d :| d in krs && HoldsImported(d, m);
      AnswersIff(d, tome, g);
    }
  }

  /** If only what is exported was imported, only guides are answered. */
  lemma OnlyGuidesAnswered(tome: KeyTome, guides: seq<Guide>, krs: seq<Keyring>)
    requires tome.Valid() && Importable(Exported(tome.keyrings, guides))
    requires forall d :: d in krs ==> exists m :: m in Exported(tome.keyrings, guides) && HoldsImported(d, m)
    ensures forall d :: d in krs ==> exists g :: g in guides && Answers(d, tome, g)
  {
    hide FirstNamed, Sorted, NamesSorted, Storable, HoldsImported, Answers, Exported, ExportedRing, KeyTome.Valid;
    forall d | d in krs ensures exists g :: g in guides && Answers(d, tome, g) {
      var m :| m in Exported(tome.keyrings, guides) && HoldsImported(d, m);
      ExportedNames(tome.keyrings, guides, m);
      var g :| g in guides && IsExportedFor(tome.keyrings, g, m);
      IsExportedForIff(tome.keyrings, g, m);
      AnswersIff(d, tome, g);
    }
  }
}

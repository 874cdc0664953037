/** The order of key entries, and what sorting by it yields. */
module KeyOrder {
  import opened Wrappers
  import opened Bytes
  import opened Messages

  /** The int64 difference a - b, which wraps around. */
  function Minus64(a: Int64, b: Int64): (r: Int64)
    ensures -0x8000_0000_0000_0000 <= a - b < 0x8000_0000_0000_0000 ==> r == a - b
    ensures r == 0 <==> a == b
  {
    var d := a - b;
    if d >= 0x8000_0000_0000_0000 then d - 0x1_0000_0000_0000_0000
    else if d < -0x8000_0000_0000_0000 then d + 0x1_0000_0000_0000_0000
    else d
  }

  /** The int32 difference a - b, which wraps around. */
  function Minus32(a: Int32, b: Int32): (r: Int32)
    ensures -0x8000_0000 <= a - b < 0x8000_0000 ==> r == a - b
    ensures r == 0 <==> a == b
  {
    var d := a - b;
    if d >= 0x8000_0000 then d - 0x1_0000_0000
    else if d < -0x8000_0000 then d + 0x1_0000_0000
    else d
  }

  /** CompareKeyInfo: pub key first, then newer entries first, then the two kinds. */
  function CompareKeyInfo(a: KeyInfo, b: KeyInfo): int {
    var diff := Compare(a.pubKey, b.pubKey);
    if diff != 0 then diff else
    var diff := Minus64(b.timeCreated, a.timeCreated);
    if diff != 0 then diff else
    var diff := Minus32(a.keyType, b.keyType);
    if diff != 0 then diff else
    Minus32(a.cryptoKitID, b.cryptoKitID)
  }

  /** A stored entry has its info, and what the comparison subtracts is non-negative. */
  predicate Storable(e: KeyEntry) {
    && e.keyInfo.Some?
    && e.keyInfo.value.timeCreated >= 0
    && e.keyInfo.value.keyType >= 0
    && e.keyInfo.value.cryptoKitID >= 0
  }

  type Entry = e: KeyEntry | Storable(e) witness KeyEntry(Some(KeyInfo(0, 0, 0, [])), [])

  function PubKey(e: Entry): Bytes { e.keyInfo.value.pubKey }

  function Time(e: Entry): int { e.keyInfo.value.timeCreated }

  /** CompareKeyEntry, for entries that carry their info. */
  function CompareKeyEntry(a: KeyEntry, b: KeyEntry): int
    requires a.keyInfo.Some? && b.keyInfo.Some?
  {
    var diff := CompareKeyInfo(a.keyInfo.value, b.keyInfo.value);
    if diff != 0 then diff else Compare(a.privKey, b.privKey)
  }

  /** Zero means equal contents, wrap-around or not. */
  lemma CompareZeroIffEqual(a: KeyEntry, b: KeyEntry)
    requires a.keyInfo.Some? && b.keyInfo.Some?
    ensures CompareKeyEntry(a, b) == 0 <==> a == b
  {
    CompareZero(a.keyInfo.value.pubKey, b.keyInfo.value.pubKey);
    CompareZero(a.privKey, b.privKey);
  }

  lemma CompareIsAntisymmetric(a: Entry, b: Entry)
    ensures CompareKeyEntry(a, b) < 0 <==> CompareKeyEntry(b, a) > 0
  {
    CompareAntisymmetric(PubKey(a), PubKey(b));
    CompareAntisymmetric(a.privKey, b.privKey);
  }

  lemma CompareIsTransitive(a: Entry, b: Entry, c: Entry)
    requires CompareKeyEntry(a, b) <= 0 && CompareKeyEntry(b, c) <= 0
    ensures CompareKeyEntry(a, c) <= 0
    ensures CompareKeyEntry(a, b) < 0 || CompareKeyEntry(b, c) < 0 ==> CompareKeyEntry(a, c) < 0
  {
    CompareZero(PubKey(a), PubKey(b));
    CompareZero(PubKey(b), PubKey(c));
    CompareZero(PubKey(a), PubKey(c));
    if Compare(PubKey(a), PubKey(b)) <= 0 && Compare(PubKey(b), PubKey(c)) <= 0 {
      CompareTransitive(PubKey(a), PubKey(b), PubKey(c));
    }
    if Compare(a.privKey, b.privKey) <= 0 && Compare(b.privKey, c.privKey) <= 0 {
      CompareTransitive(a.privKey, b.privKey, c.privKey);
    }
  }

  /** Of two entries with one pub key the comparison puts the newer first
      exactly when the difference of their times fits in 64 bits. */
  lemma NewerSortsFirstIff(a: KeyEntry, b: KeyEntry)
    requires a.keyInfo.Some? && b.keyInfo.Some?
    requires a.keyInfo.value.pubKey == b.keyInfo.value.pubKey
    requires a.keyInfo.value.timeCreated > b.keyInfo.value.timeCreated
    ensures CompareKeyEntry(a, b) < 0
       <==> a.keyInfo.value.timeCreated - b.keyInfo.value.timeCreated <= 0x8000_0000_0000_0000
  {
    CompareZero(a.keyInfo.value.pubKey, b.keyInfo.value.pubKey);
  }

  /** a stands before b: by pub key in lexicographic order, then the newer, then by type, kit and private key. */
  ghost predicate Before(a: Entry, b: Entry) {
    var (x, y) := (a.keyInfo.value, b.keyInfo.value);
    || Below(x.pubKey, y.pubKey)
    || (x.pubKey == y.pubKey &&
        (|| x.timeCreated > y.timeCreated
         || (x.timeCreated == y.timeCreated &&
             (|| x.keyType < y.keyType
              || (x.keyType == y.keyType &&
                  (|| x.cryptoKitID < y.cryptoKitID
                   || (x.cryptoKitID == y.cryptoKitID && Below(a.privKey, b.privKey))))))))
  }

  lemma CompareMeansBefore(a: Entry, b: Entry)
    ensures CompareKeyEntry(a, b) < 0 <==> Before(a, b)
  {
    hide Below, Compare;
    var (x, y) := (a.keyInfo.value, b.keyInfo.value);
    CompareZero(x.pubKey, y.pubKey);
    CompareIsLexicographic(x.pubKey, y.pubKey);
    CompareIsLexicographic(a.privKey, b.privKey);
  }

  // ----- sorted lists

  /** CompareKeyEntry, for stored entries. */
  function CompareEntries(a: Entry, b: Entry): int { CompareKeyEntry(a, b) }

  lemma CompareEntriesZero(a: Entry, b: Entry)
    ensures CompareEntries(a, b) == 0 <==> a == b
  {
    CompareZeroIffEqual(a, b);
  }

  /** a may stand before b in a sorted list. */
  predicate Leq(a: Entry, b: Entry) { CompareEntries(a, b) <= 0 }

  lemma LeqIsATotalOrder(a: Entry, b: Entry, c: Entry)
    ensures Leq(a, b) || Leq(b, a)
    ensures Leq(a, b) && Leq(b, a) <==> a == b
    ensures Leq(a, b) && Leq(b, c) ==> Leq(a, c)
  {
    CompareIsAntisymmetric(a, b);
    CompareZeroIffEqual(a, b);
    hide CompareKeyEntry;
    if Leq(a, b) && Leq(b, c) { CompareIsTransitive(a, b, c); }
  }

  ghost predicate Sorted(s: seq<Entry>) {
    forall i, j :: 0 <= i < j < |s| ==> Leq(s[i], s[j])
  }

  /** Each entry stands before those behind it, unless it is the same. */
  ghost predicate Ascending(s: seq<Entry>) {
    forall i, j :: 0 <= i < j < |s| ==> s[i] == s[j] || Before(s[i], s[j])
  }

  lemma SortedIsAscending(s: seq<Entry>)
    ensures Sorted(s) <==> Ascending(s)
  {
    hide Before, CompareKeyEntry, Storable;
    forall i, j | 0 <= i < j < |s| ensures Leq(s[i], s[j]) <==> s[i] == s[j] || Before(s[i], s[j]) {
      CompareMeansBefore(s[i], s[j]);
      CompareEntriesZero(s[i], s[j]);
    }
  }

  function Insert(e: Entry, s: seq<Entry>): (r: seq<Entry>) {
    if s == [] then [e]
    else if Leq(e, s[0]) then [e] + s
    else [s[0]] + Insert(e, s[1..])
  }

  /** What sort.Sort(ByNewestPubKey(s)) leaves: by SortIsTheOnlySortedPermutation
      any sorting algorithm leaves this list. */
  function Sort(s: seq<Entry>): (r: seq<Entry>) {
    if s == [] then [] else Insert(s[0], Sort(s[1..]))
  }

  lemma SortedCons(e: Entry, s: seq<Entry>)
    ensures Sorted([e] + s) <==> Sorted(s) && forall x :: x in s ==> Leq(e, x)
  {
    hide Leq, Storable;
    var t := [e] + s;
    if Sorted(t) {
      forall i, j | 0 <= i < j < |s| ensures Leq(s[i], s[j]) {
        assert t[i + 1] == s[i] && t[j + 1] == s[j];
      }
      forall x | x in s ensures Leq(e, x) {
        var j :| 0 <= j < |s| && s[j] == x;
        assert t[0] == e && t[j + 1] == x;
      }
    }
    if Sorted(s) && forall x :: x in s ==> Leq(e, x) {
      forall i, j | 0 <= i < j < |t| ensures Leq(t[i], t[j]) {
        assert t[j] == s[j - 1];
        if i > 0 { assert t[i] == s[i - 1]; }
      }
    }
  }

  lemma {:induction false} InsertSorts(e: Entry, s: seq<Entry>)
    requires Sorted(s)
    ensures Sorted(Insert(e, s)) && multiset(Insert(e, s)) == multiset(s) + multiset{e}
  {
    hide Leq, Sorted, Storable;
    if s == [] {
      SortedCons(e, s);
      assert [e] + s == [e];
    } else {
      assert s == [s[0]] + s[1..];
      SortedCons(s[0], s[1..]);
      LeqIsATotalOrder(e, s[0], e);
      if Leq(e, s[0]) {
        forall x | x in s ensures Leq(e, x) {
          LeqIsATotalOrder(e, s[0], x);
        }
        SortedCons(e, s);
      } else {
        InsertSorts(e, s[1..]);
        var t := Insert(e, s[1..]);
        forall x | x in t ensures Leq(s[0], x) {
          assert x in multiset(t);
        }
        SortedCons(s[0], t);
      }
    }
  }

  lemma {:induction false} SortSorts(s: seq<Entry>)
    ensures Sorted(Sort(s)) && multiset(Sort(s)) == multiset(s)
  {
    hide Leq, Storable;
    if s != [] {
      SortSorts(s[1..]);
      InsertSorts(s[0], Sort(s[1..]));
      assert s == [s[0]] + s[1..];
    }
  }

  lemma SameMultisetSameElements<T>(a: seq<T>, b: seq<T>)
    requires multiset(a) == multiset(b)
    ensures |a| == |b|
    ensures forall e :: e in a <==> e in b
  {
    assert |multiset(a)| == |a| && |multiset(b)| == |b|;
    forall e ensures e in a <==> e in b {
      assert e in a <==> e in multiset(a);
      assert e in b <==> e in multiset(b);
    }
  }

  lemma MultisetOfTail<T>(s: seq<T>)
    requires s != []
    ensures multiset(s[1..]) == multiset(s) - multiset{s[0]}
  {
    assert s == [s[0]] + s[1..];
  }

  lemma FirstIsLeast(s: seq<Entry>, e: Entry)
    requires Sorted(s) && e in s
    ensures Leq(s[0], e)
  {
    LeqIsATotalOrder(s[0], s[0], s[0]);
    hide Leq, Storable;
    var i :| 0 <= i < |s| && s[i] == e;
  }

  /** Two sorted lists of the same entries are the same list. */
  lemma {:induction false} SortedPermutationsAreEqual(a: seq<Entry>, b: seq<Entry>)
    requires Sorted(a) && Sorted(b) && multiset(a) == multiset(b)
    ensures a == b
  {
    hide Leq, Sorted, Storable;
    SameMultisetSameElements(a, b);
    if a != [] {
      assert a[0] in b && b[0] in a;
      FirstIsLeast(a, b[0]);
      FirstIsLeast(b, a[0]);
      LeqIsATotalOrder(a[0], b[0], b[0]);
      assert a == [a[0]] + a[1..] && b == [b[0]] + b[1..];
      SortedCons(a[0], a[1..]);
      SortedCons(b[0], b[1..]);
      MultisetOfTail(a);
      MultisetOfTail(b);
      SortedPermutationsAreEqual(a[1..], b[1..]);
    }
  }

  /** Whatever algorithm sorts s, what it leaves is Sort(s). */
  lemma SortIsTheOnlySortedPermutation(s: seq<Entry>, t: seq<Entry>)
    ensures t == Sort(s) <==> Sorted(t) && multiset(t) == multiset(s)
  {
    hide Leq, Sorted, Storable;
    SortSorts(s);
    if Sorted(t) && multiset(t) == multiset(s) {
      SortedPermutationsAreEqual(t, Sort(s));
    }
  }
}

/** What the keyring operations mean, said of lists and sets of entries. */
module KeyLists {
  import opened Wrappers
  import opened Lists
  import opened Bytes
  import opened Messages
  import opened KeyOrder

  /** A pub key shorter than this is suspicious. */
  const MIN_PUB_KEY_PREFIX_SZ := 16

  // ----- lookups by a left-to-right scan

  /** The first entry with this pub key. */
  function FirstWithKey(s: seq<Entry>, pub: Bytes): Option<Entry> {
    if s == [] then None
    else if PubKey(s[0]) == pub then Some(s[0])
    else FirstWithKey(s[1..], pub)
  }

  /** The first entry whose pub key starts with this prefix. */
  function FirstWithPrefix(s: seq<Entry>, prefix: Bytes): Option<Entry> {
    if s == [] then None
    else if prefix <= PubKey(s[0]) then Some(s[0])
    else FirstWithPrefix(s[1..], prefix)
  }

  ghost predicate IsFirstWithKey(s: seq<Entry>, pub: Bytes, e: Entry, k: int) {
    && 0 <= k < |s| && s[k] == e && PubKey(e) == pub
    && forall j :: 0 <= j < k ==> PubKey(s[j]) != pub
  }

  lemma {:induction false} FirstWithKeyFinds(s: seq<Entry>, pub: Bytes)
    ensures FirstWithKey(s, pub).None? ==> forall k :: 0 <= k < |s| ==> PubKey(s[k]) != pub
    ensures FirstWithKey(s, pub).Some? ==> exists k :: IsFirstWithKey(s, pub, FirstWithKey(s, pub).value, k)
  {
    if s != [] && PubKey(s[0]) != pub {
      FirstWithKeyFinds(s[1..], pub);
      match FirstWithKey(s[1..], pub)
      case None =>
      case Some(e) =>
        var k :| IsFirstWithKey(s[1..], pub, e, k);
        forall j | 0 <= j < k + 1 ensures PubKey(s[j]) != pub {
          if j > 0 { assert s[j] == s[1..][j - 1]; }
        }
        assert s[k + 1] == s[1..][k];
        assert IsFirstWithKey(s, pub, e, k + 1);
    } else if s != [] {
      assert IsFirstWithKey(s, pub, s[0], 0);
    }
  }

  /** An entry is found exactly when some entry carries the key. */
  lemma FirstWithKeyIff(s: seq<Entry>, pub: Bytes)
    ensures FirstWithKey(s, pub).Some? <==> exists e :: e in s && PubKey(e) == pub
    ensures FirstWithKey(s, pub).Some? ==> FirstWithKey(s, pub).value in s && PubKey(FirstWithKey(s, pub).value) == pub
  {
    FirstWithKeyFinds(s, pub);
    if FirstWithKey(s, pub).None? {
      forall e | e in s ensures PubKey(e) != pub {
        var k :| 0 <= k < |s| && s[k] == e;
      }
    }
  }

  /** In a list without repeated pub keys the entry found is the only one. */
  lemma FirstWithKeyUnique(s: seq<Entry>, e: Entry)
    requires DistinctPubKeys(s) && e in s
    ensures FirstWithKey(s, PubKey(e)) == Some(e)
  {
    FirstWithKeyFinds(s, PubKey(e));
    var i :| 0 <= i < |s| && s[i] == e;
  }

  ghost predicate DistinctPubKeys(s: seq<Entry>) {
    forall i, j :: 0 <= i < j < |s| ==> PubKey(s[i]) != PubKey(s[j])
  }

  lemma {:induction false} FirstWithPrefixFinds(s: seq<Entry>, prefix: Bytes)
    ensures FirstWithPrefix(s, prefix).None? ==> forall k :: 0 <= k < |s| ==> !(prefix <= PubKey(s[k]))
    ensures FirstWithPrefix(s, prefix).Some? ==> exists k :: IsFirstWithPrefix(s, prefix, FirstWithPrefix(s, prefix).value, k)
  {
    if s != [] && !(prefix <= PubKey(s[0])) {
      FirstWithPrefixFinds(s[1..], prefix);
      match FirstWithPrefix(s[1..], prefix)
      case None =>
      case Some(e) =>
        var k :| IsFirstWithPrefix(s[1..], prefix, e, k);
        forall j | 0 <= j < k + 1 ensures !(prefix <= PubKey(s[j])) {
          if j > 0 { assert s[j] == s[1..][j - 1]; }
        }
        assert s[k + 1] == s[1..][k];
        assert IsFirstWithPrefix(s, prefix, e, k + 1);
    } else if s != [] {
      assert IsFirstWithPrefix(s, prefix, s[0], 0);
    }
  }

  ghost predicate IsFirstWithPrefix(s: seq<Entry>, prefix: Bytes, e: Entry, k: int) {
    && 0 <= k < |s| && s[k] == e && prefix <= PubKey(e)
    && forall j :: 0 <= j < k ==> !(prefix <= PubKey(s[j]))
  }

  // ----- lookups by binary search

  /** Where sort.Search stops: the first position whose pub key is not below the one sought. */
  ghost predicate IsLowerBound(s: seq<Entry>, key: Bytes, pos: int) {
    && 0 <= pos <= |s|
    && (forall k :: 0 <= k < pos ==> Compare(PubKey(s[k]), key) < 0)
    && (forall k :: pos <= k < |s| ==> Compare(PubKey(s[k]), key) >= 0)
  }

  /** In a sorted list, testing the lower bound alone finds what the full scan finds. */
  lemma FirstWithKeyAtLowerBound(s: seq<Entry>, key: Bytes, pos: int)
    requires Sorted(s) && IsLowerBound(s, key, pos)
    ensures FirstWithKey(s, key) == if pos < |s| && PubKey(s[pos]) == key then Some(s[pos]) else None
  {
    hide Leq, Storable;
    FirstWithKeyFinds(s, key);
    if FirstWithKey(s, key).Some? {
      var k :| IsFirstWithKey(s, key, FirstWithKey(s, key).value, k);
      CompareZero(key, key);
      assert pos <= k;
      if pos < k {
        assert Leq(s[pos], s[k]);
        KeysInOrder(s[pos], s[k]);
        CompareZero(PubKey(s[pos]), key);
      }
    }
  }

  lemma FirstWithPrefixAtLowerBound(s: seq<Entry>, prefix: Bytes, pos: int)
    requires Sorted(s) && IsLowerBound(s, prefix, pos)
    ensures FirstWithPrefix(s, prefix) == if pos < |s| && prefix <= PubKey(s[pos]) then Some(s[pos]) else None
  {
    hide Leq, Storable;
    FirstWithPrefixFinds(s, prefix);
    if FirstWithPrefix(s, prefix).Some? {
      var k :| IsFirstWithPrefix(s, prefix, FirstWithPrefix(s, prefix).value, k);
      PrefixSortsFirst(prefix, PubKey(s[k]));
      CompareAntisymmetric(prefix, PubKey(s[k]));
      assert pos <= k;
      if pos < k {
        assert Leq(s[pos], s[k]);
        KeysInOrder(s[pos], s[k]);
        CompareAntisymmetric(prefix, PubKey(s[pos]));
        PrefixesAreContiguous(prefix, PubKey(s[pos]), PubKey(s[k]));
      }
    }
  }

  // ----- the newest entry

  ghost predicate Newest(e: Entry, s: seq<Entry>) {
    e in s && forall x :: x in s ==> Time(x) <= Time(e)
  }

  /** In a sorted list the first entry with the pub key of a newest entry is itself a newest entry,
      however often that pub key is repeated. */
  lemma NewestFoundByKey(s: seq<Entry>, e: Entry)
    requires Sorted(s) && Newest(e, s)
    ensures FirstWithKey(s, PubKey(e)).Some? && Newest(FirstWithKey(s, PubKey(e)).value, s)
  {
    FirstWithKeyFinds(s, PubKey(e));
    var i :| 0 <= i < |s| && s[i] == e;
    var first := FirstWithKey(s, PubKey(e)).value;
    var k :| IsFirstWithKey(s, PubKey(e), first, k);
    assert k <= i;
    if k < i {
      assert Leq(s[k], s[i]);
      NewerFirst(s[k], s[i]);
    }
  }

  lemma NewerFirst(a: Entry, b: Entry)
    requires Leq(a, b) && PubKey(a) == PubKey(b)
    ensures Time(a) >= Time(b)
  {
    CompareZero(PubKey(a), PubKey(b));
  }

  lemma KeysInOrder(a: Entry, b: Entry)
    requires Leq(a, b)
    ensures Compare(PubKey(a), PubKey(b)) <= 0
  {
  }

  // ----- dropping duplicates

  ghost predicate StrictlySorted(s: seq<Entry>) {
    Sorted(s) && NoDuplicates(s)
  }

  /** Each entry stands before those behind it. */
  ghost predicate StrictlyAscending(s: seq<Entry>) {
    forall i, j :: 0 <= i < j < |s| ==> Before(s[i], s[j])
  }

  lemma StrictlySortedAscends(s: seq<Entry>)
    ensures StrictlySorted(s) <==> StrictlyAscending(s)
  {
    hide Before, CompareKeyEntry, Storable, Leq;
    SortedIsAscending(s);
    forall i, j | 0 <= i < j < |s| ensures Before(s[i], s[j]) ==> s[i] != s[j] {
      CompareMeansBefore(s[i], s[j]);
      CompareEntriesZero(s[i], s[j]);
    }
  }

  /** The list with each run of equal neighbours cut to one. */
  function WithoutDupes(s: seq<Entry>): (r: seq<Entry>)
    ensures |r| <= |s| && (s != [] ==> r != [])
    ensures s != [] ==> r[|r| - 1] == s[|s| - 1]
  {
    if |s| <= 1 then s
    else if s[|s| - 2] == s[|s| - 1] then WithoutDupes(s[..|s| - 1])
    else WithoutDupes(s[..|s| - 1]) + [s[|s| - 1]]
  }

  lemma WithoutDupesOfOne(s: seq<Entry>)
    ensures s == [] ==> WithoutDupes(s) == []
    ensures s != [] ==> WithoutDupes(s[..1]) == s[..1]
  {
  }

  lemma WithoutDupesStep(s: seq<Entry>, i: nat)
    requires 1 <= i < |s|
    ensures WithoutDupes(s[..i + 1])
         == WithoutDupes(s[..i]) + if s[i - 1] == s[i] then [] else [s[i]]
  {
    assert s[..i + 1][..i] == s[..i];
  }

  lemma SortedPrefix(s: seq<Entry>, n: nat)
    requires Sorted(s) && n <= |s|
    ensures Sorted(s[..n])
  {
    hide Leq, Storable;
    forall i, j | 0 <= i < j < n ensures Leq(s[..n][i], s[..n][j]) {
      assert s[..n][i] == s[i] && s[..n][j] == s[j];
    }
  }

  /** On a sorted list this leaves the same contents, each once, still sorted. */
  lemma {:induction false} WithoutDupesIsStrict(s: seq<Entry>)
    requires Sorted(s)
    ensures StrictlySorted(WithoutDupes(s))
    ensures forall e :: e in WithoutDupes(s) <==> e in s
  {
    hide Leq, Storable;
    if |s| > 1 {
      var p, last := s[..|s| - 1], s[|s| - 1];
      SortedPrefix(s, |s| - 1);
      WithoutDupesIsStrict(p);
      assert s == p + [last];
      assert p[|p| - 1] == s[|s| - 2] && p[|p| - 1] in p;
      if s[|s| - 2] != last {
        assert Leq(s[|s| - 2], last);
        AppendStrict(WithoutDupes(p), last);
      }
    }
  }

  lemma AppendStrict(s: seq<Entry>, e: Entry)
    requires s != [] && StrictlySorted(s) && Leq(s[|s| - 1], e) && s[|s| - 1] != e
    ensures StrictlySorted(s + [e])
  {
    forall i | 0 <= i < |s| ensures Leq(s[i], e) && s[i] != e {
      LeqIsATotalOrder(s[i], s[|s| - 1], e);
      LeqIsATotalOrder(s[|s| - 1], e, e);
    }
    hide Leq, Storable;
  }

  // ----- merging

  function Elements<T(==)>(s: seq<T>): (r: set<T>) {
    set e | e in s
  }

  /** A source entry whose pub key the destination lacks is added. */
  function Added(dst: seq<Entry>, src: set<Entry>): set<Entry> {
    set e | e in src && FirstWithKey(dst, PubKey(e)).None?
  }

  /** One whose pub key the destination has stays behind, unless it is an exact duplicate
      with a pub key of ordinary length, which is dropped. */
  predicate IsRejected(dst: seq<Entry>, e: Entry) {
    var found := FirstWithKey(dst, PubKey(e));
    found.Some? && (found.value != e || |PubKey(e)| < MIN_PUB_KEY_PREFIX_SZ)
  }

  function Rejected(dst: seq<Entry>, src: set<Entry>): set<Entry> {
    set e | e in src && IsRejected(dst, e)
  }

  /** The destination list once the given entries are added: unchanged if there are none, else sorted anew. */
  ghost predicate IsExtension(before: seq<Entry>, added: set<Entry>, after: seq<Entry>) {
    if added == {} then after == before
    else Sorted(after) && multiset(after) == multiset(before) + multiset(added)
  }

  lemma IsExtensionElements(before: seq<Entry>, added: set<Entry>, after: seq<Entry>)
    requires IsExtension(before, added, after)
    ensures Elements(after) == Elements(before) + added
  {
    hide Leq, Storable;
    if added != {} {
      forall e ensures e in after <==> e in before || e in added {
        assert e in after <==> e in multiset(after);
        assert e in before <==> e in multiset(before);
      }
    }
  }

  lemma SortingExtends(before: seq<Entry>, added: seq<Entry>)
    requires NoDuplicates(added)
    ensures IsExtension(before, Elements(added), if added == [] then before else Sort(before + added))
    ensures Elements(Sort(before + added)) == Elements(before + added)
    ensures added == [] <==> Elements(added) == {}
  {
    hide Leq, Storable;
    NoDuplicatesMultiset(added);
    SortSorts(before + added);
    SameMultisetSameElements(Sort(before + added), before + added);
    if added != [] { assert added[0] in Elements(added); }
  }

  lemma SortingIsStrict(s: seq<Entry>)
    requires NoDuplicates(s)
    ensures StrictlySorted(Sort(s)) && Elements(Sort(s)) == Elements(s)
  {
    hide Leq, Storable;
    SortSorts(s);
    SameMultisetSameElements(Sort(s), s);
    NoDuplicatesMultiset(s);
    if i, j :| 0 <= i < j < |Sort(s)| && Sort(s)[i] == Sort(s)[j] {
      TwiceInMultiset(Sort(s), i, j);
    }
  }

  /** Moving the last element into the place of element i and cutting the end removes element i. */
  lemma SwapRemove<T>(s: seq<T>, i: nat, t: seq<T>)
    requires i < |s| && NoDuplicates(s)
    requires t == s[i := s[|s| - 1]][..|s| - 1]
    ensures NoDuplicates(t)
    ensures forall e :: e in t <==> e in s && e != s[i]
  {
    forall e | e in s && e != s[i] ensures e in t {
      var k :| 0 <= k < |s| && s[k] == e;
      if k == |s| - 1 { assert t[i] == e; } else { assert t[k] == e; }
    }
    forall e | e in t ensures e in s && e != s[i] {
      var k :| 0 <= k < |t| && t[k] == e;
      if k == i { assert s[|s| - 1] == e; }
    }
  }

  lemma {:induction false} NoDuplicatesMultiset<T>(s: seq<T>)
    requires NoDuplicates(s)
    ensures multiset(s) == multiset(Elements(s))
  {
    if s != [] {
      var p, last := s[..|s| - 1], s[|s| - 1];
      assert s == p + [last];
      NoDuplicatesMultiset(p);
      assert Elements(s) == Elements(p) + {last};
      assert last !in p;
    }
  }

  /** Three-way partition: added, dropped and rejected entries together are the source's, each in one part. Dropped is
      what the lookup answers with an exact duplicate, of ordinary length; when the destination's pub keys are distinct,
      these are the exact duplicates of ordinary length. */
  lemma MergePartition(dst: seq<Entry>, src: set<Entry>, e: Entry)
    requires e in src
    ensures e in Added(dst, src) <==> !exists d :: d in dst && PubKey(d) == PubKey(e)
    ensures e !in Added(dst, src) || e !in Rejected(dst, src)
    ensures e !in Added(dst, src) && e !in Rejected(dst, src)
       <==> FirstWithKey(dst, PubKey(e)) == Some(e) && |PubKey(e)| >= 16
    ensures FirstWithKey(dst, PubKey(e)) == Some(e) ==> e in dst
    ensures DistinctPubKeys(dst) ==> (FirstWithKey(dst, PubKey(e)) == Some(e) <==> e in dst)
  {
    FirstWithKeyIff(dst, PubKey(e));
    if DistinctPubKeys(dst) && e in dst { FirstWithKeyUnique(dst, e); }
  }

  /** When the destination repeats a pub key, an exact duplicate of its second entry with it is rejected, not dropped. */
  lemma DuplicateRejected(a: Entry, b: Entry)
    requires a != b && PubKey(a) == PubKey(b)
    ensures b in Rejected([a, b], {b}) && b in [a, b]
  {
  }

  /** The merged list has distinct pub keys exactly when the destination had, and no two different entries that were added
      share one. */
  lemma MergeKeepsDistinctPubKeys(dst: seq<Entry>, src: seq<Entry>, after: seq<Entry>)
    requires IsExtension(dst, Added(dst, Elements(src)), after)
    ensures DistinctPubKeys(after) <==>
              && DistinctPubKeys(dst)
              && forall a, b :: a in Added(dst, Elements(src)) && b in Added(dst, Elements(src)) && PubKey(a) == PubKey(b) ==> a == b
  {
    hide Leq, Storable, Added, IsExtension;
    var added := Added(dst, Elements(src));
    ExtensionCounts(dst, added, after);
    IsExtensionElements(dst, added, after);
    if DistinctPubKeys(after) {
      DistinctParts(dst, added, after);
    } else {
      var i, j :| 0 <= i < j < |after| && PubKey(after[i]) == PubKey(after[j]);
      var a, b := after[i], after[j];
      assert a in Elements(after) && b in Elements(after);
      AddedIsAbsent(dst, Elements(src), a);
      AddedIsAbsent(dst, Elements(src), b);
      if DistinctPubKeys(dst) && a == b {
        TwiceInMultiset(after, i, j);
        DistinctAtMostOnce(dst, a);
      }
    }
  }

  lemma ExtensionCounts(before: seq<Entry>, added: set<Entry>, after: seq<Entry>)
    requires IsExtension(before, added, after)
    ensures multiset(after) == multiset(before) + multiset(added)
  {
  }

  lemma AddedIsAbsent(dst: seq<Entry>, src: set<Entry>, e: Entry)
    ensures e in Added(dst, src) ==> forall d :: d in dst ==> PubKey(d) != PubKey(e)
  {
    FirstWithKeyIff(dst, PubKey(e));
  }

  lemma DistinctParts(dst: seq<Entry>, added: set<Entry>, after: seq<Entry>)
    requires multiset(after) == multiset(dst) + multiset(added) && Elements(after) == Elements(dst) + added
    requires DistinctPubKeys(after)
    ensures DistinctPubKeys(dst)
    ensures forall a, b :: a in added && b in added && PubKey(a) == PubKey(b) ==> a == b
  {
    hide Leq, Storable;
    forall a, b | a in Elements(after) && b in Elements(after) && PubKey(a) == PubKey(b) ensures a == b {
      var x :| 0 <= x < |after| && after[x] == a;
      var y :| 0 <= y < |after| && after[y] == b;
    }
    forall i, j | 0 <= i < j < |dst| ensures PubKey(dst[i]) != PubKey(dst[j]) {
      if PubKey(dst[i]) == PubKey(dst[j]) {
        assert dst[i] in Elements(after) && dst[j] in Elements(after);
        TwiceInMultiset(dst, i, j);
        DistinctAtMostOnce(after, dst[i]);
      }
    }
  }

  lemma TwiceInMultiset<T>(s: seq<T>, i: nat, j: nat)
    requires i < j < |s| && s[i] == s[j]
    ensures multiset(s)[s[i]] >= 2
  {
    assert s == s[..i] + [s[i]] + s[i + 1..j] + [s[j]] + s[j + 1..];
  }

  lemma DistinctAtMostOnce(s: seq<Entry>, e: Entry)
    requires DistinctPubKeys(s)
    ensures multiset(s)[e] <= 1
  {
    NoDuplicatesMultiset(s);
  }
}

/** A keyring: a list of key entries with a sorted flag and the cached pub key of its newest entry. */
module KeyringStore {
  import opened Wrappers
  import opened Lists
  import opened Bytes
  import opened Messages
  import opened KeyOrder
  import opened KeyLists

  class Keyring {
    var name: Bytes
    var keys: seq<Entry>
    var sortedByPubKey: bool
    var newestPubKey: Bytes

    /** The sorted flag is honest. */
    ghost predicate Valid()
      reads this
    {
      sortedByPubKey ==> Sorted(keys)
    }

    /** The cached pub key, when set, leads to a newest entry. */
    ghost predicate CacheValid()
      reads this
    {
      newestPubKey != [] && keys != [] ==> CacheLeadsToNewest(keys, newestPubKey)
    }

    /** Sorted, with a cache that leads to a newest entry. */
    ghost predicate Optimized()
      reads this
    {
      sortedByPubKey && Valid() && CacheValid()
    }

    constructor (name: Bytes, keys: seq<Entry>, sortedByPubKey: bool, newestPubKey: Bytes)
      ensures this.name == name && this.keys == keys
      ensures this.sortedByPubKey == sortedByPubKey && this.newestPubKey == newestPubKey
    {
      this.name, this.keys := name, keys;
      this.sortedByPubKey, this.newestPubKey := sortedByPubKey, newestPubKey;
    }

    /** Forgets the entries. The overwriting of the private key bytes is not part of this model. */
    method ZeroOut()
      modifies this
      ensures keys == [] && newestPubKey == [] && name == old(name) && sortedByPubKey == old(sortedByPubKey)
      ensures old(Optimized()) ==> Optimized()
      ensures Valid() && CacheValid()
    {
      keys := [];
      newestPubKey := [];
    }

    method Resort()
      modifies this
      ensures keys == Sort(old(keys)) && sortedByPubKey && Valid()
      ensures name == old(name) && newestPubKey == old(newestPubKey)
    {
      SortSorts(keys);
      keys := Sort(keys);
      sortedByPubKey := true;
    }

    /** Sorts, and caches the pub key of a newest entry. */
    method Optimize()
      modifies this
      ensures keys == Sort(old(keys)) && sortedByPubKey && Valid() && CacheValid() && Optimized()
      ensures multiset(keys) == multiset(old(keys)) && Ascending(keys)
      ensures name == old(name)
      ensures if keys == [] then newestPubKey == [] else exists e :: Newest(e, keys) && newestPubKey == PubKey(e)
    {
      hide Ascending;
      SortSorts(keys);
      Resort();
      SortedIsAscending(keys);
      newestPubKey := [];
      var newest := FetchNewestKey();
      match newest {
        case Some(e) =>
          newestPubKey := PubKey(e);
          NewestFoundByKey(keys, e);
        case None =>
          newestPubKey := [];
      }
    }

    /** Sorts unless already sorted, and drops every entry that repeats its neighbour. */
    method DropDupes() returns (dupes: nat)
      requires Valid()
      modifies this
      ensures keys == WithoutDupes(if old(sortedByPubKey) then old(keys) else Sort(old(keys)))
      ensures dupes == |old(keys)| - |keys|
      ensures StrictlySorted(keys) && Elements(keys) == Elements(old(keys))
      ensures StrictlyAscending(keys)
      ensures sortedByPubKey && name == old(name) && newestPubKey == old(newestPubKey)
      ensures old(CacheValid()) && old(sortedByPubKey) ==> CacheValid()
    {
      hide CompareEntries, Leq, Sorted, Storable, WithoutDupes, Sort, PartlyCompacted,
        NoDuplicates, StrictlyAscending;
      if !sortedByPubKey {
        SortSorts(keys);
        SameMultisetSameElements(Sort(keys), keys);
        Resort();
      }
      ghost var all := keys;
      WithoutDupesIsStrict(all);
      StrictlySortedAscends(WithoutDupes(all));
      StartCompacting(all);
      dupes := 0;
      var n := |keys|;
      var i := 1;
      while i < n
        invariant |keys| == n && dupes < i
        invariant if n == 0 then i == 1 else i <= n && PartlyCompacted(all, keys, i, dupes)
        invariant name == old(name) && newestPubKey == old(newestPubKey) && sortedByPubKey
      {
        CompactStep(all, keys, i, dupes);
        CompareEntriesZero(keys[i - 1], keys[i]);
        if CompareEntries(keys[i - 1], keys[i]) == 0 {
          dupes := dupes + 1;
        } else if dupes > 0 {
          keys := keys[i - dupes := keys[i]];
        }
        i := i + 1;
      }
      if n > 0 { Compacted(all, keys, dupes); }
      if dupes > 0 {
        keys := keys[..n - dupes];
      } else {
        assert keys[..n - dupes] == keys;
      }
      if newestPubKey != [] && keys != [] && old(CacheValid()) && old(sortedByPubKey) {
        SameNewestAfter(all, keys, newestPubKey);
      }
    }

    /** sort.Search over the pub keys. */
    method LowerBound(key: Bytes) returns (pos: nat)
      requires Sorted(keys)
      ensures IsLowerBound(keys, key, pos)
    {
      var i, j := 0, |keys|;
      while i < j
        invariant 0 <= i <= j <= |keys|
        invariant forall k :: 0 <= k < i ==> Compare(PubKey(keys[k]), key) < 0
        invariant forall k :: j <= k < |keys| ==> Compare(PubKey(keys[k]), key) >= 0
      {
        var h := (i + j) / 2;
        if Compare(PubKey(keys[h]), key) < 0 {
          forall k | 0 <= k < h + 1 ensures Compare(PubKey(keys[k]), key) < 0 {
            if k < h { BelowStaysBelow(keys[k], keys[h], key); }
          }
          i := h + 1;
        } else {
          forall k | h <= k < |keys| ensures Compare(PubKey(keys[k]), key) >= 0 {
            if h < k && Compare(PubKey(keys[k]), key) < 0 { BelowStaysBelow(keys[h], keys[k], key); }
          }
          j := h;
        }
      }
      pos := i;
    }

    /** Whichever way it looks, it returns what a left-to-right scan of the whole list finds. */
    method FetchKey(pubKey: Bytes) returns (r: Option<Entry>)
      requires Valid()
      ensures r == FirstWithKey(keys, pubKey)
    {
      var n := |keys|;
      var pos := 0;
      if sortedByPubKey {
        pos := LowerBound(pubKey);
        FirstWithKeyAtLowerBound(keys, pubKey, pos);
      }
      while pos < n
        invariant 0 <= pos <= n
        invariant sortedByPubKey ==> IsLowerBound(keys, pubKey, pos)
        invariant !sortedByPubKey ==> FirstWithKey(keys, pubKey) == FirstWithKey(keys[pos..], pubKey)
      {
        var entry := keys[pos];
        if PubKey(entry) == pubKey {
          return Some(entry);
        }
        if sortedByPubKey {
          break;
        }
        pos := pos + 1;
      }
      return None;
    }

    method FetchKeyWithPrefix(pubKeyPrefix: Bytes) returns (r: Option<Entry>)
      requires Valid()
      ensures r == FirstWithPrefix(keys, pubKeyPrefix)
    {
      var n := |keys|;
      var pos := 0;
      if sortedByPubKey {
        pos := LowerBound(pubKeyPrefix);
        FirstWithPrefixAtLowerBound(keys, pubKeyPrefix, pos);
      }
      while pos < n
        invariant 0 <= pos <= n
        invariant sortedByPubKey ==> IsLowerBound(keys, pubKeyPrefix, pos)
        invariant !sortedByPubKey ==> FirstWithPrefix(keys, pubKeyPrefix) == FirstWithPrefix(keys[pos..], pubKeyPrefix)
      {
        var entry := keys[pos];
        if pubKeyPrefix <= PubKey(entry) {
          return Some(entry);
        }
        if sortedByPubKey {
          break;
        }
        pos := pos + 1;
      }
      return None;
    }

    /** Through the cache or by a scan, an entry no other entry is newer than. */
    method FetchNewestKey() returns (newest: Option<Entry>)
      requires Valid()
      ensures CacheValid() ==> IsNewest(newest, keys)
    {
      newest := None;
      if |keys| > 0 {
        if |newestPubKey| > 0 {
          newest := FetchKey(newestPubKey);
        } else {
          var i := 0;
          while i < |keys|
            invariant 0 <= i <= |keys|
            invariant IsNewest(newest, keys[..i])
          {
            var key := keys[i];
            assert keys[..i + 1] == keys[..i] + [key];
            if newest.None? {
              newest := Some(key);
            } else if Time(key) > Time(newest.value) {
              newest := Some(key);
            }
            i := i + 1;
          }
          assert keys[..|keys|] == keys;
        }
      }
    }

    /** The first loop of MergeKeys: moves the source entries to add to the front of the source's list,
        collects the rejected ones, and finds the newest entry the merged list will have. */
    method DetectDupes(src: Keyring) returns (keysToAdd: nat, problems: seq<Entry>, newest: Option<Entry>)
      requires src != this
      requires Valid() && NoDuplicates(src.keys)
      modifies src`keys
      ensures keysToAdd <= |src.keys|
      ensures NoDuplicates(src.keys[..keysToAdd]) && NoDuplicates(problems)
      ensures Elements(src.keys[..keysToAdd]) == Added(keys, Elements(old(src.keys)))
      ensures Elements(problems) == Rejected(keys, Elements(old(src.keys)))
      ensures CacheValid() ==> IsNewest(newest, keys + src.keys[..keysToAdd])
    {
      hide CompareEntries, Storable, PartlyMerged, IsNewest, Newest, NoDuplicates, Sorted, CacheLeadsToNewest;
      ghost var all := Elements(src.keys);
      newest := FetchNewestKey();
      problems := [];
      keysToAdd := |src.keys|;
      var i := 0;
      assert src.keys[..keysToAdd] == src.keys;
      assert keys + src.keys[..0] == keys;
      StartMerging(keys, src.keys);
      while i < keysToAdd
        invariant 0 <= i <= keysToAdd <= |src.keys|
        invariant PartlyMerged(keys, all, src.keys[..keysToAdd], i, problems)
        invariant CacheValid() ==> IsNewest(newest, keys + src.keys[..i])
        decreases keysToAdd - i
      {
        var srcEntry := src.keys[i];
        ghost var left := src.keys[..keysToAdd];
        ghost var done := src.keys[..i];
        var found := FetchKey(PubKey(srcEntry));
        if found.Some? {
          TakeOut(keys, all, left, i, problems);
          CompareEntriesZero(found.value, srcEntry);
          if CompareEntries(found.value, srcEntry) != 0 || |PubKey(srcEntry)| < MIN_PUB_KEY_PREFIX_SZ {
            problems := problems + [srcEntry];
          }
          keysToAdd := keysToAdd - 1;
          src.keys := src.keys[i := src.keys[keysToAdd]];
          assert src.keys[..i] == done;
          assert src.keys[..keysToAdd] == left[i := left[keysToAdd]][..keysToAdd];
        } else {
          KeepIn(keys, all, left, i, problems);
          assert src.keys[..i + 1] == done + [srcEntry];
          if CacheValid() { NewestOfMore(keys + done, srcEntry, newest); }
          assert keys + src.keys[..i + 1] == keys + done + [srcEntry];
          if newest.None? {
            newest := Some(srcEntry);
          } else if Time(srcEntry) >= Time(newest.value) {
            newest := Some(srcEntry);
          }
          i := i + 1;
        }
      }
      AllMerged(keys, all, src.keys[..keysToAdd], problems);
    }

    /** Consumes the source's entries: each is added here, dropped, or left in the source. */
    method MergeKeys(src: Keyring)
      requires src != this
      requires Valid() && src.Valid()
      modifies this, src
      ensures Valid() && src.Valid() && src.CacheValid()
      ensures IsExtension(old(keys), Added(old(keys), Elements(old(src.keys))), keys)
      ensures sortedByPubKey == (old(sortedByPubKey) || Added(old(keys), Elements(old(src.keys))) != {})
      ensures StrictlySorted(src.keys) && src.sortedByPubKey
      ensures Elements(src.keys) == Rejected(old(keys), Elements(old(src.keys)))
      ensures old(CacheValid()) && sortedByPubKey ==> CacheValid()
      ensures old(Optimized()) ==> Optimized()
      ensures old(CacheValid()) ==>
                if keys == [] then newestPubKey == [] else exists e :: Newest(e, keys) && newestPubKey == PubKey(e)
      ensures name == old(name) && src.name == old(src.name)
    {
      hide CompareEntries, Leq, Storable, WithoutDupes, Sort, Added, Rejected, IsExtension, Newest, Sorted, NoDuplicates;
      ghost var dst := keys;
      var _ := src.DropDupes();
      var keysToAdd, problems, newest := DetectDupes(src);

      if newest.Some? {
        newestPubKey := PubKey(newest.value);
      } else {
        newestPubKey := [];
      }

      ghost var added := src.keys[..keysToAdd];
      SortingExtends(dst, added);
      if keysToAdd > 0 {
        keys := keys + src.keys[..keysToAdd];
        Resort();
      } else {
        assert dst + added == dst;
      }
      assert Elements(keys) == Elements(dst + added);
      if newest.Some? && old(CacheValid()) {
        NewestOfSame(dst + added, keys, newest.value);
        if sortedByPubKey { NewestFoundByKey(keys, newest.value); }
      }

      src.keys := problems;
      SortingIsStrict(problems);
      src.Optimize();
    }
  }

  /** What a keyring's owner may do to it. */
  datatype Operation = DoOptimize | DoDropDupes | DoZeroOut | DoMerge(src: Keyring)

  function Sources(ops: seq<Operation>): set<Keyring> { set op | op in ops && op.DoMerge? :: op.src }

  /** Whatever is done to a keyring that is sorted or empty, and however often, its newest key is found through the cache. */
  method NewestAfter(kr: Keyring, ops: seq<Operation>) returns (newest: Option<Entry>)
    requires kr.Valid() && kr.CacheValid() && (kr.sortedByPubKey || kr.keys == [])
    requires kr !in Sources(ops) && forall k :: k in Sources(ops) ==> k.Valid()
    modifies kr, Sources(ops)
    ensures kr.Valid() && kr.CacheValid() && (kr.sortedByPubKey || kr.keys == [])
    ensures IsNewest(newest, kr.keys)
  {
    hide IsNewest, CacheLeadsToNewest, Sorted, IsExtension, Added, Rejected, WithoutDupes, Sort, Storable, NoDuplicates;
    for i := 0 to |ops|
      invariant kr.Valid() && kr.CacheValid() && (kr.sortedByPubKey || kr.keys == [])
      invariant forall k :: k in Sources(ops) ==> k.Valid()
    {
      assert ops[i] in ops;
      match ops[i]
      case DoOptimize => kr.Optimize();
      case DoDropDupes => var _ := kr.DropDupes();
      case DoZeroOut => kr.ZeroOut();
      case DoMerge(src) =>
        MergeIntoEmpty(kr.keys, Elements(src.keys));
        kr.MergeKeys(src);
    }
    newest := kr.FetchNewestKey();
  }

  lemma MergeIntoEmpty(dst: seq<Entry>, src: set<Entry>)
    ensures IsExtension(dst, {}, dst)
    ensures forall after :: Added(dst, src) == {} && IsExtension(dst, Added(dst, src), after) ==> after == dst
  {
  }

  ghost predicate IsNewest(newest: Option<Entry>, keys: seq<Entry>) {
    if keys == [] then newest.None? else newest.Some? && Newest(newest.value, keys)
  }

  ghost predicate CacheLeadsToNewest(keys: seq<Entry>, pub: Bytes) {
    FirstWithKey(keys, pub).Some? && Newest(FirstWithKey(keys, pub).value, keys)
  }

  /** How far the compaction loop has come: the first i entries are compacted, and from the last of
      these on nothing is overwritten yet. */
  ghost predicate PartlyCompacted(all: seq<Entry>, keys: seq<Entry>, i: nat, dupes: nat) {
    && |keys| == |all| && dupes < i <= |all|
    && keys[..i - dupes] == WithoutDupes(all[..i])
    && forall k :: i - 1 <= k < |all| ==> keys[k] == all[k]
  }

  lemma StartCompacting(all: seq<Entry>)
    ensures all == [] ==> WithoutDupes(all) == []
    ensures all != [] ==> PartlyCompacted(all, all, 1, 0)
  {
    WithoutDupesOfOne(all);
  }

  lemma CompactStep(all: seq<Entry>, keys: seq<Entry>, i: nat, dupes: nat)
    requires i < |all| && PartlyCompacted(all, keys, i, dupes)
    ensures |keys| == |all| && dupes < i
    ensures if keys[i - 1] == keys[i] then PartlyCompacted(all, keys, i + 1, dupes + 1)
            else PartlyCompacted(all, if dupes > 0 then keys[i - dupes := keys[i]] else keys, i + 1, dupes)
  {
    hide Storable, WithoutDupes;
    WithoutDupesStep(all, i);
    if keys[i - 1] != keys[i] {
      var t := if dupes > 0 then keys[i - dupes := keys[i]] else keys;
      assert t[..i + 1 - dupes] == keys[..i - dupes] + [keys[i]];
    }
  }

  lemma Compacted(all: seq<Entry>, keys: seq<Entry>, dupes: nat)
    requires all != [] && PartlyCompacted(all, keys, |all|, dupes)
    ensures dupes < |all| == |keys| && keys[..|all| - dupes] == WithoutDupes(all)
  {
    assert all[..|all|] == all;
  }

  /** How far the merge loop has come: the first i of the source entries left are known to be absent
      from the destination, and what was taken out was present there. */
  ghost predicate PartlyMerged(dst: seq<Entry>, all: set<Entry>, left: seq<Entry>, i: nat, problems: seq<Entry>)
    requires i <= |left|
  {
    && NoDuplicates(left) && NoDuplicates(problems)
    && (forall e :: e in left ==> e in all)
    && (forall e :: e in all && e !in left ==> FirstWithKey(dst, PubKey(e)).Some?)
    && (forall k :: 0 <= k < i ==> FirstWithKey(dst, PubKey(left[k])).None?)
    && (forall e :: e in problems <==> e in all && e !in left && IsRejected(dst, e))
  }

  lemma StartMerging(dst: seq<Entry>, src: seq<Entry>)
    requires NoDuplicates(src)
    ensures PartlyMerged(dst, Elements(src), src, 0, [])
  {
  }

  /** Entry i of the source is present in the destination: it leaves the list, and joins the problems if rejected. */
  lemma TakeOut(dst: seq<Entry>, all: set<Entry>, left: seq<Entry>, i: nat, problems: seq<Entry>)
    requires i < |left| && PartlyMerged(dst, all, left, i, problems)
    requires FirstWithKey(dst, PubKey(left[i])).Some?
    ensures var left' := left[i := left[|left| - 1]][..|left| - 1];
            var problems' := if IsRejected(dst, left[i]) then problems + [left[i]] else problems;
            PartlyMerged(dst, all, left', i, problems')
  {
    hide Storable;
    SwapRemove(left, i, left[i := left[|left| - 1]][..|left| - 1]);
  }

  lemma KeepIn(dst: seq<Entry>, all: set<Entry>, left: seq<Entry>, i: nat, problems: seq<Entry>)
    requires i < |left| && PartlyMerged(dst, all, left, i, problems)
    requires FirstWithKey(dst, PubKey(left[i])).None?
    ensures PartlyMerged(dst, all, left, i + 1, problems)
  {
  }

  lemma AllMerged(dst: seq<Entry>, all: set<Entry>, left: seq<Entry>, problems: seq<Entry>)
    requires PartlyMerged(dst, all, left, |left|, problems)
    ensures NoDuplicates(left) && NoDuplicates(problems)
    ensures Elements(left) == Added(dst, all) && Elements(problems) == Rejected(dst, all)
  {
    hide Storable;
  }

  /** The newest entry once one more entry, at least as new, or an older one, is there. */
  lemma NewestOfMore(s: seq<Entry>, e: Entry, newest: Option<Entry>)
    requires IsNewest(newest, s)
    ensures IsNewest(if newest.None? || Time(e) >= Time(newest.value) then Some(e) else newest, s + [e])
  {
  }

  lemma NewestOfSame(s: seq<Entry>, t: seq<Entry>, e: Entry)
    requires Elements(s) == Elements(t) && Newest(e, s)
    ensures Newest(e, t)
  {
    hide Storable;
    forall x ensures x in s <==> x in t {
      assert x in s <==> x in Elements(s);
      assert x in t <==> x in Elements(t);
    }
  }

  lemma NoDuplicatesKept<T>(s: seq<T>, t: seq<T>)
    requires NoDuplicates(s) && multiset(s) == multiset(t)
    ensures NoDuplicates(t)
  {
    NoDuplicatesMultiset(s);
    if i, j :| 0 <= i < j < |t| && t[i] == t[j] {
      TwiceInMultiset(t, i, j);
    }
  }

  lemma BelowStaysBelow(a: Entry, b: Entry, key: Bytes)
    requires Leq(a, b) && Compare(PubKey(b), key) < 0
    ensures Compare(PubKey(a), key) < 0
  {
    KeysInOrder(a, b);
    CompareTransitive(PubKey(a), PubKey(b), key);
  }

  /** Dropping repeated entries does not unsettle the cache. */
  lemma SameNewestAfter(before: seq<Entry>, after: seq<Entry>, pub: Bytes)
    requires Sorted(before) && Sorted(after) && Elements(before) == Elements(after)
    requires CacheLeadsToNewest(before, pub)
    ensures CacheLeadsToNewest(after, pub)
  {
    hide Leq, Storable;
    FirstWithKeyIff(before, pub);
    var e := FirstWithKey(before, pub).value;
    assert e in Elements(before) && e in after;
    forall x | x in after ensures Time(x) <= Time(e) {
      assert x in Elements(after) && x in before;
    }
    NewestFoundByKey(after, e);
  }
}

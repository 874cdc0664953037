/** A tome: a list of named keyrings with a sorted flag and a revision count. */
module KeyTomeStore {
  import opened Wrappers
  import opened Lists
  import opened Bytes
  import opened Messages
  import opened KeyOrder
  import opened KeyLists
  import opened KeyringStore
  import opened TomeMerge

  class KeyTome {
    var rev: Int64
    var keyrings: seq<Keyring>
    var sortedByName: bool

    /** The keyrings are separate objects with honest sorted flags, and the tome's own flag is honest. */
    ghost predicate Valid()
      reads this, keyrings
    {
      && NoDuplicates(keyrings)
      && (forall k :: k in keyrings ==> k.Valid())
      && (sortedByName ==> NamesSorted(keyrings))
    }

    constructor (rev: Int64, keyrings: seq<Keyring>, sortedByName: bool)
      ensures this.rev == rev && this.keyrings == keyrings && this.sortedByName == sortedByName
    {
      this.rev, this.keyrings, this.sortedByName := rev, keyrings, sortedByName;
    }

    /** Sorts the keyrings by name. */
    method Optimize()
      modifies this
      ensures multiset(keyrings) == multiset(old(keyrings)) && NamesSorted(keyrings) && sortedByName
      ensures NamesAscend(keyrings)
      ensures rev == old(rev)
    {
      hide NamesSorted, NamesAscend;
      keyrings := SortByName(keyrings);
      NamesSortedAscend(keyrings);
      sortedByName := true;
    }

    /** Whichever way it looks, it returns the keyring a left-to-right scan finds. */
    method FetchKeyring(name: Bytes) returns (r: Keyring?)
      requires sortedByName ==> NamesSorted(keyrings)
      ensures r == FirstNamed(keyrings, name)
    {
      hide NamesSorted, Compare, FirstNamed, IsLowerBoundByName;
      var n := |keyrings|;
      var pos := 0;
      if sortedByName {
        pos := LowerBoundByName(name);
        FirstNamedAtLowerBound(keyrings, name, pos);
      }
      ghost var start := pos;
      while pos < n
        invariant start <= pos <= n
        invariant sortedByName ==> pos == start
        invariant !sortedByName ==> start == 0 && forall k :: 0 <= k < pos ==> keyrings[k].name != name
      {
        var kr := keyrings[pos];
        if kr.name == name {
          if !sortedByName { FirstNamedAt(keyrings, name, pos); }
          return kr;
        }
        if sortedByName {
          break;
        }
        pos := pos + 1;
      }
      if !sortedByName { FirstNamedAt(keyrings, name, pos); }
      return null;
    }

    /** Moves the source's entries here. What is an exact duplicate is dropped; what clashes stays behind. */
    method MergeTome(src: KeyTome)
      requires src != this && Valid() && src.Valid()
      requires forall k :: k in keyrings ==> k !in src.keyrings
      requires DistinctNames(keyrings) && DistinctNames(src.keyrings)
      modifies this, src, keyrings, src.keyrings
      ensures Valid() && src.Valid() && sortedByName && src.sortedByName
      ensures NamesAscend(keyrings) && NamesAscend(src.keyrings) && DistinctNames(keyrings)
      ensures rev == if old(rev) == 0x7fff_ffff_ffff_ffff then -0x8000_0000_0000_0000 else old(rev) + 1
      ensures src.rev == old(src.rev)
      ensures forall k :: k in keyrings ==> k in old(keyrings) || k in old(src.keyrings)
      ensures forall k :: k in old(keyrings) ==> k in keyrings && k.name == old(k.name)
      ensures forall k :: k in src.keyrings ==> k in old(src.keyrings)
      ensures forall k :: k in old(src.keyrings) && old(FirstNamed(keyrings, k.name)) == null ==>
                k in keyrings && k.name == old(k.name) && k.keys == Sort(old(k.keys))
      ensures forall d, k :: d in old(keyrings) && k in old(src.keyrings) && old(d.name) == old(k.name) ==>
                IsMerged(old(d.keys), old(k.keys), d.keys, k.keys)
      ensures forall d :: d in old(keyrings) && (forall k :: k in old(src.keyrings) ==> old(k.name) != old(d.name)) ==>
                d.keys == old(d.keys)
      ensures old(Contents(keyrings)) <= Contents(keyrings)
      ensures old(Contents(src.keyrings)) <= Contents(keyrings) + Contents(src.keyrings)
      ensures Contents(keyrings) <= old(Contents(keyrings)) + old(Contents(src.keyrings))
      ensures Contents(src.keyrings) <= old(Contents(src.keyrings))
      ensures src.keyrings == [] <==> forall k :: k in old(src.keyrings) ==> old(NothingRejected(keyrings, k))
      ensures forall k :: k in keyrings && (k in old(src.keyrings) || old(k.Optimized())) ==> k.Optimized()
    {
      hide Sort, IsMerged, Storable, Midway, Covered, InStep, NoDuplicates, NamesSorted, NamesAscend, DistinctNames, FirstNamed,
        NoneRejectedIn, NothingRejected, HasName, Pairs, Contents, Keyring.Valid, Keyring.Optimized;
      ghost var was, all := keyrings, src.keyrings;
      ghost var names, before, keep := Snapshot(was, all);
      rev := NextRev(rev);
      if !sortedByName {
        Optimize();
      }
      ghost var dst := keyrings;
      Permuted(was, dst, all, names, before, keep);
      var now, left, problems := MergeSorted(src, was, names, before, keep);
      Settled(was, dst, all, names, before, now, keep, left, problems);
      Conserved(was, dst, all, names, before, now, keep, left, problems);
      SameContents(dst + left, keyrings);
      SameContents(problems, src.keyrings);
      NamesSortedAscend(keyrings);
      NamesSortedAscend(src.keyrings);
    }

    /** MergeTome once the destination is sorted. */
    method MergeSorted(src: KeyTome, ghost was: seq<Keyring>, ghost names: map<Keyring, Bytes>, ghost before: Entries,
                       ghost keep: set<Keyring>)
      returns (ghost now: Entries, ghost left: seq<Keyring>, ghost problems: seq<Keyring>)
      requires src != this && sortedByName && NamesSorted(keyrings)
      requires Covered(keyrings, src.keyrings, names, before, before)
      requires InStep(keyrings, src.keyrings, names, before, keep, [])
      requires forall k :: k in keyrings ==> k in was
      modifies this, src, was, src.keyrings
      ensures Midway(old(keyrings), old(src.keyrings), names, before, now, left, |left|, problems)
      ensures InStep(old(keyrings), old(src.keyrings), names, now, keep, left)
      ensures multiset(keyrings) == multiset(old(keyrings) + left) && NamesSorted(keyrings)
      ensures sortedByName && rev == old(rev) && src.rev == old(src.rev)
      ensures multiset(src.keyrings) == multiset(problems) && src.sortedByName && NamesSorted(src.keyrings)
    {
      hide Midway, Covered, InStep, NamesSorted;
      ghost var dst, all := keyrings, src.keyrings;
      var krToAdd, rest;
      krToAdd, rest, now := MergeExisting(src, was, names, before, keep);
      left, problems := src.keyrings[..krToAdd], rest;
      NotAKeyring(this, src, dst);
      NotAKeyring(this, src, all);
      NotAKeyring(this, src, left);
      AddNew(src, krToAdd, rest);
    }

    /** The end of MergeTome: takes over the new keyrings, and leaves the source the problems. */
    method AddNew(src: KeyTome, krToAdd: nat, problems: seq<Keyring>)
      requires src != this && krToAdd <= |src.keyrings| && sortedByName && NamesSorted(keyrings)
      modifies this, src
      ensures multiset(keyrings) == multiset(old(keyrings + src.keyrings[..krToAdd])) && NamesSorted(keyrings)
      ensures sortedByName && rev == old(rev) && src.rev == old(src.rev)
      ensures multiset(src.keyrings) == multiset(problems) && src.sortedByName && NamesSorted(src.keyrings)
    {
      if krToAdd > 0 {
        keyrings := keyrings + src.keyrings[..krToAdd];
        Optimize();
      } else {
        assert keyrings + src.keyrings[..krToAdd] == keyrings;
      }
      src.keyrings := problems;
      src.Optimize();
    }

    /** The loop of MergeTome: merges each source keyring that has a namesake here and takes it out of the source's
        list, noting it as a problem if entries stayed behind; optimizes the others and leaves them at the front. */
    method MergeExisting(src: KeyTome, ghost was: seq<Keyring>, ghost names: map<Keyring, Bytes>, ghost before: Entries,
                         ghost keep: set<Keyring>)
      returns (krToAdd: nat, problems: seq<Keyring>, ghost now: Entries)
      requires src != this && sortedByName && NamesSorted(keyrings)
      requires Covered(keyrings, src.keyrings, names, before, before)
      requires InStep(keyrings, src.keyrings, names, before, keep, [])
      requires forall k :: k in keyrings ==> k in was
      modifies src`keyrings, was, src.keyrings
      ensures NamesSorted(keyrings)
      ensures krToAdd <= |src.keyrings|
      ensures Midway(keyrings, old(src.keyrings), names, before, now, src.keyrings[..krToAdd], krToAdd, problems)
      ensures InStep(keyrings, old(src.keyrings), names, now, keep, src.keyrings[..krToAdd])
    {
      hide Sort, IsMerged, Storable, Midway, Covered, InStep, NoDuplicates, NamesSorted, NamesSortedIn;
      ghost var dst, all := keyrings, src.keyrings;
      now := before;
      Start(dst, all, names, before);
      SortedInSnapshot(dst, all, names, before, keep, []);
      problems := [];
      krToAdd := |src.keyrings|;
      var i := 0;
      assert src.keyrings[..krToAdd] == src.keyrings;
      while i < krToAdd
        invariant 0 <= i <= krToAdd <= |src.keyrings|
        invariant InStep(dst, all, names, now, keep, src.keyrings[..i])
        invariant NamesSortedIn(dst, names)
        invariant Midway(dst, all, names, before, now, src.keyrings[..krToAdd], i, problems)
        decreases krToAdd - i
      {
        var krSrc := src.keyrings[i];
        ghost var left, done := src.keyrings[..krToAdd], src.keyrings[..i];
        AtPosition(dst, all, names, before, now, left, i, problems);
        SortedInSnapshot(dst, all, names, now, keep, done);
        var krDst := FetchKeyring(krSrc.name);
        NamedIn(dst, all, names, now, keep, done, krSrc);
        if krDst == null {
          KeepNew(dst, all, names, before, now, left, i, problems);
          OptimizeNew(krSrc, dst, all, names, now, keep, done);
          now := now[krSrc := krSrc.keys];
          assert src.keyrings[..i + 1] == done + [krSrc];
          i := i + 1;
        } else {
          MergeInto(krDst, krSrc, dst, all, names, now, keep, done);
          TakeOutMerged(dst, all, names, before, now, left, i, problems, krDst, krDst.keys, krSrc.keys);
          now := now[krDst := krDst.keys][krSrc := krSrc.keys];
          if |krSrc.keys| > 0 {
            problems := problems + [krSrc];
          }
          krToAdd := krToAdd - 1;
          src.keyrings := src.keyrings[i := src.keyrings[krToAdd]];
          assert src.keyrings[..i] == done;
          assert src.keyrings[..krToAdd] == left[i := left[krToAdd]][..krToAdd];
        }
      }
      SortedInSnapshot(dst, all, names, now, keep, src.keyrings[..krToAdd]);
    }

    /** sort.Search over the names. */
    method LowerBoundByName(name: Bytes) returns (pos: nat)
      requires NamesSorted(keyrings)
      ensures IsLowerBoundByName(keyrings, name, pos)
    {
      var i, j := 0, |keyrings|;
      while i < j
        invariant 0 <= i <= j <= |keyrings|
        invariant forall k :: 0 <= k < i ==> Compare(keyrings[k].name, name) < 0
        invariant forall k :: j <= k < |keyrings| ==> Compare(keyrings[k].name, name) >= 0
      {
        var h := (i + j) / 2;
        if Compare(keyrings[h].name, name) < 0 {
          forall k | 0 <= k < h + 1 ensures Compare(keyrings[k].name, name) < 0 {
            if k < h { CompareTransitive(keyrings[k].name, keyrings[h].name, name); }
          }
          i := h + 1;
        } else {
          forall k | h <= k < |keyrings| ensures Compare(keyrings[k].name, name) >= 0 {
            if h < k && Compare(keyrings[k].name, name) < 0 {
              CompareTransitive(keyrings[h].name, keyrings[k].name, name);
            }
          }
          j := h;
        }
      }
      pos := i;
    }
  }

  // ----- lists of keyrings

  /** The (keyring name, entry) pairs held by a list of keyrings. */
  ghost function Contents(krs: seq<Keyring>): set<(Bytes, Entry)>
    reads krs
  {
    set k, e | k in krs && e in k.keys :: (k.name, e)
  }

  /** The snapshots hold what the keyrings hold now, and the sorted flags are honest. */
  ghost predicate Mirrors(krs: seq<Keyring>, names: map<Keyring, Bytes>, now: Entries)
    reads krs
  {
    forall k :: k in krs ==> k in names && k.name == names[k] && k in now && k.keys == now[k] && k.Valid()
  }

  /** The snapshots hold; the keyrings to keep optimized still are, and the ones done are. */
  ghost predicate InStep(dst: seq<Keyring>, all: seq<Keyring>, names: map<Keyring, Bytes>, now: Entries,
                         keep: set<Keyring>, done: seq<Keyring>)
    reads dst, all, done
  {
    && Mirrors(dst, names, now) && Mirrors(all, names, now)
    && (forall d :: d in dst && d in keep ==> d.Optimized())
    && (forall k :: k in done ==> k.Optimized())
  }

  method OptimizeNew(kr: Keyring, ghost dst: seq<Keyring>, ghost all: seq<Keyring>, ghost names: map<Keyring, Bytes>,
                     ghost now: Entries, ghost keep: set<Keyring>, ghost done: seq<Keyring>)
    requires InStep(dst, all, names, now, keep, done)
    requires kr in all && kr !in dst && kr !in done
    modifies kr
    ensures kr.keys == Sort(now[kr])
    ensures InStep(dst, all, names, now[kr := kr.keys], keep, done + [kr])
  {
    hide Sorted, Sort, CacheLeadsToNewest, Newest, Keyring.CacheValid, Storable;
    kr.Optimize();
  }

  method MergeInto(krDst: Keyring, krSrc: Keyring, ghost dst: seq<Keyring>, ghost all: seq<Keyring>,
                   ghost names: map<Keyring, Bytes>, ghost now: Entries, ghost keep: set<Keyring>, ghost done: seq<Keyring>)
    requires InStep(dst, all, names, now, keep, done)
    requires krDst in dst && krDst !in all && krSrc in all && krSrc !in dst
    requires forall k :: k in done ==> k in all && k != krSrc
    modifies krDst, krSrc
    ensures IsMerged(now[krDst], now[krSrc], krDst.keys, krSrc.keys)
    ensures InStep(dst, all, names, now[krDst := krDst.keys][krSrc := krSrc.keys], keep, done)
  {
    hide Sorted, Sort, CacheLeadsToNewest, Newest, Keyring.CacheValid, Storable, Added, Rejected, IsExtension, Elements;
    krDst.MergeKeys(krSrc);
  }

  ghost predicate NamesSortedIn(krs: seq<Keyring>, names: map<Keyring, Bytes>) {
    forall i, j :: 0 <= i < j < |krs| && krs[i] in names && krs[j] in names ==> Compare(names[krs[i]], names[krs[j]]) <= 0
  }

  lemma SortedInSnapshot(dst: seq<Keyring>, all: seq<Keyring>, names: map<Keyring, Bytes>, now: Entries,
                         keep: set<Keyring>, done: seq<Keyring>)
    requires InStep(dst, all, names, now, keep, done)
    ensures NamesSortedIn(dst, names) <==> NamesSorted(dst)
  {
    hide Compare, Sorted;
  }

  /** Looking up a name agrees with the snapshot of the names. */
  lemma NamedIn(dst: seq<Keyring>, all: seq<Keyring>, names: map<Keyring, Bytes>, now: Entries,
                keep: set<Keyring>, done: seq<Keyring>, k: Keyring)
    requires InStep(dst, all, names, now, keep, done) && k in all
    ensures k in names && k.name == names[k]
    ensures FirstNamed(dst, k.name) == null <==> !HasName(dst, names, names[k])
    ensures FirstNamed(dst, k.name) != null ==> FirstNamed(dst, k.name) in dst && names[FirstNamed(dst, k.name)] == names[k]
  {
    hide Sorted;
  }

  /** Snapshots of the names and the entries before a merge, and what the two lists say in their terms. */
  lemma Snapshot(dst: seq<Keyring>, all: seq<Keyring>) returns (names: map<Keyring, Bytes>, before: Entries, keep: set<Keyring>)
    requires NoDuplicates(dst) && NoDuplicates(all) && DistinctNames(dst) && DistinctNames(all)
    requires forall k :: k in dst ==> k.Valid() && k !in all
    requires forall k :: k in all ==> k.Valid()
    ensures Covered(dst, all, names, before, before) && InStep(dst, all, names, before, keep, [])
    ensures keep == set d | d in dst && d.Optimized()
    ensures forall k :: k in all ==> (FirstNamed(dst, k.name) == null <==> !HasName(dst, names, names[k]))
    ensures forall k :: k in all ==> (NothingRejected(dst, k) <==> NoneRejectedIn(dst, names, before, k))
    ensures forall k :: k in dst ==> k in names && names[k] == k.name && k in before && before[k] == k.keys
    ensures forall k :: k in all ==> k in names && names[k] == k.name && k in before && before[k] == k.keys
    ensures Contents(dst) == Pairs(dst, names, before) && Contents(all) == Pairs(all, names, before)
  {
    hide Sorted, Rejected, Storable, Elements;
    names := map k: Keyring | k in dst + all :: k.name;
    before := map k: Keyring | k in dst + all :: k.keys;
    keep := set d | d in dst && d.Optimized();
  }

  /** Sorting the destination by name changes nothing the snapshots tell. */
  lemma Permuted(was: seq<Keyring>, dst: seq<Keyring>, all: seq<Keyring>, names: map<Keyring, Bytes>, before: Entries, keep: set<Keyring>)
    requires Covered(was, all, names, before, before) && InStep(was, all, names, before, keep, [])
    requires multiset(was) == multiset(dst)
    ensures Covered(dst, all, names, before, before) && InStep(dst, all, names, before, keep, [])
    ensures forall k :: k in all ==> (HasName(was, names, names[k]) <==> HasName(dst, names, names[k]))
    ensures forall k :: k in all ==> (NoneRejectedIn(was, names, before, k) <==> NoneRejectedIn(dst, names, before, k))
    ensures Pairs(was, names, before) == Pairs(dst, names, before)
    ensures forall k :: k in was <==> k in dst
  {
    hide Sorted, Rejected, Storable, Elements;
    SameMultisetSameElements(was, dst);
    NoDuplicatesKept(was, dst);
  }

  /** What the finished loop leaves in each keyring, told against the snapshots taken before it. */
  lemma Settled(was: seq<Keyring>, dst: seq<Keyring>, all: seq<Keyring>, names: map<Keyring, Bytes>, before: Entries, now: Entries,
                keep: set<Keyring>, left: seq<Keyring>, problems: seq<Keyring>)
    requires Covered(was, all, names, before, before) && multiset(was) == multiset(dst)
    requires Midway(dst, all, names, before, now, left, |left|, problems)
    requires InStep(dst, all, names, now, keep, left)
    ensures NoDuplicates(dst + left) && DistinctNames(dst + left) && NoDuplicates(problems)
    ensures forall k :: k in dst + left ==> k.Valid() && (k in was || k in all)
    ensures forall k :: k in problems ==> k.Valid() && k in all
    ensures forall k :: k in was ==> k in dst + left && k.name == names[k]
    ensures forall k :: k in all && !HasName(was, names, names[k]) ==>
              k in dst + left && k.name == names[k] && k.keys == Sort(before[k])
    ensures forall d, k :: d in was && k in all && names[d] == names[k] ==> IsMerged(before[d], before[k], d.keys, k.keys)
    ensures forall d :: d in was && (forall k :: k in all ==> names[k] != names[d]) ==> d.keys == before[d]
    ensures problems == [] <==> forall k :: k in all ==> NoneRejectedIn(was, names, before, k)
    ensures forall k :: k in dst + left && (k in all || k in keep) ==> k.Optimized()
  {
    hide Sort, IsMerged, Midway, Sorted, Rejected, Storable, Elements, Keyring.Optimized;
    SameMultisetSameElements(was, dst);
    LeftAreNew(dst, all, names, before, now, left, problems);
    ProblemsIffRejected(dst, all, names, before, now, left, problems);
    NewOnesAdded(dst, all, names, before, now, left, problems);
    NamesakesMerged(dst, all, names, before, now, left, problems);
    forall i, j | 0 <= i < j < |dst + left| ensures (dst + left)[i].name != (dst + left)[j].name {
      assert (dst + left)[i] in dst + left && (dst + left)[j] in dst + left;
    }
  }

  /** What the finished loop conserves. */
  lemma Conserved(was: seq<Keyring>, dst: seq<Keyring>, all: seq<Keyring>, names: map<Keyring, Bytes>, before: Entries, now: Entries,
                  keep: set<Keyring>, left: seq<Keyring>, problems: seq<Keyring>)
    requires Covered(was, all, names, before, before) && multiset(was) == multiset(dst)
    requires Midway(dst, all, names, before, now, left, |left|, problems)
    requires InStep(dst, all, names, now, keep, left)
    ensures Pairs(was, names, before) <= Contents(dst + left) <= Pairs(was, names, before) + Pairs(all, names, before)
    ensures Pairs(all, names, before) <= Contents(dst + left) + Contents(problems)
    ensures Contents(problems) <= Pairs(all, names, before)
  {
    hide Sort, IsMerged, Midway, Sorted, Storable, Keyring.Optimized, Keyring.Valid;
    SameMultisetSameElements(was, dst);
    NothingLost(dst, all, names, before, now, left, problems);
    NothingInvented(dst, all, names, before, now, left, problems);
    NewOnesAdded(dst, all, names, before, now, left, problems);
    NamesakesMerged(dst, all, names, before, now, left, problems);
    assert Contents(dst + left) == Pairs(dst + left, names, now);
    assert Contents(problems) == Pairs(problems, names, now);
  }

  lemma NotAKeyring(t: KeyTome, u: KeyTome, krs: seq<Keyring>)
    ensures var objects: seq<object> := krs; t !in objects && u !in objects
  {
  }

  /** A permutation of separate keyrings holds the same. */
  lemma SameContents(krs: seq<Keyring>, result: seq<Keyring>)
    requires multiset(result) == multiset(krs) && NoDuplicates(krs)
    ensures NoDuplicates(result) && Contents(result) == Contents(krs)
    ensures forall k :: k in result <==> k in krs
    ensures result == [] <==> krs == []
    ensures DistinctNames(krs) ==> DistinctNames(result)
  {
    SameMultisetSameElements(result, krs);
    NoDuplicatesKept(krs, result);
    if DistinctNames(krs) {
      forall i, j | 0 <= i < j < |result| ensures result[i].name != result[j].name {
        assert result[i] in krs && result[j] in krs;
      }
    }
  }

  /** No entry of this source keyring clashes with the keyring of the same name. */
  ghost predicate NothingRejected(krs: seq<Keyring>, k: Keyring)
    reads krs, k
  {
    var d := FirstNamed(krs, k.name);
    d != null ==> Rejected(d.keys, Elements(k.keys)) == {}
  }

  /** An int64 increment wraps around. */
  function NextRev(rev: Int64): Int64 {
    if rev == 0x7fff_ffff_ffff_ffff then -0x8000_0000_0000_0000 else rev + 1
  }

  ghost predicate NamesSorted(krs: seq<Keyring>)
    reads krs
  {
    forall i, j :: 0 <= i < j < |krs| ==> Compare(krs[i].name, krs[j].name) <= 0
  }

  /** The names ascend in lexicographic order. */
  ghost predicate NamesAscend(krs: seq<Keyring>)
    reads krs
  {
    forall i, j :: 0 <= i < j < |krs| ==> krs[i].name == krs[j].name || Below(krs[i].name, krs[j].name)
  }

  lemma NamesSortedAscend(krs: seq<Keyring>)
    ensures NamesSorted(krs) <==> NamesAscend(krs)
  {
    hide Compare, Below;
    forall i, j | 0 <= i < j < |krs|
      ensures Compare(krs[i].name, krs[j].name) <= 0 <==> krs[i].name == krs[j].name || Below(krs[i].name, krs[j].name)
    {
      CompareIsLexicographic(krs[i].name, krs[j].name);
      CompareZero(krs[i].name, krs[j].name);
    }
  }

  ghost predicate DistinctNames(krs: seq<Keyring>)
    reads krs
  {
    forall i, j :: 0 <= i < j < |krs| ==> krs[i].name != krs[j].name
  }

  /** The first keyring of this name. */
  function FirstNamed(krs: seq<Keyring>, name: Bytes): (r: Keyring?)
    reads krs
    ensures r == null ==> forall k :: k in krs ==> k.name != name
    ensures r != null ==> r in krs && r.name == name
  {
    if krs == [] then null
    else if krs[0].name == name then krs[0]
    else FirstNamed(krs[1..], name)
  }

  ghost predicate IsLowerBoundByName(krs: seq<Keyring>, name: Bytes, pos: int)
    reads krs
  {
    && 0 <= pos <= |krs|
    && (forall k :: 0 <= k < pos ==> Compare(krs[k].name, name) < 0)
    && (forall k :: pos <= k < |krs| ==> Compare(krs[k].name, name) >= 0)
  }

  lemma {:induction false} FirstNamedAfter(krs: seq<Keyring>, name: Bytes, pos: nat)
    requires pos <= |krs|
    requires forall k :: 0 <= k < pos ==> krs[k].name != name
    ensures FirstNamed(krs, name) == FirstNamed(krs[pos..], name)
  {
    if pos > 0 {
      FirstNamedAfter(krs[1..], name, pos - 1);
      assert krs[1..][pos - 1..] == krs[pos..];
    }
  }

  lemma FirstNamedAt(krs: seq<Keyring>, name: Bytes, pos: nat)
    requires pos <= |krs|
    requires forall k :: 0 <= k < pos ==> krs[k].name != name
    requires pos < |krs| ==> krs[pos].name == name
    ensures FirstNamed(krs, name) == if pos < |krs| then krs[pos] else null
  {
    FirstNamedAfter(krs, name, pos);
  }

  lemma FirstNamedAtLowerBound(krs: seq<Keyring>, name: Bytes, pos: int)
    requires NamesSorted(krs) && IsLowerBoundByName(krs, name, pos)
    ensures FirstNamed(krs, name) == if pos < |krs| && krs[pos].name == name then krs[pos] else null
  {
    CompareZero(name, name);
    FirstNamedAfter(krs, name, pos);
    var r := FirstNamed(krs[pos..], name);
    if r != null {
      var k :| 0 <= k < |krs[pos..]| && krs[pos..][k] == r;
      assert krs[pos + k] == r;
      if k > 0 { CompareZero(krs[pos].name, name); }
    }
  }

  method SortByName(krs: seq<Keyring>) returns (r: seq<Keyring>)
    ensures multiset(r) == multiset(krs) && NamesSorted(r)
  {
    if krs == [] {
      return [];
    }
    hide NamesSorted;
    var rest := SortByName(krs[1..]);
    var i := 0;
    while i < |rest| && Compare(rest[i].name, krs[0].name) <= 0
      invariant 0 <= i <= |rest|
      invariant forall k :: 0 <= k < i ==> Compare(rest[k].name, krs[0].name) <= 0
    {
      i := i + 1;
    }
    r := rest[..i] + [krs[0]] + rest[i..];
    InsertionKeepsNamesSorted(rest, krs[0], i);
    assert krs == [krs[0]] + krs[1..] && rest == rest[..i] + rest[i..];
  }

  lemma InsertionKeepsNamesSorted(rest: seq<Keyring>, k: Keyring, i: nat)
    requires i <= |rest| && NamesSorted(rest)
    requires forall j :: 0 <= j < i ==> Compare(rest[j].name, k.name) <= 0
    requires i < |rest| ==> Compare(rest[i].name, k.name) > 0
    ensures NamesSorted(rest[..i] + [k] + rest[i..])
  {
    forall j | i <= j < |rest| ensures Compare(k.name, rest[j].name) <= 0 {
      CompareAntisymmetric(rest[i].name, k.name);
      if i < j { CompareTransitive(k.name, rest[i].name, rest[j].name); }
    }
  }
}

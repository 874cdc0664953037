/** The bookkeeping of merging one list of keyrings into another, said of snapshots:
    maps from keyrings to their names and to their entries before and during the merge. */
module TomeMerge {
  import opened Bytes
  import opened Lists
  import opened Messages
  import opened KeyOrder
  import opened KeyLists
  import opened KeyringStore

  type Entries = map<Keyring, seq<Entry>>

  /** The keyring of the destination that has this name, in a snapshot of the names. */
  ghost predicate HasName(dst: seq<Keyring>, names: map<Keyring, Bytes>, name: Bytes) {
    exists d :: d in dst && d in names && names[d] == name
  }

  /** What MergeKeys does to the entries of a destination and a source keyring. */
  ghost predicate IsMerged(dstBefore: seq<Entry>, srcBefore: seq<Entry>, dstNow: seq<Entry>, srcNow: seq<Entry>) {
    && IsExtension(dstBefore, Added(dstBefore, Elements(srcBefore)), dstNow)
    && Elements(srcNow) == Rejected(dstBefore, Elements(srcBefore))
  }

  /** The (keyring name, entry) pairs of a list of keyrings. */
  ghost function Pairs(krs: seq<Keyring>, names: map<Keyring, Bytes>, now: Entries): set<(Bytes, Entry)>
    requires forall k :: k in krs ==> k in names && k in now
  {
    set k, e | k in krs && e in now[k] :: (names[k], e)
  }

  ghost predicate DistinctIn(krs: seq<Keyring>, names: map<Keyring, Bytes>)
    requires forall k :: k in krs ==> k in names
  {
    && NoDuplicates(krs)
    && forall a, b :: a in krs && b in krs && names[a] == names[b] ==> a == b
  }

  ghost predicate Covered(dst: seq<Keyring>, src: seq<Keyring>, names: map<Keyring, Bytes>, before: Entries, now: Entries) {
    && (forall k :: k in dst ==> k in names && k in before && k in now && k !in src)
    && (forall k :: k in src ==> k in names && k in before && k in now)
    && DistinctIn(dst, names) && DistinctIn(src, names)
  }

  /** Midway: left are the source keyrings still in the list, of which the first i are known to be new;
      each one taken out has been merged into its namesake, and is a problem if entries stayed behind. */
  ghost predicate Midway(dst: seq<Keyring>, src: seq<Keyring>, names: map<Keyring, Bytes>, before: Entries, now: Entries,
                         left: seq<Keyring>, i: nat, problems: seq<Keyring>)
    requires i <= |left|
  {
    && Covered(dst, src, names, before, now)
    && LeftOk(dst, src, names, before, now, left, i)
    && TakenOk(dst, src, names, before, now, left)
    && ProblemsOk(src, now, left, problems)
  }

  ghost predicate LeftOk(dst: seq<Keyring>, src: seq<Keyring>, names: map<Keyring, Bytes>, before: Entries, now: Entries,
                         left: seq<Keyring>, i: nat)
    requires i <= |left| && Covered(dst, src, names, before, now)
  {
    && NoDuplicates(left)
    && (forall k :: k in left ==> k in src)
    && (forall j :: 0 <= j < i ==> IsNew(dst, names, before, now, left[j]))
    && (forall j :: i <= j < |left| ==> left[j] in src && now[left[j]] == before[left[j]])
  }

  ghost predicate TakenOk(dst: seq<Keyring>, src: seq<Keyring>, names: map<Keyring, Bytes>, before: Entries, now: Entries,
                          left: seq<Keyring>)
    requires Covered(dst, src, names, before, now)
  {
    && (forall k :: k in src && k !in left ==> exists d :: d in dst && IsNamesake(dst, names, before, now, d, k))
    && (forall d :: d in dst && (forall k :: k in src && k !in left ==> names[k] != names[d]) ==> now[d] == before[d])
  }

  ghost predicate ProblemsOk(src: seq<Keyring>, now: Entries, left: seq<Keyring>, problems: seq<Keyring>)
    requires forall k :: k in src ==> k in now
  {
    && NoDuplicates(problems)
    && (forall k :: k in problems ==> k in src && k !in left && now[k] != [])
    && (forall k :: k in src && k !in left && now[k] != [] ==> k in problems)
  }

  ghost predicate IsNew(dst: seq<Keyring>, names: map<Keyring, Bytes>, before: Entries, now: Entries, k: Keyring) {
    && k in names && k in before && k in now
    && !HasName(dst, names, names[k])
    && now[k] == Sort(before[k])
  }

  ghost predicate IsNamesake(dst: seq<Keyring>, names: map<Keyring, Bytes>, before: Entries, now: Entries, d: Keyring, k: Keyring) {
    && d in dst && d in names && d in before && d in now && k in names && k in before && k in now
    && names[d] == names[k]
    && IsMerged(before[d], before[k], now[d], now[k])
  }

  lemma Start(dst: seq<Keyring>, src: seq<Keyring>, names: map<Keyring, Bytes>, before: Entries)
    requires Covered(dst, src, names, before, before)
    ensures Midway(dst, src, names, before, before, src, 0, [])
  {
  }

  /** What is known of the keyring about to be looked at. */
  lemma AtPosition(dst: seq<Keyring>, src: seq<Keyring>, names: map<Keyring, Bytes>, before: Entries, now: Entries,
                   left: seq<Keyring>, i: nat, problems: seq<Keyring>)
    requires i < |left| && Midway(dst, src, names, before, now, left, i, problems)
    ensures left[i] in src && left[i] !in dst && left[i] !in left[..i] && left[i] in names
    ensures forall k :: k in left[..i] ==> k in src && k != left[i] && k !in dst
    ensures forall k :: k in dst ==> k !in src && k in now && k in names
  {
  }

  /** The keyring at position i is new: it stays in the list, sorted. */
  lemma KeepNew(dst: seq<Keyring>, src: seq<Keyring>, names: map<Keyring, Bytes>, before: Entries, now: Entries,
                left: seq<Keyring>, i: nat, problems: seq<Keyring>)
    requires i < |left| && Midway(dst, src, names, before, now, left, i, problems)
    requires !HasName(dst, names, names[left[i]])
    ensures Midway(dst, src, names, before, now[left[i] := Sort(now[left[i]])], left, i + 1, problems)
  {
    hide Sort, HasName, IsMerged;
    var k := left[i];
    var now' := now[k := Sort(now[k])];
    forall j | 0 <= j < i + 1 ensures IsNew(dst, names, before, now', left[j]) {
      if j < i { assert IsNew(dst, names, before, now, left[j]); }
    }
    forall x | x in src && x !in left ensures exists d :: d in dst && IsNamesake(dst, names, before, now', d, x) {
      var d :| d in dst && IsNamesake(dst, names, before, now, d, x);
      assert IsNamesake(dst, names, before, now', d, x);
    }
  }

  /** The keyring at position i was merged into its namesake d: it leaves the list. */
  lemma TakeOutMerged(dst: seq<Keyring>, src: seq<Keyring>, names: map<Keyring, Bytes>, before: Entries, now: Entries,
                      left: seq<Keyring>, i: nat, problems: seq<Keyring>,
                      d: Keyring, dKeys: seq<Entry>, kKeys: seq<Entry>)
    requires i < |left| && Midway(dst, src, names, before, now, left, i, problems)
    requires d in dst && names[d] == names[left[i]]
    requires IsMerged(now[d], now[left[i]], dKeys, kKeys)
    ensures Midway(dst, src, names, before, now[d := dKeys][left[i] := kKeys],
                   left[i := left[|left| - 1]][..|left| - 1], i,
                   if kKeys != [] then problems + [left[i]] else problems)
  {
    hide Sort, IsMerged, HasName, IsNamesake, LeftOk, TakenOk, ProblemsOk;
    var left' := left[i := left[|left| - 1]][..|left| - 1];
    SwapRemovedIsLeft(dst, src, names, before, now, left, i, problems, d, dKeys, kKeys, left');
    TakenHaveNamesakes(dst, src, names, before, now, left, i, problems, d, dKeys, kKeys, left');
    TakenIsProblem(dst, src, names, before, now, left, i, problems, d, dKeys, kKeys, left');
  }

  lemma SwapRemovedIsLeft(dst: seq<Keyring>, src: seq<Keyring>, names: map<Keyring, Bytes>, before: Entries, now: Entries,
                          left: seq<Keyring>, i: nat, problems: seq<Keyring>,
                          d: Keyring, dKeys: seq<Entry>, kKeys: seq<Entry>, left': seq<Keyring>)
    requires i < |left| && Midway(dst, src, names, before, now, left, i, problems) && d in dst
    requires left' == left[i := left[|left| - 1]][..|left| - 1]
    ensures forall x :: x in left' <==> x in left && x != left[i]
    ensures left[i] in src && left[i] != d
    ensures Covered(dst, src, names, before, now[d := dKeys][left[i] := kKeys])
    ensures LeftOk(dst, src, names, before, now[d := dKeys][left[i] := kKeys], left', i)
  {
    hide Sort, IsMerged, HasName, TakenOk, ProblemsOk;
    var now' := now[d := dKeys][left[i] := kKeys];
    SwapRemove(left, i, left');
    forall j | 0 <= j < i ensures IsNew(dst, names, before, now', left'[j]) {
      assert left'[j] == left[j] && IsNew(dst, names, before, now, left[j]);
    }
    forall j | i <= j < |left'| ensures left'[j] in src && now'[left'[j]] == before[left'[j]] {
      assert left'[j] in left';
      var m := if j == i then |left| - 1 else j;
      assert left'[j] == left[m] && m != i;
    }
  }

  lemma TakenHaveNamesakes(dst: seq<Keyring>, src: seq<Keyring>, names: map<Keyring, Bytes>, before: Entries, now: Entries,
                           left: seq<Keyring>, i: nat, problems: seq<Keyring>,
                           d: Keyring, dKeys: seq<Entry>, kKeys: seq<Entry>, left': seq<Keyring>)
    requires i < |left| && Midway(dst, src, names, before, now, left, i, problems)
    requires d in dst && names[d] == names[left[i]]
    requires IsMerged(now[d], now[left[i]], dKeys, kKeys)
    requires forall x :: x in left' <==> x in left && x != left[i]
    requires Covered(dst, src, names, before, now[d := dKeys][left[i] := kKeys])
    ensures TakenOk(dst, src, names, before, now[d := dKeys][left[i] := kKeys], left')
  {
    hide Sort, IsMerged, HasName, ProblemsOk;
    var k := left[i];
    var now' := now[d := dKeys][k := kKeys];
    assert k in src && now[k] == before[k];
    assert now[d] == before[d] by {
      assert forall x :: x in src && x !in left ==> names[x] != names[d];
    }
    forall x | x in src && x !in left' ensures exists y :: y in dst && IsNamesake(dst, names, before, now', y, x) {
      if x == k {
        assert IsNamesake(dst, names, before, now', d, k);
      } else {
        var y :| y in dst && IsNamesake(dst, names, before, now, y, x);
        assert IsNamesake(dst, names, before, now', y, x);
      }
    }
    forall y | y in dst && (forall x :: x in src && x !in left' ==> names[x] != names[y])
      ensures now'[y] == before[y]
    {
      assert k !in left' && y != d;
    }
  }

  lemma TakenIsProblem(dst: seq<Keyring>, src: seq<Keyring>, names: map<Keyring, Bytes>, before: Entries, now: Entries,
                       left: seq<Keyring>, i: nat, problems: seq<Keyring>,
                       d: Keyring, dKeys: seq<Entry>, kKeys: seq<Entry>, left': seq<Keyring>)
    requires i < |left| && Midway(dst, src, names, before, now, left, i, problems) && d in dst
    requires forall x :: x in left' <==> x in left && x != left[i]
    ensures ProblemsOk(src, now[d := dKeys][left[i] := kKeys], left',
                       if kKeys != [] then problems + [left[i]] else problems)
  {
    hide TakenOk;
  }

  // ----- what the whole merge does

  /** No entry of this source keyring clashes with its namesake. */
  ghost predicate NoneRejectedIn(dst: seq<Keyring>, names: map<Keyring, Bytes>, before: Entries, k: Keyring)
    requires k in names && k in before
  {
    forall d :: d in dst && d in names && d in before && names[d] == names[k] ==>
      Rejected(before[d], Elements(before[k])) == {}
  }

  lemma LeftAreNew(dst: seq<Keyring>, src: seq<Keyring>, names: map<Keyring, Bytes>, before: Entries, now: Entries,
                   left: seq<Keyring>, problems: seq<Keyring>)
    requires Midway(dst, src, names, before, now, left, |left|, problems)
    ensures forall k :: k in left ==> k in src && !HasName(dst, names, names[k]) && now[k] == Sort(before[k])
  {
    hide Sort, IsMerged, HasName;
    forall k | k in left ensures k in src && !HasName(dst, names, names[k]) && now[k] == Sort(before[k]) {
      var j :| 0 <= j < |left| && left[j] == k;
      assert IsNew(dst, names, before, now, left[j]);
    }
  }

  lemma ProblemsIffRejected(dst: seq<Keyring>, src: seq<Keyring>, names: map<Keyring, Bytes>, before: Entries, now: Entries,
                            left: seq<Keyring>, problems: seq<Keyring>)
    requires Midway(dst, src, names, before, now, left, |left|, problems)
    ensures problems == [] <==> forall k :: k in src ==> NoneRejectedIn(dst, names, before, k)
  {
    hide Sort, IsExtension, Rejected, Elements;
    LeftAreNew(dst, src, names, before, now, left, problems);
    if problems == [] {
      forall k | k in src ensures NoneRejectedIn(dst, names, before, k) {
        if k !in left {
          var d :| d in dst && IsNamesake(dst, names, before, now, d, k);
          ElementsEmpty(now[k]);
        }
      }
    } else {
      var k := problems[0];
      assert k in problems;
      var d :| d in dst && IsNamesake(dst, names, before, now, d, k);
      ElementsEmpty(now[k]);
      assert !NoneRejectedIn(dst, names, before, k);
    }
  }

  lemma ElementsEmpty<T>(s: seq<T>)
    ensures Elements(s) == {} <==> s == []
  {
    if s != [] { assert s[0] in Elements(s); }
  }

  lemma NewOnesAdded(dst: seq<Keyring>, src: seq<Keyring>, names: map<Keyring, Bytes>, before: Entries, now: Entries,
                     left: seq<Keyring>, problems: seq<Keyring>)
    requires Midway(dst, src, names, before, now, left, |left|, problems)
    ensures DistinctIn(dst + left, names)
    ensures forall k :: k in left ==> k in src
    ensures forall k :: k in src && !HasName(dst, names, names[k]) ==> k in left && now[k] == Sort(before[k])
  {
    hide Sort, IsMerged;
    LeftAreNew(dst, src, names, before, now, left, problems);
  }

  lemma NamesakesMerged(dst: seq<Keyring>, src: seq<Keyring>, names: map<Keyring, Bytes>, before: Entries, now: Entries,
                        left: seq<Keyring>, problems: seq<Keyring>)
    requires Midway(dst, src, names, before, now, left, |left|, problems)
    ensures forall d, k :: d in dst && k in src && names[d] == names[k] ==> IsMerged(before[d], before[k], now[d], now[k])
    ensures forall d :: d in dst && (forall k :: k in src ==> names[k] != names[d]) ==> now[d] == before[d]
    ensures forall k :: k in problems ==> k in src
    ensures NoDuplicates(problems) && forall k :: k in dst ==> k in now
  {
    hide Sort, IsMerged;
    LeftAreNew(dst, src, names, before, now, left, problems);
    forall d, k | d in dst && k in src && names[d] == names[k] ensures IsMerged(before[d], before[k], now[d], now[k]) {
      assert HasName(dst, names, names[k]);
      var x :| x in dst && IsNamesake(dst, names, before, now, x, k);
    }
  }

  lemma NothingLost(dst: seq<Keyring>, src: seq<Keyring>, names: map<Keyring, Bytes>, before: Entries, now: Entries,
                    left: seq<Keyring>, problems: seq<Keyring>)
    requires Midway(dst, src, names, before, now, left, |left|, problems)
    ensures Pairs(dst, names, before) <= Pairs(dst + left, names, now)
    ensures Pairs(src, names, before) <= Pairs(dst + left, names, now) + Pairs(problems, names, now)
  {
    hide Sort, IsMerged, Storable;
    LeftAreNew(dst, src, names, before, now, left, problems);
    forall d, e | d in dst && e in before[d] ensures (names[d], e) in Pairs(dst + left, names, now) {
      assert d in dst + left;
      assert e in now[d] by {
        if now[d] != before[d] {
          var k :| k in src && k !in left && names[k] == names[d];
          var x :| x in dst && IsNamesake(dst, names, before, now, x, k);
          MergedKeeps(before[d], before[k], now[d], now[k]);
          assert e in Elements(before[d]);
        }
      }
    }
    forall k, e | k in src && e in before[k]
      ensures (names[k], e) in Pairs(dst + left, names, now) + Pairs(problems, names, now)
    {
      if k in left {
        SortSorts(before[k]);
        SameMultisetSameElements(Sort(before[k]), before[k]);
        assert k in dst + left;
      } else {
        var d :| d in dst && IsNamesake(dst, names, before, now, d, k);
        MergedKeeps(before[d], before[k], now[d], now[k]);
        assert e in Elements(before[k]);
        assert d in dst + left;
      }
    }
  }

  lemma NothingInvented(dst: seq<Keyring>, src: seq<Keyring>, names: map<Keyring, Bytes>, before: Entries, now: Entries,
                        left: seq<Keyring>, problems: seq<Keyring>)
    requires Midway(dst, src, names, before, now, left, |left|, problems)
    ensures Pairs(dst + left, names, now) <= Pairs(dst, names, before) + Pairs(src, names, before)
    ensures Pairs(problems, names, now) <= Pairs(src, names, before)
  {
    hide Sort, IsMerged, Storable;
    LeftAreNew(dst, src, names, before, now, left, problems);
    forall k, e | k in dst + left && e in now[k]
      ensures (names[k], e) in Pairs(dst, names, before) + Pairs(src, names, before)
    {
      if k in left {
        SortSorts(before[k]);
        SameMultisetSameElements(Sort(before[k]), before[k]);
      } else if now[k] != before[k] {
        var s :| s in src && s !in left && names[s] == names[k];
        var x :| x in dst && IsNamesake(dst, names, before, now, x, s);
        MergedKeeps(before[k], before[s], now[k], now[s]);
        assert e in Elements(now[k]);
      }
    }
    forall k, e | k in problems && e in now[k] ensures (names[k], e) in Pairs(src, names, before) {
      var x :| x in dst && IsNamesake(dst, names, before, now, x, k);
      MergedKeeps(before[x], before[k], now[x], now[k]);
      assert e in Elements(now[k]);
    }
  }

  lemma MergedKeeps(dstBefore: seq<Entry>, srcBefore: seq<Entry>, dstNow: seq<Entry>, srcNow: seq<Entry>)
    requires IsMerged(dstBefore, srcBefore, dstNow, srcNow)
    ensures Elements(dstBefore) <= Elements(dstNow) <= Elements(dstBefore) + Elements(srcBefore)
    ensures Elements(srcBefore) <= Elements(dstNow) + Elements(srcNow)
    ensures Elements(srcNow) <= Elements(srcBefore)
  {
    hide Leq, Storable, Sorted;
    IsExtensionElements(dstBefore, Added(dstBefore, Elements(srcBefore)), dstNow);
    forall e | e in srcBefore ensures e in Elements(dstNow) + Elements(srcNow) {
      assert e in Elements(srcBefore);
      MergePartition(dstBefore, Elements(srcBefore), e);
      assert e in dstBefore ==> e in Elements(dstBefore);
    }
  }
}

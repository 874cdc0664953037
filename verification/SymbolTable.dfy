/** The symbol table: two maps in a transactional store, values to IDs and back, and concurrent calls that issue IDs. */
module SymbolTable {
  import opened Wrappers
  import opened Bytes

  type ID = nat

  // ----- one call after the other

  /** What is stored, and the next ID that the issuer gives out. 0 is the ID of the empty value and of no other. */
  datatype Table = Table(byValue: map<Bytes, ID>, byID: map<ID, Bytes>, next: ID) {

    function IDOf(val: Bytes): ID { if val in byValue then byValue[val] else 0 }

    /** GetSymbol: nothing for an ID that is not assigned. */
    function Symbol(id: ID): Option<Bytes> { if id == 0 || id !in byID then None else Some(byID[id]) }

    function SetValue(val: Bytes, id: ID): Table { this.(byValue := byValue[val := id]) }

    function SetBoth(val: Bytes, id: ID): Table { this.(byValue := byValue[val := id], byID := byID[id := val]) }

    /** Every ID is resolved to the value it was issued for, and IDs to come are unused. */
    ghost predicate Consistent() {
      && next > 0
      && (forall v :: v in byValue ==> v != [] && byValue[v] != 0 && byValue[v] in byID && byID[byValue[v]] == v)
      && (forall id :: id in byID ==> 0 < id < next)
    }
  }

  /** What a call leaves and returns. */
  function GetSet(t: Table, val: Bytes, symID: ID, mapID: bool): (Table, ID) {
    if val == [] then (t, 0)
    else if symID == 0 then
      if t.IDOf(val) != 0 then (t, t.IDOf(val))
      else if mapID then (t.SetBoth(val, t.next).(next := t.next + 1), t.next)
      else (t, 0)
    else if mapID || t.IDOf(val) == 0 then (t.SetBoth(val, symID), symID)
    else if t.IDOf(val) != symID then (t.SetValue(val, symID), symID)
    else (t, symID)
  }

  class Store {
    var byValue: map<Bytes, ID>
    var byID: map<ID, Bytes>
    var nextID: ID

    function Contents(): Table
      reads this
    {
      Table(byValue, byID, nextID)
    }

    constructor (initsAt: ID)
      requires initsAt > 0
      ensures Contents() == Table(map[], map[], initsAt) && Contents().Consistent()
    {
      byValue, byID, nextID := map[], map[], initsAt;
    }

    method GetSetValueIDPair(val: Bytes, symID: ID, mapID: bool) returns (id: ID)
      modifies this
      ensures (Contents(), id) == GetSet(old(Contents()), val, symID, mapID)
    {
      id := symID;
      if |val| == 0 {
        return 0;
      }
      var existingID: ID := 0;
      if id == 0 || !mapID {
        if val in byValue {
          existingID := byValue[val];
        }
      }
      var reassignID, reassignVal := false, false;
      if id == 0 {
        if existingID != 0 {
          id := existingID;
        } else if mapID {
          id := nextID;
          nextID := nextID + 1;
          reassignID, reassignVal := true, true;
        }
      } else if existingID == 0 {
        reassignVal, reassignID := true, true;
      } else if id != existingID {
        reassignVal := true;
        if mapID {
          id := existingID;
          reassignID := true;
        }
      }
      if reassignID || reassignVal {
        byValue := byValue[val := id];
        if reassignID {
          byID := byID[id := val];
        }
      }
    }

    method GetSymbolID(val: Bytes, autoIssue: bool) returns (id: ID)
      modifies this
      ensures (Contents(), id) == GetSet(old(Contents()), val, 0, autoIssue)
    {
      id := GetSetValueIDPair(val, 0, autoIssue);
    }

    method SetSymbolID(val: Bytes, symID: ID) returns (id: ID)
      modifies this
      ensures (Contents(), id) == GetSet(old(Contents()), val, symID, symID == 0)
    {
      id := GetSetValueIDPair(val, symID, symID == 0);
    }

    /** An ID that a value has resolves to that value, and one that was never assigned to nothing. */
    method GetSymbol(symID: ID) returns (val: Option<Bytes>)
      ensures val == Contents().Symbol(symID)
      ensures Contents().Consistent() ==>
                && (forall v :: v in byValue && byValue[v] == symID ==> val == Some(v))
                && (val.Some? ==> 0 < symID < nextID)
    {
      if symID == 0 || symID !in byID {
        return None;
      }
      return Some(byID[symID]);
    }
  }

  /** GetSymbol undoes GetSymbolID, and finds nothing for the empty value, or for one that has no ID. */
  lemma SymbolInvertsID(t: Table, v: Bytes, id: ID)
    requires t.Consistent()
    ensures t.Symbol(t.IDOf(v)) == if v in t.byValue then Some(v) else None
    ensures t.IDOf(v) == id != 0 ==> t.Symbol(id) == Some(v)
    ensures id >= t.next ==> t.Symbol(id) == None
  {
    if v in t.byValue { assert t.byID[t.byValue[v]] == v; }
  }

  /** A table and what follows from it by calls one after the other: known IDs and their values stay. */
  ghost predicate Extends(t: Table, t': Table) {
    && t.next <= t'.next
    && (forall v :: v in t.byValue ==> v in t'.byValue && t'.byValue[v] == t.byValue[v])
    && (forall id :: id in t.byID ==> id in t'.byID && t'.byID[id] == t.byID[id])
  }

  /** GetSymbolID keeps the table consistent and all IDs known, and the ID that it returns resolves to the value. */
  lemma GetKeeps(t: Table, val: Bytes, autoIssue: bool)
    requires t.Consistent()
    ensures var (t', id) := GetSet(t, val, 0, autoIssue);
            && t'.Consistent() && Extends(t, t')
            && id == t'.IDOf(val)
            && (id == 0 <==> val == [] || (val !in t.byValue && !autoIssue))
            && (id != 0 ==> t'.Symbol(id) == Some(val))
            && (if id == t.IDOf(val) then t' == t else id == t.next && t'.next == t.next + 1)
            && (forall v :: v != val ==> t'.IDOf(v) == t.IDOf(v))
            && (forall other :: other != id ==> t'.Symbol(other) == t.Symbol(other))
  {
  }

  datatype Get = Get(val: Bytes, autoIssue: bool)

  function GetAll(t: Table, calls: seq<Get>): Table
    decreases |calls|
  {
    if calls == [] then t else GetAll(GetSet(t, calls[0].val, 0, calls[0].autoIssue).0, calls[1..])
  }

  /** Called one after the other, GetSymbolID never gives a value another ID, and no two values one ID. */
  lemma {:induction false} SequentiallyStable(t: Table, calls: seq<Get>, val: Bytes, other: Bytes)
    requires t.Consistent()
    ensures GetAll(t, calls).Consistent() && Extends(t, GetAll(t, calls))
    ensures t.IDOf(val) != 0 ==> forall auto :: GetSet(GetAll(t, calls), val, 0, auto).1 == t.IDOf(val)
    ensures var t' := GetAll(t, calls); t'.IDOf(val) == t'.IDOf(other) != 0 ==> val == other
    decreases |calls|
  {
    if calls != [] {
      GetKeeps(t, calls[0].val, calls[0].autoIssue);
      SequentiallyStable(GetSet(t, calls[0].val, 0, calls[0].autoIssue).0, calls[1..], val, other);
    }
  }

  /** SetSymbolID assigns the ID to the value; the ID resolves to the value if the value had none, or if it did before. All
      other values keep their IDs, and all other IDs, the value's old one included, resolve to what they did. */
  lemma SetAssigns(t: Table, val: Bytes, symID: ID)
    requires val != [] && symID != 0
    ensures var (t', id) := GetSet(t, val, symID, false);
            && id == symID && t'.IDOf(val) == symID
            && (t'.Symbol(symID) == Some(val) <==> t.IDOf(val) == 0 || t.Symbol(symID) == Some(val))
            && (t.IDOf(val) != 0 ==> t'.Symbol(symID) == t.Symbol(symID))
            && (forall v :: v != val ==> t'.IDOf(v) == t.IDOf(v))
            && (forall other :: other != symID ==> t'.Symbol(other) == t.Symbol(other))
            && t'.next == t.next
  {
  }
}

/** Fields of the Protocol Buffers wire format: reading the next one, and skipping those a message does not know. */
module Wire {
  import opened Wrappers
  import opened Bytes
  import opened Messages
  import opened Words
  import opened Varint

  /** No slice is longer than an int can count. */
  const INT_LIMIT := 0x8000_0000_0000_0000

  /** The field numbers a message has, by wire type; a varint field with the width of the word it is read into. */
  datatype Schema = Schema(varints: map<int, nat>, lengthDelimited: set<int>)

  datatype Field =
    | VarintField(num: int, pattern: nat)
    | BytesField(num: int, payload: Bytes)
    | UnknownField

  // ----- skipping

  /** The extent of the tag and, unless it opens or closes a group, the value at the front;
      and by how much the tag changes the group depth. */
  function SkipOne(s: Bytes): (r: Result<(nat, int), WireError>)
    ensures r.Ok? ==> r.value.0 >= 1 && -1 <= r.value.1 <= 1
  {
    match ReadVarint(s)
    case Err(e) => Err(e)
    case Ok((wire, n)) =>
      var wireType := wire % 8;
      if wireType == 0 then
        match VarintEnd(s[n..], 0) {
          case Err(e) => Err(e)
          case Ok(m) => Ok((n + m, 0))
        }
      else if wireType == 1 then Ok((n + 8, 0))
      else if wireType == 2 then
        match ReadVarint(s[n..]) {
          case Err(e) => Err(e)
          case Ok((v, m)) =>
            var length := ToInt64(v);
            if length < 0 then Err(InvalidLength) else Ok((n + m + length, 0))
        }
      else if wireType == 3 then Ok((n, 1))
      else if wireType == 4 then Ok((n, -1))
      else if wireType == 5 then Ok((n + 4, 0))
      else Err(IllegalWireType)
  }

  /** skipApiSki from index at on, of which s is what remains, inside depth open groups:
      the index just past the field, which may lie beyond the end. */
  function Skip(s: Bytes, at: nat, depth: nat): (r: Result<nat, WireError>)
    ensures r.Ok? ==> r.value > at
  {
    if s == [] then Err(UnexpectedEOF) else
    match SkipOne(s)
    case Err(e) => Err(e)
    case Ok((n, change)) =>
      if depth + change < 0 then Err(UnexpectedEndOfGroup)
      else if at + n >= INT_LIMIT then Err(InvalidLength)
      else if depth + change == 0 then Ok(at + n)
      else if n > |s| then Err(UnexpectedEOF)
      else Skip(s[n..], at + n, depth + change)
  }

  // ----- the next field

  function FieldNum(wire: nat): Int32 { ToInt32(wire % 0x1_0000_0000_0000_0000 / 8) }

  /** The field at the front of s, which starts at index base of the slice, and how many bytes it takes. */
  function NextField(schema: Schema, s: Bytes, base: nat): (r: Result<(Field, nat), WireError>)
    ensures r.Ok? ==> 1 <= r.value.1 <= |s|
  {
    match ReadVarint(s)
    case Err(e) => Err(e)
    case Ok((wire, n)) =>
      var num, wireType := FieldNum(wire), wire % 8;
      if wireType == 4 then Err(EndGroupForNonGroup)
      else if num <= 0 then Err(IllegalTag)
      else if num in schema.varints then
        if wireType != 0 then Err(WrongWireType) else NextVarint(num, schema.varints[num], s[n..], n)
      else if num in schema.lengthDelimited then
        if wireType != 2 then Err(WrongWireType) else NextBytes(num, s[n..], n, base + n)
      else NextUnknown(s, base)
  }

  function NextVarint(num: int, width: nat, s: Bytes, n: nat): (r: Result<(Field, nat), WireError>)
    ensures r.Ok? ==> n < r.value.1 <= n + |s|
  {
    match ReadVarint(s)
    case Err(e) => Err(e)
    case Ok((v, m)) => Ok((VarintField(num, Cut(v, width)), n + m))
  }

  function NextBytes(num: int, s: Bytes, n: nat, base: nat): (r: Result<(Field, nat), WireError>)
    ensures r.Ok? ==> n < r.value.1 <= n + |s|
  {
    match ReadVarint(s)
    case Err(e) => Err(e)
    case Ok((v, m)) =>
      var length := ToInt64(v);
      if length < 0 then Err(InvalidLength)
      else if base + m + length >= INT_LIMIT then Err(InvalidLength)
      else if m + length > |s| then Err(UnexpectedEOF)
      else Ok((BytesField(num, s[m..m + length]), n + m + length))
  }

  function NextUnknown(s: Bytes, base: nat): (r: Result<(Field, nat), WireError>)
    ensures r.Ok? ==> 1 <= r.value.1 <= |s|
  {
    match Skip(s, 0, 0)
    case Err(e) => Err(e)
    case Ok(n) =>
      if base + n >= INT_LIMIT then Err(InvalidLength)
      else if n > |s| then Err(UnexpectedEOF)
      else Ok((UnknownField, n))
  }

  /** What a failing read leaves behind: the bits so far, if it failed in the value of a varint field. */
  function PartialField(schema: Schema, s: Bytes): Option<Field> {
    match ReadVarint(s)
    case Err(_) => None
    case Ok((wire, n)) =>
      var num := FieldNum(wire);
      if wire % 8 == 0 && num > 0 && num in schema.varints then Some(VarintField(num, BitsRead(s[n..], schema.varints[num])))
      else None
  }

  // ----- messages

  /** Unmarshal: applies the fields of s, which starts at index base of the slice, to m, one after the other. */
  function DecodeWith<M>(schema: Schema, apply: (M, Field) -> Result<M, WireError>, m: M, s: Bytes, base: nat): Result<M, WireError>
    decreases |s|
  {
    if s == [] then Ok(m) else
    match NextField(schema, s, base)
    case Err(e) => Err(e)
    case Ok((field, n)) =>
      match apply(m, field)
      case Err(e) => Err(e)
      case Ok(m') => DecodeWith(schema, apply, m', s[n..], base + n)
  }

  // ----- what is read depends on the field alone

  lemma SkipOneLocal(a: Bytes, b: Bytes)
    requires SkipOne(a).Ok?
    ensures SkipOne(a + b) == SkipOne(a)
  {
    hide ToInt64;
    ReadVarintLocal(a, b);
    var (wire, n) := ReadVarint(a).value;
    assert (a + b)[n..] == a[n..] + b;
    if wire % 8 == 0 {
      VarintEndLocal(a[n..], b, 0);
    } else if wire % 8 == 2 {
      ReadVarintLocal(a[n..], b);
    }
  }

  lemma {:induction false} SkipLocal(a: Bytes, b: Bytes, at: nat, depth: nat)
    requires Skip(a, at, depth).Ok?
    ensures Skip(a + b, at, depth) == Skip(a, at, depth)
    decreases |a|
  {
    hide SkipOne;
    SkipOneLocal(a, b);
    var (n, change) := SkipOne(a).value;
    if depth + change > 0 {
      assert (a + b)[n..] == a[n..] + b;
      SkipLocal(a[n..], b, at + n, depth + change);
    }
  }

  lemma NextFieldLocal(schema: Schema, a: Bytes, b: Bytes, base: nat)
    requires NextField(schema, a, base).Ok?
    ensures NextField(schema, a + b, base) == NextField(schema, a, base)
  {
    hide ToInt64, ToInt32, Skip;
    ReadVarintLocal(a, b);
    var (wire, n) := ReadVarint(a).value;
    var num := FieldNum(wire);
    assert (a + b)[n..] == a[n..] + b;
    if num in schema.varints {
      ReadVarintLocal(a[n..], b);
    } else if num in schema.lengthDelimited {
      ReadVarintLocal(a[n..], b);
      var (v, m) := ReadVarint(a[n..]).value;
      var length := ToInt64(v);
      assert (a[n..] + b)[m..m + length] == a[n..][m..m + length];
    } else {
      SkipLocal(a, b, 0, 0);
    }
  }

  /** Whether a field can be read, and which, does not depend on where in the slice it stands. */
  lemma NextFieldAnywhere(schema: Schema, s: Bytes, base: nat, base': nat)
    requires base + |s| < INT_LIMIT && base' + |s| < INT_LIMIT
    ensures NextField(schema, s, base).Ok? ==> NextField(schema, s, base') == NextField(schema, s, base)
    ensures NextField(schema, s, base').Ok? ==> NextField(schema, s, base).Ok?
  {
    hide ToInt64, ToInt32, Skip;
  }

  lemma {:induction false} DecodeAnywhere<M>(schema: Schema, apply: (M, Field) -> Result<M, WireError>, m: M, s: Bytes,
                                             base: nat, base': nat)
    requires base + |s| < INT_LIMIT && base' + |s| < INT_LIMIT
    ensures SameOutcome(DecodeWith(schema, apply, m, s, base), DecodeWith(schema, apply, m, s, base'))
    decreases |s|
  {
    hide NextField;
    if s != [] {
      NextFieldAnywhere(schema, s, base, base');
      if NextField(schema, s, base).Ok? {
        var (field, n) := NextField(schema, s, base).value;
        if apply(m, field).Ok? {
          DecodeAnywhere(schema, apply, apply(m, field).value, s[n..], base + n, base' + n);
        }
      }
    }
  }

  /** Equal results, or failure on both sides. */
  predicate SameOutcome<M(==)>(a: Result<M, WireError>, b: Result<M, WireError>) {
    if a.Ok? then b == a else b.Err?
  }

  /** Decoding a message whose front decodes on its own goes on from what the front left. */
  lemma {:induction false} DecodeAppend<M>(schema: Schema, apply: (M, Field) -> Result<M, WireError>, m: M, a: Bytes, b: Bytes, base: nat)
    requires DecodeWith(schema, apply, m, a, base).Ok?
    ensures DecodeWith(schema, apply, m, a + b, base)
         == DecodeWith(schema, apply, DecodeWith(schema, apply, m, a, base).value, b, base + |a|)
    decreases |a|
  {
    hide NextField;
    if a == [] {
      assert a + b == b;
    } else {
      NextFieldLocal(schema, a, b, base);
      var (field, n) := NextField(schema, a, base).value;
      assert (a + b)[n..] == a[n..] + b;
      DecodeAppend(schema, apply, apply(m, field).value, a[n..], b, base + n);
    }
  }

  // ----- fields a message does not know

  /** A well-formed field, groups with their contents included. */
  datatype Tree =
    | VarintTree(num: nat, value: Uint64)
    | Fixed64Tree(num: nat, bytes8: Bytes)
    | BytesTree(num: nat, payload: Bytes)
    | GroupTree(num: nat, fields: seq<Tree>)
    | Fixed32Tree(num: nat, bytes4: Bytes)

  ghost predicate WellFormed(t: Tree) {
    && 1 <= t.num < 0x2000_0000
    && match t
       case VarintTree(_, _) => true
       case Fixed64Tree(_, p) => |p| == 8
       case BytesTree(_, p) => |p| < INT_LIMIT
       case GroupTree(_, fields) => forall f :: f in fields ==> WellFormed(f)
       case Fixed32Tree(_, p) => |p| == 4
  }

  function Tag(num: nat, wireType: nat): Bytes { EncodeVarint(num * 8 + wireType) }

  function EncodeTree(t: Tree): (r: Bytes)
    ensures r != []
  {
    match t
    case VarintTree(num, v) => Tag(num, 0) + EncodeVarint(v)
    case Fixed64Tree(num, p) => Tag(num, 1) + p
    case BytesTree(num, p) => Tag(num, 2) + EncodeVarint(|p|) + p
    case GroupTree(num, fields) => Tag(num, 3) + EncodeTrees(fields) + Tag(num, 4)
    case Fixed32Tree(num, p) => Tag(num, 5) + p
  }

  function EncodeTrees(ts: seq<Tree>): Bytes {
    if ts == [] then [] else EncodeTree(ts[0]) + EncodeTrees(ts[1..])
  }

  lemma ReadTag(num: nat, wireType: nat, s: Bytes)
    requires num < 0x2000_0000 && wireType < 8
    ensures ReadVarint(Tag(num, wireType) + s) == Ok((num * 8 + wireType, |Tag(num, wireType)|))
    ensures (num * 8 + wireType) % 8 == wireType
    ensures (Tag(num, wireType) + s)[|Tag(num, wireType)|..] == s
  {
    hide EncodeVarint, Sov, ReadVarint;
    VarintRoundTrip(num * 8 + wireType, s);
    SovIsLength(num * 8 + wireType);
  }

  lemma ReadLength(n: nat, s: Bytes)
    requires n < INT_LIMIT
    ensures ReadVarint(EncodeVarint(n) + s) == Ok((n, |EncodeVarint(n)|)) && ToInt64(n) == n
  {
    hide EncodeVarint, Sov, ReadVarint;
    VarintRoundTrip(n, s);
    SovIsLength(n);
  }

  lemma SkipOneVarint(num: nat, v: Uint64, rest: Bytes)
    requires num < 0x2000_0000
    ensures SkipOne(Tag(num, 0) + (EncodeVarint(v) + rest)) == Ok((|Tag(num, 0)| + |EncodeVarint(v)|, 0))
  {
    hide Tag, EncodeVarint, Sov, GroupsValue, VarintEnd;
    ReadTag(num, 0, EncodeVarint(v) + rest);
    VarintRoundTrip(v, rest);
    SovIsLength(v);
    VarintEndOfRead(EncodeVarint(v) + rest);
  }

  lemma VarintEndOfRead(s: Bytes)
    requires ReadVarint(s).Ok?
    ensures VarintEnd(s, 0) == Ok(ReadVarint(s).value.1)
  {
  }

  /** Fields of fixed extent, and the tags that open and close a group. */
  lemma SkipOneFixed(num: nat, wireType: nat, rest: Bytes)
    requires num < 0x2000_0000 && wireType in {1, 3, 4, 5}
    ensures SkipOne(Tag(num, wireType) + rest)
         == Ok((|Tag(num, wireType)| + (if wireType == 1 then 8 else if wireType == 5 then 4 else 0),
                if wireType == 3 then 1 else if wireType == 4 then -1 else 0))
  {
    hide Tag, ReadVarint, VarintEnd, ToInt64;
    ReadTag(num, wireType, rest);
  }

  lemma SkipOneBytes(num: nat, p: Bytes, rest: Bytes)
    requires num < 0x2000_0000 && |p| < INT_LIMIT
    ensures SkipOne(Tag(num, 2) + (EncodeVarint(|p|) + rest)) == Ok((|Tag(num, 2)| + |EncodeVarint(|p|)| + |p|, 0))
  {
    hide Tag, EncodeVarint, ReadVarint, VarintEnd, ToInt64;
    ReadTag(num, 2, EncodeVarint(|p|) + rest);
    ReadLength(|p|, rest);
  }

  lemma SkipOneLeaf(t: Tree, rest: Bytes)
    requires WellFormed(t) && !t.GroupTree?
    ensures SkipOne(EncodeTree(t) + rest) == Ok((|EncodeTree(t)|, 0))
  {
    hide SkipOne, Tag, EncodeVarint;
    match t
    case VarintTree(num, v) =>
      assert EncodeTree(t) + rest == Tag(num, 0) + (EncodeVarint(v) + rest);
      SkipOneVarint(num, v, rest);
    case Fixed64Tree(num, p) =>
      assert EncodeTree(t) + rest == Tag(num, 1) + (p + rest);
      SkipOneFixed(num, 1, p + rest);
    case BytesTree(num, p) =>
      assert EncodeTree(t) + rest == Tag(num, 2) + (EncodeVarint(|p|) + (p + rest));
      SkipOneBytes(num, p, p + rest);
    case Fixed32Tree(num, p) =>
      assert EncodeTree(t) + rest == Tag(num, 5) + (p + rest);
      SkipOneFixed(num, 5, p + rest);
  }

  /** Inside open groups, skipping passes over a well-formed field. */
  lemma {:induction false} SkipPassesTree(t: Tree, rest: Bytes, at: nat, depth: nat)
    requires WellFormed(t) && depth > 0 && at + |EncodeTree(t)| < INT_LIMIT
    ensures Skip(EncodeTree(t) + rest, at, depth) == Skip(rest, at + |EncodeTree(t)|, depth)
    decreases t, 0
  {
    hide SkipOne, Tag;
    if t.GroupTree? {
      SkipPassesGroup(t, rest, at, depth);
    } else {
      SkipOneLeaf(t, rest);
      assert (EncodeTree(t) + rest)[|EncodeTree(t)|..] == rest;
    }
  }

  /** A group is entered, its fields are passed over, and it is left. */
  lemma {:induction false} SkipPassesGroup(t: Tree, rest: Bytes, at: nat, depth: nat)
    requires WellFormed(t) && t.GroupTree? && at + |EncodeTree(t)| < INT_LIMIT
    ensures Skip(EncodeTree(t) + rest, at, depth)
         == if depth == 0 then Ok(at + |EncodeTree(t)|) else Skip(rest, at + |EncodeTree(t)|, depth)
    decreases t.fields, 2
  {
    hide SkipOne, Tag, EncodeTrees;
    var open, close := Tag(t.num, 3), Tag(t.num, 4);
    var inner := EncodeTrees(t.fields) + (close + rest);
    assert EncodeTree(t) + rest == open + inner;
    SkipOneFixed(t.num, 3, inner);
    assert (open + inner)[|open|..] == inner;
    SkipPassesTrees(t.fields, close + rest, at + |open|, depth + 1);
    SkipOneFixed(t.num, 4, rest);
    assert (close + rest)[|close|..] == rest;
  }

  lemma {:induction false} SkipPassesTrees(ts: seq<Tree>, rest: Bytes, at: nat, depth: nat)
    requires forall t :: t in ts ==> WellFormed(t)
    requires depth > 0 && at + |EncodeTrees(ts)| < INT_LIMIT
    ensures Skip(EncodeTrees(ts) + rest, at, depth) == Skip(rest, at + |EncodeTrees(ts)|, depth)
    decreases ts, 1
  {
    hide Skip, EncodeTree;
    if ts == [] {
      assert EncodeTrees(ts) + rest == rest;
    } else {
      var more := EncodeTrees(ts[1..]) + rest;
      assert EncodeTrees(ts) + rest == EncodeTree(ts[0]) + more;
      SkipPassesTree(ts[0], more, at, depth);
      SkipPassesTrees(ts[1..], rest, at + |EncodeTree(ts[0])|, depth);
    }
  }

  /** skipApiSki on a well-formed field stops exactly at its end. */
  lemma SkipTree(t: Tree, rest: Bytes)
    requires WellFormed(t) && |EncodeTree(t)| < INT_LIMIT
    ensures Skip(EncodeTree(t) + rest, 0, 0) == Ok(|EncodeTree(t)|)
  {
    hide SkipOne, Tag, EncodeTree;
    if t.GroupTree? {
      SkipPassesGroup(t, rest, 0, 0);
    } else {
      SkipOneLeaf(t, rest);
    }
  }

  function TreeWireType(t: Tree): (r: nat)
    ensures r < 8 && r != 4
  {
    match t
    case VarintTree(_, _) => 0
    case Fixed64Tree(_, _) => 1
    case BytesTree(_, _) => 2
    case GroupTree(_, _) => 3
    case Fixed32Tree(_, _) => 5
  }

  lemma TreeStartsWithTag(t: Tree)
    ensures Tag(t.num, TreeWireType(t)) <= EncodeTree(t)
  {
    hide Tag, EncodeTrees, EncodeVarint;
  }

  lemma NextFieldOfUnknown(schema: Schema, t: Tree, rest: Bytes, base: nat)
    requires WellFormed(t) && t.num !in schema.varints && t.num !in schema.lengthDelimited
    requires base + |EncodeTree(t) + rest| < INT_LIMIT
    ensures NextField(schema, EncodeTree(t) + rest, base) == Ok((UnknownField, |EncodeTree(t)|))
  {
    hide Skip, Tag, EncodeTree, ReadVarint;
    SkipTree(t, rest);
    TreeStartsWithTag(t);
    var s, wireType := EncodeTree(t) + rest, TreeWireType(t);
    var tag := Tag(t.num, wireType);
    assert s == tag + s[|tag|..];
    ReadTag(t.num, wireType, s[|tag|..]);
    FieldNumOfTag(t.num, wireType);
  }

  lemma FieldNumOfTag(num: nat, wireType: nat)
    requires num < 0x2000_0000 && wireType < 8
    ensures FieldNum(num * 8 + wireType) == num
  {
  }

  lemma NextFieldFits(schema: Schema, s: Bytes, base: nat)
    ensures NextField(schema, s, base).Ok? ==> 1 <= NextField(schema, s, base).value.1 <= |s|
  {
  }

  /** One field, then the rest. */
  lemma DecodeStep<M>(schema: Schema, apply: (M, Field) -> Result<M, WireError>, m: M, s: Bytes, base: nat,
                      field: Field, n: nat, m': M)
    requires NextField(schema, s, base) == Ok((field, n)) && apply(m, field) == Ok(m')
    ensures n <= |s| && DecodeWith(schema, apply, m, s, base) == DecodeWith(schema, apply, m', s[n..], base + n)
  {
    NextFieldFits(schema, s, base);
    hide NextField;
  }

  /** Unknown-field transparency: a well-formed field the message does not know, put in at any field boundary,
      leaves what is decoded unchanged. Here the boundary is the end of a front that decodes on its own, and
      unknown fields are ignored by the message. */
  lemma UnknownFieldIsTransparent<M>(schema: Schema, apply: (M, Field) -> Result<M, WireError>, m: M,
                                     front: Bytes, t: Tree, back: Bytes)
    requires WellFormed(t) && t.num !in schema.varints && t.num !in schema.lengthDelimited
    requires |front + EncodeTree(t) + back| < INT_LIMIT
    requires DecodeWith(schema, apply, m, front, 0).Ok?
    requires apply(DecodeWith(schema, apply, m, front, 0).value, UnknownField) == DecodeWith(schema, apply, m, front, 0)
    ensures SameOutcome(DecodeWith(schema, apply, m, front + EncodeTree(t) + back, 0),
                        DecodeWith(schema, apply, m, front + back, 0))
  {
    hide NextField, EncodeTree;
    var u := EncodeTree(t);
    var m' := DecodeWith(schema, apply, m, front, 0).value;
    assert front + u + back == front + (u + back);
    DecodeAppend(schema, apply, m, front, u + back, 0);
    DecodeAppend(schema, apply, m, front, back, 0);
    NextFieldOfUnknown(schema, t, back, |front|);
    DecodeStep(schema, apply, m', u + back, |front|, UnknownField, |u|, m');
    assert (u + back)[|u|..] == back;
    DecodeAnywhere(schema, apply, m', back, |front|, |front| + |u|);
  }
}

/** The shoutcast stream: audio with a metadata block after every metaint bytes, and a reader that takes the blocks out. */
module IcyStream {
  import opened Wrappers
  import opened Bytes

  // ----- what is to be read: a machine that looks at one byte at a time

  /** In the audio, pos bytes after the last block; or in a block of so many bytes, of which some are seen. */
  datatype Mode = InAudio(pos: nat) | InBlock(seen: Bytes, size: nat)

  /** A place in the stream, with the latest block that was not empty. */
  datatype Place = Place(mode: Mode, block: Option<Bytes>)

  /** Blocks are counted in units of 16 bytes. */
  function BlockSize(length: Byte): nat { 16 * (length as int) }

  function Step(metaint: nat, at: Place, b: Byte): Place {
    match at.mode
    case InAudio(pos) =>
      if pos != metaint then at.(mode := InAudio(pos + 1))
      else if b == 0 then at.(mode := InAudio(0))
      else at.(mode := InBlock([], BlockSize(b)))
    case InBlock(seen, size) =>
      if |seen| + 1 < size then at.(mode := InBlock(seen + [b], size)) else Place(InAudio(0), Some(seen + [b]))
  }

  function After(metaint: nat, at: Place, s: Bytes): Place
    decreases |s|
  {
    if s == [] then at else After(metaint, Step(metaint, at, s[0]), s[1..])
  }

  /** The stream with every block deleted. */
  function Audio(metaint: nat, at: Place, s: Bytes): Bytes
    decreases |s|
  {
    if s == [] then []
    else (if at.mode.InAudio? && at.mode.pos != metaint then [s[0]] else []) + Audio(metaint, Step(metaint, at, s[0]), s[1..])
  }

  lemma {:induction false} AfterAppend(metaint: nat, at: Place, a: Bytes, b: Bytes)
    ensures After(metaint, at, a + b) == After(metaint, After(metaint, at, a), b)
    ensures Audio(metaint, at, a + b) == Audio(metaint, at, a) + Audio(metaint, After(metaint, at, a), b)
    decreases |a|
  {
    if a == [] {
      assert a + b == b;
    } else {
      assert (a + b)[1..] == a[1..] + b;
      AfterAppend(metaint, Step(metaint, at, a[0]), a[1..], b);
    }
  }

  lemma {:induction false} AudioRun(metaint: nat, at: Place, s: Bytes)
    requires at.mode.InAudio? && at.mode.pos + |s| <= metaint
    ensures After(metaint, at, s) == at.(mode := InAudio(at.mode.pos + |s|))
    ensures Audio(metaint, at, s) == s
    decreases |s|
  {
    if s != [] { AudioRun(metaint, Step(metaint, at, s[0]), s[1..]); }
  }

  lemma {:induction false} BlockRun(metaint: nat, at: Place, s: Bytes)
    requires at.mode.InBlock? && |at.mode.seen| < at.mode.size && |at.mode.seen| + |s| <= at.mode.size
    ensures After(metaint, at, s)
         == if |at.mode.seen| + |s| == at.mode.size then Place(InAudio(0), Some(at.mode.seen + s))
            else at.(mode := InBlock(at.mode.seen + s, at.mode.size))
    ensures Audio(metaint, at, s) == []
    decreases |s|
  {
    if s == [] {
      assert at.mode.seen + s == at.mode.seen;
    } else {
      assert at.mode.seen + s == at.mode.seen + [s[0]] + s[1..];
      if |s| == 1 {
        assert s == [s[0]] && s[1..] == [];
      } else {
        BlockRun(metaint, Step(metaint, at, s[0]), s[1..]);
      }
    }
  }

  lemma FirstByte(metaint: nat, at: Place, s: Bytes)
    requires s != []
    ensures After(metaint, at, s) == After(metaint, Step(metaint, at, s[0]), s[1..])
    ensures at.mode.InBlock? || at.mode.pos == metaint ==> Audio(metaint, at, s) == Audio(metaint, Step(metaint, at, s[0]), s[1..])
    ensures After(metaint, at, []) == at && Audio(metaint, at, []) == []
  {
    hide Step;
  }

  /** From the last audio byte before a block on: the length byte and as much of the block as there is. */
  lemma BlockAhead(metaint: nat, at: Place, s: Bytes)
    requires at.mode == InAudio(metaint) && 1 <= |s| <= 1 + BlockSize(s[0])
    ensures Audio(metaint, at, s) == []
    ensures After(metaint, at, s)
         == if |s| < 1 + BlockSize(s[0]) then at.(mode := InBlock(s[1..], BlockSize(s[0])))
            else Place(InAudio(0), if s[0] == 0 then at.block else Some(s[1..]))
  {
    hide After, Audio;
    var next := Step(metaint, at, s[0]);
    FirstByte(metaint, at, s);
    if s[0] == 0 {
      FirstByte(metaint, next, s);
      assert s[1..] == [];
    } else {
      assert [] + s[1..] == s[1..];
      BlockRun(metaint, next, s[1..]);
    }
  }

  /** Audio up to a block, the length byte, and as much of the block as there is. */
  lemma AudioThenBlock(metaint: nat, at: Place, audio: Bytes, s: Bytes)
    requires at.mode.InAudio? && at.mode.pos + |audio| == metaint && 1 <= |s| <= 1 + BlockSize(s[0])
    ensures Audio(metaint, at, audio + s) == audio
    ensures After(metaint, at, audio + s)
         == if |s| < 1 + BlockSize(s[0]) then at.(mode := InBlock(s[1..], BlockSize(s[0])))
            else Place(InAudio(0), if s[0] == 0 then at.block else Some(s[1..]))
  {
    AfterAppend(metaint, at, audio, s);
    AudioRun(metaint, at, audio);
    BlockAhead(metaint, After(metaint, at, audio), s);
  }

  // ----- the underlying connection

  datatype IoError = EOF | UnexpectedEOF | OtherError

  /** What the connection will deliver, and the error that comes with the last byte of it. */
  datatype Chunk = Chunk(data: Bytes, err: Option<IoError>)

  /** What one Read into so much room delivers, its error, and what is still to come. */
  function Delivery(script: seq<Chunk>, room: nat): (r: (Bytes, Option<IoError>, seq<Chunk>))
    ensures |r.0| <= room
    ensures |r.2| <= |script| && (r.1.None? && |r.0| < room ==> |r.2| < |script|)
  {
    if script == [] then ([], Some(EOF), [])
    else if |script[0].data| <= room then (script[0].data, script[0].err, script[1..])
    else (script[0].data[..room], None, [Chunk(script[0].data[room..], script[0].err)] + script[1..])
  }

  /** What reading on until so much is there, or an error, delivers, with the error of the last read. */
  function Filling(script: seq<Chunk>, need: nat): (r: (Bytes, Option<IoError>, seq<Chunk>))
    ensures |r.0| <= need && (r.1.None? ==> |r.0| == need)
    decreases need, |script|
  {
    if need == 0 then ([], None, script) else
    var (d, e, rest) := Delivery(script, need);
    if e.Some? then (d, e, rest) else
    var (more, e', rest') := Filling(rest, need - |d|);
    (d + more, e', rest')
  }

  lemma FillingNothing(script: seq<Chunk>)
    ensures Filling(script, 0) == ([], None, script)
  {
  }

  /** Midway in it: more is there, with err, and left is still missing. */
  ghost predicate PartlyFilled(start: seq<Chunk>, need: nat, more: Bytes, err: Option<IoError>, script: seq<Chunk>, left: nat) {
    var (d, e, rest) := Filling(script, left);
    Filling(start, need) == if err.None? then (more + d, e, rest) else (more, err, script)
  }

  lemma PartlyFilledAtStart(start: seq<Chunk>, need: nat)
    ensures PartlyFilled(start, need, [], None, start, need)
  {
    assert [] + Filling(start, need).0 == Filling(start, need).0;
  }

  lemma PartlyFilledStep(start: seq<Chunk>, need: nat, more: Bytes, script: seq<Chunk>, left: nat)
    requires PartlyFilled(start, need, more, None, script, left) && left > 0
    ensures var (d, e, rest) := Delivery(script, left);
            PartlyFilled(start, need, more + d, e, rest, left - |d|)
  {
    hide Delivery;
    var (d, e, rest) := Delivery(script, left);
    assert more + (d + Filling(rest, left - |d|).0) == more + d + Filling(rest, left - |d|).0;
  }

  lemma FillingEnds(start: seq<Chunk>, need: nat, more: Bytes, err: Option<IoError>, script: seq<Chunk>, left: nat)
    requires PartlyFilled(start, need, more, err, script, left) && (left == 0 || err.Some?)
    ensures Filling(start, need) == (more, err, script)
  {
    assert more + [] == more;
  }

  /** The error for a block that could not be completed. */
  function CutShort(err: Option<IoError>): Option<IoError> {
    if err.None? || err == Some(EOF) then Some(UnexpectedEOF) else err
  }

  class Reader {
    var script: seq<Chunk>
    /** Every byte delivered so far. */
    ghost var taken: Bytes

    constructor (script: seq<Chunk>)
      ensures this.script == script && taken == []
    {
      this.script, taken := script, [];
    }

    /** io.Reader's Read into p from index lo on. Nothing is promised of the bytes behind those delivered. */
    method Read(p: array<Byte>, lo: nat) returns (n: nat, err: Option<IoError>)
      requires lo <= p.Length
      modifies this, p
      ensures var (d, e, rest) := Delivery(old(script), p.Length - lo);
              n == |d| && err == e && script == rest && taken == old(taken) + d && p[lo..lo + n] == d
      ensures p[..lo] == old(p[..lo])
    {
      var (d, e, rest) := Delivery(script, p.Length - lo);
      forall k | 0 <= k < |d| { p[lo + k] := d[k]; }
      script, taken := rest, taken + d;
      return |d|, e;
    }
  }

  // ----- the stream

  /** The first block met in a first read of f lies only partly inside it. */
  predicate FirstBlockCut(metaint: nat, pos: nat, f: Bytes)
    requires pos <= metaint
  {
    var offset := metaint - pos;
    |f| > offset && |f| - offset < 1 + BlockSize(f[offset])
  }

  /** The calls that stay in step: every block met is wholly inside the bytes read, or the first one is not,
      and the read filled the buffer. */
  predicate InStep(metaint: nat, at: Place, f: Bytes, bufLen: nat) {
    && at.mode.InAudio? && at.mode.pos <= metaint
    && (After(metaint, at, f).mode.InAudio? || (|f| == bufLen && FirstBlockCut(metaint, at.mode.pos, f)))
  }

  predicate FirstBlockWhole(metaint: nat, pos: nat, f: Bytes)
    requires pos <= metaint
  {
    |f| > metaint - pos && !FirstBlockCut(metaint, pos, f)
  }

  /** One call of Read: what its first read brought, what it read besides, what it returned, and where the stream stands. */
  datatype Call = Call(before: Place, first: Bytes, firstErr: Option<IoError>, more: Bytes, moreErr: Option<IoError>, bufLen: nat,
                       out: Bytes, err: Option<IoError>, after: Place)
  {
    /** All it took from the connection. */
    function Taken(): Bytes { first + more }
  }

  /** The room that the audio of a first read leaves in the buffer, for the block behind it. */
  function Room(metaint: nat, before: Place, first: Bytes, bufLen: nat): int { bufLen - |Audio(metaint, before, first)| }

  /** The first read ends outside a block, or the buffer has room for the block in which it ends. */
  predicate Roomy(metaint: nat, before: Place, first: Bytes, bufLen: nat) {
    var place := After(metaint, before, first);
    place.mode.InAudio? || Room(metaint, before, first, bufLen) > place.mode.size
  }

  /** How much of the block in which a first read ends the buffer has no room for. */
  function Missing(metaint: nat, before: Place, first: Bytes, bufLen: nat): (r: nat)
    ensures r == 0 <==> Roomy(metaint, before, first, bufLen)
  {
    var place := After(metaint, before, first);
    if Roomy(metaint, before, first, bufLen) then 0 else 1 + place.mode.size - Room(metaint, before, first, bufLen)
  }

  /** What a call of Read does: it returns the audio of what it took, and stays in step exactly when it can. What it reads
      besides its first read is at most what is missing of a block. The error is that of its last read that failed; only when
      a block stays incomplete, the end of the stream is an unexpected one, and the block before is kept. After a block that
      is cut off the count starts anew. */
  ghost predicate Does(metaint: nat, c: Call) {
    && c.before.mode.InAudio? && c.before.mode.pos <= metaint
    && c.after.mode.InAudio? && c.after.mode.pos <= metaint
    && |c.first| <= c.bufLen
    && c.out == Audio(metaint, c.before, c.Taken())
    && (c.err.None? ==> (c.after == After(metaint, c.before, c.Taken()) <==> InStep(metaint, c.before, c.first, c.bufLen)))
    && var (place, missing) := (After(metaint, c.before, c.first), Missing(metaint, c.before, c.first, c.bufLen));
    && (place.mode.InBlock? ==> c.after.mode == InAudio(0))
    && |c.more| <= missing
    && if |c.more| == missing then c.err == if c.moreErr.Some? then c.moreErr else c.firstErr
       else c.err == CutShort(c.moreErr) && c.after.block == place.block
  }

  /** Inside Read: done bytes of the first read are dealt with, b[..checked] is their audio, and b[checked..n] is
      still to be looked at. */
  ghost predicate Midway(metaint: nat, start: Place, first: Bytes, done: nat, b: Bytes, checked: nat, n: nat, here: Place) {
    && start.mode.InAudio? && start.mode.pos <= metaint && here.mode.InAudio? && here.mode.pos <= metaint
    && checked <= done <= |first| <= |b| && checked <= n <= |b| && b[checked..n] == first[done..]
    && b[..checked] == Audio(metaint, start, first[..done])
    && here == After(metaint, start, first[..done])
    && (done == 0 ==> here == start)
    && (done > 0 ==> checked < done && FirstBlockWhole(metaint, start.mode.pos, first))
  }

  lemma MidwayAtStart(metaint: nat, start: Place, first: Bytes, b: Bytes)
    requires start.mode.InAudio? && start.mode.pos <= metaint && first <= b
    ensures Midway(metaint, start, first, 0, b, 0, |first|, start)
  {
    assert first[..0] == [] && first[0..] == first && b[..0] == [];
  }

  /** How a block, so much of it as there is, and the audio before it move the place. */
  lemma MidwayBlock(metaint: nat, start: Place, first: Bytes, done: nat, b: Bytes, checked: nat, n: nat, here: Place,
                    at: nat, s: Bytes)
    requires Midway(metaint, start, first, done, b, checked, n, here)
    requires here.mode.pos + (at - checked) == metaint && checked <= at <= n
    requires 1 <= |s| <= 1 + BlockSize(s[0])
    ensures Audio(metaint, start, first[..done] + (b[checked..at] + s)) == b[..at]
    ensures After(metaint, start, first[..done] + (b[checked..at] + s))
         == if |s| < 1 + BlockSize(s[0]) then here.(mode := InBlock(s[1..], BlockSize(s[0])))
            else Place(InAudio(0), if s[0] == 0 then here.block else Some(s[1..]))
  {
    hide After, Audio, FirstBlockWhole;
    AfterAppend(metaint, start, first[..done], b[checked..at] + s);
    AudioThenBlock(metaint, here, b[checked..at], s);
    assert b[..checked] + b[checked..at] == b[..at];
  }

  /** What became of a block at index at of b: it was there, or it was completed from the connection with more. */
  ghost predicate Extracted(b: Bytes, at: nat, end: nat, more: Bytes, moreErr: Option<IoError>,
                            before: Option<Bytes>, after: Option<Bytes>, err: Option<IoError>)
    requires at < |b|
  {
    && end == 1 + BlockSize(b[at])
    && (at + end <= |b| ==>
          more == [] && err == moreErr == None && after == if end == 1 then before else Some(b[at + 1..at + end]))
    && (at + end > |b| ==>
          && |b| - at + |more| <= end
          && if |b| - at + |more| == end then err == moreErr && after == Some(b[at + 1..] + more)
             else err == CutShort(moreErr) && after == before)
  }

  lemma ExtractedFits(b: Bytes, at: nat, end: nat, more: Bytes, moreErr: Option<IoError>,
                      before: Option<Bytes>, after: Option<Bytes>, err: Option<IoError>)
    requires at < |b| && Extracted(b, at, end, more, moreErr, before, after, err)
    ensures end >= 1 && (at + end <= |b| ==> more == [] && err == moreErr == None)
  {
  }

  /** What copy(b[at:], b[at+skip:]) does to the bytes before index n. */
  ghost predicate Moved(b: Bytes, b': Bytes, at: nat, skip: nat, n: nat) {
    at + skip <= n <= |b| && |b'| == |b| && b'[..at] == b[..at] && b'[at..n - skip] == b[at + skip..n]
  }

  /** The next block is wholly among the bytes read. */
  lemma MidwayStep(metaint: nat, start: Place, first: Bytes, done: nat, b: Bytes, checked: nat, n: nat, here: Place,
                   at: nat, skip: nat, metadata: Option<Bytes>, b': Bytes)
    requires Midway(metaint, start, first, done, b, checked, n, here) && checked <= at < n
    requires here.mode.pos + (at - checked) == metaint && at + skip <= n
    requires Extracted(b, at, skip, [], None, here.block, metadata, None) && Moved(b, b', at, skip, n)
    ensures Midway(metaint, start, first, done + (at - checked) + skip, b', at, n - skip, Place(InAudio(0), metadata))
  {
    hide After, Audio;
    var s := b[at..at + skip];
    MidwayBlock(metaint, start, first, done, b, checked, n, here, at, s);
    var done' := done + (at - checked) + skip;
    assert b[checked..n] == b[checked..at] + s + b[at + skip..n];
    assert first[..done] + (b[checked..at] + s) == first[..done'];
    assert b[at + skip..n] == first[done'..];
    assert s[1..] == b[at + 1..at + skip];
    assert done == 0 ==> b[checked..n] == first;
  }

  lemma Joined(first: Bytes, done: nat, audio: Bytes, s: Bytes, more: Bytes)
    requires done <= |first| && first[done..] == audio + s
    ensures first[..done] + (audio + s) == first
    ensures first[..done] + (audio + (s + more)) == first + more
  {
    assert first == first[..done] + first[done..];
    assert first[..done] + (audio + (s + more)) == first[..done] + (audio + s) + more;
  }

  /** Where so much of a block as there is leads, with what is read of it besides. */
  lemma CutPlace(metaint: nat, start: Place, first: Bytes, done: nat, b: Bytes, checked: nat, n: nat, here: Place, at: nat, more: Bytes)
    requires Midway(metaint, start, first, done, b, checked, n, here) && checked <= at < n
    requires here.mode.pos + (at - checked) == metaint && n - at + |more| <= 1 + BlockSize(b[at])
    ensures Audio(metaint, start, first + more) == b[..at]
    ensures After(metaint, start, first + more)
         == if n - at + |more| < 1 + BlockSize(b[at]) then here.(mode := InBlock(b[at + 1..n] + more, BlockSize(b[at])))
            else Place(InAudio(0), if b[at] == 0 then here.block else Some(b[at + 1..n] + more))
  {
    hide After, Audio, FirstBlockWhole, BlockSize;
    var s := b[at..n];
    assert b[checked..n] == b[checked..at] + s;
    Joined(first, done, b[checked..at], s, more);
    assert (s + more)[1..] == b[at + 1..n] + more;
    MidwayBlock(metaint, start, first, done, b, checked, n, here, at, s + more);
  }

  lemma CutIsFirst(metaint: nat, start: Place, first: Bytes, done: nat, b: Bytes, checked: nat, n: nat, here: Place, at: nat)
    requires Midway(metaint, start, first, done, b, checked, n, here) && checked <= at < n
    requires here.mode.pos + (at - checked) == metaint && n - at < 1 + BlockSize(b[at])
    ensures start.mode.InAudio? && start.mode.pos <= metaint && |first| <= |b|
    ensures |first| == |b| && FirstBlockCut(metaint, start.mode.pos, first) <==> n == |b|
  {
    hide After, Audio, BlockSize;
    assert done == 0 ==> first[at - checked] == b[checked..n][at - checked] == b[at];
  }

  lemma CutPlaces(metaint: nat, start: Place, first: Bytes, done: nat, b: Bytes, checked: nat, n: nat, here: Place, at: nat, more: Bytes)
    requires Midway(metaint, start, first, done, b, checked, n, here) && checked <= at < n
    requires here.mode.pos + (at - checked) == metaint && n - at + |more| <= 1 + BlockSize(b[at]) && n - at < 1 + BlockSize(b[at])
    ensures start.mode.InAudio? && start.mode.pos <= metaint && |first| <= |b|
    ensures Audio(metaint, start, first) == b[..at] && Audio(metaint, start, first + more) == b[..at]
    ensures After(metaint, start, first) == here.(mode := InBlock(b[at + 1..n], BlockSize(b[at])))
    ensures After(metaint, start, first + more)
         == if n - at + |more| < 1 + BlockSize(b[at]) then here.(mode := InBlock(b[at + 1..n] + more, BlockSize(b[at])))
            else Place(InAudio(0), Some(b[at + 1..n] + more))
    ensures |first| == |b| && FirstBlockCut(metaint, start.mode.pos, first) <==> n == |b|
  {
    hide After, Audio, FirstBlockWhole, FirstBlockCut;
    CutPlace(metaint, start, first, done, b, checked, n, here, at, []);
    CutPlace(metaint, start, first, done, b, checked, n, here, at, more);
    CutIsFirst(metaint, start, first, done, b, checked, n, here, at);
    assert first + [] == first && b[at + 1..n] + [] == b[at + 1..n];
  }

  /** The next block is not wholly among the bytes read: the call ends with it, after reading more or not. */
  lemma CutCall(metaint: nat, start: Place, first: Bytes, done: nat, b: Bytes, checked: nat, n: nat, here: Place,
                at: nat, end: nat, more: Bytes, moreErr: Option<IoError>, metadata: Option<Bytes>,
                readErr: Option<IoError>, metaErr: Option<IoError>)
    requires Midway(metaint, start, first, done, b, checked, n, here) && checked <= at < n
    requires here.mode.pos + (at - checked) == metaint && at + end > n
    requires Extracted(b, at, end, more, moreErr, here.block, metadata, metaErr)
    ensures Missing(metaint, start, first, |b|) == if at + end <= |b| then 0 else at + end - |b|
    ensures Does(metaint, Call(start, first, readErr, more, moreErr, |b|, b[..at], if metaErr.Some? then metaErr else readErr,
                               Place(InAudio(0), metadata)))
  {
    hide After, Audio, FirstBlockCut, FirstBlockWhole, BlockSize;
    CutPlaces(metaint, start, first, done, b, checked, n, here, at, more);
    assert b[at + 1..|b|] == b[at + 1..];
  }

  /** No further block is met. */
  lemma WholeCall(metaint: nat, start: Place, first: Bytes, done: nat, b: Bytes, checked: nat, n: nat, here: Place, err: Option<IoError>)
    requires Midway(metaint, start, first, done, b, checked, n, here) && here.mode.pos + (n - checked) <= metaint
    ensures Missing(metaint, start, first, |b|) == 0
    ensures Does(metaint, Call(start, first, err, [], None, |b|, b[..n], err, here.(mode := InAudio(here.mode.pos + (n - checked)))))
  {
    hide After, Audio;
    assert first == first[..done] + b[checked..n];
    AfterAppend(metaint, start, first[..done], b[checked..n]);
    AudioRun(metaint, here, b[checked..n]);
    assert first + [] == first;
    assert b[..checked] + b[checked..n] == b[..n];
  }

  method MoveDown(buf: array<Byte>, at: nat, skip: nat, ghost n: nat)
    requires at + skip <= n <= buf.Length
    modifies buf
    ensures Moved(old(buf[..]), buf[..], at, skip, n)
  {
    forall k | at <= k < buf.Length - skip { buf[k] := buf[k + skip]; }
  }

  class Stream {
    const metaint: nat
    const reader: Reader
    /** The audio bytes since the last block. */
    var pos: nat
    /** The latest block that was not empty. */
    var metadata: Option<Bytes>

    constructor (metaint: nat, reader: Reader)
      ensures this.metaint == metaint && this.reader == reader
      ensures Valid() && Where() == Place(InAudio(0), None)
    {
      this.metaint, this.reader := metaint, reader;
      pos, metadata := 0, None;
    }

    ghost predicate Valid()
      reads this
    {
      pos <= metaint
    }

    /** Where the stream believes to be. */
    function Where(): Place
      reads this
    {
      Place(InAudio(pos), metadata)
    }

    /** Reads into buf and removes the metadata blocks from what was read. */
    method Read(buf: array<Byte>) returns (n: nat, err: Option<IoError>)
      requires Valid()
      modifies this, reader, buf
      ensures Valid() && n <= buf.Length
      ensures var (first, firstErr, rest) := Delivery(old(reader.script), buf.Length);
              var (more, moreErr, left) := Filling(rest, Missing(metaint, old(Where()), first, buf.Length));
              && Does(metaint, Call(old(Where()), first, firstErr, more, moreErr, buf.Length, buf[..n], err, Where()))
              && reader.taken == old(reader.taken) + (first + more) && reader.script == left
    {
      hide Delivery, Filling, After, Audio, Step, Midway, Does, Extracted, Moved, Missing;
      ghost var start, was := Where(), reader.taken;
      n, err := reader.Read(buf, 0);
      ghost var (first, firstErr, rest) := (buf[0..n], err, reader.script);
      assert (first, firstErr, rest) == Delivery(old(reader.script), buf.Length);

      var checked: nat := 0;
      var unchecked := n;
      ghost var done: nat, cut, more, moreErr := 0, false, [], None;
      assert first <= buf[..];
      MidwayAtStart(metaint, start, first, buf[..]);
      FillingNothing(rest);
      while pos + unchecked > metaint
        invariant pos <= metaint && checked <= n <= buf.Length
        invariant reader.taken == was + (first + more)
        invariant cut ==> unchecked == 0
        invariant cut ==> Does(metaint, Call(start, first, firstErr, more, moreErr, buf.Length, buf[..][..n], err, Where()))
        invariant cut ==> (more, moreErr, reader.script) == Filling(rest, Missing(metaint, start, first, buf.Length))
        invariant !cut ==> more == [] && moreErr.None? && err == firstErr && reader.script == rest && checked + unchecked == n
        invariant !cut ==> Midway(metaint, start, first, done, buf[..], checked, n, Where())
        decreases unchecked
      {
        var offset := metaint - pos;
        ghost var b, here := buf[..], Where();
        var skip: nat, metaErr: Option<IoError>;
        skip, metaErr, more, moreErr := ExtractMetadata(buf, checked + offset);
        if metaErr.Some? {
          err := metaErr;
        }
        pos := 0;
        ExtractedFits(b, checked + offset, skip, more, moreErr, here.block, metadata, metaErr);
        if offset + skip > unchecked {
          CutCall(metaint, start, first, done, b, checked, n, here, checked + offset, skip, more, moreErr, metadata, firstErr,
                  metaErr);
          n := checked + offset;
          unchecked := 0;
          cut := true;
        } else {
          MoveDown(buf, checked + offset, skip, n);
          MidwayStep(metaint, start, first, done, b, checked, n, here, checked + offset, skip, metadata, buf[..]);
          done := done + offset + skip;
          checked := checked + offset;
          n := n - skip;
          unchecked := n - checked;
        }
      }
      pos := pos + unchecked;
      if !cut {
        WholeCall(metaint, start, first, done, buf[..], checked, n, Place(InAudio(pos - unchecked), metadata), err);
      }
      assert buf[..][..n] == buf[..n];
    }

    /** A block that the caller's buffer cannot hold, of which have is there, read on into a buffer of its own. */
    method ReadRest(have: Bytes, metaLen: nat) returns (block: Bytes, err: Option<IoError>, ghost more: Bytes)
      requires |have| < metaLen
      modifies reader
      ensures (more, err, reader.script) == Filling(old(reader.script), metaLen - |have|)
      ensures block == have + more && reader.taken == old(reader.taken) + more
    {
      hide Delivery, Filling, PartlyFilled;
      PartlyFilledAtStart(reader.script, metaLen - |have|);
      var metabuf := new Byte[metaLen](_ => 0);
      forall k | 0 <= k < |have| { metabuf[k] := have[k]; }
      var n := |have|;
      err, more := None, [];
      assert metabuf[..n] == have;
      while n < metaLen && err.None?
        invariant n <= metaLen && metabuf[..n] == have + more
        invariant reader.taken == old(reader.taken) + more
        invariant PartlyFilled(old(reader.script), metaLen - |have|, more, err, reader.script, metaLen - n)
        decreases metaLen - n, |reader.script|, if err.None? then 1 else 0
      {
        var nn: nat;
        PartlyFilledStep(old(reader.script), metaLen - |have|, more, reader.script, metaLen - n);
        ghost var had := metabuf[..n];
        nn, err := reader.Read(metabuf, n);
        ghost var got := metabuf[n..n + nn];
        assert metabuf[..n + nn] == had + got;
        more := more + got;
        n := n + nn;
      }
      FillingEnds(old(reader.script), metaLen - |have|, more, err, reader.script, metaLen - n);
      block := metabuf[..n];
    }

    /** Looks at the block at index at of buf; one that does not fit there is completed from the reader. */
    method ExtractMetadata(buf: array<Byte>, at: nat)
      returns (end: nat, err: Option<IoError>, ghost more: Bytes, ghost moreErr: Option<IoError>)
      requires at < buf.Length
      modifies this`metadata, reader
      ensures reader.taken == old(reader.taken) + more
      ensures Extracted(buf[..], at, end, more, moreErr, old(metadata), metadata, err)
      ensures (more, moreErr, reader.script) == Filling(old(reader.script), if at + end <= buf.Length then 0 else at + end - buf.Length)
    {
      hide Delivery;
      var metabuf := [];
      err := None;
      more, moreErr := [], None;
      var metaLen := BlockSize(buf[at]);
      end := metaLen + 1;
      var complete := false;
      if metaLen > 0 {
        if buf.Length - at < end {
          metabuf, err, more := ReadRest(buf[at + 1..], metaLen);
          moreErr := err;
          if |metabuf| == metaLen {
            complete := true;
          } else if err.None? || err.value == EOF {
            err := Some(UnexpectedEOF);
          }
        } else {
          metabuf := buf[at + 1..at + end];
          complete := true;
        }
      }
      if complete && metadata != Some(metabuf) {
        metadata := Some(metabuf);
      }
    }
  }

  // ----- runs of calls

  /** Successive calls on one stream, up to the first error. */
  ghost predicate IsRun(metaint: nat, calls: seq<Call>) {
    calls == [] ||
    var (before, last) := (Before(calls), Last(calls));
    && IsRun(metaint, before) && Does(metaint, last)
    && (before != [] ==> Last(before).err.None? && Last(before).after == last.before)
  }

  function Before(calls: seq<Call>): (before: seq<Call>)
    requires calls != []
    ensures |before| < |calls| && (before != [] ==> before[0] == calls[0])
  {
    calls[..|calls| - 1]
  }

  function Last(calls: seq<Call>): Call
    requires calls != []
  {
    calls[|calls| - 1]
  }

  function Taken(calls: seq<Call>): Bytes {
    if calls == [] then [] else Taken(Before(calls)) + Last(calls).Taken()
  }

  function Returned(calls: seq<Call>): Bytes {
    if calls == [] then [] else Returned(Before(calls)) + Last(calls).out
  }

  ghost predicate AllInStep(metaint: nat, calls: seq<Call>) {
    calls != [] ==> AllInStep(metaint, Before(calls)) && InStep(metaint, Last(calls).before, Last(calls).first, Last(calls).bufLen)
  }

  /** What was returned is the audio of what was taken, and the stream is where the bytes taken lead. */
  ghost predicate Faithful(metaint: nat, calls: seq<Call>)
    requires calls != []
  {
    && Returned(calls) == Audio(metaint, calls[0].before, Taken(calls))
    && Last(calls).after == After(metaint, calls[0].before, Taken(calls))
  }

  ghost predicate AlwaysFaithful(metaint: nat, calls: seq<Call>) {
    calls != [] ==> AlwaysFaithful(metaint, Before(calls)) && Faithful(metaint, calls)
  }

  lemma LastCall(metaint: nat, calls: seq<Call>)
    requires calls != [] && IsRun(metaint, calls)
    requires Before(calls) != [] ==> Faithful(metaint, Before(calls))
    ensures var c := Last(calls);
            && Returned(calls) == Audio(metaint, calls[0].before, Taken(calls))
            && (c.err.None? ==> (Faithful(metaint, calls) <==> InStep(metaint, c.before, c.first, c.bufLen)))
  {
    hide Audio, After, InStep;
    var before := Before(calls);
    AfterAppend(metaint, calls[0].before, Taken(before), Last(calls).Taken());
    if before == [] {
      FirstByte(metaint, calls[0].before, [0]);
    }
  }

  /** Over a run without an error, every call is in step exactly when after every call the bytes returned are the stream
      with every block deleted, and pos is the number of audio bytes since the last block. */
  lemma {:induction false} RunDeinterleaves(metaint: nat, calls: seq<Call>)
    requires IsRun(metaint, calls) && (calls != [] ==> Last(calls).err.None?)
    ensures AllInStep(metaint, calls) <==> AlwaysFaithful(metaint, calls)
  {
    hide InStep, Faithful, Does;
    if calls != [] {
      RunDeinterleaves(metaint, Before(calls));
      if AlwaysFaithful(metaint, Before(calls)) {
        LastCall(metaint, calls);
      }
    }
  }

  /** A run that ends with an error, too, returns the audio of what it took, when the calls before were in step. */
  lemma RunToError(metaint: nat, calls: seq<Call>)
    requires IsRun(metaint, calls) && calls != [] && AllInStep(metaint, Before(calls))
    ensures Returned(calls) == Audio(metaint, calls[0].before, Taken(calls))
  {
    hide InStep, Faithful, Does, Audio, After;
    RunDeinterleaves(metaint, Before(calls));
    LastCall(metaint, calls);
  }

  /** A read of two bytes into a buffer of 18 ends inside a block of 16. The next call returns a byte of that block. */
  method BlockReturnedAsAudio() returns (reader: Reader, out: Bytes)
    ensures fresh(reader) && reader.taken == [7, 1, 9]
    ensures out == [7, 9] && Audio(1, Place(InAudio(0), None), reader.taken) == [7]
  {
    hide After, Audio, Missing;
    reader := new Reader([Chunk([7, 1], None), Chunk([9], None)]);
    var stream := new Stream(1, reader);
    var buf := new Byte[18](_ => 0);
    ShortRead(stream.Where());
    var n, err := stream.Read(buf);
    out := buf[..n];
    assert reader.taken == [7, 1] && [7, 1] + [] == [7, 1];
    AudioRun(1, stream.Where(), [9]);
    assert Missing(1, stream.Where(), [9], 18) == 0;
    n, err := stream.Read(buf);
    out := out + buf[..n];
    assert [9] + [] == [9];
    assert reader.taken == [7, 1] + [9];
  }

  lemma ShortRead(start: Place)
    requires start.mode == InAudio(0)
    ensures Audio(1, start, [7, 1]) == [7] && After(1, start, [7, 1]) == start.(mode := InBlock([], 16))
    ensures Audio(1, start, [7, 1, 9]) == [7]
    ensures Missing(1, start, [7, 1], 18) == 0
  {
    hide After, Audio;
    var s: Bytes, t: Bytes := [1], [1, 9];
    AudioThenBlock(1, start, [7], s);
    AudioThenBlock(1, start, [7], t);
    assert [7] + s == [7, 1] && [7] + t == [7, 1, 9];
  }
}

/**
 * The time-stamp scanner shared by `parseSacle` and `#parseMaxTime` of utils/VCDParse.ts.
 * Three states over the bytes of the file: at the start of a line (`Idle`, status 0), after
 * a `#` collecting digits (`InTime`, status 1), and skipping to the end of the line
 * (`SkipLine`, status 3). A line `#<digits>\n` seen from `Idle` commits its decimal value and
 * the offset of its `#`. Any other first byte, a newline included, skips the rest of that line.
 *
 * `parseSacle` stops scanning a chunk after its first commit (its `shouldBreak`), and the
 * next chunk resumes in whatever state the scanner was left; `#parseMaxTime` scans every
 * byte and keeps the value of the last commit.
 */
module TimeIndex {

  import opened Text

  datatype Status = Idle | InTime | SkipLine

  /** The scanner's variables that survive from one byte, and one chunk, to the next. */
  datatype Scan = Scan(status: Status, timeStr: Digits, curLen: nat)

  const Start: Scan := Scan(Idle, [], 0)

  /** A committed time line: its value and the file offset of its `#`. */
  datatype Stamp = Stamp(time: nat, offset: nat)

  /** The `{ timeScale, timeIndex }` object: times and the offsets where they start. */
  datatype Scale = Scale(timeScale: seq<nat>, timeIndex: seq<nat>)

  const Empty: Scale := Scale([], [])

  /** One byte `b` at file offset `pos`; the second component is the commit, if any. */
  function Step(s: Scan, b: byte, pos: nat): (Scan, Option<Stamp>)
  {
    match s.status
    case Idle =>
      if b == HASH then (s.(status := InTime, curLen := pos), None)
      else (s.(status := SkipLine), None)
    case InTime =>
      if IsDigit(b) then (s.(timeStr := s.timeStr + [b]), None)
      else if b == NEWLINE then
        (s.(status := Idle, timeStr := []), Some(Stamp(DecimalValue(s.timeStr), s.curLen)))
      else (s.(status := SkipLine, timeStr := []), None)
    case SkipLine =>
      if b == NEWLINE then (s.(status := Idle), None) else (s, None)
  }

  function Record(sc: Scale, c: Option<Stamp>): Scale
  {
    if c.Some? then Scale(sc.timeScale + [c.value.time], sc.timeIndex + [c.value.offset]) else sc
  }

  /** The scanner run over every byte of `bytes`, the first at offset `base`, from `s`. */
  function Run(s: Scan, bytes: seq<byte>, base: nat): (Scan, Scale)
  {
    if bytes == [] then (s, Empty)
    else
      var (s', sc) := Run(s, bytes[..|bytes| - 1], base);
      var (s'', c) := Step(s', bytes[|bytes| - 1], base + |bytes| - 1);
      (s'', Record(sc, c))
  }

  // ---------------------------------------------------------------------------------------
  // parseSacle

  /** Chunk `chunk` of `parseSacle` from its byte `i`: scan until the first commit. */
  function ChunkScan(s: Scan, sc: Scale, chunk: seq<byte>, i: nat, pastLen: nat): (Scan, Scale)
    requires i <= |chunk|
    decreases |chunk| - i
  {
    if i == |chunk| then (s, sc)
    else
      var (s', c) := Step(s, chunk[i], pastLen + i);
      if c.Some? then (s', Record(sc, c)) else ChunkScan(s', sc, chunk, i + 1, pastLen)
  }

  /** The chunks from number `c` on, the first of them at offset `pastLen`. */
  function ChunksScan(s: Scan, sc: Scale, chunks: seq<seq<byte>>, c: nat, pastLen: nat): Scale
    requires c <= |chunks|
    decreases |chunks| - c
  {
    if c == |chunks| then sc
    else
      var (s', sc') := ChunkScan(s, sc, chunks[c], 0, pastLen);
      ChunksScan(s', sc', chunks, c + 1, pastLen + |chunks[c]|)
  }

  /** What `parseSacle` computes for a file delivered as `chunks`. */
  function ScaleIndex(chunks: seq<seq<byte>>): Scale
  {
    ChunksScan(Start, Empty, chunks, 0, 0)
  }

  /** The `data` handler of `parseSacle`, applied to every chunk in turn. */
  method ParseScaleStream(chunks: seq<seq<byte>>) returns (timeScale: seq<nat>, timeIndex: seq<nat>)
    ensures Scale(timeScale, timeIndex) == ScaleIndex(chunks)
  {
    timeScale, timeIndex := [], [];
    var status := Idle;
    var timeStr: Digits := [];
    var pastLen: nat, curLen: nat := 0, 0;
    for c := 0 to |chunks|
      invariant ChunksScan(Scan(status, timeStr, curLen), Scale(timeScale, timeIndex), chunks, c, pastLen)
                == ScaleIndex(chunks)
    {
      var chunk := chunks[c];
      var len := |chunk|;
      ghost var goal := ChunkScan(Scan(status, timeStr, curLen), Scale(timeScale, timeIndex), chunk, 0, pastLen);
      var shouldBreak := false;
      var i := 0;
      while i < len
        invariant i <= len
        invariant ChunkScan(Scan(status, timeStr, curLen), Scale(timeScale, timeIndex), chunk, i, pastLen) == goal
      {
        var b := chunk[i];
        match status {
          case Idle =>
            if b == HASH {
              status := InTime;
              curLen := i + pastLen;
            } else {
              status := SkipLine;
            }
          case InTime =>
            if IsDigit(b) {
              timeStr := timeStr + [b];
            } else if b == NEWLINE {
              timeScale := timeScale + [DecimalValue(timeStr)];
              timeIndex := timeIndex + [curLen];
              timeStr := [];
              status := Idle;
              shouldBreak := true;
            } else {
              status := SkipLine;
              timeStr := [];
            }
          case SkipLine =>
            if b == NEWLINE {
              status := Idle;
            }
        }
        if shouldBreak {
          break;
        }
        i := i + 1;
      }
      pastLen := pastLen + len;
    }
  }

  // ---------------------------------------------------------------------------------------
  // What the index holds

  /** A line `#<digits>\n` of `f` whose `#` is at `p` and whose value is `t`. */
  ghost predicate TimeLineAt(f: seq<byte>, p: nat, t: nat)
  {
    exists e :: p < e < |f| && f[p] == HASH && f[e] == NEWLINE && AllDigits(f[p + 1..e]) &&
                t == DecimalValue(f[p + 1..e])
  }

  predicate Increasing(s: seq<nat>)
  {
    forall i, j :: 0 <= i < j < |s| ==> s[i] < s[j]
  }

  /** The shape every cached index has: one offset per time, offsets strictly increasing. */
  predicate WellFormed(sc: Scale)
  {
    |sc.timeScale| == |sc.timeIndex| && Increasing(sc.timeIndex)
  }

  /** Every entry of `sc` is a time line of `f` at its recorded offset. */
  ghost predicate Sound(f: seq<byte>, sc: Scale)
  {
    WellFormed(sc) &&
    forall k :: 0 <= k < |sc.timeIndex| ==> TimeLineAt(f, sc.timeIndex[k], sc.timeScale[k])
  }

  /**
   * The scanner has consumed `f[..pos]`: its entries are sound and lie below `bound`, and a
   * time line in progress started at or after `bound` and has read `timeStr` so far.
   */
  ghost predicate Scanned(f: seq<byte>, s: Scan, sc: Scale, pos: nat, bound: nat)
  {
    pos <= |f| && bound <= pos && Sound(f, sc) &&
    (forall k :: 0 <= k < |sc.timeIndex| ==> sc.timeIndex[k] < bound) &&
    (s.status != InTime ==> s.timeStr == []) &&
    (s.status == InTime ==> bound <= s.curLen < pos && f[s.curLen] == HASH && f[s.curLen + 1..pos] == s.timeStr)
  }

  lemma {:induction false} StepScanned(f: seq<byte>, s: Scan, sc: Scale, pos: nat, bound: nat)
    requires Scanned(f, s, sc, pos, bound) && pos < |f|
    ensures var (s', c) := Step(s, f[pos], pos);
      (c.None? ==> Scanned(f, s', sc, pos + 1, bound)) &&
      (c.Some? ==> bound <= c.value.offset == s.curLen < pos &&
                   Scanned(f, s', Record(sc, c), pos + 1, c.value.offset + 1))
  {
    var (s', c) := Step(s, f[pos], pos);
    if s.status == InTime {
      assert f[s.curLen + 1..pos + 1] == s.timeStr + [f[pos]];
      if c.Some? {
        assert TimeLineAt(f, s.curLen, c.value.time) by {
          assert pos < |f| && f[pos] == NEWLINE && f[s.curLen + 1..pos] == s.timeStr;
        }
        var sc' := Record(sc, c);
        forall k | 0 <= k < |sc'.timeIndex|
          ensures TimeLineAt(f, sc'.timeIndex[k], sc'.timeScale[k]) && sc'.timeIndex[k] < s.curLen + 1
        {
          if k < |sc.timeIndex| {
            assert sc'.timeIndex[k] == sc.timeIndex[k] && sc'.timeScale[k] == sc.timeScale[k];
          }
        }
      }
    }
  }

  /** Some chunk of the stream starts after offset `lo` and no later than offset `hi`. */
  ghost predicate BoundaryBetween(chunks: seq<seq<byte>>, lo: nat, hi: nat)
  {
    exists c :: 0 <= c <= |chunks| && lo < |Concat(chunks[..c])| <= hi
  }

  /** Consecutive index entries lie in different chunks. */
  ghost predicate Separated(offsets: seq<nat>, chunks: seq<seq<byte>>)
  {
    forall k :: 0 <= k < |offsets| - 1 ==> BoundaryBetween(chunks, offsets[k], offsets[k + 1])
  }

  lemma {:induction false} SeparatedExtend(offsets: seq<nat>, chunks: seq<seq<byte>>, cb: nat, o: nat)
    requires Separated(offsets, chunks) && cb <= |chunks|
    requires forall k :: 0 <= k < |offsets| ==> offsets[k] < |Concat(chunks[..cb])|
    requires |Concat(chunks[..cb])| <= o
    ensures Separated(offsets + [o], chunks)
  {
    var r := offsets + [o];
    forall k | 0 <= k < |r| - 1
      ensures BoundaryBetween(chunks, r[k], r[k + 1])
    {
      if k < |offsets| - 1 {
        assert r[k] == offsets[k] && r[k + 1] == offsets[k + 1];
      } else {
        assert r[k] == offsets[k] < |Concat(chunks[..cb])| <= r[k + 1];
      }
    }
  }

  lemma {:induction false} ChunkInStream(chunks: seq<seq<byte>>, c: nat)
    requires c < |chunks|
    ensures |Concat(chunks[..c + 1])| == |Concat(chunks[..c])| + |chunks[c]| <= |Concat(chunks)|
    ensures forall i :: 0 <= i < |chunks[c]| ==> Concat(chunks)[|Concat(chunks[..c])| + i] == chunks[c][i]
  {
    ConcatSnoc(chunks, c);
    ConcatPrefix(chunks, c + 1);
  }

  /** Chunk `c` is the stretch of the stream that follows the chunks before it. */
  lemma ChunkSlice(chunks: seq<seq<byte>>, c: nat)
    requires c < |chunks|
    ensures var past := |Concat(chunks[..c])|;
      past + |chunks[c]| == |Concat(chunks[..c + 1])| <= |Concat(chunks)| &&
      chunks[c] == Concat(chunks)[past..past + |chunks[c]|]
  {
    ChunkInStream(chunks, c);
  }

  /** After a commit the scanner holds no line, so skipping ahead keeps it `Scanned`. */
  lemma ScannedSkip(f: seq<byte>, s: Scan, sc: Scale, pos: nat, bound: nat, pos': nat)
    requires Scanned(f, s, sc, pos, bound) && s.status != InTime && pos <= pos' <= |f|
    ensures Scanned(f, s, sc, pos', bound)
  {
  }

  /**
   * How a chunk scan ends: with no commit, or with one commit (at or after `bound`), after
   * which the rest of the chunk is left unread.
   */
  ghost predicate ChunkOutcome(f: seq<byte>, s': Scan, sc: Scale, sc': Scale, end: nat, bound: nat)
  {
    (sc' == sc && Scanned(f, s', sc', end, bound)) ||
    (|sc'.timeIndex| == |sc.timeIndex| + 1 && sc'.timeIndex[..|sc.timeIndex|] == sc.timeIndex &&
     bound <= sc'.timeIndex[|sc.timeIndex|] && Scanned(f, s', sc', end, end))
  }

  /** A commit ends the chunk: the scanner, holding no line, skips to the chunk's end. */
  lemma CommitOutcome(f: seq<byte>, s': Scan, sc: Scale, cm: Option<Stamp>, pos: nat, end: nat, bound: nat)
    requires cm.Some? && bound <= cm.value.offset && pos <= end <= |f|
    requires Scanned(f, s', Record(sc, cm), pos, cm.value.offset + 1)
    requires s'.status != InTime
    ensures ChunkOutcome(f, s', sc, Record(sc, cm), end, bound)
  {
    var sc' := Record(sc, cm);
    assert sc'.timeIndex[..|sc.timeIndex|] == sc.timeIndex;
    ScannedSkip(f, s', sc', pos, cm.value.offset + 1, end);
  }

  /** Byte `i` of a chunk: the scan goes on, or the commit ends the chunk. */
  lemma ChunkByte(f: seq<byte>, chunk: seq<byte>, past: nat, s: Scan, sc: Scale, i: nat, bound: nat)
    requires past + |chunk| <= |f| && chunk == f[past..past + |chunk|] && i < |chunk|
    requires Scanned(f, s, sc, past + i, bound)
    ensures var (s', cm) := Step(s, chunk[i], past + i);
      (cm.None? ==> Scanned(f, s', sc, past + i + 1, bound)) &&
      (cm.Some? ==> ChunkOutcome(f, s', sc, Record(sc, cm), past + |chunk|, bound))
  {
    assert f[past + i] == chunk[i];
    StepScanned(f, s, sc, past + i, bound);
    var (s', cm) := Step(s, chunk[i], past + i);
    if cm.Some? {
      CommitOutcome(f, s', sc, cm, past + i + 1, past + |chunk|, bound);
    }
  }

  /** A chunk `f[past..past + |chunk|]` scanned from its byte `i`. */
  lemma {:induction false} ScanChunk(f: seq<byte>, chunk: seq<byte>, past: nat, s: Scan, sc: Scale, i: nat, bound: nat)
    requires past + |chunk| <= |f| && chunk == f[past..past + |chunk|] && i <= |chunk|
    requires Scanned(f, s, sc, past + i, bound)
    ensures var r := ChunkScan(s, sc, chunk, i, past); ChunkOutcome(f, r.0, sc, r.1, past + |chunk|, bound)
    decreases |chunk| - i
  {
    if i < |chunk| {
      ChunkByte(f, chunk, past, s, sc, i, bound);
      var (s', cm) := Step(s, chunk[i], past + i);
      if cm.Some? {
        assert ChunkScan(s, sc, chunk, i, past) == (s', Record(sc, cm));
      } else {
        assert ChunkScan(s, sc, chunk, i, past) == ChunkScan(s', sc, chunk, i + 1, past);
        ScanChunk(f, chunk, past, s', sc, i + 1, bound);
      }
    }
  }

  /** One chunk of the stream: it commits nothing, or one entry that a chunk boundary separates from the last. */
  lemma ChunkScanStep(chunks: seq<seq<byte>>, c: nat, s: Scan, sc: Scale, cb: nat)
    requires c < |chunks| && cb <= c && |sc.timeIndex| <= c
    requires Scanned(Concat(chunks), s, sc, |Concat(chunks[..c])|, |Concat(chunks[..cb])|)
    requires Separated(sc.timeIndex, chunks)
    ensures var r := ChunkScan(s, sc, chunks[c], 0, |Concat(chunks[..c])|);
      var next := |Concat(chunks[..c + 1])|;
      (r.1 == sc && Scanned(Concat(chunks), r.0, r.1, next, |Concat(chunks[..cb])|)) ||
      (Scanned(Concat(chunks), r.0, r.1, next, next) && Separated(r.1.timeIndex, chunks) && |r.1.timeIndex| <= c + 1)
  {
    var f, past, bound := Concat(chunks), |Concat(chunks[..c])|, |Concat(chunks[..cb])|;
    ChunkSlice(chunks, c);
    ScanChunk(f, chunks[c], past, s, sc, 0, bound);
    var r := ChunkScan(s, sc, chunks[c], 0, past);
    if r.1 != sc {
      var o := r.1.timeIndex[|sc.timeIndex|];
      assert r.1.timeIndex == sc.timeIndex + [o];
      SeparatedExtend(sc.timeIndex, chunks, cb, o);
    }
  }

  lemma {:induction false} ChunksScanSound(chunks: seq<seq<byte>>, c: nat, s: Scan, sc: Scale, cb: nat)
    requires c <= |chunks| && cb <= c && |sc.timeIndex| <= c
    requires Scanned(Concat(chunks), s, sc, |Concat(chunks[..c])|, |Concat(chunks[..cb])|)
    requires Separated(sc.timeIndex, chunks)
    ensures var r := ChunksScan(s, sc, chunks, c, |Concat(chunks[..c])|);
      Sound(Concat(chunks), r) && Separated(r.timeIndex, chunks) && |r.timeIndex| <= |chunks|
    decreases |chunks| - c
  {
    if c < |chunks| {
      var past := |Concat(chunks[..c])|;
      ChunkScanStep(chunks, c, s, sc, cb);
      ChunkSlice(chunks, c);
      var r := ChunkScan(s, sc, chunks[c], 0, past);
      assert ChunksScan(s, sc, chunks, c, past) == ChunksScan(r.0, r.1, chunks, c + 1, past + |chunks[c]|);
      if r.1 == sc {
        ChunksScanSound(chunks, c + 1, r.0, r.1, cb);
      } else {
        ChunksScanSound(chunks, c + 1, r.0, r.1, c + 1);
      }
    }
  }

  /**
   * Every entry of the index is a line `#<digits>\n` of the file, at its recorded offset and
   * with its decimal value; offsets strictly increase; a chunk boundary separates any two
   * consecutive entries, so there are at most as many entries as chunks.
   */
  lemma {:induction false} ScaleIndexSound(chunks: seq<seq<byte>>)
    ensures var sc := ScaleIndex(chunks);
      Sound(Concat(chunks), sc) && Separated(sc.timeIndex, chunks) && |sc.timeIndex| <= |chunks|
  {
    assert chunks[..0] == [];
    ChunksScanSound(chunks, 0, Start, Empty, 0);
  }

  /** A file split after the digit-less line `#5\n1` resumes mid-line and indexes `#\n` as time 0. */
  lemma ChunkingMatters()
    ensures ScaleIndex([[35, 53, 10, 49, 35, 10]]) == Scale([5], [0])
    ensures ScaleIndex([[35, 53, 10, 49], [35, 10]]) == Scale([5, 0], [0, 4])
  {
    var one: seq<byte> := [35, 53, 10, 49, 35, 10];
    assert DecimalValue([53]) == 5 by {
      assert [53][..0] == [];
    }
    var done := (Scan(Idle, [], 0), Scale([5], [0]));
    assert one[2] == NEWLINE;
    assert Step(Scan(InTime, [53], 0), NEWLINE, 2) == (Scan(Idle, [], 0), Some(Stamp(5, 0)));
    assert Record(Empty, Some(Stamp(5, 0))) == Scale([5], [0]);
    assert ChunkScan(Scan(InTime, [53], 0), Empty, one, 2, 0) == done;
    assert ChunkScan(Scan(InTime, [], 0), Empty, one, 1, 0) == done;
    assert ChunkScan(Start, Empty, one, 0, 0) == done;
  }

  // ---------------------------------------------------------------------------------------
  // #parseMaxTime

  /** The value of the last time line the scanner commits over `bytes`, or 0 when there is none. */
  function MaxTimeOf(bytes: seq<byte>): nat
  {
    var sc := Run(Start, bytes, 0).1;
    if sc.timeScale == [] then 0 else sc.timeScale[|sc.timeScale| - 1]
  }

  /** One more byte: the scanner steps, and a commit replaces the maximum time. */
  lemma {:induction false} MaxTimeSnoc(bytes: seq<byte>, b: byte)
    ensures var (s', c) := Step(Run(Start, bytes, 0).0, b, |bytes|);
      Run(Start, bytes + [b], 0).0 == s' &&
      MaxTimeOf(bytes + [b]) == if c.Some? then c.value.time else MaxTimeOf(bytes)
  {
    assert (bytes + [b])[..|bytes|] == bytes && (bytes + [b])[|bytes|] == b;
  }

  /** The `data` handler of `#parseMaxTime`, applied to every chunk in turn. */
  method ParseMaxTimeStream(chunks: seq<seq<byte>>) returns (maxTime: nat)
    ensures maxTime == MaxTimeOf(Concat(chunks))
  {
    var status := Idle;
    var timeStr: Digits := [];
    maxTime := 0;
    for c := 0 to |chunks|
      invariant Run(Start, Concat(chunks[..c]), 0).0.status == status
      invariant Run(Start, Concat(chunks[..c]), 0).0.timeStr == timeStr
      invariant maxTime == MaxTimeOf(Concat(chunks[..c]))
    {
      ghost var done := Concat(chunks[..c]);
      var chunk := chunks[c];
      assert done + chunk[..0] == done;
      for i := 0 to |chunk|
        invariant Run(Start, done + chunk[..i], 0).0.status == status
        invariant Run(Start, done + chunk[..i], 0).0.timeStr == timeStr
        invariant maxTime == MaxTimeOf(done + chunk[..i])
      {
        var b := chunk[i];
        assert done + chunk[..i + 1] == (done + chunk[..i]) + [b];
        MaxTimeSnoc(done + chunk[..i], b);
        if status == Idle {
          status := if b == HASH then InTime else SkipLine;
        } else if status == InTime {
          if IsDigit(b) {
            timeStr := timeStr + [b];
          } else if b == NEWLINE {
            maxTime := DecimalValue(timeStr);
            timeStr := [];
            status := Idle;
          } else {
            status := SkipLine;
            timeStr := [];
          }
        } else if b == NEWLINE {
          status := Idle;
        }
      }
      ConcatSnoc(chunks, c);
      assert chunk[..|chunk|] == chunk;
    }
    assert chunks[..|chunks|] == chunks;
  }

  predicate AtLineStart(f: seq<byte>, p: nat)
    requires p <= |f|
  {
    p == 0 || f[p - 1] == NEWLINE
  }

  /** The scanner started at the beginning of `f`: `Idle` only at line starts, so commits too. */
  ghost predicate Lined(f: seq<byte>, s: Scan, sc: Scale, pos: nat)
    requires pos <= |f|
  {
    (s.status == Idle ==> AtLineStart(f, pos)) &&
    (s.status == InTime ==> s.curLen <= |f| && AtLineStart(f, s.curLen)) &&
    forall k :: 0 <= k < |sc.timeIndex| ==> sc.timeIndex[k] <= |f| && AtLineStart(f, sc.timeIndex[k])
  }

  function Next(sc: Scale): nat
  {
    if sc.timeIndex == [] then 0 else sc.timeIndex[|sc.timeIndex| - 1] + 1
  }

  lemma {:induction false} StepLined(f: seq<byte>, s: Scan, sc: Scale, pos: nat)
    requires pos < |f| && Lined(f, s, sc, pos)
    ensures var (s', c) := Step(s, f[pos], pos); Lined(f, s', Record(sc, c), pos + 1)
  {
    var (s', c) := Step(s, f[pos], pos);
    var sc' := Record(sc, c);
    forall k | 0 <= k < |sc'.timeIndex|
      ensures sc'.timeIndex[k] <= |f| && AtLineStart(f, sc'.timeIndex[k])
    {
      if k < |sc.timeIndex| {
        assert sc'.timeIndex[k] == sc.timeIndex[k];
      } else {
        assert sc'.timeIndex[k] == s.curLen;
      }
    }
  }

  /** The scanner, run from the start of `f` over its first `m` bytes, stays `Scanned`. */
  lemma {:induction false} RunScanned(f: seq<byte>, m: nat)
    requires m <= |f|
    ensures Scanned(f, Run(Start, f[..m], 0).0, Run(Start, f[..m], 0).1, m, Next(Run(Start, f[..m], 0).1))
  {
    if m > 0 {
      RunScanned(f, m - 1);
      assert f[..m][..m - 1] == f[..m - 1] && f[..m][m - 1] == f[m - 1];
      var sc := Run(Start, f[..m - 1], 0).1;
      var s := Run(Start, f[..m - 1], 0).0;
      var (s', c) := Step(s, f[m - 1], m - 1);
      assert Run(Start, f[..m], 0) == (s', Record(sc, c));
      StepScanned(f, s, sc, m - 1, Next(sc));
      if c.Some? {
        assert Next(Record(sc, c)) == c.value.offset + 1;
      }
    } else {
      assert f[..0] == [];
    }
  }

  /** ... and `Lined`. */
  lemma {:induction false} RunLined(f: seq<byte>, m: nat)
    requires m <= |f|
    ensures Lined(f, Run(Start, f[..m], 0).0, Run(Start, f[..m], 0).1, m)
  {
    if m > 0 {
      RunLined(f, m - 1);
      assert f[..m][..m - 1] == f[..m - 1] && f[..m][m - 1] == f[m - 1];
      var sc := Run(Start, f[..m - 1], 0).1;
      var s := Run(Start, f[..m - 1], 0).0;
      var (s', c) := Step(s, f[m - 1], m - 1);
      assert Run(Start, f[..m], 0) == (s', Record(sc, c));
      StepLined(f, s, sc, m - 1);
    } else {
      assert f[..0] == [];
    }
  }

  /**
   * `#parseMaxTime` reports 0 when the scanner commits nothing; otherwise the value of a time
   * line `#<digits>\n` that starts a line, the one with the greatest offset the scanner commits.
   */
  lemma {:induction false} MaxTimeSound(f: seq<byte>)
    ensures var sc := Run(Start, f, 0).1;
      WellFormed(sc) &&
      (sc.timeIndex == [] ==> MaxTimeOf(f) == 0) &&
      (sc.timeIndex != [] ==>
        var last := sc.timeIndex[|sc.timeIndex| - 1];
        TimeLineAt(f, last, MaxTimeOf(f)) && AtLineStart(f, last) &&
        forall k :: 0 <= k < |sc.timeIndex| - 1 ==> sc.timeIndex[k] < last)
  {
    RunScanned(f, |f|);
    RunLined(f, |f|);
    assert f[..|f|] == f;
  }

  lemma {:induction false} DigitsAccumulate(s: Scan, ds: Digits, base: nat)
    requires s.status == InTime
    ensures Run(s, ds, base) == (s.(timeStr := s.timeStr + ds), Empty)
  {
    if ds != [] {
      var n := |ds| - 1;
      DigitsAccumulate(s, ds[..n], base);
      assert s.timeStr + ds[..n] + [ds[n]] == s.timeStr + ds;
    } else {
      assert s.timeStr + ds == s.timeStr;
    }
  }

  function Join(a: Scale, b: Scale): Scale
  {
    Scale(a.timeScale + b.timeScale, a.timeIndex + b.timeIndex)
  }

  /** Scanning `a + b` is scanning `a`, then `b` from where `a` left the scanner. */
  lemma {:induction false} RunAppend(s: Scan, a: seq<byte>, b: seq<byte>, base: nat)
    ensures var (sa, sca) := Run(s, a, base);
      var (sb, scb) := Run(sa, b, base + |a|);
      Run(s, a + b, base) == (sb, Join(sca, scb))
  {
    var (sa, sca) := Run(s, a, base);
    if b == [] {
      assert a + b == a;
      assert Join(sca, Empty) == sca;
    } else {
      var n := |b| - 1;
      RunAppend(s, a, b[..n], base);
      assert (a + b)[..|a + b| - 1] == a + b[..n];
      var (sn, scn) := Run(sa, b[..n], base + |a|);
      var (sb, c) := Step(sn, b[n], base + |a| + n);
      assert Record(Join(sca, scn), c) == Join(sca, Record(scn, c));
    }
  }

  /**
   * A line `#<digits>\n` read at a line start commits its decimal value (0 for `#\n`) and the
   * offset of its `#`, and leaves the scanner at the next line start.
   */
  lemma {:induction false} TimeLineCommits(s: Scan, ds: Digits, base: nat)
    requires s.status == Idle && s.timeStr == []
    ensures Run(s, [HASH] + ds + [NEWLINE], base) == (Scan(Idle, [], base), Scale([DecimalValue(ds)], [base]))
  {
    HashDigits(s, ds, base);
    RunSnoc(s, [HASH] + ds, NEWLINE, base);
    assert Step(Scan(InTime, ds, base), NEWLINE, base + |ds| + 1) ==
           (Scan(Idle, [], base), Some(Stamp(DecimalValue(ds), base)));
    assert Record(Empty, Some(Stamp(DecimalValue(ds), base))) == Scale([DecimalValue(ds)], [base]);
  }

  /** A `#` at a line start, then digits: the scanner holds the digits and has committed nothing. */
  lemma HashDigits(s: Scan, ds: Digits, base: nat)
    requires s.status == Idle && s.timeStr == []
    ensures Run(s, [HASH] + ds, base) == (Scan(InTime, ds, base), Empty)
  {
    var s1 := Scan(InTime, [], base);
    assert Run(s, [HASH], base) == (s1, Empty) by {
      assert [HASH][..0] == [];
    }
    DigitsAccumulate(s1, ds, base + 1);
    RunAppend(s, [HASH], ds, base);
    assert [] + ds == ds;
    assert Join(Empty, Empty) == Empty;
  }

  lemma RunSnoc(s: Scan, a: seq<byte>, b: byte, base: nat)
    ensures var (s', sc) := Run(s, a, base);
      var (s'', c) := Step(s', b, base + |a|);
      Run(s, a + [b], base) == (s'', Record(sc, c))
  {
    assert (a + [b])[..|a|] == a;
  }

  /** Outside a time line the scanner holds no digits. */
  lemma {:induction false} RunClean(bytes: seq<byte>)
    ensures Run(Start, bytes, 0).0.status != InTime ==> Run(Start, bytes, 0).0.timeStr == []
  {
    if bytes != [] {
      RunClean(bytes[..|bytes| - 1]);
    }
  }

  /** A time line that follows a line end makes its value the reported maximum time. */
  lemma {:induction false} MaxTimeOfTimeLine(prefix: seq<byte>, ds: Digits)
    requires Run(Start, prefix, 0).0.status == Idle
    ensures MaxTimeOf(prefix + [HASH] + ds + [NEWLINE]) == DecimalValue(ds)
  {
    RunClean(prefix);
    var (s, sc) := Run(Start, prefix, 0);
    var line := [HASH] + ds + [NEWLINE];
    TimeLineCommits(s, ds, |prefix|);
    RunAppend(Start, prefix, line, 0);
    assert prefix + line == prefix + [HASH] + ds + [NEWLINE];
    assert Run(Start, prefix + line, 0).1 == Join(sc, Scale([DecimalValue(ds)], [|prefix|]));
  }

  /** The first entry of a scale, or none. */
  function First(sc: Scale): Scale
  {
    if sc.timeScale == [] || sc.timeIndex == [] then Empty else Scale([sc.timeScale[0]], [sc.timeIndex[0]])
  }

  lemma {:induction false} ChunkScanFirst(chunk: seq<byte>, i: nat)
    requires i <= |chunk| && Run(Start, chunk[..i], 0).1 == Empty
    ensures ChunkScan(Run(Start, chunk[..i], 0).0, Empty, chunk, i, 0).1 == First(Run(Start, chunk, 0).1)
    decreases |chunk| - i
  {
    if i == |chunk| {
      assert chunk[..i] == chunk;
    } else {
      var s := Run(Start, chunk[..i], 0).0;
      var (s', c) := Step(s, chunk[i], i);
      assert chunk[..i + 1][..i] == chunk[..i];
      assert Run(Start, chunk[..i + 1], 0) == (s', Record(Empty, c));
      if c.Some? {
        RunAppend(Start, chunk[..i + 1], chunk[i + 1..], 0);
        assert chunk[..i + 1] + chunk[i + 1..] == chunk;
      } else {
        ChunkScanFirst(chunk, i + 1);
      }
    }
  }

  /**
   * A file read in a single chunk gets at most one index entry: the first time line the
   * scanner of `#parseMaxTime` commits over the same bytes.
   */
  lemma {:induction false} OneChunkIndexesFirst(chunk: seq<byte>)
    ensures ScaleIndex([chunk]) == First(Run(Start, chunk, 0).1)
  {
    assert chunk[..0] == [];
    ChunkScanFirst(chunk, 0);
    var (s', sc') := ChunkScan(Start, Empty, chunk, 0, 0);
    assert ScaleIndex([chunk]) == ChunksScan(s', sc', [chunk], 1, |chunk|);
  }
}

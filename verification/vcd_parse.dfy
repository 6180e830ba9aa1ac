/**
 * The `VCDParse` class of utils/VCDParse.ts: one VCD file, its contents read as streams of
 * chunks, and the Redis store in which the time index of a file is kept under the file's
 * path. Each public operation opens a read stream over (a window of) the file and runs one
 * of the parsers over the chunks it delivers.
 */
module VcdParse {

  import opened Text
  import Search
  import Trie
  import TimeIndex
  import History
  import Snapshot
  import Header

  /** `highWaterMark: 256 * 1024`, the chunk size of the scale, signal and max-time streams. */
  const LARGE_CHUNK: nat := 262144

  /** Node's default `highWaterMark` for a file read stream, used by the header and window streams. */
  const DEFAULT_CHUNK: nat := 65536

  /**
   * `scale.timeIndex[0]` as a stream start: an absent entry is `undefined`, which reads from 0.
   * On a well-formed scale it is the least offset of the index.
   */
  function FirstOffset(sc: TimeIndex.Scale): (o: nat)
    ensures sc.timeIndex == [] ==> o == 0
    ensures TimeIndex.WellFormed(sc) ==> forall k :: 0 <= k < |sc.timeIndex| ==> o <= sc.timeIndex[k]
  {
    if sc.timeIndex == [] then 0 else sc.timeIndex[0]
  }

  /**
   * `scale.timeIndex[scale.timeScale.length - 1]` as a stream start, 0 when there is no such
   * entry. On a well-formed scale it is the last entry of the index, and the greatest.
   */
  function LastOffset(sc: TimeIndex.Scale): (o: nat)
    ensures |sc.timeScale| == 0 ==> o == 0
    ensures TimeIndex.WellFormed(sc) && sc.timeIndex != [] ==>
      o == sc.timeIndex[|sc.timeIndex| - 1] &&
      forall k :: 0 <= k < |sc.timeIndex| ==> sc.timeIndex[k] <= o
  {
    if 1 <= |sc.timeScale| <= |sc.timeIndex| then sc.timeIndex[|sc.timeScale| - 1] else 0
  }

  /**
   * The window stream of `parseSignals`: every chunk, decoded, goes through `#parseSignals`
   * with one `signalsObj`. The outcome is that of the whole window read at once.
   */
  method ReadWindow(bytes: seq<byte>) returns (timeData: Snapshot.TimeData)
    ensures timeData == Snapshot.Feed(Snapshot.Fresh, Decode(bytes)).timeData
  {
    var chunks := SplitChunks(bytes, DEFAULT_CHUNK);
    var signalsObj := new Snapshot.SignalsObj();
    for c := 0 to |chunks|
      invariant signalsObj.Valid()
      invariant signalsObj.Value() == Snapshot.Feed(Snapshot.Fresh, Decode(Concat(chunks[..c])))
    {
      ghost var before := Concat(chunks[..c]);
      signalsObj.ParseSignals(Decode(chunks[c]));
      ConcatSnoc(chunks, c);
      DecodeAppend(before, chunks[c]);
      Snapshot.FeedAppend(Snapshot.Fresh, Decode(before), Decode(chunks[c]));
    }
    assert chunks[..|chunks|] == chunks;
    timeData := signalsObj.timeData;
  }

  /** The header after the first `c` chunks, or `None` once one of them has thrown. */
  function HeaderSoFar(chunks: seq<seq<byte>>, c: nat): Option<Header.HeaderState>
    requires c <= |chunks|
  {
    Header.Feed(Header.Initial, Decode(Concat(chunks[..c])))
  }

  /** One more chunk continues from the header so far. */
  lemma HeaderNextChunk(chunks: seq<seq<byte>>, c: nat, h: Header.HeaderState)
    requires c < |chunks| && HeaderSoFar(chunks, c) == Some(h)
    ensures HeaderSoFar(chunks, c + 1) == Header.Feed(h, Decode(chunks[c]))
  {
    ConcatSnoc(chunks, c);
    DecodeAppend(Concat(chunks[..c]), chunks[c]);
    Header.FeedAppend(Header.Initial, Decode(Concat(chunks[..c])), Decode(chunks[c]));
  }

  /** Once a chunk has thrown, the whole stream throws. */
  lemma HeaderThrowStops(chunks: seq<seq<byte>>, c: nat)
    requires c <= |chunks| && HeaderSoFar(chunks, c) == None
    ensures Header.Feed(Header.Initial, Decode(Concat(chunks))) == None
  {
    ConcatPrefix(chunks, c);
    DecodeAppend(Concat(chunks[..c]), Concat(chunks[c..]));
    Header.FeedAppend(Header.Initial, Decode(Concat(chunks[..c])), Decode(Concat(chunks[c..])));
  }

  /** Once the header has closed, the chunks the closed stream no longer delivers change nothing. */
  lemma HeaderCloseStops(chunks: seq<seq<byte>>, c: nat)
    requires c <= |chunks| && HeaderSoFar(chunks, c).Some? && HeaderSoFar(chunks, c).value.headerClose
    ensures Header.Feed(Header.Initial, Decode(Concat(chunks))) == HeaderSoFar(chunks, c)
  {
    var text := Decode(Concat(chunks[..c]));
    Header.FeedKeepsCloseHonest(Header.Initial, text);
    ConcatPrefix(chunks, c);
    DecodeAppend(Concat(chunks[..c]), Concat(chunks[c..]));
    Header.EarlyCloseHarmless(Header.Initial, text, Decode(Concat(chunks[c..])));
  }

  /**
   * The header stream of `parseHeader`: every chunk goes through `#parseHeader`, and the
   * stream is closed after the chunk that sets `headerClose`. `ok` is false where a chunk
   * throws. The outcome is that of the whole file read at once.
   */
  method ReadHeader(file: seq<byte>) returns (ok: bool, header: Header.HeaderState)
    ensures ok <==> Header.Feed(Header.Initial, Decode(file)).Some?
    ensures ok ==> header == Header.Feed(Header.Initial, Decode(file)).value
  {
    var chunks := SplitChunks(file, DEFAULT_CHUNK);
    var headerObj := new Header.HeaderObj();
    var c := 0;
    while c < |chunks|
      invariant c <= |chunks|
      invariant HeaderSoFar(chunks, c) == Some(headerObj.Value())
      invariant c < |chunks| ==> !headerObj.headerClose
    {
      ghost var h := headerObj.Value();
      var fed := headerObj.ParseHeader(Decode(chunks[c]));
      HeaderNextChunk(chunks, c, h);
      if !fed {
        HeaderThrowStops(chunks, c + 1);
        return false, headerObj.Value();
      }
      c := c + 1;
      if headerObj.headerClose {
        HeaderCloseStops(chunks, c);
        break;
      }
    }
    if c == |chunks| {
      assert chunks[..c] == chunks;
    }
    ok, header := true, headerObj.Value();
  }

  class VcdParse {
    /** `this.path` */
    const path: string
    /** The contents of the file at `path`, which the streams read. */
    const file: seq<byte>
    /** The Redis store: a scale stored as JSON under each path. */
    var cache: map<string, TimeIndex.Scale>

    constructor (path: string, file: seq<byte>, store: map<string, TimeIndex.Scale>)
      ensures this.path == path && this.file == file && cache == store
    {
      this.path, this.file, cache := path, file, store;
    }

    /** The scale of a full scan of the file, chunk by chunk. */
    function Scanned(): TimeIndex.Scale
      reads this
    {
      TimeIndex.ScaleIndex(SplitChunks(file, LARGE_CHUNK))
    }

    /** The first and last offsets of a scan are `#` bytes of the file: each starts a time line. */
    lemma ScannedOffsetsAreTimeLines()
      ensures var sc := Scanned();
        sc.timeIndex != [] ==>
          FirstOffset(sc) < |file| && file[FirstOffset(sc)] == HASH &&
          LastOffset(sc) < |file| && file[LastOffset(sc)] == HASH
    {
      var sc := Scanned();
      TimeIndex.ScaleIndexSound(SplitChunks(file, LARGE_CHUNK));
      if sc.timeIndex != [] {
        var n := |sc.timeIndex| - 1;
        assert TimeIndex.TimeLineAt(file, sc.timeIndex[0], sc.timeScale[0]);
        assert TimeIndex.TimeLineAt(file, sc.timeIndex[n], sc.timeScale[n]);
      }
    }

    /** The scale `parseSacle` answers: the stored one, or a fresh scan. */
    function CurrentScale(): TimeIndex.Scale
      reads this
    {
      if path in cache then cache[path] else Scanned()
    }

    /** The store holds, for this path, nothing or exactly what a scan of the file gives. */
    predicate Coherent()
      reads this
    {
      path in cache ==> cache[path] == Scanned()
    }

    /**
     * `parseSacle`: a stored scale is returned as it is, without reading the file; otherwise
     * the file is scanned and the scale returned is the one stored under the path.
     */
    method ParseScale() returns (scale: TimeIndex.Scale)
      modifies this
      ensures old(path in cache) ==> scale == old(cache[path]) && cache == old(cache)
      ensures old(path !in cache) ==> scale == Scanned() && cache == old(cache)[path := scale]
      ensures scale == old(CurrentScale()) && path in cache && cache[path] == scale
      ensures old(Coherent()) ==> Coherent() && scale == Scanned()
    {
      if path in cache {
        return cache[path];
      }
      var timeScale, timeIndex := TimeIndex.ParseScaleStream(SplitChunks(file, LARGE_CHUNK));
      scale := TimeIndex.Scale(timeScale, timeIndex);
      cache := cache[path := scale];
    }

    /**
     * `parseSignal(signal)`: the history of the requested codes, read from the first indexed
     * time line (or from the start of the file) to the end.
     */
    method ParseSignal(signal: seq<string>) returns (signalHash: History.SignalHash)
      requires forall c :: c in signal ==> Trie.StorableCode(c)
      modifies this
      ensures signalHash == History.Extract(signal, ReadFrom(FirstOffset(old(CurrentScale()))))
      ensures cache == old(cache)[path := old(CurrentScale())]
    {
      var scale := ParseScale();
      var bytes := Snapshot.ReadRange(file, FirstOffset(scale), None);
      signalHash := History.ParseSignalStream(signal, SplitChunks(bytes, LARGE_CHUNK));
    }

    /** The bytes of a stream opened at `start` with no end. */
    function ReadFrom(start: nat): (r: seq<byte>)
      reads this
      ensures start <= |file| ==> r == file[start..]
      ensures start > |file| ==> r == []
    {
      Snapshot.ReadRange(file, start, None)
    }

    /** The bytes `parseSignals(t)` reads: the window around `t` that the scale gives. */
    function WindowBytes(sc: TimeIndex.Scale, t: nat): seq<byte>
      reads this
    {
      var (start, end) := Snapshot.Window(sc.timeScale, sc.timeIndex, Search.BinarySearchOf(sc.timeScale, t));
      Snapshot.ReadRange(file, start, end)
    }

    /**
     * `parseSignals(t)`: the values of the change lines in the window around `t`, per time
     * line of the window.
     */
    method ParseSignals(t: nat) returns (timeData: Snapshot.TimeData)
      modifies this
      ensures timeData == Snapshot.Feed(Snapshot.Fresh, Decode(WindowBytes(old(CurrentScale()), t))).timeData
      ensures cache == old(cache)[path := old(CurrentScale())]
    {
      var scale := ParseScale();
      var midT := Search.BinarySearch(scale.timeScale, t);
      var (start, end) := Snapshot.Window(scale.timeScale, scale.timeIndex, midT);
      timeData := ReadWindow(Snapshot.ReadRange(file, start, end));
    }

    /**
     * `parseHeader()`: the header of the file, then `maxTime`. `ok` is false where
     * `#parseHeader` throws; nothing is then reported.
     */
    method ParseHeader() returns (ok: bool, header: Header.HeaderState, maxTime: nat)
      modifies this
      ensures ok <==> Header.Feed(Header.Initial, Decode(file)).Some?
      ensures ok ==> header == Header.Feed(Header.Initial, Decode(file)).value
      ensures ok ==> maxTime == TimeIndex.MaxTimeOf(ReadFrom(LastOffset(old(CurrentScale()))))
      ensures ok ==> cache == old(cache)[path := old(CurrentScale())]
      ensures !ok ==> cache == old(cache)
    {
      ok, header := ReadHeader(file);
      maxTime := 0;
      if ok {
        maxTime := ParseMaxTime();
      }
    }

    /** `#parseMaxTime()`: the last time the scanner commits, read from the last indexed time line on. */
    method ParseMaxTime() returns (maxTime: nat)
      modifies this
      ensures maxTime == TimeIndex.MaxTimeOf(ReadFrom(LastOffset(old(CurrentScale()))))
      ensures cache == old(cache)[path := old(CurrentScale())]
    {
      var scale := ParseScale();
      var bytes := Snapshot.ReadRange(file, LastOffset(scale), None);
      maxTime := TimeIndex.ParseMaxTimeStream(SplitChunks(bytes, LARGE_CHUNK));
    }
  }
}

/**
 * Byte- and character-level helpers shared by the VCD parsers: the byte type of a file
 * stream, ASCII digit runs and their values, the whitespace set and `trim` of JavaScript
 * strings, and the chunking of a stream (a file is read as a sequence of chunks, and a
 * parser's state is carried from one chunk to the next).
 */
module Text {

  datatype Option<+T> = None | Some(value: T)

  /** One byte of a file, as indexing a Node `Buffer` yields it. */
  type byte = b: int | 0 <= b < 256

  const NEWLINE: byte := 10
  const SPACE: byte := 32
  const HASH: byte := 35

  predicate IsDigit(b: int) { 48 <= b <= 57 }

  predicate AllDigits(s: seq<int>) { forall k :: 0 <= k < |s| ==> IsDigit(s[k]) }

  /** A run of ASCII digits: the `timeStr` of the time-stamp scanners. */
  type Digits = s: seq<byte> | AllDigits(s)

  /** The value that `Number` and `parseInt` give a run of ASCII digits (exactly: no rounding). */
  function DecimalValue(s: seq<int>): nat
    requires AllDigits(s)
  {
    if s == [] then 0 else DecimalValue(s[..|s| - 1]) * 10 + (s[|s| - 1] - 48)
  }

  predicate AllBits(s: seq<int>) { forall k :: 0 <= k < |s| ==> s[k] == 48 || s[k] == 49 }

  /** The value of `parseInt(s, 2)` for a non-empty run of ASCII `0`/`1`. */
  function BinaryValue(s: seq<int>): nat
    requires AllBits(s)
  {
    if s == [] then 0 else BinaryValue(s[..|s| - 1]) * 2 + (s[|s| - 1] - 48)
  }

  /** The character codes of a string (`charCodeAt` for every position). */
  function Ord(s: string): (r: seq<int>)
    ensures |r| == |s|
    ensures forall k :: 0 <= k < |s| ==> r[k] == s[k] as int
  {
    seq(|s|, k requires 0 <= k < |s| => s[k] as int)
  }

  /** Byte-by-byte decoding of a buffer into a string; agrees with UTF-8 on ASCII text. */
  function Decode(b: seq<byte>): (r: string)
    ensures |r| == |b|
    ensures forall k :: 0 <= k < |b| ==> r[k] as int == b[k]
  {
    seq(|b|, k requires 0 <= k < |b| => b[k] as char)
  }

  /** A sequence is the concatenation of its four pieces cut at `a`, `b` and `c`. */
  lemma SplitFour<T>(s: seq<T>, a: nat, b: nat, c: nat)
    requires a <= b <= c <= |s|
    ensures s == s[..a] + s[a..b] + s[b..c] + s[c..]
  {
    var r := s[..a] + s[a..b] + s[b..c] + s[c..];
    assert |r| == |s|;
    forall i | 0 <= i < |s| ensures r[i] == s[i] {
      if i < a {} else if i < b {} else if i < c {} else {}
    }
  }

  /** Decoding chunk by chunk is decoding the whole buffer. */
  lemma DecodeAppend(a: seq<byte>, b: seq<byte>)
    ensures Decode(a + b) == Decode(a) + Decode(b)
  {
    assert forall k :: 0 <= k < |a + b| ==> Decode(a + b)[k] == (Decode(a) + Decode(b))[k];
  }

  /** The characters JavaScript's `trim` removes and its regular expressions call `\s`. */
  predicate IsSpace(c: char)
  {
    var n := c as int;
    n == 0x09 || n == 0x0A || n == 0x0B || n == 0x0C || n == 0x0D || n == 0x20 || n == 0xA0 ||
    n == 0x1680 || (0x2000 <= n <= 0x200A) || n == 0x2028 || n == 0x2029 || n == 0x202F ||
    n == 0x205F || n == 0x3000 || n == 0xFEFF
  }

  predicate NoSpace(s: string) { forall k :: 0 <= k < |s| ==> !IsSpace(s[k]) }

  function TrimStart(s: string): (r: string)
    ensures |r| <= |s| && r == s[|s| - |r|..]
    ensures r == [] || !IsSpace(r[0])
    ensures forall k :: 0 <= k < |s| - |r| ==> IsSpace(s[k])
  {
    if s != [] && IsSpace(s[0]) then TrimStart(s[1..]) else s
  }

  function TrimEnd(s: string): (r: string)
    ensures |r| <= |s| && r == s[..|r|]
    ensures r == [] || !IsSpace(r[|r| - 1])
    ensures forall k :: |r| <= k < |s| ==> IsSpace(s[k])
  {
    if s != [] && IsSpace(s[|s| - 1]) then TrimEnd(s[..|s| - 1]) else s
  }

  /** JavaScript's `String.prototype.trim`. */
  function Trim(s: string): string
  {
    TrimEnd(TrimStart(s))
  }

  predicate EndsWith(s: string, suffix: string)
  {
    |suffix| <= |s| && s[|s| - |suffix|..] == suffix
  }

  /** JavaScript's `s.slice(from, to)` for `0 <= from` and an end already offset by the length, clamped to `[0, |s|]`. */
  function Slice(s: string, from: nat, to: int): (r: string)
    ensures |r| <= |s|
  {
    var hi := if to < 0 then 0 else if to > |s| then |s| else to;
    if from >= hi then [] else s[from..hi]
  }

  /** The bytes of a stream, given the chunks in which it arrived. */
  function Concat<T>(chunks: seq<seq<T>>): seq<T>
  {
    if chunks == [] then [] else Concat(chunks[..|chunks| - 1]) + chunks[|chunks| - 1]
  }

  lemma {:induction false} ConcatSnoc<T>(chunks: seq<seq<T>>, c: nat)
    requires c < |chunks|
    ensures Concat(chunks[..c + 1]) == Concat(chunks[..c]) + chunks[c]
  {
    assert chunks[..c + 1][..c] == chunks[..c];
  }

  lemma {:induction false} ConcatCons<T>(a: seq<T>, chunks: seq<seq<T>>)
    ensures Concat([a] + chunks) == a + Concat(chunks)
  {
    if chunks != [] {
      var n := |chunks| - 1;
      assert ([a] + chunks)[..|[a] + chunks| - 1] == [a] + chunks[..n];
      ConcatCons(a, chunks[..n]);
    }
  }

  /** The chunks preceding chunk `c` fill the first `|Concat(chunks[..c])|` bytes of the stream. */
  lemma {:induction false} ConcatPrefix<T>(chunks: seq<seq<T>>, c: nat)
    requires c <= |chunks|
    ensures Concat(chunks[..c]) + Concat(chunks[c..]) == Concat(chunks)
  {
    if c < |chunks| {
      var n := |chunks| - 1;
      assert chunks[..n][..c] == chunks[..c];
      assert chunks[c..][..|chunks[c..]| - 1] == chunks[c..n];
      if c < n {
        ConcatPrefix(chunks[..n], c);
        assert chunks[..n][c..] == chunks[c..n];
      } else {
        assert chunks[c..n] == [];
        assert chunks[..n] == chunks[..c];
      }
      calc {
        Concat(chunks[..c]) + Concat(chunks[c..]);
        Concat(chunks[..c]) + (Concat(chunks[c..n]) + chunks[n]);
        (Concat(chunks[..c]) + Concat(chunks[c..n])) + chunks[n];
        Concat(chunks[..n]) + chunks[n];
      }
    } else {
      assert chunks[..c] == chunks;
      assert chunks[c..] == [];
    }
  }

  /**
   * The chunks a Node read stream delivers for a regular file with the given
   * `highWaterMark`: consecutive pieces of `size` bytes, the last one possibly shorter.
   */
  function SplitChunks<T>(s: seq<T>, size: nat): (r: seq<seq<T>>)
    requires size > 0
    ensures Concat(r) == s
    ensures forall k :: 0 <= k < |r| ==> 0 < |r[k]| <= size
    decreases |s|
  {
    if s == [] then []
    else if |s| <= size then
      assert Concat([s]) == Concat([s][..0]) + s;
      [s]
    else
      var rest := SplitChunks(s[size..], size);
      ConcatCons(s[..size], rest);
      assert s[..size] + s[size..] == s;
      [s[..size]] + rest
  }
}

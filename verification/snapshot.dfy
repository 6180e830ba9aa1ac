/**
 * The windowed snapshot of utils/VCDParse.ts: `parseSignals` picks a byte window of the
 * file around a query time, and `#parseSignals` reads that window as text, line by line,
 * into `timeData`, a map from time to the value text of every identifier that changed.
 *
 * A line is acted on when its newline arrives, after JavaScript's `trim`: a `#<digits>`
 * line makes its value the current time and resets that time's entry to `{}`; a dump
 * keyword is skipped; a `b`/`B` vector change, an `r`/`R` real change or a scalar change
 * `[01xXzZ]<id>` stores its value text under its identifier, but only while the current
 * time is set and not 0 (the source tests it for truthiness). Anything else is ignored.
 */
module Snapshot {

  import opened Text
  import Search
  import TimeIndex

  /** `dumpKey` of the `VCDParse` constructor. */
  const DumpKeys: set<string> := {"$dumpvars", "$dumpon", "$dumpall", "$dumpoff", "$end"}

  /** `dumpKey.has(s)`; every key starts with `$`, which is stated first. */
  predicate IsDumpKey(s: string)
  {
    |s| >= 1 && s[0] == '$' && s in DumpKeys
  }

  type TimeData = map<nat, map<string, string>>

  /** The `signalsObj` record: the text of the line read so far, `currentTime`, `timeData`. */
  datatype Reading = Reading(valueChange: string, currentTime: Option<nat>, timeData: TimeData)

  const Fresh: Reading := Reading([], None, map[])

  /** The current time, once set, has an entry: a store under it never meets `undefined`. */
  predicate Consistent(r: Reading)
  {
    r.currentTime.Some? ==> r.currentTime.value in r.timeData
  }

  // ---------------------------------------------------------------------------------------
  // The shapes of a trimmed line (the regular expressions of the source)

  predicate IsDigitChar(c: char) { '0' <= c <= '9' }

  predicate IsValueChar(c: char) { c == '0' || c == '1' || c == 'x' || c == 'X' || c == 'z' || c == 'Z' }

  /** `startsWith('b') || startsWith('B')` */
  predicate StartsVector(s: string) { |s| >= 1 && (s[0] == 'b' || s[0] == 'B') }

  /** `startsWith('r') || startsWith('R')` */
  predicate StartsReal(s: string) { |s| >= 1 && (s[0] == 'r' || s[0] == 'R') }

  /** `/^#(\d+)$/`: the time of a time line. */
  function TimeValue(s: string): Option<nat>
  {
    if |s| >= 2 && s[0] == '#' && forall k :: 1 <= k < |s| ==> IsDigitChar(s[k]) then
      Some(DecimalValue(Ord(s[1..])))
    else None
  }

  /** The end of the run of value characters of `s` that starts at `i`. */
  function RunEnd(s: string, i: nat): (e: nat)
    requires i <= |s|
    ensures i <= e <= |s| && (forall k :: i <= k < e ==> IsValueChar(s[k])) && (e < |s| ==> !IsValueChar(s[e]))
    decreases |s| - i
  {
    if i < |s| && IsValueChar(s[i]) then RunEnd(s, i + 1) else i
  }

  /** `/^[bB]([01xXzZ]+)\s+([\s\S]+)$/` on a trimmed line: the value and the identifier. */
  function VectorChange(s: string): Option<(string, string)>
  {
    if StartsVector(s) then
      var k := RunEnd(s, 1);
      if k > 1 && k < |s| && IsSpace(s[k]) && TrimStart(s[k..]) != [] then Some((s[1..k], TrimStart(s[k..])))
      else None
    else None
  }

  /** The last position of `s` that holds white space. */
  function LastSpace(s: string): (q: Option<nat>)
    ensures q.Some? ==> q.value < |s| && IsSpace(s[q.value]) && forall k :: q.value < k < |s| ==> !IsSpace(s[k])
    ensures q.None? ==> NoSpace(s)
  {
    if s == [] then None
    else if IsSpace(s[|s| - 1]) then Some(|s| - 1)
    else LastSpace(s[..|s| - 1])
  }

  /** `/^[rR]([\s\S]+)\s+([\s\S]+)$/m` on a trimmed line: the greedy first group ends at the last space. */
  function RealChange(s: string): Option<(string, string)>
  {
    if StartsReal(s) then
      var q := LastSpace(s);
      if q.Some? && q.value >= 2 && q.value + 1 < |s| then Some((s[1..q.value], s[q.value + 1..]))
      else None
    else None
  }

  /** `/^([01xXzZ])([\S]+)$/`: a scalar change. */
  function ScalarChange(s: string): Option<(string, string)>
  {
    if |s| >= 2 && IsValueChar(s[0]) && NoSpace(s[1..]) then Some((s[..1], s[1..])) else None
  }

  /** A change line's value and identifier, tried in the source's order. */
  function Change(s: string): Option<(string, string)>
  {
    if StartsVector(s) then VectorChange(s)
    else if StartsReal(s) then RealChange(s)
    else ScalarChange(s)
  }

  /** `if (signalsObj.currentTime)`: set, and not 0. */
  predicate Truthy(time: Option<nat>) { time.Some? && time.value != 0 }

  /** `timeData[currentTime][id] = value` when `currentTime` is truthy. */
  function Store(td: TimeData, time: Option<nat>, change: Option<(string, string)>): TimeData
    requires time.Some? ==> time.value in td
  {
    if change.Some? && Truthy(time) then
      var row: map<string, string> := td[time.value][change.value.1 := change.value.0];
      td[time.value := row]
    else td
  }

  // ---------------------------------------------------------------------------------------
  // The character machine

  /**
   * What the newline branch does with the trimmed line `s`. A dump keyword makes the source
   * `continue` without advancing, so the same newline is read once more with an empty line,
   * which matches nothing: the keyword line leaves the reading as it was, line cleared
   * (`DumpKeyRereads` states the re-read outright).
   */
  function Act(r: Reading, s: string): (r': Reading)
    requires Consistent(r)
    ensures Consistent(r') && r'.valueChange == []
  {
    match TimeValue(s)
    case Some(t) => Reading([], Some(t), r.timeData[t := map[]])
    case None =>
      if IsDumpKey(s) then r.(valueChange := [])
      else Reading([], r.currentTime, Store(r.timeData, r.currentTime, Change(s)))
  }

  /** The newline branch: act on the line read so far, then start a new one. */
  function EndLine(r: Reading): (r': Reading)
    requires Consistent(r)
  {
    Act(r, Trim(r.valueChange))
  }

  function Step(r: Reading, c: char): (r': Reading)
    requires Consistent(r)
    ensures Consistent(r')
  {
    if c == '\n' then EndLine(r) else r.(valueChange := r.valueChange + [c])
  }

  /** `#parseSignals` over the characters of `s`. */
  function Feed(r: Reading, s: string): (r': Reading)
    requires Consistent(r)
    ensures Consistent(r')
    decreases |s|
  {
    if s == [] then r else Feed(Step(r, s[0]), s[1..])
  }

  /** An empty line matches nothing. */
  lemma EmptyLineIdle(r: Reading)
    requires Consistent(r) && r.valueChange == []
    ensures EndLine(r) == r
  {
  }

  /** Reading the newline once more after a dump keyword changes nothing further. */
  lemma DumpKeyRereads(r: Reading)
    requires Consistent(r) && IsDumpKey(Trim(r.valueChange))
    ensures |r.valueChange| > 0
    ensures EndLine(r) == r.(valueChange := []) && EndLine(EndLine(r)) == EndLine(r)
  {
    var line := Trim(r.valueChange);
    assert line[0] == '$';
    assert TimeValue(line) == None;
    assert EndLine(r) == r.(valueChange := []);
    EmptyLineIdle(r.(valueChange := []));
  }

  lemma {:induction false} FeedCons(r: Reading, s: string, i: nat)
    requires Consistent(r) && i < |s|
    ensures Feed(r, s[i..]) == Feed(Step(r, s[i]), s[i + 1..])
  {
    assert s[i..][1..] == s[i + 1..];
  }

  /** The `signalsObj` of `parseSignals`, updated in place by `#parseSignals`. */
  class SignalsObj {
    var valueChange: string
    var currentTime: Option<nat>
    var timeData: TimeData

    function Value(): Reading
      reads this
    {
      Reading(valueChange, currentTime, timeData)
    }

    predicate Valid()
      reads this
    {
      Consistent(Value())
    }

    constructor ()
      ensures Valid() && Value() == Fresh
    {
      valueChange, currentTime, timeData := [], None, map[];
    }

    /**
     * The newline branch of `#parseSignals`. `again` is the dump-keyword case, which clears
     * the line and reads the same newline once more.
     */
    method EndOfLine() returns (again: bool)
      requires Valid()
      modifies this
      ensures Valid() && Value() == EndLine(old(Value()))
      ensures again ==> |old(valueChange)| > 0 && EndLine(Value()) == Value()
    {
      ghost var before := Value();
      again := false;
      valueChange := Trim(valueChange);
      ghost var line := valueChange;
      var tMatch := TimeValue(valueChange);
      if tMatch.Some? {
        currentTime := tMatch;
        timeData := timeData[tMatch.value := map[]];
      } else if IsDumpKey(valueChange) {
        valueChange := [];
        DumpKeyRereads(before);
        return true;
      } else {
        assert EndLine(before) == Reading([], currentTime, Store(timeData, currentTime, Change(line)));
        if StartsVector(valueChange) {
          var vMatch := VectorChange(valueChange);
          if vMatch.None? {
            valueChange := [];
          } else {
            StoreChange(vMatch.value);
          }
        } else if StartsReal(valueChange) {
          var vMatch := RealChange(valueChange);
          if vMatch.None? {
            valueChange := [];
          } else {
            StoreChange(vMatch.value);
          }
        } else if ScalarChange(valueChange).Some? {
          var vMatch := ScalarChange(valueChange);
          StoreChange(vMatch.value);
        }
      }
      valueChange := [];
    }

    /** `timeData[currentTime][id] = value`, under `if (signalsObj.currentTime)`. */
    method StoreChange(change: (string, string))
      requires Valid()
      modifies this
      ensures Valid() && Value() == old(Value()).(timeData := Store(old(timeData), old(currentTime), Some(change)))
    {
      if currentTime.Some? && currentTime.value != 0 {
        var row: map<string, string> := timeData[currentTime.value][change.1 := change.0];
        timeData := timeData[currentTime.value := row];
      }
    }

    /** `#parseSignals(chunkString, signalsObj)` */
    method ParseSignals(chunkString: string)
      requires Valid()
      modifies this
      ensures Valid() && Value() == Feed(old(Value()), chunkString)
    {
      ghost var goal := Feed(Value(), chunkString);
      var index := 0;
      while index < |chunkString|
        invariant index <= |chunkString| && Valid()
        invariant Feed(Value(), chunkString[index..]) == goal
        decreases |chunkString| - index, |valueChange|
      {
        ghost var before := Value();
        FeedCons(before, chunkString, index);
        if chunkString[index] == '\n' {
          var again := EndOfLine();
          if again {
            continue;
          }
        } else {
          valueChange := valueChange + [chunkString[index]];
        }
        index := index + 1;
      }
    }
  }

  // ---------------------------------------------------------------------------------------
  // What a line does

  /** No dump keyword is a time line or a change line: skipping them only saves the logging. */
  lemma DumpKeysMatchNothing(s: string)
    requires IsDumpKey(s)
    ensures TimeValue(s).None? && Change(s).None?
  {
    assert s[0] == '$';
  }

  /**
   * The effect of one trimmed line: a time line makes its time current with an empty entry;
   * a change line under a truthy time writes its value under its identifier in that entry;
   * every other line, and every change while the time is unset or 0, leaves `timeData` alone.
   * Nothing else in `timeData` moves.
   */
  lemma ActEffect(r: Reading, s: string)
    requires Consistent(r)
    ensures var r' := Act(r, s);
      match TimeValue(s)
      case Some(t) =>
        r'.currentTime == Some(t) && r'.timeData.Keys == r.timeData.Keys + {t} && r'.timeData[t] == map[] &&
        forall k :: k in r.timeData && k != t ==> r'.timeData[k] == r.timeData[k]
      case None =>
        r'.currentTime == r.currentTime &&
        if Change(s).None? || !Truthy(r.currentTime) then r'.timeData == r.timeData
        else
          var t, v, id := r.currentTime.value, Change(s).value.0, Change(s).value.1;
          r'.timeData.Keys == r.timeData.Keys && r'.timeData[t][id] == v &&
          (forall k :: k in r.timeData && k != t ==> r'.timeData[k] == r.timeData[k]) &&
          (forall j :: j in r.timeData[t] && j != id ==> r'.timeData[t][j] == r.timeData[t][j]) &&
          r'.timeData[t].Keys == r.timeData[t].Keys + {id}
  {
    if TimeValue(s).None? && IsDumpKey(s) {
      DumpKeysMatchNothing(s);
    }
  }

  /** Reading a text in two pieces is reading it whole: the chunk boundaries do not matter. */
  lemma {:induction false} FeedAppend(r: Reading, a: string, b: string)
    requires Consistent(r)
    ensures Feed(r, a + b) == Feed(Feed(r, a), b)
    decreases |a|
  {
    if a == [] {
      assert a + b == b;
    } else {
      assert (a + b)[0] == a[0] && (a + b)[1..] == a[1..] + b;
      FeedAppend(Step(r, a[0]), a[1..], b);
    }
  }

  /** Text without a newline is only collected into the pending line. */
  lemma {:induction false} FeedText(r: Reading, s: string)
    requires Consistent(r) && '\n' !in s
    ensures Feed(r, s) == r.(valueChange := r.valueChange + s)
    decreases |s|
  {
    if s != [] {
      assert '\n' !in s[1..];
      FeedText(Step(r, s[0]), s[1..]);
      assert r.valueChange + [s[0]] + s[1..] == r.valueChange + s;
    }
  }

  /** The position of the first newline of `s`. */
  function FirstNewline(s: string): (i: Option<nat>)
    ensures i.Some? ==> i.value < |s| && s[i.value] == '\n' && '\n' !in s[..i.value]
    ensures i.None? ==> '\n' !in s
  {
    if s == [] then None
    else if s[0] == '\n' then Some(0)
    else match FirstNewline(s[1..])
      case None => None
      case Some(i) =>
        assert s[..i + 1] == [s[0]] + s[1..][..i];
        Some(i + 1)
  }

  /** The complete (newline-ended) lines of `s`, without their newlines. */
  function Lines(s: string): (ls: seq<string>)
    ensures forall j :: 0 <= j < |ls| ==> '\n' !in ls[j]
    decreases |s|
  {
    match FirstNewline(s)
    case None => []
    case Some(i) => [s[..i]] + Lines(s[i + 1..])
  }

  /**
   * The same reading line by line: every complete line, appended to the pending one, is
   * trimmed and acted on as a whole; text after the last newline stays pending and is
   * never acted on.
   */
  function LineFold(r: Reading, s: string): (r': Reading)
    requires Consistent(r)
    ensures Consistent(r')
    decreases |s|
  {
    match FirstNewline(s)
    case None => r.(valueChange := r.valueChange + s)
    case Some(i) => LineFold(EndLine(r.(valueChange := r.valueChange + s[..i])), s[i + 1..])
  }

  /** The character machine of the source reads a text exactly as the line fold does. */
  lemma {:induction false} FeedByLines(r: Reading, s: string)
    requires Consistent(r)
    ensures Feed(r, s) == LineFold(r, s)
    decreases |s|
  {
    match FirstNewline(s)
    case None =>
      FeedText(r, s);
    case Some(i) =>
      assert s == s[..i] + s[i..];
      FeedAppend(r, s[..i], s[i..]);
      FeedText(r, s[..i]);
      var r' := r.(valueChange := r.valueChange + s[..i]);
      assert s[i..][0] == '\n' && s[i..][1..] == s[i + 1..];
      assert Feed(r', s[i..]) == Feed(EndLine(r'), s[i + 1..]);
      FeedByLines(EndLine(r'), s[i + 1..]);
  }

  /** Entries are never removed, and a new one comes only from a time line. */
  lemma ActKeys(r: Reading, s: string)
    requires Consistent(r)
    ensures r.timeData.Keys <= Act(r, s).timeData.Keys
    ensures forall k :: k in Act(r, s).timeData ==> k in r.timeData || TimeValue(s) == Some(k)
  {
    ActEffect(r, s);
  }

  /** Some line of `ls`, trimmed, is the time line of `k`. */
  predicate HasTimeLine(ls: seq<string>, k: nat)
  {
    exists j :: 0 <= j < |ls| && TimeValue(Trim(ls[j])) == Some(k)
  }

  lemma HasTimeLineCons(line: string, rest: seq<string>, k: nat)
    requires TimeValue(Trim(line)) == Some(k) || HasTimeLine(rest, k)
    ensures HasTimeLine([line] + rest, k)
  {
    var ls := [line] + rest;
    if TimeValue(Trim(line)) == Some(k) {
      assert ls[0] == line;
    } else {
      var j :| 0 <= j < |rest| && TimeValue(Trim(rest[j])) == Some(k);
      assert ls[j + 1] == rest[j];
    }
  }

  /** One complete line, read from an empty pending line: the keys it adds are its own time. */
  lemma LineKeys(r: Reading, line: string)
    requires Consistent(r)
    ensures var r' := EndLine(r.(valueChange := line));
      r.timeData.Keys <= r'.timeData.Keys &&
      forall k :: k in r'.timeData ==> k in r.timeData || TimeValue(Trim(line)) == Some(k)
  {
    ActKeys(r.(valueChange := line), Trim(line));
  }

  lemma {:induction false} LineFoldKeys(r: Reading, s: string)
    requires Consistent(r) && r.valueChange == []
    ensures r.timeData.Keys <= LineFold(r, s).timeData.Keys
    ensures forall k :: k in LineFold(r, s).timeData ==> k in r.timeData || HasTimeLine(Lines(s), k)
    decreases |s|
  {
    match FirstNewline(s)
    case None =>
    case Some(i) =>
      var line, tail := s[..i], s[i + 1..];
      assert r.valueChange + line == line;
      var r' := EndLine(r.(valueChange := line));
      assert LineFold(r, s) == LineFold(r', tail);
      assert Lines(s) == [line] + Lines(tail);
      LineKeys(r, line);
      LineFoldKeys(r', tail);
      forall k | k in LineFold(r', tail).timeData && k !in r.timeData
        ensures HasTimeLine(Lines(s), k)
      {
        HasTimeLineCons(line, Lines(tail), k);
      }
  }

  /**
   * Entries are never removed from the snapshot, and every time in it that was not there
   * before is the time of a complete time line of the text.
   */
  lemma KeysFromTimeLines(r: Reading, s: string)
    requires Consistent(r) && r.valueChange == []
    ensures r.timeData.Keys <= Feed(r, s).timeData.Keys
    ensures forall k :: k in Feed(r, s).timeData ==> k in r.timeData || HasTimeLine(Lines(s), k)
  {
    FeedByLines(r, s);
    LineFoldKeys(r, s);
  }

  /** The entry of time 0 is always empty: `#0` creates it, and 0 is never truthy. */
  predicate ZeroEmpty(r: Reading)
  {
    0 in r.timeData ==> r.timeData[0] == map[]
  }

  lemma {:induction false} FeedKeepsZeroEmpty(r: Reading, s: string)
    requires Consistent(r) && ZeroEmpty(r)
    ensures ZeroEmpty(Feed(r, s))
    decreases |s|
  {
    if s != [] {
      var r' := Step(r, s[0]);
      if s[0] == '\n' {
        ActEffect(r, Trim(r.valueChange));
      }
      FeedKeepsZeroEmpty(r', s[1..]);
    }
  }

  // ---------------------------------------------------------------------------------------
  // The line shapes against their regular expressions (on trimmed lines)

  predicate AllValueChars(s: string) { forall k :: 0 <= k < |s| ==> IsValueChar(s[k]) }

  predicate AllSpace(s: string) { forall k :: 0 <= k < |s| ==> IsSpace(s[k]) }

  /** `s` splits as `b`, the value characters `s[1..i]`, and white space `s[i..j]` before a rest. */
  predicate VectorSplit(s: string, i: nat, j: nat)
  {
    1 < i < j < |s| && AllValueChars(s[1..i]) && AllSpace(s[i..j])
  }

  /** A trimmed line that splits as the pattern does is matched, with the whole run as value. */
  lemma VectorChangeComplete(s: string, i: nat, j: nat)
    requires StartsVector(s) && !IsSpace(s[|s| - 1]) && VectorSplit(s, i, j)
    ensures VectorChange(s).Some? && VectorChange(s).value.0 == s[1..i]
  {
    var k := RunEnd(s, 1);
    assert IsSpace(s[i]) by { assert s[i..j][0] == s[i]; }
    forall n | 1 <= n < i ensures IsValueChar(s[n]) {
      assert s[1..i][n - 1] == s[n];
    }
    assert k == i;
    assert s[k..][|s| - 1 - k] == s[|s| - 1];
  }

  /** A match splits the line as the pattern does; the identifier starts after all the white space. */
  lemma VectorChangeShape(s: string)
    requires VectorChange(s).Some?
    ensures var (v, id) := VectorChange(s).value;
      VectorSplit(s, 1 + |v|, |s| - |id|) && id != [] && !IsSpace(id[0]) &&
      s == s[..1] + v + s[1 + |v|..|s| - |id|] + id
  {
    var k := RunEnd(s, 1);
    var id := TrimStart(s[k..]);
    RunValues(s, k);
    TrimmedTail(s, k, id);
    SplitFour(s, 1, k, |s| - |id|);
  }

  /** The characters before `RunEnd` are value characters. */
  lemma RunValues(s: string, k: nat)
    requires 1 <= k <= |s| && k == RunEnd(s, 1)
    ensures AllValueChars(s[1..k])
  {
    var run := s[1..k];
    forall n | 0 <= n < |run| ensures IsValueChar(run[n]) {
      assert run[n] == s[1 + n];
    }
  }

  /** Trimming the start of `s[k..]` drops white space and keeps a suffix of `s`. */
  lemma TrimmedTail(s: string, k: nat, id: string)
    requires k <= |s| && id == TrimStart(s[k..])
    ensures k + |id| <= |s| && AllSpace(s[k..|s| - |id|]) && id == s[|s| - |id|..]
  {
    var t := s[k..];
    GapSpaces(t, id);
    assert t[..|t| - |id|] == s[k..|s| - |id|];
    assert t[|t| - |id|..] == s[|s| - |id|..];
  }

  /** What `TrimStart` removes is white space. */
  lemma GapSpaces(t: string, id: string)
    requires id == TrimStart(t)
    ensures AllSpace(t[..|t| - |id|])
  {
  }

  /**
   * `/^[bB]([01xXzZ]+)\s+([\s\S]+)$/`: a trimmed `b` line matches exactly when it splits as
   * `b`, a run of value characters, white space, and a rest.
   */
  lemma VectorChangeMatches(s: string)
    requires StartsVector(s) && !IsSpace(s[|s| - 1])
    ensures VectorChange(s).Some? <==> exists i, j :: VectorSplit(s, i, j)
  {
    if exists i, j :: VectorSplit(s, i, j) {
      var i, j :| VectorSplit(s, i, j);
      VectorChangeComplete(s, i, j);
    }
    if VectorChange(s).Some? {
      VectorChangeShape(s);
    }
  }

  /**
   * `/^[rR]([\s\S]+)\s+([\s\S]+)$/`: a trimmed line matches exactly when some white space
   * stands after its second character; the greedy first group runs to the last white space,
   * and the identifier after it holds none.
   */
  lemma RealChangeMatches(s: string)
    requires StartsReal(s) && !IsSpace(s[|s| - 1])
    ensures RealChange(s).Some? <==> exists q :: 2 <= q < |s| && IsSpace(s[q])
    ensures RealChange(s).Some? ==>
              var (v, id) := RealChange(s).value;
              |v| >= 1 && id != [] && NoSpace(id) && IsSpace(s[1 + |v|]) && s == s[..1] + v + [s[1 + |v|]] + id
  {
    var q := LastSpace(s);
    if exists q' :: 2 <= q' < |s| && IsSpace(s[q']) {
      var q' :| 2 <= q' < |s| && IsSpace(s[q']);
      assert q.Some? && q.value >= q';
    }
    if RealChange(s).Some? {
      var v, id := s[1..q.value], s[q.value + 1..];
      assert s == s[..1] + v + [s[q.value]] + id;
      forall k | 0 <= k < |id| ensures !IsSpace(id[k]) {
        assert id[k] == s[q.value + 1 + k];
      }
    }
  }

  // ---------------------------------------------------------------------------------------
  // The window of `parseSignals`

  /**
   * The byte window `parseSignals(t)` reads, given the search result `m`: from the index
   * entry before `m` (or from the start of the file when there is none) to the entry two
   * after `m`, or to the end of the file when that lies beyond the scale.
   */
  function Window(timeScale: seq<nat>, timeIndex: seq<nat>, m: nat): (w: (nat, Option<nat>))
  {
    var lo := if m >= 1 then m - 1 else 0;
    var start := if lo < |timeIndex| then timeIndex[lo] else 0;
    var end := if m + 2 >= |timeScale| then None
               else if m + 2 < |timeIndex| then Some(timeIndex[m + 2]) else None;
    (start, end)
  }

  /** The bytes a read stream with `{ start, end }` delivers: both ends inclusive, cut at the end of the file. */
  function ReadRange(f: seq<byte>, start: nat, end: Option<nat>): (r: seq<byte>)
    ensures |r| <= |f|
    ensures start <= |f| ==> start + |r| <= |f| && r == f[start..start + |r|]
    ensures end.Some? && start <= end.value < |f| ==> |r| == end.value + 1 - start
    ensures (end.None? || end.value >= |f|) && start <= |f| ==> r == f[start..]
  {
    var hi := if end.None? || end.value + 1 > |f| then |f| else end.value + 1;
    if start >= hi then [] else f[start..hi]
  }

  /**
   * On a well-formed scale whose times strictly increase, the window holds the whole
   * stretch from the last indexed time line at or before `t` up to the next indexed one
   * (or to the end of the file): the change lines in force at `t` are read. And the window
   * never ends before it starts.
   */
  lemma WindowCovers(timeScale: seq<nat>, timeIndex: seq<nat>, t: nat)
    requires TimeIndex.WellFormed(TimeIndex.Scale(timeScale, timeIndex)) && TimeIndex.Increasing(timeScale)
    ensures var (start, end) := Window(timeScale, timeIndex, Search.BinarySearchOf(timeScale, t));
      (end.None? || start < end.value) &&
      forall j :: 0 <= j < |timeScale| && timeScale[j] <= t && (j + 1 == |timeScale| || t < timeScale[j + 1]) ==>
        start <= timeIndex[j] && (end.None? || (j + 1 < |timeIndex| && timeIndex[j + 1] < end.value))
  {
    var m := Search.BinarySearchOf(timeScale, t);
    Search.BinarySearchFinds(timeScale, t);
    assert Search.Sorted(timeScale);
    var (start, end) := Window(timeScale, timeIndex, m);
    forall j | 0 <= j < |timeScale| && timeScale[j] <= t && (j + 1 == |timeScale| || t < timeScale[j + 1])
      ensures start <= timeIndex[j] && (end.None? || (j + 1 < |timeIndex| && timeIndex[j + 1] < end.value))
    {
      if m < |timeScale| && timeScale[m] == t {
        assert j == m;
      } else {
        assert j + 1 == m;
      }
    }
  }
}

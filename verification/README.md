# VCD parsing engine of gtkwave-node, modelled in Dafny

This project models the parsing engine of the gtkwave-node waveform viewer. The viewer
answers three queries against a Value Change Dump (VCD) file:

- the declaration header, with the module tree, the signal list of each module and `maxTime`;
- the full value history of a few requested signals;
- the snapshot of the value changes around one simulation time.

The engine is made of byte and character state machines that read a file as a stream of
chunks, plus two helpers: the identifier trie `conTire` and `binarySearch`.

## Modules

- `Text` holds the shared pieces: bytes, ASCII digit runs and their values, JavaScript's
  white space and `trim`, and the chunking of a stream (`Concat`, `SplitChunks`).
- `Search` models `binarySearch`. It gives a function for the answer, the method with the
  source's loop, and the guarantees on any array and on sorted arrays.
- `Trie` models `conTire`. The nested 127-slot arrays are an arena of nodes; a child slot
  holds the index of its node. The method keeps the source's two loops and the cursor.
  - It is proved that the codes recognised are exactly the inserted codes.
  - It is proved that a walk succeeds exactly on their prefixes.
- `TimeIndex` models the 3-state time-stamp scanner, which `parseSacle` and
  `#parseMaxTime` share.
  - The method with `parseSacle`'s per-chunk `break` is proved equal to a chunk-by-chunk
    specification. That specification is proved sound: every entry is a `#<digits>\n`
    line at its offset, offsets strictly increase, and a chunk boundary separates any two
    consecutive entries.
  - The method of `#parseMaxTime` is proved to return the last committed time.
- `History` models `parseSignal`. The six-state byte machine is specified over the set of
  requested codes. The method that walks the trie is proved to compute that
  specification, chunk by chunk. Lemmas state what one line of each shape records.
- `Snapshot` models `#parseSignals` as a class whose fields are the `signalsObj` record.
  It also models the window arithmetic of `parseSignals`.
  - The character machine is proved equal to a line-by-line fold.
  - The line shapes are proved to match their regular expressions.
  - The window is proved to cover the block in force at the query time.
- `Header` models `#parseHeader` as a class whose fields are those of `headerObj`.
  - Its per-character method is proved equal to a pure `Feed`.
  - Lemmas state what each declaration does, that chunking does not matter, that the closed
    state absorbs every later character, and how a typical declaration is read from text.
- `VcdParse` models the `VCDParse` class with its store of scales under file paths, and
  each public operation as a method.

The header, snapshot and signal parsers are written as imperative methods, each proved to
equal a pure specification function. The properties are proved about those functions.

Details of the code that the model keeps:

- A `$var` entry is read as `type width id name`, and the range, if any, follows the name
  (utils/VCDParse.ts:406-422).
- The range suffix is left off only when the width is the string `1`. Width `0` gives
  `[-1:0]`, and a width that is not a number gives `[NaN:0]` (utils/VCDParse.ts:419-421).
- The snapshot window's `end` offset is inclusive, as Node read streams treat `end`
  (utils/VCDParse.ts:317-322).
- The scale scan records every time line's value and offset as it finds them. Offsets
  increase along the file, but nothing makes the timestamps increase
  (utils/VCDParse.ts:107-109).

## Model

| member | source | states |
|---|---|---|
| Search.BinarySearch | utils/search.ts:1-13 | The loop narrowing `left`/`right` returns exactly `BinarySearchOf`, the answer of the halving search. |
| Search.BinarySearchFinds | utils/search.ts:1-13 | On any array the result lies in `[0, arr.length]` and is an exact hit or sits between a smaller and a larger neighbour. On a sorted array it is a hit or the insertion point. A key that is present is always found. |
| Search.BisectLocal | utils/search.ts:4-12 | From any window whose outer neighbours bracket `num`, the search ends on a hit or between a smaller and a larger neighbour. |
| Search.SettledSorted | utils/search.ts:6-12 | In a sorted array a position between a smaller and a larger neighbour is the insertion point: everything before is smaller, everything from it on is larger. |
| Trie.EmptyTrie | utils/conTire.ts:3 | The fresh root `new Array(127)` alone is a well-formed trie with no `true` slot. Only the empty path leads to a node, and no code is recognised. |
| Trie.ConTire | utils/conTire.ts:2-16 | The built trie has 127-slot nodes and `true` only in slot 10. A path ends on `true` exactly when it is one of the codes, and a walk succeeds exactly on prefixes of codes. So duplicates and order do not change it. |
| Trie.Insert | utils/conTire.ts:5-14 | One round of `forEach`: after walking a code, the codes done so far plus this one are recognised, and nothing else is. The cursor is back at the root. |
| Trie.Descend | utils/conTire.ts:7-10 | One step of the inner loop: an existing child is reused, and an empty slot gets a fresh child. The cursor ends on the node of the extended path. |
| Trie.StepGrow | utils/conTire.ts:7-10 | Filling an empty slot with a new node makes exactly the extended path walkable and changes no code's membership. |
| Trie.StepExisting | utils/conTire.ts:10 | Stepping into an existing child keeps the trie's meaning. |
| Trie.StepMark | utils/conTire.ts:12 | `curTire[10] = true` at the end of a code adds exactly that code to the recognised set. |
| Trie.WalkGrow | utils/conTire.ts:7-9 | Adding a child never breaks an existing walk; the only walks it enables lead into the new node. |
| Trie.ReachesPrefix | utils/conTire.ts:6-11 | Every prefix of an inserted code can be walked from the root. |
| Trie.PrefixCodeKeepsChild | utils/conTire.ts:7-12 | A code that is a strict prefix of another ends on a node that holds both the `true` marker and the child on which the longer code continues. |
| TimeIndex.ParseScaleStream | utils/VCDParse.ts:78-128 | The `data` handler over all chunks (with the break after a chunk's first commit and `pastLen` advancing by the whole chunk) yields exactly `ScaleIndex(chunks)`. |
| TimeIndex.StepScanned | utils/VCDParse.ts:91-124 | One byte keeps the scanner's invariant. A commit happens only at the newline of a `#<digits>` line, with the offset of its `#` and the value of its digits. |
| TimeIndex.ChunkScanStep | utils/VCDParse.ts:86-126 | One chunk adds no entry, or one entry that a chunk boundary separates from the previous entry. |
| TimeIndex.ChunksScanSound | utils/VCDParse.ts:83-128 | The remaining chunks keep the index sound and separated, with at most one entry per chunk. |
| TimeIndex.ScaleIndexSound | utils/VCDParse.ts:83-128 | Every index entry is a `#<digits>\n` line of the file at the recorded offset, with its decimal value. `timeScale` and `timeIndex` have equal length, offsets strictly increase, consecutive entries lie in different chunks, and there are at most as many entries as chunks. |
| TimeIndex.ChunkingMatters | utils/VCDParse.ts:107-127 | The index depends on the chunking: the same bytes give `[5]` in one chunk, and `[5, 0]` in two chunks, because the scan resumes mid-line after the break. |
| TimeIndex.OneChunkIndexesFirst | utils/VCDParse.ts:86-126 | A file in a single chunk is indexed by exactly the first time line the unbroken scanner commits. |
| TimeIndex.TimeLineCommits | utils/VCDParse.ts:93-117 | From a line start, `#<digits>\n` commits the decimal value (0 for `#\n`) and the offset of the `#`, and leaves the scanner at the next line start. |
| TimeIndex.DigitsAccumulate | utils/VCDParse.ts:103-104 | After a `#`, digits only accumulate in `timeStr`. |
| TimeIndex.ParseMaxTimeStream | utils/VCDParse.ts:471-498 | The `data` handler of `#parseMaxTime` over all chunks returns `MaxTimeOf` of the whole stream. |
| TimeIndex.MaxTimeSnoc | utils/VCDParse.ts:476-497 | One more byte steps the scanner, and a commit replaces the maximum with its value. |
| TimeIndex.MaxTimeSound | utils/VCDParse.ts:471-497 | The result is 0 when nothing is committed. Otherwise it is the value of a `#<digits>\n` line at a line start, namely the committed one with the greatest offset. |
| TimeIndex.MaxTimeOfTimeLine | utils/VCDParse.ts:478-490 | A time line read at a line start makes its value the reported maximum. |
| TimeIndex.RunAppend | utils/VCDParse.ts:475-498 | Scanning `a + b` is scanning `a`, then `b` from where `a` left the scanner: the unbroken scanner does not depend on chunking. |
| TimeIndex.RunLined | utils/VCDParse.ts:93-99 | The scanner is idle only at line starts, and every offset it commits is a line start. |
| History.InitialHash | utils/VCDParse.ts:166-168 | `signalHash[v] = {}` for every requested code: exactly those keys, each with an empty history. |
| History.Match | utils/VCDParse.ts:228-243 | The trie step of states 2 and 5 never adds or removes a key of the history. |
| History.Extract | utils/VCDParse.ts:156-168 | The resolved history has exactly the requested codes as keys. |
| History.TrieAgrees | utils/VCDParse.ts:228-243 | At the cursor the trie has a child exactly when the name extended by the byte is a prefix of some code. Otherwise it has `true` exactly when the byte is a newline and the name is a code. |
| History.Follow | utils/VCDParse.ts:226-244 | States 2 and 5 on the trie compute the code-set step, and the cursor stays on the node of the name. |
| History.Advance | utils/VCDParse.ts:174-295 | The `switch` on one byte computes the specified step and keeps the cursor on the trie. |
| History.FeedChunk | utils/VCDParse.ts:170-297 | The byte loop over one chunk continues the specified run from the earlier chunks. |
| History.ParseSignalStream | utils/VCDParse.ts:147-311 | After `conTire(signal)`, the history built over all chunks equals `Extract` of the whole stream. |
| History.RunTidy | utils/VCDParse.ts:176-295 | The name is empty outside states 2 and 5, the bits are empty outside states 4 and 5, and the digits are empty outside state 1. |
| History.RunAppend | utils/VCDParse.ts:170-172 | State carried from chunk to chunk: running `a + b` is running `b` after `a`. |
| History.ScalarLineRecorded | utils/VCDParse.ts:176-244 | A line `0<code>\n` or `1<code>\n` records 0 or 1 for that code at `curTime` and changes nothing else. |
| History.VectorLineRecorded | utils/VCDParse.ts:250-291 | A line `b<bits> <code>\n` records the base-2 value of the bits (`NaN` for none) for that code at `curTime`. |
| History.TimeLineSetsTime | utils/VCDParse.ts:198-224 | `#<digits>\n` sets `curTime` to their value. A bare `#\n` leaves it as it was. |
| History.OtherLineIgnored | utils/VCDParse.ts:176-196 | A line starting with any other byte (an `x`/`z` value, a real, a keyword) changes nothing. |
| History.PrefixNameGivesUp | utils/VCDParse.ts:239-243 | A value line whose name is a strict prefix of a code, but not a code, records nothing and ends in state 3. |
| History.PrefixNameSkipsNextLine | utils/VCDParse.ts:239-248 | Such a line consumes its own newline, so the whole next line is skipped too. |
| History.NameFallsOff | utils/VCDParse.ts:226-248 | In states 2 and 5, a name that is no prefix of any code gives up at the byte where it leaves every code. Its newline then ends the line. Only the phase and the collected bits change. |
| History.UnrequestedLineIgnored | utils/VCDParse.ts:176-248 | A `0`/`1` line whose name is no prefix of a requested code (such as `0%`) leaves the whole state as it was, the history and the current time included, except that `signalValue` holds the digit. |
| History.UnrequestedVectorIgnored | utils/VCDParse.ts:176-291 | A `b` line whose name is no prefix of a requested code leaves the whole state as it was. |
| History.ReadBits | utils/VCDParse.ts:250-256 | In state 4, `0`/`1` bytes only accumulate in `tmpSignalV`. |
| History.ReadDigits | utils/VCDParse.ts:198-211 | In state 1, digits only accumulate in `timeStr`. |
| History.SkipRest | utils/VCDParse.ts:246-248 | In state 3 everything up to the newline is ignored. |
| History.ReadName | utils/VCDParse.ts:228-231 | While the name stays a prefix of some code, each byte extends it. |
| Snapshot.Act | utils/VCDParse.ts:517-585 | Acting on a line leaves the line cleared and keeps an entry for the current time. |
| Snapshot.ActEffect | utils/VCDParse.ts:517-585 | A time line makes its time current, with `{}` as its entry. A matching change line under a truthy time writes its value text under its identifier in that entry. Nothing else in `timeData` moves, and other lines change nothing. |
| Snapshot.DumpKeyRereads | utils/VCDParse.ts:525-527 | After a dump keyword the `continue` re-reads the same newline with an empty line, which changes nothing more. |
| Snapshot.DumpKeysMatchNothing | utils/VCDParse.ts:57-63 | No dump keyword is a time line or a change line. |
| Snapshot.EmptyLineIdle | utils/VCDParse.ts:517-585 | An empty line changes nothing. |
| Snapshot.SignalsObj.constructor | utils/VCDParse.ts:323-327 | `signalsObj` starts with an empty line, no current time and an empty `timeData`. |
| Snapshot.SignalsObj.ParseSignals | utils/VCDParse.ts:512-589 | The character loop updates `signalsObj` in place to `Feed` of the old state over the chunk. |
| Snapshot.SignalsObj.EndOfLine | utils/VCDParse.ts:517-585 | The newline branch: the new state is `EndLine` of the old one. In the dump-keyword case the re-read newline leaves it unchanged. |
| Snapshot.SignalsObj.StoreChange | utils/VCDParse.ts:544-547 | `timeData[currentTime][id] = value` happens only under a truthy `currentTime`. |
| Snapshot.FeedAppend | utils/VCDParse.ts:329-331 | Reading a text in two chunks is reading it whole, so chunk boundaries do not matter. |
| Snapshot.FeedText | utils/VCDParse.ts:586 | Text without a newline is only appended to the pending line. |
| Snapshot.FeedByLines | utils/VCDParse.ts:515-588 | The character machine reads a text exactly as the fold over its complete lines does. A final line without a newline is never acted on. |
| Snapshot.KeysFromTimeLines | utils/VCDParse.ts:519-523 | Entries are never removed, and every new time in `timeData` is the time of a complete `#<digits>` line of the text. |
| Snapshot.FeedKeepsZeroEmpty | utils/VCDParse.ts:523-576 | The entry of time 0 stays empty, because 0 is never truthy. |
| Snapshot.VectorChangeMatches | utils/VCDParse.ts:536-538 | A trimmed `b` line is matched exactly when it splits as `b`, value characters, white space and a rest. |
| Snapshot.VectorChangeComplete | utils/VCDParse.ts:536-546 | On such a split, the stored value is the whole run of value characters. |
| Snapshot.VectorChangeShape | utils/VCDParse.ts:536-546 | A match is such a split, and the identifier starts after all the white space. |
| Snapshot.RealChangeMatches | utils/VCDParse.ts:554-566 | A trimmed `r` line is matched exactly when white space follows its second character. The greedy value runs to the last white space, and the identifier holds none. |
| Snapshot.ReadRange | utils/VCDParse.ts:322 | A stream with `{ start, end }` reads the contiguous bytes from `start` to the inclusive `end`, cut at the end of the file. |
| Snapshot.WindowCovers | utils/VCDParse.ts:315-320 | On a well-formed scale with increasing times, the window around `t` never ends before it starts. It holds the stretch from the last indexed time at or before `t` up to the next indexed time, or to the end of the file. |
| Header.HeaderObj.constructor | utils/VCDParse.ts:348-358 | `headerObj` starts empty: no key, value, modules, signal lists or stack. |
| Header.HeaderObj.ParseHeader | utils/VCDParse.ts:383-463 | `ok` is false exactly where the source throws a `TypeError`. Otherwise the fields become `Feed` of the old state over the chunk. |
| Header.HeaderObj.TakeChar | utils/VCDParse.ts:447-461 | A newline, or a blank before a keyword, is skipped. Otherwise the character extends the value or the key, and the key switches to the value once it is a declaration keyword. |
| Header.HeaderObj.EndDeclaration | utils/VCDParse.ts:396-444 | A value ending in `$end` is acted on by its keyword, then key, value and `alreadyKeyword` reset. It fails exactly where the source throws. |
| Header.HeaderObj.PushScope | utils/VCDParse.ts:396-404 | `$scope` pushes the sliced and trimmed name and gives it an empty signal list and an empty module. |
| Header.HeaderObj.AddVar | utils/VCDParse.ts:405-422 | `$var` appends its entry to the top-of-stack module's list, and fails exactly when that module has no list. |
| Header.HeaderObj.PopScope | utils/VCDParse.ts:423-434 | `$upscope` pops, reparents the popped module under the parent and deletes its top-level entry. It fails exactly when the parent has no entry. |
| Header.HeaderObj.SetField | utils/VCDParse.ts:436-440 | Any other keyword sets `header[key minus $]` to the trimmed body. |
| Header.HeaderObj.ResetKey | utils/VCDParse.ts:442-444 | Key, value and `alreadyKeyword` reset. |
| Header.Declare | utils/VCDParse.ts:396-444 | Every successful declaration returns to the between-declarations state and leaves `headerClose` alone. |
| Header.ClosedAbsorbs | utils/VCDParse.ts:390-395 | Once `$enddefinitions ... $end` is acted on, every later character, in this chunk or a later one, changes nothing. |
| Header.FeedAppend | utils/VCDParse.ts:363-364 | Feeding a text in two chunks gives the same outcome as feeding it whole. |
| Header.EarlyCloseHarmless | utils/VCDParse.ts:363-365 | Text after the header has closed does not change the header, so closing the stream early loses nothing. |
| Header.FeedKeepsCloseHonest | utils/VCDParse.ts:390-395 | `headerClose` is set only by the `$enddefinitions ... $end` that closes the header. |
| Header.ScopeThenUpscope | utils/VCDParse.ts:396-434 | `$scope` then `$upscope` inside a parent restores the stack. The new module has an empty signal list and sits under the parent, and no longer at the top level. |
| Header.ScopeReusingParentName | utils/VCDParse.ts:396-434 | A scope named like its parent replaces it, and its `$upscope` removes the name from the top level. |
| Header.VarInScopeSucceeds | utils/VCDParse.ts:411 | Inside a scope, `$var` never throws. |
| Header.DeclareKeepsStackKnown | utils/VCDParse.ts:396-434 | Every declaration keeps a signal list for every module on the stack. |
| Header.FeedKeepsStackKnown | utils/VCDParse.ts:389-462 | Signal lists are never removed, so every module on the stack keeps a list all along the header. |
| Header.DeclarationKeysClean | utils/VCDParse.ts:47-56 | No keyword of `declarationKey` holds a blank or a newline, or starts with a shorter keyword. |
| Header.NoKeyExtendsAnother | utils/VCDParse.ts:47-56 | No keyword is a prefix of a longer one. |
| Header.KeyRead | utils/VCDParse.ts:455-460 | From between declarations, a declaration keyword is read into `key` and switches to the value. |
| Header.ValuePrefixRead | utils/VCDParse.ts:447-455 | After the keyword, characters other than newline extend the value until it ends in `$end`. |
| Header.DeclarationRead | utils/VCDParse.ts:389-462 | A keyword plus a value that first ends in `$end` at its last character is acted on only when the next character arrives. |
| Header.ScopeNameOf | utils/VCDParse.ts:397-399 | `$scope <kind> <name> $end` yields `<name>` when the kind has 5 or 6 letters (`begin`, `module`). |
| Header.ScopeNameOffByKind | utils/VCDParse.ts:397-399 | The fixed offset 7 cuts the first letter of the name after a 4-letter kind (`task`, `fork`). With `function` the name keeps the kind's last two letters. |
| Header.SplitSpace | utils/VCDParse.ts:409 | `split(/\s+/)` yields at least one piece, and no piece holds white space. |
| Header.SplitJoin | utils/VCDParse.ts:409 | Splitting words joined by single blanks gives back the words. |
| Header.BodyOf | utils/VCDParse.ts:437-439 | `value.slice(0, -4).trim()` of ` <text> $end` is the text. |
| Header.VarEntryOf | utils/VCDParse.ts:406-422 | `$var <type> <width> <id> <name> $end` appends `type width id name`, followed by `[width-1:0]` unless the width is `1`. |
| Header.NatString | utils/VCDParse.ts:421 | An integer prints as a non-empty run of decimal digits. |
| Header.NatStringValue | utils/VCDParse.ts:421 | `Number` of a printed integer gives the integer back. |
| VcdParse.FirstOffset | utils/VCDParse.ts:154 | The start of the signal stream is 0 when the index is empty. On a well-formed scale it is at or below every indexed offset. |
| VcdParse.LastOffset | utils/VCDParse.ts:469 | The start of the max-time stream is 0 when there are no times. On a well-formed non-empty scale it is the last indexed offset and at or above every other. |
| VcdParse.VcdParse.ScannedOffsetsAreTimeLines | utils/VCDParse.ts:152-155 | When a scan of the file finds a time line, both the signal stream and the max-time stream start on a `#` byte of the file. |
| VcdParse.ReadWindow | utils/VCDParse.ts:322-339 | Feeding every chunk of the window to one `signalsObj` gives the `timeData` of the whole window read at once. |
| VcdParse.ReadHeader | utils/VCDParse.ts:362-366 | Closing the stream after the chunk that closes the header gives the header of the whole file. It fails exactly when the whole file would throw. |
| VcdParse.HeaderNextChunk | utils/VCDParse.ts:363-364 | Each chunk continues from the header so far. |
| VcdParse.HeaderThrowStops | utils/VCDParse.ts:363-364 | Once a chunk throws, the whole stream throws. |
| VcdParse.HeaderCloseStops | utils/VCDParse.ts:365 | Once the header has closed, the chunks no longer read change nothing. |
| VcdParse.VcdParse.constructor | utils/VCDParse.ts:46-66 | A parser holds its path, its file and the store. |
| VcdParse.VcdParse.ParseScale | utils/VCDParse.ts:69-145 | A stored scale is returned unchanged, and the store is untouched. Otherwise the file is scanned in 256 KiB chunks, and exactly the returned scale is stored under the path. A store coherent with the file stays coherent. |
| VcdParse.VcdParse.ParseSignal | utils/VCDParse.ts:147-311 | The history of the requested codes, read from the first indexed offset to the end of the file. The scale is stored. |
| VcdParse.VcdParse.ReadFrom | utils/VCDParse.ts:152-155 | A stream opened at `start` with no end reads the file from `start` on, and nothing past the end. |
| VcdParse.VcdParse.ParseSignals | utils/VCDParse.ts:313-344 | The `timeData` of the window that `binarySearch` picks around `t` in the current scale. The scale is stored. |
| VcdParse.VcdParse.ParseHeader | utils/VCDParse.ts:346-381 | The header of the file and `maxTime` when no declaration throws. Otherwise nothing is reported and the store is untouched. |
| VcdParse.VcdParse.ParseMaxTime | utils/VCDParse.ts:465-510 | The last committed time, read from the last indexed offset to the end of the file. The scale is stored. |

## Left out

- The Redis client and its connection settings are left out. A `map` from path to scale stands in for the store.
- JSON round-tripping of the stored scale is left out.
- Read streams, their events and Promises, `console.log` and `process.hrtime` are left out. A stream is the sequence of chunks it delivers.
  - A file read with a `highWaterMark` is taken to arrive in consecutive pieces of that size (`SplitChunks`).
  - Only `parseSacle` depends on the chunking.
- A read error (`rs.on('error')`) is left out. The file is a value.
- `chunk.toString()` is modelled byte by byte (`Decode`), not as UTF-8 decoding. It agrees on ASCII text, but a multi-byte character split across chunks is not modelled.
- JavaScript `Number` precision is left out. Timestamps and base-2 values are unbounded naturals, not doubles that round above 2^53.
- `Number`, `parseInt` and `parseFloat` on forms other than ASCII digit runs are not modelled: signs, exponents, hex and `Infinity`.
- The `parseFloat` / `inf` computation of the `r` branch is left out: its result is never used, and the stored value is the raw text.
- The regular expressions are written as string predicates and functions, and they are proved against explicit descriptions of their matches. The regex engine itself is not modelled.
- The trie's nested arrays are an arena of node values. A child slot holds a node index instead of a reference, so aliasing of the arrays is not modelled; nothing in `conTire` shares a node.
- Reading `curTire[b]` for a byte beyond 126 reads `undefined` (`Lookup`). JavaScript's growth of an array past 127 slots is not modelled.
- Trie.ConTire: requires every code to use character codes below 127 other than 10. With a newline inside a code, or a wider character, the source builds a different trie.
- History.ParseSignalStream: requires the same storable codes as `conTire`, for the same reason.
- VcdParse.VcdParse.ParseSignal: requires the same storable codes as `conTire`, for the same reason.
- `signalHash[signalName][curTime]` for a name outside the requested codes cannot arise with storable codes, so that `TypeError` is not modelled.
- Header.HeaderObj.ParseHeader: when `ok` is false, the fields left behind by the throw are not specified. The source's exception escapes the stream handler, and the fields are never read again.
- VcdParse.VcdParse.ParseHeader: `#parseHeader` can throw a TypeError, for example on a `$var` outside every `$scope`. It throws inside the `data` listener (utils/VCDParse.ts:363-364), and index.ts installs no handler for uncaught exceptions, so Node prints the error and ends the process. The model returns `ok == false` in its place, with no header and no max time.
- The module tree is a value (`Module` inside maps). JavaScript's sharing of the reparented object with the top-level entry it is deleted from is not observable afterwards, so it is not modelled.
- Property names such as `__proto__` and `constructor`, which JavaScript objects treat specially, are treated as ordinary keys.
- Chunks that the stream emits after `rs.close()` in `parseHeader` are modelled as not delivered. By `EarlyCloseHarmless` they would change nothing anyway.
- Node's error for a window whose `start` exceeds its `end` is left out. `WindowCovers` shows that this does not happen on a well-formed scale.

/**
 * `parseSignal` of utils/VCDParse.ts: the value history of a few requested signals,
 * extracted by a six-state byte machine that matches identifier codes with the trie of
 * `conTire`. The result maps every requested code to a map from time to value.
 *
 * The machine is specified here over the SET of requested codes (a byte extends the name
 * read so far when the longer name is still a prefix of some code; a newline completes it
 * when the name is a code), and the method that walks the trie is proved to compute the
 * same thing.
 */
module History {

  import opened Text
  import opened Trie

  /** `status` of `parseSignal`: 0, 1, 2, 3, 4 and 5. */
  datatype Phase = Line | Time | Scalar | Skip | BitsRun | Vector

  /** A recorded value: `Number('0')`, `Number('1')` or `parseInt(bits, 2)`, which is `NaN` for no bits. */
  datatype Sample = Num(n: nat) | NaN

  type Bits = s: seq<byte> | AllBits(s)

  type SignalHash = map<string, map<nat, Sample>>

  /**
   * The machine's variables: `status`, `timeStr`, `curTime`, `signalValue`, `tmpSignalV`,
   * `signalName` (the trie cursor is the node `signalName` leads to) and `signalHash`.
   */
  datatype State = State(phase: Phase, timeStr: Digits, curTime: nat, value: nat, bits: Bits,
                         name: string, hash: SignalHash)

  /** `signalHash[v] = {}` for every requested code. */
  function InitialHash(codes: seq<string>): (h: SignalHash)
    ensures h.Keys == set c | c in codes
    ensures forall c :: c in h ==> h[c] == map[]
  {
    map c | c in codes :: map[]
  }

  function Initial(codes: seq<string>): State
  {
    State(Line, [], 0, 0, [], [], InitialHash(codes))
  }

  /** Every requested code has an entry in the history. */
  predicate Covers(codes: seq<string>, h: SignalHash)
  {
    forall c :: c in codes ==> c in h
  }

  /** `signalHash[name][time] = v` */
  function Put(h: SignalHash, name: string, time: nat, v: Sample): SignalHash
    requires name in h
  {
    var row: map<nat, Sample> := h[name][time := v];
    h[name := row]
  }

  /**
   * States 2 and 5: step the cursor along `b`, or record `v` for the completed name at a
   * newline, or give up on the line.
   */
  ghost function Match(codes: seq<string>, s: State, b: byte, v: Sample): (r: State)
    requires Covers(codes, s.hash)
    ensures r.hash.Keys == s.hash.Keys
  {
    var next := s.name + [b as char];
    if PrefixOfSome(next, codes) then s.(name := next)
    else if b == NEWLINE && s.name in codes then
      s.(hash := Put(s.hash, s.name, s.curTime, v), phase := Line, name := [])
    else s.(name := [], phase := Skip)
  }

  ghost function Step(codes: seq<string>, s: State, b: byte): (r: State)
    requires Covers(codes, s.hash)
    ensures r.hash.Keys == s.hash.Keys
  {
    match s.phase
    case Line =>
      if b == HASH then s.(phase := Time)
      else if b == 48 || b == 49 then s.(value := b - 48, phase := Scalar)
      else if b == 66 || b == 98 then s.(phase := BitsRun)
      else if b == NEWLINE then s
      else s.(phase := Skip)
    case Time =>
      if IsDigit(b) then s.(timeStr := s.timeStr + [b])
      else if b == NEWLINE then
        if s.timeStr != [] then s.(curTime := DecimalValue(s.timeStr), timeStr := [], phase := Line)
        else s.(phase := Line)
      else s.(phase := Skip, timeStr := [])
    case Scalar =>
      Match(codes, s, b, Num(s.value))
    case Skip =>
      if b == NEWLINE then s.(phase := Line) else s
    case BitsRun =>
      if b == 48 || b == 49 then s.(bits := s.bits + [b])
      else if b == SPACE then s.(phase := Vector)
      else if b == NEWLINE then s.(phase := Line, bits := [])
      else s.(bits := [], phase := Skip)
    case Vector =>
      var r := Match(codes, s, b, if s.bits == [] then NaN else Num(BinaryValue(s.bits)));
      if r.phase == Vector then r else r.(bits := [])
  }

  ghost function Run(codes: seq<string>, s: State, bytes: seq<byte>): (r: State)
    requires Covers(codes, s.hash)
    ensures r.hash.Keys == s.hash.Keys
  {
    if bytes == [] then s else Step(codes, Run(codes, s, bytes[..|bytes| - 1]), bytes[|bytes| - 1])
  }

  /** One more byte of the current chunk. */
  lemma {:induction false} RunExtend(codes: seq<string>, s: State, done: seq<byte>, chunk: seq<byte>, i: nat)
    requires Covers(codes, s.hash) && i < |chunk|
    ensures Run(codes, s, done + chunk[..i + 1]) == Step(codes, Run(codes, s, done + chunk[..i]), chunk[i])
  {
    assert (done + chunk[..i + 1])[..|done + chunk[..i]|] == done + chunk[..i];
  }

  /** The history `parseSignal` resolves with, for the bytes it reads. */
  ghost function Extract(codes: seq<string>, bytes: seq<byte>): (h: SignalHash)
    ensures h.Keys == set c | c in codes
  {
    Run(codes, Initial(codes), bytes).hash
  }

  /** The trie cursor: the node `name` leads to while a name is read, the root otherwise. */
  predicate OnTrie(t: seq<Node>, phase: Phase, name: string, cur: nat)
  {
    WellFormed(t) &&
    (phase != Scalar && phase != Vector ==> name == [] && cur == 0) &&
    (phase == Scalar || phase == Vector ==> Walk(t, name) == Some(cur))
  }

  /** The trie's answer at the cursor agrees with the code-set test of `Match`. */
  lemma {:induction false} TrieAgrees(t: seq<Node>, codes: seq<string>, name: string, cur: nat, b: byte)
    requires WellFormed(t) && TerminalsAtNewline(t) && Recognises(t, codes) && Reaches(t, codes, [])
    requires forall c :: c in codes ==> StorableCode(c)
    requires Walk(t, name) == Some(cur)
    ensures Lookup(t[cur], b).Child? <==> PrefixOfSome(name + [b as char], codes)
    ensures Lookup(t[cur], b).Child? ==> Walk(t, name + [b as char]) == Some(Lookup(t[cur], b).node)
    ensures !Lookup(t[cur], b).Child? ==>
      (Lookup(t[cur], b) == Terminal <==> b == NEWLINE && name in codes)
  {
    WalkStep(t, name, b as char, cur);
    assert (b as char) as int == b;
    assert Walk(t, name + [b as char]).Some? <==> PrefixOfSome(name + [b as char], codes);
    assert Member(t, name) <==> name in codes;
  }

  /**
   * States 2 and 5 on one byte: follow the trie from the cursor; at the end-of-code marker
   * record `v` (the bits are converted only then), otherwise give up on the line.
   */
  method Follow(tire: seq<Node>, ghost codes: seq<string>, s: State, cur: nat, b: byte)
    returns (s': State, cur': nat)
    requires WellFormed(tire) && TerminalsAtNewline(tire) && Recognises(tire, codes) && Reaches(tire, codes, [])
    requires forall c :: c in codes ==> StorableCode(c)
    requires Covers(codes, s.hash) && (s.phase == Scalar || s.phase == Vector)
    requires Walk(tire, s.name) == Some(cur)
    ensures s' == Step(codes, s, b)
    ensures OnTrie(tire, s'.phase, s'.name, cur')
  {
    TrieAgrees(tire, codes, s.name, cur, b);
    var slot := Lookup(tire[cur], b);
    if slot.Child? {
      s', cur' := s.(name := s.name + [b as char]), slot.node;
    } else if slot == Terminal {
      var v := if s.phase == Scalar then Num(s.value)
               else if s.bits == [] then NaN else Num(BinaryValue(s.bits));
      var row: map<nat, Sample> := s.hash[s.name][s.curTime := v];
      s', cur' := s.(hash := s.hash[s.name := row], phase := Line, name := []), 0;
      if s.phase == Vector {
        s' := s'.(bits := []);
      }
    } else {
      s', cur' := s.(name := [], phase := Skip), 0;
      if s.phase == Vector {
        s' := s'.(bits := []);
      }
    }
  }

  /** The body of the byte loop of the `data` handler. */
  method Advance(tire: seq<Node>, ghost codes: seq<string>, s: State, cur: nat, b: byte)
    returns (s': State, cur': nat)
    requires WellFormed(tire) && TerminalsAtNewline(tire) && Recognises(tire, codes) && Reaches(tire, codes, [])
    requires forall c :: c in codes ==> StorableCode(c)
    requires Covers(codes, s.hash) && OnTrie(tire, s.phase, s.name, cur)
    ensures s' == Step(codes, s, b)
    ensures OnTrie(tire, s'.phase, s'.name, cur')
  {
    s', cur' := s, cur;
    match s.phase {
      case Line =>
        if b == HASH {
          s' := s.(phase := Time);
        } else if b == 48 || b == 49 {
          s' := s.(value := b - 48, phase := Scalar);
        } else if b == 66 || b == 98 {
          s' := s.(phase := BitsRun);
        } else if b == NEWLINE {
        } else {
          s' := s.(phase := Skip);
        }
      case Time =>
        if IsDigit(b) {
          s' := s.(timeStr := s.timeStr + [b]);
        } else if b == NEWLINE {
          if s.timeStr != [] {
            s' := s.(curTime := DecimalValue(s.timeStr), timeStr := []);
          }
          s' := s'.(phase := Line);
        } else {
          s' := s.(phase := Skip, timeStr := []);
        }
      case Scalar =>
        s', cur' := Follow(tire, codes, s, cur, b);
      case Skip =>
        if b == NEWLINE {
          s' := s.(phase := Line);
        }
      case BitsRun =>
        if b == 48 || b == 49 {
          s' := s.(bits := s.bits + [b]);
        } else if b == SPACE {
          s' := s.(phase := Vector);
        } else if b == NEWLINE {
          s' := s.(phase := Line, bits := []);
        } else {
          s' := s.(bits := [], phase := Skip);
        }
      case Vector =>
        s', cur' := Follow(tire, codes, s, cur, b);
    }
  }

  /** The loop over the bytes of one chunk, continuing from the state the earlier chunks left. */
  method FeedChunk(tire: seq<Node>, ghost signal: seq<string>, ghost done: seq<byte>, chunk: seq<byte>,
                   s0: State, cur0: nat)
    returns (s: State, curTire: nat)
    requires WellFormed(tire) && TerminalsAtNewline(tire) && Recognises(tire, signal) && Reaches(tire, signal, [])
    requires forall c :: c in signal ==> StorableCode(c)
    requires s0 == Run(signal, Initial(signal), done) && OnTrie(tire, s0.phase, s0.name, cur0)
    ensures s == Run(signal, Initial(signal), done + chunk) && OnTrie(tire, s.phase, s.name, curTire)
  {
    s, curTire := s0, cur0;
    assert done + chunk[..0] == done;
    for i := 0 to |chunk|
      invariant s == Run(signal, Initial(signal), done + chunk[..i])
      invariant OnTrie(tire, s.phase, s.name, curTire)
    {
      RunExtend(signal, Initial(signal), done, chunk, i);
      s, curTire := Advance(tire, signal, s, curTire, chunk[i]);
    }
    assert chunk[..|chunk|] == chunk;
  }

  /**
   * The `data` handler of `parseSignal` over every chunk, after `conTire(signal)`: the
   * history it builds is the one the code-set machine specifies.
   */
  method ParseSignalStream(signal: seq<string>, chunks: seq<seq<byte>>) returns (signalHash: SignalHash)
    requires forall c :: c in signal ==> StorableCode(c)
    ensures signalHash == Extract(signal, Concat(chunks))
  {
    var tire := ConTire(signal);
    var s := Initial(signal);
    var curTire: nat := 0;
    for c := 0 to |chunks|
      invariant s == Run(signal, Initial(signal), Concat(chunks[..c]))
      invariant OnTrie(tire, s.phase, s.name, curTire)
    {
      s, curTire := FeedChunk(tire, signal, Concat(chunks[..c]), chunks[c], s, curTire);
      ConcatSnoc(chunks, c);
    }
    assert chunks[..|chunks|] == chunks;
    signalHash := s.hash;
  }

  // ---------------------------------------------------------------------------------------
  // Properties of the machine

  /** Outside states 2 and 5 the name is empty; outside 4 and 5 no bits; outside 1 no digits. */
  predicate Tidy(s: State)
  {
    (s.phase != Scalar && s.phase != Vector ==> s.name == []) &&
    (s.phase != BitsRun && s.phase != Vector ==> s.bits == []) &&
    (s.phase != Time ==> s.timeStr == [])
  }

  lemma {:induction false} RunTidy(codes: seq<string>, bytes: seq<byte>)
    ensures Tidy(Run(codes, Initial(codes), bytes))
  {
    if bytes != [] {
      RunTidy(codes, bytes[..|bytes| - 1]);
      StepTidy(codes, Run(codes, Initial(codes), bytes[..|bytes| - 1]), bytes[|bytes| - 1]);
    }
  }

  lemma StepTidy(codes: seq<string>, s: State, b: byte)
    requires Covers(codes, s.hash) && Tidy(s)
    ensures Tidy(Step(codes, s, b))
  {
    if s.phase == Scalar || s.phase == Vector {
      var v := if s.phase == Scalar then Num(s.value) else if s.bits == [] then NaN else Num(BinaryValue(s.bits));
      var r := Match(codes, s, b, v);
      assert r.phase == s.phase || r.name == [];
    }
  }

  lemma {:induction false} RunAppend(codes: seq<string>, s: State, a: seq<byte>, b: seq<byte>)
    requires Covers(codes, s.hash)
    ensures Run(codes, s, a + b) == Run(codes, Run(codes, s, a), b)
  {
    if b == [] {
      assert a + b == a;
    } else {
      var n := |b| - 1;
      RunAppend(codes, s, a, b[..n]);
      assert (a + b)[..|a + b| - 1] == a + b[..n];
    }
  }

  /** The bytes of an identifier code. */
  function Bytes(p: string): (r: seq<byte>)
    requires StorableCode(p)
    ensures |r| == |p| && forall k :: 0 <= k < |p| ==> r[k] as char == p[k]
  {
    seq(|p|, k requires 0 <= k < |p| => p[k] as int)
  }

  /** No code contains a newline, so a name followed by a newline extends no code. */
  lemma NewlineEndsName(codes: seq<string>, p: string)
    requires forall c :: c in codes ==> StorableCode(c)
    ensures !PrefixOfSome(p + [NEWLINE as char], codes)
  {
    var q := p + [NEWLINE as char];
    forall w | w in codes
      ensures !(q <= w)
    {
      if |q| <= |w| {
        assert w[|p|] as int != TERMINAL_SLOT;
        assert q[|p|] as int == TERMINAL_SLOT;
      }
    }
  }

  /** In states 2 and 5 the cursor follows a code byte by byte. */
  lemma {:induction false} ReadName(codes: seq<string>, s: State, p: string)
    requires Covers(codes, s.hash) && (s.phase == Scalar || s.phase == Vector)
    requires StorableCode(p) && PrefixOfSome(s.name + p, codes)
    ensures Run(codes, s, Bytes(p)) == s.(name := s.name + p)
  {
    if p == [] {
      assert s.name + p == s.name;
    } else {
      var n := |p| - 1;
      var b := Bytes(p)[n];
      BytesSnoc(p);
      PrefixShrinks(codes, s.name, p, n);
      ReadName(codes, s, p[..n]);
      RunSnoc(codes, s, Bytes(p[..n]), b);
      var s1 := s.(name := s.name + p[..n]);
      assert b as char == p[n];
      assert p[..n] + [p[n]] == p;
      SnocAssoc(s.name, p[..n], p[n]);
      NameGrows(codes, s1, b);
    }
  }

  /**
   * A line `0<code>` or `1<code>` ending in a newline, read at a line start, records the
   * digit's value for `code` at the current time, and changes nothing else.
   */
  lemma {:induction false} ScalarLineRecorded(codes: seq<string>, s: State, v: byte, code: string)
    requires forall c :: c in codes ==> StorableCode(c)
    requires Covers(codes, s.hash) && Tidy(s) && s.phase == Line
    requires (v == 48 || v == 49) && code in codes
    ensures Run(codes, s, [v] + Bytes(code) + [NEWLINE]) ==
      s.(value := v - 48, hash := Put(s.hash, code, s.curTime, Num(v - 48)))
  {
    var s1 := s.(value := v - 48, phase := Scalar);
    var s3 := s1.(name := code);
    assert Run(codes, s, [v] + Bytes(code)) == s3 by {
      assert Run(codes, s, [v]) == s1 by {
        assert [v][..0] == [];
      }
      assert [] + code == code;
      ReadName(codes, s1, code);
      RunAppend(codes, s, [v], Bytes(code));
    }
    MatchCloses(codes, s3, Num(v - 48));
    assert Step(codes, s3, NEWLINE) == s.(value := v - 48, hash := Put(s.hash, code, s.curTime, Num(v - 48)));
    RunSnoc(codes, s, [v] + Bytes(code), NEWLINE);
  }

  lemma {:induction false} ReadBits(codes: seq<string>, s: State, bits: Bits)
    requires Covers(codes, s.hash) && s.phase == BitsRun
    ensures Run(codes, s, bits) == s.(bits := s.bits + bits)
  {
    if bits == [] {
      assert s.bits + bits == s.bits;
    } else {
      var n := |bits| - 1;
      ReadBits(codes, s, bits[..n]);
      assert s.bits + bits[..n] + [bits[n]] == s.bits + bits;
    }
  }

  /** The head `b<bits> ` of a vector line leaves the bits collected and the name to come. */
  lemma {:induction false} VectorHead(codes: seq<string>, s: State, lead: byte, bits: Bits)
    requires Covers(codes, s.hash) && s.phase == Line && s.bits == [] && (lead == 66 || lead == 98)
    ensures Run(codes, s, [lead] + bits + [SPACE]) == s.(phase := Vector, bits := bits)
  {
    var s1 := s.(phase := BitsRun);
    assert Run(codes, s, [lead]) == s1 by {
      assert [lead][..0] == [];
    }
    ReadBits(codes, s1, bits);
    assert s1.bits + bits == bits;
    RunAppend(codes, s, [lead], bits);
    var head := [lead] + bits + [SPACE];
    assert head[..|head| - 1] == [lead] + bits;
  }

  /** One more byte at the end of the input. */
  lemma RunSnoc(codes: seq<string>, s: State, a: seq<byte>, b: byte)
    requires Covers(codes, s.hash)
    ensures Run(codes, s, a + [b]) == Step(codes, Run(codes, s, a), b)
  {
    assert (a + [b])[..|a|] == a;
  }

  lemma BytesSnoc(p: string)
    requires StorableCode(p) && p != []
    ensures Bytes(p) == Bytes(p[..|p| - 1]) + [Bytes(p)[|p| - 1]]
  {
  }

  lemma PrefixShrinks(codes: seq<string>, q: string, p: string, n: nat)
    requires n <= |p| && PrefixOfSome(q + p, codes)
    ensures PrefixOfSome(q + p[..n], codes)
  {
    var w :| w in codes && q + p <= w;
    assert q + p[..n] <= w;
  }

  lemma SnocAssoc(a: string, b: string, c: char)
    ensures (a + b) + [c] == a + (b + [c])
  {
  }

  /** In states 2 and 5 a byte that keeps the name a prefix of some code extends the name. */
  lemma NameGrows(codes: seq<string>, s: State, b: byte)
    requires Covers(codes, s.hash) && (s.phase == Scalar || s.phase == Vector)
    requires PrefixOfSome(s.name + [b as char], codes)
    ensures Step(codes, s, b) == s.(name := s.name + [b as char])
  {
  }

  /** A newline after a complete code records the sample and starts a new line. */
  lemma MatchCloses(codes: seq<string>, s: State, v: Sample)
    requires forall c :: c in codes ==> StorableCode(c)
    requires Covers(codes, s.hash) && s.name in codes
    ensures Match(codes, s, NEWLINE, v) == s.(hash := Put(s.hash, s.name, s.curTime, v), phase := Line, name := [])
  {
    NewlineEndsName(codes, s.name);
  }

  /**
   * A line `b<bits> <code>` (or `B...`) ending in a newline, read at a line start, records
   * the binary value of the bits for `code` at the current time, `NaN` when there are none.
   */
  lemma {:induction false} VectorLineRecorded(codes: seq<string>, s: State, lead: byte, bits: Bits, code: string)
    requires forall c :: c in codes ==> StorableCode(c)
    requires Covers(codes, s.hash) && Tidy(s) && s.phase == Line
    requires (lead == 66 || lead == 98) && code in codes
    ensures Run(codes, s, [lead] + bits + [SPACE] + Bytes(code) + [NEWLINE]) ==
      s.(hash := Put(s.hash, code, s.curTime, if bits == [] then NaN else Num(BinaryValue(bits))))
  {
    var head := [lead] + bits + [SPACE];
    var s3 := s.(phase := Vector, bits := bits, name := code);
    assert Run(codes, s, head + Bytes(code)) == s3 by {
      VectorHead(codes, s, lead, bits);
      assert [] + code == code;
      ReadName(codes, s.(phase := Vector, bits := bits), code);
      RunAppend(codes, s, head, Bytes(code));
    }
    var v := if bits == [] then NaN else Num(BinaryValue(bits));
    MatchCloses(codes, s3, v);
    var r := s3.(hash := Put(s.hash, code, s.curTime, v), phase := Line, name := []);
    assert Step(codes, s3, NEWLINE) == r.(bits := []);
    assert r.(bits := []) == s.(hash := Put(s.hash, code, s.curTime, v));
    RunSnoc(codes, s, head + Bytes(code), NEWLINE);
  }

  lemma {:induction false} ReadDigits(codes: seq<string>, s: State, ds: Digits)
    requires Covers(codes, s.hash) && s.phase == Time
    ensures Run(codes, s, ds) == s.(timeStr := s.timeStr + ds)
  {
    if ds == [] {
      assert s.timeStr + ds == s.timeStr;
    } else {
      var n := |ds| - 1;
      ReadDigits(codes, s, ds[..n]);
      assert s.timeStr + ds[..n] + [ds[n]] == s.timeStr + ds;
    }
  }

  /**
   * A line `#<digits>` ending in a newline, read at a line start, makes its value the
   * current time; a bare `#` leaves the current time as it was.
   */
  lemma {:induction false} TimeLineSetsTime(codes: seq<string>, s: State, ds: Digits)
    requires Covers(codes, s.hash) && Tidy(s) && s.phase == Line
    ensures Run(codes, s, [HASH] + ds + [NEWLINE]) == if ds == [] then s else s.(curTime := DecimalValue(ds))
  {
    var s1 := s.(phase := Time);
    assert Run(codes, s, [HASH]) == s1 by {
      assert [HASH][..0] == [];
    }
    ReadDigits(codes, s1, ds);
    assert [] + ds == ds;
    RunAppend(codes, s, [HASH], ds);
    var line := [HASH] + ds + [NEWLINE];
    assert line[..|line| - 1] == [HASH] + ds;
  }

  lemma {:induction false} SkipRest(codes: seq<string>, s: State, rest: seq<byte>)
    requires Covers(codes, s.hash) && s.phase == Skip && NEWLINE !in rest
    ensures Run(codes, s, rest) == s
  {
    if rest != [] {
      SkipRest(codes, s, rest[..|rest| - 1]);
      assert rest[|rest| - 1] in rest;
    }
  }

  /**
   * A line that starts with none of `#`, `0`, `1`, `b`, `B` (an `x`/`z` value, a real, a
   * keyword) records nothing and changes nothing.
   */
  lemma {:induction false} OtherLineIgnored(codes: seq<string>, s: State, lead: byte, rest: seq<byte>)
    requires Covers(codes, s.hash) && Tidy(s) && s.phase == Line
    requires lead !in {HASH, 48, 49, 66, 98, NEWLINE} && NEWLINE !in rest
    ensures Run(codes, s, [lead] + rest + [NEWLINE]) == s
  {
    var s1 := s.(phase := Skip);
    assert Run(codes, s, [lead]) == s1 by {
      assert [lead][..0] == [];
    }
    SkipRest(codes, s1, rest);
    RunAppend(codes, s, [lead], rest);
    var line := [lead] + rest + [NEWLINE];
    assert line[..|line| - 1] == [lead] + rest;
  }

  /** A value line whose name is a proper prefix of a code, but not a code, ends in state 3. */
  lemma {:induction false} PrefixNameGivesUp(codes: seq<string>, s: State, v: byte, p: string)
    requires forall c :: c in codes ==> StorableCode(c)
    requires Covers(codes, s.hash) && Tidy(s) && s.phase == Line
    requires (v == 48 || v == 49) && StorableCode(p) && p !in codes && PrefixOfSome(p, codes)
    ensures Run(codes, s, [v] + Bytes(p) + [NEWLINE]) == s.(value := v - 48, phase := Skip)
  {
    var s1 := s.(value := v - 48, phase := Scalar);
    var s3 := s1.(name := p);
    assert Run(codes, s, [v] + Bytes(p)) == s3 by {
      assert Run(codes, s, [v]) == s1 by {
        assert [v][..0] == [];
      }
      assert [] + p == p;
      ReadName(codes, s1, p);
      RunAppend(codes, s, [v], Bytes(p));
    }
    NewlineEndsName(codes, p);
    assert Step(codes, s3, NEWLINE) == s.(value := v - 48, phase := Skip);
    RunSnoc(codes, s, [v] + Bytes(p), NEWLINE);
  }

  /**
   * Such a line gives up AT its newline, so the machine then skips the whole next line,
   * whatever it holds.
   */
  lemma {:induction false} PrefixNameSkipsNextLine(codes: seq<string>, s: State, v: byte, p: string, next: seq<byte>)
    requires forall c :: c in codes ==> StorableCode(c)
    requires Covers(codes, s.hash) && Tidy(s) && s.phase == Line
    requires (v == 48 || v == 49) && StorableCode(p) && p !in codes && PrefixOfSome(p, codes)
    requires NEWLINE !in next
    ensures Run(codes, s, [v] + Bytes(p) + [NEWLINE] + next + [NEWLINE]) == s.(value := v - 48)
  {
    var head := [v] + Bytes(p) + [NEWLINE];
    var s2 := s.(value := v - 48, phase := Skip);
    assert Run(codes, s, head + next) == s2 by {
      PrefixNameGivesUp(codes, s, v, p);
      SkipRest(codes, s2, next);
      RunAppend(codes, s, head, next);
    }
    RunSnoc(codes, s, head + next, NEWLINE);
  }
  /** The first byte at which a name that is no prefix of any code leaves every code. */
  lemma FirstMiss(codes: seq<string>, name: string) returns (i: nat)
    requires name != [] && !PrefixOfSome(name, codes)
    ensures i < |name| && !PrefixOfSome(name[..i + 1], codes)
    ensures i > 0 ==> PrefixOfSome(name[..i], codes)
  {
    assert name[..|name|] == name;
    i := 0;
    while PrefixOfSome(name[..i + 1], codes)
      invariant i < |name|
      invariant i > 0 ==> PrefixOfSome(name[..i], codes)
      decreases |name| - i
    {
      i := i + 1;
    }
  }

  /** The bytes of a name cut at index `i`: those before it, the byte at it and those after. */
  lemma BytesAround(p: string, i: nat)
    requires StorableCode(p) && i < |p|
    ensures StorableCode(p[..i]) && StorableCode(p[i + 1..])
    ensures Bytes(p) == Bytes(p[..i]) + [p[i] as int] + Bytes(p[i + 1..])
  {
    var r := Bytes(p[..i]) + [p[i] as int] + Bytes(p[i + 1..]);
    assert |r| == |p|;
    forall k | 0 <= k < |p| ensures r[k] == Bytes(p)[k] {
      if k < i {} else if k == i {} else {}
    }
  }

  /** A code's bytes hold no newline. */
  lemma BytesNoNewline(p: string)
    requires StorableCode(p)
    ensures NEWLINE !in Bytes(p)
  {
    forall k | 0 <= k < |p| ensures Bytes(p)[k] != NEWLINE {
      assert Bytes(p)[k] as char == p[k];
    }
  }

  /** In states 2 and 5 a byte other than a newline that leaves every code gives up on the line. */
  lemma MissGivesUp(codes: seq<string>, s: State, b: byte)
    requires Covers(codes, s.hash) && (s.phase == Scalar || s.phase == Vector)
    requires s.phase == Scalar ==> s.bits == []
    requires b != NEWLINE && !PrefixOfSome(s.name + [b as char], codes)
    ensures Step(codes, s, b) == s.(name := [], phase := Skip, bits := [])
  {
  }

  /** The name read up to the byte where it leaves every code. */
  lemma {:induction false} ReadToMiss(codes: seq<string>, s: State, p: string)
    requires Covers(codes, s.hash) && (s.phase == Scalar || s.phase == Vector) && s.name == []
    requires StorableCode(p) && (p != [] ==> PrefixOfSome(p, codes))
    ensures Run(codes, s, Bytes(p)) == s.(name := p)
  {
    if p == [] {
      assert Bytes(p) == [];
    } else {
      assert s.name + p == p;
      ReadName(codes, s, p);
    }
  }

  /** Reading a name up to and including the byte where it leaves every code. */
  lemma {:induction false} ReadPastMiss(codes: seq<string>, s: State, name: string, i: nat)
    requires Covers(codes, s.hash) && (s.phase == Scalar || s.phase == Vector)
    requires s.name == [] && (s.phase == Scalar ==> s.bits == [])
    requires StorableCode(name) && i < |name| && !PrefixOfSome(name[..i + 1], codes)
    requires i > 0 ==> PrefixOfSome(name[..i], codes)
    ensures StorableCode(name[..i])
    ensures Run(codes, s, Bytes(name[..i]) + [name[i] as int]) == s.(phase := Skip, bits := [])
  {
    var p := name[..i];
    var b: byte := name[i] as int;
    assert StorableCode(p);
    ReadToMiss(codes, s, p);
    assert p + [b as char] == name[..i + 1];
    MissGivesUp(codes, s.(name := p), b);
    RunSnoc(codes, s, Bytes(p), b);
  }

  /**
   * In states 2 and 5, with no name read yet, a name that is no prefix of any code sends
   * the machine to state 3 at the byte where it leaves every code, and the newline after it
   * ends the line: only the phase and the collected bits change.
   */
  lemma {:induction false} NameFallsOff(codes: seq<string>, s: State, name: string)
    requires Covers(codes, s.hash) && (s.phase == Scalar || s.phase == Vector)
    requires s.name == [] && (s.phase == Scalar ==> s.bits == [])
    requires StorableCode(name) && name != [] && !PrefixOfSome(name, codes)
    ensures Run(codes, s, Bytes(name) + [NEWLINE]) == s.(phase := Line, bits := [])
  {
    var i := FirstMiss(codes, name);
    ReadPastMiss(codes, s, name, i);
    BytesAround(name, i);
    BytesNoNewline(name[i + 1..]);
    SkipLine(codes, s, Bytes(name[..i]) + [name[i] as int], Bytes(name[i + 1..]));
  }

  /** Once a line is given up on, its remaining bytes and its newline lead back to state 0. */
  lemma SkipLine(codes: seq<string>, s: State, head: seq<byte>, rest: seq<byte>)
    requires Covers(codes, s.hash) && Run(codes, s, head).phase == Skip && NEWLINE !in rest
    ensures Run(codes, s, head + rest + [NEWLINE]) == Run(codes, s, head).(phase := Line)
  {
    SkipRest(codes, Run(codes, s, head), rest);
    RunAppend(codes, s, head, rest);
    RunSnoc(codes, s, head + rest, NEWLINE);
  }

  /**
   * A line `0<name>` or `1<name>` whose name is no prefix of any requested code records
   * nothing: the history and the current time are as before, whatever the digit.
   */
  lemma {:induction false} UnrequestedLineIgnored(codes: seq<string>, s: State, v: byte, name: string)
    requires Covers(codes, s.hash) && Tidy(s) && s.phase == Line
    requires (v == 48 || v == 49) && StorableCode(name) && name != [] && !PrefixOfSome(name, codes)
    ensures Run(codes, s, [v] + Bytes(name) + [NEWLINE]) == s.(value := v - 48)
  {
    var s1 := s.(value := v - 48, phase := Scalar);
    assert Run(codes, s, [v]) == s1 by {
      assert [v][..0] == [];
    }
    NameFallsOff(codes, s1, name);
    RunAppend(codes, s, [v], Bytes(name) + [NEWLINE]);
    assert [v] + Bytes(name) + [NEWLINE] == [v] + (Bytes(name) + [NEWLINE]);
  }

  /**
   * A line `b<bits> <name>` whose name is no prefix of any requested code records nothing
   * and leaves the whole state as it was.
   */
  lemma {:induction false} UnrequestedVectorIgnored(codes: seq<string>, s: State, lead: byte, bits: Bits, name: string)
    requires Covers(codes, s.hash) && Tidy(s) && s.phase == Line
    requires (lead == 66 || lead == 98) && StorableCode(name) && name != [] && !PrefixOfSome(name, codes)
    ensures Run(codes, s, [lead] + bits + [SPACE] + Bytes(name) + [NEWLINE]) == s
  {
    var head := [lead] + bits + [SPACE];
    var s1 := s.(phase := Vector, bits := bits);
    VectorHead(codes, s, lead, bits);
    NameFallsOff(codes, s1, name);
    RunAppend(codes, s, head, Bytes(name) + [NEWLINE]);
    assert head + Bytes(name) + [NEWLINE] == head + (Bytes(name) + [NEWLINE]);
  }
}

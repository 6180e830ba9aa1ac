/**
 * `conTire` of utils/conTire.ts: a trie over the requested identifier codes, built from
 * 127-slot nodes. A slot holds nothing (`undefined`), a child node, or `true`; `true` is
 * only ever written to slot 10 (newline), because the matcher of the history extractor
 * recognises a code by the newline that follows it.
 *
 * The nodes live in an arena: node 0 is the root (`tireList`), and a child slot holds the
 * arena index of the node the JavaScript array would point to.
 */
module Trie {

  import opened Text

  const WIDTH := 127
  const TERMINAL_SLOT := 10

  datatype Slot = Hole | Terminal | Child(node: nat)

  type Node = seq<Slot>

  /** `new Array(127)` */
  function EmptyNode(): Node
  {
    seq(WIDTH, _ => Hole)
  }

  /** `node[b]`: an index outside the array reads `undefined`. */
  function Lookup(n: Node, b: int): Slot
  {
    if 0 <= b < |n| then n[b] else Hole
  }

  predicate WellFormed(t: seq<Node>)
  {
    |t| > 0 &&
    (forall n :: 0 <= n < |t| ==> |t[n]| == WIDTH) &&
    (forall n, k :: 0 <= n < |t| && 0 <= k < |t[n]| && t[n][k].Child? ==> t[n][k].node < |t|)
  }

  /** The node reached from the root by following the character codes of `p`, if any. */
  function Walk(t: seq<Node>, p: string): (r: Option<nat>)
    requires WellFormed(t)
    ensures r.Some? ==> r.value < |t|
  {
    if p == [] then Some(0)
    else match Walk(t, p[..|p| - 1])
      case None => None
      case Some(m) =>
        match Lookup(t[m], p[|p| - 1] as int)
        case Child(c) => Some(c)
        case _ => None
  }

  /** `p` is recognised: walking it ends on a node whose slot 10 is `true`. */
  predicate Member(t: seq<Node>, p: string)
    requires WellFormed(t)
  {
    var w := Walk(t, p);
    w.Some? && t[w.value][TERMINAL_SLOT] == Terminal
  }

  /** `p` can still be extended to one of the codes. */
  ghost predicate PrefixOfSome(p: string, codes: seq<string>)
  {
    exists s :: s in codes && p <= s
  }

  /** Codes `conTire` can store: no newline and no character code beyond the 127 slots. */
  predicate StorableCode(s: string)
  {
    forall k :: 0 <= k < |s| ==> s[k] as int < WIDTH && s[k] as int != TERMINAL_SLOT
  }

  /** Only slot 10 ever holds `true`, and slot 10 never holds a child. */
  predicate TerminalsAtNewline(t: seq<Node>)
    requires WellFormed(t)
  {
    forall n, k :: 0 <= n < |t| && 0 <= k < WIDTH ==>
      (t[n][k] == Terminal ==> k == TERMINAL_SLOT) && (k == TERMINAL_SLOT ==> !t[n][k].Child?)
  }

  /**
   * The fresh root alone, the trie of no codes: it is well formed, only the empty path
   * leads anywhere, and it recognises nothing.
   */
  lemma EmptyTrie()
    ensures var t := [EmptyNode()];
      WellFormed(t) && TerminalsAtNewline(t) &&
      (forall p :: Walk(t, p).Some? <==> p == []) &&
      (forall p :: !Member(t, p))
  {
    var t := [EmptyNode()];
    forall p | p != [] ensures Walk(t, p).None? {
      var w := Walk(t, p[..|p| - 1]);
      assert w.Some? ==> Lookup(t[w.value], p[|p| - 1] as int) == Hole;
    }
  }

  /** Every node remembers the path that created it: the arena is a tree. */
  ghost predicate Labelled(t: seq<Node>, labels: seq<string>)
  {
    WellFormed(t) && |labels| == |t| && labels[0] == [] &&
    forall n, k :: 0 <= n < |t| && 0 <= k < WIDTH && t[n][k].Child? ==>
      labels[t[n][k].node] == labels[n] + [k as char]
  }

  lemma {:induction false} WalkLabel(t: seq<Node>, labels: seq<string>, p: string)
    requires Labelled(t, labels)
    ensures Walk(t, p).Some? ==> labels[Walk(t, p).value] == p
  {
    if p != [] {
      var q := p[..|p| - 1];
      WalkLabel(t, labels, q);
      assert q + [p[|p| - 1]] == p;
    }
  }

  /**
   * Adding a child `N` (a fresh, empty node) at the empty slot `c` of `cur` keeps every
   * existing walk and makes at most the walks into `N` succeed that failed before.
   */
  lemma {:induction false} WalkGrow(t: seq<Node>, cur: nat, c: nat, p: string)
    requires WellFormed(t) && cur < |t| && c < WIDTH && t[cur][c] == Hole
    requires WellFormed(t[cur := t[cur][c := Child(|t|)]] + [EmptyNode()])
    ensures var t' := t[cur := t[cur][c := Child(|t|)]] + [EmptyNode()];
      (Walk(t, p).Some? ==> Walk(t', p) == Walk(t, p)) &&
      (Walk(t, p).None? ==> Walk(t', p).None? || Walk(t', p) == Some(|t|))
  {
    var t': seq<Node> := t[cur := t[cur][c := Child(|t|)]] + [EmptyNode()];
    if p != [] {
      var q := p[..|p| - 1];
      WalkGrow(t, cur, c, q);
    }
  }

  /** Walks only look at child slots. */
  lemma {:induction false} WalkSameChildren(t: seq<Node>, t': seq<Node>, p: string)
    requires WellFormed(t) && WellFormed(t') && |t| == |t'|
    requires forall n, k :: 0 <= n < |t| && 0 <= k < WIDTH && (t[n][k].Child? || t'[n][k].Child?) ==>
      t[n][k] == t'[n][k]
    ensures Walk(t, p) == Walk(t', p)
  {
    if p != [] {
      WalkSameChildren(t, t', p[..|p| - 1]);
    }
  }

  lemma WalkStep(t: seq<Node>, p: string, ch: char, m: nat)
    requires WellFormed(t) && Walk(t, p) == Some(m)
    ensures Walk(t, p + [ch]) == if Lookup(t[m], ch as int).Child? then Some(Lookup(t[m], ch as int).node) else None
  {
    assert (p + [ch])[..|p|] == p;
  }

  /** The strings the trie recognises are exactly `codes`. */
  ghost predicate Recognises(t: seq<Node>, codes: seq<string>)
    requires WellFormed(t)
  {
    forall p :: Member(t, p) <==> p in codes
  }

  /** A walk succeeds exactly on the prefixes of `codes` (and of the code being inserted). */
  ghost predicate Reaches(t: seq<Node>, codes: seq<string>, partial: string)
    requires WellFormed(t)
  {
    forall p :: Walk(t, p).Some? <==> p == [] || PrefixOfSome(p, codes) || p <= partial
  }

  /** The invariant of the construction: `done` codes inserted, `partial` walked so far. */
  ghost predicate Building(t: seq<Node>, labels: seq<string>, done: seq<string>, partial: string)
  {
    Labelled(t, labels) && TerminalsAtNewline(t) && Recognises(t, done) && Reaches(t, done, partial)
  }

  lemma PrefixSnoc(p: string, s: string, ch: char)
    ensures p <= s + [ch] <==> p <= s || p == s + [ch]
  {
    if p <= s + [ch] && p != s + [ch] {
      assert |p| <= |s|;
      assert p == (s + [ch])[..|p|] == s[..|p|];
    }
  }

  /** The cursor steps into a child that already exists. */
  lemma StepExisting(t: seq<Node>, labels: seq<string>, done: seq<string>, partial: string, ch: char)
    requires Building(t, labels, done, partial)
    requires Walk(t, partial + [ch]).Some?
    ensures Building(t, labels, done, partial + [ch])
  {
    forall p
      ensures Walk(t, p).Some? <==> p == [] || PrefixOfSome(p, done) || p <= partial + [ch]
    {
      PrefixSnoc(p, partial, ch);
    }
  }

  /** Growing the arena keeps it well formed, and the new node's label is its path. */
  lemma GrowShape(t: seq<Node>, labels: seq<string>, cur: nat, ch: char)
    requires Labelled(t, labels) && TerminalsAtNewline(t) && cur < |t|
    requires ch as int < WIDTH && ch as int != TERMINAL_SLOT && t[cur][ch as int] == Hole
    ensures var t' := t[cur := t[cur][ch as int := Child(|t|)]] + [EmptyNode()];
      WellFormed(t') && TerminalsAtNewline(t') && Labelled(t', labels + [labels[cur] + [ch]])
  {
    var c := ch as int;
    var t': seq<Node> := t[cur := t[cur][c := Child(|t|)]] + [EmptyNode()];
    var labels' := labels + [labels[cur] + [ch]];
    assert (c as char) == ch;
    forall n | 0 <= n < |t'|
      ensures |t'[n]| == WIDTH
      ensures forall k :: 0 <= k < WIDTH && t'[n][k].Child? ==> t'[n][k].node < |t'|
    {
      if n == |t| {
        assert t'[n] == EmptyNode();
      } else if n == cur {
        assert t'[n] == t[cur][c := Child(|t|)];
      } else {
        assert t'[n] == t[n];
      }
    }
    assert WellFormed(t');
    forall n, k | 0 <= n < |t'| && 0 <= k < WIDTH
      ensures (t'[n][k] == Terminal ==> k == TERMINAL_SLOT) && (k == TERMINAL_SLOT ==> !t'[n][k].Child?)
      ensures t'[n][k].Child? ==> labels'[t'[n][k].node] == labels'[n] + [k as char]
    {
      if n == |t| {
        assert t'[n] == EmptyNode();
      } else if n == cur {
        assert t'[n] == t[cur][c := Child(|t|)];
      } else {
        assert t'[n] == t[n];
      }
    }
  }

  /** `curTire[c] = new Array(127)` at an empty slot, then the cursor steps into it. */
  lemma {:induction false} StepGrow(t: seq<Node>, labels: seq<string>, done: seq<string>,
                                    partial: string, ch: char, cur: nat)
    requires Building(t, labels, done, partial)
    requires Walk(t, partial) == Some(cur)
    requires ch as int < WIDTH && ch as int != TERMINAL_SLOT && t[cur][ch as int] == Hole
    ensures var t' := t[cur := t[cur][ch as int := Child(|t|)]] + [EmptyNode()];
      Building(t', labels + [partial + [ch]], done, partial + [ch]) &&
      Walk(t', partial + [ch]) == Some(|t|)
  {
    var c := ch as int;
    var t': seq<Node> := t[cur := t[cur][c := Child(|t|)]] + [EmptyNode()];
    var labels' := labels + [partial + [ch]];
    WalkLabel(t, labels, partial);
    GrowShape(t, labels, cur, ch);
    assert (partial + [ch])[..|partial|] == partial;
    WalkGrow(t, cur, c, partial);
    forall p
      ensures Member(t', p) <==> p in done
      ensures Walk(t', p).Some? <==> p == [] || PrefixOfSome(p, done) || p <= partial + [ch]
    {
      GrowAt(t, labels', done, partial, ch, cur, p);
    }
  }

  /** Growing a child at the end of `partial` changes what one path `p` means only when `p` is the new path. */
  lemma {:induction false} GrowAt(t: seq<Node>, labels': seq<string>, done: seq<string>,
                                  partial: string, ch: char, cur: nat, p: string)
    requires WellFormed(t) && TerminalsAtNewline(t) && cur < |t|
    requires ch as int < WIDTH && ch as int != TERMINAL_SLOT && t[cur][ch as int] == Hole
    requires Labelled(t[cur := t[cur][ch as int := Child(|t|)]] + [EmptyNode()], labels')
    requires labels'[|t|] == partial + [ch] && Walk(t, partial) == Some(cur)
    requires Member(t, p) <==> p in done
    requires Walk(t, p).Some? <==> p == [] || PrefixOfSome(p, done) || p <= partial
    ensures var t' := t[cur := t[cur][ch as int := Child(|t|)]] + [EmptyNode()];
      (Member(t', p) <==> p in done) &&
      (Walk(t', p).Some? <==> p == [] || PrefixOfSome(p, done) || p <= partial + [ch])
  {
    var t' := t[cur := t[cur][ch as int := Child(|t|)]] + [EmptyNode()];
    WalkGrow(t, cur, ch as int, p);
    WalkLabel(t', labels', p);
    PrefixSnoc(p, partial, ch);
    assert t'[|t|] == EmptyNode();
    if p == partial + [ch] {
      WalkGrow(t, cur, ch as int, partial);
      WalkStep(t', partial, ch, cur);
    }
    if Walk(t, p).Some? {
      var w := Walk(t, p).value;
      assert w == cur ==> t'[w][TERMINAL_SLOT] == t[w][TERMINAL_SLOT];
      assert w != cur ==> t'[w] == t[w];
    }
  }

  /** Marking the end of `code` changes what one path `p` means only when `p` is `code`. */
  lemma {:induction false} MarkAt(t: seq<Node>, labels: seq<string>, done: seq<string>, code: string, cur: nat, p: string)
    requires Labelled(t, labels) && TerminalsAtNewline(t) && Walk(t, code) == Some(cur)
    requires WellFormed(t[cur := t[cur][TERMINAL_SLOT := Terminal]])
    requires Member(t, p) <==> p in done
    requires Walk(t, p).Some? <==> p == [] || PrefixOfSome(p, done) || p <= code
    ensures Member(t[cur := t[cur][TERMINAL_SLOT := Terminal]], p) <==> p in done + [code]
    ensures Walk(t[cur := t[cur][TERMINAL_SLOT := Terminal]], p).Some? <==> p == [] || PrefixOfSome(p, done + [code])
  {
    var t': seq<Node> := t[cur := t[cur][TERMINAL_SLOT := Terminal]];
    WalkSameChildren(t, t', p);
    WalkLabel(t, labels, p);
    WalkLabel(t, labels, code);
    if PrefixOfSome(p, done) {
      var s :| s in done && p <= s;
      assert s in done + [code];
    }
    if p <= code {
      assert code in done + [code];
    }
    if PrefixOfSome(p, done + [code]) {
      var s :| s in done + [code] && p <= s;
      if s != code { assert s in done; }
    }
  }

  /** `curTire[10] = true` at the end of a code; the code becomes a member. */
  lemma {:induction false} StepMark(t: seq<Node>, labels: seq<string>, done: seq<string>,
                                    code: string, cur: nat)
    requires Building(t, labels, done, code)
    requires Walk(t, code) == Some(cur)
    ensures Building(t[cur := t[cur][TERMINAL_SLOT := Terminal]], labels, done + [code], [])
  {
    var t': seq<Node> := t[cur := t[cur][TERMINAL_SLOT := Terminal]];
    assert Labelled(t', labels);
    forall p
      ensures Member(t', p) <==> p in done + [code]
      ensures Walk(t', p).Some? <==> p == [] || PrefixOfSome(p, done + [code])
    {
      MarkAt(t, labels, done, code, cur, p);
    }
  }

  /**
   * Builds the trie. Walking a code from the root passes only through child nodes, and the
   * last node has `true` in slot 10; conversely a `true` in slot 10 is met exactly at the
   * end of a code; a walk succeeds exactly on the prefixes of the codes, so a code that is a
   * prefix of another ends on a node holding both the marker and a child. The outcome is a
   * function of the set of codes: duplicates and order do not matter.
   */
  method ConTire(signals: seq<string>) returns (t: seq<Node>)
    requires forall s :: s in signals ==> StorableCode(s)
    ensures WellFormed(t) && TerminalsAtNewline(t)
    ensures Recognises(t, signals) && Reaches(t, signals, [])
  {
    t := [EmptyNode()];
    ghost var labels: seq<string> := [[]];
    var i := 0;
    while i < |signals|
      invariant i <= |signals|
      invariant Building(t, labels, signals[..i], [])
    {
      assert signals[i] in signals;
      t, labels := Insert(t, labels, signals[..i], signals[i]);
      assert signals[..i + 1] == signals[..i] + [signals[i]];
      i := i + 1;
    }
    assert signals[..i] == signals;
  }

  lemma TakeSnoc(s: string, j: nat)
    requires j < |s|
    ensures s[..j + 1] == s[..j] + [s[j]]
  {
  }

  /** One round of the outer loop of `conTire`: walks `signal` from the root, growing nodes, and marks its end. */
  method Insert(t0: seq<Node>, ghost labels0: seq<string>, ghost done: seq<string>, signal: string)
    returns (t: seq<Node>, ghost labels: seq<string>)
    requires Building(t0, labels0, done, []) && StorableCode(signal)
    ensures Building(t, labels, done + [signal], [])
  {
    t, labels := t0, labels0;
    var cur := 0;
    var j := 0;
    ghost var partial: string := [];
    while j < |signal|
      invariant j <= |signal| && partial == signal[..j]
      invariant Building(t, labels, done, partial)
      invariant Walk(t, partial) == Some(cur)
    {
      t, labels, cur := Descend(t, labels, done, partial, signal[j], cur);
      TakeSnoc(signal, j);
      partial := partial + [signal[j]];
      j := j + 1;
    }
    assert signal[..j] == signal;
    StepMark(t, labels, done, signal, cur);
    t := t[cur := t[cur][TERMINAL_SLOT := Terminal]];
  }

  /** One round of the inner loop: follow the child for `ch`, creating it when the slot is empty. */
  method Descend(t0: seq<Node>, ghost labels0: seq<string>, ghost done: seq<string>, ghost partial: string,
                 ch: char, cur0: nat)
    returns (t: seq<Node>, ghost labels: seq<string>, cur: nat)
    requires Building(t0, labels0, done, partial) && Walk(t0, partial) == Some(cur0)
    requires ch as int < WIDTH && ch as int != TERMINAL_SLOT
    ensures Building(t, labels, done, partial + [ch]) && Walk(t, partial + [ch]) == Some(cur)
  {
    t, labels := t0, labels0;
    var c := ch as int;
    WalkStep(t, partial, ch, cur0);
    if t[cur0][c] == Hole {
      StepGrow(t, labels, done, partial, ch, cur0);
      t, labels := t[cur0 := t[cur0][c := Child(|t|)]] + [EmptyNode()], labels + [partial + [ch]];
    } else {
      StepExisting(t, labels, done, partial, ch);
    }
    cur := t[cur0][c].node;
  }

  /** Every prefix of a code can be walked. */
  lemma ReachesPrefix(t: seq<Node>, codes: seq<string>, code: string, n: nat)
    requires WellFormed(t) && Reaches(t, codes, []) && code in codes && n <= |code|
    ensures Walk(t, code[..n]).Some?
  {
    assert code[..n] <= code;
    assert PrefixOfSome(code[..n], codes);
  }

  /**
   * A code that is a strict prefix of another (`"!"` and `"!!"`) ends on a node that holds
   * both the marker in slot 10 and the child on which the longer code continues.
   */
  lemma PrefixCodeKeepsChild(t: seq<Node>, codes: seq<string>, short: string, long: string)
    requires WellFormed(t) && Recognises(t, codes) && Reaches(t, codes, [])
    requires short in codes && long in codes && short < long
    ensures Walk(t, short).Some?
    ensures t[Walk(t, short).value][TERMINAL_SLOT] == Terminal
    ensures Lookup(t[Walk(t, short).value], long[|short|] as int).Child?
  {
    assert Member(t, short);
    var ch := long[|short|];
    ReachesPrefix(t, codes, long, |short| + 1);
    assert long[..|short| + 1] == short + [ch];
    WalkStep(t, short, ch, Walk(t, short).value);
  }
}

/**
 * `#parseHeader` of utils/VCDParse.ts: the declaration section of a VCD file, read character
 * by character. Outside a declaration the characters build a keyword; once the keyword is
 * one of `declarationKey`, they build its value, up to a value that ends in `$end`, which is
 * acted on when the NEXT character arrives. The state lives in `headerObj` and is carried
 * from one chunk to the next.
 */
module Header {

  import opened Text

  /** `declarationKey` of the `VCDParse` constructor. */
  const DeclarationKeys: set<string> :=
    {"$comment", "$date", "$enddefinitions", "$scope", "$timescale", "$upscope", "$var", "$version"}

  predicate IsDeclarationKey(s: string)
  {
    |s| >= 1 && s[0] == '$' && s in DeclarationKeys
  }

  /**
   * An entry of `header.modules`: an object whose properties are the modules nested in it,
   * or `undefined`, which `$upscope` stores when the closed module has no top-level entry.
   */
  datatype Module = Undefined | Module(children: map<string, Module>)

  /**
   * The fields of `headerObj`: `key`, `value`, `alreadyKeyword`, `headerClose`, the
   * `modules` and `signalsOfModule` of `header`, its other properties (`date`, `version`,
   * `timescale`, `comment`) and `moduleStack`.
   */
  datatype HeaderState = HeaderState(key: string, value: string, alreadyKeyword: bool, headerClose: bool,
                                     modules: map<string, Module>, signalsOfModule: map<string, seq<string>>,
                                     fields: map<string, string>, moduleStack: seq<string>)

  const Initial: HeaderState := HeaderState([], [], false, false, map[], map[], map[], [])

  /** Between declarations: no keyword and no value collected. */
  predicate Idle(h: HeaderState)
  {
    h.key == [] && h.value == [] && !h.alreadyKeyword
  }

  /** After `$enddefinitions ... $end` has been acted on. */
  predicate Closed(h: HeaderState)
  {
    h.headerClose && h.key == "$enddefinitions" && EndsWith(h.value, "$end")
  }

  // ---------------------------------------------------------------------------------------
  // Declarations

  /** The declaration's text without its `$end`, trimmed: `value.slice(0, value.length - 4).trim()`. */
  function Body(value: string): string
  {
    Trim(Slice(value, 0, |value| - 4))
  }

  /** `value.slice(7, value.length - 4).trim()`: the scope name after a 7-character ` module`. */
  function ScopeName(value: string): string
  {
    Trim(Slice(value, 7, |value| - 4))
  }

  /** The first white-space position of `s` at or after `i`, or `|s|`. */
  function SpaceFrom(s: string, i: nat): (e: nat)
    requires i <= |s|
    ensures i <= e <= |s| && (forall k :: i <= k < e ==> !IsSpace(s[k])) && (e < |s| ==> IsSpace(s[e]))
    decreases |s| - i
  {
    if i < |s| && !IsSpace(s[i]) then SpaceFrom(s, i + 1) else i
  }

  /** The end of the run of white space of `s` that starts at `i`. */
  function SpaceRunEnd(s: string, i: nat): (e: nat)
    requires i <= |s|
    ensures i <= e <= |s| && (forall k :: i <= k < e ==> IsSpace(s[k])) && (e < |s| ==> !IsSpace(s[e]))
    decreases |s| - i
  {
    if i < |s| && IsSpace(s[i]) then SpaceRunEnd(s, i + 1) else i
  }

  /** `s.split(/\s+/g)`: the pieces between the maximal runs of white space. */
  function SplitSpace(s: string): (r: seq<string>)
    ensures |r| >= 1 && forall k :: 0 <= k < |r| ==> NoSpace(r[k])
    decreases |s|
  {
    var i := SpaceFrom(s, 0);
    if i == |s| then [s]
    else
      var j := SpaceRunEnd(s, i);
      [s[..i]] + SplitSpace(s[j..])
  }

  /** `signalSplit[k]` in a string concatenation: the piece, or `"undefined"` past the end. */
  function Piece(r: seq<string>, k: nat): string
  {
    if k < |r| then r[k] else "undefined"
  }

  predicate AllDigitChars(s: string) { forall k :: 0 <= k < |s| ==> '0' <= s[k] <= '9' }

  /** `Number(s)` for the strings a piece can be: decimal digits give their value, others `NaN`. */
  function Number(s: string): Option<nat>
  {
    if AllDigitChars(s) then Some(DecimalValue(Ord(s))) else None
  }

  function DigitChar(d: nat): char
    requires d < 10
  {
    (48 + d) as char
  }

  /** The decimal numeral of `n`, as JavaScript prints an integer. */
  function NatString(n: nat): (s: string)
    ensures |s| >= 1 && AllDigitChars(s)
  {
    if n < 10 then [DigitChar(n)] else NatString(n / 10) + [DigitChar(n % 10)]
  }

  function IntString(i: int): string
  {
    if i < 0 then "-" + NatString(-i) else NatString(i)
  }

  /** The range suffix of a `$var` entry: `[width-1:0]`, or `[NaN:0]` for a width that is no number. */
  function RangeSuffix(width: string): string
  {
    match Number(width)
    case Some(w) => "[" + IntString(w - 1) + ":0]"
    case None => "[NaN:0]"
  }

  /** The entry a `$var` declaration appends: `type width id name`, with the range unless the width is `1`. */
  function VarEntry(value: string): string
  {
    var f := SplitSpace(Body(value));
    Piece(f, 0) + " " + Piece(f, 1) + " " + Piece(f, 2) + " " + Piece(f, 3) +
    (if 1 < |f| && f[1] == "1" then "" else RangeSuffix(Piece(f, 1)))
  }

  /** `moduleStack[moduleStack.length - 1]` as a property key: `"undefined"` for an empty stack. */
  function Top(stack: seq<string>): string
  {
    if stack == [] then "undefined" else stack[|stack| - 1]
  }

  /** `$scope`: push the name and give it an empty signal list and an empty module. */
  function ScopeDecl(h: HeaderState): HeaderState
  {
    OpenScope(h, ScopeName(h.value))
  }

  function OpenScope(h: HeaderState, name: string): HeaderState
  {
    h.(moduleStack := h.moduleStack + [name],
       signalsOfModule := h.signalsOfModule[name := []],
       modules := h.modules[name := Module(map[])])
  }

  /**
   * `$var`: append the entry to the signal list of the top-of-stack module; `None` is the
   * `TypeError` of a module with no list.
   */
  function VarDecl(h: HeaderState): Option<HeaderState>
  {
    var top := Top(h.moduleStack);
    if top !in h.signalsOfModule then None
    else Some(h.(signalsOfModule := h.signalsOfModule[top := h.signalsOfModule[top] + [VarEntry(h.value)]]))
  }

  /** Any other keyword: `header[key.slice(1)]` is set to the declaration's body. */
  function FieldDecl(h: HeaderState): HeaderState
  {
    h.(fields := h.fields[Slice(h.key, 1, |h.key|) := Body(h.value)])
  }

  /**
   * `$upscope`: pop the stack; when a parent remains and the popped name is not empty, store
   * the popped module under the parent and delete its top-level entry. `None` is the
   * `TypeError` of a parent with no top-level entry.
   */
  function Upscope(h: HeaderState): Option<HeaderState>
  {
    if h.moduleStack == [] then Some(h)
    else
      var cur := h.moduleStack[|h.moduleStack| - 1];
      var rest := h.moduleStack[..|h.moduleStack| - 1];
      if rest == [] || cur == [] then Some(h.(moduleStack := rest))
      else
        var parent := rest[|rest| - 1];
        if parent !in h.modules || h.modules[parent].Undefined? then None
        else
          var moved := if cur in h.modules then h.modules[cur] else Undefined;
          var nested := h.modules[parent := Module(h.modules[parent].children[cur := moved])];
          Some(h.(moduleStack := rest, modules := nested - {cur}))
  }

  /**
   * What a value ending in `$end` does (other than `$enddefinitions`), followed by the reset
   * of `key`, `value` and `alreadyKeyword`. `None` is a `TypeError`: a `$var` whose top-of-stack
   * module has no signal list, or an `$upscope` whose parent has no entry.
   */
  function Declare(h: HeaderState): (r: Option<HeaderState>)
    ensures r.Some? ==> Idle(r.value) && r.value.headerClose == h.headerClose
  {
    if h.key == "$scope" then Some(Reset(ScopeDecl(h)))
    else if h.key == "$var" then
      match VarDecl(h)
      case None => None
      case Some(a) => Some(Reset(a))
    else if h.key == "$upscope" then
      match Upscope(h)
      case None => None
      case Some(a) => Some(Reset(a))
    else Some(Reset(FieldDecl(h)))
  }

  /** `key = ''`, `value = ''`, `alreadyKeyword = false` */
  function Reset(h: HeaderState): (r: HeaderState)
    ensures Idle(r)
  {
    h.(key := [], value := [], alreadyKeyword := false)
  }

  /** The character itself: skipped, added to the value, or added to the keyword. */
  function Take(h: HeaderState, c: char): HeaderState
  {
    if c == '\n' || (c == ' ' && !h.alreadyKeyword) then h
    else if h.alreadyKeyword then h.(value := h.value + [c])
    else h.(key := h.key + [c], alreadyKeyword := IsDeclarationKey(h.key + [c]))
  }

  /** One turn of the loop of `#parseHeader`. */
  function Step(h: HeaderState, c: char): Option<HeaderState>
  {
    if EndsWith(h.value, "$end") then
      if h.key == "$enddefinitions" then Some(h.(headerClose := true))
      else
        match Declare(h)
        case None => None
        case Some(d) => Some(Take(d, c))
    else Some(Take(h, c))
  }

  /** The state after the characters of `s`, or `None` once one of them throws. */
  function Feed(h: HeaderState, s: string): Option<HeaderState>
    decreases |s|
  {
    if s == [] then Some(h)
    else
      match Step(h, s[0])
      case None => None
      case Some(h') => Feed(h', s[1..])
  }

  /** `Feed` continued from an outcome. */
  function Then(o: Option<HeaderState>, s: string): Option<HeaderState>
  {
    match o
    case None => None
    case Some(h) => Feed(h, s)
  }

  lemma {:induction false} FeedCons(h: HeaderState, s: string, i: nat)
    requires i < |s|
    ensures Feed(h, s[i..]) == Then(Step(h, s[i]), s[i + 1..])
  {
    assert s[i..][1..] == s[i + 1..];
  }

  // ---------------------------------------------------------------------------------------
  // The object updated in place

  /** `headerObj`, updated in place by `#parseHeader`. */
  class HeaderObj {
    var key: string
    var value: string
    var alreadyKeyword: bool
    var headerClose: bool
    var modules: map<string, Module>
    var signalsOfModule: map<string, seq<string>>
    var fields: map<string, string>
    var moduleStack: seq<string>

    function Value(): HeaderState
      reads this
    {
      HeaderState(key, value, alreadyKeyword, headerClose, modules, signalsOfModule, fields, moduleStack)
    }

    constructor ()
      ensures Value() == Initial
    {
      key, value, alreadyKeyword, headerClose := [], [], false, false;
      modules, signalsOfModule, fields, moduleStack := map[], map[], map[], [];
    }

    /** Any other keyword. */
    method SetField()
      modifies this
      ensures Value() == FieldDecl(old(Value()))
    {
      fields := fields[Slice(key, 1, |key|) := Body(value)];
    }

    /** The reset after every declaration. */
    method ResetKey()
      modifies this
      ensures Value() == Reset(old(Value()))
    {
      key, value, alreadyKeyword := [], [], false;
    }

    /** The `$scope` branch. */
    method PushScope()
      modifies this
      ensures Value() == ScopeDecl(old(Value()))
    {
      var moduleName := ScopeName(value);
      moduleStack := moduleStack + [moduleName];
      signalsOfModule := signalsOfModule[moduleName := []];
      modules := modules[moduleName := Module(map[])];
    }

    /** The `$var` branch. `ok` is false where the source throws. */
    method AddVar() returns (ok: bool)
      modifies this
      ensures ok <==> VarDecl(old(Value())).Some?
      ensures ok ==> Value() == VarDecl(old(Value())).value
    {
      var top := Top(moduleStack);
      if top !in signalsOfModule {
        return false;
      }
      signalsOfModule := signalsOfModule[top := signalsOfModule[top] + [VarEntry(value)]];
      ok := true;
    }

    /** The `$upscope` branch. `ok` is false where the source throws. */
    method PopScope() returns (ok: bool)
      requires key == "$upscope"
      modifies this
      ensures ok <==> Upscope(old(Value())).Some?
      ensures ok ==> Value() == Upscope(old(Value())).value
    {
      if moduleStack != [] {
        var moduleCur := moduleStack[|moduleStack| - 1];
        moduleStack := moduleStack[..|moduleStack| - 1];
        if moduleStack != [] && moduleCur != [] {
          var parent := moduleStack[|moduleStack| - 1];
          if parent !in modules || modules[parent].Undefined? {
            return false;
          }
          var moved := if moduleCur in modules then modules[moduleCur] else Undefined;
          modules := modules[parent := Module(modules[parent].children[moduleCur := moved])];
          modules := modules - {moduleCur};
        }
      }
      ok := true;
    }

    /**
     * The branch taken when `value` ends in `$end` and the keyword is not `$enddefinitions`:
     * act on the declaration, then reset `key`, `value` and `alreadyKeyword`.
     */
    method EndDeclaration() returns (ok: bool)
      requires key != "$enddefinitions"
      modifies this
      ensures ok <==> Declare(old(Value())).Some?
      ensures ok ==> Value() == Declare(old(Value())).value
    {
      if key == "$scope" {
        PushScope();
      } else if key == "$var" {
        ok := AddVar();
        if !ok {
          return;
        }
      } else if key == "$upscope" {
        ok := PopScope();
        if !ok {
          return;
        }
      } else {
        SetField();
      }
      ResetKey();
      ok := true;
    }

    /** The rest of one turn of the loop: skip the character or append it. */
    method TakeChar(c: char)
      modifies this
      ensures Value() == Take(old(Value()), c)
    {
      if c == '\n' || (c == ' ' && !alreadyKeyword) {
        return;
      }
      if alreadyKeyword {
        value := value + [c];
      } else {
        key := key + [c];
      }
      if !alreadyKeyword && IsDeclarationKey(key) {
        alreadyKeyword := true;
      }
    }

    /**
     * `#parseHeader(chunkString, headerObj)`. `ok` is false where the source throws; the
     * fields are then left as they were when it threw.
     */
    method ParseHeader(chunkString: string) returns (ok: bool)
      modifies this
      ensures ok <==> Feed(old(Value()), chunkString).Some?
      ensures ok ==> Value() == Feed(old(Value()), chunkString).value
    {
      ghost var goal := Feed(Value(), chunkString);
      var index := 0;
      while index < |chunkString|
        invariant index <= |chunkString|
        invariant Feed(Value(), chunkString[index..]) == goal
      {
        FeedCons(Value(), chunkString, index);
        if EndsWith(value, "$end") {
          if key == "$enddefinitions" {
            index := index + 1;
            headerClose := true;
            ClosedAbsorbs(Value(), chunkString[index..]);
            break;
          }
          var declared := EndDeclaration();
          if !declared {
            return false;
          }
        }
        TakeChar(chunkString[index]);
        index := index + 1;
      }
      if index == |chunkString| {
        assert chunkString[index..] == [];
      }
      ok := true;
    }
  }

  // ---------------------------------------------------------------------------------------
  // Properties

  /** Once closed, every further character, in this chunk or a later one, changes nothing. */
  lemma {:induction false} ClosedAbsorbs(h: HeaderState, s: string)
    requires Closed(h)
    ensures Feed(h, s) == Some(h)
    decreases |s|
  {
    if s != [] {
      assert Step(h, s[0]) == Some(h);
      ClosedAbsorbs(h, s[1..]);
    }
  }

  /** Splitting the text into chunks does not change the outcome. */
  lemma {:induction false} FeedAppend(h: HeaderState, a: string, b: string)
    ensures Feed(h, a + b) == Then(Feed(h, a), b)
    decreases |a|
  {
    if a == [] {
      assert a + b == b;
    } else {
      assert (a + b)[0] == a[0] && (a + b)[1..] == a[1..] + b;
      match Step(h, a[0])
      case None =>
      case Some(h') => FeedAppend(h', a[1..], b);
    }
  }

  /** Text after the header has closed does not change the header. */
  lemma EarlyCloseHarmless(h: HeaderState, a: string, b: string)
    requires Feed(h, a).Some? && Closed(Feed(h, a).value)
    ensures Feed(h, a + b) == Feed(h, a)
  {
    FeedAppend(h, a, b);
    ClosedAbsorbs(Feed(h, a).value, b);
  }

  /**
   * A `$scope` directly followed by its `$upscope`, inside a parent module: the stack is as
   * before, the new module has an empty signal list, and an empty module of its name sits
   * under the parent and nowhere at the top level.
   */
  lemma ScopeThenUpscope(h: HeaderState, name: string)
    requires h.moduleStack != [] && h.moduleStack[|h.moduleStack| - 1] in h.modules
    requires h.modules[h.moduleStack[|h.moduleStack| - 1]].Module?
    requires name != [] && name != h.moduleStack[|h.moduleStack| - 1]
    ensures var parent := h.moduleStack[|h.moduleStack| - 1];
      Upscope(OpenScope(h, name)) ==
        Some(h.(signalsOfModule := h.signalsOfModule[name := []],
                modules := h.modules[parent := Module(h.modules[parent].children[name := Module(map[])])] - {name}))
  {
    var parent := h.moduleStack[|h.moduleStack| - 1];
    var g := OpenScope(h, name);
    assert g.moduleStack[..|g.moduleStack| - 1] == h.moduleStack;
    var child := Module(h.modules[parent].children[name := Module(map[])]);
    assert g.modules[parent := child] - {name} == h.modules[parent := child] - {name};
  }

  /**
   * A `$scope` whose name repeats the enclosing module's replaces that module with an empty
   * one, and the `$upscope` that closes it then removes the name from the top level.
   */
  lemma ScopeReusingParentName(h: HeaderState, name: string)
    requires h.moduleStack != [] && name == h.moduleStack[|h.moduleStack| - 1] && name != []
    ensures Upscope(OpenScope(h, name)).Some?
    ensures name !in Upscope(OpenScope(h, name)).value.modules
    ensures Upscope(OpenScope(h, name)).value.moduleStack == h.moduleStack
  {
    var g := OpenScope(h, name);
    assert g.moduleStack[..|g.moduleStack| - 1] == h.moduleStack;
  }

  /** `headerClose` is set only by the `$enddefinitions ... $end` that closes the header. */
  predicate CloseHonest(h: HeaderState)
  {
    h.headerClose ==> Closed(h)
  }

  lemma {:induction false} FeedKeepsCloseHonest(h: HeaderState, s: string)
    requires CloseHonest(h) && Feed(h, s).Some?
    ensures CloseHonest(Feed(h, s).value)
    decreases |s|
  {
    if s != [] {
      var h' := Step(h, s[0]).value;
      if h.headerClose {
        ClosedAbsorbs(h, s);
      } else {
        assert !h'.headerClose || Closed(h');
        FeedKeepsCloseHonest(h', s[1..]);
      }
    }
  }

  /** Every module on the stack has a signal list. */
  predicate StackKnown(h: HeaderState)
  {
    forall k :: 0 <= k < |h.moduleStack| ==> h.moduleStack[k] in h.signalsOfModule
  }

  /** Inside a scope, a `$var` never throws. */
  lemma VarInScopeSucceeds(h: HeaderState)
    requires StackKnown(h) && h.moduleStack != []
    ensures VarDecl(h).Some?
  {
    assert Top(h.moduleStack) == h.moduleStack[|h.moduleStack| - 1];
  }

  lemma {:induction false} DeclareKeepsStackKnown(h: HeaderState)
    requires StackKnown(h) && Declare(h).Some?
    ensures StackKnown(Declare(h).value)
  {
    if h.key == "$scope" {
      OpenScopeKeepsStackKnown(h, ScopeName(h.value));
    } else if h.key == "$upscope" {
      UpscopeKeepsStackKnown(h);
    }
  }

  lemma OpenScopeKeepsStackKnown(h: HeaderState, name: string)
    requires StackKnown(h)
    ensures StackKnown(OpenScope(h, name))
  {
    var r := OpenScope(h, name);
    forall k | 0 <= k < |r.moduleStack| ensures r.moduleStack[k] in r.signalsOfModule {
      if k < |h.moduleStack| {
        assert r.moduleStack[k] == h.moduleStack[k];
      }
    }
  }

  lemma UpscopeKeepsStackKnown(h: HeaderState)
    requires StackKnown(h) && Upscope(h).Some?
    ensures StackKnown(Upscope(h).value)
  {
    var r := Upscope(h).value;
    forall k | 0 <= k < |r.moduleStack| ensures r.moduleStack[k] in r.signalsOfModule {
      assert r.moduleStack[k] == h.moduleStack[k];
    }
  }

  /** Signal lists are never removed, so the invariant holds all along the header. */
  lemma {:induction false} FeedKeepsStackKnown(h: HeaderState, s: string)
    requires StackKnown(h) && Feed(h, s).Some?
    ensures StackKnown(Feed(h, s).value)
    decreases |s|
  {
    if s != [] {
      var h' := Step(h, s[0]).value;
      if EndsWith(h.value, "$end") && h.key != "$enddefinitions" {
        DeclareKeepsStackKnown(h);
        assert StackKnown(Declare(h).value);
      }
      assert StackKnown(h');
      FeedKeepsStackKnown(h', s[1..]);
    }
  }

  // ---------------------------------------------------------------------------------------
  // From text to declarations

  /** A keyword read without a skipped character and without stopping early at a shorter keyword. */
  predicate CleanKey(k: string)
  {
    (forall i :: 0 <= i < |k| ==> k[i] != ' ' && k[i] != '\n') &&
    (forall i :: 0 < i < |k| ==> !IsDeclarationKey(k[..i]))
  }

  /** No keyword of `declarationKey` holds a blank or begins with another one. */
  lemma DeclarationKeysClean(k: string)
    requires k in DeclarationKeys
    ensures CleanKey(k)
  {
    forall i | 0 < i < |k| ensures !IsDeclarationKey(k[..i]) {
      if IsDeclarationKey(k[..i]) {
        NoKeyExtendsAnother(k[..i], k);
      }
    }
  }

  lemma NoKeyExtendsAnother(m: string, k: string)
    requires m in DeclarationKeys && k in DeclarationKeys && |m| < |k|
    ensures m != k[..|m|]
  {
    assert m[1] != k[1] || m[2] != k[2];
    assert k[..|m|][1] == k[1] && k[..|m|][2] == k[2];
  }

  lemma {:induction false} KeyPrefixRead(h: HeaderState, k: string, j: nat)
    requires Idle(h) && CleanKey(k) && j <= |k|
    ensures Feed(h, k[..j]) == Some(h.(key := k[..j], alreadyKeyword := IsDeclarationKey(k[..j])))
  {
    if j == 0 {
      assert k[..0] == [];
    } else {
      var g := h.(key := k[..j - 1], alreadyKeyword := false);
      KeyPrefixRead(h, k, j - 1);
      assert !IsDeclarationKey(k[..j - 1]);
      FeedAppend(h, k[..j - 1], [k[j - 1]]);
      assert k[..j - 1] + [k[j - 1]] == k[..j];
      assert Feed(g, [k[j - 1]]) == Step(g, k[j - 1]);
    }
  }

  /** From between declarations, a keyword of `declarationKey` is read into `key` and switches to the value. */
  lemma KeyRead(h: HeaderState, k: string)
    requires Idle(h) && k in DeclarationKeys
    ensures Feed(h, k) == Some(h.(key := k, alreadyKeyword := true))
  {
    DeclarationKeysClean(k);
    KeyPrefixRead(h, k, |k|);
    assert k[..|k|] == k;
  }

  /** The value has not yet ended in `$end` before the last character of `v`. */
  predicate Pending(value: string, v: string)
  {
    forall i :: 0 <= i < |v| ==> !EndsWith(value + v[..i], "$end")
  }

  lemma {:induction false} ValuePrefixRead(h: HeaderState, v: string, j: nat)
    requires h.alreadyKeyword && '\n' !in v && Pending(h.value, v) && j <= |v|
    ensures Feed(h, v[..j]) == Some(h.(value := h.value + v[..j]))
  {
    if j == 0 {
      assert v[..0] == [] && h.value + [] == h.value;
    } else {
      var g := h.(value := h.value + v[..j - 1]);
      ValuePrefixRead(h, v, j - 1);
      FeedAppend(h, v[..j - 1], [v[j - 1]]);
      assert v[..j - 1] + [v[j - 1]] == v[..j];
      assert !EndsWith(g.value, "$end");
      assert Feed(g, [v[j - 1]]) == Step(g, v[j - 1]);
      assert g.value + [v[j - 1]] == h.value + v[..j];
    }
  }

  /**
   * A declaration `k v` is acted on at the character after it: from between declarations,
   * `k` followed by a value that first ends in `$end` at its last character, then one more
   * character `c`, gives the step of `c` from the state holding that keyword and value.
   */
  lemma DeclarationRead(h: HeaderState, k: string, v: string, c: char)
    requires Idle(h) && k in DeclarationKeys
    requires '\n' !in v && Pending([], v)
    ensures Feed(h, k + v + [c]) == Step(h.(key := k, value := v, alreadyKeyword := true), c)
  {
    var g := h.(key := k, alreadyKeyword := true);
    KeyRead(h, k);
    ValuePrefixRead(g, v, |v|);
    assert v[..|v|] == v && [] + v == v;
    FeedAppend(h, k, v);
    FeedAppend(h, k + v, [c]);
    var g' := g.(value := v);
    assert Feed(g', [c]) == Then(Step(g', c), []);
  }

  // ---------------------------------------------------------------------------------------
  // The fields of a declaration

  /** A word: non-empty, without white space. */
  predicate Word(w: string)
  {
    w != [] && NoSpace(w)
  }

  /** Non-empty, with no white space at either end. */
  predicate Trimmed(w: string)
  {
    w != [] && !IsSpace(w[0]) && !IsSpace(w[|w| - 1])
  }

  /** One blank on each side is trimmed away. */
  lemma {:induction false} TrimPadded(w: string)
    requires Trimmed(w)
    ensures Trim(" " + w + " ") == w && Trim(w + " ") == w
  {
    var p := " " + w + " ";
    assert p[1..] == w + " ";
    assert TrimStart(p) == TrimStart(w + " ");
    assert TrimStart(w + " ") == w + " ";
    assert (w + " ")[..|w|] == w;
    assert TrimEnd(w + " ") == TrimEnd(w);
    assert TrimEnd(w) == w;
  }

  /**
   * `$scope <kind> <name> $end` gives the scope the name `<name>` when the kind has five or
   * six letters (`begin`, `module`), the kinds for which the fixed offset 7 is right.
   */
  lemma ScopeNameOf(kind: string, name: string)
    requires Word(kind) && Word(name) && (|kind| == 5 || |kind| == 6)
    ensures ScopeName(" " + kind + " " + name + " $end") == name
  {
    TrimPadded(name);
    if |kind| == 6 {
      ScopeSlice(kind, name, " " + name + " ");
    } else {
      ScopeSlice(kind, name, name + " ");
    }
  }

  /**
   * The characters from offset 7 to the `$end`: what remains of ` <kind> <name> ` after
   * its first seven characters.
   */
  lemma ScopeSlice(kind: string, name: string, m: string)
    requires (|kind| == 6 && m == " " + name + " ") || (|kind| == 5 && m == name + " ")
    ensures Slice(" " + kind + " " + name + " $end", 7, |" " + kind + " " + name + " $end"| - 4) == m
  {
    var v := " " + kind + " " + name + " $end";
    var d := |kind| - 5;
    forall k | 7 <= k < |v| - 4 ensures v[k] == m[k - 7] {
      if k < 7 + d {
        assert v[k] == ' ';
      } else if k < |v| - 5 {
        assert v[k] == name[k - 7 - d];
      } else {
        assert v[k] == ' ';
      }
    }
    assert v[7..|v| - 4] == m;
  }

  /**
   * With a four-letter kind (`task`, `fork`) the offset 7 cuts the first character of the
   * name, and with `function` the name keeps the kind's last two letters in front.
   */
  lemma ScopeNameOffByKind(kind: string, name: string)
    requires Word(kind) && Word(name)
    ensures |kind| == 4 && |name| >= 2 ==> ScopeName(" " + kind + " " + name + " $end") == name[1..]
    ensures |kind| == 8 ==> ScopeName(" " + kind + " " + name + " $end") == kind[6..] + " " + name
  {
    if |kind| == 4 && |name| >= 2 {
      ScopeSliceShort(kind, name);
      TrimPadded(name[1..]);
    }
    if |kind| == 8 {
      var t := kind[6..] + " " + name;
      ScopeSliceLong(kind, name);
      TrimPadded(t);
    }
  }

  lemma ScopeSliceShort(kind: string, name: string)
    requires |kind| == 4 && |name| >= 2
    ensures Slice(" " + kind + " " + name + " $end", 7, |" " + kind + " " + name + " $end"| - 4) == name[1..] + " "
  {
    var v := " " + kind + " " + name + " $end";
    var m := name[1..] + " ";
    forall k | 7 <= k < |v| - 4 ensures v[k] == m[k - 7] {
      if k < |v| - 5 {
        assert v[k] == name[k - 6];
      } else {
        assert v[k] == ' ';
      }
    }
    assert v[7..|v| - 4] == m;
  }

  lemma ScopeSliceLong(kind: string, name: string)
    requires |kind| == 8
    ensures Slice(" " + kind + " " + name + " $end", 7, |" " + kind + " " + name + " $end"| - 4) == kind[6..] + " " + name + " "
  {
    var v := " " + kind + " " + name + " $end";
    var m := kind[6..] + " " + name + " ";
    forall k | 7 <= k < |v| - 4 ensures v[k] == m[k - 7] {
      if k < 9 {
        assert v[k] == kind[k - 1];
      } else if k == 9 {
        assert v[k] == ' ';
      } else if k < |v| - 5 {
        assert v[k] == name[k - 10];
      } else {
        assert v[k] == ' ';
      }
    }
    assert v[7..|v| - 4] == m;
  }

  lemma {:induction false} SplitWords(a: string, rest: string)
    requires Word(a) && rest != [] && !IsSpace(rest[0])
    ensures SplitSpace(a + " " + rest) == [a] + SplitSpace(rest)
  {
    var s := a + " " + rest;
    assert SpaceFrom(s, 0) == |a| by {
      assert s[|a|] == ' ';
      assert forall k :: 0 <= k < |a| ==> s[k] == a[k];
      SpaceFromIs(s, 0, |a|);
    }
    assert SpaceRunEnd(s, |a|) == |a| + 1 by {
      assert s[|a| + 1] == rest[0];
    }
    assert s[..|a|] == a && s[|a| + 1..] == rest;
  }

  lemma {:induction false} SpaceFromIs(s: string, i: nat, e: nat)
    requires i <= e < |s| && IsSpace(s[e]) && forall k :: i <= k < e ==> !IsSpace(s[k])
    ensures SpaceFrom(s, i) == e
    decreases e - i
  {
    if i < e {
      SpaceFromIs(s, i + 1, e);
    }
  }

  lemma {:induction false} SpaceFromNone(s: string, i: nat)
    requires i <= |s| && forall k :: i <= k < |s| ==> !IsSpace(s[k])
    ensures SpaceFrom(s, i) == |s|
    decreases |s| - i
  {
    if i < |s| {
      SpaceFromNone(s, i + 1);
    }
  }

  /** Words separated by single blanks. */
  function JoinSpace(ws: seq<string>): (r: string)
    requires |ws| >= 1 && forall k :: 0 <= k < |ws| ==> Word(ws[k])
    ensures |r| >= |ws[0]| && r[..|ws[0]|] == ws[0] && Trimmed(r)
  {
    var w := ws[0];
    assert Word(w) && !IsSpace(w[0]) && !IsSpace(w[|w| - 1]);
    if |ws| == 1 then w
    else
      var rest := JoinSpace(ws[1..]);
      var r := w + " " + rest;
      assert r[..|w|] == w && r[0] == w[0] && r[|r| - 1] == rest[|rest| - 1];
      r
  }

  /** Splitting at white space undoes the joining. */
  lemma {:induction false} SplitJoin(ws: seq<string>)
    requires |ws| >= 1 && forall k :: 0 <= k < |ws| ==> Word(ws[k])
    ensures SplitSpace(JoinSpace(ws)) == ws
  {
    if |ws| == 1 {
      SpaceFromNone(ws[0], 0);
    } else {
      SplitJoin(ws[1..]);
      var rest := JoinSpace(ws[1..]);
      assert rest[0] == rest[..|ws[1]|][0];
      SplitWords(ws[0], rest);
      assert [ws[0]] + ws[1..] == ws;
    }
  }

  /** Cutting the `$end` of a value keeps the blank before it. */
  lemma DropEnd(q: string)
    ensures Slice(q + " $end", 0, |q + " $end"| - 4) == q + " "
  {
    assert (q + " $end")[..|q| + 1] == q + " ";
  }

  /** The body of a declaration whose value is a blank, the text, a blank and `$end`. */
  lemma BodyOf(j: string)
    requires Trimmed(j)
    ensures Body(" " + j + " $end") == j
  {
    TrimPadded(j);
    DropEnd(" " + j);
  }

  lemma JoinFour(ty: string, width: string, id: string, name: string)
    requires Word(ty) && Word(width) && Word(id) && Word(name)
    ensures JoinSpace([ty, width, id, name]) == ty + " " + width + " " + id + " " + name
  {
    JoinTwo(id, name);
    JoinCons(width, [id, name]);
    assert [width] + [id, name] == [width, id, name];
    JoinCons(ty, [width, id, name]);
    assert [ty] + [width, id, name] == [ty, width, id, name];
  }

  lemma JoinTwo(a: string, b: string)
    requires Word(a) && Word(b)
    ensures JoinSpace([a, b]) == a + " " + b
  {
    assert [a, b][1..] == [b];
  }

  lemma JoinCons(w: string, ws: seq<string>)
    requires Word(w) && |ws| >= 1 && forall k :: 0 <= k < |ws| ==> Word(ws[k])
    ensures JoinSpace([w] + ws) == w + " " + JoinSpace(ws)
  {
    assert ([w] + ws)[1..] == ws;
  }

  /**
   * `$var <type> <width> <id> <name> $end` appends `type width id name`, followed by
   * `[width-1:0]` unless the width is exactly `1`.
   */
  lemma VarEntryOf(ty: string, width: string, id: string, name: string)
    requires Word(ty) && Word(width) && Word(id) && Word(name)
    ensures VarEntry(" " + JoinSpace([ty, width, id, name]) + " $end") ==
      ty + " " + width + " " + id + " " + name + (if width == "1" then "" else RangeSuffix(width))
  {
    var ws := [ty, width, id, name];
    var j := JoinSpace(ws);
    BodyOf(j);
    SplitJoin(ws);
    JoinFour(ty, width, id, name);
  }

  /** Printing a number and reading it back gives the number. */
  lemma {:induction false} NatStringValue(n: nat)
    ensures Number(NatString(n)) == Some(n)
  {
    if n < 10 {
      var o := Ord(NatString(n));
      assert |o| == 1 && o[0] == 48 + n && o[..0] == [];
      assert DecimalValue(o) == DecimalValue(o[..0]) * 10 + (o[0] - 48);
    } else {
      NatStringValue(n / 10);
      var s := NatString(n / 10) + [DigitChar(n % 10)];
      assert Ord(s)[..|s| - 1] == Ord(NatString(n / 10));
      assert Ord(s)[|s| - 1] - 48 == n % 10;
    }
  }
}

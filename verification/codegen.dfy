/** Code generation of base_block.py: `get_func` of a composition chain with its
    closing-bracket countdown (also `get_full_self_func`, the same loop), and `get_func`
    of a general block, which prints its head and then its tab-indented body. */
module CodeGen {
  import opened Util
  import BT = BlockTypes
  import opened Graph

  /** `get_self_func()`: a block's own text. */
  function OwnText(b: Block): string {
    BT.SelfText(b.cls, b.arg)
  }

  /** A block's text as it enters a composed statement: a python-function block loses
      every `)`, which is appended again at the bottom of the chain. */
  function Stripped(b: Block): (r: string)
    ensures b.cls.isPythonFunction ==> ')' !in r
  {
    if b.cls.isPythonFunction then RemoveChar(OwnText(b), ')') else OwnText(b)
  }

  /** The stripped texts of the blocks of `c`, concatenated in order. */
  ghost function ChainText(h: Heap, c: seq<Id>): string
    requires forall i :: 0 <= i < |c| ==> c[i] in h
  {
    if c == [] then "" else ChainText(h, c[..|c| - 1]) + Stripped(h[c[|c| - 1]])
  }

  /** The number of python-function blocks in `c`. */
  ghost function PythonFunctions(h: Heap, c: seq<Id>): nat
    requires forall i :: 0 <= i < |c| ==> c[i] in h
  {
    if c == [] then 0
    else PythonFunctions(h, c[..|c| - 1]) + (if h[c[|c| - 1]].cls.isPythonFunction then 1 else 0)
  }

  /** What `get_func` of a composition yields: a block without `layer_down_block` gives
      its own text untouched; otherwise the stripped texts of the whole chain in order,
      then one `)` per python-function block of the chain. */
  ghost function Composed(h: Heap, rank: Rank, id: Id): string
    requires Ranked(h, rank) && id in h
  {
    if h[id].layerDown.None? then OwnText(h[id])
    else
      var c := Walk(h, rank, id, LayerDown);
      ChainText(h, c) + Repeat(')', PythonFunctions(h, c))
  }

  lemma ChainStep(h: Heap, c: seq<Id>, i: nat)
    requires forall k :: 0 <= k < |c| ==> c[k] in h
    requires i < |c|
    ensures ChainText(h, c[..i + 1]) == ChainText(h, c[..i]) + Stripped(h[c[i]])
    ensures PythonFunctions(h, c[..i + 1])
      == PythonFunctions(h, c[..i]) + (if h[c[i]].cls.isPythonFunction then 1 else 0)
  {
    assert c[..i + 1][..i] == c[..i];
  }

  /** A countdown whose entries all equal `v` holds `v` unless it is empty. */
  lemma PendingEntry(s: seq<int>, v: int)
    requires forall k :: 0 <= k < |s| ==> s[k] == v
    ensures s != [] ==> v in s
  {
    if s != [] {
      assert s[0] == v;
    }
  }

  /** One level of the countdown: appends a `)` per entry that has reached 0 and drops
      it, then counts the rest down by one. Entries all equal the current depth `d`, so
      at the bottom (`d == 0`) every pending bracket closes and none is left. */
  method CloseBrackets(func: string, countdown: seq<int>, ghost d: int) returns (text: string, rest: seq<int>)
    requires forall k :: 0 <= k < |countdown| ==> countdown[k] == d
    ensures d == 0 ==> text == func + Repeat(')', |countdown|) && rest == []
    ensures d != 0 ==> text == func && |rest| == |countdown|
    ensures forall k :: 0 <= k < |rest| ==> rest[k] == d - 1
  {
    text := func;
    rest := countdown;
    while 0 in rest
      invariant forall k :: 0 <= k < |rest| ==> rest[k] == d
      invariant |rest| <= |countdown|
      invariant d != 0 ==> rest == countdown
      invariant text == func + Repeat(')', |countdown| - |rest|)
      decreases |rest|
    {
      text := text + ")";
      rest := RemoveFirst(rest, 0);
    }
    PendingEntry(rest, d);
    if rest != [] {
      rest := seq(|rest|, k requires 0 <= k < |rest| => rest[k] - 1);
    }
  }

  /** One level of the composition loop at the `i`-th block of the chain `c`: the
      block's stripped text, after which every pending `)` closes at the bottom of the
      chain; above it the countdown, with this block's `layer_depth` pushed when it is a
      python function, moves one level down. */
  method Level(h: Heap, ghost rank: Rank, id: Id, ghost c: seq<Id>, ghost i: nat, current: Id, countdown: seq<int>)
    returns (func: string, rest: seq<int>)
    requires Ranked(h, rank) && id in h && c == Walk(h, rank, id, LayerDown)
    requires i < |c| && current == c[i]
    requires forall k :: 0 <= k < |countdown| ==> countdown[k] == |c| - 1 - i
    ensures var pushed := |countdown| + (if h[current].cls.isPythonFunction then 1 else 0);
      && (i == |c| - 1 ==> func == Stripped(h[current]) + Repeat(')', pushed) && rest == [])
      && (i < |c| - 1 ==> func == Stripped(h[current]) && |rest| == pushed)
    ensures forall k :: 0 <= k < |rest| ==> rest[k] == |c| - 2 - i
  {
    func := OwnText(h[current]);
    var pending := countdown;
    if h[current].cls.isPythonFunction {
      func := RemoveChar(func, ')');
      var depth := LayerDepth(h, rank, current);
      WalkSuffix(h, rank, id, LayerDown, i);
      pending := pending + [depth];
    }
    func, rest := CloseBrackets(func, pending, |c| - 1 - i);
  }

  /** At the bottom block of the chain the text built so far, followed by the bottom
      block's text and every pending `)`, is the composed statement. */
  lemma ComposedBottom(h: Heap, rank: Rank, id: Id, c: seq<Id>, i: nat, prefix: string, func: string, pending: nat)
    requires Ranked(h, rank) && id in h && h[id].layerDown.Some? && c == Walk(h, rank, id, LayerDown)
    requires i < |c| && h[c[i]].layerDown.None?
    requires prefix == ChainText(h, c[..i]) && pending == PythonFunctions(h, c[..i])
    requires func == Stripped(h[c[i]]) + Repeat(')', pending + (if h[c[i]].cls.isPythonFunction then 1 else 0))
    ensures prefix + func == Composed(h, rank, id)
  {
    assert Next(h[c[i]], LayerDown).None?;
    assert c[..i + 1] == c;
    ChainStep(h, c, i);
  }

  /** `BaseBlock.get_func` / `BaseGeneralBlock.get_full_self_func`: walks the composition
      chain, strips each python-function block's `)` and pushes its `layer_depth` on the
      countdown, appends one `)` per entry that has reached 0, and counts every entry
      down by one per level. */
  method ComposeStatement(h: Heap, ghost rank: Rank, id: Id) returns (construct: string)
    requires Ranked(h, rank) && id in h
    ensures construct == Composed(h, rank, id)
  {
    var result := OwnText(h[id]);
    if h[id].layerDown.None? {
      return result;
    }
    construct := "";
    var countdown: seq<int> := [];
    var current := id;
    ghost var c := Walk(h, rank, id, LayerDown);
    ghost var i := 0;
    // the source's guard `layer_depth + 1 != 0` always holds: the loop ends at the bottom
    while true
      invariant 0 <= i < |c| && current == c[i]
      invariant construct == ChainText(h, c[..i])
      invariant |countdown| == PythonFunctions(h, c[..i])
      // every pending entry is the current block's layer_depth
      invariant forall k :: 0 <= k < |countdown| ==> countdown[k] == |c| - 1 - i
      decreases |c| - i
    {
      ChainStep(h, c, i);
      var func;
      ghost var pending := |countdown|;
      func, countdown := Level(h, rank, id, c, i, current, countdown);
      var next := h[current].layerDown;
      if next.None? {
        // the bottom block: every entry reached 0 here and was closed
        ComposedBottom(h, rank, id, c, i, construct, func, pending);
        construct := construct + func;
        break;
      }
      construct := construct + func;
      assert Next(h[c[i]], LayerDown) == Some(c[i + 1]);
      current := next.value;
      i := i + 1;
    }
  }

  /** The `)` characters of the non-python-function blocks of `c`. */
  ghost function PlainClosers(h: Heap, c: seq<Id>): nat
    requires forall i :: 0 <= i < |c| ==> c[i] in h
  {
    if c == [] then 0
    else
      var b := h[c[|c| - 1]];
      PlainClosers(h, c[..|c| - 1]) + (if b.cls.isPythonFunction then 0 else Count(OwnText(b), ')'))
  }

  lemma {:induction false} CountRemoved(s: string, ch: char)
    ensures Count(RemoveChar(s, ch), ch) == 0
    decreases |s|
  {
    if s != [] {
      CountRemoved(s[1..], ch);
      CountAppend(if s[0] == ch then [] else [s[0]], RemoveChar(s[1..], ch), ch);
    }
  }

  lemma {:induction false} ChainClosers(h: Heap, c: seq<Id>)
    requires forall i :: 0 <= i < |c| ==> c[i] in h
    ensures Count(ChainText(h, c), ')') == PlainClosers(h, c)
  {
    if c != [] {
      var b := h[c[|c| - 1]];
      ChainClosers(h, c[..|c| - 1]);
      CountAppend(ChainText(h, c[..|c| - 1]), Stripped(b), ')');
      if b.cls.isPythonFunction {
        CountRemoved(OwnText(b), ')');
      }
    }
  }

  /** Bracket balance: in a composed statement every python-function block contributes
      exactly one `)`, whatever its own text held, and the other blocks keep theirs. */
  lemma BracketBalance(h: Heap, rank: Rank, id: Id)
    requires Ranked(h, rank) && id in h && h[id].layerDown.Some?
    ensures var c := Walk(h, rank, id, LayerDown);
      Count(Composed(h, rank, id), ')') == PlainClosers(h, c) + PythonFunctions(h, c)
  {
    var c := Walk(h, rank, id, LayerDown);
    ChainClosers(h, c);
    CountAppend(ChainText(h, c), Repeat(')', PythonFunctions(h, c)), ')');
    CountRepeat(')', PythonFunctions(h, c));
  }

  // ---------------------------------------------------------------------------------
  // get_func of general blocks

  /** What `get_func` yields for any block: a general block joins its head line
      `get_full_self_func() + ':'` with, for every block of `lines`, that block's
      `get_func()` split at newlines and each piece prefixed by a tab. */
  ghost function CodeText(h: Heap, rank: Rank, id: Id): string
    requires Ranked(h, rank) && id in h
    decreases rank[id], 1
  {
    if h[id].cls.isGeneral then
      LinesBelow(h, rank, id);
      Join([Composed(h, rank, id) + ":"] + BodyText(h, rank, Lines(h, rank, id), rank[id]))
    else Composed(h, rank, id)
  }

  ghost function BodyText(h: Heap, rank: Rank, ls: seq<Id>, bound: nat): seq<string>
    requires Ranked(h, rank)
    requires forall x :: x in ls ==> x in h && rank[x] < bound
    decreases bound, 0, |ls|
  {
    if ls == [] then []
    else BodyText(h, rank, ls[..|ls| - 1], bound) + Indent(Split(CodeText(h, rank, ls[|ls| - 1])))
  }

  /** Appending a block to the body appends its indented code lines. */
  lemma BodyAppend(h: Heap, rank: Rank, pre: seq<Id>, x: Id, bound: nat)
    requires Ranked(h, rank)
    requires forall y :: y in pre ==> y in h && rank[y] < bound
    requires x in h && rank[x] < bound
    ensures BodyText(h, rank, pre + [x], bound)
      == BodyText(h, rank, pre, bound) + Indent(Split(CodeText(h, rank, x)))
  {
    assert (pre + [x])[..|pre|] == pre;
  }

  /** `get_func`, as the polymorphic method of base_block.py: the composed statement
      for a plain block, and head plus indented body for a general block. */
  method GetFunc(h: Heap, ghost rank: Rank, id: Id) returns (text: string)
    requires Ranked(h, rank) && id in h
    ensures text == CodeText(h, rank, id)
    decreases rank[id], 1
  {
    if !h[id].cls.isGeneral {
      text := ComposeStatement(h, rank, id);
      return;
    }
    var head := ComposeStatement(h, rank, id);
    var result := [head];
    result := [result[0] + ":"];
    var ls := GetLines(h, rank, id);
    LinesBelow(h, rank, id);
    var body := ExtendWithBodies(h, rank, ls, rank[id]);
    result := result + body;
    text := Join(result);
  }

  /** The loop of a general block's `get_func` over `lines`: each block's code, split at
      newlines, every piece prefixed with a tab. */
  method ExtendWithBodies(h: Heap, ghost rank: Rank, ls: seq<Id>, ghost bound: nat) returns (body: seq<string>)
    requires Ranked(h, rank)
    requires forall x :: x in ls ==> x in h && rank[x] < bound
    ensures body == BodyText(h, rank, ls, bound)
    decreases bound, 0
  {
    body := [];
    for i := 0 to |ls|
      invariant body == BodyText(h, rank, ls[..i], bound)
    {
      assert ls[i] in ls && ls[..i + 1] == ls[..i] + [ls[i]];
      BodyAppend(h, rank, ls[..i], ls[i], bound);
      var t := GetFunc(h, rank, ls[i]);
      body := body + Indent(Split(t));
    }
    assert ls[..|ls|] == ls;
  }

  // ---------------------------------------------------------------------------------
  // The line structure of generated code

  /** No block's own text holds a newline (the argument dialog takes one line). */
  ghost predicate Printable(h: Heap) {
    forall x :: x in h ==> NoNewline(OwnText(h[x]))
  }

  /** The lines of a block's code: its head line, then every line of every body block's
      code with one more tab. */
  ghost function CodeLines(h: Heap, rank: Rank, id: Id): (r: seq<string>)
    requires Ranked(h, rank) && id in h
    decreases rank[id], 1
  {
    if h[id].cls.isGeneral then
      LinesBelow(h, rank, id);
      [Composed(h, rank, id) + ":"] + BodyLines(h, rank, Lines(h, rank, id), rank[id])
    else [Composed(h, rank, id)]
  }

  ghost function BodyLines(h: Heap, rank: Rank, ls: seq<Id>, bound: nat): seq<string>
    requires Ranked(h, rank)
    requires forall x :: x in ls ==> x in h && rank[x] < bound
    decreases bound, 0, |ls|
  {
    if ls == [] then []
    else BodyLines(h, rank, ls[..|ls| - 1], bound) + Indent(CodeLines(h, rank, ls[|ls| - 1]))
  }

  /** The total number of lines of the codes of `ls`. */
  ghost function TotalLines(h: Heap, rank: Rank, ls: seq<Id>): nat
    requires Ranked(h, rank)
    requires forall x :: x in ls ==> x in h
  {
    if ls == [] then 0
    else TotalLines(h, rank, ls[..|ls| - 1]) + |CodeLines(h, rank, ls[|ls| - 1])|
  }

  lemma {:induction false} ChainNoNewline(h: Heap, c: seq<Id>)
    requires Printable(h) && forall i :: 0 <= i < |c| ==> c[i] in h
    ensures NoNewline(ChainText(h, c))
  {
    if c != [] {
      ChainNoNewline(h, c[..|c| - 1]);
      var x := c[|c| - 1];
      assert x in h;
      assert NoNewline(OwnText(h[x]));
      assert NoNewline(Stripped(h[x]));
    }
  }

  lemma ComposedNoNewline(h: Heap, rank: Rank, id: Id)
    requires Ranked(h, rank) && Printable(h) && id in h
    ensures NoNewline(Composed(h, rank, id))
  {
    if h[id].layerDown.Some? {
      ChainNoNewline(h, Walk(h, rank, id, LayerDown));
    }
  }

  /** Splitting a block's generated text at newlines gives exactly its code lines, none
      of which holds a newline. */
  lemma {:induction false} CodeTextLines(h: Heap, rank: Rank, id: Id)
    requires Ranked(h, rank) && Printable(h) && id in h
    ensures Split(CodeText(h, rank, id)) == CodeLines(h, rank, id)
    ensures forall k :: 0 <= k < |CodeLines(h, rank, id)| ==> NoNewline(CodeLines(h, rank, id)[k])
    decreases rank[id], 1
  {
    ComposedNoNewline(h, rank, id);
    var head := Composed(h, rank, id);
    assert NoNewline(head + ":");
    if h[id].cls.isGeneral {
      LinesBelow(h, rank, id);
      var ls := Lines(h, rank, id);
      BodyTextLines(h, rank, ls, rank[id]);
      var all := [head + ":"] + BodyLines(h, rank, ls, rank[id]);
      SplitJoin(all);
    } else {
      SplitNoNewline(head);
    }
  }

  lemma {:induction false} BodyTextLines(h: Heap, rank: Rank, ls: seq<Id>, bound: nat)
    requires Ranked(h, rank) && Printable(h)
    requires forall x :: x in ls ==> x in h && rank[x] < bound
    ensures BodyText(h, rank, ls, bound) == BodyLines(h, rank, ls, bound)
    ensures forall k :: 0 <= k < |BodyLines(h, rank, ls, bound)| ==> NoNewline(BodyLines(h, rank, ls, bound)[k])
    decreases bound, 0, |ls|
  {
    if ls != [] {
      var pre := ls[..|ls| - 1];
      var x := ls[|ls| - 1];
      BodyTextLines(h, rank, pre, bound);
      CodeTextLines(h, rank, x);
      IndentNoNewline(CodeLines(h, rank, x));
      AllNoNewline(BodyLines(h, rank, pre, bound), Indent(CodeLines(h, rank, x)));
    }
  }

  lemma IndentNoNewline(ls: seq<string>)
    requires forall k :: 0 <= k < |ls| ==> NoNewline(ls[k])
    ensures forall k :: 0 <= k < |Indent(ls)| ==> NoNewline(Indent(ls)[k])
  {
    forall k | 0 <= k < |ls| ensures NoNewline(Indent(ls)[k]) {
      assert Indent(ls)[k] == "\t" + ls[k];
    }
  }

  lemma AllNoNewline(a: seq<string>, b: seq<string>)
    requires forall k :: 0 <= k < |a| ==> NoNewline(a[k])
    requires forall k :: 0 <= k < |b| ==> NoNewline(b[k])
    ensures forall k :: 0 <= k < |a + b| ==> NoNewline((a + b)[k])
  {
    forall k | 0 <= k < |a + b| ensures NoNewline((a + b)[k]) {
      if k >= |a| {
        assert (a + b)[k] == b[k - |a|];
      }
    }
  }

  lemma {:induction false} BodyLinesShape(h: Heap, rank: Rank, ls: seq<Id>, bound: nat)
    requires Ranked(h, rank)
    requires forall x :: x in ls ==> x in h && rank[x] < bound
    ensures |BodyLines(h, rank, ls, bound)| == TotalLines(h, rank, ls)
    ensures forall k :: 0 <= k < |BodyLines(h, rank, ls, bound)| ==>
      |BodyLines(h, rank, ls, bound)[k]| > 0 && BodyLines(h, rank, ls, bound)[k][0] == '\t'
    decreases |ls|
  {
    if ls != [] {
      var pre := ls[..|ls| - 1];
      BodyLinesShape(h, rank, pre, bound);
      var mine := Indent(CodeLines(h, rank, ls[|ls| - 1]));
      var all := BodyLines(h, rank, ls, bound);
      forall k | 0 <= k < |all| ensures |all[k]| > 0 && all[k][0] == '\t' {
        if k >= |BodyLines(h, rank, pre, bound)| {
          assert all[k] == mine[k - |BodyLines(h, rank, pre, bound)|];
        }
      }
    }
  }

  lemma GeneralCodeLines(h: Heap, rank: Rank, id: Id)
    requires Ranked(h, rank) && id in h && h[id].cls.isGeneral
    requires forall x :: x in Lines(h, rank, id) ==> x in h && rank[x] < rank[id]
    ensures CodeLines(h, rank, id)
      == [Composed(h, rank, id) + ":"] + BodyLines(h, rank, Lines(h, rank, id), rank[id])
  {
  }

  /** The code of a general block: its first line is the composed head with `:`, every
      further line starts with a tab, and there is one line more than its body blocks
      have lines together. */
  lemma GeneralCodeShape(h: Heap, rank: Rank, id: Id)
    requires Ranked(h, rank) && Printable(h) && id in h && h[id].cls.isGeneral
    ensures var lines := Split(CodeText(h, rank, id));
      && lines[0] == Composed(h, rank, id) + ":"
      && |lines| == 1 + TotalLines(h, rank, Lines(h, rank, id))
      && forall k :: 1 <= k < |lines| ==> |lines[k]| > 0 && lines[k][0] == '\t'
  {
    LinesBelow(h, rank, id);
    CodeTextLines(h, rank, id);
    var ls := Lines(h, rank, id);
    BodyLinesShape(h, rank, ls, rank[id]);
    var body := BodyLines(h, rank, ls, rank[id]);
    GeneralCodeLines(h, rank, id);
    TabbedAfterHead(Composed(h, rank, id) + ":", body);
  }

  lemma TabbedAfterHead(head: string, body: seq<string>)
    requires forall k :: 0 <= k < |body| ==> |body[k]| > 0 && body[k][0] == '\t'
    ensures forall k :: 1 <= k < |[head] + body| ==> |([head] + body)[k]| > 0 && ([head] + body)[k][0] == '\t'
  {
    var lines := [head] + body;
    forall k | 1 <= k < |lines| ensures |lines[k]| > 0 && lines[k][0] == '\t' {
      assert lines[k] == body[k - 1];
    }
  }
}

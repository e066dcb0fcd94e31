/** interpreter.py: turning a diagram into a Python program. The program is the `child`
    chain from the first Start block; each top-level block on it contributes its
    `get_func` lines, indented by one tab, and the lines are wrapped in a fixed
    try/except template. */
module Interpreter {
  import opened Util
  import BT = BlockTypes
  import opened Graph
  import opened CodeGen

  /** What `convert_to_py` produces: the program text, or the `SequenceError` that
      `handle_errors` raises. */
  datatype Outcome = Converted(text: string) | SequenceError

  /** The blocks that `crank` ranks have their `child` links ordered by it: from any of
      them, following `child` reaches a block with no successor. Blocks outside `crank`
      are unconstrained, so the rest of the diagram may hold `child` cycles. */
  ghost predicate ChildRanked(h: Heap, crank: map<Id, nat>) {
    && crank.Keys <= h.Keys
    && forall x :: x in crank && h[x].child.Some? ==> h[x].child.value in crank && crank[h[x].child.value] < crank[x]
  }

  /** When `blocks` hold both a Start and an End block, the first Start block is among
      the ranked blocks: the walk `convert_to_py` makes from it ends. */
  ghost predicate StartRanked(h: Heap, crank: map<Id, nat>, blocks: seq<Id>)
    requires forall i :: 0 <= i < |blocks| ==> blocks[i] in h
  {
    FirstOf(h, blocks, BT.StartBlock).Some? && FirstOf(h, blocks, BT.EndBlock).Some? ==>
      FirstOf(h, blocks, BT.StartBlock).value in crank
  }

  /** The `child` chain from `id`, up to the block without a successor. */
  ghost function ChildChain(h: Heap, crank: map<Id, nat>, id: Id): (c: seq<Id>)
    requires ChildRanked(h, crank) && id in crank
    ensures |c| >= 1 && c[0] == id
    ensures forall i :: 0 <= i < |c| ==> c[i] in h && c[i] in crank
    ensures forall i :: 0 <= i < |c| - 1 ==> h[c[i]].child == Some(c[i + 1])
    ensures h[c[|c| - 1]].child.None?
    decreases crank[id]
  {
    match h[id].child
    case None => [id]
    case Some(n) => [id] + ChildChain(h, crank, n)
  }

  /** `next(i for i in blocks if i.__class__ == cls)`, or `None` when `cls` is not
      among the classes of `blocks`. */
  function FirstOf(h: Heap, blocks: seq<Id>, cls: BT.BlockClass): (r: Option<Id>)
    requires forall i :: 0 <= i < |blocks| ==> blocks[i] in h
    ensures r.None? <==> forall i :: 0 <= i < |blocks| ==> h[blocks[i]].cls != cls
    ensures r.Some? ==> exists i :: 0 <= i < |blocks| && blocks[i] == r.value && h[r.value].cls == cls &&
                                   forall j :: 0 <= j < i ==> h[blocks[j]].cls != cls
  {
    if blocks == [] then None
    else if h[blocks[0]].cls == cls then Some(blocks[0])
    else
      var r := FirstOf(h, blocks[1..], cls);
      if r.Some? then
        var i :| 0 <= i < |blocks[1..]| && blocks[1..][i] == r.value && h[r.value].cls == cls &&
                 forall j :: 0 <= j < i ==> h[blocks[1..][j]].cls != cls;
        assert blocks[i + 1] == r.value;
        r
      else r
  }

  /** The classes along a chain, in order. */
  ghost function Classes(h: Heap, c: seq<Id>): (r: seq<BT.BlockClass>)
    requires forall i :: 0 <= i < |c| ==> c[i] in h
    ensures |r| == |c| && forall i :: 0 <= i < |c| ==> r[i] == h[c[i]].cls
  {
    if c == [] then [] else Classes(h, c[..|c| - 1]) + [h[c[|c| - 1]].cls]
  }

  /** `get_blocks_in_right_order`: the `child` chain from the Start block, in order. */
  method GetBlocksInRightOrder(h: Heap, ghost crank: map<Id, nat>, start: Id) returns (result: seq<Id>)
    requires ChildRanked(h, crank) && start in crank
    ensures result == ChildChain(h, crank, start)
  {
    ghost var c := ChildChain(h, crank, start);
    result := [];
    var current := Some(start);
    while current.Some?
      invariant |result| <= |c| && result == c[..|result|]
      invariant current.Some? ==> |result| < |c| && current.value == c[|result|]
      invariant current.None? ==> |result| == |c|
      decreases |c| - |result|
    {
      result := result + [current.value];
      current := h[current.value].child;
    }
    assert result == c;
  }

  /** `handle_errors`: walks `child` from the first Start block of `blocks` and reports
      whether an End block lies on the way (`false` stands for the raised
      `SequenceError`). */
  method HandleErrors(h: Heap, ghost crank: map<Id, nat>, blocks: seq<Id>) returns (ok: bool)
    requires ChildRanked(h, crank)
    requires forall i :: 0 <= i < |blocks| ==> blocks[i] in h
    requires FirstOf(h, blocks, BT.StartBlock).Some? && FirstOf(h, blocks, BT.StartBlock).value in crank
    ensures ok <==> BT.EndBlock in Classes(h, ChildChain(h, crank, FirstOf(h, blocks, BT.StartBlock).value))
  {
    var start := FirstOf(h, blocks, BT.StartBlock).value;
    ghost var c := ChildChain(h, crank, start);
    var connected: seq<BT.BlockClass> := [];
    var current := Some(start);
    while current.Some?
      invariant |connected| <= |c| && connected == Classes(h, c[..|connected|])
      invariant current.Some? ==> |connected| < |c| && current.value == c[|connected|]
      invariant current.None? ==> |connected| == |c|
      decreases |c| - |connected|
    {
      assert c[..|connected| + 1][..|connected|] == c[..|connected|];
      connected := connected + [h[current.value].cls];
      current := h[current.value].child;
    }
    assert c[..|connected|] == c;
    ok := BT.EndBlock in connected;
  }

  /** A block that starts a statement of its own: it is not merged under another block,
      not in the body of a general block and not a later branch of a chain. */
  predicate TopLevel(b: Block) {
    b.layerUp.None? && b.generalBlock.None? && !(b.cls.hasAdditional && b.additionalUp.Some?)
  }

  /** The lines the top-level blocks of chain `c` contribute: each one's `get_func`
      split at newlines, in chain order. */
  ghost function TopLevelLines(h: Heap, rank: Rank, c: seq<Id>): seq<string>
    requires Ranked(h, rank) && forall i :: 0 <= i < |c| ==> c[i] in h
  {
    if c == [] then []
    else
      var x := c[|c| - 1];
      TopLevelLines(h, rank, c[..|c| - 1]) + (if TopLevel(h[x]) then Split(CodeText(h, rank, x)) else [])
  }

  /** The lines `add_standart_code` puts after the program. */
  const Epilogue: seq<string> := [
    "", "", "\tpass", "except BaseException:", "\tprint(traceback.format_exc())",
    "\tinput(\"press ENTER to close\")", "input(\"press ENTER to close\")"]

  /** The template around the program lines. */
  function Template(body: seq<string>): seq<string> {
    ["import traceback", "try:"] + body + Epilogue
  }

  /** The whole of `convert_to_py`. */
  ghost function Conversion(h: Heap, rank: Rank, crank: map<Id, nat>, blocks: seq<Id>): Outcome
    requires Ranked(h, rank) && ChildRanked(h, crank)
    requires forall i :: 0 <= i < |blocks| ==> blocks[i] in h
    requires StartRanked(h, crank, blocks)
  {
    var start := FirstOf(h, blocks, BT.StartBlock);
    if start.None? || FirstOf(h, blocks, BT.EndBlock).None? then Converted("")
    else
      var chain := ChildChain(h, crank, start.value);
      if BT.EndBlock !in Classes(h, chain) then SequenceError
      else Converted(Join(Template(Indent(TopLevelLines(h, rank, chain)))))
  }

  /** `add_standart_code`: two lines inserted in front, seven appended. */
  method AddStandartCode(program: seq<string>) returns (result: seq<string>)
    ensures result == Template(program)
  {
    result := program;
    result := ["try:"] + result;
    result := ["import traceback"] + result;
    result := result + [""];
    result := result + [""];
    result := result + ["\tpass"];
    result := result + ["except BaseException:"];
    result := result + ["\tprint(traceback.format_exc())"];
    result := result + ["\tinput(\"press ENTER to close\")"];
    result := result + ["input(\"press ENTER to close\")"];
  }

  /** `convert_to_py`. */
  method ConvertToPy(h: Heap, ghost rank: Rank, ghost crank: map<Id, nat>, blocks: seq<Id>) returns (r: Outcome)
    requires Ranked(h, rank) && ChildRanked(h, crank)
    requires forall i :: 0 <= i < |blocks| ==> blocks[i] in h
    requires StartRanked(h, crank, blocks)
    ensures r == Conversion(h, rank, crank, blocks)
  {
    var start := FirstOf(h, blocks, BT.StartBlock);
    var end := FirstOf(h, blocks, BT.EndBlock);
    if start.None? || end.None? {
      return Converted("");
    }
    var chain := GetBlocksInRightOrder(h, crank, start.value);
    assert FirstOf(h, chain, BT.StartBlock) == start by {
      assert h[chain[0]].cls == BT.StartBlock;
    }
    var ok := HandleErrors(h, crank, chain);
    if !ok {
      return SequenceError;
    }
    var blocksResult := CollectLines(h, rank, chain);
    var result := Indent(blocksResult);
    result := AddStandartCode(result);
    r := Converted(Join(result));
  }

  /** The loop of `convert_to_py` over the chain. */
  method CollectLines(h: Heap, ghost rank: Rank, chain: seq<Id>) returns (lines: seq<string>)
    requires Ranked(h, rank) && forall i :: 0 <= i < |chain| ==> chain[i] in h
    ensures lines == TopLevelLines(h, rank, chain)
  {
    lines := [];
    for i := 0 to |chain|
      invariant lines == TopLevelLines(h, rank, chain[..i])
    {
      var b := chain[i];
      assert chain[..i + 1][..i] == chain[..i];
      if h[b].layerUp.Some? {
        continue;
      }
      if h[b].generalBlock.Some? {
        continue;
      }
      if h[b].cls.hasAdditional && h[b].additionalUp.Some? {
        continue;
      }
      var text := GetFunc(h, rank, b);
      lines := lines + Split(text);
    }
    assert chain[..|chain|] == chain;
  }

  /** Without a Start block or without an End block among `blocks` the program is empty. */
  lemma ConversionWithoutMarkers(h: Heap, rank: Rank, crank: map<Id, nat>, blocks: seq<Id>)
    requires Ranked(h, rank) && ChildRanked(h, crank)
    requires forall i :: 0 <= i < |blocks| ==> blocks[i] in h
    requires StartRanked(h, crank, blocks)
    requires (forall i :: 0 <= i < |blocks| ==> h[blocks[i]].cls != BT.StartBlock) ||
             (forall i :: 0 <= i < |blocks| ==> h[blocks[i]].cls != BT.EndBlock)
    ensures Conversion(h, rank, crank, blocks) == Converted("")
  {
  }

  /** Some block of chain `c` is an End block. */
  ghost predicate ReachesEnd(h: Heap, c: seq<Id>)
    requires forall i :: 0 <= i < |c| ==> c[i] in h
  {
    exists k :: 0 <= k < |c| && h[c[k]].cls == BT.EndBlock
  }

  /** `SequenceError` is raised exactly when both markers are present but no End block
      lies on the `child` chain from the first Start block. */
  lemma ConversionError(h: Heap, rank: Rank, crank: map<Id, nat>, blocks: seq<Id>)
    requires Ranked(h, rank) && ChildRanked(h, crank)
    requires forall i :: 0 <= i < |blocks| ==> blocks[i] in h
    requires StartRanked(h, crank, blocks)
    ensures Conversion(h, rank, crank, blocks) == SequenceError <==>
      && FirstOf(h, blocks, BT.StartBlock).Some? && FirstOf(h, blocks, BT.EndBlock).Some?
      && !ReachesEnd(h, ChildChain(h, crank, FirstOf(h, blocks, BT.StartBlock).value))
  {
    var start := FirstOf(h, blocks, BT.StartBlock);
    if start.Some? && FirstOf(h, blocks, BT.EndBlock).Some? {
      assert start.value in crank;
      var c := ChildChain(h, crank, start.value);
      var cs := Classes(h, c);
      if BT.EndBlock in cs {
        var k :| 0 <= k < |cs| && cs[k] == BT.EndBlock;
        assert h[c[k]].cls == BT.EndBlock;
      }
      if ReachesEnd(h, c) {
        var k :| 0 <= k < |c| && h[c[k]].cls == BT.EndBlock;
        assert cs[k] == BT.EndBlock;
      }
    }
  }

  /** Every piece of a `split('\n')` is newline-free, so the top-level lines are. */
  lemma {:induction false} TopLevelNoNewline(h: Heap, rank: Rank, c: seq<Id>)
    requires Ranked(h, rank) && forall i :: 0 <= i < |c| ==> c[i] in h
    ensures forall k :: 0 <= k < |TopLevelLines(h, rank, c)| ==> NoNewline(TopLevelLines(h, rank, c)[k])
  {
    if c != [] {
      var x := c[|c| - 1];
      TopLevelNoNewline(h, rank, c[..|c| - 1]);
      AllNoNewline(TopLevelLines(h, rank, c[..|c| - 1]), if TopLevel(h[x]) then Split(CodeText(h, rank, x)) else []);
    }
  }

  /** The program text, split at newlines, is the template around the top-level lines of
      the chain from Start, each with one leading tab: two header lines, the body, then
      the seven fixed closing lines, `n + 9` lines in all. */
  lemma ConversionLines(h: Heap, rank: Rank, crank: map<Id, nat>, blocks: seq<Id>)
    requires Ranked(h, rank) && ChildRanked(h, crank)
    requires forall i :: 0 <= i < |blocks| ==> blocks[i] in h
    requires StartRanked(h, crank, blocks)
    requires Conversion(h, rank, crank, blocks).Converted?
    requires FirstOf(h, blocks, BT.StartBlock).Some? && FirstOf(h, blocks, BT.EndBlock).Some?
    ensures var lines := Split(Conversion(h, rank, crank, blocks).text);
            var body := TopLevelLines(h, rank, ChildChain(h, crank, FirstOf(h, blocks, BT.StartBlock).value));
            && |lines| == |body| + 9
            && lines[0] == "import traceback" && lines[1] == "try:"
            && (forall k :: 0 <= k < |body| ==> lines[k + 2] == "\t" + body[k])
            && lines[|body| + 2..] == Epilogue
  {
    var c := ChildChain(h, crank, FirstOf(h, blocks, BT.StartBlock).value);
    TopLevelNoNewline(h, rank, c);
    TemplateLines(TopLevelLines(h, rank, c));
  }

  /** The shape of the joined template around newline-free program lines. */
  lemma TemplateLines(body: seq<string>)
    requires forall k :: 0 <= k < |body| ==> NoNewline(body[k])
    ensures var lines := Split(Join(Template(Indent(body))));
            && |lines| == |body| + 9
            && lines[0] == "import traceback" && lines[1] == "try:"
            && (forall k :: 0 <= k < |body| ==> lines[k + 2] == "\t" + body[k])
            && lines[|body| + 2..] == Epilogue
  {
    IndentNoNewline(body);
    var head := ["import traceback", "try:"];
    assert NoNewline(head[0]) && NoNewline(head[1]);
    AllNoNewline(head, Indent(body));
    EpilogueLines();
    AllNoNewline(head + Indent(body), Epilogue);
    SplitJoin(head + Indent(body) + Epilogue);
    assert (head + Indent(body) + Epilogue)[|body| + 2..] == Epilogue;
  }

  lemma EpilogueLines()
    ensures forall k :: 0 <= k < |Epilogue| ==> NoNewline(Epilogue[k])
  {
    forall k | 0 <= k < |Epilogue| ensures NoNewline(Epilogue[k]) {
      EpilogueLine(k);
    }
  }

  lemma EpilogueLine(k: nat)
    requires k < |Epilogue|
    ensures NoNewline(Epilogue[k])
  {
    if k == 0 {
    } else if k == 1 {
    } else if k == 2 {
    } else if k == 3 {
    } else if k == 4 {
    } else if k == 5 {
    } else {
    }
  }

  /** A Start or End block that is not merged with anything has empty code: on the chain
      it contributes exactly one empty line, which becomes a tab-only line. */
  lemma MarkerLine(h: Heap, rank: Rank, c: seq<Id>, x: Id)
    requires Ranked(h, rank) && forall i :: 0 <= i < |c| ==> c[i] in h
    requires x in h && (h[x].cls == BT.StartBlock || h[x].cls == BT.EndBlock)
    requires h[x].layerDown.None? && h[x].layerUp.None? && h[x].generalBlock.None?
    ensures TopLevelLines(h, rank, c + [x]) == TopLevelLines(h, rank, c) + [""]
  {
    assert (c + [x])[..|c|] == c;
    BT.SilentTexts(h[x].arg);
    assert CodeText(h, rank, x) == "";
  }

  /** The blocks of `c` that start a statement of their own, in order. */
  ghost function TopLevelOnly(h: Heap, c: seq<Id>): (r: seq<Id>)
    requires forall i :: 0 <= i < |c| ==> c[i] in h
    ensures forall i :: 0 <= i < |r| ==> r[i] in c && TopLevel(h[r[i]])
  {
    if c == [] then []
    else
      var x := c[|c| - 1];
      var pre := TopLevelOnly(h, c[..|c| - 1]);
      assert forall i :: 0 <= i < |pre| ==> pre[i] in c[..|c| - 1];
      pre + (if TopLevel(h[x]) then [x] else [])
  }

  /** Blocks that are merged under another block, in a general block's body or a later
      branch of a chain contribute nothing: the program is the same with them dropped. */
  lemma {:induction false} OnlyTopLevelCounts(h: Heap, rank: Rank, c: seq<Id>)
    requires Ranked(h, rank) && forall i :: 0 <= i < |c| ==> c[i] in h
    ensures TopLevelLines(h, rank, c) == TopLevelLines(h, rank, TopLevelOnly(h, c))
  {
    if c != [] {
      var x := c[|c| - 1];
      var pre := TopLevelOnly(h, c[..|c| - 1]);
      OnlyTopLevelCounts(h, rank, c[..|c| - 1]);
      if TopLevel(h[x]) {
        assert TopLevelOnly(h, c) == pre + [x];
        assert (pre + [x])[..|pre|] == pre;
      } else {
        assert TopLevelOnly(h, c) == pre;
      }
    }
  }
}

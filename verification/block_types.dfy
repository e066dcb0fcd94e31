/** Block classes and the per-class statement text (blocks.py), and the widget `Block`
    of blocks.py with its `child` and `arg` fields.

    Python dispatches on the block's class; here a class is a `BlockClass` value: its name
    (what the save file stores), how its own text is built from the argument, and the
    three class flags the graph code tests (`is_python_function`, being a
    `BaseGeneralBlock`, being a `BaseGeneralBlockWithAdditionalBlocks`). */
module BlockTypes {
  import opened Util

  /** How a class renders `get_func` / `get_self_func` from its argument. */
  datatype TextRule =
    | NoText                                  // returns ''
    | Affixed(prefix: string, suffix: string) // returns prefix + arg + suffix

  datatype BlockClass = BlockClass(
    name: string,
    rule: TextRule,
    isPythonFunction: bool,
    isGeneral: bool,
    hasAdditional: bool)
  {
    /** A class with an additional-block chain is a general block too. */
    predicate WellShaped() {
      hasAdditional ==> isGeneral
    }
  }

  /** The statement text a block of class `c` with argument `arg` produces on its own. */
  function SelfText(c: BlockClass, arg: string): string {
    match c.rule
    case NoText => ""
    case Affixed(prefix, suffix) => prefix + arg + suffix
  }

  /** Recovers the argument from a block's own text; the inverse of `SelfText`
      for classes whose text shows the argument. */
  function ArgumentOf(c: BlockClass, text: string): (r: Option<string>)
    ensures r.Some? ==> SelfText(c, r.value) == text
  {
    match c.rule
    case NoText => None
    case Affixed(prefix, suffix) =>
      if |prefix| + |suffix| <= |text| && text[..|prefix|] == prefix && text[|text| - |suffix|..] == suffix
      then
        var a := text[|prefix|..|text| - |suffix|];
        assert prefix + a + suffix == text;
        Some(a)
      else None
  }

  // The classes of blocks.py.
  const PlainBlock := BlockClass("Block", NoText, false, false, false)
  const InputBlock := BlockClass("InputBlock", Affixed("", " = input()"), false, false, false)
  const OutputBlock := BlockClass("OutputBlock", Affixed("print(", ")"), false, false, false)
  const StartBlock := BlockClass("StartBlock", NoText, false, false, false)
  const EndBlock := BlockClass("EndBlock", NoText, false, false, false)
  const OperationBlock := BlockClass("OperationBlock", Affixed("", ""), false, false, false)
  const SetValueBlock := BlockClass("SetValueBlock", NoText, false, false, false)

  // The classes of base_block.py; their own text is empty too.
  const BaseBlock := BlockClass("BaseBlock", NoText, false, false, false)
  const BaseGeneralBlock := BlockClass("BaseGeneralBlock", NoText, false, true, false)
  const BaseGeneralBlockWithAdditionalBlocks :=
    BlockClass("BaseGeneralBlockWithAdditionalBlocks", NoText, false, true, true)

  /** `InputBlock` reads into its argument, `OutputBlock` prints it, `OperationBlock`
      is its argument verbatim; each determines its argument uniquely. */
  lemma ShownTexts(arg: string)
    ensures SelfText(InputBlock, arg) == arg + " = input()"
    ensures SelfText(OutputBlock, arg) == "print(" + arg + ")"
    ensures SelfText(OperationBlock, arg) == arg
    ensures ArgumentOf(InputBlock, SelfText(InputBlock, arg)) == Some(arg)
    ensures ArgumentOf(OutputBlock, SelfText(OutputBlock, arg)) == Some(arg)
    ensures ArgumentOf(OperationBlock, SelfText(OperationBlock, arg)) == Some(arg)
  {
    var t := SelfText(OutputBlock, arg);
    assert t[..|"print("|] == "print(";
    assert t[|t| - 1..] == ")";
    assert t[|"print("|..|t| - 1] == arg;
    var u := SelfText(InputBlock, arg);
    assert u[|u| - |" = input()"|..] == " = input()";
    assert u[..|u| - |" = input()"|] == arg;
  }

  /** Start, End, the plain `Block` and `SetValueBlock` produce no text whatever the argument. */
  lemma SilentTexts(arg: string)
    ensures SelfText(StartBlock, arg) == SelfText(EndBlock, arg) == ""
    ensures SelfText(PlainBlock, arg) == SelfText(SetValueBlock, arg) == ""
    ensures ArgumentOf(StartBlock, "") == None
  {
  }

  /** The widget `Block` of blocks.py (and its twin in main_program.py): a class,
      an argument and the next block in the sequence. */
  class Block {
    const cls: BlockClass
    var arg: string
    var child: Block?

    /** A new block has an empty argument and no successor. */
    constructor (cls: BlockClass)
      ensures this.cls == cls && arg == "" && child == null
    {
      this.cls := cls;
      arg := "";
      child := null;
    }

    /** Sets the successor and nothing else. */
    method SetChild(child: Block?)
      modifies this`child
      ensures this.child == child
    {
      this.child := child;
    }

    /** The dialog's text and whether it was confirmed are parameters: a cancelled
        dialog leaves the argument alone, a confirmed one replaces it. */
    method SetArgument(newArg: string, ok: bool)
      modifies this`arg
      ensures arg == (if ok then newArg else old(arg))
    {
      if !ok {
        return;
      }
      arg := newArg;
    }

    /** Deleting a blocks.py block changes nothing. */
    method Delete()
      ensures unchanged(this)
    {
    }

    function GetFunc(): string
      reads this
    {
      SelfText(cls, arg)
    }
  }
}

/** The main window of main_program.py: a two-state machine that places blocks and
    connects a parent block to the next block clicked, and the list of connection
    lines it redraws.

    Qt's widgets, signals and geometry are not modelled: a block is the widget
    `BlockTypes.Block` (its class, argument and `child`), the block that sent a signal is
    a parameter, and a drawn line is the pair of blocks it joins. */
module Editor {
  import BT = BlockTypes

  /** `ProgramState`. */
  datatype ProgramState = Placing | Connecting

  /** A `QLine` drawn from the centre of `parent` to the centre of its `child`. */
  datatype Segment = Segment(parent: BT.Block, child: BT.Block)

  /** The lines `recalculate_position` draws for `bs`: one for each block with a
      successor, in list order. */
  ghost function Segments(bs: seq<BT.Block>): seq<Segment>
    reads bs
  {
    if bs == [] then []
    else
      var b := bs[|bs| - 1];
      Segments(bs[..|bs| - 1]) + (if b.child != null then [Segment(b, b.child)] else [])
  }

  /** Number of blocks of `bs` that have a successor. */
  ghost function Linked(bs: seq<BT.Block>): nat
    reads bs
  {
    if bs == [] then 0
    else Linked(bs[..|bs| - 1]) + (if bs[|bs| - 1].child != null then 1 else 0)
  }

  /** Every line joins a listed block to its successor, every block with a successor
      has its line, and there are exactly as many lines as such blocks. */
  lemma {:induction false} SegmentsJoinChildren(bs: seq<BT.Block>)
    ensures |Segments(bs)| == Linked(bs)
    ensures forall k :: 0 <= k < |Segments(bs)| ==>
      Segments(bs)[k].parent in bs && Segments(bs)[k].parent.child == Segments(bs)[k].child
    ensures forall i :: 0 <= i < |bs| && bs[i].child != null ==> Segment(bs[i], bs[i].child) in Segments(bs)
  {
    if bs != [] {
      var pre := bs[..|bs| - 1];
      SegmentsJoinChildren(pre);
      forall i | 0 <= i < |bs| - 1 && bs[i].child != null ensures Segment(bs[i], bs[i].child) in Segments(bs) {
        assert pre[i] == bs[i];
      }
    }
  }

  /** Lines follow list order: the lines of two lists one after the other are the lines
      of the first followed by those of the second. */
  lemma {:induction false} SegmentsAppend(a: seq<BT.Block>, b: seq<BT.Block>)
    ensures Segments(a + b) == Segments(a) + Segments(b)
    decreases |b|
  {
    if b == [] {
      assert a + b == a;
    } else {
      var c := a + b;
      assert c[..|c| - 1] == a + b[..|b| - 1];
      assert c[|c| - 1] == b[|b| - 1];
      SegmentsAppend(a, b[..|b| - 1]);
    }
  }

  /** `Program`: the current state, the block whose connection is being built, the
      blocks on the canvas and the lines last drawn. */
  class Program {
    var state: ProgramState
    var connectingParent: BT.Block?
    var blocks: seq<BT.Block>
    var lines: seq<Segment>

    /** A new window places blocks, builds no connection and holds no blocks or lines. */
    constructor ()
      ensures state == Placing && connectingParent == null && blocks == [] && lines == []
    {
      state := Placing;
      connectingParent := null;
      blocks := [];
      lines := [];
    }

    /** `add_block`: in `PLACING`, a new block of class `cls` joins the end of the list;
        otherwise nothing happens. */
    method AddBlock(cls: BT.BlockClass) returns (b: BT.Block?)
      modifies this`blocks
      ensures state == Placing ==>
        b != null && fresh(b) && b.cls == cls && b.arg == "" && b.child == null && blocks == old(blocks) + [b]
      ensures state != Placing ==> b == null && blocks == old(blocks)
    {
      if state != Placing {
        return null;
      }
      b := new BT.Block(cls);
      blocks := blocks + [b];
    }

    /** `change_state`. */
    method ChangeState(newState: ProgramState)
      modifies this`state
      ensures state == newState
    {
      state := newState;
    }

    /** `start_connection`: `sender` is the block whose "connect" action fired. */
    method StartConnection(sender: BT.Block)
      modifies this`state, this`connectingParent
      ensures state == Connecting && connectingParent == sender
    {
      ChangeState(Connecting);
      connectingParent := sender;
    }

    /** `recalculate_position`: one line per block with a successor, in list order. */
    method RecalculatePosition()
      modifies this`lines
      ensures lines == Segments(blocks)
    {
      var acc: seq<Segment> := [];
      var i := 0;
      while i < |blocks|
        invariant 0 <= i <= |blocks|
        invariant acc == Segments(blocks[..i])
      {
        var b := blocks[i];
        assert blocks[..i + 1][..i] == blocks[..i];
        if b.child != null {
          acc := acc + [Segment(b, b.child)];
        }
        i := i + 1;
      }
      assert blocks[..i] == blocks;
      lines := acc;
    }

    /** `end_connection`: `clicked` is the block the user clicked. Outside `CONNECTING`
        the window only returns to `PLACING`. In `CONNECTING` the parent's successor
        becomes the clicked block, the parent is cleared, the window returns to `PLACING`
        and the lines are redrawn. With no parent (the state was set directly) the source
        fails on `None.child`: `done` is false and nothing changes. */
    method EndConnection(clicked: BT.Block) returns (done: bool)
      modifies this, connectingParent
      ensures old(state) != Connecting ==>
        done && state == Placing && connectingParent == old(connectingParent) &&
        blocks == old(blocks) && lines == old(lines) &&
        (old(connectingParent) != null ==> unchanged(old(connectingParent)))
      ensures old(state) == Connecting && old(connectingParent) == null ==>
        !done && unchanged(this)
      ensures old(state) == Connecting && old(connectingParent) != null ==>
        && done && old(connectingParent).child == clicked && old(connectingParent).arg == old(connectingParent.arg)
        && connectingParent == null && state == Placing
        && blocks == old(blocks) && lines == Segments(blocks)
    {
      if state != Connecting {
        ChangeState(Placing);
        return true;
      }
      var parent := connectingParent;
      if parent == null {
        return false;
      }
      parent.SetChild(clicked);
      connectingParent := null;
      ChangeState(Placing);
      RecalculatePosition();
      done := true;
    }
  }
}

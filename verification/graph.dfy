/** The block graph of base_block.py as an arena: every `BaseBlock` is a record in a map
    keyed by its identity, and every pointer field holds the key of the block it points to.

    Acyclicity ("no block is its own ancestor under any relation") is witnessed by a
    `rank`: composition, branch and body links go to lower ranks, their back-pointers and
    `general_block` to higher ranks. The loops of base_block.py that only terminate on
    acyclic chains are specified here by functions that take such a rank. */
module Graph {
  import opened Util
  import BT = BlockTypes

  type Id = int
  type Rank = map<Id, nat>

  /** A `BaseBlock`: its class, argument, position, and pointer fields.
      `lines` is the stored list `_lines`; the `lines` property is `Lines` below. */
  datatype Block = Block(
    cls: BT.BlockClass,
    arg: string,
    pos: (int, int),
    child: Option<Id>,
    layerUp: Option<Id>,
    layerDown: Option<Id>,
    generalBlock: Option<Id>,
    lines: seq<Id>,
    additionalUp: Option<Id>,
    additionalDown: Option<Id>)

  type Heap = map<Id, Block>

  /** A block as its class's constructor leaves it. */
  function NewBlock(cls: BT.BlockClass): (b: Block)
    ensures b.cls == cls && b.arg == "" && b.pos == (0, 0) && b.lines == []
    ensures b.child == b.layerUp == b.layerDown == b.generalBlock == None
    ensures b.additionalUp == b.additionalDown == None
  {
    Block(cls, "", (0, 0), None, None, None, None, [], None, None)
  }

  /** The pointer fields that chains are walked along. */
  datatype Link = LayerDown | LayerUp | GeneralUp | AdditionalDown | AdditionalUp

  function Next(b: Block, l: Link): Option<Id> {
    match l
    case LayerDown => b.layerDown
    case LayerUp => b.layerUp
    case GeneralUp => b.generalBlock
    case AdditionalDown => b.additionalDown
    case AdditionalUp => b.additionalUp
  }

  /** The block with link `l` pointing at `t` instead. */
  function SetNext(b: Block, l: Link, t: Option<Id>): (r: Block)
    ensures Next(r, l) == t
    ensures forall m :: m != l ==> Next(r, m) == Next(b, m)
    ensures r.cls == b.cls && r.arg == b.arg && r.pos == b.pos && r.child == b.child && r.lines == b.lines
  {
    match l
    case LayerDown => b.(layerDown := t)
    case LayerUp => b.(layerUp := t)
    case GeneralUp => b.(generalBlock := t)
    case AdditionalDown => b.(additionalDown := t)
    case AdditionalUp => b.(additionalUp := t)
  }

  predicate Descending(l: Link) {
    l == LayerDown || l == AdditionalDown
  }

  /** The links of block `x` point into the heap and respect the rank. */
  ghost predicate RankedAt(h: Heap, rank: Rank, x: Id)
    requires x in h && rank.Keys == h.Keys
  {
    && rank[x] < |h|
    && (forall l: Link :: Next(h[x], l).Some? ==>
          Next(h[x], l).value in h &&
          (if Descending(l) then rank[Next(h[x], l).value] < rank[x]
           else rank[Next(h[x], l).value] > rank[x]))
    && (forall i :: 0 <= i < |h[x].lines| ==> h[x].lines[i] in h && rank[h[x].lines[i]] < rank[x])
    && (h[x].child.Some? ==> h[x].child.value in h)
  }

  /** Every block has a rank below the heap's size and all links respect it. Proofs
      name the block they need the fact about, as `assert RankedAt(h, rank, x)`. */
  ghost predicate Ranked(h: Heap, rank: Rank) {
    && rank.Keys == h.Keys
    && forall x {:trigger RankedAt(h, rank, x)} :: x in h ==> RankedAt(h, rank, x)
  }

  /** Fields a class does not have stay empty: only general blocks hold lines, only
      blocks with additional blocks hold branch links and link only to such blocks, and a
      `general_block` is a general block (the base class's `delete_related_block` would
      delete the block again). */
  ghost predicate ShapedAt(h: Heap, x: Id)
    requires x in h
  {
    && h[x].cls.WellShaped()
    && (!h[x].cls.isGeneral ==> h[x].lines == [])
    && (!h[x].cls.hasAdditional ==> h[x].additionalUp.None? && h[x].additionalDown.None?)
    && (h[x].generalBlock.Some? && h[x].generalBlock.value in h ==> h[h[x].generalBlock.value].cls.isGeneral)
    && (h[x].additionalUp.Some? && h[x].additionalUp.value in h ==> h[h[x].additionalUp.value].cls.hasAdditional)
    && (h[x].additionalDown.Some? && h[x].additionalDown.value in h ==> h[h[x].additionalDown.value].cls.hasAdditional)
  }

  ghost predicate Shaped(h: Heap) {
    forall x {:trigger ShapedAt(h, x)} :: x in h ==> ShapedAt(h, x)
  }

  ghost predicate WellFormed(h: Heap, rank: Rank) {
    Ranked(h, rank) && Shaped(h)
  }

  /** `layer_down_block` and `layer_up_block` are mutual back-pointers. */
  ghost predicate LayerSymmetric(h: Heap) {
    forall x :: x in h ==>
      (h[x].layerUp.Some? ==> h[x].layerUp.value in h && h[h[x].layerUp.value].layerDown == Some(x))
  }

  // ---------------------------------------------------------------------------------
  // Walking one link to the end of its chain

  /** The chain from `id` following link `l` until it is `None`. */
  ghost function Walk(h: Heap, rank: Rank, id: Id, l: Link): (c: seq<Id>)
    requires Ranked(h, rank) && id in h
    ensures |c| >= 1 && c[0] == id
    ensures forall i :: 0 <= i < |c| ==> c[i] in h
    ensures forall i :: 0 <= i < |c| - 1 ==> Next(h[c[i]], l) == Some(c[i + 1])
    ensures forall i :: 0 <= i < |c| ==> (Next(h[c[i]], l).None? <==> i == |c| - 1)
    ensures forall i :: 0 < i < |c| ==>
      if Descending(l) then rank[c[i]] < rank[id] else rank[c[i]] > rank[id]
    decreases if Descending(l) then rank[id] else |h| - rank[id]
  {
    assert RankedAt(h, rank, id);
    match Next(h[id], l)
    case None => [id]
    case Some(n) => assert RankedAt(h, rank, n); [id] + Walk(h, rank, n, l)
  }

  ghost function Last(c: seq<Id>): Id
    requires |c| >= 1
  {
    c[|c| - 1]
  }

  /** A chain never visits a block twice. */
  lemma {:induction false} WalkNoDup(h: Heap, rank: Rank, id: Id, l: Link)
    requires Ranked(h, rank) && id in h
    ensures NoDup(Walk(h, rank, id, l))
    decreases if Descending(l) then rank[id] else |h| - rank[id]
  {
    var c := Walk(h, rank, id, l);
    if |c| > 1 {
      assert RankedAt(h, rank, c[1]);
      WalkNoDup(h, rank, c[1], l);
      assert c[1..] == Walk(h, rank, c[1], l);
      forall i, j | 0 <= i < j < |c| ensures c[i] != c[j] {
        if i == 0 {
          assert rank[c[j]] != rank[id];
        } else {
          assert c[i] == c[1..][i - 1] && c[j] == c[1..][j - 1];
        }
      }
    }
  }

  /** The chain from any of its members is the rest of the chain. */
  lemma {:induction false} WalkSuffix(h: Heap, rank: Rank, id: Id, l: Link, i: nat)
    requires Ranked(h, rank) && id in h
    requires i < |Walk(h, rank, id, l)|
    ensures Walk(h, rank, Walk(h, rank, id, l)[i], l) == Walk(h, rank, id, l)[i..]
    decreases i
  {
    var c := Walk(h, rank, id, l);
    if i > 0 {
      assert c[1..] == Walk(h, rank, c[1], l);
      WalkSuffix(h, rank, c[1], l, i - 1);
      assert c[1..][i - 1..] == c[i..];
    }
  }

  /** One step of a chain. */
  lemma WalkStep(h: Heap, rank: Rank, x: Id, l: Link)
    requires Ranked(h, rank) && x in h && Next(h[x], l).Some?
    ensures Next(h[x], l).value in h
    ensures Walk(h, rank, x, l) == [x] + Walk(h, rank, Next(h[x], l).value, l)
  {
    assert RankedAt(h, rank, x);
  }

  /** Walking a loop of base_block.py: follows `l` from `id` and returns the last block
      reached and the number of links followed. */
  method Follow(h: Heap, ghost rank: Rank, id: Id, l: Link) returns (last: Id, steps: nat)
    requires Ranked(h, rank) && id in h
    ensures last == Last(Walk(h, rank, id, l)) && Next(h[last], l).None?
    ensures steps + 1 == |Walk(h, rank, id, l)|
  {
    ghost var c := Walk(h, rank, id, l);
    var current := id;
    steps := 0;
    while Next(h[current], l).Some?
      invariant steps < |c| && c[steps] == current
      decreases |c| - steps
    {
      current := Next(h[current], l).value;
      steps := steps + 1;
    }
    last := current;
  }

  /** Collects the chain from `id` along `l`, as the loops of base_block.py that gather
      blocks into a list do. */
  method Collect(h: Heap, ghost rank: Rank, id: Id, l: Link) returns (chain: seq<Id>)
    requires Ranked(h, rank) && id in h
    ensures chain == Walk(h, rank, id, l)
  {
    ghost var c := Walk(h, rank, id, l);
    chain := [];
    var current := Some(id);
    while current.Some?
      invariant |chain| <= |c| && chain == c[..|chain|]
      invariant current.Some? ==> |chain| < |c| && current.value == c[|chain|]
      invariant current.None? ==> |chain| == |c|
      decreases |c| - |chain|
    {
      chain := chain + [current.value];
      current := Next(h[current.value], l);
    }
    assert chain == c;
  }

  /** `layer_depth`: the number of `layer_down_block` links from the block to the bottom. */
  method LayerDepth(h: Heap, ghost rank: Rank, id: Id) returns (depth: nat)
    requires Ranked(h, rank) && id in h
    ensures depth == |Walk(h, rank, id, LayerDown)| - 1
    ensures depth == 0 <==> h[id].layerDown.None?
  {
    var last, steps := Follow(h, rank, id, LayerDown);
    depth := steps;
  }

  /** `highest_layer`: the top of the composition chain, which has no `layer_up_block`. */
  method HighestLayer(h: Heap, ghost rank: Rank, id: Id) returns (top: Id)
    requires Ranked(h, rank) && id in h
    ensures top == Last(Walk(h, rank, id, LayerUp))
    ensures top in h && h[top].layerUp.None?
  {
    var steps;
    top, steps := Follow(h, rank, id, LayerUp);
  }

  /** `highest_general_block`: follows `general_block` to a block that has none. */
  method HighestGeneralBlock(h: Heap, ghost rank: Rank, id: Id) returns (top: Id)
    requires Ranked(h, rank) && id in h
    ensures top == Last(Walk(h, rank, id, GeneralUp))
    ensures top in h && h[top].generalBlock.None?
  {
    var steps;
    top, steps := Follow(h, rank, id, GeneralUp);
  }

  /** `additional_blocks_depth`: the number of branch links below the block. */
  method AdditionalBlocksDepth(h: Heap, ghost rank: Rank, id: Id) returns (depth: nat)
    requires Ranked(h, rank) && id in h
    ensures depth == |Walk(h, rank, id, AdditionalDown)| - 1
    ensures depth == 0 <==> h[id].additionalDown.None?
  {
    var last, steps := Follow(h, rank, id, AdditionalDown);
    depth := steps;
  }

  /** `highest_additional_block`: the head of the branch chain. */
  method HighestAdditionalBlock(h: Heap, ghost rank: Rank, id: Id) returns (head: Id)
    requires Ranked(h, rank) && id in h
    ensures head == Last(Walk(h, rank, id, AdditionalUp))
    ensures head in h && h[head].additionalUp.None?
  {
    var steps;
    head, steps := Follow(h, rank, id, AdditionalUp);
  }

  /** `all_additional_blocks_classes`: the classes along the branch chain, in link order. */
  method AllAdditionalBlocksClasses(h: Heap, ghost rank: Rank, id: Id) returns (result: seq<BT.BlockClass>)
    requires Ranked(h, rank) && id in h
    ensures |result| == |Walk(h, rank, id, AdditionalDown)|
    ensures forall i :: 0 <= i < |result| ==> result[i] == h[Walk(h, rank, id, AdditionalDown)[i]].cls
  {
    ghost var c := Walk(h, rank, id, AdditionalDown);
    result := [];
    var current := Some(id);
    while current.Some?
      invariant |result| <= |c|
      invariant forall i :: 0 <= i < |result| ==> result[i] == h[c[i]].cls
      invariant current.Some? ==> |result| < |c| && current.value == c[|result|]
      invariant current.None? ==> |result| == |c|
      decreases |c| - |result|
    {
      result := result + [h[current.value].cls];
      current := h[current.value].additionalDown;
    }
  }

  /** A chain is closed under its link: the successor of a member is a member. */
  lemma WalkClosed(h: Heap, rank: Rank, a: Id, l: Link, x: Id)
    requires Ranked(h, rank) && a in h
    requires x in Walk(h, rank, a, l) && Next(h[x], l).Some?
    ensures Next(h[x], l).value in Walk(h, rank, a, l)
  {
    var c := Walk(h, rank, a, l);
    var k :| 0 <= k < |c| && c[k] == x;
    assert k < |c| - 1;
    assert c[k + 1] == Next(h[x], l).value;
  }

  /** The unique top of a composition: with symmetric layer links, every block is on the
      `layer_down_block` chain of its `highest_layer`, which itself has no `layer_up_block`. */
  lemma {:induction false} HighestLayerReachesBlock(h: Heap, rank: Rank, id: Id)
    requires Ranked(h, rank) && LayerSymmetric(h) && id in h
    ensures id in Walk(h, rank, Last(Walk(h, rank, id, LayerUp)), LayerDown)
    ensures h[Last(Walk(h, rank, id, LayerUp))].layerUp.None?
    decreases |h| - rank[id]
  {
    var up := Walk(h, rank, id, LayerUp);
    match h[id].layerUp
    case None =>
      assert up == [id];
      assert Walk(h, rank, id, LayerDown)[0] == id;
    case Some(p) =>
      assert RankedAt(h, rank, id) && RankedAt(h, rank, p);
      assert up == [id] + Walk(h, rank, p, LayerUp);
      assert Last(up) == Last(Walk(h, rank, p, LayerUp));
      HighestLayerReachesBlock(h, rank, p);
      assert h[p].layerDown == Some(id);
      WalkClosed(h, rank, Last(up), LayerDown, p);
  }

  // ---------------------------------------------------------------------------------
  // The `lines` property of a general block

  /** The inner loop of `lines`: the chain members that are neither already collected
      in this chain nor already in `acc`, in chain order. */
  ghost function FreshMembers(chain: seq<Id>, acc: seq<Id>): (r: seq<Id>)
    ensures forall x :: x in r <==> x in chain && x !in acc
    ensures NoDup(r)
  {
    if chain == [] then []
    else
      var f := FreshMembers(chain[..|chain| - 1], acc);
      var x := chain[|chain| - 1];
      assert chain == chain[..|chain| - 1] + [x];
      if x !in f && x !in acc then f + [x] else f
  }

  /** One step of the outer loop of `lines`. */
  ghost function LinesStep(h: Heap, rank: Rank, acc: seq<Id>, b: Id): seq<Id>
    requires Ranked(h, rank) && b in h
  {
    if h[b].cls.hasAdditional then acc + FreshMembers(Walk(h, rank, b, AdditionalDown), acc)
    else if b in acc then acc
    else acc + [b]
  }

  /** `lines` over a prefix of `_lines`. */
  ghost function Flatten(h: Heap, rank: Rank, ls: seq<Id>): (r: seq<Id>)
    requires Ranked(h, rank) && forall i :: 0 <= i < |ls| ==> ls[i] in h
    ensures forall x :: x in r ==> x in h
  {
    if ls == [] then []
    else LinesStep(h, rank, Flatten(h, rank, ls[..|ls| - 1]), ls[|ls| - 1])
  }

  /** The `lines` property of block `g`. */
  ghost function Lines(h: Heap, rank: Rank, g: Id): (r: seq<Id>)
    requires Ranked(h, rank) && g in h
    ensures forall x :: x in r ==> x in h
  {
    assert RankedAt(h, rank, g);
    Flatten(h, rank, h[g].lines)
  }

  /** `lines` holds no duplicates, holds every element of `_lines`, and holds nothing
      but elements of `_lines` and members of their branch chains. */
  lemma {:induction false} FlattenProperties(h: Heap, rank: Rank, ls: seq<Id>)
    requires Ranked(h, rank) && forall i :: 0 <= i < |ls| ==> ls[i] in h
    ensures NoDup(Flatten(h, rank, ls))
    ensures forall x :: x in ls ==> x in Flatten(h, rank, ls)
    ensures forall x :: x in Flatten(h, rank, ls) ==>
      exists i :: 0 <= i < |ls| && x in Walk(h, rank, ls[i], AdditionalDown)
  {
    if ls != [] {
      var pre := ls[..|ls| - 1];
      var b := ls[|ls| - 1];
      FlattenProperties(h, rank, pre);
      var acc := Flatten(h, rank, pre);
      var r := Flatten(h, rank, ls);
      var c := Walk(h, rank, b, AdditionalDown);
      if h[b].cls.hasAdditional {
        var f := FreshMembers(c, acc);
        assert r == acc + f;
        forall i, j | 0 <= i < j < |r| ensures r[i] != r[j] {
          if j >= |acc| && i < |acc| {
            assert r[j] in f;
            assert r[i] in acc;
          } else if i >= |acc| {
            assert r[i] == f[i - |acc|] && r[j] == f[j - |acc|];
          }
        }
        assert b == c[0];
      }
      forall x | x in ls ensures x in r {
        if x != b {
          assert x in pre;
        } else {
          assert x == c[0];
        }
      }
      forall x | x in r ensures exists i :: 0 <= i < |ls| && x in Walk(h, rank, ls[i], AdditionalDown) {
        if x in acc {
          var i :| 0 <= i < |pre| && x in Walk(h, rank, pre[i], AdditionalDown);
          assert pre[i] == ls[i];
        } else {
          assert x in c;
          assert ls[|ls| - 1] == b;
        }
      }
    }
  }

  /** Everything in `lines` of a block ranks below it. */
  lemma LinesBelow(h: Heap, rank: Rank, g: Id)
    requires Ranked(h, rank) && g in h
    ensures forall x :: x in Lines(h, rank, g) ==> x in h && rank[x] < rank[g]
  {
    var ls := h[g].lines;
    assert RankedAt(h, rank, g);
    FlattenProperties(h, rank, ls);
    forall x | x in Lines(h, rank, g) ensures x in h && rank[x] < rank[g] {
      var i :| 0 <= i < |ls| && x in Walk(h, rank, ls[i], AdditionalDown);
      var c := Walk(h, rank, ls[i], AdditionalDown);
      var k :| 0 <= k < |c| && c[k] == x;
      assert rank[ls[i]] < rank[g];
      assert k == 0 || rank[x] < rank[ls[i]];
    }
  }

  /** The `lines` property, computed as base_block.py does with an outer loop over
      `_lines` and an inner walk over each branch chain. */
  method GetLines(h: Heap, ghost rank: Rank, g: Id) returns (result: seq<Id>)
    requires Ranked(h, rank) && g in h
    ensures result == Lines(h, rank, g)
  {
    var ls := h[g].lines;
    assert RankedAt(h, rank, g);
    result := [];
    var i := 0;
    while i < |ls|
      invariant i <= |ls|
      invariant result == Flatten(h, rank, ls[..i])
    {
      var block := ls[i];
      assert ls[..i + 1][..i] == ls[..i];
      if h[block].cls.hasAdditional {
        var additional := BranchMembers(h, rank, block, result);
        result := result + additional;
      } else {
        if block !in result {
          result := result + [block];
        }
      }
      i := i + 1;
    }
    assert ls[..i] == ls;
  }

  /** The inner loop of `lines`: walks the branch chain from `block` and keeps each
      member not yet collected, in chain order. */
  method BranchMembers(h: Heap, ghost rank: Rank, block: Id, seen: seq<Id>) returns (additional: seq<Id>)
    requires Ranked(h, rank) && block in h
    ensures additional == FreshMembers(Walk(h, rank, block, AdditionalDown), seen)
  {
    ghost var c := Walk(h, rank, block, AdditionalDown);
    additional := [];
    var current := Some(block);
    ghost var j := 0;
    while current.Some?
      invariant j <= |c|
      invariant current.Some? ==> j < |c| && current.value == c[j]
      invariant current.None? ==> j == |c|
      invariant additional == FreshMembers(c[..j], seen)
      decreases |c| - j
    {
      var cur := current.value;
      assert c[..j + 1][..j] == c[..j];
      if cur !in additional && cur !in seen {
        additional := additional + [cur];
      }
      current := h[cur].additionalDown;
      j := j + 1;
    }
    assert c[..j] == c;
  }

  // ---------------------------------------------------------------------------------
  // Facts that survive updates of the heap

  /** Whether the rank allows a chain from `id` along `l` to reach `x`. */
  predicate Reachable(rank: Rank, id: Id, x: Id, l: Link)
    requires id in rank && x in rank
  {
    if Descending(l) then rank[x] <= rank[id] else rank[x] >= rank[id]
  }

  /** A chain depends only on the links it follows: two heaps that agree on link `l`
      for every block the chain from `id` can reach give the same chain. */
  lemma {:induction false} WalkAgree(h1: Heap, h2: Heap, rank: Rank, id: Id, l: Link)
    requires Ranked(h1, rank) && Ranked(h2, rank) && id in h1 && h1.Keys == h2.Keys
    requires forall x :: x in h1 && Reachable(rank, id, x, l) ==> Next(h1[x], l) == Next(h2[x], l)
    ensures Walk(h1, rank, id, l) == Walk(h2, rank, id, l)
    decreases if Descending(l) then rank[id] else |h1| - rank[id]
  {
    assert RankedAt(h1, rank, id);
    match Next(h1[id], l)
    case None =>
    case Some(n) =>
      assert RankedAt(h1, rank, n);
      WalkAgree(h1, h2, rank, n, l);
  }

  /** A chain from `x` whose link `l` was redirected to `n`, where nothing below `n`
      changed link `l`, is `x` followed by the old chain from `n`. */
  lemma WalkRelinked(h: Heap, h': Heap, rank: Rank, x: Id, l: Link, n: Id)
    requires Ranked(h, rank) && Ranked(h', rank) && h.Keys == h'.Keys && x in h && n in h
    requires Next(h'[x], l) == Some(n)
    requires forall y :: y in h && Reachable(rank, n, y, l) ==> Next(h[y], l) == Next(h'[y], l)
    ensures Walk(h', rank, x, l) == [x] + Walk(h, rank, n, l)
  {
    WalkAgree(h, h', rank, n, l);
    WalkStep(h', rank, x, l);
  }

  /** Replacing one block keeps the ranking as long as the new block respects it. */
  lemma RankedUpdate(h: Heap, rank: Rank, x: Id, b: Block)
    requires Ranked(h, rank) && x in h
    requires RankedAt(h[x := b], rank, x)
    ensures Ranked(h[x := b], rank)
  {
    var h' := h[x := b];
    forall y | y in h' ensures RankedAt(h', rank, y) {
      if y != x {
        assert RankedAt(h, rank, y);
        assert h'[y] == h[y];
      }
    }
  }

  /** Replacing one block by one of the same class with no new links keeps the shape. */
  lemma ShapedUpdate(h: Heap, x: Id, b: Block)
    requires Shaped(h) && x in h
    requires ShapedAt(h[x := b], x)
    requires b.cls == h[x].cls
    ensures Shaped(h[x := b])
  {
    var h' := h[x := b];
    forall y | y in h' ensures ShapedAt(h', y) {
      assert ShapedAt(h, y);
      if y != x {
        assert h'[y] == h[y];
      }
    }
  }

  /** Pointing one link of one block at a target the rank allows keeps the ranking. */
  lemma RelinkRanked(h: Heap, rank: Rank, x: Id, l: Link, t: Option<Id>)
    requires Ranked(h, rank) && x in h
    requires t.Some? ==> t.value in h && (if Descending(l) then rank[t.value] < rank[x] else rank[t.value] > rank[x])
    ensures Ranked(h[x := SetNext(h[x], l, t)], rank)
  {
    var h' := h[x := SetNext(h[x], l, t)];
    assert RankedAt(h, rank, x);
    forall m: Link | Next(h'[x], m).Some?
      ensures Next(h'[x], m).value in h'
      ensures if Descending(m) then rank[Next(h'[x], m).value] < rank[x] else rank[Next(h'[x], m).value] > rank[x]
    {
      if m != l {
        assert Next(h'[x], m) == Next(h[x], m);
      }
    }
    assert RankedAt(h', rank, x);
    RankedUpdate(h, rank, x, h'[x]);
  }

  /** Replacing the `_lines` of a block keeps the ranking and shape as long as the new
      entries rank below it and only a general block holds any. */
  lemma NewLines(h: Heap, rank: Rank, x: Id, ls: seq<Id>)
    requires Ranked(h, rank) && Shaped(h) && x in h
    requires forall i :: 0 <= i < |ls| ==> ls[i] in h && rank[ls[i]] < rank[x]
    requires ls != [] ==> h[x].cls.isGeneral
    ensures Ranked(h[x := h[x].(lines := ls)], rank) && Shaped(h[x := h[x].(lines := ls)])
  {
    var h' := h[x := h[x].(lines := ls)];
    assert RankedAt(h, rank, x) && ShapedAt(h, x);
    forall m: Link ensures Next(h'[x], m) == Next(h[x], m) {
    }
    assert RankedAt(h', rank, x);
    RankedUpdate(h, rank, x, h'[x]);
    ShapedUpdate(h, x, h'[x]);
  }

  /** Replacing the `_lines` of a block by some of its entries keeps the ranking and shape. */
  lemma FewerLines(h: Heap, rank: Rank, x: Id, ls: seq<Id>)
    requires Ranked(h, rank) && Shaped(h) && x in h
    requires forall y :: y in ls ==> y in h[x].lines
    ensures Ranked(h[x := h[x].(lines := ls)], rank) && Shaped(h[x := h[x].(lines := ls)])
  {
    assert RankedAt(h, rank, x) && ShapedAt(h, x);
    SubLines(h, rank, x, ls);
    NewLines(h, rank, x, ls);
  }

  lemma SubLines(h: Heap, rank: Rank, x: Id, ls: seq<Id>)
    requires x in h && rank.Keys == h.Keys
    requires forall i :: 0 <= i < |h[x].lines| ==> h[x].lines[i] in h && rank[h[x].lines[i]] < rank[x]
    requires forall y :: y in ls ==> y in h[x].lines
    ensures forall i :: 0 <= i < |ls| ==> ls[i] in h && rank[ls[i]] < rank[x]
    ensures h[x].lines == [] ==> ls == []
  {
    var a := h[x].lines;
    forall i | 0 <= i < |ls| ensures ls[i] in a && ls[i] in h && rank[ls[i]] < rank[x] {
      var y := ls[i];
      assert y in ls;
      assert y in a;
      var j :| 0 <= j < |a| && a[j] == y;
      assert a[j] in h && rank[a[j]] < rank[x];
    }
    if |ls| > 0 {
      assert ls[0] in a;
    }
  }

  /** Appending entries to `_lines` only appends to `lines`: the old `lines` stay a prefix,
      and every appended entry shows up. */
  lemma {:induction false} FlattenAppend(h: Heap, rank: Rank, a: seq<Id>, b: seq<Id>)
    requires Ranked(h, rank)
    requires forall i :: 0 <= i < |a| ==> a[i] in h
    requires forall i :: 0 <= i < |b| ==> b[i] in h
    ensures var r := Flatten(h, rank, a + b);
      && |Flatten(h, rank, a)| <= |r| && r[..|Flatten(h, rank, a)|] == Flatten(h, rank, a)
      && forall x :: x in b ==> x in r
    decreases |b|
  {
    var ab := a + b;
    assert forall i :: 0 <= i < |ab| ==> ab[i] in h by {
      forall i | 0 <= i < |ab| ensures ab[i] in h {
        if i >= |a| {
          assert ab[i] == b[i - |a|];
        }
      }
    }
    FlattenProperties(h, rank, ab);
    if b == [] {
      assert ab == a;
    } else {
      var b' := b[..|b| - 1];
      FlattenAppend(h, rank, a, b');
      assert ab[..|ab| - 1] == a + b';
      var acc := Flatten(h, rank, a + b');
      var last := ab[|ab| - 1];
      assert Flatten(h, rank, ab) == LinesStep(h, rank, acc, last);
      assert |acc| <= |LinesStep(h, rank, acc, last)|;
      assert LinesStep(h, rank, acc, last)[..|acc|] == acc;
    }
  }

  /** `lines` reads only the classes and the branch links, so heaps that agree on those
      flatten alike. */
  lemma {:induction false} FlattenAgree(h1: Heap, h2: Heap, rank: Rank, ls: seq<Id>)
    requires Ranked(h1, rank) && Ranked(h2, rank) && h1.Keys == h2.Keys
    requires forall i :: 0 <= i < |ls| ==> ls[i] in h1
    requires forall x :: x in h1 ==>
      h2[x].cls == h1[x].cls && h2[x].additionalDown == h1[x].additionalDown
    ensures Flatten(h1, rank, ls) == Flatten(h2, rank, ls)
    decreases |ls|
  {
    if ls != [] {
      var b := ls[|ls| - 1];
      FlattenAgree(h1, h2, rank, ls[..|ls| - 1]);
      forall x | x in h1 && Reachable(rank, b, x, AdditionalDown)
        ensures Next(h1[x], AdditionalDown) == Next(h2[x], AdditionalDown)
      {
      }
      WalkAgree(h1, h2, rank, b, AdditionalDown);
    }
  }
}

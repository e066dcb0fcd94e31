/** The operations of base_block.py that change the diagram: `delete` of the three block
    classes, `delete_related_block`, the `lines` setter and the guard of `merge_block`.

    A `Diagram` holds the heap of blocks, the set of blocks on which `deleteLater` was
    called, and (as a ghost) the rank that makes every chain finite. A deleted block stays
    in the heap, as the Python object stays referenced until Qt destroys it. */
module Diagrams {
  import opened Util
  import opened Graph

  /** What every deletion leaves alone in a block: class, argument, position, successor
      and upward links; `layer_down_block` can only be cleared. The branch links are
      re-spliced and are constrained by the rank alone. */
  ghost predicate Kept(b1: Block, b2: Block) {
    && b2.cls == b1.cls && b2.arg == b1.arg && b2.pos == b1.pos && b2.child == b1.child
    && b2.layerUp == b1.layerUp && b2.generalBlock == b1.generalBlock
    && (b2.layerDown == b1.layerDown || b2.layerDown.None?)
  }

  /** Some deleted block of `gone` has `x` as its `layer_up_block`. */
  ghost predicate ClearedBy(h: Heap, gone: set<Id>, x: Id) {
    exists y :: y in gone && y in h && h[y].layerUp == Some(x)
  }

  /** `h2, gone2` arose from `h1, gone1` by deleting blocks ranked at most `r`: no block
      appears or vanishes, every block is `Kept`, a `layer_down_block` is cleared only
      in the block above a deleted block, and `_lines` only lose entries, each for a
      deleted block ranked at most `r`. */
  ghost predicate Evolved(h1: Heap, gone1: set<Id>, h2: Heap, gone2: set<Id>, rank: Rank, r: int) {
    && h1.Keys == h2.Keys
    && gone1 <= gone2
    && (forall x {:trigger h2[x]} :: x in h1 ==>
          Kept(h1[x], h2[x]) && (h2[x].layerDown != h1[x].layerDown ==> ClearedBy(h1, gone2, x)))
    && (forall x, y {:trigger multiset(h2[x].lines)[y]} ::
          x in h1 && multiset(h2[x].lines)[y] != multiset(h1[x].lines)[y] ==>
          multiset(h2[x].lines)[y] < multiset(h1[x].lines)[y] && y in gone2 && y in rank && rank[y] <= r)
  }

  lemma EvolvedTrans(h1: Heap, g1: set<Id>, h2: Heap, g2: set<Id>, h3: Heap, g3: set<Id>,
                     rank: Rank, r1: int, r2: int, r: int)
    requires Evolved(h1, g1, h2, g2, rank, r1) && Evolved(h2, g2, h3, g3, rank, r2)
    requires r1 <= r && r2 <= r
    ensures Evolved(h1, g1, h3, g3, rank, r)
  {
    forall x, y | x in h1 && multiset(h3[x].lines)[y] != multiset(h1[x].lines)[y]
      ensures multiset(h3[x].lines)[y] < multiset(h1[x].lines)[y] && y in g3 && y in rank && rank[y] <= r
    {
      if multiset(h2[x].lines)[y] != multiset(h1[x].lines)[y] {
      } else {
        assert multiset(h3[x].lines)[y] != multiset(h2[x].lines)[y];
      }
    }
    forall x | x in h1 && h3[x].layerDown != h1[x].layerDown ensures ClearedBy(h1, g3, x) {
      if h2[x].layerDown != h1[x].layerDown {
        var y :| y in g2 && y in h1 && h1[y].layerUp == Some(x);
        assert y in g3;
      } else {
        assert h3[x].layerDown != h2[x].layerDown;
        var y :| y in g3 && y in h2 && h2[y].layerUp == Some(x);
        assert Kept(h1[y], h2[y]);
      }
    }
  }

  /** The general blocks `delete` visits: the `general_block` of the block's
      `highest_layer`, then that block's enclosing general block, and so on. */
  ghost function EnclosingGenerals(h: Heap, rank: Rank, id: Id): (gs: seq<Id>)
    requires Ranked(h, rank) && id in h
    ensures forall k :: 0 <= k < |gs| ==> gs[k] in h && rank[gs[k]] > rank[id]
    ensures forall i, j :: 0 <= i < j < |gs| ==> rank[gs[i]] < rank[gs[j]]
    decreases |h| - rank[id]
  {
    var c := Walk(h, rank, id, LayerUp);
    var top := Last(c);
    assert rank[top] >= rank[id] by {
      if |c| > 1 {
        assert rank[c[|c| - 1]] > rank[id];
      }
    }
    assert RankedAt(h, rank, top);
    match h[top].generalBlock
    case None => []
    case Some(g) =>
      assert Next(h[top], GeneralUp) == Some(g);
      assert RankedAt(h, rank, g);
      [g] + EnclosingGenerals(h, rank, g)
  }

  /** No general block is visited twice. */
  lemma EnclosingNoDup(h: Heap, rank: Rank, id: Id)
    requires Ranked(h, rank) && id in h
    ensures NoDup(EnclosingGenerals(h, rank, id))
  {
    var gs := EnclosingGenerals(h, rank, id);
    forall i, j | 0 <= i < j < |gs| ensures gs[i] != gs[j] {
      assert rank[gs[i]] < rank[gs[j]];
    }
  }

  /** `_lines` of `g` after `delete_related_block(b)`: the first occurrence of `b` is gone
      when there is one. */
  function WithoutRelated(h: Heap, g: Id, b: Id): (r: Heap)
    requires g in h
    ensures r.Keys == h.Keys
  {
    if b in h[g].lines then h[g := h[g].(lines := RemoveFirst(h[g].lines, b))] else h
  }

  /** `delete_related_block` leaves `_lines` alone when `b` is not in `lines`; otherwise it
      takes exactly one `b` out of `_lines` and nothing else. */
  lemma RelatedEffect(h: Heap, rank: Rank, g: Id, b: Id)
    requires Ranked(h, rank) && g in h
    ensures b !in Lines(h, rank, g) ==> WithoutRelated(h, g, b) == h
    ensures b in h[g].lines ==>
      multiset(WithoutRelated(h, g, b)[g].lines) == multiset(h[g].lines) - multiset{b}
    ensures forall x :: x in h && x != g ==> WithoutRelated(h, g, b)[x] == h[x]
  {
    assert RankedAt(h, rank, g);
    FlattenProperties(h, rank, h[g].lines);
  }

  /** The heap after the branch-chain splice of the additional-block `delete`: a middle
      block's neighbours are linked to each other, a tail's predecessor loses its
      successor, and a head changes nothing (its successors are deleted instead). The
      splice keeps the ranking, the shape and every `Kept` field. */
  ghost function Unlinked(h: Heap, rank: Rank, id: Id): (r: Heap)
    requires Ranked(h, rank) && Shaped(h) && id in h
    ensures r.Keys == h.Keys && Ranked(r, rank) && Shaped(r)
    ensures forall x :: x in h ==> Kept(h[x], r[x]) && r[x].lines == h[x].lines && r[x].layerDown == h[x].layerDown
  {
    UnlinkedValid(h, rank, id);
    Splice(h, id)
  }

  /** The blocks the additional-block `delete` of `id` deletes in turn: the whole chain
      below it when it is the head of its chain, none otherwise. */
  ghost function Orphans(h: Heap, rank: Rank, id: Id): (r: seq<Id>)
    requires Ranked(h, rank) && id in h
    ensures forall x :: x in r ==> x in h && rank[x] < rank[id]
  {
    assert RankedAt(h, rank, id);
    if h[id].additionalUp.None? && h[id].additionalDown.Some? then
      assert Next(h[id], AdditionalDown) == h[id].additionalDown;
      Walk(h, rank, h[id].additionalDown.value, AdditionalDown)
    else []
  }

  /** The splice itself, on any heap that holds the neighbours. */
  function Splice(h: Heap, id: Id): (r: Heap)
    requires id in h
    requires Next(h[id], AdditionalUp).Some? ==> Next(h[id], AdditionalUp).value in h
    requires Next(h[id], AdditionalDown).Some? ==> Next(h[id], AdditionalDown).value in h
    ensures r.Keys == h.Keys
  {
    var up := h[id].additionalUp;
    var down := h[id].additionalDown;
    if up.Some? && down.Some? then
      var h1 := h[down.value := SetNext(h[down.value], AdditionalUp, up)];
      h1[up.value := SetNext(h1[up.value], AdditionalDown, down)]
    else if up.Some? then h[up.value := SetNext(h[up.value], AdditionalDown, None)]
    else h
  }

  lemma UnlinkedValid(h: Heap, rank: Rank, id: Id)
    requires Ranked(h, rank) && Shaped(h) && id in h
    ensures RankedAt(h, rank, id)
    ensures Next(h[id], AdditionalUp) == h[id].additionalUp && Next(h[id], AdditionalDown) == h[id].additionalDown
    ensures var up, down := h[id].additionalUp, h[id].additionalDown;
      && (up.Some? ==> up.value in h)
      && (down.Some? ==> down.value in h)
      && Orphans(h, rank, id) == if up.None? && down.Some? then Walk(h, rank, down.value, AdditionalDown) else []
    ensures var r := Splice(h, id);
      && Ranked(r, rank) && Shaped(r)
      && forall x :: x in h ==> Kept(h[x], r[x]) && r[x].lines == h[x].lines && r[x].layerDown == h[x].layerDown
  {
    assert RankedAt(h, rank, id) && ShapedAt(h, id);
    assert Next(h[id], AdditionalUp) == h[id].additionalUp;
    assert Next(h[id], AdditionalDown) == h[id].additionalDown;
    var up := h[id].additionalUp;
    var down := h[id].additionalDown;
    if up.Some? && down.Some? {
      var u, d := up.value, down.value;
      assert rank[d] < rank[id] < rank[u];
      assert ShapedAt(h, u) && ShapedAt(h, d);
      var h1 := h[d := SetNext(h[d], AdditionalUp, up)];
      RelinkRanked(h, rank, d, AdditionalUp, up);
      ShapedUpdate(h, d, h1[d]);
      RelinkRanked(h1, rank, u, AdditionalDown, down);
      var h2 := h1[u := SetNext(h1[u], AdditionalDown, down)];
      assert ShapedAt(h1, u);
      ShapedUpdate(h1, u, h2[u]);
    } else if up.Some? {
      var u := up.value;
      assert ShapedAt(h, u);
      RelinkRanked(h, rank, u, AdditionalDown, None);
      ShapedUpdate(h, u, h[u := SetNext(h[u], AdditionalDown, None)][u]);
    }
  }

  /** What the splice of a middle block changes: the two neighbours point at each
      other, and nothing else moves. */
  lemma SpliceLinks(h: Heap, id: Id)
    requires id in h && h[id].additionalUp.Some? && h[id].additionalDown.Some?
    requires h[id].additionalUp.value in h && h[id].additionalDown.value in h
    requires h[id].additionalUp.value != h[id].additionalDown.value
    ensures var up, down, r := h[id].additionalUp.value, h[id].additionalDown.value, Splice(h, id);
      && (forall x :: x in h && x != up && x != down ==> r[x] == h[x])
      && Next(r[up], AdditionalDown) == Some(down) && Next(r[up], AdditionalUp) == Next(h[up], AdditionalUp)
      && Next(r[down], AdditionalUp) == Some(up) && Next(r[down], AdditionalDown) == Next(h[down], AdditionalDown)
  {
    assert Next(h[id], AdditionalUp) == h[id].additionalUp;
    assert Next(h[id], AdditionalDown) == h[id].additionalDown;
  }

  /** Deleting a middle block of a branch chain splices it out: walking down from its
      predecessor now skips it and goes on exactly as the old chain below it did, and
      walking up from its successor reaches its predecessor directly. */
  lemma SpliceMiddle(h: Heap, rank: Rank, id: Id)
    requires Ranked(h, rank) && Shaped(h) && id in h
    requires h[id].additionalUp.Some? && h[id].additionalDown.Some?
    ensures var up, down := h[id].additionalUp.value, h[id].additionalDown.value;
      && Walk(Unlinked(h, rank, id), rank, up, AdditionalDown) == [up] + Walk(h, rank, id, AdditionalDown)[1..]
      && Walk(Unlinked(h, rank, id), rank, down, AdditionalUp) == [down] + Walk(h, rank, up, AdditionalUp)
  {
    var h' := Unlinked(h, rank, id);
    assert RankedAt(h, rank, id);
    var up, down := h[id].additionalUp.value, h[id].additionalDown.value;
    assert Next(h[id], AdditionalDown) == Some(down) && Next(h[id], AdditionalUp) == Some(up);
    assert rank[down] < rank[id] < rank[up];
    SpliceLinks(h, id);
    WalkRelinked(h, h', rank, up, AdditionalDown, down);
    WalkStep(h, rank, id, AdditionalDown);
    WalkRelinked(h, h', rank, down, AdditionalUp, up);
  }

  /** Deleting the last block of a branch chain ends the chain at its predecessor. */
  lemma SpliceTail(h: Heap, rank: Rank, id: Id)
    requires Ranked(h, rank) && Shaped(h) && id in h
    requires h[id].additionalUp.Some? && h[id].additionalDown.None?
    ensures var up := h[id].additionalUp.value;
      Walk(Unlinked(h, rank, id), rank, up, AdditionalDown) == [up]
  {
    var h' := Unlinked(h, rank, id);
    assert RankedAt(h, rank, id);
    var up := h[id].additionalUp.value;
    assert Next(h[id], AdditionalUp) == Some(up);
    assert Next(h'[up], AdditionalDown) == None;
    assert RankedAt(h', rank, up);
  }

  /** Deleting the head of a branch chain re-links nothing. */
  lemma SpliceHead(h: Heap, rank: Rank, id: Id)
    requires Ranked(h, rank) && Shaped(h) && id in h
    requires h[id].additionalUp.None?
    ensures Unlinked(h, rank, id) == h
  {
  }

  // ---------------------------------------------------------------------------------
  // What a deletion achieves

  /** `Walk` and `EnclosingGenerals` only read `layer_up_block` and `general_block`, which
      deletion never changes, so they agree between the heaps before and after. */
  lemma {:induction false} EnclosingAgree(h1: Heap, h2: Heap, rank: Rank, id: Id)
    requires Ranked(h1, rank) && Ranked(h2, rank) && h1.Keys == h2.Keys && id in h1
    requires forall x :: x in h1 ==> h2[x].layerUp == h1[x].layerUp && h2[x].generalBlock == h1[x].generalBlock
    ensures EnclosingGenerals(h1, rank, id) == EnclosingGenerals(h2, rank, id)
    decreases |h1| - rank[id]
  {
    forall x | x in h1 && Reachable(rank, id, x, LayerUp)
      ensures Next(h1[x], LayerUp) == Next(h2[x], LayerUp)
    {
    }
    WalkAgree(h1, h2, rank, id, LayerUp);
    var c := Walk(h1, rank, id, LayerUp);
    var top := Last(c);
    assert rank[top] >= rank[id] by {
      if |c| > 1 {
        assert rank[c[|c| - 1]] > rank[id];
      }
    }
    assert RankedAt(h1, rank, top);
    match h1[top].generalBlock
    case None =>
    case Some(g) =>
      assert Next(h1[top], GeneralUp) == Some(g);
      assert RankedAt(h1, rank, g);
      EnclosingAgree(h1, h2, rank, g);
  }

  /** The general block `delete` visits next after `x`: the `general_block` of the
      `highest_layer` of `x`. */
  ghost function NextGeneral(h: Heap, rank: Rank, x: Id): Option<Id>
    requires Ranked(h, rank) && x in h
  {
    var top := Last(Walk(h, rank, x, LayerUp));
    h[top].generalBlock
  }

  /** The visit order starts with `NextGeneral` and goes on from there. */
  lemma EnclosingStep(h: Heap, rank: Rank, x: Id)
    requires Ranked(h, rank) && x in h
    ensures var gs := EnclosingGenerals(h, rank, x);
      && (NextGeneral(h, rank, x).None? <==> gs == [])
      && (gs != [] ==> NextGeneral(h, rank, x) == Some(gs[0]) && EnclosingGenerals(h, rank, gs[0]) == gs[1..])
  {
  }

  /** After visiting the first `k` general blocks, `delete` goes on with the rest. */
  lemma {:induction false} EnclosingSuffix(h: Heap, rank: Rank, id: Id, k: nat)
    requires Ranked(h, rank) && id in h && k < |EnclosingGenerals(h, rank, id)|
    ensures var gs := EnclosingGenerals(h, rank, id);
      EnclosingGenerals(h, rank, gs[k]) == gs[k + 1..]
    decreases k
  {
    var gs := EnclosingGenerals(h, rank, id);
    EnclosingStep(h, rank, id);
    if k > 0 {
      EnclosingSuffix(h, rank, gs[0], k - 1);
      assert gs[1..][k - 1] == gs[k];
      assert gs[1..][k..] == gs[k + 1..];
    }
  }

  /** `h` arose from `h0` by each block of `gs` losing one entry for `id` from `_lines`
      (if it held one) and no block losing or gaining any other entry for `id`. */
  ghost predicate LostOnce(h0: Heap, h: Heap, id: Id, gs: seq<Id>) {
    && h.Keys == h0.Keys
    && forall g {:trigger multiset(h[g].lines)[id]} :: g in h0 ==>
         multiset(h[g].lines)[id] == multiset(h0[g].lines)[id] - (if g in gs && id in h0[g].lines then 1 else 0)
  }

  /** The effect of `delete` on the block itself, as `h2, gone` show it after starting
      from `h1`: it was deleted, the block above no longer points down at it, the blocks
      below it on its composition chain were deleted, and every enclosing general block
      lost one entry for it from `_lines` (if it held one) and no other. */
  ghost predicate DeletedFrom(h1: Heap, h2: Heap, gone: set<Id>, rank: Rank, id: Id) {
    && Ranked(h1, rank) && id in h1 && h2.Keys == h1.Keys
    && id in gone
    && (h1[id].layerUp.Some? && h1[id].layerUp.value in h2 ==> h2[h1[id].layerUp.value].layerDown.None?)
    && (forall x :: x in Walk(h1, rank, id, LayerDown) ==> x in gone)
    && LostOnce(h1, h2, id, EnclosingGenerals(h1, rank, id))
  }

  /** Deleting blocks ranked below `id` afterwards undoes none of it. */
  lemma DeletedFromPersists(h1: Heap, h2: Heap, g2: set<Id>, h3: Heap, g3: set<Id>, rank: Rank, id: Id, r: int)
    requires DeletedFrom(h1, h2, g2, rank, id)
    requires Evolved(h2, g2, h3, g3, rank, r) && r < rank[id]
    ensures DeletedFrom(h1, h3, g3, rank, id)
  {
    forall g | g in h1 ensures multiset(h3[g].lines)[id] == multiset(h2[g].lines)[id] {
    }
    if h1[id].layerUp.Some? && h1[id].layerUp.value in h2 {
      assert Kept(h2[h1[id].layerUp.value], h3[h1[id].layerUp.value]);
    }
  }

  /** `delete_related_block` of a deleted block takes out only entries for that block. */
  lemma RelatedEvolved(h: Heap, gone: set<Id>, rank: Rank, g: Id, b: Id, r: int)
    requires g in h && b in gone && b in rank && rank[b] <= r
    ensures Evolved(h, gone, WithoutRelated(h, g, b), gone, rank, r)
  {
    if b in h[g].lines {
      LostEntryEvolved(h, gone, rank, g, b, RemoveFirst(h[g].lines, b), r);
    } else {
      SameLinesEvolved(h, gone, h, gone, rank, r);
    }
  }

  /** Replacing the `_lines` of `g` by a list with one entry for `b` fewer, and no
      other difference, evolves the heap by deleting `b`. */
  lemma LostEntryEvolved(h: Heap, gone: set<Id>, rank: Rank, g: Id, b: Id, rest: seq<Id>, r: int)
    requires g in h && b in gone && b in rank && rank[b] <= r
    requires multiset(rest) == multiset(h[g].lines) - multiset{b}
    ensures Evolved(h, gone, h[g := h[g].(lines := rest)], gone, rank, r)
  {
    var h' := h[g := h[g].(lines := rest)];
    forall x, y | x in h && multiset(h'[x].lines)[y] != multiset(h[x].lines)[y]
      ensures multiset(h'[x].lines)[y] < multiset(h[x].lines)[y] && y == b
    {
      assert x == g;
    }
  }

  /** A heap in which no `_lines` changed evolved with no entry removed. */
  lemma SameLinesEvolved(h1: Heap, g1: set<Id>, h2: Heap, g2: set<Id>, rank: Rank, r: int)
    requires h1.Keys == h2.Keys && g1 <= g2
    requires forall x :: x in h1 ==> Kept(h1[x], h2[x]) && h2[x].lines == h1[x].lines && h2[x].layerDown == h1[x].layerDown
    ensures Evolved(h1, g1, h2, g2, rank, r)
  {
  }

  /** A chain whose first block has no link is that block alone. */
  lemma WalkEnd(h: Heap, rank: Rank, id: Id, l: Link)
    requires Ranked(h, rank) && id in h && Next(h[id], l).None?
    ensures Walk(h, rank, id, l) == [id]
  {
    assert RankedAt(h, rank, id);
  }

  /** The heap after `layer_up_block.layer_down_block = None`, when there is a block
      above. Only that block changes, and only its downward link. */
  ghost function Detached(h: Heap, rank: Rank, id: Id): (r: Heap)
    requires Ranked(h, rank) && Shaped(h) && id in h
    ensures r.Keys == h.Keys && Ranked(r, rank) && Shaped(r)
    ensures h[id].layerUp.Some? ==> h[id].layerUp.value in r && r[h[id].layerUp.value].layerDown.None?
    ensures forall x :: x in h ==> Kept(h[x], r[x]) && r[x].lines == h[x].lines
    ensures forall x :: x in h && r[x] != h[x] ==> h[id].layerUp == Some(x) && r[x] == h[x].(layerDown := None)
  {
    assert RankedAt(h, rank, id);
    assert Next(h[id], LayerUp) == h[id].layerUp;
    match h[id].layerUp
    case None => h
    case Some(u) =>
      RelinkRanked(h, rank, u, LayerDown, None);
      assert ShapedAt(h, u);
      ShapedUpdate(h, u, SetNext(h[u], LayerDown, None));
      h[u := SetNext(h[u], LayerDown, None)]
  }

  /** Detaching leaves the block's own downward link and everything ranked below it. */
  lemma DetachedBelow(h: Heap, rank: Rank, id: Id)
    requires Ranked(h, rank) && Shaped(h) && id in h
    ensures Detached(h, rank, id)[id].layerDown == h[id].layerDown
    ensures h[id].layerDown.Some? ==> h[id].layerDown.value in h && rank[h[id].layerDown.value] < rank[id]
    ensures forall x :: x in h && rank[x] <= rank[id] ==> Detached(h, rank, id)[x] == h[x]
  {
    assert RankedAt(h, rank, id);
    assert Next(h[id], LayerUp) == h[id].layerUp;
    assert Next(h[id], LayerDown) == h[id].layerDown;
  }

  /** With nothing below, the detached heap already has everything the first half of
      the base `delete` promises. */
  lemma NothingBelow(h0: Heap, g0: set<Id>, rank: Rank, id: Id)
    requires Ranked(h0, rank) && Shaped(h0) && id in h0 && id in g0 && h0[id].layerDown.None?
    ensures Evolved(h0, g0, Detached(h0, rank, id), g0, rank, rank[id] as int - 1)
    ensures forall x :: x in Walk(h0, rank, id, LayerDown) ==> x in g0
  {
    DetachedEvolved(h0, g0, rank, id, rank[id] as int - 1);
    WalkEnd(h0, rank, id, LayerDown);
  }

  /** Detaching a deleted block from the block above it evolves the heap. */
  lemma DetachedEvolved(h0: Heap, g0: set<Id>, rank: Rank, id: Id, r: int)
    requires Ranked(h0, rank) && Shaped(h0) && id in h0 && id in g0
    ensures Evolved(h0, g0, Detached(h0, rank, id), g0, rank, r)
  {
    var hc := Detached(h0, rank, id);
    forall x | x in h0 && hc[x].layerDown != h0[x].layerDown ensures ClearedBy(h0, g0, x) {
      assert h0[id].layerUp == Some(x);
    }
  }

  /** After the block below was deleted from the detached heap, the whole composition
      chain below `id` is deleted and the block above still points at nothing. */
  lemma DeletedBelow(h0: Heap, g0: set<Id>, h2: Heap, g2: set<Id>, rank: Rank, id: Id)
    requires Ranked(h0, rank) && Shaped(h0) && id in h0 && id in g0
    requires h0[id].layerDown.Some? && h0[id].layerDown.value in h0
    requires Evolved(Detached(h0, rank, id), g0, h2, g2, rank, rank[h0[id].layerDown.value])
    requires DeletedFrom(Detached(h0, rank, id), h2, g2, rank, h0[id].layerDown.value)
    ensures Evolved(h0, g0, h2, g2, rank, rank[id] as int - 1)
    ensures forall x :: x in Walk(h0, rank, id, LayerDown) ==> x in g2
    ensures h0[id].layerUp.Some? ==> h0[id].layerUp.value in h2 && h2[h0[id].layerUp.value].layerDown.None?
  {
    var hc := Detached(h0, rank, id);
    var d := h0[id].layerDown.value;
    DetachedBelow(h0, rank, id);
    DetachedEvolved(h0, g0, rank, id, -1);
    EvolvedTrans(h0, g0, hc, g0, h2, g2, rank, -1, rank[d], rank[id] as int - 1);
    forall x | x in h0 && Reachable(rank, d, x, LayerDown)
      ensures Next(h0[x], LayerDown) == Next(hc[x], LayerDown)
    {
    }
    WalkAgree(h0, hc, rank, d, LayerDown);
    assert Next(h0[id], LayerDown) == Some(d);
    WalkStep(h0, rank, id, LayerDown);
    if h0[id].layerUp.Some? {
      assert Kept(hc[h0[id].layerUp.value], h2[h0[id].layerUp.value]);
    }
  }

  /** One visit of the loop of `delete`: the `k`-th enclosing general block loses one
      entry for `id` if it holds one, and nothing else changes. */
  lemma RelatedCount(h0: Heap, hp: Heap, gs: seq<Id>, k: nat, id: Id)
    requires NoDup(gs) && k < |gs| && gs[k] in hp && h0.Keys == hp.Keys
    requires LostOnce(h0, hp, id, gs[..k])
    ensures LostOnce(h0, WithoutRelated(hp, gs[k], id), id, gs[..k + 1])
  {
    var h' := WithoutRelated(hp, gs[k], id);
    forall g | g in h'
      ensures multiset(h'[g].lines)[id] ==
        multiset(h0[g].lines)[id] - (if g in gs[..k + 1] && id in h0[g].lines then 1 else 0)
    {
      assert gs[..k + 1] == gs[..k] + [gs[k]];
      if g == gs[k] {
        assert g !in gs[..k] by {
          forall j | 0 <= j < k ensures gs[..k][j] != g {
            assert gs[j] != gs[k];
          }
        }
        assert multiset(hp[g].lines)[id] == multiset(h0[g].lines)[id];
        assert id in hp[g].lines <==> id in h0[g].lines;
      }
    }
  }

  /** One visit of the loop of `delete`, with the heap `h'` that `delete_related_block`
      of the `k`-th enclosing general block leaves: the entry counts move on by one
      visit, and the next block visited is the `k + 1`-th. */
  lemma RemoveStep(h0: Heap, hp: Heap, gone: set<Id>, rank: Rank, id: Id, k: nat)
    requires Ranked(h0, rank) && Ranked(hp, rank) && id in h0 && id in gone
    requires k < |EnclosingGenerals(h0, rank, id)|
    requires Ranked(WithoutRelated(hp, EnclosingGenerals(h0, rank, id)[k], id), rank)
    requires Evolved(h0, gone, hp, gone, rank, rank[id])
    requires LostOnce(h0, hp, id, EnclosingGenerals(h0, rank, id)[..k])
    ensures var gs := EnclosingGenerals(h0, rank, id);
      var h' := WithoutRelated(hp, gs[k], id);
      && Evolved(h0, gone, h', gone, rank, rank[id])
      && LostOnce(h0, h', id, gs[..k + 1])
      && NextGeneral(h', rank, gs[k]) == if k + 1 < |gs| then Some(gs[k + 1]) else None
  {
    var gs := EnclosingGenerals(h0, rank, id);
    var h' := WithoutRelated(hp, gs[k], id);
    EnclosingNoDup(h0, rank, id);
    RelatedEvolved(hp, gone, rank, gs[k], id, rank[id]);
    EvolvedTrans(h0, gone, hp, gone, h', gone, rank, rank[id], rank[id], rank[id]);
    RelatedCount(h0, hp, gs, k, id);
    EnclosingSuffix(h0, rank, id, k);
    EnclosingAgree(h0, h', rank, gs[k]);
    EnclosingStep(h', rank, gs[k]);
  }

  /** The two halves of the base `delete` together give `DeletedFrom`. */
  lemma DeleteBaseDone(h0: Heap, g0: set<Id>, h1: Heap, g1: set<Id>, h2: Heap, rank: Rank, id: Id)
    requires Ranked(h0, rank) && Ranked(h1, rank) && id in h0 && id in g1
    requires Evolved(h0, g0, h1, g1, rank, rank[id] as int - 1)
    requires forall x :: x in Walk(h0, rank, id, LayerDown) ==> x in g1
    requires h0[id].layerUp.Some? ==> h0[id].layerUp.value in h1 && h1[h0[id].layerUp.value].layerDown.None?
    requires Evolved(h1, g1, h2, g1, rank, rank[id])
    requires LostOnce(h1, h2, id, EnclosingGenerals(h1, rank, id))
    ensures Evolved(h0, g0, h2, g1, rank, rank[id])
    ensures DeletedFrom(h0, h2, g1, rank, id)
  {
    EvolvedTrans(h0, g0, h1, g1, h2, g1, rank, rank[id] as int - 1, rank[id], rank[id]);
    EnclosingAgree(h0, h1, rank, id);
    var gs := EnclosingGenerals(h0, rank, id);
    forall g | g in h0
      ensures multiset(h2[g].lines)[id] ==
        multiset(h0[g].lines)[id] - (if g in gs && id in h0[g].lines then 1 else 0)
    {
      assert multiset(h1[g].lines)[id] == multiset(h0[g].lines)[id];
      assert id in h1[g].lines <==> id in h0[g].lines;
      assert multiset(h2[g].lines)[id] ==
        multiset(h1[g].lines)[id] - (if g in gs && id in h1[g].lines then 1 else 0);
    }
    if h0[id].layerUp.Some? {
      assert Kept(h1[h0[id].layerUp.value], h2[h0[id].layerUp.value]);
    }
  }

  /** Every old `_lines` entry of a deleted general block is deleted: it either left
      `_lines` already (only deleted blocks do) or was in `lines` when the loop over
      `lines` deleted it. */
  lemma OldLinesGone(h0: Heap, g0: set<Id>, hb: Heap, gb: set<Id>, rank: Rank, id: Id, ls: seq<Id>, gone: set<Id>)
    requires Ranked(hb, rank) && id in h0 && h0.Keys == hb.Keys
    requires Evolved(h0, g0, hb, gb, rank, rank[id]) && gb <= gone
    requires ls == Lines(hb, rank, id)
    requires forall j :: 0 <= j < |ls| ==> ls[j] in gone
    ensures forall x :: x in h0[id].lines ==> x in gone
  {
    assert RankedAt(hb, rank, id);
    FlattenProperties(hb, rank, hb[id].lines);
    forall x | x in h0[id].lines ensures x in gone {
      if multiset(hb[id].lines)[x] == multiset(h0[id].lines)[x] {
        assert x in hb[id].lines;
        assert x in ls;
      }
    }
  }

  /** The `lines` setter only appends: the old `lines` stay a prefix of the new ones,
      and every appended block shows up in them. */
  lemma LinesAfterSet(h: Heap, rank: Rank, g: Id, value: seq<Id>)
    requires Ranked(h, rank) && Shaped(h) && g in h && h[g].cls.isGeneral
    requires forall i :: 0 <= i < |value| ==> value[i] in h && rank[value[i]] < rank[g]
    ensures var h' := h[g := h[g].(lines := h[g].lines + value)];
      && Ranked(h', rank)
      && |Lines(h, rank, g)| <= |Lines(h', rank, g)|
      && Lines(h', rank, g)[..|Lines(h, rank, g)|] == Lines(h, rank, g)
      && forall x :: x in value ==> x in Lines(h', rank, g)
  {
    assert RankedAt(h, rank, g);
    var ls := h[g].lines + value;
    assert forall i :: 0 <= i < |ls| ==> ls[i] in h && rank[ls[i]] < rank[g] by {
      forall i | 0 <= i < |ls| ensures ls[i] in h && rank[ls[i]] < rank[g] {
        if i >= |h[g].lines| {
          assert ls[i] == value[i - |h[g].lines|];
        }
      }
    }
    NewLines(h, rank, g, ls);
    var h' := h[g := h[g].(lines := ls)];
    FlattenAgree(h, h', rank, ls);
    FlattenAppend(h, rank, h[g].lines, value);
    assert RankedAt(h', rank, g);
  }

  // ---------------------------------------------------------------------------------
  // What a deletion can reach

  /** The blocks a `delete` of `b` goes on to: its `layer_down_block`, its `_lines`
      entries and its `layer_down_additional_block`. */
  function Below(b: Block): set<Id> {
    (if b.layerDown.Some? then {b.layerDown.value} else {}) +
    (if b.additionalDown.Some? then {b.additionalDown.value} else {}) +
    (set y | y in b.lines)
  }

  /** No block of `s` leads outside `s`. */
  ghost predicate Closed(h: Heap, s: set<Id>) {
    forall x :: x in s && x in h ==> Below(h[x]) <= s
  }

  /** The blocks below a block of a ranked heap lie in the heap and rank lower. */
  lemma BelowRanked(h: Heap, rank: Rank, x: Id)
    requires Ranked(h, rank) && x in h
    ensures forall y :: y in Below(h[x]) ==> y in h && rank[y] < rank[x]
  {
    assert RankedAt(h, rank, x);
    assert Next(h[x], LayerDown) == h[x].layerDown && Next(h[x], AdditionalDown) == h[x].additionalDown;
  }

  /** The blocks reachable from `id` by downward, body and branch-down links, `id`
      itself included. */
  ghost function Reach(h: Heap, rank: Rank, id: Id): (s: set<Id>)
    requires Ranked(h, rank) && id in h
    ensures id in s
    decreases rank[id]
  {
    BelowRanked(h, rank, id);
    {id} + set y, x | y in Below(h[id]) && x in Reach(h, rank, y) :: x
  }

  /** The reachable blocks form a closed set. */
  lemma {:induction false} ReachClosed(h: Heap, rank: Rank, id: Id)
    requires Ranked(h, rank) && id in h
    ensures Closed(h, Reach(h, rank, id))
    decreases rank[id]
  {
    var s := Reach(h, rank, id);
    BelowRanked(h, rank, id);
    forall x | x in s && x in h ensures Below(h[x]) <= s {
      if x == id {
        forall y | y in Below(h[id]) ensures y in s {
          assert y in Reach(h, rank, y);
        }
      } else {
        var y :| y in Below(h[id]) && x in Reach(h, rank, y);
        ReachClosed(h, rank, y);
        assert Below(h[x]) <= Reach(h, rank, y);
      }
    }
  }

  /** Every closed set that holds `id` holds all blocks reachable from it: `Reach` is the
      least such set. */
  lemma {:induction false} ReachLeast(h: Heap, rank: Rank, id: Id, s: set<Id>)
    requires Ranked(h, rank) && id in h && Closed(h, s) && id in s
    ensures Reach(h, rank, id) <= s
    decreases rank[id]
  {
    BelowRanked(h, rank, id);
    forall x | x in Reach(h, rank, id) ensures x in s {
      if x != id {
        var y :| y in Below(h[id]) && x in Reach(h, rank, y);
        ReachLeast(h, rank, y, s);
      }
    }
  }

  /** A branch chain that starts in a closed set stays in it. */
  lemma {:induction false} WalkInClosed(h: Heap, rank: Rank, a: Id, s: set<Id>)
    requires Ranked(h, rank) && a in h && Closed(h, s) && a in s
    ensures forall x :: x in Walk(h, rank, a, AdditionalDown) ==> x in s
    decreases rank[a]
  {
    BelowRanked(h, rank, a);
    if h[a].additionalDown.Some? {
      var n := h[a].additionalDown.value;
      WalkStep(h, rank, a, AdditionalDown);
      WalkInClosed(h, rank, n, s);
    } else {
      WalkEnd(h, rank, a, AdditionalDown);
    }
  }

  /** The `lines` of a block of a closed set stay in it. */
  lemma LinesInClosed(h: Heap, rank: Rank, g: Id, s: set<Id>)
    requires Ranked(h, rank) && g in h && Closed(h, s) && g in s
    ensures forall x :: x in Lines(h, rank, g) ==> x in s
  {
    assert RankedAt(h, rank, g);
    FlattenProperties(h, rank, h[g].lines);
    forall x | x in Lines(h, rank, g) ensures x in s {
      var i :| 0 <= i < |h[g].lines| && x in Walk(h, rank, h[g].lines[i], AdditionalDown);
      assert h[g].lines[i] in Below(h[g]);
      WalkInClosed(h, rank, h[g].lines[i], s);
    }
  }

  /** The orphaned branches of a block of a closed set stay in it. */
  lemma OrphansInClosed(h: Heap, rank: Rank, id: Id, s: set<Id>)
    requires Ranked(h, rank) && id in h && Closed(h, s) && id in s
    ensures forall x :: x in Orphans(h, rank, id) ==> x in s
  {
    if h[id].additionalUp.None? && h[id].additionalDown.Some? {
      BelowRanked(h, rank, id);
      assert h[id].additionalDown.value in Below(h[id]);
      WalkInClosed(h, rank, h[id].additionalDown.value, s);
    }
  }

  /** Clearing a `layer_down_block` keeps a closed set closed. */
  lemma DetachedClosed(h: Heap, rank: Rank, id: Id, s: set<Id>)
    requires Ranked(h, rank) && Shaped(h) && id in h && Closed(h, s)
    ensures Closed(Detached(h, rank, id), s)
  {
    var r := Detached(h, rank, id);
    forall x | x in s && x in r ensures Below(r[x]) <= s {
      assert Below(r[x]) <= Below(h[x]);
    }
  }

  /** Dropping an entry from `_lines` keeps a closed set closed. */
  lemma RelatedClosed(h: Heap, g: Id, b: Id, s: set<Id>)
    requires g in h && Closed(h, s)
    ensures Closed(WithoutRelated(h, g, b), s)
  {
    var r := WithoutRelated(h, g, b);
    forall x | x in s && x in r ensures Below(r[x]) <= s {
      assert Below(r[x]) <= Below(h[x]);
    }
  }

  /** The splice of a block of a closed set keeps the set closed: the block above is
      re-linked to the block below, which the set already holds. */
  lemma UnlinkedClosed(h: Heap, rank: Rank, id: Id, s: set<Id>)
    requires Ranked(h, rank) && Shaped(h) && id in h && Closed(h, s) && id in s
    ensures Closed(Unlinked(h, rank, id), s)
  {
    UnlinkedValid(h, rank, id);
    SpliceBelow(h, id);
    var r := Unlinked(h, rank, id);
    var down := h[id].additionalDown;
    assert down.Some? ==> down.value in Below(h[id]);
    forall x | x in s && x in r ensures Below(r[x]) <= s {
      assert Below(h[x]) <= s;
    }
  }

  /** Re-pointing one link of a block leads a deletion at most to the new target. */
  lemma BelowRelinked(b: Block, l: Link, t: Option<Id>)
    ensures Below(SetNext(b, l, t)) <= Below(b) + (if t.Some? then {t.value} else {})
  {
  }

  /** The splice makes no block lead anywhere new but to the block below `id`. */
  lemma SpliceBelow(h: Heap, id: Id)
    requires id in h
    requires Next(h[id], AdditionalUp).Some? ==> Next(h[id], AdditionalUp).value in h
    requires Next(h[id], AdditionalDown).Some? ==> Next(h[id], AdditionalDown).value in h
    ensures forall x :: x in h ==>
      Below(Splice(h, id)[x]) <= Below(h[x]) + (if h[id].additionalDown.Some? then {h[id].additionalDown.value} else {})
  {
    var up := h[id].additionalUp;
    var down := h[id].additionalDown;
    if up.Some? && down.Some? {
      var h1 := h[down.value := SetNext(h[down.value], AdditionalUp, up)];
      BelowRelinked(h[down.value], AdditionalUp, up);
      BelowRelinked(h1[up.value], AdditionalDown, down);
      if up.value != down.value {
        BelowRelinked(h[up.value], AdditionalDown, down);
      }
    } else if up.Some? {
      BelowRelinked(h[up.value], AdditionalDown, None);
    }
  }

  // ---------------------------------------------------------------------------------
  // The diagram

  /** The blocks of one diagram, the blocks deleted so far, and the rank that orders
      them. */
  class Diagram {
    var heap: Heap
    var gone: set<Id>
    ghost const rank: Rank

    ghost predicate Valid()
      reads this
    {
      Ranked(heap, rank) && Shaped(heap)
    }

    constructor (h: Heap, ghost r: Rank)
      requires Ranked(h, r) && Shaped(h)
      ensures heap == h && gone == {} && rank == r && Valid()
    {
      heap := h;
      gone := {};
      rank := r;
    }

    /** `merge_block`'s guard: a block that already has a block merged below it refuses
        another one and reports so in the status bar; otherwise the merge goes ahead.
        The merge itself is done by the editor. */
    method MergeBlock(id: Id) returns (merged: bool, status: string)
      requires Valid() && id in heap
      ensures merged <==> heap[id].layerDown.None?
      ensures status == (if merged then "" else "Can't merge another one block")
    {
      if heap[id].layerDown.Some? {
        return false, "Can't merge another one block";
      }
      return true, "";
    }

    /** The `lines` setter of a general block: extends `_lines` by `value`. */
    method SetLines(g: Id, value: seq<Id>)
      requires Valid() && g in heap && heap[g].cls.isGeneral
      requires forall i :: 0 <= i < |value| ==> value[i] in heap && rank[value[i]] < rank[g]
      modifies this`heap
      ensures Valid()
      ensures heap == old(heap)[g := old(heap)[g].(lines := old(heap)[g].lines + value)]
    {
      assert RankedAt(heap, rank, g);
      var ls := heap[g].lines + value;
      assert forall i :: 0 <= i < |ls| ==> ls[i] in heap && rank[ls[i]] < rank[g] by {
        forall i | 0 <= i < |ls| ensures ls[i] in heap && rank[ls[i]] < rank[g] {
          if i >= |heap[g].lines| {
            assert ls[i] == value[i - |heap[g].lines|];
          }
        }
      }
      NewLines(heap, rank, g, ls);
      heap := heap[g := heap[g].(lines := ls)];
    }

    /** `delete_related_block` of a general block `g`: when `b` is in `lines`, removes
        the first `b` from `_lines` if there is one. */
    method DeleteRelatedBlock(g: Id, b: Id)
      requires Valid() && g in heap
      modifies this`heap
      ensures Valid()
      ensures heap == WithoutRelated(old(heap), g, b)
    {
      var ls := GetLines(heap, rank, g);
      if b !in ls {
        RelatedEffect(heap, rank, g, b);
        return;
      }
      if b in heap[g].lines {
        var rest := RemoveFirst(heap[g].lines, b);
        FewerLines(heap, rank, g, rest);
        heap := heap[g := heap[g].(lines := rest)];
      }
    }

    /** `if self.layer_up_block is not None: self.layer_up_block.layer_down_block = None`. */
    method Detach(id: Id)
      requires Valid() && id in heap
      modifies this`heap
      ensures Valid()
      ensures heap == Detached(old(heap), rank, id)
    {
      assert RankedAt(heap, rank, id);
      assert Next(heap[id], LayerUp) == heap[id].layerUp;
      ghost var r := Detached(heap, rank, id);
      var up := heap[id].layerUp;
      if up.Some? {
        heap := heap[up.value := SetNext(heap[up.value], LayerDown, None)];
      }
    }

    /** The branch-chain part of the additional-block `delete`: splices the block out of
        its chain, or, for the head of a chain, returns the blocks below it, which are to
        be deleted. */
    method UnlinkAdditional(id: Id) returns (rest: seq<Id>)
      requires Valid() && id in heap
      modifies this`heap
      ensures Valid()
      ensures heap == Unlinked(old(heap), rank, id)
      ensures rest == Orphans(old(heap), rank, id)
      ensures forall x :: x in rest ==> x in heap && rank[x] < rank[id]
    {
      UnlinkedValid(heap, rank, id);
      var up := heap[id].additionalUp;
      var down := heap[id].additionalDown;
      rest := [];
      if up.Some? {
        if down.Some? {
          heap := heap[down.value := SetNext(heap[down.value], AdditionalUp, up)];
        } else {
          heap := heap[up.value := SetNext(heap[up.value], AdditionalDown, None)];
        }
      }
      if down.Some? {
        if up.Some? {
          heap := heap[up.value := SetNext(heap[up.value], AdditionalDown, down)];
        } else {
          rest := Collect(heap, rank, down.value, AdditionalDown);
        }
      }
    }

    /** `delete` of the base class: marks the block deleted, detaches it from the block
        above and deletes the block below, then removes it from every enclosing general
        block. */
    method DeleteBase(id: Id, ghost scope: set<Id>)
      requires Valid() && id in heap
      requires Closed(heap, scope) && id in scope
      modifies this`heap, this`gone
      ensures Valid() && Closed(heap, scope)
      ensures Evolved(old(heap), old(gone), heap, gone, rank, rank[id])
      ensures DeletedFrom(old(heap), heap, gone, rank, id)
      ensures gone - old(gone) <= scope
      decreases rank[id], 1
    {
      gone := gone + {id};
      DetachAndDeleteBelow(id, scope);
      ghost var h1, g1 := heap, gone;
      RemoveFromEnclosing(id, scope);
      DeleteBaseDone(old(heap), old(gone), h1, g1, heap, rank, id);
    }

    /** The first half of the base `delete`: `layer_up_block.layer_down_block = None`,
        then `layer_down_block.delete()`. */
    method DetachAndDeleteBelow(id: Id, ghost scope: set<Id>)
      requires Valid() && id in heap && id in gone
      requires Closed(heap, scope) && id in scope
      modifies this`heap, this`gone
      ensures Valid() && Closed(heap, scope)
      ensures gone - old(gone) <= scope
      ensures Evolved(old(heap), old(gone), heap, gone, rank, rank[id] as int - 1)
      ensures forall x :: x in Walk(old(heap), rank, id, LayerDown) ==> x in gone
      ensures old(heap)[id].layerUp.Some? ==>
        old(heap)[id].layerUp.value in heap && heap[old(heap)[id].layerUp.value].layerDown.None?
      decreases rank[id], 0
    {
      Detach(id);
      DetachedBelow(old(heap), rank, id);
      DetachedClosed(old(heap), rank, id, scope);
      var down := heap[id].layerDown;
      if down.Some? {
        assert down.value in Below(old(heap)[id]);
        Delete(down.value, scope);
        DeletedBelow(old(heap), old(gone), heap, gone, rank, id);
      } else {
        NothingBelow(old(heap), old(gone), rank, id);
      }
    }

    /** The loop of the base `delete`: `delete_related_block` on each enclosing general
        block in turn. */
    method RemoveFromEnclosing(id: Id, ghost scope: set<Id>)
      requires Valid() && id in heap && id in gone && Closed(heap, scope)
      modifies this`heap
      ensures Valid() && Closed(heap, scope)
      ensures Evolved(old(heap), gone, heap, gone, rank, rank[id])
      ensures LostOnce(old(heap), heap, id, EnclosingGenerals(old(heap), rank, id))
    {
      ghost var gs := EnclosingGenerals(heap, rank, id);
      EnclosingStep(heap, rank, id);
      var top := HighestLayer(heap, rank, id);
      var current := heap[top].generalBlock;
      ghost var k := 0;
      while current.Some?
        invariant Valid() && heap.Keys == old(heap).Keys && Closed(heap, scope)
        invariant Evolved(old(heap), gone, heap, gone, rank, rank[id])
        invariant k <= |gs|
        invariant current == if k < |gs| then Some(gs[k]) else None
        invariant LostOnce(old(heap), heap, id, gs[..k])
        decreases |gs| - k
      {
        current := VisitEnclosing(old(heap), id, k, current.value, scope);
        k := k + 1;
      }
      assert gs[..k] == gs;
    }

    /** One turn of the loop of the base `delete`: `delete_related_block` on the `k`-th
        enclosing general block `g`, then the next general block up. */
    method VisitEnclosing(ghost h0: Heap, id: Id, ghost k: nat, g: Id, ghost scope: set<Id>) returns (next: Option<Id>)
      requires Valid() && Ranked(h0, rank) && id in h0 && id in gone && heap.Keys == h0.Keys
      requires Closed(heap, scope)
      requires k < |EnclosingGenerals(h0, rank, id)| && g == EnclosingGenerals(h0, rank, id)[k]
      requires Evolved(h0, gone, heap, gone, rank, rank[id])
      requires LostOnce(h0, heap, id, EnclosingGenerals(h0, rank, id)[..k])
      modifies this`heap
      ensures Valid() && heap.Keys == h0.Keys && Closed(heap, scope)
      ensures Evolved(h0, gone, heap, gone, rank, rank[id])
      ensures var gs := EnclosingGenerals(h0, rank, id);
        && LostOnce(h0, heap, id, gs[..k + 1])
        && next == if k + 1 < |gs| then Some(gs[k + 1]) else None
    {
      ghost var hp := heap;
      DeleteRelatedBlock(g, id);
      RelatedClosed(hp, g, id, scope);
      RemoveStep(h0, hp, gone, rank, id, k);
      var top := HighestLayer(heap, rank, g);
      next := heap[top].generalBlock;
    }

    method DeleteGeneral(id: Id, ghost scope: set<Id>)
      requires Valid() && id in heap
      requires Closed(heap, scope) && id in scope
      modifies this`heap, this`gone
      ensures Valid() && Closed(heap, scope)
      ensures gone - old(gone) <= scope
      ensures Evolved(old(heap), old(gone), heap, gone, rank, rank[id])
      ensures DeletedFrom(old(heap), heap, gone, rank, id)
      ensures forall x :: x in old(heap)[id].lines ==> x in gone
      decreases rank[id], 2
    {
      DeleteBase(id, scope);
      ghost var hb, gb := heap, gone;
      var ls := GetLines(heap, rank, id);
      LinesBelow(heap, rank, id);
      LinesInClosed(heap, rank, id, scope);
      assert forall x :: x in ls ==> rank[x] < rank[id];
      assert forall x :: x in ls ==> x in scope;
      forall i | 0 <= i < |ls| ensures ls[i] in heap && rank[ls[i]] < rank[id] && ls[i] in scope {
        assert ls[i] in ls;
      }
      DeleteAll(ls, rank[id], scope);
      DeletedFromPersists(old(heap), hb, gb, heap, gone, rank, id, rank[id] as int - 1);
      EvolvedTrans(old(heap), old(gone), hb, gb, heap, gone, rank, rank[id], rank[id] as int - 1, rank[id]);
      OldLinesGone(old(heap), old(gone), hb, gb, rank, id, ls, gone);
    }

    method DeleteWithAdditional(id: Id, ghost scope: set<Id>)
      requires Valid() && id in heap
      requires Closed(heap, scope) && id in scope
      modifies this`heap, this`gone
      ensures Valid() && Closed(heap, scope)
      ensures gone - old(gone) <= scope
      ensures Evolved(old(heap), old(gone), heap, gone, rank, rank[id])
      ensures DeletedFrom(old(heap), heap, gone, rank, id)
      ensures forall x :: x in old(heap)[id].lines ==> x in gone
      decreases rank[id], 3
    {
      DeleteGeneral(id, scope);
      ghost var hg, gg := heap, gone;
      var rest := UnlinkAdditional(id);
      UnlinkedClosed(hg, rank, id, scope);
      OrphansInClosed(hg, rank, id, scope);
      SameLinesEvolved(hg, gg, heap, gone, rank, -1);
      DeletedFromPersists(old(heap), hg, gg, heap, gone, rank, id, -1);
      EvolvedTrans(old(heap), old(gone), hg, gg, heap, gone, rank, rank[id], -1, rank[id]);
      ghost var hu, gu := heap, gone;
      assert forall x :: x in rest ==> x in scope;
      forall i | 0 <= i < |rest| ensures rest[i] in heap && rank[rest[i]] < rank[id] && rest[i] in scope {
        assert rest[i] in rest;
      }
      DeleteAll(rest, rank[id], scope);
      DeletedFromPersists(old(heap), hu, gu, heap, gone, rank, id, rank[id] as int - 1);
      EvolvedTrans(old(heap), old(gone), hu, gu, heap, gone, rank, rank[id], rank[id] as int - 1, rank[id]);
    }

    /** `for block in blocks: block.delete()`, over blocks of `scope` ranked below
        `bound`. */
    method DeleteAll(blocks: seq<Id>, ghost bound: nat, ghost scope: set<Id>)
      requires Valid() && Closed(heap, scope)
      requires forall i :: 0 <= i < |blocks| ==> blocks[i] in heap && rank[blocks[i]] < bound && blocks[i] in scope
      modifies this`heap, this`gone
      ensures Valid() && Closed(heap, scope)
      ensures Evolved(old(heap), old(gone), heap, gone, rank, bound as int - 1)
      ensures forall i :: 0 <= i < |blocks| ==> blocks[i] in gone
      ensures gone - old(gone) <= scope
      decreases bound, 0
    {
      for i := 0 to |blocks|
        invariant Valid() && heap.Keys == old(heap).Keys
        invariant Closed(heap, scope) && gone - old(gone) <= scope
        invariant Evolved(old(heap), old(gone), heap, gone, rank, bound as int - 1)
        invariant forall j :: 0 <= j < i ==> blocks[j] in gone
      {
        ghost var hp, gp := heap, gone;
        Delete(blocks[i], scope);
        EvolvedTrans(old(heap), old(gone), hp, gp, heap, gone, rank, bound as int - 1, rank[blocks[i]], bound as int - 1);
      }
    }

    /** `delete`, dispatched on the block's class. It deletes only blocks of `scope`, a
        closed set that holds the block; the least one is `Reach(heap, rank, id)`
        (`ReachClosed`, `ReachLeast`), so only blocks reachable from it are deleted. */
    method Delete(id: Id, ghost scope: set<Id>)
      requires Valid() && id in heap
      requires Closed(heap, scope) && id in scope
      modifies this`heap, this`gone
      ensures Valid() && Closed(heap, scope)
      ensures gone - old(gone) <= scope
      ensures Evolved(old(heap), old(gone), heap, gone, rank, rank[id])
      ensures DeletedFrom(old(heap), heap, gone, rank, id)
      ensures forall x :: x in old(heap)[id].lines ==> x in gone
      decreases rank[id], 4
    {
      assert ShapedAt(heap, id);
      if heap[id].cls.hasAdditional {
        DeleteWithAdditional(id, scope);
      } else if heap[id].cls.isGeneral {
        DeleteGeneral(id, scope);
      } else {
        DeleteBase(id, scope);
      }
    }
  }
}

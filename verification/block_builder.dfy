/**
 * The HTML block builder (mrt/js/cp.js): a list of blocks, each a start
 * selector, a content area and an end selector, that the user adds,
 * deletes and reorders by drag and drop, copies out as one string, and
 * saves to and restores from storage without the contents.
 */
module BlockBuilder {
  import opened Wrappers

  /** One block element: its identity and the values of its three fields. */
  datatype Block = Block(id: nat, start: string, content: string, end: string)

  /** The bounding box of a block on screen, in the vertical direction. */
  datatype Box = Box(top: real, height: real)

  // ---------------------------------------------------------------------
  // getDragAfterElement
  // ---------------------------------------------------------------------

  /** How far the cursor is below the middle of the box; negative above it. */
  function Offset(y: real, box: Box): real {
    y - box.top - box.height / 2.0
  }

  /**
   * The `reduce` of `getDragAfterElement` over the offsets of the candidate
   * blocks, in order: the index of the one kept so far.  The start value,
   * an offset of minus infinity, is `None`.
   */
  function Closest(offsets: seq<real>): (r: Option<nat>)
    ensures r.Some? ==> r.value < |offsets| && offsets[r.value] < 0.0
    decreases |offsets|
  {
    if offsets == [] then None
    else
      var i := |offsets| - 1;
      var best := Closest(offsets[..i]);
      if offsets[i] < 0.0 && (best.None? || offsets[i] > offsets[best.value]) then Some(i) else best
  }

  /**
   * Block `i` is the one to insert before: the cursor is above its middle,
   * no other block has its middle closer below the cursor, and no earlier
   * block is as close.
   */
  predicate IsClosest(offsets: seq<real>, i: int) {
    && 0 <= i < |offsets|
    && offsets[i] < 0.0
    && (forall j :: 0 <= j < |offsets| && offsets[j] < 0.0 ==> offsets[j] <= offsets[i])
    && (forall j :: 0 <= j < i && offsets[j] < 0.0 ==> offsets[j] < offsets[i])
  }

  predicate NoneAbove(offsets: seq<real>) {
    forall j :: 0 <= j < |offsets| ==> offsets[j] >= 0.0
  }

  /** The reduce finds the closest block above the cursor, and finds none exactly when there is none. */
  lemma {:induction false} ClosestFinds(offsets: seq<real>)
    ensures Closest(offsets).None? <==> NoneAbove(offsets)
    ensures Closest(offsets).Some? ==> IsClosest(offsets, Closest(offsets).value)
    decreases |offsets|
  {
    if offsets != [] {
      var i := |offsets| - 1;
      var front := offsets[..i];
      ClosestFinds(front);
      assert forall j :: 0 <= j < i ==> offsets[j] == front[j];
    }
  }

  /** There is at most one closest block. */
  lemma {:induction false} ClosestUnique(offsets: seq<real>, i: int, k: int)
    requires IsClosest(offsets, i) && IsClosest(offsets, k)
    ensures i == k
  {
    assert offsets[i] <= offsets[k] && offsets[k] <= offsets[i];
  }

  /** `Closest` picks block `i` exactly when `i` is the closest block. */
  lemma {:induction false} ClosestIff(offsets: seq<real>, i: nat)
    ensures Closest(offsets) == Some(i) <==> IsClosest(offsets, i)
  {
    ClosestFinds(offsets);
    if IsClosest(offsets, i) {
      assert !NoneAbove(offsets);
      ClosestUnique(offsets, i, Closest(offsets).value);
    }
  }

  /** The offsets of the candidate blocks for cursor height `y`, given where each block is drawn. */
  function Offsets(candidates: seq<Block>, y: real, boxOf: nat -> Box): (r: seq<real>)
    ensures |r| == |candidates|
  {
    seq(|candidates|, i requires 0 <= i < |candidates| => Offset(y, boxOf(candidates[i].id)))
  }

  /** `getDragAfterElement`: the index among the candidates of the block to insert before, or `None` for the end. */
  function DragAfter(candidates: seq<Block>, y: real, boxOf: nat -> Box): (r: Option<nat>)
    ensures r.Some? ==> r.value < |candidates|
  {
    Closest(Offsets(candidates, y, boxOf))
  }

  // ---------------------------------------------------------------------
  // The block list
  // ---------------------------------------------------------------------

  /** The position of the block with identity `id`. */
  function IndexOfId(blocks: seq<Block>, id: nat): (r: Option<nat>)
    ensures r.Some? ==> r.value < |blocks| && blocks[r.value].id == id
    ensures r.None? ==> forall i :: 0 <= i < |blocks| ==> blocks[i].id != id
    decreases |blocks|
  {
    if blocks == [] then None
    else if blocks[|blocks| - 1].id == id then Some(|blocks| - 1)
    else IndexOfId(blocks[..|blocks| - 1], id)
  }

  /** No two blocks share an identity. */
  predicate DistinctIds(blocks: seq<Block>) {
    forall i, j :: 0 <= i < j < |blocks| ==> blocks[i].id != blocks[j].id
  }

  /** The blocks other than the one with identity `id`, in order. */
  function Others(blocks: seq<Block>, id: nat): seq<Block>
    decreases |blocks|
  {
    if blocks == [] then []
    else Others(blocks[..|blocks| - 1], id) + (if blocks[|blocks| - 1].id == id then [] else [blocks[|blocks| - 1]])
  }

  lemma {:induction false} OthersAppend(a: seq<Block>, b: seq<Block>, id: nat)
    ensures Others(a + b, id) == Others(a, id) + Others(b, id)
    decreases |b|
  {
    if b == [] {
      assert a + b == a;
    } else {
      var init := b[..|b| - 1];
      OthersAppend(a, init, id);
      assert (a + b)[..|a + b| - 1] == a + init;
    }
  }

  lemma {:induction false} OthersAbsent(blocks: seq<Block>, id: nat)
    requires forall i :: 0 <= i < |blocks| ==> blocks[i].id != id
    ensures Others(blocks, id) == blocks
    decreases |blocks|
  {
    if blocks != [] {
      OthersAbsent(blocks[..|blocks| - 1], id);
    }
  }

  /** The list with position `k` cut out. */
  function Cut(blocks: seq<Block>, k: nat): (r: seq<Block>)
    requires k < |blocks|
    ensures |r| == |blocks| - 1
  {
    blocks[..k] + blocks[k + 1..]
  }

  /** With distinct identities, the cut-out identity appears nowhere else. */
  lemma {:induction false} CutLacksId(blocks: seq<Block>, k: nat)
    requires DistinctIds(blocks) && k < |blocks|
    ensures forall j :: 0 <= j < |Cut(blocks, k)| ==> Cut(blocks, k)[j].id != blocks[k].id
  {
    var rest := Cut(blocks, k);
    forall j | 0 <= j < |rest|
      ensures rest[j].id != blocks[k].id
    {
      if j < k {
        assert rest[j] == blocks[j];
      } else {
        assert rest[j] == blocks[j + 1];
      }
    }
  }

  /** With distinct identities, the other blocks are the list with position `k` cut out. */
  lemma {:induction false} OthersCut(blocks: seq<Block>, k: nat)
    requires DistinctIds(blocks) && k < |blocks|
    ensures Others(blocks, blocks[k].id) == Cut(blocks, k)
  {
    var id := blocks[k].id;
    assert blocks == blocks[..k] + [blocks[k]] + blocks[k + 1..];
    OthersAppend(blocks[..k] + [blocks[k]], blocks[k + 1..], id);
    OthersAppend(blocks[..k], [blocks[k]], id);
    OthersAbsent(blocks[..k], id);
    OthersAbsent(blocks[k + 1..], id);
    assert [blocks[k]][..0] == [];
  }

  /**
   * The list after dropping the block with identity `d` at cursor height
   * `y`: it leaves its place and goes in front of the block
   * `getDragAfterElement` picks among the others, or to the end.
   */
  function Dropped(blocks: seq<Block>, d: nat, y: real, boxOf: nat -> Box): seq<Block> {
    match IndexOfId(blocks, d)
    case None => blocks
    case Some(k) =>
      var rest := Cut(blocks, k);
      match DragAfter(rest, y, boxOf)
      case None => rest + [blocks[k]]
      case Some(i) => rest[..i] + [blocks[k]] + rest[i..]
  }

  /** A drop loses no block and adds none. */
  lemma {:induction false} DroppedPermutes(blocks: seq<Block>, d: nat, y: real, boxOf: nat -> Box)
    ensures multiset(Dropped(blocks, d, y, boxOf)) == multiset(blocks)
  {
    match IndexOfId(blocks, d)
    case None =>
    case Some(k) =>
      var rest := Cut(blocks, k);
      assert blocks == blocks[..k] + [blocks[k]] + blocks[k + 1..];
      match DragAfter(rest, y, boxOf)
      case None =>
      case Some(i) =>
        assert rest == rest[..i] + rest[i..];
  }

  /** Putting a block with identity `d` anywhere into a list without `d` leaves the others as they were. */
  lemma {:induction false} OthersInsert(rest: seq<Block>, moved: Block, i: nat)
    requires i <= |rest|
    requires forall j :: 0 <= j < |rest| ==> rest[j].id != moved.id
    ensures Others(rest[..i] + [moved] + rest[i..], moved.id) == rest
  {
    var d := moved.id;
    OthersAbsent(rest[..i], d);
    OthersAbsent(rest[i..], d);
    OthersAppend(rest[..i] + [moved], rest[i..], d);
    OthersAppend(rest[..i], [moved], d);
    assert [moved][..0] == [];
    assert rest[..i] + rest[i..] == rest;
  }

  /** The blocks other than the dragged one keep their relative order. */
  lemma {:induction false} DroppedKeepsOrder(blocks: seq<Block>, d: nat, y: real, boxOf: nat -> Box)
    requires DistinctIds(blocks)
    ensures Others(Dropped(blocks, d, y, boxOf), d) == Others(blocks, d)
  {
    match IndexOfId(blocks, d)
    case None =>
    case Some(k) =>
      var rest := Cut(blocks, k);
      OthersCut(blocks, k);
      CutLacksId(blocks, k);
      match DragAfter(rest, y, boxOf)
      case None =>
        OthersInsert(rest, blocks[k], |rest|);
        assert rest[..|rest|] + [blocks[k]] + rest[|rest|..] == rest + [blocks[k]];
      case Some(i) =>
        OthersInsert(rest, blocks[k], i);
  }

  /** The dragged block lands right in front of the chosen block, or last when none is chosen. */
  lemma {:induction false} DroppedPlace(blocks: seq<Block>, k: nat, y: real, boxOf: nat -> Box)
    requires DistinctIds(blocks) && k < |blocks|
    ensures |Dropped(blocks, blocks[k].id, y, boxOf)| == |blocks|
    ensures DragAfter(Cut(blocks, k), y, boxOf).None? ==>
      Dropped(blocks, blocks[k].id, y, boxOf)[|blocks| - 1] == blocks[k]
    ensures DragAfter(Cut(blocks, k), y, boxOf).Some? ==>
      var i := DragAfter(Cut(blocks, k), y, boxOf).value;
      Dropped(blocks, blocks[k].id, y, boxOf)[i] == blocks[k]
      && Dropped(blocks, blocks[k].id, y, boxOf)[i + 1] == Cut(blocks, k)[i]
  {
    var k' := IndexOfId(blocks, blocks[k].id).value;
    assert k' == k;
  }

  /** The text a block contributes to the copy output. */
  function Piece(b: Block): string {
    b.start + b.content + b.end
  }

  /** The copy output: every block's start, content and end, in order. */
  function Joined(blocks: seq<Block>): string
    decreases |blocks|
  {
    if blocks == [] then "" else Joined(blocks[..|blocks| - 1]) + Piece(blocks[|blocks| - 1])
  }

  /** The saved form of a block: its two selectors, without the content. */
  datatype Selectors = Selectors(start: string, end: string)

  function SelectorsOf(blocks: seq<Block>): (r: seq<Selectors>)
    ensures |r| == |blocks|
  {
    seq(|blocks|, i requires 0 <= i < |blocks| => Selectors(blocks[i].start, blocks[i].end))
  }

  /** One entry of the parsed storage array: each selector is a value or `undefined`. */
  datatype Entry = Entry(start: Option<string>, end: Option<string>)

  /** The parsed storage value: an array of entries (`None` for a null entry) or anything else. */
  datatype Stored = NotArray | ArrayOf(entries: seq<Option<Entry>>)

  /** The entries that are restored: those with both selectors defined, in order. */
  function Restorable(entries: seq<Option<Entry>>): seq<Selectors>
    decreases |entries|
  {
    if entries == [] then []
    else
      var e := entries[|entries| - 1];
      Restorable(entries[..|entries| - 1])
      + (if e.Some? && e.value.start.Some? && e.value.end.Some? then [Selectors(e.value.start.value, e.value.end.value)] else [])
  }

  /** The array `JSON.stringify` writes for saved selectors, as `JSON.parse` reads it back. */
  function Stringified(saved: seq<Selectors>): (r: seq<Option<Entry>>)
    ensures |r| == |saved|
  {
    seq(|saved|, i requires 0 <= i < |saved| => Some(Entry(Some(saved[i].start), Some(saved[i].end))))
  }

  /** Loading what was saved restores every block's selectors, in order. */
  lemma {:induction false} SaveLoadRoundTrip(saved: seq<Selectors>)
    ensures Restorable(Stringified(saved)) == saved
    decreases |saved|
  {
    if saved != [] {
      var init := saved[..|saved| - 1];
      SaveLoadRoundTrip(init);
      assert Stringified(saved)[..|saved| - 1] == Stringified(init);
    }
  }

  /** The block container of the page. */
  class Builder {
    var blocks: seq<Block>
    var dragging: Option<nat>
    var nextId: nat

    /** Every block is a distinct element, created before `nextId` was handed out. */
    predicate Valid()
      reads this
    {
      DistinctIds(blocks) && forall i :: 0 <= i < |blocks| ==> blocks[i].id < nextId
    }

    /** An empty container, before anything is restored. */
    constructor()
      ensures Valid()
      ensures blocks == [] && dragging == None
    {
      blocks := [];
      dragging := None;
      nextId := 0;
    }

    /** `createBlock(start, end)`: one new block with an empty content area, at the end. */
    method CreateBlock(start: string, end: string)
      requires Valid()
      modifies this`blocks, this`nextId
      ensures Valid()
      ensures blocks == old(blocks) + [Block(old(nextId), start, "", end)]
    {
      blocks := blocks + [Block(nextId, start, "", end)];
      nextId := nextId + 1;
    }

    /** The delete button of block `id`: that block leaves the list, and only that one. */
    method Delete(id: nat)
      requires Valid()
      modifies this`blocks
      ensures Valid()
      ensures blocks == Others(old(blocks), id)
      ensures forall k :: IndexOfId(old(blocks), id) == Some(k) ==> blocks == Cut(old(blocks), k)
      ensures IndexOfId(old(blocks), id).None? ==> blocks == old(blocks)
    {
      match IndexOfId(blocks, id) {
        case None =>
          OthersAbsent(blocks, id);
        case Some(k) =>
          OthersCut(blocks, k);
          blocks := Cut(blocks, k);
      }
    }

    /** What the user types into block `k`. */
    method Edit(k: nat, start: string, content: string, end: string)
      requires Valid() && k < |blocks|
      modifies this`blocks
      ensures Valid()
      ensures blocks == old(blocks)[k := Block(old(blocks)[k].id, start, content, end)]
    {
      blocks := blocks[k := Block(blocks[k].id, start, content, end)];
    }

    /** `dragstart` on block `k`: it becomes the dragged element. */
    method DragStart(k: nat)
      requires k < |blocks|
      modifies this`dragging
      ensures dragging == Some(blocks[k].id)
    {
      dragging := Some(blocks[k].id);
    }

    /** `dragend`: nothing is dragged any more. */
    method DragEnd()
      modifies this`dragging
      ensures dragging == None
    {
      dragging := None;
    }

    /** The `drop` handler at cursor height `y`, with `boxOf` giving where each block is drawn. */
    method Drop(y: real, boxOf: nat -> Box)
      requires Valid()
      modifies this`blocks
      ensures Valid()
      ensures old(dragging).None? ==> blocks == old(blocks)
      ensures old(dragging).Some? ==> blocks == Dropped(old(blocks), old(dragging).value, y, boxOf)
    {
      if dragging.None? {
        return;
      }
      var d := dragging.value;
      DroppedPermutes(blocks, d, y, boxOf);
      match IndexOfId(blocks, d) {
        case None =>
        case Some(k) =>
          var moved := blocks[k];
          var rest := blocks[..k] + blocks[k + 1..];
          var afterElement := DragAfter(rest, y, boxOf);
          match afterElement {
            case None => blocks := rest + [moved];
            case Some(i) => blocks := rest[..i] + [moved] + rest[i..];
          }
      }
      DistinctAfterPermutation(old(blocks), blocks, nextId);
    }

    /** The copy button: nothing is written when there is no block; otherwise the joined output. */
    method Copy() returns (written: Option<string>)
      ensures written.None? <==> blocks == []
      ensures written.Some? ==> written.value == Joined(blocks)
    {
      if |blocks| == 0 {
        return None;
      }
      var output := "";
      for n := 0 to |blocks|
        invariant output == Joined(blocks[..n])
      {
        var b := blocks[n];
        assert blocks[..n + 1][..n] == blocks[..n];
        if b.start != "" || b.end != "" || b.content != "" {
          output := output + b.start + b.content + b.end;
        } else {
          assert Piece(b) == "";
        }
      }
      assert blocks[..|blocks|] == blocks;
      return Some(output);
    }

    /** The save button: each block's two selectors, in order, without its content. */
    method Save() returns (data: seq<Selectors>)
      ensures data == SelectorsOf(blocks)
    {
      data := [];
      for n := 0 to |blocks|
        invariant data == SelectorsOf(blocks[..n])
      {
        data := data + [Selectors(blocks[n].start, blocks[n].end)];
      }
      assert blocks[..|blocks|] == blocks;
    }

    /**
     * `loadFromStorage`: an array replaces all blocks with the entries whose
     * two selectors are defined, with empty contents; anything else changes
     * nothing.
     */
    method Load(stored: Option<Stored>)
      requires Valid()
      modifies this`blocks, this`nextId
      ensures Valid()
      ensures (stored.None? || stored.value.NotArray?) ==> blocks == old(blocks)
      ensures stored.Some? && stored.value.ArrayOf? ==>
        SelectorsOf(blocks) == Restorable(stored.value.entries)
        && forall i :: 0 <= i < |blocks| ==> blocks[i].content == ""
    {
      if stored.None? || stored.value.NotArray? {
        return;
      }
      var entries := stored.value.entries;
      blocks := [];
      for n := 0 to |entries|
        invariant Valid()
        invariant SelectorsOf(blocks) == Restorable(entries[..n])
        invariant forall i :: 0 <= i < |blocks| ==> blocks[i].content == ""
      {
        var e := entries[n];
        assert entries[..n + 1][..n] == entries[..n];
        if e.Some? && e.value.start.Some? && e.value.end.Some? {
          CreateBlock(e.value.start.value, e.value.end.value);
        }
      }
      assert entries[..|entries|] == entries;
    }

    /** The reset button: all blocks go, but only when the user confirms. */
    method ResetAll(confirmed: bool)
      requires Valid()
      modifies this`blocks
      ensures Valid()
      ensures blocks == if confirmed then [] else old(blocks)
    {
      if confirmed {
        blocks := [];
      }
    }
  }

  /** A rearrangement of blocks with distinct identities below `bound` keeps both properties. */
  lemma {:induction false} DistinctAfterPermutation(a: seq<Block>, b: seq<Block>, bound: nat)
    requires DistinctIds(a) && forall i :: 0 <= i < |a| ==> a[i].id < bound
    requires multiset(b) == multiset(a)
    ensures DistinctIds(b) && forall i :: 0 <= i < |b| ==> b[i].id < bound
  {
    forall i | 0 <= i < |b|
      ensures b[i].id < bound
    {
      assert b[i] in multiset(a);
    }
    forall i, j | 0 <= i < j < |b|
      ensures b[i].id != b[j].id
    {
      NoRepeat(a, b, i, j);
    }
  }

  /** Two positions of a rearrangement of `a` never hold the same identity. */
  lemma {:induction false} NoRepeat(a: seq<Block>, b: seq<Block>, i: nat, j: nat)
    requires DistinctIds(a)
    requires multiset(b) == multiset(a)
    requires i < j < |b|
    ensures b[i].id != b[j].id
  {
    CountTwo(b, i, j);
    CountOne(a, b[i]);
    assert b[i] != b[j];
    assert b[i] in multiset(a) && b[j] in multiset(a);
    var p :| 0 <= p < |a| && a[p] == b[i];
    var q :| 0 <= q < |a| && a[q] == b[j];
    if p < q {
      assert a[p].id != a[q].id;
    } else {
      assert a[q].id != a[p].id;
    }
  }

  /** A value held at two positions is counted at least twice. */
  lemma {:induction false} CountTwo(b: seq<Block>, i: nat, j: nat)
    requires i < j < |b|
    ensures b[i] == b[j] ==> multiset(b)[b[i]] >= 2
  {
    assert b == b[..j] + b[j..];
    assert b[i] in b[..j] && b[j] in b[j..];
    assert multiset(b)[b[j]] == multiset(b[..j])[b[j]] + multiset(b[j..])[b[j]];
  }

  /** With distinct identities no block is counted twice. */
  lemma {:induction false} CountOne(a: seq<Block>, x: Block)
    requires DistinctIds(a)
    ensures multiset(a)[x] <= 1
    decreases |a|
  {
    if a != [] {
      var init, last := a[..|a| - 1], a[|a| - 1];
      assert a == init + [last];
      CountOne(init, x);
      if x == last {
        assert forall j :: 0 <= j < |init| ==> init[j] != x;
        assert x !in init;
      }
    }
  }
}

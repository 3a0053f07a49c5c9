/** A column value that arrives in pieces, because its row is spread over several blocks: the
    pieces are kept apart until the row is complete, and are then merged. */
module ColumnFragments {
  import opened Basics
  import opened ColumnImages

  /** A piece continues from a previous one, goes on in a next one, both, or neither. */
  datatype Piece = WHOLE | FIRST | MIDDLE | LAST

  /** The three entries of `valuesPart` for one column and kind. */
  datatype Parts = Parts(first: Image, middle: Image, last: Image)

  const NO_PARTS := Parts(None, None, None)

  datatype Slot = Slot(value: Image, parts: Parts)

  /** `valueSet` for one column and kind. */
  function SetPiece(slot: Slot, piece: Piece, data: seq<int>): Slot {
    match piece
    case WHOLE => slot.(value := Some(data))
    case FIRST => slot.(parts := slot.parts.(first := Some(data)))
    case MIDDLE => slot.(parts := slot.parts.(middle := Some(data)))
    case LAST => slot.(parts := slot.parts.(last := Some(data)))
  }

  function Joined(parts: Parts): seq<int> {
    Meaning(parts.first) + Meaning(parts.middle) + Meaning(parts.last)
  }

  datatype Merge = Merged(slot: Slot) | AlreadySet

  /** Pieces without any byte are left where they are. */
  function MergeSlot(slot: Slot): Merge {
    if Joined(slot.parts) == [] then Merged(slot)
    else if slot.value.Some? then AlreadySet
    else Merged(Slot(Some(Joined(slot.parts)), NO_PARTS))
  }

  /** Before a row: no value, and no piece with a byte in it. */
  predicate Clean(slot: Slot) {
    slot.value.None? && Joined(slot.parts) == []
  }

  // ------------------------------------------------------------ the pieces of one row

  datatype Delivery = Delivery(piece: Piece, data: seq<int>)

  function Collected(slot: Slot, ds: seq<Delivery>): Slot
    decreases |ds|
  {
    if ds == [] then slot
    else
      var n := |ds| - 1;
      SetPiece(Collected(slot, ds[..n]), ds[n].piece, ds[n].data)
  }

  /** The last delivery of a piece. */
  function LastOf(ds: seq<Delivery>, piece: Piece): Image
    decreases |ds|
  {
    if ds == [] then None
    else
      var n := |ds| - 1;
      if ds[n].piece == piece then Some(ds[n].data) else LastOf(ds[..n], piece)
  }

  function OrElse(image: Image, other: Image): Image {
    if image.Some? then image else other
  }

  lemma {:induction false} CollectedIsLast(slot: Slot, ds: seq<Delivery>)
    ensures var r := Collected(slot, ds);
            && r.value == OrElse(LastOf(ds, WHOLE), slot.value)
            && r.parts.first == OrElse(LastOf(ds, FIRST), slot.parts.first)
            && r.parts.middle == OrElse(LastOf(ds, MIDDLE), slot.parts.middle)
            && r.parts.last == OrElse(LastOf(ds, LAST), slot.parts.last)
    decreases |ds|
  {
    if ds != [] {
      CollectedIsLast(slot, ds[..|ds| - 1]);
    }
  }

  lemma EmptyParts(parts: Parts)
    requires Joined(parts) == []
    ensures Meaning(parts.first) == [] && Meaning(parts.middle) == [] && Meaning(parts.last) == []
  {
    assert |Joined(parts)| == |Meaning(parts.first)| + |Meaning(parts.middle)| + |Meaning(parts.last)|;
  }

  /** Whatever arrives, in whatever order: the merge gives the last of each of the three pieces one
      behind the other, or the value in one piece if there is nothing to merge, or the error. What an
      earlier row left in the parts does not matter. */
  lemma MergeOutcome(slot: Slot, ds: seq<Delivery>)
    requires Clean(slot)
    ensures var joined := Meaning(LastOf(ds, FIRST)) + Meaning(LastOf(ds, MIDDLE)) + Meaning(LastOf(ds, LAST));
            match MergeSlot(Collected(slot, ds))
            case AlreadySet => joined != [] && LastOf(ds, WHOLE).Some?
            case Merged(r) => if joined == [] then r.value == LastOf(ds, WHOLE) else LastOf(ds, WHOLE).None? && r.value == Some(joined)
  {
    CollectedIsLast(slot, ds);
    EmptyParts(slot.parts);
  }

  /** After the release, which drops the value, the slot is ready for the next row. */
  lemma MergedIsClean(slot: Slot)
    ensures match MergeSlot(slot)
            case Merged(r) => Clean(r.(value := None))
            case AlreadySet => true
  {
  }

  lemma {:induction false} LastOfIsDelivered(ds: seq<Delivery>, piece: Piece)
    ensures LastOf(ds, piece).Some? ==> Delivery(piece, LastOf(ds, piece).value) in ds
    ensures LastOf(ds, piece).None? ==> forall d :: d in ds ==> d.piece != piece
    decreases |ds|
  {
    if ds != [] {
      var n := |ds| - 1;
      LastOfIsDelivered(ds[..n], piece);
      assert ds == ds[..n] + [ds[n]];
      assert ds[n] == Delivery(ds[n].piece, ds[n].data);
    }
  }

  lemma OneOfEach(ds: seq<Delivery>, piece: Piece, data: seq<int>, all: multiset<Delivery>)
    requires multiset(ds) == all && Delivery(piece, data) in all
    requires forall d :: d in all && d.piece == piece ==> d.data == data
    ensures LastOf(ds, piece) == Some(data)
  {
    LastOfIsDelivered(ds, piece);
    assert Delivery(piece, data) in multiset(ds);
    if LastOf(ds, piece).Some? {
      assert Delivery(piece, LastOf(ds, piece).value) in multiset(ds);
    }
  }

  /** The three pieces of a value, in any order of arrival, become the value again. */
  lemma ThreePieces(slot: Slot, ds: seq<Delivery>, a: seq<int>, b: seq<int>, c: seq<int>)
    requires Clean(slot) && multiset(ds) == multiset{Delivery(FIRST, a), Delivery(MIDDLE, b), Delivery(LAST, c)}
    ensures var r := MergeSlot(Collected(slot, ds)); r.Merged? && Meaning(r.slot.value) == a + b + c
  {
    hide Collected, LastOf, MergeSlot;
    var all := multiset{Delivery(FIRST, a), Delivery(MIDDLE, b), Delivery(LAST, c)};
    OneOfEach(ds, FIRST, a, all);
    OneOfEach(ds, MIDDLE, b, all);
    OneOfEach(ds, LAST, c, all);
    LastOfIsDelivered(ds, WHOLE);
    NotDelivered(ds, all);
    MergeOutcome(slot, ds);
  }

  lemma NotDelivered(ds: seq<Delivery>, all: multiset<Delivery>)
    requires multiset(ds) == all && forall d :: d in all ==> d.piece != WHOLE
    ensures LastOf(ds, WHOLE).None?
  {
    LastOfIsDelivered(ds, WHOLE);
    assert forall d :: d in ds ==> d in multiset(ds);
  }

  // ------------------------------------------------------------ more than three pieces

  function Middles(bs: seq<seq<int>>): (ds: seq<Delivery>)
    ensures |ds| == |bs| && forall i :: 0 <= i < |ds| ==> ds[i] == Delivery(MIDDLE, bs[i])
  {
    seq(|bs|, i requires 0 <= i < |bs| => Delivery(MIDDLE, bs[i]))
  }

  function Concat(bs: seq<seq<int>>): seq<int>
    decreases |bs|
  {
    if bs == [] then [] else Concat(bs[..|bs| - 1]) + bs[|bs| - 1]
  }

  lemma {:induction false} ConcatEmpty(bs: seq<seq<int>>)
    ensures Concat(bs) == [] <==> forall i :: 0 <= i < |bs| ==> bs[i] == []
    decreases |bs|
  {
    if bs != [] {
      var n := |bs| - 1;
      ConcatEmpty(bs[..n]);
      assert |Concat(bs)| == |Concat(bs[..n])| + |bs[n]|;
    }
  }

  /** The deliveries in row order. */
  function InRowOrder(a: seq<int>, bs: seq<seq<int>>, c: seq<int>): seq<Delivery> {
    [Delivery(FIRST, a)] + Middles(bs) + [Delivery(LAST, c)]
  }

  lemma {:induction false} LastOfFront(a: seq<int>, bs: seq<seq<int>>)
    ensures var ds := [Delivery(FIRST, a)] + Middles(bs);
            && LastOf(ds, FIRST) == Some(a) && LastOf(ds, WHOLE) == None && LastOf(ds, LAST) == None
            && LastOf(ds, MIDDLE) == if bs == [] then None else Some(bs[|bs| - 1])
    decreases |bs|
  {
    var ds := [Delivery(FIRST, a)] + Middles(bs);
    var n := |ds| - 1;
    if bs == [] {
      assert ds == [Delivery(FIRST, a)] && ds[..n] == [];
    } else {
      LastOfFront(a, bs[..|bs| - 1]);
      assert ds[..n] == [Delivery(FIRST, a)] + Middles(bs[..|bs| - 1]);
    }
  }

  lemma LastOfRow(a: seq<int>, bs: seq<seq<int>>, c: seq<int>)
    ensures var ds := InRowOrder(a, bs, c);
            && LastOf(ds, FIRST) == Some(a) && LastOf(ds, WHOLE) == None && LastOf(ds, LAST) == Some(c)
            && LastOf(ds, MIDDLE) == if bs == [] then None else Some(bs[|bs| - 1])
  {
    var ds := InRowOrder(a, bs, c);
    LastOfFront(a, bs);
    assert ds[..|ds| - 1] == [Delivery(FIRST, a)] + Middles(bs);
  }

  /** A value in any number of pieces becomes the value again if and only if all its middle pieces
      but the last one are empty. */
  lemma MiddlesMerge(slot: Slot, a: seq<int>, bs: seq<seq<int>>, c: seq<int>)
    requires Clean(slot)
    ensures var r := MergeSlot(Collected(slot, InRowOrder(a, bs, c)));
            && r.Merged?
            && (Meaning(r.slot.value) == a + Concat(bs) + c <==> forall i :: 0 <= i < |bs| - 1 ==> bs[i] == [])
  {
    hide Collected, LastOf, MergeSlot, Concat, InRowOrder;
    LastOfRow(a, bs, c);
    MergeOutcome(slot, InRowOrder(a, bs, c));
    LastMiddleIsAll(a, bs, c);
  }

  lemma LastMiddleIsAll(a: seq<int>, bs: seq<seq<int>>, c: seq<int>)
    ensures var last := if bs == [] then [] else bs[|bs| - 1];
            a + last + c == a + Concat(bs) + c <==> forall i :: 0 <= i < |bs| - 1 ==> bs[i] == []
  {
    if bs == [] {
      assert Concat(bs) == [];
    } else {
      var n := |bs| - 1;
      ConcatEmpty(bs[..n]);
      SameMiddle(a, bs[n], Concat(bs[..n]), c);
      assert forall i :: 0 <= i < n ==> bs[..n][i] == bs[i];
    }
  }

  lemma SameMiddle(a: seq<int>, b: seq<int>, extra: seq<int>, c: seq<int>)
    ensures a + b + c == a + (extra + b) + c <==> extra == []
  {
    assert |a + b + c| == |a| + |b| + |c| && |a + (extra + b) + c| == |a| + |extra| + |b| + |c|;
    if extra == [] {
      assert extra + b == b;
    }
  }

  // ------------------------------------------------------------ the arrays

  const KINDS := 4

  /** The entries of one column in `values`, `valuesPart` and `valuesMerge`. */
  class ColumnSlots {
    var slots: array<Slot>
    var merge: bool

    ghost predicate Valid()
      reads this, slots
    {
      slots.Length == KINDS && (!merge ==> forall j :: 0 <= j < KINDS ==> Joined(slots[j].parts) == [])
    }

    constructor ()
      ensures Valid() && fresh(slots) && forall j :: 0 <= j < KINDS ==> Clean(slots[j])
    {
      slots := new Slot[KINDS](_ => Slot(None, NO_PARTS));
      merge := false;
    }

    /** The second half of `valueSet`. */
    method ValueSet(kind: nat, piece: Piece, data: seq<int>)
      requires Valid() && kind < KINDS
      modifies this`merge, slots
      ensures Valid() && slots[..] == old(slots[..])[kind := SetPiece(old(slots[kind]), piece, data)]
    {
      slots[kind] := SetPiece(slots[kind], piece, data);
      if piece != WHOLE {
        merge := true;
      }
    }

    /** The merge of one column, or error 50015. */
    method MergeColumn() returns (error: nat)
      requires Valid()
      modifies this`merge, slots
      ensures error == 0 ==> Valid() && !merge && forall j :: 0 <= j < KINDS ==> MergeSlot(old(slots[j])) == Merged(slots[j])
      ensures error != 0 ==> error == 50015 && exists j :: 0 <= j < KINDS && MergeSlot(old(slots[j])) == AlreadySet
    {
      error := 0;
      if merge {
        var j := 0;
        while j < KINDS
          invariant 0 <= j <= KINDS && slots.Length == KINDS
          invariant forall k :: 0 <= k < j ==> MergeSlot(old(slots[k])) == Merged(slots[k])
          invariant forall k :: j <= k < KINDS ==> slots[k] == old(slots[k])
        {
          var parts := slots[j].parts;
          var mergeSize := |Meaning(parts.first)| + |Meaning(parts.middle)| + |Meaning(parts.last)|;
          if mergeSize > 0 {
            if slots[j].value.Some? {
              return 50015;
            }
            slots[j] := Slot(Some(Meaning(parts.first) + Meaning(parts.middle) + Meaning(parts.last)), NO_PARTS);
          }
          j := j + 1;
        }
        merge := false;
      }
    }
  }
}

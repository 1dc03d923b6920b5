/**
 * The page layout of js-priority-queue's B-heap. Index 0 is unused and the root
 * is index 1. A page holds `pageSize` = 2^shift slots; inside a page a slot k
 * has children 2k and 2k+1, the slots of the bottom row (k >= pageSize/2) have
 * their children in slots 0 and 1 of a later page, and in every page but the
 * first, slots 0 and 1 each have a single child, slot 2 or 3.
 */
module BHeapLayout {
  import opened Bits

  /** `_bubbleUp`'s parent computation, as written with bitwise operators. */
  function ParentAsWritten(pageSize: nat, shift: nat, mask: nat, index: nat): nat
    requires index > 1
  {
    var indexInPage := And(index, mask);
    if index < pageSize || indexInPage > 3 then
      Or(AndNot(index, mask), Shr(indexInPage, 1))
    else if indexInPage < 2 then
      var p := Shr(index - pageSize, shift);
      var p2 := p + AndNot(p, Shr(mask, 1));
      Or(p2, Shr(pageSize, 1))
    else
      index - 2
  }

  /**
   * `_bubbleDown`'s child computation, as written. When both results are equal
   * the slot has one child. For a mask of 0, `mask - 1` is -1, whose bits are all set.
   */
  function ChildrenAsWritten(pageSize: nat, shift: nat, mask: nat, index: nat): (nat, nat) {
    var low := if mask == 0 then index else And(index, mask - 1);
    if index > mask && low == 0 then
      (index + 2, index + 2)
    else if And(index, Shr(pageSize, 1)) != 0 then
      var c := Or(Shr(AndNot(index, mask), 1), And(index, Shr(mask, 1)));
      var c1 := Shl(c + 1, shift);
      (c1, c1 + 1)
    else
      var c1 := index + And(index, mask);
      (c1, c1 + 1)
  }

  /** The parent of slot c (c >= 2), by page and offset. */
  function Parent(shift: nat, c: nat): (r: nat)
    requires shift >= 2 && c >= 2
    ensures 1 <= r < c
  {
    var H := Pow2(shift - 1);
    var page, off := Shr(c, shift), Low(c, shift);
    Halves(0, shift);
    PageZero(c, shift);
    ShlGrows(page, shift);
    if page == 0 || off > 3 then Shl(page, shift) + off / 2
    else if off < 2 then
      BottomParentBelow(shift, page);
      Shl(Shr(page - 1, shift - 1), shift) + H + Low(page - 1, shift - 1)
    else c - 2
  }

  /** The children of slot i, by page and offset; equal components mean one child. */
  function Children(shift: nat, i: nat): (nat, nat)
    requires shift >= 2
  {
    var H := Pow2(shift - 1);
    var page, off := Shr(i, shift), Low(i, shift);
    if page > 0 && off < 2 then (i + 2, i + 2)
    else if off >= H then
      var first := Shl(Shl(page, shift - 1) + (off - H) + 1, shift);
      (first, first + 1)
    else (i + off, i + off + 1)
  }

  predicate IsChild(shift: nat, i: nat, c: nat)
    requires shift >= 2
  {
    c == Children(shift, i).0 || c == Children(shift, i).1
  }

  /** Slot c is on page 0 exactly when c < pageSize. */
  lemma {:induction false} PageZero(c: nat, shift: nat)
    ensures Shr(c, shift) == 0 <==> c < Pow2(shift)
    ensures c == Shl(Shr(c, shift), shift) + Low(c, shift) && Low(c, shift) < Pow2(shift)
  {
    Split(c, shift);
    ShrZero(shift);
    if Shr(c, shift) >= 1 {
      ShlMono(1, Shr(c, shift), shift);
      ShlOne(shift);
    }
  }

  /** Shifting a page number by one slot less is halving the page size. */
  lemma {:induction false} Halves(q: nat, shift: nat)
    requires shift >= 1
    ensures Shl(q, shift) == 2 * Shl(q, shift - 1) == Shl(2 * q, shift - 1)
    ensures Pow2(shift) == 2 * Pow2(shift - 1)
  {
    ShlSucc(q, shift - 1);
  }

  /** Subtracting one page from an index on page k >= 1 lands on page k-1. */
  lemma {:induction false} PreviousPage(index: nat, shift: nat)
    requires Shr(index, shift) >= 1
    ensures index >= Pow2(shift)
    ensures Shr(index - Pow2(shift), shift) == Shr(index, shift) - 1
  {
    var page, off := Shr(index, shift), Low(index, shift);
    PageZero(index, shift);
    ShlAdd(page - 1, 1, shift);
    ShlOne(shift);
    Join(page - 1, off, shift);
  }

  /** The bit trick of `_bubbleUp` for slots 0 and 1: page p's parent slot. */
  lemma {:induction false} BottomRowSlot(p: nat, shift: nat)
    requires shift >= 1
    ensures Or(p + AndNot(p, Pow2(shift - 1) - 1), Pow2(shift - 1))
      == Shl(Shr(p, shift - 1), shift) + Pow2(shift - 1) + Low(p, shift - 1)
  {
    var s := shift - 1;
    var H := Pow2(s);
    var q, r := Shr(p, s), Low(p, s);
    var p2 := p + AndNot(p, H - 1);
    assert AndNot(p, H - 1) == Shl(q, s) by {
      AndNotLowMask(p, s);
    }
    assert p == Shl(q, s) + r && r < H by {
      Split(p, s);
    }
    assert Shl(q, shift) == 2 * Shl(q, s) == Shl(2 * q, s) by {
      Halves(q, shift);
    }
    assert Shr(p2, s) == 2 * q by {
      Join(2 * q, r, s);
    }
    assert And(p2, H) == 0 by {
      AndBit(p2, s);
    }
    OrPlusAnd(p2, H);
  }

  lemma {:induction false} ParentAsWrittenIsParent(shift: nat, index: nat)
    requires shift >= 2 && index > 1
    ensures ParentAsWritten(Pow2(shift), shift, Pow2(shift) - 1, index) == Parent(shift, index)
  {
    var mask := Pow2(shift) - 1;
    var page, off := Shr(index, shift), Low(index, shift);
    PageZero(index, shift);
    AndLowMask(index, shift);
    if page == 0 || off > 3 {
      InPageParent(shift, index);
    } else if off < 2 {
      BottomRowParent(shift, index);
    }
  }

  /** Inside a page, the parent of offset k is offset k/2 of the same page. */
  lemma {:induction false} InPageParent(shift: nat, index: nat)
    requires shift >= 2
    ensures Or(AndNot(index, Pow2(shift) - 1), Shr(Low(index, shift), 1))
      == Shl(Shr(index, shift), shift) + Low(index, shift) / 2
  {
    var page, off := Shr(index, shift), Low(index, shift);
    PageZero(index, shift);
    AndNotLowMask(index, shift);
    OrDisjoint(page, off / 2, shift);
    ShrOne(off);
  }

  /** Slots 0 and 1 of page k >= 1 hang below the bottom-row slot that owns page k. */
  lemma {:induction false} BottomRowParent(shift: nat, index: nat)
    requires shift >= 2 && Shr(index, shift) >= 1
    ensures index >= Pow2(shift)
    ensures
      var p := Shr(index - Pow2(shift), shift);
      var p2 := p + AndNot(p, Shr(Pow2(shift) - 1, 1));
      Or(p2, Shr(Pow2(shift), 1))
        == Shl(Shr(Shr(index, shift) - 1, shift - 1), shift) + Pow2(shift - 1)
          + Low(Shr(index, shift) - 1, shift - 1)
  {
    var P, H := Pow2(shift), Pow2(shift - 1);
    assert P == 2 * H by {
      Halves(0, shift);
    }
    assert index >= P && Shr(index - P, shift) == Shr(index, shift) - 1 by {
      PreviousPage(index, shift);
    }
    assert Shr(P - 1, 1) == H - 1 by {
      ShrOne(P - 1);
    }
    assert Shr(P, 1) == H by {
      ShrOne(P);
    }
    BottomRowSlot(Shr(index, shift) - 1, shift);
  }

  /** The masks `_bubbleDown` tests, read as page and offset conditions. */
  lemma {:induction false} ChildMasks(shift: nat, index: nat)
    requires shift >= 2
    ensures And(index, Pow2(shift) - 1) == Low(index, shift)
    ensures And(index, Pow2(shift) - 2) == 0 <==> Low(index, shift) < 2
    ensures index > Pow2(shift) - 1 <==> Shr(index, shift) > 0
    ensures And(index, Shr(Pow2(shift), 1)) != 0 <==> Low(index, shift) >= Pow2(shift - 1)
  {
    PageZero(index, shift);
    AndLowMask(index, shift);
    AndMaskMinusOne(index, shift);
    HalfPageBit(shift, index);
  }

  /** The bit for half a page is set exactly in the bottom row of a page. */
  lemma {:induction false} HalfPageBit(shift: nat, index: nat)
    requires shift >= 1
    ensures And(index, Shr(Pow2(shift), 1)) != 0 <==> Low(index, shift) >= Pow2(shift - 1)
  {
    var s := shift - 1;
    var P, H := Pow2(shift), Pow2(s);
    var page, off := Shr(index, shift), Low(index, shift);
    assert index == Shl(page, shift) + off && off < P by {
      PageZero(index, shift);
    }
    assert Shl(page, shift) == Shl(2 * page, s) && P == 2 * H by {
      Halves(page, shift);
    }
    assert Shr(P, 1) == H by {
      ShrOne(P);
    }
    if off >= H {
      assert Shl(2 * page + 1, s) == Shl(2 * page, s) + H by {
        ShlAdd(2 * page, 1, s);
        ShlOne(s);
      }
      BitOfJoin(page, 1, off - H, s);
    } else {
      BitOfJoin(page, 0, off, s);
    }
  }

  /** `_bubbleDown`'s bit trick for the bottom row: the page of the children. */
  lemma {:induction false} BottomRowChild(shift: nat, index: nat)
    requires shift >= 2 && Low(index, shift) >= Pow2(shift - 1)
    ensures Or(Shr(AndNot(index, Pow2(shift) - 1), 1), And(index, Shr(Pow2(shift) - 1, 1)))
      == Shl(Shr(index, shift), shift - 1) + (Low(index, shift) - Pow2(shift - 1))
  {
    var s := shift - 1;
    var P, H, mask := Pow2(shift), Pow2(s), Pow2(shift) - 1;
    var page, off := Shr(index, shift), Low(index, shift);
    assert AndNot(index, mask) == Shl(page, shift) by {
      AndNotLowMask(index, shift);
    }
    assert Shl(page, shift) == 2 * Shl(page, s) && P == 2 * H by {
      Halves(page, shift);
    }
    assert Shr(AndNot(index, mask), 1) == Shl(page, s) by {
      ShrOne(Shl(page, shift));
    }
    assert Shr(mask, 1) == H - 1 by {
      ShrOne(mask);
    }
    assert And(index, H - 1) == Low(index, s) by {
      AndLowMask(index, s);
    }
    assert off < P by {
      PageZero(index, shift);
    }
    assert Low(index, s) == off - H by {
      LowerHalf(shift, index);
    }
    OrDisjoint(page, off - H, s);
  }

  /** In the bottom row of a page, the low shift-1 bits are the offset past half a page. */
  lemma {:induction false} LowerHalf(shift: nat, index: nat)
    requires shift >= 1 && Low(index, shift) >= Pow2(shift - 1)
    ensures Low(index, shift - 1) == Low(index, shift) - Pow2(shift - 1)
  {
    var H := Pow2(shift - 1);
    var page, off := Shr(index, shift), Low(index, shift);
    PageZero(index, shift);
    Halves(page, shift);
    ShlAdd(2 * page, 1, shift - 1);
    ShlOne(shift - 1);
    assert index == Shl(2 * page + 1, shift - 1) + (off - H);
    Join(2 * page + 1, off - H, shift - 1);
  }

  lemma {:induction false} ChildrenAsWrittenAreChildren(shift: nat, index: nat)
    requires shift >= 2
    ensures ChildrenAsWritten(Pow2(shift), shift, Pow2(shift) - 1, index) == Children(shift, index)
  {
    Halves(0, shift);
    ChildMasks(shift, index);
    if Low(index, shift) >= Pow2(shift - 1) {
      BottomRowChild(shift, index);
    }
  }

  /** Below the first page, the parent of slot 0 or 1 of page `page` is on an earlier page. */
  lemma {:induction false} BottomParentBelow(shift: nat, page: nat)
    requires shift >= 2 && page >= 1
    ensures Shl(Shr(page - 1, shift - 1), shift) + Pow2(shift - 1) + Low(page - 1, shift - 1) < Shl(page, shift)
  {
    var q, r := Shr(page - 1, shift - 1), Low(page - 1, shift - 1);
    Halves(0, shift);
    Split(page - 1, shift - 1);
    ShlGrows(q, shift - 1);
    ShlMono(q, Shl(q, shift - 1), shift);
    ShlGrows(r, shift);
    ShlAdd(Shl(q, shift - 1), r, shift);
    ShlAdd(page - 1, 1, shift);
    ShlOne(shift);
  }

  lemma {:induction false} ChildrenAbove(shift: nat, i: nat)
    requires shift >= 2 && i >= 1
    ensures i < Children(shift, i).0 <= Children(shift, i).1
  {
    var P, H := Pow2(shift), Pow2(shift - 1);
    Halves(0, shift);
    var page, off := Shr(i, shift), Low(i, shift);
    PageZero(i, shift);
    if page > 0 && off < 2 {
    } else if off >= H {
      var cp := Shl(page, shift - 1) + (off - H) + 1;
      ShlGrows(page, shift - 1);
      ShlMono(page + 1, cp, shift);
      ShlAdd(page, 1, shift);
      ShlOne(shift);
    }
  }

  /** Each computed child of slot i has i as its computed parent. */
  lemma {:induction false} ParentOfChild(shift: nat, i: nat, c: nat)
    requires shift >= 2 && i >= 1 && IsChild(shift, i, c)
    ensures c >= 2 && Parent(shift, c) == i
  {
    var H := Pow2(shift - 1);
    var page, off := Shr(i, shift), Low(i, shift);
    PageZero(i, shift);
    if page > 0 && off < 2 {
      SingleChildParent(shift, page, off);
    } else if off >= H {
      var cp := Shl(page, shift - 1) + (off - H) + 1;
      NextPageChildParent(shift, page, off - H, c - Shl(cp, shift));
    } else {
      InPageChildParent(shift, page, off, c - i - off);
    }
  }

  lemma {:induction false} SingleChildParent(shift: nat, page: nat, off: nat)
    requires shift >= 2 && page >= 1 && off < 2
    ensures Shl(page, shift) + off + 2 >= 2
    ensures Parent(shift, Shl(page, shift) + off + 2) == Shl(page, shift) + off
  {
    Halves(0, shift);
    Halves(0, shift - 1);
    Join(page, off + 2, shift);
  }

  lemma {:induction false} NextPageChildParent(shift: nat, page: nat, r: nat, b: nat)
    requires shift >= 2 && r < Pow2(shift - 1) && b <= 1
    ensures
      var c := Shl(Shl(page, shift - 1) + r + 1, shift) + b;
      c >= 2 && Parent(shift, c) == Shl(page, shift) + Pow2(shift - 1) + r
  {
    var cp := Shl(page, shift - 1) + r + 1;
    Halves(0, shift);
    Halves(page, shift);
    Join(cp, b, shift);
    ShlMono(1, cp, shift);
    ShlOne(shift);
    Join(page, r, shift - 1);
  }

  lemma {:induction false} InPageChildParent(shift: nat, page: nat, off: nat, b: nat)
    requires shift >= 2 && off < Pow2(shift - 1) && b <= 1
    requires page == 0 || off >= 2
    requires Shl(page, shift) + off >= 1
    ensures
      var c := Shl(page, shift) + 2 * off + b;
      c >= 2 && Parent(shift, c) == Shl(page, shift) + off
  {
    Halves(0, shift);
    Join(page, 2 * off + b, shift);
    ShrZero(shift);
  }

  /** Every slot c >= 2 is a computed child of its computed parent. */
  lemma {:induction false} ChildOfParent(shift: nat, c: nat)
    requires shift >= 2 && c >= 2
    ensures IsChild(shift, Parent(shift, c), c)
  {
    var page, off := Shr(c, shift), Low(c, shift);
    PageZero(c, shift);
    if page == 0 || off > 3 {
      ChildOfInPageParent(shift, c);
    } else if off < 2 {
      ChildOfBottomRowParent(shift, c);
    } else {
      Join(page, off - 2, shift);
    }
  }

  /** The in-page case of `ChildOfParent`: offset k is a child of offset k/2. */
  lemma {:induction false} ChildOfInPageParent(shift: nat, c: nat)
    requires shift >= 2 && c >= 2
    requires Shr(c, shift) == 0 || Low(c, shift) > 3
    ensures IsChild(shift, Parent(shift, c), c)
  {
    var page, off := Shr(c, shift), Low(c, shift);
    assert c == Shl(page, shift) + off && off < Pow2(shift) by {
      PageZero(c, shift);
    }
    assert Pow2(shift) == 2 * Pow2(shift - 1) by {
      Halves(0, shift);
    }
    var i := Shl(page, shift) + off / 2;
    assert Parent(shift, c) == i;
    assert Shr(i, shift) == page && Low(i, shift) == off / 2 by {
      Join(page, off / 2, shift);
    }
  }

  /** The bottom-row case of `ChildOfParent`: slots 0 and 1 of a page are children of the slot owning it. */
  lemma {:induction false} ChildOfBottomRowParent(shift: nat, c: nat)
    requires shift >= 2 && c >= 2
    requires Shr(c, shift) != 0 && Low(c, shift) < 2
    ensures IsChild(shift, Parent(shift, c), c)
  {
    var H := Pow2(shift - 1);
    var page, off := Shr(c, shift), Low(c, shift);
    assert c == Shl(page, shift) + off && Pow2(shift) == 2 * H by {
      PageZero(c, shift);
      Halves(0, shift);
    }
    var q, r := Shr(page - 1, shift - 1), Low(page - 1, shift - 1);
    var i := Shl(q, shift) + H + r;
    assert Parent(shift, c) == i;
    assert page - 1 == Shl(q, shift - 1) + r && r < H by {
      Split(page - 1, shift - 1);
    }
    assert Shr(i, shift) == q && Low(i, shift) == H + r by {
      Join(q, H + r, shift);
    }
    assert Shl(0, shift) == 0 by {
      ShrZero(shift);
    }
  }

  /** The two step functions agree: c is a computed child of i exactly when i is c's parent. */
  lemma {:induction false} ParentChildAgree(shift: nat, i: nat, c: nat)
    requires shift >= 2 && i >= 1 && c >= 2
    ensures Parent(shift, c) == i <==> IsChild(shift, i, c)
  {
    ChildOfParent(shift, c);
    if IsChild(shift, i, c) {
      ParentOfChild(shift, i, c);
    }
  }

  /** With one slot per page, the parent of slot 2 is slot 2 itself. */
  lemma {:induction false} PageSizeOneParentOfTwo()
    ensures ParentAsWritten(1, 0, 0, 2) == 2
  {
  }

  /**
   * With two slots per page the step functions disagree: slot 4's parent is
   * slot 3, but slot 3's only computed child is slot 5.
   */
  lemma {:induction false} PageSizeTwoMismatch()
    ensures ParentAsWritten(2, 1, 1, 4) == 3
    ensures ChildrenAsWritten(2, 1, 1, 3) == (5, 5)
  {
  }
}

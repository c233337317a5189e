/** The sliding replay windows: 64 ids wide for tls-auth control packets, 128 for data packets.
    The bitmap code is proved against the plain list of ids that arrived since the last reset. */
module ReplayProtection {
  import opened Bits

  const TLS_AUTH_WINDOW: nat := 64
  const DATA_WINDOW: nat := 128

  /** After the ids `arrivals`, an id is let through exactly when it is nonzero, it never
      arrived before, and no id that arrived is `width` or more ahead of it. */
  predicate Admits(width: nat, arrivals: seq<nat>, id: nat) {
    && id > 0
    && id !in arrivals
    && forall k | k in arrivals :: k < id + width
  }

  /** The ids that were let through, each judged against the arrivals before it. */
  function Accepted(width: nat, arrivals: seq<nat>): set<nat> {
    if arrivals == [] then {}
    else
      var before, id := arrivals[..|arrivals| - 1], arrivals[|arrivals| - 1];
      Accepted(width, before) + if Admits(width, before, id) then {id} else {}
  }

  /** How often `id` was let through. */
  function TimesAccepted(width: nat, arrivals: seq<nat>, id: nat): nat {
    if arrivals == [] then 0
    else
      var before, last := arrivals[..|arrivals| - 1], arrivals[|arrivals| - 1];
      TimesAccepted(width, before, id) + if last == id && Admits(width, before, id) then 1 else 0
  }

  lemma {:induction false} AcceptedArrived(width: nat, arrivals: seq<nat>)
    ensures forall id | id in Accepted(width, arrivals) :: id > 0 && id in arrivals
  {
    if arrivals != [] {
      AcceptedArrived(width, arrivals[..|arrivals| - 1]);
    }
  }

  /** No id is let through twice, whatever arrives in whatever order. */
  lemma {:induction false} AcceptedAtMostOnce(width: nat, arrivals: seq<nat>, id: nat)
    ensures TimesAccepted(width, arrivals, id) == if id in Accepted(width, arrivals) then 1 else 0
  {
    if arrivals != [] {
      AcceptedAtMostOnce(width, arrivals[..|arrivals| - 1], id);
      AcceptedArrived(width, arrivals[..|arrivals| - 1]);
    }
  }

  /** An id still inside the window was let through exactly when it arrived. */
  lemma {:induction false} AcceptedInsideWindow(width: nat, arrivals: seq<nat>, id: nat)
    requires id > 0
    requires forall k | k in arrivals :: k < id + width
    ensures id in Accepted(width, arrivals) <==> id in arrivals
  {
    if arrivals != [] {
      var before := arrivals[..|arrivals| - 1];
      assert forall k | k in before :: k in arrivals;
      assert arrivals == before + [arrivals[|arrivals| - 1]];
      AcceptedInsideWindow(width, before, id);
    }
  }

  class ReplayWindow {
    const width: nat
    var highest: nat
    var bitmap: nat
    /** Every id checked since the window was created or reset. */
    ghost var arrivals: seq<nat>

    ghost predicate Valid()
      reads this
    {
      && width > 0
      && bitmap < Pow2(width)
      && (forall k | k in arrivals :: k <= highest)
      && (highest > 0 ==> highest in arrivals)
      && forall i: nat | i < width :: Bit(bitmap, i) <==> i < highest && highest - i in arrivals
    }

    constructor (width: nat)
      requires width > 0
      ensures Valid() && this.width == width && arrivals == []
    {
      this.width := width;
      highest, bitmap, arrivals := 0, 0, [];
      new;
      forall i: nat | i < width ensures !Bit(bitmap, i) {
        BitOfZero(i);
      }
    }

    method CheckAndUpdate(id: nat) returns (ok: bool)
      requires Valid()
      modifies this
      ensures Valid()
      ensures arrivals == old(arrivals) + [id]
      ensures ok <==> Admits(width, old(arrivals), id)
    {
      ghost var before := bitmap;
      arrivals := arrivals + [id];
      if id == 0 {
        return false;
      }
      if id > highest {
        var shift := id - highest;
        if shift >= width {
          bitmap := 1;
          MarkOnly(width);
        } else {
          bitmap := Or(Shl(bitmap, shift, width), 1);
          ShiftAndMark(before, shift, width);
        }
        highest := id;
        return true;
      }
      var diff := highest - id;
      if diff >= width {
        return false;
      }
      var mask := Shl(1, diff, width);
      MaskTest(bitmap, diff, width);
      if And(bitmap, mask) != 0 {
        return false;
      }
      bitmap := Or(bitmap, mask);
      MarkBit(before, diff, width);
      return true;
    }

    method Reset()
      requires Valid()
      modifies this
      ensures Valid() && arrivals == []
    {
      highest, bitmap, arrivals := 0, 0, [];
      forall i: nat | i < width ensures !Bit(bitmap, i) {
        BitOfZero(i);
      }
    }

    /** Bit `i` is one exactly when the id `highest - i` was let through since the last reset. */
    lemma BitmapIsAcceptedSet(i: nat)
      requires Valid() && i < width
      ensures Bit(bitmap, i) <==> i < highest && highest - i in Accepted(width, arrivals)
    {
      if i < highest {
        AcceptedInsideWindow(width, arrivals, highest - i);
      }
    }
  }

  // ---------------------------------------------------------------- the three bitmap updates

  lemma MarkOnly(w: nat)
    requires w > 0
    ensures 1 < Pow2(w)
    ensures forall i: nat | i < w :: Bit(1, i) <==> i == 0
  {
    Pow2Less(0, w);
    forall i: nat | i < w ensures Bit(1, i) <==> i == 0 {
      BitPow2(0, i);
    }
  }

  lemma ShiftAndMark(x: nat, s: nat, w: nat)
    requires 0 < s < w && x < Pow2(w)
    ensures Or(Shl(x, s, w), 1) < Pow2(w)
    ensures forall i: nat | i < w :: Bit(Or(Shl(x, s, w), 1), i) <==> i == 0 || (s <= i && Bit(x, i - s))
  {
    MarkOnly(w);
    ShlBound(x, s, w);
    OrBound(Shl(x, s, w), 1, w);
    forall i: nat | i < w
      ensures Bit(Or(Shl(x, s, w), 1), i) <==> i == 0 || (s <= i && Bit(x, i - s))
    {
      BitOr(Shl(x, s, w), 1, i);
      BitShl(x, s, w, i);
    }
  }

  lemma MarkBit(x: nat, d: nat, w: nat)
    requires d < w && x < Pow2(w)
    ensures Or(x, Shl(1, d, w)) < Pow2(w)
    ensures forall i: nat | i < w :: Bit(Or(x, Shl(1, d, w)), i) <==> i == d || Bit(x, i)
  {
    ShlOne(d, w);
    Pow2Less(d, w);
    OrBound(x, Pow2(d), w);
    forall i: nat | i < w ensures Bit(Or(x, Shl(1, d, w)), i) <==> i == d || Bit(x, i) {
      BitOr(x, Pow2(d), i);
      BitPow2(d, i);
    }
  }
}

/** Which frames of a RAM section each of the three passes maps. */
module Blocks {
  import opened MapDef
  import opened PageTables
  import opened PfnIndex
  import opened HostState
  import opened Mapping

  /** Pages in a block of the given level: 4K, 2M, 1G. */
  function Unit(level: nat): nat {
    if level <= LVL_PT then PS_4K else if level == LVL_PD then PS_2M else PS_1G
  }

  /** x & -unit */
  function Floor(level: nat, x: nat): nat {
    if level <= LVL_PT then x else if level == LVL_PD then x / 0x200 * 0x200 else x / 0x4_0000 * 0x4_0000
  }

  /** x & (unit - 1) */
  function Offset(level: nat, x: nat): nat {
    if level <= LVL_PT then 0 else if level == LVL_PD then x % 0x200 else x % 0x4_0000
  }

  function Ceil(level: nat, x: nat): nat { Floor(level, x + Unit(level) - 1) }

  /** The aligned block of the given level around frame f lies in the section [b, l). */
  predicate Whole(level: nat, f: nat, b: nat, l: nat) {
    b <= Floor(level, f) && Floor(level, f) + Unit(level) <= l
  }

  /** The pass of a level maps what fills whole blocks of that level but not of the next. */
  predicate InPass(level: nat, f: nat, b: nat, l: nat) {
    Whole(level, f, b, l) && (level < LVL_PDP ==> !Whole(level + 1, f, b, l))
  }

  /** The frames of [x, y) that the pass of a level maps, in ascending order. */
  function Pass(level: nat, b: nat, l: nat, x: nat, y: nat): seq<nat>
    decreases y
  {
    if y <= x then []
    else Pass(level, b, l, x, y - 1) + if InPass(level, y - 1, b, l) then [y - 1] else []
  }

  // ---- a number as so many blocks and an offset ----

  lemma Div200(q: nat, r: nat)
    requires r < 0x200
    ensures (q * 0x200 + r) / 0x200 == q && (q * 0x200 + r) % 0x200 == r
  {}

  lemma Div40000(q: nat, r: nat)
    requires r < 0x4_0000
    ensures (q * 0x4_0000 + r) / 0x4_0000 == q && (q * 0x4_0000 + r) % 0x4_0000 == r
  {}

  /** Number of the block that x lies in. */
  function BlockNo(level: nat, x: nat): nat {
    if level <= LVL_PT then x else if level == LVL_PD then x / 0x200 else x / 0x4_0000
  }

  lemma BlockOf(level: nat, x: nat, q: nat, r: nat)
    requires x == q * Unit(level) + r && r < Unit(level)
    ensures Floor(level, x) == q * Unit(level) && Offset(level, x) == r && BlockNo(level, x) == q
  {
    Div200(q, r % 0x200);
    Div40000(q, r % 0x4_0000);
  }

  lemma Parts(level: nat, x: nat)
    ensures x == BlockNo(level, x) * Unit(level) + Offset(level, x) && Offset(level, x) < Unit(level)
    ensures Floor(level, x) == BlockNo(level, x) * Unit(level) == x - Offset(level, x)
  {}

  lemma FloorIs(level: nat, x: nat)
    ensures Floor(level, x) <= x < Floor(level, x) + Unit(level)
    ensures Floor(level, x) == x - Offset(level, x) && Offset(level, x) < Unit(level)
    ensures Floor(level, Floor(level, x)) == Floor(level, x)
  {
    hide Floor, Offset, Unit, BlockNo;
    Parts(level, x);
    BlockOf(level, Floor(level, x), BlockNo(level, x), 0);
  }

  lemma NextBlockUp(p: nat, q: nat, unit: nat)
    requires p < q
    ensures p * unit + unit <= q * unit
  {
    assert q * unit == p * unit + unit + (q - p - 1) * unit;
  }

  lemma FloorMono(level: nat, x: nat, y: nat)
    requires x <= y
    ensures Floor(level, x) <= Floor(level, y)
    ensures Floor(level, x) < Floor(level, y) ==> Floor(level, x) + Unit(level) <= Floor(level, y)
  {
    hide Floor, Offset, Unit, BlockNo;
    Parts(level, x);
    Parts(level, y);
    var p, q := BlockNo(level, x), BlockNo(level, y);
    if p < q {
      NextBlockUp(p, q, Unit(level));
    } else if q < p {
      NextBlockUp(q, p, Unit(level));
    }
  }

  /** A multiple of the unit below x is below the block of x. */
  lemma FloorGreatest(level: nat, m: nat, x: nat)
    requires Floor(level, m) == m && m <= x
    ensures m <= Floor(level, x)
  {
    hide Floor, Unit;
    FloorMono(level, m, x);
  }

  lemma Ceil200(x: nat)
    ensures var r, c := x % 0x200, (x + 0x1ff) / 0x200 * 0x200;
            c == (if r == 0 then x else x + (0x200 - r)) && c / 0x200 * 0x200 == c
  {
    var q, r := x / 0x200, x % 0x200;
    if r == 0 { Div200(q, 0x1ff); } else { Div200(q + 1, r - 1); }
  }

  lemma Ceil40000(x: nat)
    ensures var r, c := x % 0x4_0000, (x + 0x3_ffff) / 0x4_0000 * 0x4_0000;
            c == (if r == 0 then x else x + (0x4_0000 - r)) && c / 0x4_0000 * 0x4_0000 == c
  {
    var q, r := x / 0x4_0000, x % 0x4_0000;
    if r == 0 { Div40000(q, 0x3_ffff); } else { Div40000(q + 1, r - 1); }
  }

  lemma CeilIs(level: nat, x: nat)
    ensures x <= Ceil(level, x) < x + Unit(level) && Floor(level, Ceil(level, x)) == Ceil(level, x)
    ensures Ceil(level, x) == if Offset(level, x) == 0 then x else x + (Unit(level) - Offset(level, x))
  {
    Ceil200(x);
    Ceil40000(x);
  }

  /** The end of a block is a boundary. */
  lemma BlockEnd(level: nat, f: nat)
    ensures Floor(level, Floor(level, f) + Unit(level)) == Floor(level, f) + Unit(level)
  {
    hide Floor, Offset, Unit, BlockNo;
    var q := BlockNo(level, f);
    Parts(level, f);
    UnitPositive(level);
    assert q * Unit(level) + Unit(level) == (q + 1) * Unit(level);
    BlockOf(level, Floor(level, f) + Unit(level), q + 1, 0);
  }

  lemma UnitPositive(level: nat)
    ensures Unit(level) > 0
  {}

  /** A boundary of the next level is one of this level. */
  lemma Coarser(level: nat, m: nat)
    requires Floor(level + 1, m) == m
    ensures Floor(level, m) == m
  {
    if level == 2 {
      assert m == (m / 0x4_0000 * 0x200) * 0x200;
      Div200(m / 0x4_0000 * 0x200, 0);
    }
  }

  /** Blocks of the next level are made of blocks of this one. */
  lemma FloorNest(level: nat, x: nat)
    ensures Floor(level, Floor(level + 1, x)) == Floor(level + 1, x)
    ensures Floor(level, Floor(level + 1, x) + Unit(level + 1)) == Floor(level + 1, x) + Unit(level + 1)
    ensures Floor(level + 1, x) <= Floor(level, x)
  {
    hide Floor, Offset, Unit;
    FloorIs(level + 1, x);
    BlockEnd(level + 1, x);
    Coarser(level, Floor(level + 1, x));
    Coarser(level, Floor(level + 1, x) + Unit(level + 1));
    FloorGreatest(level, Floor(level + 1, x), x);
  }

  lemma {:induction false} PassSplit(level: nat, b: nat, l: nat, x: nat, y: nat, z: nat)
    requires x <= y <= z
    ensures Pass(level, b, l, x, z) == Pass(level, b, l, x, y) + Pass(level, b, l, y, z)
    decreases z
  {
    if y < z {
      PassSplit(level, b, l, x, y, z - 1);
    }
  }

  lemma {:induction false} PassNone(level: nat, b: nat, l: nat, x: nat, y: nat)
    requires forall f | x <= f < y :: !InPass(level, f, b, l)
    ensures Pass(level, b, l, x, y) == []
    decreases y
  {
    if x < y {
      PassNone(level, b, l, x, y - 1);
    }
  }

  lemma {:induction false} PassAll(level: nat, b: nat, l: nat, x: nat, y: nat)
    requires x <= y && forall f | x <= f < y :: InPass(level, f, b, l)
    ensures Pass(level, b, l, x, y) == Frames(x, y - x)
    decreases y
  {
    if x < y {
      PassAll(level, b, l, x, y - 1);
    }
  }

  // ---- what one round of the loop picks out ----

  /** No block of the level begins before the first aligned frame at or after x. */
  lemma NotWholeBefore(level: nat, f: nat, b: nat, l: nat, x: nat)
    requires x <= f < Ceil(level, x) && (x == b || Floor(level, x) == x)
    ensures !Whole(level, f, b, l)
  {
    CeilIs(level, x);
    FloorIs(level, f);
    FloorMono(level, x, f);
    FloorIs(level, x);
  }

  lemma WholeWithin(level: nat, f: nat, b: nat, l: nat, lo: nat, hi: nat)
    requires b <= lo <= f < hi <= l && Floor(level, lo) == lo && Floor(level, hi) == hi
    ensures Whole(level, f, b, l)
  {
    FloorMono(level, lo, f);
    FloorMono(level, f, hi);
  }

  lemma WholeEnds(level: nat, f: nat, b: nat, l: nat)
    requires Whole(level, f, b, l)
    ensures Floor(level, f) + Unit(level) <= Floor(level, l)
  {
    BlockEnd(level, f);
    FloorGreatest(level, Floor(level, f) + Unit(level), l);
  }

  /** Nothing is whole where the aligned interior is empty. */
  lemma NotWholeEmpty(level: nat, f: nat, b: nat, l: nat, x: nat)
    requires b <= x <= f < l && (x == b || Floor(level, x) == x) && Ceil(level, x) >= Floor(level, l)
    ensures !Whole(level, f, b, l)
  {
    if Whole(level, f, b, l) { WholeEnds(level, f, b, l); }
    CeilIs(level, x);
    FloorIs(level, f);
    if f < Ceil(level, x) {
      NotWholeBefore(level, f, b, l, x);
    } else {
      FloorGreatest(level, Ceil(level, x), f);
    }
  }

  /** Where a round may start: at the section's base, on a boundary of the next level, or where
      nothing of the pass is left. */
  ghost predicate RoundStart(level: nat, b: nat, l: nat, x: nat) {
    b <= x <= l && (x == l || x == b || x == Floor(level, l) || (level < LVL_PDP && Floor(level + 1, x) == x))
  }

  lemma RoundStartAligned(level: nat, b: nat, l: nat, x: nat)
    requires RoundStart(level, b, l, x) && 1 <= level <= 3 && x < l
    ensures x == b || Floor(level, x) == x
  {
    FloorIs(level, l);
    FloorNest(level, x);
  }

  /** The round finds no aligned interior: the pass maps nothing more. */
  lemma RoundNone(level: nat, b: nat, l: nat, x: nat)
    requires 1 <= level <= 3 && x < l && RoundStart(level, b, l, x) && Ceil(level, x) >= Floor(level, l)
    ensures Pass(level, b, l, x, l) == []
  {
    RoundStartAligned(level, b, l, x);
    forall f | x <= f < l ensures !InPass(level, f, b, l) {
      NotWholeEmpty(level, f, b, l, x);
    }
    PassNone(level, b, l, x, l);
  }

  /** Skip to the aligned interior [lo, hi), skip [lo, y), then map [y, z). */
  lemma RoundIs(level: nat, b: nat, l: nat, x: nat, y: nat, z: nat)
    requires 1 <= level <= 3 && b <= x && (x == b || Floor(level, x) == x) && x <= Ceil(level, x) <= y <= z <= l
    requires forall f | Ceil(level, x) <= f < y :: !InPass(level, f, b, l)
    requires forall f | y <= f < z :: InPass(level, f, b, l)
    ensures Pass(level, b, l, x, z) == Frames(y, z - y)
  {
    var lo := Ceil(level, x);
    forall f | x <= f < y ensures !InPass(level, f, b, l) {
      if f < lo { NotWholeBefore(level, f, b, l, x); }
    }
    PassNone(level, b, l, x, y);
    PassAll(level, b, l, y, z);
    PassSplit(level, b, l, x, y, z);
  }

  /** Level 3: the whole interior. */
  lemma RoundInterior(b: nat, l: nat, x: nat)
    requires RoundStart(LVL_PDP, b, l, x) && Ceil(LVL_PDP, x) < Floor(LVL_PDP, l)
    ensures Pass(LVL_PDP, b, l, x, Floor(LVL_PDP, l)) == Frames(Ceil(LVL_PDP, x), Floor(LVL_PDP, l) - Ceil(LVL_PDP, x))
  {
    var lo, hi := Ceil(LVL_PDP, x), Floor(LVL_PDP, l);
    CeilIs(LVL_PDP, x);
    FloorIs(LVL_PDP, l);
    RoundStartAligned(LVL_PDP, b, l, x);
    forall f | lo <= f < hi ensures InPass(LVL_PDP, f, b, l) {
      WholeWithin(LVL_PDP, f, b, l, lo, hi);
    }
    RoundIs(LVL_PDP, b, l, x, lo, hi);
  }

  /** A block of the next level that holds f ends after hi, the last boundary in the section. */
  lemma NotWholeAfter(level: nat, f: nat, b: nat, l: nat, y: nat)
    requires 1 <= level < 3 && Floor(level + 1, f) >= y && y + Unit(level + 1) > Floor(level, l)
    ensures !Whole(level + 1, f, b, l)
  {
    FloorNest(level, f);
    if Whole(level + 1, f, b, l) {
      FloorGreatest(level, Floor(level + 1, f) + Unit(level + 1), l);
    }
  }

  /** The interior begins on a boundary of the next level: its whole next-level blocks are skipped. */
  lemma RoundLast(level: nat, b: nat, l: nat, x: nat, y: nat)
    requires 1 <= level < 3 && RoundStart(level, b, l, x) && Ceil(level, x) < Floor(level, l)
    requires Floor(level + 1, Ceil(level, x)) == Ceil(level, x)
    requires y == if Floor(level, l) - Ceil(level, x) >= Unit(level + 1)
                  then Floor(level + 1, Floor(level, l)) else Ceil(level, x)
    ensures Ceil(level, x) <= y <= Floor(level, l)
    ensures Pass(level, b, l, x, Floor(level, l)) == Frames(y, Floor(level, l) - y)
  {
    var lo, hi := Ceil(level, x), Floor(level, l);
    CeilIs(level, x);
    FloorIs(level, l);
    FloorIs(level + 1, hi);
    FloorNest(level, hi);
    RoundStartAligned(level, b, l, x);
    FloorGreatest(level + 1, lo, hi);
    assert Floor(level, y) == y && Floor(level + 1, y) == y;
    forall f | lo <= f < y ensures !InPass(level, f, b, l) {
      WholeWithin(level + 1, f, b, l, lo, y);
    }
    forall f | y <= f < hi ensures InPass(level, f, b, l) {
      WholeWithin(level, f, b, l, lo, hi);
      FloorGreatest(level + 1, y, f);
      NotWholeAfter(level, f, b, l, y);
    }
    RoundIs(level, b, l, x, y, hi);
  }

  /** The interior begins inside a block of the next level: it is mapped up to the end of that block
      when a whole next-level block follows, and to its own end otherwise. */
  lemma RoundFirst(level: nat, b: nat, l: nat, x: nat, z: nat)
    requires 1 <= level < 3 && RoundStart(level, b, l, x) && Ceil(level, x) < Floor(level, l)
    requires Offset(level + 1, Ceil(level, x)) > 0
    requires var lo, hi := Ceil(level, x), Floor(level, l);
             var pfx := Unit(level + 1) - Offset(level + 1, lo);
             z == if hi - lo >= pfx + Unit(level + 1) then lo + pfx else hi
    ensures Ceil(level, x) < z <= Floor(level, l) && RoundStart(level, b, l, z)
    ensures Pass(level, b, l, x, z) == Frames(Ceil(level, x), z - Ceil(level, x))
  {
    hide Floor, Offset, Unit;
    var lo, hi := Ceil(level, x), Floor(level, l);
    CeilIs(level, x);
    FloorIs(level, l);
    FloorIs(level + 1, lo);
    BlockEnd(level + 1, lo);
    FloorNest(level, lo);
    RoundStartAligned(level, b, l, x);
    StartsAtBase(level, b, l, x);
    forall f | lo <= f < z ensures InPass(level, f, b, l) {
      WholeWithin(level, f, b, l, lo, hi);
      FloorMono(level + 1, lo, f);
      FloorIs(level + 1, f);
      if Floor(level + 1, f) > Floor(level + 1, lo) {
        NotWholeAfter(level, f, b, l, Floor(level + 1, lo) + Unit(level + 1));
      }
    }
    RoundIs(level, b, l, x, lo, z);
  }

  /** Such a round is the first one, and its next-level block begins before the section. */
  lemma StartsAtBase(level: nat, b: nat, l: nat, x: nat)
    requires 1 <= level < 3 && RoundStart(level, b, l, x) && Ceil(level, x) < Floor(level, l)
    requires Offset(level + 1, Ceil(level, x)) > 0
    ensures x == b && Floor(level + 1, Ceil(level, x)) < b
  {
    var lo := Ceil(level, x);
    CeilIs(level, x);
    FloorIs(level, l);
    FloorIs(level + 1, lo);
    FloorIs(level + 1, x);
    FloorNest(level, lo);
    FloorNest(level, x);
    RoundStartAligned(level, b, l, x);
    if x == b && Floor(level + 1, lo) >= b {
      FloorGreatest(level, Floor(level + 1, lo), b + Unit(level) - 1);
      BelowCeil(level, b, Floor(level + 1, lo));
    }
  }

  lemma BelowCeil(level: nat, b: nat, m: nat)
    requires Floor(level, m) == m && b <= m
    ensures Ceil(level, b) <= m
  {
    hide Floor, Offset, Unit, Ceil;
    FloorIs(level, b);
    CeilIs(level, b);
    FloorMono(level, b, m);
  }

  // ---- the passes partition the section ----

  lemma {:induction false} PassHolds(level: nat, b: nat, l: nat, x: nat, y: nat, f: nat)
    ensures f in Pass(level, b, l, x, y) <==> x <= f < y && InPass(level, f, b, l)
    decreases y
  {
    if x < y {
      PassHolds(level, b, l, x, y - 1, f);
    }
  }

  lemma {:induction false} PassDistinct(level: nat, b: nat, l: nat, x: nat, y: nat)
    ensures Distinct(Pass(level, b, l, x, y))
    decreases y
  {
    if x < y {
      PassDistinct(level, b, l, x, y - 1);
      var front := Pass(level, b, l, x, y - 1);
      forall i | 0 <= i < |front| ensures front[i] < y - 1 {
        PassHolds(level, b, l, x, y - 1, front[i]);
      }
    }
  }

  /** Where a block of the next level fits, the block of this level inside it does. */
  lemma WholeNest(level: nat, f: nat, b: nat, l: nat)
    requires Whole(level + 1, f, b, l)
    ensures Whole(level, f, b, l)
  {
    hide Floor, Offset, Unit;
    var end := Floor(level + 1, f) + Unit(level + 1);
    FloorNest(level, f);
    FloorIs(level, f);
    FloorIs(level + 1, f);
    FloorMono(level, f, end);
  }

  /** Every frame of a section is mapped by exactly one pass, and no pass leaves the section. */
  lemma OnePassEach(f: nat, b: nat, l: nat)
    ensures b <= f < l <==> InPass(1, f, b, l) || InPass(2, f, b, l) || InPass(3, f, b, l)
    ensures !(InPass(1, f, b, l) && InPass(2, f, b, l))
    ensures !(InPass(1, f, b, l) && InPass(3, f, b, l))
    ensures !(InPass(2, f, b, l) && InPass(3, f, b, l))
  {
    hide Whole;
    PageFits(f, b, l);
    if Whole(2, f, b, l) { WholeNest(1, f, b, l); }
    if Whole(3, f, b, l) { WholeNest(2, f, b, l); }
  }

  lemma PageFits(f: nat, b: nat, l: nat)
    ensures Whole(1, f, b, l) <==> b <= f < l
  {}

  /** Together the passes map as many frames as the section has. */
  lemma {:induction false} PassLengths(b: nat, l: nat, y: nat)
    requires b <= y <= l
    ensures |Pass(1, b, l, b, y)| + |Pass(2, b, l, b, y)| + |Pass(3, b, l, b, y)| == y - b
    decreases y
  {
    hide InPass;
    if b < y {
      PassLengths(b, l, y - 1);
      OnePassEach(y - 1, b, l);
    }
  }

  /** The pass of a level goes by whole aligned blocks: as many frames lie before f as make its
      place in the pass congruent to f modulo the unit. */
  lemma {:induction false} PassAligned(level: nat, b: nat, l: nat, y: nat)
    requires 1 <= level <= 3 && b <= y <= l
    ensures Offset(level, |Pass(level, b, l, b, y)|) ==
            if InPass(level, y, b, l) then Offset(level, y) else 0
    decreases y
  {
    hide Offset, Floor, Unit;
    if b < y {
      PassAligned(level, b, l, y - 1);
      SameBlock(level, y - 1, b, l);
      if InPass(level, y - 1, b, l) {
        OffsetStep(level, |Pass(level, b, l, b, y - 1)|, y - 1);
      }
    } else {
      FloorIs(level, b);
      NoOffset(level);
    }
  }

  lemma OffsetStep(level: nat, n: nat, y: nat)
    requires Offset(level, n) == Offset(level, y)
    ensures Offset(level, n + 1) == Offset(level, y + 1)
  {
    OffsetNext(level, n);
    OffsetNext(level, y);
  }

  lemma OffsetNext(level: nat, n: nat)
    ensures Offset(level, n + 1) == if Offset(level, n) + 1 < Unit(level) then Offset(level, n) + 1 else 0
  {
    hide Floor, Offset, Unit, BlockNo;
    var q, r := BlockNo(level, n), Offset(level, n);
    Parts(level, n);
    if r + 1 < Unit(level) {
      BlockOf(level, n + 1, q, r + 1);
    } else {
      assert q * Unit(level) + Unit(level) == (q + 1) * Unit(level);
      BlockOf(level, n + 1, q + 1, 0);
    }
  }

  /** Offsets do not see whole blocks. */
  lemma OffsetSum(level: nat, a: nat, b: nat)
    requires Offset(level, a) == 0
    ensures Offset(level, a + b) == Offset(level, b)
  {
    hide Floor, Offset, Unit, BlockNo;
    var p, q, unit := BlockNo(level, a), BlockNo(level, b), Unit(level);
    Parts(level, a);
    Parts(level, b);
    assert a + b == (p + q) * unit + Offset(level, b);
    BlockOf(level, a + b, p + q, Offset(level, b));
  }

  lemma OffsetCoarser(level: nat, a: nat)
    requires Offset(level + 1, a) == 0
    ensures Offset(level, a) == 0
  {
    hide Floor, Offset, Unit;
    FloorIs(level + 1, a);
    Coarser(level, a);
    FloorIs(level, a);
  }

  lemma NoOffset(level: nat)
    ensures Offset(level, 0) == 0
  {}

  /** Inside a block of this level a step also stays inside the block of the next. */
  lemma StepInside(level: nat, f: nat)
    requires Offset(level, f) + 1 < Unit(level)
    ensures Floor(level, f + 1) == Floor(level, f) && Floor(level + 1, f + 1) == Floor(level + 1, f)
  {
    hide Floor, Offset, Unit;
    OffsetNext(level, f);
    OffsetNext(level + 1, f);
    FloorIs(level, f);
    FloorIs(level, f + 1);
    FloorIs(level + 1, f);
    FloorIs(level + 1, f + 1);
    if Offset(level + 1, f + 1) == 0 {
      Coarser(level, f + 1);
    }
  }

  /** Neighbours in a block are mapped by the same pass; the next block begins at offset 0. */
  lemma SameBlock(level: nat, f: nat, b: nat, l: nat)
    requires 1 <= level <= 3
    ensures if Offset(level, f) + 1 < Unit(level)
            then Offset(level, f + 1) == Offset(level, f) + 1 &&
                 (InPass(level, f + 1, b, l) <==> InPass(level, f, b, l))
            else Offset(level, f + 1) == 0
  {
    hide Floor, Offset, Unit;
    OffsetNext(level, f);
    if Offset(level, f) + 1 < Unit(level) {
      StepInside(level, f);
    }
  }

  // ---- the code ----

  /** crp_amd64_align_block_limit: shrink a range to its aligned interior. */
  method AlignBlockLimit(base0: nat, limit0: nat, level: nat) returns (ok: bool, base: nat, limit: nat, npages: nat)
    requires 1 <= level <= 3 && base0 < limit0
    ensures ok <==> Ceil(level, base0) < Floor(level, limit0)
    ensures ok ==> base == Ceil(level, base0) && limit == Floor(level, limit0) && npages == limit - base
    ensures !ok ==> limit == limit0
  {
    base, limit, npages := base0, limit0, 0;
    CeilIs(level, base0);
    FloorIs(level, limit0);
    var offset := Offset(level, base);
    if offset != 0 {
      if Unit(level) - offset > limit - base {
        return false, base, limit, npages;
      } else {
        base := base + (Unit(level) - offset);
      }
    }
    var aligned := Floor(level, limit);
    if aligned > base {
      limit := aligned;
      return true, base, limit, limit - base;
    } else {
      return false, base, limit, npages;
    }
  }

  /** crp_amd64_get_block_first: from inside a block on, up to its end if a whole block follows. */
  method GetBlockFirst(base: nat, limit0: nat, blockSize: nat, offset: nat, npages: nat) returns (ok: bool, limit: nat)
    requires 0 < offset < blockSize && base < limit0 && npages == limit0 - base
    ensures ok && limit == if npages >= (blockSize - offset) + blockSize then base + (blockSize - offset) else limit0
  {
    var pfx := blockSize - offset;
    limit := limit0;
    if npages >= pfx + blockSize {
      limit := base + Min(npages, pfx);
    }
    ok := limit > base;
  }

  /** crp_amd64_get_block_last: from a block boundary on, what is left after the whole blocks. */
  method GetBlockLast(base0: nat, limit: nat, level: nat, npages: nat) returns (ok: bool, base: nat)
    requires 1 <= level <= 3
    ensures base == if npages >= Unit(level) && Floor(level, limit) < limit then Floor(level, limit) else base0
    ensures ok <==> (if npages >= Unit(level) then Floor(level, limit) else base0) < limit
  {
    base := base0;
    var from := base0;
    if npages >= Unit(level) {
      from := Floor(level, limit);
    }
    if limit > from {
      return true, from;
    } else {
      return false, base;
    }
  }

  function Min(a: nat, b: nat): nat { if a < b then a else b }

  /** One round over a section: the block [base, limit) to map next, if any. The next round starts
      at its limit, or where the round gave up. */
  method NextBlock(ghost b: nat, x: nat, l: nat, level: nat) returns (ok: bool, base: nat, limit: nat)
    requires 1 <= level <= 3 && x < l && RoundStart(level, b, l, x)
    ensures x < limit <= l && RoundStart(level, b, l, limit) && (ok ==> b <= base < limit)
    ensures Pass(level, b, l, x, limit) == if ok then Frames(base, limit - base) else []
    ensures ok ==> Offset(level, base) == 0
  {
    hide Floor, Offset, Unit, Pass, InPass, Whole;
    var npages: nat;
    ok, base, limit, npages := AlignBlockLimit(x, l, level);
    CeilIs(level, x);
    FloorIs(level, l);
    if !ok {
      RoundNone(level, b, l, x);
      return;
    }
    var offset := Offset(level + 1, base);
    FloorIs(level + 1, base);
    FloorIs(level, base);
    if level < LVL_PDP && offset == 0 {
      ghost var lo := base;
      FloorIs(level + 1, limit);
      ok, base := GetBlockLast(base, limit, level + 1, npages);
      FloorNest(level, limit);
      FloorIs(level, Floor(level + 1, limit));
      RoundLast(level, b, l, x, if npages >= Unit(level + 1) then Floor(level + 1, limit) else lo);
      FramesNone(limit);
    } else if level < LVL_PDP && offset > 0 {
      ok, limit := GetBlockFirst(base, limit, Unit(level + 1), offset, npages);
      RoundFirst(level, b, l, x, limit);
    } else {
      RoundInterior(b, l, x);
    }
  }

  /** The frames the pass of a level maps in the section [b, l), in order. */
  function PassFrames(level: nat, b: nat, l: nat): seq<nat> { Pass(level, b, l, b, l) }

  lemma RoundStarts(level: nat, b: nat, l: nat)
    requires b <= l
    ensures RoundStart(level, b, l, b) && Pass(level, b, l, b, b) == []
  {}

  lemma PassShort(level: nat, b: nat, l: nat, x: nat, y: nat)
    requires x <= y
    ensures |Pass(level, b, l, x, y)| <= y - x
    decreases y
  {}

  /** When a round has a block to map, what the pass has mapped before it is made of whole blocks. */
  lemma BlockAligned(level: nat, b: nat, l: nat, x: nat, base: nat, limit: nat)
    requires 1 <= level <= 3 && b <= x <= l && x < limit && base < limit && Offset(level, base) == 0
    requires Pass(level, b, l, x, limit) == Frames(base, limit - base)
    ensures Offset(level, |Pass(level, b, l, b, x)|) == 0
  {
    hide Offset, Pass, InPass, Frames;
    PassAligned(level, b, l, x);
    if InPass(level, x, b, l) {
      PassHolds(level, b, l, x, limit, x);
      PassHolds(level, b, l, x, limit, base);
      FramesHold(base, limit - base, x);
      FramesHold(base, limit - base, base);
    }
  }

  lemma FramesHold(b: nat, n: nat, f: nat)
    ensures f in Frames(b, n) <==> b <= f < b + n
  {
    if b <= f < b + n { assert Frames(b, n)[f - b] == f; }
  }

  /** Map one block on behalf of a run of pages mapped so far. Its first frame and its first page are
      both aligned to the unit of the pass's level. */
  method MapBlock(h: Host, va0: nat, base: nat, limit: nat, q: Req, ghost level: nat,
                  ghost v0: nat, ghost fs: seq<nat>, ghost s: PTs, ghost f: Facts) returns (err: int, va: nat)
    requires Offset(level, base) == 0 && Offset(level, v0 + |fs|) == 0
    requires va0 == VaOf(v0 + |fs|) && base < limit && v0 + |fs| + (limit - base) < VPN_LIMIT
    requires PePageSize !in q.a.extra && q.kind != PageTable && SelfMapped(s) && ROOT in s.frame
    requires Done(s, f, h.s, h.index.facts, v0, fs, |fs|, q)
    requires h.Inv()
    modifies h, h.kern, h.index, h.index.Repr, h.Arrays()
    ensures err == 0 ==> va == VaOf(v0 + |fs| + (limit - base))
    ensures err == 0 ==>
              Done(s, f, h.s, h.index.facts, v0, fs + Frames(base, limit - base), |fs| + (limit - base), q)
    ensures err == 0 ==> Keeps(old(h.arr), h.arr) && fresh(h.Arrays() - old(h.Arrays()))
    ensures err == 0 ==> h.Inv() && h.kern.failed == old(h.kern.failed) && fresh(h.index.Repr - old(h.index.Repr))
    ensures err != 0 ==> h.kern.failed || exists v :: v0 <= v < v0 + |fs| + (limit - base) && Up(v, 3) == SELF_SLOT
  {
    hide Host.Inv, Coherent, Done, Frames, Up, SelfMapped, Keeps, VaOf, Offset;
    ghost var t, g, n := h.s, h.index.facts, 0;
    DoneKeepsRoot(s, f, t, g, v0, fs, |fs|, q);
    err, va, n := MapAligned(h, va0, base, limit, q, v0 + |fs|);
    if err == 0 {
      DoneTrans(s, f, t, g, h.s, h.index.facts, v0, fs, |fs|, Frames(base, n), n, q);
    }
  }

  /** cr_amd64_map_pages_unaligned: the pages from v0 on are mapped to the frames of the section that
      are this pass's part. */
  method MapUnaligned(h: Host, va0: nat, pfnBase: nat, pfnLimit: nat, q: Req, level: nat, ghost v0: nat)
      returns (err: int, va: nat, ghost fs: seq<nat>)
    requires va0 == VaOf(v0) && Offset(level, v0) == 0
    requires 1 <= level <= 3 && pfnBase <= pfnLimit && v0 + (pfnLimit - pfnBase) < VPN_LIMIT
    requires PePageSize !in q.a.extra && q.kind != PageTable && SelfMapped(h.s)
    requires h.Inv()
    modifies h, h.kern, h.index, h.index.Repr, h.Arrays()
    ensures err == 0 ==> fs == PassFrames(level, pfnBase, pfnLimit) && va == VaOf(v0 + |fs|)
    ensures err == 0 ==> Done(old(h.s), old(h.index.facts), h.s, h.index.facts, v0, fs, |fs|, q)
    ensures err == 0 ==> Keeps(old(h.arr), h.arr) && fresh(h.Arrays() - old(h.Arrays()))
    ensures err == 0 ==> h.Inv() && h.kern.failed == old(h.kern.failed) && fresh(h.index.Repr - old(h.index.Repr))
    ensures err != 0 ==>
              || h.kern.failed
              || exists v :: v0 <= v < v0 + |PassFrames(level, pfnBase, pfnLimit)| && Up(v, 3) == SELF_SLOT
  {
    hide Host.Inv, Coherent, Done, Frames, Up, SelfMapped, Keeps, VaOf, RoundStart, Pass, InPass, Offset;
    ghost var s, f := h.s, h.index.facts;
    va, fs, err := va0, [], 0;
    var base, limit := pfnBase, pfnLimit;
    RootTable(h);
    DoneRefl(s, f, v0, 0, q);
    KeepsRefl(h.arr);
    RoundStarts(level, pfnBase, pfnLimit);
    while base < pfnLimit
      invariant err == 0 && pfnBase <= base <= pfnLimit && RoundStart(level, pfnBase, pfnLimit, base)
      invariant fs == Pass(level, pfnBase, pfnLimit, pfnBase, base) && va == VaOf(v0 + |fs|)
      invariant Keeps(old(h.arr), h.arr) && fresh(h.Arrays() - old(h.Arrays()))
      invariant h.Inv() && h.kern.failed == old(h.kern.failed) && fresh(h.index.Repr - old(h.index.Repr))
      invariant Done(s, f, h.s, h.index.facts, v0, fs, |fs|, q)
    {
      ghost var x, arr := base, h.arr;
      var ok: bool;
      ok, base, limit := NextBlock(pfnBase, base, pfnLimit, level);
      PassSplit(level, pfnBase, pfnLimit, pfnBase, x, limit);
      PassSplit(level, pfnBase, pfnLimit, pfnBase, limit, pfnLimit);
      PassShort(level, pfnBase, pfnLimit, pfnBase, limit);
      if ok {
        BlockAligned(level, pfnBase, pfnLimit, x, base, limit);
        OffsetSum(level, v0, |fs|);
        err, va := MapBlock(h, va, base, limit, q, level, v0, fs, s, f);
        if err != 0 {
          return;
        }
        KeepsTrans(old(h.arr), arr, h.arr);
        fs := fs + Frames(base, limit - base);
      }
      base := limit;
    }
  }
}

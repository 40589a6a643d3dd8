/** The order in which the three passes lay out the RAM frames from address 0 on. */
module Order {
  import opened MapDef
  import opened HostWalk
  import opened Mapping
  import opened Blocks

  /** The frames the pass of a level maps over all sections, in order. */
  function LevelPass(level: nat, ss: seq<Section>): seq<nat> {
    if ss == [] then []
    else LevelPass(level, ss[..|ss| - 1]) + PassFrames(level, ss[|ss| - 1].base, ss[|ss| - 1].limit)
  }

  /** Page v of the direct map holds frame RamOrder(ss)[v]: first 1G blocks, then 2M blocks, then the rest. */
  function RamOrder(ss: seq<Section>): seq<nat> {
    LevelPass(LVL_PDP, ss) + LevelPass(LVL_PD, ss) + LevelPass(LVL_PT, ss)
  }

  function Total(ss: seq<Section>): int {
    if ss == [] then 0 else Total(ss[..|ss| - 1]) + (ss[|ss| - 1].limit - ss[|ss| - 1].base)
  }

  ghost predicate IsRamFrame(ss: seq<Section>, f: nat) {
    exists s {:trigger s.Has(f)} :: s in ss && s.Has(f)
  }

  /** What the theorems call RAM is what the resource list says. */
  lemma RamFrameIs(rs: seq<Resource>, f: nat)
    requires Ordered(rs)
    ensures IsRamFrame(Sections(rs), f) <==> InRam(rs, f)
  {
    hide Covers;
    forall r | r in rs ensures r.end + 1 < VA_LIMIT {
      var i :| 0 <= i < |rs| && rs[i] == r;
      assert rs[i].start <= rs[i].end + 1 < VA_LIMIT;
    }
    SectionsHave(rs, f);
  }

  lemma {:induction false} LevelPassHolds(level: nat, ss: seq<Section>, f: nat)
    ensures f in LevelPass(level, ss) <==>
            exists s {:trigger s.Has(f)} :: s in ss && s.Has(f) && InPass(level, f, s.base, s.limit)
  {
    if ss != [] {
      var front, last := ss[..|ss| - 1], ss[|ss| - 1];
      LevelPassHolds(level, front, f);
      PassHolds(level, last.base, last.limit, last.base, last.limit, f);
      assert ss == front + [last];
      assert last.Has(f) <==> last.base <= f < last.limit;
    }
  }

  lemma DistinctConcat(a: seq<nat>, b: seq<nat>)
    requires Distinct(a) && Distinct(b) && forall f | f in a :: f !in b
    ensures Distinct(a + b)
  {
    var c := a + b;
    forall i, j | 0 <= i < j < |c| ensures c[i] != c[j] {
      if i < |a| <= j { assert a[i] in a && b[j - |a|] in b; }
    }
  }

  lemma {:induction false} LevelPassDistinct(level: nat, ss: seq<Section>)
    requires Apart(ss)
    ensures Distinct(LevelPass(level, ss))
  {
    if ss != [] {
      var front, last := ss[..|ss| - 1], ss[|ss| - 1];
      LevelPassDistinct(level, front);
      PassDistinct(level, last.base, last.limit, last.base, last.limit);
      forall f | f in LevelPass(level, front) ensures f !in PassFrames(level, last.base, last.limit) {
        LevelPassHolds(level, front, f);
        PassHolds(level, last.base, last.limit, last.base, last.limit, f);
        var s :| s in front && s.Has(f);
        assert s.limit <= last.base;
      }
      DistinctConcat(LevelPass(level, front), PassFrames(level, last.base, last.limit));
    }
  }

  /** Disjoint sections give every frame one section. */
  lemma OneSection(ss: seq<Section>, s: Section, t: Section, f: nat)
    requires Apart(ss) && s in ss && t in ss && s.Has(f) && t.Has(f)
    ensures s == t
  {}

  lemma LevelsDisjoint(ss: seq<Section>, l: nat, m: nat, f: nat)
    requires Apart(ss) && 1 <= l < m <= 3 && f in LevelPass(l, ss)
    ensures f !in LevelPass(m, ss)
  {
    LevelPassHolds(l, ss, f);
    LevelPassHolds(m, ss, f);
    var s :| s in ss && s.Has(f) && InPass(l, f, s.base, s.limit);
    if f in LevelPass(m, ss) {
      var t :| t in ss && t.Has(f) && InPass(m, f, t.base, t.limit);
      OneSection(ss, s, t, f);
      OnePassEach(f, s.base, s.limit);
    }
  }

  /** The layout is a permutation of the RAM frames: each is there ... */
  lemma RamOrderHolds(ss: seq<Section>, f: nat)
    ensures f in RamOrder(ss) <==> IsRamFrame(ss, f)
  {
    LevelPassHolds(1, ss, f);
    LevelPassHolds(2, ss, f);
    LevelPassHolds(3, ss, f);
    if IsRamFrame(ss, f) {
      var s :| s in ss && s.Has(f);
      OnePassEach(f, s.base, s.limit);
    }
  }

  /** ... and only once. */
  lemma RamOrderDistinct(ss: seq<Section>)
    requires Apart(ss)
    ensures Distinct(RamOrder(ss))
  {
    LevelPassDistinct(1, ss);
    LevelPassDistinct(2, ss);
    LevelPassDistinct(3, ss);
    forall f | f in LevelPass(2, ss) ensures f !in LevelPass(3, ss) { LevelsDisjoint(ss, 2, 3, f); }
    DistinctConcat(LevelPass(3, ss), LevelPass(2, ss));
    forall f | f in LevelPass(1, ss) ensures f !in LevelPass(3, ss) + LevelPass(2, ss) {
      LevelsDisjoint(ss, 1, 3, f);
      LevelsDisjoint(ss, 1, 2, f);
    }
    DistinctConcat(LevelPass(3, ss) + LevelPass(2, ss), LevelPass(1, ss));
  }

  lemma {:induction false} LevelLengths(ss: seq<Section>)
    requires Apart(ss)
    ensures |LevelPass(1, ss)| + |LevelPass(2, ss)| + |LevelPass(3, ss)| == Total(ss)
  {
    if ss != [] {
      var last := ss[|ss| - 1];
      LevelLengths(ss[..|ss| - 1]);
      PassLengths(last.base, last.limit, last.limit);
    }
  }

  /** As many pages are laid out as the sections have frames. */
  lemma RamOrderLength(ss: seq<Section>)
    requires Apart(ss)
    ensures |RamOrder(ss)| == Total(ss)
  {
    LevelLengths(ss);
  }

  // ---- alignment ----

  /** The level whose pass laid out page v. */
  function LevelAt(ss: seq<Section>, v: nat): nat {
    if v < |LevelPass(LVL_PDP, ss)| then LVL_PDP
    else if v < |LevelPass(LVL_PDP, ss)| + |LevelPass(LVL_PD, ss)| then LVL_PD
    else LVL_PT
  }

  /** A whole pass over a section maps whole blocks, each frame at its own offset. */
  lemma {:induction false} PassOffsets(level: nat, b: nat, l: nat, y: nat, i: nat)
    requires 1 <= level <= 3 && b <= y <= l && i < |Pass(level, b, l, b, y)|
    ensures Offset(level, i) == Offset(level, Pass(level, b, l, b, y)[i])
    decreases y
  {
    if i < |Pass(level, b, l, b, y - 1)| {
      PassOffsets(level, b, l, y - 1, i);
    } else {
      PassAligned(level, b, l, y - 1);
    }
  }

  lemma PassWhole(level: nat, b: nat, l: nat)
    requires 1 <= level <= 3 && b <= l
    ensures Offset(level, |PassFrames(level, b, l)|) == 0
  {
    PassAligned(level, b, l, l);
    FloorIs(level, l);
  }

  lemma {:induction false} LevelAligned(level: nat, ss: seq<Section>)
    requires 1 <= level <= 3 && Apart(ss)
    ensures Offset(level, |LevelPass(level, ss)|) == 0
    ensures forall i {:trigger LevelPass(level, ss)[i]} | 0 <= i < |LevelPass(level, ss)| ::
              Offset(level, i) == Offset(level, LevelPass(level, ss)[i])
  {
    hide Offset, Pass;
    if ss == [] {
      NoOffset(level);
    } else {
      var front, last := ss[..|ss| - 1], ss[|ss| - 1];
      var n, p := |LevelPass(level, front)|, PassFrames(level, last.base, last.limit);
      LevelAligned(level, front);
      PassWhole(level, last.base, last.limit);
      OffsetSum(level, n, |p|);
      forall i | 0 <= i < |LevelPass(level, ss)| ensures Offset(level, i) == Offset(level, LevelPass(level, ss)[i]) {
        if i >= n {
          PassOffsets(level, last.base, last.limit, last.limit, i - n);
          OffsetSum(level, n, i - n);
        }
      }
    }
  }

  /** Every page lies as far into its block, of the level that laid it out, as its frame does. So the
      address at which a pass begins or resumes is aligned to the pass's unit whenever the frame is. */
  lemma RamOrderAligned(ss: seq<Section>, v: nat)
    requires Apart(ss) && v < |RamOrder(ss)|
    ensures Offset(LevelAt(ss, v), v) == Offset(LevelAt(ss, v), RamOrder(ss)[v])
  {
    hide Offset;
    var a, b := |LevelPass(3, ss)|, |LevelPass(2, ss)|;
    LevelAligned(3, ss);
    LevelAligned(2, ss);
    LevelAligned(1, ss);
    OffsetCoarser(2, a);
    OffsetSum(2, a, b);
    OffsetCoarser(1, a + b);
    if v < a {
      assert RamOrder(ss)[v] == LevelPass(3, ss)[v];
    } else if v < a + b {
      assert RamOrder(ss)[v] == LevelPass(2, ss)[v - a];
      OffsetSum(2, a, v - a);
    } else {
      assert RamOrder(ss)[v] == LevelPass(1, ss)[v - a - b];
      OffsetSum(1, a + b, v - a - b);
    }
  }
}

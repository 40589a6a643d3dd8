/** Why every mapping call asks for 4K pages: an entry that maps a 1G or a 2M page directly gets the
    unscaled frame number, in a field where the hardware expects it in units of that page. */
module LargePages {
  import opened MapDef
  import opened PageTables

  lemma OnlyZero1G(q: nat)
    requires q < 0x4_0000 && q % 16 * 0x4_0000 == q
    ensures q == 0
  {}

  lemma OnlyZero2M(q: nat)
    requires q < 0x800_0000 && q % 0x40_0000 * 0x200 == q
    ensures q == 0
  {
    var r, k := q % 0x40_0000, q / 0x40_0000;
    assert q == k * 0x40_0000 + r && k < 32;
    assert 511 * r == k * 0x40_0000;
    assert k * 0x40_0000 == 511 * (k * 8208) + k * 16;
    Multiple511(r - k * 8208, k * 16);
  }

  lemma Multiple511(a: int, b: nat)
    requires 511 * a == b && b < 511
    ensures a == 0 && b == 0
  {}

  lemma Scaled1G(q: nat)
    ensures q * 0x4_0000 % 0x40_0000 == q % 16 * 0x4_0000
  {
    assert q * 0x4_0000 == (q / 16) * 0x40_0000 + q % 16 * 0x4_0000;
  }

  lemma Scaled2M(q: nat)
    ensures q * 0x200 % 0x8000_0000 == q % 0x40_0000 * 0x200
  {
    assert q * 0x200 == (q / 0x40_0000) * 0x8000_0000 + q % 0x40_0000 * 0x200;
  }

  /** A direct 1G entry made for an aligned frame leads to that frame only if it is frame 0. */
  lemma Direct1G(pfn: nat, a: Attr, v: nat)
    requires pfn < PFN_LIMIT && pfn % PS_1G == 0 && v % PS_1G == 0
    ensures LargePfn(InitPageEnt(pfn, a, LVL_PDP, true), v, LVL_PDP) == pfn <==> pfn == 0
  {
    var q := pfn / 0x4_0000;
    Scaled1G(q);
    assert pfn == q * 0x4_0000;
    if q % 16 * 0x4_0000 == q {
      OnlyZero1G(q);
    }
  }

  /** A direct 2M entry made for an aligned frame leads to that frame only if it is frame 0. */
  lemma Direct2M(pfn: nat, a: Attr, v: nat)
    requires pfn < PFN_LIMIT && pfn % PS_2M == 0 && v % PS_2M == 0
    ensures LargePfn(InitPageEnt(pfn, a, LVL_PD, true), v, LVL_PD) == pfn <==> pfn == 0
  {
    var q := pfn / 0x200;
    Scaled2M(q);
    assert pfn == q * 0x200;
    if q % 0x40_0000 * 0x200 == q {
      OnlyZero2M(q);
    }
  }
}

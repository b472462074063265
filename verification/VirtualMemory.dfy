/**
  Page numbers, canonical addresses and the four nine-bit table indices.  An address is sign
  extended from bit 47, so only the lowest and the highest 2^35 page numbers are canonical.
 */
module VirtualMemory {
  import opened Alignment

  const ENTRIES: nat := 512
  const HALF: nat := 0x8_0000_0000            // 2^35 pages: one half of the canonical range
  const SPAN: nat := 0x10_0000_0000           // 2^36 pages: what four indices can tell apart
  const PAGES: nat := 0x10_0000_0000_0000     // 2^52 page numbers in a 64-bit space

  predicate CanonicalPage(p: nat) {
    p < HALF || PAGES - HALF <= p < PAGES
  }

  function L1(p: nat): (i: nat) ensures i < ENTRIES { p % ENTRIES }
  function L2(p: nat): (i: nat) ensures i < ENTRIES { p / ENTRIES % ENTRIES }
  function L3(p: nat): (i: nat) ensures i < ENTRIES { p / (ENTRIES * ENTRIES) % ENTRIES }
  function L4(p: nat): (i: nat) ensures i < ENTRIES { p / (ENTRIES * ENTRIES * ENTRIES) % ENTRIES }

  /** Root index first. */
  function Indices(p: nat): (idx: seq<nat>)
    ensures ValidIndices(idx)
  {
    [L4(p), L3(p), L2(p), L1(p)]
  }

  predicate ValidIndices(idx: seq<nat>) {
    |idx| == 4 && idx[0] < ENTRIES && idx[1] < ENTRIES && idx[2] < ENTRIES && idx[3] < ENTRIES
  }

  /** `Address::new`: keep 48 bits and copy bit 47 into the upper sixteen. */
  function SignExtend(addr: nat): (r: nat) {
    var low := addr % 0x1_0000_0000_0000;
    if low < 0x8000_0000_0000 then low else 0xFFFF_0000_0000_0000 + low
  }

  /** `Page::from_table_indices`: the shifted indices do not overlap, so or-ing them adds. */
  function FromIndices(idx: seq<nat>): (p: nat)
    requires ValidIndices(idx)
  {
    SignExtend(idx[0] * 0x80_0000_0000 + idx[1] * 0x4000_0000 + idx[2] * 0x20_0000 + idx[3] * 0x1000) / PAGE_SIZE
  }

  /** The number the four indices spell. */
  function Spell(idx: seq<nat>): (n: nat)
    requires ValidIndices(idx)
    ensures n < SPAN
  {
    ((idx[0] * ENTRIES + idx[1]) * ENTRIES + idx[2]) * ENTRIES + idx[3]
  }

  lemma DivDiv(p: nat)
    ensures p / (ENTRIES * ENTRIES) == p / ENTRIES / ENTRIES
    ensures p / (ENTRIES * ENTRIES * ENTRIES) == p / ENTRIES / ENTRIES / ENTRIES
  {
  }

  lemma SpellIndices(p: nat)
    ensures Spell(Indices(p)) == p % SPAN
  {
    var a := p / ENTRIES;
    var b := a / ENTRIES;
    var c := b / ENTRIES;
    var d := c / ENTRIES;
    assert L3(p) == b % ENTRIES && L4(p) == c % ENTRIES by { DivDiv(p); }
    assert p == ((((d * ENTRIES) + c % ENTRIES) * ENTRIES + b % ENTRIES) * ENTRIES + a % ENTRIES) * ENTRIES + p % ENTRIES;
    RemainderUnique(p, d, Spell(Indices(p)));
  }

  lemma RemainderUnique(p: nat, d: nat, n: nat)
    requires p == d * SPAN + n && n < SPAN
    ensures p % SPAN == n
  {
  }

  /** Sign extension at the level of page numbers. */
  function Extend(n: nat): (p: nat)
    requires n < SPAN
  {
    if n < HALF then n else PAGES - SPAN + n
  }

  lemma ExtendCanonical(n: nat)
    requires n < SPAN
    ensures CanonicalPage(Extend(n)) && Extend(n) % SPAN == n
  {
    if HALF <= n {
      assert PAGES - SPAN == 65535 * SPAN;
      assert (65535 * SPAN + n) % SPAN == n;
    }
  }

  lemma ExtendRestores(p: nat)
    ensures Extend(p % SPAN) == p <==> CanonicalPage(p)
  {
    var n := p % SPAN;
    ExtendCanonical(n);
    if PAGES - HALF <= p < PAGES {
      assert p == 65535 * SPAN + (p - (PAGES - SPAN));
      assert n == p - (PAGES - SPAN);
    }
  }

  lemma FromIndicesSpell(idx: seq<nat>)
    requires ValidIndices(idx)
    ensures FromIndices(idx) == Extend(Spell(idx))
  {
    var n := Spell(idx);
    var addr := idx[0] * 0x80_0000_0000 + idx[1] * 0x4000_0000 + idx[2] * 0x20_0000 + idx[3] * 0x1000;
    assert addr == n * PAGE_SIZE;
  }

  /** Building a page from indices and reading them back is the identity, and the page is canonical. */
  lemma IndicesOfFromIndices(idx: seq<nat>)
    requires ValidIndices(idx)
    ensures CanonicalPage(FromIndices(idx)) && Indices(FromIndices(idx)) == idx
  {
    var n, p := Spell(idx), FromIndices(idx);
    assert p == Extend(n) by { FromIndicesSpell(idx); }
    ExtendCanonical(n);
    assert Spell(Indices(p)) == n by { SpellIndices(p); }
    SpellInjective(Indices(p), idx);
  }

  lemma SpellInjective(a: seq<nat>, b: seq<nat>)
    requires ValidIndices(a) && ValidIndices(b) && Spell(a) == Spell(b)
    ensures a == b
  {
    var x, y := (a[0] * ENTRIES + a[1]) * ENTRIES + a[2], (b[0] * ENTRIES + b[1]) * ENTRIES + b[2];
    assert x == y && a[3] == b[3];
    var u, v := a[0] * ENTRIES + a[1], b[0] * ENTRIES + b[1];
    assert u == v && a[2] == b[2];
    assert a[0] == b[0] && a[1] == b[1];
  }

  /** A page number survives the round trip through its indices exactly when it is canonical. */
  lemma FromIndicesOfIndices(p: nat)
    ensures FromIndices(Indices(p)) == p <==> CanonicalPage(p)
  {
    var idx := Indices(p);
    assert Spell(idx) == p % SPAN by { SpellIndices(p); }
    assert FromIndices(idx) == Extend(p % SPAN) by { FromIndicesSpell(idx); }
    ExtendRestores(p);
  }

  /** On canonical pages the four indices are injective. */
  lemma IndicesInjective(p: nat, q: nat)
    requires CanonicalPage(p) && CanonicalPage(q) && Indices(p) == Indices(q)
    ensures p == q
  {
    SpellIndices(p);
    SpellIndices(q);
    FromIndicesOfIndices(p);
    FromIndicesOfIndices(q);
  }
}

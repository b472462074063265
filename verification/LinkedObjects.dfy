/**
  Every object a successful load brings in is completely relocated, and nothing that was in
  memory before changes, although loads nest inside each other's relocation loops.
 */
module LinkedObjects {
  import opened LoaderLinking
  import opened Options

  // --- What the theorem is about ---------------------------------------------------------------------

  /** An object as it was loaded once: loading it again makes another copy. */
  datatype Copy = Copy(name: string, base: nat)

  /** Relocation windows of one object do not overlap. */
  ghost predicate Apart(a: Rela, b: Rela) {
    a.offset + 8 <= b.offset || b.offset + 8 <= a.offset
  }

  ghost predicate FileOk(f: File) {
    forall i, j {:trigger Apart(f.relas[i], f.relas[j])} ::
      0 <= i < |f.relas| && 0 <= j < |f.relas| && i != j ==> Apart(f.relas[i], f.relas[j])
  }

  ghost predicate WorldOk(w: World) {
    forall n {:trigger FileOk(w.files[n])} :: n in w.files ==> FileOk(w.files[n])
  }

  function Size(w: World, n: string): (k: nat)
    requires n in w.files
  {
    |w.files[n].bytes|
  }

  ghost predicate Separate(w: World, c: Copy, d: Copy) {
    && c.name in w.files && d.name in w.files
    && (c.base + Size(w, c.name) <= d.base || d.base + Size(w, d.name) <= c.base)
  }

  ghost predicate CopyOk(w: World, l: State, c: Copy) {
    && c.name in w.files && c.base + Size(w, c.name) <= l.next && Mapped(l.mem, c.base, Size(w, c.name))
    && w.files[c.name].globals.Keys <= l.symbols.Keys
  }

  /** The registered objects. */
  function Reg(l: State): (copies: set<Copy>) {
    set n | n in l.bases :: Copy(n, l.bases[n])
  }

  /** A copy defines the symbol at the address. */
  ghost predicate Defines(w: World, c: Copy, s: string, a: nat) {
    c.name in w.files && s in w.files[c.name].globals && a == c.base + w.files[c.name].globals[s]
  }

  ghost predicate Defined(w: World, copies: set<Copy>, s: string, a: nat) {
    exists c {:trigger Defines(w, c, s, a)} :: c in copies && Defines(w, c, s, a)
  }

  /** Copies lie apart below the next address, and every symbol is at an address where some copy defines it. */
  ghost predicate Inv(w: World, l: State, copies: set<Copy>) {
    && (forall c {:trigger CopyOk(w, l, c)} :: c in copies ==> CopyOk(w, l, c))
    && (forall c, d {:trigger Separate(w, c, d)} :: c in copies && d in copies && c != d ==> Separate(w, c, d))
    && (forall n {:trigger l.bases[n]} :: n in l.bases ==> Copy(n, l.bases[n]) in copies)
    && (forall s {:trigger l.symbols[s]} :: s in l.symbols ==> Defined(w, copies, s, l.symbols[s]))
  }

  /** An address a relocation of an object at `base` may refer to. */
  ghost predicate SourceOf(w: World, copies: set<Copy>, base: nat, source: Source, a: nat) {
    match source
    case Local(offset) => a == base + offset
    case External(symbol) => Defined(w, copies, symbol, a)
  }

  /** A relocation's window holds the value asked for. */
  ghost predicate Applied(w: World, f: File, mem: Memory, copies: set<Copy>, base: nat, rela: Rela) {
    && rela.offset + 8 <= |f.bytes| && Mapped(mem, base + rela.offset, 8)
    && exists a: nat {:trigger SourceOf(w, copies, base, rela.source, a)} ::
         SourceOf(w, copies, base, rela.source, a) && Resolves(rela, a, base + rela.offset, Fetch(mem, base + rela.offset))
  }

  ghost predicate InWindow(rela: Rela, i: nat) {
    rela.offset <= i < rela.offset + 8
  }

  ghost predicate Clear(relas: seq<Rela>, i: nat) {
    forall j {:trigger InWindow(relas[j], i)} :: 0 <= j < |relas| ==> !InWindow(relas[j], i)
  }

  /** The first `k` relocations are applied and every other byte is as in the file. */
  ghost predicate LinkedTo(w: World, f: File, mem: Memory, copies: set<Copy>, base: nat, k: nat)
    requires k <= |f.relas|
  {
    && Mapped(mem, base, |f.bytes|)
    && (forall i {:trigger Applied(w, f, mem, copies, base, f.relas[i])} :: 0 <= i < k ==> Applied(w, f, mem, copies, base, f.relas[i]))
    && (forall i {:trigger Clear(f.relas[..k], i)} :: 0 <= i < |f.bytes| && Clear(f.relas[..k], i) ==> mem[base + i] == f.bytes[i])
  }

  /** Linked up to some relocation, and to the end if `all`. */
  ghost predicate Linked(w: World, mem: Memory, copies: set<Copy>, c: Copy, all: bool) {
    c.name in w.files && exists k: nat {:trigger LinkedTo(w, w.files[c.name], mem, copies, c.base, k)} ::
      && k <= |w.files[c.name].relas| && (all ==> k == |w.files[c.name].relas|)
      && LinkedTo(w, w.files[c.name], mem, copies, c.base, k)
  }

  ghost predicate NewLinked(w: World, mem: Memory, copies: set<Copy>, copies': set<Copy>, all: bool) {
    forall c {:trigger Linked(w, mem, copies', c, all)} :: c in copies' && c !in copies ==> Linked(w, mem, copies', c, all)
  }

  /** Symbols stay known; memory stays except in the range given. */
  ghost predicate Grown(l: State, l': State, lo: nat, hi: nat) {
    && l.next <= l'.next && l.symbols.Keys <= l'.symbols.Keys
    && (forall a: nat {:trigger a in l'.mem} {:trigger a in l.mem} :: a in l.mem && a < l.next ==>
          a in l'.mem && (lo <= a < hi || l'.mem[a] == l.mem[a]))
  }

  ghost predicate KeepsBases(l: State, l': State) {
    forall n {:trigger n in l'.bases} {:trigger n in l.bases} :: n in l.bases ==> n in l'.bases && l'.bases[n] == l.bases[n]
  }

  lemma GrownTrans(a: State, b: State, c: State, lo: nat, hi: nat)
    requires Grown(a, b, lo, hi) && Grown(b, c, lo, hi)
    ensures Grown(a, c, lo, hi)
  {
  }

  lemma GrownWider(a: State, b: State, lo: nat, hi: nat)
    requires Grown(a, b, 0, 0)
    ensures Grown(a, b, lo, hi)
  {
  }

  // --- What stays linked -------------------------------------------------------------------------------

  lemma DefinedStays(w: World, copies: set<Copy>, copies': set<Copy>, s: string, a: nat)
    requires copies <= copies' && Defined(w, copies, s, a)
    ensures Defined(w, copies', s, a)
  {
    var c :| c in copies && Defines(w, c, s, a);
    assert c in copies';
  }

  lemma AppliedStays(w: World, f: File, mem: Memory, mem': Memory, copies: set<Copy>, copies': set<Copy>, base: nat, rela: Rela)
    requires Applied(w, f, mem, copies, base, rela) && Mapped(mem', base + rela.offset, 8) && copies <= copies'
    requires forall a: nat :: base + rela.offset <= a < base + rela.offset + 8 ==> mem'[a] == mem[a]
    ensures Applied(w, f, mem', copies', base, rela)
  {
    FetchSame(mem, mem', base + rela.offset);
    var a: nat :| SourceOf(w, copies, base, rela.source, a) && Resolves(rela, a, base + rela.offset, Fetch(mem, base + rela.offset));
    if rela.source.External? {
      DefinedStays(w, copies, copies', rela.source.symbol, a);
    }
    assert SourceOf(w, copies', base, rela.source, a);
  }

  lemma LinkedToStays(w: World, f: File, l: State, l': State, copies: set<Copy>, copies': set<Copy>, base: nat, k: nat, lo: nat, hi: nat)
    requires k <= |f.relas| && LinkedTo(w, f, l.mem, copies, base, k) && Grown(l, l', lo, hi) && copies <= copies'
    requires base + |f.bytes| <= l.next && (base + |f.bytes| <= lo || hi <= base)
    ensures LinkedTo(w, f, l'.mem, copies', base, k)
  {
    forall a: nat | base <= a < base + |f.bytes| ensures a in l'.mem && l'.mem[a] == l.mem[a] {
      assert a in l.mem;
    }
    forall i | 0 <= i < k ensures Applied(w, f, l'.mem, copies', base, f.relas[i]) {
      assert Applied(w, f, l.mem, copies, base, f.relas[i]);
      AppliedStays(w, f, l.mem, l'.mem, copies, copies', base, f.relas[i]);
    }
    forall i | 0 <= i < |f.bytes| && Clear(f.relas[..k], i) ensures l'.mem[base + i] == f.bytes[i] {
      assert l.mem[base + i] == f.bytes[i];
    }
  }

  lemma LinkedStays(w: World, l: State, l': State, copies: set<Copy>, copies': set<Copy>, c: Copy, all: bool, lo: nat, hi: nat)
    requires Linked(w, l.mem, copies, c, all) && CopyOk(w, l, c) && Grown(l, l', lo, hi) && copies <= copies'
    requires c.base + Size(w, c.name) <= lo || hi <= c.base
    ensures Linked(w, l'.mem, copies', c, all)
  {
    var f := w.files[c.name];
    var k: nat :| k <= |f.relas| && (all ==> k == |f.relas|) && LinkedTo(w, f, l.mem, copies, c.base, k);
    LinkedToStays(w, f, l, l', copies, copies', c.base, k, lo, hi);
  }

  lemma PartlyLinked(w: World, mem: Memory, copies: set<Copy>, c: Copy)
    requires Linked(w, mem, copies, c, true)
    ensures Linked(w, mem, copies, c, false)
  {
  }

  /** Copies that are new in two stages are linked, the first ones completely. */
  lemma NewLinkedTrans(w: World, l1: State, l2: State, copies: set<Copy>, copies1: set<Copy>, copies2: set<Copy>,
                       all: bool, self: Copy, lo: nat, hi: nat)
    requires NewLinked(w, l1.mem, copies, copies1, true) && NewLinked(w, l2.mem, copies1, copies2, all)
    requires Inv(w, l1, copies1) && Grown(l1, l2, lo, hi) && copies1 <= copies2
    requires hi <= lo || (self in copies && self in copies1 && lo == self.base && self.name in w.files && hi == lo + Size(w, self.name))
    ensures NewLinked(w, l2.mem, copies, copies2, all)
  {
    forall c | c in copies2 && c !in copies ensures Linked(w, l2.mem, copies2, c, all) {
      if c in copies1 {
        assert Linked(w, l1.mem, copies1, c, true) && CopyOk(w, l1, c);
        if lo < hi {
          assert Separate(w, c, self);
          LinkedStays(w, l1, l2, copies1, copies2, c, true, lo, hi);
        } else {
          SameOutside(l1, l2, lo, hi);
          LinkedStays(w, l1, l2, copies1, copies2, c, true, 0, 0);
        }
        if !all {
          PartlyLinked(w, l2.mem, copies2, c);
        }
      }
    }
  }

  lemma SameOutside(l: State, l': State, lo: nat, hi: nat)
    requires Grown(l, l', lo, hi) && hi <= lo
    ensures Grown(l, l', 0, 0)
  {
  }

  // --- The steps -----------------------------------------------------------------------------------------

  lemma CopyStays(w: World, l: State, l': State, c: Copy, lo: nat, hi: nat)
    requires CopyOk(w, l, c) && Grown(l, l', lo, hi)
    ensures CopyOk(w, l', c)
  {
    forall a: nat | c.base <= a < c.base + Size(w, c.name) ensures a in l'.mem {
      assert a in l.mem;
    }
  }

  lemma RegisterGrows(w: World, l: State, name: string)
    requires name in w.files
    ensures Grown(l, Register(w, l, name), 0, 0) && CopyOk(w, Register(w, l, name), Copy(name, l.next))
  {
    var l' := Register(w, l, name);
    assert l'.symbols.Keys == l.symbols.Keys + w.files[name].globals.Keys;
  }

  lemma RegisterInv(w: World, l: State, copies: set<Copy>, name: string)
    requires Inv(w, l, copies) && name in w.files
    ensures Inv(w, Register(w, l, name), copies + {Copy(name, l.next)}) && Grown(l, Register(w, l, name), 0, 0)
  {
    var l', new_ := Register(w, l, name), Copy(name, l.next);
    var copies' := copies + {new_};
    RegisterGrows(w, l, name);
    forall c | c in copies' ensures CopyOk(w, l', c) {
      if c in copies {
        CopyStays(w, l, l', c, 0, 0);
      }
    }
    forall c, d | c in copies' && d in copies' && c != d ensures Separate(w, c, d) {
      if c in copies && d in copies {
        assert Separate(w, c, d);
      } else if c in copies {
        assert CopyOk(w, l, c);
      } else {
        assert CopyOk(w, l, d);
      }
    }
    RegisterDefines(w, l, copies, name);
  }

  lemma RegisterDefines(w: World, l: State, copies: set<Copy>, name: string)
    requires Inv(w, l, copies) && name in w.files
    ensures
      var l' := Register(w, l, name);
      forall s {:trigger l'.symbols[s]} :: s in l'.symbols ==> Defined(w, copies + {Copy(name, l.next)}, s, l'.symbols[s])
  {
    var l', new_ := Register(w, l, name), Copy(name, l.next);
    forall s | s in l'.symbols ensures Defined(w, copies + {new_}, s, l'.symbols[s]) {
      if s in w.files[name].globals {
        assert Defines(w, new_, s, l'.symbols[s]);
      } else {
        DefinedStays(w, copies, copies + {new_}, s, l.symbols[s]);
      }
    }
  }

  lemma RegisterReg(w: World, l: State, name: string)
    requires name in w.files && name !in l.bases
    ensures Reg(Register(w, l, name)) == Reg(l) + {Copy(name, l.next)}
  {
    var l' := Register(w, l, name);
    forall c ensures c in Reg(l') <==> c in Reg(l) + {Copy(name, l.next)} {
      assert c in Reg(l') <==> c.name in l'.bases && c.base == l'.bases[c.name];
      assert c in Reg(l) <==> c.name in l.bases && c.base == l.bases[c.name];
    }
  }

  /** A registered object is in memory as it is in the file. */
  lemma RegisterLays(w: World, l: State, copies: set<Copy>, name: string)
    requires name in w.files
    ensures LinkedTo(w, w.files[name], Register(w, l, name).mem, copies, l.next, 0)
  {
    var f, l' := w.files[name], Register(w, l, name);
    forall i | 0 <= i < |f.bytes| ensures l'.mem[l.next + i] == f.bytes[i] {
      assert l.next + i in Laid(f.bytes, l.next);
    }
  }

  lemma StoreGrows(w: World, l: State, l': State, copies: set<Copy>, p: nat, v: nat, lo: nat, hi: nat)
    requires l' == State(l.bases, l.symbols, Store(l.mem, p, v), l.next) && lo <= p && p + 8 <= hi && Inv(w, l, copies)
    ensures Grown(l, l', lo, hi) && Inv(w, l', copies)
  {
    forall c | c in copies ensures CopyOk(w, l', c) {
      assert CopyOk(w, l, c);
    }
  }

  lemma StoreLinks(w: World, f: File, mem: Memory, copies: set<Copy>, base: nat, k: nat, a: nat)
    requires FileOk(f) && k < |f.relas| && LinkedTo(w, f, mem, copies, base, k)
    requires SourceOf(w, copies, base, f.relas[k].source, a) && Supported(f.relas[k].kind) && f.relas[k].offset + 8 <= |f.bytes|
    ensures
      var p := base + f.relas[k].offset;
      LinkedTo(w, f, Store(mem, p, Relocated(f.relas[k], a, p)), copies, base, k + 1)
  {
    var p := base + f.relas[k].offset;
    var v := Relocated(f.relas[k], a, p);
    var mem' := Store(mem, p, v);
    FetchStore(mem, p, v);
    RelocatedResolves(f.relas[k], a, p);
    forall i | 0 <= i < k + 1 ensures Applied(w, f, mem', copies, base, f.relas[i]) {
      if i < k {
        assert Applied(w, f, mem, copies, base, f.relas[i]) && Apart(f.relas[i], f.relas[k]);
        AppliedStays(w, f, mem, mem', copies, copies, base, f.relas[i]);
      }
    }
    forall i | 0 <= i < |f.bytes| && Clear(f.relas[..k + 1], i) ensures mem'[base + i] == f.bytes[i] {
      assert !InWindow(f.relas[..k + 1][k], i);
      forall j | 0 <= j < k ensures !InWindow(f.relas[..k][j], i) {
        assert !InWindow(f.relas[..k + 1][j], i);
      }
      assert Clear(f.relas[..k], i);
    }
  }

  /** One relocation puts its value into its window and keeps every other byte. */
  lemma ApplyLinks(w: World, l: State, copies: set<Copy>, name: string, k: nat, a: nat)
    requires WorldOk(w) && Inv(w, l, copies) && name in w.files && name in l.bases && k < |w.files[name].relas|
    requires LinkedTo(w, w.files[name], l.mem, copies, l.bases[name], k)
    requires SourceOf(w, copies, l.bases[name], w.files[name].relas[k].source, a)
    requires Apply(w, l, name, w.files[name].relas[k], a).Written?
    ensures
      var l' := Apply(w, l, name, w.files[name].relas[k], a).l;
      && Inv(w, l', copies) && Grown(l, l', l.bases[name], l.bases[name] + Size(w, name))
      && LinkedTo(w, w.files[name], l'.mem, copies, l.bases[name], k + 1)
  {
    var f, base := w.files[name], l.bases[name];
    var p := base + f.relas[k].offset;
    var v := Relocated(f.relas[k], a, p);
    StoreGrows(w, l, State(l.bases, l.symbols, Store(l.mem, p, v), l.next), copies, p, v, base, base + Size(w, name));
    StoreLinks(w, f, l.mem, copies, base, k, a);
  }

  // --- The nested loops ------------------------------------------------------------------------------------

  lemma NewLinkedWeaken(w: World, mem: Memory, copies: set<Copy>, copies': set<Copy>)
    requires NewLinked(w, mem, copies, copies', true)
    ensures NewLinked(w, mem, copies, copies', false)
  {
    forall c | c in copies' && c !in copies ensures Linked(w, mem, copies', c, false) {
      PartlyLinked(w, mem, copies', c);
    }
  }

  /**
    However a load ends, nothing that was in memory before changes, and every object it brought
    in has its first relocations applied and its other bytes as in the file; if it succeeds, all
    relocations of all of them are applied.
   */
  lemma {:induction false} LoadLinks(w: World, l: State, copies: set<Copy>, name: string) returns (copies': set<Copy>)
    requires WorldOk(w) && Inv(w, l, copies) && name in w.files
    ensures
      var Result(status, l') := Load(w, l, name);
      && copies + {Copy(name, l.next)} <= copies' && Inv(w, l', copies') && Grown(l, l', 0, 0)
      && name in l'.bases && l'.bases[name] == l.next && w.files[name].globals.Keys <= l'.symbols.Keys
      && (name !in l.bases ==> KeepsBases(l, l'))
      && NewLinked(w, l'.mem, copies, copies', status == Fine)
      && Linked(w, l'.mem, copies', Copy(name, l.next), status == Fine)
      && (copies == Reg(l) && name !in l.bases ==> copies' == Reg(l'))
    decreases |Unloaded(w, l) - {name}|, 3, 0
  {
    var l1, self := Register(w, l, name), Copy(name, l.next);
    RegisterInv(w, l, copies, name);
    RegisterLays(w, l, copies + {self}, name);
    if name !in l.bases {
      RegisterReg(w, l, name);
    }
    copies' := RelocateLinks(w, l1, copies + {self}, name, 0);
    var Result(status, l') := Load(w, l, name);
    RegisterNames(w, l, name);
    GrownFresh(l, l1, l', l.next + Size(w, name));
    NewLinkedSelf(w, l'.mem, copies, self, copies', status == Fine);
  }

  lemma RegisterNames(w: World, l: State, name: string)
    requires name in w.files
    ensures
      var l' := Register(w, l, name);
      && name in l'.bases && l'.bases[name] == l.next && w.files[name].globals.Keys <= l'.symbols.Keys
      && (name !in l.bases ==> KeepsBases(l, l'))
  {
  }

  lemma GrownFresh(l: State, l1: State, l': State, hi: nat)
    requires Grown(l, l1, 0, 0) && Grown(l1, l', l.next, hi)
    ensures Grown(l, l', 0, 0)
  {
  }

  lemma NewLinkedSelf(w: World, mem: Memory, copies: set<Copy>, self: Copy, copies': set<Copy>, all: bool)
    requires NewLinked(w, mem, copies + {self}, copies', all) && Linked(w, mem, copies', self, all)
    ensures NewLinked(w, mem, copies, copies', all)
  {
    forall c | c in copies' && c !in copies ensures Linked(w, mem, copies', c, all) {
      if c != self {
        assert c !in copies + {self};
      }
    }
  }

  /** What a relocation loop has done to the object at its base, from a state in which `copies` were loaded. */
  ghost predicate LoopDone(w: World, l: State, copies: set<Copy>, self: Copy, r: Result, copies': set<Copy>) {
    && self.name in w.files
    && copies <= copies' && Inv(w, r.l, copies') && Grown(l, r.l, self.base, self.base + Size(w, self.name)) && KeepsBases(l, r.l)
    && NewLinked(w, r.l.mem, copies, copies', r.status == Fine)
    && Linked(w, r.l.mem, copies', self, r.status == Fine)
    && (copies == Reg(l) ==> copies' == Reg(r.l))
  }

  lemma {:induction false} RelocateLinks(w: World, l: State, copies: set<Copy>, name: string, k: nat) returns (copies': set<Copy>)
    requires WorldOk(w) && Inv(w, l, copies) && name in w.files && name in l.bases && k <= |w.files[name].relas|
    requires LinkedTo(w, w.files[name], l.mem, copies, l.bases[name], k)
    ensures LoopDone(w, l, copies, Copy(name, l.bases[name]), Relocate(w, l, name, k), copies')
    decreases |Unloaded(w, l)|, 2, |w.files[name].relas| - k
  {
    var f, base := w.files[name], l.bases[name];
    if k == |f.relas| {
      copies' := copies;
    } else {
      var r := Resolve(w, l, name, f.relas[k].source);
      var copies1 := ResolveTurn(w, l, copies, name, k);
      if r.Missing? || Apply(w, r.l, name, f.relas[k], r.addr).Refused? {
        copies' := copies1;
        LoopStops(w, l, copies, name, k, copies1);
      } else {
        var l2 := Apply(w, r.l, name, f.relas[k], r.addr).l;
        ApplyLinks(w, r.l, copies1, name, k, r.addr);
        Shrinks(w, l, l2);
        copies' := RelocateLinks(w, l2, copies1, name, k + 1);
        LoopGoesOn(w, l, copies, name, k, copies1, copies');
      }
    }
  }

  /** The object at `base` is linked up to `k` and the symbol of its next relocation was looked for. */
  ghost predicate TurnBegun(w: World, l: State, copies: set<Copy>, name: string, k: nat, copies': set<Copy>)
    requires name in w.files && name in l.bases && k < |w.files[name].relas|
  {
    var r := Resolve(w, l, name, w.files[name].relas[k].source);
    && copies <= copies' && Inv(w, r.l, copies') && KeepsBases(l, r.l) && Copy(name, l.bases[name]) in copies
    && Grown(l, r.l, l.bases[name], l.bases[name] + Size(w, name))
    && LinkedTo(w, w.files[name], r.l.mem, copies', l.bases[name], k)
    && NewLinked(w, r.l.mem, copies, copies', r.Found?)
    && (copies == Reg(l) ==> copies' == Reg(r.l))
  }

  /** While a relocation's symbol is looked for, the object itself stays as it is. */
  lemma {:induction false} ResolveTurn(w: World, l: State, copies: set<Copy>, name: string, k: nat) returns (copies': set<Copy>)
    requires WorldOk(w) && Inv(w, l, copies) && name in w.files && name in l.bases && k < |w.files[name].relas|
    requires LinkedTo(w, w.files[name], l.mem, copies, l.bases[name], k)
    ensures TurnBegun(w, l, copies, name, k, copies')
    ensures
      var r := Resolve(w, l, name, w.files[name].relas[k].source);
      r.Found? ==> SourceOf(w, copies', l.bases[name], w.files[name].relas[k].source, r.addr)
    decreases |Unloaded(w, l)|, 1, 1
  {
    var f, base := w.files[name], l.bases[name];
    var l1 := Resolve(w, l, name, f.relas[k].source).l;
    copies' := ResolveLinks(w, l, copies, name, f.relas[k].source);
    assert Copy(name, base) in copies && CopyOk(w, l, Copy(name, base));
    LinkedToStays(w, f, l, l1, copies, copies', base, k, 0, 0);
    GrownWider(l, l1, base, base + Size(w, name));
  }

  lemma LoopStops(w: World, l: State, copies: set<Copy>, name: string, k: nat, copies1: set<Copy>)
    requires name in w.files && name in l.bases && k < |w.files[name].relas| && TurnBegun(w, l, copies, name, k, copies1)
    requires
      var r := Resolve(w, l, name, w.files[name].relas[k].source);
      r.Missing? || Apply(w, r.l, name, w.files[name].relas[k], r.addr).Refused?
    ensures LoopDone(w, l, copies, Copy(name, l.bases[name]), Relocate(w, l, name, k), copies1)
  {
    var r := Resolve(w, l, name, w.files[name].relas[k].source);
    if r.Found? {
      NewLinkedWeaken(w, r.l.mem, copies, copies1);
    }
  }

  lemma LoopGoesOn(w: World, l: State, copies: set<Copy>, name: string, k: nat, copies1: set<Copy>, copies': set<Copy>)
    requires name in w.files && name in l.bases && k < |w.files[name].relas| && TurnBegun(w, l, copies, name, k, copies1)
    requires
      var r := Resolve(w, l, name, w.files[name].relas[k].source);
      && r.Found? && Apply(w, r.l, name, w.files[name].relas[k], r.addr).Written?
      && var l2 := Apply(w, r.l, name, w.files[name].relas[k], r.addr).l;
         && Grown(r.l, l2, l.bases[name], l.bases[name] + Size(w, name))
         && LoopDone(w, l2, copies1, Copy(name, l.bases[name]), Relocate(w, l2, name, k + 1), copies')
    ensures LoopDone(w, l, copies, Copy(name, l.bases[name]), Relocate(w, l, name, k), copies')
  {
    var r, self := Resolve(w, l, name, w.files[name].relas[k].source), Copy(name, l.bases[name]);
    var l2 := Apply(w, r.l, name, w.files[name].relas[k], r.addr).l;
    RelocateNext(w, l, name, k, r.l, r.addr, l2);
    TurnJoins(w, l, r.l, l2, Relocate(w, l2, name, k + 1), copies, copies1, copies', self);
  }

  lemma TurnJoins(w: World, l: State, l1: State, l2: State, r: Result,
                  copies: set<Copy>, copies1: set<Copy>, copies': set<Copy>, self: Copy)
    requires self in copies && copies <= copies1 && Inv(w, l1, copies1) && l2.bases == l1.bases
    requires LoopDone(w, l2, copies1, self, r, copies')
    requires
      var lo, hi := self.base, self.base + Size(w, self.name);
      Grown(l, l1, lo, hi) && Grown(l1, l2, lo, hi)
    requires NewLinked(w, l1.mem, copies, copies1, true) && KeepsBases(l, l1) && (copies == Reg(l) ==> copies1 == Reg(l1))
    ensures LoopDone(w, l, copies, self, r, copies')
  {
    var lo, hi := self.base, self.base + Size(w, self.name);
    assert Reg(l2) == Reg(l1);
    GrownTrans(l1, l2, r.l, lo, hi);
    GrownTrans(l, l1, r.l, lo, hi);
    NewLinkedTrans(w, l1, r.l, copies, copies1, copies', r.status == Fine, self, lo, hi);
  }

  lemma {:induction false} ResolveLinks(w: World, l: State, copies: set<Copy>, name: string, source: Source) returns (copies': set<Copy>)
    requires WorldOk(w) && Inv(w, l, copies) && name in w.files && name in l.bases
    ensures
      var r := Resolve(w, l, name, source);
      && copies <= copies' && Inv(w, r.l, copies') && Grown(l, r.l, 0, 0) && KeepsBases(l, r.l)
      && NewLinked(w, r.l.mem, copies, copies', r.Found?)
      && (r.Found? ==> SourceOf(w, copies', l.bases[name], source, r.addr))
      && (copies == Reg(l) ==> copies' == Reg(r.l))
    decreases |Unloaded(w, l)|, 1, 0
  {
    if source.External? && source.symbol !in l.symbols {
      copies' := SearchLinks(w, l, copies, source.symbol, if source.symbol in w.owners then w.owners[source.symbol] else []);
    } else {
      copies' := copies;
    }
  }

  lemma {:induction false} SearchLinks(w: World, l: State, copies: set<Copy>, symbol: string, names: seq<string>) returns (copies': set<Copy>)
    requires WorldOk(w) && Inv(w, l, copies)
    ensures
      var r := Search(w, l, symbol, names);
      && copies <= copies' && Inv(w, r.l, copies') && Grown(l, r.l, 0, 0) && KeepsBases(l, r.l)
      && NewLinked(w, r.l.mem, copies, copies', r.Found?)
      && (r.Found? ==> Defined(w, copies', symbol, r.addr))
      && (copies == Reg(l) ==> copies' == Reg(r.l))
    decreases |Unloaded(w, l)|, 0, |names|
  {
    if names == [] || (names[0] !in l.bases && names[0] !in w.files) {
      copies' := copies;
    } else if names[0] in l.bases {
      copies' := SearchLinks(w, l, copies, symbol, names[1..]);
    } else {
      ShrinksBy(w, l, names[0]);
      var Result(status, l1) := Load(w, l, names[0]);
      var copies1 := LoadLinks(w, l, copies, names[0]);
      if status != Fine || symbol in l1.symbols {
        copies' := copies1;
      } else {
        Shrinks(w, l, l1);
        copies' := SearchLinks(w, l1, copies1, symbol, names[1..]);
        var r := Search(w, l1, symbol, names[1..]);
        GrownTrans(l, l1, r.l, 0, 0);
        NewLinkedTrans(w, l1, r.l, copies, copies1, copies', r.Found?, Copy(names[0], 0), 0, 0);
      }
    }
  }

  // --- What follows ----------------------------------------------------------------------------------------

  /**
    An error does not undo the registration: whatever made the load fail, the object stays
    registered with only its first relocations applied, and later references to its symbols succeed.
   */
  lemma FailedLoadStaysRegistered(w: World, l: State, copies: set<Copy>, name: string, other: string, symbol: string)
    requires WorldOk(w) && Inv(w, l, copies) && name in w.files && Load(w, l, name).status != Fine
    requires other in w.files && other in Load(w, l, name).l.bases && symbol in w.files[name].globals
    ensures
      var l' := Load(w, l, name).l;
      && name in l'.bases && Resolve(w, l', other, External(symbol)).Found?
      && exists copies' :: Inv(w, l', copies') && Linked(w, l'.mem, copies', Copy(name, l'.bases[name]), false)
  {
    var copies' := LoadLinks(w, l, copies, name);
  }

  // --- The address of a symbol -----------------------------------------------------------------------------

  ghost predicate OneDefiner(w: World, names: set<string>, symbol: string) {
    forall n, m {:trigger w.files[n], w.files[m]} ::
      n in names && m in names && n in w.files && m in w.files && symbol in w.files[n].globals && symbol in w.files[m].globals ==> n == m
  }

  /** Every registered object is completely relocated, against registered objects only. */
  ghost predicate Complete(w: World, l: State) {
    Inv(w, l, Reg(l)) && forall n {:trigger l.bases[n]} :: n in l.bases ==> Linked(w, l.mem, Reg(l), Copy(n, l.bases[n]), true)
  }

  /** A window's address is that of its symbol, if only one registered object defines it. */
  lemma OneDefinerOneAddress(w: World, l: State, base: nat, symbol: string, a: nat)
    requires Inv(w, l, Reg(l)) && OneDefiner(w, l.bases.Keys, symbol) && SourceOf(w, Reg(l), base, External(symbol), a)
    ensures symbol in l.symbols && a == l.symbols[symbol]
  {
    var c :| c in Reg(l) && Defines(w, c, symbol, a);
    assert CopyOk(w, l, c);
    assert Defined(w, Reg(l), symbol, l.symbols[symbol]);
    var d :| d in Reg(l) && Defines(w, d, symbol, l.symbols[symbol]);
    assert w.files[c.name] == w.files[d.name];
  }

  /** The address a relocation asks for: a place in the object itself, or the symbol's address in the registry. */
  function Target(l: State, base: nat, source: Source): (a: nat)
    requires source.External? ==> source.symbol in l.symbols
  {
    match source case Local(offset) => base + offset case External(symbol) => l.symbols[symbol]
  }

  /** In a complete loader every window holds S+A, or S+A-P, for the address S of its own symbol. */
  lemma CompleteAddresses(w: World, l: State, n: string, i: nat)
    requires Complete(w, l) && n in l.bases && n in w.files && i < |w.files[n].relas|
    requires
      var source := w.files[n].relas[i].source;
      source.External? ==> OneDefiner(w, l.bases.Keys, source.symbol)
    ensures
      var rela := w.files[n].relas[i];
      var place := l.bases[n] + rela.offset;
      && (rela.source.External? ==> rela.source.symbol in l.symbols) && Mapped(l.mem, place, 8)
      && Resolves(rela, Target(l, l.bases[n], rela.source), place, Fetch(l.mem, place))
  {
    var f, base := w.files[n], l.bases[n];
    assert Linked(w, l.mem, Reg(l), Copy(n, base), true);
    assert LinkedTo(w, f, l.mem, Reg(l), base, |f.relas|);
    assert Applied(w, f, l.mem, Reg(l), base, f.relas[i]);
    var a: nat :| SourceOf(w, Reg(l), base, f.relas[i].source, a)
                  && Resolves(f.relas[i], a, base + f.relas[i].offset, Fetch(l.mem, base + f.relas[i].offset));
    if f.relas[i].source.External? {
      OneDefinerOneAddress(w, l, base, f.relas[i].source.symbol, a);
    }
  }

  /** A successful load of an object not loaded before completes it, and keeps all others complete. */
  lemma LoadCompletes(w: World, l: State, name: string)
    requires WorldOk(w) && Complete(w, l) && name in w.files && name !in l.bases && Load(w, l, name).status == Fine
    ensures Complete(w, Load(w, l, name).l)
  {
    var l' := Load(w, l, name).l;
    var copies' := LoadLinks(w, l, Reg(l), name);
    forall n | n in l'.bases ensures Linked(w, l'.mem, Reg(l'), Copy(n, l'.bases[n]), true) {
      var c := Copy(n, l'.bases[n]);
      assert c in Reg(l');
      if c in Reg(l) {
        assert Linked(w, l.mem, Reg(l), Copy(n, l.bases[n]), true) && CopyOk(w, l, c);
        LinkedStays(w, l, l', Reg(l), Reg(l'), c, true, 0, 0);
      }
    }
  }

  /** Loads one after the other, each of an object that is not registered, all successful. */
  ghost predicate AllLoad(w: World, l: State, names: seq<string>)
    decreases |names|
  {
    names == [] ||
    (names[0] in w.files && names[0] !in l.bases && Load(w, l, names[0]).status == Fine && AllLoad(w, Load(w, l, names[0]).l, names[1..]))
  }

  ghost function LoadAll(w: World, l: State, names: seq<string>): (l': State)
    requires AllLoad(w, l, names)
    decreases |names|
  {
    if names == [] then l else LoadAll(w, Load(w, l, names[0]).l, names[1..])
  }

  lemma {:induction false} LoadAllCompletes(w: World, l: State, names: seq<string>)
    requires WorldOk(w) && Complete(w, l) && AllLoad(w, l, names)
    ensures Complete(w, LoadAll(w, l, names))
    decreases |names|
  {
    if names == [] {
    } else {
      LoadCompletes(w, l, names[0]);
      LoadAllCompletes(w, Load(w, l, names[0]).l, names[1..]);
    }
  }

  /**
    From an empty loader, after any loads: every window of every object, asked for or brought in
    on the way, holds the value for its own symbol's address, if no two objects define the symbol.
   */
  lemma LoadedAddresses(w: World, next: nat, names: seq<string>, n: string, i: nat)
    requires WorldOk(w) && AllLoad(w, State(map[], map[], map[], next), names)
    requires n in LoadAll(w, State(map[], map[], map[], next), names).bases && n in w.files && i < |w.files[n].relas|
    requires
      var source := w.files[n].relas[i].source;
      source.External? ==> OneDefiner(w, w.files.Keys, source.symbol)
    ensures
      var l := LoadAll(w, State(map[], map[], map[], next), names);
      var rela := w.files[n].relas[i];
      var place := l.bases[n] + rela.offset;
      && (rela.source.External? ==> rela.source.symbol in l.symbols) && Mapped(l.mem, place, 8)
      && Resolves(rela, Target(l, l.bases[n], rela.source), place, Fetch(l.mem, place))
  {
    var empty := State(map[], map[], map[], next);
    assert Reg(empty) == {};
    assert Complete(w, empty);
    LoadAllCompletes(w, empty, names);
    CompleteAddresses(w, LoadAll(w, empty, names), n, i);
  }

  // --- When a symbol moves -----------------------------------------------------------------------------------

  ghost predicate NewDefiner(w: World, l: State, l': State, s: string) {
    exists n :: n in l'.bases && n !in l.bases && n in w.files && s in w.files[n].globals
  }

  /** A symbol keeps its address unless an object registered meanwhile defines it. */
  ghost predicate SymbolsMove(w: World, l: State, l': State) {
    && l.next <= l'.next && KeepsBases(l, l')
    && forall s {:trigger l'.symbols[s]} {:trigger l.symbols[s]} :: s in l.symbols ==>
         && s in l'.symbols
         && (NewDefiner(w, l, l', s) ==> l.next <= l'.symbols[s])
         && (!NewDefiner(w, l, l', s) ==> l'.symbols[s] == l.symbols[s])
  }

  lemma MovesTrans(w: World, a: State, b: State, c: State)
    requires SymbolsMove(w, a, b) && SymbolsMove(w, b, c)
    ensures SymbolsMove(w, a, c)
  {
    forall s | s in a.symbols
      ensures s in c.symbols && (NewDefiner(w, a, c, s) ==> a.next <= c.symbols[s]) && (!NewDefiner(w, a, c, s) ==> c.symbols[s] == a.symbols[s])
    {
      assert s in b.symbols;
      NewDefinerSplits(w, a, b, c, s);
    }
  }

  lemma NewDefinerSplits(w: World, a: State, b: State, c: State, s: string)
    requires KeepsBases(a, b) && KeepsBases(b, c)
    ensures NewDefiner(w, a, c, s) <==> NewDefiner(w, a, b, s) || NewDefiner(w, b, c, s)
  {
    if n :| n in c.bases && n !in a.bases && n in w.files && s in w.files[n].globals {
      assert n in b.bases || n !in b.bases;
    }
    if n :| n in b.bases && n !in a.bases && n in w.files && s in w.files[n].globals {
      assert n in c.bases;
    }
    if n :| n in c.bases && n !in b.bases && n in w.files && s in w.files[n].globals {
      assert n !in a.bases;
    }
  }

  lemma RegisterMoves(w: World, l: State, name: string)
    requires name in w.files && name !in l.bases
    ensures SymbolsMove(w, l, Register(w, l, name))
  {
    var l' := Register(w, l, name);
    forall s | s in l.symbols ensures NewDefiner(w, l, l', s) <==> s in w.files[name].globals {
      if s in w.files[name].globals {
        assert name in l'.bases;
      }
    }
  }

  lemma {:induction false} LoadMoves(w: World, l: State, name: string)
    requires name in w.files && name !in l.bases
    ensures SymbolsMove(w, l, Load(w, l, name).l)
    decreases |Unloaded(w, l) - {name}|, 3, 0
  {
    RegisterMoves(w, l, name);
    RelocateMoves(w, Register(w, l, name), name, 0);
    MovesTrans(w, l, Register(w, l, name), Load(w, l, name).l);
  }

  lemma {:induction false} RelocateMoves(w: World, l: State, name: string, k: nat)
    requires name in w.files && name in l.bases && k <= |w.files[name].relas|
    ensures SymbolsMove(w, l, Relocate(w, l, name, k).l)
    decreases |Unloaded(w, l)|, 2, |w.files[name].relas| - k
  {
    var relas := w.files[name].relas;
    if k < |relas| {
      ResolveMoves(w, l, name, relas[k].source);
      var r := Resolve(w, l, name, relas[k].source);
      if r.Found? && Apply(w, r.l, name, relas[k], r.addr).Written? {
        var l2 := Apply(w, r.l, name, relas[k], r.addr).l;
        Shrinks(w, l, l2);
        RelocateMoves(w, l2, name, k + 1);
        MovesTrans(w, l, l2, Relocate(w, l2, name, k + 1).l);
      }
    }
  }

  lemma {:induction false} ResolveMoves(w: World, l: State, name: string, source: Source)
    requires name in w.files && name in l.bases
    ensures SymbolsMove(w, l, Resolve(w, l, name, source).l)
    decreases |Unloaded(w, l)|, 1, 0
  {
    if source.External? && source.symbol !in l.symbols {
      SearchMoves(w, l, source.symbol, if source.symbol in w.owners then w.owners[source.symbol] else []);
    }
  }

  lemma {:induction false} SearchMoves(w: World, l: State, symbol: string, names: seq<string>)
    ensures SymbolsMove(w, l, Search(w, l, symbol, names).l)
    decreases |Unloaded(w, l)|, 0, |names|
  {
    if names == [] || (names[0] !in l.bases && names[0] !in w.files) {
    } else if names[0] in l.bases {
      SearchMoves(w, l, symbol, names[1..]);
    } else {
      ShrinksBy(w, l, names[0]);
      LoadMoves(w, l, names[0]);
      var Result(status, l1) := Load(w, l, names[0]);
      if status == Fine && symbol !in l1.symbols {
        Shrinks(w, l, l1);
        SearchMoves(w, l1, symbol, names[1..]);
        MovesTrans(w, l, l1, Search(w, l1, symbol, names[1..]).l);
      }
    }
  }

  /**
    A load, successful or not, moves a known symbol exactly if an object it registers defines
    the symbol again; relocations done before keep the old address.
   */
  lemma SymbolMovesIff(w: World, l: State, name: string, symbol: string)
    requires name in w.files && name !in l.bases && symbol in l.symbols && l.symbols[symbol] < l.next
    ensures
      var l' := Load(w, l, name).l;
      symbol in l'.symbols && (l'.symbols[symbol] != l.symbols[symbol] <==> NewDefiner(w, l, l', symbol))
  {
    LoadMoves(w, l, name);
  }

  /** A second object that defines a symbol takes it over: later windows hold another address than earlier ones. */
  lemma SecondDefinerWins(w: World, l: State, name: string, second: string, symbol: string, missing: string)
    requires name in w.files && name in l.bases && second in w.files && second !in l.bases && w.files[second].relas == []
    requires symbol in l.symbols && missing !in l.symbols && missing in w.owners && w.owners[missing] == [second]
    requires symbol in w.files[second].globals && missing in w.files[second].globals && l.symbols[symbol] < l.next
    ensures
      var before := Resolve(w, l, name, External(symbol));
      var l1 := Resolve(w, l, name, External(missing)).l;
      var after := Resolve(w, l1, name, External(symbol));
      before.Found? && after.Found? && before.addr < l.next <= after.addr
  {
    var l1 := Register(w, l, second);
    assert Load(w, l, second) == Result(Fine, l1);
    ShrinksBy(w, l, second);
    assert Search(w, l, missing, [second]) == Found(l1, l1.symbols[missing]);
  }
}

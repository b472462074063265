/**
  Linking: loading an object registers it, then relocates it; a relocation against an unknown
  symbol loads, in the middle of the loop, the objects that may define it.
 */
module LoaderLinking {
  import opened Alignment
  import opened Sequences
  import opened Options

  // --- Eight bytes, little-endian --------------------------------------------------------------------

  function Pow256(n: nat): (p: nat)
    ensures p > 0
  {
    if n == 0 then 1 else 256 * Pow256(n - 1)
  }

  function Encode(v: nat, n: nat): (b: seq<nat>)
    ensures |b| == n
  {
    if n == 0 then [] else [v % 256] + Encode(v / 256, n - 1)
  }

  function Decode(b: seq<nat>): (v: nat) {
    if b == [] then 0 else b[0] + 256 * Decode(b[1..])
  }

  lemma {:induction false} DecodeEncode(v: nat, n: nat)
    requires v < Pow256(n)
    ensures Decode(Encode(v, n)) == v
  {
    if n > 0 {
      DecodeEncode(v / 256, n - 1);
      assert Encode(v, n)[1..] == Encode(v / 256, n - 1);
    }
  }

  lemma WordIsEightBytes()
    ensures Pow256(8) == WORD
  {
    assert Pow256(2) == 0x1_0000;
    assert Pow256(4) == 0x1_0000_0000;
    assert Pow256(6) == 0x1_0000_0000_0000;
  }

  type Memory = map<nat, nat>

  ghost predicate Mapped(mem: Memory, p: nat, n: nat) {
    forall a: nat :: p <= a < p + n ==> a in mem
  }

  function Store(mem: Memory, p: nat, v: nat): (mem': Memory) {
    map a | a in mem :: if p <= a < p + 8 then Encode(v, 8)[a - p] else mem[a]
  }

  function Fetch(mem: Memory, p: nat): (v: nat)
    requires Mapped(mem, p, 8)
  {
    Decode(seq(8, i requires 0 <= i < 8 => mem[p + i]))
  }

  lemma FetchStore(mem: Memory, p: nat, v: nat)
    requires Mapped(mem, p, 8) && v < WORD
    ensures Mapped(Store(mem, p, v), p, 8) && Fetch(Store(mem, p, v), p) == v
  {
    WordIsEightBytes();
    DecodeEncode(v, 8);
    var mem' := Store(mem, p, v);
    assert seq(8, i requires 0 <= i < 8 => mem'[p + i]) == Encode(v, 8);
  }

  lemma {:induction false} EncodeAt(v: nat, n: nat, i: nat)
    requires i < n
    ensures Encode(v, n)[i] == v / Pow256(i) % 256
    decreases n
  {
    if i > 0 {
      EncodeAt(v / 256, n - 1, i - 1);
      assert Encode(v, n)[i] == Encode(v / 256, n - 1)[i - 1];
      DivDiv(v, 256, Pow256(i - 1));
    }
  }

  lemma DivDiv(v: nat, a: nat, b: nat)
    requires a > 0 && b > 0
    ensures a * b > 0 && v / a / b == v / (a * b)
  {
    var q, r := v / a, v % a;
    var s, t := q / b, q % b;
    DivModOf(v, a);
    DivModOf(q, b);
    assert v == (s * b + t) * a + r == s * (a * b) + (t * a + r);
    assert t * a + r < a * b by {
      MulAtLeast(b - t, a);
      assert (b - t) * a == b * a - t * a;
    }
    DivModUnique(v, a * b, s, t * a + r);
  }

  /** A store puts the eight bytes of the value in ascending order, the lowest first, and touches nothing else. */
  lemma StoredBytes(mem: Memory, p: nat, v: nat)
    ensures Store(mem, p, v).Keys == mem.Keys
    ensures forall a: nat :: a in mem ==>
              Store(mem, p, v)[a] == if p <= a < p + 8 then v / Pow256(a - p) % 256 else mem[a]
  {
    forall a: nat | a in mem && p <= a < p + 8 ensures Store(mem, p, v)[a] == v / Pow256(a - p) % 256 {
      EncodeAt(v, 8, a - p);
    }
  }

  lemma FetchSame(mem: Memory, mem': Memory, p: nat)
    requires Mapped(mem, p, 8) && Mapped(mem', p, 8)
    requires forall a: nat :: p <= a < p + 8 ==> mem'[a] == mem[a]
    ensures Fetch(mem', p) == Fetch(mem, p)
  {
    assert seq(8, i requires 0 <= i < 8 => mem'[p + i]) == seq(8, i requires 0 <= i < 8 => mem[p + i]);
  }

  // --- Objects ----------------------------------------------------------------------------------------

  const R_X86_64_64 := 1
  const R_X86_64_PC64 := 24

  datatype Source = Local(offset: nat) | External(symbol: string)

  datatype Rela = Rela(kind: nat, offset: nat, source: Source, value: nat, addend: nat)

  datatype File = File(bytes: seq<nat>, globals: map<string, nat>, relas: seq<Rela>)

  /** The object provider, and the objects whose names occur in each symbol's name. */
  datatype World = World(files: map<string, File>, owners: map<string, seq<string>>)

  /** The loader: base addresses of registered objects, global symbols, memory, and the next free address. */
  datatype State = State(bases: map<string, nat>, symbols: map<string, nat>, mem: Memory, next: nat)

  /** How a load ended, and the loader it left. */
  datatype Result = Result(status: Status, l: State)

  datatype Lookup = Found(l: State, addr: nat) | Missing(status: Status, l: State)

  datatype Write = Written(l: State) | Refused(status: Status)

  function Unloaded(w: World, l: State): (s: set<string>) {
    w.files.Keys - l.bases.Keys
  }

  function ByteAt(bytes: seq<nat>, base: nat, a: nat): (b: nat)
    requires base <= a < base + |bytes|
  {
    bytes[a - base]
  }

  /** An image at its base address. */
  function Laid(bytes: seq<nat>, base: nat): (mem: Memory) {
    map a: nat | base <= a < base + |bytes| :: ByteAt(bytes, base, a)
  }

  /** The addresses of an object's global symbols. */
  function Globals(f: File, base: nat): (symbols: map<string, nat>) {
    map s | s in f.globals :: base + f.globals[s]
  }

  function Register(w: World, l: State, name: string): (l': State)
    requires name in w.files
    ensures Unloaded(w, l') == Unloaded(w, l) - {name}
  {
    var f := w.files[name];
    State(l.bases[name := l.next],
          l.symbols + Globals(f, l.next),
          l.mem + Laid(f.bytes, l.next),
          l.next + |f.bytes|)
  }

  predicate Supported(kind: nat) {
    kind == R_X86_64_64 || kind == R_X86_64_PC64
  }

  /** The value a relocation asks for, with 64-bit wrap-around. */
  function Relocated(rela: Rela, source: nat, place: nat): (v: nat)
    ensures v < WORD
  {
    if rela.kind == R_X86_64_PC64 then Wrap(source + rela.value + rela.addend - place)
    else Wrap(source + rela.value + rela.addend)
  }

  /** A value as the two relocation types define it, modulo 2^64: S+A for type 1, S+A-P for type 24. */
  ghost predicate Resolves(rela: Rela, source: nat, place: nat, v: nat) {
    && v < 0x1_0000_0000_0000_0000
    && match rela.kind
       case 1 => (v - source - rela.value - rela.addend) % 0x1_0000_0000_0000_0000 == 0
       case 24 => (v + place - source - rela.value - rela.addend) % 0x1_0000_0000_0000_0000 == 0
       case _ => false
  }

  lemma WrapCongruent(x: int)
    ensures (Wrap(x) - x) % 0x1_0000_0000_0000_0000 == 0
  {
    DivModOf(x, WORD);
    assert Wrap(x) - x == (-(x / WORD)) * WORD;
    MultipleMod(-(x / WORD), WORD);
  }

  lemma RelocatedResolves(rela: Rela, source: nat, place: nat)
    requires Supported(rela.kind)
    ensures Resolves(rela, source, place, Relocated(rela, source, place))
  {
    var sum := source + rela.value + rela.addend;
    WrapCongruent(sum);
    WrapCongruent(sum - place);
    if rela.kind == 24 {
      assert Relocated(rela, source, place) + place - source - rela.value - rela.addend == Wrap(sum - place) - (sum - place);
    } else {
      assert Relocated(rela, source, place) - source - rela.value - rela.addend == Wrap(sum) - sum;
    }
  }

  /** `write_relocation`: unsupported types are an error, a window behind the section is a panic. */
  function Apply(w: World, l: State, name: string, rela: Rela, source: nat): (r: Write)
    requires name in w.files && name in l.bases
    ensures r.Written? ==> r.l.bases == l.bases
    ensures r.Refused? ==> r.status != Fine
  {
    if !Supported(rela.kind) then Refused(Error)
    else if rela.offset + 8 > |w.files[name].bytes| then Refused(Panic)
    else
      var place := l.bases[name] + rela.offset;
      Written(State(l.bases, l.symbols, Store(l.mem, place, Relocated(rela, source, place)), l.next))
  }

  /** `load_object_impl`: register, then relocate. */
  function Load(w: World, l: State, name: string): (r: Result)
    requires name in w.files
    ensures l.bases.Keys + {name} <= r.l.bases.Keys
    decreases |Unloaded(w, l) - {name}|, 3, 0
  {
    Relocate(w, Register(w, l, name), name, 0)
  }

  /** `relocate_object_sections` from entry `k` on. */
  function Relocate(w: World, l: State, name: string, k: nat): (r: Result)
    requires name in w.files && name in l.bases && k <= |w.files[name].relas|
    ensures l.bases.Keys <= r.l.bases.Keys
    decreases |Unloaded(w, l)|, 2, |w.files[name].relas| - k
  {
    var relas := w.files[name].relas;
    if k == |relas| then Result(Fine, l)
    else
      match Resolve(w, l, name, relas[k].source)
      case Missing(status, l1) => Result(status, l1)
      case Found(l1, source) =>
        match Apply(w, l1, name, relas[k], source)
        case Refused(status) => Result(status, l1)
        case Written(l2) =>
          Shrinks(w, l, l2);
          Relocate(w, l2, name, k + 1)
  }

  function Resolve(w: World, l: State, name: string, source: Source): (r: Lookup)
    requires name in w.files && name in l.bases
    ensures l.bases.Keys <= r.l.bases.Keys && (r.Missing? ==> r.status != Fine)
    decreases |Unloaded(w, l)|, 1, 0
  {
    match source
    case Local(offset) => Found(l, l.bases[name] + offset)
    case External(symbol) =>
      if symbol in l.symbols then Found(l, l.symbols[symbol])
      else Search(w, l, symbol, if symbol in w.owners then w.owners[symbol] else [])
  }

  /** `get_or_load_section`: load, one by one, the objects that may define a symbol. */
  function Search(w: World, l: State, symbol: string, names: seq<string>): (r: Lookup)
    ensures l.bases.Keys <= r.l.bases.Keys && (r.Missing? ==> r.status != Fine)
    decreases |Unloaded(w, l)|, 0, |names|
  {
    if names == [] then Missing(Error, l)
    else if names[0] in l.bases then Search(w, l, symbol, names[1..])
    else if names[0] !in w.files then Missing(Error, l)
    else
      ShrinksBy(w, l, names[0]);
      var Result(status, l1) := Load(w, l, names[0]);
      if status != Fine then Missing(status, l1)
      else if symbol in l1.symbols then Found(l1, l1.symbols[symbol])
      else
        Shrinks(w, l, l1);
        Search(w, l1, symbol, names[1..])
  }

  /**
    One relocation: an error for any type but 1 and 24, a panic for a window behind the object,
    and otherwise the value that its type asks for in its window and no other change.
   */
  lemma ApplyExact(w: World, l: State, name: string, rela: Rela, source: nat)
    requires name in w.files && name in l.bases && Mapped(l.mem, l.bases[name], |w.files[name].bytes|)
    ensures
      var place := l.bases[name] + rela.offset;
      match Apply(w, l, name, rela, source)
      case Refused(Error) => rela.kind != 1 && rela.kind != 24
      case Refused(Panic) => (rela.kind == 1 || rela.kind == 24) && rela.offset + 8 > |w.files[name].bytes|
      case Refused(Fine) => false
      case Written(l') =>
        && (rela.kind == 1 || rela.kind == 24) && rela.offset + 8 <= |w.files[name].bytes|
        && l'.bases == l.bases && l'.symbols == l.symbols && l'.next == l.next && l'.mem.Keys == l.mem.Keys
        && Mapped(l'.mem, place, 8) && Resolves(rela, source, place, Fetch(l'.mem, place))
        && (forall a: nat :: a in l.mem && !(place <= a < place + 8) ==> l'.mem[a] == l.mem[a])
  {
    if Apply(w, l, name, rela, source).Written? {
      StoreResolves(l.mem, rela, source, l.bases[name] + rela.offset);
    }
  }

  lemma StoreResolves(mem: Memory, rela: Rela, source: nat, place: nat)
    requires Supported(rela.kind) && Mapped(mem, place, 8)
    ensures
      var mem' := Store(mem, place, Relocated(rela, source, place));
      && mem'.Keys == mem.Keys && Mapped(mem', place, 8) && Resolves(rela, source, place, Fetch(mem', place))
      && (forall a: nat :: a in mem && !(place <= a < place + 8) ==> mem'[a] == mem[a])
  {
    var v := Relocated(rela, source, place);
    RelocatedResolves(rela, source, place);
    FetchStore(mem, place, v);
    StoredBytes(mem, place, v);
  }

  // --- When a symbol is found ---------------------------------------------------------------------------

  /** Along the owners of a symbol every object is registered or can be loaded, up to one that defines the symbol. */
  ghost predicate Reachable(w: World, l: State, symbol: string, names: seq<string>)
    decreases |names|
  {
    names != [] &&
    if names[0] in l.bases then Reachable(w, l, symbol, names[1..])
    else
      && names[0] in w.files && Load(w, l, names[0]).status == Fine
      && (symbol in w.files[names[0]].globals || Reachable(w, Load(w, l, names[0]).l, symbol, names[1..]))
  }

  lemma {:induction false} SearchFinds(w: World, l: State, symbol: string, names: seq<string>)
    requires Reachable(w, l, symbol, names)
    ensures Search(w, l, symbol, names).Found?
    decreases |names|
  {
    if names[0] in l.bases {
      SearchFinds(w, l, symbol, names[1..]);
    } else {
      LoadKnows(w, l, names[0]);
      if symbol !in Load(w, l, names[0]).l.symbols {
        SearchFinds(w, Load(w, l, names[0]).l, symbol, names[1..]);
      }
    }
  }

  /** What is found is known afterwards, at the address that is returned. */
  lemma {:induction false} SearchFound(w: World, l: State, symbol: string, names: seq<string>)
    requires Search(w, l, symbol, names).Found?
    ensures var r := Search(w, l, symbol, names); symbol in r.l.symbols && r.addr == r.l.symbols[symbol]
    decreases |names|
  {
    if names[0] in l.bases {
      SearchFound(w, l, symbol, names[1..]);
    } else {
      var l1 := Load(w, l, names[0]).l;
      if symbol !in l1.symbols {
        SearchFound(w, l1, symbol, names[1..]);
      }
    }
  }

  /** An object's globals are known once it is loaded, and symbols are never forgotten. */
  lemma {:induction false} LoadKnows(w: World, l: State, name: string)
    requires name in w.files
    ensures l.symbols.Keys + w.files[name].globals.Keys <= Load(w, l, name).l.symbols.Keys
    decreases |Unloaded(w, l) - {name}|, 3, 0
  {
    RelocateKnows(w, Register(w, l, name), name, 0);
  }

  lemma {:induction false} RelocateKnows(w: World, l: State, name: string, k: nat)
    requires name in w.files && name in l.bases && k <= |w.files[name].relas|
    ensures l.symbols.Keys <= Relocate(w, l, name, k).l.symbols.Keys
    decreases |Unloaded(w, l)|, 2, |w.files[name].relas| - k
  {
    var relas := w.files[name].relas;
    if k < |relas| {
      ResolveKnows(w, l, name, relas[k].source);
      var r := Resolve(w, l, name, relas[k].source);
      if r.Found? && Apply(w, r.l, name, relas[k], r.addr).Written? {
        var l2 := Apply(w, r.l, name, relas[k], r.addr).l;
        Shrinks(w, l, l2);
        RelocateKnows(w, l2, name, k + 1);
      }
    }
  }

  lemma {:induction false} ResolveKnows(w: World, l: State, name: string, source: Source)
    requires name in w.files && name in l.bases
    ensures l.symbols.Keys <= Resolve(w, l, name, source).l.symbols.Keys
    decreases |Unloaded(w, l)|, 1, 0
  {
    if source.External? && source.symbol !in l.symbols {
      SearchKnows(w, l, source.symbol, if source.symbol in w.owners then w.owners[source.symbol] else []);
    }
  }

  lemma {:induction false} SearchKnows(w: World, l: State, symbol: string, names: seq<string>)
    ensures l.symbols.Keys <= Search(w, l, symbol, names).l.symbols.Keys
    decreases |Unloaded(w, l)|, 0, |names|
  {
    if names == [] || (names[0] !in l.bases && names[0] !in w.files) {
    } else if names[0] in l.bases {
      SearchKnows(w, l, symbol, names[1..]);
    } else {
      ShrinksBy(w, l, names[0]);
      LoadKnows(w, l, names[0]);
      var Result(status, l1) := Load(w, l, names[0]);
      if status == Fine && symbol !in l1.symbols {
        Shrinks(w, l, l1);
        SearchKnows(w, l1, symbol, names[1..]);
      }
    }
  }

  lemma RelocateNext(w: World, l: State, name: string, k: nat, l1: State, source: nat, l2: State)
    requires name in w.files && name in l.bases && k < |w.files[name].relas|
    requires Resolve(w, l, name, w.files[name].relas[k].source) == Found(l1, source)
    requires Apply(w, l1, name, w.files[name].relas[k], source) == Written(l2)
    ensures Relocate(w, l, name, k) == Relocate(w, l2, name, k + 1)
  {
  }

  lemma RelocateFails(w: World, l: State, name: string, k: nat, l1: State, status: Status)
    requires name in w.files && name in l.bases && k < |w.files[name].relas|
    requires
      var r := Resolve(w, l, name, w.files[name].relas[k].source);
      r == Missing(status, l1) || (r.Found? && r.l == l1 && Apply(w, l1, name, w.files[name].relas[k], r.addr) == Refused(status))
    ensures Relocate(w, l, name, k) == Result(status, l1)
  {
  }

  lemma Shrinks(w: World, l: State, l': State)
    requires l.bases.Keys <= l'.bases.Keys
    ensures |Unloaded(w, l')| <= |Unloaded(w, l)|
  {
    SubsetSize(Unloaded(w, l'), Unloaded(w, l));
  }

  lemma ShrinksBy(w: World, l: State, name: string)
    requires name in w.files && name !in l.bases
    ensures |Unloaded(w, l) - {name}| < |Unloaded(w, l)|
  {
    SubsetSize(Unloaded(w, l) - {name}, Unloaded(w, l));
  }
}

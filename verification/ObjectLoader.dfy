/** The loader in place: registered objects, symbols and memory, updated by nested loads. */
module ObjectLoader {
  import opened LoaderLinking
  import opened Options

  class Loader {
    const world: World
    var bases: map<string, nat>
    var symbols: map<string, nat>
    var mem: Memory
    var next: nat

    ghost function Value(): (l: State)
      reads this
    {
      State(bases, symbols, mem, next)
    }

    constructor (world: World)
      ensures this.world == world && Value() == State(map[], map[], map[], 0)
    {
      this.world := world;
      bases, symbols, mem, next := map[], map[], map[], 0;
    }

    method LoadObject(name: string) returns (status: Status)
      requires name in world.files
      modifies this
      ensures Load(world, old(Value()), name) == Result(status, Value())
      decreases |Unloaded(world, Value()) - {name}|, 5
    {
      AddObject(name);
      status := RelocateObject(name);
    }

    /** Sections first, symbols next, and the object itself before any relocation. */
    method AddObject(name: string)
      requires name in world.files
      modifies this
      ensures Value() == Register(world, old(Value()), name)
    {
      var f := world.files[name];
      mem := mem + Laid(f.bytes, next);
      symbols := symbols + Globals(f, next);
      bases := bases[name := next];
      next := next + |f.bytes|;
    }

    method WriteRelocation(name: string, rela: Rela, source: nat) returns (status: Status)
      requires name in world.files && name in bases
      modifies this`mem
      ensures Apply(world, old(Value()), name, rela, source) == if status == Fine then Written(Value()) else Refused(status)
      ensures status != Fine ==> Value() == old(Value())
    {
      if !Supported(rela.kind) {
        return Error;
      }
      if rela.offset + 8 > |world.files[name].bytes| {
        return Panic;
      }
      var place := bases[name] + rela.offset;
      mem := Store(mem, place, Relocated(rela, source, place));
      return Fine;
    }

    method FindSource(name: string, source: Source) returns (status: Status, addr: nat)
      requires name in world.files && name in bases
      modifies this
      ensures old(bases.Keys) <= bases.Keys
      ensures Resolve(world, old(Value()), name, source) == Answer(status, Value(), addr)
      decreases |Unloaded(world, Value())|, 2
    {
      match source
      case Local(offset) => status, addr := Fine, bases[name] + offset;
      case External(symbol) => status, addr := GetOrLoadSection(symbol);
    }

    /** One turn of the relocation loop; looking up the source may load other objects. */
    method RelocateOne(name: string, k: nat) returns (status: Status)
      requires name in world.files && name in bases && k < |world.files[name].relas|
      modifies this
      ensures name in bases && |Unloaded(world, Value())| <= |Unloaded(world, old(Value()))|
      ensures Relocate(world, old(Value()), name, k) ==
              if status == Fine then Relocate(world, Value(), name, k + 1) else Result(status, Value())
      decreases |Unloaded(world, Value())|, 3
    {
      var rela := world.files[name].relas[k];
      ghost var l := Value();
      var source;
      status, source := FindSource(name, rela.source);
      ghost var l1 := Value();
      Shrinks(world, l, l1);
      if status != Fine {
        RelocateFails(world, l, name, k, l1, status);
        return;
      }
      status := WriteRelocation(name, rela, source);
      if status == Fine {
        RelocateNext(world, l, name, k, l1, source, Value());
      } else {
        RelocateFails(world, l, name, k, l1, status);
      }
    }

    /** Apply every relocation of an object in turn. */
    method RelocateObject(name: string) returns (status: Status)
      requires name in world.files && name in bases
      modifies this
      ensures Relocate(world, old(Value()), name, 0) == Result(status, Value())
      decreases |Unloaded(world, Value())|, 4
    {
      ghost var l0 := Value();
      for k := 0 to |world.files[name].relas|
        invariant name in bases && |Unloaded(world, Value())| <= |Unloaded(world, l0)|
        invariant Relocate(world, l0, name, 0) == Relocate(world, Value(), name, k)
      {
        status := RelocateOne(name, k);
        if status != Fine {
          return;
        }
      }
      return Fine;
    }

    /** The address of a global symbol, loading the objects named in it until one defines it. */
    method GetOrLoadSection(symbol: string) returns (status: Status, addr: nat)
      modifies this
      ensures old(bases.Keys) <= bases.Keys
      ensures Resolved(world, old(Value()), symbol) == Answer(status, Value(), addr)
      decreases |Unloaded(world, Value())|, 1
    {
      status, addr := Error, 0;
      if symbol in symbols {
        return Fine, symbols[symbol];
      }
      var names := if symbol in world.owners then world.owners[symbol] else [];
      ghost var l0 := Value();
      assert names[0..] == names;
      for i := 0 to |names|
        invariant l0.bases.Keys <= bases.Keys && status == Error
        invariant Search(world, l0, symbol, names) == Search(world, Value(), symbol, names[i..])
      {
        var name := names[i];
        assert names[i..][0] == name && names[i..][1..] == names[i + 1..];
        if name !in bases {
          if name !in world.files {
            return;
          }
          Shrinks(world, l0, Value());
          ShrinksBy(world, Value(), name);
          var loaded := LoadObject(name);
          if loaded != Fine {
            return loaded, 0;
          }
          if symbol in symbols {
            return Fine, symbols[symbol];
          }
        }
      }
    }
  }

  /** A lookup as the methods report it. */
  function Answer(status: Status, l: State, addr: nat): (r: Lookup) {
    if status == Fine then Found(l, addr) else Missing(status, l)
  }

  /** The lookup of an external symbol. */
  function Resolved(w: World, l: State, symbol: string): (r: Lookup) {
    if symbol in l.symbols then Found(l, l.symbols[symbol])
    else Search(w, l, symbol, if symbol in w.owners then w.owners[symbol] else [])
  }
}

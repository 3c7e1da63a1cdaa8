/**
 The analysis session: targets being loaded and unloaded, the providers and plugins whose
 modules a session keeps in memory, and the registration calls that are refused during one.
 */
module Session {
  import opened Basics
  import opened HandlerIndex

  type Module = nat

  const ROLES := 3  // event handlers, storage allocator, hooks

  ghost function Owners(plugins: seq<Plugin>): multiset<Module>
    requires forall k :: 0 <= k < |plugins| ==> plugins[k].owner.Some?
  {
    if plugins == [] then multiset{}
    else Owners(plugins[..|plugins| - 1]) + multiset{plugins[|plugins| - 1].owner.value}
  }

  lemma NextOwner(plugins: seq<Plugin>, k: nat)
    requires k < |plugins| && forall j :: 0 <= j < |plugins| ==> plugins[j].owner.Some?
    ensures Owners(plugins[..0]) == multiset{}
    ensures Owners(plugins[..k + 1]) == Owners(plugins[..k]) + multiset{plugins[k].owner.value}
  {
    assert plugins[..k + 1][..k] == plugins[..k];
  }

  lemma NextRole(providers: seq<Module>, k: nat)
    requires k < |providers|
    ensures Roles(providers, k + 1) == Roles(providers, k) + multiset{providers[k]}
  {
    assert providers[..k + 1] == providers[..k] + [providers[k]];
  }

  ghost function Roles(providers: seq<Module>, n: nat): multiset<Module>
    requires n <= |providers|
  {
    multiset(providers[..n])
  }

  lemma AllRoles(providers: seq<Module>)
    ensures Roles(providers, 0) == multiset{} && Roles(providers, |providers|) == multiset(providers)
  {
    assert providers[..|providers|] == providers;
  }

  /** One reference for each role and each plugin. */
  ghost function Held(providers: seq<Module>, plugins: seq<Plugin>): multiset<Module>
    requires forall k :: 0 <= k < |plugins| ==> plugins[k].owner.Some?
  {
    multiset(providers) + Owners(plugins)
  }

  /** A session holds a module once for each role it provides and once for each plugin it owns. */
  lemma {:induction false} HeldCount(providers: seq<Module>, plugins: seq<Plugin>, m: Module)
    requires forall k :: 0 <= k < |plugins| ==> plugins[k].owner.Some?
    ensures Held(providers, plugins)[m] ==
            |set k | 0 <= k < |providers| && providers[k] == m| +
            |set k | 0 <= k < |plugins| && plugins[k].owner == Some(m)|
  {
    ProviderCount(providers, m);
    OwnerCount(plugins, m);
  }

  lemma {:induction false} ProviderCount(providers: seq<Module>, m: Module)
    ensures multiset(providers)[m] == |set k | 0 <= k < |providers| && providers[k] == m|
    decreases |providers|
  {
    if providers != [] {
      var n := |providers| - 1;
      ProviderCount(providers[..n], m);
      assert providers == providers[..n] + [providers[n]];
      var a := set k | 0 <= k < n && providers[..n][k] == m;
      var b := set k | 0 <= k < |providers| && providers[k] == m;
      assert b == if providers[n] == m then a + {n} else a;
    }
  }

  lemma {:induction false} OwnerCount(plugins: seq<Plugin>, m: Module)
    requires forall k :: 0 <= k < |plugins| ==> plugins[k].owner.Some?
    ensures Owners(plugins)[m] == |set k | 0 <= k < |plugins| && plugins[k].owner == Some(m)|
    decreases |plugins|
  {
    if plugins != [] {
      var n := |plugins| - 1;
      OwnerCount(plugins[..n], m);
      var a := set k | 0 <= k < n && plugins[..n][k].owner == Some(m);
      var b := set k | 0 <= k < |plugins| && plugins[k].owner == Some(m);
      assert b == if plugins[n].owner == Some(m) then a + {n} else a;
    }
  }

  // ------------------------------------------------------------------ targets

  /** Known targets by name with the module if it is loaded, which are instrumented, per-target data. */
  datatype Targets = Targets(known: map<nat, Option<Module>>, instrumented: set<nat>, data: seq<Module>)

  ghost function Loaded(t: Targets): set<nat> { set n | n in t.known && t.known[n].Some? }

  ghost predicate Instruments(t: Targets, n: nat, m: Module) {
    n in t.known && t.known[n] == Some(m) && n in t.instrumented
  }

  ghost predicate Distinct(data: seq<Module>) { forall i, j :: 0 <= i < j < |data| ==> data[i] != data[j] }

  /** Each module is one target's; per-target data belongs to instrumented targets, once each. */
  ghost predicate Orderly(t: Targets) {
    && t.instrumented <= Loaded(t)
    && (forall n, n' :: n in Loaded(t) && n' in Loaded(t) && t.known[n] == t.known[n'] ==> n == n')
    && Distinct(t.data)
    && (forall m :: m in t.data ==> exists n :: Instruments(t, n, m))
  }

  /** The target `name` is there as `mod`; `processed`: instrumented; `item`: with per-target data. */
  function Arrived(t: Targets, name: nat, mod: Module, processed: bool, item: bool): Targets {
    Targets(t.known[name := Some(mod)], if processed then t.instrumented + {name} else t.instrumented,
            if item then [mod] + t.data else t.data)
  }

  /** One target more, instrumented if that succeeded, and then with data of its own if there can be any. */
  ghost predicate Joined(t: Targets, t': Targets, name: nat, mod: Module, processed: bool, data: bool) {
    && t'.known == t.known[name := Some(mod)]
    && (forall n :: n in t'.instrumented <==> n in t.instrumented || (n == name && processed))
    && (forall m :: m in t'.data <==> m in t.data || (m == mod && processed && data))
  }

  /** One target less, and nothing left of it. */
  ghost predicate Gone(t: Targets, t': Targets, name: nat)
    requires name in t.known
  {
    && t'.known == t.known[name := None] && t'.instrumented == t.instrumented - {name}
    && (forall m :: m in t'.data <==> m in t.data && Some(m) != t.known[name])
  }

  lemma Arrives(t: Targets, name: nat, mod: Module, processed: bool, item: bool)
    requires Orderly(t) && (name in t.known ==> t.known[name].None?)
    requires forall n :: n in t.known ==> t.known[n] != Some(mod)
    requires item ==> processed
    ensures var t' := Arrived(t, name, mod, processed, item);
            Orderly(t') && Loaded(t') == Loaded(t) + {name} && name !in Loaded(t) && mod !in t.data
  {
    var t' := Arrived(t, name, mod, processed, item);
    assert Loaded(t') == Loaded(t) + {name};
    assert forall n :: !Instruments(t, n, mod);
    forall m | m in t'.data
      ensures exists n :: Instruments(t', n, m)
    {
      if m in t.data {
        var n :| Instruments(t, n, m);
        assert Instruments(t', n, m);
      } else {
        assert Instruments(t', name, m);
      }
    }
    FrontDistinct(t.data, mod);
  }

  lemma Departs(t: Targets, name: nat, mod: Module, data: seq<Module>)
    requires Orderly(t) && name in t.known && t.known[name] == Some(mod)
    requires Distinct(data) && forall m :: m in data <==> m in t.data && m != mod
    ensures var t' := Targets(t.known[name := None], t.instrumented - {name}, data);
            Orderly(t') && Loaded(t') == Loaded(t) - {name} && name in Loaded(t)
  {
    var t' := Targets(t.known[name := None], t.instrumented - {name}, data);
    assert name in Loaded(t) && Loaded(t') == Loaded(t) - {name};
    forall m | m in data
      ensures exists n :: Instruments(t', n, m)
    {
      var n :| Instruments(t, n, m);
      assert Instruments(t', n, m);
    }
  }

  /** The data of a target that was not instrumented does not exist. */
  lemma NoData(t: Targets, name: nat, mod: Module)
    requires Orderly(t) && name in t.known && t.known[name] == Some(mod) && name !in t.instrumented
    ensures mod !in t.data
  {
    assert name in Loaded(t);
    assert forall n :: Instruments(t, n, mod) ==> n in Loaded(t);
  }

  lemma NoTargetsNoData(t: Targets)
    requires Orderly(t) && Loaded(t) == {}
    ensures t.data == []
  {
    assert forall n, m :: Instruments(t, n, m) ==> n in Loaded(t);
    HeadIn(t.data);
  }

  lemma HeadIn(s: seq<Module>)
    ensures s != [] ==> s[0] in s
  {
  }

  lemma FrontDistinct(data: seq<Module>, mod: Module)
    requires Distinct(data) && mod !in data
    ensures Distinct([mod] + data)
  {
    var r := [mod] + data;
    assert forall k :: 1 <= k < |r| ==> r[k] == data[k - 1] && r[k] in data;
  }

  /** The state of a session that is not broken. */
  ghost predicate Books(t: Targets, n: int, refs: multiset<Module>, providers: seq<Module>, plugins: seq<Plugin>)
    requires forall k :: 0 <= k < |plugins| ==> plugins[k].owner.Some?
  {
    && Orderly(t) && n == |Loaded(t)|
    && refs == (if n > 0 then Held(providers, plugins) else multiset{})
    && (t.data != [] ==> plugins != [])
  }

  lemma BooksAfterLoad(t: Targets, n: int, refs: multiset<Module>, providers: seq<Module>, plugins: seq<Plugin>,
                       name: nat, mod: Module, processed: bool, item: bool)
    requires forall k :: 0 <= k < |plugins| ==> plugins[k].owner.Some?
    requires Books(t, n, refs, providers, plugins) && (name in t.known ==> t.known[name].None?)
    requires forall m :: m in t.known ==> t.known[m] != Some(mod)
    requires item ==> processed && plugins != []
    ensures Books(Arrived(t, name, mod, processed, item), n + 1, Held(providers, plugins), providers, plugins)
    ensures name !in t.instrumented && n >= 0 && (n == 0 ==> refs == multiset{}) &&
            (n > 0 ==> refs == Held(providers, plugins))
  {
    hide Held, Orderly, Loaded;
    NotInstrumented(t, name);
    Arrives(t, name, mod, processed, item);
  }

  lemma NotInstrumented(t: Targets, name: nat)
    requires Orderly(t) && (name in t.known ==> t.known[name].None?)
    ensures name !in t.instrumented
  {
  }

  lemma BooksAfterUnload(t: Targets, n: int, refs: multiset<Module>, providers: seq<Module>, plugins: seq<Plugin>,
                         name: nat, data: seq<Module>)
    requires forall k :: 0 <= k < |plugins| ==> plugins[k].owner.Some?
    requires Books(t, n, refs, providers, plugins) && name in t.known && t.known[name].Some?
    requires var mod := t.known[name].value;
             if name in t.instrumented then Distinct(data) && forall m :: m in data <==>
             m in t.data && m != mod else data == t.data
    ensures var t' := Targets(t.known[name := None], t.instrumented - {name}, data);
            var refs' := if n == 1 then multiset{} else refs;
            Books(t', n - 1, refs', providers, plugins) && (n == 1 ==> data == [])
    ensures n > 0 && refs == Held(providers, plugins)
  {
    hide Held;
    var mod := t.known[name].value;
    if name !in t.instrumented {
      NoData(t, name, mod);
    }
    Departs(t, name, mod, data);
    SizeLess(Loaded(t), name);
    var t' := Targets(t.known[name := None], t.instrumented - {name}, data);
    if n == 1 {
      NoTargetsNoData(t');
    }
    assert data != [] ==> data[0] in t.data;
  }

  lemma OneName(t: Targets, n: int, refs: multiset<Module>, providers: seq<Module>, plugins: seq<Plugin>)
    requires forall k :: 0 <= k < |plugins| ==> plugins[k].owner.Some?
    requires Books(t, n, refs, providers, plugins)
    ensures forall a, b :: a in t.known && b in t.known && t.known[a].Some? && t.known[a] == t.known[b] ==> a == b
  {
    assert forall a :: a in t.known && t.known[a].Some? ==> a in Loaded(t);
  }

  /** The modules of the targets are in memory; no two names have the same module. */
  ghost predicate Present(known: map<nat, Option<Module>>, there: map<nat, Module>) {
    && (forall n :: n in known && known[n].Some? ==> n in there && there[n] == known[n].value)
    && (forall n, n' :: n in there && n' in there && there[n] == there[n'] ==> n == n')
  }

  lemma Absent(known: map<nat, Option<Module>>, there: map<nat, Module>, name: nat, mod: Module)
    requires Present(known, there) && name !in there && mod !in there.Values
    ensures name in known ==> known[name].None?
    ensures forall n :: n in known ==> known[n] != Some(mod)
  {
    forall n | n in known
      ensures known[n] != Some(mod)
    {
      assert n in there ==> there[n] in there.Values;
    }
  }

  lemma PresentMore(known: map<nat, Option<Module>>, known': map<nat, Option<Module>>, there: map<nat, Module>,
                    name: nat,
                    mod: Module)
    requires Present(known, there) && name !in there && mod !in there.Values
    requires known' == known || known' == known[name := Some(mod)]
    ensures Present(known', there[name := mod])
  {
    assert forall n :: n in there ==> there[n] in there.Values;
  }

  lemma PresentLess(known: map<nat, Option<Module>>, known': map<nat, Option<Module>>, there: map<nat, Module>,
                    name: nat)
    requires Present(known, there) && name in there
    requires (forall n :: n in known ==> known[n] != Some(there[name])) ==> known' == known
    requires forall n :: n in known && known[n] == Some(there[name]) ==> known' == known[n := None]
    ensures Present(known', there - {name})
  {
    if n :| n in known && known[n] == Some(there[name]) {
      assert n == name;
    }
  }

  datatype Result = Done | Busy | Invalid

  datatype Call =
    | Load(name: nat, mod: Module, special: bool, memory: bool, gone: set<Module>, processed: bool, itemMemory: bool)
    | Unload(name: nat)
    | Set(role: nat, what: nat, owner: Module)
    | Reset(role: nat)
    | UnregisterEh(eh: nat)
    | AddPlugin(p: Plugin)
    | RemovePlugin(id: nat)

  // ---------------------------------------------- which load brought a module

  /** A module in memory, and the call that loaded it unless it was there before. */
  datatype Resident = Resident(mod: Module, load: Option<nat>)

  /** What is in memory after the first `k` calls: a name or module that is there is not loaded again. */
  ghost function Memory(kernel: map<nat, Module>, calls: seq<Call>, k: nat): map<nat, Resident>
    requires k <= |calls|
  {
    if k == 0 then map n | n in kernel :: Resident(kernel[n], None)
    else
      var r := Memory(kernel, calls, k - 1);
      match calls[k - 1]
      case Load(name, mod, _, _, _, _, _) =>
        if name in r || (exists n :: n in r && r[n].mod == mod) then r else r[name := Resident(mod, Some(k - 1))]
      case Unload(name) => r - {name}
      case _ => r
  }

  /** Instrumented and with data of its own as the load of the target says, if a plugin is there. */
  ghost predicate LoadedBy(t: Targets, n: nat, r: Resident, calls: seq<Call>, plugins: seq<Plugin>, t0: Targets) {
    match r.load
    case None => (n in t.instrumented <==> n in t0.instrumented) && (r.mod in t.data <==> r.mod in t0.data)
    case Some(i) =>
      && i < |calls| && calls[i].Load? && calls[i].name == n && calls[i].mod == r.mod
      && (n in t.instrumented <==> calls[i].processed)
      && (r.mod in t.data <==> calls[i].processed && calls[i].itemMemory && plugins != [])
  }

  /** So it is with every loaded target, and there are no other data. */
  ghost predicate AsLoaded(t: Targets, memory: map<nat, Resident>, calls: seq<Call>, plugins: seq<Plugin>,
                           t0: Targets) {
    && (forall n :: n in t.known && t.known[n].Some? ==>
        n in memory && memory[n].mod == t.known[n].value && LoadedBy(t, n, memory[n], calls, plugins, t0))
    && (forall m :: m in t.data ==> exists n :: n in t.known && t.known[n] == Some(m))
  }

  ghost predicate SameModules(there: map<nat, Module>, memory: map<nat, Resident>) {
    there.Keys == memory.Keys && forall n :: n in there ==> there[n] == memory[n].mod
  }

  /** Everything was there before the first call. */
  lemma AllFromBefore(t: Targets, kernel: map<nat, Module>, calls: seq<Call>, plugins: seq<Plugin>)
    requires Orderly(t) && Present(t.known, kernel)
    ensures AsLoaded(t, Memory(kernel, calls, 0), calls, plugins, t) && SameModules(kernel, Memory(kernel, calls, 0))
  {
    forall m | m in t.data
      ensures exists n :: n in t.known && t.known[n] == Some(m)
    {
      var n :| Instruments(t, n, m);
    }
  }

  lemma LoadIs(kernel: map<nat, Module>, calls: seq<Call>, k: nat, there: map<nat, Module>)
    requires k < |calls| && calls[k].Load? && SameModules(there, Memory(kernel, calls, k))
    ensures var c := calls[k]; var memory, memory' := Memory(kernel, calls, k), Memory(kernel, calls, k + 1);
            if c.name in there || c.mod in there.Values then memory' == memory
            else memory' == memory[c.name := Resident(c.mod, Some(k))] && SameModules(there[c.name := c.mod], memory')
  {
    var c := calls[k];
    if c.mod in there.Values {
      var n :| n in there && there[n] == c.mod;
    } else {
      assert forall n :: n in there ==> there[n] in there.Values;
    }
  }

  /** A module that does not become a target. */
  lemma OtherLoaded(t: Targets, memory: map<nat, Resident>, calls: seq<Call>, plugins: seq<Plugin>, t0: Targets,
                    name: nat,
                    r: Resident)
    requires AsLoaded(t, memory, calls, plugins, t0) && name !in memory
    ensures AsLoaded(t, memory[name := r], calls, plugins, t0)
  {
    hide LoadedBy;
  }

  lemma TargetLoaded(t: Targets, t': Targets, memory: map<nat, Resident>, calls: seq<Call>, plugins: seq<Plugin>,
                     t0: Targets, k: nat)
    requires AsLoaded(t, memory, calls, plugins, t0) && k < |calls| && calls[k].Load?
    requires calls[k].name !in memory && forall n :: n in memory ==> memory[n].mod != calls[k].mod
    requires var c := calls[k];
             c.name !in t.instrumented && Joined(t, t', c.name, c.mod, c.processed, c.itemMemory && plugins != [])
    ensures AsLoaded(t', memory[calls[k].name := Resident(calls[k].mod, Some(k))], calls, plugins, t0)
  {
    var c := calls[k];
    assert c.mod !in t.data;
    forall m | m in t'.data
      ensures exists n :: n in t'.known && t'.known[n] == Some(m)
    {
      if m in t.data {
        var n :| n in t.known && t.known[n] == Some(m);
        assert n != c.name;
        assert t'.known[n] == Some(m);
      } else {
        assert t'.known[c.name] == Some(m);
      }
    }
  }

  /** A target leaves, or what is no target. */
  lemma Unloaded(t: Targets, t': Targets, memory: map<nat, Resident>, calls: seq<Call>, plugins: seq<Plugin>,
                 t0: Targets,
                 name: nat)
    requires AsLoaded(t, memory, calls, plugins, t0) && name in memory
    requires forall n, n' :: n in memory && n' in memory && memory[n].mod == memory[n'].mod ==> n == n'
    requires if name in t.known && t.known[name] == Some(memory[name].mod) then Gone(t, t', name) else t' == t
    ensures AsLoaded(t', memory - {name}, calls, plugins, t0)
  {
    forall m | m in t'.data
      ensures exists n :: n in t'.known && t'.known[n] == Some(m)
    {
      var n :| n in t.known && t.known[n] == Some(m);
      assert n in t'.known && t'.known[n] == Some(m);
    }
  }

  lemma AfterLoad(t: Targets, t': Targets, kernel: map<nat, Module>, calls: seq<Call>, k: nat, there: map<nat, Module>,
                  plugins: seq<Plugin>, t0: Targets)
    requires k < |calls| && calls[k].Load? && SameModules(there, Memory(kernel, calls, k))
    requires AsLoaded(t, Memory(kernel, calls, k), calls, plugins, t0)
    requires var c := calls[k];
             && c.name !in there && c.mod !in there.Values && c.name !in t.instrumented
             && (t' == t || Joined(t, t', c.name, c.mod, c.processed, c.itemMemory && plugins != []))
    ensures SameModules(there[calls[k].name := calls[k].mod], Memory(kernel, calls, k + 1))
    ensures AsLoaded(t', Memory(kernel, calls, k + 1), calls, plugins, t0)
  {
    hide Memory, AsLoaded;
    var c, memory := calls[k], Memory(kernel, calls, k);
    LoadIs(kernel, calls, k, there);
    if t' == t {
      OtherLoaded(t, memory, calls, plugins, t0, c.name, Resident(c.mod, Some(k)));
    } else {
      assert forall n :: n in there ==> there[n] in there.Values;
      TargetLoaded(t, t', memory, calls, plugins, t0, k);
    }
  }

  lemma AfterUnload(t: Targets, t': Targets, kernel: map<nat, Module>, calls: seq<Call>, k: nat, there: map<nat,
                    Module>,
                    plugins: seq<Plugin>, t0: Targets)
    requires k < |calls| && calls[k].Unload? && SameModules(there, Memory(kernel, calls, k))
    requires AsLoaded(t, Memory(kernel, calls, k), calls, plugins, t0) && Present(t.known, there)
    requires calls[k].name in there
    requires (forall n :: n in t.known ==> t.known[n] != Some(there[calls[k].name])) ==> t' == t
    requires forall n :: n in t.known && t.known[n] == Some(there[calls[k].name]) ==> Gone(t, t', n)
    ensures SameModules(there - {calls[k].name}, Memory(kernel, calls, k + 1))
    ensures AsLoaded(t', Memory(kernel, calls, k + 1), calls, plugins, t0)
  {
    hide AsLoaded;
    Unloaded(t, t', Memory(kernel, calls, k), calls, plugins, t0, calls[k].name);
  }

  /** Calls that load and unload nothing. */
  lemma AfterOther(kernel: map<nat, Module>, calls: seq<Call>, k: nat, there: map<nat, Module>)
    requires k < |calls| && SameModules(there, Memory(kernel, calls, k))
    requires match calls[k]
             case Load(name, mod, _, _, _, _, _) => name in there || mod in there.Values
             case Unload(name) => name !in there
             case _ => true
    ensures Memory(kernel, calls, k + 1) == Memory(kernel, calls, k)
  {
    if calls[k].Load? {
      LoadIs(kernel, calls, k, there);
    }
  }

  lemma NothingLoaded(t: Targets, memory: map<nat, Resident>, calls: seq<Call>, plugins: seq<Plugin>,
                      plugins': seq<Plugin>, t0: Targets)
    requires AsLoaded(t, memory, calls, plugins, t0) && Loaded(t) == {}
    ensures AsLoaded(t, memory, calls, plugins', t0)
  {
    assert forall n :: n in t.known && t.known[n].Some? ==> n in Loaded(t);
  }

  class Core {
    const self: Module          // the core itself, the default provider
    var targets: Targets
    var processAll: bool
    var numLoaded: int
    var broken: bool
    var providers: seq<Module>
    var custom: seq<Option<nat>>  // what is set for the role other than the core's default
    var plugins: seq<Plugin>
    var refs: multiset<Module>  // references the session has taken

    ghost predicate Shape()
      reads `providers, `custom, `plugins
    {
      |providers| == ROLES && |custom| == ROLES && Registered(plugins)
    }

    ghost predicate Valid()
      reads this
    {
      && Shape() && numLoaded >= 0
      && (!broken ==> Books(targets, numLoaded, refs, providers, plugins))
      && (broken ==> numLoaded == 0 && refs == multiset{})
    }

    predicate Active()
      reads this
    {
      numLoaded > 0
    }

    /** Some provider or plugin is among the modules that are going away. */
    ghost predicate Unavailable(gone: set<Module>)
      requires Shape()
      reads `providers, `custom, `plugins
    {
      || (exists k :: 0 <= k < ROLES && providers[k] in gone)
      || (exists k :: 0 <= k < |plugins| && plugins[k].owner.value in gone)
    }

    /** What becomes a target when it is loaded. */
    predicate IsTarget(name: nat, special: bool, memory: bool)
      reads this
    {
      name in targets.known || (processAll && !special && memory)
    }

    constructor (self: Module, targets: set<nat>, processAll: bool)
      ensures Valid() && !broken && numLoaded == 0 && refs == multiset{}
      ensures this.targets.known == map n | n in targets :: None
      ensures forall k :: 0 <= k < ROLES ==> providers[k] == self && custom[k].None?
    {
      this.self := self;
      this.targets := Targets(map n | n in targets :: None, {}, []);
      this.processAll := processAll;
      numLoaded, broken := 0, false;
      providers, custom := [self, self, self], [None, None, None];
      plugins, refs := [], multiset{};
      new;
      assert Loaded(this.targets) == {};
    }

    // ------------------------------------------------------------- references

    /** Puts the references on the first `n` providers. */
    method PutRoles(n: nat, ghost rest: multiset<Module>)
      requires Shape() && n <= ROLES && refs == rest + Roles(providers, n)
      modifies this`refs
      ensures refs == rest
    {
      hide Registered, Roles;
      AllRoles(providers);
      var k := 0;
      while k < n
        invariant k <= n && refs + Roles(providers, k) == rest + Roles(providers, n)
      {
        NextRole(providers, k);
        RoleHeld(providers, k, n, rest, refs);
        refs := refs - multiset{providers[k]};
        k := k + 1;
      }
      Cancel(refs, rest, Roles(providers, n));
    }

    /** providers_get: all or nothing; try_module_get fails for the modules in `gone`. */
    method ProvidersGet(gone: set<Module>) returns (ok: bool)
      requires Shape()
      modifies this`refs
      ensures ok <==> forall k :: 0 <= k < ROLES ==> providers[k] !in gone
      ensures refs == if ok then old(refs) + multiset(providers) else old(refs)
    {
      hide Registered, Roles;
      var i := 0;
      AllRoles(providers);
      while i < ROLES && providers[i] !in gone
        invariant i <= ROLES && (forall k :: 0 <= k < i ==> providers[k] !in gone)
        invariant refs == old(refs) + Roles(providers, i)
      {
        NextRole(providers, i);
        refs := refs + multiset{providers[i]};
        i := i + 1;
      }
      if i < ROLES {
        PutRoles(i, old(refs));
        assert providers[i] in gone;
        return false;
      }
      return true;
    }

    /** providers_put */
    method ProvidersPut(ghost rest: multiset<Module>)
      requires Shape() && refs == rest + multiset(providers)
      modifies this`refs
      ensures refs == rest
    {
      AllRoles(providers);
      PutRoles(ROLES, rest);
    }

    /** Puts the references on the owners of the first `n` plugins. */
    method PutOwners(n: nat, ghost rest: multiset<Module>)
      requires Shape() && n <= |plugins| && refs == rest + Owners(plugins[..n])
      modifies this`refs
      ensures refs == rest
    {
      hide Apart, Owners;
      OwnersStart(plugins);
      var k := 0;
      while k < n
        invariant k <= n && refs + Owners(plugins[..k]) == rest + Owners(plugins[..n])
      {
        NextOwner(plugins, k);
        OwnerHeld(plugins, k, n, rest, refs);
        refs := refs - multiset{plugins[k].owner.value};
        k := k + 1;
      }
      Cancel(refs, rest, Owners(plugins[..n]));
    }

    /** kedr_fh_plugins_get: all or nothing. */
    method PluginsGet(gone: set<Module>) returns (ok: bool)
      requires Shape()
      modifies this`refs
      ensures ok <==> forall k :: 0 <= k < |plugins| ==> plugins[k].owner.value !in gone
      ensures refs == if ok then old(refs) + Owners(plugins) else old(refs)
    {
      hide Apart, Owners;
      var i := 0;
      OwnersStart(plugins);
      while i < |plugins| && plugins[i].owner.value !in gone
        invariant i <= |plugins| && (forall k :: 0 <= k < i ==> plugins[k].owner.value !in gone)
        invariant refs == old(refs) + Owners(plugins[..i])
      {
        NextOwner(plugins, i);
        refs := refs + multiset{plugins[i].owner.value};
        i := i + 1;
      }
      if i < |plugins| {
        PutOwners(i, old(refs));
        assert plugins[i].owner.value in gone;
        return false;
      }
      assert plugins[..i] == plugins;
      return true;
    }

    /** kedr_fh_plugins_put */
    method PluginsPut(ghost rest: multiset<Module>)
      requires Shape() && refs == rest + Owners(plugins)
      modifies this`refs
      ensures refs == rest
    {
      assert plugins[..|plugins|] == plugins;
      PutOwners(|plugins|, rest);
    }

    /** session_start: all references or none. */
    method SessionStart(gone: set<Module>) returns (ok: bool)
      requires Shape()
      modifies this`refs
      ensures ok <==> !Unavailable(gone)
      ensures refs == if ok then old(refs) + Held(providers, plugins) else old(refs)
    {
      ok := ProvidersGet(gone);
      if ok {
        ok := PluginsGet(gone);
        if !ok {
          ProvidersPut(old(refs));
        }
      }
    }

    /** session_end */
    method SessionEnd()
      requires Shape() && refs == Held(providers, plugins)
      modifies this`refs
      ensures refs == multiset{}
    {
      PluginsPut(multiset(providers));
      ProvidersPut(multiset{});
    }

    // ------------------------------------------------- targets come and go

    /** The target `name` comes to a session that is not broken, and starts it if it is the first one. */
    method Join(name: nat, mod: Module, gone: set<Module>, processed: bool, itemMemory: bool)
      requires Valid() && !broken && (name in targets.known ==> targets.known[name].None?)
      requires forall n :: n in targets.known ==> targets.known[n] != Some(mod)
      modifies this`targets, this`numLoaded, this`broken, this`refs
      ensures Valid() && targets.known == old(targets.known)[name := Some(mod)]
      ensures broken <==> old(numLoaded) == 0 && old(Unavailable(gone))
      ensures broken ==> targets == old(targets).(known := targets.known) && numLoaded == old(numLoaded)
      ensures !broken ==> numLoaded == old(numLoaded) + 1
      ensures !broken ==> Joined(old(targets), targets, name, mod, processed, itemMemory && plugins != [])
    {
      hide Held, Apart, Books, Owners, Arrived, Joined, Unavailable;
      var item := processed && plugins != [] && itemMemory;
      ghost var t' := Arrived(targets, name, mod, processed, item);
      JoinedIs(targets, t', name, mod, processed, item, itemMemory && plugins != []);
      BooksAfterLoad(targets, numLoaded, refs, providers, plugins, name, mod, processed, item);
      if numLoaded == 0 {
        var ok := SessionStart(gone);
        if !ok {
          targets := targets.(known := targets.known[name := Some(mod)]);
          broken := true;
          return;
        }
        HeldIs(refs, providers, plugins);
      }
      assert refs == Held(providers, plugins);
      numLoaded := numLoaded + 1;
      ArrivedIs(targets, name, mod, processed, item);
      targets := Arrived(targets, name, mod, processed, item);
    }

    /**
     A module is coming.  `special`: its name starts like one of the system's own modules;
     `memory`, `itemMemory`: the allocations succeed; `processed`: the instrumentation does.
     `bug`: the target's object still has a module (BUG_ON).
     */
    method OnLoad(name: nat, mod: Module, special: bool, memory: bool, gone: set<Module>, processed: bool,
                  itemMemory: bool)
      returns (bug: bool)
      requires Valid() && (!broken ==> forall n :: n in targets.known ==> targets.known[n] != Some(mod))
      modifies this`targets, this`numLoaded, this`broken, this`refs
      ensures Valid()
      ensures bug <==> name in old(targets.known) && old(targets.known)[name].Some?
      ensures bug || !old(IsTarget(name, special, memory))
              ==> targets == old(targets) && numLoaded == old(numLoaded) && broken == old(broken) && refs == old(refs)
      ensures !bug && old(IsTarget(name, special, memory)) ==>
                && targets.known == old(targets.known)[name := Some(mod)]
                && (broken <==> old(broken) || (old(numLoaded) == 0 && old(Unavailable(gone))))
                && (broken ==> targets == old(targets).(known := targets.known) && numLoaded == old(numLoaded))
                && (!broken ==> numLoaded == old(numLoaded) + 1)
                && (!broken ==> Joined(old(targets), targets, name, mod, processed, itemMemory && old(plugins) != []))
    {
      hide Held, Apart, Books, Owners, Arrived, Joined, Unavailable;
      if name in targets.known && targets.known[name].Some? {
        return true;
      }
      if name !in targets.known && (!processAll || special || !memory) {
        return false;
      }
      if broken {
        targets := targets.(known := targets.known[name := Some(mod)]);
        return false;
      }
      Join(name, mod, gone, processed, itemMemory);
      return false;
    }

    /** per_target_destroy for the module, if there is data for it. */
    method DestroyData(mod: Module)
      requires Distinct(targets.data) && (targets.data != [] ==> plugins != [])
      modifies this`targets
      ensures targets == old(targets).(data := targets.data) && Distinct(targets.data)
      ensures forall m :: m in targets.data <==> m in old(targets.data) && m != mod
    {
      if plugins == [] {
        return;
      }
      var data, k := targets.data, 0;
      while k < |data| && data[k] != mod
        invariant k <= |data| && forall i :: 0 <= i < k ==> data[i] != mod
        modifies {}
      {
        k := k + 1;
      }
      if k < |data| {
        targets := targets.(data := data[..k] + data[k + 1..]);
        WithoutOne(data, k);
      }
    }

    /** The target `name` leaves a session that is not broken. */
    method Leave(name: nat)
      requires Valid() && !broken && name in targets.known && targets.known[name].Some?
      modifies this`targets, this`numLoaded, this`refs
      ensures Valid() && Gone(old(targets), targets, name) && numLoaded == old(numLoaded) - 1
      ensures numLoaded == 0 ==> refs == multiset{} && targets.data == []
    {
      hide Apart, Owners, Books, Held;
      ghost var t := targets;
      DataFacts(t, numLoaded, refs, providers, plugins);
      var ends := numLoaded == 1;
      var mod := targets.known[name].value;
      if name in targets.instrumented {
        DestroyData(mod);
      } else {
        NoDataOf(t, numLoaded, refs, providers, plugins, name, mod);
      }
      BooksAfterUnload(t, numLoaded, refs, providers, plugins, name, targets.data);
      targets := Targets(targets.known[name := None], targets.instrumented - {name}, targets.data);
      if ends {
        SessionEnd();
      }
      numLoaded := numLoaded - 1;
    }

    /** A module is going; in a broken session its target keeps it. */
    method OnUnload(mod: Module)
      requires Valid()
      modifies this`targets, this`numLoaded, this`refs
      ensures Valid()
      ensures broken || (forall n :: n in old(targets.known) ==> old(targets.known)[n] != Some(mod))
              ==> targets == old(targets) && numLoaded == old(numLoaded) && refs == old(refs)
      ensures forall n :: !broken && n in old(targets.known) && old(targets.known)[n] == Some(mod) ==>
                && Gone(old(targets), targets, n) && numLoaded == old(numLoaded) - 1
                && (numLoaded == 0 ==> refs == multiset{} && targets.data == [])
    {
      hide Books, Held, Apart, Owners;
      if n :| n in targets.known && targets.known[n] == Some(mod) {
        if broken {
          return;
        }
        OneName(targets, numLoaded, refs, providers, plugins);
        Leave(n);
      }
    }

    /** Load, unload and load again: BUG_ON if and only if the first load broke the session. */
    method Reload(name: nat, mod: Module, mod': Module, gone: set<Module>, processed: bool, itemMemory: bool)
      returns (bug: bool)
      requires Valid() && !broken && name in targets.known && targets.known[name].None?
      requires forall n :: n in targets.known ==> targets.known[n] != Some(mod) && targets.known[n] != Some(mod')
      modifies this`targets, this`numLoaded, this`broken, this`refs
      ensures Valid()
      ensures bug <==> old(numLoaded) == 0 && old(Unavailable(gone))
    {
      hide Books, Held, Apart, Owners, Unavailable;
      var first := OnLoad(name, mod, false, true, gone, processed, itemMemory);
      OnUnload(mod);
      bug := OnLoad(name, mod', false, true, gone, processed, itemMemory);
    }

    // --------------------------------------------------------- registration

    /** kedr_register_event_handlers, kedr_set_ls_allocator and kedr_set_core_hooks with something to set. */
    method SetProvider(role: nat, what: nat, owner: Module) returns (r: Result)
      requires Valid() && role < ROLES
      modifies this`providers, this`custom
      ensures Valid()
      ensures r.Busy? <==> old(Active())
      ensures r.Invalid? <==> !old(Active()) && old(custom)[role].Some?
      ensures if r.Done? then providers == old(providers)[role := owner] && custom == old(custom)[role := Some(what)]
              else providers == old(providers) && custom == old(custom)
    {
      hide Registered, Orderly, Held;
      if numLoaded > 0 {
        return Busy;
      }
      if custom[role].Some? {
        return Invalid;
      }
      providers, custom := providers[role := owner], custom[role := Some(what)];
      return Done;
    }

    /** kedr_set_ls_allocator and kedr_set_core_hooks with nothing to set: back to the default. */
    method ResetProvider(role: nat) returns (r: Result)
      requires Valid() && role < ROLES
      modifies this`providers, this`custom
      ensures Valid()
      ensures r == if old(Active()) then Busy else Done
      ensures if r.Done? then providers == old(providers)[role := self] && custom == old(custom)[role := None]
              else providers == old(providers) && custom == old(custom)
    {
      hide Registered, Orderly, Held;
      if numLoaded > 0 {
        return Busy;
      }
      providers, custom := providers[role := self], custom[role := None];
      return Done;
    }

    /**
     kedr_unregister_event_handlers: the default handlers come back whatever `eh` is, also if
     the handlers are another module's (`foreign`); during a session the provider cannot be
     reset (BUG_ON), but the handlers are the default ones already.
     */
    method UnregisterHandlers(eh: nat) returns (bug: bool, foreign: bool)
      requires Valid()
      modifies this`providers, this`custom
      ensures Valid()
      ensures bug <==> old(Active())
      ensures foreign <==> !old(Active()) && old(custom)[0] != Some(eh)
      ensures custom == old(custom)[0 := None]
      ensures providers == if bug then old(providers) else old(providers)[0 := self]
    {
      hide Registered, Orderly, Held;
      foreign := numLoaded <= 0 && custom[0] != Some(eh);
      custom := custom[0 := None];
      if numLoaded > 0 {
        return true, foreign;
      }
      providers := providers[0 := self];
      return false, foreign;
    }

    /** kedr_fh_plugin_register */
    method RegisterPlugin(p: Plugin) returns (r: Result)
      requires Valid()
      modifies this`plugins
      ensures Valid()
      ensures r.Busy? <==> old(Active())
      ensures !old(Active()) ==>
              (r.Done? <==> p.owner.Some? && forall i :: 0 <= i < |old(plugins)| ==> Apart(p, old(plugins)[i]))
      ensures plugins == if r.Done? then [p] + old(plugins) else old(plugins)
    {
      hide Apart, Orderly, Held;
      if numLoaded > 0 {
        return Busy;
      }
      var ok, ps := Register(plugins, p);
      plugins := ps;
      return if ok then Done else Invalid;
    }

    /** kedr_fh_plugin_unregister */
    method UnregisterPlugin(id: nat) returns (r: Result)
      requires Valid()
      modifies this`plugins
      ensures Valid()
      ensures r == if old(Active()) then Busy else Done
      ensures r.Busy? ==> plugins == old(plugins)
      ensures r.Done? ==> forall p :: p in plugins <==> p in old(plugins) && p.id != id
    {
      hide Apart, Held;
      if numLoaded > 0 {
        return Busy;
      }
      if !broken {
        NoTargetsNoData(targets);
      }
      plugins := Unregister(plugins, id);
      return Done;
    }

    /** The modules in memory and what the targets have of them are as the first `k` calls made them. */
    ghost predicate Tracks(kernel: map<nat, Module>, calls: seq<Call>, k: nat, there: map<nat, Module>, t0: Targets)
      requires k <= |calls|
      reads this
    {
      !broken ==>
        && Present(targets.known, there) && SameModules(there, Memory(kernel, calls, k))
        && AsLoaded(targets, Memory(kernel, calls, k), calls, plugins, t0)
    }

    method LoadNext(ghost kernel: map<nat, Module>, calls: seq<Call>, k: nat, there: map<nat, Module>,
                    ghost t0: Targets)
      returns (there': map<nat, Module>, bug: bool)
      requires Valid() && k < |calls| && calls[k].Load? && Tracks(kernel, calls, k, there, t0)
      modifies this`targets, this`numLoaded, this`broken, this`refs
      ensures Valid() && Tracks(kernel, calls, k + 1, there', t0) && (bug ==> broken)
    {
      hide Books, Held, Apart, Present, AsLoaded, Memory, SameModules, Orderly, Loaded, Owners, Joined;
      var c := calls[k];
      if c.name in there || c.mod in there.Values {
        if !broken {
          AfterOther(kernel, calls, k, there);
        }
        return there, false;
      }
      ghost var t := targets;
      if !broken {
        Absent(t.known, there, c.name, c.mod);
        BooksSay(t, numLoaded, refs, providers, plugins);
        NotInstrumented(t, c.name);
      }
      bug := OnLoad(c.name, c.mod, c.special, c.memory, c.gone, c.processed, c.itemMemory);
      if !broken {
        JoinedKnown(t, targets, c.name, c.mod, c.processed, c.itemMemory && plugins != []);
        PresentMore(t.known, targets.known, there, c.name, c.mod);
        AfterLoad(t, targets, kernel, calls, k, there, plugins, t0);
      }
      there' := there[c.name := c.mod];
    }

    method UnloadNext(ghost kernel: map<nat, Module>, calls: seq<Call>, k: nat, there: map<nat, Module>,
                      ghost t0: Targets)
      returns (there': map<nat, Module>)
      requires Valid() && k < |calls| && calls[k].Unload? && Tracks(kernel, calls, k, there, t0)
      modifies this`targets, this`numLoaded, this`refs
      ensures Valid() && Tracks(kernel, calls, k + 1, there', t0)
    {
      hide Books, Held, Apart, Present, AsLoaded, Memory, SameModules, Owners;
      var name := calls[k].name;
      if name !in there {
        if !broken {
          AfterOther(kernel, calls, k, there);
        }
        return there;
      }
      ghost var t := targets;
      OnUnload(there[name]);
      if !broken {
        PresentLess(t.known, targets.known, there, name);
        AfterUnload(t, targets, kernel, calls, k, there, plugins, t0);
      }
      there' := there - {name};
    }

    /** A call that loads and unloads nothing; `bug` as for UnregisterHandlers. */
    method Administer(call: Call) returns (bug: bool)
      requires Valid() && !call.Load? && !call.Unload?
      modifies this`providers, this`custom, this`plugins
      ensures Valid() && (bug <==> call.UnregisterEh? && Active())
      ensures Active() ==> plugins == old(plugins)
    {
      hide Valid, Registered, Books;
      bug := false;
      match call {
      case Set(role, what, owner) =>
        if role < ROLES {
          var _ := SetProvider(role, what, owner);
        }
      case Reset(role) =>
        if role < ROLES {
          var _ := ResetProvider(role);
        }
      case UnregisterEh(eh) =>
        var b, _ := UnregisterHandlers(eh);
        bug := b;
      case AddPlugin(p) =>
        var _ := RegisterPlugin(p);
      case RemovePlugin(id) =>
        var _ := UnregisterPlugin(id);
      }
    }

    method OtherNext(ghost kernel: map<nat, Module>, calls: seq<Call>, k: nat, ghost there: map<nat, Module>,
                     ghost t0: Targets)
      returns (bug: bool)
      requires Valid() && k < |calls| && !calls[k].Load? && !calls[k].Unload? && Tracks(kernel, calls, k, there, t0)
      modifies this`providers, this`custom, this`plugins
      ensures Valid() && Tracks(kernel, calls, k + 1, there, t0) && (bug <==> calls[k].UnregisterEh? && Active())
    {
      hide Books, Held, Apart, Present, AsLoaded, Memory, SameModules, Owners;
      ghost var ps := plugins;
      bug := Administer(calls[k]);
      if !broken {
        AfterOther(kernel, calls, k, there);
        BooksSay(targets, numLoaded, refs, providers, plugins);
        if plugins != ps {
          NothingLoaded(targets, Memory(kernel, calls, k), calls, ps, plugins, t0);
        }
      }
    }

    /**
     Any sequence of calls, through failed session starts and up to a BUG_ON.  `kernel` holds the
     modules in memory: no name and no module is loaded twice, only what is there is unloaded.
     */
    method RunCalls(calls: seq<Call>, kernel: map<nat, Module>) returns (done: nat, bug: bool)
      requires Valid() && (!broken ==> Present(targets.known, kernel))
      modifies this
      ensures Valid() && done <= |calls| && (!bug ==> done == |calls|)
      ensures bug ==> done > 0 && ((calls[done - 1].UnregisterEh? && Active()) || (calls[done - 1].Load? && broken))
      ensures !broken ==>
                numLoaded == |Loaded(targets)| &&
                (numLoaded == 0 ==> refs == multiset{} && targets.data == [])
      ensures !broken && numLoaded > 0 ==> refs == Held(providers, plugins)
      ensures !broken ==> AsLoaded(targets, Memory(kernel, calls, done), calls, plugins, old(targets))
    {
      hide Books, Held, Apart, Present, AsLoaded, Memory, SameModules, Owners, Orderly, Loaded;
      bug, done := false, 0;
      var there := kernel;
      if !broken {
        BooksSay(targets, numLoaded, refs, providers, plugins);
        AllFromBefore(targets, kernel, calls, plugins);
      }
      while done < |calls| && !bug
        invariant done <= |calls| && Valid() && Tracks(kernel, calls, done, there, old(targets))
        invariant bug ==> done > 0 && ((calls[done - 1].UnregisterEh? && Active()) || (calls[done - 1].Load? && broken))
        decreases |calls| - done, !bug
      {
        match calls[done] {
        case Load(_, _, _, _, _, _, _) =>
          there, bug := LoadNext(kernel, calls, done, there, old(targets));
        case Unload(_) =>
          there := UnloadNext(kernel, calls, done, there, old(targets));
        case _ =>
          bug := OtherNext(kernel, calls, done, there, old(targets));
        }
        done := done + 1;
      }
      if !broken {
        BooksSay(targets, numLoaded, refs, providers, plugins);
      }
    }
  }

  /** Handlers of module 5 that is going away: the target 7 is loaded, unloaded and loaded again, which is a BUG_ON. */
  method ReloadFails() returns (bug: bool)
    ensures bug
  {
    hide Books, Held, Apart, Owners;
    var core := new Core(0, {7}, false);
    var r := core.SetProvider(0, 1, 5);
    assert core.providers[0] == 5;
    bug := core.Reload(7, 8, 9, {5}, true, true);
  }

  lemma BooksSay(t: Targets, n: int, refs: multiset<Module>, providers: seq<Module>, plugins: seq<Plugin>)
    requires forall k :: 0 <= k < |plugins| ==> plugins[k].owner.Some?
    requires Books(t, n, refs, providers, plugins)
    ensures Orderly(t) && n == |Loaded(t)| && (n == 0 ==> refs == multiset{} && t.data == [] && Loaded(t) == {})
    ensures n > 0 ==> refs == Held(providers, plugins)
  {
    hide Held;
    if n == 0 {
      NoTargetsNoData(t);
    }
  }

  lemma NoDataOf(t: Targets, n: int, refs: multiset<Module>, providers: seq<Module>, plugins: seq<Plugin>, name: nat,
                 mod: Module)
    requires forall k :: 0 <= k < |plugins| ==> plugins[k].owner.Some?
    requires Books(t, n, refs, providers, plugins)
    requires name in t.known && t.known[name] == Some(mod) && name !in t.instrumented
    ensures mod !in t.data
  {
    NoData(t, name, mod);
  }

  lemma DataFacts(t: Targets, n: int, refs: multiset<Module>, providers: seq<Module>, plugins: seq<Plugin>)
    requires forall k :: 0 <= k < |plugins| ==> plugins[k].owner.Some?
    requires Books(t, n, refs, providers, plugins)
    ensures Distinct(t.data) && (t.data != [] ==> plugins != []) && n >= 0 && (n == 0 ==> refs == multiset{})
  {
  }

  lemma HeldIs(refs: multiset<Module>, providers: seq<Module>, plugins: seq<Plugin>)
    requires forall k :: 0 <= k < |plugins| ==> plugins[k].owner.Some?
    requires refs == multiset{} + Held(providers, plugins)
    ensures refs == Held(providers, plugins)
  {
  }

  lemma ArrivedIs(t: Targets, name: nat, mod: Module, processed: bool, item: bool)
    requires name !in t.instrumented && (item ==> processed)
    ensures var t' := Arrived(t, name, mod, processed, item);
            t'.known == t.known[name := Some(mod)] && Joined(t, t', name, mod, processed, item)
  {
  }

  lemma JoinedIs(t: Targets, t': Targets, name: nat, mod: Module, processed: bool, item: bool, data: bool)
    requires item <==> processed && data
    ensures Joined(t, t', name, mod, processed, item) <==> Joined(t, t', name, mod, processed, data)
  {
  }

  lemma JoinedKnown(t: Targets, t': Targets, name: nat, mod: Module, processed: bool, data: bool)
    ensures Joined(t, t', name, mod, processed, data) ==> t'.known == t.known[name := Some(mod)]
  {
  }

  lemma SizeLess(s: set<nat>, x: nat)
    requires x in s
    ensures |s - {x}| == |s| - 1 && (|s| == 1 ==> s - {x} == {})
  {
  }

  lemma WithoutOne(data: seq<Module>, k: nat)
    requires Distinct(data) && k < |data|
    ensures var r := data[..k] + data[k + 1..];
            Distinct(r) && forall m :: m in r <==> m in data && m != data[k]
  {
    var r := data[..k] + data[k + 1..];
    assert data == data[..k] + [data[k]] + data[k + 1..];
    assert forall i :: 0 <= i < |r| ==> r[i] == if i < k then data[i] else data[i + 1];
  }

  lemma OwnersStart(plugins: seq<Plugin>)
    requires forall j :: 0 <= j < |plugins| ==> plugins[j].owner.Some?
    ensures Owners(plugins[..0]) == multiset{}
  {
  }

  lemma {:induction false} RolePrefix(providers: seq<Module>, k: nat, i: nat)
    requires k < i <= |providers|
    ensures Roles(providers, k + 1) <= Roles(providers, i)
  {
    assert providers[..i] == providers[..k + 1] + providers[k + 1..i];
  }

  /** While the first `i` are being put back, the next one is still held. */
  lemma RoleHeld(providers: seq<Module>, k: nat, i: nat, rest: multiset<Module>, refs: multiset<Module>)
    requires k < i <= |providers| && refs + Roles(providers, k) == rest + Roles(providers, i)
    ensures (refs - multiset{providers[k]}) + Roles(providers, k + 1) == rest + Roles(providers, i)
  {
    RolePrefix(providers, k, i);
    NextRole(providers, k);
    TakeOne(refs, Roles(providers, k), providers[k], rest + Roles(providers, i));
  }

  lemma {:induction false} OwnerPrefix(plugins: seq<Plugin>, k: nat, i: nat)
    requires k <= i <= |plugins| && forall j :: 0 <= j < |plugins| ==> plugins[j].owner.Some?
    ensures Owners(plugins[..k]) <= Owners(plugins[..i])
    decreases i - k
  {
    if k < i {
      NextOwner(plugins, k);
      OwnerPrefix(plugins, k + 1, i);
    }
  }

  lemma OwnerHeld(plugins: seq<Plugin>, k: nat, i: nat, rest: multiset<Module>, refs: multiset<Module>)
    requires k < i <= |plugins| && forall j :: 0 <= j < |plugins| ==> plugins[j].owner.Some?
    requires refs + Owners(plugins[..k]) == rest + Owners(plugins[..i])
    ensures (refs - multiset{plugins[k].owner.value}) + Owners(plugins[..k + 1]) == rest + Owners(plugins[..i])
  {
    hide Owners;
    OwnerPrefix(plugins, k + 1, i);
    NextOwner(plugins, k);
    TakeOne(refs, Owners(plugins[..k]), plugins[k].owner.value, rest + Owners(plugins[..i]));
  }

  lemma TakeOne(refs: multiset<Module>, done: multiset<Module>, m: Module, total: multiset<Module>)
    requires refs + done == total && done + multiset{m} <= total
    ensures (refs - multiset{m}) + (done + multiset{m}) == total
  {
    assert refs[m] + done[m] == total[m] && done[m] + 1 <= total[m];
  }

  lemma Cancel(a: multiset<Module>, b: multiset<Module>, x: multiset<Module>)
    requires a + x == b + x
    ensures a == b
  {
    forall m
      ensures a[m] == b[m]
    {
      assert (a + x)[m] == a[m] + x[m] && (b + x)[m] == b[m] + x[m];
    }
  }
}

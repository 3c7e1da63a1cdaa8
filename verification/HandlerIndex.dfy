/**
 Function handling plugins and the sorted table of their handlers: registration keeps the sets
 of handled functions apart, and the binary search agrees with a scan of all plugins.
 */
module HandlerIndex {
  import opened Basics

  /** The handlers of the function that starts at `orig`. */
  datatype Handler = Handler(orig: nat, id: nat)

  /** A plugin; its array of handlers may be missing. */
  datatype Plugin = Plugin(id: nat, owner: Option<nat>, handlers: Option<seq<Handler>>)

  function List(p: Plugin): seq<Handler> { if p.handlers.None? then [] else p.handlers.value }

  ghost predicate Lists(hs: seq<Handler>, f: nat) { exists k :: 0 <= k < |hs| && hs[k].orig == f }

  ghost predicate Handles(p: Plugin, f: nat) { Lists(List(p), f) }

  ghost predicate Apart(p: Plugin, q: Plugin) { p.id != q.id && forall f: nat :: !(Handles(p, f) && Handles(q, f)) }

  /** No plugin twice, no function handled by two plugins, every owner known. */
  ghost predicate Registered(plugins: seq<Plugin>) {
    && (forall i :: 0 <= i < |plugins| ==> plugins[i].owner.Some?)
    && (forall i, j :: 0 <= i < j < |plugins| ==> Apart(plugins[i], plugins[j]))
  }

  // ------------------------------------------------------------- registration

  /** plugin_handles_function */
  method HandlesFunction(p: Plugin, f: nat) returns (r: bool)
    ensures r <==> Handles(p, f)
  {
    if p.handlers.None? {
      return false;
    }
    var h, k := p.handlers.value, 0;
    while k < |h|
      invariant k <= |h| && !Lists(h[..k], f)
    {
      if h[k].orig == f {
        return true;
      }
      assert h[..k + 1] == h[..k] + [h[k]];
      k := k + 1;
    }
    assert h[..k] == h;
    return false;
  }

  /** function_set_bad */
  method FunctionSetBad(plugins: seq<Plugin>, p: Plugin) returns (bad: bool)
    ensures bad <==> exists f: nat, i :: 0 <= i < |plugins| && Handles(p, f) && Handles(plugins[i], f)
  {
    if p.handlers.None? {
      return false;
    }
    var h, k := p.handlers.value, 0;
    while k < |h|
      invariant k <= |h|
      invariant forall j, i :: 0 <= j < k && 0 <= i < |plugins| ==> !Handles(plugins[i], h[j].orig)
    {
      var i := 0;
      while i < |plugins|
        invariant i <= |plugins| && forall q :: 0 <= q < i ==> !Handles(plugins[q], h[k].orig)
      {
        var r := HandlesFunction(plugins[i], h[k].orig);
        if r {
          assert Handles(p, h[k].orig);
          return true;
        }
        i := i + 1;
      }
      k := k + 1;
    }
    return false;
  }

  /** kedr_fh_plugin_register_impl: accepted if and only if the plugin can be kept apart. */
  method Register(plugins: seq<Plugin>, p: Plugin) returns (ok: bool, r: seq<Plugin>)
    requires Registered(plugins)
    ensures ok <==> p.owner.Some? && forall i :: 0 <= i < |plugins| ==> Apart(p, plugins[i])
    ensures r == if ok then [p] + plugins else plugins
    ensures Registered(r)
  {
    r := plugins;
    if p.owner.None? {
      return false, plugins;
    }
    var i := 0;
    while i < |plugins| && plugins[i].id != p.id
      invariant i <= |plugins| && forall q :: 0 <= q < i ==> plugins[q].id != p.id
    {
      i := i + 1;
    }
    if i < |plugins| {
      return false, plugins;
    }
    var bad := FunctionSetBad(plugins, p);
    if bad {
      return false, plugins;
    }
    r := [p] + plugins;
    assert forall k :: 1 <= k < |r| ==> r[k] == plugins[k - 1];
    return true, r;
  }

  /** kedr_fh_plugin_unregister_impl */
  method Unregister(plugins: seq<Plugin>, id: nat) returns (r: seq<Plugin>)
    requires Registered(plugins)
    ensures Registered(r)
    ensures forall p: Plugin :: p in r <==> p in plugins && p.id != id
  {
    var i := 0;
    while i < |plugins| && plugins[i].id != id
      invariant i <= |plugins| && forall q :: 0 <= q < i ==> plugins[q].id != id
    {
      i := i + 1;
    }
    if i == |plugins| {
      return plugins;
    }
    r := plugins[..i] + plugins[i + 1..];
    forall k | i + 1 <= k < |plugins|
      ensures plugins[k].id != id
    {
      assert Apart(plugins[i], plugins[k]);
    }
    assert forall k :: 0 <= k < |r| ==> r[k] == if k < i then plugins[k] else plugins[k + 1];
    assert plugins == plugins[..i] + [plugins[i]] + plugins[i + 1..];
  }

  // ---------------------------------------------------------- the handler table

  ghost function AllHandlers(plugins: seq<Plugin>): seq<Handler> {
    if plugins == [] then [] else AllHandlers(plugins[..|plugins| - 1]) + List(plugins[|plugins| - 1])
  }

  ghost predicate Sorted(t: seq<Handler>) { forall i, j :: 0 <= i < j < |t| ==> t[i].orig <= t[j].orig }

  /** The first loop of prepare_handler_table. */
  method CountHandlers(plugins: seq<Plugin>) returns (size: nat)
    ensures size == |AllHandlers(plugins)|
  {
    size := 0;
    assert plugins[..0] == [];
    for k := 0 to |plugins|
      invariant size == |AllHandlers(plugins[..k])|
    {
      assert plugins[..k + 1][..k] == plugins[..k];
      size := size + |List(plugins[k])|;
    }
    assert plugins[..|plugins|] == plugins;
  }

  /**
   The loops of prepare_handler_table: as many entries as were counted, so that the table is
   never thrown away; no entries if there is no memory for it.
   */
  method CollectHandlers(plugins: seq<Plugin>, memory: bool) returns (t: seq<Handler>)
    ensures t == if memory then AllHandlers(plugins) else []
  {
    var size := CountHandlers(plugins);
    if size == 0 || !memory {
      return [];
    }
    t := [];
    assert plugins[..0] == [];
    for k := 0 to |plugins|
      invariant t == AllHandlers(plugins[..k])
    {
      assert plugins[..k + 1][..k] == plugins[..k];
      t := t + List(plugins[k]);
    }
    assert plugins[..|plugins|] == plugins;
    assert |t| == size;
  }

  /** What the kernel's sort() makes of the collected entries at session start. */
  ghost predicate IsTable(t: seq<Handler>, plugins: seq<Plugin>, memory: bool) {
    Sorted(t) && multiset(t) == multiset(if memory then AllHandlers(plugins) else [])
  }

  /** lookup_handlers */
  method Lookup(table: seq<Handler>, orig: nat) returns (r: Option<Handler>)
    requires Sorted(table)
    ensures r.Some? ==> r.value in table && r.value.orig == orig
    ensures r.None? ==> !Lists(table, orig)
  {
    var beg, end := 0, |table|;
    while beg < end
      invariant 0 <= beg <= end <= |table|
      invariant forall i :: 0 <= i < beg ==> table[i].orig < orig
      invariant forall i :: end <= i < |table| ==> table[i].orig > orig
    {
      var mid := beg + (end - beg) / 2;
      if orig < table[mid].orig {
        end := mid;
      } else if orig > table[mid].orig {
        beg := mid + 1;
      } else {
        return Some(table[mid]);
      }
    }
    return None;
  }

  // -------------------------------------------------- agreement with a scan

  /** What a linear scan of all plugins finds. */
  ghost predicate Scanned(plugins: seq<Plugin>, i: nat, h: Handler) {
    i < |plugins| && h in List(plugins[i])
  }

  lemma {:induction false} HandlerOfPlugin(plugins: seq<Plugin>, h: Handler) returns (i: nat)
    requires h in AllHandlers(plugins)
    ensures Scanned(plugins, i, h)
    decreases |plugins|
  {
    var n := |plugins| - 1;
    if h in List(plugins[n]) {
      i := n;
    } else {
      i := HandlerOfPlugin(plugins[..n], h);
    }
  }

  lemma {:induction false} PluginInTable(plugins: seq<Plugin>, i: nat, h: Handler)
    requires Scanned(plugins, i, h)
    ensures h in AllHandlers(plugins)
    decreases |plugins|
  {
    var n := |plugins| - 1;
    if i < n {
      PluginInTable(plugins[..n], i, h);
    }
  }

  /**
   Looking up a function finds handlers if and only if there was memory for the table and some
   plugin lists the function; they are that plugin's.
   */
  lemma LookupAgreesWithScan(plugins: seq<Plugin>, memory: bool, table: seq<Handler>, orig: nat, r: Option<Handler>)
    requires Registered(plugins) && IsTable(table, plugins, memory)
    requires r.Some? ==> r.value in table && r.value.orig == orig
    requires r.None? ==> !Lists(table, orig)
    ensures r.Some? <==> memory && exists i :: 0 <= i < |plugins| && Handles(plugins[i], orig)
    ensures r.Some? ==> exists i :: Scanned(plugins, i, r.value) &&
                                    forall j :: 0 <= j < |plugins| && Handles(plugins[j], orig) ==> j == i
  {
    if r.Some? {
      assert r.value in multiset(table);
      var i := HandlerOfPlugin(plugins, r.value);
      ListsMember(List(plugins[i]), r.value);
      forall j | 0 <= j < |plugins| && Handles(plugins[j], orig)
        ensures j == i
      {
        OnlyOne(plugins, i, j, orig);
      }
    }
    forall i | memory && 0 <= i < |plugins| && Handles(plugins[i], orig)
      ensures Lists(table, orig)
    {
      TableLists(plugins, table, i, orig);
    }
  }

  lemma ListsMember(hs: seq<Handler>, h: Handler)
    requires h in hs
    ensures Lists(hs, h.orig)
  {
  }

  lemma OnlyOne(plugins: seq<Plugin>, i: nat, j: nat, f: nat)
    requires Registered(plugins) && i < |plugins| && j < |plugins| && Handles(plugins[i], f) && Handles(plugins[j], f)
    ensures i == j
  {
    hide Handles;
  }

  lemma TableLists(plugins: seq<Plugin>, table: seq<Handler>, i: nat, f: nat)
    requires IsTable(table, plugins, true) && i < |plugins| && Handles(plugins[i], f)
    ensures Lists(table, f)
  {
    var hs := List(plugins[i]);
    var k :| 0 <= k < |hs| && hs[k].orig == f;
    PluginInTable(plugins, i, hs[k]);
    assert hs[k] in multiset(table);
    ListsMember(table, hs[k]);
  }

  // ------------------------------------------------- the table over sessions

  /** What a session finds: the plugins registered at its start, and whether there is memory for the table. */
  datatype Meeting = Meeting(plugins: seq<Plugin>, memory: bool)

  ghost predicate HasTable(m: Meeting) { AllHandlers(m.plugins) != [] && m.memory }

  /** A session with a table, and the next one without handlers. */
  ghost predicate TableThenNone(ms: seq<Meeting>, i: nat) {
    i + 1 < |ms| && HasTable(ms[i]) && AllHandlers(ms[i + 1].plugins) == []
  }

  /** The pointer to the table; `live` is the memory that belongs to it. */
  class TablePointer {
    var handlers: Option<nat>
    var live: set<nat>

    constructor ()
      ensures handlers.None? && live == {}
    {
      handlers, live := None, {};
    }

    /** prepare_handler_table, as far as the pointer is concerned. */
    method Prepare(m: Meeting)
      requires live == {}
      modifies this
      ensures if AllHandlers(m.plugins) == [] then handlers == old(handlers) && live == {}
              else if !m.memory then handlers.None? && live == {}
              else handlers.Some? && live == {handlers.value}
    {
      var size := CountHandlers(m.plugins);
      if size == 0 {
        return;
      }
      handlers := None;
      if m.memory {
        var at: nat := *;
        handlers, live := Some(at), {at};
      }
    }

    /** destroy_handler_table: the pointer stays; `ok` unless what it points to was freed before. */
    method Destroy() returns (ok: bool)
      requires live <= if handlers.Some? then {handlers.value} else {}
      modifies this`live
      ensures ok <==> handlers.None? || handlers.value in old(live)
      ensures live == {}
    {
      ok := handlers.None? || handlers.value in live;
      live := {};
    }

    /**
     One session after the other: the table is freed a second time if and only if a session with
     a table is followed by one without handlers, and then first at the end of that one.
     */
    method RunSessions(ms: seq<Meeting>) returns (twice: Option<nat>)
      requires handlers.None? && live == {}
      modifies this
      ensures twice.None? <==> forall i: nat :: !TableThenNone(ms, i)
      ensures twice.Some? ==> twice.value > 0 && TableThenNone(ms, twice.value - 1) &&
                              forall i: nat :: i < twice.value - 1 ==> !TableThenNone(ms, i)
    {
      hide AllHandlers;
      var k := 0;
      while k < |ms|
        invariant k <= |ms| && live == {}
        invariant handlers.Some? <==> k > 0 && HasTable(ms[k - 1])
        invariant forall i: nat :: i + 1 < k ==> !TableThenNone(ms, i)
      {
        Prepare(ms[k]);
        var ok := Destroy();
        if !ok {
          assert TableThenNone(ms, k - 1);
          return Some(k);
        }
        k := k + 1;
      }
      return None;
    }
  }

  /** A plugin with one handler, a session, the plugin unregistered, another session. */
  method TableFreedTwice() returns (twice: Option<nat>)
    ensures twice == Some(1)
  {
    var p := new TablePointer();
    var plugin := Plugin(1, Some(2), Some([Handler(3, 4)]));
    var ms := [Meeting([plugin], true), Meeting([], true)];
    assert [plugin][..0] == [];
    assert AllHandlers([plugin]) == [Handler(3, 4)];
    assert TableThenNone(ms, 0);
    twice := p.RunSessions(ms);
  }
}

/**
 Placing the generated code: relocation of the fallback copy and of the instrumented code,
 jump tables, and the layout of the detour buffer.  Addresses are integers; a displacement is
 stored in 32 bits and sign-extended by the processor.
 */
module Deploy {
  import opened Basics

  const TWO31 := 0x8000_0000
  const ALIGN := 16

  predicate InReach(d: int) { -TWO31 <= d < TWO31 }

  /** 32 bits hold a displacement if and only if it is within 2 GB either way. */
  lemma HoldsIffInReach(d: int)
    ensures SignExtend(Truncate(d)) == d <==> InReach(d)
  {
  }

  datatype Kind = Transfer | RipRelative | ImmediateAddress | Other

  /** An instruction at `off` in its function; `field` is its 32-bit displacement or immediate. */
  datatype Insn = Insn(off: nat, len: nat, kind: Kind, field: uint32)

  /** What the instruction refers to in a function that starts at `start`. */
  function Denotes(start: int, i: Insn): int { start + i.off + i.len + SignExtend(i.field) }

  // ---------------------------------------------------------- fallback functions

  /** Strictly inside: a call of the function's own start counts as a call out. */
  predicate InFunction(a: int, start: int, size: nat) { start < a < start + size }

  /**
   What becomes of an instruction in the copy: a transfer inside the function stays inside the
   copy, everything else that depends on its own address still means the same address, if and only
   if 32 bits can express it from there, and nothing else changes.
   */
  ghost predicate Kept(was: Insn, now: Insn, start: int, size: nat, fallback: int) {
    var t := Denotes(start, was);
    var reach := InReach(t - (fallback + was.off + was.len));
    && now == was.(field := now.field)
    && (was.kind.Transfer? && start < t < start + size && reach ==> Denotes(fallback, now) - fallback == t - start)
    && (was.kind.RipRelative? || (was.kind.Transfer? && (t <= start || t >= start + size)) ==>
        (Denotes(fallback, now) == t <==> reach))
    && (!was.kind.Transfer? && !was.kind.RipRelative? ==> now == was)
  }

  /** relocate_insn_in_fallback */
  method RelocateInsn(i: Insn, start: int, size: nat, fallback: int) returns (r: Insn)
    ensures Kept(i, r, start, size, fallback)
  {
    var offset := Truncate(start + SignExtend(i.field) - fallback);
    HoldsIffInReach(start + SignExtend(i.field) - fallback);
    if i.kind.Transfer? {
      var addr := fallback + i.off + i.len + SignExtend(offset);
      if InFunction(addr, start, size) {
        return i;
      }
      return i.(field := offset);
    }
    if i.kind.RipRelative? {
      return i.(field := offset);
    }
    return i;
  }

  /** relocate_fallback_function */
  method RelocateFallback(code: array<Insn>, start: int, size: nat, fallback: int)
    modifies code
    ensures forall k :: 0 <= k < code.Length ==> Kept(old(code[k]), code[k], start, size, fallback)
  {
    hide Kept;
    var k := 0;
    while k < code.Length
      invariant k <= code.Length
      invariant forall j :: k <= j < code.Length ==> code[j] == old(code[j])
      invariant forall j :: 0 <= j < k ==> Kept(old(code[j]), code[j], start, size, fallback)
    {
      var r := RelocateInsn(code[k], start, size, fallback);
      code[k] := r;
      k := k + 1;
    }
  }

  /** fixup_fallback_jump_tables: the same place in the copy. */
  method FixupFallbackTable(table: array<int>, start: int, fallback: int)
    modifies table
    ensures forall k :: 0 <= k < table.Length ==> table[k] - fallback == old(table[k]) - start
  {
    var k := 0;
    while k < table.Length
      invariant k <= table.Length
      invariant forall j :: 0 <= j < k ==> table[j] - fallback == old(table[j]) - start
      invariant forall j :: k <= j < table.Length ==> table[j] == old(table[j])
    {
      table[k] := table[k] - start + fallback;
      k := k + 1;
    }
  }

  // --------------------------------------------------------- instrumented code

  datatype RelocKind = IpRel(dest: int) | Addr32

  /** A relocation of the instruction number `at`. */
  datatype Reloc = Reloc(at: nat, kind: RelocKind)

  /** The stored immediate of `i`, sign-extended to 64 bits, as an address. */
  function StoredAddress(i: Insn): int { SignExtend(i.field) }

  /** What a relocation has to achieve, for code at `addr`. */
  ghost predicate Relocated(r: Reloc, was: Insn, i: Insn, addr: int) {
    && i == was.(field := i.field)
    && match r.kind
       case IpRel(dest) =>
         if was.kind.Transfer? || was.kind.RipRelative?
         then InReach(dest - (addr + was.off + was.len)) ==> Denotes(addr, i) == dest
         else i == was
       // the address of what the displacement referred to, if 32 bits can stand for it
       case Addr32 => InReach(Denotes(addr, was)) ==> StoredAddress(i) == Denotes(addr, was)
  }

  /** relocate_iprel_in_icode and relocate_addr32_in_icode; `ok` is the absence of a BUG_ON. */
  method Relocate(r: Reloc, i: Insn, addr: int) returns (ok: bool, j: Insn)
    ensures ok <==> (r.kind.Addr32? ==> i.field != 0)
    ensures ok ==> Relocated(r, i, j, addr)
  {
    match r.kind
    case IpRel(dest) =>
      if !i.kind.Transfer? && !i.kind.RipRelative? {
        return true, i;
      }
      HoldsIffInReach(dest - (addr + i.off + i.len));
      return true, i.(field := Truncate(dest - (addr + i.off + i.len)));
    case Addr32 =>
      if i.field == 0 {
        return false, i;
      }
      HoldsIffInReach(Denotes(addr, i));
      return true, i.(field := Truncate(Denotes(addr, i)));
  }

  ghost predicate ValidRelocs(relocs: seq<Reloc>, n: nat) {
    && (forall k :: 0 <= k < |relocs| ==> relocs[k].at < n)
    && (forall j, k :: 0 <= j < k < |relocs| ==> relocs[j].at != relocs[k].at)
  }

  /** deploy_instrumented_function: jump tables and relocations, each instruction once, no other touched. */
  method DeployFunction(code: array<Insn>, relocs: seq<Reloc>, table: array<int>, addr: int) returns (ok: bool)
    requires ValidRelocs(relocs, code.Length)
    modifies code, table
    ensures forall k :: 0 <= k < table.Length ==> table[k] == addr + old(table[k])
    ensures ok <==> forall k :: 0 <= k < |relocs| && relocs[k].kind.Addr32? ==> old(code[relocs[k].at]).field != 0
    ensures ok ==> forall k :: 0 <= k < |relocs| ==>
            Relocated(relocs[k], old(code[relocs[k].at]), code[relocs[k].at], addr)
    ensures forall j :: 0 <= j < code.Length && (forall k :: 0 <= k < |relocs| ==> relocs[k].at != j) ==>
            code[j] == old(code[j])
  {
    hide Relocated;
    FixupTable(table, addr);
    var n := 0;
    while n < |relocs|
      invariant n <= |relocs|
      invariant forall k :: 0 <= k < n ==> Relocated(relocs[k], old(code[relocs[k].at]), code[relocs[k].at], addr)
      invariant forall k :: 0 <= k < n && relocs[k].kind.Addr32? ==> old(code[relocs[k].at]).field != 0
      invariant forall j :: 0 <= j < code.Length && (forall k :: 0 <= k < n ==> relocs[k].at != j) ==>
                code[j] == old(code[j])
      modifies code
    {
      var r := relocs[n];
      assert code[r.at] == old(code[r.at]);
      var done, i := Relocate(r, code[r.at], addr);
      if !done {
        return false;
      }
      code[r.at] := i;
      n := n + 1;
    }
    return true;
  }

  /** fixup_instrumented_jump_tables */
  method FixupTable(table: array<int>, addr: int)
    modifies table
    ensures forall k :: 0 <= k < table.Length ==> table[k] == addr + old(table[k])
  {
    var k := 0;
    while k < table.Length
      invariant k <= table.Length
      invariant forall j :: 0 <= j < k ==> table[j] == addr + old(table[j])
      invariant forall j :: k <= j < table.Length ==> table[j] == old(table[j])
    {
      table[k] := table[k] + addr;
      k := k + 1;
    }
  }

  // -------------------------------------------------------- the detour buffer

  function Aligned(x: nat): (r: nat)
    ensures x <= r < x + ALIGN && r % ALIGN == 0
  {
    (x + ALIGN - 1) / ALIGN * ALIGN
  }

  ghost function Total(sizes: seq<nat>): nat {
    if sizes == [] then 0 else Total(sizes[..|sizes| - 1]) + Aligned(sizes[|sizes| - 1])
  }

  /** create_detour_buffer: how many bytes are allocated. */
  method BufferSize(sizes: seq<nat>) returns (size: nat)
    ensures size == ALIGN + Total(sizes)
  {
    size := ALIGN;
    assert sizes[..0] == [];
    for k := 0 to |sizes|
      invariant size == ALIGN + Total(sizes[..k])
    {
      assert sizes[..k + 1][..k] == sizes[..k];
      size := size + Aligned(sizes[k]);
    }
    assert sizes[..|sizes|] == sizes;
  }

  /** Images [addrs[k], addrs[k] + sizes[k]) inside the buffer, aligned, one after the other. */
  ghost predicate Placed(addrs: seq<nat>, sizes: seq<nat>, buffer: nat, size: nat) {
    && |addrs| == |sizes|
    && (forall k :: 0 <= k < |addrs| ==>
        buffer <= addrs[k] && addrs[k] + sizes[k] <= buffer + size && addrs[k] % ALIGN == 0)
    && (forall j, k :: 0 <= j < k < |addrs| ==> addrs[j] + sizes[j] <= addrs[k])
  }

  /** deploy_instrumented_code: where each image goes; they are disjoint and fit the buffer. */
  method PlaceImages(sizes: seq<nat>, buffer: nat) returns (addrs: seq<nat>)
    ensures Placed(addrs, sizes, buffer, ALIGN + Total(sizes))
  {
    hide Aligned;
    addrs := [];
    var dest := Aligned(buffer);
    assert sizes[..0] == [];
    for k := 0 to |sizes|
      invariant |addrs| == k && dest == Aligned(buffer) + Total(sizes[..k]) && dest % ALIGN == 0
      invariant forall i :: 0 <= i < k ==> buffer <= addrs[i] && addrs[i] + sizes[i] <= dest && addrs[i] % ALIGN == 0
      invariant forall i, j :: 0 <= i < j < k ==> addrs[i] + sizes[i] <= addrs[j]
    {
      assert sizes[..k + 1][..k] == sizes[..k];
      SumAligned(dest, Aligned(sizes[k]));
      addrs := addrs + [dest];
      dest := dest + Aligned(sizes[k]);
    }
    assert sizes[..|sizes|] == sizes;
  }

  lemma SumAligned(a: nat, b: nat)
    requires a % ALIGN == 0 && b % ALIGN == 0
    ensures (a + b) % ALIGN == 0
  {
  }

  /** Two images share no byte. */
  lemma ImagesDisjoint(addrs: seq<nat>, sizes: seq<nat>, buffer: nat, size: nat, j: nat, k: nat, a: nat)
    requires Placed(addrs, sizes, buffer, size) && j < |addrs| && k < |addrs| && j != k
    ensures !(addrs[j] <= a < addrs[j] + sizes[j] && addrs[k] <= a < addrs[k] + sizes[k])
  {
    if j < k {
      assert addrs[j] + sizes[j] <= addrs[k];
    } else {
      assert addrs[k] + sizes[k] <= addrs[j];
    }
  }
}

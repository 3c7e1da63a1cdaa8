/** Stores into the output buffer, shared by the compressor and the decompressor. */
module LzoBuffer {
  import opened LzoFormat

  lemma AppendSlice(pre: seq<byte>, inp: seq<byte>, ip: nat, k: nat, n: nat)
    requires ip + k + n <= |inp|
    ensures pre + inp[ip..ip + k] + inp[ip + k..ip + k + n] == pre + inp[ip..ip + k + n]
  {
  }

  /** One store of `n` consecutive bytes; nothing before `op` changes. */
  method StoreBlock(inp: seq<byte>, ip: nat, out: array<byte>, op: nat, n: nat)
    requires ip + n <= |inp| && op + n <= out.Length
    modifies out
    ensures out[..op + n] == old(out[..op]) + inp[ip..ip + n]
  {
    forall j | 0 <= j < n {
      out[op + j] := inp[ip + j];
    }
  }
}

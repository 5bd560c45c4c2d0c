/** What several parts of the kernel say of lists and buffers. */
module Collections {

  type Byte = bv8

  /** No element twice. */
  ghost predicate Distinct<T>(s: seq<T>) {
    forall i, j :: 0 <= i < j < |s| ==> s[i] != s[j]
  }

  /** Indexes a predicate that says one thing, so that a quantifier over it keeps that closed
      until it is asked for. */
  datatype Once = Only

  /** memcpy, between the elements from `to` and from `from` on. */
  method Copy<T>(dst: array<T>, to: nat, src: array<T>, from: nat, n: nat)
    requires dst != src && to + n <= dst.Length && from + n <= src.Length
    modifies dst
    ensures dst[..] == old(dst[..to]) + src[from..from + n] + old(dst[to + n..])
  {
    var i := 0;
    while i < n
      invariant i <= n
      invariant forall k :: to <= k < to + i ==> dst[k] == src[from + k - to]
      invariant forall k :: 0 <= k < dst.Length && !(to <= k < to + i) ==> dst[k] == old(dst[k])
    {
      dst[to + i] := src[from + i];
      i := i + 1;
    }
  }
}

/**
 * What a client knows of the allocator: live pointers and the bytes behind each, as many as were
 * asked for (ISO/IEC 9899:2011 section 7.22.3).
 */
module HeapSpec {
  import opened Sequences

  type Byte = n: nat | n < 256
  type Heap = map<nat, seq<Byte>>

  datatype Action =
    | Quiet
    | New(p: nat, s: seq<Byte>)
    | Write(p: nat, at: nat, s: seq<Byte>)
    | Resize(p: nat, s: seq<Byte>)
    | Delete(p: nat)

  /** The two contents agree on every byte both have. */
  ghost predicate SamePrefix(s: seq<Byte>, r: seq<Byte>) {
    var n := Min(|s|, |r|);
    s[..n] == r[..n]
  }

  ghost predicate Permitted(h: Heap, act: Action) {
    match act
    case Quiet => true
    case New(p, s) => p > 0 && p !in h && s != []
    case Write(p, at, s) => p in h && at + |s| <= |h[p]|
    case Resize(p, s) => p in h && s != [] && SamePrefix(h[p], s)
    case Delete(p) => p in h
  }

  function Overwrite(s: seq<Byte>, at: nat, r: seq<Byte>): seq<Byte>
    requires at + |r| <= |s|
  {
    s[..at] + r + s[at + |r|..]
  }

  ghost function Effect(h: Heap, act: Action): Heap
    requires Permitted(h, act)
  {
    match act
    case Quiet => h
    case New(p, s) => h[p := s]
    case Write(p, at, s) => h[p := Overwrite(h[p], at, s)]
    case Resize(p, s) => h[p := s]
    case Delete(p) => h - {p}
  }
}

/**
 The host's byte-addressed memory as the `peek!` and `poke!` macros see it.

 Memory-mapped registers are ordinary map entries: a read of an address is a
 lookup, a write is an update. An address outside the map is one no hardware
 backs; reading it is the caller's responsibility, so `Peek` requires it.
 */
module Memory {

  type Mem = map<int, bv8>

  /** One transaction on the bus: a byte read from, or written to, an address. */
  datatype Access = Read(addr: int, value: bv8) | Write(addr: int, value: bv8)

  /** `peek!(a)`: the byte currently at `a`. */
  function Peek(m: Mem, a: int): bv8
    requires a in m
  {
    m[a]
  }

  /** `poke!(a, v)`: memory with `v` stored at `a` and every other byte kept. */
  function Poke(m: Mem, a: int, v: bv8): (m': Mem)
    ensures a in m' && Peek(m', a) == v
    ensures m'.Keys == m.Keys + {a}
    ensures forall b :: b in m && b != a ==> m'[b] == m[b]
  {
    m[a := v]
  }

  /** `m'` differs from `m` at most at the addresses in `touched`. */
  ghost predicate ChangedAtMost(m: Mem, m': Mem, touched: set<int>)
  {
    && m'.Keys == m.Keys
    && forall a :: a in m && a !in touched ==> m'[a] == m[a]
  }
}

/**
 IPv4 addresses as 32-bit numbers and CIDR prefixes as aligned power-of-two blocks.
 */
module Net {

  /** The conventional optional value. */
  datatype Option<+T> = None | Some(value: T)

  /** The number of VMs in a batch, and of descriptors in a control frame. */
  const MAX_VMS: nat := 5

  type Address = a: int | 0 <= a < 0x1_0000_0000
  type Port = p: int | 0 <= p < 0x1_0000
  type PrefixLen = n: int | 0 <= n <= 32

  function Pow2(n: nat): (r: nat)
    ensures 0 < r
  {
    if n == 0 then 1 else 2 * Pow2(n - 1)
  }

  lemma {:induction false} Pow2Splits(m: nat, n: nat)
    requires m <= n
    ensures Pow2(n) == Pow2(m) * Pow2(n - m)
    decreases n - m
  {
    if m < n {
      Pow2Splits(m, n - 1);
      assert Pow2(n) == 2 * (Pow2(m) * Pow2(n - 1 - m)) == Pow2(m) * (2 * Pow2(n - 1 - m));
    }
  }

  /** The number of addresses in a block of the given prefix length. */
  function BlockSize(len: PrefixLen): (r: nat)
    ensures 0 < r <= 0x1_0000_0000
    ensures 0x1_0000_0000 % r == 0
  {
    assert Pow2(32) == 0x1_0000_0000 by { Pow2Thirtytwo(); }
    Pow2Splits(32 - len, 32);
    ProductIsDivisible(Pow2(32 - len), Pow2(len));
    Pow2(32 - len)
  }

  lemma Pow2Thirtytwo()
    ensures Pow2(32) == 0x1_0000_0000
  {
    assert Pow2(8) == 256;
    Pow2Splits(8, 16);
    Pow2Splits(16, 32);
  }

  lemma ProductIsDivisible(size: nat, count: nat)
    requires 0 < size
    requires 0 < count
    ensures size * count % size == 0
    ensures size <= size * count
  {
    DivisionIsUnique(size * count, size, count, 0);
  }

  /** Euclid: quotient and remainder are determined by their defining equation. */
  lemma DivisionIsUnique(x: int, size: int, q: int, r: int)
    requires 0 < size
    requires 0 <= r < size
    requires x == size * q + r
    ensures x / size == q
    ensures x % size == r
  {
    var q', r' := x / size, x % size;
    assert x == size * q' + r';
    QuotientsAgree(size, q, r, q', r');
  }

  lemma QuotientsAgree(size: int, q: int, r: int, q': int, r': int)
    requires 0 <= r < size && 0 <= r' < size
    requires size * q + r == size * q' + r'
    ensures q == q' && r == r'
  {
    assert size * (q' - q) == size * q' - size * q;
    Scaled(size, q' - q);
  }

  lemma Scaled(size: int, d: int)
    requires 0 < size
    ensures 1 <= d ==> size <= size * d
    ensures d <= -1 ==> size * d <= -size
  {
  }

  /** The largest multiple of `size` up to `a`, and the room above it, for a `total` that is a multiple too. */
  lemma AlignedStart(a: int, size: int, total: int)
    requires 0 < size && 0 <= a < total && total % size == 0
    ensures 0 <= a - a % size
    ensures (a - a % size) % size == 0
    ensures a - a % size + size <= total
  {
    var q, n := a / size, total / size;
    assert a == size * q + a % size && total == size * n;
    DivisionIsUnique(a - a % size, size, q, 0);
    MultiplesFit(size, q, n);
  }

  /** The multiple below a smaller number leaves room for one more below the larger multiple. */
  lemma MultiplesFit(size: int, q: int, n: int)
    requires 0 < size
    ensures 0 <= q ==> 0 <= size * q
    ensures q < n ==> size * q + size <= size * n
    ensures size * q < size * n ==> q < n
    ensures 0 < size * q + size ==> 0 <= q
  {
    assert size * (n - q) == size * n - size * q;
    Scaled(size, n - q);
    Scaled(size, q);
  }

  /** Everything from a multiple of `size` up to the next one has that multiple below it. */
  lemma AlignedAt(t: int, b: int, size: int)
    requires 0 < size && t % size == 0 && t <= b < t + size
    ensures b - b % size == t
  {
    var q := t / size;
    assert t == size * q;
    DivisionIsUnique(b, size, q, b - t);
  }

  /** The first address of the block of length `len` that holds `a`. */
  function Truncate(a: Address, len: PrefixLen): (r: Address)
    ensures r <= a < r + BlockSize(len)
    ensures r % BlockSize(len) == 0
    ensures r + BlockSize(len) <= 0x1_0000_0000
  {
    AlignedStart(a, BlockSize(len), 0x1_0000_0000);
    a - a % BlockSize(len)
  }

  /** Two addresses share their block exactly when one lies in the other's block. */
  lemma SameBlock(a: Address, b: Address, len: PrefixLen)
    ensures Truncate(a, len) <= b < Truncate(a, len) + BlockSize(len) <==> Truncate(a, len) == Truncate(b, len)
  {
    if Truncate(a, len) <= b < Truncate(a, len) + BlockSize(len) {
      AlignedAt(Truncate(a, len), b, BlockSize(len));
    }
  }

  lemma TruncateIdempotent(a: Address, len: PrefixLen)
    ensures Truncate(Truncate(a, len), len) == Truncate(a, len)
  {
    SameBlock(a, Truncate(a, len), len);
  }

  /** An address with a prefix length; the address need not be the first of its block. */
  datatype Prefix = Prefix(address: Address, len: PrefixLen) {
    function Network(): (r: Address)
      ensures r <= address
    {
      Truncate(address, len)
    }

    function Broadcast(): (r: Address)
      ensures Network() <= r
      ensures address <= r
    {
      Network() + BlockSize(len) - 1
    }

    predicate Covers(a: Address) {
      Network() <= a <= Broadcast()
    }

    /** Containment of another prefix, decided on the block boundaries. */
    predicate Contains(other: Prefix) {
      Network() <= other.Network() && other.Broadcast() <= Broadcast()
    }

    function Truncated(): Prefix {
      Prefix(Network(), len)
    }
  }

  /** The only truncated prefix of a given length that covers an address is the address's own block. */
  lemma CoverIsUnique(p: Prefix, a: Address)
    requires p.Truncated() == p
    ensures p.Covers(a) <==> p == Prefix(Truncate(a, p.len), p.len)
  {
    SameBlock(p.address, a, p.len);
    TruncateIdempotent(a, p.len);
  }

  lemma TruncatedIsTruncated(p: Prefix)
    ensures p.Truncated().Truncated() == p.Truncated()
    ensures p.Truncated().Broadcast() == p.Broadcast()
  {
    TruncateIdempotent(p.address, p.len);
  }

  /** A prefix of length zero covers the whole address space. */
  lemma WholeSpaceCovers(p: Prefix, a: Address)
    requires p.len == 0
    ensures p.Covers(a)
  {
    Pow2Thirtytwo();
    assert BlockSize(p.len) == 0x1_0000_0000;
    assert p.Network() == 0;
  }

  /** The leading bits of an address agree with those of a prefix. */
  predicate InBlock(p: Prefix, a: Address) {
    a / Pow2(32 - p.len) == p.address / Pow2(32 - p.len)
  }

  lemma Quotient(a: int, size: int)
    requires 0 < size
    ensures a - a % size == size * (a / size)
  {
  }

  lemma SameQuotient(a: int, b: int, size: int)
    requires 0 < size
    ensures size * (a / size) == size * (b / size) ==> a / size == b / size
  {
    var q, r := a / size, b / size;
    assert size * (q - r) == size * q - size * r;
    Scaled(size, q - r);
  }

  /** Covering is agreement on the leading bits. */
  lemma CoversMeans(p: Prefix, a: Address)
    ensures p.Covers(a) <==> InBlock(p, a)
  {
    var size := BlockSize(p.len);
    SameBlock(p.address, a, p.len);
    Quotient(a, size);
    Quotient(p.address, size);
    SameQuotient(a, p.address, size);
  }

  /** Prefixes of one length with the same block truncate alike, and only those. */
  lemma TruncatedAlike(p: Prefix, o: Prefix)
    requires p.len == o.len
    ensures p.Truncated() == o.Truncated() <==> InBlock(p, o.address)
  {
    SameBlock(p.address, o.address, p.len);
    CoversMeans(p, o.address);
  }
}

/**
 Choosing a private subnet that no host interface uses, and assigning its addresses.
 Randomness is a parameter: any draws are allowed.
 */
module Subnet {
  import opened Net

  const MAX_ATTEMPTS: nat := 128
  const SUBNET_PREFIX_LEN: PrefixLen := 29

  function Quad(a: int, b: int, c: int, d: int): Address
    requires 0 <= a < 256 && 0 <= b < 256 && 0 <= c < 256 && 0 <= d < 256
  {
    0x100_0000 * a + 0x1_0000 * b + 0x100 * c + d
  }

  /** The private ranges of section 3 of RFC 1918, with 192.168.0.0/16 narrowed to its first hundred /24 blocks. */
  function PrivateRanges(): seq<Prefix> {
    [ Prefix(Quad(10, 0, 0, 0), 8),
      Prefix(Quad(172, 16, 0, 0), 12),
      Prefix(Quad(192, 168, 0, 0), 18),
      Prefix(Quad(192, 168, 64, 0), 19),
      Prefix(Quad(192, 168, 96, 0), 22) ]
  }

  /** From 10.0.0.0 to 10.255.255.255, from 172.16.0.0 to 172.31.255.255, or from 192.168.0.0 to 192.168.99.255. */
  predicate IsPrivate(a: Address) {
    || 0x0A00_0000 <= a <= 0x0AFF_FFFF
    || 0xAC10_0000 <= a <= 0xAC1F_FFFF
    || 0xC0A8_0000 <= a <= 0xC0A8_63FF
  }

  /** The octets of such an address. */
  lemma PrivateOctets(first: int, second: int, third: int, fourth: int)
    requires 0 <= first < 256 && 0 <= second < 256 && 0 <= third < 256 && 0 <= fourth < 256
    ensures IsPrivate(Quad(first, second, third, fourth)) <==>
            || first == 10
            || (first == 172 && 16 <= second <= 31)
            || (first == 192 && second == 168 && third <= 99)
  {
  }

  lemma AlignedCovers(p: Prefix, size: int, a: Address)
    requires BlockSize(p.len) == size && p.address % size == 0
    ensures p.Covers(a) <==> p.address <= a < p.address + size
  {
  }

  lemma Sizes()
    ensures BlockSize(8) == 0x100_0000 && BlockSize(12) == 0x10_0000 && BlockSize(18) == 0x4000
    ensures BlockSize(19) == 0x2000 && BlockSize(22) == 0x400
  {
    assert Pow2(10) == 0x400;
    Pow2Splits(10, 13);
    Pow2Splits(10, 14);
    Pow2Splits(10, 20);
    Pow2Splits(4, 24);
    assert Pow2(3) == 8 && Pow2(4) == 16;
  }

  lemma RangeMeans(r: nat, a: Address)
    requires r < |PrivateRanges()|
    ensures PrivateRanges()[r].Covers(a) <==>
            match r
            case 0 => 0x0A00_0000 <= a <= 0x0AFF_FFFF
            case 1 => 0xAC10_0000 <= a <= 0xAC1F_FFFF
            case 2 => 0xC0A8_0000 <= a <= 0xC0A8_3FFF
            case 3 => 0xC0A8_4000 <= a <= 0xC0A8_5FFF
            case _ => 0xC0A8_6000 <= a <= 0xC0A8_63FF
  {
    Sizes();
    var p := PrivateRanges()[r];
    AlignedCovers(p, BlockSize(p.len), a);
  }

  /** The addresses to draw from are exactly the private ones. */
  lemma PrivateExactly(a: Address)
    ensures IsPrivate(a) <==> exists r :: 0 <= r < |PrivateRanges()| && PrivateRanges()[r].Covers(a)
  {
    if IsPrivate(a) {
      var r := if a <= 0x0AFF_FFFF then 0 else if a <= 0xAC1F_FFFF then 1 else if a <= 0xC0A8_3FFF then 2
               else if a <= 0xC0A8_5FFF then 3 else 4;
      RangeMeans(r, a);
    }
    if r :| 0 <= r < |PrivateRanges()| && PrivateRanges()[r].Covers(a) {
      RangeMeans(r, a);
    }
  }

  lemma InsidePrivate(r: nat, subnet: Prefix)
    requires r < |PrivateRanges()| && PrivateRanges()[r].Contains(subnet)
    ensures forall a: Address :: subnet.Covers(a) ==> IsPrivate(a)
  {
    forall a: Address | subnet.Covers(a) ensures IsPrivate(a) {
      RangeMeans(r, a);
    }
  }

  // ---------------------------------------------------------------------------
  // Block arithmetic

  lemma SizeDivides(coarse: PrefixLen, fine: PrefixLen) returns (count: nat)
    requires coarse <= fine
    ensures 0 < count && BlockSize(coarse) == BlockSize(fine) * count
  {
    Pow2Splits(32 - fine, 32 - coarse);
    count := Pow2(fine - coarse);
  }

  /** A multiple of a block size that lies below another multiple leaves room for a whole block. */
  lemma MultiplesApart(size: int, a: int, b: int)
    requires 0 < size
    ensures size * a < size * b ==> size * a + size <= size * b
  {
    assert size * (b - a) == size * b - size * a;
    Scaled(size, b - a);
  }

  /** Two aligned blocks that share `x`: the smaller lies inside the larger. */
  lemma AlignedBlocksNest(x: int, size: int, start: int, end: int, q: int)
    requires 0 < size && size * start <= x < size * end && size * q <= x < size * q + size
    ensures size * start <= size * q && size * q + size <= size * end
  {
    MultiplesApart(size, q, start);
    MultiplesApart(size, q, end);
  }

  /** The fine block of an address lies inside its coarse block. */
  lemma BlocksNest(x: Address, coarse: PrefixLen, fine: PrefixLen)
    requires coarse <= fine
    ensures Truncate(x, coarse) <= Truncate(x, fine)
    ensures Truncate(x, fine) + BlockSize(fine) <= Truncate(x, coarse) + BlockSize(coarse)
  {
    var count := SizeDivides(coarse, fine);
    var size := BlockSize(fine);
    var c, f := Truncate(x, coarse), Truncate(x, fine);
    var qc, qf := c / BlockSize(coarse), f / size;
    Aligned(c, BlockSize(coarse));
    Aligned(f, size);
    Rescaled(size, count, qc);
    AlignedBlocksNest(x, size, count * qc, count * qc + count, qf);
  }

  lemma Aligned(t: int, size: int)
    requires 0 < size && t % size == 0
    ensures t == size * (t / size)
  {
  }

  lemma Rescaled(size: int, count: int, q: int)
    ensures (size * count) * q == size * (count * q)
    ensures (size * count) * q + size * count == size * (count * q + count)
  {
  }

  // ---------------------------------------------------------------------------
  // Overlap

  /** The test the search uses. */
  predicate Overlaps(a: Prefix, b: Prefix) {
    a.Contains(b) || b.Contains(a)
  }

  lemma SharedAddressNests(a: Prefix, b: Prefix, x: Address)
    requires a.len <= b.len && a.Covers(x) && b.Covers(x)
    ensures a.Contains(b)
  {
    SameBlock(a.address, x, a.len);
    SameBlock(b.address, x, b.len);
    BlocksNest(x, a.len, b.len);
  }

  /** The two-way containment test is true exactly when the two blocks share an address. */
  lemma OverlapMeansSharedAddress(a: Prefix, b: Prefix)
    ensures Overlaps(a, b) <==> exists x: Address :: a.Covers(x) && b.Covers(x)
  {
    if Overlaps(a, b) {
      var x := if a.Contains(b) then b.Network() else a.Network();
      assert a.Covers(x) && b.Covers(x);
    }
    if x: Address :| a.Covers(x) && b.Covers(x) {
      if a.len <= b.len {
        SharedAddressNests(a, b, x);
      } else {
        SharedAddressNests(b, a, x);
      }
    }
  }

  /** Truncating an address of a range to a longer prefix stays inside the range. */
  lemma TruncationStaysInside(range: Prefix, address: Address, len: PrefixLen)
    requires range.len <= len && range.Covers(address)
    ensures range.Contains(Prefix(address, len).Truncated())
  {
    TruncatedIsTruncated(Prefix(address, len));
    SharedAddressNests(range, Prefix(address, len).Truncated(), address);
  }

  // ---------------------------------------------------------------------------
  // Hosts

  function AddressAt(p: Prefix, i: nat): Address
    requires i < BlockSize(p.len)
  {
    p.Network() + i
  }

  /** The usable addresses: all but the first and last, except in blocks too small to spare them. */
  function Hosts(p: Prefix): (hosts: seq<Address>)
    ensures |hosts| == if p.len < 31 then BlockSize(p.len) - 2 else BlockSize(p.len)
    ensures forall i :: 0 <= i < |hosts| ==> hosts[i] == p.Network() + i + (if p.len < 31 then 1 else 0)
  {
    SmallBlocks(p.len);
    var skip := if p.len < 31 then 1 else 0;
    var n := BlockSize(p.len) - 2 * skip;
    var hosts := seq<Address>(n, i requires 0 <= i < n => AddressAt(p, i + skip));
    assert forall i :: 0 <= i < n ==> hosts[i] == AddressAt(p, i + skip);
    hosts
  }

  lemma SmallBlocks(len: PrefixLen)
    ensures len < 31 ==> 4 <= BlockSize(len)
    ensures BlockSize(29) == 8 && BlockSize(31) == 2 && BlockSize(32) == 1
  {
    assert Pow2(0) == 1 && Pow2(1) == 2 && Pow2(2) == 4 && Pow2(3) == 8;
    if len < 31 {
      Pow2Splits(2, 32 - len);
    }
  }

  // ---------------------------------------------------------------------------
  // The search

  datatype Choice = Choice(range: nat, address: Address) {
    predicate Valid() {
      range < |PrivateRanges()| && PrivateRanges()[range].Covers(address)
    }
  }

  datatype Found = Found(first: Address, second: Address, subnet: Prefix) | Exhausted | InvalidLength

  /** An attempt succeeds when the drawn range is large enough, the candidate is free and has two hosts. */
  ghost predicate Succeeds(choice: Choice, len: PrefixLen, used: seq<Prefix>)
    requires choice.Valid()
  {
    && PrivateRanges()[choice.range].len <= len
    && |Hosts(Prefix(choice.address, len).Truncated())| >= 2
    && forall i :: 0 <= i < |used| ==>
         !exists x: Address :: used[i].Covers(x) && Prefix(choice.address, len).Truncated().Covers(x)
  }

  /** What a returned subnet guarantees. */
  ghost predicate IsAvailable(found: Found, len: nat, used: seq<Prefix>)
    requires found.Found?
  {
    && found.subnet.len == len && found.subnet.Truncated() == found.subnet
    && (exists r :: 0 <= r < |PrivateRanges()| && PrivateRanges()[r].Contains(found.subnet))
    && (forall x: Address :: found.subnet.Covers(x) ==> IsPrivate(x))
    && (forall i, x: Address :: 0 <= i < |used| && used[i].Covers(x) ==> !found.subnet.Covers(x))
    && |Hosts(found.subnet)| >= 2 && Hosts(found.subnet)[..2] == [found.first, found.second]
  }

  method AnyOverlap(candidate: Prefix, used: seq<Prefix>) returns (overlaps: bool)
    ensures overlaps <==> exists i :: 0 <= i < |used| && exists x: Address :: used[i].Covers(x) && candidate.Covers(x)
  {
    for i := 0 to |used|
      invariant forall j :: 0 <= j < i ==> !exists x: Address :: used[j].Covers(x) && candidate.Covers(x)
    {
      OverlapMeansSharedAddress(candidate, used[i]);
      if candidate.Contains(used[i]) || used[i].Contains(candidate) {
        return true;
      }
    }
    return false;
  }

  /** One attempt with a drawn range and address. */
  method Attempt(choice: Choice, len: PrefixLen, used: seq<Prefix>) returns (found: Found)
    requires choice.Valid()
    ensures found.Found? ==> IsAvailable(found, len, used)
    ensures if Succeeds(choice, len, used) then found.Found? else found.Exhausted?
  {
    var range := PrivateRanges()[choice.range];
    if len < range.len {
      return Exhausted;
    }
    var candidate := Prefix(choice.address, len).Truncated();
    TruncationStaysInside(range, choice.address, len);
    InsidePrivate(choice.range, candidate);
    TruncatedIsTruncated(Prefix(choice.address, len));
    var overlaps := AnyOverlap(candidate, used);
    var hosts := Hosts(candidate);
    if !overlaps && |hosts| >= 2 {
      return Found(hosts[0], hosts[1], candidate);
    }
    return Exhausted;
  }

  /** Tries up to `MAX_ATTEMPTS` drawn subnets of the wanted length. */
  method FindAvailableSubnet(prefixLen: nat, used: seq<Prefix>, choices: seq<Choice>) returns (found: Found)
    requires |choices| == 128 && forall i :: 0 <= i < |choices| ==> choices[i].Valid()
    ensures found.Found? ==> IsAvailable(found, prefixLen, used)
    ensures found.InvalidLength? <==> prefixLen > 32
    ensures found.Exhausted? <==>
            prefixLen <= 32 && forall i :: 0 <= i < 128 ==> !Succeeds(choices[i], prefixLen, used)
  {
    if prefixLen > 32 {
      return InvalidLength;
    }
    for n := 0 to MAX_ATTEMPTS
      invariant forall i :: 0 <= i < n ==> !Succeeds(choices[i], prefixLen, used)
    {
      found := Attempt(choices[n], prefixLen, used);
      if found.Found? {
        assert Succeeds(choices[n], prefixLen, used);
        return;
      }
    }
    return Exhausted;
  }

  // ---------------------------------------------------------------------------
  // Assignment

  /** Addresses for `n` VMs, after the first host has gone to the gateway. */
  method AssignAddresses(subnet: Prefix, n: nat) returns (addresses: Option<seq<Address>>)
    ensures addresses.Some? <==> n == 0 || n < |Hosts(subnet)|
    ensures addresses.Some? ==>
              |addresses.value| == n && forall i :: 0 <= i < n ==> addresses.value[i] == Hosts(subnet)[i + 1]
  {
    var hosts := Hosts(subnet);
    var vms: seq<Address> := [];
    for i := 0 to n
      invariant |vms| == i && (i == 0 || i < |hosts|)
      invariant forall j :: 0 <= j < i ==> vms[j] == hosts[j + 1]
    {
      if i + 1 >= |hosts| {
        return None;
      }
      vms := vms + [hosts[i + 1]];
    }
    return Some(vms);
  }

  /** An accepted batch always gets addresses: distinct, inside the subnet, and none of them reserved. */
  lemma BatchIsAssignable(subnet: Prefix, n: nat, i: nat, j: nat)
    requires subnet.len == SUBNET_PREFIX_LEN && n <= MAX_VMS && i < n && j < n
    ensures n < |Hosts(subnet)| == 6
    ensures subnet.Covers(Hosts(subnet)[i + 1])
    ensures Hosts(subnet)[i + 1] !in {subnet.Network(), subnet.Broadcast(), Hosts(subnet)[0]}
    ensures i != j ==> Hosts(subnet)[i + 1] != Hosts(subnet)[j + 1]
  {
    SmallBlocks(29);
  }
}

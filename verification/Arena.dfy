/** The arena allocator: bump allocation over a growing chain of slabs. */
module ArenaAllocator {
  import opened Sequences
  import opened Bits

  const WORD: nat := 0x1_0000_0000_0000_0000
  /** User addresses, and so whole allocations, lie below this. */
  const ADDRESS_LIMIT: nat := 0x8000_0000_0000_0000
  const DEFAULT_CAP: nat := 65536
  const MAX_ALIGN: nat := 4096
  /** The size of a slab's header, which precedes its bytes. */
  const HEADER: nat := 24
  /** The size of the arena record. */
  const RECORD: nat := 24

  /** A `size_t`. */
  type Size = n: nat | n < WORD

  newtype Byte = x: int | 0 <= x < 256

  // ----- alignment -----

  /** `(p + a - 1) & ~(a - 1)` on 64-bit words. */
  function MaskUp(p: nat, a: nat): nat
    requires 0 < a <= WORD
  {
    BitAnd((p + a - 1) % WORD, WORD - 1 - (a - 1))
  }

  lemma WordIsPow2()
    ensures Pow2(64) == WORD
  {
    assert Pow2(8) == 256;
    assert Pow2(16) == 65536;
    assert Pow2(24) == 0x100_0000;
    assert Pow2(32) == 0x1_0000_0000;
    assert Pow2(40) == 0x100_0000_0000;
    assert Pow2(48) == 0x1_0000_0000_0000;
    assert Pow2(56) == 0x100_0000_0000_0000;
  }

  lemma {:induction false} Pow2Monotone(k: nat, n: nat)
    requires k <= n
    ensures Pow2(k) <= Pow2(n)
  {
    if k < n {
      Pow2Monotone(k, n - 1);
    }
  }

  lemma {:induction false} SmallPow2(k: nat)
    requires Pow2(k) <= MAX_ALIGN
    ensures k <= 64
  {
    if k > 64 {
      Pow2Monotone(64, k);
      WordIsPow2();
    }
  }

  lemma ClearLowBits(x: nat, a: nat, w: nat)
    requires w == WORD && IsPow2(a) && a <= MAX_ALIGN && x < w
    ensures 0 < a && BitAnd(x, w - a) == x - x % a
  {
    var k: nat :| a == Pow2(k);
    SmallPow2(k);
    WordIsPow2();
    MaskHigh(x, k, 64);
  }

  /** Bytes from `p` up to the next multiple of `a`. */
  function Padding(p: nat, a: nat): (pad: nat)
    requires a > 0
    ensures pad < a
  {
    if p % a == 0 then 0 else a - p % a
  }

  /** A multiple of `a` plus a remainder, rounded up. */
  lemma RoundUpFrom(d: nat, m: nat, a: nat)
    requires m < a
    ensures var p, pad := d * a + m, if m == 0 then 0 else a - m;
            (p + pad) % a == 0 && (p + a - 1) - (p + a - 1) % a == p + pad
  {
    var p := d * a + m;
    if m == 0 {
      UniqueRemainder(p, a, d, 0);
      UniqueRemainder(p + a - 1, a, d, a - 1);
    } else {
      assert (d + 1) * a == d * a + a;
      UniqueRemainder(p + a - m, a, d + 1, 0);
      UniqueRemainder(p + a - 1, a, d + 1, m - 1);
    }
  }

  lemma PaddingAligns(p: nat, a: nat)
    requires a > 0
    ensures (p + Padding(p, a)) % a == 0
    ensures (p + a - 1) - (p + a - 1) % a == p + Padding(p, a)
  {
    assert p == (p / a) * a + p % a;
    RoundUpFrom(p / a, p % a, a);
  }

  lemma MaskUpPads(p: nat, a: nat)
    requires IsPow2(a) && a <= MAX_ALIGN && p <= ADDRESS_LIMIT
    ensures 0 < a && MaskUp(p, a) == p + Padding(p, a)
  {
    assert a > 0;
    var x := p + a - 1;
    NoWordWrap(x);
    ClearLowBits(x, a, WORD);
    PaddingAligns(p, a);
  }

  /** For a power of two the mask expression is the least multiple of `a` that is at least `p`. */
  lemma MaskUpIsRoundUp(p: nat, a: nat)
    requires IsPow2(a) && a <= MAX_ALIGN && p <= ADDRESS_LIMIT
    ensures 0 < a && MaskUp(p, a) == p + Padding(p, a)
    ensures MaskUp(p, a) % a == 0 && p <= MaskUp(p, a)
    ensures forall q: nat :: p <= q && q % a == 0 ==> MaskUp(p, a) <= q
  {
    MaskUpPads(p, a);
    PaddingAligns(p, a);
    forall q: nat | p <= q && q % a == 0
      ensures MaskUp(p, a) <= q
    {
      NextMultiple(p + Padding(p, a), q, a);
    }
  }

  lemma NoWordWrap(x: nat)
    requires x < WORD
    ensures x % WORD == x
  {
  }

  lemma NextMultiple(r: nat, q: nat, a: nat)
    requires a > 0 && r % a == 0 && q % a == 0 && r < q + a
    ensures r <= q
  {
    var i, j := r / a, q / a;
    assert r == i * a && q == j * a;
    if i > j {
      MulMonotone(j + 1, i, a);
    } else {
      MulMonotone(i, j, a);
    }
  }

  lemma MulMonotone(i: int, j: int, a: nat)
    requires i <= j
    ensures i * a <= j * a
  {
  }

  // ----- when a request fits -----

  /** Capacity of the slab the allocator appends when the chain has no room, in 64-bit arithmetic. */
  function GrowthCap(size: Size, a: nat): nat {
    var wanted := if size > DEFAULT_CAP then (size + a) % WORD else DEFAULT_CAP;
    if wanted < DEFAULT_CAP then DEFAULT_CAP else wanted
  }

  /** An empty slab of the growth size is sure to have room, wherever the platform places it. */
  predicate GuaranteedFit(size: Size, a: nat) {
    if size > DEFAULT_CAP then size + a < WORD else size + a - 1 <= DEFAULT_CAP
  }

  /** Exactly the requests that fit a fresh slab at every address. */
  lemma FreshSlabFits(size: Size, a: nat)
    requires 0 < size && 0 < a <= MAX_ALIGN
    ensures GuaranteedFit(size, a) <==> forall base: nat :: Padding(base, a) + size <= GrowthCap(size, a)
  {
    WordWrap(size + a);
    if !GuaranteedFit(size, a) {
      if a > 1 {
        UniqueRemainder(1, a, 0, 1);
      }
      assert Padding(1, a) == a - 1;
    }
  }

  lemma WordWrap(x: nat)
    requires x < 2 * WORD
    ensures x % WORD == if x < WORD then x else x - WORD
  {
  }

  // ----- the arena as a value -----

  /** Address, capacity, used mark and bytes of one slab. */
  datatype Shape = Shape(base: nat, cap: nat, used: nat, data: seq<Byte>)

  /** Used bytes lie in the slab, and everything above them is zero. */
  predicate ShapeOk(s: Shape) {
    && s.used <= s.cap == |s.data| && 0 < s.base && s.base + s.cap <= ADDRESS_LIMIT
    && forall j :: s.used <= j < s.cap ==> s.data[j] == 0
  }

  function Empty(base: nat, cap: nat): Shape {
    Shape(base, cap, 0, seq(cap, _ => 0))
  }

  /** A block handed out: `size` bytes at `offset` in slab number `slab`. */
  datatype Block = Block(slab: nat, offset: nat, size: nat)

  predicate Apart(b1: nat, n1: nat, b2: nat, n2: nat) {
    b1 + n1 <= b2 || b2 + n2 <= b1
  }

  ghost predicate ShapesOk(shapes: seq<Shape>, cur: nat) {
    && cur < |shapes|
    && (forall i :: 0 <= i < |shapes| ==> ShapeOk(shapes[i]))
    && (forall i, j :: 0 <= i < j < |shapes| ==> Apart(shapes[i].base, shapes[i].cap, shapes[j].base, shapes[j].cap))
    && (forall i :: cur < i < |shapes| ==> shapes[i].used == 0)
  }

  /** Every live block lies below the used mark of its slab, apart from every other in that slab. */
  ghost predicate BlocksOk(shapes: seq<Shape>, live: seq<Block>) {
    && (forall k :: 0 <= k < |live| ==> live[k].slab < |shapes| && live[k].offset + live[k].size <= shapes[live[k].slab].used)
    && (forall k, l :: 0 <= k < l < |live| && live[k].slab == live[l].slab ==>
          Apart(live[k].offset, live[k].size, live[l].offset, live[l].size))
  }

  function Address(shapes: seq<Shape>, b: Block): nat
    requires b.slab < |shapes|
  {
    shapes[b.slab].base + b.offset
  }

  /** Live blocks never overlap in the address space, in whatever slabs they are. */
  lemma LiveBlocksDisjoint(shapes: seq<Shape>, cur: nat, live: seq<Block>, k: nat, l: nat)
    requires ShapesOk(shapes, cur) && BlocksOk(shapes, live) && k < |live| && l < |live| && k != l
    ensures Apart(Address(shapes, live[k]), live[k].size, Address(shapes, live[l]), live[l].size)
  {
    var a, b := live[k].slab, live[l].slab;
    if a != b {
      assert Apart(shapes[a].base, shapes[a].cap, shapes[b].base, shapes[b].cap);
    }
  }

  /** Room for `size` bytes aligned to `a` above the used mark. */
  predicate Fits(s: Shape, size: nat, a: nat)
    requires a > 0
  {
    s.used + Padding(s.base + s.used, a) + size <= s.cap
  }

  function Raise(shapes: seq<Shape>, cur: nat, amount: nat): seq<Shape>
    requires cur < |shapes|
  {
    shapes[cur := shapes[cur].(used := shapes[cur].used + amount)]
  }

  lemma RaiseKeepsOk(shapes: seq<Shape>, cur: nat, live: seq<Block>, pad: nat, size: nat)
    requires ShapesOk(shapes, cur) && BlocksOk(shapes, live) && shapes[cur].used + pad + size <= shapes[cur].cap
    ensures ShapesOk(Raise(shapes, cur, pad + size), cur)
    ensures BlocksOk(Raise(shapes, cur, pad + size), live + [Block(cur, shapes[cur].used + pad, size)])
  {
  }

  lemma AppendKeepsOk(shapes: seq<Shape>, cur: nat, live: seq<Block>, s: Shape)
    requires ShapesOk(shapes, cur) && BlocksOk(shapes, live) && cur == |shapes| - 1
    requires s.used == 0 && ShapeOk(s)
    requires forall i :: 0 <= i < |shapes| ==> Apart(shapes[i].base, shapes[i].cap, s.base, s.cap)
    ensures ShapesOk(shapes + [s], cur) && ShapesOk(shapes + [s], cur + 1) && BlocksOk(shapes + [s], live)
  {
  }

  /** A block that ends above the used mark of its slab. */
  lemma ShortMarkIsUnsound(shapes: seq<Shape>, cur: nat, live: seq<Block>, b: Block, raised: nat)
    requires cur < |shapes| && b.slab == cur
    ensures raised < b.offset + b.size ==> !BlocksOk(shapes[cur := shapes[cur].(used := raised)], live + [b])
  {
    var all := live + [b];
    assert all[|live|] == b;
  }

  lemma KnownGrows(regions: set<(nat, nat)>, shapes: seq<Shape>, s: Shape, regions': set<(nat, nat)>, shapes': seq<Shape>)
    requires s.base >= HEADER && AllKnown(regions, shapes)
    requires regions' == regions + {(s.base - HEADER, HEADER + s.cap)} && shapes' == shapes + [s]
    ensures AllKnown(regions', shapes')
  {
    forall i | 0 <= i < |shapes'|
      ensures Known(regions', shapes'[i])
    {
      assert i < |shapes| ==> Known(regions, shapes[i]);
    }
  }

  lemma KnownStays(regions: set<(nat, nat)>, shapes: seq<Shape>, cur: nat, used: nat)
    requires cur < |shapes| && AllKnown(regions, shapes)
    ensures AllKnown(regions, shapes[cur := shapes[cur].(used := used)])
  {
    var after := shapes[cur := shapes[cur].(used := used)];
    forall i | 0 <= i < |after|
      ensures Known(regions, after[i])
    {
      assert Known(regions, shapes[i]);
    }
  }

  lemma RegionsApart(regions: set<(nat, nat)>, shapes: seq<Shape>, s: Shape)
    requires s.base >= HEADER && AllKnown(regions, shapes)
    requires forall r :: r in regions ==> Apart(r.0, r.1, s.base - HEADER, HEADER + s.cap)
    ensures forall i :: 0 <= i < |shapes| ==> Apart(shapes[i].base, shapes[i].cap, s.base, s.cap)
  {
    forall i | 0 <= i < |shapes|
      ensures Apart(shapes[i].base, shapes[i].cap, s.base, s.cap)
    {
      assert Known(regions, shapes[i]);
      var r := (shapes[i].base - HEADER, HEADER + shapes[i].cap);
      assert Apart(r.0, r.1, s.base - HEADER, HEADER + s.cap);
    }
  }

  lemma GrowthKeepsOk(regions: set<(nat, nat)>, shapes: seq<Shape>, cur: nat, live: seq<Block>, s: Shape)
    requires ShapesOk(shapes, cur) && BlocksOk(shapes, live) && cur == |shapes| - 1 && AllKnown(regions, shapes)
    requires s.used == 0 && ShapeOk(s) && s.base >= HEADER
    requires forall r :: r in regions ==> Apart(r.0, r.1, s.base - HEADER, HEADER + s.cap)
    ensures ShapesOk(shapes + [s], cur) && BlocksOk(shapes + [s], live)
  {
    RegionsApart(regions, shapes, s);
    AppendKeepsOk(shapes, cur, live, s);
  }

  predicate Accepts(size: nat, alignment: nat) {
    size > 0 && (alignment == 0 || (alignment <= MAX_ALIGN && BitAnd(alignment, alignment - 1) == 0))
  }

  function Effective(alignment: nat): nat {
    if alignment == 0 then 1 else alignment
  }

  /** Accepted are non-empty requests with no alignment, or a power of two up to 4096. */
  lemma AcceptsMeans(size: nat, alignment: nat)
    ensures Accepts(size, alignment) <==> size > 0 && (alignment == 0 || (IsPow2(alignment) && alignment <= 4096))
    ensures Effective(alignment) == if alignment == 0 then 1 else alignment
  {
    if alignment > 0 {
      PowerOfTwoTest(alignment);
    }
  }

  /** A new slab has 64 KiB, or for a larger request room for it and its alignment, as long as that does not wrap. */
  lemma GrowthCapMeans(size: Size, a: nat)
    requires a <= MAX_ALIGN
    ensures size <= 65536 ==> GrowthCap(size, a) == 65536
    ensures 65536 < size && size + a < WORD ==> GrowthCap(size, a) == size + a
    ensures size + a >= WORD ==> GrowthCap(size, a) == 65536
  {
    WordWrap(size + a);
  }

  /** A block of `size` bytes at address `r` is cut from slab `s`: the least aligned address with room. */
  ghost predicate Cut(s: Shape, s': Shape, size: nat, a: nat, r: nat, offset: nat)
    requires a > 0
  {
    && offset == s.used + Padding(s.base + s.used, a) && r == s.base + offset && r % a == 0
    && s' == s.(used := offset + size) && s'.used <= s'.cap
  }

  /** Every byte of a block just cut is zero. */
  lemma CutIsZeroed(s: Shape, s': Shape, size: nat, a: nat, r: nat, offset: nat)
    requires a > 0 && ShapeOk(s) && Cut(s, s', size, a, r, offset)
    ensures forall j :: offset <= j < offset + size ==> j < |s'.data| && s'.data[j] == 0
  {
  }

  /** How the arena's value changes when a block at address `r` is handed out. */
  ghost predicate Granted(shapes0: seq<Shape>, cur0: nat, live0: seq<Block>, shapes: seq<Shape>, cur: nat, live: seq<Block>,
                          size: nat, a: nat, r: nat)
    requires a > 0
  {
    && cur0 <= cur < |shapes| && |shapes0| <= |shapes|
    && |live| == |live0| + 1 && live == live0 + [Block(cur, live[|live0|].offset, size)]
    && (forall i :: 0 <= i < |shapes0| && i != cur ==> shapes[i] == shapes0[i])
    && (forall i :: cur0 <= i < cur ==> !Fits(shapes[i], size, a))
    && Cut(if cur < |shapes0| then shapes0[cur] else Empty(shapes[cur].base, shapes[cur].cap),
           shapes[cur], size, a, r, live[|live0|].offset)
  }

  /** Slabs from `cur0` up to `cur` were tried in vain; at most one slab is appended for a guaranteed fit. */
  ghost predicate Searching(shapes0: seq<Shape>, cur0: nat, live0: seq<Block>, shapes: seq<Shape>, cur: nat, live: seq<Block>,
                            size: Size, a: nat)
    requires a > 0
  {
    && shapes0 <= shapes && live == live0 && cur0 <= cur < |shapes|
    && (forall i :: cur0 <= i < cur ==> !Fits(shapes[i], size, a) && !Passes(shapes[i], size, a))
    && (forall i :: |shapes0| <= i < |shapes| ==> shapes[i] == Empty(shapes[i].base, GrowthCap(size, a)))
    && (GuaranteedFit(size, a) ==>
          || |shapes| == |shapes0|
          || |shapes| == |shapes0| + 1 == cur + 1)
  }

  // ----- the test the code makes, in 64-bit arithmetic -----

  /** Where a granted block would end, without wrap-around. */
  function End(s: Shape, size: Size, a: nat): nat
    requires a > 0
  {
    s.used + Padding(s.base + s.used, a) + size
  }

  /** `offset + needed` as computed: what is compared with the capacity, and then becomes the used mark. */
  function TestSum(s: Shape, size: Size, a: nat): nat
    requires a > 0
  {
    Sum64(s.used, Padding(s.base + s.used, a), size)
  }

  function Sum64(used: nat, pad: nat, size: Size): nat {
    (used + (pad + size) % WORD) % WORD
  }

  predicate Passes(s: Shape, size: Size, a: nat)
    requires a > 0
  {
    TestSum(s, size, a) <= s.cap
  }

  /** The sum does not wrap around, or wraps to more than the capacity. */
  predicate NoWrap(s: Shape, size: Size, a: nat)
    requires a > 0
  {
    End(s, size, a) < WORD || End(s, size, a) > WORD + s.cap
  }

  lemma TestSumIs(s: Shape, size: Size, a: nat)
    requires 0 < a <= MAX_ALIGN && s.used <= s.cap <= ADDRESS_LIMIT
    ensures End(s, size, a) < 2 * WORD
    ensures TestSum(s, size, a) == if End(s, size, a) < WORD then End(s, size, a) else End(s, size, a) - WORD
  {
    Sum64Wraps(s.used, Padding(s.base + s.used, a), size);
  }

  lemma Sum64Wraps(used: nat, pad: nat, size: Size)
    requires used <= ADDRESS_LIMIT && pad < MAX_ALIGN
    ensures Sum64(used, pad, size) == if used + pad + size < WORD then used + pad + size else used + pad + size - WORD
  {
    WordWrap(pad + size);
    WordWrap(used + (pad + size) % WORD);
  }

  /** The test decides whether the request fits exactly when the sum does not wrap into the capacity. */
  lemma TestIsRightExactlyWhen(s: Shape, size: Size, a: nat)
    requires 0 < size && 0 < a <= MAX_ALIGN && s.used <= s.cap <= ADDRESS_LIMIT
    ensures (Passes(s, size, a) <==> Fits(s, size, a)) <==> NoWrap(s, size, a)
    ensures NoWrap(s, size, a) && Passes(s, size, a) ==> TestSum(s, size, a) == End(s, size, a)
    ensures !NoWrap(s, size, a) ==> Passes(s, size, a) && TestSum(s, size, a) < End(s, size, a)
  {
    TestSumIs(s, size, a);
  }

  /** Granting cuts the least aligned block with room. */
  lemma FitIsCut(s: Shape, size: Size, a: nat)
    requires 0 < a && Fits(s, size, a)
    ensures var pad := Padding(s.base + s.used, a);
            Cut(s, s.(used := End(s, size, a)), size, a, s.base + s.used + pad, s.used + pad)
  {
    AlignedAddress(s.base + s.used, a, s.base + s.used + Padding(s.base + s.used, a));
  }

  lemma AlignedAddress(p: nat, a: nat, r: nat)
    requires a > 0 && r == p + Padding(p, a)
    ensures r % a == 0
  {
    PaddingAligns(p, a);
  }

  /** A request that reaches exactly 2^64 passes, does not fit, and sets the used mark back to zero. */
  lemma WrappedRequestPasses(s: Shape)
    requires ShapeOk(s) && s.used > 0
    ensures var size: Size := WORD - s.used;
            !NoWrap(s, size, 1) && Passes(s, size, 1) && !Fits(s, size, 1) && TestSum(s, size, 1) == 0
  {
    UniqueRemainder(s.base + s.used, 1, s.base + s.used, 0);
    TestIsRightExactlyWhen(s, WORD - s.used, 1);
    TestSumIs(s, WORD - s.used, 1);
  }

  /** The next block cut from that slab overlaps a block that is still live. */
  lemma NextBlockOverlaps(s: Shape, b: Block, size: Size, next: Shape, r: nat, offset: nat)
    requires ShapeOk(s) && b.offset < size && b.size > 0
    requires Cut(s.(used := 0), next, size, 1, r, offset)
    ensures !Apart(b.offset, b.size, offset, size)
  {
    UniqueRemainder(s.base, 1, s.base, 0);
  }

  /** A slab appended for the request is whole, and its test is right wherever the platform places it. */
  predicate GrowthSafe(size: Size, a: nat) {
    size <= DEFAULT_CAP || HEADER + size + a < WORD || size + a == WORD
  }

  /** Exactly then: the allocated bytes hold header and capacity, and no address makes the test wrap into the capacity. */
  lemma GrowthSafeExactlyWhen(size: Size, a: nat)
    requires 0 < size && 0 < a <= MAX_ALIGN
    ensures GrowthSafe(size, a) <==>
            && HEADER + GrowthCap(size, a) < WORD
            && forall base: nat :: NoWrap(Empty(base, GrowthCap(size, a)), size, a)
  {
    WordWrap(size + a);
    var cap := GrowthCap(size, a);
    if size > DEFAULT_CAP && size + a > WORD {
      UniqueRemainder(1, a, 0, 1);
      assert Padding(1, a) == a - 1;
      assert !NoWrap(Empty(1, cap), size, a);
    }
  }

  /** The requests the allocator serves properly whatever the platform answers; all terms are known before the call. */
  ghost predicate RequestSafe(shapes: seq<Shape>, cur: nat, size: Size, a: nat)
    requires a > 0
  {
    && ChainSafe(shapes, cur, size, a)
    && (NoneFits(shapes, cur, |shapes|, size, a) ==> GrowthSafe(size, a))
  }

  /** Whatever the arena holds, a request is safe when its size and alignment together stay within the address space. */
  lemma SmallRequestsAreSafe(shapes: seq<Shape>, cur: nat, size: Size, a: nat)
    requires ShapesOk(shapes, cur) && 0 < size && 0 < a <= MAX_ALIGN && size + a <= ADDRESS_LIMIT
    ensures RequestSafe(shapes, cur, size, a)
  {
    forall i | cur <= i < |shapes|
      ensures NoWrap(shapes[i], size, a)
    {
      assert ShapeOk(shapes[i]);
    }
  }

  /** The region of a slab has room for the header exactly when the byte count does not wrap, and then for the bytes too. */
  lemma HeaderFitsExactlyWhen(cap: Size)
    ensures HEADER <= (HEADER + cap) % WORD <==> HEADER + cap < WORD
    ensures HEADER + cap < WORD ==> (HEADER + cap) % WORD == HEADER + cap
  {
    WordWrap(HEADER + cap);
  }

  /** For the largest capacity 23 bytes are asked for, and the header of 24 is written into them. */
  lemma LargestCapacityOverruns()
    ensures var cap: Size := WORD - 1; (HEADER + cap) % WORD == HEADER - 1 && cap >= DEFAULT_CAP
  {
    WordWrap(HEADER + (WORD - 1));
  }

  /** No slab is reached whose test wraps into the capacity. */
  ghost predicate ChainSafe(shapes: seq<Shape>, cur: nat, size: Size, a: nat)
    requires a > 0
  {
    forall i {:trigger NoWrap(shapes[i], size, a)} :: cur <= i < |shapes| && NoneFits(shapes, cur, i, size, a) ==>
      NoWrap(shapes[i], size, a)
  }

  ghost predicate NoneFits(shapes: seq<Shape>, cur: nat, end: nat, size: Size, a: nat)
    requires a > 0 && end <= |shapes|
  {
    forall j :: cur <= j < end ==> !Fits(shapes[j], size, a)
  }

  lemma SafeRequestNeverWraps(shapes0: seq<Shape>, cur0: nat, live0: seq<Block>, shapes: seq<Shape>, cur: nat, live: seq<Block>,
                              size: Size, a: nat)
    requires 0 < size && 0 < a <= MAX_ALIGN && Searching(shapes0, cur0, live0, shapes, cur, live, size, a)
    requires RequestSafe(shapes0, cur0, size, a)
    ensures NoWrap(shapes[cur], size, a)
  {
    if cur < |shapes0| {
      assert NoneFits(shapes0, cur0, cur, size, a);
    } else {
      assert NoneFits(shapes0, cur0, |shapes0|, size, a);
      GrowthSafeExactlyWhen(size, a);
    }
  }

  lemma SearchEnds(shapes0: seq<Shape>, cur0: nat, live0: seq<Block>, shapes: seq<Shape>, cur: nat, live: seq<Block>,
                   shapes': seq<Shape>, live': seq<Block>, size: Size, a: nat, r: nat, offset: nat)
    requires a > 0 && Searching(shapes0, cur0, live0, shapes, cur, live, size, a)
    requires |shapes'| == |shapes| && shapes' == shapes[cur := shapes'[cur]] && Cut(shapes[cur], shapes'[cur], size, a, r, offset)
    requires live' == live + [Block(cur, offset, size)]
    ensures Granted(shapes0, cur0, live0, shapes', cur, live', size, a, r)
  {
  }

  /** The slab after the code's update of its used mark. */
  function Marked(s: Shape, size: Size, a: nat): Shape
    requires a > 0
  {
    s.(used := TestSum(s, size, a))
  }

  function NewBlock(cur: nat, s: Shape, size: Size, a: nat): Block
    requires a > 0
  {
    Block(cur, s.used + Padding(s.base + s.used, a), size)
  }

  ghost predicate Sound(shapes: seq<Shape>, cur: nat, live: seq<Block>) {
    ShapesOk(shapes, cur) && BlocksOk(shapes, live)
  }

  /** What a call leaves behind, in terms of the values before it. */
  ghost predicate Outcome(shapes0: seq<Shape>, cur0: nat, live0: seq<Block>, shapes: seq<Shape>, cur: nat, live: seq<Block>,
                          size: Size, a: nat, r: nat)
    requires a > 0
  {
    && (RequestSafe(shapes0, cur0, size, a) ==> Sound(shapes, cur, live))
    && (!ChainSafe(shapes0, cur0, size, a) ==> r > 0 && !BlocksOk(shapes, live))
    && (r == 0 ==> Sound(shapes, cur, live) && live == live0 && shapes0 <= shapes)
    && (r > 0 && BlocksOk(shapes, live) ==>
          Sound(shapes, cur, live) && Granted(shapes0, cur0, live0, shapes, cur, live, size, a, r))
  }

  lemma UnsafeChainWrapsHere(shapes0: seq<Shape>, cur0: nat, live0: seq<Block>, shapes: seq<Shape>, cur: nat, live: seq<Block>,
                             size: Size, a: nat)
    requires 0 < size && 0 < a <= MAX_ALIGN && Searching(shapes0, cur0, live0, shapes, cur, live, size, a)
    requires ShapesOk(shapes, cur) && Passes(shapes[cur], size, a) && !ChainSafe(shapes0, cur0, size, a)
    ensures !NoWrap(shapes[cur], size, a)
  {
    var i :| cur0 <= i < |shapes0| && NoneFits(shapes0, cur0, i, size, a) && !NoWrap(shapes0[i], size, a);
    assert shapes0[i] == shapes[i] && ShapeOk(shapes[i]) && ShapeOk(shapes[cur]);
    TestIsRightExactlyWhen(shapes[i], size, a);
    TestIsRightExactlyWhen(shapes[cur], size, a);
    assert cur <= i;
  }

  /** Reaching the end of the chain in vain: its slabs were tested rightly, and a safe request grows it by a whole slab. */
  lemma EndOfChain(shapes0: seq<Shape>, cur0: nat, live0: seq<Block>, shapes: seq<Shape>, cur: nat, live: seq<Block>,
                   size: Size, a: nat)
    requires 0 < size && 0 < a <= MAX_ALIGN && Searching(shapes0, cur0, live0, shapes, cur, live, size, a)
    requires ShapesOk(shapes, cur) && !Fits(shapes[cur], size, a) && !Passes(shapes[cur], size, a) && cur == |shapes| - 1
    ensures ChainSafe(shapes0, cur0, size, a)
    ensures RequestSafe(shapes0, cur0, size, a) ==> HEADER + GrowthCap(size, a) < WORD
  {
    forall i | cur0 <= i < |shapes0|
      ensures NoWrap(shapes0[i], size, a)
    {
      assert shapes0[i] == shapes[i] && ShapeOk(shapes[i]);
      TestIsRightExactlyWhen(shapes[i], size, a);
    }
    assert NoneFits(shapes0, cur0, |shapes0|, size, a);
    GrowthSafeExactlyWhen(size, a);
  }

  /** If the test passes, the outcome is as promised; if it does not, the request does not fit. */
  lemma ProbeOutcome(shapes0: seq<Shape>, cur0: nat, live0: seq<Block>, shapes: seq<Shape>, cur: nat, live: seq<Block>,
                     size: Size, a: nat)
    requires 0 < size && 0 < a <= MAX_ALIGN && Searching(shapes0, cur0, live0, shapes, cur, live, size, a)
    requires Sound(shapes, cur, live)
    ensures !Passes(shapes[cur], size, a) ==> !Fits(shapes[cur], size, a)
    ensures Passes(shapes[cur], size, a) ==>
              Outcome(shapes0, cur0, live0, shapes[cur := Marked(shapes[cur], size, a)], cur,
                      live + [NewBlock(cur, shapes[cur], size, a)], size, a,
                      shapes[cur].base + NewBlock(cur, shapes[cur], size, a).offset)
  {
    var s, b := shapes[cur], NewBlock(cur, shapes[cur], size, a);
    assert ShapeOk(s);
    TestIsRightExactlyWhen(s, size, a);
    if RequestSafe(shapes0, cur0, size, a) {
      SafeRequestNeverWraps(shapes0, cur0, live0, shapes, cur, live, size, a);
    }
    if Passes(s, size, a) {
      if !ChainSafe(shapes0, cur0, size, a) {
        UnsafeChainWrapsHere(shapes0, cur0, live0, shapes, cur, live, size, a);
      }
      if NoWrap(s, size, a) {
        GrantEnds(shapes0, cur0, live0, shapes, cur, live, size, a);
        RaiseKeepsOk(shapes, cur, live, b.offset - s.used, size);
      } else {
        ShortMarkIsUnsound(shapes, cur, live, b, TestSum(s, size, a));
      }
    }
  }

  /** What granting does when the test is right: all values before the call determine the outcome. */
  lemma GrantEnds(shapes0: seq<Shape>, cur0: nat, live0: seq<Block>, shapes: seq<Shape>, cur: nat, live: seq<Block>,
                  size: Size, a: nat)
    requires 0 < size && 0 < a <= MAX_ALIGN && Searching(shapes0, cur0, live0, shapes, cur, live, size, a)
    requires ShapeOk(shapes[cur]) && NoWrap(shapes[cur], size, a) && Passes(shapes[cur], size, a)
    ensures var s := shapes[cur];
            var pad := Padding(s.base + s.used, a);
            && TestSum(s, size, a) == s.used + pad + size
            && Granted(shapes0, cur0, live0, shapes[cur := s.(used := TestSum(s, size, a))], cur,
                       live + [Block(cur, s.used + pad, size)], size, a, s.base + s.used + pad)
  {
    var s := shapes[cur];
    var pad := Padding(s.base + s.used, a);
    TestIsRightExactlyWhen(s, size, a);
    FitIsCut(s, size, a);
    SearchEnds(shapes0, cur0, live0, shapes, cur, live, shapes[cur := s.(used := TestSum(s, size, a))],
               live + [Block(cur, s.used + pad, size)], size, a, s.base + s.used + pad, s.used + pad);
  }

  /** There is a slab behind the current one; if it was appended, it has the growth size. */
  ghost predicate Followed(shapes: seq<Shape>, cur: nat, shapes': seq<Shape>, size: Size, a: nat) {
    && cur + 1 < |shapes'|
    && (|| shapes' == shapes
        || (cur == |shapes| - 1 && |shapes'| == |shapes| + 1 && shapes <= shapes'
            && shapes'[cur + 1] == Empty(shapes'[cur + 1].base, GrowthCap(size, a))))
  }

  /** Once a slab has been appended for a guaranteed fit, the search cannot fail there. */
  lemma SearchGoesOn(shapes0: seq<Shape>, cur0: nat, live0: seq<Block>, shapes: seq<Shape>, cur: nat, live: seq<Block>,
                     shapes': seq<Shape>, size: Size, a: nat)
    requires 0 < a <= MAX_ALIGN && size > 0 && Searching(shapes0, cur0, live0, shapes, cur, live, size, a)
    requires !Fits(shapes[cur], size, a) && !Passes(shapes[cur], size, a) && Followed(shapes, cur, shapes', size, a)
    ensures Searching(shapes0, cur0, live0, shapes', cur + 1, live, size, a)
  {
    if GuaranteedFit(size, a) && |shapes| != |shapes0| {
      FreshSlabFits(size, a);
      assert false;
    }
  }

  /**
    * What a client may rely on for a block just handed out: it starts at the returned address, aligned as
    * asked, lies in one slab, holds only zeros and overlaps no other live block.
    */
  lemma GrantedBlockIsGood(shapes0: seq<Shape>, cur0: nat, live0: seq<Block>, shapes: seq<Shape>, cur: nat, live: seq<Block>,
                           size: nat, a: nat, r: nat)
    requires a > 0 && ShapesOk(shapes0, cur0) && ShapesOk(shapes, cur) && BlocksOk(shapes, live)
    requires Granted(shapes0, cur0, live0, shapes, cur, live, size, a, r)
    ensures var b := live[|live0|];
            && live == live0 + [b] && b.slab == cur && b.size == size && Address(shapes, b) == r && r % a == 0
            && b.offset + size <= shapes[cur].cap
            && (forall j :: b.offset <= j < b.offset + size ==> j < |shapes[cur].data| && shapes[cur].data[j] == 0)
            && (forall k :: 0 <= k < |live0| ==>
                  Apart(Address(shapes, live[k]), live[k].size, r, size))
  {
    var b := live[|live0|];
    var before := if cur < |shapes0| then shapes0[cur] else Empty(shapes[cur].base, shapes[cur].cap);
    assert ShapeOk(before) by { assert ShapeOk(shapes[cur]); }
    CutIsZeroed(before, shapes[cur], size, a, r, b.offset);
    forall k | 0 <= k < |live0|
      ensures Apart(Address(shapes, live[k]), live[k].size, r, size)
    {
      LiveBlocksDisjoint(shapes, cur, live, k, |live0|);
    }
  }

  function StoreByte(shapes: seq<Shape>, i: nat, j: nat, v: Byte): seq<Shape>
    requires i < |shapes| && j < |shapes[i].data|
  {
    shapes[i := shapes[i].(data := shapes[i].data[j := v])]
  }

  lemma StoreKeepsOk(shapes: seq<Shape>, cur: nat, live: seq<Block>, k: nat, j: nat, v: Byte)
    requires ShapesOk(shapes, cur) && BlocksOk(shapes, live) && k < |live|
    requires live[k].offset <= j < live[k].offset + live[k].size
    ensures var i := live[k].slab;
            && ShapeOk(shapes[i]) && j < |shapes[i].data|
            && ShapesOk(StoreByte(shapes, i, j, v), cur) && BlocksOk(StoreByte(shapes, i, j, v), live)
  {
    var i := live[k].slab;
    assert ShapeOk(shapes[i]);
    var after := StoreByte(shapes, i, j, v);
    forall m | 0 <= m < |after|
      ensures ShapeOk(after[m])
    {
      assert ShapeOk(shapes[m]);
    }
  }

  /** The same slabs, all cleared. */
  function Emptied(shapes: seq<Shape>): seq<Shape> {
    seq(|shapes|, i requires 0 <= i < |shapes| => Empty(shapes[i].base, shapes[i].cap))
  }

  function SumUsed(shapes: seq<Shape>): nat {
    if shapes == [] then 0 else shapes[0].used + SumUsed(shapes[1..])
  }

  function SumCap(shapes: seq<Shape>): nat {
    if shapes == [] then 0 else shapes[0].cap + SumCap(shapes[1..])
  }

  /** Both statistics add up slab by slab. */
  lemma {:induction false} SumsAddUp(a: seq<Shape>, b: seq<Shape>)
    ensures SumUsed(a + b) == SumUsed(a) + SumUsed(b) && SumCap(a + b) == SumCap(a) + SumCap(b)
    decreases |a|
  {
    if a == [] {
      assert a + b == b;
    } else {
      assert (a + b)[1..] == a[1..] + b;
      SumsAddUp(a[1..], b);
    }
  }

  lemma SumsOfOne(s: Shape)
    ensures SumUsed([s]) == s.used && SumCap([s]) == s.cap && SumUsed([]) == 0 && SumCap([]) == 0
  {
    assert [s][1..] == [];
  }

  // ----- slabs, the platform allocator and the arena object -----

  class Slab {
    var next: Slab?
    const base: nat
    const cap: nat
    var used: nat
    var data: seq<Byte>

    constructor (base: nat, cap: nat)
      ensures Is(Empty(base, cap)) && next == null
    {
      this.base, this.cap, used, next, data := base, cap, 0, null, seq(cap, _ => 0);
    }

    ghost predicate Is(s: Shape)
      reads this
    {
      base == s.base && cap == s.cap && used == s.used && data == s.data
    }

    /** Zero the used bytes and lower the mark. */
    method Clear(ghost s: Shape)
      requires Is(s) && ShapeOk(s)
      modifies `data, `used
      ensures Is(Empty(s.base, s.cap))
    {
      data := seq(used, _ => 0) + data[used..];
      used := 0;
    }
  }

  function SlabAt(chain: seq<Slab>, i: nat): Slab? {
    if i < |chain| then chain[i] else null
  }

  /** Stands for calloc: it may refuse at any time, and surely does once the supply has run out. */
  class Platform {
    var supply: nat
    var refusals: nat
    var regions: set<(nat, nat)>

    constructor (supply: nat)
      ensures this.supply == supply && refusals == 0 && regions == {}
    {
      this.supply, refusals, regions := supply, 0, {};
    }

    /** The address of a region apart from every region handed out before, or 0. */
    method Calloc(cap: nat) returns (base: nat)
      modifies this
      ensures base == 0 ==> refusals == old(refusals) + 1 && supply == old(supply) && regions == old(regions)
      ensures base > 0 ==> refusals == old(refusals) && supply + 1 == old(supply)
                           && regions == old(regions) + {(base, cap)} && base + cap <= ADDRESS_LIMIT
                           && forall r :: r in old(regions) ==> Apart(r.0, r.1, base, cap)
    {
      base := *;
      if supply == 0 || base + cap > ADDRESS_LIMIT || exists r :: r in regions && !Apart(r.0, r.1, base, cap) {
        base := 0;
      }
      if base == 0 {
        refusals := refusals + 1;
      } else {
        supply, regions := supply - 1, regions + {(base, cap)};
      }
    }

    method Free(base: nat, cap: nat)
      modifies this
      ensures regions == old(regions) - {(base, cap)} && refusals == old(refusals) && supply == old(supply)
    {
      regions := regions - {(base, cap)};
    }
  }

  /** The slab's header and bytes fill one region. */
  ghost predicate Known(regions: set<(nat, nat)>, s: Shape) {
    s.base >= HEADER && (s.base - HEADER, HEADER + s.cap) in regions
  }

  ghost predicate AllKnown(regions: set<(nat, nat)>, shapes: seq<Shape>) {
    forall i {:trigger Known(regions, shapes[i])} :: 0 <= i < |shapes| ==> Known(regions, shapes[i])
  }

  class Arena {
    var head: Slab
    var current: Slab
    var allocCount: nat
    ghost var chain: seq<Slab>
    ghost var shapes: seq<Shape>
    ghost var cur: nat
    ghost var live: seq<Block>

    /** The linked slabs are the ghost chain, and each has the shape recorded for it. */
    ghost predicate Linked()
      reads this, chain
    {
      && |chain| == |shapes| && cur < |chain| && head == chain[0] && current == chain[cur]
      && (forall i, j :: 0 <= i < j < |chain| ==> chain[i] != chain[j])
      && (forall i {:trigger chain[i].next} :: 0 <= i < |chain| ==> chain[i].next == SlabAt(chain, i + 1))
      && (forall i :: 0 <= i < |chain| ==> chain[i].Is(shapes[i]))
    }

    ghost predicate Valid()
      reads this, chain
    {
      Linked() && Sound(shapes, cur, live) && |live| == allocCount
    }

    /** The platform knows the region of every slab of the chain, header included. */
    ghost predicate Registered(platform: Platform)
      reads this, platform
    {
      AllKnown(platform.regions, shapes)
    }

    constructor (slab: Slab)
      requires slab.Is(Empty(slab.base, slab.cap)) && slab.next == null
      ensures Linked() && live == [] && chain == [slab] && shapes == [Empty(slab.base, slab.cap)]
      ensures ShapeOk(Empty(slab.base, slab.cap)) ==> Valid()
    {
      head, current, allocCount := slab, slab, 0;
      chain, shapes, cur, live := [slab], [Empty(slab.base, slab.cap)], 0, [];
    }

    /**
      * `slab_new`. The byte count passed to calloc wraps around for capacities next to 2^64: the region is then
      * too small for the slab it is given to.
      */
    static method NewSlab(platform: Platform, minCap: Size) returns (slab: Slab?)
      modifies platform
      ensures slab == null <==> platform.refusals == old(platform.refusals) + 1
      ensures slab == null ==> platform.supply == old(platform.supply) && platform.regions == old(platform.regions)
      ensures slab != null ==> fresh(slab) && slab.next == null && slab.Is(Empty(slab.base, slab.cap))
      ensures slab != null ==> slab.cap == if minCap < DEFAULT_CAP then DEFAULT_CAP else minCap
      ensures slab != null ==> platform.refusals == old(platform.refusals) && platform.supply + 1 == old(platform.supply)
      ensures slab != null && HEADER + slab.cap < WORD ==>
                && ShapeOk(Empty(slab.base, slab.cap)) && slab.base > HEADER
                && platform.regions == old(platform.regions) + {(slab.base - HEADER, HEADER + slab.cap)}
                && forall r :: r in old(platform.regions) ==> Apart(r.0, r.1, slab.base - HEADER, HEADER + slab.cap)
      ensures slab != null && HEADER + slab.cap >= WORD ==>
                slab.base > HEADER && (slab.base - HEADER, HEADER + slab.cap - WORD) in platform.regions
    {
      var cap := if minCap < DEFAULT_CAP then DEFAULT_CAP else minCap;
      WordWrap(HEADER + cap);
      var start := platform.Calloc((HEADER + cap) % WORD);
      if start == 0 {
        return null;
      }
      slab := new Slab(start + HEADER, cap);
    }

    /**
      * `ify_arena_create`: null exactly when the platform refuses the record or the slab. `overrun` says that the
      * slab's header was written into a region too small for it: C then promises nothing about the arena returned.
      */
    static method Create(platform: Platform, initialCap: Size) returns (arena: Arena?, overrun: bool)
      modifies platform
      ensures arena == null <==> platform.refusals == old(platform.refusals) + 1
      ensures arena == null ==> !overrun && platform.regions == old(platform.regions)
      ensures arena != null ==> platform.refusals == old(platform.refusals)
      ensures arena != null ==> (overrun <==> HEADER + initialCap >= WORD)
      ensures arena != null ==> fresh(arena) && arena.Linked() && arena.live == []
      ensures arena != null ==> |arena.chain| == 1 && fresh(arena.chain[0])
      ensures arena != null ==> arena.shapes[0].cap == if initialCap < DEFAULT_CAP then DEFAULT_CAP else initialCap
      ensures arena != null ==> arena.shapes == [Empty(arena.shapes[0].base, arena.shapes[0].cap)]
      ensures arena != null && !overrun ==> arena.Valid() && arena.Registered(platform)
      ensures overrun ==> arena != null && arena.shapes[0].base > HEADER && HEADER + initialCap - WORD < HEADER
                          && (arena.shapes[0].base - HEADER, HEADER + initialCap - WORD) in platform.regions
    {
      var record := platform.Calloc(RECORD);
      if record == 0 {
        return null, false;
      }
      var slab := NewSlab(platform, if initialCap == 0 then DEFAULT_CAP else initialCap);
      if slab == null {
        assert (record, RECORD) !in old(platform.regions);
        platform.Free(record, RECORD);
        return null, false;
      }
      arena := new Arena(slab);
      overrun := HEADER + slab.cap >= WORD;
    }

    /** The chain ends at the current slab: append a new one of the growth size. */
    method Grow(platform: Platform, newCap: Size) returns (ns: Slab?, overrun: bool)
      requires Valid() && Registered(platform) && current.next == null
      modifies this, current, platform
      ensures current == old(current) && old(cur) == |old(chain)| - 1 && (overrun ==> ns == null)
      ensures overrun ==> HEADER + newCap >= WORD
      ensures !overrun ==> Valid() && Registered(platform) && live == old(live) && cur == old(cur)
      ensures !overrun && ns == null ==> chain == old(chain) && shapes == old(shapes)
      ensures !overrun && ns == null ==> platform.refusals == old(platform.refusals) + 1
      ensures ns != null ==> platform.refusals == old(platform.refusals) && platform.supply + 1 == old(platform.supply)
      ensures ns != null ==> fresh(ns) && chain == old(chain) + [ns]
      ensures ns != null ==> shapes == old(shapes) + [Empty(ns.base, if newCap < DEFAULT_CAP then DEFAULT_CAP else newCap)]
    {
      assert cur + 1 == |chain|;
      ghost var regions := platform.regions;
      ns := NewSlab(platform, newCap);
      if ns == null {
        return null, false;
      }
      if HEADER + ns.cap >= WORD {
        return null, true;
      }
      Attach(ns, Empty(ns.base, ns.cap), platform, regions);
      overrun := false;
    }

    /** Link a new slab whose region lies apart from those known before. */
    method Attach(ns: Slab, ghost s: Shape, ghost platform: Platform, ghost regions: set<(nat, nat)>)
      requires Valid() && AllKnown(regions, shapes) && current.next == null && cur == |shapes| - 1
      requires ns !in chain && ns.next == null && ns.Is(s) && s.used == 0 && ShapeOk(s) && s.base >= HEADER
      requires forall r :: r in regions ==> Apart(r.0, r.1, s.base - HEADER, HEADER + s.cap)
      requires platform.regions == regions + {(s.base - HEADER, HEADER + s.cap)}
      modifies this`chain, this`shapes, current`next
      ensures Valid() && Registered(platform) && chain == old(chain) + [ns] && shapes == old(shapes) + [s]
    {
      GrowthKeepsOk(regions, shapes, cur, live, s);
      KnownGrows(regions, shapes, s, platform.regions, shapes + [s]);
      Append(ns, s);
    }

    /** Link a new slab behind the current one, which is the last. */
    method Append(ns: Slab, ghost s: Shape)
      requires Valid() && current.next == null && ns !in chain && ns.next == null && ns.Is(s)
      requires Sound(shapes + [s], cur, live)
      modifies this`chain, this`shapes, current`next
      ensures Valid() && chain == old(chain) + [ns] && shapes == old(shapes) + [s]
    {
      ghost var slabs, all := chain + [ns], shapes + [s];
      current.next := ns;
      assert forall i :: 0 <= i < |slabs| ==> slabs[i].Is(all[i]);
      chain, shapes := slabs, all;
    }

    /**
      * `ify_arena_alloc` for every `size_t`; 0 stands for NULL. A safe request gets the least aligned block above
      * the used mark of the first slab, from the current one on, with room for it. Only an unsafe one can leave
      * a live block outside its slab's used bytes, or overrun the region of a slab's header.
      */
    method Alloc(platform: Platform, size: Size, alignment: Size) returns (r: nat, overrun: bool)
      requires Valid() && Registered(platform)
      modifies this, chain, platform
      ensures !Accepts(size, alignment) ==> r == 0 && !overrun && Valid() && Registered(platform)
      ensures !Accepts(size, alignment) ==> chain == old(chain) && shapes == old(shapes) && live == old(live)
      ensures !Accepts(size, alignment) ==> platform.refusals == old(platform.refusals)
      ensures Accepts(size, alignment) ==> 0 < Effective(alignment) <= MAX_ALIGN
      ensures Accepts(size, alignment) ==>
                Served(old(shapes), old(cur), old(live), old(chain), size, Effective(alignment), r, overrun)
      ensures Accepts(size, alignment) && !overrun ==> Registered(platform)
      ensures Accepts(size, alignment) && !overrun ==> forall i :: |old(chain)| <= i < |chain| ==> fresh(chain[i])
      ensures Accepts(size, alignment) && !overrun ==>
                platform.refusals == old(platform.refusals) + if r == 0 then 1 else 0
    {
      var a := if alignment == 0 then 1 else alignment;
      assert Pow2(0) == 1;
      PowerOfTwoTest(a);
      if size == 0 || a > MAX_ALIGN || BitAnd(a, a - 1) != 0 {
        return 0, false;
      }
      r, overrun := Search(platform, size, a);
    }

    /** What a call leaves behind, unless it overran a region. */
    ghost predicate Served(shapes0: seq<Shape>, cur0: nat, live0: seq<Block>, chain0: seq<Slab>, size: Size, a: nat,
                           r: nat, overrun: bool)
      requires a > 0 && cur0 <= |shapes0|
      reads this, chain
    {
      if overrun then ChainSafe(shapes0, cur0, size, a) && !RequestSafe(shapes0, cur0, size, a) else
      && Linked() && |live| == allocCount && chain0 <= chain && (GuaranteedFit(size, a) ==> |chain| <= |chain0| + 1)
      && Outcome(shapes0, cur0, live0, shapes, cur, live, size, a, r)
    }

    /** The unbounded loop: try the current slab, otherwise move on, growing the chain at its end. */
    method Search(platform: Platform, size: Size, a: nat) returns (r: nat, overrun: bool)
      requires Valid() && Registered(platform) && 0 < size && IsPow2(a) && 0 < a <= MAX_ALIGN
      modifies this, chain, platform
      ensures Served(old(shapes), old(cur), old(live), old(chain), size, a, r, overrun)
      ensures !overrun ==> Registered(platform)
      ensures !overrun ==> forall i :: |old(chain)| <= i < |chain| ==> fresh(chain[i])
      ensures !overrun ==> platform.refusals == old(platform.refusals) + if r == 0 then 1 else 0
    {
      while true
        invariant Valid() && Registered(platform) && old(chain) <= chain
        invariant forall i :: |old(chain)| <= i < |chain| ==> fresh(chain[i])
        invariant platform.refusals == old(platform.refusals)
        invariant Searching(old(shapes), old(cur), old(live), shapes, cur, live, size, a)
        decreases platform.supply, |chain| - cur
      {
        r := Take(size, a, old(shapes), old(cur), old(live), platform);
        if r > 0 {
          return r, false;
        }
        var moved;
        moved, overrun := NextSlab(platform, size, a, old(shapes), old(cur), old(live));
        if !moved {
          return;
        }
      }
    }

    /** One try at the current slab, in terms of the state before the whole call. */
    method Take(size: Size, a: nat, ghost shapes0: seq<Shape>, ghost cur0: nat, ghost live0: seq<Block>, ghost platform: Platform)
      returns (r: nat)
      requires Valid() && Registered(platform) && 0 < size && IsPow2(a) && 0 < a <= MAX_ALIGN
      requires Searching(shapes0, cur0, live0, shapes, cur, live, size, a)
      modifies this`shapes, this`live, this`allocCount, current`used
      ensures Linked() && Registered(platform) && |live| == allocCount
      ensures r == 0 ==> shapes == old(shapes) && live == old(live)
      ensures r == 0 ==> !Fits(shapes[cur], size, a) && !Passes(shapes[cur], size, a)
      ensures r > 0 ==> Outcome(shapes0, cur0, live0, shapes, cur, live, size, a, r)
    {
      ProbeOutcome(shapes0, cur0, live0, shapes, cur, live, size, a);
      KnownStays(platform.regions, shapes, cur, TestSum(shapes[cur], size, a));
      r := TryCurrent(size, a);
    }

    /** Align the next free address; if the test says that it fits, set the used mark and hand the block out. */
    method TryCurrent(size: Size, a: nat) returns (r: nat)
      requires Valid() && 0 < size && IsPow2(a) && 0 < a <= MAX_ALIGN
      modifies this`shapes, this`live, this`allocCount, current`used
      ensures Linked() && |live| == allocCount && (r > 0 <==> Passes(old(shapes)[cur], size, a))
      ensures r == 0 ==> shapes == old(shapes) && live == old(live)
      ensures r > 0 ==> && shapes == old(shapes)[cur := Marked(old(shapes)[cur], size, a)]
                        && live == old(live) + [NewBlock(cur, old(shapes)[cur], size, a)]
                        && r == old(shapes)[cur].base + NewBlock(cur, old(shapes)[cur], size, a).offset
    {
      var aligned, raised := Probe(size, a);
      if raised > current.cap {
        return 0;
      }
      live := live + [NewBlock(cur, shapes[cur], size, a)];
      shapes := shapes[cur := Marked(shapes[cur], size, a)];
      current.used := raised;
      allocCount := allocCount + 1;
      return aligned;
    }

    static method AlignUp(p: nat, a: nat) returns (aligned: nat)
      requires IsPow2(a) && a <= MAX_ALIGN && p <= ADDRESS_LIMIT
      ensures a > 0 && aligned - p == Padding(p, a)
    {
      MaskUpPads(p, a);
      aligned := MaskUp(p, a);
    }

    /** Align the next free address and add up, in 64-bit arithmetic. */
    method Probe(size: Size, a: nat) returns (aligned: nat, raised: nat)
      requires Valid() && 0 < size && IsPow2(a) && a <= MAX_ALIGN
      ensures a > 0 && 0 < aligned == shapes[cur].base + NewBlock(cur, shapes[cur], size, a).offset
      ensures raised == TestSum(shapes[cur], size, a) && current.cap == shapes[cur].cap
    {
      assert current.Is(shapes[cur]) && ShapeOk(shapes[cur]);
      var p := current.base + current.used;
      aligned := AlignUp(p, a);
      raised := AddUp(current.used, aligned - p, size);
    }

    static method AddUp(used: nat, pad: nat, size: Size) returns (raised: nat)
      ensures raised == Sum64(used, pad, size)
    {
      var needed := (pad + size) % WORD;
      raised := (used + needed) % WORD;
    }

    method NextSlab(platform: Platform, size: Size, a: nat, ghost shapes0: seq<Shape>, ghost cur0: nat, ghost live0: seq<Block>)
      returns (ok: bool, overrun: bool)
      requires Valid() && Registered(platform) && 0 < size && 0 < a <= MAX_ALIGN
      requires Searching(shapes0, cur0, live0, shapes, cur, live, size, a)
      requires !Fits(shapes[cur], size, a) && !Passes(shapes[cur], size, a)
      modifies this, current, platform
      ensures !(ok && overrun) && (RequestSafe(shapes0, cur0, size, a) ==> !overrun)
      ensures !ok ==> ChainSafe(shapes0, cur0, size, a)
      ensures !overrun ==> Valid() && Registered(platform) && live == old(live) && old(chain) <= chain
      ensures !overrun ==> forall i :: |old(chain)| <= i < |chain| ==> fresh(chain[i])
      ensures !overrun && !ok ==> shapes == old(shapes) && chain == old(chain) && platform.refusals == old(platform.refusals) + 1
      ensures ok ==> Searching(shapes0, cur0, live0, shapes, cur, live, size, a) && platform.refusals == old(platform.refusals)
      ensures ok ==> platform.supply < old(platform.supply)
                     || (platform.supply == old(platform.supply) && chain == old(chain) && cur == old(cur) + 1)
    {
      ok, overrun := EnsureNext(platform, size, a);
      if !ok {
        EndOfChain(shapes0, cur0, live0, old(shapes), old(cur), old(live), size, a);
        return;
      }
      SearchGoesOn(shapes0, cur0, live0, old(shapes), cur, live, shapes, size, a);
      Step();
    }

    /** There is a slab behind the current one, appended now if need be. */
    method EnsureNext(platform: Platform, size: Size, a: nat) returns (ok: bool, overrun: bool)
      requires Valid() && Registered(platform) && 0 < size && 0 < a <= MAX_ALIGN
      modifies this, current, platform
      ensures current == old(current) && !(ok && overrun)
      ensures !ok ==> old(cur) == |old(shapes)| - 1
      ensures overrun ==> HEADER + GrowthCap(size, a) >= WORD
      ensures !overrun ==> Valid() && Registered(platform) && live == old(live) && cur == old(cur)
      ensures !overrun && !ok ==> chain == old(chain) && shapes == old(shapes) && platform.refusals == old(platform.refusals) + 1
      ensures ok ==> current.next != null && platform.refusals == old(platform.refusals)
      ensures ok ==> Followed(old(shapes), cur, shapes, size, a)
      ensures ok ==> platform.supply < old(platform.supply) || (platform.supply == old(platform.supply) && chain == old(chain))
      ensures !overrun ==> old(chain) <= chain && forall i :: |old(chain)| <= i < |chain| ==> fresh(chain[i])
    {
      ok, overrun := true, false;
      if current.next == null {
        assert cur + 1 == |chain|;
        var newCap := if size > DEFAULT_CAP then (size + a) % WORD else DEFAULT_CAP;
        var ns;
        ns, overrun := Grow(platform, newCap);
        ok := ns != null;
      }
      assert ok ==> current.next == SlabAt(chain, cur + 1);
    }

    method Step()
      requires Valid() && current.next != null
      modifies this`current, this`cur
      ensures Valid() && cur == old(cur) + 1
    {
      current := current.next;
      cur := cur + 1;
    }

    /** A client stores a byte inside one of its live blocks. */
    method ClientWrite(ghost k: nat, slab: Slab, j: nat, v: Byte)
      requires Valid() && k < |live| && slab == chain[live[k].slab]
      requires live[k].offset <= j < live[k].offset + live[k].size
      modifies this`shapes, slab`data
      ensures Valid() && shapes == StoreByte(old(shapes), live[k].slab, j, v)
      ensures slab.data == old(slab.data)[j := v]
    {
      ghost var i := live[k].slab;
      assert slab.Is(shapes[i]);
      StoreKeepsOk(shapes, cur, live, k, j, v);
      slab.data := slab.data[j := v];
      shapes := StoreByte(shapes, i, j, v);
    }

    /** The loop of the reset: clear what was used in every slab of the chain. */
    method ClearSlabs()
      requires Valid()
      modifies chain
      ensures forall j {:trigger chain[j].next} :: 0 <= j < |chain| ==> chain[j].next == SlabAt(chain, j + 1)
      ensures forall j :: 0 <= j < |chain| ==> chain[j].Is(Empty(shapes[j].base, shapes[j].cap))
    {
      var s: Slab? := head;
      ghost var i := 0;
      while s != null
        invariant i <= |chain| && s == SlabAt(chain, i)
        invariant forall j {:trigger chain[j].next} :: 0 <= j < |chain| ==> chain[j].next == SlabAt(chain, j + 1)
        invariant forall j :: 0 <= j < i ==> chain[j].Is(Empty(shapes[j].base, shapes[j].cap))
        invariant forall j :: i <= j < |chain| ==> chain[j].Is(shapes[j])
        decreases |chain| - i
      {
        assert ShapeOk(shapes[i]);
        s.Clear(shapes[i]);
        s := s.next;
        i := i + 1;
      }
    }

    /** `ify_arena_reset`: clear what was used, slab by slab, and start again at the head. */
    method Reset()
      requires Valid()
      modifies this, chain
      ensures Valid() && chain == old(chain) && live == [] && cur == 0 && allocCount == 0
      ensures shapes == Emptied(old(shapes))
      ensures forall i :: 0 <= i < |shapes| ==>
                && shapes[i].base == old(shapes)[i].base && shapes[i].cap == old(shapes)[i].cap && shapes[i].used == 0
                && forall j :: 0 <= j < |shapes[i].data| ==> shapes[i].data[j] == 0
    {
      ClearSlabs();
      shapes := Emptied(shapes);
      current, cur, live, allocCount := head, 0, [], 0;
    }

    method Stats() returns (bytesUsed: nat, bytesReserved: nat, allocs: nat)
      requires Valid()
      ensures bytesUsed == SumUsed(shapes) && bytesReserved == SumCap(shapes) && allocs == |live|
    {
      bytesUsed, bytesReserved := 0, 0;
      var s: Slab? := head;
      ghost var i := 0;
      while s != null
        invariant i <= |chain| && s == SlabAt(chain, i)
        invariant bytesUsed + SumUsed(shapes[i..]) == SumUsed(shapes)
        invariant bytesReserved + SumCap(shapes[i..]) == SumCap(shapes)
        decreases |chain| - i
      {
        assert s.Is(shapes[i]) && s.next == SlabAt(chain, i + 1);
        assert shapes[i..][1..] == shapes[i + 1..];
        bytesUsed, bytesReserved := bytesUsed + s.used, bytesReserved + s.cap;
        s := s.next;
        i := i + 1;
      }
      allocs := allocCount;
    }
  }
}

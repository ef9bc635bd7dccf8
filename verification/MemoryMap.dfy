/** The generated memory map: stacks, MPU windows and the subregion mask of the kernel region, computed by the generator
    scripts and, independently, by the kernel. */
module MemoryMap {

  // ----- powers of two

  function Pow2(k: nat): (r: nat)
    ensures r >= 1
  {
    if k == 0 then 1 else 2 * Pow2(k - 1)
  }

  lemma {:induction false} Pow2Grows(j: nat, k: nat)
    requires j <= k
    ensures Pow2(j) <= Pow2(k)
    ensures j < k ==> 2 * Pow2(j) <= Pow2(k)
    decreases k
  {
    if j < k { Pow2Grows(j, k - 1); }
  }

  /** r is the least power of two that is at least n. */
  ghost predicate LeastPow2(n: nat, r: nat) {
    && n <= r && (exists k: nat :: r == Pow2(k)) && (forall k: nat :: n <= Pow2(k) ==> r <= Pow2(k))
  }

  /** A power of two between n and 2n is the least one from n on. */
  lemma LeastByBounds(n: nat, k: nat)
    requires n <= Pow2(k) && (k > 0 ==> Pow2(k) < 2 * n)
    ensures LeastPow2(n, Pow2(k))
  {
    forall j: nat | n <= Pow2(j) ensures Pow2(k) <= Pow2(j) {
      if j < k { Pow2Grows(j, k); } else { Pow2Grows(k, j); }
    }
  }

  /** Count the bits by shifting, raise two to their number, and keep the argument if that is exactly twice it. */
  method NextPowerOf2(n: nat) returns (r: nat)
    ensures LeastPow2(n, r)
  {
    var pos, number := 0, n;
    while number > 0
      invariant number * Pow2(pos) <= n < (number + 1) * Pow2(pos) && (pos > 0 ==> Pow2(pos - 1) <= n)
    {
      Shifted(number, Pow2(pos), n);
      pos := pos + 1;
      number := number / 2;
    }
    r := Pow2(pos);
    if n * 2 == r {
      r := n;
      LeastByBounds(n, pos - 1);
    } else {
      LeastByBounds(n, pos);
    }
  }

  lemma Shifted(number: nat, p: nat, n: nat)
    requires number > 0 && number * p <= n < (number + 1) * p
    ensures number / 2 * (2 * p) <= n < (number / 2 + 1) * (2 * p) && p <= n
  {
    var h := number / 2;
    assert h * (2 * p) == (2 * h) * p && (h + 1) * (2 * p) == (2 * h + 2) * p;
    Scaled(2 * h, number, p);
    Scaled(number + 1, 2 * h + 2, p);
    Scaled(1, number, p);
  }

  lemma Scaled(a: nat, b: nat, p: nat)
    requires a <= b
    ensures a * p <= b * p
  {
  }

  // ----- the subregion mask

  /** The mask switches off the topmost subregions, as many as the shift of the kernel section from its region. The
      division is on fractions, and only the last step cuts to an integer. */
  method SubregionMask(n: nat, region: nat) returns (mask: nat)
    requires 0 < n <= region
    ensures forall k :: 0 <= k < 8 ==> (Bit(mask, k) <==> k >= 8 * n / region)
    ensures mask < 256
  {
    var shift := ((region - n) * 8) as real / region as real;
    var enabled := (8.0 - shift).Floor;
    CutOnce(n, region);
    mask := 255 * Pow2(enabled);
    mask := mask % 256;
    MaskBits(enabled);
  }

  predicate Bit(mask: nat, k: nat) {
    (mask / Pow2(k)) % 2 == 1
  }

  lemma CutOnce(n: nat, region: nat)
    requires 0 < n <= region
    ensures (8.0 - ((region - n) * 8) as real / region as real).Floor == 8 * n / region <= 8
  {
    var e, f := 8 * n / region, 8 * n % region;
    assert 8 * n == e * region + f;
    var q := ((region - n) * 8) as real / region as real;
    assert q * region as real == (8 * region - 8 * n) as real;
    assert (8.0 - q) * region as real == (e * region + f) as real == e as real * region as real + f as real;
    Quotient(8.0 - q, region, e, f);
    assert e <= 8 by { if e >= 9 { Scaled(9, e, region); } }
  }

  lemma Quotient(x: real, region: nat, e: nat, f: nat)
    requires 0 <= f < region && x * region as real == e as real * region as real + f as real
    ensures x.Floor == e
  {
    var d := x - e as real;
    assert d * region as real == f as real;
    assert d == f as real / region as real;
    assert 0.0 <= d < 1.0;
  }

  lemma {:induction false} Pow2Sum(a: nat, b: nat)
    ensures Pow2(a + b) == Pow2(a) * Pow2(b)
  {
    if a > 0 {
      Pow2Sum(a - 1, b);
      assert 2 * (Pow2(a - 1) * Pow2(b)) == (2 * Pow2(a - 1)) * Pow2(b);
    }
  }

  lemma MaskBits(e: nat)
    requires e <= 8
    ensures forall k :: 0 <= k < 8 ==> (Bit(255 * Pow2(e) % 256, k) <==> k >= e)
  {
    var mask := 255 * Pow2(e) % 256;
    Pow2Is256();
    Pow2Grows(e, 8);
    assert 255 * Pow2(e) == (Pow2(e) - 1) * 256 + (256 - Pow2(e));
    assert mask == 256 - Pow2(e) by { MaskIs(e); }
    forall k | 0 <= k < 8 ensures Bit(mask, k) <==> k >= e { MaskBit(e, mask, k); }
  }

  lemma Pow2Is256()
    ensures Pow2(8) == 256
  {
    assert Pow2(4) == 16;
  }

  lemma MaskIs(e: nat)
    requires e <= 8 && Pow2(e) <= 256
    ensures 255 * Pow2(e) % 256 == 256 - Pow2(e)
  {
    assert 255 * Pow2(e) == (Pow2(e) - 1) * 256 + (256 - Pow2(e));
    Divides(256, Pow2(e) - 1, 256 - Pow2(e));
  }

  lemma OddQuotient(d: nat, a: nat, p: nat)
    requires 1 <= p <= d && a >= 1
    ensures (((2 * a - 1) * d + (d - p)) / d) % 2 == 1
  {
    Divides(d, 2 * a - 1, d - p);
    Divides(2, a - 1, 1);
    assert 2 * a - 1 == (a - 1) * 2 + 1;
  }

  lemma EvenQuotient(d: nat, a: nat, b: nat)
    requires d >= 1 && b <= a
    ensures ((2 * a - 2 * b) * d / d) % 2 == 0
  {
    DividesExactly(d, 2 * a - 2 * b);
    DividesExactly(2, a - b);
  }

  lemma MaskBit(e: nat, mask: nat, k: nat)
    requires e <= 8 && k < 8 && mask == 256 - Pow2(e)
    ensures Bit(mask, k) <==> k >= e
  {
    if k >= e { MaskHigh(e, k); } else { MaskLow(e, k); }
  }

  lemma MaskHigh(e: nat, k: nat)
    requires e <= k < 8
    ensures Pow2(e) <= 256 && ((256 - Pow2(e)) / Pow2(k)) % 2 == 1
  {
    hide Pow2;
    Halves(k);
    Pow2Grows(e, k);
    Doubled(e + 1);
    HighQuotient(Pow2(k), Pow2(7 - k), Pow2(e));
  }

  lemma HighQuotient(d: nat, a: nat, p: nat)
    requires 1 <= p <= d && a >= 1 && 256 == d * (2 * a)
    ensures p <= 256 && ((256 - p) / d) % 2 == 1
  {
    Scaled(1, 2 * a, d);
    assert (2 * a - 1) * d + (d - p) == 256 - p;
    OddQuotient(d, a, p);
  }

  lemma MaskLow(e: nat, k: nat)
    requires k < e <= 8
    ensures Pow2(e) <= 256 && ((256 - Pow2(e)) / Pow2(k)) % 2 == 0
  {
    hide Pow2;
    Halves(k);
    Pow2Sum(k, e - k);
    Doubled(e - k);
    Doubled(k + 1);
    Pow2Grows(e - k - 1, 7 - k);
    LowQuotient(Pow2(k), Pow2(7 - k), Pow2(e - k - 1), Pow2(e));
  }

  lemma LowQuotient(d: nat, a: nat, b: nat, p: nat)
    requires d >= 1 && b <= a && 256 == d * (2 * a) && p == d * (2 * b)
    ensures p <= 256 && ((256 - p) / d) % 2 == 0
  {
    Scaled(2 * b, 2 * a, d);
    assert (2 * a - 2 * b) * d == 256 - p;
    EvenQuotient(d, a, b);
  }

  lemma Halves(k: nat)
    requires k < 8
    ensures 256 == Pow2(k) * (2 * Pow2(7 - k)) && Pow2(7 - k) >= 1
  {
    hide Pow2;
    Pow2Is256();
    Pow2Sum(k, 8 - k);
    Doubled(8 - k);
  }

  lemma Doubled(k: nat)
    requires k > 0
    ensures Pow2(k) == 2 * Pow2(k - 1) && Pow2(k) >= 1 && Pow2(k - 1) >= 1
  {
  }

  /** The subregions left on cover at most the kernel section, fall short of it by less than one subregion, and cover it
      exactly if and only if the region divides 8 sections. Sizes are in eighths of a KB. */
  lemma Coverage(n: nat, region: nat)
    requires 0 < n <= region
    ensures var covered := 8 * n / region * region;
            && covered <= 8 * n < covered + region
            && (covered == 8 * n <==> 8 * n % region == 0)
  {
  }

  // ----- where things lie

  /** Sizes of the kernel section, its upper region and the heap marker region in KB, of a task stack in bytes, and the
      address of the kernel section. */
  datatype Config = Config(sram: nat, section: nat, upper: nat, ghmb: nat, stack: nat)

  /** The generator stops unless at least one stack fits and the section is aligned to its region. Stack sizes here are
      the powers of two from 128 to 1024, each of which divides 1024. */
  ghost predicate Accepted(c: Config) {
    && (c.stack == 128 || c.stack == 256 || c.stack == 512 || c.stack == 1024)
    && c.upper + c.ghmb <= c.section && TaskCount(c) >= 1
    && exists region: nat :: LeastPow2(c.section, region) && region > 0 && c.sram % (region * 1024) == 0
  }

  function TaskCount(c: Config): nat
    requires c.stack > 0 && c.upper + c.ghmb <= c.section
  {
    (c.section - (c.upper + c.ghmb)) * 1024 / c.stack
  }

  function StackArea(c: Config): nat { c.sram + c.upper * 1024 }

  function MarkerArea(c: Config): int { c.sram + c.section * 1024 - c.ghmb * 1024 }

  /** Where the kernel places the stack of a slot; the size is a number of words there. */
  function StackBase(c: Config, slot: nat): nat {
    StackArea(c) + slot * (c.stack / 4) * 4
  }

  const VALID_REGION_7 := 23 // the valid bit, and the number of the region that follows the running task

  datatype Option<T> = None | Some(value: T)

  const FIXED := 0x1000_0000 + 0x0300_0000 + 0x0004_0000 + 0x0002_0000 + 1 // never executed, open, shared, cached, on

  /** The size and attributes of a window. The generator has a name for two sizes only; for another one it writes an
      expression that is not one. */
  function Attributes(stack: nat): Option<nat> {
    if stack == 512 then Some(8 * 2 + FIXED)
    else if stack == 1024 then Some(9 * 2 + FIXED)
    else None
  }

  /** Attributes are written exactly for stacks of 512 and 1024 bytes. They switch the window on, for reading and
      writing by everybody, with the size of the stack: two to the power of the size field and one more. */
  lemma AttributesFit(stack: nat)
    ensures Attributes(stack).Some? <==> stack == 512 || stack == 1024
    ensures Attributes(stack).Some? ==>
              var rasr := Attributes(stack).value;
              rasr % 2 == 1 && Pow2(rasr / 2 % 32 + 1) == stack && rasr / 0x100_0000 % 8 == 3
  {
    assert Pow2(4) == 16;
    Pow2Sum(4, 5);
    Pow2Sum(5, 5);
    assert Pow2(5) == 32;
  }

  /** The table that the generator writes: for each slot a region address and its attributes. */
  method WindowTable(c: Config) returns (table: seq<(nat, Option<nat>)>)
    requires Accepted(c)
    ensures |table| == TaskCount(c)
    ensures forall i :: 0 <= i < |table| ==> WindowOf(table[i].0, c.stack) == StackBase(c, i)
    ensures forall i :: 0 <= i < |table| ==> table[i].0 % 32 == VALID_REGION_7 && table[i].1 == Attributes(c.stack)
  {
    hide WindowOf, StackBase, StackArea, LeastPow2, Attributes;
    table := [];
    var i := 0;
    while i < TaskCount(c)
      invariant 0 <= i == |table| <= TaskCount(c)
      invariant forall j :: 0 <= j < i ==> WindowOf(table[j].0, c.stack) == StackBase(c, j)
      invariant forall j :: 0 <= j < i ==> table[j].0 % 32 == VALID_REGION_7 && table[j].1 == Attributes(c.stack)
    {
      Entry(c, i);
      table := table + [(StackArea(c) + i * c.stack + 23, Attributes(c.stack))];
      i := i + 1;
    }
  }

  /** The MPU ignores the address bits below the size of the region (section B3.5 of the ARMv7-M Architecture Reference
      Manual). */
  function WindowOf(rbar: nat, size: nat): nat
    requires size > 0
  {
    rbar - rbar % size
  }

  lemma Entry(c: Config, i: nat)
    requires Accepted(c)
    ensures var rbar := StackArea(c) + i * c.stack + 23; WindowOf(rbar, c.stack) == StackBase(c, i) && rbar % 32 == 23
  {
    hide LeastPow2, WindowOf;
    AreaAligned(c);
    WindowReads(StackArea(c), i, c.stack);
  }

  lemma Divides(d: nat, k: nat, m: nat)
    requires m < d
    ensures (k * d + m) % d == m && (k * d + m) / d == k
  {
    var x := k * d + m;
    SameQuotient(d, k, m, x / d, x % d);
  }

  lemma SameQuotient(d: nat, k: nat, m: nat, q: nat, r: nat)
    requires m < d && r < d && k * d + m == q * d + r
    ensures k == q && m == r
  {
    if k < q { Scaled(k + 1, q, d); }
    if q < k { Scaled(q + 1, k, d); }
  }

  lemma DividesExactly(d: nat, k: nat)
    requires d > 0
    ensures (k * d) % d == 0 && k * d / d == k
  {
    Divides(d, k, 0);
  }

  lemma Regroup(a: nat, b: nat, d: nat)
    ensures a * (b * d) == (a * b) * d
  {
  }

  lemma StackDivides(size: nat)
    requires size == 128 || size == 256 || size == 512 || size == 1024
    ensures 1024 == 1024 / size * size && size == size / 32 * 32 && size == size / 4 * 4 && size >= 128
  {
  }

  lemma AreaAligned(c: Config)
    requires Accepted(c)
    ensures StackArea(c) % 1024 == 0 && StackArea(c) % c.stack == 0
  {
    var region: nat :| LeastPow2(c.section, region) && region > 0 && c.sram % (region * 1024) == 0;
    var k := AsKilobytes(c.sram, region);
    var n := k + c.upper;
    hide Accepted, LeastPow2;
    StackDivides(c.stack);
    assert StackArea(c) == n * 1024;
    DividesExactly(1024, n);
    Regroup(n, 1024 / c.stack, c.stack);
    DividesExactly(c.stack, n * (1024 / c.stack));
  }

  lemma AsKilobytes(s: nat, region: nat) returns (k: nat)
    requires region > 0 && s % (region * 1024) == 0
    ensures s == k * 1024
  {
    var d := region * 1024;
    assert s == s / d * d;
    k := s / d * region;
    Regroup(s / d, region, 1024);
  }

  lemma WindowReads(area: nat, i: nat, size: nat)
    requires size == 128 || size == 256 || size == 512 || size == 1024
    requires area % size == 0
    ensures WindowOf(area + i * size + 23, size) == area + i * size == area + i * (size / 4) * 4
    ensures (area + i * size + 23) % 32 == 23 && (area + i * size) % size == 0
  {
    StackDivides(size);
    var k := area / size + i;
    assert area == area / size * size;
    assert area + i * size == k * size;
    Divides(size, k, 23);
    DividesExactly(size, k);
    Regroup(k, size / 32, 32);
    Divides(32, k * (size / 32), 23);
    Regroup(i, size / 4, 4);
  }

  /** The window of each slot is the stack that the kernel gives it: aligned to its size, behind the upper region,
      before the heap markers, disjoint from every other; and together the stacks fill the space between exactly. */
  lemma WindowsTile(c: Config, i: nat, j: nat)
    requires Accepted(c) && i < TaskCount(c) && j < TaskCount(c)
    ensures StackBase(c, i) % c.stack == 0
    ensures StackArea(c) <= StackBase(c, i) && StackBase(c, i) + c.stack <= MarkerArea(c)
    ensures i < j ==> StackBase(c, i) + c.stack <= StackBase(c, j)
    ensures StackBase(c, TaskCount(c)) == MarkerArea(c)
  {
    hide LeastPow2, WindowOf;
    AreaAligned(c);
    WindowReads(StackArea(c), i, c.stack);
    WindowReads(StackArea(c), j, c.stack);
    WindowReads(StackArea(c), TaskCount(c), c.stack);
    Filled(c);
    Scaled(i + 1, TaskCount(c), c.stack);
    if i < j { Scaled(i + 1, j, c.stack); }
  }

  lemma Filled(c: Config)
    requires Accepted(c)
    ensures StackArea(c) + TaskCount(c) * c.stack == MarkerArea(c)
  {
    hide LeastPow2;
    var kb := c.section - (c.upper + c.ghmb);
    StackDivides(c.stack);
    Regroup(kb, 1024 / c.stack, c.stack);
    DividesExactly(c.stack, kb * (1024 / c.stack));
  }

  // ----- the stack a new task starts with

  const FRAME := 18

  /** The stack pointer a new task starts with: 18 words, and one more, below the end of its stack. */
  function FrameAt(c: Config, slot: nat): int {
    StackBase(c, slot) + (c.stack / 4 - 1) * 4 - FRAME * 4
  }

  lemma FrameInside(c: Config, slot: nat)
    requires c.stack % 4 == 0
    ensures StackBase(c, slot) <= FrameAt(c, slot) <==> c.stack >= 76
    ensures FrameAt(c, slot) + FRAME * 4 == StackBase(c, slot) + c.stack - 4
  {
  }

  predicate Written(j: nat) { j == 0 || j == 1 || j == 10 || (15 <= j < FRAME) }

  /** Clear and prepare a stack of w words. The frame has the words the switch restores first: return code and mode,
      then the argument, where to return, the entry point and the status, which the exception return takes for first
      argument register, link register, program counter and program status. Only a quarter of the stack is cleared, so
      the other words of the frame keep what the memory held before. */
  method PrepareStack(words: array<nat>, entry: nat, arg: nat, end: nat)
    requires words.Length >= 32
    modifies words
    ensures words[words.Length - 3] == entry && words[words.Length - 4] == end && words[words.Length - 9] == arg
    ensures words[words.Length - 2] == 0x0100_0000
    ensures words[words.Length - 19] == 0xFFFF_FFFD && words[words.Length - 18] == 3
    ensures forall j :: 0 <= j < FRAME && !Written(j) ==>
              words[words.Length - 19 + j] == old(words[words.Length - 19 + j])
    ensures forall x :: 0 <= x < words.Length / 4 ==> words[x] == 0
    ensures forall x :: words.Length / 4 <= x < words.Length - 19 ==> words[x] == old(words[x])
    ensures words[words.Length - 1] == old(words[words.Length - 1])
  {
    var j := 0;
    while j < words.Length / 4
      invariant 0 <= j <= words.Length / 4
      invariant forall x :: 0 <= x < j ==> words[x] == 0
      invariant forall x :: j <= x < words.Length ==> words[x] == old(words[x])
    {
      words[j] := 0;
      j := j + 1;
    }
    var p := words.Length - 1 - FRAME;
    words[p] := 0xFFFF_FFFD;
    words[p + 1] := 3;
    words[p + 10] := arg;
    words[p + 15] := end;
    words[p + 16] := entry;
    words[p + 17] := 0x0100_0000;
  }
}

/** Temporary blocks for packed messages, and the size classes they are allocated in. */
module StaticBlock {
  import opened Vint

  function Pow2(n: nat): (p: nat)
    ensures p >= 1
  {
    if n == 0 then 1 else 2 * Pow2(n - 1)
  }

  function Width(x: int): (n: nat)
    ensures x > 0 ==> n > 0 && Pow2(n - 1) <= x < Pow2(n)
    ensures x <= 0 ==> n == 0
  {
    if x <= 0 then 0 else 1 + Width(x / 2)
  }

  /** How many bits `x` needs, counted by shifting it out. */
  method BitWidth(x: int) returns (n: nat)
    ensures n == Width(x)
  {
    if x <= 0 {
      return 0;
    }
    n := 0;
    var rest := x;
    while rest > 0
      invariant rest >= 0 && n + Width(rest) == Width(x)
    {
      rest := rest / 2;
      n := n + 1;
    }
  }

  /** `x` up to the next multiple of `unit`. */
  function RoundUp(x: nat, unit: nat): nat
    requires unit > 0
  {
    (x + unit - 1) / unit * unit
  }

  const WORD := 8

  /** The words of a medium block of `words` words. */
  function MediumWords(words: nat): nat
    requires words > 0
  {
    var b := Width(words - 1);
    var bin := if b < 3 then words else b * 4 + (words - 1) / Pow2(b - 2) % 4;
    var (binB, binExtra) := (bin / 4, bin % 4);
    if binB < 3 then bin else Pow2(binB - 1) + (binExtra + 1) * Pow2(binB - 3)
  }

  function PaddedSize(n: int): nat {
    if n <= 0 then WORD
    else if n <= 64 then RoundUp(n, WORD)
    else if n <= 512 then RoundUp(n, 16)
    else if n <= 8192 then MediumWords((n + WORD - 1) / WORD) * WORD
    else RoundUp(n, 4096)
  }

  /** Four size classes to each power of two, of which only the upper two can be picked. */
  method MediumPadding(wsize: nat) returns (words: nat)
    requires wsize > 0
    ensures words == MediumWords(wsize)
  {
    var b := BitWidth(wsize - 1);
    hide Pow2;
    hide Width;
    var bin := wsize;
    if b >= 3 {
      bin := b * 4 + (wsize - 1) / Pow2(b - 2) % 4;
    }
    var binB, binExtra := bin / 4, bin % 4;
    if binB < 3 {
      return bin;
    }
    return Pow2(binB - 1) + (binExtra + 1) * Pow2(binB - 3);
  }

  method MimallocPaddingSize(originSize: int) returns (size: nat)
    ensures size == PaddedSize(originSize)
  {
    hide MediumWords;
    if originSize <= 0 {
      return WORD;
    }
    if originSize <= 64 {
      return RoundUp(originSize, WORD);
    }
    if originSize <= 512 {
      return RoundUp(originSize, 16);
    }
    if originSize <= 8192 {
      var resultWsize := MediumPadding((originSize + WORD - 1) / WORD);
      return resultWsize * WORD;
    }
    return RoundUp(originSize, 4096);
  }

  /** The medium sizes, by the request: seven eighths of a power of two, or the power. */
  function MediumTable(n: int): nat {
    if n <= 768 then 896 else if n <= 1024 then 1024
    else if n <= 1536 then 1792 else if n <= 2048 then 2048
    else if n <= 3072 then 3584 else if n <= 4096 then 4096
    else if n <= 6144 then 7168 else 8192
  }

  /** The words of a block by the width and the two leading bits of `words - 1`. */
  function WordsOf(b: nat, lead: nat): nat
    requires b >= 3 && lead >= 1
  {
    Pow2(b - 1) + (lead % 4 + 1) * Pow2(b - 3)
  }

  lemma TwoBits(x: nat, b: nat, lead: nat)
    requires b >= 3 && x > 0 && (lead == 2 || lead == 3)
    requires lead * Pow2(b - 2) <= x < lead * Pow2(b - 2) + Pow2(b - 2)
    ensures Width(x) == b && x / Pow2(b - 2) == lead
  {
    var p := Pow2(b - 2);
    assert lead == 2 ==> lead * p == 2 * p;
    assert lead == 3 ==> lead * p == 3 * p;
    assert Pow2(b - 1) == 2 * p && Pow2(b) == 4 * p;
    hide Width;
    WidthUnique(x, b);
    LeadingBits(x, p, lead);
  }

  lemma MediumByBits(words: nat, b: nat, lead: nat)
    requires b >= 3 && words > 1 && (lead == 2 || lead == 3)
    requires lead * Pow2(b - 2) <= words - 1 < lead * Pow2(b - 2) + Pow2(b - 2)
    ensures MediumWords(words) == WordsOf(b, lead)
  {
    hide Pow2;
    hide Width;
    TwoBits(words - 1, b, lead);
    BinParts(b, lead);
    assert lead % 4 == lead;
  }

  lemma BinParts(b: nat, lead: nat)
    requires lead == 2 || lead == 3
    ensures (b * 4 + lead % 4) / 4 == b && (b * 4 + lead % 4) % 4 == lead
  {
  }

  lemma Scaled(a: nat, b: nat, p: nat)
    requires a <= b
    ensures a * p <= b * p
  {
    assert b * p == a * p + (b - a) * p;
  }

  lemma LeadingBits(x: nat, p: nat, q: nat)
    requires p > 0 && q * p <= x < q * p + p
    ensures x / p == q
  {
    var d := x / p;
    assert x == p * d + x % p && p * d == d * p;
    assert (d + 1) * p == d * p + p && (q + 1) * p == q * p + p;
    if d < q {
      Scaled(d + 1, q, p);
    } else if d > q {
      Scaled(q + 1, d, p);
    }
  }

  lemma Powers()
    ensures Pow2(4) == 16 && Pow2(5) == 32 && Pow2(6) == 64 && Pow2(7) == 128 && Pow2(8) == 256 && Pow2(9) == 512
  {
    assert Pow2(3) == 8;
  }

  lemma MediumIsTable(n: int)
    requires 512 < n <= 8192
    ensures PaddedSize(n) == MediumTable(n)
  {
    hide Pow2;
    hide MediumWords;
    Powers();
    var words := (n + WORD - 1) / WORD;
    if words <= 96 { MediumByBits(words, 7, 2); }
    else if words <= 128 { MediumByBits(words, 7, 3); }
    else if words <= 192 { MediumByBits(words, 8, 2); }
    else if words <= 256 { MediumByBits(words, 8, 3); }
    else if words <= 384 { MediumByBits(words, 9, 2); }
    else if words <= 512 { MediumByBits(words, 9, 3); }
    else if words <= 768 { MediumByBits(words, 10, 2); }
    else { MediumByBits(words, 10, 3); }
  }

  lemma {:induction false} PowMonotone(a: nat, b: nat)
    requires a <= b
    ensures Pow2(a) <= Pow2(b)
    decreases b
  {
    if a < b {
      PowMonotone(a, b - 1);
    }
  }

  lemma WidthUnique(x: int, b: nat)
    requires x > 0 && b > 0 && Pow2(b - 1) <= x < Pow2(b)
    ensures Width(x) == b
  {
    var n := Width(x);
    if n < b {
      PowMonotone(n, b - 1);
    } else if b < n {
      PowMonotone(b, n - 1);
    }
  }

  lemma NextMultiple(n: nat, unit: nat)
    requires n > 0 && (unit == WORD || unit == 16 || unit == 4096)
    ensures RoundUp(n, unit) % unit == 0 && n <= RoundUp(n, unit) < n + unit
    ensures RoundUp(n, unit) % WORD == 0
  {
  }

  /** A block holds what was asked for, wasting less than three quarters of the request. */
  lemma PaddingCovers(n: int)
    ensures PaddedSize(n) >= n && PaddedSize(n) >= WORD && PaddedSize(n) % WORD == 0
    ensures n > 64 ==> 4 * PaddedSize(n) < 7 * n
    ensures 0 < n <= 64 ==> PaddedSize(n) < n + WORD
  {
    hide Pow2;
    hide Width;
    hide MediumWords;
    hide RoundUp;
    if 512 < n <= 8192 {
      MediumIsTable(n);
    } else if n > 0 {
      NextMultiple(n, if n <= 64 then WORD else if n <= 512 then 16 else 4096);
    }
  }

  /** Outside the medium class a request goes up to the next multiple of its class's unit. */
  lemma OtherClasses(n: int)
    requires n <= 512 || n > 8192
    ensures var unit := if n <= 64 then 8 else if n <= 512 then 16 else 4096;
            && PaddedSize(n) % unit == 0 && PaddedSize(n) >= unit
            && n <= PaddedSize(n) && (n > 0 ==> PaddedSize(n) < n + unit) && (n <= 0 ==> PaddedSize(n) == unit)
  {
    hide RoundUp;
    if n > 0 {
      NextMultiple(n, if n <= 64 then WORD else if n <= 512 then 16 else 4096);
    }
  }

  lemma PaddingRange(n: int)
    ensures n <= 64 ==> WORD <= PaddedSize(n) <= 64
    ensures 64 < n <= 512 ==> 80 <= PaddedSize(n) <= 512
    ensures 512 < n <= 8192 ==> 896 <= PaddedSize(n) <= 8192
    ensures n > 8192 ==> 12288 <= PaddedSize(n)
  {
    hide MediumWords;
    if 512 < n <= 8192 {
      MediumIsTable(n);
    }
  }

  lemma RoundUpMonotone(m: nat, n: nat, unit: nat)
    requires m <= n && (unit == WORD || unit == 16 || unit == 4096)
    ensures RoundUp(m, unit) <= RoundUp(n, unit)
  {
  }

  lemma PaddingMonotone(m: int, n: int)
    requires m <= n
    ensures PaddedSize(m) <= PaddedSize(n)
  {
    hide MediumWords;
    hide RoundUp;
    PaddingRange(m);
    PaddingRange(n);
    if n <= 64 {
      if m > 0 { RoundUpMonotone(m, n, WORD); }
    } else if 64 < m && n <= 512 {
      RoundUpMonotone(m, n, 16);
    } else if 512 < m && n <= 8192 {
      MediumIsTable(m);
      MediumIsTable(n);
    } else if 8192 < m {
      RoundUpMonotone(m, n, 4096);
    }
  }

  /** In the medium class the waste is at most an eighth of the request exactly in these ranges. */
  lemma MediumWaste(n: int)
    requires 512 < n <= 8192
    ensures 8 * (PaddedSize(n) - n) <= n <==> 911 <= n <= 1024 || 1821 <= n <= 2048 || 3641 <= n <= 4096 || 7282 <= n
    ensures PaddedSize(513) == 896
  {
    hide MediumWords;
    hide PaddedSize;
    MediumIsTable(n);
    MediumIsTable(513);
  }

  // ----- The block -----

  class StaticBufferBlock {
    const data: array<Byte>
    var used: nat

    ghost predicate Valid()
      reads this
    {
      used <= data.Length
    }

    /** The used part. */
    ghost function Content(): seq<Byte>
      requires Valid()
      reads this, data
    {
      data[..used]
    }

    constructor (size: nat)
      requires size > 0
      ensures Valid() && fresh(data) && data.Length == size && used == 0
    {
      data := new Byte[size];
      used := 0;
    }

    method SetUsed(n: int)
      requires Valid()
      modifies this
      ensures Valid() && used == if n < 0 then 0 else if n > data.Length then data.Length else n
    {
      var m := n;
      if m < 0 {
        m := 0;
      }
      if m > data.Length {
        m := data.Length;
      }
      used := m;
    }

    /** Appends as much of `bytes` as there is room for. */
    method Write(bytes: seq<Byte>) returns (n: nat)
      requires Valid()
      modifies this, data
      ensures Valid() && n == (if |bytes| <= data.Length - old(used) then |bytes| else data.Length - old(used))
      ensures used == old(used) + n && Content() == old(Content()) + bytes[..n]
    {
      n := |bytes|;
      if n > data.Length - used {
        n := data.Length - used;
      }
      CopyTo(used, bytes[..n]);
      used := used + n;
    }

    /** Copies `bytes` over the block from `offset`; the used size stays. */
    method CopyTo(offset: nat, bytes: seq<Byte>)
      requires offset + |bytes| <= data.Length
      modifies data
      ensures data[..offset + |bytes|] == old(data[..offset]) + bytes
      ensures forall k :: 0 <= k < offset || offset + |bytes| <= k < data.Length ==> data[k] == old(data[k])
    {
      forall k | offset <= k < offset + |bytes| { data[k] := bytes[k - offset]; }
    }
  }

  method AllocateTemporaryBufferBlock(originSize: int) returns (block: StaticBufferBlock?)
    ensures block == null <==> originSize <= 0
    ensures block != null ==>
              && fresh(block) && fresh(block.data) && block.Valid()
              && block.data.Length == PaddedSize(originSize) >= originSize && block.used == originSize
  {
    if originSize <= 0 {
      return null;
    }
    var realSize := MimallocPaddingSize(originSize);
    PaddingCovers(originSize);
    var b := new StaticBufferBlock(realSize);
    b.SetUsed(originSize);
    return b;
  }
}

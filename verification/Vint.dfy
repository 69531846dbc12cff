/**
 The variable-length integer code of libatbus: seven data bits a byte, most
 significant group first, the top bit of every byte but the last set.
 */
module Vint {

  const TWO_64: nat := 0x1_0000_0000_0000_0000
  const TWO_57: nat := 0x200_0000_0000_0000

  type Byte = b: int | 0 <= b < 256
  type U64 = v: int | 0 <= v < TWO_64

  /** The outcome of decoding: a value with its encoded length, or too few bytes. */
  datatype Decoded = Incomplete | Value(value: U64, size: nat)

  // ----- Reference code -----

  /** The continuation groups of `h`; zero has none. */
  function HighGroups(h: nat): (s: seq<Byte>)
    ensures forall i :: 0 <= i < |s| ==> s[i] >= 128
  {
    if h == 0 then [] else HighGroups(h / 128) + [128 + h % 128]
  }

  function Encode(v: nat): (s: seq<Byte>)
    ensures |s| == |HighGroups(v / 128)| + 1
  {
    HighGroups(v / 128) + [v % 128]
  }

  /** One step of the reader: shift in seven bits, in 64-bit arithmetic. */
  function Shift(acc: U64, b: Byte): U64 {
    (acc * 128 + b % 128) % TWO_64
  }

  /** Left-to-right decoding with the 64-bit accumulator `acc` of the original. */
  function Scan(data: seq<Byte>, acc: U64): (d: Decoded)
    ensures d.Value? ==> 1 <= d.size <= |data|
  {
    if data == [] then Incomplete
    else
      var acc' := Shift(acc, data[0]);
      if data[0] < 128 then Value(acc', 1)
      else
        var d := Scan(data[1..], acc');
        if d.Incomplete? then Incomplete else Value(d.value, d.size + 1)
  }

  function Decode(data: seq<Byte>): (d: Decoded)
    ensures d.Value? ==> 1 <= d.size <= |data|
  {
    Scan(data, 0)
  }

  // ----- The original's loops -----

  /** The reading loop; the original reports an incomplete integer as size zero. */
  method ReadVint(data: seq<Byte>) returns (out: U64, size: nat)
    ensures size == 0 <==> Decode(data).Incomplete?
    ensures size != 0 ==> Decode(data) == Value(out, size)
    ensures size == 0 ==> out == 0
  {
    if |data| == 0 {
      return 0, 0;
    }
    out := 0;
    var left := |data|;
    var i := 0;
    while i < |data|
      invariant 0 <= i < |data| && left == |data| - i
      invariant Decode(data).Incomplete? <==> Scan(data[i..], out).Incomplete?
      invariant Scan(data[i..], out).Value? ==>
                  Decode(data) == Value(Scan(data[i..], out).value, i + Scan(data[i..], out).size)
    {
      left := left - 1;
      assert data[i..][1..] == data[i + 1..];
      out := Shift(out, data[i]);
      if data[i] < 128 {
        break;
      } else if left == 0 {
        return 0, 0;
      }
      i := i + 1;
    }
    size := |data| - left;
  }

  method VintEncodedSize(value: U64) returns (size: nat)
    ensures size == |Encode(value)|
  {
    if value == 0 {
      return 1;
    }
    size := 0;
    var v := value;
    while v != 0
      invariant v >= 0
      invariant size + |HighGroups(v)| == |HighGroups(value)|
    {
      size := size + 1;
      v := v / 128;
    }
  }

  /**
   Writes into the slice `data[lo..hi]`. Succeeds exactly when the slice has room
   for the whole code, and then touches nothing but the bytes of the code; a slice
   that is too small is left scribbled over, everything outside it is not.
   */
  method WriteVint(value: U64, data: array<Byte>, lo: nat, hi: nat) returns (used: nat)
    requires lo <= hi <= data.Length
    modifies data
    ensures used == if |Encode(value)| <= hi - lo then |Encode(value)| else 0
    ensures used != 0 ==> data[..] == old(data[..])[..lo] + Encode(value) + old(data[..])[lo + used..]
    ensures forall k :: 0 <= k < lo || hi <= k < data.Length ==> data[k] == old(data[k])
  {
    if hi == lo {
      return 0;
    }
    hide HighGroups;
    ghost var (was, code) := (data[..], Encode(value));
    hide Encode;
    var rest;
    used, rest := LayGroups(value, data, lo, hi);
    if rest != 0 {
      return 0;
    }
    ReverseRange(data, lo, used);
    Spliced(was, data[..], lo, code);
  }

  /** A sequence with `code` in place from `lo` on and nothing else changed. */
  lemma Spliced(was: seq<Byte>, now: seq<Byte>, lo: nat, code: seq<Byte>)
    requires lo + |code| <= |was| == |now|
    requires forall k :: lo <= k < lo + |code| ==> now[k] == code[k - lo]
    requires forall k :: 0 <= k < lo || lo + |code| <= k < |was| ==> now[k] == was[k]
    ensures now == was[..lo] + code + was[lo + |code|..]
  {
  }

  /** Lays the groups down lowest first; `rest` is what did not fit. */
  method LayGroups(value: U64, data: array<Byte>, lo: nat, hi: nat) returns (used: nat, rest: nat)
    requires lo < hi <= data.Length
    modifies data
    ensures 1 <= used <= hi - lo && used <= |Encode(value)|
    ensures rest == 0 <==> used == |Encode(value)|
    ensures rest != 0 ==> used == hi - lo
    ensures forall k :: lo <= k < lo + used ==> data[k] == Encode(value)[|Encode(value)| - 1 + lo - k]
    ensures forall k :: 0 <= k < lo || lo + used <= k < data.Length ==> data[k] == old(data[k])
  {
    ghost var code := Encode(value);
    ghost var top := |code| - 1 + lo;
    used := 1;
    var d := lo;
    data[d] := value % 128;
    rest := value / 128;
    while rest != 0 && used + 1 <= hi - lo
      invariant d + 1 == lo + used <= hi && 1 <= used <= |code|
      invariant |code| == |HighGroups(rest)| + used && code[..|HighGroups(rest)|] == HighGroups(rest)
      invariant forall k :: lo <= k < lo + used ==> data[k] == code[top - k]
      invariant forall k :: 0 <= k < lo || lo + used <= k < data.Length ==> data[k] == old(data[k])
      decreases rest
    {
      LastGroup(rest, code);
      used := used + 1;
      d := d + 1;
      data[d] := 128 + rest % 128;
      rest := rest / 128;
    }
    assert rest != 0 ==> |HighGroups(rest)| > 0;
  }

  lemma LastGroup(v: nat, code: seq<Byte>)
    requires v != 0 && |HighGroups(v)| <= |code| && code[..|HighGroups(v)|] == HighGroups(v)
    ensures |HighGroups(v)| == |HighGroups(v / 128)| + 1
    ensures code[..|HighGroups(v / 128)|] == HighGroups(v / 128)
    ensures code[|HighGroups(v / 128)|] == 128 + v % 128
  {
    var n := |HighGroups(v / 128)|;
    assert code[..n] == code[..n + 1][..n] == HighGroups(v)[..n];
    assert code[n] == HighGroups(v)[n];
  }

  /** In-place reversal of `data[lo..lo + n]` by swapping inwards from both ends. */
  method ReverseRange(data: array<Byte>, lo: nat, n: nat)
    requires 0 < n && lo + n <= data.Length
    modifies data
    ensures forall k :: lo <= k < lo + n ==> data[k] == old(data[..])[lo + lo + n - 1 - k]
    ensures forall k :: 0 <= k < lo || lo + n <= k < data.Length ==> data[k] == old(data[k])
  {
    ghost var was := data[..];
    ghost var ends := lo + lo + n - 1;
    var i, j := lo, lo + n - 1;
    while i < j
      invariant lo <= i <= j + 1 <= lo + n && j == ends - i
      invariant forall k :: lo <= k < i || j < k < lo + n ==> data[k] == was[ends - k]
      invariant forall k :: 0 <= k < lo || i <= k <= j || lo + n <= k < data.Length ==> data[k] == was[k]
    {
      data[i], data[j] := data[j], data[i];
      i, j := i + 1, j - 1;
    }
  }

  // ----- Laws -----

  lemma ShiftGroup(h: nat)
    requires h < TWO_57
    ensures Shift(h / 128, 128 + h % 128) == h
  {
    assert (128 + h % 128) % 128 == h % 128;
  }

  lemma ShiftLast(v: U64)
    ensures Shift(v / 128, v % 128) == v
  {
    assert v % 128 % 128 == v % 128;
  }

  lemma {:induction false} ScanHighGroups(h: nat, rest: seq<Byte>)
    requires h < TWO_57
    ensures var d := Scan(rest, h);
            Scan(HighGroups(h) + rest, 0) ==
            if d.Incomplete? then Incomplete else Value(d.value, |HighGroups(h)| + d.size)
  {
    if h == 0 {
      assert HighGroups(h) + rest == rest;
    } else {
      var last: Byte := 128 + h % 128;
      assert HighGroups(h) + rest == HighGroups(h / 128) + ([last] + rest);
      ScanHighGroups(h / 128, [last] + rest);
      ShiftGroup(h);
      assert ([last] + rest)[1..] == rest;
    }
  }

  /** Decoding inverts encoding, whatever bytes follow. */
  lemma DecodeEncode(v: U64, suffix: seq<Byte>)
    ensures Decode(Encode(v) + suffix) == Value(v, |Encode(v)|)
  {
    var last: Byte := v % 128;
    assert Encode(v) + suffix == HighGroups(v / 128) + ([last] + suffix);
    ScanHighGroups(v / 128, [last] + suffix);
    ShiftLast(v);
  }

  lemma {:induction false} ScanContinuations(s: seq<Byte>, acc: U64)
    requires forall i :: 0 <= i < |s| ==> s[i] >= 128
    ensures Scan(s, acc) == Incomplete
  {
    if s != [] {
      ScanContinuations(s[1..], Shift(acc, s[0]));
    }
  }

  /** No proper prefix of a code decodes: a reader that has too little always knows it. */
  lemma PrefixIncomplete(v: U64, n: nat)
    requires n < |Encode(v)|
    ensures Decode(Encode(v)[..n]) == Incomplete
  {
    ScanContinuations(Encode(v)[..n], 0);
  }

  /** A decoded integer depends only on the bytes it occupies, and those end the code. */
  lemma {:induction false} ScanExtend(data: seq<Byte>, suffix: seq<Byte>, acc: U64)
    requires Scan(data, acc).Value?
    ensures Scan(data + suffix, acc) == Scan(data, acc)
    ensures Scan(data[..Scan(data, acc).size], acc) == Scan(data, acc)
  {
    var acc' := Shift(acc, data[0]);
    var n := Scan(data, acc).size;
    assert (data + suffix)[1..] == data[1..] + suffix;
    if data[0] >= 128 {
      ScanExtend(data[1..], suffix, acc');
      assert data[..n][1..] == data[1..][..n - 1];
    }
  }

  /** Ten bytes encode every 64-bit value. */
  lemma EncodeSizeBound(v: U64)
    ensures 1 <= |Encode(v)| <= 10
  {
    HighGroupsBound(v / 128, 9);
  }

  function Pow128(n: nat): (p: nat)
    ensures p >= 1
  {
    if n == 0 then 1 else 128 * Pow128(n - 1)
  }

  lemma {:induction false} HighGroupsBound(h: nat, n: nat)
    requires h < Pow128(n)
    ensures |HighGroups(h)| <= n
  {
    if h != 0 {
      HighGroupsBound(h / 128, n - 1);
    }
  }
}

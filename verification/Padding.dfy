/** Block padding: PKCS#7 for CBC (section 6.3 of RFC 5652), and XXTEA's variant of it. */
module Padding {
  import opened Vint
  import opened Wrappers

  const AES_BLOCK := 16
  const TEA_WORD := 4
  const TEA_LEAST := 8

  function Filler(n: nat, b: Byte): (s: seq<Byte>)
    ensures |s| == n && forall i :: 0 <= i < n ==> s[i] == b
  {
    seq(n, _ => b)
  }

  function PadSize(n: nat, block: nat): (k: nat)
    requires block == AES_BLOCK || block == TEA_WORD
    ensures 1 <= k <= block && (n + k) % block == 0
  {
    block - n % block
  }

  function Pad(plain: seq<Byte>): (s: seq<Byte>)
    ensures |s| % AES_BLOCK == 0 && |plain| < |s| <= |plain| + AES_BLOCK
  {
    plain + Filler(PadSize(|plain|, AES_BLOCK), PadSize(|plain|, AES_BLOCK))
  }

  function Unpad(s: seq<Byte>): (plain: Option<seq<Byte>>) {
    if s == [] then None
    else
      var n := s[|s| - 1];
      if n <= 0 || n > AES_BLOCK || n > |s| then None
      else if forall i :: |s| - n <= i < |s| ==> s[i] == n then Some(s[..|s| - n])
      else None
  }

  /** The padding is as many bytes as are missing from a whole block, each of which gives their number. */
  lemma PadForm(plain: seq<Byte>)
    ensures var (s, n) := (Pad(plain), |plain|);
            && 1 <= |s| - n <= 16 && |s| % 16 == 0 && s[..n] == plain
            && forall i :: n <= i < |s| ==> s[i] == |s| - n
  {
  }

  lemma UnpadPad(plain: seq<Byte>)
    ensures Unpad(Pad(plain)) == Some(plain)
  {
    var (p, n) := (Pad(plain), PadSize(|plain|, AES_BLOCK));
    assert p[|p| - 1] == n && p[..|p| - n] == plain;
    assert forall i :: |p| - n <= i < |p| ==> p[i] == n;
  }

  lemma PadUnpad(s: seq<Byte>)
    requires |s| % AES_BLOCK == 0 && Unpad(s).Some?
    ensures s == Pad(Unpad(s).value)
  {
    var n := s[|s| - 1];
    var m := |s| - n;
    assert PadSize(m, AES_BLOCK) == n;
    assert s == s[..m] + s[m..] && s[m..] == Filler(n, n);
  }

  /** What is padded comes back, and nothing else is accepted from a stream of blocks. */
  lemma UnpadExactly(s: seq<Byte>, plain: seq<Byte>)
    requires |s| % AES_BLOCK == 0
    ensures Unpad(s) == Some(plain) <==> s == Pad(plain)
  {
    hide Unpad;
    hide Pad;
    UnpadPad(plain);
    if Unpad(s).Some? {
      PadUnpad(s);
    }
  }

  method PadBlocks(plain: seq<Byte>) returns (padded: array<Byte>)
    ensures fresh(padded) && padded[..] == Pad(plain)
  {
    var padding := AES_BLOCK - |plain| % AES_BLOCK;
    padded := new Byte[|plain| + padding](_ => 0);
    forall k | 0 <= k < |plain| { padded[k] := plain[k]; }
    for i := |plain| to padded.Length
      invariant padded[..|plain|] == plain
      invariant forall k :: |plain| <= k < i ==> padded[k] == padding
    {
      padded[i] := padding;
    }
  }

  method StripBlocks(padded: array<Byte>) returns (plain: Option<seq<Byte>>)
    requires padded.Length % AES_BLOCK == 0
    ensures plain == Unpad(padded[..])
  {
    if padded.Length == 0 {
      return None;
    }
    var padding := padded[padded.Length - 1];
    if padding <= 0 || padding > AES_BLOCK {
      return None;
    }
    for i := padded.Length - padding to padded.Length
      invariant forall k :: padded.Length - padding <= k < i ==> padded[k] == padding
    {
      if padded[i] != padding {
        assert padded[..][i] != padding;
        return None;
      }
    }
    return Some(padded[..padded.Length - padding]);
  }

  // ----- XXTEA -----

  /** Padded to whole words as above, and with zeros to the least length there is. */
  function TeaPad(plain: seq<Byte>): (s: seq<Byte>)
    ensures |s| >= TEA_LEAST && |s| % TEA_WORD == 0 && plain <= s
    ensures |s| <= |plain| + TEA_LEAST && (|plain| > 0 ==> |s| <= |plain| + TEA_LEAST - 1)
  {
    var padded := plain + Filler(PadSize(|plain|, TEA_WORD), PadSize(|plain|, TEA_WORD));
    if |padded| < TEA_LEAST then padded + Filler(TEA_LEAST - |padded|, 0) else padded
  }

  lemma TeaForm(plain: seq<Byte>)
    ensures var (s, n) := (TeaPad(plain), |plain|);
            && 1 <= |s| - n && |s| % 4 == 0 && (|s| - n <= 4 || |s| == 8) && s[..n] == plain
            && forall i :: n <= i < |s| ==> s[i] == (if i < n + 4 - n % 4 then 4 - n % 4 else 0)
  {
  }

  method PadTea(plain: seq<Byte>) returns (padded: array<Byte>)
    ensures fresh(padded) && padded[..] == TeaPad(plain)
  {
    var padding := TEA_WORD - |plain| % TEA_WORD;
    var paddedLen := |plain| + padding;
    if paddedLen < TEA_LEAST {
      paddedLen := TEA_LEAST;
    }
    padded := new Byte[paddedLen](_ => 0);
    forall k | 0 <= k < |plain| { padded[k] := plain[k]; }
    for i := |plain| to |plain| + padding
      invariant padded[..|plain|] == plain
      invariant forall k :: |plain| <= k < i ==> padded[k] == padding
      invariant forall k :: i <= k < padded.Length ==> padded[k] == 0
    {
      padded[i] := padding;
    }
  }
}

/** Concatenation of byte chunks, shared by the two sides of a stream. */
module Chunks {
  import opened Vint

  function Flat(chunks: seq<seq<Byte>>): (s: seq<Byte>) {
    if chunks == [] then [] else Flat(chunks[..|chunks| - 1]) + chunks[|chunks| - 1]
  }

  lemma {:induction false} FlatAppend(a: seq<seq<Byte>>, b: seq<seq<Byte>>)
    ensures Flat(a + b) == Flat(a) + Flat(b)
  {
    if b == [] {
      assert a + b == a;
    } else {
      var m := |b| - 1;
      FlatAppend(a, b[..m]);
      assert (a + b)[..|a| + m] == a + b[..m];
    }
  }

  lemma FlatOne(f: seq<Byte>)
    ensures Flat([f]) == f
  {
    assert Flat([f]) == Flat([]) + f;
  }

  lemma FlatSnoc(fs: seq<seq<Byte>>, f: seq<Byte>)
    ensures Flat(fs + [f]) == Flat(fs) + f
  {
    FlatAppend(fs, [f]);
    FlatOne(f);
  }

  lemma FlatUncons(q: seq<seq<Byte>>)
    requires q != []
    ensures Flat(q) == q[0] + Flat(q[1..])
  {
    assert q == [q[0]] + q[1..];
    FlatAppend([q[0]], q[1..]);
    FlatOne(q[0]);
  }
}

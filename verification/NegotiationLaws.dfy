/** What the order of the algorithms means: which kinds of cipher, and which key sizes, win. */
module NegotiationLaws {
  import opened Negotiation
  import opened MessagePack
  import opened Wrappers

  function Place(a: Algorithm): (i: nat)
    requires !a.Unknown?
    ensures i < |Priority()| && Priority()[i] == a
  {
    match a
    case Xchacha20Poly1305 => 0 case Chacha20Poly1305 => 1
    case Aes256Gcm => 2 case Aes192Gcm => 3 case Aes128Gcm => 4
    case Aes256Cbc => 5 case Aes192Cbc => 6 case Aes128Cbc => 7
    case Chacha20 => 8 case Xxtea => 9 case NoCrypto => 10
  }

  /** No common algorithm comes before the one that is chosen. */
  lemma ChosenIsFirst(local: seq<Algorithm>, remote: seq<Algorithm>, a: Algorithm)
    requires !a.Unknown? && Common(a, local, remote)
    ensures var n := Negotiate(local, remote); !n.Unknown? && Common(n, local, remote) && Place(n) <= Place(a)
  {
    var (order, n) := (Priority(), Negotiate(local, remote));
    FirstCommonIsBest(order, local, remote);
    NegotiateKnown(local, remote);
    assert order[Place(a)] == a;
    assert Best(order, n, local, remote);
    var i :| 0 <= i < |order| && order[i] == n && Common(n, local, remote)
             && forall j :: 0 <= j < i ==> !Common(order[j], local, remote);
    PlaceUnique(n, i);
  }

  lemma PlaceUnique(a: Algorithm, i: nat)
    requires !a.Unknown? && i < |Priority()| && Priority()[i] == a
    ensures i == Place(a)
  {
  }

  /** Without encryption only if the two ends share no cipher; otherwise with one they share. */
  lemma EncryptsIfPossible(local: seq<Algorithm>, remote: seq<Algorithm>)
    ensures Negotiate(local, remote) == NoCrypto <==> forall a :: a != NoCrypto && !a.Unknown? ==> !Common(a, local, remote)
    ensures Negotiate(local, remote) != NoCrypto ==> Common(Negotiate(local, remote), local, remote)
  {
    forall a | a != NoCrypto && !a.Unknown? && Common(a, local, remote) ensures Negotiate(local, remote) != NoCrypto {
      ChosenIsFirst(local, remote, a);
    }
    FirstCommonIsBest(Priority(), local, remote);
    NegotiateKnown(local, remote);
  }

  /** An authenticated cipher whenever the ends share one. */
  lemma AuthenticatedWins(local: seq<Algorithm>, remote: seq<Algorithm>, a: Algorithm)
    requires IsAead(a) && Common(a, local, remote)
    ensures IsAead(Negotiate(local, remote))
  {
    ChosenIsFirst(local, remote, a);
  }

  /** Next to it a block cipher in chaining mode, before the bare stream cipher, before XXTEA. */
  lemma BlocksBeforeStream(local: seq<Algorithm>, remote: seq<Algorithm>, a: Algorithm)
    requires Common(a, local, remote)
    ensures IsCbc(a) ==> IsAead(Negotiate(local, remote)) || IsCbc(Negotiate(local, remote))
    ensures a == Chacha20 ==> Negotiate(local, remote) !in {Xxtea, NoCrypto}
  {
    if !a.Unknown? {
      ChosenIsFirst(local, remote, a);
    }
  }

  function KeyBits(a: Algorithm): nat {
    match a
    case Aes128Cbc | Aes128Gcm | Xxtea => 128
    case Aes192Cbc | Aes192Gcm => 192
    case NoCrypto | Unknown(_) => 0
    case _ => 256
  }

  /** Within AES in one mode the longest key they share. */
  lemma LongestKeyWins(local: seq<Algorithm>, remote: seq<Algorithm>, a: Algorithm)
    requires Common(a, local, remote)
    ensures var n := Negotiate(local, remote);
            || (IsCbc(a) && IsCbc(n)) || (a in {Aes128Gcm, Aes192Gcm, Aes256Gcm} && n in {Aes128Gcm, Aes192Gcm, Aes256Gcm})
            ==> KeyBits(a) <= KeyBits(n)
  {
    if !a.Unknown? {
      ChosenIsFirst(local, remote, a);
    }
  }

  /** And the larger nonce before the smaller. */
  lemma LargestNonceWins(local: seq<Algorithm>, remote: seq<Algorithm>, a: Algorithm)
    requires IsAead(a) && Common(a, local, remote)
    ensures IvSize(a) <= IvSize(Negotiate(local, remote))
  {
    ChosenIsFirst(local, remote, a);
  }
}

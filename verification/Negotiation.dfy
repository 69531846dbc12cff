/** The crypto algorithms, and how two ends agree on one. */
module Negotiation {

  /** `Unknown` stands for the numbers a peer may send that name no algorithm here. */
  datatype Algorithm =
    | NoCrypto | Xxtea
    | Aes128Cbc | Aes192Cbc | Aes256Cbc
    | Aes128Gcm | Aes192Gcm | Aes256Gcm
    | Chacha20 | Chacha20Poly1305 | Xchacha20Poly1305
    | Unknown(code: int)

  datatype Kdf = HkdfSha256 | OtherKdf(code: int)

  function Priority(): seq<Algorithm> {
    [Xchacha20Poly1305, Chacha20Poly1305, Aes256Gcm, Aes192Gcm, Aes128Gcm,
     Aes256Cbc, Aes192Cbc, Aes128Cbc, Chacha20, Xxtea, NoCrypto]
  }

  predicate Common(a: Algorithm, local: seq<Algorithm>, remote: seq<Algorithm>) {
    a in local && a in remote
  }

  /** The first of `order` that both lists hold, and otherwise no encryption. */
  function FirstCommon(order: seq<Algorithm>, local: seq<Algorithm>, remote: seq<Algorithm>): Algorithm {
    if order == [] then NoCrypto
    else if Common(order[0], local, remote) then order[0]
    else FirstCommon(order[1..], local, remote)
  }

  function Negotiate(local: seq<Algorithm>, remote: seq<Algorithm>): Algorithm {
    FirstCommon(Priority(), local, remote)
  }

  method NegotiateCryptoAlgorithm(local: seq<Algorithm>, remote: seq<Algorithm>) returns (alg: Algorithm)
    ensures alg == Negotiate(local, remote)
  {
    var priority := Priority();
    var localSet := set a | a in local;
    var remoteSet := set a | a in remote;
    for i := 0 to |priority|
      invariant Negotiate(local, remote) == FirstCommon(priority[i..], local, remote)
    {
      assert priority[i..][1..] == priority[i + 1..];
      if priority[i] in localSet && priority[i] in remoteSet {
        return priority[i];
      }
    }
    return NoCrypto;
  }

  /** `a` is the best common algorithm: shared, and none before it in the order is. */
  ghost predicate Best(order: seq<Algorithm>, a: Algorithm, local: seq<Algorithm>, remote: seq<Algorithm>) {
    exists i :: 0 <= i < |order| && order[i] == a && Common(a, local, remote)
                && forall j :: 0 <= j < i ==> !Common(order[j], local, remote)
  }

  lemma {:induction false} FirstCommonIsBest(order: seq<Algorithm>, local: seq<Algorithm>, remote: seq<Algorithm>)
    ensures var a := FirstCommon(order, local, remote);
            || Best(order, a, local, remote)
            || (a == NoCrypto && forall j :: 0 <= j < |order| ==> !Common(order[j], local, remote))
  {
    if order != [] && !Common(order[0], local, remote) {
      var rest := order[1..];
      FirstCommonIsBest(rest, local, remote);
      var a := FirstCommon(rest, local, remote);
      if Best(rest, a, local, remote) {
        var i :| 0 <= i < |rest| && rest[i] == a && forall j :: 0 <= j < i ==> !Common(rest[j], local, remote);
        assert order[i + 1] == a;
        forall j | 0 <= j < i + 1 ensures !Common(order[j], local, remote) {
          assert j > 0 ==> order[j] == rest[j - 1];
        }
      } else {
        forall j | 0 <= j < |order| ensures !Common(order[j], local, remote) {
          assert j > 0 ==> order[j] == rest[j - 1];
        }
      }
    }
  }

  /**
   The server takes the best algorithm common to both lists, or none if nothing is;
   and from the server's one-element reply the client takes the same.
   */
  lemma NegotiationAgrees(client: seq<Algorithm>, server: seq<Algorithm>)
    ensures var a := Negotiate(server, client);
            && Negotiate(client, [a]) == a
            && (Best(Priority(), a, server, client)
                || (a == NoCrypto && forall b :: b in Priority() ==> !Common(b, server, client)))
  {
    var order := Priority();
    var a := Negotiate(server, client);
    FirstCommonIsBest(order, server, client);
    FirstCommonIsBest(order, client, [a]);
    if Best(order, a, server, client) {
      var i :| 0 <= i < |order| && order[i] == a;
      assert Common(order[i], client, [a]);
    } else {
      forall b | b in order ensures !Common(b, server, client) {
        var j :| 0 <= j < |order| && order[j] == b;
      }
    }
  }

  /** The ends never pick an algorithm without a key size or cipher of its own. */
  lemma NegotiateKnown(local: seq<Algorithm>, remote: seq<Algorithm>)
    ensures !Negotiate(local, remote).Unknown?
  {
    FirstCommonIsBest(Priority(), local, remote);
  }

  // ----- Key derivation -----

  /** The first of the remote list the local one holds, and otherwise HKDF. */
  function FirstKdf(local: seq<Kdf>, remote: seq<Kdf>): Kdf {
    if remote == [] then HkdfSha256
    else if remote[0] in local then remote[0]
    else FirstKdf(local, remote[1..])
  }

  method NegotiateKdf(local: seq<Kdf>, remote: seq<Kdf>) returns (kdf: Kdf)
    ensures kdf == FirstKdf(local, remote)
  {
    var localSet := set k | k in local;
    for i := 0 to |remote|
      invariant FirstKdf(local, remote) == FirstKdf(local, remote[i..])
    {
      assert remote[i..][1..] == remote[i + 1..];
      if remote[i] in localSet {
        return remote[i];
      }
    }
    return HkdfSha256;
  }

  /** A context supports HKDF alone, so that is what it settles on with any peer. */
  lemma {:induction false} KdfIsHkdf(remote: seq<Kdf>)
    ensures FirstKdf([HkdfSha256], remote) == HkdfSha256
  {
    if remote != [] && remote[0] != HkdfSha256 {
      KdfIsHkdf(remote[1..]);
    }
  }
}

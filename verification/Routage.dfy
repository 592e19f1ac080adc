/** Which peer a packet that leaves goes to: the one with the longest matching prefix. */
module Routage {
  import opened Termes
  import opened Adresses

  datatype Prefixe = Prefixe(adresse: nat, bits: nat) {
    predicate Contient(a: nat) {
      bits <= 32 && a / Puissance(32 - bits) == adresse / Puissance(32 - bits)
    }
  }

  /** A peer with its addresses. */
  datatype Route = Route(pair: Terme, adresses: seq<Prefixe>)

  predicate Mene(r: Route, dest: nat, bits: nat) {
    exists p <- r.adresses :: p.Contient(dest) && p.bits == bits
  }

  /** In whatever order the peers come: nobody if no prefix contains the destination,
      else a peer with a prefix that does, and no prefix that does is longer. */
  method Router(routes: seq<Route>, dest: nat) returns (meilleur: Option<Terme>, ghost bits: int)
    ensures meilleur.None? <==> forall r <- routes, b: nat :: !Mene(r, dest, b)
    ensures meilleur.Some? ==>
              && (exists r <- routes :: r.pair == meilleur.valeur && bits >= 0 && Mene(r, dest, bits))
              && forall r <- routes, b: nat | Mene(r, dest, b) :: b <= bits
  {
    meilleur := None;
    var n := -1;
    var j := 0;
    while j < |routes|
      invariant 0 <= j <= |routes| && n >= -1 && (n == -1 <==> meilleur.None?)
      invariant forall r <- routes[..j], b: nat | Mene(r, dest, b) :: b <= n
      invariant meilleur.Some? ==> exists r <- routes[..j] :: r.pair == meilleur.valeur && Mene(r, dest, n)
    {
      assert routes[..j + 1] == routes[..j] + [routes[j]];
      var b := PlusLong(routes[j], dest);
      if b > n {
        meilleur, n := Some(routes[j].pair), b;
        assert routes[j] in routes[..j + 1];
      }
      j := j + 1;
    }
    assert routes[..j] == routes;
    bits := n;
  }

  /** The longest prefix of a peer that contains the destination; -1 if none does. */
  method PlusLong(r: Route, dest: nat) returns (bits: int)
    ensures bits >= -1 && (bits >= 0 ==> Mene(r, dest, bits))
    ensures forall b: nat | Mene(r, dest, b) :: b <= bits
  {
    bits := -1;
    var i := 0;
    while i < |r.adresses|
      invariant 0 <= i <= |r.adresses| && bits >= -1 && (bits >= 0 ==> Mene(r, dest, bits))
      invariant forall p <- r.adresses[..i] | p.Contient(dest) :: p.bits <= bits
    {
      var p := r.adresses[i];
      if p.Contient(dest) && p.bits > bits {
        bits := p.bits;
      }
      i := i + 1;
    }
    assert r.adresses[..i] == r.adresses;
  }
}

/** Between an opened packet and the interface: the gates it goes through, and what is
    known of whatever comes out of them. */
module Interface {
  import opened Termes
  import opened Etats
  import opened Pairs
  import opened Raffinement
  import Session
  import Noise
  import O = Octets
  import T = Trames
  import P = Politique
  import S = Suivi
  import V = Routage
  import A = Accord

  /** What the engine holds about a peer beside its sessions: its addresses, its filter. */
  datatype Voisin = Voisin(adresses: seq<V.Prefixe>, filtre: Option<P.Filtre>)

  predicate Detient(v: Voisin, a: P.Adresse) {
    exists p <- v.adresses :: p.Contient(a)
  }

  predicate SontOctets(o: seq<nat>) {
    forall i | 0 <= i < |o| :: o[i] < 256
  }

  function EnOctets(o: seq<nat>): (b: seq<O.Octet>)
    requires SontOctets(o)
    ensures b == o
  {
    seq(|o|, i requires 0 <= i < |o| && o[i] < 256 => o[i])
  }

  /** What is read of an opened packet, and how much of it there is. */
  function Lire4(o: seq<nat>): (r: Option<(S.Ip, nat)>)
    ensures r.Some? ==> r.valeur.1 <= |o|
  {
    if !SontOctets(o) then None
    else
      match T.LireIPv4(EnOctets(o))
      case None => None
      case Some(h) =>
        Some((S.Ip(h.proto, h.ports, O.LireGros(h.source), O.LireGros(h.dest), h.portSrc, h.portDst, h.typeIcmp),
            h.longueur))
  }

  /** The gates, in order: it reads, its source is an address of the peer it came from, it
      is for us, and the filter lets it in or it answers what was sent to that peer. */
  predicate Franchit(k: Terme, ip: S.Ip, voisins: map<Terme, Voisin>, moi: Option<P.Adresse>,
                     flux: map<S.Cle, S.Entree>,
                     maintenant: int) {
    && k in voisins && Detient(voisins[k], ip.source) && (moi.Some? ==> ip.dest == moi.valeur)
    && (P.Accepte(voisins[k].filtre, S.Lu4(ip)) || S.Revient(flux, ip, k, maintenant))
  }

  /** What reaches the interface of an opened packet: all of it but its padding, or nothing. */
  method Remettre(k: Terme, o: seq<nat>, voisins: map<Terme, Voisin>, moi: Option<P.Adresse>, suivi: S.Suivi,
                  maintenant: int)
      returns (ecrit: Option<seq<nat>>)
    ensures ecrit.Some? <==> Lire4(o).Some? && Franchit(k, Lire4(o).valeur.0, voisins, moi, suivi.flux, maintenant)
    ensures ecrit.Some? ==> ecrit.valeur == o[..Lire4(o).valeur.1]
  {
    var lu := Lire4(o);
    if lu.None? || k !in voisins {
      return None;
    }
    var (ip, longueur) := lu.valeur;
    var sienne := false;
    var j := 0;
    while j < |voisins[k].adresses| && !sienne
      invariant 0 <= j <= |voisins[k].adresses|
      invariant sienne <==> exists i | 0 <= i < j :: voisins[k].adresses[i].Contient(ip.source)
    {
      sienne := voisins[k].adresses[j].Contient(ip.source);
      j := j + 1;
    }
    if !sienne || (moi.Some? && ip.dest != moi.valeur) {
      return None;
    }
    var permis := P.Autorise(voisins[k].filtre, S.Lu4(ip));
    if !permis {
      var repond := suivi.Retour(ip, k, maintenant);
      if !repond {
        return None;
      }
    }
    return Some(o[..longueur]);
  }

  /** No other peer of this engine has this address. */
  predicate SeulA(voisins: map<Terme, Voisin>, x: P.Adresse, k: Terme) {
    forall l <- voisins | Detient(voisins[l], x) :: l == k
  }

  /** Whatever reaches the interface of an engine from an address that it knows as an honest
      device's was sealed by the engine of that device, for this one; and it is allowed by
      the filter of that device, or answers a packet sent to it before. */
  lemma EcritJustifie(honnetes: set<Prive>, ps: seq<Pas>, a: Prive, b: Prive, recues: seq<Reception>, k: Terme,
                      o: seq<nat>,
                      voisins: map<Terme, Voisin>, moi: Option<P.Adresse>, etats: seq<S.Etat>, actes: seq<S.Acte>,
                      n: nat,
                      maintenant: int)
    requires Histoire(honnetes, ps) && A.Honnete(honnetes, a) && A.Honnete(honnetes, b) && a != b
    requires Livree(Ou(ps, a).journal, recues, Some((k, o)))
    requires S.Recit(etats, actes) && n < |etats|
    requires Lire4(o).Some? && Franchit(k, Lire4(o).valeur.0, voisins, moi, etats[n].flux, maintenant)
    requires SeulA(voisins, Lire4(o).valeur.0.source, Publique(b))
    ensures exists f', m :: Envoyee(Publique(a), f', m, Octets(o)) in Ou(ps, b).journal
    ensures var ip := Lire4(o).valeur.0;
            || P.Accepte(voisins[Publique(b)].filtre, S.Lu4(ip))
            || exists i :: 0 <= i < n && actes[i].Sorti? && actes[i].pair == Publique(b) && S.Suivable(actes[i].ip)
                           && S.CleAller(actes[i].ip) == S.CleRetour(ip)
  {
    hide Histoire, Ou, S.Recit, Lire4;
    var ip := Lire4(o).valeur.0;
    assert k == Publique(b);
    var z: nat :| Ouvert(Ou(ps, a).journal, recues, k, Paquet(Octets(o), z));
    var x := recues[|recues| - 1];
    AuthenticiteDesMoteurs(honnetes, ps, a, b, Identite(x.s), x.n, Paquet(Octets(o), z));
    if S.Revient(etats[n].flux, ip, k, maintenant) {
      S.RetourJustifie(etats, actes, n, ip, k, maintenant);
    }
  }
}

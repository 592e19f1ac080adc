/** Flow tracking: what was sent out may be answered, for a while, by the peer it was
    sent to, within a budget of entries per peer. */
module Suivi {
  import opened Termes
  import P = Politique
  import S = Session

  const FLUX_PAR_PAIR := 10000

  /** What the engine reads of a packet. */
  datatype Ip = Ip(proto: nat, ports: bool, source: nat, dest: nat, portSrc: nat, portDst: nat, typeIcmp: nat)

  datatype Cle = Cle(proto: nat, local: nat, distant: nat, portLocal: nat, portDistant: nat)

  datatype Entree = Entree(fin: int, pair: Terme)

  function Duree(proto: nat): (d: int)
    ensures d > 0
  {
    if proto == P.TCP then 300 * S.SECONDE else if proto == P.UDP then 60 * S.SECONDE else 30 * S.SECONDE
  }

  /** Of ICMP, only echo requests are tracked. */
  predicate Suivable(ip: Ip) {
    ip.ports && (ip.proto == P.ICMP ==> ip.typeIcmp == 8)
  }

  /** Of ICMP, only echo replies come back. */
  predicate PeutRevenir(ip: Ip) {
    ip.ports && (ip.proto == P.ICMP ==> ip.typeIcmp == 0)
  }

  function CleAller(ip: Ip): Cle {
    Cle(ip.proto, ip.source, ip.dest, ip.portSrc, ip.portDst)
  }

  function CleRetour(ip: Ip): Cle {
    Cle(ip.proto, ip.dest, ip.source, ip.portDst, ip.portSrc)
  }

  /** The answer to a packet: the same flow the other way, an echo reply to an echo. */
  function Miroir(ip: Ip): Ip {
    Ip(ip.proto, ip.ports, ip.dest, ip.source, ip.portDst, ip.portSrc, if ip.proto == P.ICMP then 0 else ip.typeIcmp)
  }

  // ----- how many entries a peer holds -----------------------------------------------------

  ghost function De(flux: map<Cle, Entree>, p: Terme): set<Cle> {
    set k | k in flux && flux[k].pair == p
  }

  /** The count kept for each peer is the number of its entries, and within budget. */
  ghost predicate Juste(flux: map<Cle, Entree>, parPair: map<Terme, nat>) {
    && (forall p <- parPair :: 0 < parPair[p] == |De(flux, p)| <= FLUX_PAR_PAIR)
    && (forall k <- flux :: flux[k].pair in parPair)
  }

  function Compte(parPair: map<Terme, nat>, p: Terme): nat {
    if p in parPair then parPair[p] else 0
  }

  lemma CompteJuste(flux: map<Cle, Entree>, parPair: map<Terme, nat>, p: Terme)
    requires Juste(flux, parPair)
    ensures Compte(parPair, p) == |De(flux, p)|
  {
    if p !in parPair {
      assert De(flux, p) == {};
    }
  }

  lemma DeAjout(flux: map<Cle, Entree>, k: Cle, x: Entree, p: Terme)
    requires k !in flux
    ensures |De(flux[k := x], p)| == |De(flux, p)| + if p == x.pair then 1 else 0
  {
    assert De(flux[k := x], p) == De(flux, p) + if p == x.pair then {k} else {};
  }

  lemma DeRenouvele(flux: map<Cle, Entree>, k: Cle, x: Entree, p: Terme)
    requires k in flux && x.pair == flux[k].pair
    ensures De(flux[k := x], p) == De(flux, p)
  {
  }

  lemma DeRetrait(flux: map<Cle, Entree>, k: Cle, p: Terme)
    requires k in flux
    ensures |De(flux - {k}, p)| == |De(flux, p)| - if p == flux[k].pair then 1 else 0
  {
    assert De(flux - {k}, p) == De(flux, p) - if p == flux[k].pair then {k} else {};
    assert p == flux[k].pair ==> k in De(flux, p);
  }

  lemma JusteAjout(flux: map<Cle, Entree>, parPair: map<Terme, nat>, k: Cle, x: Entree)
    requires Juste(flux, parPair) && k !in flux && Compte(parPair, x.pair) < FLUX_PAR_PAIR
    ensures Juste(flux[k := x], parPair[x.pair := Compte(parPair, x.pair) + 1])
  {
    CompteJuste(flux, parPair, x.pair);
    hide De;
    forall p { DeAjout(flux, k, x, p); }
  }

  lemma JusteRenouvele(flux: map<Cle, Entree>, parPair: map<Terme, nat>, k: Cle, x: Entree)
    requires Juste(flux, parPair) && k in flux && x.pair == flux[k].pair
    ensures Juste(flux[k := x], parPair)
  {
    hide De;
    forall p { DeRenouvele(flux, k, x, p); }
  }

  lemma JusteRetrait(flux: map<Cle, Entree>, parPair: map<Terme, nat>, k: Cle)
    requires Juste(flux, parPair) && k in flux
    ensures var p := flux[k].pair;
            && p in parPair
            && Juste(flux - {k}, if parPair[p] - 1 <= 0 then parPair - {p} else parPair[p := parPair[p] - 1])
  {
    var p := flux[k].pair;
    if parPair[p] == 1 {
      DeRetrait(flux, k, p);
      assert De(flux - {k}, p) == {};
      assert forall j <- flux - {k} :: (flux - {k})[j].pair == p ==> j in De(flux - {k}, p);
    }
    hide De;
    forall q { DeRetrait(flux, k, q); }
  }

  lemma AuMoinsUn(flux: map<Cle, Entree>, parPair: map<Terme, nat>, k: Cle)
    requires Juste(flux, parPair) && k in flux
    ensures flux[k].pair in parPair && parPair[flux[k].pair] > 0
  {
  }

  // ----- what each operation does ----------------------------------------------------------

  function ApresNoter(flux: map<Cle, Entree>, parPair: map<Terme, nat>, ip: Ip, p: Terme, maintenant: int)
    : map<Cle, Entree>
  {
    var k := CleAller(ip);
    if !Suivable(ip) then flux
    else if k in flux then flux[k := Entree(maintenant + Duree(ip.proto), flux[k].pair)]
    else if Compte(parPair, p) >= FLUX_PAR_PAIR then flux
    else flux[k := Entree(maintenant + Duree(ip.proto), p)]
  }

  function ApresNettoyer(flux: map<Cle, Entree>, maintenant: int): map<Cle, Entree> {
    map k | k in flux && maintenant <= flux[k].fin :: flux[k]
  }

  predicate Revient(flux: map<Cle, Entree>, ip: Ip, p: Terme, maintenant: int) {
    PeutRevenir(ip) && CleRetour(ip) in flux && flux[CleRetour(ip)].pair == p && maintenant < flux[CleRetour(ip)].fin
  }

  class Suivi {
    var flux: map<Cle, Entree>
    var parPair: map<Terme, nat>

    ghost predicate Valid()
      reads this
    {
      Juste(flux, parPair)
    }

    constructor ()
      ensures Valid() && flux == map[]
    {
      flux, parPair := map[], map[];
    }

    method Noter(ip: Ip, p: Terme, maintenant: int)
      requires Valid()
      modifies this
      ensures Valid()
      ensures flux == ApresNoter(old(flux), old(parPair), ip, p, maintenant)
      ensures forall q | q != p :: Compte(parPair, q) == old(Compte(parPair, q))
    {
      hide Juste;
      if !ip.ports || (ip.proto == P.ICMP && ip.typeIcmp != 8) {
        return;
      }
      var k := CleAller(ip);
      if k in flux {
        var x := Entree(maintenant + Duree(ip.proto), flux[k].pair);
        JusteRenouvele(flux, parPair, k, x);
        flux := flux[k := x];
        return;
      }
      if Compte(parPair, p) >= FLUX_PAR_PAIR {
        return;
      }
      var x := Entree(maintenant + Duree(ip.proto), p);
      JusteAjout(flux, parPair, k, x);
      flux := flux[k := x];
      parPair := parPair[p := Compte(parPair, p) + 1];
    }

    method Retour(ip: Ip, p: Terme, maintenant: int) returns (ok: bool)
      ensures ok <==> Revient(flux, ip, p, maintenant)
    {
      if !ip.ports || (ip.proto == P.ICMP && ip.typeIcmp != 0) {
        return false;
      }
      var k := CleRetour(ip);
      return k in flux && flux[k].pair == p && maintenant < flux[k].fin;
    }

    method Nettoyer(maintenant: int)
      requires Valid()
      modifies this
      ensures Valid() && flux == ApresNettoyer(old(flux), maintenant)
    {
      var reste := flux.Keys;
      while reste != {}
        invariant Valid() && reste <= flux.Keys <= old(flux.Keys)
        invariant forall k <- flux :: flux[k] == old(flux)[k] && (k !in reste ==> maintenant <= flux[k].fin)
        invariant forall k <- old(flux) | maintenant <= old(flux)[k].fin :: k in flux
        decreases reste
      {
        hide Juste;
        var k :| k in reste;
        reste := reste - {k};
        if maintenant > flux[k].fin {
          Retirer(k);
        }
      }
    }

    /** One entry goes, and its peer has one more to spend. */
    method Retirer(k: Cle)
      requires Valid() && k in flux
      modifies this
      ensures Valid() && flux == old(flux) - {k}
    {
      hide Juste;
      JusteRetrait(flux, parPair, k);
      var p := flux[k].pair;
      assert parPair[p] > 0 by { AuMoinsUn(flux, parPair, k); }
      flux := flux - {k};
      parPair := if parPair[p] - 1 <= 0 then parPair - {p} else parPair[p := parPair[p] - 1];
    }
  }

  // ----- whole runs --------------------------------------------------------------------------

  /** What happened, and when: a packet sent to a peer, or a cleaning. */
  datatype Acte = Sorti(ip: Ip, pair: Terme, quand: int) | Menage(quand: int)

  datatype Etat = Etat(flux: map<Cle, Entree>, parPair: map<Terme, nat>)

  /** One act; the counts are those that fit the entries. */
  ghost predicate Suit(s: Etat, a: Acte, s': Etat) {
    && Juste(s'.flux, s'.parPair)
    && s'.flux == match a
                  case Sorti(ip, p, quand) => ApresNoter(s.flux, s.parPair, ip, p, quand)
                  case Menage(quand) => ApresNettoyer(s.flux, quand)
  }

  /** A run, from nothing, the clock never going back. */
  ghost predicate Recit(etats: seq<Etat>, actes: seq<Acte>) {
    && |etats| == |actes| + 1 && etats[0] == Etat(map[], map[])
    && (forall i | 0 <= i < |actes| :: Suit(etats[i], actes[i], etats[i + 1]))
    && (forall i, j | 0 <= i <= j < |actes| :: actes[i].quand <= actes[j].quand)
  }

  /** Sound: an entry of a peer was opened by a packet that we sent to that same peer. */
  lemma {:induction false} EntreeOuverte(etats: seq<Etat>, actes: seq<Acte>, n: nat, k: Cle)
    requires Recit(etats, actes) && n < |etats| && k in etats[n].flux
    ensures exists i :: 0 <= i < n && actes[i].Sorti? && Suivable(actes[i].ip) && CleAller(actes[i].ip) == k
                        && actes[i].pair == etats[n].flux[k].pair
  {
    if n > 0 {
      assert Suit(etats[n - 1], actes[n - 1], etats[n]);
      if k in etats[n - 1].flux {
        EntreeOuverte(etats, actes, n - 1, k);
      } else {
        assert actes[n - 1].Sorti? && CleAller(actes[n - 1].ip) == k;
      }
    }
  }

  lemma RetourJustifie(etats: seq<Etat>, actes: seq<Acte>, n: nat, ip: Ip, p: Terme, maintenant: int)
    requires Recit(etats, actes) && n < |etats| && Revient(etats[n].flux, ip, p, maintenant)
    ensures exists i :: 0 <= i < n && actes[i].Sorti? && actes[i].pair == p && Suivable(actes[i].ip)
                        && CleAller(actes[i].ip) == CleRetour(ip)
  {
    EntreeOuverte(etats, actes, n, CleRetour(ip));
  }

  /** An entry stays its peer's, and lives at least its whole duration. */
  lemma {:induction false} EntreeDure(etats: seq<Etat>, actes: seq<Acte>, n: nat, m: nat, k: Cle, depuis: int)
    requires Recit(etats, actes) && n <= m < |etats|
    requires k in etats[n].flux && depuis + Duree(k.proto) <= etats[n].flux[k].fin
    requires forall i | n <= i < m :: depuis <= actes[i].quand <= depuis + Duree(k.proto)
    ensures k in etats[m].flux && etats[m].flux[k].pair == etats[n].flux[k].pair
    ensures depuis + Duree(k.proto) <= etats[m].flux[k].fin
    decreases m
  {
    if n < m {
      EntreeDure(etats, actes, n, m - 1, k, depuis);
      assert Suit(etats[m - 1], actes[m - 1], etats[m]);
    }
  }

  /** Complete: the answer to a packet just sent to a peer comes back from it for as
      long as the protocol allows, whatever else happens, unless another peer owns
      the flow or this one's budget is full. */
  lemma ReponseAdmise(etats: seq<Etat>, actes: seq<Acte>, n: nat, m: nat, maintenant: int)
    requires Recit(etats, actes) && n < m < |etats| && actes[n].Sorti? && Suivable(actes[n].ip)
    requires forall i | n < i < m :: actes[i].quand <= maintenant
    requires actes[n].quand <= maintenant < actes[n].quand + Duree(actes[n].ip.proto)
    requires var k := CleAller(actes[n].ip);
             if k in etats[n].flux then etats[n].flux[k].pair == actes[n].pair
             else |De(etats[n].flux, actes[n].pair)| < FLUX_PAR_PAIR
    ensures Revient(etats[m].flux, Miroir(actes[n].ip), actes[n].pair, maintenant)
  {
    var a, s := actes[n], etats[n];
    assert Suit(s, a, etats[n + 1]);
    if n > 0 { assert Suit(etats[n - 1], actes[n - 1], s); }
    assert Juste(s.flux, s.parPair);
    CompteJuste(s.flux, s.parPair, a.pair);
    EntreeDure(etats, actes, n + 1, m, CleAller(a.ip), a.quand);
  }

  /** At the very instant of sending, exactly: the answer is tracked if and only if the
      flow was this peer's already, or was nobody's and the budget allows one more. */
  lemma ReponseExacte(s: Etat, ip: Ip, p: Terme, quand: int, s': Etat)
    requires Juste(s.flux, s.parPair) && Suivable(ip) && Suit(s, Sorti(ip, p, quand), s')
    ensures Revient(s'.flux, Miroir(ip), p, quand) <==>
              var k := CleAller(ip);
              if k in s.flux then s.flux[k].pair == p else |De(s.flux, p)| < FLUX_PAR_PAIR
  {
    CompteJuste(s.flux, s.parPair, p);
    assert CleRetour(Miroir(ip)) == CleAller(ip);
  }

  // ----- with the rules ----------------------------------------------------------------------

  function Lu4(ip: Ip): P.Paquet4 {
    P.Paquet4(ip.proto, ip.ports, ip.portDst)
  }

  /** A packet whose answer the filter lets in already is not tracked. */
  predicate ReponseAutorisee(ip: Ip, filtre: Option<P.Filtre>) {
    var inverse := Ip(ip.proto, ip.ports, ip.dest, ip.source, ip.portDst, ip.portSrc, ip.typeIcmp);
    ip.proto != P.ICMP && P.Accepte(filtre, Lu4(inverse))
  }

  /** Sending a packet to a peer, as the engine does: by its filter or by an entry, its
      answer is let in, unless the flow is another peer's or the budget is full; and what
      the filter covers costs no entry. */
  method Sortir(suivi: Suivi, ip: Ip, p: Terme, filtre: Option<P.Filtre>, maintenant: int)
    requires suivi.Valid()
    modifies suivi
    ensures suivi.Valid()
    ensures ReponseAutorisee(ip, filtre) || !Suivable(ip) ==> suivi.flux == old(suivi.flux)
    ensures ReponseAutorisee(ip, filtre) ==> P.Accepte(filtre, Lu4(Miroir(ip)))
    ensures !ReponseAutorisee(ip, filtre) && Suivable(ip) ==>
              (Revient(suivi.flux, Miroir(ip), p, maintenant) <==>
                 var k, avant := CleAller(ip), old(suivi.flux);
                 if k in avant then avant[k].pair == p else |De(avant, p)| < FLUX_PAR_PAIR)
  {
    if !ReponseAutorisee(ip, filtre) {
      ghost var avant := Etat(suivi.flux, suivi.parPair);
      suivi.Noter(ip, p, maintenant);
      if Suivable(ip) {
        ReponseExacte(avant, ip, p, maintenant, Etat(suivi.flux, suivi.parPair));
      }
    }
  }

  /** And for as long as the protocol allows, whatever happens in between: a packet that
      the filter does not cover is tracked as the n-th act, and its answer comes back by
      the entry; one that it does cover is answered as long as the filter stays. */
  lemma ReponseParUneVoie(etats: seq<Etat>, actes: seq<Acte>, n: nat, m: nat, ip: Ip, p: Terme,
                          filtre: Option<P.Filtre>, maintenant: int)
    requires Recit(etats, actes) && n < m < |etats| && Suivable(ip)
    requires !ReponseAutorisee(ip, filtre) ==>
               && actes[n].Sorti? && actes[n].ip == ip && actes[n].pair == p
               && (forall i | n < i < m :: actes[i].quand <= maintenant)
               && actes[n].quand <= maintenant < actes[n].quand + Duree(ip.proto)
               && var k := CleAller(ip);
                  if k in etats[n].flux then etats[n].flux[k].pair == p else |De(etats[n].flux, p)| < FLUX_PAR_PAIR
    ensures P.Accepte(filtre, Lu4(Miroir(ip))) || Revient(etats[m].flux, Miroir(ip), p, maintenant)
  {
    if !ReponseAutorisee(ip, filtre) {
      ReponseAdmise(etats, actes, n, m, maintenant);
    }
  }
}

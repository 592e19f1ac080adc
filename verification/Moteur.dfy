/** The tunnel engine: its pairs, the sessions they hold, and the global table that
    finds the pair an incoming index belongs to. Each handler is one atomic step. */
module Moteur {
  import opened Termes
  import Fenetre
  import opened Noise
  import opened Session
  import opened Etats
  import opened Table
  import opened Pairs
  import opened Raffinement

  class Moteur {
    var prive: Prive
    var pairs: map<Terme, Pair>
    var indices: map<nat, Terme>
    var parNumero: map<nat, Terme>
    var serveur: Option<Terme>
    // Keys drawn so far: the next one is always new.
    var tirages: nat
    // What it did with its sessions under its present key.
    ghost var journal: set<Acte>
    // What it opened, in order: which counter, with which session.
    ghost var recues: seq<Reception>
    const sansReponseMax: int
    const estServeur: bool

    ghost predicate Valid()
      reads this
    {
      && Exact(pairs, indices)
      && (forall n <- parNumero :: n != 0 && parNumero[n] in pairs)
      && (serveur.Some? ==> serveur.valeur in pairs)
    }

    ghost function Vu(): Instant
      reads `pairs, `tirages, `journal
    {
      Instant(pairs, tirages, journal)
    }

    constructor (prive: Prive, estServeur: bool, sansReponseMax: int)
      ensures Valid() && Vu() == NAISSANCE && this.prive == prive && this.estServeur == estServeur
    {
      this.prive, this.estServeur, this.sansReponseMax := prive, estServeur, sansReponseMax;
      pairs, indices, parNumero, serveur := map[], map[], map[], None;
      tirages, journal, recues := 0, {}, [];
    }

    /** A new private key: every session falls with the old one. */
    method DefinirCle(prive: Prive)
      requires Sain()
      modifies `prive, `pairs, `indices, `parNumero, `serveur, `journal
      ensures Sain() && this.prive == prive && Vu() == Instant(map[], tirages, {}) && indices == map[]
                && SessionsDe(pairs) == {} && Court(pairs.Keys)
    {
      SainesEn(SessionsDe(pairs), recues);
      this.prive := prive;
      pairs, indices, parNumero, serveur, journal := map[], map[], map[], None, {};
    }

    /** At most four entries per pair: the table cannot leak. */
    lemma QuatreParPair()
      requires Valid()
      ensures |indices| <= 4 * |pairs|
    {
      AuPlusQuatre(indices, Tenues(pairs));
      assert Tenues(pairs).Keys == pairs.Keys;
      assert |Tenues(pairs).Keys| == |pairs.Keys|;
    }

    ghost predicate PlaceLibre()
      reads `indices
    {
      exists i: nat :: 0 < i <= INDICE_MAX && i !in indices
    }

    /** So the search for a free index ends. */
    lemma PlaceRestante()
      requires Valid() && Court(pairs.Keys)
      ensures PlaceLibre()
    {
      QuatreParPair();
      assert |indices.Keys| == |indices| && |pairs.Keys| == |pairs|;
      IndiceLibre(indices.Keys, INDICE_MAX);
    }

    /** Any index not in use; none for a pair that left the list. */
    method ReserverIndice(k: Terme) returns (i: nat, ok: bool)
      requires PlaceLibre()
      modifies `indices
      ensures ok <==> k in pairs
      ensures ok ==> 0 < i <= INDICE_MAX && i !in old(indices) && indices == old(indices)[i := k]
      ensures !ok ==> indices == old(indices)
    {
      if k !in pairs {
        return 0, false;
      }
      i :| 0 < i <= INDICE_MAX && i !in indices;
      indices := indices[i := k];
      return i, true;
    }

    /** Giving indices up leaves at least as much room. */
    lemma PlaceApres(rendus: set<nat>)
      requires PlaceLibre()
      ensures exists i: nat :: 0 < i <= INDICE_MAX && i !in indices - rendus
    {
      var i: nat :| 0 < i <= INDICE_MAX && i !in indices;
      assert i !in indices - rendus;
    }

    method Tirer() returns (neuf: Prive)
      modifies `tirages
      ensures neuf == Ephemere(prive, old(tirages)) && tirages == old(tirages) + 1
    {
      neuf := Ephemere(prive, tirages);
      tirages := tirages + 1;
    }

    /** The list is replaced. A pair that stays keeps its sessions, a new one starts with
        none, one that leaves loses all its indices at once. */
    method DefinirPairs(liste: seq<Config>)
      requires Valid()
      modifies `pairs, `indices, `parNumero, `serveur
      ensures Valid()
      ensures pairs.Keys == Nommes(liste)
      ensures forall k <- pairs :: pairs[k] == Regler(Numeroter(Garde(old(pairs), k), liste, k), liste, k)
      ensures indices == Sauf(old(indices), old(pairs.Keys) - Nommes(liste))
      ensures parNumero == ParNumero(liste) && serveur == ServeurDe(liste)
    {
      hide Exact, Inscrits, Regles, Numeroter, Regler, Garde, Nommes, Sauf, ParNumero, ServeurDe;
      ListeAppliquee(pairs, indices, liste);
      Inscrire(liste);
      Retirer(Nommes(liste));
      Router(liste);
    }

    method Inscrire(liste: seq<Config>)
      modifies `pairs, `parNumero, `serveur
      ensures pairs == Inscrits(old(pairs), liste)
      ensures parNumero == ParNumero(liste) && serveur == ServeurDe(liste)
    {
      parNumero, serveur := map[], None;
      var j := 0;
      while j < |liste|
        invariant 0 <= j <= |liste|
        invariant pairs == Inscrits(old(pairs), liste[..j])
        invariant parNumero == ParNumero(liste[..j]) && serveur == ServeurDe(liste[..j])
      {
        var c := liste[j];
        assert liste[..j + 1][..j] == liste[..j];
        if c.publique !in pairs {
          pairs := pairs[c.publique := NOUVEAU];
        }
        pairs := pairs[c.publique := pairs[c.publique].(numero := c.numero)];
        if c.numero != 0 {
          parNumero := parNumero[c.numero := c.publique];
        }
        if c.point.Some? {
          serveur := Some(c.publique);
        }
        j := j + 1;
      }
      assert liste[..j] == liste;
    }

    method Retirer(vus: set<Terme>)
      modifies `pairs, `indices
      ensures pairs == old(pairs) - (old(pairs.Keys) - vus)
      ensures indices == Sauf(old(indices), old(pairs.Keys) - vus)
    {
      var restants := pairs.Keys - vus;
      ghost var partis := {};
      while restants != {}
        invariant partis + restants == old(pairs.Keys) - vus
        invariant pairs == old(pairs) - partis
        invariant indices == Sauf(old(indices), partis)
        decreases restants
      {
        var k :| k in restants;
        SansEncore(old(indices), partis, k);
        pairs, indices := pairs - {k}, Sauf(indices, {k});
        restants, partis := restants - {k}, partis + {k};
      }
    }

    method Router(liste: seq<Config>)
      requires Nommes(liste) <= pairs.Keys
      modifies `pairs
      ensures pairs == Regles(old(pairs), liste)
    {
      var j := 0;
      assert liste[..0] == [];
      while j < |liste|
        invariant 0 <= j <= |liste|
        invariant Nommes(liste[..j]) <= old(pairs.Keys) && pairs == Regles(old(pairs), liste[..j])
      {
        var c := liste[j];
        assert liste[..j + 1][..j] == liste[..j];
        DebutNommes(liste[..j + 1]);
        var p := pairs[c.publique];
        if c.point.Some? {
          p := p.(point := c.point);
        }
        p := p.(direct := c.point.Some?, relais := c.parRelais, maintien := c.maintien);
        pairs := pairs[c.publique := p];
        j := j + 1;
      }
      assert liste[..j] == liste;
    }

    // ----- sending -----------------------------------------------------------------------

    /** Ties a handshake just written to this pair: the index of the one before it is
        given up, a free one is taken. */
    method LierPoignee(k: Terme, p: Pair, ini: Ini, maintenant: nat) returns (idx: nat)
      requires Valid() && Court(pairs.Keys) && k in pairs
      requires p == pairs[k].(h := p.h)
      modifies `pairs, `indices
      ensures Valid() && idx != 0
      ensures pairs == old(pairs)[k := p.(poignee := Some(ini), indicePoignee := idx,
                                          h := p.h.(derniereTentative := maintenant))]
    {
      hide Court, Exact;
      PlaceRestante();
      CoherentEn(pairs, indices, k);
      PlaceApres(Seul(p.Tenue().poignee));
      if p.indicePoignee != 0 {
        indices := indices - {p.indicePoignee};
      }
      assert indices == old(indices) - Seul(p.Tenue().poignee);
      var ok;
      idx, ok := ReserverIndice(k);
      var p' := p.(poignee := Some(ini), indicePoignee := idx, h := p.h.(derniereTentative := maintenant));
      ExactPoignee(pairs, old(indices), k, idx, p');
      pairs := pairs[k := p'];
    }

    /** Starts a handshake, once every five seconds at most. */
    method LancerPoignee(k: Terme, maintenant: nat) returns (envois: seq<Envoi>)
      requires Valid() && Court(pairs.Keys) && k in pairs
      modifies `pairs, `indices, `tirages
      ensures Valid() && pairs.Keys == old(pairs.Keys) && pairs == old(pairs)[k := pairs[k]]
      ensures Lance(prive, k, old(tirages), maintenant, old(pairs[k]), pairs[k], envois)
      ensures tirages >= old(tirages) && (envois != [] ==> tirages > old(tirages))
      ensures Tranches(pairs[k]) == old(Tranches(pairs[k]))
    {
      hide Court, Exact, PremierMessage;
      CoherentEn(pairs, indices, k);
      var p := pairs[k];
      if !p.Actif() || (p.direct && p.point.None?) {
        return [];
      }
      if p.poignee.Some? && maintenant - p.h.derniereTentative < RELANCER_APRES {
        return [];
      }
      if p.h.debutTentatives == 0 {
        p := p.(h := p.h.(debutTentatives := maintenant));
      }
      var neuf := Tirer();
      var (ini, corps) := PremierMessage(prive, k, neuf.n, maintenant);
      if corps.None? {
        Noter(k, p);
        return [];
      }
      var idx := LierPoignee(k, p, ini, maintenant);
      return [p.VersLui(Initiation(idx, corps.valeur))];
    }

    /** Replaces a pair without touching anything that is indexed. */
    method Noter(k: Terme, p: Pair)
      requires Valid() && k in pairs
      requires p.Coherent() && p.Tenue() == pairs[k].Tenue()
      modifies `pairs
      ensures Valid() && pairs.Keys == old(pairs.Keys) && pairs == old(pairs)[k := p]
    {
      ExactSansChange(pairs, indices, k, p);
      pairs := pairs[k := p];
    }

    /** Seals a plaintext for this pair with its current session. Without one that can
        seal, the plaintext waits if we are the side that opens sessions, and is lost if
        we are not; either way a handshake may leave. */
    method EnvoyerClair(k: Terme, clair: Contenu, maintenant: nat) returns (envois: seq<Envoi>)
      requires Valid() && Court(pairs.Keys) && k in pairs
      modifies `pairs, `indices, `tirages, `journal, Seule(pairs[k].courante)`compteur
      ensures Valid() && pairs.Keys == old(pairs.Keys) && pairs == old(pairs)[k := pairs[k]]
      ensures Tranches(pairs[k]) == old(Tranches(pairs[k]))
      ensures tirages >= old(tirages)
      ensures |envois| > (if old(EstUtilisable(pairs[k].courante, maintenant)) then 1 else 0) ==> tirages > old(tirages)
      ensures var s := old(pairs[k]).courante;
              journal == old(journal)
                         + if old(EstUtilisable(s, maintenant))
                             then {Envoyee(k, Identite(s), old(s.compteur), clair)} else {}
      ensures var c := old(pairs[k]).courante;
              c != null ==> c.compteur == old(c.compteur) + if old(EstUtilisable(c, maintenant)) then 1 else 0
      ensures var p, s := old(pairs[k]), old(pairs[k].courante);
              if old(EstUtilisable(s, maintenant))
              then Envoye(prive, k, old(tirages), maintenant, p, pairs[k],
                          MessageDonnees(s.distante, s.envoi, old(s.compteur), clair), clair,
                          old(s.ARenouveler(maintenant)), envois)
              else Lance(prive, k, old(tirages), maintenant, MisEnAttente(p, clair), pairs[k], envois)
    {
      hide Court, Exact, Lance, Envoye, Tranches, MessageDonnees;
      var s := pairs[k].courante;
      if !EstUtilisable(s, maintenant) {
        CoherentEn(pairs, indices, k);
        var p := pairs[k];
        if p.Actif() && |p.attente| < MAX_EN_ATTENTE {
          p := p.(attente := p.attente + [clair]);
        }
        assert p == MisEnAttente(pairs[k], clair);
        Noter(k, p);
        envois := LancerPoignee(k, maintenant);
        return;
      }
      envois := EnvoyerScelle(k, clair, maintenant);
    }

    /** Seals with the current session, after an initiation if it is due for renewal. */
    method EnvoyerScelle(k: Terme, clair: Contenu, maintenant: nat) returns (envois: seq<Envoi>)
      requires Valid() && Court(pairs.Keys) && k in pairs && EstUtilisable(pairs[k].courante, maintenant)
      modifies `pairs, `indices, `tirages, `journal, Seule(pairs[k].courante)`compteur
      ensures Valid() && pairs.Keys == old(pairs.Keys) && pairs == old(pairs)[k := pairs[k]]
      ensures Tranches(pairs[k]) == old(Tranches(pairs[k]))
      ensures tirages >= old(tirages) && (|envois| > 1 ==> tirages > old(tirages))
      ensures var p, s := old(pairs[k]), old(pairs[k].courante);
              && s.compteur == old(s.compteur) + 1
              && journal == old(journal) + {Envoyee(k, Identite(s), old(s.compteur), clair)}
              && Envoye(prive, k, old(tirages), maintenant, p, pairs[k],
                        MessageDonnees(s.distante, s.envoi, old(s.compteur), clair), clair,
                        old(s.ARenouveler(maintenant)), envois)
    {
      hide Court, Exact, Lance, Envoye, Tranches, ApresEnvoi, MessageDonnees, Identite, Pair.VersLui;
      envois := [];
      if EstARenouveler(pairs[k].courante, maintenant) {
        envois := LancerPoignee(k, maintenant);
        LanceGarde(prive, k, old(tirages), maintenant, old(pairs[k]), pairs[k], envois);
      }
      ghost var p, p1, s := old(pairs[k]), pairs[k], pairs[k].courante;
      EnvoyeApres(prive, k, old(tirages), maintenant, p, p1, MessageDonnees(s.distante, s.envoi, s.compteur, clair),
          clair,
                  old(s.ARenouveler(maintenant)), envois);
      var envoi := Emettre(k, clair, maintenant);
      VersLuiPareil(p, p1, MessageDonnees(s.distante, s.envoi, old(s.compteur), clair));
      envois := envois + [envoi];
    }

    /** One message sealed with the current session, and the clocks that go with it. */
    method Emettre(k: Terme, clair: Contenu, maintenant: nat) returns (envoi: Envoi)
      requires Valid() && k in pairs && EstUtilisable(pairs[k].courante, maintenant)
      modifies `pairs, `journal, Seule(pairs[k].courante)`compteur
      ensures Valid() && pairs.Keys == old(pairs.Keys)
      ensures pairs == old(pairs)[k := ApresEnvoi(old(pairs[k]), clair, maintenant)]
      ensures var p, s := old(pairs[k]), old(pairs[k].courante);
              && journal == old(journal) + {Envoyee(k, Identite(s), old(s.compteur), clair)}
              && envoi == p.VersLui(MessageDonnees(s.distante, s.envoi, old(s.compteur), clair))
              && s.compteur == old(s.compteur) + 1
    {
      hide Exact;
      var p := pairs[k];
      CoherentEn(pairs, indices, k);
      var h := p.h.(envoyes := p.h.envoyes + 1, dernierEnvoi := maintenant, recuSansRepondre := 0);
      if p.Actif() && TailleContenu(clair) > 0 && h.sansReponseDepuis == 0 {
        h := h.(sansReponseDepuis := h.dernierEnvoi);
      }
      Noter(k, p.(h := h));
      journal := journal + {Envoyee(k, Identite(p.courante), p.courante.compteur, clair)};
      var msg := p.courante.Chiffrer(clair);
      return p.VersLui(msg);
    }

    // ----- receiving ---------------------------------------------------------------------

    /** An initiation that passes the gates, reads, comes from a listed key by its own
        path, and is newer than the last: what is read in it, and the answer. */
    ghost function Admise(corps: Corps1, o: Origine, mac1: bool, porte: Porte): Option<Lu1>
      reads this
    {
      var lu := Repondre(prive, corps, Ephemere(prive, tirages));
      if && mac1 && porte.Passe? && lu.Some? && lu.valeur.publique in pairs
         && pairs[lu.valeur.publique].VenueVerifiee(o)
         && PlusRecente(pairs[lu.valeur.publique].Vue(), lu.valeur.horodatage)
      then lu else None
    }

    method RecevoirInitiation(envoyeur: nat, corps: Corps1, o: Origine, mac1: bool, porte: Porte, maintenant: nat)
        returns (envois: seq<Envoi>)
      requires Valid() && Court(pairs.Keys)
      modifies `pairs, `indices, `tirages, `journal
      ensures Valid() && pairs.Keys == old(pairs.Keys) && tirages >= old(tirages)
      ensures old(Admise(corps, o, mac1, porte)).None? ==>
                && pairs == old(pairs) && indices == old(indices) && journal == old(journal)
                && (o.ParRelais? ==> envois == [])
                && forall e <- envois :: e.msg.Cookie?
      ensures var lu := old(Admise(corps, o, mac1, porte));
              lu.Some? ==>
                var k := lu.valeur.publique;
                var p, p' := old(pairs[k]), pairs[k];
                && pairs == old(pairs)[k := p']
                && p'.suivante != null && fresh(p'.suivante) && Neuve(p'.suivante)
                && tirages > old(tirages) && journal == old(journal) + {Ouverture(k, Identite(p'.suivante))}
                && p' == p.(suivante := p'.suivante, dernierHorodatage := Some(lu.valeur.horodatage),
                            point := if o.Direct? && !p.direct then Some(o.point) else p.point)
                && p'.Vue() == ApresInitiation(p.Vue(), Fiche(p'.suivante.locale, envoyeur, lu.valeur.cles, false,
                   maintenant),
                                               lu.valeur.horodatage)
                && envois == [Retour(o, Reponse(p'.suivante.locale, envoyeur, lu.valeur.reponse))]
    {
      hide Court, Exact;
      if !mac1 || porte.Refuser? || (porte.DemanderCookie? && o.ParRelais?) {
        return [];
      }
      if porte.DemanderCookie? {
        return [Retour(o, Cookie(envoyeur))];
      }
      var (rep, lu) := Lecture1(NouveauRep(prive, PROLOGUE), corps);
      if lu.None? || !lu.valeur.1.Date? {
        return [];
      }
      var k, horodatage := lu.valeur.0, lu.valeur.1.t;
      if k !in pairs || !pairs[k].VenueVerifiee(o) {
        return [];
      }
      var p := pairs[k];
      if p.dernierHorodatage.Some? && horodatage <= p.dernierHorodatage.valeur {
        return [];
      }
      var neuf := Tirer();
      var (_, ecrit) := Ecriture2(rep, neuf, VIDE);
      if ecrit.None? {
        return [];
      }
      var point := if o.Direct? && !p.direct then Some(o.point) else p.point;
      var s := Suivre(k, envoyeur, ecrit.valeur.1, horodatage, point, maintenant);
      journal := journal + {Ouverture(k, Identite(s))};
      return [Retour(o, Reponse(s.locale, envoyeur, ecrit.valeur.0))];
    }

    /** The session an initiation opens: not used before the other side proves, with a
        first packet, that it holds the same keys. */
    method Suivre(k: Terme, envoyeur: nat, cles: Cles, horodatage: nat, point: Option<nat>, maintenant: nat)
        returns (s: Session)
      requires Valid() && Court(pairs.Keys) && k in pairs
      modifies `pairs, `indices
      ensures Valid() && pairs.Keys == old(pairs.Keys) && fresh(s) && Neuve(s)
      ensures FicheDe(s) == Some(Fiche(s.locale, envoyeur, cles, false, maintenant))
      ensures pairs == old(pairs)[k := old(pairs[k]).(suivante := s, dernierHorodatage := Some(horodatage),
                point := point)]
    {
      hide Court, Exact;
      var p := pairs[k];
      PlaceRestante();
      PlaceApres(Seul(Locale(p.suivante)));
      if p.suivante != null {
        indices := indices - {p.suivante.locale};
      }
      assert indices == old(indices) - Seul(Locale(p.suivante));
      var locale, ok := ReserverIndice(k);
      s := new Session(locale, envoyeur, cles.envoi, cles.reception, false, maintenant);
      var p' := p.(suivante := s, dernierHorodatage := Some(horodatage), point := point);
      CoherentEn(pairs, old(indices), k);
      ExactSuivante(pairs, old(indices), k, locale, p');
      pairs := pairs[k := p'];
    }

    /** An answer that finds its pair by its index, comes from where the initiation was
        sent, and is the answer to it: the pair, the payload and the keys. */
    ghost function Attendue(dest: nat, corps: Corps2, o: Origine, mac1: bool): Option<(Terme, Cles)>
      requires Valid()
      reads this
    {
      if !mac1 || dest !in indices then None
      else
        hide Exact;
        var k := (IndexVivant(dest); indices[dest]);
        var p := pairs[k];
        if p.VenueVerifiee(o) && p.poignee.Some? && p.indicePoignee == dest && (o.Direct? ==> p.point == Some(o.point))
        then match Lecture2(p.poignee.valeur, corps).1
          case None => None
          case Some(lu) => Some((k, lu.1))
        else None
    }

    lemma IndexVivant(i: nat)
      requires Valid() && i in indices
      ensures i != 0 && indices[i] in pairs
    {
      TousVivants(pairs, indices);
    }

    method RecevoirReponse(envoyeur: nat, dest: nat, corps: Corps2, o: Origine, mac1: bool, maintenant: nat)
        returns (envois: seq<Envoi>)
      requires Valid()
      modifies `pairs, `indices, `journal
      ensures Valid() && pairs.Keys == old(pairs.Keys)
      ensures old(Attendue(dest, corps, o, mac1)).None? ==>
                pairs == old(pairs) && indices == old(indices) && journal == old(journal) && envois == []
      ensures var lu := old(Attendue(dest, corps, o, mac1));
              lu.Some? ==>
                var (k, cles) := lu.valeur;
                var p, p' := old(pairs[k]), pairs[k];
                var clairs := if p.attente == [] then [RIEN] else p.attente;
                && pairs == old(pairs)[k := p']
                && p'.courante != null && fresh(p'.courante) && Neuve(p'.courante) && p'.courante.compteur == |clairs|
                && p' == Ouverte(p, p'.courante, |clairs|, maintenant)
                && journal == old(journal) + {Ouverture(k, Identite(p'.courante))}
                   + Envoyees(k, Identite(p'.courante), clairs)
                && p'.Vue() == ApresReponse(p.Vue(), Fiche(dest, envoyeur, cles, true, maintenant))
                && Identite(p'.courante) == Fiche(dest, envoyeur, cles, true, maintenant)
                && envois == EnvoisDe(p, envoyeur, cles.envoi, clairs)
    {
      hide Exact;
      if !mac1 || dest !in indices {
        return [];
      }
      IndexVivant(dest);
      var k := indices[dest];
      var p := pairs[k];
      CoherentEn(pairs, indices, k);
      if !p.VenueVerifiee(o) {
        return [];
      }
      if p.poignee.None? || p.indicePoignee != dest {
        return [];
      }
      if o.Direct? && Some(o.point) != p.point {
        return [];
      }
      var (_, lu) := Lecture2(p.poignee.valeur, corps);
      if lu.None? {
        return [];
      }
      envois := Etablir(k, dest, envoyeur, lu.valeur.1, maintenant);
    }

    /** The session an answer opens: current at once, and all that waited leaves. */
    method Etablir(k: Terme, dest: nat, envoyeur: nat, cles: Cles, maintenant: nat) returns (envois: seq<Envoi>)
      requires Valid() && k in pairs && pairs[k].poignee.Some? && pairs[k].indicePoignee == dest
      modifies `pairs, `indices, `journal
      ensures Valid() && pairs.Keys == old(pairs.Keys)
      ensures var p, p' := old(pairs[k]), pairs[k];
              var clairs := if p.attente == [] then [RIEN] else p.attente;
              && pairs == old(pairs)[k := p']
              && p'.courante != null && fresh(p'.courante) && Neuve(p'.courante) && p'.courante.compteur == |clairs|
              && p' == Ouverte(p, p'.courante, |clairs|, maintenant)
              && Identite(p'.courante) == Fiche(dest, envoyeur, cles, true, maintenant)
              && journal == old(journal) + {Ouverture(k, Identite(p'.courante))}
                 + Envoyees(k, Identite(p'.courante), clairs)
              && envois == EnvoisDe(p, envoyeur, cles.envoi, clairs)
    {
      hide Exact, EnvoisDe, Envoyees;
      var p := pairs[k];
      CoherentEn(pairs, indices, k);
      var s := new Session(dest, envoyeur, cles.envoi, cles.reception, true, maintenant);
      if p.precedente != null {
        indices := indices - {p.precedente.locale};
      }
      assert indices == old(indices) - Seul(Locale(p.precedente));
      var clairs := p.attente;
      if |clairs| == 0 {
        clairs := [RIEN];
      }
      var p' := Ouverte(p, s, |clairs|, maintenant);
      ExactReponse(pairs, old(indices), k, p');
      pairs := pairs[k := p'];
      journal := journal + {Ouverture(k, Identite(s))} + Envoyees(k, Identite(s), clairs);
      envois := ViderAttente(p, s, clairs);
    }

    /** The waiting plaintexts leave, in order, under counters 0, 1, 2... */
    method ViderAttente(p: Pair, s: Session, clairs: seq<Contenu>) returns (envois: seq<Envoi>)
      requires s.compteur == 0 && |clairs| < MODULO_64
      modifies s`compteur
      ensures s.compteur == |clairs|
      ensures envois == EnvoisDe(p, s.distante, s.envoi, clairs)
    {
      envois := [];
      var j := 0;
      while j < |clairs|
        invariant 0 <= j <= |clairs| && s.compteur == j
        invariant envois == EnvoisDe(p, s.distante, s.envoi, clairs[..j])
      {
        var msg := s.Chiffrer(clairs[j]);
        envois := envois + [p.VersLui(msg)];
        j := j + 1;
      }
      assert clairs[..j] == clairs;
    }

    /** The session an index leads to, if its pair speaks by this path and it is not
        too old to open anything. */
    method TrouverSession(dest: nat, o: Origine, maintenant: nat) returns (k: Terme, s: Session?)
      requires Valid()
      ensures s != null ==>
                && dest in indices && k == indices[dest] && k in pairs && pairs[k].VenueVerifiee(o)
                && pairs[k].Loge(s) && s.locale == dest && !s.Expiree(maintenant)
      ensures s == Visee(dest, o, maintenant)
      ensures s == null ==>
                forall k', t | k' in pairs && t in Tranches(pairs[k']) && t.locale == dest ::
                  !pairs[k'].VenueVerifiee(o) || t.Expiree(maintenant)
    {
      hide Exact, Chercher, Tranches;
      k := VIDE;
      if dest !in indices {
        PasDeSession(pairs, indices, dest);
        return k, null;
      }
      IndexVivant(dest);
      k := indices[dest];
      var p := pairs[k];
      SeuleSession(pairs, indices, dest);
      SeulePlace(pairs, indices, k, dest);
      if !p.VenueVerifiee(o) {
        return k, null;
      }
      s := Chercher(p, dest);
      if s != null && s.Expiree(maintenant) {
        s := null;
      }
    }

    ghost predicate Sain()
      reads this, SessionsDe(pairs), set s <- SessionsDe(pairs) :: s.rejeu, set s <- SessionsDe(pairs) :: s.rejeu.bits
    {
      Valid() && Saines(SessionsDe(pairs), recues)
    }

    /** Where the session a data message is for is found. */
    ghost function Visee(dest: nat, o: Origine, maintenant: nat): Session?
      requires Valid()
      reads this
    {
      if dest !in indices then null
      else
        hide Exact;
        var k := (IndexVivant(dest); indices[dest]);
        var s := Chercher(pairs[k], dest);
        if pairs[k].VenueVerifiee(o) && s != null && !s.Expiree(maintenant) then s else null
    }

    /** One relay level: as long as the server pair is not itself relayed, a message that
        came in a frame is never of a session with the server, so a frame it would hold is
        dropped. */
    lemma UnSeulNiveau(dest: nat, numero: nat, maintenant: nat)
      requires Valid() && Visee(dest, ParRelais(numero), maintenant) != null
      requires serveur.Some? ==> !pairs[serveur.valeur].relais
      ensures dest in indices && serveur != Some(indices[dest])
    {
      hide Exact;
      IndexVivant(dest);
    }

    /** This data message opens: its session is found, the tag is right under that
        session's key and its own counter, and the counter is new to the window. */
    ghost predicate Ouvrable(msg: Message, o: Origine, maintenant: nat)
      requires Valid() && msg.Donnees?
      reads *
    {
      var s := Visee(msg.dest, o, maintenant);
      && s != null
      && Ouvrir(s.reception, msg.compteur, msg.corps, VIDE).Some?
      && Fenetre.Recevable(s.rejeu.vus, msg.compteur)
    }

    /** Promotes s if it is waiting to be confirmed. */
    method Confirmer(k: Terme, s: Session, maintenant: nat)
      requires Valid() && k in pairs && pairs[k].Loge(s)
      modifies `pairs, `indices
      ensures Valid()
      ensures pairs == old(pairs)[k := Confirmee(old(pairs[k]), s, maintenant)]
    {
      hide Exact;
      var p := pairs[k];
      CoherentEn(pairs, indices, k);
      if s == p.suivante {
        if p.precedente != null {
          indices := indices - {p.precedente.locale};
        }
        assert indices == old(indices) - Seul(Locale(p.precedente));
        var p' := p.(precedente := p.courante, courante := s, suivante := null,
            h := p.h.(dernierePoignee := maintenant));
        ExactPromotion(pairs, old(indices), k, p');
        pairs := pairs[k := p'];
      }
    }

    /** A sign of life, to a pair that only answers and owes one. */
    method RepondreSiDu(k: Terme, vide: bool, maintenant: nat) returns (envois: seq<Envoi>)
      requires Valid() && k in pairs
      modifies `pairs, `journal, Seule(pairs[k].courante)`compteur
      ensures Valid() && k in pairs && pairs == old(pairs)[k := pairs[k]]
                && Tranches(pairs[k]) == old(Tranches(pairs[k]))
      ensures var c := old(pairs[k]).courante;
              && Repond(old(pairs[k]), vide, old(EstUtilisable(c, maintenant)), if c == null then 0
                 else old(c.compteur),
                        maintenant, pairs[k], envois)
              && (c != null && c.compteur != old(c.compteur) ==> c.compteur < MODULO_64)
              && (envois != [] ==> c != null)
              && journal == old(journal) + if envois == [] then {} else {Envoyee(k, Identite(c), old(c.compteur), RIEN)}
    {
      hide Exact, DoitRepondre;
      envois := [];
      if DoitRepondre(pairs[k], vide, maintenant) && EstUtilisable(pairs[k].courante, maintenant) {
        var e := Emettre(k, RIEN, maintenant);
        envois := [e];
      }
    }

    /** An authentic message was heard: its session is confirmed, its pair is where it is now. */
    method Accueillir(k: Terme, s: Session, o: Origine, vide: bool, ghost n: nat, ghost clair: Terme, maintenant: nat)
      requires Valid() && k in pairs && pairs[k].Loge(s)
      modifies `pairs, `indices, `journal
      ensures Valid() && k in pairs
      ensures pairs == old(pairs)[k := Entendue(Confirmee(old(pairs[k]), s, maintenant), o, vide, maintenant)]
      ensures journal == old(journal) + {Recue(k, Identite(s), n, clair)}
    {
      hide Exact, Confirmee;
      Confirmer(k, s, maintenant);
      CoherentEn(pairs, indices, k);
      Noter(k, Entendue(pairs[k], o, vide, maintenant));
      journal := journal + {Recue(k, Identite(s), n, clair)};
    }

    /** What an authentic message of this session does to its pair. */
    method Entendre(k: Terme, s: Session, o: Origine, vide: bool, ghost n: nat, ghost corps: Terme,
                    ghost clair: Terme, maintenant: nat)
        returns (envois: seq<Envoi>)
      requires Valid() && k in pairs && pairs[k].Loge(s) && corps == Scelle(s.reception, n, clair, VIDE)
      modifies `pairs, `indices, `journal, Seule(Confirmee(pairs[k], s, maintenant).courante)`compteur
      ensures Valid() && pairs.Keys == old(pairs.Keys) && Tranches(pairs[k]) <= old(Tranches(pairs[k]))
      ensures pairs == old(pairs)[k := pairs[k]]
      ensures var c := Confirmee(old(pairs[k]), s, maintenant).courante;
              && Repond(Entendue(Confirmee(old(pairs[k]), s, maintenant), o, vide, maintenant), vide,
                        old(EstUtilisable(c, maintenant)), if c == null then 0 else old(c.compteur), maintenant,
                        pairs[k], envois)
              && (c != null && c.compteur != old(c.compteur) ==> c.compteur < MODULO_64)
      ensures old(journal) + {Recue(k, Identite(s), n, clair)} <= journal
      ensures Simule(prive, old(Vu()), {corps}, Vu(), TermesClair(clair) + TermesEnvois(envois))
    {
      hide Exact, Confirmee, Entendue, Repond, Tranches, Simule, TermesClair, TermesEnvois, Identite;
      ghost var c := Confirmee(pairs[k], s, maintenant).courante;
      ghost var compteur := if c == null then 0 else c.compteur;
      Accueillir(k, s, o, vide, n, clair, maintenant);
      assert pairs[k].courante == c;
      assert EstUtilisable(c, maintenant) == old(EstUtilisable(c, maintenant));
      envois := RepondreSiDu(k, vide, maintenant);
      assert pairs == old(pairs)[k := pairs[k]];
      SimuleEntend(prive, old(Vu()), k, s, n, corps, clair, o, vide, old(EstUtilisable(c, maintenant)), compteur,
          maintenant, Vu(), envois);
    }

    /** The same, with the sessions in order. */
    method EntendreSain(k: Terme, s: Session, o: Origine, vide: bool, ghost n: nat, ghost corps: Terme,
                        ghost clair: Terme, maintenant: nat)
        returns (envois: seq<Envoi>)
      requires Sain() && k in pairs && pairs[k].Loge(s) && corps == Scelle(s.reception, n, clair, VIDE)
      modifies `pairs, `indices, `journal, Seule(Confirmee(pairs[k], s, maintenant).courante)`compteur
      ensures Sain() && pairs.Keys == old(pairs.Keys) && SessionsDe(pairs) <= old(SessionsDe(pairs))
      ensures pairs == old(pairs)[k := pairs[k]]
      ensures var c := Confirmee(old(pairs[k]), s, maintenant).courante;
              Repond(Entendue(Confirmee(old(pairs[k]), s, maintenant), o, vide, maintenant), vide,
                     old(EstUtilisable(c, maintenant)), if c == null then 0 else old(c.compteur), maintenant,
                     pairs[k], envois)
      ensures old(journal) + {Recue(k, Identite(s), n, clair)} <= journal
      ensures Simule(prive, old(Vu()), {corps}, Vu(), TermesClair(clair) + TermesEnvois(envois))
    {
      hide Exact, Saines, Confirmee, Entendue, Repond, Tranches, SessionsDe, Simule, TermesClair, TermesEnvois,
          Identite;
      SainesEn(SessionsDe(pairs), recues);
      ghost var c := Confirmee(pairs[k], s, maintenant).courante;
      if c != null {
        SessionDe(pairs, k, c);
      }
      envois := Entendre(k, s, o, vide, n, corps, clair, maintenant);
      MoinsDeSessions(old(pairs), k, pairs[k]);
      assert c != null ==> Intacte(c);
      SainesApres(Releve(old(SessionsDe(pairs)), recues), SessionsDe(pairs));
    }

    /** Opens the body of a data message with the session its index leads to. */
    method Dechiffrer(msg: Message, o: Origine, maintenant: nat) returns (k: Terme, s: Session?, clair: Option<Terme>)
      requires Sain() && msg.Donnees?
      modifies `recues, set s <- SessionsDe(pairs) :: s.rejeu, set s <- SessionsDe(pairs) :: s.rejeu.bits
      ensures Sain()
      ensures s == Visee(msg.dest, o, maintenant) && (s != null ==> k in pairs && pairs[k].Loge(s))
      ensures clair.Some? <==> old(Ouvrable(msg, o, maintenant))
      ensures clair.Some? ==> s != null && msg.corps == Scelle(s.reception, msg.compteur, clair.valeur, VIDE)
      ensures recues == old(recues) + if clair.Some? then [Reception(s, msg.compteur)] else []
      ensures SeulVu(SessionsDe(pairs), s, if clair.Some? then Some(msg.compteur) else None)
    {
      hide Exact, Saines, Chercher, Tranches, Fenetre.Recevable;
      ghost var ss := SessionsDe(pairs);
      SainesEn(ss, recues);
      k, s := TrouverSession(msg.dest, o, maintenant);
      clair := None;
      if s != null {
        SessionDe(pairs, k, s);
        assert s in ss;
        clair := s.Dechiffrer(msg);
      }
      SainesApres(Releve(ss, recues), ss);
      if clair.Some? {
        NouveauCompteur(old(s.rejeu.vus), msg.compteur);
        SainesRecue(ss, recues, s, msg.compteur);
        recues := recues + [Reception(s, msg.compteur)];
      }
    }

    /** Opens a data message. Nothing changes unless it opens; if it does, its session
        is confirmed, its pair was heard, and a pair that only answers may answer. */
    method OuvrirDonnees(msg: Message, o: Origine, maintenant: nat)
        returns (k: Terme, clair: Option<Terme>, envois: seq<Envoi>)
      requires Sain() && msg.Donnees?
      modifies `pairs, `indices, `journal, `recues, SessionsDe(pairs), set s <- SessionsDe(pairs) :: s.rejeu
      modifies set s <- SessionsDe(pairs) :: s.rejeu.bits
      ensures Sain() && pairs.Keys == old(pairs.Keys) && SessionsDe(pairs) <= old(SessionsDe(pairs))
      ensures clair.Some? <==> old(Ouvrable(msg, o, maintenant))
      ensures clair.None? ==> Vu() == old(Vu()) && indices == old(indices) && envois == []
      ensures Simule(prive, old(Vu()), {msg.corps}, Vu(), TermesLus(clair) + TermesEnvois(envois))
      ensures recues == old(recues) + if clair.Some? then [Reception(old(Visee(msg.dest, o, maintenant)),
                msg.compteur)] else []
      ensures clair.Some? ==> Ouvert(journal, recues, k, clair.valeur)
      ensures clair.Some? ==>
                var s := old(Visee(msg.dest, o, maintenant));
                var vide := Taille(clair.valeur) == 0;
                && k in old(pairs) && old(pairs[k].Loge(s)) && s.rejeu.vus == old(s.rejeu.vus) + {msg.compteur}
                && msg.corps == Scelle(s.reception, msg.compteur, clair.valeur, VIDE)
                && pairs == old(pairs)[k := pairs[k]]
                && var c := Confirmee(old(pairs[k]), s, maintenant).courante;
                   Repond(Entendue(Confirmee(old(pairs[k]), s, maintenant), o, vide, maintenant), vide,
                          old(EstUtilisable(c, maintenant)), if c == null then 0 else old(c.compteur), maintenant,
                          pairs[k], envois)
    {
      hide Exact, Saines, Chercher, Tranches, Fenetre.Recevable, Confirmee, Entendue, Repond;
      hide SessionsDe, DoitRepondre, ApresEnvoi, Taille, Simule, TermesClair, Identite;
      var s;
      k, s, clair := Dechiffrer(msg, o, maintenant);
      envois := [];
      if clair.None? {
        Inchange(prive, Vu(), {msg.corps}, envois);
        assert TermesLus(clair) + TermesEnvois(envois) == TermesEnvois(envois);
        return;
      }
      SessionDe(pairs, k, s);
      ghost var c := Confirmee(pairs[k], s, maintenant).courante;
      assert EstUtilisable(c, maintenant) == old(EstUtilisable(c, maintenant));
      if c != null {
        SessionDe(pairs, k, c);
      }
      envois := EntendreSain(k, s, o, Taille(clair.valeur) == 0, msg.compteur, msg.corps, clair.valeur, maintenant);
    }

    /** A cookie lets the next attempt leave without waiting five seconds. */
    method RecevoirCookie(dest: nat, lisible: bool)
      requires Valid()
      modifies `pairs
      ensures Valid() && pairs.Keys == old(pairs.Keys)
      ensures forall k <- pairs ::
                pairs[k] == if && dest in indices && indices[dest] == k && lisible
                               && pairs[k].direct && pairs[k].poignee.Some? && pairs[k].indicePoignee == dest
                            then old(pairs[k]).(h := old(pairs[k]).h.(derniereTentative := 0)) else old(pairs[k])
    {
      hide Exact;
      if dest !in indices {
        return;
      }
      IndexVivant(dest);
      var k := indices[dest];
      var p := pairs[k];
      CoherentEn(pairs, indices, k);
      if !p.direct || p.poignee.None? || p.indicePoignee != dest || !lisible {
        return;
      }
      Noter(k, p.(h := p.h.(derniereTentative := 0)));
    }

    // ----- the same, with the sessions in order ----------------------------------------------

    method Envoyer(k: Terme, clair: Contenu, maintenant: nat) returns (envois: seq<Envoi>)
      requires Sain() && Court(pairs.Keys) && k in pairs
      modifies `pairs, `indices, `tirages, `journal, SessionsDe(pairs)
      ensures Sain() && pairs.Keys == old(pairs.Keys) && SessionsDe(pairs) <= old(SessionsDe(pairs))
      ensures pairs == old(pairs)[k := pairs[k]] && Tranches(pairs[k]) == old(Tranches(pairs[k]))
      ensures old(journal) <= journal && Simule(prive, old(Vu()), TermesContenu(clair), Vu(), TermesEnvois(envois))
      ensures Progres(old(pairs[k]), pairs[k], clair, maintenant, envois)
      ensures var p, c := old(pairs[k]), old(pairs[k].courante);
              old(EstUtilisable(c, maintenant)) ==>
                envois != [] && envois[|envois| - 1] == p.VersLui(MessageDonnees(c.distante, c.envoi, old(c.compteur),
                    clair))
    {
      hide Exact, Saines, Court, Lance, Envoye, Tranches, SessionsDe, MisEnAttente, Progres, Simule, TermesEnvois,
          MessageDonnees, Identite;
      SainesEn(SessionsDe(pairs), recues);
      ghost var p, c := pairs[k], pairs[k].courante;
      ghost var donnees := if c == null then Message.Cookie(0)
          else MessageDonnees(c.distante, c.envoi, c.compteur, clair);
      if c != null {
        SessionDe(pairs, k, c);
        assert c.Valid();
      }
      envois := EnvoyerClair(k, clair, maintenant);
      if old(EstUtilisable(pairs[k].courante, maintenant)) {
        TailleDonnees(c.distante, c.envoi, old(c.compteur), clair);
        DernierEnvoye(prive, k, old(tirages), maintenant, p, pairs[k], donnees, clair, old(c.ARenouveler(maintenant)),
            envois);
        EnvoyeProgresse(prive, k, old(tirages), maintenant, p, pairs[k], donnees, clair,
            old(c.ARenouveler(maintenant)), envois);
        SimuleEnvoi(prive, old(Vu()), k, maintenant, clair, c, old(c.compteur), old(c.ARenouveler(maintenant)), Vu(),
            envois);
      } else {
        SansEnvoiProgresse(prive, k, old(tirages), maintenant, p, pairs[k], clair, envois);
        SimuleAttente(prive, old(Vu()), k, maintenant, clair, Vu(), envois);
      }
      assert c != null ==> Intacte(c);
      assert pairs == old(pairs)[k := pairs[k]];
      MoinsDeSessions(old(pairs), k, pairs[k]);
      SainesApres(Releve(old(SessionsDe(pairs)), recues), SessionsDe(pairs));
    }

    method Initier(envoyeur: nat, corps: Corps1, o: Origine, mac1: bool, porte: Porte, maintenant: nat)
        returns (envois: seq<Envoi>)
      requires Sain() && Court(pairs.Keys)
      modifies `pairs, `indices, `tirages, `journal
      ensures Sain() && pairs.Keys == old(pairs.Keys) && Neuves(old(SessionsDe(pairs)), SessionsDe(pairs))
      ensures old(Admise(corps, o, mac1, porte)).None? ==>
                && pairs == old(pairs) && indices == old(indices)
                && (o.ParRelais? ==> envois == []) && forall e <- envois :: e.msg.Cookie?
      ensures Simule(prive, old(Vu()), Corps1Termes(corps), Vu(), TermesEnvois(envois))
    {
      hide Exact, Saines, Court, Repondre, Lance, Simule, Corps1Termes;
      SainesEn(SessionsDe(pairs), recues);
      ghost var lu := Admise(corps, o, mac1, porte);
      envois := RecevoirInitiation(envoyeur, corps, o, mac1, porte, maintenant);
      if lu.Some? {
        UneDePlus(old(pairs), lu.valeur.publique, pairs[lu.valeur.publique], pairs[lu.valeur.publique].suivante);
        SimuleInitiation(prive, old(Vu()), corps, envoyeur, lu.valeur, pairs[lu.valeur.publique].suivante.locale,
            maintenant, Vu());
        UnSeul(envois[0]);
      } else {
        SimulePareil(prive, old(Vu()), {}, Vu());
        QueDesCookies(envois);
        Affaiblit(prive, old(Vu()), {}, Vu(), {}, Corps1Termes(corps), TermesEnvois(envois));
      }
      SainesApres(Releve(old(SessionsDe(pairs)), recues), SessionsDe(pairs));
    }

    method Conclure(envoyeur: nat, dest: nat, corps: Corps2, o: Origine, mac1: bool, maintenant: nat)
        returns (envois: seq<Envoi>)
      requires Sain()
      modifies `pairs, `indices, `journal
      ensures Sain() && pairs.Keys == old(pairs.Keys) && Neuves(old(SessionsDe(pairs)), SessionsDe(pairs))
      ensures old(Attendue(dest, corps, o, mac1)).None? ==>
                pairs == old(pairs) && indices == old(indices) && envois == []
      ensures Simule(prive, old(Vu()), Corps2Termes(corps), Vu(), TermesEnvois(envois))
    {
      hide Exact, Saines, Simule, Corps2Termes, EnvoisDe, Envoyees, TermesEnvois, Ouverte, Identite, ApresReponse,
          Tranches, Pair.Vue, SessionsDe;
      SainesEn(SessionsDe(pairs), recues);
      ghost var lu := Attendue(dest, corps, o, mac1);
      envois := RecevoirReponse(envoyeur, dest, corps, o, mac1, maintenant);
      if lu.Some? {
        ghost var k := lu.valeur.0;
        ghost var p, s := old(pairs[k]), pairs[k].courante;
        TranchesOuverte(p, s, s.compteur, maintenant);
        UneDePlus(old(pairs), k, pairs[k], s);
        SimuleConclusion(prive, old(Vu()), k, corps, lu.valeur.1, envoyeur, maintenant, s,
                         if p.attente == [] then [RIEN] else p.attente, Vu());
      } else {
        Inchange(prive, Vu(), Corps2Termes(corps), envois);
      }
      SainesApres(Releve(old(SessionsDe(pairs)), recues), SessionsDe(pairs));
    }

    /** The message is one that its session, its handshake or its sender's key vouches for. */
    ghost predicate Reconnu(msg: Message, o: Origine, d: Decisions, maintenant: nat)
      requires Valid()
      reads *
    {
      match msg
      case Initiation(_, corps) => Admise(corps, o, d.mac1(msg), d.porte(msg)).Some?
      case Reponse(_, dest, corps) => Attendue(dest, corps, o, d.mac1(msg)).Some?
      case Donnees(_, _, _) => Ouvrable(msg, o, maintenant)
      case Cookie(_) => d.cookieLisible
    }

    // ----- one message, frames included ----------------------------------------------------

    /** What a message changes and what must leave because of it. A frame inside a frame
        is the only recursion, and it is over a smaller message. */
    method RecevoirDonnees(msg: Message, o: Origine, d: Decisions, maintenant: nat)
        returns (envois: seq<Envoi>, remis: Option<(Terme, seq<nat>)>)
      requires Sain() && Court(pairs.Keys) && msg.Donnees?
      modifies `pairs, `indices, `tirages, `journal, `recues, SessionsDe(pairs), set s <- SessionsDe(pairs) :: s.rejeu
      modifies set s <- SessionsDe(pairs) :: s.rejeu.bits
      ensures Sain() && pairs.Keys == old(pairs.Keys) && Neuves(old(SessionsDe(pairs)), SessionsDe(pairs))
      ensures !old(Ouvrable(msg, o, maintenant)) ==>
                pairs == old(pairs) && indices == old(indices) && envois == [] && remis == None
      ensures Simule(prive, old(Vu()), {msg.corps}, Vu(), TermesEnvois(envois)) && Livree(journal, recues, remis)
      ensures old(recues) <= recues && (remis.Some? ==> |old(recues)| < |recues|)
      decreases msg, 0
    {
      hide Exact, Saines, Court, Repond, Confirmee, Entendue, SessionsDe, Simule, TermesEnvois, TermesClair, Livree;
      var k, clair;
      k, clair, envois := OuvrirDonnees(msg, o, maintenant);
      remis := None;
      ghost var i1 := Vu();
      if clair.Some? {
        var suite;
        suite, remis := RecevoirClair(k, clair.valeur, d, maintenant);
        TermesEnvoisPlus(envois, suite);
        Puis(prive, old(Vu()), {msg.corps}, i1, TermesLus(clair) + TermesEnvois(envois), TermesLus(clair), Vu(),
            TermesEnvois(suite),
             {msg.corps}, TermesEnvois(envois + suite));
        envois := envois + suite;
      } else {
        Inchange(prive, Vu(), {msg.corps}, envois);
        PasDeRemise(journal, recues);
      }
    }

    /** What is made of an opened plaintext: a frame goes on, a packet is handed over. */
    method RecevoirClair(k: Terme, clair: Terme, d: Decisions, maintenant: nat)
        returns (envois: seq<Envoi>, remis: Option<(Terme, seq<nat>)>)
      requires Sain() && Court(pairs.Keys) && k in pairs && Ouvert(journal, recues, k, clair)
      modifies `pairs, `indices, `tirages, `journal, `recues, SessionsDe(pairs), set s <- SessionsDe(pairs) :: s.rejeu
      modifies set s <- SessionsDe(pairs) :: s.rejeu.bits
      ensures Sain() && pairs.Keys == old(pairs.Keys) && Neuves(old(SessionsDe(pairs)), SessionsDe(pairs))
      ensures Simule(prive, old(Vu()), TermesClair(clair), Vu(), TermesEnvois(envois)) && Livree(journal, recues, remis)
      ensures old(recues) <= recues
      decreases clair, 3
    {
      hide Exact, Saines, Court, SessionsDe, Simule, TermesEnvois, TermesClair, Livree, Lire, TermesMessage;
      envois, remis := [], None;
      Inchange(prive, Vu(), TermesClair(clair), envois);
      PasDeRemise(journal, recues);
      LireFidele(clair);
      match Lire(clair)
      case EnTrame(numero, dedans) => envois, remis := RecevoirTrame(k, numero, dedans, d, maintenant);
      case EnPaquet(octets) =>
        remis := Some((k, octets));
        Remise(journal, recues, k, octets, clair);
      case _ =>
    }

    /** On the server, a frame from a device goes on to another, if the two may talk;
        on a client, a frame from the server, and only from it, holds a message of
        another device. Neither takes a cookie out of a frame. */
    method RecevoirTrame(de: Terme, numero: nat, msg: Message, d: Decisions, maintenant: nat)
        returns (envois: seq<Envoi>, remis: Option<(Terme, seq<nat>)>)
      requires Sain() && Court(pairs.Keys) && de in pairs
      modifies `pairs, `indices, `tirages, `journal, `recues, SessionsDe(pairs), set s <- SessionsDe(pairs) :: s.rejeu
      modifies set s <- SessionsDe(pairs) :: s.rejeu.bits
      ensures Sain() && pairs.Keys == old(pairs.Keys) && Neuves(old(SessionsDe(pairs)), SessionsDe(pairs))
      ensures msg.Cookie? ==> pairs == old(pairs) && envois == [] && remis == None
      ensures estServeur ==>
                var source := old(pairs[de].numero);
                && remis == None
                && ((source == 0 || !d.relie(source, numero) || numero !in parNumero || parNumero[numero] == de) ==>
                      pairs == old(pairs) && envois == [])
      ensures !estServeur && Some(de) != serveur ==> pairs == old(pairs) && envois == [] && remis == None
      ensures Simule(prive, old(Vu()), TermesMessage(msg), Vu(), TermesEnvois(envois)) && Livree(journal, recues, remis)
      ensures old(recues) <= recues && (remis.Some? ==> |old(recues)| < |recues|)
      decreases msg, 2
    {
      hide Exact, Saines, Court, Simule, TermesEnvois, Livree, TermesMessage;
      envois, remis := [], None;
      Inchange(prive, Vu(), TermesMessage(msg), envois);
      PasDeRemise(journal, recues);
      if msg.Cookie? {
        return;
      }
      if estServeur {
        var source := pairs[de].numero;
        if source != 0 && d.relie(source, numero) && numero in parNumero && parNumero[numero] != de {
          var vers := parNumero[numero];
          if (msg.Initiation? ==> d.quota(source, numero)) && TailleMessage(msg) <= TAILLE_MAX_CLAIR - ENTETE_RELAIS {
            envois := Envoyer(vers, Trame(source, msg), maintenant);
            PasDeRemise(journal, recues);
          }
        }
      } else if Some(de) == serveur {
        envois, remis := RecevoirRelaye(msg, numero, d, maintenant);
      }
    }

    /** A message of another device, out of a frame: answered by relay. */
    method RecevoirRelaye(msg: Message, numero: nat, d: Decisions, maintenant: nat)
        returns (envois: seq<Envoi>, remis: Option<(Terme, seq<nat>)>)
      requires Sain() && Court(pairs.Keys)
      modifies `pairs, `indices, `tirages, `journal, `recues, SessionsDe(pairs), set s <- SessionsDe(pairs) :: s.rejeu
      modifies set s <- SessionsDe(pairs) :: s.rejeu.bits
      ensures Sain() && pairs.Keys == old(pairs.Keys) && Neuves(old(SessionsDe(pairs)), SessionsDe(pairs))
      ensures msg.Cookie? || !old(Reconnu(msg, ParRelais(numero), d, maintenant)) ==>
                pairs == old(pairs) && indices == old(indices) && envois == [] && remis == None
      ensures Simule(prive, old(Vu()), TermesMessage(msg), Vu(), TermesEnvois(envois)) && Livree(journal, recues, remis)
      ensures old(recues) <= recues && (remis.Some? ==> |old(recues)| < |recues|)
      decreases msg, 1
    {
      hide Exact, Saines, Court, Simule, TermesEnvois, Livree;
      envois, remis := [], None;
      Inchange(prive, Vu(), TermesMessage(msg), envois);
      var o := ParRelais(numero);
      match msg {
        case Initiation(envoyeur, corps) => envois := Initier(envoyeur, corps, o, d.mac1(msg), d.porte(msg),
            maintenant);
        case Reponse(envoyeur, dest, corps) => envois := Conclure(envoyeur, dest, corps, o, d.mac1(msg), maintenant);
        case Donnees(_, _, _) => envois, remis := RecevoirDonnees(msg, o, d, maintenant);
        case Cookie(_) =>
      }
      if !msg.Donnees? {
        PasDeRemise(journal, recues);
      }
    }

    // ----- what leaves ----------------------------------------------------------------------

    ghost function Elan(maintenant: nat): nat
      reads this
    {
      if serveur.Some? && serveur.valeur in pairs && pairs[serveur.valeur].PeutLancer(maintenant) then 1 else 0
    }

    /** Everything leaves: directly, or in a frame sealed for the server, which leaves in
        its turn. This ends in every state, even where the server is itself joined by
        relay: each frame is longer than what it holds, and too long a message is not
        framed; a handshake in between starts once at most. */
    method Expedier(envois: seq<Envoi>, maintenant: nat, ghost b: nat) returns (sorties: seq<Sortie>)
      requires Sain() && Court(pairs.Keys) && ACourt(envois, b)
      modifies `pairs, `indices, `tirages, `journal, SessionsDe(pairs)
      ensures Sain() && pairs.Keys == old(pairs.Keys) && SessionsDe(pairs) <= old(SessionsDe(pairs))
      ensures old(journal) <= journal && Simule(prive, old(Vu()), TermesEnvois(envois), Vu(), TermesSorties(sorties))
      ensures Elan(maintenant) <= old(Elan(maintenant))
      ensures forall k <- pairs :: Tranches(pairs[k]) == Tranches(old(pairs)[k])
      ensures forall k <- pairs | serveur != Some(k) :: pairs[k] == old(pairs)[k]
      ensures forall e <- envois | e.relais == 0 && e.point.Some? :: Sortie(e.msg, e.point.valeur) in sorties
      decreases Elan(maintenant), b, 2
    {
      hide Exact, Saines, Court, SessionsDe, Tranches, Marge, Simule, TermesEnvois, TermesSorties, TermesMessage;
      sorties := [];
      RienNeSort(prive, Vu(), TermesEnvois(envois), sorties);
      var j := 0;
      while j < |envois|
        invariant 0 <= j <= |envois|
        invariant Sain() && Court(pairs.Keys) && pairs.Keys == old(pairs.Keys)
                  && SessionsDe(pairs) <= old(SessionsDe(pairs))
        invariant old(journal) <= journal && Simule(prive, old(Vu()), TermesEnvois(envois), Vu(),
                  TermesSorties(sorties))
        invariant Elan(maintenant) <= old(Elan(maintenant))
        invariant forall k <- pairs :: Tranches(pairs[k]) == Tranches(old(pairs)[k])
        invariant forall k <- pairs | serveur != Some(k) :: pairs[k] == old(pairs)[k]
        invariant forall e <- envois[..j] | e.relais == 0 && e.point.Some? :: Sortie(e.msg, e.point.valeur) in sorties
      {
        var e := envois[j];
        ParmiEnvois(envois, e);
        ghost var i1 := Vu();
        if e.relais != 0 {
          var suite := Relayer(e.relais, e.msg, maintenant);
          SortiesPuis(prive, old(Vu()), TermesEnvois(envois), i1, sorties, TermesMessage(e.msg), Vu(), suite);
          sorties := sorties + suite;
        } else if e.point.Some? {
          SortieDePlus(prive, old(Vu()), TermesEnvois(envois), i1, sorties, Sortie(e.msg, e.point.valeur));
          sorties := sorties + [Sortie(e.msg, e.point.valeur)];
        }
        j := j + 1;
      }
    }

    /** Hands the server a message for another device. */
    method Relayer(numero: nat, msg: Message, maintenant: nat) returns (sorties: seq<Sortie>)
      requires Sain() && Court(pairs.Keys)
      modifies `pairs, `indices, `tirages, `journal, SessionsDe(pairs)
      ensures Sain() && pairs.Keys == old(pairs.Keys) && SessionsDe(pairs) <= old(SessionsDe(pairs))
      ensures old(journal) <= journal && Simule(prive, old(Vu()), TermesMessage(msg), Vu(), TermesSorties(sorties))
      ensures Elan(maintenant) <= old(Elan(maintenant))
      ensures forall k <- pairs :: Tranches(pairs[k]) == Tranches(old(pairs)[k])
      ensures forall k <- pairs | serveur != Some(k) :: pairs[k] == old(pairs)[k]
      ensures serveur.None? || TailleMessage(msg) > TAILLE_MAX_CLAIR - ENTETE_RELAIS ==>
                pairs == old(pairs) && sorties == []
      ensures serveur.Some? && TailleMessage(msg) <= TAILLE_MAX_CLAIR - ENTETE_RELAIS ==>
                var p := old(pairs)[serveur.valeur];
                var c := p.courante;
                old(EstUtilisable(c, maintenant)) && !p.relais && p.point.Some? ==>
                  Sortie(MessageDonnees(c.distante, c.envoi, old(c.compteur), Trame(numero, msg)),
                      p.point.valeur) in sorties
      decreases Elan(maintenant), Marge(msg), 1
    {
      hide Exact, Saines, Court, SessionsDe, Tranches, Simule, TermesEnvois, TermesSorties, TermesMessage;
      sorties := [];
      RienNeSort(prive, Vu(), TermesMessage(msg), sorties);
      if serveur.None? || TailleMessage(msg) > TAILLE_MAX_CLAIR - ENTETE_RELAIS {
        return;
      }
      var envois := Envoyer(serveur.valeur, Trame(numero, msg), maintenant);
      ghost var i1 := Vu();
      ghost var b := if Elan(maintenant) < old(Elan(maintenant)) then TAILLE_MAX_CLAIR else Marge(msg) - 1;
      sorties := Expedier(envois, maintenant, b);
      Puis(prive, old(Vu()), TermesMessage(msg), i1, TermesEnvois(envois), TermesEnvois(envois), Vu(),
          TermesSorties(sorties),
           TermesMessage(msg), TermesSorties(sorties));
    }

    // ----- the timer ---------------------------------------------------------------------------

    /** Gives up the index of a session that expired. */
    method OterExpiree(s: Session?, maintenant: nat) returns (r: Session?)
      modifies `indices
      ensures r == SiJeune(s, maintenant) && indices == old(indices) - SiVieux(s, maintenant)
    {
      r := s;
      if s != null && s.Expiree(maintenant) {
        indices := indices - {s.locale};
        r := null;
      }
    }

    /** Drops the expired sessions of a pair, with their indices. */
    method Vieillir(k: Terme, maintenant: nat)
      requires Sain() && k in pairs
      modifies `pairs, `indices
      ensures Sain() && pairs.Keys == old(pairs.Keys) && pairs == old(pairs)[k := Rajeunie(old(pairs[k]), maintenant)]
      ensures SessionsDe(pairs) <= old(SessionsDe(pairs))
      ensures Simule(prive, old(Vu()), {}, Vu(), {})
    {
      hide Exact, Saines, SessionsDe, Tranches, Simule;
      SainesEn(SessionsDe(pairs), recues);
      ExactExpiration(pairs, indices, k, maintenant);
      MoinsDeSessions(pairs, k, Rajeunie(pairs[k], maintenant));
      var p := pairs[k];
      var precedente := OterExpiree(p.precedente, maintenant);
      var courante := OterExpiree(p.courante, maintenant);
      var suivante := OterExpiree(p.suivante, maintenant);
      pairs := pairs[k := p.(precedente := precedente, courante := courante, suivante := suivante)];
      SimuleExpire(prive, old(Vu()), k, maintenant, Vu());
      SainesApres(Releve(old(SessionsDe(pairs)), recues), SessionsDe(pairs));
    }

    /** An empty message, if it is due and a session can seal it. */
    method EmettreVide(k: Terme, du: bool, maintenant: nat) returns (envois: seq<Envoi>)
      requires Sain() && k in pairs
      modifies `pairs, `journal, SessionsDe(pairs)
      ensures Sain() && pairs.Keys == old(pairs.Keys) && SessionsDe(pairs) <= old(SessionsDe(pairs))
      ensures Simule(prive, old(Vu()), {}, Vu(), TermesEnvois(envois))
      ensures pairs == old(pairs)[k := if envois == [] then old(pairs[k])
                else ApresEnvoi(old(pairs[k]), RIEN, maintenant)]
      ensures envois != [] <==> du && old(EstUtilisable(pairs[k].courante, maintenant))
      ensures var p, c := old(pairs[k]), old(pairs[k].courante);
              envois != [] ==> c != null && envois == [p.VersLui(MessageDonnees(c.distante, c.envoi, old(c.compteur),
                  RIEN))]
    {
      hide Exact, Saines, SessionsDe, Tranches, ApresEnvoi, Simule, TermesEnvois, MessageDonnees;
      envois := [];
      Inchange(prive, Vu(), {}, envois);
      if du && EstUtilisable(pairs[k].courante, maintenant) {
        SainesEn(SessionsDe(pairs), recues);
        ghost var c := pairs[k].courante;
        SessionDe(pairs, k, c);
        var e := Emettre(k, RIEN, maintenant);
        envois := [e];
        UnSeul(e);
        SimuleScelle(prive, old(Vu()), k, c, old(c.compteur), RIEN, Vu());
        assert Intacte(c);
        MoinsDeSessions(old(pairs), k, pairs[k]);
        SainesApres(Releve(old(SessionsDe(pairs)), recues), SessionsDe(pairs));
      }
    }

    /** Starts a handshake, the sessions staying in order. */
    method Relancer(k: Terme, maintenant: nat) returns (envois: seq<Envoi>)
      requires Sain() && Court(pairs.Keys) && k in pairs
      modifies `pairs, `indices, `tirages
      ensures Sain() && pairs.Keys == old(pairs.Keys) && SessionsDe(pairs) <= old(SessionsDe(pairs))
      ensures pairs == old(pairs)[k := pairs[k]]
      ensures Lance(prive, k, old(tirages), maintenant, old(pairs[k]), pairs[k], envois)
      ensures Simule(prive, old(Vu()), {}, Vu(), TermesEnvois(envois))
    {
      hide Exact, Saines, Court, SessionsDe, Tranches, Lance, Simule, TermesEnvois;
      SainesEn(SessionsDe(pairs), recues);
      envois := LancerPoignee(k, maintenant);
      SimuleLance(prive, old(Vu()), k, maintenant, Vu(), envois);
      MoinsDeSessions(old(pairs), k, pairs[k]);
      SainesApres(Releve(old(SessionsDe(pairs)), recues), SessionsDe(pairs));
    }

    /** Forgets what waits for a pair that has been unreachable for too long. */
    method Abandonner(k: Terme, maintenant: nat)
      requires Sain() && k in pairs
      modifies `pairs
      ensures Sain() && pairs.Keys == old(pairs.Keys) && SessionsDe(pairs) <= old(SessionsDe(pairs))
      ensures var p := old(pairs[k]);
              pairs == old(pairs)[k := Abandonnee(p, maintenant)]
      ensures Simule(prive, old(Vu()), {}, Vu(), {})
    {
      hide Exact, Saines, SessionsDe, Simule;
      SainesEn(SessionsDe(pairs), recues);
      var p := pairs[k];
      CoherentEn(pairs, indices, k);
      if p.h.debutTentatives != 0 && maintenant - p.h.debutTentatives > ABANDONNER_APRES {
        Noter(k, p.(attente := [], h := p.h.(debutTentatives := 0)));
      }
      SimuleHorloges(prive, old(Vu()), {}, k, pairs[k], tirages);
      MoinsDeSessions(old(pairs), k, pairs[k]);
      SainesApres(Releve(old(SessionsDe(pairs)), recues), SessionsDe(pairs));
    }

    /** Starts a handshake towards a pair whose session is due for renewal or dead. */
    method OuvrirSiBesoin(k: Terme, maintenant: nat) returns (envois: seq<Envoi>)
      requires Sain() && Court(pairs.Keys) && k in pairs && pairs[k].Actif()
      modifies `pairs, `indices, `tirages
      ensures Sain() && pairs.Keys == old(pairs.Keys) && SessionsDe(pairs) <= old(SessionsDe(pairs))
      ensures pairs == old(pairs)[k := pairs[k]] && Tranches(pairs[k]) == old(Tranches(pairs[k]))
      ensures if ARouvrir(old(pairs[k]), old(EstARenouveler(pairs[k].courante, maintenant)), maintenant, sansReponseMax)
              then Lance(prive, k, old(tirages), maintenant, old(pairs[k]), pairs[k], envois)
              else pairs == old(pairs) && envois == []
      ensures Simule(prive, old(Vu()), {}, Vu(), TermesEnvois(envois))
      ensures var p := old(pairs[k]);
              p.direct && p.point.Some? && k.Publique? && old(EstARenouveler(pairs[k].courante, maintenant)) ==>
                pairs[k].poignee.Some?
    {
      hide Exact, Saines, Court, SessionsDe, Tranches, Simule, TermesEnvois;
      envois := [];
      Inchange(prive, Vu(), {}, envois);
      var p := pairs[k];
      var morte := (p.h.sansReponseDepuis != 0 && maintenant - p.h.sansReponseDepuis > sansReponseMax)
        || (p.maintien > 0 && p.courante != null && maintenant - p.h.derniereReception > p.maintien + sansReponseMax);
      var aOuvrir := EstARenouveler(p.courante, maintenant) && (p.direct || |p.attente| > 0);
      if aOuvrir || morte {
        envois := Relancer(k, maintenant);
        LanceGarde(prive, k, old(tirages), maintenant, p, pairs[k], envois);
      } else {
        SainesEn(SessionsDe(pairs), recues);
        SainesApres(Releve(SessionsDe(pairs), recues), SessionsDe(pairs));
      }
    }

    /** Keeps a pair we open sessions to alive, or gives up on it. */
    method EntretenirActif(k: Terme, maintenant: nat) returns (envois: seq<Envoi>)
      requires Sain() && k in pairs
      modifies `pairs, `journal, SessionsDe(pairs)
      ensures Sain() && pairs.Keys == old(pairs.Keys) && SessionsDe(pairs) <= old(SessionsDe(pairs))
      ensures pairs == old(pairs)[k := pairs[k]] && Tranches(pairs[k]) == old(Tranches(pairs[k]))
      ensures Simule(prive, old(Vu()), {}, Vu(), TermesEnvois(envois))
      ensures pairs[k] == Abandonnee(if envois == [] then old(pairs[k])
                else ApresEnvoi(old(pairs[k]), RIEN, maintenant), maintenant)
      ensures var p := old(pairs[k]);
              envois != [] <==>
                p.maintien > 0 && maintenant - p.h.dernierEnvoi >= p.maintien
                    && old(EstUtilisable(pairs[k].courante, maintenant))
    {
      hide Exact, Saines, SessionsDe, Tranches, ApresEnvoi, Abandonnee, Simule, TermesEnvois;
      var p := pairs[k];
      envois := EmettreVide(k, p.maintien > 0 && maintenant - p.h.dernierEnvoi >= p.maintien, maintenant);
      ghost var i1 := Vu();
      Abandonner(k, maintenant);
      Puis(prive, old(Vu()), {}, i1, TermesEnvois(envois), {}, Vu(), {}, {}, TermesEnvois(envois));
    }

    /** What the timer does for one pair whose old sessions are gone. */
    method Entretenir(k: Terme, maintenant: nat) returns (envois: seq<Envoi>)
      requires Sain() && Court(pairs.Keys) && k in pairs
      modifies `pairs, `indices, `tirages, `journal, SessionsDe(pairs)
      ensures Sain() && pairs.Keys == old(pairs.Keys) && SessionsDe(pairs) <= old(SessionsDe(pairs))
      ensures pairs == old(pairs)[k := pairs[k]] && Tranches(pairs[k]) == old(Tranches(pairs[k]))
      ensures Simule(prive, old(Vu()), {}, Vu(), TermesEnvois(envois))
      ensures var p := pairs[k];
              old(pairs[k]).Actif() ==> p.h.debutTentatives == 0 || maintenant - p.h.debutTentatives <= ABANDONNER_APRES
      ensures var p := old(pairs[k]);
              p.direct && p.point.Some? && k.Publique? && old(EstARenouveler(pairs[k].courante, maintenant)) ==>
                pairs[k].poignee.Some?
    {
      hide Exact, Saines, Court, SessionsDe, Tranches, ApresEnvoi, Abandonnee, ARouvrir, Lance, Simule, TermesEnvois;
      envois := [];
      ghost var i0 := Vu();
      Inchange(prive, i0, {}, envois);
      if pairs[k].Actif() {
        envois := OuvrirSiBesoin(k, maintenant);
        ghost var i1 := Vu();
        var vides := EntretenirActif(k, maintenant);
        EnvoisPuis(prive, i0, {}, i1, envois, {}, Vu(), vides);
        envois := envois + vides;
      }
      ghost var i2 := Vu();
      var h := pairs[k].h;
      var vides := EmettreVide(k, h.recuSansRepondre != 0 && maintenant - h.recuSansRepondre >= MAINTIEN_PASSIF,
          maintenant);
      EnvoisPuis(prive, i0, {}, i2, envois, {}, Vu(), vides);
      envois := envois + vides;
    }

    /** The tick of every second: afterwards no session is older than three minutes. */
    method Minuterie(maintenant: nat) returns (sorties: seq<Sortie>)
      requires Sain() && Court(pairs.Keys)
      modifies `pairs, `indices, `tirages, `journal, SessionsDe(pairs)
      ensures Sain() && pairs.Keys == old(pairs.Keys) && SessionsDe(pairs) <= old(SessionsDe(pairs))
      ensures Simule(prive, old(Vu()), {}, Vu(), TermesSorties(sorties))
      ensures forall k, s | k in pairs && s in Tranches(pairs[k]) :: !s.Expiree(maintenant)
    {
      hide Exact, Saines, Court, SessionsDe, Tranches, Rajeunie, Simule, TermesEnvois, TermesSorties;
      sorties := [];
      RienNeSort(prive, Vu(), {}, sorties);
      var reste := pairs.Keys;
      while reste != {}
        invariant reste <= pairs.Keys == old(pairs.Keys)
        invariant Sain() && Court(pairs.Keys) && SessionsDe(pairs) <= old(SessionsDe(pairs))
        invariant Simule(prive, old(Vu()), {}, Vu(), TermesSorties(sorties))
        invariant forall k, s | k in pairs && k !in reste && s in Tranches(pairs[k]) :: !s.Expiree(maintenant)
        decreases reste
      {
        var k :| k in reste;
        reste := reste - {k};
        ghost var i1 := Vu();
        Vieillir(k, maintenant);
        ghost var i2 := Vu();
        var envois := Entretenir(k, maintenant);
        ghost var i3 := Vu();
        var suite := Expedier(envois, maintenant, TAILLE_MAX_CLAIR);
        Puis(prive, i1, {}, i2, {}, {}, i3, TermesEnvois(envois), {}, TermesEnvois(envois));
        Puis(prive, i1, {}, i3, TermesEnvois(envois), TermesEnvois(envois), Vu(), TermesSorties(suite), {},
            TermesSorties(suite));
        SortiesPuis(prive, old(Vu()), {}, i1, sorties, {}, Vu(), suite);
        sorties := sorties + suite;
      }
    }

    /** A datagram: what it changes, and what leaves because of it. */
    method Recevoir(msg: Message, point: nat, d: Decisions, maintenant: nat)
        returns (sorties: seq<Sortie>, remis: Option<(Terme, seq<nat>)>)
      requires Sain() && Court(pairs.Keys)
      modifies `pairs, `indices, `tirages, `journal, `recues, SessionsDe(pairs), set s <- SessionsDe(pairs) :: s.rejeu
      modifies set s <- SessionsDe(pairs) :: s.rejeu.bits
      ensures Sain() && pairs.Keys == old(pairs.Keys) && Neuves(old(SessionsDe(pairs)), SessionsDe(pairs))
      ensures Simule(prive, old(Vu()), TermesMessage(msg), Vu(), TermesSorties(sorties))
                && Livree(journal, recues, remis)
      ensures old(recues) <= recues && (remis.Some? ==> |old(recues)| < |recues|)
    {
      hide Exact, Saines, Court, SessionsDe, Simule, TermesEnvois, TermesSorties, TermesMessage, Livree;
      var envois;
      envois, remis := Traiter(msg, Direct(point), d, maintenant);
      ghost var i1 := Vu();
      sorties := Expedier(envois, maintenant, TAILLE_MAX_CLAIR);
      LivreeEncore(i1.journal, journal, recues, remis);
      Puis(prive, old(Vu()), TermesMessage(msg), i1, TermesEnvois(envois), TermesEnvois(envois), Vu(),
          TermesSorties(sorties),
           TermesMessage(msg), TermesSorties(sorties));
    }

    /** Any message. One that nothing vouches for changes nothing at all, and is answered
        by a cookie at most. */
    method Traiter(msg: Message, o: Origine, d: Decisions, maintenant: nat)
        returns (envois: seq<Envoi>, remis: Option<(Terme, seq<nat>)>)
      requires Sain() && Court(pairs.Keys)
      modifies `pairs, `indices, `tirages, `journal, `recues, SessionsDe(pairs), set s <- SessionsDe(pairs) :: s.rejeu
      modifies set s <- SessionsDe(pairs) :: s.rejeu.bits
      ensures Sain() && pairs.Keys == old(pairs.Keys) && Neuves(old(SessionsDe(pairs)), SessionsDe(pairs))
      ensures !old(Reconnu(msg, o, d, maintenant)) ==>
                pairs == old(pairs) && indices == old(indices) && remis == None && forall e <- envois :: e.msg.Cookie?
      ensures Simule(prive, old(Vu()), TermesMessage(msg), Vu(), TermesEnvois(envois)) && Livree(journal, recues, remis)
      ensures old(recues) <= recues && (remis.Some? ==> |old(recues)| < |recues|)
    {
      hide Exact, Saines, Court, SessionsDe, Simule, TermesEnvois, Livree;
      envois, remis := [], None;
      match msg {
        case Initiation(envoyeur, corps) => envois := Initier(envoyeur, corps, o, d.mac1(msg), d.porte(msg),
            maintenant);
        case Reponse(envoyeur, dest, corps) => envois := Conclure(envoyeur, dest, corps, o, d.mac1(msg), maintenant);
        case Donnees(_, _, _) => envois, remis := RecevoirDonnees(msg, o, d, maintenant);
        case Cookie(dest) =>
          Encourager(dest, d.cookieLisible);
          QueDesCookies(envois);
      }
      if !msg.Donnees? {
        PasDeRemise(journal, recues);
      }
    }

    method Encourager(dest: nat, lisible: bool)
      requires Sain()
      modifies `pairs
      ensures Sain() && pairs.Keys == old(pairs.Keys) && SessionsDe(pairs) <= old(SessionsDe(pairs))
      ensures !lisible ==> pairs == old(pairs)
      ensures Simule(prive, old(Vu()), {}, Vu(), {})
    {
      hide Exact, Saines, SessionsDe, Simule;
      SainesEn(SessionsDe(pairs), recues);
      RecevoirCookie(dest, lisible);
      MemesTranches(old(pairs), pairs);
      SimulePareil(prive, old(Vu()), {}, Vu());
      SainesApres(Releve(old(SessionsDe(pairs)), recues), SessionsDe(pairs));
    }

    method Appliquer(liste: seq<Config>)
      requires Sain()
      modifies `pairs, `indices, `parNumero, `serveur
      ensures Sain() && pairs.Keys == Nommes(liste) && SessionsDe(pairs) <= old(SessionsDe(pairs))
      ensures Simule(prive, old(Vu()), {}, Vu(), {})
    {
      hide Exact, Saines, SessionsDe, Nommes, Numeroter, Regler, Garde, Simule;
      SainesEn(SessionsDe(pairs), recues);
      DefinirPairs(liste);
      SessionsListees(old(pairs), liste, pairs);
      SimuleListee(prive, old(Vu()), Vu(), liste);
      SainesApres(Releve(old(SessionsDe(pairs)), recues), SessionsDe(pairs));
    }

    method Vivre(e: Evenement, maintenant: nat) returns (sorties: seq<Sortie>, remis: Option<(Terme, seq<nat>)>)
      requires Sain() && Court(pairs.Keys) && (e.Liste? ==> Court(Nommes(e.liste)))
      modifies this, SessionsDe(pairs), set s <- SessionsDe(pairs) :: s.rejeu
      modifies set s <- SessionsDe(pairs) :: s.rejeu.bits
      ensures Sain() && Court(pairs.Keys) && Neuves(old(SessionsDe(pairs)), SessionsDe(pairs))
      ensures if e.NouvelleCle? then prive == e.prive && Vu() == Instant(map[], old(tirages), {}) && sorties == []
              else prive == old(prive) && Simule(prive, old(Vu()), TermesEvenement(e), Vu(), TermesSorties(sorties))
      ensures Livree(journal, recues, remis) && old(recues) <= recues && (remis.Some? ==> |old(recues)| < |recues|)
    {
      hide Exact, Saines, SessionsDe, Nommes, Simule, TermesSorties, TermesMessage, Livree;
      sorties, remis := [], None;
      RienNeSort(prive, Vu(), TermesEvenement(e), sorties);
      match e {
        case Arrive(msg, point, d) => sorties, remis := Recevoir(msg, point, d, maintenant);
        case ASceller(k, octets) =>
          if k in pairs {
            sorties := Transmettre(k, octets, maintenant);
          }
        case Liste(liste) =>
          Appliquer(liste);
          Affaiblit(prive, old(Vu()), {}, Vu(), {}, {}, TermesSorties(sorties)) by { RienDehors(sorties); }
        case NouvelleCle(prive) => DefinirCle(prive);
        case Tic => sorties := Minuterie(maintenant);
      }
      if !e.Arrive? {
        PasDeRemise(journal, recues);
      }
    }

    /** A packet of the interface, for this pair. */
    method Transmettre(k: Terme, octets: seq<nat>, maintenant: nat) returns (sorties: seq<Sortie>)
      requires Sain() && Court(pairs.Keys) && k in pairs
      modifies `pairs, `indices, `tirages, `journal, SessionsDe(pairs)
      ensures Sain() && pairs.Keys == old(pairs.Keys) && SessionsDe(pairs) <= old(SessionsDe(pairs))
      ensures Simule(prive, old(Vu()), {}, Vu(), TermesSorties(sorties))
    {
      hide Exact, Saines, Court, SessionsDe, Simule, TermesEnvois, TermesSorties, Tranches;
      var envois := Envoyer(k, Octets(octets), maintenant);
      ghost var i1 := Vu();
      sorties := Expedier(envois, maintenant, TAILLE_MAX_CLAIR);
      Puis(prive, old(Vu()), {}, i1, TermesEnvois(envois), TermesEnvois(envois), Vu(), TermesSorties(sorties), {},
          TermesSorties(sorties));
    }

    /** Event after event. */
    method Enchainer(es: seq<(Evenement, nat)>) returns (ghost vecu: seq<Pas>)
      requires Sain() && Court(pairs.Keys)
      requires forall e <- es | e.0.Liste? :: Court(Nommes(e.0.liste))
      modifies this, SessionsDe(pairs), set s <- SessionsDe(pairs) :: s.rejeu
      modifies set s <- SessionsDe(pairs) :: s.rejeu.bits
      ensures Sain() && old(recues) <= recues
      ensures SansNouvelle(es) ==> prive == old(prive) && Vie(prive, old(Vu()), vecu, Vu()) && |vecu| == |es|
      ensures SansNouvelle(es) ==> forall n | 0 <= n < |es| ::
                vecu[n].Agit? && vecu[n].entrants == TermesEvenement(es[n].0)
    {
      hide Exact, Saines, SessionsDe, Nommes, Court, Simule, Vie, TermesEvenement;
      vecu := [];
      var j := 0;
      assert Vie(prive, Vu(), vecu, Vu()) by { VieVide(prive, Vu()); }
      while j < |es|
        invariant 0 <= j <= |es|
        invariant Sain() && Court(pairs.Keys) && Neuves(old(SessionsDe(pairs)), SessionsDe(pairs))
                  && old(recues) <= recues
        invariant SansNouvelle(es) ==> prive == old(prive) && Vie(prive, old(Vu()), vecu, Vu()) && |vecu| == j
        invariant SansNouvelle(es) ==> forall n | 0 <= n < j ::
                  vecu[n].Agit? && vecu[n].entrants == TermesEvenement(es[n].0)
      {
        ghost var i := Vu();
        var sorties, remis := Vivre(es[j].0, es[j].1);
        assert es[j] in es;
        if SansNouvelle(es) {
          VieEncore(prive, old(Vu()), vecu, i, TermesEvenement(es[j].0), Vu(), TermesSorties(sorties));
        }
        vecu := vecu + [Agit(prive, i, TermesEvenement(es[j].0), Vu(), TermesSorties(sorties))];
        j := j + 1;
      }
    }

    /** Whatever happens to an engine, in whatever order, at whatever times: its table
        stays exact, hence at most four entries per pair, and its sessions in order; no
        session ever opens one counter twice; and as long as the engine keeps its key, each
        event is one step of the device that follows it. */
    method Derouler(es: seq<(Evenement, nat)>) returns (ghost vecu: seq<Pas>)
      requires Sain() && Court(pairs.Keys)
      requires forall e <- es | e.0.Liste? :: Court(Nommes(e.0.liste))
      modifies this, SessionsDe(pairs), set s <- SessionsDe(pairs) :: s.rejeu
      modifies set s <- SessionsDe(pairs) :: s.rejeu.bits
      ensures Exact(pairs, indices) && |indices| <= 4 * |pairs| && Saines(SessionsDe(pairs), recues)
      ensures old(recues) <= recues && forall i, j | 0 <= i < j < |recues| :: recues[i] != recues[j]
      ensures SansNouvelle(es) ==>
                && prive == old(prive) && Vie(prive, old(Vu()), vecu, Vu()) && |vecu| == |es|
                && forall n | 0 <= n < |es| :: vecu[n].Agit? && vecu[n].entrants == TermesEvenement(es[n].0)
    {
      hide Exact, Saines, SessionsDe, Nommes, Court, Simule, Vie, TermesEvenement;
      vecu := Enchainer(es);
      QuatreParPair();
      SainesEn(SessionsDe(pairs), recues);
    }
  }

  /** The key never changes. */
  ghost predicate SansNouvelle(es: seq<(Evenement, nat)>) {
    forall e <- es :: !e.0.NouvelleCle?
  }
}

/** The engine among the devices of `Accord.dfy`. What an engine does is followed, step by
    step, by a device of that world; so what is proved there holds of engines. */
module Raffinement {
  import opened Termes
  import opened Noise
  import opened Session
  import opened Etats
  import opened Pairs
  import P = Poignee
  import A = Accord

  /** What an engine did with its sessions: opened one, sealed or opened with one. */
  datatype Acte =
    | Ouverture(k: Terme, fiche: Fiche)
    | Envoyee(k: Terme, fiche: Fiche, n: nat, contenu: Contenu)
    | Recue(k: Terme, fiche: Fiche, n: nat, clair: Terme)

  /** An engine at some moment: its pairs, the keys it drew, all it did. */
  datatype Instant = Instant(pairs: map<Terme, Pair>, tirages: nat, journal: set<Acte>)

  const NAISSANCE := Instant(map[], 0, {})

  // ----- an engine and its device -------------------------------------------------------

  ghost predicate Connus(cs: seq<Contenu>, connus: set<Terme>) {
    forall c <- cs :: TermesContenu(c) <= connus
  }

  /** The device holds about this key what the pair holds; what waits was seen before. */
  ghost predicate PaireReflete(w: A.Monde, a: Prive, k: Terme, p: Pair) {
    && (if k.Publique? then (a, k.p) in w.paires && w.paires[(a, k.p)] == p.Vue() else p.Vue() == VIERGE)
    && Connus(p.attente, w.connus)
  }

  /** What the device did is in the journal of the engine. */
  ghost predicate FaitNote(f: A.Fait, a: Prive, journal: set<Acte>) {
    match f
    case Repondu(x, y, _, _, _, fiche) => x == a ==> Ouverture(Publique(y), fiche) in journal
    case Conclu(x, y, _, _, _, fiche) => x == a ==> Ouverture(Publique(y), fiche) in journal
    case Envoye(x, y, fiche, n, contenu) => x == a ==> Envoyee(Publique(y), fiche, n, contenu) in journal
    case Recu(x, y, fiche, n, ouvert, _) => x == a ==> Recue(Publique(y), fiche, n, ouvert) in journal
    case Initie(_, _, _, _) => true
  }

  /** And what is in the journal, the device did. */
  ghost predicate ActeVrai(faits: set<A.Fait>, a: Prive, x: Acte) {
    && x.k.Publique?
    && match x
       case Ouverture(k, fiche) => A.SessionDe(faits, a, k.p, fiche)
       case Envoyee(k, fiche, n, contenu) => A.Envoye(a, k.p, fiche, n, contenu) in faits
       case Recue(k, fiche, n, clair) => exists promue :: A.Recu(a, k.p, fiche, n, clair, promue) in faits
  }

  ghost predicate Reflete(w: A.Monde, a: Prive, i: Instant) {
    && A.Inv(w) && A.Honnete(w.honnetes, a)
    && (forall n | i.tirages <= n :: Ephemere(a, n) !in w.tires)
    && (forall k <- i.pairs :: PaireReflete(w, a, k, i.pairs[k]))
    && (forall f <- w.faits :: FaitNote(f, a, i.journal))
    && (forall x <- i.journal :: ActeVrai(w.faits, a, x))
  }

  /** From this world, steps of this device lead to one that reflects that moment, where
      these terms are known. */
  ghost predicate Mene(w: A.Monde, a: Prive, j: Instant, sortants: set<Terme>) {
    exists xs: seq<A.Etape> :: DeA(xs, a) && Reflete(A.Suivre(w, xs), a, j) && sortants <= A.Suivre(w, xs).connus
  }

  ghost predicate DeA(xs: seq<A.Etape>, a: Prive) {
    forall x <- xs :: A.Acteur(x) == Some(a)
  }

  /** What an engine did between two moments, having been given some known terms and
      having shown others, is what its device does in any world that reflects it. */
  ghost predicate Simule(a: Prive, i: Instant, entrants: set<Terme>, j: Instant, sortants: set<Terme>) {
    forall w | Reflete(w, a, i) && entrants <= w.connus :: Mene(w, a, j, sortants)
  }

  // ----- putting steps together ---------------------------------------------------------

  lemma {:induction false} SuivreGarde(w: A.Monde, xs: seq<A.Etape>)
    requires A.Inv(w)
    ensures A.Inv(A.Suivre(w, xs)) && A.Suite(w, A.Suivre(w, xs))
  {
    hide A.Inv, A.Faire;
    if xs != [] {
      SuivreGarde(w, xs[..|xs| - 1]);
      A.EtapeGarde(A.Suivre(w, xs[..|xs| - 1]), xs[|xs| - 1]);
    }
  }

  lemma {:induction false} SuivreEncore(w: A.Monde, xs: seq<A.Etape>, ys: seq<A.Etape>)
    ensures A.Suivre(A.Suivre(w, xs), ys) == A.Suivre(w, xs + ys)
    decreases |ys|
  {
    hide A.Faire;
    if ys == [] {
      assert xs + ys == xs;
    } else {
      SuivreEncore(w, xs, ys[..|ys| - 1]);
      assert (xs + ys)[..|xs + ys| - 1] == xs + ys[..|ys| - 1];
    }
  }

  lemma Enchaine(a: Prive, i: Instant, e1: set<Terme>, j: Instant, s1: set<Terme>, e2: set<Terme>, k: Instant,
                 s2: set<Terme>)
    requires Simule(a, i, e1, j, s1) && Simule(a, j, e2, k, s2) && e2 <= e1 + s1
    ensures Simule(a, i, e1, k, s1 + s2)
  {
    hide Reflete, A.Suivre;
    forall w | Reflete(w, a, i) && e1 <= w.connus
      ensures Mene(w, a, k, s1 + s2)
    {
      MeneEncore(w, a, i, e1, j, s1, e2, k, s2);
    }
  }

  lemma MeneEncore(w: A.Monde, a: Prive, i: Instant, e1: set<Terme>, j: Instant, s1: set<Terme>, e2: set<Terme>,
                   k: Instant, s2: set<Terme>)
    requires Simule(a, i, e1, j, s1) && Simule(a, j, e2, k, s2) && e2 <= e1 + s1
    requires Reflete(w, a, i) && e1 <= w.connus
    ensures Mene(w, a, k, s1 + s2)
  {
    hide A.Suivre, A.Inv;
    assert Mene(w, a, j, s1);
    var xs :| DeA(xs, a) && Reflete(A.Suivre(w, xs), a, j) && s1 <= A.Suivre(w, xs).connus;
    var w1 := A.Suivre(w, xs);
    SuivreGarde(w, xs);
    assert Mene(w1, a, k, s2);
    var ys :| DeA(ys, a) && Reflete(A.Suivre(w1, ys), a, k) && s2 <= A.Suivre(w1, ys).connus;
    SuivreGarde(w1, ys);
    SuivreEncore(w, xs, ys);
    assert DeA(xs + ys, a);
  }

  lemma RienNeSePasse(a: Prive, i: Instant)
    ensures Simule(a, i, {}, i, {})
  {
    forall w | Reflete(w, a, i)
      ensures Mene(w, a, i, {})
    {
      assert A.Suivre(w, []) == w && DeA([], a);
    }
  }

  /** Given more, showing less. */
  lemma Affaiblit(a: Prive, i: Instant, e: set<Terme>, j: Instant, s: set<Terme>, e': set<Terme>, s': set<Terme>)
    requires Simule(a, i, e, j, s) && e <= e' && s' <= s + e'
    ensures Simule(a, i, e', j, s')
  {
    hide Reflete, A.Suivre;
    forall w | Reflete(w, a, i) && e' <= w.connus
      ensures Mene(w, a, j, s')
    {
      assert Mene(w, a, j, s);
      var xs :| DeA(xs, a) && Reflete(A.Suivre(w, xs), a, j) && s <= A.Suivre(w, xs).connus;
      Montre(w, a, i, xs);
    }
  }

  lemma Montre(w: A.Monde, a: Prive, i: Instant, xs: seq<A.Etape>)
    requires Reflete(w, a, i)
    ensures w.connus <= A.Suivre(w, xs).connus
  {
    hide A.Inv, A.Suivre;
    SuivreGarde(w, xs);
  }

  /** One after the other, given all that and showing no more than that. */
  lemma Puis(a: Prive, i: Instant, e1: set<Terme>, j: Instant, s1: set<Terme>, e2: set<Terme>, k: Instant,
             s2: set<Terme>,
             e: set<Terme>, s: set<Terme>)
    requires Simule(a, i, e1, j, s1) && Simule(a, j, e2, k, s2)
    requires e1 <= e && e2 <= e + s1 && s <= e + s1 + s2
    ensures Simule(a, i, e, k, s)
  {
    hide Simule;
    Affaiblit(a, i, e1, j, s1, e, s1);
    Enchaine(a, i, e, j, s1, e2, k, s2);
    Affaiblit(a, i, e, k, s1 + s2, e, s);
  }

  lemma UnPas(w: A.Monde, a: Prive, x: A.Etape, j: Instant, sortants: set<Terme>)
    requires A.Acteur(x) == Some(a) && Reflete(A.Faire(w, x), a, j) && sortants <= A.Faire(w, x).connus
    ensures Mene(w, a, j, sortants)
  {
    hide A.Faire, Reflete;
    assert [x][..0] == [] && A.Suivre(w, []) == w;
    assert A.Suivre(w, [x]) == A.Faire(w, x);
    assert DeA([x], a);
  }

  lemma AucunPas(w: A.Monde, a: Prive, j: Instant, sortants: set<Terme>)
    requires Reflete(w, a, j) && sortants <= w.connus
    ensures Mene(w, a, j, sortants)
  {
    hide A.Faire, Reflete;
    assert A.Suivre(w, []) == w && DeA([], a);
  }

  // ----- what one step does to what is reflected ---------------------------------------------

  lemma ConnusEncore(cs: seq<Contenu>, connus: set<Terme>, connus': set<Terme>)
    requires Connus(cs, connus) && connus <= connus'
    ensures Connus(cs, connus')
  {
  }

  /** A step that gives one pair what the device now holds about its key. */
  lemma UnePaire(w: A.Monde, w': A.Monde, a: Prive, i: Instant, j: Instant, k: Terme)
    requires Reflete(w, a, i) && A.Inv(w') && A.Suite(w, w') && k in i.pairs && k.Publique?
    requires j.pairs.Keys == i.pairs.Keys && j.pairs == i.pairs[k := j.pairs[k]]
    requires (a, k.p) in w'.paires && w'.paires == w.paires[(a, k.p) := j.pairs[k].Vue()]
    requires Connus(j.pairs[k].attente, w'.connus)
    requires i.tirages <= j.tirages && forall n | j.tirages <= n :: Ephemere(a, n) !in w'.tires
    requires i.journal <= j.journal
    requires forall f <- w'.faits | f !in w.faits :: FaitNote(f, a, j.journal)
    requires forall x <- j.journal | x !in i.journal :: ActeVrai(w'.faits, a, x)
    ensures Reflete(w', a, j)
  {
    hide A.Inv;
    forall l | l in j.pairs
      ensures PaireReflete(w', a, l, j.pairs[l])
    {
      if l != k {
        assert PaireReflete(w, a, l, i.pairs[l]);
        ConnusEncore(i.pairs[l].attente, w.connus, w'.connus);
      }
    }
    forall f | f in w'.faits
      ensures FaitNote(f, a, j.journal)
    {
      assert f in w.faits ==> FaitNote(f, a, i.journal);
    }
    forall x | x in j.journal
      ensures ActeVrai(w'.faits, a, x)
    {
      assert x in i.journal ==> ActeVrai(w.faits, a, x);
    }
  }

  /** No slot changed, no index, no date; what waits more is known. */
  ghost predicate Pareil(i: Instant, entrants: set<Terme>, j: Instant) {
    && j.pairs.Keys <= i.pairs.Keys && i.tirages <= j.tirages && j.journal == i.journal
    && forall k <- j.pairs ::
         && j.pairs[k].Vue() == i.pairs[k].Vue()
         && forall c <- j.pairs[k].attente :: c in i.pairs[k].attente || TermesContenu(c) <= entrants
  }

  lemma SimulePareil(a: Prive, i: Instant, entrants: set<Terme>, j: Instant)
    requires Pareil(i, entrants, j)
    ensures Simule(a, i, entrants, j, {})
  {
    forall w | Reflete(w, a, i) && entrants <= w.connus
      ensures Mene(w, a, j, {})
    {
      forall k | k in j.pairs
        ensures PaireReflete(w, a, k, j.pairs[k])
      {
        assert PaireReflete(w, a, k, i.pairs[k]);
      }
      AucunPas(w, a, j, {});
    }
  }

  // ----- what leaves ---------------------------------------------------------------------

  ghost function TermesEnvois(envois: seq<Envoi>): set<Terme> {
    set e, t | e in envois && t in TermesMessage(e.msg) :: t
  }

  ghost function TermesSorties(sorties: seq<Sortie>): set<Terme> {
    set e, t | e in sorties && t in TermesMessage(e.msg) :: t
  }

  lemma TermesEnvoisPlus(s: seq<Envoi>, t: seq<Envoi>)
    ensures TermesEnvois(s + t) == TermesEnvois(s) + TermesEnvois(t)
  {
  }

  lemma TermesSortiesPlus(s: seq<Sortie>, t: seq<Sortie>)
    ensures TermesSorties(s + t) == TermesSorties(s) + TermesSorties(t)
  {
  }

  lemma Inchange(a: Prive, i: Instant, entrants: set<Terme>, envois: seq<Envoi>)
    requires envois == []
    ensures Simule(a, i, entrants, i, TermesEnvois(envois)) && TermesEnvois(envois) == {}
  {
    hide Simule;
    assert TermesEnvois(envois) == {};
    RienNeSePasse(a, i);
    Affaiblit(a, i, {}, i, {}, entrants, {});
  }

  /** Messages that leave one after the other. */
  lemma EnvoisPuis(a: Prive, i: Instant, e1: set<Terme>, j: Instant, envois: seq<Envoi>, e2: set<Terme>, k: Instant,
                   suite: seq<Envoi>)
    requires Simule(a, i, e1, j, TermesEnvois(envois)) && Simule(a, j, e2, k, TermesEnvois(suite))
              && e2 <= e1 + TermesEnvois(envois)
    ensures Simule(a, i, e1, k, TermesEnvois(envois + suite))
  {
    hide Simule;
    TermesEnvoisPlus(envois, suite);
    Enchaine(a, i, e1, j, TermesEnvois(envois), e2, k, TermesEnvois(suite));
  }

  lemma SortiesPuis(a: Prive, i: Instant, e1: set<Terme>, j: Instant, sorties: seq<Sortie>, e2: set<Terme>,
                    k: Instant, suite: seq<Sortie>)
    requires Simule(a, i, e1, j, TermesSorties(sorties)) && Simule(a, j, e2, k, TermesSorties(suite)) && e2 <= e1
    ensures Simule(a, i, e1, k, TermesSorties(sorties + suite))
  {
    hide Simule;
    TermesSortiesPlus(sorties, suite);
    Enchaine(a, i, e1, j, TermesSorties(sorties), e2, k, TermesSorties(suite));
  }

  lemma SortieDePlus(a: Prive, i: Instant, entrants: set<Terme>, j: Instant, sorties: seq<Sortie>, s: Sortie)
    requires Simule(a, i, entrants, j, TermesSorties(sorties)) && TermesMessage(s.msg) <= entrants
    ensures Simule(a, i, entrants, j, TermesSorties(sorties + [s]))
  {
    hide Simule;
    TermesSortiesPlus(sorties, [s]);
    assert s in [s] && TermesSorties([s]) == TermesMessage(s.msg);
    Affaiblit(a, i, entrants, j, TermesSorties(sorties), entrants, TermesSorties(sorties + [s]));
  }

  lemma ParmiEnvois(envois: seq<Envoi>, e: Envoi)
    requires e in envois
    ensures TermesMessage(e.msg) <= TermesEnvois(envois)
  {
  }

  lemma RienNeSort(a: Prive, i: Instant, entrants: set<Terme>, sorties: seq<Sortie>)
    requires sorties == []
    ensures Simule(a, i, entrants, i, TermesSorties(sorties))
  {
    hide Simule;
    assert TermesSorties(sorties) == {};
    RienNeSePasse(a, i);
    Affaiblit(a, i, {}, i, {}, entrants, {});
  }

  lemma RienDehors(sorties: seq<Sortie>)
    requires sorties == []
    ensures TermesSorties(sorties) == {}
  {
  }

  lemma QueDesCookies(envois: seq<Envoi>)
    requires forall e <- envois :: e.msg.Cookie?
    ensures TermesEnvois(envois) == {}
  {
  }

  // ----- handshakes ----------------------------------------------------------------------

  lemma LanceDans(w: A.Monde, a: Prive, i: Instant, k: Terme, maintenant: nat, j: Instant, envois: seq<Envoi>)
    requires Reflete(w, a, i) && k in i.pairs && j.pairs.Keys == i.pairs.Keys && j.pairs == i.pairs[k := j.pairs[k]]
    requires j.journal == i.journal && j.tirages > i.tirages
    requires k.Publique? && i.pairs[k].PeutLancer(maintenant)
    requires Lance(a, k, i.tirages, maintenant, i.pairs[k], j.pairs[k], envois)
    ensures Mene(w, a, j, TermesEnvois(envois))
  {
    hide A.Inv, Ecriture1, Pair.Vue;
    var p, p' := i.pairs[k], j.pairs[k];
    assert PaireReflete(w, a, k, p);
    var neuf, t := Ephemere(a, i.tirages), Horodatage(maintenant);
    assert A.Neuf(w, a, neuf);
    var x := A.Lancer(a, k.p, t, p'.indicePoignee, neuf);
    var w' := A.Faire(w, x);
    A.EtapeGarde(w, x);
    ConnusEncore(p.attente, w.connus, w'.connus);
    UnePaire(w, w', a, i, j, k);
    UnPas(w, a, x, j, TermesEnvois(envois));
  }

  /** Starting a handshake. */
  lemma SimuleLance(a: Prive, i: Instant, k: Terme, maintenant: nat, j: Instant, envois: seq<Envoi>)
    requires k in i.pairs && j.pairs.Keys == i.pairs.Keys && j.pairs == i.pairs[k := j.pairs[k]]
              && j.journal == i.journal
    requires j.tirages >= i.tirages && (envois != [] ==> j.tirages > i.tirages)
    requires Lance(a, k, i.tirages, maintenant, i.pairs[k], j.pairs[k], envois)
    ensures Simule(a, i, {}, j, TermesEnvois(envois))
  {
    if k.Publique? && i.pairs[k].PeutLancer(maintenant) {
      hide Reflete, Mene, Lance;
      assert envois != [] by { LancePart(a, k, i.tirages, maintenant, i.pairs[k], j.pairs[k], envois); }
      forall w | Reflete(w, a, i)
        ensures Mene(w, a, j, TermesEnvois(envois))
      {
        LanceDans(w, a, i, k, maintenant, j, envois);
      }
    } else {
      assert Pareil(i, {}, j);
      SimulePareil(a, i, {}, j);
      assert TermesEnvois(envois) == {};
    }
  }

  lemma LancePart(a: Prive, k: Terme, tirage: nat, maintenant: nat, p: Pair, p': Pair, envois: seq<Envoi>)
    requires k.Publique? && p.PeutLancer(maintenant) && Lance(a, k, tirage, maintenant, p, p', envois)
    ensures envois != []
  {
  }

  lemma InitiationDans(w: A.Monde, a: Prive, i: Instant, corps: Corps1, envoyeur: nat, lu: Lu1, locale: nat,
                       maintenant: int, j: Instant)
    requires Reflete(w, a, i) && Corps1Termes(corps) <= w.connus
    requires Repondre(a, corps, Ephemere(a, i.tirages)) == Some(lu)
    requires var k := lu.publique;
             && k in i.pairs && j.pairs.Keys == i.pairs.Keys && j.pairs == i.pairs[k := j.pairs[k]]
             && PlusRecente(i.pairs[k].Vue(), lu.horodatage)
             && j.pairs[k].Vue() == ApresInitiation(i.pairs[k].Vue(),
                Fiche(locale, envoyeur, lu.cles, false, maintenant), lu.horodatage)
             && j.pairs[k].attente == i.pairs[k].attente
    requires j.tirages > i.tirages
    requires j.journal == i.journal + {Ouverture(lu.publique, Fiche(locale, envoyeur, lu.cles, false, maintenant))}
    ensures Mene(w, a, j, Corps2Termes(lu.reponse))
  {
    hide A.Inv, Repondre, Pair.Vue, ApresInitiation, PlusRecente;
    var k, neuf := lu.publique, Ephemere(a, i.tirages);
    A.RepondreLu(a, corps, neuf);
    hide P.ClesRepondeur;
    assert PaireReflete(w, a, k, i.pairs[k]);
    assert A.Neuf(w, a, neuf);
    var x := A.LireInitiation(a, corps, locale, envoyeur, maintenant, neuf);
    var w' := A.Faire(w, x);
    A.EtapeGarde(w, x);
    ConnusEncore(i.pairs[k].attente, w.connus, w'.connus);
    UnePaire(w, w', a, i, j, k);
    UnPas(w, a, x, j, Corps2Termes(lu.reponse));
  }

  /** Acting on an initiation. */
  lemma SimuleInitiation(a: Prive, i: Instant, corps: Corps1, envoyeur: nat, lu: Lu1, locale: nat, maintenant: int,
                         j: Instant)
    requires Repondre(a, corps, Ephemere(a, i.tirages)) == Some(lu)
    requires var k := lu.publique;
             && k in i.pairs && j.pairs.Keys == i.pairs.Keys && j.pairs == i.pairs[k := j.pairs[k]]
             && PlusRecente(i.pairs[k].Vue(), lu.horodatage)
             && j.pairs[k].Vue() == ApresInitiation(i.pairs[k].Vue(),
                Fiche(locale, envoyeur, lu.cles, false, maintenant), lu.horodatage)
             && j.pairs[k].attente == i.pairs[k].attente
    requires j.tirages > i.tirages
    requires j.journal == i.journal + {Ouverture(lu.publique, Fiche(locale, envoyeur, lu.cles, false, maintenant))}
    ensures Simule(a, i, Corps1Termes(corps), j, Corps2Termes(lu.reponse))
  {
    hide Reflete, Mene, Repondre, PlusRecente, ApresInitiation, Pair.Vue;
    forall w | Reflete(w, a, i) && Corps1Termes(corps) <= w.connus
      ensures Mene(w, a, j, Corps2Termes(lu.reponse))
    {
      InitiationDans(w, a, i, corps, envoyeur, lu, locale, maintenant, j);
    }
  }

  // ----- data ----------------------------------------------------------------------------

  lemma ScelleDans(w: A.Monde, a: Prive, i: Instant, k: Terme, s: Session, n: nat, clair: Contenu, j: Instant)
    requires Reflete(w, a, i) && TermesContenu(clair) <= w.connus
    requires k in i.pairs && i.pairs[k].courante == s
    requires j.pairs.Keys == i.pairs.Keys && j.pairs == i.pairs[k := j.pairs[k]] && j.tirages == i.tirages
    requires j.pairs[k].Vue() == i.pairs[k].Vue() && j.pairs[k].attente == i.pairs[k].attente
    requires j.journal == i.journal + {Envoyee(k, Identite(s), n, clair)}
    ensures Mene(w, a, j, TermesMessage(MessageDonnees(s.distante, s.envoi, n, clair)))
  {
    hide A.Inv;
    assert PaireReflete(w, a, k, i.pairs[k]);
    var x := A.Etape.Sceller(a, k.p, n, clair);
    var w' := A.Faire(w, x);
    A.EtapeGarde(w, x);
    assert w.paires[(a, k.p) := j.pairs[k].Vue()] == w.paires;
    ConnusEncore(i.pairs[k].attente, w.connus, w'.connus);
    UnePaire(w, w', a, i, j, k);
    UnPas(w, a, x, j, TermesMessage(MessageDonnees(s.distante, s.envoi, n, clair)));
  }

  /** Sealing one plaintext with the current session. */
  lemma SimuleScelle(a: Prive, i: Instant, k: Terme, s: Session, n: nat, clair: Contenu, j: Instant)
    requires k in i.pairs && i.pairs[k].courante == s
    requires j.pairs.Keys == i.pairs.Keys && j.pairs == i.pairs[k := j.pairs[k]] && j.tirages == i.tirages
    requires j.pairs[k].Vue() == i.pairs[k].Vue() && j.pairs[k].attente == i.pairs[k].attente
    requires j.journal == i.journal + {Envoyee(k, Identite(s), n, clair)}
    ensures Simule(a, i, TermesContenu(clair), j, TermesMessage(MessageDonnees(s.distante, s.envoi, n, clair)))
  {
    hide Reflete, Mene, MessageDonnees, Pair.Vue;
    forall w | Reflete(w, a, i) && TermesContenu(clair) <= w.connus
      ensures Mene(w, a, j, TermesMessage(MessageDonnees(s.distante, s.envoi, n, clair)))
    {
      ScelleDans(w, a, i, k, s, n, clair, j);
    }
  }

  /** What an opened plaintext holds. */
  function TermesClair(clair: Terme): set<Terme> {
    match clair
    case Paquet(c, _) => TermesContenu(c)
    case _ => {}
  }

  lemma OuvreMontre(w: A.Monde, corps: Terme, cle: Terme, n: nat, clair: Terme)
    requires A.Inv(w) && corps in w.connus && corps == Scelle(cle, n, clair, VIDE)
    ensures TermesClair(clair) <= w.connus
  {
    hide A.FaitJuste, A.Bon, A.PaireJuste;
    assert A.Ouvert(w.connus, w.faits, corps);
    if clair in w.connus {
      assert A.Ouvert(w.connus, w.faits, clair);
    } else {
      var f :| f in w.faits && A.Produit(f, corps);
      assert A.FaitJuste(w, f);
      Produite(w, f, corps);
    }
  }

  lemma Produite(w: A.Monde, f: A.Fait, t: Terme)
    requires A.FaitJuste(w, f) && A.Produit(f, t) && t.Scelle?
    ensures TermesClair(t.clair) <= w.connus
  {
  }

  function TermesLus(clair: Option<Terme>): set<Terme> {
    if clair.Some? then TermesClair(clair.valeur) else {}
  }

  ghost function PlaceDe(p: Pair, s: Session): A.Place {
    if s == p.suivante then A.Suivante else if s == p.courante then A.Courante else A.Precedente
  }

  lemma OuvreDans(w: A.Monde, a: Prive, i: Instant, k: Terme, s: Session, n: nat, corps: Terme, clair: Terme,
                  j: Instant)
    requires Reflete(w, a, i) && corps in w.connus && corps == Scelle(s.reception, n, clair, VIDE)
    requires k in i.pairs && i.pairs[k].Loge(s)
    requires j.pairs.Keys == i.pairs.Keys && j.pairs == i.pairs[k := j.pairs[k]] && j.tirages == i.tirages
    requires var p := i.pairs[k];
             j.pairs[k].Vue() == if s == p.suivante then ApresPromotion(p.Vue()) else p.Vue()
    requires j.pairs[k].attente == i.pairs[k].attente
    requires j.journal == i.journal + {Recue(k, Identite(s), n, clair)}
    ensures Mene(w, a, j, TermesClair(clair))
  {
    hide A.Inv, ApresPromotion;
    var p := i.pairs[k];
    assert PaireReflete(w, a, k, p);
    var place := PlaceDe(p, s);
    var x := A.Ouvre(a, k.p, place, n, corps);
    var w' := A.Faire(w, x);
    A.EtapeGarde(w, x);
    OuvreMontre(w, corps, s.reception, n, clair);
    var v := w.paires[(a, k.p)];
    assert A.En(v, place) == FicheDe(s);
    assert Ouvrir(s.reception, n, corps, VIDE) == Some(clair);
    assert A.Recu(a, k.p, Identite(s), n, clair, place.Suivante?) in w'.faits;
    ConnusEncore(p.attente, w.connus, w'.connus);
    UnePaire(w, w', a, i, j, k);
    UnPas(w, a, x, j, TermesClair(clair));
  }

  /** Opening a data message, and promoting its session if it was waiting for that. */
  lemma SimuleOuvre(a: Prive, i: Instant, k: Terme, s: Session, n: nat, corps: Terme, clair: Terme, j: Instant)
    requires corps == Scelle(s.reception, n, clair, VIDE)
    requires k in i.pairs && i.pairs[k].Loge(s)
    requires j.pairs.Keys == i.pairs.Keys && j.pairs == i.pairs[k := j.pairs[k]] && j.tirages == i.tirages
    requires var p := i.pairs[k];
             j.pairs[k].Vue() == if s == p.suivante then ApresPromotion(p.Vue()) else p.Vue()
    requires j.pairs[k].attente == i.pairs[k].attente
    requires j.journal == i.journal + {Recue(k, Identite(s), n, clair)}
    ensures Simule(a, i, {corps}, j, TermesClair(clair))
  {
    hide Reflete, Mene, Pair.Vue, ApresPromotion;
    forall w | Reflete(w, a, i) && {corps} <= w.connus
      ensures Mene(w, a, j, TermesClair(clair))
    {
      OuvreDans(w, a, i, k, s, n, corps, clair, j);
    }
  }

  // ----- time ------------------------------------------------------------------------------

  lemma ExpireDans(w: A.Monde, a: Prive, i: Instant, k: Terme, maintenant: nat, j: Instant)
    requires Reflete(w, a, i) && k in i.pairs && k.Publique?
    requires j == i.(pairs := i.pairs[k := Rajeunie(i.pairs[k], maintenant)])
    ensures Mene(w, a, j, {})
  {
    hide A.Inv, Pair.Vue, ApresExpiration;
    var p := i.pairs[k];
    assert PaireReflete(w, a, k, p);
    var x := A.Expirer(a, k.p, maintenant, REJETER_APRES);
    var w' := A.Faire(w, x);
    A.EtapeGarde(w, x);
    ConnusEncore(p.attente, w.connus, w'.connus);
    assert j.pairs[k].Vue() == ApresExpiration(p.Vue(), maintenant, REJETER_APRES);
    UnePaire(w, w', a, i, j, k);
    UnPas(w, a, x, j, {});
  }

  /** Dropping the sessions of a pair that expired. */
  lemma SimuleExpire(a: Prive, i: Instant, k: Terme, maintenant: nat, j: Instant)
    requires k in i.pairs && j == i.(pairs := i.pairs[k := Rajeunie(i.pairs[k], maintenant)])
    ensures Simule(a, i, {}, j, {})
  {
    forall w | Reflete(w, a, i)
      ensures Mene(w, a, j, {})
    {
      if k.Publique? {
        hide Mene, Reflete;
        ExpireDans(w, a, i, k, maintenant, j);
      } else {
        SansCle(w, a, i, k, maintenant, j);
      }
    }
  }

  lemma SansCle(w: A.Monde, a: Prive, i: Instant, k: Terme, maintenant: nat, j: Instant)
    requires Reflete(w, a, i) && k in i.pairs && !k.Publique?
    requires j == i.(pairs := i.pairs[k := Rajeunie(i.pairs[k], maintenant)])
    ensures Mene(w, a, j, {})
  {
    hide A.Inv;
    assert PaireReflete(w, a, k, i.pairs[k]);
    assert j.pairs[k].Vue() == VIERGE;
    forall l | l in j.pairs
      ensures PaireReflete(w, a, l, j.pairs[l])
    {
      assert PaireReflete(w, a, l, i.pairs[l]);
    }
    AucunPas(w, a, j, {});
  }

  // ----- the handlers, as their contracts state them --------------------------------------

  ghost function TermesContenus(cs: seq<Contenu>): set<Terme> {
    set c, t | c in cs && t in TermesContenu(c) :: t
  }

  /** What sealing these, in order, under counters 0, 1, 2... leaves in the journal. */
  ghost function Envoyees(k: Terme, fiche: Fiche, clairs: seq<Contenu>): set<Acte> {
    set n | 0 <= n < |clairs| :: Envoyee(k, fiche, n, clairs[n])
  }

  ghost function Note(i: Instant, actes: set<Acte>): Instant {
    i.(journal := i.journal + actes)
  }

  ghost function Remplace(i: Instant, k: Terme, p: Pair): Instant {
    i.(pairs := i.pairs[k := p])
  }

  lemma ReponseDans(w: A.Monde, a: Prive, i: Instant, k: Terme, corps: Corps2, lu: (Terme, Cles), envoyeur: nat,
                    maintenant: int, p': Pair)
    requires Reflete(w, a, i) && Corps2Termes(corps) <= w.connus
    requires k in i.pairs && i.pairs[k].poignee.Some? && Lecture2(i.pairs[k].poignee.valeur, corps).1 == Some(lu)
    requires var f := Fiche(i.pairs[k].indicePoignee, envoyeur, lu.1, true, maintenant);
             p'.Vue() == ApresReponse(i.pairs[k].Vue(), f) && p'.attente == []
    ensures var f := Fiche(i.pairs[k].indicePoignee, envoyeur, lu.1, true, maintenant);
            Mene(w, a, Note(Remplace(i, k, p'), {Ouverture(k, f)}), TermesContenus(i.pairs[k].attente))
  {
    hide A.Inv, Lecture2, ApresReponse;
    var p := i.pairs[k];
    var j := Note(Remplace(i, k, p'), {Ouverture(k, Fiche(p.indicePoignee, envoyeur, lu.1, true, maintenant))});
    assert PaireReflete(w, a, k, p);
    assert k.Publique?;
    ReponseLue(w, a, k.p, corps);
    var x := A.LireReponse(a, k.p, corps, envoyeur, maintenant);
    var w' := A.Faire(w, x);
    A.EtapeGarde(w, x);
    UnePaire(w, w', a, i, j, k);
    UnPas(w, a, x, j, TermesContenus(p.attente));
  }

  lemma ReponseLue(w: A.Monde, a: Prive, b: Prive, m: Corps2)
    requires A.Inv(w) && (a, b) in w.paires && w.paires[(a, b)].poignee.Some? && Corps2Termes(m) <= w.connus
    requires Lecture2(w.paires[(a, b)].poignee.valeur, m).1.Some?
    ensures w.paires[(a, b)].poignee.valeur.e.Some? && m.Corps2? && m.e.Publique?
  {
    hide Lecture2, A.Bon, A.FaitJuste, A.Ouvert, P.ApresMessage1;
    var v := w.paires[(a, b)];
    assert A.PaireJuste(w.honnetes, w.faits, a, b, v);
    var e, t :| A.Initie(a, b, e, t) in w.faits && A.Attend(v.poignee.valeur, a, b, e, t);
    A.ReponseAuthentique(w, a, b, e, t, v.poignee.valeur, m);
  }

  lemma SimuleReponse(a: Prive, i: Instant, k: Terme, corps: Corps2, lu: (Terme, Cles), envoyeur: nat,
                      maintenant: int, p': Pair)
    requires k in i.pairs && i.pairs[k].poignee.Some? && Lecture2(i.pairs[k].poignee.valeur, corps).1 == Some(lu)
    requires var f := Fiche(i.pairs[k].indicePoignee, envoyeur, lu.1, true, maintenant);
             p'.Vue() == ApresReponse(i.pairs[k].Vue(), f) && p'.attente == []
    ensures var f := Fiche(i.pairs[k].indicePoignee, envoyeur, lu.1, true, maintenant);
            Simule(a, i, Corps2Termes(corps), Note(Remplace(i, k, p'), {Ouverture(k, f)}),
                TermesContenus(i.pairs[k].attente))
  {
    hide Reflete, Mene, Lecture2, Pair.Vue, ApresReponse;
    var f := Fiche(i.pairs[k].indicePoignee, envoyeur, lu.1, true, maintenant);
    forall w | Reflete(w, a, i) && Corps2Termes(corps) <= w.connus
      ensures Mene(w, a, Note(Remplace(i, k, p'), {Ouverture(k, f)}), TermesContenus(i.pairs[k].attente))
    {
      ReponseDans(w, a, i, k, corps, lu, envoyeur, maintenant, p');
    }
  }

  /** Sealing all that waited, in order. */
  lemma {:induction false} SimuleVider(a: Prive, i: Instant, k: Terme, s: Session, p: Pair, clairs: seq<Contenu>)
    requires k in i.pairs && i.pairs[k].courante == s
    ensures Simule(a, i, TermesContenus(clairs), Note(i, Envoyees(k, Identite(s), clairs)),
                   TermesEnvois(EnvoisDe(p, s.distante, s.envoi, clairs)))
  {
    hide Simule, MessageDonnees, Identite, Pair.VersLui;
    if clairs == [] {
      RienNeSePasse(a, i);
      assert Note(i, Envoyees(k, Identite(s), clairs)) == i;
      assert TermesEnvois(EnvoisDe(p, s.distante, s.envoi, clairs)) == {} && TermesContenus(clairs) == {};
    } else {
      var n := |clairs| - 1;
      var debut, c := clairs[..n], clairs[n];
      var j := Note(i, Envoyees(k, Identite(s), debut));
      var j' := Note(i, Envoyees(k, Identite(s), clairs));
      SimuleVider(a, i, k, s, p, debut);
      assert j'.journal == j.journal + {Envoyee(k, Identite(s), n, c)};
      assert j'.pairs == j.pairs[k := j.pairs[k]];
      SimuleScelle(a, j, k, s, n, c, j');
      TermesContenusPlus(debut, c);
      assert debut + [c] == clairs;
      VidePlus(p, s.distante, s.envoi, debut, c);
      var s1 := TermesEnvois(EnvoisDe(p, s.distante, s.envoi, debut));
      Affaiblit(a, i, TermesContenus(debut), j, s1, TermesContenus(clairs), s1);
      Enchaine(a, i, TermesContenus(clairs), j, s1, TermesContenu(c), j',
          TermesMessage(MessageDonnees(s.distante, s.envoi, n, c)));
    }
  }

  lemma TermesContenusPlus(cs: seq<Contenu>, c: Contenu)
    ensures TermesContenus(cs + [c]) == TermesContenus(cs) + TermesContenu(c)
  {
  }

  lemma VidePlus(p: Pair, distante: nat, envoi: Terme, cs: seq<Contenu>, c: Contenu)
    ensures TermesEnvois(EnvoisDe(p, distante, envoi, cs + [c])) ==
              TermesEnvois(EnvoisDe(p, distante, envoi, cs)) + TermesMessage(MessageDonnees(distante, envoi, |cs|, c))
  {
    hide MessageDonnees;
    var e := p.VersLui(MessageDonnees(distante, envoi, |cs|, c));
    assert EnvoisDe(p, distante, envoi, cs + [c]) == EnvoisDe(p, distante, envoi, cs) + [e];
    TermesEnvoisPlus(EnvoisDe(p, distante, envoi, cs), [e]);
    UnSeul(e);
  }

  lemma UnSeul(e: Envoi)
    ensures TermesEnvois([e]) == TermesMessage(e.msg)
  {
    assert e in [e];
  }

  /** An answer to our handshake: the session opens, and all that waited leaves. */
  lemma SimuleConclusion(a: Prive, i: Instant, k: Terme, corps: Corps2, cles: Cles, envoyeur: nat, maintenant: nat,
                         s: Session, clairs: seq<Contenu>, j: Instant)
    requires k in i.pairs && i.pairs[k].poignee.Some? && j.tirages == i.tirages
    requires var lu := Lecture2(i.pairs[k].poignee.valeur, corps).1;
             lu.Some? && lu.valeur.1 == cles
    requires Identite(s) == Fiche(i.pairs[k].indicePoignee, envoyeur, cles, true, maintenant)
    requires j.pairs.Keys == i.pairs.Keys && j.pairs == i.pairs[k := j.pairs[k]]
    requires j.pairs[k] == Ouverte(i.pairs[k], s, |clairs|, maintenant)
    requires j.journal == i.journal + {Ouverture(k, Identite(s))} + Envoyees(k, Identite(s), clairs)
    requires clairs == if i.pairs[k].attente == [] then [RIEN] else i.pairs[k].attente
    ensures Simule(a, i, Corps2Termes(corps), j, TermesEnvois(EnvoisDe(i.pairs[k], envoyeur, cles.envoi, clairs)))
  {
    hide Simule, Lecture2, EnvoisDe, Envoyees, TermesEnvois;
    var p, f := i.pairs[k], Identite(s);
    var p' := j.pairs[k];
    assert p'.Vue() == ApresReponse(p.Vue(), f) && s.distante == envoyeur && s.envoi == cles.envoi;
    hide Identite, Pair.Vue, ApresReponse;
    var m := Note(Remplace(i, k, p'), {Ouverture(k, f)});
    var sortants := TermesEnvois(EnvoisDe(p, envoyeur, cles.envoi, clairs));
    SimuleReponse(a, i, k, corps, Lecture2(p.poignee.valeur, corps).1.valeur, envoyeur, maintenant, p');
    SimuleVider(a, m, k, s, p, clairs);
    assert TermesContenus(clairs) <= TermesContenus(p.attente);
    assert j == Note(m, Envoyees(k, f, clairs));
    Puis(a, i, Corps2Termes(corps), m, TermesContenus(p.attente), TermesContenus(clairs), j, sortants,
        Corps2Termes(corps), sortants);
  }

  /** One pair changed nothing but its clocks, its path, or what waits. */
  lemma SimuleHorloges(a: Prive, i: Instant, entrants: set<Terme>, k: Terme, p': Pair, tirages: nat)
    requires k in i.pairs && p'.Vue() == i.pairs[k].Vue() && i.tirages <= tirages
    requires forall c <- p'.attente :: c in i.pairs[k].attente || TermesContenu(c) <= entrants
    ensures Simule(a, i, entrants, Instant(i.pairs[k := p'], tirages, i.journal), {})
  {
    hide Simule;
    SimulePareil(a, i, entrants, Instant(i.pairs[k := p'], tirages, i.journal));
  }

  /** The two parts of it: an initiation if one is due, then the sealed plaintext. */
  lemma EnvoyeEnDeux(a: Prive, k: Terme, tirage: nat, maintenant: nat, p: Pair, p': Pair, clair: Contenu,
                     donnees: Message,
                     renouveler: bool, envois: seq<Envoi>) returns (p1: Pair)
    requires Envoye(a, k, tirage, maintenant, p, p', donnees, clair, renouveler, envois)
    ensures p1.courante == p.courante && p1.Vue() == p'.Vue() && p1.attente == p'.attente
    ensures envois != [] && envois[|envois| - 1] == p.VersLui(donnees)
    ensures if renouveler then Lance(a, k, tirage, maintenant, p, p1, envois[..|envois| - 1])
              else p1 == p && |envois| == 1
  {
    hide Lance, ApresEnvoi;
    var h: Horloges :|
      var p1 := p'.(h := h);
      && p' == ApresEnvoi(p1, clair, maintenant)
      && if renouveler then Lance(a, k, tirage, maintenant, p, p1, envois[..|envois| - 1])
         else p1 == p && |envois| == 1;
    p1 := p'.(h := h);
    if renouveler {
      LanceGarde(a, k, tirage, maintenant, p, p1, envois[..|envois| - 1]);
    }
  }

  lemma SimuleDebut(a: Prive, i: Instant, k: Terme, maintenant: nat, p1: Pair, tirages: nat, renouveler: bool,
                    debut: seq<Envoi>)
    requires k in i.pairs && tirages >= i.tirages && (debut != [] ==> tirages > i.tirages)
    requires if renouveler then Lance(a, k, i.tirages, maintenant, i.pairs[k], p1, debut)
              else p1 == i.pairs[k] && debut == []
    ensures Simule(a, i, {}, Instant(i.pairs[k := p1], tirages, i.journal), TermesEnvois(debut))
  {
    hide Simule, Lance, Pair.Vue;
    if renouveler {
      SimuleLance(a, i, k, maintenant, Instant(i.pairs[k := p1], tirages, i.journal), debut);
    } else {
      assert TermesEnvois(debut) == {};
      SimuleHorloges(a, i, {}, k, p1, tirages);
    }
  }

  /** Sending a plaintext: sealed now, after an initiation if it is due. */
  lemma SimuleEnvoi(a: Prive, i: Instant, k: Terme, maintenant: nat, clair: Contenu, s: Session, n: nat,
                    renouveler: bool,
                    j: Instant, envois: seq<Envoi>)
    requires k in i.pairs && j.pairs.Keys == i.pairs.Keys && j.pairs == i.pairs[k := j.pairs[k]]
              && i.pairs[k].courante == s
    requires j.tirages >= i.tirages && (|envois| > 1 ==> j.tirages > i.tirages)
    requires j.journal == i.journal + {Envoyee(k, Identite(s), n, clair)}
    requires Envoye(a, k, i.tirages, maintenant, i.pairs[k], j.pairs[k],
              MessageDonnees(s.distante, s.envoi, n, clair), clair,
                    renouveler, envois)
    ensures Simule(a, i, TermesContenu(clair), j, TermesEnvois(envois))
  {
    hide Simule, Envoye, MessageDonnees, Identite, TermesEnvois, Pair.Vue, Pair.VersLui;
    var donnees := MessageDonnees(s.distante, s.envoi, n, clair);
    var p1 := EnvoyeEnDeux(a, k, i.tirages, maintenant, i.pairs[k], j.pairs[k], clair, donnees, renouveler, envois);
    SimuleDebut(a, i, k, maintenant, p1, j.tirages, renouveler, envois[..|envois| - 1]);
    var m, debut, e := Instant(i.pairs[k := p1], j.tirages, i.journal), envois[..|envois| - 1], envois[|envois| - 1];
    assert j.pairs == m.pairs[k := j.pairs[k]];
    SimuleScelle(a, m, k, s, n, clair, j);
    Affaiblit(a, i, {}, m, TermesEnvois(debut), TermesContenu(clair), TermesEnvois(debut));
    Enchaine(a, i, TermesContenu(clair), m, TermesEnvois(debut), TermesContenu(clair), j, TermesMessage(donnees));
    assert envois == debut + [e];
    TermesEnvoisPlus(debut, [e]);
    UnSeul(e);
    assert e.msg == donnees by { VersLuiMessage(i.pairs[k], donnees); }
  }

  lemma VersLuiMessage(p: Pair, msg: Message)
    ensures p.VersLui(msg).msg == msg
  {
  }

  /** Or waiting, and a handshake started. */
  lemma SimuleAttente(a: Prive, i: Instant, k: Terme, maintenant: nat, clair: Contenu, j: Instant, envois: seq<Envoi>)
    requires k in i.pairs && j.pairs.Keys == i.pairs.Keys && j.pairs == i.pairs[k := j.pairs[k]]
              && j.journal == i.journal
    requires j.tirages >= i.tirages && (envois != [] ==> j.tirages > i.tirages)
    requires Lance(a, k, i.tirages, maintenant, MisEnAttente(i.pairs[k], clair), j.pairs[k], envois)
    ensures Simule(a, i, TermesContenu(clair), j, TermesEnvois(envois))
  {
    hide Simule, Lance, TermesEnvois;
    var m := Remplace(i, k, MisEnAttente(i.pairs[k], clair));
    SimuleHorloges(a, i, TermesContenu(clair), k, MisEnAttente(i.pairs[k], clair), i.tirages);
    hide MisEnAttente, Pair.Vue;
    SimuleLance(a, m, k, maintenant, j, envois);
    Enchaine(a, i, TermesContenu(clair), m, {}, {}, j, TermesEnvois(envois));
    assert {} + TermesEnvois(envois) == TermesEnvois(envois);
  }

  /** A sign of life, if one is due. */
  lemma SimuleRepond(a: Prive, i: Instant, k: Terme, vide: bool, utilisable: bool, n: nat, maintenant: nat,
                     j: Instant, envois: seq<Envoi>)
    requires k in i.pairs && j.pairs.Keys == i.pairs.Keys && j.pairs == i.pairs[k := j.pairs[k]]
              && j.tirages == i.tirages
    requires utilisable ==> i.pairs[k].courante != null
    requires Repond(i.pairs[k], vide, utilisable, n, maintenant, j.pairs[k], envois)
    requires j.journal == i.journal + if envois == [] then {} else {Envoyee(k, Identite(i.pairs[k].courante), n, RIEN)}
    ensures Simule(a, i, {}, j, TermesEnvois(envois))
  {
    hide Simule, MessageDonnees, Identite;
    if envois == [] {
      assert j == i;
      RienNeSePasse(a, i);
      assert TermesEnvois(envois) == {};
    } else {
      SimuleScelle(a, i, k, i.pairs[k].courante, n, RIEN, j);
      UnSeul(envois[0]);
    }
  }

  /** A data message that opens. */
  lemma SimuleEntend(a: Prive, i: Instant, k: Terme, s: Session, n: nat, corps: Terme, clair: Terme, o: Origine,
                     vide: bool,
                     utilisable: bool, compteur: nat, maintenant: nat, j: Instant, envois: seq<Envoi>)
    requires corps == Scelle(s.reception, n, clair, VIDE) && k in i.pairs && i.pairs[k].Loge(s)
    requires j.pairs.Keys == i.pairs.Keys && j.pairs == i.pairs[k := j.pairs[k]] && j.tirages == i.tirages
    requires var p := Entendue(Confirmee(i.pairs[k], s, maintenant), o, vide, maintenant);
             && (utilisable ==> p.courante != null)
             && Repond(p, vide, utilisable, compteur, maintenant, j.pairs[k], envois)
             && j.journal == i.journal + {Recue(k, Identite(s), n, clair)}
                             + if envois == [] then {} else {Envoyee(k, Identite(p.courante), compteur, RIEN)}
    ensures Simule(a, i, {corps}, j, TermesClair(clair) + TermesEnvois(envois))
  {
    hide Simule, Repond, Identite, Pair.Loge, TermesEnvois;
    var p := Entendue(Confirmee(i.pairs[k], s, maintenant), o, vide, maintenant);
    assert p.Vue() == if s == i.pairs[k].suivante then ApresPromotion(i.pairs[k].Vue()) else i.pairs[k].Vue();
    hide Entendue, Confirmee;
    var m := Note(Remplace(i, k, p), {Recue(k, Identite(s), n, clair)});
    SimuleOuvre(a, i, k, s, n, corps, clair, m);
    assert j.pairs == m.pairs[k := j.pairs[k]];
    SimuleRepond(a, m, k, vide, utilisable, compteur, maintenant, j, envois);
    Enchaine(a, i, {corps}, m, TermesClair(clair), {}, j, TermesEnvois(envois));
  }

  // ----- a new list --------------------------------------------------------------------------

  lemma {:induction false} ListerTous(w: A.Monde, a: Prive, bs: set<Prive>) returns (xs: seq<A.Etape>)
    requires A.Honnete(w.honnetes, a)
    ensures DeA(xs, a)
    ensures var w' := A.Suivre(w, xs);
            && w' == w.(paires := w'.paires)
            && (forall b <- bs :: (a, b) in w'.paires && w'.paires[(a, b)] == VIERGE)
            && (forall b | b !in bs && (a, b) in w.paires ::
               (a, b) in w'.paires && w'.paires[(a, b)] == w.paires[(a, b)])
  {
    if bs == {} {
      xs := [];
    } else {
      var b :| b in bs;
      var ys := ListerTous(w, a, bs - {b});
      xs := ys + [A.Lister(a, b)];
      assert xs[..|xs| - 1] == ys;
      assert A.Suivre(w, xs) == A.Faire(A.Suivre(w, ys), A.Lister(a, b));
    }
  }

  /** Pairs that stay keep what they hold, those that come start with nothing. */
  ghost predicate ListeFidele(i: Instant, j: Instant) {
    && j.tirages == i.tirages && j.journal == i.journal
    && forall k <- j.pairs ::
         if k in i.pairs then j.pairs[k].Vue() == i.pairs[k].Vue() && j.pairs[k].attente == i.pairs[k].attente
         else j.pairs[k].Vue() == VIERGE && j.pairs[k].attente == []
  }

  lemma ListeDans(w: A.Monde, a: Prive, i: Instant, j: Instant)
    requires Reflete(w, a, i) && ListeFidele(i, j)
    ensures Mene(w, a, j, {})
  {
    hide A.Inv, A.Faire;
    var venus := set k | k in j.pairs.Keys - i.pairs.Keys && k.Publique? :: k.p;
    var xs := ListerTous(w, a, venus);
    var w' := A.Suivre(w, xs);
    SuivreGarde(w, xs);
    hide A.Suivre;
    forall k | k in j.pairs
      ensures PaireReflete(w', a, k, j.pairs[k])
    {
      if k in i.pairs {
        assert PaireReflete(w, a, k, i.pairs[k]);
        assert k.Publique? ==> k.p !in venus;
      } else {
        assert k.Publique? ==> k.p in venus;
      }
    }
    assert Reflete(w', a, j);
  }

  lemma SimuleListe(a: Prive, i: Instant, j: Instant)
    requires ListeFidele(i, j)
    ensures Simule(a, i, {}, j, {})
  {
    hide Reflete, Mene, ListeFidele;
    forall w | Reflete(w, a, i)
      ensures Mene(w, a, j, {})
    {
      ListeDans(w, a, i, j);
    }
  }

  lemma SimuleListee(a: Prive, i: Instant, j: Instant, liste: seq<Config>)
    requires j.tirages == i.tirages && j.journal == i.journal
    requires forall k <- j.pairs :: j.pairs[k] == Regler(Numeroter(Garde(i.pairs, k), liste, k), liste, k)
    ensures Simule(a, i, {}, j, {})
  {
    hide Simule, Regler, Numeroter;
    assert NOUVEAU.Vue() == VIERGE;
    SimuleListe(a, i, j);
  }

  // ----- what is handed to the interface ----------------------------------------------------

  /** The last thing opened: this plaintext, from this peer. */
  ghost predicate Ouvert(journal: set<Acte>, recues: seq<Reception>, k: Terme, clair: Terme) {
    recues != [] && Recue(k, Identite(recues[|recues| - 1].s), recues[|recues| - 1].n, clair) in journal
  }

  /** What is handed over, if anything, is the packet that was opened last. */
  ghost predicate Livree(journal: set<Acte>, recues: seq<Reception>, remis: Option<(Terme, seq<nat>)>) {
    remis.Some? ==> exists z: nat :: Ouvert(journal, recues, remis.valeur.0, Paquet(Octets(remis.valeur.1), z))
  }

  lemma LivreeEncore(journal: set<Acte>, journal': set<Acte>, recues: seq<Reception>, remis: Option<(Terme, seq<nat>)>)
    requires Livree(journal, recues, remis) && journal <= journal'
    ensures Livree(journal', recues, remis)
  {
  }

  lemma PasDeRemise(journal: set<Acte>, recues: seq<Reception>)
    ensures Livree(journal, recues, None)
  {
  }

  lemma Remise(journal: set<Acte>, recues: seq<Reception>, k: Terme, octets: seq<nat>, clair: Terme)
    requires clair.Paquet? && clair == Paquet(Octets(octets), clair.zeros) && Ouvert(journal, recues, k, clair)
    ensures Livree(journal, recues, Some((k, octets)))
  {
  }

  lemma LireFidele(clair: Terme)
    ensures Lire(clair).EnPaquet? ==> clair.Paquet? && clair == Paquet(Octets(Lire(clair).o), clair.zeros)
    ensures Lire(clair).EnTrame? ==>
              && clair.Paquet? && clair.contenu == Trame(Lire(clair).numero, Lire(clair).msg)
              && TermesClair(clair) == TermesMessage(Lire(clair).msg)
  {
  }

  /** What an event brings from the network. */
  function TermesEvenement(e: Evenement): set<Terme> {
    if e.Arrive? then TermesMessage(e.msg) else {}
  }

  // ----- any number of engines, and the adversary ---------------------------------------------

  /** An engine goes from a moment to another, or the adversary computes something. */
  datatype Pas =
    | Agit(a: Prive, avant: Instant, entrants: set<Terme>, apres: Instant, sortants: set<Terme>)
    | Intrigue(t: Terme)

  /** Everything the adversary has seen or computed. */
  ghost function Vus(ps: seq<Pas>): set<Terme> {
    if ps == [] then {}
    else
      Vus(ps[..|ps| - 1]) +
        match ps[|ps| - 1]
        case Agit(_, _, _, _, sortants) => sortants
        case Intrigue(t) => {t}
  }

  /** Where the engine of this key is. */
  ghost function Ou(ps: seq<Pas>, a: Prive): Instant {
    if ps == [] then NAISSANCE
    else
      var x := ps[|ps| - 1];
      if x.Agit? && x.a == a then x.apres else Ou(ps[..|ps| - 1], a)
  }

  /** The engine goes on from where it was, or starts; it is given only what the adversary
      has, and what it does is what an engine does. */
  ghost predicate Permis(honnetes: set<Prive>, ps: seq<Pas>, x: Pas) {
    match x
    case Intrigue(t) => A.Deductible(honnetes, Vus(ps), t)
    case Agit(a, avant, entrants, apres, sortants) =>
      && A.Honnete(honnetes, a) && entrants <= Vus(ps) && Simule(a, avant, entrants, apres, sortants)
      && avant == if Ou(ps, a) == NAISSANCE then Instant(map[], avant.tirages, {}) else Ou(ps, a)
  }

  ghost predicate Histoire(honnetes: set<Prive>, ps: seq<Pas>) {
    ps == [] || (Histoire(honnetes, ps[..|ps| - 1]) && Permis(honnetes, ps[..|ps| - 1], ps[|ps| - 1]))
  }

  /** The steps of one engine from a moment to another, each going on from the one before. */
  ghost predicate Vie(a: Prive, i: Instant, ps: seq<Pas>, j: Instant) {
    if ps == [] then i == j
    else
      var x := ps[|ps| - 1];
      && x.Agit? && x.a == a && x.apres == j
      && Simule(a, x.avant, x.entrants, x.apres, x.sortants) && Vie(a, i, ps[..|ps| - 1], x.avant)
  }

  lemma VieVide(a: Prive, i: Instant)
    ensures Vie(a, i, [], i)
  {
  }

  lemma VieEncore(a: Prive, i: Instant, ps: seq<Pas>, j: Instant, entrants: set<Terme>, k: Instant,
                  sortants: set<Terme>)
    requires Vie(a, i, ps, j) && Simule(a, j, entrants, k, sortants)
    ensures Vie(a, i, ps + [Agit(a, j, entrants, k, sortants)], k)
  {
    hide Simule;
    assert (ps + [Agit(a, j, entrants, k, sortants)])[..|ps|] == ps;
  }

  /** The steps of one engine among those of all. */
  ghost function Siens(ps: seq<Pas>, a: Prive): seq<Pas> {
    if ps == [] then []
    else
      var debut, x := Siens(ps[..|ps| - 1], a), ps[|ps| - 1];
      if x.Agit? && x.a == a then debut + [x] else debut
  }

  /** Where steps that are all of one engine lead it. */
  ghost function Fin(i: Instant, xs: seq<Pas>): Instant {
    if xs == [] || !xs[|xs| - 1].Agit? then i else xs[|xs| - 1].apres
  }

  /** An engine that starts with no pair, whatever keys it drew before. */
  ghost function Depart(tirages: nat): Instant {
    Instant(map[], tirages, {})
  }

  /** The adversary computes only from what was seen, and an honest engine is given nothing else. */
  ghost predicate Nourri(honnetes: set<Prive>, ps: seq<Pas>, n: nat)
    requires n < |ps|
  {
    match ps[n]
    case Intrigue(t) => A.Deductible(honnetes, Vus(ps[..n]), t)
    case Agit(a, _, entrants, _, _) => A.Honnete(honnetes, a) && entrants <= Vus(ps[..n])
  }

  lemma {:induction false} OuSiens(ps: seq<Pas>, a: Prive)
    ensures Ou(ps, a) == Fin(NAISSANCE, Siens(ps, a))
    ensures forall x <- Siens(ps, a) :: x.Agit? && x.a == a
  {
    if ps != [] {
      OuSiens(ps[..|ps| - 1], a);
    }
  }

  /** Any number of engines, each living its own life, and the adversary, interleaved in any
      order: as long as nobody is given what was not seen, it is a history. */
  lemma {:induction false} VieHistoire(honnetes: set<Prive>, ps: seq<Pas>, tirages: Prive -> nat)
    requires forall n: nat | n < |ps| :: Nourri(honnetes, ps, n)
    requires forall a | A.Honnete(honnetes, a) :: Vie(a, Depart(tirages(a)), Siens(ps, a),
              Fin(Depart(tirages(a)), Siens(ps, a)))
    ensures Histoire(honnetes, ps)
  {
    hide Simule, A.Deductible, Vus;
    if ps != [] {
      var n := |ps| - 1;
      var qs, x := ps[..n], ps[n];
      forall m: nat | m < n
        ensures Nourri(honnetes, qs, m)
      {
        assert Nourri(honnetes, ps, m) && qs[..m] == ps[..m];
      }
      forall a | A.Honnete(honnetes, a)
        ensures Vie(a, Depart(tirages(a)), Siens(qs, a), Fin(Depart(tirages(a)), Siens(qs, a)))
      {
        ViePrefixe(ps, a, Depart(tirages(a)));
      }
      VieHistoire(honnetes, qs, tirages);
      assert Nourri(honnetes, ps, n);
      if x.Agit? {
        ViePrefixe(ps, x.a, Depart(tirages(x.a)));
        OuSiens(qs, x.a);
      }
    }
  }

  /** What one more step leaves of a life. */
  lemma ViePrefixe(ps: seq<Pas>, a: Prive, i: Instant)
    requires ps != [] && Vie(a, i, Siens(ps, a), Fin(i, Siens(ps, a)))
    ensures var qs, x := ps[..|ps| - 1], ps[|ps| - 1];
            && Vie(a, i, Siens(qs, a), Fin(i, Siens(qs, a)))
            && (x.Agit? && x.a == a ==>
               Simule(a, x.avant, x.entrants, x.apres, x.sortants) && x.avant == Fin(i, Siens(qs, a)))
  {
    hide Simule;
    var qs, x := ps[..|ps| - 1], ps[|ps| - 1];
    if x.Agit? && x.a == a {
      assert Siens(ps, a)[..|Siens(ps, a)| - 1] == Siens(qs, a);
      VieFin(a, i, Siens(qs, a), x.avant);
    }
  }

  lemma VieFin(a: Prive, i: Instant, xs: seq<Pas>, j: Instant)
    requires Vie(a, i, xs, j)
    ensures j == Fin(i, xs)
  {
  }

  lemma AutreIntact(w: A.Monde, x: A.Etape, b: Prive, i: Instant)
    requires Reflete(w, b, i) && A.Acteur(x) != Some(b)
    ensures Reflete(A.Faire(w, x), b, i)
  {
    hide A.Inv, A.Faire, A.Acteur;
    var w' := A.Faire(w, x);
    A.EtapeGarde(w, x);
    A.PasDUnSeul(w, x);
    forall k | k in i.pairs
      ensures PaireReflete(w', b, k, i.pairs[k])
    {
      assert PaireReflete(w, b, k, i.pairs[k]);
      ConnusEncore(i.pairs[k].attente, w.connus, w'.connus);
    }
    forall f | f in w'.faits
      ensures FaitNote(f, b, i.journal)
    {
      assert f in w.faits ==> FaitNote(f, b, i.journal);
    }
    forall y | y in i.journal
      ensures ActeVrai(w'.faits, b, y)
    {
      assert ActeVrai(w.faits, b, y);
    }
  }

  lemma {:induction false} AutresIntacts(w: A.Monde, xs: seq<A.Etape>, a: Prive, b: Prive, i: Instant)
    requires Reflete(w, b, i) && DeA(xs, a) && a != b
    ensures Reflete(A.Suivre(w, xs), b, i)
  {
    hide Reflete, A.Faire, A.Acteur;
    if xs != [] {
      AutresIntacts(w, xs[..|xs| - 1], a, b, i);
      AutreIntact(A.Suivre(w, xs[..|xs| - 1]), xs[|xs| - 1], b, i);
    }
  }

  lemma DeductibleEncore(honnetes: set<Prive>, connus: set<Terme>, connus': set<Terme>, t: Terme)
    requires A.Deductible(honnetes, connus, t) && connus <= connus'
    ensures A.Deductible(honnetes, connus', t)
  {
  }

  /** A world in which every engine is reflected, and that the adversary has seen. */
  ghost predicate Temoin(w: A.Monde, honnetes: set<Prive>, ps: seq<Pas>) {
    && A.Inv(w) && w.honnetes == honnetes && Vus(ps) <= w.connus
    && forall a | A.Honnete(honnetes, a) :: Reflete(w, a, Ou(ps, a))
  }

  lemma Debut(honnetes: set<Prive>)
    ensures Temoin(A.Executer(honnetes, []), honnetes, [])
  {
  }

  lemma Naissance(w: A.Monde, a: Prive, tirages: nat)
    requires Reflete(w, a, NAISSANCE)
    ensures Reflete(w, a, Instant(map[], tirages, {}))
  {
    hide A.Inv;
  }

  lemma UnePersonne(w: A.Monde, honnetes: set<Prive>, ps: seq<Pas>, x: Pas) returns (w': A.Monde)
    requires Temoin(w, honnetes, ps) && Permis(honnetes, ps, x) && x.Agit?
    ensures Temoin(w', honnetes, ps + [x])
  {
    hide A.Inv, Reflete, A.Faire;
    assert (ps + [x])[..|ps|] == ps;
    var a := x.a;
    if Ou(ps, a) == NAISSANCE {
      Naissance(w, a, x.avant.tirages);
    }
    assert Mene(w, a, x.apres, x.sortants);
    var xs :| DeA(xs, a) && Reflete(A.Suivre(w, xs), a, x.apres) && x.sortants <= A.Suivre(w, xs).connus;
    w' := A.Suivre(w, xs);
    SuivreGarde(w, xs);
    forall b | A.Honnete(honnetes, b)
      ensures Reflete(w', b, Ou(ps + [x], b))
    {
      if b != a {
        AutresIntacts(w, xs, a, b, Ou(ps, b));
      }
    }
  }

  lemma UneIntrigue(w: A.Monde, honnetes: set<Prive>, ps: seq<Pas>, x: Pas) returns (w': A.Monde)
    requires Temoin(w, honnetes, ps) && Permis(honnetes, ps, x) && x.Intrigue?
    ensures Temoin(w', honnetes, ps + [x])
  {
    hide A.Inv, Reflete, A.Deductible;
    assert (ps + [x])[..|ps|] == ps;
    var e := A.Deduire(x.t);
    w' := A.Faire(w, e);
    DeductibleEncore(honnetes, Vus(ps), w.connus, x.t);
    A.EtapeGarde(w, e);
    forall b | A.Honnete(honnetes, b)
      ensures Reflete(w', b, Ou(ps + [x], b))
    {
      AutreIntact(w, e, b, Ou(ps, b));
    }
  }

  /** Whatever engines and adversary do together, one world follows it all. */
  lemma {:induction false} MondeDe(honnetes: set<Prive>, ps: seq<Pas>) returns (w: A.Monde)
    requires Histoire(honnetes, ps)
    ensures Temoin(w, honnetes, ps)
  {
    hide Temoin, Permis;
    if ps == [] {
      w := A.Executer(honnetes, []);
      Debut(honnetes);
    } else {
      var avant, x := ps[..|ps| - 1], ps[|ps| - 1];
      var v := MondeDe(honnetes, avant);
      assert ps == avant + [x];
      if x.Agit? {
        w := UnePersonne(v, honnetes, avant, x);
      } else {
        w := UneIntrigue(v, honnetes, avant, x);
      }
    }
  }

  /** The session an engine uses with a peer, as its device holds it. */
  lemma SessionTenue(w: A.Monde, a: Prive, b: Prive, i: Instant, s: Session)
    requires Reflete(w, a, i) && Publique(b) in i.pairs && i.pairs[Publique(b)].Loge(s)
    ensures A.SessionDe(w.faits, a, b, Identite(s))
    ensures i.pairs[Publique(b)].courante == s ==> A.EnService(w.faits, a, b, Identite(s))
  {
    hide A.SessionDe, A.FaitJuste, A.Bon, A.Ouvert, A.Attend;
    var p := i.pairs[Publique(b)];
    assert PaireReflete(w, a, Publique(b), p);
    assert A.PaireJuste(w.honnetes, w.faits, a, b, w.paires[(a, b)]);
    assert Some(Identite(s)) in {p.Vue().courante, p.Vue().suivante, p.Vue().precedente};
  }

  /** Agreement of engines. Whatever any number of engines do over a network that the
      adversary owns, a session that one uses with another was opened by that other too, for
      it, with the same two keys swapped, in the opposite role. */
  lemma AccordDesMoteurs(honnetes: set<Prive>, ps: seq<Pas>, a: Prive, b: Prive)
    requires Histoire(honnetes, ps) && A.Honnete(honnetes, a) && A.Honnete(honnetes, b) && a != b
    requires Publique(b) in Ou(ps, a).pairs && Ou(ps, a).pairs[Publique(b)].courante != null
    ensures var f := Identite(Ou(ps, a).pairs[Publique(b)].courante);
            exists f' :: Ouverture(Publique(a), f') in Ou(ps, b).journal && f'.cles == Croisees(f.cles)
                && f'.initiateur == !f.initiateur
  {
    hide Histoire, Ou, A.SessionDe, A.EnService;
    var w := MondeDe(honnetes, ps);
    var i, j := Ou(ps, a), Ou(ps, b);
    var s := i.pairs[Publique(b)].courante;
    assert Reflete(w, a, i) && Reflete(w, b, j);
    SessionTenue(w, a, b, i, s);
    BoutAutre(w, a, b, Identite(s), j);
  }

  lemma BoutAutre(w: A.Monde, a: Prive, b: Prive, f: Fiche, j: Instant)
    requires A.EnService(w.faits, a, b, f) && Reflete(w, b, j) && a != b
    ensures exists f' :: Ouverture(Publique(a), f') in j.journal && f'.cles == Croisees(f.cles)
              && f'.initiateur == !f.initiateur
  {
    hide A.Bon, A.Ouvert, A.PaireJuste, A.SessionDe, P.ClesRepondeur, PaireReflete;
    if f.initiateur {
      A.AccordInitiateur(w, a, b, f);
      var re, e, t, f' :| A.Repondu(b, a, re, e, t, f') in w.faits && f'.cles == Croisees(f.cles);
      var g := A.Repondu(b, a, re, e, t, f');
      assert FaitNote(g, b, j.journal) && A.FaitJuste(w, g);
    } else {
      A.AccordRepondeur(w, a, b, f);
      var e, re, c, t, f' :| A.Conclu(b, a, e, re, c, f') in w.faits && A.Initie(b, a, e, t) in w.faits
          && f'.cles == Croisees(f.cles);
      var g := A.Conclu(b, a, e, re, c, f');
      assert FaitNote(g, b, j.journal) && A.FaitJuste(w, g);
    }
  }

  /** Authenticity of engines. Whatever an engine opened from another, that other sealed for
      it, under this counter, with these keys. */
  lemma AuthenticiteDesMoteurs(honnetes: set<Prive>, ps: seq<Pas>, a: Prive, b: Prive, f: Fiche, n: nat, clair: Terme)
    requires Histoire(honnetes, ps) && A.Honnete(honnetes, a) && A.Honnete(honnetes, b) && a != b
    requires Recue(Publique(b), f, n, clair) in Ou(ps, a).journal
    ensures exists f', c ::
              && Envoyee(Publique(a), f', n, c) in Ou(ps, b).journal && f'.cles == Croisees(f.cles)
              && clair == Paquet(c, Remplissage(TailleContenu(c)))
  {
    hide Histoire, Ou, A.SessionDe;
    var w := MondeDe(honnetes, ps);
    var i, j := Ou(ps, a), Ou(ps, b);
    assert Reflete(w, a, i) && Reflete(w, b, j);
    assert ActeVrai(w.faits, a, Recue(Publique(b), f, n, clair));
    OrigineAutre(w, a, b, f, n, clair, j);
  }

  lemma OrigineAutre(w: A.Monde, a: Prive, b: Prive, f: Fiche, n: nat, clair: Terme, j: Instant)
    requires Reflete(w, b, j) && a != b && exists promue :: A.Recu(a, b, f, n, clair, promue) in w.faits
    ensures exists f', c ::
              && Envoyee(Publique(a), f', n, c) in j.journal && f'.cles == Croisees(f.cles)
              && clair == Paquet(c, Remplissage(TailleContenu(c)))
  {
    hide A.Bon, A.Ouvert, A.PaireJuste, A.SessionDe, PaireReflete, TailleContenu;
    var promue :| A.Recu(a, b, f, n, clair, promue) in w.faits;
    assert A.FaitJuste(w, A.Recu(a, b, f, n, clair, promue));
    var f', c :| A.Envoye(b, a, f', n, c) in w.faits && f'.cles == Croisees(f.cles)
                 && clair == MessageDonnees(0, f'.cles.envoi, n, c).corps.clair;
    assert FaitNote(A.Envoye(b, a, f', n, c), b, j.journal);
  }

  /** Secrecy of engines. The keys of a session an engine holds with another are never known. */
  lemma ClesDesMoteurs(honnetes: set<Prive>, ps: seq<Pas>, a: Prive, b: Prive, s: Session)
    requires Histoire(honnetes, ps) && A.Honnete(honnetes, a) && A.Honnete(honnetes, b)
    requires Publique(b) in Ou(ps, a).pairs && Ou(ps, a).pairs[Publique(b)].Loge(s)
    ensures s.envoi !in Vus(ps) && s.reception !in Vus(ps)
  {
    hide Histoire, Ou, Vus, A.SessionDe, A.EnService, A.Inv;
    var w := MondeDe(honnetes, ps);
    SessionTenue(w, a, b, Ou(ps, a), s);
    A.ClesInconnues(w, a, b, Identite(s));
  }
}

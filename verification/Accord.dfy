/** Any number of honest devices over a network that the adversary owns: it reads,
    drops, replays and forges everything, holds its own keys and those of the
    dishonest devices, and computes with what it knows. Whenever an honest device
    believes a session with another one, that other one holds the same keys. */
module Accord {
  import opened Termes
  import opened Noise
  import opened Session
  import opened Etats
  import opened Poignee

  /** What honest devices did. In all four, `a` did it, with or for `b`. */
  datatype Fait =
    | Initie(a: Prive, b: Prive, e: Prive, t: nat)
    | Repondu(a: Prive, b: Prive, re: Prive, e: Prive, t: nat, fiche: Fiche)
    | Conclu(a: Prive, b: Prive, e: Prive, re: Prive, charge: Terme, fiche: Fiche)
    | Envoye(a: Prive, b: Prive, fiche: Fiche, n: nat, clair: Contenu)
    | Recu(a: Prive, b: Prive, fiche: Fiche, n: nat, ouvert: Terme, promue: bool)

  /** `honnetes` never leak their keys; `paires[(a, b)]` is what a holds about b;
      `connus` is what the adversary knows, `tires` the ephemeral keys drawn so far. A
      device is named by its private key; those that are not honest are the adversary's. */
  datatype Monde = Monde(
    honnetes: set<Prive>,
    connus: set<Terme>,
    paires: map<(Prive, Prive), VuePair>,
    tires: set<Prive>,
    faits: set<Fait>)

  datatype Place = Courante | Suivante | Precedente

  datatype Etape =
    | Deduire(t: Terme)
    | Lister(a: Prive, b: Prive)
    | Lancer(a: Prive, b: Prive, quand: nat, indice: nat, neuf: Prive)
    | LireInitiation(a: Prive, m1: Corps1, locale: nat, envoyeur: nat, maintenant: int, neuf: Prive)
    | LireReponse(a: Prive, b: Prive, m2: Corps2, envoyeur: nat, maintenant: int)
    | Sceller(a: Prive, b: Prive, n: nat, clair: Contenu)
    | Ouvre(a: Prive, b: Prive, place: Place, n: nat, corps: Terme)
    | Expirer(a: Prive, b: Prive, maintenant: int, duree: int)

  /** The device that takes a step, unless it is the adversary. */
  function Acteur(x: Etape): Option<Prive> {
    match x
    case Deduire(_) => None
    case Lister(a, _) => Some(a)
    case Lancer(a, _, _, _, _) => Some(a)
    case LireInitiation(a, _, _, _, _, _) => Some(a)
    case LireReponse(a, _, _, _, _) => Some(a)
    case Sceller(a, _, _, _) => Some(a)
    case Ouvre(a, _, _, _, _) => Some(a)
    case Expirer(a, _, _, _) => Some(a)
  }

  // ----- the adversary ---------------------------------------------------------------

  predicate Honnete(honnetes: set<Prive>, p: Prive) {
    p.Statique? && p in honnetes
  }

  predicate Compromis(honnetes: set<Prive>, p: Prive) {
    p.Statique? && p !in honnetes
  }

  /** A key this device has not drawn yet. */
  predicate Neuf(w: Monde, a: Prive, neuf: Prive) {
    neuf.Ephemere? && neuf.de == a && neuf !in w.tires
  }

  /** What the adversary can compute next from what it knows. */
  ghost predicate Deductible(honnetes: set<Prive>, connus: set<Terme>, t: Terme) {
    || (exists u <- connus :: u.Scelle? && u.cle in connus && u.clair == t)
    || match t
       case Texte(_) | Date(_) | Publique(_) => true
       case Secret(bouts) => exists p <- bouts :: Compromis(honnetes, p)
       case Condense(d) => d in connus
       case Hachage(h, d) => h in connus && d in connus
       case HkdfUn(ck, ikm) => ck in connus && ikm in connus
       case HkdfDeux(ck, ikm) => ck in connus && ikm in connus
       case Paquet(c, _) => TermesContenu(c) <= connus
       case Scelle(k, _, c, ad) => k in connus && c in connus && ad in connus
  }

  // ----- one step --------------------------------------------------------------------

  function En(v: VuePair, place: Place): Option<Fiche> {
    match place
    case Courante => v.courante
    case Suivante => v.suivante
    case Precedente => v.precedente
  }

  ghost function Faire(w: Monde, x: Etape): Monde {
    match x
    case Deduire(t) =>
      if Deductible(w.honnetes, w.connus, t) then w.(connus := w.connus + {t}) else w
    case Lister(a, b) =>
      // a pair joins or leaves the list, with nothing kept
      if Honnete(w.honnetes, a) then w.(paires := w.paires[(a, b) := VIERGE]) else w
    case Lancer(a, b, t, indice, neuf) => ApresLancer(w, a, b, t, indice, neuf)
    case LireInitiation(a, m, locale, envoyeur, maintenant, neuf) =>
      if !Honnete(w.honnetes, a) || !(Corps1Termes(m) <= w.connus) || !Neuf(w, a, neuf) then w
      else
        (match Repondre(a, m, neuf)
         case None => w
         case Some(lu) => ApresLireInitiation(w, a, m, lu, locale, envoyeur, maintenant, neuf))
    case LireReponse(a, b, m, envoyeur, maintenant) =>
      if (a, b) !in w.paires || w.paires[(a, b)].poignee.None? || !(Corps2Termes(m) <= w.connus) then w
      else
        (match Lecture2(w.paires[(a, b)].poignee.valeur, m).1
         case None => w
         case Some(lu) => ApresLireReponse(w, a, b, m, lu, envoyeur, maintenant))
    case Sceller(a, b, n, clair) =>
      if (a, b) !in w.paires || w.paires[(a, b)].courante.None? || !(TermesContenu(clair) <= w.connus) then w
      else
        var f := w.paires[(a, b)].courante.valeur;
        w.(connus := w.connus + {MessageDonnees(f.distante, f.cles.envoi, n, clair).corps},
           faits := w.faits + {Envoye(a, b, f, n, clair)})
    case Ouvre(a, b, place, n, corps) =>
      if (a, b) !in w.paires || En(w.paires[(a, b)], place).None? || corps !in w.connus then w
      else
        var v := w.paires[(a, b)];
        var f := En(v, place).valeur;
        (match Ouvrir(f.cles.reception, n, corps, VIDE)
         case None => w
         case Some(clair) =>
           w.(paires := w.paires[(a, b) := if place.Suivante? then ApresPromotion(v) else v],
              faits := w.faits + {Recu(a, b, f, n, clair, place.Suivante?)}))
    case Expirer(a, b, maintenant, duree) =>
      if (a, b) !in w.paires then w
      else w.(paires := w.paires[(a, b) := ApresExpiration(w.paires[(a, b)], maintenant, duree)])
  }

  ghost function ApresLancer(w: Monde, a: Prive, b: Prive, t: nat, indice: nat, neuf: Prive): Monde {
    if (a, b) !in w.paires || !Neuf(w, a, neuf) then w
    else
      var (ini, m) := Ecriture1(NouvelIni(a, Publique(b), PROLOGUE), neuf, Date(t));
      match m
      case None => w
      case Some(corps) =>
        w.(connus := w.connus + Corps1Termes(corps), tires := w.tires + {neuf},
           paires := w.paires[(a, b) := ApresLancement(w.paires[(a, b)], ini, indice)],
           faits := w.faits + {Initie(a, b, neuf, t)})
  }

  ghost function ApresLireInitiation(w: Monde, a: Prive, m: Corps1, lu: Lu1, locale: nat, envoyeur: nat,
                                     maintenant: int, neuf: Prive): Monde {
    if lu.publique.Publique? && (a, lu.publique.p) in w.paires
       && PlusRecente(w.paires[(a, lu.publique.p)], lu.horodatage) && m.Corps1? && m.e.Publique?
    then
      var b := lu.publique.p;
      var f := Fiche(locale, envoyeur, lu.cles, false, maintenant);
      w.(connus := w.connus + Corps2Termes(lu.reponse), tires := w.tires + {neuf},
         paires := w.paires[(a, b) := ApresInitiation(w.paires[(a, b)], f, lu.horodatage)],
         faits := w.faits + {Repondu(a, b, m.e.p, neuf, lu.horodatage, f)})
    else w
  }

  ghost function ApresLireReponse(w: Monde, a: Prive, b: Prive, m: Corps2, lu: (Terme, Cles), envoyeur: nat,
                                  maintenant: int): Monde
    requires (a, b) in w.paires
  {
    var v := w.paires[(a, b)];
    var f := Fiche(v.indicePoignee, envoyeur, lu.1, true, maintenant);
    if v.poignee.Some? && v.poignee.valeur.e.Some? && m.Corps2? && m.e.Publique?
    then w.(paires := w.paires[(a, b) := ApresReponse(v, f)],
            faits := w.faits + {Conclu(a, b, v.poignee.valeur.e.valeur, m.e.p, lu.0, f)})
    else w
  }

  /** A step changes nothing but what its device holds, draws and does. */
  lemma PasDUnSeul(w: Monde, x: Etape)
    ensures var w' := Faire(w, x);
            && w'.honnetes == w.honnetes
            && (forall k: (Prive, Prive) | Acteur(x) != Some(k.0) ::
               (k in w'.paires <==> k in w.paires) && (k in w.paires ==> w'.paires[k] == w.paires[k]))
            && (forall e <- w'.tires | e !in w.tires :: e.Ephemere? && Acteur(x) == Some(e.de))
            && (forall f <- w'.faits | f !in w.faits :: Acteur(x) == Some(f.a))
  {
    hide Repondre, Lecture2, Ecriture1, Deductible, MessageDonnees;
  }

  ghost function Executer(honnetes: set<Prive>, xs: seq<Etape>): Monde {
    if xs == [] then Monde(honnetes, {}, map[], {}, {})
    else Faire(Executer(honnetes, xs[..|xs| - 1]), xs[|xs| - 1])
  }

  // ----- what stays secret -------------------------------------------------------------

  ghost predicate Protege(honnetes: set<Prive>, t: Terme) {
    match t
    case Secret(bouts) => forall p <- bouts :: !Compromis(honnetes, p)
    case HkdfUn(ck, ikm) => Protege(honnetes, ck) || Protege(honnetes, ikm)
    case HkdfDeux(ck, ikm) => Protege(honnetes, ck) || Protege(honnetes, ikm)
    case _ => false
  }

  /** The honest act that sealed this term. */
  ghost predicate Produit(f: Fait, t: Terme) {
    match f
    case Initie(a, b, e, quand) =>
      var m := ApresMessage1(a, b, e, PROLOGUE, Date(quand)).1;
      t == m.s || t == m.charge
    case Repondu(a, b, re, e, quand, _) =>
      t == MessageDe(b, a, re, e, quand).charge
    case Envoye(a, b, fiche, n, clair) =>
      t == MessageDonnees(fiche.distante, fiche.cles.envoi, n, clair).corps
    case _ => false
  }

  /** The answer of r to the initiation that s wrote with ephemeral key re. */
  ghost function MessageDe(s: Prive, r: Prive, re: Prive, e: Prive, quand: nat): Corps2 {
    ApresMessage2(ApresMessage1(s, r, re, PROLOGUE, Date(quand)).0, s, re, e, VIDE).1
  }

  /** Safe to know: not a secret, and nothing sealed that an honest device did not
      seal, unless the adversary could open it. */
  ghost predicate Bon(honnetes: set<Prive>, faits: set<Fait>, t: Terme) {
    match t
    case Scelle(k, _, c, _) =>
      if Protege(honnetes, k) then exists f <- faits :: Produit(f, t) else Bon(honnetes, faits, c)
    case _ => !Protege(honnetes, t)
  }

  /** Whatever is sealed in it is known too, unless an honest device sealed it. */
  ghost predicate Ouvert(connus: set<Terme>, faits: set<Fait>, t: Terme) {
    match t
    case Scelle(_, _, c, _) => c in connus || exists f <- faits :: Produit(f, t)
    case Paquet(c, _) => TermesContenu(c) <= connus
    case _ => true
  }

  // ----- the invariant -----------------------------------------------------------------

  ghost predicate SessionDe(faits: set<Fait>, a: Prive, b: Prive, f: Fiche) {
    if f.initiateur then exists e, re, c :: Conclu(a, b, e, re, c, f) in faits
    else exists re, e, t :: Repondu(a, b, re, e, t, f) in faits
  }

  /** A session in use: a responder's was promoted by a first message. */
  ghost predicate EnService(faits: set<Fait>, a: Prive, b: Prive, f: Fiche) {
    SessionDe(faits, a, b, f) && (f.initiateur || exists n, c :: Recu(a, b, f, n, c, true) in faits)
  }

  ghost predicate PaireJuste(honnetes: set<Prive>, faits: set<Fait>, a: Prive, b: Prive, v: VuePair) {
    && Honnete(honnetes, a)
    && (v.courante.Some? ==> EnService(faits, a, b, v.courante.valeur))
    && (v.precedente.Some? ==> EnService(faits, a, b, v.precedente.valeur))
    && (v.suivante.Some? ==> !v.suivante.valeur.initiateur && SessionDe(faits, a, b, v.suivante.valeur))
    && (v.poignee.Some? ==> exists e, t :: Initie(a, b, e, t) in faits && Attend(v.poignee.valeur, a, b, e, t))
  }

  ghost predicate Attend(ini: Ini, a: Prive, b: Prive, e: Prive, t: nat) {
    EnAttente(ini, a, b, e, PROLOGUE, Date(t))
  }

  /** A key that this device drew for a handshake. */
  ghost predicate Tiree(w: Monde, a: Prive, e: Prive) {
    e.Ephemere? && e.de == a && e in w.tires
  }

  ghost predicate ReponduJuste(w: Monde, a: Prive, b: Prive, re: Prive, e: Prive, t: nat, f: Fiche) {
    && Honnete(w.honnetes, a) && Tiree(w, a, e) && !f.initiateur
    && f.cles == ClesRepondeur(b, a, re, e, PROLOGUE, Date(t), VIDE)
    && (Honnete(w.honnetes, b) ==> Initie(b, a, re, t) in w.faits)
  }

  ghost predicate ConcluJuste(w: Monde, a: Prive, b: Prive, e: Prive, re: Prive, c: Terme, f: Fiche) {
    && Honnete(w.honnetes, a) && f.initiateur
    && exists t ::
         && Initie(a, b, e, t) in w.faits
         && f.cles == Croisees(ClesRepondeur(a, b, e, re, PROLOGUE, Date(t), c))
         && (Honnete(w.honnetes, b) ==>
               && c == VIDE
               && exists f' :: Repondu(b, a, e, re, t, f') in w.faits && f'.cles == Croisees(f.cles))
  }

  /** The other side sealed this very plaintext under this very counter, for us. */
  ghost predicate Origine(faits: set<Fait>, a: Prive, b: Prive, f: Fiche, n: nat, clair: Terme) {
    exists f', c :: && Envoye(b, a, f', n, c) in faits && f'.cles == Croisees(f.cles)
                    && clair == MessageDonnees(0, f'.cles.envoi, n, c).corps.clair
  }

  ghost predicate FaitJuste(w: Monde, f: Fait) {
    match f
    case Initie(a, b, e, t) => Honnete(w.honnetes, a) && Tiree(w, a, e)
    case Repondu(a, b, re, e, t, fiche) => ReponduJuste(w, a, b, re, e, t, fiche)
    case Conclu(a, b, e, re, c, fiche) => ConcluJuste(w, a, b, e, re, c, fiche)
    case Envoye(a, b, fiche, n, clair) => SessionDe(w.faits, a, b, fiche) && TermesContenu(clair) <= w.connus
    case Recu(a, b, fiche, n, clair, promue) =>
      && SessionDe(w.faits, a, b, fiche) && (promue ==> !fiche.initiateur)
      && (Honnete(w.honnetes, b) && a != b ==> Origine(w.faits, a, b, fiche, n, clair))
  }

  /** The ephemeral key an act drew. */
  function Tirage(f: Fait): Option<Prive> {
    match f
    case Initie(_, _, e, _) => Some(e)
    case Repondu(_, _, _, e, _, _) => Some(e)
    case _ => None
  }

  ghost predicate Inv(w: Monde) {
    && (forall t <- w.connus :: Bon(w.honnetes, w.faits, t) && Ouvert(w.connus, w.faits, t))
    && (forall k <- w.paires :: PaireJuste(w.honnetes, w.faits, k.0, k.1, w.paires[k]))
    && (forall f <- w.faits :: FaitJuste(w, f))
    && (forall f, g | f in w.faits && g in w.faits && Tirage(f).Some? && Tirage(f) == Tirage(g) :: f == g)
  }

  // ----- growth ------------------------------------------------------------------------

  ghost predicate Suite(w: Monde, w': Monde) {
    w.honnetes == w'.honnetes && w.faits <= w'.faits && w.tires <= w'.tires && w.connus <= w'.connus
  }

  lemma BonReste(w: Monde, w': Monde, t: Terme)
    requires Suite(w, w') && Bon(w.honnetes, w.faits, t)
    ensures Bon(w'.honnetes, w'.faits, t)
  {
  }

  lemma OuvertReste(w: Monde, w': Monde, t: Terme)
    requires Suite(w, w') && Ouvert(w.connus, w.faits, t)
    ensures Ouvert(w'.connus, w'.faits, t)
  {
  }

  lemma PaireReste(w: Monde, w': Monde, a: Prive, b: Prive, v: VuePair)
    requires Suite(w, w') && PaireJuste(w.honnetes, w.faits, a, b, v)
    ensures PaireJuste(w'.honnetes, w'.faits, a, b, v)
  {
  }

  lemma FaitReste(w: Monde, w': Monde, f: Fait)
    requires Suite(w, w') && FaitJuste(w, f)
    ensures FaitJuste(w', f)
  {
  }

  /** To keep the invariant, look only at what is new. */
  lemma InvReste(w: Monde, w': Monde)
    requires Inv(w) && Suite(w, w')
    requires forall t <- w'.connus | t !in w.connus :: Bon(w'.honnetes, w'.faits, t) && Ouvert(w'.connus, w'.faits, t)
    requires forall k <- w'.paires | k !in w.paires || w'.paires[k] != w.paires[k] ::
               PaireJuste(w'.honnetes, w'.faits, k.0, k.1, w'.paires[k])
    requires forall f <- w'.faits | f !in w.faits :: FaitJuste(w', f)
    requires forall f <- w'.faits | f !in w.faits && Tirage(f).Some? :: Tirage(f).valeur !in w.tires
    requires forall f, g | f in w'.faits && g in w'.faits && f !in w.faits && g !in w.faits :: f == g
    ensures Inv(w')
  {
    forall t | t in w'.connus ensures Bon(w'.honnetes, w'.faits, t) && Ouvert(w'.connus, w'.faits, t) {
      if t in w.connus { BonReste(w, w', t); OuvertReste(w, w', t); }
    }
    forall k | k in w'.paires ensures PaireJuste(w'.honnetes, w'.faits, k.0, k.1, w'.paires[k]) {
      if k in w.paires && w'.paires[k] == w.paires[k] { PaireReste(w, w', k.0, k.1, w.paires[k]); }
    }
    forall f | f in w'.faits ensures FaitJuste(w', f) {
      if f in w.faits { FaitReste(w, w', f); }
    }
    forall f, g | f in w'.faits && g in w'.faits && Tirage(f).Some? && Tirage(f) == Tirage(g)
      ensures f == g
    {
      if f in w.faits { assert FaitJuste(w, f); }
      if g in w.faits { assert FaitJuste(w, g); }
    }
  }

  // ----- the adversary learns nothing it should not -----------------------------------------

  lemma BonPasProtege(honnetes: set<Prive>, faits: set<Fait>, t: Terme)
    requires Bon(honnetes, faits, t)
    ensures !Protege(honnetes, t)
  {
  }

  lemma DeduireGarde(w: Monde, t: Terme)
    requires Inv(w) && Deductible(w.honnetes, w.connus, t)
    ensures Inv(Faire(w, Deduire(t)))
  {
    forall u | u in w.connus
      ensures Bon(w.honnetes, w.faits, u) && !Protege(w.honnetes, u)
    {
      BonPasProtege(w.honnetes, w.faits, u);
    }
    InvReste(w, Faire(w, Deduire(t)));
  }

  lemma ListerGarde(w: Monde, a: Prive, b: Prive)
    requires Inv(w) && Honnete(w.honnetes, a)
    ensures Inv(Faire(w, Lister(a, b)))
  {
    InvReste(w, Faire(w, Lister(a, b)));
  }

  // ----- who sealed what ------------------------------------------------------------------

  /** The second sealed part of an initiation was sealed in writing that initiation. */
  lemma ChargeUn(s: Prive, r: Prive, e: Prive, t: nat, f: Fait)
    requires Produit(f, ApresMessage1(s, r, e, PROLOGUE, Date(t)).1.charge)
    ensures f == Initie(s, r, e, t)
  {
  }

  /** The sealed part of an answer was sealed in writing that answer. */
  lemma ChargeDeux(s: Prive, r: Prive, e: Prive, er: Prive, t: nat, c: Terme, f: Fait)
    requires Produit(f, ApresMessage2(ApresMessage1(s, r, e, PROLOGUE, Date(t)).0, s, e, er, c).1.charge)
    ensures c == VIDE && f.Repondu? && f == Repondu(r, s, e, er, t, f.fiche)
  {
  }

  // ----- each honest step keeps the invariant ---------------------------------------------

  lemma InitiationBonne(honnetes: set<Prive>, faits: set<Fait>, s: Prive, r: Prive, e: Prive, t: nat)
    requires Initie(s, r, e, t) in faits
    ensures forall u <- Corps1Termes(ApresMessage1(s, r, e, PROLOGUE, Date(t)).1) ::
              Bon(honnetes, faits, u) && (u.Scelle? ==> exists f <- faits :: Produit(f, u)) && !u.Paquet?
  {
    var m := ApresMessage1(s, r, e, PROLOGUE, Date(t)).1;
    assert Produit(Initie(s, r, e, t), m.s) && Produit(Initie(s, r, e, t), m.charge);
  }

  lemma LancerGarde(w: Monde, a: Prive, b: Prive, t: nat, indice: nat, neuf: Prive)
    requires Inv(w)
    ensures Inv(ApresLancer(w, a, b, t, indice, neuf))
  {
    hide Bon, ApresMessage1;
    if (a, b) in w.paires && Neuf(w, a, neuf) {
      var w' := ApresLancer(w, a, b, t, indice, neuf);
      MessageUn(a, b, neuf, PROLOGUE, Date(t));
      var ini := Ecriture1(NouvelIni(a, Publique(b), PROLOGUE), neuf, Date(t)).0;
      hide Ecriture1, NouvelIni;
      assert Attend(ini, a, b, neuf, t);
      assert PaireJuste(w.honnetes, w.faits, a, b, w.paires[(a, b)]);
      assert Suite(w, w');
      PaireReste(w, w', a, b, w.paires[(a, b)]);
      InitiationBonne(w'.honnetes, w'.faits, a, b, neuf, t);
      InvReste(w, w');
    }
  }

  /** What a responder read, who it is from, and what it answered. */
  lemma RepondreLu(a: Prive, m: Corps1, n: Prive)
    ensures var r := Repondre(a, m, n);
            r.Some? ==>
              var lu := r.valeur;
              && lu.publique.Publique? && m.Corps1? && m.e.Publique?
              && var s, re, d := lu.publique.p, m.e.p, Date(lu.horodatage);
                 && m == ApresMessage1(s, a, re, PROLOGUE, d).1
                 && lu.reponse == ApresMessage2(ApresMessage1(s, a, re, PROLOGUE, d).0, s, re, n, VIDE).1
                 && lu.cles == ClesRepondeur(s, a, re, n, PROLOGUE, d, VIDE)
  {
    var r := Repondre(a, m, n);
    if r.Some? {
      var (rep, lu) := Lecture1(NouveauRep(a, PROLOGUE), m);
      Message1Authentique(a, PROLOGUE, m);
      var s, e, c :| m == ApresMessage1(s, a, e, PROLOGUE, c).1;
      MessageDeux(rep, s, a, e, n, PROLOGUE, c, VIDE);
    }
  }

  lemma ReponseBonne(honnetes: set<Prive>, faits: set<Fait>, s: Prive, r: Prive, re: Prive, e: Prive, t: nat, f: Fiche)
    requires Repondu(r, s, re, e, t, f) in faits
    ensures forall u <- Corps2Termes(MessageDe(s, r, re, e, t)) ::
              Bon(honnetes, faits, u) && (u.Scelle? ==> exists f <- faits :: Produit(f, u)) && !u.Paquet?
  {
    assert Produit(Repondu(r, s, re, e, t, f), MessageDe(s, r, re, e, t).charge);
  }

  /** An initiation from an honest device was written by it, to us. */
  lemma InitiationAuthentique(w: Monde, a: Prive, b: Prive, m: Corps1, re: Prive, t: nat)
    requires Inv(w) && Honnete(w.honnetes, a) && Honnete(w.honnetes, b) && Corps1Termes(m) <= w.connus
    requires m == ApresMessage1(b, a, re, PROLOGUE, Date(t)).1
    ensures Initie(b, a, re, t) in w.faits
  {
    assert m.charge in w.connus;
    assert Protege(w.honnetes, m.charge.cle);
    assert Bon(w.honnetes, w.faits, m.charge);
    var f :| f in w.faits && Produit(f, m.charge);
    ChargeUn(b, a, re, t, f);
  }

  lemma LireInitiationGarde(w: Monde, a: Prive, m: Corps1, locale: nat, envoyeur: nat, maintenant: int, neuf: Prive)
    requires Inv(w) && Honnete(w.honnetes, a) && Corps1Termes(m) <= w.connus
    requires Neuf(w, a, neuf) && Repondre(a, m, neuf).Some?
    ensures Inv(ApresLireInitiation(w, a, m, Repondre(a, m, neuf).valeur, locale, envoyeur, maintenant, neuf))
  {
    hide Bon, ApresMessage1, ApresMessage2, Repondre, ClesRepondeur;
    var lu := Repondre(a, m, neuf).valeur;
    var w' := ApresLireInitiation(w, a, m, lu, locale, envoyeur, maintenant, neuf);
    RepondreLu(a, m, neuf);
    if w' != w {
      var b, f := lu.publique.p, Fiche(locale, envoyeur, lu.cles, false, maintenant);
      if Honnete(w.honnetes, b) {
        InitiationAuthentique(w, a, b, m, m.e.p, lu.horodatage);
      }
      assert w'.faits == w.faits + {Repondu(a, b, m.e.p, neuf, lu.horodatage, f)};
      assert PaireJuste(w.honnetes, w.faits, a, b, w.paires[(a, b)]);
      PaireReste(w, w', a, b, w.paires[(a, b)]);
      ReponseBonne(w'.honnetes, w'.faits, b, a, m.e.p, neuf, lu.horodatage, f);
      InvReste(w, w');
    }
  }

  /** An answer to our initiation to an honest device was written by it, to us. */
  lemma ReponseAuthentique(w: Monde, a: Prive, b: Prive, e: Prive, t: nat, ini: Ini, m: Corps2)
    requires Inv(w) && Attend(ini, a, b, e, t) && Corps2Termes(m) <= w.connus
    requires Honnete(w.honnetes, a) && Lecture2(ini, m).1.Some?
    ensures m.Corps2? && m.e.Publique?
    ensures var lu := Lecture2(ini, m).1.valeur;
            && lu.1 == Croisees(ClesRepondeur(a, b, e, m.e.p, PROLOGUE, Date(t), lu.0))
            && (Honnete(w.honnetes, b) ==>
                  && lu.0 == VIDE
                  && exists f' :: Repondu(b, a, e, m.e.p, t, f') in w.faits && f'.cles == Croisees(lu.1))
  {
    var lu := Lecture2(ini, m).1.valeur;
    Message2Authentique(ini, a, b, e, PROLOGUE, Date(t), m);
    var er, c :| m == ApresMessage2(ini.es, a, e, er, c).1;
    assert er == m.e.p && c == lu.0 && m.charge.Scelle?;
    if Honnete(w.honnetes, b) {
      assert Protege(w.honnetes, ini.es.ck);
      assert m.charge.cle == HkdfDeux(HkdfUn(ini.es.ck, Secret({e, er})), Secret({a, er}));
      assert Protege(w.honnetes, m.charge.cle.ck);
      assert Bon(w.honnetes, w.faits, m.charge);
      var f :| f in w.faits && Produit(f, m.charge);
      ChargeDeux(a, b, e, er, t, c, f);
      assert FaitJuste(w, f);
    }
  }

  lemma LireReponseGarde(w: Monde, a: Prive, b: Prive, m: Corps2, envoyeur: nat, maintenant: int)
    requires Inv(w) && (a, b) in w.paires && w.paires[(a, b)].poignee.Some? && Corps2Termes(m) <= w.connus
    requires Lecture2(w.paires[(a, b)].poignee.valeur, m).1.Some?
    ensures Inv(ApresLireReponse(w, a, b, m, Lecture2(w.paires[(a, b)].poignee.valeur, m).1.valeur, envoyeur,
              maintenant))
  {
    hide Bon, ApresMessage1, ApresMessage2, ClesRepondeur, Lecture2;
    var v := w.paires[(a, b)];
    var lu := Lecture2(v.poignee.valeur, m).1.valeur;
    var w' := ApresLireReponse(w, a, b, m, lu, envoyeur, maintenant);
    assert PaireJuste(w.honnetes, w.faits, a, b, v);
    var e, t :| Initie(a, b, e, t) in w.faits && Attend(v.poignee.valeur, a, b, e, t);
    ReponseAuthentique(w, a, b, e, t, v.poignee.valeur, m);
    var f := Fiche(v.indicePoignee, envoyeur, lu.1, true, maintenant);
    assert w'.faits == w.faits + {Conclu(a, b, e, m.e.p, lu.0, f)};
    PaireReste(w, w', a, b, v);
    assert ConcluJuste(w, a, b, e, m.e.p, lu.0, f);
    FaitReste(w, w', Conclu(a, b, e, m.e.p, lu.0, f));
    InvReste(w, w');
  }

  lemma DonneeBonne(honnetes: set<Prive>, faits: set<Fait>, a: Prive, b: Prive, f: Fiche, n: nat, clair: Contenu)
    requires Envoye(a, b, f, n, clair) in faits
    ensures var t := MessageDonnees(f.distante, f.cles.envoi, n, clair).corps;
            Bon(honnetes, faits, t) && t.Scelle? && exists f <- faits :: Produit(f, t)
  {
    assert Produit(Envoye(a, b, f, n, clair), MessageDonnees(f.distante, f.cles.envoi, n, clair).corps);
  }

  lemma ScellerGarde(w: Monde, a: Prive, b: Prive, n: nat, clair: Contenu)
    requires Inv(w)
    ensures Inv(Faire(w, Etape.Sceller(a, b, n, clair)))
  {
    hide Bon, Produit, SessionDe, MessageDonnees;
    var w' := Faire(w, Etape.Sceller(a, b, n, clair));
    if w' != w {
      var f := w.paires[(a, b)].courante.valeur;
      assert PaireJuste(w.honnetes, w.faits, a, b, w.paires[(a, b)]);
      DonneeBonne(w'.honnetes, w'.faits, a, b, f, n, clair);
      FaitReste(w, w', Envoye(a, b, f, n, clair));
      InvReste(w, w');
    }
  }

  // ----- who sealed under a session key -----------------------------------------------------

  /** The four secrets and the transcript behind the keys of a session, as its
      responder would hold them. */
  datatype Secrets = Secrets(s: Prive, r: Prive, e: Prive, er: Prive, d: Terme, c: Terme)

  ghost function ClesDe(x: Secrets): Cles {
    ClesRepondeur(x.s, x.r, x.e, x.er, PROLOGUE, x.d, x.c)
  }

  /** Behind each session of an honest device. */
  ghost predicate Derriere(a: Prive, b: Prive, f: Fiche, x: Secrets) {
    if f.initiateur
    then x.s == a && x.r == b && x.e.Ephemere? && f.cles == Croisees(ClesDe(x))
    else x.s == b && x.r == a && x.er.Ephemere? && f.cles == ClesDe(x)
  }

  lemma SecretsDe(w: Monde, a: Prive, b: Prive, f: Fiche) returns (x: Secrets)
    requires Inv(w) && SessionDe(w.faits, a, b, f)
    ensures Derriere(a, b, f, x) && Honnete(w.honnetes, a)
  {
    hide ClesRepondeur;
    if f.initiateur {
      var e, re, c :| Conclu(a, b, e, re, c, f) in w.faits;
      assert FaitJuste(w, Conclu(a, b, e, re, c, f));
      var t :| Initie(a, b, e, t) in w.faits
        && f.cles == Croisees(ClesRepondeur(a, b, e, re, PROLOGUE, Date(t), c));
      x := Secrets(a, b, e, re, Date(t), c);
    } else {
      var re, e, t :| Repondu(a, b, re, e, t, f) in w.faits;
      assert FaitJuste(w, Repondu(a, b, re, e, t, f));
      x := Secrets(b, a, re, e, Date(t), VIDE);
    }
  }

  lemma ClesProtegees(honnetes: set<Prive>, x: Secrets)
    requires Honnete(honnetes, x.s) && Honnete(honnetes, x.r)
    ensures Protege(honnetes, ClesDe(x).envoi) && Protege(honnetes, ClesDe(x).reception)
  {
    var m1 := ApresMessage1(x.s, x.r, x.e, PROLOGUE, x.d).0;
    assert Protege(honnetes, m1.ck);
    var m2 := ApresMessage2(m1, x.s, x.e, x.er, x.c).0;
    assert m2.ck == HkdfUn(HkdfUn(m1.ck, Secret({x.e, x.er})), Secret({x.s, x.er}));
    assert Protege(honnetes, m2.ck.ck) && Protege(honnetes, m2.ck);
  }

  /** One session's sending key is another's receiving key only if the two are the
      two ends of one handshake: between the same two devices, in opposite roles,
      with the same two keys. */
  lemma BoutsOpposes(a: Prive, b: Prive, f: Fiche, x: Secrets, a': Prive, b': Prive, f': Fiche, x': Secrets)
    requires Derriere(a, b, f, x) && Derriere(a', b', f', x') && a != b && a.Statique? && b.Statique? && a'.Statique?
    requires f'.cles.envoi == f.cles.reception
    ensures a' == b && b' == a && f'.initiateur == !f.initiateur && f'.cles == Croisees(f.cles)
  {
    ClesDeterminent(x.s, x.r, x.e, x.er, PROLOGUE, x.d, x.c, x'.s, x'.r, x'.e, x'.er, PROLOGUE, x'.d, x'.c);
    assert x'.s in {x.s, x.r} && x'.r in {x.s, x.r} && x.s in {x'.s, x'.r};
  }

  /** Whatever opens under a session with an honest device was sealed by it, for us. */
  lemma DonneeAuthentique(w: Monde, a: Prive, b: Prive, f: Fiche, n: nat, corps: Terme, clair: Terme)
    requires Inv(w) && Honnete(w.honnetes, a) && Honnete(w.honnetes, b) && a != b && SessionDe(w.faits, a, b, f)
    requires corps in w.connus && corps == Scelle(f.cles.reception, n, clair, VIDE)
    ensures Origine(w.faits, a, b, f, n, clair)
  {
    hide ClesRepondeur, SessionDe;
    var x := SecretsDe(w, a, b, f);
    ClesProtegees(w.honnetes, x);
    assert Bon(w.honnetes, w.faits, corps);
    var acte :| acte in w.faits && Produit(acte, corps);
    assert acte.Envoye?;
    assert FaitJuste(w, acte);
    var x' := SecretsDe(w, acte.a, acte.b, acte.fiche);
    BoutsOpposes(a, b, f, x, acte.a, acte.b, acte.fiche, x');
    assert Envoye(b, a, acte.fiche, n, acte.clair) in w.faits;
  }

  lemma OuvrirGarde(w: Monde, a: Prive, b: Prive, place: Place, n: nat, corps: Terme)
    requires Inv(w)
    ensures Inv(Faire(w, Ouvre(a, b, place, n, corps)))
  {
    hide Bon, SessionDe, Origine;
    var w' := Faire(w, Ouvre(a, b, place, n, corps));
    if w' != w {
      var v := w.paires[(a, b)];
      var f := En(v, place).valeur;
      assert PaireJuste(w.honnetes, w.faits, a, b, v);
      var clair := Ouvrir(f.cles.reception, n, corps, VIDE).valeur;
      if Honnete(w.honnetes, b) && a != b {
        DonneeAuthentique(w, a, b, f, n, corps, clair);
      }
      var acte := Recu(a, b, f, n, clair, place.Suivante?);
      FaitReste(w, w', acte);
      PaireReste(w, w', a, b, v);
      assert place.Suivante? ==> EnService(w'.faits, a, b, f);
      hide EnService;
      InvReste(w, w');
    }
  }

  lemma ExpirerGarde(w: Monde, a: Prive, b: Prive, maintenant: int, duree: int)
    requires Inv(w)
    ensures Inv(Faire(w, Expirer(a, b, maintenant, duree)))
  {
    var w' := Faire(w, Expirer(a, b, maintenant, duree));
    if w' != w {
      assert PaireJuste(w.honnetes, w.faits, a, b, w.paires[(a, b)]);
      hide SessionDe, Bon;
      InvReste(w, w');
    }
  }

  lemma EtapeGarde(w: Monde, x: Etape)
    requires Inv(w)
    ensures Inv(Faire(w, x)) && Suite(w, Faire(w, x))
  {
    hide Inv, Lecture2, Repondre, Ecriture1, MessageDonnees;
    match x
    case Deduire(t) => if Deductible(w.honnetes, w.connus, t) { DeduireGarde(w, t); }
    case Lister(a, b) => if Honnete(w.honnetes, a) { ListerGarde(w, a, b); }
    case Lancer(a, b, t, indice, neuf) => LancerGarde(w, a, b, t, indice, neuf);
    case LireInitiation(a, m, locale, envoyeur, maintenant, neuf) =>
      if Honnete(w.honnetes, a) && Corps1Termes(m) <= w.connus && Neuf(w, a, neuf) && Repondre(a, m, neuf).Some? {
        LireInitiationGarde(w, a, m, locale, envoyeur, maintenant, neuf);
      }
    case LireReponse(a, b, m, envoyeur, maintenant) =>
      if (a, b) in w.paires && w.paires[(a, b)].poignee.Some? && Corps2Termes(m) <= w.connus
         && Lecture2(w.paires[(a, b)].poignee.valeur, m).1.Some? {
        LireReponseGarde(w, a, b, m, envoyeur, maintenant);
      }
    case Sceller(a, b, n, clair) => ScellerGarde(w, a, b, n, clair);
    case Ouvre(a, b, place, n, corps) => OuvrirGarde(w, a, b, place, n, corps);
    case Expirer(a, b, maintenant, duree) => ExpirerGarde(w, a, b, maintenant, duree);
  }

  lemma {:induction false} ExecutionGarde(honnetes: set<Prive>, xs: seq<Etape>)
    ensures Inv(Executer(honnetes, xs)) && Executer(honnetes, xs).honnetes == honnetes
  {
    if xs != [] {
      ExecutionGarde(honnetes, xs[..|xs| - 1]);
      hide Inv;
      EtapeGarde(Executer(honnetes, xs[..|xs| - 1]), xs[|xs| - 1]);
    }
  }

  // ----- what it all means ------------------------------------------------------------------

  /** The peer answered our initiation, and holds our keys swapped. */
  ghost predicate ARepondu(faits: set<Fait>, b: Prive, a: Prive, f: Fiche) {
    exists re, e, t, f' :: Repondu(b, a, re, e, t, f') in faits && f'.cles == Croisees(f.cles)
  }

  /** The peer opened this handshake for us, completed it, and holds our keys swapped. */
  ghost predicate AConclu(faits: set<Fait>, b: Prive, a: Prive, f: Fiche) {
    exists e, re, c, t, f' :: Conclu(b, a, e, re, c, f') in faits && Initie(b, a, e, t) in faits
        && f'.cles == Croisees(f.cles)
  }

  lemma AccordInitiateur(w: Monde, a: Prive, b: Prive, f: Fiche)
    requires Inv(w) && Honnete(w.honnetes, b) && f.initiateur && SessionDe(w.faits, a, b, f)
    ensures ARepondu(w.faits, b, a, f)
  {
    var e, re, c :| Conclu(a, b, e, re, c, f) in w.faits;
    assert FaitJuste(w, Conclu(a, b, e, re, c, f));
    hide ClesRepondeur;
  }

  lemma AccordRepondeur(w: Monde, a: Prive, b: Prive, f: Fiche)
    requires Inv(w) && a != b && Honnete(w.honnetes, b) && !f.initiateur && EnService(w.faits, a, b, f)
    ensures AConclu(w.faits, b, a, f)
  {
    hide ClesRepondeur, Inv, Derriere, SessionDe, ConcluJuste;
    var n, ouvert :| Recu(a, b, f, n, ouvert, true) in w.faits;
    var f' := Emetteur(w, a, b, f, n, ouvert);
    var x := SecretsDe(w, a, b, f);
    var x' := SecretsDe(w, b, a, f');
    BoutsOpposes(a, b, f, x, b, a, f', x');
    SessionConclue(w, b, a, f');
  }

  lemma Emetteur(w: Monde, a: Prive, b: Prive, f: Fiche, n: nat, ouvert: Terme) returns (f': Fiche)
    requires Inv(w) && a != b && Honnete(w.honnetes, b) && Recu(a, b, f, n, ouvert, true) in w.faits
    ensures SessionDe(w.faits, b, a, f') && f'.cles == Croisees(f.cles)
  {
    hide SessionDe;
    assert FaitJuste(w, Recu(a, b, f, n, ouvert, true));
    var g, c :| && Envoye(b, a, g, n, c) in w.faits && g.cles == Croisees(f.cles)
                && ouvert == MessageDonnees(0, g.cles.envoi, n, c).corps.clair;
    f' := g;
    assert FaitJuste(w, Envoye(b, a, f', n, c));
  }

  lemma SessionConclue(w: Monde, a: Prive, b: Prive, f: Fiche)
    requires Inv(w) && f.initiateur && SessionDe(w.faits, a, b, f)
    ensures exists e, re, c, t :: Conclu(a, b, e, re, c, f) in w.faits && Initie(a, b, e, t) in w.faits
  {
    var e, re, c :| Conclu(a, b, e, re, c, f) in w.faits;
    assert FaitJuste(w, Conclu(a, b, e, re, c, f));
  }

  /** Agreement. On every run, a session that an honest device uses with another is
      held by that other one too, for it, with the same two keys swapped; if we
      answered, the other completed this very handshake, which it had opened for us. */
  lemma AccordDesDeux(honnetes: set<Prive>, xs: seq<Etape>, a: Prive, b: Prive)
    requires var w := Executer(honnetes, xs);
             a != b && Honnete(honnetes, b) && (a, b) in w.paires && w.paires[(a, b)].courante.Some?
    ensures var w := Executer(honnetes, xs);
            var f := w.paires[(a, b)].courante.valeur;
            if f.initiateur then ARepondu(w.faits, b, a, f) else AConclu(w.faits, b, a, f)
  {
    hide ARepondu, AConclu, SessionDe;
    ExecutionGarde(honnetes, xs);
    var w := Executer(honnetes, xs);
    hide Executer;
    var f := w.paires[(a, b)].courante.valeur;
    assert PaireJuste(w.honnetes, w.faits, a, b, w.paires[(a, b)]);
    if f.initiateur { AccordInitiateur(w, a, b, f); } else { AccordRepondeur(w, a, b, f); }
  }

  /** Authenticity. Whatever an honest device opens from another, that other one
      sealed for it, under this counter. */
  lemma Authenticite(honnetes: set<Prive>, xs: seq<Etape>, a: Prive, b: Prive, f: Fiche, n: nat, ouvert: Terme,
                     promue: bool)
    requires Recu(a, b, f, n, ouvert, promue) in Executer(honnetes, xs).faits
    requires a != b && Honnete(honnetes, b)
    ensures Origine(Executer(honnetes, xs).faits, a, b, f, n, ouvert)
  {
    ExecutionGarde(honnetes, xs);
    assert FaitJuste(Executer(honnetes, xs), Recu(a, b, f, n, ouvert, promue));
  }

  /** Secrecy. The keys of a session between two honest devices are never known. */
  lemma ClesSecretes(honnetes: set<Prive>, xs: seq<Etape>, a: Prive, b: Prive, f: Fiche)
    requires Honnete(honnetes, b) && SessionDe(Executer(honnetes, xs).faits, a, b, f)
    ensures f.cles.envoi !in Executer(honnetes, xs).connus && f.cles.reception !in Executer(honnetes, xs).connus
  {
    ExecutionGarde(honnetes, xs);
    ClesInconnues(Executer(honnetes, xs), a, b, f);
  }

  lemma ClesInconnues(w: Monde, a: Prive, b: Prive, f: Fiche)
    requires Inv(w) && Honnete(w.honnetes, b) && SessionDe(w.faits, a, b, f)
    ensures f.cles.envoi !in w.connus && f.cles.reception !in w.connus
  {
    hide ClesRepondeur, SessionDe;
    var x := SecretsDe(w, a, b, f);
    ClesProtegees(w.honnetes, x);
    forall t | t in w.connus
      ensures !Protege(w.honnetes, t)
    {
      BonPasProtege(w.honnetes, w.faits, t);
    }
  }

  /** No replay opens a session anew: two answers never lead to the same keys. */
  lemma ReponsesDistinctes(honnetes: set<Prive>, xs: seq<Etape>, a: Prive, b: Prive, re: Prive, e: Prive, t: nat,
                           f: Fiche,
                           a': Prive, b': Prive, re': Prive, e': Prive, t': nat, f': Fiche)
    requires Repondu(a, b, re, e, t, f) in Executer(honnetes, xs).faits
    requires Repondu(a', b', re', e', t', f') in Executer(honnetes, xs).faits
    requires f.cles.envoi == f'.cles.envoi || f.cles.reception == f'.cles.reception
    ensures Repondu(a, b, re, e, t, f) == Repondu(a', b', re', e', t', f')
  {
    ExecutionGarde(honnetes, xs);
    var w := Executer(honnetes, xs);
    var r, r' := Repondu(a, b, re, e, t, f), Repondu(a', b', re', e', t', f');
    assert FaitJuste(w, r) && FaitJuste(w, r');
    ClesDeterminent(b, a, re, e, PROLOGUE, Date(t), VIDE,
                    b', a', re', e', PROLOGUE, Date(t'), VIDE);
    assert e in {b', e'};
    assert Tirage(r) == Tirage(r');
  }

  /** And an initiation that an honest device acts on was written by the device it
      names, for us, at that date. */
  lemma InitiationsAuthentiques(honnetes: set<Prive>, xs: seq<Etape>, a: Prive, b: Prive, re: Prive, e: Prive, t: nat,
                                f: Fiche)
    requires Repondu(a, b, re, e, t, f) in Executer(honnetes, xs).faits && Honnete(honnetes, b)
    ensures Initie(b, a, re, t) in Executer(honnetes, xs).faits
  {
    ExecutionGarde(honnetes, xs);
    assert FaitJuste(Executer(honnetes, xs), Repondu(a, b, re, e, t, f));
  }

  // ----- and it does happen -------------------------------------------------------------------

  /** Two listed devices, the second not having acted on a later initiation. */
  ghost predicate Prets(w: Monde, a: Prive, b: Prive, t: nat) {
    && a != b && Honnete(w.honnetes, a) && Honnete(w.honnetes, b) && (a, b) in w.paires && (b, a) in w.paires
    && PlusRecente(w.paires[(b, a)], t)
  }

  /** A device can always draw one more key. */
  lemma {:induction false} CleNeuve(tires: set<Prive>, a: Prive) returns (n: nat)
    ensures forall m | n <= m :: Ephemere(a, m) !in tires
  {
    n := 0;
    if tires != {} {
      var e :| e in tires;
      n := CleNeuve(tires - {e}, a);
      if e.Ephemere? && n <= e.n {
        n := e.n + 1;
      }
    }
  }

  lemma LancerAboutit(w: Monde, a: Prive, b: Prive, t: nat, indice: nat, neuf: Prive)
    requires Prets(w, a, b, t) && Neuf(w, a, neuf)
    ensures var w' := Faire(w, Lancer(a, b, t, indice, neuf));
            && Prets(w', a, b, t) && w'.tires == w.tires + {neuf}
            && Corps1Termes(ApresMessage1(a, b, neuf, PROLOGUE, Date(t)).1) <= w'.connus
            && w'.paires[(a, b)].poignee.Some? && Attend(w'.paires[(a, b)].poignee.valeur, a, b, neuf, t)
  {
    MessageUn(a, b, neuf, PROLOGUE, Date(t));
    hide Ecriture1, ApresMessage1, NouvelIni;
  }

  lemma LireInitiationAboutit(w: Monde, a: Prive, b: Prive, e: Prive, t: nat, locale: nat, envoyeur: nat,
                              maintenant: int, neuf: Prive)
    requires Prets(w, a, b, t) && Neuf(w, b, neuf)
    requires Corps1Termes(ApresMessage1(a, b, e, PROLOGUE, Date(t)).1) <= w.connus
    ensures var m := ApresMessage1(a, b, e, PROLOGUE, Date(t)).1;
            var w' := Faire(w, LireInitiation(b, m, locale, envoyeur, maintenant, neuf));
            && (a, b) in w'.paires && w'.paires[(a, b)] == w.paires[(a, b)] && (b, a) in w'.paires
            && w'.paires[(b, a)].suivante == Some(Fiche(locale, envoyeur,
                 ClesRepondeur(a, b, e, neuf, PROLOGUE, Date(t), VIDE), false, maintenant))
            && Corps2Termes(MessageDe(a, b, e, neuf, t)) <= w'.connus
  {
    var m := ApresMessage1(a, b, e, PROLOGUE, Date(t)).1;
    var (rep, lu) := Lecture1(NouveauRep(b, PROLOGUE), m);
    Message1Authentique(b, PROLOGUE, m);
    assert ALu(rep, a, b, e, PROLOGUE, Date(t));
    MessageDeux(rep, a, b, e, neuf, PROLOGUE, Date(t), VIDE);
    assert m.Corps1? && m.e == Publique(e);
    hide ApresMessage1, ApresMessage2, Lecture1, Ecriture2, NouveauRep, ClesRepondeur;
  }

  lemma LireReponseAboutit(w: Monde, a: Prive, b: Prive, e: Prive, er: Prive, t: nat, envoyeur: nat, maintenant: int)
    requires (a, b) in w.paires && w.paires[(a, b)].poignee.Some? && Attend(w.paires[(a, b)].poignee.valeur, a, b, e, t)
    requires Corps2Termes(MessageDe(a, b, e, er, t)) <= w.connus
    ensures var v := w.paires[(a, b)];
            var w' := Faire(w, LireReponse(a, b, MessageDe(a, b, e, er, t), envoyeur, maintenant));
            && w'.paires == w.paires[(a, b) := w'.paires[(a, b)]]
            && w'.paires[(a, b)].courante == Some(Fiche(v.indicePoignee, envoyeur,
                 Croisees(ClesRepondeur(a, b, e, er, PROLOGUE, Date(t), VIDE)), true, maintenant))
  {
    var ini, m := w.paires[(a, b)].poignee.valeur, MessageDe(a, b, e, er, t);
    var rep := Rep(ApresMessage1(a, b, e, PROLOGUE, Date(t)).0, b, None,
                   Publique(e), Publique(a), true);
    Message2Authentique(ini, a, b, e, PROLOGUE, Date(t), m);
    assert ALu(rep, a, b, e, PROLOGUE, Date(t));
    MessageDeux(rep, a, b, e, er, PROLOGUE, Date(t), VIDE);
    assert m.Corps2? && m.e == Publique(er) && ini.e == Some(e);
    hide ApresMessage1, ApresMessage2, Lecture2, Ecriture2, ClesRepondeur;
  }

  lemma PremierPaquetConfirme(w: Monde, a: Prive, b: Prive, f: Fiche, f': Fiche)
    requires (a, b) in w.paires && (b, a) in w.paires && a != b
    requires w.paires[(a, b)].courante == Some(f) && w.paires[(b, a)].suivante == Some(f')
              && f.cles == Croisees(f'.cles)
    ensures var corps := MessageDonnees(f.distante, f.cles.envoi, 0, RIEN).corps;
            var w' := Faire(Faire(w, Etape.Sceller(a, b, 0, RIEN)), Ouvre(b, a, Suivante, 0, corps));
            && (b, a) in w'.paires && w'.paires[(b, a)].courante == Some(f')
            && (a, b) in w'.paires && w'.paires[(a, b)].courante == Some(f)
  {
  }

  /** From any state of any run, a handshake that is left alone succeeds: after the two
      messages and a first empty packet, both devices use the new session. */
  lemma SansAdversaire(w: Monde, a: Prive, b: Prive, t: nat, i: nat, j: nat, maintenant: int)
      returns (xs: seq<Etape>, f: Fiche, f': Fiche)
    requires Prets(w, a, b, t)
    ensures var w' := Suivre(w, xs);
            && (a, b) in w'.paires && (b, a) in w'.paires && f.cles == Croisees(f'.cles)
            && w'.paires[(a, b)].courante == Some(f) && w'.paires[(b, a)].courante == Some(f')
  {
    var n := CleNeuve(w.tires, a);
    var m := CleNeuve(w.tires, b);
    var e, er := Ephemere(a, n), Ephemere(b, m);
    var x1 := Lancer(a, b, t, i, e);
    LancerAboutit(w, a, b, t, i, e);
    var w1 := Faire(w, x1);
    var m1 := ApresMessage1(a, b, e, PROLOGUE, Date(t)).1;
    LireInitiationAboutit(w1, a, b, e, t, j, i, maintenant, er);
    var x2 := LireInitiation(b, m1, j, i, maintenant, er);
    var w2 := Faire(w1, x2);
    var m2 := MessageDe(a, b, e, er, t);
    LireReponseAboutit(w2, a, b, e, er, t, j, maintenant);
    var x3 := LireReponse(a, b, m2, j, maintenant);
    var w3 := Faire(w2, x3);
    f, f' := w3.paires[(a, b)].courante.valeur, w3.paires[(b, a)].suivante.valeur;
    hide Faire, Suivre, Prets, ApresMessage1, MessageDe, ClesRepondeur, MessageDonnees, Attend;
    PremierPaquetConfirme(w3, a, b, f, f');
    var x4 := Etape.Sceller(a, b, 0, RIEN);
    var x5 := Ouvre(b, a, Suivante, 0, MessageDonnees(f.distante, f.cles.envoi, 0, RIEN).corps);
    CinqPas(w, x1, x2, x3, x4, x5);
    xs := [x1, x2, x3, x4, x5];
  }

  ghost function Suivre(w: Monde, xs: seq<Etape>): Monde {
    if xs == [] then w else Faire(Suivre(w, xs[..|xs| - 1]), xs[|xs| - 1])
  }

  lemma CinqPas(w: Monde, x1: Etape, x2: Etape, x3: Etape, x4: Etape, x5: Etape)
    ensures Suivre(w, [x1, x2, x3, x4, x5]) == Faire(Faire(Faire(Faire(Faire(w, x1), x2), x3), x4), x5)
  {
    hide Faire;
    assert [x1, x2, x3, x4, x5][..4] == [x1, x2, x3, x4];
    assert [x1, x2, x3, x4][..3] == [x1, x2, x3];
    assert [x1, x2, x3][..2] == [x1, x2];
    assert [x1, x2][..1] == [x1];
    assert [x1][..0] == [];
    assert Suivre(w, []) == w;
    assert Suivre(w, [x1]) == Faire(w, x1);
    assert Suivre(w, [x1, x2]) == Faire(Faire(w, x1), x2);
    assert Suivre(w, [x1, x2, x3]) == Faire(Suivre(w, [x1, x2]), x3);
    assert Suivre(w, [x1, x2, x3, x4]) == Faire(Suivre(w, [x1, x2, x3]), x4);
  }
}

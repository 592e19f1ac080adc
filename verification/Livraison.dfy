/** One direction of one session over a hostile network: the sender seals, the
    network drops, duplicates, reorders and injects, and any number of receiving
    threads run, each testing the window before opening and entering the counter
    after, with the others free to act in between. */
module Livraison {
  import opened Termes
  import opened Fenetre
  import opened Session

  /** `fil` is every message the network can deliver, forever and in any order;
      `enCours` holds, per thread, a message that passed the first window test. */
  datatype Lien = Lien(
    cle: Terme,
    compteur: nat,
    envoyes: seq<Contenu>,
    fil: set<Message>,
    vus: set<nat>,
    enCours: map<nat, Message>,
    livres: seq<(nat, Terme)>)

  datatype Etape =
    | Envoyer(clair: Contenu, distante: nat)
    | Injecter(msg: Message)
    | Tester(fil: nat, msg: Message)
    | Finir(fil: nat)

  function Debut(cle: Terme): Lien {
    Lien(cle, 0, [], {}, {}, map[], [])
  }

  /** The adversary puts any message on the wire except a body newly sealed under
      the session key: it may replay the bodies it saw, under any header. */
  predicate Forgeable(l: Lien, msg: Message) {
    msg.Donnees? && msg.corps.Scelle? && msg.corps.cle == l.cle ==>
      exists vu <- l.fil :: vu.Donnees? && vu.corps == msg.corps
  }

  ghost function Faire(l: Lien, e: Etape): Lien {
    match e
    case Envoyer(clair, distante) =>
      if l.compteur < REJETER_APRES_N then
        l.(compteur := (l.compteur + 1) % MODULO_64,
           envoyes := l.envoyes + [clair],
           fil := l.fil + {MessageDonnees(distante, l.cle, l.compteur, clair)})
      else l
    case Injecter(msg) =>
      if Forgeable(l, msg) then l.(fil := l.fil + {msg}) else l
    case Tester(t, msg) =>
      if msg in l.fil && msg.Donnees? && Recevable(l.vus, msg.compteur) then l.(enCours := l.enCours[t := msg]) else l
    case Finir(t) =>
      if t !in l.enCours then l
      else
        var msg := l.enCours[t];
        var reste := l.(enCours := l.enCours - {t});
        if !msg.Donnees? then reste
        else match Ouvrir(l.cle, msg.compteur, msg.corps, VIDE)
          case None => reste
          case Some(clair) =>
            if Recevable(l.vus, msg.compteur)
            then reste.(vus := l.vus + {msg.compteur}, livres := l.livres + [(msg.compteur, clair)])
            else reste
  }

  ghost function Executer(cle: Terme, es: seq<Etape>): Lien {
    if es == [] then Debut(cle) else Faire(Executer(cle, es[..|es| - 1]), es[|es| - 1])
  }

  /** The body sealed for the n-th plaintext. */
  function CorpsEnvoye(l: Lien, n: nat): Terme
    requires n < |l.envoyes|
  {
    MessageDonnees(0, l.cle, n, l.envoyes[n]).corps
  }

  /** Every body under the session key is one the sender sealed. */
  ghost predicate Authentique(l: Lien, msg: Message) {
    msg.Donnees? && msg.corps.Scelle? && msg.corps.cle == l.cle ==>
      msg.corps.nonce < |l.envoyes| && msg.corps == CorpsEnvoye(l, msg.corps.nonce)
  }

  ghost predicate Inv(l: Lien) {
    && l.compteur == |l.envoyes| <= REJETER_APRES_N
    && (forall msg <- l.fil :: Authentique(l, msg))
    && (forall t <- l.enCours :: Authentique(l, l.enCours[t]))
    && (forall i | 0 <= i < |l.livres| :: l.livres[i].0 in l.vus)
    && (forall i, j | 0 <= i < j < |l.livres| :: l.livres[i].0 != l.livres[j].0)
    && (forall i | 0 <= i < |l.livres| ::
          l.livres[i].0 < |l.envoyes| && l.livres[i].1 == CorpsEnvoye(l, l.livres[i].0).clair)
  }

  lemma EtapeGardeInv(l: Lien, e: Etape)
    requires Inv(l)
    ensures Inv(Faire(l, e))
    ensures l.envoyes <= Faire(l, e).envoyes
  {
    var l' := Faire(l, e);
    forall msg | Authentique(l, msg)
      ensures Authentique(l', msg)
    {
    }
  }

  lemma {:induction false} ExecutionGardeInv(cle: Terme, es: seq<Etape>)
    ensures Inv(Executer(cle, es)) && Executer(cle, es).cle == cle
  {
    if es != [] {
      ExecutionGardeInv(cle, es[..|es| - 1]);
      EtapeGardeInv(Executer(cle, es[..|es| - 1]), es[|es| - 1]);
    }
  }

  /** At most once, and nothing else: on every schedule, no counter is delivered
      twice, and whatever was delivered is the plaintext the sender sealed under that
      counter, followed only by its zero padding. */
  lemma AuPlusUneFois(cle: Terme, es: seq<Etape>)
    ensures var l := Executer(cle, es);
            && (forall i, j | 0 <= i < j < |l.livres| :: l.livres[i].0 != l.livres[j].0)
            && forall i | 0 <= i < |l.livres| ::
                 && l.livres[i].0 < |l.envoyes|
                 && l.livres[i].1 == Paquet(l.envoyes[l.livres[i].0],
                    Remplissage(TailleContenu(l.envoyes[l.livres[i].0])))
  {
    ExecutionGardeInv(cle, es);
  }

  /** The sender never uses a nonce twice and never wraps: its n-th message, and no
      other, carries nonce n, for as long as the session agrees to seal. */
  lemma NonceUnique(cle: Terme, es: seq<Etape>, clair: Contenu, distante: nat)
    requires Executer(cle, es).compteur < REJETER_APRES_N
    ensures var l := Executer(cle, es);
            var neuf := MessageDonnees(distante, cle, l.compteur, clair);
            && Faire(l, Envoyer(clair, distante)).compteur == l.compteur + 1
            && forall msg <- l.fil | msg.Donnees? && msg.corps.Scelle? && msg.corps.cle == cle ::
                 msg.corps.nonce != neuf.corps.nonce
  {
    ExecutionGardeInv(cle, es);
    hide Executer, MessageDonnees, Inv;
    NoncesAnterieurs(Executer(cle, es));
    assert MessageDonnees(distante, cle, Executer(cle, es).compteur, clair).corps.nonce == Executer(cle, es).compteur by {
      NonceDe(distante, cle, Executer(cle, es).compteur, clair);
    }
  }

  lemma NonceDe(distante: nat, cle: Terme, n: nat, clair: Contenu)
    ensures var m := MessageDonnees(distante, cle, n, clair);
            m.Donnees? && m.corps.Scelle? && m.corps.nonce == n
  {
  }

  lemma NoncesAnterieurs(l: Lien)
    requires Inv(l)
    ensures forall msg <- l.fil | msg.Donnees? && msg.corps.Scelle? && msg.corps.cle == l.cle :: msg.corps.nonce < l.compteur
  {
    hide CorpsEnvoye;
  }

  /** And delivery is not vacuous: a message still inside the window, delivered to a
      thread that is not interrupted, arrives. */
  lemma ArriveSiRecevable(l: Lien, n: nat, distante: nat, t: nat)
    requires Inv(l) && n < |l.envoyes|
    requires MessageDonnees(distante, l.cle, n, l.envoyes[n]) in l.fil
    requires Recevable(l.vus, n)
    ensures var l' := Faire(Faire(l, Tester(t, MessageDonnees(distante, l.cle, n, l.envoyes[n]))), Finir(t));
            l'.livres == l.livres + [(n, CorpsEnvoye(l, n).clair)]
  {
  }
}

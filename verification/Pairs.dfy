/** The pairs of an engine as values, what the list given to an engine makes of them,
    and how each change keeps the index table exact. */
module Pairs {
  import opened Termes
  import opened Noise
  import opened Session
  import opened Etats
  import opened Table
  import O = Octets
  import F = Fenetre

  const RELANCER_APRES := 5 * SECONDE
  const ABANDONNER_APRES := 90 * SECONDE
  const MAINTIEN_PASSIF := 10 * SECONDE
  const MAX_EN_ATTENTE := 32

  /** TAI64N, rounded to 2^24 ns: seconds above 2^62 first, nanoseconds after. */
  function Horodatage(maintenant: nat): nat {
    (maintenant / SECONDE + 0x4000_0000_0000_0000) * 0x1_0000_0000 + (maintenant % SECONDE) / 0x100_0000 * 0x100_0000
  }

  /** Time makes it grow, and strictly within 2^24 ns, so within the five seconds between two
      initiations: an initiation sent again is newer to whoever acted on the one before.
      On twelve bytes, its bytes compare as the number does. */
  lemma HorodatageCroit(t: nat, u: nat)
    requires t <= u
    ensures Horodatage(t) <= Horodatage(u)
    ensures u - t >= 0x100_0000 ==> Horodatage(t) < Horodatage(u)
    ensures u / SECONDE < 0x4000_0000_0000_0000 ==>
              && Horodatage(u) < O.Puissance256(12)
              && (O.Avant(O.Gros(Horodatage(u), 12), O.Gros(Horodatage(t), 12)) <==> Horodatage(u) <= Horodatage(t))
  {
    var s, n := t / SECONDE, t % SECONDE;
    var s', n' := u / SECONDE, u % SECONDE;
    assert t == s * SECONDE + n && u == s' * SECONDE + n' && s <= s';
    assert n / 0x100_0000 * 0x100_0000 <= n && n' / 0x100_0000 * 0x100_0000 <= n';
    O.Puissances();
    assert O.Puissance256(10) == 256 * O.Puissance256(9) && O.Puissance256(12) == 256 * O.Puissance256(11);
    if s' < 0x4000_0000_0000_0000 {
      O.GrosOrdonne(Horodatage(u), Horodatage(t), 12);
    }
  }

  /** The initiation written to this key at this instant. */
  function PremierMessage(prive: Prive, k: Terme, tirage: nat, maintenant: nat): (r: (Ini, Option<Corps1>))
    ensures r.1.Some? <==> k.Publique?
  {
    Ecriture1(NouvelIni(prive, k, PROLOGUE), Ephemere(prive, tirage), Date(Horodatage(maintenant)))
  }

  datatype Origine = Direct(point: nat) | ParRelais(numero: nat)

  /** A message ready to leave: to this address, or by the server to this device. */
  datatype Envoi = Envoi(msg: Message, point: Option<nat>, relais: nat)

  /** A datagram on the wire. */
  datatype Sortie = Sortie(msg: Message, point: nat)

  /** How far a message is from being too long to be framed once more. */
  function Marge(msg: Message): nat {
    if TailleMessage(msg) <= TAILLE_MAX_CLAIR - ENTETE_RELAIS
    then TAILLE_MAX_CLAIR - ENTETE_RELAIS - TailleMessage(msg) + 1 else 0
  }

  ghost predicate ACourt(envois: seq<Envoi>, b: nat) {
    forall e <- envois :: e.relais != 0 ==> Marge(e.msg) <= b
  }

  /** What can happen to an engine. */
  datatype Evenement =
    | Arrive(msg: Message, point: nat, d: Decisions)
    | ASceller(k: Terme, octets: seq<nat>)
    | Liste(liste: seq<Config>)
    | NouvelleCle(prive: Prive)
    | Tic

  datatype Config = Config(publique: Terme, point: Option<nat>, numero: nat, parRelais: bool, maintien: int)

  /** What the gates in front of an initiation decided: the rate limit of relayed
      ones, the cookie and the rate limit of direct ones under load. Only a direct
      one is ever asked for a cookie. */
  datatype Porte = Passe | DemanderCookie | Refuser

  /** What the parts left out of this model decide about a message: whether its mac1
      holds, what the gates in front of an initiation say, whether a cookie decrypts,
      who may be relayed to whom, and whether one more relayed initiation may pass. */
  datatype Decisions = Decisions(
    mac1: Message -> bool,
    porte: Message -> Porte,
    cookieLisible: bool,
    relie: (nat, nat) -> bool,
    quota: (nat, nat) -> bool)

  /** When things last happened to a pair, and how often; a zero time means never. */
  datatype Horloges = Horloges(
    derniereTentative: int,
    debutTentatives: int,
    dernierEnvoi: int,
    dernierePoignee: int,
    derniereReception: int,
    recuSansRepondre: int,
    sansReponseDepuis: int,
    recus: nat,
    envoyes: nat)

  datatype Pair = Pair(
    numero: nat,
    point: Option<nat>,
    direct: bool,
    relais: bool,
    maintien: int,
    courante: Session?,
    precedente: Session?,
    suivante: Session?,
    poignee: Option<Ini>,
    indicePoignee: nat,
    dernierHorodatage: Option<nat>,
    h: Horloges,
    attente: seq<Contenu>)
  {
    predicate Actif() {
      direct || relais
    }

    predicate Loge(s: Session?) {
      s == courante || s == suivante || s == precedente
    }

    function VersLui(msg: Message): Envoi {
      if relais then Envoi(msg, None, numero) else Envoi(msg, point, 0)
    }

    /** A relayed message must come from a pair joined by relay, under the number the
        server announces; a direct one, from a pair that is not joined by relay. */
    predicate VenueVerifiee(o: Origine) {
      match o
      case ParRelais(n) => relais && numero == n
      case Direct(_) => !relais
    }

    predicate PeutLancer(maintenant: int) {
      && Actif() && !(direct && point.None?)
      && !(poignee.Some? && maintenant - h.derniereTentative < RELANCER_APRES)
    }

    /** A handshake is pending exactly when an index is reserved for it, and no more
        than 32 plaintexts ever wait. */
    predicate Coherent() {
      (poignee.None? <==> indicePoignee == 0) && |attente| <= MAX_EN_ATTENTE
    }

    function Tenue(): Tenue {
      Table.Tenue(Locale(courante), Locale(precedente), Locale(suivante),
                  if indicePoignee == 0 then None else Some(indicePoignee))
    }

    function Vue(): VuePair {
      VuePair(FicheDe(courante), FicheDe(precedente), FicheDe(suivante), poignee, indicePoignee, dernierHorodatage)
    }
  }

  /** An answer goes back the way the message came. */
  function Retour(o: Origine, msg: Message): Envoi {
    match o
    case ParRelais(n) => Envoi(msg, None, n)
    case Direct(point) => Envoi(msg, Some(point), 0)
  }

  function Locale(s: Session?): Option<nat> {
    if s == null then None else Some(s.locale)
  }

  function FicheDe(s: Session?): Option<Fiche> {
    if s == null then None else Some(Identite(s))
  }

  function Identite(s: Session): Fiche {
    Fiche(s.locale, s.distante, Cles(s.envoi, s.reception), s.initiateur, s.creee)
  }

  const NOUVEAU := Pair(0, None, false, false, 0, null, null, null, None, 0, None,
      Horloges(0, 0, 0, 0, 0, 0, 0, 0, 0), [])

  ghost function Tenues(pairs: map<Terme, Pair>): map<Terme, Tenue> {
    map k | k in pairs :: pairs[k].Tenue()
  }

  /** The table is exact, and a handshake is pending exactly where one is indexed. */
  ghost predicate Exact(pairs: map<Terme, Pair>, indices: map<nat, Terme>) {
    Exacte(indices, Tenues(pairs)) && forall k <- pairs :: pairs[k].Coherent()
  }

  /** Short enough a list for the random search of a free index to end. */
  ghost predicate Court(cles: set<Terme>) {
    |cles| < 0x3FFF_FFFF
  }

  lemma TenuesApres(pairs: map<Terme, Pair>, k: Terme, p: Pair)
    requires k in pairs
    ensures Tenues(pairs[k := p]) == Tenues(pairs)[k := p.Tenue()]
  {
  }

  lemma ExactPoignee(pairs: map<Terme, Pair>, indices: map<nat, Terme>, k: Terme, idx: nat, p: Pair)
    requires Exact(pairs, indices) && k in pairs
    requires 0 < idx <= INDICE_MAX && idx !in indices.Keys - Seul(pairs[k].Tenue().poignee)
    requires p.Coherent() && p.Tenue() == pairs[k].Tenue().(poignee := Some(idx))
    ensures Exact(pairs[k := p], (indices - Seul(pairs[k].Tenue().poignee))[idx := k])
  {
    TenuesApres(pairs, k, p);
    PoigneeRemplacee(indices, Tenues(pairs), k, idx);
  }

  lemma CoherentEn(pairs: map<Terme, Pair>, indices: map<nat, Terme>, k: Terme)
    requires Exact(pairs, indices) && k in pairs
    ensures pairs[k].Coherent()
  {
  }

  lemma ExactSuivante(pairs: map<Terme, Pair>, indices: map<nat, Terme>, k: Terme, idx: nat, p: Pair)
    requires Exact(pairs, indices) && k in pairs
    requires 0 < idx <= INDICE_MAX && idx !in indices.Keys - Seul(Locale(pairs[k].suivante))
    requires p.Coherent() && p.Tenue() == pairs[k].Tenue().(suivante := Some(idx))
    ensures Exact(pairs[k := p], (indices - Seul(Locale(pairs[k].suivante)))[idx := k])
  {
    TenuesApres(pairs, k, p);
    SuivanteRemplacee(indices, Tenues(pairs), k, idx);
  }

  lemma ExactReponse(pairs: map<Terme, Pair>, indices: map<nat, Terme>, k: Terme, p: Pair)
    requires Exact(pairs, indices) && k in pairs
    requires var t := pairs[k].Tenue();
             p.Coherent() && p.Tenue() == Table.Tenue(t.poignee, t.courante, t.suivante, None)
    ensures Exact(pairs[k := p], indices - Seul(Locale(pairs[k].precedente)))
  {
    TenuesApres(pairs, k, p);
    ReponseRecue(indices, Tenues(pairs), k);
  }

  lemma ExactPromotion(pairs: map<Terme, Pair>, indices: map<nat, Terme>, k: Terme, p: Pair)
    requires Exact(pairs, indices) && k in pairs
    requires var t := pairs[k].Tenue();
             p.Coherent() && p.Tenue() == Table.Tenue(t.suivante, t.courante, None, t.poignee)
    ensures Exact(pairs[k := p], indices - Seul(Locale(pairs[k].precedente)))
  {
    TenuesApres(pairs, k, p);
    Promotion(indices, Tenues(pairs), k);
  }

  lemma ExactArrivee(pairs: map<Terme, Pair>, indices: map<nat, Terme>, k: Terme, p: Pair)
    requires Exact(pairs, indices) && k !in pairs
    requires p.Coherent() && p.Tenue() == LIBRE
    ensures Exact(pairs[k := p], indices)
  {
    Arrivee(indices, Tenues(pairs), k);
    assert Tenues(pairs[k := p]) == Tenues(pairs)[k := LIBRE];
  }

  lemma SansEncore(indices: map<nat, Terme>, ks: set<Terme>, k: Terme)
    ensures Sauf(Sauf(indices, ks), {k}) == Sauf(indices, ks + {k})
  {
  }

  lemma ExactDepart(pairs: map<Terme, Pair>, indices: map<nat, Terme>, ks: set<Terme>)
    requires Exact(pairs, indices)
    ensures Exact(pairs - ks, Sauf(indices, ks))
  {
    Depart(indices, Tenues(pairs), ks);
    assert Tenues(pairs - ks) == Tenues(pairs) - ks;
  }

  lemma TousVivants(pairs: map<Terme, Pair>, indices: map<nat, Terme>)
    requires Exact(pairs, indices)
    ensures forall i <- indices :: i != 0 && indices[i] in pairs
  {
    assert Tenues(pairs).Keys == pairs.Keys;
  }

  /** Nothing that is indexed changed. */
  lemma ExactSansChange(pairs: map<Terme, Pair>, indices: map<nat, Terme>, k: Terme, p: Pair)
    requires Exact(pairs, indices) && k in pairs
    requires p.Coherent() && p.Tenue() == pairs[k].Tenue()
    ensures Exact(pairs[k := p], indices)
  {
    TenuesApres(pairs, k, p);
    assert Tenues(pairs[k := p]) == Tenues(pairs);
  }

  function Seule(s: Session?): set<Session> {
    if s == null then {} else {s}
  }

  /** What starting a handshake does to a pair, and what leaves. */
  ghost predicate Lance(prive: Prive, k: Terme, tirage: nat, maintenant: nat, p: Pair, p': Pair, envois: seq<Envoi>) {
    if !p.PeutLancer(maintenant) then p' == p && envois == []
    else if !k.Publique? then p' == p.(h := Tentative(p.h, maintenant)) && envois == []
    else
      var (ini, m) := PremierMessage(prive, k, tirage, maintenant);
      && p' == p.(poignee := Some(ini), indicePoignee := p'.indicePoignee,
                  h := Tentative(p.h, maintenant).(derniereTentative := maintenant))
      && p'.Vue() == ApresLancement(p.Vue(), ini, p'.indicePoignee)
      && envois == [p.VersLui(Initiation(p'.indicePoignee, m.valeur))]
  }

  /** Anything but the sealed plaintext itself left only because the pair could start
      a handshake, and it cannot any more. */
  ghost predicate Progres(p: Pair, p': Pair, clair: Contenu, maintenant: nat, envois: seq<Envoi>) {
    && (p'.PeutLancer(maintenant) ==> p.PeutLancer(maintenant))
    && ((p.PeutLancer(maintenant) && !p'.PeutLancer(maintenant))
        || forall e <- envois :: TailleMessage(e.msg) >= TailleContenu(clair) + ENTETE_DONNEES + TAILLE_TAG)
  }

  lemma LanceProgresse(prive: Prive, k: Terme, tirage: nat, maintenant: nat, p: Pair, p': Pair, envois: seq<Envoi>)
    requires Lance(prive, k, tirage, maintenant, p, p', envois)
    ensures envois == [] || (p.PeutLancer(maintenant) && !p'.PeutLancer(maintenant))
    ensures p'.PeutLancer(maintenant) ==> p.PeutLancer(maintenant)
  {
  }

  /** A plaintext waits on the side that opens sessions, up to 32 of them. */
  function MisEnAttente(p: Pair, clair: Contenu): (r: Pair)
    ensures r == p.(attente := r.attente) && Tranches(r) == Tranches(p)
    ensures forall t: nat :: r.PeutLancer(t) == p.PeutLancer(t)
  {
    if p.Actif() && |p.attente| < MAX_EN_ATTENTE then p.(attente := p.attente + [clair]) else p
  }

  function Tentative(h: Horloges, maintenant: nat): Horloges {
    if h.debutTentatives == 0 then h.(debutTentatives := maintenant) else h
  }

  /** All but the handshake and the clocks of its attempts. */
  lemma LanceGarde(prive: Prive, k: Terme, tirage: nat, maintenant: nat, p: Pair, p': Pair, envois: seq<Envoi>)
    requires Lance(prive, k, tirage, maintenant, p, p', envois)
    ensures p == p'.(poignee := p.poignee, indicePoignee := p.indicePoignee, h := p.h) && Tranches(p') == Tranches(p)
    ensures p.h == p'.h.(derniereTentative := p.h.derniereTentative, debutTentatives := p.h.debutTentatives)
  {
  }

  /** The clocks of a pair once something was sealed for it. */
  function ApresEnvoi(p: Pair, clair: Contenu, maintenant: nat): (r: Pair)
    ensures r == p.(h := r.h) && Tranches(r) == Tranches(p) && r.h.debutTentatives == p.h.debutTentatives
    ensures forall t: nat :: r.PeutLancer(t) == p.PeutLancer(t)
  {
    var attend := p.Actif() && TailleContenu(clair) > 0 && p.h.sansReponseDepuis == 0;
    p.(h := p.h.(envoyes := p.h.envoyes + 1, dernierEnvoi := maintenant, recuSansRepondre := 0,
                 sansReponseDepuis := if attend then maintenant else p.h.sansReponseDepuis))
  }

  /** What sealing a plaintext does to a pair whose session can seal: the message is the
      last thing to leave, after an initiation when the session is due for renewal. */
  ghost predicate Envoye(prive: Prive, k: Terme, tirage: nat, maintenant: nat, p: Pair, p': Pair,
                         donnees: Message, clair: Contenu, renouveler: bool, envois: seq<Envoi>) {
    && envois != [] && envois[|envois| - 1] == p.VersLui(donnees)
    && exists h: Horloges ::
         var p1 := p'.(h := h);
         && p' == ApresEnvoi(p1, clair, maintenant)
         && if renouveler then Lance(prive, k, tirage, maintenant, p, p1, envois[..|envois| - 1])
            else p1 == p && |envois| == 1
  }

  lemma VersLuiPareil(p: Pair, q: Pair, msg: Message)
    requires p.relais == q.relais && p.numero == q.numero && p.point == q.point
    ensures p.VersLui(msg) == q.VersLui(msg)
  {
  }

  lemma EnvoyeApres(prive: Prive, k: Terme, tirage: nat, maintenant: nat, p: Pair, p1: Pair, donnees: Message,
                    clair: Contenu,
                    renouveler: bool, debut: seq<Envoi>)
    requires if renouveler then Lance(prive, k, tirage, maintenant, p, p1, debut) else p1 == p && debut == []
    ensures Envoye(prive, k, tirage, maintenant, p, ApresEnvoi(p1, clair, maintenant), donnees, clair, renouveler,
                   debut + [p.VersLui(donnees)])
  {
    hide Lance, ApresEnvoi, Pair.VersLui;
    var p', envois := ApresEnvoi(p1, clair, maintenant), debut + [p.VersLui(donnees)];
    assert envois[..|envois| - 1] == debut;
    assert p'.(h := p1.h) == p1;
  }

  lemma DernierEnvoye(prive: Prive, k: Terme, tirage: nat, maintenant: nat, p: Pair, p': Pair,
                      donnees: Message, clair: Contenu, renouveler: bool, envois: seq<Envoi>)
    requires Envoye(prive, k, tirage, maintenant, p, p', donnees, clair, renouveler, envois)
    ensures envois != [] && envois[|envois| - 1] == p.VersLui(donnees)
  {
  }

  lemma EnvoyeProgresse(prive: Prive, k: Terme, tirage: nat, maintenant: nat, p: Pair, p': Pair,
                        donnees: Message, clair: Contenu, renouveler: bool, envois: seq<Envoi>)
    requires Envoye(prive, k, tirage, maintenant, p, p', donnees, clair, renouveler, envois)
    requires TailleMessage(donnees) >= TailleContenu(clair) + ENTETE_DONNEES + TAILLE_TAG
    ensures Progres(p, p', clair, maintenant, envois)
  {
    hide Lance, ApresEnvoi, TailleMessage, TailleContenu, Pair.PeutLancer, Progres, Pair.VersLui;
    var h: Horloges :|
      var p1 := p'.(h := h);
      && p' == ApresEnvoi(p1, clair, maintenant)
      && if renouveler then Lance(prive, k, tirage, maintenant, p, p1, envois[..|envois| - 1])
         else p1 == p && |envois| == 1;
    var p1, debut := p'.(h := h), envois[..|envois| - 1];
    assert p'.PeutLancer(maintenant) == p1.PeutLancer(maintenant);
    if renouveler {
      LanceProgresse(prive, k, tirage, maintenant, p, p1, debut);
    }
    DernierProgresse(p, p', donnees, clair, maintenant, envois);
  }

  lemma DernierProgresse(p: Pair, p': Pair, donnees: Message, clair: Contenu, maintenant: nat, envois: seq<Envoi>)
    requires p'.PeutLancer(maintenant) ==> p.PeutLancer(maintenant)
    requires envois != [] && envois[|envois| - 1] == p.VersLui(donnees)
    requires |envois| == 1 || (p.PeutLancer(maintenant) && !p'.PeutLancer(maintenant))
    requires TailleMessage(donnees) >= TailleContenu(clair) + ENTETE_DONNEES + TAILLE_TAG
    ensures Progres(p, p', clair, maintenant, envois)
  {
    hide TailleMessage, TailleContenu, Pair.PeutLancer;
  }

  lemma SansEnvoiProgresse(prive: Prive, k: Terme, tirage: nat, maintenant: nat, p: Pair, p': Pair, clair: Contenu,
                           envois: seq<Envoi>)
    requires Lance(prive, k, tirage, maintenant, MisEnAttente(p, clair), p', envois)
    ensures Progres(p, p', clair, maintenant, envois)
  {
    hide Lance;
    LanceProgresse(prive, k, tirage, maintenant, MisEnAttente(p, clair), p', envois);
  }

  // ----- the sessions of a list of pairs ---------------------------------------------------

  function Tranches(p: Pair): set<Session> {
    Seule(p.courante) + Seule(p.precedente) + Seule(p.suivante)
  }

  ghost function SessionsDe(pairs: map<Terme, Pair>): set<Session> {
    set k, s | k in pairs && s in Tranches(pairs[k]) :: s
  }

  /** One opening: a counter, with a session. */
  datatype Reception = Reception(s: Session, n: nat)

  /** Nothing was opened twice. */
  ghost predicate SansRejeu(recues: seq<Reception>) {
    forall i, j | 0 <= i < j < |recues| :: recues[i] != recues[j]
  }

  /** Every session is in order, no two share a window, and the windows remember all that
      was opened with them, which was opened once. */
  ghost predicate Saines(ss: set<Session>, recues: seq<Reception>)
    reads ss, set s <- ss :: s.rejeu, set s <- ss :: s.rejeu.bits
  {
    && (forall s <- ss :: s.Valid())
    && (forall s, t | s in ss && t in ss && s != t :: s.rejeu != t.rejeu && s.rejeu.bits != t.rejeu.bits)
    && SansRejeu(recues)
    && forall x <- recues | x.s in ss :: x.n in x.s.rejeu.vus
  }

  lemma SainesEn(ss: set<Session>, recues: seq<Reception>)
    requires Saines(ss, recues)
    ensures forall s <- ss :: s.Valid()
    ensures forall s, t | s in ss && t in ss && s != t :: s.rejeu != t.rejeu && s.rejeu.bits != t.rejeu.bits
    ensures SansRejeu(recues) && forall x <- recues | x.s in ss :: x.n in x.s.rejeu.vus
  {
  }

  lemma SainesRecue(ss: set<Session>, recues: seq<Reception>, s: Session, n: nat)
    requires Saines(ss, recues) && s in ss && n in s.rejeu.vus && Reception(s, n) !in recues
    ensures Saines(ss, recues + [Reception(s, n)])
  {
    forall i, j | 0 <= i < j < |recues + [Reception(s, n)]|
      ensures (recues + [Reception(s, n)])[i] != (recues + [Reception(s, n)])[j]
    {
      assert recues[i] in recues;
    }
  }

  lemma SessionDe(pairs: map<Terme, Pair>, k: Terme, s: Session)
    requires k in pairs && pairs[k].Loge(s)
    ensures s in SessionsDe(pairs)
  {
    assert s in Tranches(pairs[k]);
  }

  /** The sessions after a step are those before it, or brand new. */
  twostate predicate Neuves(avant: set<Session>, new apres: set<Session>) {
    forall s <- apres :: s in avant || (fresh(s) && fresh(s.rejeu) && fresh(s.rejeu.bits))
  }

  /** A session just made, in order, with a window of its own. */
  twostate predicate Neuve(new s: Session)
    reads s, s.rejeu, s.rejeu.bits
  {
    s.Valid() && fresh(s.rejeu) && fresh(s.rejeu.bits)
  }

  /** A counter entered the window of s, or no window changed at all. */
  twostate predicate SeulVu(ss: set<Session>, s: Session?, n: Option<nat>)
    reads set t <- ss :: t.rejeu
  {
    forall t <- ss :: t.rejeu.vus == old(t.rejeu.vus) + if t == s && n.Some? then {n.valeur} else {}
  }

  /** A session that a step left alone, only sealed with, or left in order. */
  twostate predicate Intacte(s: Session)
    reads s, s.rejeu, s.rejeu.bits
  {
    s.Valid() || ((unchanged(s) || s.compteur < MODULO_64) && unchanged(s.rejeu) && unchanged(s.rejeu.bits))
  }

  lemma NouveauCompteur(vus: set<nat>, n: nat)
    requires F.Recevable(vus, n)
    ensures n !in vus
  {
  }

  /** The sessions at some moment, and what was opened by then. */
  datatype Releve = Releve(ss: set<Session>, recues: seq<Reception>)

  /** A step that spoils no session, whose windows forget nothing, and that adds one at most. */
  twostate lemma SainesApres(avant: Releve, new apres: set<Session>)
    requires old(Saines(avant.ss, avant.recues)) && Neuves(avant.ss, apres)
    requires forall s <- apres | s in avant.ss :: Intacte(s) && old(s.rejeu.vus) <= s.rejeu.vus
    requires forall s <- apres | s !in avant.ss :: s.Valid()
    requires forall s, t | s in apres && t in apres && s !in avant.ss && t !in avant.ss :: s == t
    ensures Saines(apres, avant.recues)
  {
    forall x | x in avant.recues && x.s in apres
      ensures x.n in x.s.rejeu.vus
    {
      assert !fresh(x.s);
    }
  }

  lemma SessionIndexee(pairs: map<Terme, Pair>, indices: map<nat, Terme>, k: Terme, s: Session)
    requires Exact(pairs, indices) && k in pairs && s in Tranches(pairs[k])
    ensures s.locale in indices && indices[s.locale] == k
  {
    assert Tient(Tenues(pairs)[k], s.locale);
  }

  lemma PasDeSession(pairs: map<Terme, Pair>, indices: map<nat, Terme>, dest: nat)
    requires Exact(pairs, indices) && dest !in indices
    ensures forall k, s | k in pairs && s in Tranches(pairs[k]) :: s.locale != dest
  {
    hide Exact;
    forall k, s | k in pairs && s in Tranches(pairs[k])
      ensures s.locale != dest
    {
      SessionIndexee(pairs, indices, k, s);
    }
  }

  /** One index, one pair... */
  lemma SeuleSession(pairs: map<Terme, Pair>, indices: map<nat, Terme>, dest: nat)
    requires Exact(pairs, indices) && dest in indices
    ensures forall k, s | k in pairs && s in Tranches(pairs[k]) && s.locale == dest :: k == indices[dest]
  {
    hide Exact;
    forall k, s | k in pairs && s in Tranches(pairs[k]) && s.locale == dest
      ensures k == indices[dest]
    {
      SessionIndexee(pairs, indices, k, s);
    }
  }

  /** The slots, in the order a data message tries them. */
  function Chercher(p: Pair, dest: nat): Session? {
    if p.courante != null && p.courante.locale == dest then p.courante
    else if p.suivante != null && p.suivante.locale == dest then p.suivante
    else if p.precedente != null && p.precedente.locale == dest then p.precedente
    else null
  }

  /** ... and one session: the order does not matter. */
  lemma SeulePlace(pairs: map<Terme, Pair>, indices: map<nat, Terme>, k: Terme, dest: nat)
    requires Exact(pairs, indices) && k in pairs
    ensures var s := Chercher(pairs[k], dest);
            && (s != null ==> pairs[k].Loge(s) && s.locale == dest)
            && forall t <- Tranches(pairs[k]) | t.locale == dest :: t == s
  {
    assert Distincts(Tenues(pairs)[k]);
  }

  /** A pair replaced brings no session but those it holds. */
  lemma SessionsApres(pairs: map<Terme, Pair>, k: Terme, p: Pair)
    requires k in pairs
    ensures SessionsDe(pairs[k := p]) <= SessionsDe(pairs) + Tranches(p)
    ensures Tranches(pairs[k]) <= SessionsDe(pairs)
  {
    forall s | s in SessionsDe(pairs[k := p])
      ensures s in SessionsDe(pairs) + Tranches(p)
    {
      var k' :| k' in pairs[k := p] && s in Tranches(pairs[k := p][k']);
      if k' != k {
        assert s in Tranches(pairs[k']);
      }
    }
  }

  /** No slot changed. */
  lemma MemesTranches(pairs: map<Terme, Pair>, apres: map<Terme, Pair>)
    requires apres.Keys == pairs.Keys && forall k <- apres :: Tranches(apres[k]) == Tranches(pairs[k])
    ensures SessionsDe(apres) <= SessionsDe(pairs)
  {
    forall s | s in SessionsDe(apres)
      ensures s in SessionsDe(pairs)
    {
      var k :| k in apres && s in Tranches(apres[k]);
    }
  }

  /** One slot gained a session. */
  lemma UneDePlus(pairs: map<Terme, Pair>, k: Terme, p: Pair, s: Session)
    requires k in pairs && Tranches(p) <= Tranches(pairs[k]) + {s}
    ensures SessionsDe(pairs[k := p]) <= SessionsDe(pairs) + {s}
  {
    SessionsApres(pairs, k, p);
  }

  /** No slot gained a session. */
  lemma MoinsDeSessions(pairs: map<Terme, Pair>, k: Terme, p: Pair)
    requires k in pairs && Tranches(p) <= Tranches(pairs[k])
    ensures SessionsDe(pairs[k := p]) <= SessionsDe(pairs)
  {
    SessionsApres(pairs, k, p);
  }

  /** The next session becomes the current one, once the other side has used it. */
  function Confirmee(p: Pair, s: Session, maintenant: nat): (r: Pair)
    ensures p.Loge(s) ==> Tranches(r) <= Tranches(p)
    ensures r.courante == s || r.courante == p.courante
    ensures r.Vue() == if s == p.suivante then ApresPromotion(p.Vue()) else p.Vue()
  {
    if s != p.suivante then p
    else p.(precedente := p.courante, courante := s, suivante := null, h := p.h.(dernierePoignee := maintenant))
  }

  /** A pair after an authentic message: where it is now, and when it was heard. */
  function Entendue(p: Pair, o: Origine, vide: bool, maintenant: nat): (r: Pair)
    ensures r == p.(point := r.point, h := r.h) && Tranches(r) == Tranches(p)
  {
    p.(point := if o.Direct? && !p.direct then Some(o.point) else p.point,
       h := p.h.(recus := p.h.recus + 1, derniereReception := maintenant, sansReponseDepuis := 0,
                 recuSansRepondre := if !vide && p.h.recuSansRepondre == 0 then maintenant else p.h.recuSansRepondre))
  }

  /** A pair that only answers owes a sign of life to one that sends keep-alives, when
      it has said nothing for ten seconds. */
  predicate DoitRepondre(p: Pair, vide: bool, maintenant: nat) {
    vide && !p.Actif() && maintenant - p.h.dernierEnvoi >= MAINTIEN_PASSIF
  }

  /** The answer a pair gets, if any, and what that leaves of it. */
  ghost predicate Repond(p: Pair, vide: bool, utilisable: bool, compteur: nat, maintenant: nat, p': Pair,
                         envois: seq<Envoi>)
    requires utilisable ==> p.courante != null
  {
    if DoitRepondre(p, vide, maintenant) && utilisable
    then && p' == ApresEnvoi(p, RIEN, maintenant)
         && envois == [p.VersLui(MessageDonnees(p.courante.distante, p.courante.envoi, compteur, RIEN))]
    else p' == p && envois == []
  }

  /** What an opened plaintext is: nothing, a relay frame, a packet, or neither. */
  datatype Lu = Maintien | EnTrame(numero: nat, msg: Message) | EnPaquet(o: seq<nat>) | Illisible

  function Lire(clair: Terme): Lu {
    if Taille(clair) == 0 then Maintien
    else match clair
      case Paquet(Trame(numero, msg), _) => EnTrame(numero, msg)
      case Paquet(Octets(o), _) => if o != [] && o[0] != 0 then EnPaquet(o) else Illisible
      case _ => Illisible
  }

  function EnvoisDe(p: Pair, distante: nat, envoi: Terme, clairs: seq<Contenu>): seq<Envoi> {
    seq(|clairs|, n requires 0 <= n < |clairs| => p.VersLui(MessageDonnees(distante, envoi, n, clairs[n])))
  }

  /** A pair whose handshake was answered: s is current, everything that waited left. */
  function Ouverte(p: Pair, s: Session, partis: nat, maintenant: nat): Pair {
    p.(precedente := p.courante, courante := s, poignee := None, indicePoignee := 0, attente := [],
       h := p.h.(debutTentatives := 0, dernierePoignee := maintenant, derniereReception := maintenant,
                 sansReponseDepuis := 0, envoyes := p.h.envoyes + partis, dernierEnvoi := maintenant,
                 recuSansRepondre := 0))
  }

  lemma TranchesOuverte(p: Pair, s: Session, partis: nat, maintenant: nat)
    ensures Tranches(Ouverte(p, s, partis, maintenant)) <= Tranches(p) + {s}
  {
  }

  // ----- what a list of pairs asks for ----------------------------------------------------

  function Nommes(liste: seq<Config>): set<Terme> {
    set c <- liste :: c.publique
  }

  /** The pair before the list is applied: the one held under this key, or a new one. */
  function Garde(pairs: map<Terme, Pair>, k: Terme): Pair {
    if k in pairs then pairs[k] else NOUVEAU
  }

  /** The number the list gives a key: its last one. */
  function Numeroter(p: Pair, liste: seq<Config>, k: Terme): (r: Pair)
    ensures r == p.(numero := r.numero)
  {
    if liste == [] then p
    else
      var q, c := Numeroter(p, liste[..|liste| - 1], k), liste[|liste| - 1];
      if c.publique == k then q.(numero := c.numero) else q
  }

  /** The path the list gives a key: its last one, but an address once given stays. */
  function Regler(p: Pair, liste: seq<Config>, k: Terme): (r: Pair)
    ensures r == p.(point := r.point, direct := r.direct, relais := r.relais, maintien := r.maintien)
  {
    if liste == [] then p
    else
      var q, c := Regler(p, liste[..|liste| - 1], k), liste[|liste| - 1];
      if c.publique == k then Regler1(q, c) else q
  }

  /** The first pass over a list: new pairs appear, numbers are given. */
  function Inscrits(pairs: map<Terme, Pair>, liste: seq<Config>): map<Terme, Pair> {
    if liste == [] then pairs
    else
      var q, c := Inscrits(pairs, liste[..|liste| - 1]), liste[|liste| - 1];
      q[c.publique := Garde(q, c.publique).(numero := c.numero)]
  }

  /** The last pass: paths are set. */
  function Regles(pairs: map<Terme, Pair>, liste: seq<Config>): (r: map<Terme, Pair>)
    requires Nommes(liste) <= pairs.Keys
    ensures r.Keys == pairs.Keys
  {
    if liste == [] then pairs
    else
      DebutNommes(liste);
      var q, c := Regles(pairs, liste[..|liste| - 1]), liste[|liste| - 1];
      q[c.publique := Regler1(q[c.publique], c)]
  }

  function Regler1(p: Pair, c: Config): Pair {
    p.(point := if c.point.Some? then c.point else p.point, direct := c.point.Some?,
       relais := c.parRelais, maintien := c.maintien)
  }

  lemma DebutNommes(liste: seq<Config>)
    requires liste != []
    ensures Nommes(liste) == Nommes(liste[..|liste| - 1]) + {liste[|liste| - 1].publique}
  {
    assert liste == liste[..|liste| - 1] + [liste[|liste| - 1]];
  }

  lemma {:induction false} InscritsSont(pairs: map<Terme, Pair>, liste: seq<Config>)
    ensures var r := Inscrits(pairs, liste);
            && r.Keys == pairs.Keys + Nommes(liste)
            && forall k <- r :: r[k] == Numeroter(Garde(pairs, k), liste, k)
  {
    if liste != [] {
      var debut, c := liste[..|liste| - 1], liste[|liste| - 1];
      InscritsSont(pairs, debut);
      DebutNommes(liste);
      if c.publique !in Inscrits(pairs, debut) {
        Inconnu(debut, c.publique);
      }
    }
  }

  lemma {:induction false} InscritsExacts(pairs: map<Terme, Pair>, indices: map<nat, Terme>, liste: seq<Config>)
    requires Exact(pairs, indices)
    ensures Exact(Inscrits(pairs, liste), indices)
  {
    if liste != [] {
      hide Exact;
      var debut, c := liste[..|liste| - 1], liste[|liste| - 1];
      InscritsExacts(pairs, indices, debut);
      var q := Inscrits(pairs, debut);
      if c.publique in q {
        ExactSansChange(q, indices, c.publique, q[c.publique].(numero := c.numero));
      } else {
        ExactArrivee(q, indices, c.publique, NOUVEAU.(numero := c.numero));
      }
    }
  }

  /** A list that does not name a key leaves its pair alone. */
  lemma {:induction false} Inconnu(liste: seq<Config>, k: Terme)
    requires k !in Nommes(liste)
    ensures forall p :: Numeroter(p, liste, k) == p
  {
    if liste != [] {
      DebutNommes(liste);
      Inconnu(liste[..|liste| - 1], k);
    }
  }

  lemma {:induction false} ReglesSont(pairs: map<Terme, Pair>, indices: map<nat, Terme>, liste: seq<Config>)
    requires Exact(pairs, indices) && Nommes(liste) <= pairs.Keys
    ensures var r := Regles(pairs, liste);
            Exact(r, indices) && forall k <- r :: r[k] == Regler(pairs[k], liste, k)
  {
    if liste != [] {
      var debut, c := liste[..|liste| - 1], liste[|liste| - 1];
      DebutNommes(liste);
      ReglesSont(pairs, indices, debut);
      var q := Regles(pairs, debut);
      ExactSansChange(q, indices, c.publique, Regler1(q[c.publique], c));
    }
  }

  /** The three passes together. */
  lemma ListeAppliquee(pairs: map<Terme, Pair>, indices: map<nat, Terme>, liste: seq<Config>)
    requires Exact(pairs, indices)
    ensures var inscrits := Inscrits(pairs, liste);
            var partis := inscrits.Keys - Nommes(liste);
            && Nommes(liste) <= (inscrits - partis).Keys
            && partis == pairs.Keys - Nommes(liste)
            && var r := Regles(inscrits - partis, liste);
               && r.Keys == Nommes(liste)
               && Exact(r, Sauf(indices, partis))
               && forall k <- r :: r[k] == Regler(Numeroter(Garde(pairs, k), liste, k), liste, k)
  {
    hide Exact;
    InscritsSont(pairs, liste);
    InscritsExacts(pairs, indices, liste);
    var inscrits := Inscrits(pairs, liste);
    var partis := inscrits.Keys - Nommes(liste);
    ExactDepart(inscrits, indices, partis);
    ReglesSont(inscrits - partis, Sauf(indices, partis), liste);
  }

  /** Applying a list brings no session that was not there. */
  lemma SessionsListees(pairs: map<Terme, Pair>, liste: seq<Config>, r: map<Terme, Pair>)
    requires forall k <- r :: r[k] == Regler(Numeroter(Garde(pairs, k), liste, k), liste, k)
    ensures SessionsDe(r) <= SessionsDe(pairs)
  {
    forall s | s in SessionsDe(r)
      ensures s in SessionsDe(pairs)
    {
      var k :| k in r && s in Tranches(r[k]);
      assert Tranches(r[k]) == Tranches(Garde(pairs, k));
    }
  }

  function ParNumero(liste: seq<Config>): (r: map<nat, Terme>)
    ensures forall n <- r :: n != 0 && r[n] in Nommes(liste)
  {
    if liste == [] then map[]
    else
      var q, c := ParNumero(liste[..|liste| - 1]), liste[|liste| - 1];
      assert c in liste;
      assert forall d <- liste[..|liste| - 1] :: d in liste;
      if c.numero != 0 then q[c.numero := c.publique] else q
  }

  function ServeurDe(liste: seq<Config>): (r: Option<Terme>)
    ensures r.Some? ==> r.valeur in Nommes(liste)
  {
    if liste == [] then None
    else
      var c := liste[|liste| - 1];
      assert c in liste;
      assert forall d <- liste[..|liste| - 1] :: d in liste;
      if c.point.Some? then Some(c.publique) else ServeurDe(liste[..|liste| - 1])
  }


  // ----- the list a client gives its engine ------------------------------------------------

  /** The server, joined directly, then every device kept, joined by relay. */
  function ListeClient(serveur: Terme, point: nat, autres: seq<(Terme, nat)>): seq<Config> {
    [Config(serveur, Some(point), 0, false, 25 * SECONDE)] + Relayes(autres)
  }

  function Relayes(autres: seq<(Terme, nat)>): seq<Config> {
    seq(|autres|, i requires 0 <= i < |autres| => Config(autres[i].0, None, autres[i].1, true, 0))
  }

  lemma {:induction false} ListeClientRegle(serveur: Terme, point: nat, autres: seq<(Terme, nat)>, p: Pair)
    ensures var liste := ListeClient(serveur, point, autres);
            && ServeurDe(liste) == Some(serveur)
            && Regler(p, liste, serveur).relais == (exists a <- autres :: a.0 == serveur)
            && Regler(p, liste, serveur).direct == !Regler(p, liste, serveur).relais
  {
    var liste := ListeClient(serveur, point, autres);
    var n := |autres|;
    if n == 0 {
      assert liste == [Config(serveur, Some(point), 0, false, 25 * SECONDE)] && liste[..0] == [];
      assert Regler(p, liste[..0], serveur) == p;
    } else {
      assert liste[..n] == ListeClient(serveur, point, autres[..n - 1]);
      ListeClientRegle(serveur, point, autres[..n - 1], p);
      assert autres == autres[..n - 1] + [autres[n - 1]];
    }
  }

  /** The server pair is never itself joined by relay, if and only if no device is
      announced under the server's own key. Nothing in the client refuses such a list:
      its messages for the server would then be framed for the server. */
  lemma ServeurJamaisRelaye(pairs: map<Terme, Pair>, serveur: Terme, point: nat, autres: seq<(Terme, nat)>)
    ensures var liste := ListeClient(serveur, point, autres);
            var p := Regler(Numeroter(Garde(pairs, serveur), liste, serveur), liste, serveur);
            !p.relais <==> forall a <- autres :: a.0 != serveur
  {
    var liste := ListeClient(serveur, point, autres);
    ListeClientRegle(serveur, point, autres, Numeroter(Garde(pairs, serveur), liste, serveur));
  }

  // ----- time passing -----------------------------------------------------------------------

  /** A pair we open sessions to needs a new one: its session is due for renewal while it
      is the server or something waits, or nothing came back for too long. */
  predicate ARouvrir(p: Pair, renouveler: bool, maintenant: nat, sansReponseMax: int) {
    || (renouveler && (p.direct || |p.attente| > 0))
    || (p.h.sansReponseDepuis != 0 && maintenant - p.h.sansReponseDepuis > sansReponseMax)
    || (p.maintien > 0 && p.courante != null && maintenant - p.h.derniereReception > p.maintien + sansReponseMax)
  }

  function SiJeune(s: Session?, maintenant: nat): Session? {
    if s != null && s.Expiree(maintenant) then null else s
  }

  /** The slots once the expired sessions are gone. */
  function Rajeunie(p: Pair, maintenant: nat): (r: Pair)
    ensures Tranches(r) <= Tranches(p)
    ensures forall s <- Tranches(r) :: !s.Expiree(maintenant)
    ensures r.Vue() == ApresExpiration(p.Vue(), maintenant, REJETER_APRES)
  {
    p.(precedente := SiJeune(p.precedente, maintenant),
       courante := SiJeune(p.courante, maintenant),
       suivante := SiJeune(p.suivante, maintenant))
  }

  function SiVieux(s: Session?, maintenant: nat): set<nat> {
    if s != null && s.Expiree(maintenant) then {s.locale} else {}
  }

  /** The indices left once those of the expired sessions of a pair are given up. */
  function SansExpires(indices: map<nat, Terme>, p: Pair, maintenant: nat): map<nat, Terme> {
    indices - SiVieux(p.precedente, maintenant) - SiVieux(p.courante, maintenant) - SiVieux(p.suivante, maintenant)
  }

  lemma ExactExpiration(pairs: map<Terme, Pair>, indices: map<nat, Terme>, k: Terme, maintenant: nat)
    requires Exact(pairs, indices) && k in pairs
    ensures Exact(pairs[k := Rajeunie(pairs[k], maintenant)], SansExpires(indices, pairs[k], maintenant))
  {
    var p := pairs[k];
    var p' := Rajeunie(p, maintenant);
    TenuesApres(pairs, k, p');
    assert Tenues(pairs)[k] == p.Tenue() && Distincts(p.Tenue());
    ExpiresSont(indices, p, maintenant);
    Expiration(indices, Tenues(pairs), k, p'.Tenue(), SansExpires(indices, p, maintenant));
  }

  lemma ExpiresSont(indices: map<nat, Terme>, p: Pair, maintenant: nat)
    requires Distincts(p.Tenue())
    ensures var t, reste := Rajeunie(p, maintenant).Tenue(), SansExpires(indices, p, maintenant);
            forall i: nat :: i in reste <==> i in indices && (Tient(p.Tenue(), i) ==> Tient(t, i))
  {
  }

  /** A pair unreachable for too long forgets what waits for it, and starts counting again. */
  function Abandonnee(p: Pair, maintenant: nat): (r: Pair)
    ensures r == p.(attente := r.attente, h := p.h.(debutTentatives := r.h.debutTentatives))
              && Tranches(r) == Tranches(p)
    ensures r.h.debutTentatives == 0 || maintenant - r.h.debutTentatives <= ABANDONNER_APRES
  {
    if p.h.debutTentatives != 0 && maintenant - p.h.debutTentatives > ABANDONNER_APRES
    then p.(attente := [], h := p.h.(debutTentatives := 0)) else p
  }
}

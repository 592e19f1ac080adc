/** What a pair of the engine holds, as values, and the five things that can happen to it:
    the runs against the adversarial network are made of them, and `Raffinement.dfy` proves
    that whatever a handler of the engine does to its pairs is a run of them. */
module Etats {
  import opened Termes
  import opened Noise

  const PROLOGUE := Texte("CyberSas tunnel v2")

  /** A session, without its counter and its window. */
  datatype Fiche = Fiche(locale: nat, distante: nat, cles: Cles, initiateur: bool, creee: int)

  /** The three session slots, the pending handshake, and the last timestamp. */
  datatype VuePair = VuePair(
    courante: Option<Fiche>,
    precedente: Option<Fiche>,
    suivante: Option<Fiche>,
    poignee: Option<Ini>,
    indicePoignee: nat,
    dernierHorodatage: Option<nat>)

  const VIERGE := VuePair(None, None, None, None, 0, None)

  function ApresLancement(v: VuePair, ini: Ini, indice: nat): VuePair {
    v.(poignee := Some(ini), indicePoignee := indice)
  }

  function ApresInitiation(v: VuePair, f: Fiche, horodatage: nat): VuePair {
    v.(suivante := Some(f), dernierHorodatage := Some(horodatage))
  }

  function ApresReponse(v: VuePair, f: Fiche): VuePair {
    v.(precedente := v.courante, courante := Some(f), poignee := None, indicePoignee := 0)
  }

  function ApresPromotion(v: VuePair): VuePair {
    v.(precedente := v.courante, courante := v.suivante, suivante := None)
  }

  function SiEncore(f: Option<Fiche>, maintenant: int, duree: int): Option<Fiche> {
    if f.Some? && maintenant - f.valeur.creee >= duree then None else f
  }

  function ApresExpiration(v: VuePair, maintenant: int, duree: int): VuePair {
    v.(courante := SiEncore(v.courante, maintenant, duree),
       precedente := SiEncore(v.precedente, maintenant, duree),
       suivante := SiEncore(v.suivante, maintenant, duree))
  }

  // ----- what a responder and an initiator make of a message -------------------------

  /** What a responder does with message 1: who speaks, when, the answer, the keys. */
  datatype Lu1 = Lu1(publique: Terme, horodatage: nat, reponse: Corps2, cles: Cles)

  function Repondre(prive: Prive, m: Corps1, neuf: Prive): Option<Lu1> {
    var (rep, lu) := Lecture1(NouveauRep(prive, PROLOGUE), m);
    if lu.None? || !lu.valeur.1.Date? then None
    else match Ecriture2(rep, neuf, VIDE).1
      case None => None
      case Some(ecrit) => Some(Lu1(lu.valeur.0, lu.valeur.1.t, ecrit.0, ecrit.1))
  }

  /** An initiation is acted on only if it is newer than the last one acted on. */
  predicate PlusRecente(v: VuePair, horodatage: nat) {
    v.dernierHorodatage.Some? ==> horodatage > v.dernierHorodatage.valeur
  }
}

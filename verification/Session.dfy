/** A session: one pair of keys out of a handshake, a sending counter that is also
    the nonce, and a replay window for what comes back. */
module Session {
  import opened Termes
  import opened Fenetre

  const SECONDE := 1_000_000_000
  const RENOUVELER_APRES := 120 * SECONDE
  const REJETER_APRES := 180 * SECONDE
  const RENOUVELER_APRES_N := 0x1000_0000_0000_0000
  const MODULO_64 := 0x1_0000_0000_0000_0000

  /** Zeros up to a multiple of 16 bytes, unless that would pass the largest plaintext. */
  function Remplissage(taille: nat): (r: nat)
    ensures r < 16
    ensures r == 0 || ((taille + r) % 16 == 0 && taille + r <= TAILLE_MAX_CLAIR)
  {
    var r := (16 - taille % 16) % 16;
    if taille + r > TAILLE_MAX_CLAIR then 0 else r
  }

  /** The data message for this plaintext under this counter. */
  function MessageDonnees(distante: nat, envoi: Terme, n: nat, clair: Contenu): Message {
    Donnees(distante, n, Scelle(envoi, n, Paquet(clair, Remplissage(TailleContenu(clair))), VIDE))
  }

  /** What sealing adds to a plaintext: the header, the padding, the tag. */
  lemma TailleDonnees(distante: nat, envoi: Terme, n: nat, clair: Contenu)
    ensures TailleMessage(MessageDonnees(distante, envoi, n, clair)) ==
              ENTETE_DONNEES + TailleContenu(clair) + Remplissage(TailleContenu(clair)) + TAILLE_TAG
  {
    assert Taille(Paquet(clair, Remplissage(TailleContenu(clair)))) == TailleContenu(clair)
        + Remplissage(TailleContenu(clair));
  }

  class Session {
    const locale: nat
    const distante: nat
    const envoi: Terme
    const reception: Terme
    const creee: int
    const initiateur: bool
    const rejeu: Fenetre
    var compteur: nat

    ghost predicate Valid()
      reads this, rejeu, rejeu.bits
    {
      rejeu.Valid() && compteur < MODULO_64
    }

    constructor (locale: nat, distante: nat, envoi: Terme, reception: Terme, initiateur: bool, maintenant: int)
      ensures Valid() && fresh(rejeu) && fresh(rejeu.bits)
      ensures this.locale == locale && this.distante == distante
      ensures this.envoi == envoi && this.reception == reception
      ensures this.initiateur == initiateur && creee == maintenant
      ensures compteur == 0 && rejeu.vus == {}
    {
      this.locale, this.distante := locale, distante;
      this.envoi, this.reception := envoi, reception;
      this.initiateur, creee := initiateur, maintenant;
      compteur := 0;
      rejeu := new Fenetre();
    }

    predicate Expiree(maintenant: int) {
      maintenant - creee >= REJETER_APRES
    }

    /** Too old or too worn, a session seals nothing any more. */
    predicate Utilisable(maintenant: int)
      reads this`compteur
    {
      !Expiree(maintenant) && compteur < REJETER_APRES_N
    }

    /** The initiator moves to a new session before this one expires. */
    predicate ARenouveler(maintenant: int)
      reads this`compteur
    {
      initiateur && (maintenant - creee >= RENOUVELER_APRES || compteur >= RENOUVELER_APRES_N)
    }

    method Chiffrer(clair: Contenu) returns (msg: Message)
      modifies this`compteur
      ensures msg == MessageDonnees(distante, envoi, old(compteur), clair)
      ensures compteur == (old(compteur) + 1) % MODULO_64
    {
      var n := compteur;
      compteur := (compteur + 1) % MODULO_64;
      var remplissage := (16 - TailleContenu(clair) % 16) % 16;
      if TailleContenu(clair) + remplissage > TAILLE_MAX_CLAIR {
        remplissage := 0;
      }
      return Donnees(distante, n, Scelle(envoi, n, Paquet(clair, remplissage), VIDE));
    }

    /** A counter enters the window only once the tag is verified: a forged message
        leaves the session exactly as it was. */
    method Dechiffrer(msg: Message) returns (r: Option<Terme>)
      requires Valid()
      modifies rejeu, rejeu.bits
      ensures Valid()
      ensures r.Some? <==>
                && msg.Donnees?
                && Ouvrir(reception, msg.compteur, msg.corps, VIDE).Some?
                && Recevable(old(rejeu.vus), msg.compteur)
      ensures r.Some? ==> msg.corps == Scelle(reception, msg.compteur, r.valeur, VIDE)
      ensures rejeu.vus == old(rejeu.vus) + if r.Some? then {msg.compteur} else {}
    {
      if !msg.Donnees? {
        return None;
      }
      var possible := rejeu.Possible(msg.compteur);
      if !possible {
        return None;
      }
      var clair := Ouvrir(reception, msg.compteur, msg.corps, VIDE);
      if clair.None? {
        return None;
      }
      var ok := rejeu.Accepter(msg.compteur);
      return if ok then clair else None;
    }
  }

  /** A missing session seals nothing, and asks to be opened. */
  predicate EstUtilisable(s: Session?, maintenant: int)
    reads if s == null then {} else {s}
  {
    s != null && s.Utilisable(maintenant)
  }

  predicate EstARenouveler(s: Session?, maintenant: int)
    reads if s == null then {} else {s}
  {
    s == null || s.ARenouveler(maintenant)
  }
}

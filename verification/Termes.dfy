/** What travels and what is computed, seen symbolically. X25519, BLAKE2s, HKDF
    and ChaCha20-Poly1305 are free constructors: two results are equal only when
    they were computed from equal arguments. The one law kept is that a shared
    secret does not depend on which of its two ends computes it. */
module Termes {

  datatype Option<+T> = None | Some(valeur: T)

  /** A private key: one of a device, or the n-th one a device drew for a handshake. The
      adversary has keys enough: those of the devices that are not honest. */
  datatype Prive = Statique(n: nat) | Ephemere(de: Prive, n: nat)

  datatype Terme =
    | Texte(s: string)
    | Date(t: nat)                          // twelve bytes, compared as a number
    | Publique(p: Prive)
    | Secret(bouts: set<Prive>)             // X25519 between two private keys
    | Condense(d: Terme)                    // BLAKE2s of one string
    | Hachage(h: Terme, d: Terme)           // BLAKE2s of h followed by d
    | HkdfUn(ck: Terme, ikm: Terme)
    | HkdfDeux(ck: Terme, ikm: Terme)
    | Paquet(contenu: Contenu, zeros: nat)  // a plaintext and its padding
    | Scelle(cle: Terme, nonce: nat, clair: Terme, associe: Terme)

  /** What a session carries: raw bytes (an IPv4 packet, or nothing), or a relay
      frame holding a whole message for, or from, another device. */
  datatype Contenu = Octets(o: seq<nat>) | Trame(numero: nat, msg: Message)

  /** The handshake bytes of each message; Court is anything too short to be one. */
  datatype Corps1 = Corps1(e: Terme, s: Terme, charge: Terme) | Court1
  datatype Corps2 = Corps2(e: Terme, charge: Terme) | Court2

  datatype Message =
    | Initiation(envoyeur: nat, corps1: Corps1)
    | Reponse(envoyeur: nat, dest: nat, corps2: Corps2)
    | Donnees(dest: nat, compteur: nat, corps: Terme)
    | Cookie(dest: nat)

  function Corps1Termes(m: Corps1): set<Terme> {
    if m.Corps1? then {m.e, m.s, m.charge} else {}
  }

  function Corps2Termes(m: Corps2): set<Terme> {
    if m.Corps2? then {m.e, m.charge} else {}
  }

  /** What a message shows to whoever sees it pass. */
  function TermesMessage(m: Message): set<Terme> {
    match m
    case Initiation(_, corps) => Corps1Termes(corps)
    case Reponse(_, _, corps) => Corps2Termes(corps)
    case Donnees(_, _, corps) => {corps}
    case Cookie(_) => {}
  }

  function TermesContenu(c: Contenu): set<Terme> {
    match c
    case Octets(_) => {}
    case Trame(_, msg) => TermesMessage(msg)
  }

  const VIDE := Texte("")
  const RIEN := Octets([])

  // ----- sizes, in bytes -----------------------------------------------------------

  const ENTETE_DONNEES := 16
  const ENTETE_RELAIS := 8
  const TAILLE_TAG := 16
  const TAILLE_INITIATION := 148
  const TAILLE_REPONSE := 92
  const TAILLE_COOKIE := 64
  const MTU := 1360
  const TAILLE_MAX_CLAIR := MTU + 48

  function Taille(t: Terme): nat {
    match t
    case Texte(s) => |s|
    case Date(_) => 12
    case Paquet(c, zeros) => TailleContenu(c) + zeros
    case Scelle(_, _, clair, _) => Taille(clair) + TAILLE_TAG
    case _ => 32
  }

  function TailleContenu(c: Contenu): nat {
    match c
    case Octets(o) => |o|
    case Trame(_, msg) => ENTETE_RELAIS + TailleMessage(msg)
  }

  function TailleMessage(m: Message): nat {
    match m
    case Initiation(_, _) => TAILLE_INITIATION
    case Reponse(_, _, _) => TAILLE_REPONSE
    case Donnees(_, _, corps) => ENTETE_DONNEES + Taille(corps)
    case Cookie(_) => TAILLE_COOKIE
  }

  // ----- primitives ------------------------------------------------------------------

  /** A low-order point, or a string that is nobody's public key, is refused. */
  function Dh(p: Prive, publique: Terme): (r: Option<Terme>)
    ensures r.Some? <==> publique.Publique?
  {
    if publique.Publique? then Some(Secret({p, publique.p})) else None
  }

  /** The law both ends of a handshake rely on. */
  lemma DhCommute(a: Prive, b: Prive)
    ensures Dh(a, Publique(b)) == Dh(b, Publique(a))
  {
    assert {a, b} == {b, a};
  }

  function Ouvrir(cle: Terme, nonce: nat, c: Terme, associe: Terme): (r: Option<Terme>)
    ensures r.Some? <==> exists clair :: c == Scelle(cle, nonce, clair, associe)
    ensures r.Some? ==> c == Scelle(cle, nonce, r.valeur, associe)
  {
    if c.Scelle? && c.cle == cle && c.nonce == nonce && c.associe == associe then Some(c.clair) else None
  }
}

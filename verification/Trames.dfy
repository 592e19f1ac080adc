/** Bytes on the wire: data messages, relay frames, IPv4 headers, and one packet all the
    way from a device to another through the server. */
module Trames {
  import opened Termes
  import opened Octets
  import S = Session
  import P = Politique

  const TYPE_INITIATION := 1
  const TYPE_DONNEES := 3
  const IPV6_ET_UDP := 48
  const PAQUET_MAX := 1500

  function Zeros(n: nat): (z: seq<Octet>)
    ensures |z| == n && forall i | 0 <= i < n :: z[i] == 0
  {
    seq(n, _ => 0)
  }

  // ----- sealing ------------------------------------------------------------------------

  /** Any authenticated encryption: what was sealed opens under the same key and nonce,
      and sealing adds 16 bytes. */
  datatype Aead = Aead(sceller: (nat, nat, seq<Octet>) -> seq<Octet>,
      ouvrir: (nat, nat, seq<Octet>) -> Option<seq<Octet>>)

  ghost predicate Juste(a: Aead) {
    forall k, n, m ::
      |(a.sceller)(k, n, m)| == |m| + TAILLE_TAG && (a.ouvrir)(k, n, (a.sceller)(k, n, m)) == Some(m)
  }

  /** There are some. */
  lemma AeadExiste()
    ensures exists a: Aead :: Juste(a)
  {
    var a := Aead((k, n, m) => m + Zeros(TAILLE_TAG),
                  (k, n, c) => if |c| < TAILLE_TAG then None else Some(c[..|c| - TAILLE_TAG]));
    forall k, n, m
      ensures |(a.sceller)(k, n, m)| == |m| + TAILLE_TAG && (a.ouvrir)(k, n, (a.sceller)(k, n, m)) == Some(m)
    {
      assert (m + Zeros(TAILLE_TAG))[..|m|] == m;
    }
    assert Juste(a);
  }

  /** A session as one message uses it: its key, the index the receiver gave it, the counter. */
  datatype Liaison = Liaison(cle: nat, indice: nat, compteur: nat) {
    ghost predicate Ecrivable() {
      indice < Puissance256(4) && compteur < Puissance256(8)
    }
  }

  /** A data message: type, index, counter, the padded plaintext sealed. */
  function Chiffre(a: Aead, l: Liaison, clair: seq<Octet>): seq<Octet> {
    [TYPE_DONNEES, 0, 0, 0] + Petit(l.indice, 4) + Petit(l.compteur, 8)
      + (a.sceller)(l.cle, l.compteur, clair + Zeros(S.Remplissage(|clair|)))
  }

  /** What the session of this key and index makes of a message, padding included. */
  function Dechiffre(a: Aead, cle: nat, indice: nat, msg: seq<Octet>): Option<seq<Octet>> {
    if |msg| < ENTETE_DONNEES + TAILLE_TAG || msg[0] != TYPE_DONNEES || LirePetit(msg[4..8]) != indice then None
    else (a.ouvrir)(cle, LirePetit(msg[8..16]), msg[16..])
  }

  /** A data message reads back under its session, as long as its parts, and may
      travel in a frame. */
  lemma ChiffreSeRelit(a: Aead, l: Liaison, clair: seq<Octet>)
    requires Juste(a) && l.Ecrivable()
    ensures Dechiffre(a, l.cle, l.indice, Chiffre(a, l, clair)) == Some(clair + Zeros(S.Remplissage(|clair|)))
    ensures |Chiffre(a, l, clair)| == ENTETE_DONNEES + |clair| + S.Remplissage(|clair|) + TAILLE_TAG
    ensures Relayable(Chiffre(a, l, clair))
  {
    var c := (a.sceller)(l.cle, l.compteur, clair + Zeros(S.Remplissage(|clair|)));
    var msg := Chiffre(a, l, clair);
    assert |c| == |clair| + S.Remplissage(|clair|) + TAILLE_TAG;
    assert msg[4..8] == Petit(l.indice, 4) && msg[8..16] == Petit(l.compteur, 8) && msg[16..] == c;
    PetitSeRelit(l.indice, 4);
    PetitSeRelit(l.compteur, 8);
  }

  // ----- relay frames -------------------------------------------------------------------

  /** Zero, reserved, the length on two bytes, the device number on four, the message. A
      message too long is refused rather than have its length overflow. */
  function TrameRelais(numero: nat, msg: seq<Octet>): Option<seq<Octet>> {
    if |msg| > TAILLE_MAX_CLAIR - ENTETE_RELAIS then None
    else Some([0, 0] + Gros(|msg|, 2) + Petit(numero, 4) + msg)
  }

  function LireTrame(t: seq<Octet>): Option<(nat, seq<Octet>)> {
    if |t| < ENTETE_RELAIS || t[0] != 0 then None
    else
      var n := LireGros(t[2..4]);
      if n > |t| - ENTETE_RELAIS then None else Some((LirePetit(t[4..8]), t[8..8 + n]))
  }

  /** What may travel in a frame: an initiation, an answer or data, never a cookie. */
  predicate Relayable(msg: seq<Octet>) {
    |msg| >= 4 && TYPE_INITIATION <= msg[0] <= TYPE_DONNEES
  }

  /** A frame as the server and the devices take it: anything else in it drops the whole. */
  function LireRelaye(t: seq<Octet>): Option<(nat, seq<Octet>)> {
    match LireTrame(t)
    case None => None
    case Some(lu) => if Relayable(lu.1) then Some(lu) else None
  }

  /** Whatever padding follows it, a frame gives back its number and its message. */
  lemma TrameSeRelit(numero: nat, msg: seq<Octet>, zeros: nat)
    requires numero < Puissance256(4) && TrameRelais(numero, msg).Some?
    ensures LireTrame(TrameRelais(numero, msg).valeur + Zeros(zeros)) == Some((numero, msg))
    ensures |TrameRelais(numero, msg).valeur| == ENTETE_RELAIS + |msg|
  {
    var t := TrameRelais(numero, msg).valeur + Zeros(zeros);
    assert t[2..4] == Gros(|msg|, 2) && t[4..8] == Petit(numero, 4) && t[8..8 + |msg|] == msg;
    Puissances();
    GrosSeRelit(|msg|, 2);
    PetitSeRelit(numero, 4);
  }

  /** A frame is refused on the way only for its length, which then would not fit. */
  lemma TropLong(numero: nat, msg: seq<Octet>)
    ensures TrameRelais(numero, msg).None? <==> |msg| + ENTETE_RELAIS > TAILLE_MAX_CLAIR
    ensures TrameRelais(numero, msg).Some? ==> |msg| < Puissance256(2)
  {
    Puissances();
  }

  // ----- IPv4 headers -----------------------------------------------------------------------

  datatype Ipv4 = Ipv4(
    longueur: nat, proto: nat, fragment: bool, ports: bool,
    source: seq<Octet>, dest: seq<Octet>,
    portSrc: nat, portDst: nat, typeIcmp: nat)

  function LireIPv4(p: seq<Octet>): (r: Option<Ipv4>)
    ensures r.Some? ==> 20 <= r.valeur.longueur <= |p|
  {
    if |p| < 20 || p[0] / 16 != 4 then None
    else
      var ihl, longueur := p[0] % 16 * 4, LireGros(p[2..4]);
      if ihl < 20 || longueur < ihl || longueur > |p| then None
      else
        var fragment := LireGros(p[6..8]) % 0x2000 != 0;
        var r := Ipv4(longueur, p[9], fragment, false, p[12..16], p[16..20], 0, 0, 0);
        Some(if fragment then r else Transport(r, p[ihl..longueur]))
  }

  /** For an echo, the identifier stands for the port on both sides. */
  function Transport(r: Ipv4, l4: seq<Octet>): (r': Ipv4)
    ensures r'.longueur == r.longueur
  {
    if (r.proto == P.TCP || r.proto == P.UDP) && |l4| >= 4 then
      r.(portSrc := LireGros(l4[0..2]), portDst := LireGros(l4[2..4]), ports := true)
    else if r.proto == P.ICMP && |l4| >= 8 then
      r.(typeIcmp := l4[0], portSrc := LireGros(l4[4..6]), portDst := LireGros(l4[4..6]), ports := true)
    else r
  }

  /** Padding after a packet changes nothing of what is read of it. */
  lemma RemplissageInvisible(p: seq<Octet>, zeros: nat)
    requires LireIPv4(p).Some?
    ensures LireIPv4(p + Zeros(zeros)) == LireIPv4(p)
  {
    var q := p + Zeros(zeros);
    assert q[2..4] == p[2..4] && q[6..8] == p[6..8] && q[12..16] == p[12..16] && q[16..20] == p[16..20];
    var ihl, longueur := p[0] % 16 * 4, LireGros(p[2..4]);
    assert q[ihl..longueur] == p[ihl..longueur];
  }

  /** A packet is never taken for a frame, nor a frame for a packet. */
  lemma PaquetOuTrame(t: seq<Octet>)
    ensures LireIPv4(t).None? || LireTrame(t).None?
  {
  }

  // ----- all the way --------------------------------------------------------------------------

  /** The sizes on the way: packet, sealed end to end, framed, padded, sealed for the
      server, and the datagram with its IPv6 and UDP headers. */
  lemma Tailles(taille: nat)
    requires taille <= MTU
    ensures var m := ENTETE_DONNEES + taille + S.Remplissage(taille) + TAILLE_TAG;
            var t := ENTETE_RELAIS + m;
            && m <= TAILLE_MAX_CLAIR - ENTETE_RELAIS
            && t + S.Remplissage(t) <= TAILLE_MAX_CLAIR
            && ENTETE_DONNEES + t + S.Remplissage(t) + TAILLE_TAG + IPV6_ET_UDP <= PAQUET_MAX
  {
    assert taille + S.Remplissage(taille) <= MTU;
  }

  /** One hop of the way: framed under this number, sealed, opened, read. Of the messages
      that fit, exactly those that may travel in a frame pass. */
  lemma UnSaut(a: Aead, l: Liaison, numero: nat, msg: seq<Octet>)
    requires Juste(a) && l.Ecrivable() && numero < Puissance256(4) && TrameRelais(numero, msg).Some?
    ensures var recu := Dechiffre(a, l.cle, l.indice, Chiffre(a, l, TrameRelais(numero, msg).valeur));
            recu.Some? && LireRelaye(recu.valeur) == if Relayable(msg) then Some((numero, msg)) else None
  {
    hide Chiffre, Dechiffre, Juste;
    var t := TrameRelais(numero, msg).valeur;
    ChiffreSeRelit(a, l, t);
    TrameSeRelit(numero, msg, S.Remplissage(|t|));
  }

  /** What the device at one end, the server, and the device at the other end do with a
      packet: sealed for the other, framed for the server, framed again by it. */
  function Chemin(a: Aead, bout: Liaison, montee: Liaison, descente: Liaison, de: nat, vers: nat, p: seq<Octet>)
    : Option<seq<Octet>>
  {
    match TrameRelais(vers, Chiffre(a, bout, p))
    case None => None
    case Some(t) =>
      match Dechiffre(a, montee.cle, montee.indice, Chiffre(a, montee, t))
      case None => None
      case Some(clair) =>
        match LireRelaye(clair)
        case None => None
        case Some(lu) =>
          match TrameRelais(de, lu.1)
          case None => None
          case Some(u) => Dechiffre(a, descente.cle, descente.indice, Chiffre(a, descente, u))
  }

  /** What the receiving device writes to its interface out of what it opened. */
  function Remis(a: Aead, bout: Liaison, clair: seq<Octet>): Option<(nat, seq<Octet>)> {
    match LireRelaye(clair)
    case None => None
    case Some(lu) =>
      match Dechiffre(a, bout.cle, bout.indice, lu.1)
      case None => None
      case Some(dedans) =>
        match LireIPv4(dedans)
        case None => None
        case Some(ip) => Some((lu.0, dedans[..ip.longueur]))
  }

  /** Any packet up to the MTU goes from a device to another through the server and comes
      out byte for byte, announced under the number of its sender; nothing on the way is
      refused, and every datagram fits in 1500 bytes. */
  lemma DeBoutEnBout(a: Aead, bout: Liaison, montee: Liaison, descente: Liaison, de: nat, vers: nat, p: seq<Octet>)
    requires Juste(a) && bout.Ecrivable() && montee.Ecrivable() && descente.Ecrivable()
    requires de < Puissance256(4) && vers < Puissance256(4)
    requires LireIPv4(p).Some? && LireIPv4(p).valeur.longueur == |p| <= MTU
    ensures var clair := Chemin(a, bout, montee, descente, de, vers, p);
            clair.Some? && Remis(a, bout, clair.valeur) == Some((de, p))
    ensures var m := Chiffre(a, bout, p);
            && TrameRelais(vers, m).Some? && TrameRelais(de, m).Some?
            && |Chiffre(a, montee, TrameRelais(vers, m).valeur)| + IPV6_ET_UDP <= PAQUET_MAX
            && |Chiffre(a, descente, TrameRelais(de, m).valeur)| + IPV6_ET_UDP <= PAQUET_MAX
  {
    hide Dechiffre, Chiffre, LireRelaye, LireIPv4, Juste, Relayable;
    var m := Chiffre(a, bout, p);
    ChiffreSeRelit(a, bout, p);
    Tailles(|p|);
    UnSaut(a, montee, vers, m);
    UnSaut(a, descente, de, m);
    ChiffreSeRelit(a, montee, TrameRelais(vers, m).valeur);
    ChiffreSeRelit(a, descente, TrameRelais(de, m).valeur);
    TrameSeRelit(vers, m, 0);
    TrameSeRelit(de, m, 0);
    RemplissageInvisible(p, S.Remplissage(|p|));
    assert (p + Zeros(S.Remplissage(|p|)))[..|p|] == p;
  }
}

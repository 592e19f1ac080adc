/** What the lock signs: certificates, policies, revocation lists. Each document is one
    string of bytes, and no two documents share one. */
module Encodages {
  import opened Termes
  import opened Octets

  const CONTEXTE_CERTIFICAT := "CyberSas certificat v2\0"
  const CONTEXTE_POLITIQUE := "CyberSas politique v1\0"
  const CONTEXTE_REVOCATION := "CyberSas revocations v1\0"
  const MAX_CHAMP := 255
  const DEUX_63 := 0x8000_0000_0000_0000

  function Ascii(s: string): (b: seq<Octet>)
    ensures |b| == |s|
  {
    seq(|s|, i requires 0 <= i < |s| => if s[i] < '\U{100}' then s[i] as nat else 63)
  }

  /** IPv4, or anything else; an instant, to the nanosecond. */
  datatype Adresse = V4(octets: seq<Octet>) | Autre
  datatype Instant = Instant(secondes: int, nanos: nat)

  datatype Certificat = Certificat(
    cle: seq<Octet>,
    adresse: Adresse,
    etiquette: seq<Octet>,
    proprietaire: seq<Octet>,
    groupe: seq<Octet>,
    expire: Instant)
  {
    /** The sizes of the types: 32 bytes, 4 bytes, 64 signed bits. */
    predicate Valide() {
      |cle| == 32 && (adresse.V4? ==> |adresse.octets| == 4) && -DEUX_63 <= expire.secondes < DEUX_63
    }
  }

  function Champ(s: seq<Octet>): seq<Octet> {
    Gros(|s|, 2) + s
  }

  /** Signed seconds as 64 unsigned bits. */
  function NonSigne(n: int): nat
    requires -DEUX_63 <= n < DEUX_63
  {
    if n < 0 then n + 2 * DEUX_63 else n
  }

  function Message(c: Certificat): Option<seq<Octet>>
    requires c.Valide()
  {
    if !c.adresse.V4? then None
    else if |c.etiquette| > MAX_CHAMP || |c.proprietaire| > MAX_CHAMP || |c.groupe| > MAX_CHAMP then None
    else Some(Ascii(CONTEXTE_CERTIFICAT) + (c.cle + (c.adresse.octets + (Gros(NonSigne(c.expire.secondes), 8)
              + (Champ(c.etiquette) + (Champ(c.proprietaire) + Champ(c.groupe)))))))
  }

  lemma ChampInjectif(s: seq<Octet>, t: seq<Octet>, x: seq<Octet>, y: seq<Octet>)
    requires |s| <= MAX_CHAMP && |t| <= MAX_CHAMP && Champ(s) + x == Champ(t) + y
    ensures s == t && x == y
  {
    assert Champ(s) + x == Gros(|s|, 2) + (s + x) && Champ(t) + y == Gros(|t|, 2) + (t + y);
    MemeCoupe(Gros(|s|, 2), Gros(|t|, 2), s + x, t + y);
    Puissances();
    GrosInjectif(|s|, |t|, 2);
    MemeCoupe(s, t, x, y);
  }

  /** Two certificates with the same message are the same, up to fractions of a second in
      their expiry, which the message does not carry. */
  lemma MessageInjectif(c: Certificat, d: Certificat)
    requires c.Valide() && d.Valide() && Message(c).Some? && Message(d).Some?
    ensures Message(c) == Message(d) <==> c == d.(expire := d.expire.(nanos := c.expire.nanos))
  {
    if Message(c) == Message(d) {
      var cf, df := Champ(c.proprietaire) + Champ(c.groupe), Champ(d.proprietaire) + Champ(d.groupe);
      var ce, de := Champ(c.etiquette) + cf, Champ(d.etiquette) + df;
      var ct, dt := Gros(NonSigne(c.expire.secondes), 8) + ce, Gros(NonSigne(d.expire.secondes), 8) + de;
      var ca, da := c.adresse.octets + ct, d.adresse.octets + dt;
      hide Champ, Gros;
      MemeCoupe(Ascii(CONTEXTE_CERTIFICAT), Ascii(CONTEXTE_CERTIFICAT), c.cle + ca, d.cle + da);
      MemeCoupe(c.cle, d.cle, ca, da);
      MemeCoupe(c.adresse.octets, d.adresse.octets, ct, dt);
      MemeCoupe(Gros(NonSigne(c.expire.secondes), 8), Gros(NonSigne(d.expire.secondes), 8), ce, de);
      Puissances();
      GrosInjectif(NonSigne(c.expire.secondes), NonSigne(d.expire.secondes), 8);
      ChampInjectif(c.etiquette, d.etiquette, cf, df);
      assert Champ(c.groupe) + [] == Champ(c.groupe) && Champ(d.groupe) + [] == Champ(d.groupe);
      ChampInjectif(c.proprietaire, d.proprietaire, Champ(c.groupe), Champ(d.groupe));
      ChampInjectif(c.groupe, d.groupe, [], []);
    }
  }

  // ----- versioned documents --------------------------------------------------------------

  function Versionne(contexte: string, version: nat, contenu: seq<Octet>): seq<Octet> {
    Ascii(contexte) + (Gros(version, 8) + contenu)
  }

  lemma VersionneInjectif(contexte: string, v: nat, w: nat, x: seq<Octet>, y: seq<Octet>)
    requires v < 2 * DEUX_63 && w < 2 * DEUX_63 && Versionne(contexte, v, x) == Versionne(contexte, w, y)
    ensures v == w && x == y
  {
    hide Gros;
    MemeCoupe(Ascii(contexte), Ascii(contexte), Gros(v, 8) + x, Gros(w, 8) + y);
    MemeCoupe(Gros(v, 8), Gros(w, 8), x, y);
    Puissances();
    GrosInjectif(v, w, 8);
  }

  /** A signature made for one kind of document is never one for another. */
  lemma GenresDistincts(c: Certificat, v: nat, w: nat, x: seq<Octet>, y: seq<Octet>)
    requires c.Valide() && Message(c).Some?
    ensures Message(c).valeur != Versionne(CONTEXTE_POLITIQUE, v, x)
    ensures Message(c).valeur != Versionne(CONTEXTE_REVOCATION, w, y)
    ensures Versionne(CONTEXTE_POLITIQUE, v, x) != Versionne(CONTEXTE_REVOCATION, w, y)
  {
    assert Message(c).valeur[9] == Ascii(CONTEXTE_CERTIFICAT)[9] == 'c' as nat;
    assert Versionne(CONTEXTE_POLITIQUE, v, x)[9] == Ascii(CONTEXTE_POLITIQUE)[9] == 'p' as nat;
    assert Versionne(CONTEXTE_REVOCATION, w, y)[9] == Ascii(CONTEXTE_REVOCATION)[9] == 'r' as nat;
  }

  // ----- the content of a revocation list ----------------------------------------------------

  type Cle = seq<Octet>

  ghost predicate Triee(s: seq<Cle>) {
    forall i, j | 0 <= i < j < |s| :: Avant(s[i], s[j])
  }

  /** Where a key goes in a sorted list. */
  function Place(s: seq<Cle>, k: Cle): (n: nat)
    ensures n <= |s|
  {
    if s == [] || !Avant(s[|s| - 1], k) then (if s == [] then 0 else Place(s[..|s| - 1], k)) else |s|
  }

  lemma {:induction false} PlaceJuste(s: seq<Cle>, k: Cle)
    requires Triee(s)
    ensures var n := Place(s, k);
            (forall i | 0 <= i < n :: Avant(s[i], k)) && (forall i | n <= i < |s| :: Avant(k, s[i]))
  {
    if s != [] {
      var d := s[|s| - 1];
      AvantTotal(d, k);
      if Avant(d, k) {
        forall i | 0 <= i < |s| - 1
          ensures Avant(s[i], k)
        {
          AvantTransitif(s[i], d, k);
        }
      } else {
        PlaceJuste(s[..|s| - 1], k);
      }
    }
  }

  function Inserer(s: seq<Cle>, n: nat, k: Cle): (t: seq<Cle>)
    requires n <= |s|
    ensures |t| == |s| + 1
    ensures forall i | 0 <= i < |t| :: t[i] == if i < n then s[i] else if i == n then k else s[i - 1]
  {
    s[..n] + [k] + s[n..]
  }

  lemma InsererMemes(s: seq<Cle>, n: nat, k: Cle)
    requires n <= |s|
    ensures multiset(Inserer(s, n, k)) == multiset(s) + multiset{k}
  {
    assert s == s[..n] + s[n..];
  }

  lemma InsererTrie(s: seq<Cle>, k: Cle)
    requires Triee(s)
    ensures Triee(Inserer(s, Place(s, k), k))
  {
    PlaceJuste(s, k);
    var n, t := Place(s, k), Inserer(s, Place(s, k), k);
    hide Avant, Place, Inserer;
    forall i, j | 0 <= i < j < |t|
      ensures Avant(t[i], t[j])
    {
    }
  }

  method Trier(cles: seq<Cle>) returns (t: seq<Cle>)
    ensures Triee(t) && multiset(t) == multiset(cles)
  {
    hide Triee;
    Trie0();
    t := [];
    var j := 0;
    while j < |cles|
      invariant 0 <= j <= |cles| && Triee(t) && multiset(t) == multiset(cles[..j])
    {
      var n := Place(t, cles[j]);
      InsererTrie(t, cles[j]);
      InsererMemes(t, n, cles[j]);
      assert cles[..j + 1] == cles[..j] + [cles[j]];
      t := Inserer(t, n, cles[j]);
      j := j + 1;
    }
    assert cles[..j] == cles;
  }

  lemma Trie0()
    ensures Triee([])
  {
  }

  function Colle(s: seq<Cle>): seq<Octet> {
    if s == [] then [] else Colle(s[..|s| - 1]) + s[|s| - 1]
  }

  /** The keys one after the other, sorted so that their order does not count. */
  method ContenuRevocations(cles: seq<Cle>) returns (b: seq<Octet>)
    ensures exists t :: Triee(t) && multiset(t) == multiset(cles) && b == Colle(t)
  {
    var t := Trier(cles);
    b := [];
    var j := 0;
    while j < |t|
      invariant 0 <= j <= |t| && b == Colle(t[..j])
    {
      assert t[..j + 1][..j] == t[..j];
      b := b + t[j];
      j := j + 1;
    }
    assert t[..j] == t;
  }

  lemma SansDernier(s: seq<Cle>)
    requires s != []
    ensures multiset(s[..|s| - 1]) == multiset(s) - multiset{s[|s| - 1]}
  {
    assert s == s[..|s| - 1] + [s[|s| - 1]];
  }

  /** Two sorted lists of the same keys are the same list. */
  lemma {:induction false} UnSeulTri(s: seq<Cle>, t: seq<Cle>)
    requires Triee(s) && Triee(t) && multiset(s) == multiset(t)
    ensures s == t
  {
    hide Triee;
    assert |multiset(s)| == |s| && |multiset(t)| == |t|;
    if s != [] {
      var n := |s| - 1;
      MemesDebuts(s, t);
      UnSeulTri(s[..n], t[..n]);
      assert s == s[..n] + [s[n]] && t == t[..n] + [t[n]];
    }
  }

  lemma MemesDebuts(s: seq<Cle>, t: seq<Cle>)
    requires Triee(s) && Triee(t) && multiset(s) == multiset(t) && |s| == |t| > 0
    ensures var n := |s| - 1;
            s[n] == t[n] && Triee(s[..n]) && Triee(t[..n]) && multiset(s[..n]) == multiset(t[..n])
  {
    hide Triee;
    Dernier(s, t);
    SansDernier(s);
    SansDernier(t);
    DebutTrie(s);
    DebutTrie(t);
  }

  lemma DebutTrie(s: seq<Cle>)
    requires Triee(s) && s != []
    ensures Triee(s[..|s| - 1])
  {
  }

  lemma Dernier(s: seq<Cle>, t: seq<Cle>)
    requires Triee(s) && Triee(t) && multiset(s) == multiset(t) && |s| == |t| > 0
    ensures s[|s| - 1] == t[|t| - 1]
  {
    var n := |s| - 1;
    assert s[n] in multiset(t) && t[n] in multiset(s);
    var i :| 0 <= i <= n && t[i] == s[n];
    var j :| 0 <= j <= n && s[j] == t[n];
    AvantTotal(s[n], t[n]);
  }

  lemma {:induction false} ColleTaille(s: seq<Cle>)
    requires forall k <- s :: |k| == 32
    ensures |Colle(s)| == 32 * |s|
  {
    if s != [] {
      ColleTaille(s[..|s| - 1]);
    }
  }

  lemma {:induction false} ColleInjectif(s: seq<Cle>, t: seq<Cle>)
    requires (forall k <- s :: |k| == 32) && (forall k <- t :: |k| == 32)
    requires Colle(s) == Colle(t)
    ensures s == t
  {
    ColleTaille(s);
    ColleTaille(t);
    if s != [] {
      var n := |s| - 1;
      ColleTaille(s[..n]);
      ColleTaille(t[..n]);
      MemeCoupe(Colle(s[..n]), Colle(t[..n]), s[n], t[n]);
      ColleInjectif(s[..n], t[..n]);
      assert s == s[..n] + [s[n]] && t == t[..n] + [t[n]];
    }
  }

  /** The content says exactly which keys are in the list, how many times, and nothing
      of their order. */
  lemma ContenuInjectif(cles: seq<Cle>, autres: seq<Cle>, t: seq<Cle>, u: seq<Cle>)
    requires (forall k <- cles :: |k| == 32) && (forall k <- autres :: |k| == 32)
    requires Triee(t) && multiset(t) == multiset(cles) && Triee(u) && multiset(u) == multiset(autres)
    ensures Colle(t) == Colle(u) <==> multiset(cles) == multiset(autres)
  {
    forall k | k in t
      ensures |k| == 32
    {
      assert k in multiset(cles);
    }
    forall k | k in u
      ensures |k| == 32
    {
      assert k in multiset(autres);
    }
    if Colle(t) == Colle(u) {
      ColleInjectif(t, u);
    }
    if multiset(cles) == multiset(autres) {
      UnSeulTri(t, u);
    }
  }
}

/** The Noise IK handshake (Noise Protocol Framework revision 34, sections 5.2,
    5.3 and 7.5): the symmetric state, and the four functions of its two ends. */
module Noise {
  import opened Termes

  // ----- the symmetric state, as values ------------------------------------------

  datatype Sym = Sym(ck: Terme, h: Terme, k: Terme, aCle: bool, n: nat) {

    function MelangerHachage(d: Terme): Sym {
      this.(h := Hachage(h, d))
    }

    function MelangerCle(ikm: Terme): Sym {
      this.(ck := HkdfUn(ck, ikm), k := HkdfDeux(ck, ikm), aCle := true, n := 0)
    }

    function ChiffrerEtHacher(clair: Terme): (Sym, Terme) {
      if !aCle then (MelangerHachage(clair), clair)
      else
        var c := Scelle(k, n, clair, h);
        (this.(n := n + 1).MelangerHachage(c), c)
    }

    function DechiffrerEtHacher(c: Terme): Option<(Sym, Terme)> {
      if !aCle then Some((MelangerHachage(c), c))
      else match Ouvrir(k, n, c, h)
        case None => None
        case Some(clair) => Some((this.(n := n + 1).MelangerHachage(c), clair))
    }

    function Separer(): (Terme, Terme) {
      (HkdfUn(ck, VIDE), HkdfDeux(ck, VIDE))
    }
  }

  const NOM_PROTOCOLE := "Noise_IK_25519_ChaChaPoly_BLAKE2s"

  /** The name is 33 bytes long, one more than fits: it is hashed. */
  function Initial(prologue: Terme): Sym {
    var h0 := if |NOM_PROTOCOLE| <= 32 then Texte(NOM_PROTOCOLE) else Condense(Texte(NOM_PROTOCOLE));
    Sym(h0, h0, VIDE, false, 0).MelangerHachage(prologue)
  }

  class EtatSymetrique {
    var ck: Terme
    var h: Terme
    var k: Terme
    var aCle: bool
    var n: nat

    ghost function Vue(): Sym
      reads this
    {
      Sym(ck, h, k, aCle, n)
    }

    constructor (prologue: Terme)
      ensures Vue() == Initial(prologue)
    {
      var nom := NOM_PROTOCOLE;
      var h0 := if |nom| <= 32 then Texte(nom) else Condense(Texte(nom));
      ck, h, k, aCle, n := h0, Hachage(h0, prologue), VIDE, false, 0;
    }

    constructor Copie(autre: EtatSymetrique)
      ensures Vue() == autre.Vue()
    {
      ck, h, k, aCle, n := autre.ck, autre.h, autre.k, autre.aCle, autre.n;
    }

    method MelangerHachage(d: Terme)
      modifies this
      ensures Vue() == old(Vue()).MelangerHachage(d)
    {
      h := Hachage(h, d);
    }

    method MelangerCle(ikm: Terme)
      modifies this
      ensures Vue() == old(Vue()).MelangerCle(ikm)
    {
      ck, k := HkdfUn(ck, ikm), HkdfDeux(ck, ikm);
      aCle, n := true, 0;
    }

    method ChiffrerEtHacher(clair: Terme) returns (c: Terme)
      modifies this
      ensures (Vue(), c) == old(Vue()).ChiffrerEtHacher(clair)
    {
      if !aCle {
        MelangerHachage(clair);
        return clair;
      }
      c := Scelle(k, n, clair, h);
      n := n + 1;
      MelangerHachage(c);
    }

    method DechiffrerEtHacher(c: Terme) returns (r: Option<Terme>)
      modifies this
      ensures match old(Vue()).DechiffrerEtHacher(c)
              case None => r == None && Vue() == old(Vue())
              case Some(suite) => r == Some(suite.1) && Vue() == suite.0
    {
      if !aCle {
        MelangerHachage(c);
        return Some(c);
      }
      r := Ouvrir(k, n, c, h);
      if r.Some? {
        n := n + 1;
        MelangerHachage(c);
      }
    }
  }

  // ----- the two messages ----------------------------------------------------------

  datatype Cles = Cles(envoi: Terme, reception: Terme)

  /** The same keys as the other end holds them. */
  function Croisees(c: Cles): Cles {
    Cles(c.reception, c.envoi)
  }

  datatype Ini = Ini(es: Sym, s: Prive, e: Option<Prive>, rs: Terme, envoye: bool)
  datatype Rep = Rep(es: Sym, s: Prive, e: Option<Prive>, re: Terme, rs: Terme, lu: bool)

  function NouvelIni(s: Prive, rs: Terme, prologue: Terme): Ini {
    Ini(Initial(prologue).MelangerHachage(rs), s, None, rs, false)
  }

  function NouveauRep(s: Prive, prologue: Terme): Rep {
    Rep(Initial(prologue).MelangerHachage(Publique(s)), s, None, VIDE, VIDE, false)
  }

  function Tire(e: Option<Prive>, neuf: Prive): Prive {
    if e.Some? then e.valeur else neuf
  }

  /** -> e, es, s, ss, then the payload. `neuf` is the ephemeral key drawn. */
  function Ecriture1(i: Ini, neuf: Prive, charge: Terme): (Ini, Option<Corps1>) {
    if i.envoye then (i, None)
    else
      var e := Tire(i.e, neuf);
      var a := i.es.MelangerHachage(Publique(e));
      match Dh(e, i.rs)
      case None => (i.(e := Some(e), es := a), None)
      case Some(es) =>
        var (b, s) := a.MelangerCle(es).ChiffrerEtHacher(Publique(i.s));
        match Dh(i.s, i.rs)
        case None => (i.(e := Some(e), es := b), None)
        case Some(ss) =>
          var (c, ch) := b.MelangerCle(ss).ChiffrerEtHacher(charge);
          (i.(e := Some(e), es := c, envoye := true), Some(Corps1(Publique(e), s, ch)))
  }

  /** Reads message 1; Some carries the initiator's public key and the payload. */
  function Lecture1(r: Rep, m: Corps1): (Rep, Option<(Terme, Terme)>) {
    if r.lu || m.Court1? then (r, None)
    else
      var r1 := r.(re := m.e, es := r.es.MelangerHachage(m.e));
      match Dh(r.s, m.e)
      case None => (r1, None)
      case Some(es) =>
        var r2 := r1.(es := r1.es.MelangerCle(es));
        match r2.es.DechiffrerEtHacher(m.s)
        case None => (r2, None)
        case Some(lu) =>
          var r3 := r2.(es := lu.0);
          match Dh(r.s, lu.1)
          case None => (r3, None)
          case Some(ss) =>
            var r4 := r3.(es := r3.es.MelangerCle(ss));
            match r4.es.DechiffrerEtHacher(m.charge)
            case None => (r4, None)
            case Some(fin) => (r4.(es := fin.0, rs := lu.1, lu := true), Some((lu.1, fin.1)))
  }

  /** <- e, ee, se, then the payload. */
  function Ecriture2(r: Rep, neuf: Prive, charge: Terme): (Rep, Option<(Corps2, Cles)>) {
    if !r.lu then (r, None)
    else
      var e := Tire(r.e, neuf);
      var r1 := r.(e := Some(e), es := r.es.MelangerHachage(Publique(e)));
      match Dh(e, r.re)
      case None => (r1, None)
      case Some(ee) =>
        var r2 := r1.(es := r1.es.MelangerCle(ee));
        match Dh(e, r.rs)
        case None => (r2, None)
        case Some(se) =>
          var (fin, ch) := r2.es.MelangerCle(se).ChiffrerEtHacher(charge);
          (r2.(es := fin), Some((Corps2(Publique(e), ch), Cles(fin.Separer().1, fin.Separer().0))))
  }

  /** Reads message 2, on a copy: on failure the initiator is what it was. */
  function Lecture2(i: Ini, m: Corps2): (Ini, Option<(Terme, Cles)>) {
    if !i.envoye || m.Court2? || i.e.None? then (i, None)
    else
      var a := i.es.MelangerHachage(m.e);
      match Dh(i.e.valeur, m.e)
      case None => (i, None)
      case Some(ee) =>
        match Dh(i.s, m.e)
        case None => (i, None)
        case Some(se) =>
          match a.MelangerCle(ee).MelangerCle(se).DechiffrerEtHacher(m.charge)
          case None => (i, None)
          case Some(fin) =>
            (i.(es := fin.0), Some((fin.1, Cles(fin.0.Separer().0, fin.0.Separer().1))))
  }

  // ----- the two ends, updated in place ----------------------------------------------

  class Initiateur {
    var es: EtatSymetrique
    const s: Prive
    var e: Option<Prive>
    const rs: Terme
    var envoye: bool

    ghost function Vue(): Ini
      reads this, es
    {
      Ini(es.Vue(), s, e, rs, envoye)
    }

    constructor (statique: Prive, publiqueRepondeur: Terme, prologue: Terme)
      ensures fresh(es)
      ensures Vue() == NouvelIni(statique, publiqueRepondeur, prologue)
    {
      s, e, rs, envoye := statique, None, publiqueRepondeur, false;
      es := new EtatSymetrique(prologue);
      new;
      es.MelangerHachage(rs);
    }

    method Message1(neuf: Prive, charge: Terme) returns (m: Option<Corps1>)
      modifies this, es
      ensures es == old(es)
      ensures (Vue(), m) == Ecriture1(old(Vue()), neuf, charge)
    {
      if envoye {
        return None;
      }
      if e.None? {
        e := Some(neuf);
      }
      es.MelangerHachage(Publique(e.valeur));
      var secret := Dh(e.valeur, rs);
      if secret.None? {
        return None;
      }
      es.MelangerCle(secret.valeur);
      var chiffree := es.ChiffrerEtHacher(Publique(s));
      secret := Dh(s, rs);
      if secret.None? {
        return None;
      }
      es.MelangerCle(secret.valeur);
      var c := es.ChiffrerEtHacher(charge);
      envoye := true;
      return Some(Corps1(Publique(e.valeur), chiffree, c));
    }

    method LireMessage2(m: Corps2) returns (r: Option<(Terme, Cles)>)
      modifies this
      ensures es == old(es) || fresh(es)
      ensures (Vue(), r) == Lecture2(old(Vue()), m)
    {
      if !envoye || m.Court2? || e.None? {
        return None;
      }
      var copie := new EtatSymetrique.Copie(es);
      copie.MelangerHachage(m.e);
      var secret := Dh(e.valeur, m.e);
      if secret.None? {
        return None;
      }
      copie.MelangerCle(secret.valeur);
      secret := Dh(s, m.e);
      if secret.None? {
        return None;
      }
      copie.MelangerCle(secret.valeur);
      var charge := copie.DechiffrerEtHacher(m.charge);
      if charge.None? {
        return None;
      }
      es := copie;
      return Some((charge.valeur, Cles(HkdfUn(es.ck, VIDE), HkdfDeux(es.ck, VIDE))));
    }
  }

  class Repondeur {
    const es: EtatSymetrique
    const s: Prive
    var e: Option<Prive>
    var re: Terme
    var rs: Terme
    var lu: bool

    ghost function Vue(): Rep
      reads this, es
    {
      Rep(es.Vue(), s, e, re, rs, lu)
    }

    constructor (statique: Prive, prologue: Terme)
      ensures fresh(es)
      ensures Vue() == NouveauRep(statique, prologue)
    {
      s, e, re, rs, lu := statique, None, VIDE, VIDE, false;
      es := new EtatSymetrique(prologue);
      new;
      es.MelangerHachage(Publique(s));
    }

    method LireMessage1(m: Corps1) returns (r: Option<(Terme, Terme)>)
      modifies this, es
      ensures (Vue(), r) == Lecture1(old(Vue()), m)
    {
      if lu || m.Court1? {
        return None;
      }
      re := m.e;
      es.MelangerHachage(re);
      var secret := Dh(s, re);
      if secret.None? {
        return None;
      }
      es.MelangerCle(secret.valeur);
      var publique := es.DechiffrerEtHacher(m.s);
      if publique.None? {
        return None;
      }
      secret := Dh(s, publique.valeur);
      if secret.None? {
        return None;
      }
      es.MelangerCle(secret.valeur);
      var charge := es.DechiffrerEtHacher(m.charge);
      if charge.None? {
        return None;
      }
      rs, lu := publique.valeur, true;
      return Some((rs, charge.valeur));
    }

    method Message2(neuf: Prive, charge: Terme) returns (r: Option<(Corps2, Cles)>)
      modifies this, es
      ensures (Vue(), r) == Ecriture2(old(Vue()), neuf, charge)
    {
      if !lu {
        return None;
      }
      if e.None? {
        e := Some(neuf);
      }
      es.MelangerHachage(Publique(e.valeur));
      var secret := Dh(e.valeur, re);
      if secret.None? {
        return None;
      }
      es.MelangerCle(secret.valeur);
      secret := Dh(e.valeur, rs);
      if secret.None? {
        return None;
      }
      es.MelangerCle(secret.valeur);
      var c := es.ChiffrerEtHacher(charge);
      return Some((Corps2(Publique(e.valeur), c), Cles(HkdfDeux(es.ck, VIDE), HkdfUn(es.ck, VIDE))));
    }
  }
}

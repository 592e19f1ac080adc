/** What the four handshake functions guarantee together. */
module Poignee {
  import opened Termes
  import opened Noise

  /** The state of the symmetric object once message 1 is on the wire, computed
      from the four keys involved; both ends are compared with it. */
  function ApresMessage1(s: Prive, r: Prive, e: Prive, prologue: Terme, charge: Terme): (Sym, Corps1) {
    var a := Initial(prologue).MelangerHachage(Publique(r)).MelangerHachage(Publique(e)).MelangerCle(Secret({e, r}));
    var (b, cs) := a.ChiffrerEtHacher(Publique(s));
    var (c, ch) := b.MelangerCle(Secret({s, r})).ChiffrerEtHacher(charge);
    (c, Corps1(Publique(e), cs, ch))
  }

  /** The same for message 2, after any symmetric state. */
  function ApresMessage2(es: Sym, s: Prive, ei: Prive, er: Prive, charge: Terme): (Sym, Corps2) {
    var a := es.MelangerHachage(Publique(er)).MelangerCle(Secret({ei, er})).MelangerCle(Secret({s, er}));
    var (b, ch) := a.ChiffrerEtHacher(charge);
    (b, Corps2(Publique(er), ch))
  }

  /** The initiator waiting for an answer: message 1 is out, from `e`, to `r`. */
  ghost predicate EnAttente(i: Ini, s: Prive, r: Prive, e: Prive, prologue: Terme, charge: Terme) {
    i == Ini(ApresMessage1(s, r, e, prologue, charge).0, s, Some(e), Publique(r), true)
  }

  /** The responder that read that very message 1. */
  ghost predicate ALu(rep: Rep, s: Prive, r: Prive, e: Prive, prologue: Terme, charge: Terme) {
    rep == Rep(ApresMessage1(s, r, e, prologue, charge).0, r, None, Publique(e), Publique(s), true)
  }

  lemma MessageUn(s: Prive, r: Prive, e: Prive, prologue: Terme, charge: Terme)
    ensures var (i, m) := Ecriture1(NouvelIni(s, Publique(r), prologue), e, charge);
            && m == Some(ApresMessage1(s, r, e, prologue, charge).1)
            && EnAttente(i, s, r, e, prologue, charge)
  {
  }

  /** A responder accepts a first message if and only if it is, term for term, the
      one that an initiator holding the announced key would write for this responder
      and this prologue; it then knows that key and that payload. */
  lemma Message1Authentique(r: Prive, prologue: Terme, m: Corps1)
    ensures var (rep, lu) := Lecture1(NouveauRep(r, prologue), m);
            && (lu.Some? <==> exists s, e, charge :: m == ApresMessage1(s, r, e, prologue, charge).1)
            && forall s, e, charge | m == ApresMessage1(s, r, e, prologue, charge).1 ::
                 lu == Some((Publique(s), charge)) && ALu(rep, s, r, e, prologue, charge)
  {
    var (rep, lu) := Lecture1(NouveauRep(r, prologue), m);
    if lu.Some? {
      var e, s, charge := m.e.p, lu.valeur.0.p, lu.valeur.1;
      DhCommute(r, e);
      DhCommute(r, s);
      assert m == ApresMessage1(s, r, e, prologue, charge).1;
    }
    forall s, e, charge | m == ApresMessage1(s, r, e, prologue, charge).1
      ensures lu == Some((Publique(s), charge)) && ALu(rep, s, r, e, prologue, charge)
    {
      DhCommute(r, e);
      DhCommute(r, s);
    }
  }

  lemma MessageDeux(rep: Rep, s: Prive, r: Prive, e: Prive, er: Prive, prologue: Terme, c1: Terme, c2: Terme)
    requires ALu(rep, s, r, e, prologue, c1)
    ensures var es := ApresMessage1(s, r, e, prologue, c1).0;
            var fin := ApresMessage2(es, s, e, er, c2);
            var (rep', ecrit) := Ecriture2(rep, er, c2);
            && ecrit == Some((fin.1, Cles(fin.0.Separer().1, fin.0.Separer().0)))
            && rep'.es == fin.0
  {
    DhCommute(er, e);
    DhCommute(er, s);
  }

  /** A waiting initiator accepts an answer if and only if it is the one written by
      a responder that read this very message 1; and then both ends hold the same
      handshake hash and the same two keys, swapped. */
  lemma Message2Authentique(i: Ini, s: Prive, r: Prive, e: Prive, prologue: Terme, c1: Terme, m: Corps2)
    requires EnAttente(i, s, r, e, prologue, c1)
    ensures var (i', lu) := Lecture2(i, m);
            && (lu.Some? <==> exists er, c2 :: m == ApresMessage2(i.es, s, e, er, c2).1)
            && forall rep, er, c2 | ALu(rep, s, r, e, prologue, c1) && m == ApresMessage2(i.es, s, e, er, c2).1 ::
                 var (rep', ecrit) := Ecriture2(rep, er, c2);
                 && ecrit.Some? && ecrit.valeur.0 == m
                 && lu == Some((c2, Croisees(ecrit.valeur.1)))
                 && i'.es == rep'.es
  {
    var (i', lu) := Lecture2(i, m);
    if lu.Some? {
      assert m == ApresMessage2(i.es, s, e, m.e.p, lu.valeur.0).1;
    }
    forall rep, er, c2 | ALu(rep, s, r, e, prologue, c1) && m == ApresMessage2(i.es, s, e, er, c2).1
      ensures var (rep', ecrit) := Ecriture2(rep, er, c2);
              && ecrit.Some? && ecrit.valeur.0 == m
              && lu == Some((c2, Croisees(ecrit.valeur.1)))
              && i'.es == rep'.es
    {
      MessageDeux(rep, s, r, e, er, prologue, c1, c2);
    }
  }

  /** An honest run completes: the payloads and the initiator's key arrive, the
      handshake hashes agree, the transport keys are the same two, swapped. */
  lemma PoigneeAboutit(s: Prive, r: Prive, ei: Prive, er: Prive, prologue: Terme, c1: Terme, c2: Terme)
    ensures var (i1, m1) := Ecriture1(NouvelIni(s, Publique(r), prologue), ei, c1);
            && m1.Some?
            && var (r1, lu1) := Lecture1(NouveauRep(r, prologue), m1.valeur);
               && lu1 == Some((Publique(s), c1))
               && var (r2, m2) := Ecriture2(r1, er, c2);
                  && m2.Some?
                  && var (i2, lu2) := Lecture2(i1, m2.valeur.0);
                     && lu2 == Some((c2, Croisees(m2.valeur.1)))
                     && i2.es.h == r2.es.h
                     && m2.valeur.1.envoi != m2.valeur.1.reception
  {
    MessageUn(s, r, ei, prologue, c1);
    var (i1, m1) := Ecriture1(NouvelIni(s, Publique(r), prologue), ei, c1);
    Message1Authentique(r, prologue, m1.valeur);
    var r1 := Lecture1(NouveauRep(r, prologue), m1.valeur).0;
    assert ALu(r1, s, r, ei, prologue, c1);
    MessageDeux(r1, s, r, ei, er, prologue, c1, c2);
    Message2Authentique(i1, s, r, ei, prologue, c1, ApresMessage2(i1.es, s, ei, er, c2).1);
  }

  // ----- forged answers ----------------------------------------------------------------

  /** The initiator after a series of answers, as long as none is accepted. */
  ghost function ApresRefus(i: Ini, ms: seq<Corps2>): Ini {
    if ms == [] then i else Lecture2(ApresRefus(i, ms[..|ms| - 1]), ms[|ms| - 1]).0
  }

  /** However many refused answers came first, the true one is still accepted, with
      the keys it would have given had it come alone. */
  lemma {:induction false} RefusSansTrace(i: Ini, ms: seq<Corps2>, vraie: Corps2)
    requires forall m <- ms :: Lecture2(i, m).1.None?
    ensures Lecture2(ApresRefus(i, ms), vraie) == Lecture2(i, vraie)
  {
    if ms != [] {
      var k := |ms| - 1;
      RefusSansTrace(i, ms[..k], ms[k]);
      assert ms[k] in ms;
      RefusSansTrace(i, ms[..k], vraie);
    }
  }

  // ----- the keys pin the handshake ------------------------------------------------------

  /** The transport keys of a responder that read (s, e) and answered with er. */
  function ClesRepondeur(s: Prive, r: Prive, e: Prive, er: Prive, prologue: Terme, c1: Terme, c2: Terme): Cles {
    var fin := ApresMessage2(ApresMessage1(s, r, e, prologue, c1).0, s, e, er, c2).0;
    Cles(fin.Separer().1, fin.Separer().0)
  }

  /** Two handshakes that share a transport key share the four secrets behind it. */
  lemma ClesDeterminent(s: Prive, r: Prive, e: Prive, er: Prive, p: Terme, c1: Terme, c2: Terme,
                        s': Prive, r': Prive, e': Prive, er': Prive, p': Terme, c1': Terme, c2': Terme)
    requires var k, k' := ClesRepondeur(s, r, e, er, p, c1, c2), ClesRepondeur(s', r', e', er', p', c1', c2');
             k.envoi == k'.envoi || k.reception == k'.reception
    ensures {e, r} == {e', r'} && {s, r} == {s', r'} && {e, er} == {e', er'} && {s, er} == {s', er'}
  {
  }

  // ----- nonces ----------------------------------------------------------------------------

  datatype Operation = Hacher(d: Terme) | Cle(ikm: Terme) | Sceller(clair: Terme)

  ghost function Faire(s: Sym, o: Operation): Sym {
    match o
    case Hacher(d) => s.MelangerHachage(d)
    case Cle(ikm) => s.MelangerCle(ikm)
    case Sceller(c) => s.ChiffrerEtHacher(c).0
  }

  ghost function FaireTout(s: Sym, os: seq<Operation>): Sym {
    if os == [] then s else Faire(FaireTout(s, os[..|os| - 1]), os[|os| - 1])
  }

  /** The i-th operation of a run seals something, under this key and nonce. */
  ghost predicate ScelleSous(s: Sym, os: seq<Operation>, i: nat, k: Terme, n: nat)
    requires i < |os|
  {
    var avant := FaireTout(s, os[..i]);
    os[i].Sceller? && avant.aCle && avant.k == k && avant.n == n
  }

  ghost function Profondeur(t: Terme): nat {
    match t
    case HkdfUn(ck, _) => 1 + Profondeur(ck)
    case HkdfDeux(ck, _) => 1 + Profondeur(ck)
    case _ => 0
  }

  /** The current key is exactly as deep as the chaining key it came with. */
  ghost predicate CleDuMoment(s: Sym) {
    s.aCle ==> s.k.HkdfDeux? && Profondeur(s.k) == Profondeur(s.ck)
  }

  /** A nonce not yet used under this key, and never under an older one. */
  lemma {:induction false} PlusTard(s: Sym, os: seq<Operation>, i: nat, k: Terme, n: nat)
    requires i < |os| && !s.aCle
    requires ScelleSous(s, os, i, k, n)
    ensures var fin := FaireTout(s, os);
            && CleDuMoment(fin) && fin.aCle
            && (Profondeur(k) < Profondeur(fin.k) || (k == fin.k && n < fin.n))
    decreases |os|
  {
    var j := |os| - 1;
    CleSuitChaine(s, os[..j]);
    if i < j {
      assert os[..j][..i] == os[..i];
      PlusTard(s, os[..j], i, k, n);
    }
  }

  lemma {:induction false} CleSuitChaine(s: Sym, os: seq<Operation>)
    requires !s.aCle
    ensures CleDuMoment(FaireTout(s, os))
  {
    if os != [] {
      CleSuitChaine(s, os[..|os| - 1]);
    }
  }

  /** Whatever a handshake hashes, mixes and seals, in whatever order, it never
      seals twice under one key and one nonce. */
  lemma NonceJamaisRepris(s: Sym, os: seq<Operation>, i: nat, j: nat, k: Terme, n: nat)
    requires i < j < |os| && !s.aCle
    ensures !(ScelleSous(s, os, i, k, n) && ScelleSous(s, os, j, k, n))
  {
    if ScelleSous(s, os, i, k, n) {
      assert os[..j][..i] == os[..i];
      PlusTard(s, os[..j], i, k, n);
    }
  }
}

/** What a device makes of the network as the server tells it: the pairs it may speak to,
    and what each may send in, out of the certificates, the revocations and the policy
    that the lock signed. */
module Client {
  import opened Termes
  import P = Politique
  import R = Revocations

  /** A device as it is announced. `valide` and `certifie` are the checks of the
      announcement and of the certificate; the rest is what the certificate says. */
  datatype Annonce = Annonce(
    cle: string, adresse: P.Adresse, valide: bool, certifie: bool,
    proprietaire: string, etiquette: string, groupe: string)

  ghost predicate Revoquee(c: R.Codec, revoquees: seq<string>, f: Annonce) {
    var k := R.Cle32(c, f.cle);
    k.Some? && R.Dedans(c, revoquees, k.valeur)
  }

  /** Another device is kept if it is well announced, certified, and not revoked. */
  ghost predicate Gardee(c: R.Codec, revoquees: seq<string>, moi: P.Adresse, f: Annonce) {
    f.valide && f.adresse != moi && R.Cle32(c, f.cle).Some? && f.certifie && !Revoquee(c, revoquees, f)
  }

  /** So must this device be certified and not revoked, for any rule to concern it. */
  ghost predicate MoiSigne(c: R.Codec, revoquees: seq<string>, moi: Annonce) {
    R.Cle32(c, moi.cle).Some? && moi.certifie && !Revoquee(c, revoquees, moi)
  }

  /** A device as the rules see it. */
  function Sujet(f: Annonce): P.Appareil {
    P.Appareil(f.adresse, f.proprietaire, f.etiquette, false)
  }

  function Sujets(fs: seq<Annonce>): seq<P.Appareil> {
    seq(|fs|, i requires 0 <= i < |fs| => Sujet(fs[i]))
  }

  /** The team as the certificates tell it: the last one of an owner gives the group, and
      owners are filed in lower case. */
  function Equipe(bas: P.Casse, fs: seq<Annonce>): map<string, string> {
    if fs == [] then map[]
    else
      var e, f := Equipe(bas, fs[..|fs| - 1]), fs[|fs| - 1];
      if f.proprietaire == "" then e else e[P.Minuscules(bas, f.proprietaire) := f.groupe]
  }

  /** The devices the rules are resolved on: this one first, if it may be, then those kept. */
  ghost function Connues(c: R.Codec, revoquees: seq<string>, moi: Annonce, annonces: seq<Annonce>): seq<Annonce> {
    (if MoiSigne(c, revoquees, moi) then [moi] else []) + Gardees(c, revoquees, moi.adresse, annonces)
  }

  ghost function Gardees(c: R.Codec, revoquees: seq<string>, moi: P.Adresse, annonces: seq<Annonce>): (fs: seq<Annonce>)
    ensures forall f :: f in fs <==> f in annonces && Gardee(c, revoquees, moi, f)
  {
    if annonces == [] then []
    else
      var fs, f := Gardees(c, revoquees, moi, annonces[..|annonces| - 1]), annonces[|annonces| - 1];
      assert annonces == annonces[..|annonces| - 1] + [f];
      if Gardee(c, revoquees, moi, f) then fs + [f] else fs
  }

  /** What gets in from an address: what some rule of the policy in force, resolved on
      certified and unrevoked devices only, lets it open here; nothing if there is no
      policy, or if this device is itself not signed. */
  ghost predicate Admis(c: R.Codec, bas: P.Casse, revoquees: seq<string>, moi: Annonce, annonces: seq<Annonce>,
                        pol: Option<seq<P.Regle>>, serveur: P.Adresse, s: P.Adresse, ip: P.Paquet4) {
    var fs := Connues(c, revoquees, moi, annonces);
    && pol.Some? && MoiSigne(c, revoquees, moi) && s != moi.adresse
    && P.PolitiqueAdmet(bas, pol.valeur, Sujets(fs), Equipe(bas, fs), serveur, s, moi.adresse, ip)
  }

  /** A device kept has this key and this address. */
  ghost predicate Paire(c: R.Codec, revoquees: seq<string>, moi: P.Adresse, annonces: seq<Annonce>, k: seq<nat>,
                        x: P.Adresse) {
    exists f <- annonces :: Gardee(c, revoquees, moi, f) && R.Cle32(c, f.cle) == Some(k) && f.adresse == x
  }

  /** These are the pairs of the devices kept. */
  ghost predicate Paires(c: R.Codec, revoquees: seq<string>, moi: P.Adresse, annonces: seq<Annonce>,
                         pairs: seq<(seq<nat>, P.Adresse)>) {
    forall k: seq<nat>, x: P.Adresse :: (k, x) in pairs <==> Paire(c, revoquees, moi, annonces, k, x)
  }

  lemma PairesPlus(c: R.Codec, revoquees: seq<string>, moi: P.Adresse, annonces: seq<Annonce>,
                   pairs: seq<(seq<nat>, P.Adresse)>, f: Annonce)
    requires Paires(c, revoquees, moi, annonces, pairs)
    ensures Paires(c, revoquees, moi, annonces + [f],
                   if Gardee(c, revoquees, moi, f) then pairs + [(R.Cle32(c, f.cle).valeur, f.adresse)] else pairs)
  {
    hide R.Cle32, Revoquee;
    assert f in annonces + [f] && forall g <- annonces :: g in annonces + [f];
    assert forall g <- annonces + [f] :: g in annonces || g == f;
  }

  method Construire(c: R.Codec, bas: P.Casse, revoquees: seq<string>, moi: Annonce, annonces: seq<Annonce>,
                    pol: Option<seq<P.Regle>>, serveur: P.Adresse)
      returns (pairs: seq<(seq<nat>, P.Adresse)>, entrant: map<P.Adresse, seq<P.RegleMoteur>>)
    ensures Paires(c, revoquees, moi.adresse, annonces, pairs)
    ensures forall s, ip :: P.Passe(entrant, s, ip) <==> Admis(c, bas, revoquees, moi, annonces, pol, serveur, s, ip)
  {
    hide P.PolitiqueAdmet, P.Passe, Paires, Gardees, Sujets, Equipe, MoiSigne;
    var apps, equipe;
    pairs, apps, equipe := Retenir(c, bas, revoquees, moi, annonces);
    entrant := map[];
    if pol.Some? && |apps| > 0 && apps[0].adresse == moi.adresse {
      entrant := P.Construire(bas, pol.valeur, apps, equipe, serveur, moi.adresse);
    } else {
      RienNePasse();
    }
  }

  /** The key of a device kept. */
  method Examiner(c: R.Codec, ghost revoquees: seq<string>, bannies: set<seq<nat>>, moi: P.Adresse, f: Annonce)
      returns (k: Option<seq<nat>>)
    requires forall k :: k in bannies <==> R.Dedans(c, revoquees, k)
    ensures k.Some? <==> Gardee(c, revoquees, moi, f)
    ensures k.Some? ==> k == R.Cle32(c, f.cle)
  {
    k := R.Cle32(c, f.cle);
    if !f.valide || f.adresse == moi || k.None? || k.valeur in bannies || !f.certifie {
      k := None;
    }
  }

  /** The pairs, the devices and the team that the rules are resolved on. */
  method Retenir(c: R.Codec, bas: P.Casse, revoquees: seq<string>, moi: Annonce, annonces: seq<Annonce>)
      returns (pairs: seq<(seq<nat>, P.Adresse)>, apps: seq<P.Appareil>, equipe: map<string, string>)
    ensures Paires(c, revoquees, moi.adresse, annonces, pairs)
    ensures apps == Sujets(Connues(c, revoquees, moi, annonces))
              && equipe == Equipe(bas, Connues(c, revoquees, moi, annonces))
    ensures |apps| > 0 && apps[0].adresse == moi.adresse <==> MoiSigne(c, revoquees, moi)
  {
    hide P.Minuscules, R.Dedans, R.Cle32, Equipe, Sujets, Paires, Gardees, Gardee, MoiSigne;
    var bannies := R.Bannies(c, revoquees);
    apps, equipe := [], map[];
    ghost var fs := [];
    RienEncore(bas);
    var maCle := R.Cle32(c, moi.cle);
    var signe := maCle.Some? && maCle.valeur !in bannies && moi.certifie;
    assert signe == MoiSigne(c, revoquees, moi) by { Signe(c, revoquees, bannies, moi); }
    if signe {
      EncoreUne(bas, [], moi);
      apps, fs := [Sujet(moi)], [moi];
      if moi.proprietaire != "" {
        equipe := equipe[P.Minuscules(bas, moi.proprietaire) := moi.groupe];
      }
    }
    ghost var debut := fs;
    pairs := [];
    GardeesPlus(c, revoquees, moi.adresse, [], moi);
    var j := 0;
    while j < |annonces|
      invariant 0 <= j <= |annonces|
      invariant fs == debut + Gardees(c, revoquees, moi.adresse, annonces[..j])
      invariant apps == Sujets(fs) && equipe == Equipe(bas, fs)
      invariant Paires(c, revoquees, moi.adresse, annonces[..j], pairs)
    {
      var f := annonces[j];
      assert annonces[..j + 1][..j] == annonces[..j] && annonces[..j + 1] == annonces[..j] + [f];
      PairesPlus(c, revoquees, moi.adresse, annonces[..j], pairs, f);
      GardeesPlus(c, revoquees, moi.adresse, annonces[..j], f);
      ghost var g := Gardees(c, revoquees, moi.adresse, annonces[..j]);
      assert debut + g + [f] == debut + (g + [f]);
      var k := Examiner(c, revoquees, bannies, moi.adresse, f);
      if k.Some? {
        pairs := pairs + [(k.valeur, f.adresse)];
        EncoreUne(bas, fs, f);
        apps, fs := apps + [Sujet(f)], fs + [f];
        if f.proprietaire != "" {
          equipe := equipe[P.Minuscules(bas, f.proprietaire) := f.groupe];
        }
      }
      j := j + 1;
    }
    assert annonces[..j] == annonces;
    Premiere(c, revoquees, moi, annonces);
  }

  /** The first device is this one exactly when it is signed: none kept has its address. */
  lemma Premiere(c: R.Codec, revoquees: seq<string>, moi: Annonce, annonces: seq<Annonce>)
    ensures var apps := Sujets(Connues(c, revoquees, moi, annonces));
            |apps| > 0 && apps[0].adresse == moi.adresse <==> MoiSigne(c, revoquees, moi)
  {
    hide R.Dedans, R.Cle32, MoiSigne;
    var fs := Connues(c, revoquees, moi, annonces);
    if fs != [] && !MoiSigne(c, revoquees, moi) {
      assert fs[0] in Gardees(c, revoquees, moi.adresse, annonces);
    }
  }

  lemma GardeesPlus(c: R.Codec, revoquees: seq<string>, moi: P.Adresse, annonces: seq<Annonce>, f: Annonce)
    ensures Gardees(c, revoquees, moi, annonces + [f]) ==
              Gardees(c, revoquees, moi, annonces) + if Gardee(c, revoquees, moi, f) then [f] else []
    ensures Gardees(c, revoquees, moi, []) == []
  {
    hide Gardee;
    assert (annonces + [f])[..|annonces|] == annonces;
  }

  lemma Signe(c: R.Codec, revoquees: seq<string>, bannies: set<seq<nat>>, moi: Annonce)
    requires forall k :: k in bannies <==> R.Dedans(c, revoquees, k)
    ensures var k := R.Cle32(c, moi.cle);
            k.Some? && k.valeur !in bannies && moi.certifie <==> MoiSigne(c, revoquees, moi)
  {
  }

  lemma RienEncore(bas: P.Casse)
    ensures Sujets([]) == [] && Equipe(bas, []) == map[]
    ensures forall c: R.Codec, revoquees, moi: P.Adresse :: Paires(c, revoquees, moi, [], [])
  {
  }

  lemma RienNePasse()
    ensures forall s, ip :: !P.Passe(map[], s, ip)
  {
  }

  lemma EncoreUne(bas: P.Casse, fs: seq<Annonce>, f: Annonce)
    ensures Sujets(fs + [f]) == Sujets(fs) + [Sujet(f)] && [] + [f] == [f]
    ensures Equipe(bas, fs + [f]) == if f.proprietaire == "" then Equipe(bas, fs)
                                     else Equipe(bas, fs)[P.Minuscules(bas, f.proprietaire) := f.groupe]
  {
    assert (fs + [f])[..|fs|] == fs;
  }

  // ----- what that keeps out --------------------------------------------------------------

  /** Nothing gets in but from the server, or from a device that the lock certified and did
      not revoke, which some rule names; and only here, if the same is true of this one. */
  lemma SeulsLesSignes(c: R.Codec, bas: P.Casse, revoquees: seq<string>, moi: Annonce, annonces: seq<Annonce>,
                       pol: Option<seq<P.Regle>>, serveur: P.Adresse, s: P.Adresse, ip: P.Paquet4)
    requires Admis(c, bas, revoquees, moi, annonces, pol, serveur, s, ip)
    ensures MoiSigne(c, revoquees, moi)
    ensures s == serveur ||
              exists f <- annonces ::
                && Gardee(c, revoquees, moi.adresse, f) && f.adresse == s
                && exists r <- pol.valeur :: P.Choisi(bas, r.de, Sujet(f),
                   Equipe(bas, Connues(c, revoquees, moi, annonces)))
  {
    hide P.Choisi, P.PortsDe, P.Admet, R.Dedans;
    var fs := Connues(c, revoquees, moi, annonces);
    var e := Equipe(bas, fs);
    var r :| r in pol.valeur && P.Relie(bas, r, Sujets(fs), e, serveur, s, moi.adresse) && exists p <- P.PortsDe(r) ::
        P.Admet(p, ip);
    if s != serveur {
      var a :| a in Sujets(fs) && P.Choisi(bas, r.de, a, e) && a.adresse == s;
      var i :| 0 <= i < |fs| && a == Sujet(fs[i]);
      assert fs[i] != moi && fs[i] in annonces;
    }
  }

  /** Every name a team is filed under is one of a certificate, in lower case. */
  lemma {:induction false} FileEnMinuscules(bas: P.Casse, fs: seq<Annonce>, qui: string)
    ensures qui in Equipe(bas, fs) <==> exists f <- fs ::
              f.proprietaire != "" && P.Minuscules(bas, f.proprietaire) == qui
  {
    hide P.Minuscules;
    if fs != [] {
      FileEnMinuscules(bas, fs[..|fs| - 1], qui);
      assert fs == fs[..|fs| - 1] + [fs[|fs| - 1]];
    }
  }

  lemma MinusculesDeja(bas: P.Casse, s: string)
    requires forall x :: bas(bas(x)) == bas(x)
    ensures P.Minuscules(bas, P.Minuscules(bas, s)) == P.Minuscules(bas, s)
  {
  }

  /** The team is filed in lower case, but looked up as certificates write it: so a device
      is in a team exactly if its certificate writes its owner in lower case already, and
      the last certificate of that owner gives a group. */
  lemma Presence(bas: P.Casse, fs: seq<Annonce>, f: Annonce)
    requires forall x :: bas(bas(x)) == bas(x)
    requires f in fs && f.proprietaire != ""
    ensures var qui := P.Minuscules(bas, f.proprietaire);
            P.Present(Sujet(f), Equipe(bas, fs)) <==> qui == f.proprietaire && P.Groupe(Equipe(bas, fs), qui) != ""
  {
    FileEnMinuscules(bas, fs, f.proprietaire);
    if f.proprietaire in Equipe(bas, fs) {
      var g :| g in fs && g.proprietaire != "" && P.Minuscules(bas, g.proprietaire) == f.proprietaire;
      MinusculesDeja(bas, g.proprietaire);
    }
  }

  /** So a capital letter in a certificate keeps its device out of every rule, "*" included. */
  lemma MajusculeExclue(bas: P.Casse, fs: seq<Annonce>, f: Annonce, sels: seq<string>)
    requires forall x :: bas(bas(x)) == bas(x)
    requires f in fs && f.proprietaire != "" && P.Minuscules(bas, f.proprietaire) != f.proprietaire
    ensures !P.Choisi(bas, sels, Sujet(f), Equipe(bas, fs))
  {
    Presence(bas, fs, f);
  }

  // ----- a device over time -------------------------------------------------------------------

  /** A policy as it is served: its version, whether it is well signed, readable, valid and
      of the version it says, and its rules. */
  datatype Politique = Politique(version: nat, bonne: bool, regles: seq<P.Regle>)

  function Regles(pol: Option<Politique>): Option<seq<P.Regle>> {
    if pol.Some? then Some(pol.valeur.regles) else None
  }

  /** The policy in force: the one served, unless it is bad or older than the last one seen. */
  function AdopterPolitique(ret: R.Retenu, servie: Option<Politique>): (R.Retenu, Option<Politique>) {
    if servie.None? || !servie.valeur.bonne || servie.valeur.version < ret.versionPolitique then (ret, None)
    else (ret.(versionPolitique := servie.valeur.version), servie)
  }

  /** The network as the server tells it. `servie` and `bonne` are the revocation list and
      its signature; `annoncees` are the rules of a network without a lock. */
  datatype Reseau = Reseau(
    verrou: string, servie: Option<R.Liste>, bonne: bool, pol: Option<Politique>,
    moi: Annonce, annonces: seq<Annonce>, annoncees: map<P.Adresse, seq<P.RegleMoteur>>, serveur: P.Adresse)

  /** What the pairs and the filter of a device were last built from, under its lock. */
  datatype Vue = Vue(revoquees: seq<string>, r: Reseau, pol: Option<Politique>)

  ghost predicate Filtre(c: R.Codec, bas: P.Casse, v: Vue, entrant: map<P.Adresse, seq<P.RegleMoteur>>) {
    forall s, ip :: P.Passe(entrant, s, ip) <==>
      Admis(c, bas, v.revoquees, v.r.moi, v.r.annonces, Regles(v.pol), v.r.serveur, s, ip)
  }

  /** What gets in is allowed by a rule of a policy not older than any seen, and comes from
      the server or from a certified device that this rule names and that is not among
      these revoked keys. */
  ghost predicate Permis(c: R.Codec, bas: P.Casse, ret: R.Retenu, v: Vue, s: P.Adresse, ip: P.Paquet4) {
    && v.pol.Some? && v.pol.valeur.bonne && v.pol.valeur.version >= ret.versionPolitique
    && MoiSigne(c, ret.revoquees, v.r.moi)
    && Admis(c, bas, v.revoquees, v.r.moi, v.r.annonces, Regles(v.pol), v.r.serveur, s, ip)
    && (s == v.r.serveur ||
        exists f <- v.r.annonces ::
          && Gardee(c, ret.revoquees, v.r.moi.adresse, f) && f.adresse == s
          && exists r <- v.pol.valeur.regles ::
               P.Choisi(bas, r.de, Sujet(f), Equipe(bas, Connues(c, v.revoquees, v.r.moi, v.r.annonces))))
  }

  class Adhesion {
    var ret: R.Retenu
    // What the engine was last given, and the version of the policy it comes from.
    var pairs: seq<(seq<nat>, P.Adresse)>
    var entrant: map<P.Adresse, seq<P.RegleMoteur>>
    var politique: Option<nat>
    ghost var vue: Option<Vue>

    /** No key known revoked is among the pairs, and the filter is what a policy not older
        than any seen makes of devices of which none is known revoked. */
    ghost predicate Propre(c: R.Codec, bas: P.Casse)
      reads this
    {
      && (forall x <- pairs :: !R.Dedans(c, ret.revoquees, x.0))
      && (politique.Some? ==> politique.valeur >= ret.versionPolitique)
      && match vue
         case None => ret.verrou == "" || entrant == map[]
         case Some(v) =>
           && Filtre(c, bas, v, entrant)
           && (forall k | R.Dedans(c, ret.revoquees, k) :: R.Dedans(c, v.revoquees, k))
           && (v.pol.Some? ==> v.pol.valeur.bonne && politique == Some(v.pol.valeur.version))
    }

    constructor (c: R.Codec, bas: P.Casse, verrou: string)
      ensures ret == R.Retenu(verrou, 0, [], 0) && pairs == [] && entrant == map[] && politique == None && vue == None
      ensures Propre(c, bas)
    {
      ret, pairs, entrant, politique, vue := R.Retenu(verrou, 0, [], 0), [], map[], None, None;
    }

    /** The network is told. What is learned is written first: if it cannot be, nothing else
        changes. A key known revoked stays so, and is never a pair; the policy in force is
        never older than one seen before. Without a lock, the server is believed. */
    method Appliquer(c: R.Codec, bas: P.Casse, ghost signes: set<R.Document>, r: Reseau, ecrit: bool)
      requires R.Chaine(signes) && R.Fidele(c, signes, ret) && Propre(c, bas)
      requires r.bonne ==> r.servie.Some? && R.Signee(c, signes, r.servie.valeur)
      modifies this
      ensures R.Fidele(c, signes, ret) && Propre(c, bas) && ret.verrou == old(ret.verrou)
      ensures forall k | R.Dedans(c, old(ret.revoquees), k) :: R.Dedans(c, ret.revoquees, k)
      ensures ret.versionPolitique >= old(ret.versionPolitique)
      ensures politique == old(politique) || (politique.Some? ==> politique.valeur == ret.versionPolitique)
      ensures r.verrou == old(ret.verrou) != "" && ecrit ==>
                var (suite, pol) := AdopterPolitique(R.Adopter(old(ret), r.servie, r.bonne), r.pol);
                && ret == suite && politique == (if pol.Some? then Some(pol.valeur.version) else None)
                && Paires(c, ret.revoquees, r.moi.adresse, r.annonces, pairs)
                && Filtre(c, bas, Vue(ret.revoquees, r, pol), entrant)
      ensures r.verrou == old(ret.verrou) == "" ==>
                ret == old(ret) && entrant == r.annoncees && Annoncees(c, r.moi.adresse, r.annonces, pairs)
      ensures !ecrit ==> ret == old(ret)
    {
      if r.verrou != ret.verrou {
        return;
      }
      if ret.verrou == "" {
        pairs := Croire(c, r.moi.adresse, r.annonces);
        entrant, politique, vue := r.annoncees, None, None;
        RienDeRevoque(c);
        return;
      }
      hide R.Fidele, R.Chaine, R.Signee, R.Dedans, Paires, Filtre, Admis;
      R.AdopterFidele(c, signes, ret, r.servie, r.bonne);
      var (suite, pol) := AdopterPolitique(R.Adopter(ret, r.servie, r.bonne), r.pol);
      var neuves, filtre := Construire(c, bas, suite.revoquees, r.moi, r.annonces, Regles(pol), r.serveur);
      FiltreConstruit(c, bas, Vue(suite.revoquees, r, pol), filtre);
      PairesPropres(c, suite.revoquees, r.moi.adresse, r.annonces, neuves);
      if suite.version != ret.version || suite.versionPolitique != ret.versionPolitique {
        if !ecrit {
          return;
        }
        ret := suite;
      }
      pairs, entrant, politique := neuves, filtre, if pol.Some? then Some(pol.valeur.version) else None;
      vue := Some(Vue(suite.revoquees, r, pol));
    }

    /** Joining again: the lock does not change unless forgetting was asked for, and with
        the same lock, what was revoked is carried over. Another lock is another start. */
    method Rejoindre(c: R.Codec, bas: P.Casse, ghost signes: set<R.Document>, verrou: string, oublier: bool)
      requires R.Fidele(c, signes, ret) && Propre(c, bas)
      modifies this
      ensures R.Fidele(c, signes, ret) && Propre(c, bas)
      ensures !oublier ==> ret.verrou == old(ret.verrou)
      ensures ret.verrou == old(ret.verrou) ==>
                && ret == old(ret) && pairs == old(pairs) && entrant == old(entrant)
                && politique == old(politique) && vue == old(vue)
      ensures ret.verrou != old(ret.verrou) ==> ret == R.Retenu(verrou, 0, [], 0) && pairs == [] && entrant == map[]
    {
      if !oublier && ret.verrou != verrou {
        return;
      }
      if ret.verrou == verrou {
        ret := R.Retenu(verrou, ret.version, ret.revoquees, ret.versionPolitique);
      } else {
        ret := R.Retenu(verrou, 0, [], 0);
        pairs, entrant, politique, vue := [], map[], None, None;
      }
    }

    /** The server says that this device is not registered. */
    method Quitter(c: R.Codec, bas: P.Casse)
      requires Propre(c, bas)
      modifies `pairs, `entrant, `vue
      ensures Propre(c, bas) && pairs == [] && entrant == map[]
    {
      pairs, entrant, vue := [], map[], None;
    }

    /** Permanent: whatever the server serves, in whatever order, across writes that fail
        and registrations done again, a key once known revoked is still known revoked at
        the end, and is not a pair; and what gets in is what a rule of a policy not older
        than any seen allows, from the server or from a device that is certified and not
        known revoked. */
    method Vivre(c: R.Codec, bas: P.Casse, ghost signes: set<R.Document>, es: seq<Evenement>)
      requires R.Chaine(signes) && R.Fidele(c, signes, ret) && Propre(c, bas)
      requires forall e <- es :: e.Servi? && e.r.bonne ==> e.r.servie.Some? && R.Signee(c, signes, e.r.servie.valeur)
      requires forall e <- es :: e.Reinscrit? ==> !e.oublier
      modifies this
      ensures ret.verrou == old(ret.verrou) && ret.versionPolitique >= old(ret.versionPolitique)
      ensures forall k | R.Dedans(c, old(ret.revoquees), k) :: R.Dedans(c, ret.revoquees, k) && forall x <- pairs ::
                x.0 != k
      ensures politique.Some? ==> politique.valeur >= ret.versionPolitique
      ensures ret.verrou != "" ==>
                forall s, ip | P.Passe(entrant, s, ip) :: vue.Some? && Permis(c, bas, ret, vue.valeur, s, ip)
    {
      Enchainer(c, bas, signes, es);
      if ret.verrou != "" {
        ToutEstPermis(c, bas);
      }
    }

    /** Event after event. */
    method Enchainer(c: R.Codec, bas: P.Casse, ghost signes: set<R.Document>, es: seq<Evenement>)
      requires R.Chaine(signes) && R.Fidele(c, signes, ret) && Propre(c, bas)
      requires forall e <- es :: e.Servi? && e.r.bonne ==> e.r.servie.Some? && R.Signee(c, signes, e.r.servie.valeur)
      requires forall e <- es :: e.Reinscrit? ==> !e.oublier
      modifies this
      ensures R.Fidele(c, signes, ret) && Propre(c, bas)
      ensures ret.verrou == old(ret.verrou) && ret.versionPolitique >= old(ret.versionPolitique)
      ensures forall k | R.Dedans(c, old(ret.revoquees), k) :: R.Dedans(c, ret.revoquees, k)
    {
      hide R.Dedans, R.Fidele, R.Chaine, R.Signee, Propre, Paires, Filtre, Annoncees;
      var j := 0;
      while j < |es|
        invariant 0 <= j <= |es| && R.Fidele(c, signes, ret) && Propre(c, bas) && ret.verrou == old(ret.verrou)
        invariant forall k | R.Dedans(c, old(ret.revoquees), k) :: R.Dedans(c, ret.revoquees, k)
        invariant ret.versionPolitique >= old(ret.versionPolitique)
      {
        assert es[j] in es;
        match es[j] {
          case Servi(r, ecrit) => Appliquer(c, bas, signes, r, ecrit);
          case Reinscrit(verrou, oublier) => Rejoindre(c, bas, signes, verrou, oublier);
          case Desinscrit => Quitter(c, bas);
        }
        j := j + 1;
      }
    }

    lemma ToutEstPermis(c: R.Codec, bas: P.Casse)
      requires Propre(c, bas) && ret.verrou != ""
      ensures forall s, ip | P.Passe(entrant, s, ip) :: vue.Some? && Permis(c, bas, ret, vue.valeur, s, ip)
    {
      hide Admis, R.Dedans, P.Passe;
      forall s, ip | P.Passe(entrant, s, ip)
        ensures vue.Some? && Permis(c, bas, ret, vue.valeur, s, ip)
      {
        RienNePasse();
        UnEstPermis(c, bas, ret, vue.valeur, s, ip);
      }
    }
  }

  lemma UnEstPermis(c: R.Codec, bas: P.Casse, ret: R.Retenu, v: Vue, s: P.Adresse, ip: P.Paquet4)
    requires Admis(c, bas, v.revoquees, v.r.moi, v.r.annonces, Regles(v.pol), v.r.serveur, s, ip)
    requires forall k | R.Dedans(c, ret.revoquees, k) :: R.Dedans(c, v.revoquees, k)
    requires v.pol.Some? ==> v.pol.valeur.bonne && v.pol.valeur.version >= ret.versionPolitique
    ensures Permis(c, bas, ret, v, s, ip)
  {
    SeulsLesSignes(c, bas, v.revoquees, v.r.moi, v.r.annonces, Regles(v.pol), v.r.serveur, s, ip);
    hide P.Choisi, P.PolitiqueAdmet, R.Dedans;
  }

  lemma FiltreConstruit(c: R.Codec, bas: P.Casse, v: Vue, entrant: map<P.Adresse, seq<P.RegleMoteur>>)
    requires forall s, ip :: P.Passe(entrant, s, ip) <==>
               Admis(c, bas, v.revoquees, v.r.moi, v.r.annonces, Regles(v.pol), v.r.serveur, s, ip)
    ensures Filtre(c, bas, v, entrant)
  {
  }

  lemma PairesPropres(c: R.Codec, revoquees: seq<string>, moi: P.Adresse, annonces: seq<Annonce>,
                      pairs: seq<(seq<nat>, P.Adresse)>)
    requires Paires(c, revoquees, moi, annonces, pairs)
    ensures forall x <- pairs :: !R.Dedans(c, revoquees, x.0)
  {
    hide R.Dedans;
    forall x | x in pairs
      ensures !R.Dedans(c, revoquees, x.0)
    {
      assert (x.0, x.1) in pairs;
    }
  }

  lemma RienDeRevoque(c: R.Codec)
    ensures forall k :: !R.Dedans(c, [], k)
  {
  }

  /** Without a lock, whoever is well announced is a pair. */
  ghost predicate Annoncees(c: R.Codec, moi: P.Adresse, annonces: seq<Annonce>, pairs: seq<(seq<nat>, P.Adresse)>) {
    forall k: seq<nat>, x: P.Adresse :: (k, x) in pairs <==>
      exists f <- annonces :: f.valide && f.adresse != moi && R.Cle32(c, f.cle) == Some(k) && f.adresse == x
  }

  method Croire(c: R.Codec, moi: P.Adresse, annonces: seq<Annonce>) returns (pairs: seq<(seq<nat>, P.Adresse)>)
    ensures Annoncees(c, moi, annonces, pairs)
  {
    pairs := [];
    var j := 0;
    while j < |annonces|
      invariant 0 <= j <= |annonces| && Annoncees(c, moi, annonces[..j], pairs)
    {
      var f := annonces[j];
      assert annonces[..j + 1] == annonces[..j] + [f];
      var k := R.Cle32(c, f.cle);
      if f.valide && f.adresse != moi && k.Some? {
        pairs := pairs + [(k.valeur, f.adresse)];
      }
      j := j + 1;
    }
    assert annonces[..j] == annonces;
  }

  datatype Evenement =
    | Servi(r: Reseau, ecrit: bool)
    | Reinscrit(nouveau: string, oublier: bool)
    | Desinscrit
}

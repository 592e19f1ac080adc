/** Revocation lists: how the admin extends one, what the server accepts, what a device
    keeps of them, and what it makes of a revoked key ever after. */
module Revocations {
  import opened Termes

  const VERSION_MAX := 0xFFFF_FFFF_FFFF_FFFF

  /** The strict base64 of the standard library, and its encoder. */
  datatype Codec = Codec(lire: string -> Option<seq<nat>>, ecrire: seq<nat> -> string)

  /** A value is accepted only in the one writing its encoder gives it, and 32 bytes long. */
  function Cle32(c: Codec, s: string): (r: Option<seq<nat>>)
    ensures r.Some? ==> |r.valeur| == 32
  {
    match (c.lire)(s)
    case None => None
    case Some(b) => if (c.ecrire)(b) == s && |b| == 32 then Some(b) else None
  }

  /** So a key has one writing: comparing texts is comparing keys. */
  lemma UneSeuleEcriture(c: Codec, s: string, t: string)
    requires Cle32(c, s).Some? && Cle32(c, s) == Cle32(c, t)
    ensures s == t
  {
  }

  datatype Liste = Liste(version: nat, cles: seq<string>, signature: nat)

  /** What the holder of the lock has signed: versions, and keys whatever their order. */
  datatype Document = Document(version: nat, cles: multiset<seq<nat>>)

  /** The keys of a list, if they can all be read. */
  ghost function ClesLues(c: Codec, cles: seq<string>): Option<seq<seq<nat>>> {
    if exists s <- cles :: Cle32(c, s).None? then None
    else Some(seq(|cles|, i requires 0 <= i < |cles| => Cle32(c, cles[i]).valeur))
  }

  /** A good signature exists only for what was signed. */
  ghost predicate Signee(c: Codec, signes: set<Document>, l: Liste) {
    ClesLues(c, l.cles).Some? && Document(l.version, multiset(ClesLues(c, l.cles).valeur)) in signes
  }

  /** The key written in this list. */
  ghost predicate Dedans(c: Codec, cles: seq<string>, k: seq<nat>) {
    exists s <- cles :: Cle32(c, s) == Some(k)
  }

  lemma DedansLues(c: Codec, cles: seq<string>, k: seq<nat>)
    requires ClesLues(c, cles).Some?
    ensures k in multiset(ClesLues(c, cles).valeur) <==> Dedans(c, cles, k)
  {
    var lues := ClesLues(c, cles).valeur;
    if k in lues {
      var i :| 0 <= i < |lues| && lues[i] == k;
      assert cles[i] in cles;
    }
    if Dedans(c, cles, k) {
      var s :| s in cles && Cle32(c, s) == Some(k);
      var i :| 0 <= i < |cles| && cles[i] == s;
      assert lues[i] == k;
    }
  }

  // ----- signed lists forming a chain ------------------------------------------------------

  ghost predicate Tient(d: Document, e: Document) {
    forall k <- d.cles :: k in e.cles
  }

  /** Of two signed lists of different versions, the newer one holds every key of the
      older. Version 0 is left aside: no device ever adopts it. */
  ghost predicate Chaine(signes: set<Document>) {
    forall d, e | d in signes && e in signes && 0 < d.version < e.version :: Tient(d, e)
  }

  /** One more signed list keeps the chain if and only if it fits between the others. */
  lemma ChaineAvec(signes: set<Document>, n: Document)
    requires Chaine(signes)
    ensures Chaine(signes + {n}) <==>
              forall d <- signes :: (0 < d.version < n.version ==> Tient(d, n))
                  && (0 < n.version < d.version ==> Tient(n, d))
  {
    if Chaine(signes + {n}) {
      assert n in signes + {n};
    }
  }

  /** The document of a list that can be read. */
  ghost function DocumentDe(c: Codec, l: Liste): Document
    requires ClesLues(c, l.cles).Some?
  {
    Document(l.version, multiset(ClesLues(c, l.cles).valeur))
  }

  lemma ContenueTient(c: Codec, l: Liste, m: Liste)
    requires ClesLues(c, l.cles).Some? && ClesLues(c, m.cles).Some? && Contenue(l.cles, m.cles)
    ensures Tient(DocumentDe(c, l), DocumentDe(c, m))
  {
    forall k | k in DocumentDe(c, l).cles
      ensures k in DocumentDe(c, m).cles
    {
      DedansLues(c, l.cles, k);
      DedansLues(c, m.cles, k);
    }
  }

  // ----- the admin -------------------------------------------------------------------------

  /** Why a list cannot be extended. */
  datatype Refus = DejaRevoque | DerniereVersion | CleIllisible

  datatype Suite = Suite(version: nat, cles: seq<string>, ajoutees: nat) | Refuse(raison: Refus)

  predicate Contenue(a: seq<string>, b: seq<string>) {
    forall s <- a :: s in b
  }

  method Ajouter(liste: seq<string>, autres: seq<string>, sansVides: bool) returns (r: seq<string>, n: nat)
    ensures liste <= r && |r| == |liste| + n
    ensures forall s :: s in r <==> s in liste || (s in autres && (sansVides ==> s != ""))
  {
    r, n := liste, 0;
    var j := 0;
    while j < |autres|
      invariant 0 <= j <= |autres| && liste <= r && |r| == |liste| + n
      invariant forall s :: s in r <==> s in liste || (s in autres[..j] && (sansVides ==> s != ""))
    {
      var s := autres[j];
      if !(sansVides && s == "") && s !in r {
        r, n := r + [s], n + 1;
      }
      j := j + 1;
    }
  }

  /** The list that comes next. It starts from what the admin keeps and from the list
      served only if `servieBonne`, that is if it is well signed; it holds both, and the
      keys asked for, under the next version. */
  method Allonger(c: Codec, version: nat, retenues: seq<string>, servie: Option<Liste>, servieBonne: bool,
                  nouvelles: seq<string>)
      returns (r: Suite)
    requires version <= VERSION_MAX && (servie.Some? ==> servie.valeur.version <= VERSION_MAX)
    ensures var adoptee := servie.Some? && servie.valeur.version > version && servieBonne;
            var v := if adoptee then servie.valeur.version else version;
            var base := s => s in retenues || (adoptee && s in servie.valeur.cles);
            match r
            case Suite(w, cles, n) =>
              && w == v + 1 <= VERSION_MAX && n > 0 && retenues <= cles && ClesLues(c, cles).Some?
              && forall s :: s in cles <==> base(s) || (s in nouvelles && s != "")
            case Refuse(DejaRevoque) => forall s <- nouvelles :: s == "" || base(s)
            case Refuse(DerniereVersion) => v == VERSION_MAX
            case Refuse(CleIllisible) => exists s :: (base(s) || s in nouvelles) && Cle32(c, s).None?
  {
    var liste, v := retenues, version;
    if servie.Some? && servie.valeur.version > version && servieBonne {
      v := servie.valeur.version;
      var venues;
      liste, venues := Ajouter(liste, servie.valeur.cles, false);
    }
    var avant := liste;
    var ajoutees;
    liste, ajoutees := Ajouter(liste, nouvelles, true);
    if ajoutees == 0 {
      assert liste == avant;
      return Refuse(DejaRevoque);
    }
    if v == VERSION_MAX {
      return Refuse(DerniereVersion);
    }
    var j := 0;
    while j < |liste|
      invariant 0 <= j <= |liste| && forall s <- liste[..j] :: Cle32(c, s).Some?
    {
      if Cle32(c, liste[j]).None? {
        assert liste[j] in liste;
        return Refuse(CleIllisible);
      }
      j := j + 1;
    }
    assert liste[..j] == liste;
    return Suite(v + 1, liste, ajoutees);
  }

  /** An admin who starts from the newest list signed so far keeps the chain if and only if
      the new list holds all that was ever signed under that newest version: so always,
      when only one list was. */
  lemma AllongerGardeChaine(c: Codec, signes: set<Document>, derniere: Liste, suite: Liste)
    requires Chaine(signes) && Signee(c, signes, derniere)
    requires forall d <- signes :: d.version <= derniere.version
    requires suite.version == derniere.version + 1 && Contenue(derniere.cles, suite.cles)
              && ClesLues(c, suite.cles).Some?
    ensures Chaine(signes + {DocumentDe(c, suite)}) <==>
              forall d <- signes | 0 < d.version == derniere.version :: Tient(d, DocumentDe(c, suite))
    ensures (forall d <- signes | d.version == derniere.version :: d == DocumentDe(c, derniere)) ==>
              Chaine(signes + {DocumentDe(c, suite)})
  {
    var n, e := DocumentDe(c, suite), DocumentDe(c, derniere);
    ContenueTient(c, derniere, suite);
    forall d | d in signes && 0 < d.version < derniere.version
      ensures Tient(d, n)
    {
      assert Tient(d, e);
    }
    ChaineAvec(signes, n);
  }

  // ----- the server ------------------------------------------------------------------------

  const ACCEPTEE := 200
  const ILLISIBLE := 400
  const PERIMEE := 409
  const NON_ECRITE := 500

  function EnVigueur(sas: Option<Liste>, appli: Option<Liste>): Option<Liste> {
    if sas.None? then appli
    else if appli.None? || appli.valeur.version <= sas.valeur.version then sas
    else appli
  }

  /** What comes in force after another: the same, or newer and holding all its keys. */
  ghost predicate Suit(avant: Option<Liste>, apres: Option<Liste>) {
    || avant == apres
    || avant.None?
    || (apres.Some? && avant.valeur.version < apres.valeur.version && Contenue(avant.valeur.cles, apres.valeur.cles))
  }

  ghost predicate Croissantes(ls: seq<Option<Liste>>) {
    forall i, j | 0 <= i < j < |ls| :: Suit(ls[i], ls[j])
  }

  lemma CroissantesPlus(ls: seq<Option<Liste>>, l: Option<Liste>)
    requires ls != []
    ensures Croissantes(ls + [l]) <==> Croissantes(ls) && Suit(ls[|ls| - 1], l)
  {
    var n := ls + [l];
    assert n[|ls|] == l && n[|ls| - 1] == ls[|ls| - 1] && n[..|ls|] == ls;
    if Croissantes(n) {
      forall i, j | 0 <= i < j < |ls|
        ensures Suit(ls[i], ls[j])
      {
        assert n[i] == ls[i] && n[j] == ls[j];
      }
    }
    if Croissantes(ls) && Suit(ls[|ls| - 1], l) {
      forall i, j | 0 <= i < j < |n|
        ensures Suit(n[i], n[j])
      {
        if j == |ls| && i < |ls| - 1 {
          assert Suit(ls[i], ls[|ls| - 1]);
        }
      }
    }
  }

  lemma CroissantesTient(c: Codec, ls: seq<Option<Liste>>, i: nat, j: nat)
    requires Croissantes(ls) && i < |ls| && j < |ls| && ls[i].Some? && ls[j].Some?
    requires ls[i].valeur.version < ls[j].valeur.version
    requires ClesLues(c, ls[i].valeur.cles).Some? && ClesLues(c, ls[j].valeur.cles).Some?
    ensures Tient(DocumentDe(c, ls[i].valeur), DocumentDe(c, ls[j].valeur))
  {
    hide ClesLues, Tient, Contenue;
    if i < j {
      assert Suit(ls[i], ls[j]);
      ContenueTient(c, ls[i].valeur, ls[j].valeur);
    } else {
      assert false;
    }
  }

  /** What was in force, when it could be read, is a chain of documents for the devices. */
  lemma CroissantesChaine(c: Codec, ls: seq<Option<Liste>>)
    requires Croissantes(ls)
    ensures Chaine(set l <- ls | l.Some? && ClesLues(c, l.valeur.cles).Some? :: DocumentDe(c, l.valeur))
  {
    hide ClesLues, Tient, Croissantes;
    var docs := set l <- ls | l.Some? && ClesLues(c, l.valeur.cles).Some? :: DocumentDe(c, l.valeur);
    forall d, e | d in docs && e in docs && 0 < d.version < e.version
      ensures Tient(d, e)
    {
      var i :| 0 <= i < |ls| && ls[i].Some? && ClesLues(c, ls[i].valeur.cles).Some? && DocumentDe(c, ls[i].valeur) == d;
      var j :| 0 <= j < |ls| && ls[j].Some? && ClesLues(c, ls[j].valeur.cles).Some? && DocumentDe(c, ls[j].valeur) == e;
      CroissantesTient(c, ls, i, j);
    }
  }

  class Registre {
    // What the file of the command line and that of the application hold.
    var sas: Option<Liste>
    var appli: Option<Liste>
    // What was in force, in order, at every reading or writing.
    ghost var histoire: seq<Option<Liste>>

    ghost predicate Valid()
      reads this
    {
      histoire != [] && histoire[|histoire| - 1] == EnVigueur(sas, appli)
    }

    constructor (sas: Option<Liste>, appli: Option<Liste>)
      ensures Valid() && Croissantes(histoire)
    {
      this.sas, this.appli, histoire := sas, appli, [EnVigueur(sas, appli)];
    }

    /** The file of the command line is read each time, and no test stands in front of it:
        what was in force goes on growing if and only if what it holds now does not take
        the place of a list it does not follow. */
    method Relire(sas': Option<Liste>)
      requires Valid()
      modifies this
      ensures Valid() && sas == sas' && appli == old(appli)
      ensures histoire == old(histoire) + [EnVigueur(sas', appli)]
      ensures Croissantes(histoire) <==>
                old(Croissantes(histoire)) && Suit(old(EnVigueur(sas, appli)), EnVigueur(sas', appli))
    {
      sas := sas';
      CroissantesPlus(histoire, EnVigueur(sas, appli));
      histoire := histoire + [EnVigueur(sas, appli)];
    }

    /** A list sent from the application of an admin. It is accepted only if it can be
        read, does not revoke the sender, is well signed, is newer than the one in force,
        and forgets none of its keys: what was in force goes on growing. */
    method Recevoir(c: Codec, l: Liste, moi: string, bonne: bool, ecrit: bool) returns (code: nat)
      requires Valid()
      modifies this
      ensures Valid() && sas == old(sas)
      ensures var avant := old(EnVigueur(sas, appli));
              code == ACCEPTEE <==>
                && (forall s <- l.cles :: Cle32(c, s).Some? && s != moi) && bonne && ecrit
                && (avant.Some? ==> l.version > avant.valeur.version && Contenue(avant.valeur.cles, l.cles))
      ensures code == ACCEPTEE ==> EnVigueur(sas, appli) == Some(l) && histoire == old(histoire) + [Some(l)]
      ensures code != ACCEPTEE ==> appli == old(appli) && histoire == old(histoire)
      ensures Croissantes(histoire) <==> old(Croissantes(histoire))
    {
      var j := 0;
      while j < |l.cles|
        invariant 0 <= j <= |l.cles| && forall s <- l.cles[..j] :: Cle32(c, s).Some? && s != moi
      {
        assert l.cles[..j + 1] == l.cles[..j] + [l.cles[j]];
        if Cle32(c, l.cles[j]).None? || l.cles[j] == moi {
          assert l.cles[j] in l.cles;
          return ILLISIBLE;
        }
        j := j + 1;
      }
      assert l.cles[..j] == l.cles;
      if !bonne {
        return ILLISIBLE;
      }
      var actuelle := EnVigueur(sas, appli);
      if actuelle.Some? {
        if l.version <= actuelle.valeur.version {
          return PERIMEE;
        }
        var i := 0;
        while i < |actuelle.valeur.cles|
          invariant 0 <= i <= |actuelle.valeur.cles| && Contenue(actuelle.valeur.cles[..i], l.cles)
        {
          if actuelle.valeur.cles[i] !in l.cles {
            return ILLISIBLE;
          }
          i := i + 1;
        }
        assert actuelle.valeur.cles[..i] == actuelle.valeur.cles;
      }
      if !ecrit {
        return NON_ECRITE;
      }
      CroissantesPlus(histoire, Some(l));
      appli := Some(l);
      histoire := histoire + [Some(l)];
      return ACCEPTEE;
    }
  }

  // ----- a device ----------------------------------------------------------------------------

  /** What a device keeps, on disk: its lock, the highest versions seen, the keys revoked. */
  datatype Retenu = Retenu(verrou: string, version: nat, revoquees: seq<string>, versionPolitique: nat)

  function Adopter(ret: Retenu, servie: Option<Liste>, bonne: bool): Retenu {
    if servie.None? || servie.valeur.version <= ret.version || !bonne then ret
    else ret.(version := servie.valeur.version, revoquees := servie.valeur.cles)
  }

  /** What a device keeps is what it started with, or a list that was signed. */
  ghost predicate Fidele(c: Codec, signes: set<Document>, ret: Retenu) {
    && (ret.revoquees == [] || (0 < ret.version && Signee(c, signes, Liste(ret.version, ret.revoquees, 0))))
    && (ret.verrou == "" ==> ret.revoquees == [])
  }

  lemma AdopterFidele(c: Codec, signes: set<Document>, ret: Retenu, servie: Option<Liste>, bonne: bool)
    requires Chaine(signes) && Fidele(c, signes, ret) && ret.verrou != ""
    requires bonne ==> servie.Some? && Signee(c, signes, servie.valeur)
    ensures Fidele(c, signes, Adopter(ret, servie, bonne)) && Adopter(ret, servie, bonne).verrou == ret.verrou
    ensures forall k | Dedans(c, ret.revoquees, k) :: Dedans(c, Adopter(ret, servie, bonne).revoquees, k)
  {
    var suite := Adopter(ret, servie, bonne);
    if suite != ret && ret.revoquees != [] {
      var d, e := Document(ret.version, multiset(ClesLues(c, ret.revoquees).valeur)),
                  Document(suite.version, multiset(ClesLues(c, suite.revoquees).valeur));
      assert d in signes && e in signes && Tient(d, e);
      forall k | Dedans(c, ret.revoquees, k)
        ensures Dedans(c, suite.revoquees, k)
      {
        DedansLues(c, ret.revoquees, k);
        DedansLues(c, suite.revoquees, k);
      }
    }
  }

  /** The revoked keys as bytes, whatever their writing. */
  method Bannies(c: Codec, revoquees: seq<string>) returns (bannies: set<seq<nat>>)
    ensures forall k :: k in bannies <==> Dedans(c, revoquees, k)
  {
    bannies := {};
    var i := 0;
    while i < |revoquees|
      invariant 0 <= i <= |revoquees|
      invariant forall k :: k in bannies <==> Dedans(c, revoquees[..i], k)
    {
      assert revoquees[..i + 1] == revoquees[..i] + [revoquees[i]];
      DedansPlus(c, revoquees[..i], revoquees[i]);
      var k := Cle32(c, revoquees[i]);
      if k.Some? {
        bannies := bannies + {k.valeur};
      }
      i := i + 1;
    }
    assert revoquees[..i] == revoquees;
  }

  lemma DedansPlus(c: Codec, cles: seq<string>, s: string)
    ensures forall k :: Dedans(c, cles + [s], k) <==> Dedans(c, cles, k) || Cle32(c, s) == Some(k)
  {
    assert s in cles + [s] && forall t <- cles :: t in cles + [s];
  }

  // ----- the chain is exactly what is needed ------------------------------------------------------

  /** A device that has just joined, and what it keeps after being served these lists. */
  const NEUF := Retenu("verrou", 0, [], 0)

  ghost function Servir(ret: Retenu, ls: seq<Liste>): Retenu {
    if ls == [] then ret else Adopter(Servir(ret, ls[..|ls| - 1]), Some(ls[|ls| - 1]), true)
  }

  ghost predicate Signees(c: Codec, signes: set<Document>, ls: seq<Liste>) {
    forall l <- ls :: Signee(c, signes, l)
  }

  /** Whatever signed lists a new device is served, in whatever order, it never forgets a
      key it once knew revoked. */
  ghost predicate Permanente(c: Codec, signes: set<Document>) {
    forall avant, apres | Signees(c, signes, avant) && Signees(c, signes, apres) ::
      Garde(c, Servir(NEUF, avant), Servir(NEUF, avant + apres))
  }

  ghost predicate Garde(c: Codec, ret: Retenu, suite: Retenu) {
    forall k | Dedans(c, ret.revoquees, k) :: Dedans(c, suite.revoquees, k)
  }

  /** What was signed is what some list says. */
  ghost predicate Ecrits(c: Codec, signes: set<Document>) {
    forall d <- signes :: exists l: Liste :: ClesLues(c, l.cles).Some? && DocumentDe(c, l) == d
  }

  lemma {:induction false} ServirGarde(c: Codec, signes: set<Document>, avant: seq<Liste>, apres: seq<Liste>)
    requires Chaine(signes) && Signees(c, signes, avant) && Signees(c, signes, apres)
    ensures Fidele(c, signes, Servir(NEUF, avant + apres)) && Servir(NEUF, avant + apres).verrou == NEUF.verrou
    ensures Garde(c, Servir(NEUF, avant), Servir(NEUF, avant + apres))
    decreases |avant| + |apres|
  {
    hide Dedans, Signee, Adopter, Chaine;
    var tout := avant + apres;
    if apres != [] {
      var moins := apres[..|apres| - 1];
      ServirGarde(c, signes, avant, moins);
      assert tout[..|tout| - 1] == avant + moins;
      AdopterFidele(c, signes, Servir(NEUF, avant + moins), Some(tout[|tout| - 1]), true);
    } else {
      assert tout == avant;
      if avant != [] {
        var moins := avant[..|avant| - 1];
        assert moins + [] == moins;
        ServirGarde(c, signes, moins, []);
        AdopterFidele(c, signes, Servir(NEUF, moins), Some(avant[|avant| - 1]), true);
      }
    }
  }

  /** Any two lists of growing versions of which the second misses a key of the first: a
      device below both learns the key, then forgets it. */
  lemma DeuxListesOubli(c: Codec, ret: Retenu, l: Liste, m: Liste, k: seq<nat>)
    requires ret.version < l.version < m.version && Dedans(c, l.cles, k) && !Dedans(c, m.cles, k)
    ensures Dedans(c, Servir(ret, [l]).revoquees, k) && !Dedans(c, Servir(ret, [l, m]).revoquees, k)
  {
    assert [l, m][..1] == [l] && [l][..0] == [];
    assert Servir(ret, [l]) == Adopter(ret, Some(l), true);
  }

  /** The document of a list, key by key. */
  lemma Ecrite(c: Codec, signes: set<Document>, d: Document, k: seq<nat>) returns (l: Liste)
    requires Ecrits(c, signes) && d in signes
    ensures Signees(c, signes, [l]) && l.version == d.version && (Dedans(c, l.cles, k) <==> k in d.cles)
  {
    l :| ClesLues(c, l.cles).Some? && DocumentDe(c, l) == d;
    DedansLues(c, l.cles, k);
  }

  lemma ChaineNecessaire(c: Codec, signes: set<Document>, d: Document, e: Document)
    requires Ecrits(c, signes) && d in signes && e in signes && 0 < d.version < e.version && !Tient(d, e)
    ensures !Permanente(c, signes)
  {
    hide Dedans, Ecrits, Signees;
    var k :| k in d.cles && k !in e.cles;
    var l := Ecrite(c, signes, d, k);
    var m := Ecrite(c, signes, e, k);
    DeuxListesOubli(c, NEUF, l, m, k);
    assert [l] + [m] == [l, m];
    assert !Garde(c, Servir(NEUF, [l]), Servir(NEUF, [l] + [m]));
  }

  /** Revocation is permanent if and only if the signed lists form a chain. */
  lemma PermanenteSiChaine(c: Codec, signes: set<Document>)
    requires Ecrits(c, signes)
    ensures Permanente(c, signes) <==> Chaine(signes)
  {
    hide Ecrits, Tient, Garde, Signees;
    if Chaine(signes) {
      forall avant, apres | Signees(c, signes, avant) && Signees(c, signes, apres)
        ensures Garde(c, Servir(NEUF, avant), Servir(NEUF, avant + apres))
      {
        ServirGarde(c, signes, avant, apres);
      }
    } else {
      var d, e :| d in signes && e in signes && 0 < d.version < e.version && !Tient(d, e);
      ChaineNecessaire(c, signes, d, e);
    }
  }

  // ----- how a chain gets broken ------------------------------------------------------------------

  /** A codec under which any 32 characters are a key. */
  const SIMPLE := Codec(s => Some(seq(|s|, i requires 0 <= i < |s| => s[i] as nat)),
                        b => seq(|b|, i requires 0 <= i < |b| => if b[i] < 0xD800 then b[i] as char else '?'))

  function Cle(x: char): string {
    seq(32, _ => x)
  }

  lemma CleSimple(x: char)
    requires 'a' <= x <= 'z'
    ensures Cle32(SIMPLE, Cle(x)).Some? && Cle32(SIMPLE, Cle(x)).valeur[0] == x as nat
  {
    var s := Cle(x);
    var b := (SIMPLE.lire)(s).valeur;
    assert b == seq(32, _ => x as nat);
    assert (SIMPLE.ecrire)(b) == s;
  }

  const CACHEE := Liste(2, [Cle('b')], 0)
  const AUTRE := Liste(2, [Cle('c')], 0)
  const SUIVANTE := Liste(3, [Cle('c'), Cle('d')], 0)

  lemma ListesLisibles()
    ensures ClesLues(SIMPLE, CACHEE.cles).Some? && ClesLues(SIMPLE, AUTRE.cles).Some?
              && ClesLues(SIMPLE, SUIVANTE.cles).Some?
  {
    CleSimple('b');
    CleSimple('c');
    CleSimple('d');
    hide Cle32, Cle, SIMPLE;
  }

  lemma CleOubliee()
    ensures var k := Cle32(SIMPLE, Cle('b'));
            k.Some? && Dedans(SIMPLE, CACHEE.cles, k.valeur) && !Dedans(SIMPLE, SUIVANTE.cles, k.valeur)
  {
    CleSimple('b');
    CleSimple('c');
    CleSimple('d');
    hide Cle32, Cle, SIMPLE;
    assert Cle('b') in CACHEE.cles;
    assert forall s <- SUIVANTE.cles :: s == Cle('c') || s == Cle('d');
  }

  lemma Fourche(a: Document, b: Document, d: Document)
    requires a.version == b.version == 2 && d.version == 3 && Tient(b, d) && !Tient(a, d)
    ensures Chaine({a, b}) && Chaine({b, d}) && !Chaine({a, b, d})
  {
    hide Tient;
    assert a in {a, b, d} && d in {a, b, d};
  }

  /** Devices check that a list is newer and well signed, not that it holds the one before.
      If a server hides a list from an admin, that admin signs another one under the same
      version, with other keys, then the one that follows it: each admin keeps a chain, all
      three lists are none, and a device that adopted the hidden list forgets its key with
      the third. */
  lemma SansChaineOubli(ret: Retenu)
    requires ret.version == 1
    ensures ClesLues(SIMPLE, CACHEE.cles).Some? && ClesLues(SIMPLE, AUTRE.cles).Some?
              && ClesLues(SIMPLE, SUIVANTE.cles).Some?
    ensures var cachee, autre, suivante := DocumentDe(SIMPLE, CACHEE), DocumentDe(SIMPLE, AUTRE),
              DocumentDe(SIMPLE, SUIVANTE);
            Chaine({cachee, autre}) && Chaine({autre, suivante}) && !Chaine({cachee, autre, suivante})
    ensures var k := Cle32(SIMPLE, Cle('b')).valeur;
            Dedans(SIMPLE, Servir(ret, [CACHEE]).revoquees, k)
                && !Dedans(SIMPLE, Servir(ret, [CACHEE, SUIVANTE]).revoquees, k)
  {
    hide Cle32, Cle, SIMPLE, ClesLues, Dedans, Chaine;
    ListesLisibles();
    CleOubliee();
    var k := Cle32(SIMPLE, Cle('b')).valeur;
    DedansLues(SIMPLE, CACHEE.cles, k);
    DedansLues(SIMPLE, SUIVANTE.cles, k);
    assert k in DocumentDe(SIMPLE, CACHEE).cles && k !in DocumentDe(SIMPLE, SUIVANTE).cles;
    ContenueTient(SIMPLE, AUTRE, SUIVANTE);
    Fourche(DocumentDe(SIMPLE, CACHEE), DocumentDe(SIMPLE, AUTRE), DocumentDe(SIMPLE, SUIVANTE));
    DeuxListesOubli(SIMPLE, ret, CACHEE, SUIVANTE, k);
  }
}

/** Putting the network back in agreement with the team, the policy and the database,
    over a firewall that may fail at any time. */
module Synchro {
  import opened Termes
  import P = Politique

  type Adresse = P.Adresse

  /** A registered device; its key may be unreadable, its registration may expire. */
  datatype Inscrit = Inscrit(id: nat, cle: Option<nat>, adresse: Adresse, proprietaire: string, expire: Option<int>)

  // ----- who stays ------------------------------------------------------------------------

  predicate Revoquee(revoquees: set<nat>, a: Inscrit) {
    a.cle.Some? && a.cle.valeur in revoquees
  }

  predicate Expiree(a: Inscrit, maintenant: int) {
    a.expire.Some? && maintenant > a.expire.valeur
  }

  predicate HorsEquipe(a: Inscrit, equipe: map<string, string>) {
    a.proprietaire != "" && P.Groupe(equipe, a.proprietaire) == ""
  }

  predicate Reste(a: Inscrit, revoquees: set<nat>, equipe: map<string, string>, maintenant: int) {
    !Revoquee(revoquees, a) && !Expiree(a, maintenant) && !HorsEquipe(a, equipe)
  }

  function Filtrer(s: seq<Inscrit>, p: Inscrit -> bool): (r: seq<Inscrit>)
    ensures forall a :: a in r <==> a in s && p(a)
  {
    if s == [] then []
    else
      var debut, a := Filtrer(s[..|s| - 1], p), s[|s| - 1];
      assert s == s[..|s| - 1] + [a];
      if p(a) then debut + [a] else debut
  }

  lemma FiltrerPlus(s: seq<Inscrit>, a: Inscrit, p: Inscrit -> bool)
    ensures Filtrer(s + [a], p) == if p(a) then Filtrer(s, p) + [a] else Filtrer(s, p)
  {
    assert (s + [a])[..|s|] == s;
  }

  /** The devices kept. */
  function Restant(revoquees: set<nat>, equipe: map<string, string>, maintenant: int): Inscrit -> bool {
    a => Reste(a, revoquees, equipe, maintenant)
  }

  /** Those that only left the team. */
  function Sortant(revoquees: set<nat>, equipe: map<string, string>, maintenant: int): Inscrit -> bool {
    a => !Revoquee(revoquees, a) && !Expiree(a, maintenant) && HorsEquipe(a, equipe)
  }

  /** Those that belong to somebody. */
  function Personnel(): Inscrit -> bool {
    (a: Inscrit) => a.proprietaire != ""
  }

  predicate Coupee(a: Inscrit, revoquees: set<nat>, maintenant: int) {
    Revoquee(revoquees, a) || Expiree(a, maintenant)
  }

  /** Losing more than half of the personal devices at once is more often a truncated
      file than a decision. */
  predicate Massive(sortis: nat, personnels: nat) {
    sortis >= 3 && 2 * sortis > personnels
  }

  /** Sorts the devices: those kept, and those to erase. Whoever is revoked, expired or out
      of the team is cut off in any case; a team that shrinks too much at once, or that
      could not be read again, only erases nothing. */
  method Trier(appareils: seq<Inscrit>, revoquees: set<nat>, equipe: map<string, string>, fraiche: bool,
               maintenant: int)
      returns (gardes: seq<Inscrit>, effaces: seq<Inscrit>)
    ensures gardes == Filtrer(appareils, Restant(revoquees, equipe, maintenant))
    ensures forall a <- effaces :: a in appareils && a !in gardes
    ensures var sortis := Filtrer(appareils, Sortant(revoquees, equipe, maintenant));
            var personnels := Filtrer(appareils, Personnel());
            forall a <- appareils ::
              a in effaces <==>
                Coupee(a, revoquees, maintenant) || (a in sortis && fraiche && !Massive(|sortis|, |personnels|))
  {
    hide Filtrer, Revoquee, Expiree, Massive;
    var reste, sort, perso := Restant(revoquees, equipe, maintenant), Sortant(revoquees, equipe, maintenant),
        Personnel();
    gardes, effaces := [], [];
    var sortis: seq<Inscrit>, personnels := [], 0;
    RienFiltre(reste);
    RienFiltre(sort);
    RienFiltre(perso);
    var j := 0;
    while j < |appareils|
      invariant 0 <= j <= |appareils|
      invariant gardes == Filtrer(appareils[..j], reste)
      invariant sortis == Filtrer(appareils[..j], sort)
      invariant personnels == |Filtrer(appareils[..j], perso)|
      invariant forall a :: a in effaces <==> a in appareils[..j] && Coupee(a, revoquees, maintenant)
    {
      var a := appareils[j];
      assert appareils[..j + 1] == appareils[..j] + [a];
      FiltrerPlus(appareils[..j], a, reste);
      FiltrerPlus(appareils[..j], a, sort);
      FiltrerPlus(appareils[..j], a, perso);
      if a.proprietaire != "" {
        personnels := personnels + 1;
      }
      if Revoquee(revoquees, a) || Expiree(a, maintenant) {
        effaces := effaces + [a];
      } else if a.proprietaire != "" && P.Groupe(equipe, a.proprietaire) == "" {
        sortis := sortis + [a];
      } else {
        gardes := gardes + [a];
      }
      j := j + 1;
    }
    assert appareils[..j] == appareils;
    if |sortis| > 0 && fraiche && !Massive(|sortis|, personnels) {
      effaces := effaces + sortis;
    }
  }

  lemma RienFiltre(p: Inscrit -> bool)
    ensures Filtrer([], p) == []
  {
  }

  // ----- what is wanted ----------------------------------------------------------------------

  /** What the server signs its last full application with: the readable devices kept,
      who may talk to whom, and the firewall rules. */
  datatype Signature = Signature(lignes: seq<(nat, nat, Adresse)>, liens: set<(Adresse, Adresse)>, regles: nat)

  datatype Voulu = Voulu(pairs: set<nat>, relations: set<(nat, nat)>, voit: set<(Adresse, Adresse)>)

  /** The number of the device at this address, the last one listed; 0 if none. */
  function Numero(lignes: seq<(nat, nat, Adresse)>, a: Adresse): nat {
    if lignes == [] then 0
    else if lignes[|lignes| - 1].2 == a then lignes[|lignes| - 1].0
    else Numero(lignes[..|lignes| - 1], a)
  }

  predicate Lie(s: Signature, x: (Adresse, Adresse)) {
    x in s.liens && Numero(s.lignes, x.0) != 0 && Numero(s.lignes, x.1) != 0
  }

  function Cles(lignes: seq<(nat, nat, Adresse)>): set<nat> {
    set l <- lignes :: l.1
  }

  lemma ClesPlus(lignes: seq<(nat, nat, Adresse)>, l: (nat, nat, Adresse))
    ensures Cles(lignes + [l]) == Cles(lignes) + {l.1}
  {
    assert l in lignes + [l];
    assert forall x <- lignes :: x in lignes + [l];
  }

  function VouluDe(s: Signature): Voulu {
    Voulu(
      Cles(s.lignes),
      set x | x in s.liens && Lie(s, x) :: (Numero(s.lignes, x.0), Numero(s.lignes, x.1)),
      set x | x in s.liens && Lie(s, x))
  }

  function Lignes(gardes: seq<Inscrit>): (r: seq<(nat, nat, Adresse)>)
    ensures forall l <- r :: exists a <- gardes :: a.cle == Some(l.1) && a.id == l.0 && a.adresse == l.2
  {
    if gardes == [] then []
    else
      var debut, a := Lignes(gardes[..|gardes| - 1]), gardes[|gardes| - 1];
      assert gardes == gardes[..|gardes| - 1] + [a];
      if a.cle.Some? then debut + [(a.id, a.cle.valeur, a.adresse)] else debut
  }

  // ----- one synchronisation --------------------------------------------------------------------

  datatype Etat = Etat(actifs: set<nat>, relations: set<(nat, nat)>, voit: set<(Adresse, Adresse)>,
      signature: Option<Signature>)

  const VIERGE := Etat({}, {}, {}, None)

  function Apres(s: Etat, w: Signature, pareFeu: bool): Etat {
    var v := VouluDe(w);
    if s.signature == Some(w) then s
    else if !pareFeu then s.(actifs := s.actifs * v.pairs, relations := s.relations * v.relations)
    else Etat(v.pairs, v.relations, v.voit, Some(w))
  }

  /** What one passage finds: the devices kept, the links, the rules, and how the firewall does. */
  datatype Tour = Tour(gardes: seq<Inscrit>, liens: set<(Adresse, Adresse)>, regles: nat, pareFeu: bool)

  function Entrees(tours: seq<Tour>): (ps: seq<(Signature, bool)>)
    ensures |ps| == |tours|
  {
    if tours == [] then []
    else
      var t := tours[|tours| - 1];
      Entrees(tours[..|tours| - 1]) + [(Signature(Lignes(t.gardes), t.liens, t.regles), t.pareFeu)]
  }

  ghost function Passages(ps: seq<(Signature, bool)>): Etat {
    if ps == [] then VIERGE else Apres(Passages(ps[..|ps| - 1]), ps[|ps| - 1].0, ps[|ps| - 1].1)
  }

  class Reconciliateur {
    var actifs: set<nat>
    var relations: set<(nat, nat)>
    var voit: set<(Adresse, Adresse)>
    var signature: Option<Signature>
    // The keys last given to the engine.
    var moteur: seq<nat>

    ghost function Vue(): Etat
      reads this
    {
      Etat(actifs, relations, voit, signature)
    }

    /** The engine holds the keys of the active devices, and no other. */
    ghost predicate Valid()
      reads this
    {
      (set k <- moteur) == actifs
    }

    constructor ()
      ensures Valid() && Vue() == VIERGE
    {
      actifs, relations, voit, signature, moteur := {}, {}, {}, None, [];
    }

    method Synchroniser(gardes: seq<Inscrit>, liens: set<(Adresse, Adresse)>, regles: nat, pareFeu: bool)
        returns (ok: bool)
      requires Valid()
      modifies this
      ensures Valid()
      ensures Vue() == Apres(old(Vue()), Signature(Lignes(gardes), liens, regles), pareFeu)
      ensures ok <==> pareFeu || old(signature) == Some(Signature(Lignes(gardes), liens, regles))
    {
      var lignes := [];
      var j := 0;
      while j < |gardes|
        invariant 0 <= j <= |gardes| && lignes == Lignes(gardes[..j])
      {
        assert gardes[..j + 1][..j] == gardes[..j];
        if gardes[j].cle.Some? {
          lignes := lignes + [(gardes[j].id, gardes[j].cle.valeur, gardes[j].adresse)];
        }
        j := j + 1;
      }
      assert gardes[..j] == gardes;
      var w := Signature(lignes, liens, regles);
      if signature == Some(w) {
        return true;
      }
      var rel, vus := Croiser(w);
      if !pareFeu {
        moteur := Restreindre(lignes, actifs);
        actifs := set k <- moteur;
        relations := relations * rel;
        return false;
      }
      moteur := seq(|lignes|, i requires 0 <= i < |lignes| => lignes[i].1);
      MemesCles(lignes, moteur);
      actifs := set k <- moteur;
      relations, voit, signature := rel, vus, Some(w);
      return true;
    }

    /** One passage after the other, on what the database, the policy and the firewall give. */
    method Boucle(tours: seq<Tour>)
      requires Valid() && Vue() == VIERGE
      modifies this
      ensures Valid() && Vue() == Passages(Entrees(tours))
    {
      var j := 0;
      while j < |tours|
        invariant 0 <= j <= |tours|
        invariant Valid() && Vue() == Passages(Entrees(tours[..j]))
      {
        assert tours[..j + 1][..j] == tours[..j];
        var t := tours[j];
        var ok := Synchroniser(t.gardes, t.liens, t.regles, t.pareFeu);
        ghost var ps := Entrees(tours[..j + 1]);
        assert ps[..|ps| - 1] == Entrees(tours[..j]);
        j := j + 1;
      }
      assert tours[..j] == tours;
    }

    lemma MemesCles(lignes: seq<(nat, nat, Adresse)>, cles: seq<nat>)
      requires |cles| == |lignes| && forall i | 0 <= i < |cles| :: cles[i] == lignes[i].1
      ensures (set k <- cles) == Cles(lignes)
    {
      forall k | k in cles
        ensures exists l <- lignes :: l.1 == k
      {
        var i :| 0 <= i < |cles| && cles[i] == k;
        assert lignes[i] in lignes;
      }
      forall l | l in lignes
        ensures l.1 in cles
      {
        var i :| 0 <= i < |lignes| && lignes[i] == l;
        assert cles[i] in cles;
      }
    }

    /** Only those already active. */
    method Restreindre(lignes: seq<(nat, nat, Adresse)>, deja: set<nat>) returns (r: seq<nat>)
      ensures (set k <- r) == deja * Cles(lignes)
    {
      r := [];
      var j := 0;
      while j < |lignes|
        invariant 0 <= j <= |lignes|
        invariant forall k :: k in r <==> k in deja && k in Cles(lignes[..j])
      {
        assert lignes[..j + 1] == lignes[..j] + [lignes[j]];
        ClesPlus(lignes[..j], lignes[j]);
        if lignes[j].1 in deja {
          r := r + [lignes[j].1];
        }
        j := j + 1;
      }
      assert lignes[..j] == lignes;
    }

    /** The pairs of device numbers that may be relayed, and the addresses that see each other. */
    method Croiser(w: Signature) returns (rel: set<(nat, nat)>, vus: set<(Adresse, Adresse)>)
      ensures rel == VouluDe(w).relations && vus == VouluDe(w).voit
    {
      rel, vus := {}, {};
      var reste := w.liens;
      while reste != {}
        invariant reste <= w.liens
        invariant vus == set x | x in w.liens && x !in reste && Lie(w, x)
        invariant rel == set x | x in w.liens && x !in reste && Lie(w, x) ::
                  (Numero(w.lignes, x.0), Numero(w.lignes, x.1))
        decreases reste
      {
        var x :| x in reste;
        reste := reste - {x};
        var de, vers := Numero(w.lignes, x.0), Numero(w.lignes, x.1);
        if de != 0 && vers != 0 {
          rel := rel + {(de, vers)};
          vus := vus + {x};
        }
      }
    }
  }

  // ----- whole runs ------------------------------------------------------------------------------

  /** What is in force never exceeds the last configuration applied in full. */
  ghost predicate Inv(s: Etat) {
    match s.signature
    case None => s == VIERGE
    case Some(w) => s.actifs <= VouluDe(w).pairs && s.relations <= VouluDe(w).relations && s.voit == VouluDe(w).voit
  }

  /** What is in force is within what is wanted. */
  ghost predicate Dans(s: Etat, w: Signature) {
    s.actifs <= VouluDe(w).pairs && s.relations <= VouluDe(w).relations
  }

  lemma {:induction false} PassagesGardent(ps: seq<(Signature, bool)>)
    ensures Inv(Passages(ps))
    ensures ps != [] ==> Dans(Passages(ps), ps[|ps| - 1].0)
  {
    if ps != [] {
      PassagesGardent(ps[..|ps| - 1]);
      hide Passages, VouluDe;
    }
  }

  /** A failed push adds nobody, and no relation. */
  lemma EchecNAjouteRien(s: Etat, w: Signature)
    ensures var s' := Apres(s, w, false);
            s'.actifs <= s.actifs && s'.relations <= s.relations && s'.signature == s.signature
  {
  }

  /** At every moment of every run, whatever the firewall did, whoever is active is a
      device of the last list that was to be kept: not revoked, not expired, in the team.
      And whoever may be relayed is linked by the policy of that moment. */
  lemma NulEnTrop(ps: seq<(Signature, bool)>, appareils: seq<Inscrit>, revoquees: set<nat>, equipe: map<string, string>,
                  maintenant: int, k: nat)
    requires ps != []
    requires ps[|ps| - 1].0.lignes == Lignes(Filtrer(appareils, Restant(revoquees, equipe, maintenant)))
    requires k in Passages(ps).actifs
    ensures exists a <- appareils :: a.cle == Some(k) && Reste(a, revoquees, equipe, maintenant)
    ensures k !in revoquees
  {
    PassagesGardent(ps);
    var w := ps[|ps| - 1].0;
    var l :| l in w.lignes && l.1 == k;
    var a :| a in Filtrer(appareils, Restant(revoquees, equipe, maintenant)) && a.cle == Some(l.1);
  }

  /** A relation in force links two devices kept, whose addresses the policy links. */
  lemma RelationVoulue(ps: seq<(Signature, bool)>, r: (nat, nat))
    requires ps != [] && r in Passages(ps).relations
    ensures var w := ps[|ps| - 1].0;
            exists x <- w.liens :: r == (Numero(w.lignes, x.0), Numero(w.lignes, x.1)) && r.0 != 0 && r.1 != 0
  {
    PassagesGardent(ps);
  }

  /** Up to which passage the last full application goes; 0 if there was none. A passage
      applies in full if the firewall works and its configuration is not already the last
      one so applied. */
  ghost function Derniere(ps: seq<(Signature, bool)>): (n: nat)
    ensures n <= |ps|
  {
    if ps == [] then 0
    else
      var d, (w, pareFeu) := Derniere(ps[..|ps| - 1]), ps[|ps| - 1];
      if pareFeu && (d == 0 || ps[d - 1].0 != w) then |ps| else d
  }

  ghost predicate PaireToujoursVoulue(ps: seq<(Signature, bool)>, depuis: nat, k: nat) {
    forall m | depuis <= m < |ps| :: k in VouluDe(ps[m].0).pairs
  }

  ghost predicate RelationToujoursVoulue(ps: seq<(Signature, bool)>, depuis: nat, r: (nat, nat)) {
    forall m | depuis <= m < |ps| :: r in VouluDe(ps[m].0).relations
  }

  /** What is in force after any run: what the last full application and every passage
      since have wanted; and, of who sees whom, what that application wanted. */
  lemma {:induction false} EnVigueur(ps: seq<(Signature, bool)>)
    ensures var n, s := Derniere(ps), Passages(ps);
            && (s.signature == if n == 0 then None else Some(ps[n - 1].0))
            && (forall k :: k in s.actifs <==> n > 0 && PaireToujoursVoulue(ps, n - 1, k))
            && (forall r :: r in s.relations <==> n > 0 && RelationToujoursVoulue(ps, n - 1, r))
            && s.voit == if n == 0 then {} else VouluDe(ps[n - 1].0).voit
  {
    if ps != [] {
      hide VouluDe;
      var qs, w := ps[..|ps| - 1], ps[|ps| - 1].0;
      EnVigueur(qs);
      var n, d, s := Derniere(ps), Derniere(qs), Passages(ps);
      forall k
        ensures k in s.actifs <==> n > 0 && PaireToujoursVoulue(ps, n - 1, k)
      {
        assert d > 0 && PaireToujoursVoulue(ps, d - 1, k) ==> PaireToujoursVoulue(qs, d - 1, k);
        assert ps[|ps| - 1].0 == w;
      }
      forall r
        ensures r in s.relations <==> n > 0 && RelationToujoursVoulue(ps, n - 1, r)
      {
        assert d > 0 && RelationToujoursVoulue(ps, d - 1, r) ==> RelationToujoursVoulue(qs, d - 1, r);
        assert ps[|ps| - 1].0 == w;
      }
    }
  }

  /** From this passage on, every one has wanted all of that. */
  ghost predicate ToutVoulu(ps: seq<(Signature, bool)>, depuis: nat, v: Voulu) {
    forall m | depuis <= m < |ps| :: v.pairs <= VouluDe(ps[m].0).pairs && v.relations <= VouluDe(ps[m].0).relations
  }

  /** Of what the last full application wanted, nothing is lost if and only if every
      passage since has wanted it. */
  lemma RienPerdu(ps: seq<(Signature, bool)>)
    requires Derniere(ps) > 0
    ensures var n, s := Derniere(ps), Passages(ps);
            var v := VouluDe(ps[n - 1].0);
            s.actifs == v.pairs && s.relations == v.relations <==> ToutVoulu(ps, n, v)
  {
    hide VouluDe, Derniere, Passages;
    EnVigueur(ps);
    PassagesGardent(ps);
    var n, s := Derniere(ps), Passages(ps);
    var v := VouluDe(ps[n - 1].0);
    if ToutVoulu(ps, n, v) {
      forall k | k in v.pairs
        ensures k in s.actifs
      {
        assert PaireToujoursVoulue(ps, n - 1, k);
      }
      forall r | r in v.relations
        ensures r in s.relations
      {
        assert RelationToujoursVoulue(ps, n - 1, r);
      }
    }
  }

  /** A passage with a firewall that works leaves all that it wants in force if and only if
      its configuration was not the last one applied in full, or every passage since has
      wanted all of it. */
  lemma Converge(ps: seq<(Signature, bool)>, w: Signature)
    ensures var n, s, v := Derniere(ps), Passages(ps + [(w, true)]), VouluDe(w);
            && s.voit == v.voit
            && (s.actifs == v.pairs && s.relations == v.relations <==>
               n == 0 || ps[n - 1].0 != w || ToutVoulu(ps, n, v))
  {
    hide VouluDe, ToutVoulu, Derniere, PaireToujoursVoulue, RelationToujoursVoulue;
    EnVigueur(ps);
    assert (ps + [(w, true)])[..|ps|] == ps;
    if Derniere(ps) > 0 {
      RienPerdu(ps);
    }
  }

  /** It does not always: one device, which leaves while the firewall fails, and comes
      back. The last passage takes the configuration for the one in force. */
  lemma NeConvergePas()
    ensures exists ps: seq<(Signature, bool)> ::
              ps != [] && ps[|ps| - 1].1 && Passages(ps).actifs != VouluDe(ps[|ps| - 1].0).pairs
  {
    var avec, sans := Signature([(1, 7, 3)], {}, 0), Signature([], {}, 0);
    var p1 := [(avec, true)];
    var p2 := p1 + [(sans, false)];
    var p3 := p2 + [(avec, true)];
    assert p1[..0] == [] && p2[..1] == p1 && p3[..2] == p2;
    assert 7 in VouluDe(avec).pairs by {
      assert (1, 7, 3) in avec.lignes;
    }
    assert VouluDe(sans).pairs == {};
    assert Passages(p1) == Apres(VIERGE, avec, true);
    assert Passages(p2) == Apres(Passages(p1), sans, false);
    assert Passages(p3) == Passages(p2);
    assert Passages(p3).actifs == {};
    assert p3[|p3| - 1].1;
  }

  /** Who sees whose name stays within what the last passage wants if and only if the last
      full application did: failures restrict pairs and relations, not this. */
  lemma VoitReste(ps: seq<(Signature, bool)>)
    requires ps != []
    ensures var n, v := Derniere(ps), VouluDe(ps[|ps| - 1].0);
            Passages(ps).voit <= v.voit <==> n == 0 || VouluDe(ps[n - 1].0).voit <= v.voit
  {
    hide VouluDe;
    EnVigueur(ps);
  }

  /** It may not: two linked devices, then a network without them and a firewall that
      fails. Nothing of them is active, yet each still sees the name of the other. */
  lemma VoitDepasse()
    ensures exists ps: seq<(Signature, bool)> ::
              && ps != [] && !(Passages(ps).voit <= VouluDe(ps[|ps| - 1].0).voit)
              && Passages(ps).actifs == {} && Passages(ps).relations == {}
  {
    var avec, sans := Signature([(1, 7, 3), (2, 8, 4)], {(3, 4)}, 0), Signature([], {}, 0);
    var p1 := [(avec, true)];
    var p2 := p1 + [(sans, false)];
    assert p1[..0] == [] && p2[..1] == p1;
    assert avec.lignes[..1] == [(1, 7, 3)];
    assert (3, 4) in VouluDe(avec).voit;
    assert VouluDe(sans) == Voulu({}, {}, {});
    assert Passages(p1) == Apres(VIERGE, avec, true);
    assert Passages(p2) == Apres(Passages(p1), sans, false);
    assert p2[|p2| - 1].0 == sans;
  }
}

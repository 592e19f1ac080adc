/** The rate limiter: a bucket of tokens per key, ten per second, twenty at most, in a
    table that is bounded. Time is in seconds. */
module Seaux {
  const PAR_SECONDE := 10.0
  const JETONS_MAX := 20.0
  const MAX_SEAUX := 100000
  const UNE_MINUTE := 60.0

  datatype Seau = Seau(jetons: real, vu: real)

  type Table = map<nat, Seau>

  function Min(a: real, b: real): real {
    if a < b then a else b
  }

  function Oublies(t: Table, maintenant: real, inactif: real): Table {
    map k | k in t && maintenant - t[k].vu <= inactif :: t[k]
  }

  /** The table a new key finds: as it is, or without its idle buckets if it is full. */
  function PlacePour(t: Table, cle: nat, maintenant: real): Table {
    if cle in t || |t| < MAX_SEAUX then t else Oublies(t, maintenant, 1.0)
  }

  function Rempli(s: Seau, maintenant: real): real {
    Min(JETONS_MAX, s.jetons + (maintenant - s.vu) * PAR_SECONDE)
  }

  function Servi(t: Table, cle: nat, maintenant: real): (Table, bool) {
    var s := if cle in t then t[cle] else Seau(JETONS_MAX, maintenant);
    var j := Rempli(s, maintenant);
    if j < 1.0 then (t[cle := Seau(j, maintenant)], false) else (t[cle := Seau(j - 1.0, maintenant)], true)
  }

  function Demande(t: Table, cle: nat, maintenant: real): (Table, bool) {
    var p := PlacePour(t, cle, maintenant);
    if cle !in p && |p| >= MAX_SEAUX then (p, false) else Servi(p, cle, maintenant)
  }

  ghost predicate Sage(t: Table, maintenant: real) {
    |t| <= MAX_SEAUX && forall k <- t :: 0.0 <= t[k].jetons <= JETONS_MAX && t[k].vu <= maintenant
  }

  lemma TailleApres(t: Table, k: nat, s: Seau)
    ensures |t[k := s]| == if k in t then |t| else |t| + 1
  {
    assert t[k := s].Keys == t.Keys + {k};
    assert |t.Keys| == |t|;
  }

  lemma TailleMoins(t: Table, u: Table)
    requires u.Keys <= t.Keys
    ensures |u| <= |t|
  {
    assert t.Keys == u.Keys + (t.Keys - u.Keys);
    assert |t.Keys| == |t| && |u.Keys| == |u|;
  }

  lemma DemandeSage(t: Table, cle: nat, avant: real, maintenant: real)
    requires Sage(t, avant) && avant <= maintenant
    ensures Sage(Demande(t, cle, maintenant).0, maintenant)
  {
    var p := PlacePour(t, cle, maintenant);
    TailleMoins(t, p);
    if cle in p || |p| < MAX_SEAUX {
      TailleApres(p, cle, Servi(p, cle, maintenant).0[cle]);
    }
  }

  class Limiteur {
    var seaux: Table

    constructor ()
      ensures seaux == map[]
    {
      seaux := map[];
    }

    method Autoriser(cle: nat, maintenant: real) returns (ok: bool)
      modifies this
      ensures (seaux, ok) == Demande(old(seaux), cle, maintenant)
    {
      var s;
      if cle in seaux {
        s := seaux[cle];
      } else {
        if |seaux| >= MAX_SEAUX {
          Oublier(maintenant, 1.0);
          if |seaux| >= MAX_SEAUX {
            return false;
          }
        }
        s := Seau(JETONS_MAX, maintenant);
      }
      var j := s.jetons + (maintenant - s.vu) * PAR_SECONDE;
      if JETONS_MAX <= j {
        j := JETONS_MAX;
      }
      if j < 1.0 {
        seaux := seaux[cle := Seau(j, maintenant)];
        return false;
      }
      seaux := seaux[cle := Seau(j - 1.0, maintenant)];
      return true;
    }

    /** Drops the buckets idle for longer than this. */
    method Oublier(maintenant: real, inactif: real)
      modifies this
      ensures seaux == Oublies(old(seaux), maintenant, inactif)
    {
      var reste := seaux.Keys;
      while reste != {}
        invariant reste <= seaux.Keys <= old(seaux.Keys)
        invariant forall k <- seaux ::
                  seaux[k] == old(seaux)[k] && (k !in reste ==> maintenant - seaux[k].vu <= inactif)
        invariant forall k <- old(seaux) | maintenant - old(seaux)[k].vu <= inactif :: k in seaux
        decreases reste
      {
        var k :| k in reste;
        reste := reste - {k};
        if maintenant - seaux[k].vu > inactif {
          seaux := seaux - {k};
        }
      }
    }

    method Nettoyer(maintenant: real)
      modifies this
      ensures seaux == Oublies(old(seaux), maintenant, UNE_MINUTE)
    {
      Oublier(maintenant, UNE_MINUTE);
    }
  }

  // ----- runs --------------------------------------------------------------------------------

  datatype Acte = Demander(cle: nat, quand: real) | Menage(quand: real)

  function Apres(t: Table, a: Acte): Table {
    match a
    case Demander(cle, quand) => Demande(t, cle, quand).0
    case Menage(quand) => Oublies(t, quand, UNE_MINUTE)
  }

  function Etat(t0: Table, actes: seq<Acte>, n: nat): Table
    requires n <= |actes|
  {
    if n == 0 then t0 else Apres(Etat(t0, actes, n - 1), actes[n - 1])
  }

  /** The n-th act is a request of this key, and it is granted. */
  predicate Accorde(t0: Table, actes: seq<Acte>, n: nat, cle: nat)
    requires n < |actes|
  {
    actes[n].Demander? && actes[n].cle == cle && Demande(Etat(t0, actes, n), cle, actes[n].quand).1
  }

  /** How many requests of this key are granted from the i-th act to the j-th, excluded. */
  function Accordes(t0: Table, actes: seq<Acte>, i: nat, j: nat, cle: nat): nat
    requires i <= j <= |actes|
  {
    if i == j then 0 else Accordes(t0, actes, i, j - 1, cle) + if Accorde(t0, actes, j - 1, cle) then 1 else 0
  }

  /** The clock never goes back, and the run starts from a table in order. */
  ghost predicate Recit(t0: Table, actes: seq<Acte>) {
    && (forall i, j | 0 <= i <= j < |actes| :: actes[i].quand <= actes[j].quand)
    && (actes != [] ==> Sage(t0, actes[0].quand))
  }

  /** The table never fills: no new key ever finds it full. */
  ghost predicate JamaisPleine(t0: Table, actes: seq<Acte>) {
    forall n: nat | n < |actes| && actes[n].Demander? && actes[n].cle !in Etat(t0, actes, n) ::
        |Etat(t0, actes, n)| < MAX_SEAUX
  }

  lemma {:induction false} EtatSage(t0: Table, actes: seq<Acte>, n: nat)
    requires Recit(t0, actes) && 0 < n <= |actes|
    ensures Sage(Etat(t0, actes, n), actes[n - 1].quand)
  {
    var t := Etat(t0, actes, n - 1);
    if n > 1 {
      EtatSage(t0, actes, n - 1);
    } else {
      assert t == t0;
    }
    match actes[n - 1]
    case Demander(cle, quand) => DemandeSage(t, cle, if n > 1 then actes[n - 2].quand else quand, quand);
    case Menage(quand) => TailleMoins(t, Oublies(t, quand, UNE_MINUTE));
  }

  // ----- the bound ---------------------------------------------------------------------------

  /** What ten tokens per second bring, or twenty. */
  function Gain(double: bool, duree: real): real {
    if double then 20.0 * duree else 10.0 * duree
  }

  /** What a key could spend at once if it were refilled at this rate. */
  function Niveau(t: Table, cle: nat, maintenant: real, double: bool): real {
    if cle in t then Min(JETONS_MAX, t[cle].jetons + Gain(double, maintenant - t[cle].vu)) else JETONS_MAX
  }

  /** What an act grants to a key. */
  function Grace(t: Table, a: Acte, cle: nat): real {
    if a.Demander? && a.cle == cle && Demande(t, cle, a.quand).1 then 1.0 else 0.0
  }

  /** Forgetting an idle bucket changes nothing, at a rate that would have filled it. */
  lemma OubliSansEffet(t: Table, cle: nat, maintenant: real, inactif: real, double: bool)
    requires forall k <- t :: 0.0 <= t[k].jetons
    requires Gain(double, inactif) >= JETONS_MAX
    ensures Niveau(Oublies(t, maintenant, inactif), cle, maintenant, double) == Niveau(t, cle, maintenant, double)
  {
  }

  lemma ServiDepense(t: Table, cle: nat, autre: nat, maintenant: real, double: bool)
    requires cle in t ==> t[cle].vu <= maintenant
    ensures Niveau(Servi(t, cle, maintenant).0, autre, maintenant, double) <=
              Niveau(t, autre, maintenant, double) - if autre == cle && Servi(t, cle, maintenant).1 then 1.0 else 0.0
  {
  }

  /** If making room for a new key drops the bucket of this one, it was full. */
  predicate Epargne(t: Table, a: Acte, cle: nat) {
    a.Demander? && cle in t && cle !in PlacePour(t, a.cle, a.quand) ==> Rempli(t[cle], a.quand) == JETONS_MAX
  }

  /** At no act of the run is the bucket of this key dropped to make room before it is full. */
  ghost predicate Epargnee(t0: Table, actes: seq<Acte>, cle: nat) {
    forall n: nat | n < |actes| :: Epargne(Etat(t0, actes, n), actes[n], cle)
  }

  lemma JamaisPleineEpargne(t0: Table, actes: seq<Acte>, cle: nat)
    requires JamaisPleine(t0, actes)
    ensures Epargnee(t0, actes, cle)
  {
    hide Etat;
  }

  /** An act never raises what a key could spend, and lowers it by what it grants: at ten
      per second if its bucket is not dropped before it is full, at twenty in any case. */
  lemma ActeDepense(t: Table, a: Acte, cle: nat, double: bool)
    requires Sage(t, a.quand)
    requires double || Epargne(t, a, cle)
    ensures Niveau(Apres(t, a), cle, a.quand, double) <= Niveau(t, cle, a.quand, double) - Grace(t, a, cle)
  {
    match a
    case Menage(quand) => OubliSansEffet(t, cle, quand, UNE_MINUTE, double);
    case Demander(c, quand) =>
      var p := PlacePour(t, c, quand);
      if p != t && double {
        OubliSansEffet(t, cle, quand, 1.0, double);
      }
      if c in p || |p| < MAX_SEAUX {
        ServiDepense(p, c, cle, quand, double);
      }
  }

  lemma NiveauMonte(t: Table, cle: nat, t1: real, t2: real, double: bool)
    requires t1 <= t2
    ensures Niveau(t, cle, t2, double) <= Niveau(t, cle, t1, double) + Gain(double, t2 - t1)
  {
  }

  /** What was granted in between and what is left is what the key could spend at first,
      and what the time brought. */
  ghost predicate Borne(t0: Table, actes: seq<Acte>, i: nat, j: nat, cle: nat, double: bool)
    requires i < j <= |actes|
  {
    Accordes(t0, actes, i, j, cle) as real + Niveau(Etat(t0, actes, j), cle, actes[j - 1].quand, double) <=
      Niveau(Etat(t0, actes, i), cle, actes[i].quand, double) + Gain(double, actes[j - 1].quand - actes[i].quand)
  }

  lemma UnDePlus(t0: Table, actes: seq<Acte>, n: nat, cle: nat, double: bool)
    requires Recit(t0, actes) && n < |actes| && (double || Epargnee(t0, actes, cle))
    ensures Niveau(Etat(t0, actes, n + 1), cle, actes[n].quand, double) <=
              Niveau(Etat(t0, actes, n), cle, actes[n].quand, double) - if Accorde(t0, actes, n, cle) then 1.0 else 0.0
  {
    var t, a := Etat(t0, actes, n), actes[n];
    if n > 0 {
      EtatSage(t0, actes, n);
    } else {
      assert t == t0;
    }
    ActeDepense(t, a, cle, double);
  }

  lemma {:induction false} Depenses(t0: Table, actes: seq<Acte>, i: nat, j: nat, cle: nat, double: bool)
    requires Recit(t0, actes) && i < j <= |actes| && (double || Epargnee(t0, actes, cle))
    ensures Borne(t0, actes, i, j, cle, double)
    decreases j
  {
    hide Niveau, Accorde, Epargnee, Etat;
    var n := j - 1;
    UnDePlus(t0, actes, n, cle, double);
    if i < n {
      Depenses(t0, actes, i, n, cle, double);
      NiveauMonte(Etat(t0, actes, n), cle, actes[n - 1].quand, actes[n].quand, double);
    } else {
      assert Accordes(t0, actes, i, i, cle) == 0;
    }
  }

  lemma NiveauBorne(t: Table, cle: nat, maintenant: real, double: bool)
    ensures Niveau(t, cle, maintenant, double) <= JETONS_MAX
    ensures Sage(t, maintenant) ==> Niveau(t, cle, maintenant, double) >= 0.0
  {
  }

  /** Over any stretch of any run in which pressure never drops its bucket before it is
      full, a key is granted at most 20 requests, and 10 per second. */
  lemma VingtEtDix(t0: Table, actes: seq<Acte>, i: nat, j: nat, cle: nat)
    requires Recit(t0, actes) && Epargnee(t0, actes, cle) && i < j <= |actes|
    ensures Accordes(t0, actes, i, j, cle) as real <= 20.0 + 10.0 * (actes[j - 1].quand - actes[i].quand)
  {
    Depenses(t0, actes, i, j, cle, false);
    EtatSage(t0, actes, j);
    NiveauBorne(Etat(t0, actes, i), cle, actes[i].quand, false);
    NiveauBorne(Etat(t0, actes, j), cle, actes[j - 1].quand, false);
  }

  /** In every run, at most 20, and 20 per second. */
  lemma VingtEtVingt(t0: Table, actes: seq<Acte>, i: nat, j: nat, cle: nat)
    requires Recit(t0, actes) && i < j <= |actes|
    ensures Accordes(t0, actes, i, j, cle) as real <= 20.0 + 20.0 * (actes[j - 1].quand - actes[i].quand)
  {
    Depenses(t0, actes, i, j, cle, true);
    EtatSage(t0, actes, j);
    NiveauBorne(Etat(t0, actes, i), cle, actes[i].quand, true);
    NiveauBorne(Etat(t0, actes, j), cle, actes[j - 1].quand, true);
  }

  /** The table never holds more than 100000 buckets. */
  lemma TableBornee(t0: Table, actes: seq<Acte>, n: nat)
    requires Recit(t0, actes) && 0 < n <= |actes|
    ensures |Etat(t0, actes, n)| <= MAX_SEAUX
  {
    EtatSage(t0, actes, n);
  }

  // ----- forgetting ----------------------------------------------------------------------------

  /** The clock goes on from this instant. */
  ghost predicate Ensuite(depuis: real, actes: seq<Acte>) {
    && (forall i | 0 <= i < |actes| :: depuis <= actes[i].quand)
    && (forall i, j | 0 <= i <= j < |actes| :: actes[i].quand <= actes[j].quand)
  }

  /** The n-th act, if it is a request, is answered alike from both tables. */
  predicate MemeReponse(u: Table, t: Table, actes: seq<Acte>, n: nat)
    requires n < |actes|
  {
    actes[n].Demander? ==> (Accorde(u, actes, n, actes[n].cle) <==> Accorde(t, actes, n, actes[n].cle))
  }

  /** No request of the run is answered differently from the two tables. */
  ghost predicate MemesReponses(u: Table, t: Table, actes: seq<Acte>) {
    forall n: nat | n < |actes| :: MemeReponse(u, t, actes, n)
  }

  /** u is t without some buckets that are full by now. */
  ghost predicate Allegee(u: Table, t: Table, maintenant: real) {
    && u.Keys <= t.Keys
    && (forall k <- u :: u[k] == t[k])
    && forall k <- t | k !in u :: Rempli(t[k], maintenant) == JETONS_MAX
  }

  /** Without pressure, an act treats both the same, and they stay so. */
  lemma ActePareil(u: Table, t: Table, avant: real, a: Acte)
    requires Sage(t, avant) && Allegee(u, t, avant) && avant <= a.quand
    requires a.Demander? ==> a.cle in t || |t| < MAX_SEAUX
    ensures Allegee(Apres(u, a), Apres(t, a), a.quand)
    ensures a.Demander? ==> Demande(u, a.cle, a.quand).1 == Demande(t, a.cle, a.quand).1
  {
    if a.Demander? && a.cle !in t {
      TailleMoins(t, u);
    } else if a.Demander? && a.cle !in u {
      assert u.Keys < t.Keys;
      TailleMoins(t, u[a.cle := t[a.cle]]);
      TailleApres(u, a.cle, t[a.cle]);
    }
  }

  lemma EnsuiteRecit(t: Table, depuis: real, actes: seq<Acte>)
    requires Sage(t, depuis) && Ensuite(depuis, actes)
    ensures Recit(t, actes)
  {
  }

  lemma {:induction false} RecitPareil(u: Table, t: Table, depuis: real, actes: seq<Acte>, n: nat)
    requires Sage(t, depuis) && Allegee(u, t, depuis) && Ensuite(depuis, actes)
    requires n <= |actes| && JamaisPleine(t, actes)
    ensures Allegee(Etat(u, actes, n), Etat(t, actes, n), if n == 0 then depuis else actes[n - 1].quand)
    ensures forall m: nat | m < n :: MemeReponse(u, t, actes, m)
  {
    hide Allegee, Demande, Apres, Sage;
    if n > 0 {
      EnsuiteRecit(t, depuis, actes);
      RecitPareil(u, t, depuis, actes, n - 1);
      if n > 1 {
        EtatSage(t, actes, n - 1);
      }
      ActePareil(Etat(u, actes, n - 1), Etat(t, actes, n - 1), if n == 1 then depuis else actes[n - 2].quand,
          actes[n - 1]);
    }
  }

  /** Forgetting the buckets idle for a minute changes no answer of a later run in which no
      new key finds the table full. The limit is pressure: see OubliVisible. */
  lemma OubliInvisible(t: Table, maintenant: real, actes: seq<Acte>)
    requires Sage(t, maintenant) && Ensuite(maintenant, actes) && JamaisPleine(t, actes)
    ensures MemesReponses(Oublies(t, maintenant, UNE_MINUTE), t, actes)
  {
    RecitPareil(Oublies(t, maintenant, UNE_MINUTE), t, maintenant, actes, |actes|);
  }

  /** A bucket idle for more than a second need not be full, whatever a comment in the
      source says: it is only sure to be after two. */
  lemma InactifPlein(s: Seau, maintenant: real)
    requires 0.0 <= s.jetons <= JETONS_MAX && s.vu <= maintenant
    ensures maintenant - s.vu >= 2.0 ==> Rempli(s, maintenant) == JETONS_MAX
    ensures Rempli(s, maintenant) == JETONS_MAX <==> s.jetons + 10.0 * (maintenant - s.vu) >= JETONS_MAX
  {
  }

  lemma InactifPasPlein(inactif: real)
    requires 1.0 < inactif < 2.0
    ensures exists s: Seau, maintenant ::
              0.0 <= s.jetons <= JETONS_MAX && maintenant - s.vu == inactif && Rempli(s, maintenant) < JETONS_MAX
  {
    assert Rempli(Seau(0.0, 0.0), inactif) < JETONS_MAX;
  }

  lemma NiveauServi(t: Table, cle: nat, k: nat, maintenant: real)
    requires cle in t ==> t[cle].vu <= maintenant && 0.0 <= t[cle].jetons
    ensures Servi(t, cle, maintenant).1 <==> Niveau(t, cle, maintenant, false) >= 1.0
    ensures Niveau(Servi(t, cle, maintenant).0, k, maintenant, false) ==
              Niveau(t, k, maintenant, false) - if k == cle && Servi(t, cle, maintenant).1 then 1.0 else 0.0
  {
  }

  lemma DemandeAccordee(t: Table, cle: nat, quand: real)
    requires Sage(t, quand) && Niveau(t, cle, quand, false) >= 1.0 && (cle in t || |t| < MAX_SEAUX)
    ensures var (u, ok) := Demande(t, cle, quand);
            && ok && Sage(u, quand) && u == t[cle := u[cle]]
            && Niveau(u, cle, quand, false) == Niveau(t, cle, quand, false) - 1.0
  {
    NiveauServi(t, cle, cle, quand);
    DemandeSage(t, cle, quand, quand);
  }

  /** A burst of n requests of one key, at one instant, is granted whole if the key may
      spend n and finds its place. */
  lemma {:induction false} Rafale(t0: Table, actes: seq<Acte>, i: nat, n: nat, cle: nat, quand: real)
    requires i + n <= |actes| && forall m: nat | i <= m < i + n :: actes[m] == Demander(cle, quand)
    requires Sage(Etat(t0, actes, i), quand) && Niveau(Etat(t0, actes, i), cle, quand, false) >= n as real
    requires cle in Etat(t0, actes, i) || |Etat(t0, actes, i)| < MAX_SEAUX
    ensures Accordes(t0, actes, i, i + n, cle) == n
    ensures var debut, fin := Etat(t0, actes, i), Etat(t0, actes, i + n);
            && Sage(fin, quand) && (n > 0 ==> cle in fin && fin == debut[cle := fin[cle]]) && (n == 0 ==> fin == debut)
            && Niveau(fin, cle, quand, false) == Niveau(debut, cle, quand, false) - n as real
  {
    hide Sage, Niveau, Demande;
    if n > 0 {
      Rafale(t0, actes, i, n - 1, cle, quand);
      DemandeAccordee(Etat(t0, actes, i + n - 1), cle, quand);
    }
  }

  // ----- pressure --------------------------------------------------------------------------------

  /** Twenty requests of y, n new keys, one more a second and a half later, y twenty times. */
  function Pression(y: nat, base: nat, n: nat, quand: real): (actes: seq<Acte>)
    ensures |actes| == n + 41 && actes[n + 20] == Demander(base + n, quand + 1.5)
    ensures forall m: nat | m < 20 :: actes[m] == Demander(y, quand)
    ensures forall m: nat | 20 <= m < n + 20 :: actes[m] == Demander(base + m - 20, quand)
    ensures forall m: nat | n + 21 <= m < n + 41 :: actes[m] == Demander(y, quand + 1.5)
  {
    seq(n + 41, i =>
      if i < 20 then Demander(y, quand)
      else if i < n + 20 then Demander(base + i - 20, quand)
      else if i == n + 20 then Demander(base + n, quand + 1.5)
      else Demander(y, quand + 1.5))
  }

  /** y and the n keys from the base on have their place in this table, and are new but y. */
  ghost predicate Place(t: Table, y: nat, base: nat, n: nat, quand: real) {
    Sage(t, quand) && y < base && (forall k <- t :: k < base) && |t.Keys + {y}| + n <= MAX_SEAUX
  }

  lemma PressionEnsuite(y: nat, base: nat, n: nat, quand: real)
    ensures Ensuite(quand, Pression(y, base, n, quand))
  {
    var actes := Pression(y, base, n, quand);
    forall i | 0 <= i < |actes|
      ensures actes[i].quand == if i < n + 20 then quand else quand + 1.5
    {
    }
  }

  /** How many of the new keys came in the first m acts. */
  function Nouvelles(m: nat): nat {
    if m <= 20 then 0 else m - 20
  }

  /** Before the last new key, the table has grown by y and by the keys asked for. */
  lemma {:induction false} Emplie(t: Table, y: nat, base: nat, n: nat, quand: real, m: nat)
    requires Place(t, y, base, n, quand) && 0 < m <= n + 20
    ensures var e := Etat(t, Pression(y, base, n, quand), m);
            && Sage(e, quand) && y in e && |e| == |t.Keys + {y}| + Nouvelles(m)
            && forall k <- e :: k < base + Nouvelles(m)
  {
    hide Pression, Servi, Demande;
    var actes := Pression(y, base, n, quand);
    var e, cle := Etat(t, actes, m - 1), actes[m - 1].cle;
    if m > 1 {
      Emplie(t, y, base, n, quand, m - 1);
    } else {
      assert e == t;
      ClesDe(t, y);
    }
    DemandeSage(e, cle, quand, quand);
    ClesApres(e, cle, quand);
  }

  lemma ClesDe(t: Table, y: nat)
    ensures |t.Keys + {y}| == if y in t then |t| else |t| + 1
  {
    assert |t.Keys| == |t|;
    assert y in t ==> t.Keys + {y} == t.Keys;
  }

  lemma ClesApres(t: Table, cle: nat, quand: real)
    requires cle in t || |t| < MAX_SEAUX
    ensures Demande(t, cle, quand).0.Keys == t.Keys + {cle}
    ensures |Demande(t, cle, quand).0| == if cle in t then |t| else |t| + 1
  {
    TailleApres(t, cle, Servi(t, cle, quand).0[cle]);
    var u := Demande(t, cle, quand).0;
    assert |u.Keys| == |u|;
  }

  /** A table this run fills is emptied by the last new key, and y may spend twenty again. */
  lemma PleineRend(t: Table, y: nat, base: nat, n: nat, quand: real)
    requires Place(t, y, base, n, quand) && |t.Keys + {y}| + n == MAX_SEAUX
    ensures Accordes(t, Pression(y, base, n, quand), n + 21, n + 41, y) == 20
  {
    hide Pression, Etat, Sage, Niveau, Accordes, Place;
    VideEnsuite(t, y, base, n, quand);
    Rafale(t, Pression(y, base, n, quand), n + 21, 20, y, quand + 1.5);
  }

  /** After the last new key, y has its place and may spend twenty. */
  lemma VideEnsuite(t: Table, y: nat, base: nat, n: nat, quand: real)
    requires Place(t, y, base, n, quand) && |t.Keys + {y}| + n == MAX_SEAUX
    ensures var u := Etat(t, Pression(y, base, n, quand), n + 21);
            Sage(u, quand + 1.5) && |u| < MAX_SEAUX && Niveau(u, y, quand + 1.5, false) == 20.0
  {
    var actes := Pression(y, base, n, quand);
    hide Pression, Demande, Sage, Place;
    Plein(t, y, base, n, quand);
    var e := Etat(t, actes, n + 20);
    UnNouveauVideTout(e, base + n, quand);
    assert Etat(t, actes, n + 21) == Demande(e, base + n, quand + 1.5).0;
  }

  lemma Plein(t: Table, y: nat, base: nat, n: nat, quand: real)
    requires Place(t, y, base, n, quand) && |t.Keys + {y}| + n == MAX_SEAUX
    ensures var e := Etat(t, Pression(y, base, n, quand), n + 20);
            |e| == MAX_SEAUX && base + n !in e && Sage(e, quand) && y < base
  {
    hide Pression, Etat, Sage;
    Emplie(t, y, base, n, quand, n + 20);
  }

  lemma UnNouveauVideTout(t: Table, z: nat, quand: real)
    requires |t| == MAX_SEAUX && z !in t && Sage(t, quand)
    ensures var u := Demande(t, z, quand + 1.5).0;
            u.Keys == {z} && |u| == 1 && Sage(u, quand + 1.5)
  {
    assert Oublies(t, quand + 1.5, 1.0) == map[];
    var u := Demande(t, z, quand + 1.5).0;
    assert |u.Keys| == |u|;
    DemandeSage(t, z, quand, quand + 1.5);
  }

  /** A table this run does not fill never finds a new key without a place. */
  lemma PasPleine(u: Table, y: nat, base: nat, n: nat, quand: real)
    requires Place(u, y, base, n + 1, quand)
    ensures JamaisPleine(u, Pression(y, base, n, quand))
  {
    var actes := Pression(y, base, n, quand);
    forall m: nat | m < |actes| && actes[m].Demander? && actes[m].cle !in Etat(u, actes, m)
      ensures |Etat(u, actes, m)| < MAX_SEAUX
    {
      if m == 0 {
        ClesApres(u, y, quand);
      } else if m <= n + 20 {
        Emplie(u, y, base, n, quand, m);
      } else {
        YReste(u, y, base, n, quand, m);
      }
    }
  }

  lemma {:induction false} YReste(u: Table, y: nat, base: nat, n: nat, quand: real, m: nat)
    requires Place(u, y, base, n + 1, quand) && n + 20 < m <= n + 41
    ensures y in Etat(u, Pression(y, base, n, quand), m)
  {
    hide Pression, Demande, Place, Sage;
    var actes := Pression(y, base, n, quand);
    var e, a := Etat(u, actes, m - 1), actes[m - 1];
    if m == n + 21 {
      EmpliePas(u, y, base, n, quand);
    } else {
      YReste(u, y, base, n, quand, m - 1);
    }
    ClesApres(e, a.cle, a.quand);
  }

  lemma EmpliePas(u: Table, y: nat, base: nat, n: nat, quand: real)
    requires Place(u, y, base, n + 1, quand)
    ensures var e := Etat(u, Pression(y, base, n, quand), n + 20);
            y in e && |e| < MAX_SEAUX
  {
    hide Pression, Etat;
    Emplie(u, y, base, n, quand, n + 20);
  }

  /** After n requests of one key at one instant, what it may spend went down by n, or is
      below one. */
  lemma {:induction false} RafaleEpuise(t0: Table, actes: seq<Acte>, n: nat, cle: nat, quand: real)
    requires n <= |actes| && forall m: nat | m < n :: actes[m] == Demander(cle, quand)
    requires Sage(t0, quand) && (cle in t0 || |t0| < MAX_SEAUX)
    ensures var fin := Etat(t0, actes, n);
            && Sage(fin, quand) && (n > 0 ==> cle in fin)
            && (Niveau(fin, cle, quand, false) < 1.0 || Niveau(fin, cle, quand, false) <= JETONS_MAX - n as real)
  {
    NiveauBorne(t0, cle, quand, false);
    if n > 0 {
      RafaleEpuise(t0, actes, n - 1, cle, quand);
      var t := Etat(t0, actes, n - 1);
      assert n == 1 ==> t == t0;
      DemandeSage(t, cle, quand, quand);
      NiveauServi(t, cle, cle, quand);
    }
  }

  /** From such a table y is granted sixteen at most where the other grants twenty. */
  lemma PasPleineRetient(u: Table, y: nat, base: nat, n: nat, quand: real)
    requires Place(u, y, base, n + 1, quand)
    ensures Accordes(u, Pression(y, base, n, quand), 19, n + 41, y) <= 16
  {
    hide Pression, Etat, Accordes, JamaisPleine, Epargnee, Sage, Niveau, Ensuite, Recit, Place;
    var actes := Pression(y, base, n, quand);
    PasPleineEpuise(u, y, base, n, quand);
    JamaisPleineEpargne(u, actes, y);
    Depenses(u, actes, 19, n + 41, y, false);
    EtatSage(u, actes, n + 41);
    NiveauBorne(Etat(u, actes, n + 41), y, quand + 1.5, false);
  }

  /** After nineteen requests it may spend one at most. */
  lemma PasPleineEpuise(u: Table, y: nat, base: nat, n: nat, quand: real)
    requires Place(u, y, base, n + 1, quand)
    ensures var actes := Pression(y, base, n, quand);
            Recit(u, actes) && JamaisPleine(u, actes) && Niveau(Etat(u, actes, 19), y, quand, false) <= 1.0
  {
    var actes := Pression(y, base, n, quand);
    PressionEnsuite(y, base, n, quand);
    EnsuiteRecit(u, quand, actes);
    hide Pression, Etat, JamaisPleine, Ensuite, Recit, Niveau;
    PasPleine(u, y, base, n, quand);
    ClesDe(u, y);
    RafaleEpuise(u, actes, 19, y, quand);
  }

  /** Ten per second is therefore no bound in every run: from the empty table, forty
      requests granted in a second and a half, where it would allow thirty-five. */
  lemma DixNeSuffitPas()
    ensures var actes := Pression(0, 1, MAX_SEAUX - 1, 0.0);
            && Recit(map[], actes)
            && Accordes(map[], actes, 0, |actes|, 0) as real > 20.0 + 10.0 * (actes[|actes| - 1].quand - actes[0].quand)
  {
    hide Pression, Demande, Accordes, Accorde;
    var actes := Pression(0, 1, MAX_SEAUX - 1, 0.0);
    PressionEnsuite(0, 1, MAX_SEAUX - 1, 0.0);
    assert Etat(map[], actes, 0) == map[] && Niveau(map[], 0, 0.0, false) == 20.0;
    Rafale(map[], actes, 0, 20, 0, 0.0);
    var vide: Table := map[];
    assert vide.Keys + {0} == {0};
    PleineRend(map[], 0, 1, MAX_SEAUX - 1, 0.0);
    AccordesSuite(map[], actes, 0, 20, |actes|, 0);
    AccordesSuite(map[], actes, 20, MAX_SEAUX + 20, |actes|, 0);
  }

  lemma {:induction false} Plafond(cles: set<nat>) returns (base: nat)
    ensures forall k <- cles :: k < base
  {
    base := 0;
    if cles != {} {
      var k :| k in cles;
      var b := Plafond(cles - {k});
      base := if b <= k then k + 1 else b;
      assert cles == (cles - {k}) + {k};
    }
  }

  lemma {:induction false} AccordesPareils(u: Table, t: Table, actes: seq<Acte>, i: nat, j: nat, cle: nat)
    requires MemesReponses(u, t, actes) && i <= j <= |actes|
    ensures Accordes(u, actes, i, j, cle) == Accordes(t, actes, i, j, cle)
    decreases j
  {
    if i < j {
      AccordesPareils(u, t, actes, i, j - 1, cle);
      assert MemeReponse(u, t, actes, j - 1);
    }
  }

  /** A key to exhaust that leaves the cleaned table smaller than the other. */
  lemma Victime(t: Table, u: Table) returns (y: nat, base: nat)
    requires u.Keys < t.Keys && |t| <= MAX_SEAUX
    ensures y < base && (forall k <- t :: k < base)
    ensures |u.Keys + {y}| < |t.Keys + {y}| <= MAX_SEAUX
  {
    base := Plafond(t.Keys);
    MoinsDeCles(t, u);
    if |t| < MAX_SEAUX {
      y, base := base, base + 1;
    } else if u == map[] {
      y :| y in t;
    } else {
      y :| y in u;
    }
    ClesDe(t, y);
    ClesDe(u, y);
  }

  lemma MoinsDeCles(t: Table, u: Table)
    requires u.Keys < t.Keys
    ensures |u| < |t|
  {
    assert t.Keys == u.Keys + (t.Keys - u.Keys);
    assert |t.Keys| == |t| && |u.Keys| == |u|;
  }

  /** Of two tables, the one this run fills answers differently from the one it does not. */
  lemma PressionDistingue(u: Table, t: Table, y: nat, base: nat, n: nat, quand: real)
    requires Place(t, y, base, n, quand) && |t.Keys + {y}| + n == MAX_SEAUX
    requires Place(u, y, base, n + 1, quand)
    ensures !MemesReponses(u, t, Pression(y, base, n, quand))
  {
    hide Pression, Accordes, Place, MemesReponses;
    var actes := Pression(y, base, n, quand);
    PleineRend(t, y, base, n, quand);
    PasPleineRetient(u, y, base, n, quand);
    AccordesSuite(u, actes, 19, n + 21, n + 41, y);
    if MemesReponses(u, t, actes) {
      AccordesPareils(u, t, actes, n + 21, n + 41, y);
      assert false;
    }
  }

  /** As soon as something is forgotten, some later run tells the difference: it fills the
      table that kept everything, and there a new key makes a bucket be forgotten that the
      cleaned table still holds. */
  lemma OubliVisible(t: Table, maintenant: real) returns (actes: seq<Acte>)
    requires Sage(t, maintenant) && Oublies(t, maintenant, UNE_MINUTE) != t
    ensures Ensuite(maintenant, actes) && !MemesReponses(Oublies(t, maintenant, UNE_MINUTE), t, actes)
  {
    hide Pression, MemesReponses, Ensuite;
    var u := Oublies(t, maintenant, UNE_MINUTE);
    assert u.Keys != t.Keys;
    var y, base := Victime(t, u);
    var n := MAX_SEAUX - |t.Keys + {y}|;
    actes := Pression(y, base, n, maintenant);
    PressionEnsuite(y, base, n, maintenant);
    TailleMoins(t, u);
    PressionDistingue(u, t, y, base, n, maintenant);
  }

  /** So the cleaning shows in no later run if and only if it forgets nothing. */
  lemma OubliExact(t: Table, maintenant: real)
    requires Sage(t, maintenant)
    ensures (forall actes | Ensuite(maintenant, actes) :: MemesReponses(Oublies(t, maintenant, UNE_MINUTE), t, actes))
              <==> Oublies(t, maintenant, UNE_MINUTE) == t
  {
    if Oublies(t, maintenant, UNE_MINUTE) != t {
      var actes := OubliVisible(t, maintenant);
    }
  }

  lemma {:induction false} AccordesSuite(t0: Table, actes: seq<Acte>, i: nat, j: nat, k: nat, cle: nat)
    requires i <= j <= k <= |actes|
    ensures Accordes(t0, actes, i, k, cle) == Accordes(t0, actes, i, j, cle) + Accordes(t0, actes, j, k, cle)
    decreases k
  {
    if j < k {
      AccordesSuite(t0, actes, i, j, k - 1, cle);
    }
  }
}

/** Registration proofs: a window of five minutes on each side of the server's clock, and
    a memory of ten minutes for those that were used. Time is in nanoseconds. */
module Rejeux {
  import S = Session

  const FENETRE := 300 * S.SECONDE

  /** A registration request: its proof, and the date the proof covers, in seconds. A
      good proof is one that only the holder of the key could make for this request. */
  datatype Demande = Demande(preuve: string, horodatage: int)

  predicate DansFenetre(d: Demande, maintenant: int) {
    -FENETRE <= maintenant - d.horodatage * S.SECONDE <= FENETRE
  }

  /** What is still remembered. */
  function Gardees(vues: map<string, int>, maintenant: int): map<string, int> {
    map p | p in vues && maintenant - vues[p] <= 2 * FENETRE :: vues[p]
  }

  class Memoire {
    var vues: map<string, int>

    constructor ()
      ensures vues == map[]
    {
      vues := map[];
    }

    /** Forgets the old ones, then tells whether this one served. */
    method DejaVue(preuve: string, maintenant: int) returns (vue: bool)
      modifies this
      ensures vues == Gardees(old(vues), maintenant) && (vue <==> preuve in vues)
    {
      var reste := vues.Keys;
      while reste != {}
        invariant reste <= vues.Keys <= old(vues.Keys)
        invariant forall p <- vues :: vues[p] == old(vues)[p] && (p !in reste ==> maintenant - vues[p] <= 2 * FENETRE)
        invariant forall p <- old(vues) | maintenant - old(vues)[p] <= 2 * FENETRE :: p in vues
        decreases reste
      {
        var p :| p in reste;
        reste := reste - {p};
        if maintenant - vues[p] > 2 * FENETRE {
          vues := vues - {p};
        }
      }
      return preuve in vues;
    }

    method Retenir(preuve: string, maintenant: int)
      modifies this
      ensures vues == old(vues)[preuve := maintenant]
    {
      vues := vues[preuve := maintenant];
    }

    /** One request, up to its end: `bonne` is the check of the proof itself, `reste` says
        whether everything else is accepted. Only a registration that succeeds is remembered. */
    method Connexion(d: Demande, bonne: bool, reste: bool, maintenant: int) returns (ok: bool)
      modifies this
      ensures (vues, ok) == Apres(old(vues), d, bonne, reste, maintenant)
    {
      if !(maintenant - d.horodatage * S.SECONDE <= FENETRE
          && maintenant - d.horodatage * S.SECONDE >= -FENETRE) || !bonne {
        return false;
      }
      var vue := DejaVue(d.preuve, maintenant);
      if vue || !reste {
        return false;
      }
      Retenir(d.preuve, maintenant);
      return true;
    }
  }

  function Apres(vues: map<string, int>, d: Demande, bonne: bool, reste: bool, maintenant: int): (map<string, int>,
                 bool) {
    if !DansFenetre(d, maintenant) || !bonne then (vues, false)
    else
      var g := Gardees(vues, maintenant);
      if d.preuve in g || !reste then (g, false) else (g[d.preuve := maintenant], true)
  }

  // ----- whole runs ------------------------------------------------------------------------

  datatype Essai = Essai(d: Demande, bonne: bool, reste: bool, quand: int)

  ghost function Etat(es: seq<Essai>, n: nat): map<string, int>
    requires n <= |es|
  {
    if n == 0 then map[]
    else var e := es[n - 1]; Apres(Etat(es, n - 1), e.d, e.bonne, e.reste, e.quand).0
  }

  ghost predicate Reussit(es: seq<Essai>, n: nat)
    requires n < |es|
  {
    Apres(Etat(es, n), es[n].d, es[n].bonne, es[n].reste, es[n].quand).1
  }

  /** One request at a time, the clock never going back. A proof covers its date: the same
      proof is never good for two dates. */
  ghost predicate Recit(es: seq<Essai>) {
    && (forall i, j | 0 <= i <= j < |es| :: es[i].quand <= es[j].quand)
    && (forall i, j | 0 <= i < |es| && 0 <= j < |es| && es[i].bonne && es[j].bonne
       && es[i].d.preuve == es[j].d.preuve ::
          es[i].d.horodatage == es[j].d.horodatage)
  }

  /** A proof that served stays in memory as long as its date is within the window. */
  lemma {:induction false} EncoreEnMemoire(es: seq<Essai>, i: nat, n: nat)
    requires Recit(es) && i < n <= |es| && Reussit(es, i)
    requires forall m | i <= m < n :: es[m].quand <= es[i].d.horodatage * S.SECONDE + FENETRE
    ensures es[i].d.preuve in Etat(es, n) && Etat(es, n)[es[i].d.preuve] >= es[i].d.horodatage * S.SECONDE - FENETRE
    decreases n
  {
    if i < n - 1 {
      EncoreEnMemoire(es, i, n - 1);
    }
  }

  /** At most once: a proof that served is refused ever after, to the last instant of its
      window included. */
  lemma ServieUneFois(es: seq<Essai>, i: nat, j: nat)
    requires Recit(es) && i < j < |es| && Reussit(es, i) && es[i].d.preuve == es[j].d.preuve
    ensures !Reussit(es, j)
  {
    if es[j].bonne && DansFenetre(es[j].d, es[j].quand) {
      assert es[i].bonne;
      assert es[j].d.horodatage == es[i].d.horodatage;
      EncoreEnMemoire(es, i, j);
    }
  }

  /** The two durations meet exactly: the memory of a proof used at the first instant of its
      window lasts to the last, and no longer. */
  lemma DureesJustes(d: Demande, debut: int, fin: int)
    requires debut == d.horodatage * S.SECONDE - FENETRE && fin == d.horodatage * S.SECONDE + FENETRE
    ensures DansFenetre(d, debut) && DansFenetre(d, fin) && !DansFenetre(d, fin + 1)
    ensures d.preuve in Gardees(map[d.preuve := debut], fin) && d.preuve !in Gardees(map[d.preuve := debut], fin + 1)
  {
  }
}

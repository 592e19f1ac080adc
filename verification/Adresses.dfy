/** Who gets which address: round the network, from the last one given. */
module Adresses {
  import opened Termes

  const TOUTES := 0x1_0000_0000

  function Puissance(n: nat): (r: nat)
    ensures r >= 1
  {
    if n == 0 then 1 else 2 * Puissance(n - 1)
  }

  /** An IPv4 network: its first address, and the length of its prefix. */
  datatype Reseau = Reseau(base: nat, bits: nat) {
    function Taille(): (t: nat)
      ensures t >= 1
    {
      Puissance(if bits <= 32 then 32 - bits else 0)
    }

    predicate Valide() {
      bits <= 32 && base % Taille() == 0 && base + Taille() <= TOUTES
    }

    predicate Contient(a: nat) {
      base <= a < base + Taille()
    }

    /** Neither the network itself, nor its broadcast address. */
    predicate Utilisable(a: nat) {
      base < a < base + Taille() - 1
    }

    /** The next address tried, skipping the broadcast and the network itself. */
    function Suivante(a: nat): nat {
      if Contient(a + 1) && Contient(a + 2) then a + 1 else base + 1
    }

    function Depart(derniere: Option<nat>): nat {
      if derniere.Some? && Contient(derniere.valeur) then derniere.valeur else base
    }
  }

  /** The i-th address tried after this one. */
  function Essai(r: Reseau, depart: nat, i: nat): nat {
    if i == 0 then depart else r.Suivante(Essai(r, depart, i - 1))
  }

  /** What the search answers: the first free address tried, or none. */
  ghost predicate Reponse(r: Reseau, prises: set<nat>, depart: nat, d: nat, rep: Option<nat>) {
    && (forall i | 1 <= i < d :: Essai(r, depart, i) in prises)
    && match rep
       case Some(a) => 1 <= d <= r.Taille() && a == Essai(r, depart, d) && a !in prises
       case None => d == r.Taille() + 1
  }

  // ----- where the search goes ----------------------------------------------------------

  /** How many addresses can be given. */
  function Nombre(r: Reseau): int {
    r.Taille() - 2
  }

  /** The place of an address on the round; anything else stands just before the first. */
  function Place(r: Reseau, a: nat): int {
    if r.Utilisable(a) then a - r.base - 1 else -1
  }

  lemma QuatreAuMoins(r: Reseau)
    ensures r.Taille() >= 4 <==> r.bits <= 30
  {
    if r.bits <= 30 {
      PuissanceCroit(2, 32 - r.bits);
    } else if r.bits == 31 {
      assert Puissance(1) == 2 * Puissance(0);
    }
    assert Puissance(2) == 2 * Puissance(1) == 4;
  }

  lemma {:induction false} PuissanceCroit(m: nat, n: nat)
    requires m <= n
    ensures Puissance(m) <= Puissance(n)
  {
    if m < n {
      PuissanceCroit(m, n - 1);
    }
  }

  lemma ModuloSuivant(x: int, n: int)
    requires n > 0
    ensures (x + 1) % n == if x % n == n - 1 then 0 else x % n + 1
  {
    var q, m := x / n, x % n;
    assert x == q * n + m;
    if m == n - 1 {
      assert x + 1 == (q + 1) * n;
      ModuloUnique(x + 1, n, q + 1, 0);
    } else {
      ModuloUnique(x + 1, n, q, m + 1);
    }
  }

  lemma {:induction false} AuMoinsUneFois(k: int, n: int)
    requires k >= 1 && n > 0
    ensures k * n >= n
    decreases k
  {
    if k > 1 {
      AuMoinsUneFois(k - 1, n);
      assert k * n == (k - 1) * n + n;
    }
  }

  lemma ModuloUnique(x: int, n: int, q: int, m: int)
    requires n > 0 && 0 <= m < n && x == q * n + m
    ensures x % n == m && x / n == q
  {
    var q', m' := x / n, x % n;
    assert x == q' * n + m';
    var k := q - q';
    assert k * n == q * n - q' * n == m' - m;
    if k >= 1 {
      AuMoinsUneFois(k, n);
    } else if k <= -1 {
      AuMoinsUneFois(-k, n);
    }
  }

  /** The search goes round the usable addresses, one by one. */
  lemma {:induction false} EssaiPlace(r: Reseau, depart: nat, i: nat)
    requires r.Taille() >= 4 && r.Contient(depart) && i >= 1
    ensures Essai(r, depart, i) == r.base + 1 + (Place(r, depart) + i) % Nombre(r)
    ensures r.Utilisable(Essai(r, depart, i))
  {
    var p, n := Place(r, depart), Nombre(r);
    ModuloSuivant(p + i - 1, n);
    if i == 1 {
      assert Essai(r, depart, 0) == depart;
      if 0 <= p {
        ModuloUnique(p, n, 0, p);
      } else {
        ModuloUnique(p, n, -1, n - 1);
      }
    } else {
      EssaiPlace(r, depart, i - 1);
    }
  }

  /** Every usable address is tried, once round. */
  lemma Essaye(r: Reseau, depart: nat, a: nat) returns (i: nat)
    requires r.Taille() >= 4 && r.Contient(depart) && r.Utilisable(a)
    ensures 1 <= i <= Nombre(r) && Essai(r, depart, i) == a
  {
    var p, n, q := Place(r, depart), Nombre(r), Place(r, a);
    i := if q > p then q - p else q - p + n;
    ModuloUnique(p + i, n, if q > p then 0 else 1, q);
    EssaiPlace(r, depart, i);
  }

  /** Correct for any network of /30 or wider: the address given is free, inside, not the
      network's, the broadcast's nor the server's; and none is given only if none is left. */
  lemma AdresseCorrecte(r: Reseau, serveur: nat, appareils: set<nat>, derniere: Option<nat>, d: nat, rep: Option<nat>)
    requires r.Valide() && r.bits <= 30
    requires Reponse(r, appareils + {serveur}, r.Depart(derniere), d, rep)
    ensures rep.Some? ==> r.Utilisable(rep.valeur) && rep.valeur !in appareils && rep.valeur != serveur
    ensures rep.None? <==> forall a | r.Utilisable(a) :: a in appareils || a == serveur
  {
    QuatreAuMoins(r);
    var depart := r.Depart(derniere);
    if rep.Some? {
      EssaiPlace(r, depart, d);
    } else {
      forall a | r.Utilisable(a)
        ensures a in appareils || a == serveur
      {
        var i := Essaye(r, depart, a);
      }
    }
  }

  /** In the order of the round, from the last address given. */
  method AdresseLibre(r: Reseau, serveur: nat, appareils: set<nat>, derniere: Option<nat>) returns (rep: Option<nat>)
    requires r.Valide()
    ensures exists d :: Reponse(r, appareils + {serveur}, r.Depart(derniere), d, rep)
    ensures r.bits <= 30 ==>
              && (rep.Some? ==> r.Utilisable(rep.valeur) && rep.valeur !in appareils && rep.valeur != serveur)
              && (rep.None? <==> forall a | r.Utilisable(a) :: a in appareils || a == serveur)
  {
    var prises := appareils + {serveur};
    var premiere := r.base + 1;
    var a := r.Depart(derniere);
    var i := 0;
    while i < r.Taille()
      invariant 0 <= i <= r.Taille() && a == Essai(r, r.Depart(derniere), i)
      invariant forall j | 1 <= j <= i :: Essai(r, r.Depart(derniere), j) in prises
    {
      a := a + 1;
      if !r.Contient(a) || !r.Contient(a + 1) {
        a := premiere;
      }
      i := i + 1;
      if a !in prises {
        if r.bits <= 30 {
          AdresseCorrecte(r, serveur, appareils, derniere, i, Some(a));
        }
        assert Reponse(r, prises, r.Depart(derniere), i, Some(a));
        return Some(a);
      }
    }
    if r.bits <= 30 {
      AdresseCorrecte(r, serveur, appareils, derniere, i + 1, None);
    }
    assert Reponse(r, prises, r.Depart(derniere), i + 1, None);
    return None;
  }

  /** A narrower network gets no usable address at all: a /31 is given its broadcast,
      a /32 an address that is not even inside. */
  lemma TropEtroit(r: Reseau, serveur: nat, appareils: set<nat>, derniere: Option<nat>, d: nat, rep: Option<nat>)
    requires r.Valide() && r.bits > 30
    requires Reponse(r, appareils + {serveur}, r.Depart(derniere), d, rep)
    ensures rep.Some? <==> r.base + 1 !in appareils && r.base + 1 != serveur
    ensures rep.Some? ==>
              rep.valeur == r.base + 1 && !r.Utilisable(rep.valeur) && (r.Contient(rep.valeur) <==> r.bits == 31)
  {
    assert Puissance(1) == 2 * Puissance(0) && Puissance(0) == 1;
    var depart := r.Depart(derniere);
    assert Essai(r, depart, 1) == r.Suivante(Essai(r, depart, 0)) == r.base + 1;
    if d > 1 {
      assert Essai(r, depart, 1) in appareils + {serveur};
    }
  }

  // ----- whole runs --------------------------------------------------------------------------

  /** One address given: what was taken then, and how far the search went. */
  datatype Don = Don(prises: set<nat>, adresse: nat, d: nat)

  /** A run of addresses given, devices coming and going in between as they please. */
  ghost predicate Recit(r: Reseau, depart: nat, dons: seq<Don>) {
    && r.Valide() && r.bits <= 30 && r.Contient(depart)
    && forall k: nat | k < |dons| :: DonJuste(r, depart, dons, k)
  }

  ghost predicate DonJuste(r: Reseau, depart: nat, dons: seq<Don>, k: nat)
    requires k < |dons|
  {
    Reponse(r, dons[k].prises, Avant(depart, dons, k), dons[k].d, Some(dons[k].adresse))
  }

  /** The last address given before the k-th. */
  function Avant(depart: nat, dons: seq<Don>, k: nat): nat
    requires k <= |dons|
  {
    if k == 0 then depart else dons[k - 1].adresse
  }

  /** How many addresses were tried after the i-th was given, up to the k-th. */
  ghost function Avance(dons: seq<Don>, i: nat, k: nat): nat
    requires i <= k < |dons|
  {
    if i == k then 0 else Avance(dons, i, k - 1) + dons[k].d
  }

  lemma {:induction false} EssaiCompose(r: Reseau, a: nat, m: nat, n: nat)
    ensures Essai(r, Essai(r, a, m), n) == Essai(r, a, m + n)
  {
    if n > 0 {
      EssaiCompose(r, a, m, n - 1);
    }
  }

  /** An address given comes from the one before it, over addresses found taken. */
  lemma DonVient(r: Reseau, depart: nat, dons: seq<Don>, k: nat)
    requires Recit(r, depart, dons) && 0 < k < |dons|
    ensures dons[k].d >= 1 && Essai(r, dons[k - 1].adresse, dons[k].d) == dons[k].adresse
    ensures var depuis := dons[k - 1].adresse;
            forall i | 1 <= i < dons[k].d :: Essai(r, depuis, i) in dons[k].prises
  {
    assert DonJuste(r, depart, dons, k);
  }

  lemma {:induction false} AvanceMene(r: Reseau, depart: nat, dons: seq<Don>, i: nat, k: nat)
    requires Recit(r, depart, dons) && i <= k < |dons|
    ensures Essai(r, dons[i].adresse, Avance(dons, i, k)) == dons[k].adresse
    ensures i < k ==> Avance(dons, i, k) >= 1
    decreases k
  {
    hide Recit;
    if i < k {
      AvanceMene(r, depart, dons, i, k - 1);
      DonVient(r, depart, dons, k);
      EssaiCompose(r, dons[i].adresse, Avance(dons, i, k - 1), dons[k].d);
    }
  }

  /** The m-th address tried since was given, or found taken. */
  lemma {:induction false} Rencontree(r: Reseau, depart: nat, dons: seq<Don>, i: nat, j: nat, m: nat) returns (k: nat)
    requires Recit(r, depart, dons) && i < j < |dons| && 1 <= m <= Avance(dons, i, j)
    ensures i < k <= j
    ensures Essai(r, dons[i].adresse, m) == dons[k].adresse || Essai(r, dons[i].adresse, m) in dons[k].prises
    decreases j
  {
    hide Recit;
    var avant := Avance(dons, i, j - 1);
    if m <= avant {
      assert i < j - 1;
      k := Rencontree(r, depart, dons, i, j - 1, m);
    } else {
      k := j;
      AvanceMene(r, depart, dons, i, j - 1);
      EssaiCompose(r, dons[i].adresse, avant, m - avant);
      DonVient(r, depart, dons, j);
    }
  }

  lemma {:induction false} DonUtilisable(r: Reseau, depart: nat, dons: seq<Don>, k: nat)
    requires Recit(r, depart, dons) && k < |dons|
    ensures r.Utilisable(dons[k].adresse)
    decreases k
  {
    QuatreAuMoins(r);
    if k > 0 {
      DonUtilisable(r, depart, dons, k - 1);
    }
    assert DonJuste(r, depart, dons, k);
    EssaiPlace(r, Avant(depart, dons, k), dons[k].d);
  }

  /** Coming back takes a whole round. */
  lemma RetourFaitLeTour(r: Reseau, x: nat, a: nat)
    requires r.Taille() >= 4 && r.Utilisable(x) && a >= 1 && Essai(r, x, a) == x
    ensures a >= Nombre(r)
  {
    var p, n := Place(r, x), Nombre(r);
    EssaiPlace(r, x, a);
    if a < n {
      if p + a < n {
        ModuloUnique(p + a, n, 0, p + a);
      } else {
        ModuloUnique(p + a, n, 1, p + a - n);
      }
    }
  }

  /** Fair: an address is given again only after every other usable one was given in
      the meantime, or found taken. */
  lemma Tourniquet(r: Reseau, depart: nat, dons: seq<Don>, i: nat, j: nat, y: nat)
    requires Recit(r, depart, dons) && i < j < |dons| && dons[i].adresse == dons[j].adresse
    requires r.Utilisable(y) && y != dons[i].adresse
    ensures exists k :: i < k <= j && (dons[k].adresse == y || y in dons[k].prises)
  {
    QuatreAuMoins(r);
    var x := dons[i].adresse;
    DonUtilisable(r, depart, dons, i);
    AvanceMene(r, depart, dons, i, j);
    RetourFaitLeTour(r, x, Avance(dons, i, j));
    var m := Essaye(r, x, y);
    hide Recit, Essai;
    var k := Rencontree(r, depart, dons, i, j, m);
  }
}

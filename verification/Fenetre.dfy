/** The anti-replay window of a session: a ring of 2048 bits held in 32 words.
    The words are shown to be an exact picture of a plain set of counters. */
module Fenetre {

  const TAILLE_FENETRE: nat := 2048
  // All-ones on 64 bits, minus 2^13: no counter at or above it is ever accepted.
  const REJETER_APRES_N: nat := 0xFFFF_FFFF_FFFF_FFFF - 0x2000

  // ----- one bit of one word ---------------------------------------------------

  function Decale(i: bv7): bv64
    requires i < 64
  {
    (1 as bv64) << i
  }

  lemma RangTientSurSeptBits(i: nat)
    requires i < 64
    ensures (i as bv7) < 64
  {
  }

  lemma RangsDistincts(i: nat, j: nat)
    requires i < 64 && j < 64 && i != j
    ensures (i as bv7) != (j as bv7)
  {
    assert (i as bv7) as nat == i;
    assert (j as bv7) as nat == j;
  }

  function Masque(i: nat): bv64
    requires i < 64
  {
    RangTientSurSeptBits(i);
    Decale(i as bv7)
  }

  lemma AutreBitIntact(w: bv64, i: bv7, j: bv7)
    requires i < 64 && j < 64 && i != j
    ensures (w | Decale(i)) & Decale(j) == w & Decale(j)
    ensures (w & !Decale(i)) & Decale(j) == w & Decale(j)
  {
  }

  lemma MemeBitChange(w: bv64, i: bv7)
    requires i < 64
    ensures (w | Decale(i)) & Decale(i) != 0
    ensures (w & !Decale(i)) & Decale(i) == 0
  {
  }

  /** Setting or clearing bit i of a word changes what bit i says, and no other bit. */
  lemma UnBitALaFois(w: bv64, i: nat, j: nat)
    requires i < 64 && j < 64
    ensures i != j ==> (w | Masque(i)) & Masque(j) == w & Masque(j)
    ensures i != j ==> (w & !Masque(i)) & Masque(j) == w & Masque(j)
    ensures i == j ==> (w | Masque(i)) & Masque(j) != 0 && (w & !Masque(i)) & Masque(j) == 0
  {
    RangTientSurSeptBits(i);
    RangTientSurSeptBits(j);
    if i != j {
      RangsDistincts(i, j);
      AutreBitIntact(w, i as bv7, j as bv7);
    } else {
      MemeBitChange(w, i as bv7);
    }
  }

  predicate BitMis(w: bv64, i: nat)
    requires i < 64
  {
    w & Masque(i) != 0
  }

  // ----- the ring --------------------------------------------------------------

  function Mot(n: nat): (m: nat)
    ensures m < 32
  {
    (n % TAILLE_FENETRE) / 64
  }

  function Rang(n: nat): (r: nat)
    ensures r < 64
  {
    (n % TAILLE_FENETRE) % 64
  }

  predicate Marque(bits: seq<bv64>, n: nat)
    requires |bits| == 32
  {
    BitMis(bits[Mot(n)], Rang(n))
  }

  /** Two counters share a place in the ring exactly when they are congruent. */
  lemma MemePlace(n: nat, m: nat)
    ensures Mot(n) == Mot(m) && Rang(n) == Rang(m) <==> n % TAILLE_FENETRE == m % TAILLE_FENETRE
  {
  }

  /** Two distinct counters less than a window apart never share a place. */
  lemma ProchesDistincts(n: nat, m: nat)
    requires n < m < n + TAILLE_FENETRE
    ensures n % TAILLE_FENETRE != m % TAILLE_FENETRE
  {
  }

  function Avec(w: bv64, i: nat): bv64
    requires i < 64
  {
    w | Masque(i)
  }

  function Sans(w: bv64, i: nat): bv64
    requires i < 64
  {
    w & !Masque(i)
  }

  /** Word-level form of setting and clearing, as the ring reads it. */
  lemma MotApres(w: bv64, i: nat, j: nat)
    requires i < 64 && j < 64
    ensures BitMis(Avec(w, i), j) <==> i == j || BitMis(w, j)
    ensures BitMis(Sans(w, i), j) <==> i != j && BitMis(w, j)
  {
    UnBitALaFois(w, i, j);
  }

  lemma ChangerMot(bits: seq<bv64>, n: nat, w: bv64, m: nat)
    requires |bits| == 32
    ensures Marque(bits[Mot(n) := w], m) <==> if Mot(n) == Mot(m) then BitMis(w, Rang(m)) else Marque(bits, m)
    ensures Mot(n) == Mot(m) ==> (Marque(bits, m) <==> BitMis(bits[Mot(n)], Rang(m)))
  {
  }

  lemma MarquerUn(bits: seq<bv64>, b: seq<bv64>, n: nat, m: nat)
    requires |bits| == 32
    requires b == bits[Mot(n) := Avec(bits[Mot(n)], Rang(n))]
    ensures Marque(b, m) <==> n % TAILLE_FENETRE == m % TAILLE_FENETRE || Marque(bits, m)
  {
    hide *;
    MemePlace(n, m);
    ChangerMot(bits, n, b[Mot(n)], m);
    MotApres(bits[Mot(n)], Rang(n), Rang(m));
  }

  lemma EffacerUn(bits: seq<bv64>, b: seq<bv64>, n: nat, m: nat)
    requires |bits| == 32
    requires b == bits[Mot(n) := Sans(bits[Mot(n)], Rang(n))]
    ensures Marque(b, m) <==> n % TAILLE_FENETRE != m % TAILLE_FENETRE && Marque(bits, m)
  {
    hide *;
    MemePlace(n, m);
    ChangerMot(bits, n, b[Mot(n)], m);
    MotApres(bits[Mot(n)], Rang(n), Rang(m));
  }

  // ----- what the window must answer -------------------------------------------

  /** The reference, in terms of the set of counters accepted so far only: n is
      below the limit, new, and less than a window behind every accepted one. */
  ghost predicate Recevable(vus: set<nat>, n: nat)
  {
    && n < REJETER_APRES_N
    && n !in vus
    && forall m <- vus :: m < n + TAILLE_FENETRE
  }

  /** The words picture the set: nothing accepted lies above `max`, and each of
      the last 2048 places is marked exactly when its counter was accepted. */
  ghost predicate Represente(bits: seq<bv64>, max: nat, vu: bool, vus: set<nat>)
    requires |bits| == 32
  {
    && max < REJETER_APRES_N
    && (!vu ==> vus == {})
    && (vu ==> max in vus && forall m <- vus :: m <= max)
    && (vu ==> forall m: nat | m <= max < m + TAILLE_FENETRE :: Marque(bits, m) <==> m in vus)
  }

  class Fenetre {
    var max: nat
    var vu: bool
    const bits: array<bv64>
    ghost var vus: set<nat>

    ghost predicate Valid()
      reads this, bits
    {
      bits.Length == 32 && Represente(bits[..], max, vu, vus)
    }

    constructor ()
      ensures Valid() && fresh(bits)
      ensures vus == {}
    {
      max, vu := 0, false;
      bits := new bv64[32](_ => 0);
      vus := {};
    }

    method Possible(n: nat) returns (ok: bool)
      requires Valid()
      ensures ok <==> Recevable(vus, n)
    {
      if n >= REJETER_APRES_N {
        return false;
      }
      if !vu || n > max {
        return true;
      }
      if max - n >= TAILLE_FENETRE {
        assert max in vus;
        return false;
      }
      var m, b := Mot(n), Masque(Rang(n));
      assert Marque(bits[..], n) <==> n in vus;
      return bits[m] & b == 0;
    }

    method MarquerBit(n: nat)
      requires bits.Length == 32
      modifies bits
      ensures forall m: nat :: Marque(bits[..], m) <==>
                n % TAILLE_FENETRE == m % TAILLE_FENETRE || old(Marque(bits[..], m))
    {
      ghost var avant := bits[..];
      bits[Mot(n)] := Avec(bits[Mot(n)], Rang(n));
      assert bits[..] == avant[Mot(n) := Avec(avant[Mot(n)], Rang(n))];
      forall m: nat
        ensures Marque(bits[..], m) <==> n % TAILLE_FENETRE == m % TAILLE_FENETRE || Marque(avant, m)
      {
        MarquerUn(avant, bits[..], n, m);
      }
    }

    method EffacerBit(n: nat)
      requires bits.Length == 32
      modifies bits
      ensures forall m: nat :: Marque(bits[..], m) <==>
                n % TAILLE_FENETRE != m % TAILLE_FENETRE && old(Marque(bits[..], m))
    {
      ghost var avant := bits[..];
      bits[Mot(n)] := Sans(bits[Mot(n)], Rang(n));
      assert bits[..] == avant[Mot(n) := Sans(avant[Mot(n)], Rang(n))];
      forall m: nat
        ensures Marque(bits[..], m) <==> n % TAILLE_FENETRE != m % TAILLE_FENETRE && Marque(avant, m)
      {
        EffacerUn(avant, bits[..], n, m);
      }
    }

    /** The bits a jump of `max` to n leaves behind: every place between them is
        cleared, the places still inside the window of n are untouched. */
    method Avancer(n: nat)
      requires Valid() && vu && max < n < max + TAILLE_FENETRE
      modifies bits
      ensures forall m: nat | n < m + TAILLE_FENETRE && m <= max :: Marque(bits[..], m) <==> m in vus
      ensures forall m: nat | max < m < n :: !Marque(bits[..], m)
    {
      var i := max + 1;
      while i < n
        invariant max < i <= n
        invariant forall m: nat | n < m + TAILLE_FENETRE && m <= max :: Marque(bits[..], m) <==> m in vus
        invariant forall m: nat | max < m < i :: !Marque(bits[..], m)
      {
        forall m: nat | n < m + TAILLE_FENETRE && m < i
          ensures m % TAILLE_FENETRE != i % TAILLE_FENETRE
        {
          ProchesDistincts(m, i);
        }
        EffacerBit(i);
        i := i + 1;
      }
    }

    /** n becomes the largest counter seen. */
    method Monter(n: nat)
      requires Valid() && (!vu || n > max)
      requires n < REJETER_APRES_N
      modifies this, bits
      ensures Valid() && vus == old(vus) + {n}
    {
      if !vu || n - max >= TAILLE_FENETRE {
        forall k | 0 <= k < bits.Length {
          bits[k] := 0;
        }
        assert forall m: nat :: bits[..][Mot(m)] == 0;
      } else {
        Avancer(n);
      }
      forall m: nat | m < n && n < m + TAILLE_FENETRE
        ensures m % TAILLE_FENETRE != n % TAILLE_FENETRE
        ensures Marque(bits[..], m) <==> m in vus
      {
        ProchesDistincts(m, n);
      }
      max, vu := n, true;
      MarquerBit(n);
      vus := vus + {n};
    }

    method Accepter(n: nat) returns (ok: bool)
      requires Valid()
      modifies this, bits
      ensures Valid()
      ensures ok <==> Recevable(old(vus), n)
      ensures vus == if ok then old(vus) + {n} else old(vus)
    {
      if n >= REJETER_APRES_N {
        return false;
      }
      if !vu || n > max {
        Monter(n);
        return true;
      }
      if max - n >= TAILLE_FENETRE {
        assert max in vus;
        return false;
      }
      assert Marque(bits[..], n) <==> n in vus;
      if bits[Mot(n)] & Masque(Rang(n)) != 0 {
        return false;
      }
      forall m: nat | m <= max < m + TAILLE_FENETRE && m != n
        ensures m % TAILLE_FENETRE != n % TAILLE_FENETRE
      {
        if m < n { ProchesDistincts(m, n); } else { ProchesDistincts(n, m); }
      }
      MarquerBit(n);
      vus := vus + {n};
      return true;
    }
  }

  // ----- whole runs ------------------------------------------------------------

  ghost function Suivant(vus: set<nat>, n: nat): set<nat> {
    if Recevable(vus, n) then vus + {n} else vus
  }

  /** The set after a run of calls, whatever the order the counters arrive in. */
  ghost function Apres(ns: seq<nat>): set<nat> {
    if ns == [] then {} else Suivant(Apres(ns[..|ns| - 1]), ns[|ns| - 1])
  }

  /** The answer given to the i-th call of a run. */
  ghost predicate Accepte(ns: seq<nat>, i: nat)
    requires i < |ns|
  {
    Recevable(Apres(ns[..i]), ns[i])
  }

  /** What a run accepted is what its calls were answered true for: nothing is
      added silently and nothing accepted is ever forgotten. */
  lemma {:induction false} ApresDit(ns: seq<nat>, n: nat)
    ensures n in Apres(ns) <==> exists i :: 0 <= i < |ns| && ns[i] == n && Accepte(ns, i)
  {
    if ns != [] {
      var k := |ns| - 1;
      var avant := ns[..k];
      ApresDit(avant, n);
      forall i | 0 <= i < k
        ensures Accepte(ns, i) <==> Accepte(avant, i)
      {
        assert ns[..i] == avant[..i];
      }
      if n in Apres(avant) {
        var i :| 0 <= i < |avant| && avant[i] == n && Accepte(avant, i);
        assert ns[i] == n && Accepte(ns, i);
      } else if n in Apres(ns) {
        assert ns[k] == n && Accepte(ns, k);
      }
    }
  }

  /** No counter is accepted twice in any run. */
  lemma {:induction false} JamaisDeuxFois(ns: seq<nat>, i: nat, j: nat)
    requires i < j < |ns| && ns[i] == ns[j]
    ensures !(Accepte(ns, i) && Accepte(ns, j))
  {
    if Accepte(ns, i) {
      var avant := ns[..j];
      assert avant[..i] == ns[..i];
      assert avant[i] == ns[j] && Accepte(avant, i);
      ApresDit(avant, ns[j]);
    }
  }

  /** A late counter is refused only for a reason a reader can see in the run:
      the i-th call says yes exactly when the counter is below the limit, no
      earlier call accepted it, and no earlier call accepted one 2048 or more ahead. */
  lemma {:induction false} ReponseSelonLeRecit(ns: seq<nat>, i: nat)
    requires i < |ns|
    ensures Accepte(ns, i) <==>
            && ns[i] < REJETER_APRES_N
            && forall k | 0 <= k < i && Accepte(ns, k) :: ns[k] != ns[i] && ns[k] < ns[i] + TAILLE_FENETRE
  {
    var avant := ns[..i];
    forall k | 0 <= k < i
      ensures Accepte(ns, k) <==> Accepte(avant, k)
    {
      assert ns[..k] == avant[..k];
    }
    forall m: nat
      ensures m in Apres(avant) <==> exists k :: 0 <= k < i && ns[k] == m && Accepte(ns, k)
    {
      ApresDit(avant, m);
      if m in Apres(avant) {
        var k :| 0 <= k < i && avant[k] == m && Accepte(avant, k);
        assert ns[k] == m && Accepte(ns, k);
      }
    }
    if Accepte(ns, i) {
      forall k | 0 <= k < i && Accepte(ns, k)
        ensures ns[k] != ns[i] && ns[k] < ns[i] + TAILLE_FENETRE
      {
        assert ns[k] in Apres(avant);
      }
    }
  }
}

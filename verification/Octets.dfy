/** Bytes, and numbers written on a fixed number of them. */
module Octets {

  type Octet = n: nat | n < 256

  function Puissance256(w: nat): (p: nat)
    ensures p >= 1
  {
    if w == 0 then 1 else 256 * Puissance256(w - 1)
  }

  /** Big-endian, on w bytes; what does not fit is lost. */
  function Gros(n: nat, w: nat): (b: seq<Octet>)
    ensures |b| == w
  {
    if w == 0 then [] else Gros(n / 256, w - 1) + [n % 256]
  }

  function LireGros(b: seq<Octet>): nat {
    if b == [] then 0 else 256 * LireGros(b[..|b| - 1]) + b[|b| - 1]
  }

  /** Little-endian, on w bytes. */
  function Petit(n: nat, w: nat): (b: seq<Octet>)
    ensures |b| == w
  {
    if w == 0 then [] else [n % 256] + Petit(n / 256, w - 1)
  }

  function LirePetit(b: seq<Octet>): nat {
    if b == [] then 0 else b[0] + 256 * LirePetit(b[1..])
  }

  lemma {:induction false} GrosSeRelit(n: nat, w: nat)
    requires n < Puissance256(w)
    ensures LireGros(Gros(n, w)) == n
  {
    if w > 0 {
      GrosSeRelit(n / 256, w - 1);
      assert Gros(n, w)[..w - 1] == Gros(n / 256, w - 1);
    }
  }

  lemma {:induction false} PetitSeRelit(n: nat, w: nat)
    requires n < Puissance256(w)
    ensures LirePetit(Petit(n, w)) == n
  {
    if w > 0 {
      PetitSeRelit(n / 256, w - 1);
      assert Petit(n, w)[1..] == Petit(n / 256, w - 1);
    }
  }

  lemma {:induction false} LireGrosBorne(b: seq<Octet>)
    ensures LireGros(b) < Puissance256(|b|)
  {
    if b != [] {
      LireGrosBorne(b[..|b| - 1]);
    }
  }

  lemma GrosInjectif(m: nat, n: nat, w: nat)
    requires m < Puissance256(w) && n < Puissance256(w) && Gros(m, w) == Gros(n, w)
    ensures m == n
  {
    GrosSeRelit(m, w);
    GrosSeRelit(n, w);
  }

  lemma Puissances()
    ensures Puissance256(2) == 0x1_0000 && Puissance256(4) == 0x1_0000_0000
              && Puissance256(8) == 0x1_0000_0000_0000_0000
  {
    assert Puissance256(3) == 256 * Puissance256(2);
    assert Puissance256(4) == 256 * Puissance256(3);
    assert Puissance256(6) == 256 * Puissance256(5);
    assert Puissance256(8) == 256 * Puissance256(7);
  }

  /** Two concatenations cut at the same place are equal part by part. */
  lemma MemeCoupe(a: seq<Octet>, b: seq<Octet>, x: seq<Octet>, y: seq<Octet>)
    requires a + x == b + y && |a| == |b|
    ensures a == b && x == y
  {
    assert a == (a + x)[..|a|] && b == (b + y)[..|b|];
    assert x == (a + x)[|a|..] && y == (b + y)[|b|..];
  }

  /** Byte by byte, as strings of bytes are compared. */
  predicate Avant(a: seq<Octet>, b: seq<Octet>) {
    if a == [] then true
    else if b == [] then false
    else a[0] < b[0] || (a[0] == b[0] && Avant(a[1..], b[1..]))
  }

  lemma {:induction false} AvantTotal(a: seq<Octet>, b: seq<Octet>)
    ensures Avant(a, b) || Avant(b, a)
    ensures Avant(a, b) && Avant(b, a) ==> a == b
    decreases |a|
  {
    if a != [] && b != [] {
      AvantTotal(a[1..], b[1..]);
      assert a == [a[0]] + a[1..] && b == [b[0]] + b[1..];
    }
  }

  lemma {:induction false} AvantTransitif(a: seq<Octet>, b: seq<Octet>, c: seq<Octet>)
    requires Avant(a, b) && Avant(b, c)
    ensures Avant(a, c)
    decreases |a|
  {
    if a != [] && a[0] == b[0] == c[0] {
      AvantTransitif(a[1..], b[1..], c[1..]);
    }
  }

  lemma {:induction false} AvantPlus(a: seq<Octet>, b: seq<Octet>, x: Octet, y: Octet)
    requires |a| == |b|
    ensures Avant(a + [x], b + [y]) <==> (a != b && Avant(a, b)) || (a == b && x <= y)
  {
    if a == [] {
      assert (a + [x])[1..] == [] && (b + [y])[1..] == [];
    } else {
      assert (a + [x])[1..] == a[1..] + [x] && (b + [y])[1..] == b[1..] + [y];
      AvantPlus(a[1..], b[1..], x, y);
      assert a == [a[0]] + a[1..] && b == [b[0]] + b[1..];
    }
  }

  /** Big-endian numbers compare as their bytes do. */
  lemma {:induction false} GrosOrdonne(m: nat, n: nat, w: nat)
    requires m < Puissance256(w) && n < Puissance256(w)
    ensures Avant(Gros(m, w), Gros(n, w)) <==> m <= n
  {
    if w > 0 {
      GrosOrdonne(m / 256, n / 256, w - 1);
      AvantPlus(Gros(m / 256, w - 1), Gros(n / 256, w - 1), m % 256, n % 256);
      if Gros(m / 256, w - 1) == Gros(n / 256, w - 1) {
        GrosInjectif(m / 256, n / 256, w - 1);
      }
    }
  }
}

/** The name of a personal device: the one it proposes, numbered if it must be. */
module Noms {
  import opened Politique
  import opened Table

  function Candidat(base: string, i: nat): string {
    if i == 0 then base else base + "-" + Decimal(i + 1)
  }

  lemma CandidatsDistincts(base: string, i: nat, j: nat)
    requires i != j
    ensures Candidat(base, i) != Candidat(base, j)
  {
    var a, b := Candidat(base, i), Candidat(base, j);
    DecimalSeRelit(i + 1);
    DecimalSeRelit(j + 1);
    assert i > 0 ==> a[|base| + 1..] == Decimal(i + 1);
    assert j > 0 ==> b[|base| + 1..] == Decimal(j + 1);
  }

  /** The first candidate that is not taken. The search has no bound of its own: it ends
      because the candidates are all different and the names taken are finitely many. */
  method ChoisirNom(pris: set<string>, base: string) returns (nom: string, ghost rang: nat)
    ensures nom !in pris && nom == Candidat(base, rang) && rang <= |pris|
    ensures forall j: nat | j < rang :: Candidat(base, j) in pris
  {
    nom := base;
    var i := 2;
    rang := 0;
    ghost var essayes := {};
    while nom in pris
      invariant i == rang + 2 && nom == Candidat(base, rang)
      invariant essayes <= pris && |essayes| == rang
      invariant forall j: nat | j < rang :: Candidat(base, j) in pris
      invariant forall e <- essayes :: exists j: nat :: j < rang && e == Candidat(base, j)
      decreases |pris| - rang
    {
      if nom in essayes {
        var j: nat :| j < rang && nom == Candidat(base, j);
        CandidatsDistincts(base, rang, j);
      }
      CardinalSous(essayes + {nom}, pris);
      essayes := essayes + {nom};
      nom := base + "-" + Decimal(i);
      i := i + 1;
      rang := rang + 1;
    }
    CardinalSous(essayes, pris);
  }
}

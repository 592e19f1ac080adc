/** The team file: a text of "address group" lines that keeps its comments, and what
    rewriting one person's line does to the team it stands for. */
module Equipe {
  import opened Termes
  import opened Politique

  // ----- splitting text -----------------------------------------------------------------

  /** Unicode white space. */
  predicate Espace(c: char) {
    || c in {' ', '\t', '\n', '\r', '\U{0B}', '\U{0C}', '\U{85}', '\U{A0}', '\U{1680}', '\U{2028}', '\U{2029}',
             '\U{202F}', '\U{205F}', '\U{3000}'}
    || '\U{2000}' <= c <= '\U{200A}'
  }

  predicate SansEspace(s: string) {
    forall c <- s :: !Espace(c)
  }

  /** Lines, the line feeds dropped; always one at least. */
  function Lignes(s: string): (r: seq<string>)
    ensures r != []
    ensures forall l <- r :: '\n' !in l
  {
    if s == "" then [""]
    else
      var r := Lignes(s[1..]);
      if s[0] == '\n' then [""] + r else [[s[0]] + r[0]] + r[1..]
  }

  function Joindre(ls: seq<string>): string
    requires ls != []
  {
    if |ls| == 1 then ls[0] else ls[0] + "\n" + Joindre(ls[1..])
  }

  /** The first word of a string, and what follows it. */
  function Mot(s: string): (r: (string, string))
    ensures |r.0| + |r.1| == |s|
    ensures s != "" && !Espace(s[0]) ==> r.0 != ""
  {
    if s == "" || Espace(s[0]) then ("", s)
    else
      var (m, reste) := Mot(s[1..]);
      ([s[0]] + m, reste)
  }

  /** The words of a string. */
  function Champs(s: string): seq<string>
    decreases |s|
  {
    if s == "" then []
    else if Espace(s[0]) then Champs(s[1..])
    else
      var (m, reste) := Mot(s);
      [m] + Champs(reste)
  }

  lemma {:induction false} MotAvant(m: string, reste: string)
    requires SansEspace(m) && (reste != "" ==> Espace(reste[0]))
    ensures Mot(m + reste) == (m, reste)
  {
    if m == "" {
      assert m + reste == reste;
    } else {
      assert (m + reste)[1..] == m[1..] + reste;
      MotAvant(m[1..], reste);
      assert [m[0]] + m[1..] == m;
    }
  }

  lemma DeuxChamps(a: string, g: string)
    requires a != "" && g != "" && SansEspace(a) && SansEspace(g)
    ensures Champs(a + " " + g) == [a, g]
  {
    assert a + " " + g == a + (" " + g);
    MotAvant(a, " " + g);
    assert (" " + g)[1..] == g && g == g + "";
    MotAvant(g, "");
    assert Champs(g) == [g] + Champs("");
    assert Champs(" " + g) == Champs(g);
  }

  /** White space alone holds no word. */
  lemma {:induction false} Blanc(s: string)
    requires forall c <- s :: Espace(c)
    ensures Champs(s) == []
  {
    if s != "" {
      Blanc(s[1..]);
    }
  }

  /** Trailing white space changes no word. */
  lemma {:induction false} FinBlanche(s: string, c: char)
    requires Espace(c)
    ensures Champs(s + [c]) == Champs(s)
    decreases |s|
  {
    if s == "" {
      Blanc([c]);
    } else if Espace(s[0]) {
      assert (s + [c])[1..] == s[1..] + [c];
      FinBlanche(s[1..], c);
    } else {
      MotFinBlanche(s, c);
      FinBlanche(Mot(s).1, c);
    }
  }

  lemma {:induction false} MotFinBlanche(s: string, c: char)
    requires Espace(c)
    ensures Mot(s + [c]) == (Mot(s).0, Mot(s).1 + [c])
  {
    if s == "" {
    } else if !Espace(s[0]) {
      assert (s + [c])[1..] == s[1..] + [c];
      MotFinBlanche(s[1..], c);
    }
  }

  lemma {:induction false} LignesDeJoindre(ls: seq<string>)
    requires ls != [] && forall l <- ls :: '\n' !in l
    ensures Lignes(Joindre(ls) + "\n") == ls + [""]
    decreases |ls|
  {
    if |ls| == 1 {
      LignesTete(ls[0], "");
      assert Joindre(ls) + "\n" == ls[0] + "\n" + "";
      assert ls == [ls[0]];
    } else {
      LignesDeJoindre(ls[1..]);
      assert Joindre(ls) + "\n" == ls[0] + "\n" + (Joindre(ls[1..]) + "\n");
      LignesTete(ls[0], Joindre(ls[1..]) + "\n");
      assert ls == [ls[0]] + ls[1..];
    }
  }

  lemma {:induction false} LignesTete(l: string, reste: string)
    requires '\n' !in l
    ensures Lignes(l + "\n" + reste) == [l] + Lignes(reste)
  {
    var s := l + "\n" + reste;
    if l == "" {
      assert s[1..] == reste;
    } else {
      assert s[1..] == l[1..] + "\n" + reste;
      LignesTete(l[1..], reste);
      assert [l[0]] + l[1..] == l;
    }
  }

  // ----- the team a text stands for ---------------------------------------------------------

  /** The person and the group a line gives, if it gives one. */
  function Ligne(bas: Casse, l: string): Option<(string, string)> {
    var ch := Champs(l);
    if |ch| >= 2 && !("#" <= ch[0]) then Some((Minuscules(bas, ch[0]), ch[1])) else None
  }

  /** Later lines win. */
  function EquipeDe(bas: Casse, ls: seq<string>): map<string, string> {
    if ls == [] then map[]
    else
      var e := EquipeDe(bas, ls[..|ls| - 1]);
      match Ligne(bas, ls[|ls| - 1])
      case None => e
      case Some(x) => e[x.0 := x.1]
  }

  /** Reading drops a final empty line, and a carriage return at the end of each. */
  function Lues(s: string): seq<string> {
    var ls := Lignes(s);
    var gardees := if ls[|ls| - 1] == "" then ls[..|ls| - 1] else ls;
    seq(|gardees|, i requires 0 <= i < |gardees| => SansRetour(gardees[i]))
  }

  function SansRetour(l: string): string {
    if l != "" && l[|l| - 1] == '\r' then l[..|l| - 1] else l
  }

  function Lire(bas: Casse, s: string): map<string, string> {
    EquipeDe(bas, Lues(s))
  }

  lemma SansRetourPareil(bas: Casse, l: string)
    ensures Ligne(bas, SansRetour(l)) == Ligne(bas, l)
  {
    if l != "" && l[|l| - 1] == '\r' {
      assert l == l[..|l| - 1] + [l[|l| - 1]];
      FinBlanche(l[..|l| - 1], '\r');
    }
  }

  /** Lines that give the same persons and groups stand for the same team. */
  lemma {:induction false} MemeEquipe(bas: Casse, ls: seq<string>, ms: seq<string>)
    requires |ls| == |ms| && forall i | 0 <= i < |ls| :: Ligne(bas, ls[i]) == Ligne(bas, ms[i])
    ensures EquipeDe(bas, ls) == EquipeDe(bas, ms)
  {
    if ls != [] {
      MemeEquipe(bas, ls[..|ls| - 1], ms[..|ms| - 1]);
    }
  }

  /** So the carriage returns and the last empty line do not matter. */
  lemma LireEnLignes(bas: Casse, s: string)
    ensures Lire(bas, s) == EquipeDe(bas, Lignes(s))
  {
    var ls := Lignes(s);
    var n := |ls| - 1;
    var gardees := if ls[n] == "" then ls[..n] else ls;
    forall i | 0 <= i < |gardees|
      ensures Ligne(bas, Lues(s)[i]) == Ligne(bas, gardees[i])
    {
      SansRetourPareil(bas, gardees[i]);
    }
    MemeEquipe(bas, Lues(s), gardees);
    if ls[n] == "" {
      assert Ligne(bas, "") == None;
    }
  }

  /** Without the line ends at its end. */
  function SansFin(s: string): string {
    if s != "" && s[|s| - 1] in {'\r', '\n'} then SansFin(s[..|s| - 1]) else s
  }

  /** The lines once the last one goes on with c. */
  function Suite(ls: seq<string>, c: char): seq<string>
    requires ls != []
  {
    if c == '\n' then ls + [""] else ls[..|ls| - 1] + [ls[|ls| - 1] + [c]]
  }

  lemma {:induction false} LignesPlus(s: string, c: char)
    ensures Lignes(s + [c]) == Suite(Lignes(s), c)
  {
    if s == "" {
      assert s + [c] == [c] && [c][1..] == "" && [c] + "" == "" + [c];
    } else {
      assert (s + [c])[1..] == s[1..] + [c];
      LignesPlus(s[1..], c);
      SuiteTete(s[0], Lignes(s[1..]), c);
    }
  }

  lemma SuiteTete(x: char, r: seq<string>, c: char)
    requires r != []
    ensures [""] + Suite(r, c) == Suite([""] + r, c)
    ensures [[x] + Suite(r, c)[0]] + Suite(r, c)[1..] == Suite([[x] + r[0]] + r[1..], c)
  {
    if c != '\n' {
      SuiteFin([""], r, c);
      if |r| == 1 {
        assert [x] + (r[0] + [c]) == ([x] + r[0]) + [c];
      } else {
        assert r == [r[0]] + r[1..];
        SuiteFin([r[0]], r[1..], c);
        SuiteFin([[x] + r[0]], r[1..], c);
      }
    }
  }

  lemma SuiteFin(debut: seq<string>, r: seq<string>, c: char)
    requires r != [] && c != '\n'
    ensures Suite(debut + r, c) == debut + Suite(r, c)
  {
    assert (debut + r)[..|debut + r| - 1] == debut + r[..|r| - 1];
  }

  /** One line end more adds nobody. */
  lemma UneFinDePlus(bas: Casse, s: string, c: char)
    requires c in {'\r', '\n'}
    ensures EquipeDe(bas, Lignes(s + [c])) == EquipeDe(bas, Lignes(s))
  {
    var ls := Lignes(s);
    LignesPlus(s, c);
    assert Ligne(bas, "") == None;
    hide Lignes, Ligne;
    if c == '\n' {
      assert (ls + [""])[..|ls|] == ls;
    } else {
      FinBlanche(ls[|ls| - 1], c);
      MemeEquipe(bas, ls, Suite(ls, c));
    }
  }

  lemma {:induction false} EquipeSansFin(bas: Casse, s: string)
    ensures EquipeDe(bas, Lignes(SansFin(s))) == EquipeDe(bas, Lignes(s))
  {
    hide EquipeDe, Lignes;
    if s != "" && s[|s| - 1] in {'\r', '\n'} {
      var debut, c := s[..|s| - 1], s[|s| - 1];
      EquipeSansFin(bas, debut);
      UneFinDePlus(bas, debut, c);
      assert s == debut + [c];
    }
  }

  /** The lines that are not this person's, in order. */
  function Autres(bas: Casse, ls: seq<string>, a: string): seq<string> {
    if ls == [] then []
    else
      var debut, l := Autres(bas, ls[..|ls| - 1], a), ls[|ls| - 1];
      if EstA(bas, l, a) then debut else debut + [l]
  }

  predicate EstA(bas: Casse, l: string, a: string) {
    Ligne(bas, l).Some? && Ligne(bas, l).valeur.0 == a
  }

  lemma SansUne(e: map<string, string>, k: string, v: string, a: string)
    ensures e[k := v] - {a} == if k == a then e - {a} else (e - {a})[k := v]
  {
  }

  lemma {:induction false} EquipeAutres(bas: Casse, ls: seq<string>, a: string)
    ensures EquipeDe(bas, ls) - {a} == EquipeDe(bas, Autres(bas, ls, a))
  {
    if ls != [] {
      var debut, l := ls[..|ls| - 1], ls[|ls| - 1];
      EquipeAutres(bas, debut, a);
      assert debut + [l] == ls;
      AutresPlus(bas, debut, l, a);
      AutresPlus(bas, Autres(bas, debut, a), l, a);
      hide EquipeDe, Autres, Ligne;
      if Ligne(bas, l).Some? {
        var (k, v) := Ligne(bas, l).valeur;
        SansUne(EquipeDe(bas, debut), k, v, a);
      }
    }
  }

  lemma AutresPlus(bas: Casse, ls: seq<string>, l: string, a: string)
    ensures Autres(bas, ls + [l], a) == if EstA(bas, l, a) then Autres(bas, ls, a) else Autres(bas, ls, a) + [l]
    ensures EquipeDe(bas, ls + [l]) == match Ligne(bas, l)
                                       case None => EquipeDe(bas, ls)
                                       case Some(x) => EquipeDe(bas, ls)[x.0 := x.1]
  {
    assert (ls + [l])[..|ls|] == ls;
  }

  /** An address that the server accepts: lower case, no white space, no comment mark.
      Lower-casing leaves it alone. */
  predicate Adressable(bas: Casse, a: string) {
    a != "" && SansEspace(a) && a[0] != '#' && Minuscules(bas, a) == a
  }

  predicate Nommable(g: string) {
    g != "" && SansEspace(g)
  }

  lemma LigneEcrite(bas: Casse, a: string, g: string)
    requires Adressable(bas, a) && Nommable(g)
    ensures Ligne(bas, a + " " + g) == Some((a, g)) && '\n' !in a + " " + g
  {
    DeuxChamps(a, g);
  }

  predicate Vide(s: string) {
    forall c <- s :: Espace(c)
  }

  lemma {:induction false} LignesDeVide(s: string)
    requires Vide(s)
    ensures forall l <- Lignes(s) :: Vide(l)
  {
    if s != "" {
      LignesDeVide(s[1..]);
      assert Lignes(s[1..])[0] in Lignes(s[1..]);
    }
  }

  lemma {:induction false} ToutesVides(bas: Casse, ls: seq<string>)
    requires forall l <- ls :: Vide(l)
    ensures EquipeDe(bas, ls) == map[]
  {
    if ls != [] {
      ToutesVides(bas, ls[..|ls| - 1]);
      assert Vide(ls[|ls| - 1]);
      Blanc(ls[|ls| - 1]);
    }
  }

  /** The lines a rewriting starts from: none if the text is blank. */
  function Depart(s: string): seq<string> {
    if Vide(s) then [] else Lignes(SansFin(s))
  }

  lemma EquipeDepart(bas: Casse, s: string)
    ensures EquipeDe(bas, Depart(s)) == Lire(bas, s)
  {
    LireEnLignes(bas, s);
    if Vide(s) {
      LignesDeVide(s);
      ToutesVides(bas, Lignes(s));
    } else {
      EquipeSansFin(bas, s);
    }
  }

  function Texte(sortie: seq<string>): string {
    if sortie == [] then "" else Joindre(sortie) + "\n"
  }

  lemma TexteSeRelit(bas: Casse, sortie: seq<string>, a: string)
    requires forall l <- sortie :: '\n' !in l
    ensures Lire(bas, Texte(sortie)) == EquipeDe(bas, sortie)
    ensures Autres(bas, Lignes(Texte(sortie)), a) == Autres(bas, sortie, a) + [""]
  {
    LireEnLignes(bas, Texte(sortie));
    if sortie != [] {
      LignesDeJoindre(sortie);
    }
    assert Lignes(Texte(sortie)) == sortie + [""] && Ligne(bas, "") == None;
    AutresPlus(bas, sortie, "", a);
  }

  lemma UneSeuleChange(bas: Casse, lignes: seq<string>, sortie: seq<string>, a: string)
    requires Autres(bas, sortie, a) == Autres(bas, lignes, a)
    ensures EquipeDe(bas, sortie) - {a} == EquipeDe(bas, lignes) - {a}
  {
    EquipeAutres(bas, sortie, a);
    EquipeAutres(bas, lignes, a);
  }

  /** The text after this change. It stands for the same team with exactly this person
      set, or removed when the group is empty, whatever comments, duplicates, letter
      case and line ends the text holds; and the other lines keep their order and
      every character. */
  method Reecrire(bas: Casse, contenu: string, a: string, g: string) returns (r: string)
    requires Adressable(bas, a) && (g == "" || Nommable(g))
    ensures Lire(bas, r) == if g != "" then Lire(bas, contenu)[a := g] else Lire(bas, contenu) - {a}
    ensures Autres(bas, Lignes(r), a) == Autres(bas, Depart(contenu), a) + [""]
  {
    hide Lire, EquipeDe, Autres, Ligne, Adressable, Nommable;
    var lignes := Depart(contenu);
    EquipeDepart(bas, contenu);
    assert [] == lignes[..0];
    VideEquipe(bas);
    var sortie: seq<string> := [];
    var fait := false;
    var j := 0;
    while j < |lignes|
      invariant 0 <= j <= |lignes|
      invariant forall l <- sortie :: '\n' !in l
      invariant Autres(bas, sortie, a) == Autres(bas, lignes[..j], a)
      invariant fait ==> g != "" && a in EquipeDe(bas, sortie) && EquipeDe(bas, sortie)[a] == g
      invariant !fait ==> a !in EquipeDe(bas, sortie)
    {
      var l := lignes[j];
      assert lignes[..j + 1] == lignes[..j] + [l];
      AutresPlus(bas, lignes[..j], l, a);
      if EstA(bas, l, a) {
        if g != "" && !fait {
          LigneEcrite(bas, a, g);
          AutresPlus(bas, sortie, a + " " + g, a);
          sortie := sortie + [a + " " + g];
          fait := true;
        }
      } else {
        AutresPlus(bas, sortie, l, a);
        sortie := sortie + [l];
      }
      j := j + 1;
    }
    assert lignes[..j] == lignes;
    if g != "" && !fait {
      LigneEcrite(bas, a, g);
      AutresPlus(bas, sortie, a + " " + g, a);
      sortie := sortie + [a + " " + g];
    }
    TexteSeRelit(bas, sortie, a);
    UneSeuleChange(bas, lignes, sortie, a);
    r := if |sortie| == 0 then "" else Joindre(sortie) + "\n";
    MemeSaufUn(Lire(bas, r), Lire(bas, contenu), a, g);
  }

  lemma VideEquipe(bas: Casse)
    ensures EquipeDe(bas, []) == map[]
  {
  }

  lemma MemeSaufUn(e: map<string, string>, avant: map<string, string>, a: string, g: string)
    requires e - {a} == avant - {a}
    requires if g != "" then a in e && e[a] == g else a !in e
    ensures e == if g != "" then avant[a := g] else avant - {a}
  {
    forall k | k != a
      ensures (k in e <==> k in avant) && (k in e ==> e[k] == avant[k])
    {
      assert k in e - {a} <==> k in avant - {a};
      assert k in e - {a} ==> (e - {a})[k] == (avant - {a})[k];
    }
  }

  // ----- what an address may be ------------------------------------------------------------

  predicate CarLocal(c: char) {
    'a' <= c <= 'z' || '0' <= c <= '9' || c in {'.', '_', '%', '+', '-'}
  }

  predicate CarDomaine(c: char) {
    'a' <= c <= 'z' || '0' <= c <= '9' || c in {'.', '-'}
  }

  /** Something, an at sign, a domain, a dot, letters: all in lower case. */
  predicate AdresseValide(a: string) {
    && |a| <= 254
    && exists i, j | 0 <= i < j < |a| ::
         && 0 < i && i + 1 < j && j + 1 < |a| && a[i] == '@' && a[j] == '.'
         && (forall n | 0 <= n < i :: CarLocal(a[n]))
         && (forall n | i < n < j :: CarDomaine(a[n]))
         && (forall n | j < n < |a| :: 'a' <= a[n] <= 'z')
  }

  /** Lower-casing leaves alone what is already lower case. */
  ghost predicate Stable(bas: Casse) {
    forall c | CarLocal(c) || c == '@' :: bas(c) == c
  }

  lemma Ordinaire(c: char)
    requires CarLocal(c) || c == '@'
    ensures !Espace(c) && c != '#'
  {
  }

  lemma ValideAdressable(bas: Casse, a: string)
    requires Stable(bas) && AdresseValide(a)
    ensures Adressable(bas, a)
  {
    assert |a| > 0 && forall n | 0 <= n < |a| :: CarLocal(a[n]) || a[n] == '@';
    hide CarLocal, Espace, AdresseValide;
    forall n | 0 <= n < |a|
      ensures bas(a[n]) == a[n] && !Espace(a[n]) && a[n] != '#'
    {
      Ordinaire(a[n]);
    }
  }

  // ----- an admin changes the team --------------------------------------------------------------

  const ACCEPTE := 200
  const INVALIDE := 400
  const INTERDIT := 403
  const ABSENT := 404
  const CONFLIT := 409

  function Admins(e: map<string, string>): set<string> {
    set k | k in e && e[k] == "admins"
  }

  /** Why this admin may not put this person in this group; none if nothing is against. */
  function Refus(e: map<string, string>, moi: string, a: string, g: string): Option<nat> {
    if a == moi then Some(INVALIDE)
    else if Groupe(e, a) == "admins" && g != "admins" && |Admins(e)| <= 1 then Some(CONFLIT)
    else if Groupe(e, moi) != "admins" then Some(INTERDIT)
    else if g == "" && Groupe(e, a) == "" then Some(ABSENT)
    else None
  }

  /** The rule of the last admin never decides: it only changes the answer of a change
      that another rule refuses. */
  lemma DernierAdminSuperflu(e: map<string, string>, moi: string, a: string, g: string)
    ensures Refus(e, moi, a, g).None? <==>
              a != moi && Groupe(e, moi) == "admins" && !(g == "" && Groupe(e, a) == "")
  {
    if a != moi && Groupe(e, moi) == "admins" && Groupe(e, a) == "admins" {
      assert {moi, a} <= Admins(e) && |{moi, a}| == 2;
      assert Admins(e) == {moi, a} + (Admins(e) - {moi, a});
    }
  }

  class FichierEquipe {
    var contenu: string

    constructor (contenu: string)
      ensures this.contenu == contenu
    {
      this.contenu := contenu;
    }

    /** One request. Accepted, it changes exactly this person in the team, and leaves the
        admin who asked; refused, it changes nothing. */
    method Membre(bas: Casse, moi: string, a: string, g: string) returns (code: nat)
      requires Stable(bas)
      modifies this
      ensures var e, e' := Lire(bas, old(contenu)), Lire(bas, contenu);
              && (code == ACCEPTE <==> AdresseValide(a) && g in {"", "admins", "equipe"} && Refus(e, moi, a, g).None?)
              && (code != ACCEPTE ==> contenu == old(contenu))
              && (code == ACCEPTE ==> e' == (if g != "" then e[a := g] else e - {a}) && Groupe(e', moi) == "admins")
    {
      hide Lire, Stable, AdresseValide, Adressable, Autres;
      if !AdresseValide(a) || !(g == "" || g == "admins" || g == "equipe") {
        return INVALIDE;
      }
      ValideAdressable(bas, a);
      var actuelle := Lire(bas, contenu);
      var avant := Groupe(actuelle, a);
      var refus := Refus(actuelle, moi, a, g);
      DernierAdminSuperflu(actuelle, moi, a, g);
      if refus.Some? {
        return refus.valeur;
      }
      if avant == g {
        assert g != "" ==> actuelle[a := g] == actuelle;
        return ACCEPTE;
      }
      contenu := Reecrire(bas, contenu, a, g);
      return ACCEPTE;
    }

    /** Whatever is asked, by whom and in whatever order, a team with an admin keeps one. */
    method Demandes(bas: Casse, ds: seq<(string, string, string)>)
      requires Stable(bas) && Admins(Lire(bas, contenu)) != {}
      modifies this
      ensures Admins(Lire(bas, contenu)) != {}
    {
      hide Lire, Stable, AdresseValide, Refus;
      var j := 0;
      while j < |ds|
        invariant 0 <= j <= |ds| && Admins(Lire(bas, contenu)) != {}
      {
        var code := Membre(bas, ds[j].0, ds[j].1, ds[j].2);
        if code == ACCEPTE {
          assert ds[j].0 in Admins(Lire(bas, contenu));
        }
        j := j + 1;
      }
    }
  }
}

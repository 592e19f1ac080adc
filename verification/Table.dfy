/** The index table by itself: which index leads to which public key, against the
    indices each pair holds. */
module Table {
  import opened Termes

  const INDICE_MAX := 0xFFFF_FFFF

  /** The indices one pair holds: those of its three sessions and of its handshake. */
  datatype Tenue = Tenue(courante: Option<nat>, precedente: Option<nat>, suivante: Option<nat>, poignee: Option<nat>)

  const LIBRE := Tenue(None, None, None, None)

  function Seul(i: Option<nat>): set<nat> {
    if i.Some? then {i.valeur} else {}
  }

  predicate Tient(t: Tenue, i: nat) {
    t.courante == Some(i) || t.precedente == Some(i) || t.suivante == Some(i) || t.poignee == Some(i)
  }

  predicate Distincts(t: Tenue) {
    && (t.courante.Some? ==> t.courante != t.precedente && t.courante != t.suivante && t.courante != t.poignee)
    && (t.precedente.Some? ==> t.precedente != t.suivante && t.precedente != t.poignee)
    && (t.suivante.Some? ==> t.suivante != t.poignee)
  }

  /** Exact: an index leads to a pair if and only if that pair holds it, and no pair
      holds one index twice. */
  ghost predicate Exacte(table: map<nat, Terme>, tenues: map<Terme, Tenue>) {
    && (forall i <- table :: 0 < i <= INDICE_MAX && table[i] in tenues && Tient(tenues[table[i]], i))
    && (forall k, i: nat | k in tenues && Tient(tenues[k], i) :: i in table && table[i] == k)
    && (forall k <- tenues :: Distincts(tenues[k]))
  }

  /** Two different pairs never hold the same index. */
  lemma Disjoints(table: map<nat, Terme>, tenues: map<Terme, Tenue>, k: Terme, k': Terme, i: nat)
    requires Exacte(table, tenues) && k in tenues && k' in tenues && k != k'
    ensures !(Tient(tenues[k], i) && Tient(tenues[k'], i))
  {
    if Tient(tenues[k], i) {
      assert table[i] == k;
    }
  }

  /** A pair gives up some of its indices and takes free ones: what is left is exact. */
  lemma Echange(table: map<nat, Terme>, tenues: map<Terme, Tenue>, k: Terme, t: Tenue, table': map<nat, Terme>)
    requires Exacte(table, tenues) && k in tenues && Distincts(t)
    requires forall i: nat | Tient(t, i) :: Tient(tenues[k], i) || (0 < i <= INDICE_MAX && i !in table)
    requires forall i: nat :: i in table' <==> Tient(t, i) || (i in table && !Tient(tenues[k], i))
    requires forall i: nat :: i in table' ==> table'[i] == if Tient(t, i) then k else table[i]
    ensures Exacte(table', tenues[k := t])
  {
    var tenues' := tenues[k := t];
    forall k', i: nat | k' in tenues' && Tient(tenues'[k'], i)
      ensures i in table' && table'[i] == k'
    {
      if k' != k {
        Disjoints(table, tenues, k, k', i);
      }
    }
    forall i | i in table'
      ensures 0 < i <= INDICE_MAX && table'[i] in tenues' && Tient(tenues'[table'[i]], i)
    {
      if Tient(t, i) {
        assert Tient(tenues[k], i) ==> i in table;
      } else {
        assert i in table && table[i] != k;
      }
    }
  }

  /** A new handshake replaces the pending one, under a free index. */
  lemma PoigneeRemplacee(table: map<nat, Terme>, tenues: map<Terme, Tenue>, k: Terme, idx: nat)
    requires Exacte(table, tenues) && k in tenues
    requires 0 < idx <= INDICE_MAX && idx !in table.Keys - Seul(tenues[k].poignee)
    ensures Exacte((table - Seul(tenues[k].poignee))[idx := k], tenues[k := tenues[k].(poignee := Some(idx))])
  {
    Echange(table, tenues, k, tenues[k].(poignee := Some(idx)), (table - Seul(tenues[k].poignee))[idx := k]);
  }

  /** A session not yet confirmed replaces the one before it, under a free index. */
  lemma SuivanteRemplacee(table: map<nat, Terme>, tenues: map<Terme, Tenue>, k: Terme, idx: nat)
    requires Exacte(table, tenues) && k in tenues
    requires 0 < idx <= INDICE_MAX && idx !in table.Keys - Seul(tenues[k].suivante)
    ensures Exacte((table - Seul(tenues[k].suivante))[idx := k], tenues[k := tenues[k].(suivante := Some(idx))])
  {
    Echange(table, tenues, k, tenues[k].(suivante := Some(idx)), (table - Seul(tenues[k].suivante))[idx := k]);
  }

  /** The pending handshake becomes the current session, keeping its index. */
  lemma ReponseRecue(table: map<nat, Terme>, tenues: map<Terme, Tenue>, k: Terme)
    requires Exacte(table, tenues) && k in tenues
    ensures Exacte(table - Seul(tenues[k].precedente),
                   tenues[k := Tenue(tenues[k].poignee, tenues[k].courante, tenues[k].suivante, None)])
  {
    Echange(table, tenues, k, Tenue(tenues[k].poignee, tenues[k].courante, tenues[k].suivante, None),
            table - Seul(tenues[k].precedente));
  }

  /** The next session becomes the current one. */
  lemma Promotion(table: map<nat, Terme>, tenues: map<Terme, Tenue>, k: Terme)
    requires Exacte(table, tenues) && k in tenues
    ensures Exacte(table - Seul(tenues[k].precedente),
                   tenues[k := Tenue(tenues[k].suivante, tenues[k].courante, None, tenues[k].poignee)])
  {
    Echange(table, tenues, k, Tenue(tenues[k].suivante, tenues[k].courante, None, tenues[k].poignee),
            table - Seul(tenues[k].precedente));
  }

  /** Sessions are dropped from one, two or three slots. */
  lemma Expiration(table: map<nat, Terme>, tenues: map<Terme, Tenue>, k: Terme, t: Tenue, table': map<nat, Terme>)
    requires Exacte(table, tenues) && k in tenues
    requires t.poignee == tenues[k].poignee
    requires t.courante == tenues[k].courante || t.courante == None
    requires t.precedente == tenues[k].precedente || t.precedente == None
    requires t.suivante == tenues[k].suivante || t.suivante == None
    requires forall i: nat :: i in table' <==> i in table && (Tient(tenues[k], i) ==> Tient(t, i))
    requires forall i <- table' :: table'[i] == table[i]
    ensures Exacte(table', tenues[k := t])
  {
    Echange(table, tenues, k, t, table');
  }

  /** The indices that are left once those of these pairs are gone. */
  function Sauf(table: map<nat, Terme>, ks: set<Terme>): map<nat, Terme> {
    map i | i in table && table[i] !in ks :: table[i]
  }

  /** Pairs leave the list with all their indices. */
  lemma Depart(table: map<nat, Terme>, tenues: map<Terme, Tenue>, ks: set<Terme>)
    requires Exacte(table, tenues)
    ensures Exacte(Sauf(table, ks), tenues - ks)
  {
  }

  /** A pair enters the list holding nothing. */
  lemma Arrivee(table: map<nat, Terme>, tenues: map<Terme, Tenue>, k: Terme)
    requires Exacte(table, tenues) && k !in tenues
    ensures Exacte(table, tenues[k := LIBRE])
  {
  }

  // ----- size ------------------------------------------------------------------------

  lemma CardinalSous<T>(a: set<T>, b: set<T>)
    requires a <= b
    ensures |a| <= |b|
  {
    assert b == a + (b - a);
  }

  lemma CardinalPlusUn(tous: set<nat>, reste: set<nat>, i: Option<nat>)
    requires tous <= reste + Seul(i)
    ensures |tous| <= |reste| + 1
  {
    CardinalSous(tous, reste + Seul(i));
    if i.Some? && i.valeur !in reste {
      assert reste + Seul(i) == reste + {i.valeur};
    } else {
      assert reste + Seul(i) == reste;
    }
  }

  /** One pair holds at most four of the indices. */
  lemma QuatreDePlus(table: map<nat, Terme>, tenues: map<Terme, Tenue>, k: Terme)
    requires Exacte(table, tenues) && k in tenues
    ensures |table.Keys| <= |Sauf(table, {k}).Keys| + 4
  {
    var t, reste := tenues[k], Sauf(table, {k}).Keys;
    var un := reste + Seul(t.courante);
    var deux := un + Seul(t.precedente);
    var trois := deux + Seul(t.suivante);
    assert table.Keys <= trois + Seul(t.poignee);
    CardinalPlusUn(table.Keys, trois, t.poignee);
    CardinalPlusUn(trois, deux, t.suivante);
    CardinalPlusUn(deux, un, t.precedente);
    CardinalPlusUn(un, reste, t.courante);
  }

  /** At most four indices per pair: an exact table cannot leak. */
  lemma {:induction false} AuPlusQuatre(table: map<nat, Terme>, tenues: map<Terme, Tenue>)
    requires Exacte(table, tenues)
    ensures |table.Keys| <= 4 * |tenues.Keys|
    decreases |tenues|
  {
    if tenues == map[] {
      assert table.Keys == {};
    } else {
      var k :| k in tenues;
      Depart(table, tenues, {k});
      QuatreDePlus(table, tenues, k);
      hide Exacte, Sauf;
      assert (tenues - {k}).Keys == tenues.Keys - {k};
      AuPlusQuatre(Sauf(table, {k}), tenues - {k});
    }
  }

  /** So a free index always exists. */
  lemma {:induction false} IndiceLibre(pris: set<nat>, n: nat)
    requires |pris| < n
    ensures exists i: nat :: 0 < i <= n && i !in pris
  {
    if n in pris {
      IndiceLibre(pris - {n}, n - 1);
      var i: nat :| 0 < i <= n - 1 && i !in pris - {n};
      assert i !in pris;
    }
  }
}

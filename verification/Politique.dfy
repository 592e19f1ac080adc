/** From the text of a policy to the packet: selectors are resolved on the devices of
    the moment, what concerns one device is extracted for each source, turned into
    rules of its engine, and applied to a packet. */
module Politique {
  import opened Termes

  type Adresse = nat

  /** Lower-casing works character by character, whatever the alphabet. */
  type Casse = char -> char

  datatype Regle = Regle(de: seq<string>, vers: seq<string>, ports: seq<string>)

  datatype Appareil = Appareil(adresse: Adresse, proprietaire: string, etiquette: string, horsGroupe: bool)

  datatype Port = Port(proto: string, debut: nat, fin: nat)

  datatype Flux = Flux(sources: seq<Adresse>, dest: seq<Adresse>, ports: seq<Port>)

  datatype Entree = Entree(source: Adresse, ports: seq<Port>)

  /** A rule of the engine; protocol 0 stands for everything. */
  datatype RegleMoteur = RegleMoteur(proto: nat, debut: nat, fin: nat)

  /** What the engine reads of a packet. */
  datatype Paquet4 = Paquet4(proto: nat, ports: bool, portDst: nat)

  const ICMP := 1
  const TCP := 6
  const UDP := 17
  const PORT_MAX := 65535

  // ----- strings --------------------------------------------------------------------

  function Minuscules(bas: Casse, s: string): string {
    seq(|s|, i requires 0 <= i < |s| => bas(s[i]))
  }

  /** Cuts at the first c, which is dropped. */
  function Couper(s: string, c: char): (r: (string, string, bool))
    ensures r.2 <==> c in s
    ensures r.2 ==> s == r.0 + [c] + r.1
    ensures c !in r.0
  {
    if s == "" then ("", "", false)
    else if s[0] == c then ("", s[1..], true)
    else
      var (a, b, ok) := Couper(s[1..], c);
      ([s[0]] + a, b, ok)
  }

  lemma {:induction false} CouperAu(a: string, c: char, b: string)
    requires c !in a
    ensures Couper(a + [c] + b, c) == (a, b, true)
  {
    var s := a + [c] + b;
    if a == "" {
      assert s[1..] == b;
    } else {
      assert s[1..] == a[1..] + [c] + b && [s[0]] + a[1..] == a;
      CouperAu(a[1..], c, b);
    }
  }

  lemma {:induction false} CouperJamais(s: string, c: char)
    requires c !in s
    ensures Couper(s, c) == (s, "", false)
  {
    if s != "" {
      CouperJamais(s[1..], c);
      assert [s[0]] + s[1..] == s;
    }
  }

  // ----- ports ----------------------------------------------------------------------

  predicate Chiffre(c: char) {
    '0' <= c <= '9'
  }

  /** A decimal number that fits in 16 bits. */
  function LireNombre(s: string): (r: Option<nat>)
    ensures r.Some? ==> r.valeur <= PORT_MAX
  {
    if s == "" then None
    else match Decimales(s)
      case None => None
      case Some(n) => if n <= PORT_MAX then Some(n) else None
  }

  function Decimales(s: string): Option<nat> {
    if s == "" then Some(0)
    else
      var c := s[|s| - 1];
      match Decimales(s[..|s| - 1])
      case None => None
      case Some(n) => if Chiffre(c) then Some(10 * n + (c - '0') as nat) else None
  }

  /** One port as the policy writes it: everything, a ping, a port or a range. The
      first colon of "tcp:..." is its fourth character. */
  function LirePort(s: string): (r: Option<Port>)
    ensures r.Some? ==> PortJuste(r.valeur)
  {
    if s == "*" then Some(Port("*", 0, 0))
    else if s == "icmp" then Some(Port("icmp", 0, 0))
    else if "tcp:" <= s then LirePlage("tcp", s[4..])
    else if "udp:" <= s then LirePlage("udp", s[4..])
    else None
  }

  function LirePlage(proto: string, plage: string): (r: Option<Port>)
    requires proto in {"tcp", "udp"}
    ensures r.Some? ==> PortJuste(r.valeur)
  {
    var (d, f, estPlage) := Couper(plage, '-');
    match LireNombre(d)
    case None => None
    case Some(debut) =>
      if !estPlage then Some(Port(proto, debut, debut))
      else match LireNombre(f)
        case None => None
        case Some(fin) => if fin < debut then None else Some(Port(proto, debut, fin))
  }

  predicate PortJuste(p: Port) {
    || (p.proto in {"*", "icmp"} && p.debut == p.fin == 0)
    || (p.proto in {"tcp", "udp"} && p.debut <= p.fin <= PORT_MAX)
  }

  /** The whole list, or nothing at all if one of them cannot be read. */
  ghost function PortsLus(liste: seq<string>): Option<seq<Port>> {
    if exists s <- liste :: LirePort(s).None? then None
    else Some(seq(|liste|, i requires 0 <= i < |liste| => LirePort(liste[i]).valeur))
  }

  method LirePorts(liste: seq<string>) returns (r: Option<seq<Port>>)
    ensures r == PortsLus(liste)
  {
    var ports := [];
    var j := 0;
    while j < |liste|
      invariant 0 <= j <= |liste| && |ports| == j
      invariant forall i | 0 <= i < j :: LirePort(liste[i]) == Some(ports[i])
    {
      var p := LirePort(liste[j]);
      if p.None? {
        return None;
      }
      ports := ports + [p.valeur];
      j := j + 1;
    }
    assert ports == seq(|liste|, i requires 0 <= i < |liste| => LirePort(liste[i]).valeur);
    return Some(ports);
  }

  function Decimal(n: nat): (s: string)
    ensures s != ""
  {
    var c := [(n % 10) as char + '0'];
    if n < 10 then c else Decimal(n / 10) + c
  }

  lemma {:induction false} DecimalSeRelit(n: nat)
    ensures Decimales(Decimal(n)) == Some(n) && forall c <- Decimal(n) :: Chiffre(c)
  {
    var c := (n % 10) as char + '0';
    if n < 10 {
      assert Decimal(n)[..0] == "";
    } else {
      DecimalSeRelit(n / 10);
      assert Decimal(n)[..|Decimal(n)| - 1] == Decimal(n / 10);
    }
  }

  function Ecrire(p: Port): string {
    if p.proto == "*" || p.proto == "icmp" then p.proto
    else if p.debut == p.fin then p.proto + ":" + Decimal(p.debut)
    else p.proto + ":" + Decimal(p.debut) + "-" + Decimal(p.fin)
  }

  lemma PlageSeRelit(p: Port)
    requires PortJuste(p) && p.proto in {"tcp", "udp"}
    ensures var plage := if p.debut == p.fin then Decimal(p.debut) else Decimal(p.debut) + "-" + Decimal(p.fin);
            LirePlage(p.proto, plage) == Some(p)
  {
    hide Decimal, Decimales;
    DecimalSeRelit(p.debut);
    DecimalSeRelit(p.fin);
    if p.debut == p.fin {
      CouperJamais(Decimal(p.debut), '-');
    } else {
      CouperAu(Decimal(p.debut), '-', Decimal(p.fin));
    }
  }

  /** What a port is written as reads back as that port. */
  lemma PortSeRelit(p: Port)
    requires PortJuste(p)
    ensures LirePort(Ecrire(p)) == Some(p)
  {
    hide Decimal, LirePlage, Couper;
    if p.proto in {"tcp", "udp"} {
      PlageSeRelit(p);
      var plage := if p.debut == p.fin then Decimal(p.debut) else Decimal(p.debut) + "-" + Decimal(p.fin);
      var s := Ecrire(p);
      assert s == (p.proto + ":") + plage;
      assert s[..4] == p.proto + ":" && s[4..] == plage;
      assert s[0] == p.proto[0];
    }
  }

  // ----- what a policy says, read directly ---------------------------------------------

  /** The group of a person; none outside the team. */
  function Groupe(e: map<string, string>, qui: string): string {
    if qui in e then e[qui] else ""
  }

  predicate Correspond(bas: Casse, sel: string, a: Appareil, e: map<string, string>) {
    if sel == "*" then true
    else if "groupe:" <= sel then a.proprietaire != "" && !a.horsGroupe && Groupe(e, a.proprietaire) == sel[7..]
    else if "etiquette:" <= sel then a.etiquette != "" && a.etiquette == sel[10..]
    else if "utilisateur:" <= sel then a.proprietaire != "" && a.proprietaire == Minuscules(bas, sel[12..])
    else false
  }

  /** A device whose owner left the team appears in no rule any more. */
  predicate Present(a: Appareil, e: map<string, string>) {
    a.proprietaire != "" ==> Groupe(e, a.proprietaire) != ""
  }

  predicate Choisi(bas: Casse, sels: seq<string>, a: Appareil, e: map<string, string>) {
    Present(a, e) && exists s <- sels :: Correspond(bas, s, a, e)
  }

  /** These selectors name this address. */
  predicate Designe(bas: Casse, sels: seq<string>, apps: seq<Appareil>, e: map<string, string>, serveur: Adresse,
                    x: Adresse) {
    ("serveur" in sels && x == serveur) || exists a <- apps :: Choisi(bas, sels, a, e) && a.adresse == x
  }

  /** Two devices of one person of the team. */
  predicate MemePersonne(apps: seq<Appareil>, e: map<string, string>, x: Adresse, y: Adresse) {
    exists a, b :: a in apps && b in apps && a.adresse == x && b.adresse == y
                   && a.proprietaire == b.proprietaire && Siens(a, e, a.proprietaire)
  }

  predicate Siens(a: Appareil, e: map<string, string>, qui: string) {
    a.proprietaire == qui && qui != "" && Groupe(e, qui) != ""
  }

  /** A rule links x to y. */
  predicate Relie(bas: Casse, r: Regle, apps: seq<Appareil>, e: map<string, string>, serveur: Adresse, x: Adresse,
                  y: Adresse) {
    && Designe(bas, r.de, apps, e, serveur, x)
    && (Designe(bas, r.vers, apps, e, serveur, y) || ("soi" in r.vers && MemePersonne(apps, e, x, y)))
  }

  /** The ports a rule opens; an unreadable list opens none. */
  ghost function PortsDe(r: Regle): seq<Port> {
    var p := PortsLus(r.ports);
    if p.Some? then p.valeur else []
  }

  // ----- resolving selectors --------------------------------------------------------------

  method Choisir(bas: Casse, sels: seq<string>, apps: seq<Appareil>, e: map<string, string>, serveur: Adresse)
      returns (r: seq<Adresse>)
    ensures forall x :: x in r <==> Designe(bas, sels, apps, e, serveur, x)
  {
    r := if "serveur" in sels then [serveur] else [];
    var j := 0;
    while j < |apps|
      invariant 0 <= j <= |apps|
      invariant forall x :: x in r <==> Designe(bas, sels, apps[..j], e, serveur, x)
    {
      var a := apps[j];
      assert apps[..j + 1] == apps[..j] + [a];
      if Present(a, e) {
        var i := 0;
        while i < |sels|
          invariant 0 <= i <= |sels|
          invariant forall s <- sels[..i] :: !Correspond(bas, s, a, e)
        {
          if Correspond(bas, sels[i], a, e) {
            break;
          }
          i := i + 1;
        }
        assert i < |sels| <==> Choisi(bas, sels, a, e) by {
          assert i == |sels| ==> sels[..i] == sels;
        }
        if i < |sels| {
          r := r + [a.adresse];
        }
      }
      j := j + 1;
    }
    assert apps[..j] == apps;
  }

  // ----- the compiler ------------------------------------------------------------------------

  /** A port is among these; None asks for nothing, and is among any. */
  predicate Parmi(ports: seq<Port>, p: Option<Port>) {
    p.Some? ==> p.valeur in ports
  }

  /** These flows let x open this port on y; with None, they link x to y. */
  predicate Ouvre(flux: seq<Flux>, x: Adresse, y: Adresse, p: Option<Port>) {
    exists f <- flux :: x in f.sources && y in f.dest && Parmi(f.ports, p)
  }

  lemma OuvrePlus(flux: seq<Flux>, g: Flux, x: Adresse, y: Adresse, p: Option<Port>)
    ensures Ouvre(flux + [g], x, y, p) <==> Ouvre(flux, x, y, p) || (x in g.sources && y in g.dest && Parmi(g.ports, p))
  {
    if x in g.sources && y in g.dest && Parmi(g.ports, p) {
      assert g in flux + [g];
    }
    if Ouvre(flux, x, y, p) {
      var f :| f in flux && x in f.sources && y in f.dest && Parmi(f.ports, p);
      assert f in flux + [g];
    }
  }

  predicate ASien(apps: seq<Appareil>, e: map<string, string>, qui: string, x: Adresse) {
    exists a <- apps :: Siens(a, e, qui) && a.adresse == x
  }

  lemma ASienPlus(apps: seq<Appareil>, a: Appareil, e: map<string, string>, qui: string, x: Adresse)
    ensures ASien(apps + [a], e, qui, x) <==> ASien(apps, e, qui, x) || (Siens(a, e, qui) && a.adresse == x)
  {
    if Siens(a, e, qui) && a.adresse == x {
      assert a in apps + [a];
    }
    if ASien(apps, e, qui, x) {
      var b :| b in apps && Siens(b, e, qui) && b.adresse == x;
      assert b in apps + [a];
    }
  }

  /** Under each name, these addresses. */
  predicate Sous(m: map<string, seq<Adresse>>, qui: string, x: Adresse) {
    qui in m && x in m[qui]
  }

  /** The devices of each person of the team. */
  method ParPersonne(apps: seq<Appareil>, e: map<string, string>) returns (m: map<string, seq<Adresse>>)
    ensures forall qui, x :: Sous(m, qui, x) <==> ASien(apps, e, qui, x)
    ensures forall qui <- m :: m[qui] != []
  {
    m := map[];
    var j := 0;
    while j < |apps|
      invariant 0 <= j <= |apps|
      invariant forall qui, x :: Sous(m, qui, x) <==> ASien(apps[..j], e, qui, x)
      invariant forall qui <- m :: m[qui] != []
    {
      var a := apps[j];
      ghost var avant := m;
      assert apps[..j + 1] == apps[..j] + [a];
      if a.proprietaire != "" && Groupe(e, a.proprietaire) != "" {
        var siens := if a.proprietaire in m then m[a.proprietaire] else [];
        m := m[a.proprietaire := siens + [a.adresse]];
      }
      forall qui, x
        ensures Sous(m, qui, x) <==> ASien(apps[..j + 1], e, qui, x)
      {
        ASienPlus(apps[..j], a, e, qui, x);
        assert Sous(m, qui, x) <==> Sous(avant, qui, x) || (Siens(a, e, qui) && a.adresse == x);
      }
      j := j + 1;
    }
    assert apps[..j] == apps;
  }

  /** What "soi" adds: from the sources that are someone's to all that someone's. */
  ghost predicate Soi(apps: seq<Appareil>, e: map<string, string>, sources: seq<Adresse>, qui: string, x: Adresse,
                      y: Adresse) {
    x in sources && ASien(apps, e, qui, x) && ASien(apps, e, qui, y)
  }

  ghost predicate SoiHors(apps: seq<Appareil>, e: map<string, string>, sources: seq<Adresse>, reste: set<string>,
                          x: Adresse, y: Adresse) {
    exists qui :: qui !in reste && Soi(apps, e, sources, qui, x, y)
  }

  method AjouterSoi(flux: seq<Flux>, apps: seq<Appareil>, e: map<string, string>, sources: seq<Adresse>,
                    ports: seq<Port>)
      returns (r: seq<Flux>)
    ensures forall x, y, p | x != y ::
              Ouvre(r, x, y, p) <==>
                  Ouvre(flux, x, y, p) || (Parmi(ports, p) && x in sources && MemePersonne(apps, e, x, y))
  {
    var m := ParPersonne(apps, e);
    r := flux;
    var reste := m.Keys;
    while reste != {}
      invariant reste <= m.Keys
      invariant forall x, y, p | x != y ::
                  Ouvre(r, x, y, p) <==>
                      Ouvre(flux, x, y, p) || (Parmi(ports, p) && SoiHors(apps, e, sources, reste, x, y))
      decreases reste
    {
      var qui :| qui in reste;
      var siens := m[qui];
      var s := Communs(siens, sources);
      ghost var avant, resteAvant := r, reste;
      reste := reste - {qui};
      if |s| > 0 && |siens| > 1 {
        r := r + [Flux(s, siens, ports)];
      }
      forall x, y, p | x != y
        ensures Ouvre(r, x, y, p) <==>
                  Ouvre(flux, x, y, p) || (Parmi(ports, p) && SoiHors(apps, e, sources, reste, x, y))
      {
        assert Sous(m, qui, x) == (x in siens) && Sous(m, qui, y) == (y in siens);
        OuvrePlus(avant, Flux(s, siens, ports), x, y, p);
        assert Soi(apps, e, sources, qui, x, y) <==> x in s && y in siens;
        if x in siens && y in siens { UnSeul(siens, x, y); }
        if SoiHors(apps, e, sources, reste, x, y) {
          var q :| q !in reste && Soi(apps, e, sources, q, x, y);
          assert q != qui ==> q !in resteAvant;
        }
      }
    }
    forall x, y, p | x != y
      ensures Ouvre(r, x, y, p) <==>
                Ouvre(flux, x, y, p) || (Parmi(ports, p) && x in sources && MemePersonne(apps, e, x, y))
    {
      MemePersonneNomme(apps, e, sources, x, y);
    }
  }

  lemma UnSeul(siens: seq<Adresse>, x: Adresse, y: Adresse)
    requires x != y && x in siens && y in siens
    ensures |siens| > 1
  {
  }

  lemma MemePersonneNomme(apps: seq<Appareil>, e: map<string, string>, sources: seq<Adresse>, x: Adresse, y: Adresse)
    ensures (x in sources && MemePersonne(apps, e, x, y)) <==> exists qui :: Soi(apps, e, sources, qui, x, y)
  {
    if x in sources && MemePersonne(apps, e, x, y) {
      var a, b :| a in apps && b in apps && a.adresse == x && b.adresse == y
                  && a.proprietaire == b.proprietaire && Siens(a, e, a.proprietaire);
      assert Soi(apps, e, sources, a.proprietaire, x, y);
    }
    if qui :| Soi(apps, e, sources, qui, x, y) {
      var a :| a in apps && Siens(a, e, qui) && a.adresse == x;
      var b :| b in apps && Siens(b, e, qui) && b.adresse == y;
    }
  }

  method Communs(siens: seq<Adresse>, sources: seq<Adresse>) returns (s: seq<Adresse>)
    ensures forall x :: x in s <==> x in siens && x in sources
  {
    s := [];
    var j := 0;
    while j < |siens|
      invariant 0 <= j <= |siens|
      invariant forall x :: x in s <==> x in siens[..j] && x in sources
    {
      if siens[j] in sources {
        s := s + [siens[j]];
      }
      j := j + 1;
    }
  }

  /** Some rule of the policy, read directly, lets x open this port on y. */
  ghost predicate Permet(bas: Casse, regles: seq<Regle>, apps: seq<Appareil>, e: map<string, string>, serveur: Adresse,
                         x: Adresse, y: Adresse, p: Option<Port>) {
    exists r <- regles :: Parmi(PortsDe(r), p) && Relie(bas, r, apps, e, serveur, x, y)
  }

  lemma PermetPlus(bas: Casse, regles: seq<Regle>, r: Regle, apps: seq<Appareil>, e: map<string, string>,
                   serveur: Adresse,
                   x: Adresse, y: Adresse, p: Option<Port>)
    ensures Permet(bas, regles + [r], apps, e, serveur, x, y, p) <==>
              Permet(bas, regles, apps, e, serveur, x, y, p) || (Parmi(PortsDe(r), p)
                  && Relie(bas, r, apps, e, serveur, x, y))
  {
    if Parmi(PortsDe(r), p) && Relie(bas, r, apps, e, serveur, x, y) {
      assert r in regles + [r];
    }
    if Permet(bas, regles, apps, e, serveur, x, y, p) {
      var q :| q in regles && Parmi(PortsDe(q), p) && Relie(bas, q, apps, e, serveur, x, y);
      assert q in regles + [r];
    }
  }

  /** Between two distinct addresses, the flows open exactly what the policy permits. */
  method Compiler(bas: Casse, regles: seq<Regle>, apps: seq<Appareil>, e: map<string, string>, serveur: Adresse)
      returns (flux: seq<Flux>)
    ensures forall x, y, p | x != y :: Ouvre(flux, x, y, p) <==> Permet(bas, regles, apps, e, serveur, x, y, p)
  {
    flux := [];
    var j := 0;
    while j < |regles|
      invariant 0 <= j <= |regles|
      invariant forall x, y, p | x != y :: Ouvre(flux, x, y, p) <==> Permet(bas, regles[..j], apps, e, serveur, x, y, p)
    {
      ghost var avant := flux;
      assert regles[..j + 1] == regles[..j] + [regles[j]];
      flux := CompilerUne(bas, flux, regles[j], apps, e, serveur);
      forall x, y, p | x != y
        ensures Ouvre(flux, x, y, p) <==> Permet(bas, regles[..j + 1], apps, e, serveur, x, y, p)
      {
        PermetPlus(bas, regles[..j], regles[j], apps, e, serveur, x, y, p);
      }
      j := j + 1;
    }
    assert regles[..j] == regles;
  }

  method CompilerUne(bas: Casse, flux: seq<Flux>, r: Regle, apps: seq<Appareil>, e: map<string, string>,
                     serveur: Adresse)
      returns (suite: seq<Flux>)
    ensures forall x, y, p | x != y ::
              Ouvre(suite, x, y, p) <==>
                  Ouvre(flux, x, y, p) || (Parmi(PortsDe(r), p) && Relie(bas, r, apps, e, serveur, x, y))
  {
    hide Designe, Ouvre;
    var lus := LirePorts(r.ports);
    var ports := if lus.Some? then lus.valeur else [];
    var sources := Choisir(bas, r.de, apps, e, serveur);
    suite := flux;
    if |sources| == 0 {
      return;
    }
    var d := Choisir(bas, r.vers, apps, e, serveur);
    if |d| > 0 {
      suite := flux + [Flux(sources, d, ports)];
    }
    forall x, y, p
      ensures Ouvre(suite, x, y, p) <==> Ouvre(flux, x, y, p) || (x in sources && y in d && Parmi(ports, p))
    {
      OuvrePlus(flux, Flux(sources, d, ports), x, y, p);
    }
    if "soi" !in r.vers {
      return;
    }
    suite := AjouterSoi(suite, apps, e, sources, ports);
  }

  // ----- what concerns one device -------------------------------------------------------------

  /** Among these entries, this source may open this port. */
  predicate Entre(entrees: seq<Entree>, s: Adresse, p: Port) {
    exists x <- entrees :: x.source == s && p in x.ports
  }

  method Entrant(flux: seq<Flux>, moi: Adresse) returns (r: seq<Entree>)
    ensures forall s, p :: Entre(r, s, p) <==> s != moi && Ouvre(flux, s, moi, Some(p))
    ensures forall i, j | 0 <= i < j < |r| :: r[i].source != r[j].source
  {
    var parSource: map<Adresse, seq<Port>> := map[];
    var ordre := [];
    var j := 0;
    while j < |flux|
      invariant 0 <= j <= |flux|
      invariant forall s, p :: Contient(parSource, s, p) <==> s != moi && Ouvre(flux[..j], s, moi, Some(p))
      invariant forall s :: s in ordre <==> s in parSource
      invariant forall a, b | 0 <= a < b < |ordre| :: ordre[a] != ordre[b]
    {
      var f := flux[j];
      assert flux[..j + 1] == flux[..j] + [f];
      ghost var avant := parSource;
      if moi in f.dest {
        parSource, ordre := Rassembler(parSource, ordre, f, moi);
      }
      forall s, p
        ensures Contient(parSource, s, p) <==> s != moi && Ouvre(flux[..j + 1], s, moi, Some(p))
      {
        OuvrePlus(flux[..j], f, s, moi, Some(p));
        assert Contient(avant, s, p) <==> s != moi && Ouvre(flux[..j], s, moi, Some(p));
      }
      j := j + 1;
    }
    assert flux[..j] == flux;
    r := seq(|ordre|, i requires 0 <= i < |ordre| => Entree(ordre[i], if ordre[i] in parSource
        then parSource[ordre[i]] else []));
    forall s, p
      ensures Entre(r, s, p) <==> Contient(parSource, s, p)
    {
      if Contient(parSource, s, p) {
        var i :| 0 <= i < |ordre| && ordre[i] == s;
        assert r[i] in r;
      }
    }
  }

  predicate Contient(m: map<Adresse, seq<Port>>, s: Adresse, p: Port) {
    s in m && p in m[s]
  }

  method Rassembler(parSource: map<Adresse, seq<Port>>, ordre: seq<Adresse>, f: Flux, moi: Adresse)
      returns (m: map<Adresse, seq<Port>>, o: seq<Adresse>)
    requires forall s :: s in ordre <==> s in parSource
    requires forall a, b | 0 <= a < b < |ordre| :: ordre[a] != ordre[b]
    ensures forall s, p :: Contient(m, s, p) <==>
              Contient(parSource, s, p) || (s != moi && s in f.sources && p in f.ports)
    ensures forall s :: s in o <==> s in m
    ensures forall a, b | 0 <= a < b < |o| :: o[a] != o[b]
  {
    m, o := parSource, ordre;
    var j := 0;
    while j < |f.sources|
      invariant 0 <= j <= |f.sources|
      invariant forall s, p :: Contient(m, s, p) <==>
                Contient(parSource, s, p) || (s != moi && s in f.sources[..j] && p in f.ports)
      invariant forall s :: s in o <==> s in m
      invariant forall a, b | 0 <= a < b < |o| :: o[a] != o[b]
    {
      var s := f.sources[j];
      ghost var avant := m;
      assert f.sources[..j + 1] == f.sources[..j] + [s];
      if s != moi {
        if s !in m {
          o := o + [s];
        }
        m := m[s := (if s in m then m[s] else []) + f.ports];
      }
      assert forall x, p :: Contient(m, x, p) <==> Contient(avant, x, p) || (x == s != moi && p in f.ports);
      j := j + 1;
    }
  }

  // ----- rules of the engine --------------------------------------------------------------------

  /** What a port of the policy means for a packet. */
  predicate Admet(p: Port, ip: Paquet4) {
    || p.proto == "*"
    || (p.proto == "icmp" && ip.proto == ICMP)
    || (p.proto == "tcp" && ip.proto == TCP && ip.ports && p.debut <= ip.portDst <= p.fin)
    || (p.proto == "udp" && ip.proto == UDP && ip.ports && p.debut <= ip.portDst <= p.fin)
  }

  function VersRegle(p: Port): Option<RegleMoteur> {
    if p.proto == "*" then Some(RegleMoteur(0, 0, 0))
    else if p.proto == "icmp" then Some(RegleMoteur(ICMP, 0, 0))
    else if p.proto == "tcp" then Some(RegleMoteur(TCP, p.debut, p.fin))
    else if p.proto == "udp" then Some(RegleMoteur(UDP, p.debut, p.fin))
    else None
  }

  /** Fails if and only if a protocol is unknown. */
  method VersRegles(ports: seq<Port>) returns (r: Option<seq<RegleMoteur>>)
    ensures r.None? <==> exists p <- ports :: VersRegle(p).None?
    ensures r.Some? ==> |r.valeur| == |ports| && forall i | 0 <= i < |ports| :: VersRegle(ports[i]) == Some(r.valeur[i])
  {
    var liste := [];
    var j := 0;
    while j < |ports|
      invariant 0 <= j <= |ports| && |liste| == j
      invariant forall i | 0 <= i < j :: VersRegle(ports[i]) == Some(liste[i])
    {
      var x := VersRegle(ports[j]);
      if x.None? {
        return None;
      }
      liste := liste + [x.valeur];
      j := j + 1;
    }
    return Some(liste);
  }

  /** The switch of the filter, one rule at a time. */
  predicate Laisse(x: RegleMoteur, ip: Paquet4) {
    if x.proto == 0 then true
    else if x.proto != ip.proto then false
    else if x.proto == ICMP then true
    else ip.ports && x.debut <= ip.portDst <= x.fin
  }

  /** What a pair may send in: everything, or what one of these rules lets in. */
  datatype Filtre = Filtre(toutes: bool, liste: seq<RegleMoteur>)

  /** Without a filter, nothing gets in. */
  predicate Accepte(f: Option<Filtre>, ip: Paquet4) {
    f.Some? && (f.valeur.toutes || exists x <- f.valeur.liste :: Laisse(x, ip))
  }

  method Autorise(f: Option<Filtre>, ip: Paquet4) returns (ok: bool)
    ensures ok <==> Accepte(f, ip)
  {
    if f.None? {
      return false;
    }
    if f.valeur.toutes {
      return true;
    }
    var liste := f.valeur.liste;
    var j := 0;
    while j < |liste|
      invariant 0 <= j <= |liste|
      invariant forall i | 0 <= i < j :: !Laisse(liste[i], ip)
    {
      var x := liste[j];
      if x.proto == 0 {
        assert Laisse(liste[j], ip);
        return true;
      }
      if x.proto == ip.proto {
        if x.proto == ICMP || (ip.ports && ip.portDst >= x.debut && ip.portDst <= x.fin) {
          assert Laisse(liste[j], ip);
          return true;
        }
      }
      j := j + 1;
    }
    return false;
  }

  // ----- the whole chain ------------------------------------------------------------------------

  /** Some port this source may open here admits the packet. */
  ghost predicate PolitiqueAdmet(bas: Casse, regles: seq<Regle>, apps: seq<Appareil>, e: map<string, string>,
                                 serveur: Adresse,
                                 s: Adresse, moi: Adresse, ip: Paquet4) {
    exists r <- regles :: Relie(bas, r, apps, e, serveur, s, moi) && exists p <- PortsDe(r) :: Admet(p, ip)
  }

  lemma PortsJustes(r: Regle)
    ensures forall p <- PortsDe(r) :: PortJuste(p)
  {
  }

  lemma PermetJuste(bas: Casse, regles: seq<Regle>, apps: seq<Appareil>, e: map<string, string>, serveur: Adresse,
                    x: Adresse, y: Adresse, p: Port)
    requires Permet(bas, regles, apps, e, serveur, x, y, Some(p))
    ensures PortJuste(p)
  {
    var r :| r in regles && p in PortsDe(r);
    PortsJustes(r);
  }

  /** A rule of the engine says what the port it comes from means. */
  lemma RegleFidele(p: Port, ip: Paquet4)
    requires PortJuste(p)
    ensures VersRegle(p).Some? && (Laisse(VersRegle(p).valeur, ip) <==> Admet(p, ip))
  {
  }

  lemma ReglesFideles(ports: seq<Port>, regles: seq<RegleMoteur>, ip: Paquet4)
    requires |ports| == |regles| && forall i | 0 <= i < |ports| ::
              PortJuste(ports[i]) && VersRegle(ports[i]) == Some(regles[i])
    ensures (exists x <- regles :: Laisse(x, ip)) <==> exists p <- ports :: Admet(p, ip)
  {
    hide VersRegle, Laisse, Admet, PortJuste;
    forall i | 0 <= i < |ports|
      ensures Laisse(regles[i], ip) <==> Admet(ports[i], ip)
    {
      RegleFidele(ports[i], ip);
    }
    if x :| x in regles && Laisse(x, ip) {
      var i :| 0 <= i < |regles| && regles[i] == x;
      assert ports[i] in ports;
    }
    if p :| p in ports && Admet(p, ip) {
      var i :| 0 <= i < |ports| && ports[i] == p;
      assert regles[i] in regles;
    }
  }

  /** The rules kept for this source let the packet in. */
  predicate Passe(entrant: map<Adresse, seq<RegleMoteur>>, s: Adresse, ip: Paquet4) {
    s in entrant && exists x <- entrant[s] :: Laisse(x, ip)
  }

  predicate EntreeAdmet(entrees: seq<Entree>, s: Adresse, ip: Paquet4) {
    exists x <- entrees :: x.source == s && exists p <- x.ports :: Admet(p, ip)
  }

  lemma EntreeAdmetPlus(entrees: seq<Entree>, x: Entree, s: Adresse, ip: Paquet4)
    ensures EntreeAdmet(entrees + [x], s, ip) <==>
              EntreeAdmet(entrees, s, ip) || (x.source == s && exists p <- x.ports :: Admet(p, ip))
  {
    if x.source == s && exists p <- x.ports :: Admet(p, ip) {
      assert x in entrees + [x];
    }
    if EntreeAdmet(entrees, s, ip) {
      var y :| y in entrees && y.source == s && exists p <- y.ports :: Admet(p, ip);
      assert y in entrees + [x];
    }
  }

  method Traduire(entrees: seq<Entree>) returns (entrant: map<Adresse, seq<RegleMoteur>>)
    requires forall x <- entrees, p <- x.ports :: PortJuste(p)
    ensures forall s, ip :: Passe(entrant, s, ip) <==> EntreeAdmet(entrees, s, ip)
  {
    hide PortJuste, Laisse, Admet;
    entrant := map[];
    var j := 0;
    while j < |entrees|
      invariant 0 <= j <= |entrees|
      invariant forall s, ip :: Passe(entrant, s, ip) <==> EntreeAdmet(entrees[..j], s, ip)
    {
      var x := entrees[j];
      assert x in entrees;
      assert entrees[..j + 1] == entrees[..j] + [x];
      ghost var avant := entrant;
      forall p | p in x.ports
        ensures VersRegle(p).Some?
      {
        RegleFidele(p, Paquet4(0, false, 0));
      }
      var regles := VersRegles(x.ports);
      entrant := entrant[x.source := (if x.source in entrant then entrant[x.source] else []) + regles.valeur];
      forall s, ip
        ensures Passe(entrant, s, ip) <==> EntreeAdmet(entrees[..j + 1], s, ip)
      {
        EntreeAdmetPlus(entrees[..j], x, s, ip);
        ReglesFideles(x.ports, regles.valeur, ip);
        assert Passe(entrant, s, ip) <==>
            Passe(avant, s, ip) || (s == x.source && exists y <- regles.valeur :: Laisse(y, ip));
      }
      j := j + 1;
    }
    assert entrees[..j] == entrees;
  }

  lemma PolitiqueAdmetParPort(bas: Casse, regles: seq<Regle>, apps: seq<Appareil>, e: map<string, string>,
                              serveur: Adresse,
                              s: Adresse, moi: Adresse, ip: Paquet4)
    ensures PolitiqueAdmet(bas, regles, apps, e, serveur, s, moi, ip) <==>
              exists p :: Permet(bas, regles, apps, e, serveur, s, moi, Some(p)) && Admet(p, ip)
  {
    hide Relie, PortsDe, Admet;
    if PolitiqueAdmet(bas, regles, apps, e, serveur, s, moi, ip) {
      var r :| r in regles && Relie(bas, r, apps, e, serveur, s, moi) && exists p <- PortsDe(r) :: Admet(p, ip);
      var p :| p in PortsDe(r) && Admet(p, ip);
      assert Permet(bas, regles, apps, e, serveur, s, moi, Some(p));
    }
  }

  /** From the policy to the packet: what the engine lets in from an address is
      exactly what some rule of the policy, read directly, allows that address to
      open here. The translation never fails. */
  method Construire(bas: Casse, regles: seq<Regle>, apps: seq<Appareil>, e: map<string, string>, serveur: Adresse,
                    moi: Adresse)
      returns (entrant: map<Adresse, seq<RegleMoteur>>)
    ensures forall s, ip :: Passe(entrant, s, ip) <==>
              s != moi && PolitiqueAdmet(bas, regles, apps, e, serveur, s, moi, ip)
  {
    hide Permet, Ouvre, PolitiqueAdmet, Admet, Passe, PortJuste;
    var flux := Compiler(bas, regles, apps, e, serveur);
    var entrees := Entrant(flux, moi);
    forall x, p | x in entrees && p in x.ports
      ensures PortJuste(p)
    {
      assert Entre(entrees, x.source, p);
      PermetJuste(bas, regles, apps, e, serveur, x.source, moi, p);
    }
    entrant := Traduire(entrees);
    forall s, ip
      ensures EntreeAdmet(entrees, s, ip) <==> s != moi && PolitiqueAdmet(bas, regles, apps, e, serveur, s, moi, ip)
    {
      PolitiqueAdmetParPort(bas, regles, apps, e, serveur, s, moi, ip);
      EntreesParPort(entrees, s, ip);
    }
  }

  lemma EntreesParPort(entrees: seq<Entree>, s: Adresse, ip: Paquet4)
    ensures EntreeAdmet(entrees, s, ip) <==> exists p :: Entre(entrees, s, p) && Admet(p, ip)
  {
    hide Admet;
    if EntreeAdmet(entrees, s, ip) {
      var x :| x in entrees && x.source == s && exists p <- x.ports :: Admet(p, ip);
      var p :| p in x.ports && Admet(p, ip);
      assert Entre(entrees, s, p);
    }
  }

  // ----- who may talk to whom at all -----------------------------------------------------------

  /** The server relays between two devices if a rule links them, either way. */
  method Relations(flux: seq<Flux>, serveur: Adresse) returns (r: set<(Adresse, Adresse)>)
    ensures forall x: Adresse, y: Adresse :: (x, y) in r <==>
              x != y && x != serveur && y != serveur && (Ouvre(flux, x, y, None) || Ouvre(flux, y, x, None))
  {
    r := {};
    var j := 0;
    while j < |flux|
      invariant 0 <= j <= |flux|
      invariant forall x: Adresse, y: Adresse :: (x, y) in r <==>
                  x != y && x != serveur && y != serveur && (Ouvre(flux[..j], x, y, None)
                      || Ouvre(flux[..j], y, x, None))
    {
      var f := flux[j];
      assert flux[..j + 1] == flux[..j] + [f];
      ghost var avant := r;
      var i := 0;
      while i < |f.sources|
        invariant 0 <= i <= |f.sources|
        invariant forall x: Adresse, y: Adresse :: (x, y) in r <==>
                  (x, y) in avant || Lies(f.sources[..i], f.dest, serveur, x, y)
      {
        r := Croiser(r, f.sources[i], f.dest, serveur);
        i := i + 1;
      }
      assert f.sources[..i] == f.sources;
      forall x: Adresse, y: Adresse
        ensures (x, y) in r <==>
                  x != y && x != serveur && y != serveur && (Ouvre(flux[..j + 1], x, y, None)
                      || Ouvre(flux[..j + 1], y, x, None))
      {
        OuvrePlus(flux[..j], f, x, y, None);
        OuvrePlus(flux[..j], f, y, x, None);
      }
      j := j + 1;
    }
    assert flux[..j] == flux;
  }

  predicate Lies(sources: seq<Adresse>, dest: seq<Adresse>, serveur: Adresse, x: Adresse, y: Adresse) {
    x != y && x != serveur && y != serveur && ((x in sources && y in dest) || (y in sources && x in dest))
  }

  method Croiser(r: set<(Adresse, Adresse)>, s: Adresse, dest: seq<Adresse>, serveur: Adresse)
      returns (suite: set<(Adresse, Adresse)>)
    ensures forall x: Adresse, y: Adresse :: (x, y) in suite <==> (x, y) in r || Lies([s], dest, serveur, x, y)
  {
    suite := r;
    var j := 0;
    while j < |dest|
      invariant 0 <= j <= |dest|
      invariant forall x: Adresse, y: Adresse :: (x, y) in suite <==> (x, y) in r || Lies([s], dest[..j], serveur, x, y)
    {
      var d := dest[j];
      if s != d && s != serveur && d != serveur {
        suite := suite + {(s, d), (d, s)};
      }
      j := j + 1;
    }
    assert dest[..j] == dest;
  }

  /** The server sees at least these devices, and their groups as they are seen here. */
  ghost predicate VoitAutant(appsS: seq<Appareil>, eS: map<string, string>, apps: seq<Appareil>,
                             e: map<string, string>) {
    && (forall a <- apps :: a in appsS)
    && forall qui | Groupe(e, qui) != "" :: Groupe(eS, qui) == Groupe(e, qui)
  }

  lemma DesigneCroit(bas: Casse, sels: seq<string>, appsS: seq<Appareil>, eS: map<string, string>, apps: seq<Appareil>,
                     e: map<string, string>, serveur: Adresse, x: Adresse)
    requires VoitAutant(appsS, eS, apps, e) && Designe(bas, sels, apps, e, serveur, x)
    ensures Designe(bas, sels, appsS, eS, serveur, x)
  {
    if !("serveur" in sels && x == serveur) {
      var a :| a in apps && Choisi(bas, sels, a, e) && a.adresse == x;
      var sel :| sel in sels && Correspond(bas, sel, a, e);
      assert Correspond(bas, sel, a, eS);
      assert a in appsS && Choisi(bas, sels, a, eS);
    }
  }

  /** Seeing more devices and as many groups, a rule links more. */
  lemma RelieCroit(bas: Casse, r: Regle, appsS: seq<Appareil>, eS: map<string, string>, apps: seq<Appareil>,
                   e: map<string, string>,
                   serveur: Adresse, x: Adresse, y: Adresse)
    requires VoitAutant(appsS, eS, apps, e) && Relie(bas, r, apps, e, serveur, x, y)
    ensures Relie(bas, r, appsS, eS, serveur, x, y)
  {
    hide Designe;
    DesigneCroit(bas, r.de, appsS, eS, apps, e, serveur, x);
    if Designe(bas, r.vers, apps, e, serveur, y) {
      DesigneCroit(bas, r.vers, appsS, eS, apps, e, serveur, y);
    } else {
      var a, b :| a in apps && b in apps && a.adresse == x && b.adresse == y
                  && a.proprietaire == b.proprietaire && Siens(a, e, a.proprietaire);
      assert a in appsS && b in appsS && Siens(a, eS, a.proprietaire);
    }
  }

  /** What the filter of a device would let in, the server relays, as soon as the server
      resolves the same rules on a team and devices that hold those the device sees. */
  lemma AdmisDoncRelie(bas: Casse, regles: seq<Regle>, appsS: seq<Appareil>, eS: map<string, string>,
                       apps: seq<Appareil>,
                       e: map<string, string>, serveur: Adresse, flux: seq<Flux>, relations: set<(Adresse, Adresse)>,
                       s: Adresse, moi: Adresse, ip: Paquet4)
    requires forall x, y, p | x != y :: Ouvre(flux, x, y, p) <==> Permet(bas, regles, appsS, eS, serveur, x, y, p)
    requires forall x: Adresse, y: Adresse :: (x, y) in relations <==>
               x != y && x != serveur && y != serveur && (Ouvre(flux, x, y, None) || Ouvre(flux, y, x, None))
    requires VoitAutant(appsS, eS, apps, e)
    requires s != moi && s != serveur && moi != serveur && PolitiqueAdmet(bas, regles, apps, e, serveur, s, moi, ip)
    ensures (s, moi) in relations && (moi, s) in relations
  {
    hide Relie, VoitAutant;
    var r :| r in regles && Relie(bas, r, apps, e, serveur, s, moi) && exists p <- PortsDe(r) :: Admet(p, ip);
    RelieCroit(bas, r, appsS, eS, apps, e, serveur, s, moi);
    assert Permet(bas, regles, appsS, eS, serveur, s, moi, None);
    assert Ouvre(flux, s, moi, None);
  }

  // ----- what a device may open at others ------------------------------------------------------

  predicate UnAdmet(ports: seq<Port>, ip: Paquet4) {
    exists p <- ports :: Admet(p, ip)
  }

  /** These flows let x send this packet to y. */
  ghost predicate OuvreA(flux: seq<Flux>, x: Adresse, y: Adresse, ip: Paquet4) {
    exists p :: Ouvre(flux, x, y, Some(p)) && Admet(p, ip)
  }

  /** For the display: what moi may open at each other device. */
  method Sortant(flux: seq<Flux>, moi: Adresse) returns (r: map<Adresse, seq<Port>>)
    ensures forall d, ip :: (d in r && UnAdmet(r[d], ip)) <==>
                            d != moi && OuvreA(flux, moi, d, ip)
  {
    hide Admet;
    r := map[];
    var j := 0;
    while j < |flux|
      invariant 0 <= j <= |flux|
      invariant forall d, p :: Contient(r, d, p) <==> d != moi && Ouvre(flux[..j], moi, d, Some(p))
    {
      var f := flux[j];
      assert flux[..j + 1] == flux[..j] + [f];
      ghost var avant := r;
      if moi in f.sources {
        r := AjouterDest(r, f, moi);
      }
      forall d, p
        ensures Contient(r, d, p) <==> d != moi && Ouvre(flux[..j + 1], moi, d, Some(p))
      {
        OuvrePlus(flux[..j], f, moi, d, Some(p));
        assert Contient(avant, d, p) <==> d != moi && Ouvre(flux[..j], moi, d, Some(p));
      }
      j := j + 1;
    }
    assert flux[..j] == flux;
    ghost var tout := r;
    r := Resumer(r);
    forall d, ip
      ensures (d in tout && UnAdmet(tout[d], ip)) <==>
                d != moi && OuvreA(flux, moi, d, ip)
    {
      if d in tout && UnAdmet(tout[d], ip) {
        var p :| p in tout[d] && Admet(p, ip);
        assert Contient(tout, d, p);
      }
      if d != moi && OuvreA(flux, moi, d, ip) {
        var p :| Ouvre(flux, moi, d, Some(p)) && Admet(p, ip);
        assert Contient(tout, d, p);
      }
    }
  }

  method AjouterDest(m: map<Adresse, seq<Port>>, f: Flux, moi: Adresse) returns (r: map<Adresse, seq<Port>>)
    ensures forall d, p :: Contient(r, d, p) <==> Contient(m, d, p) || (d != moi && d in f.dest && p in f.ports)
  {
    r := m;
    var j := 0;
    while j < |f.dest|
      invariant 0 <= j <= |f.dest|
      invariant forall d, p :: Contient(r, d, p) <==>
                Contient(m, d, p) || (d != moi && d in f.dest[..j] && p in f.ports)
    {
      var d := f.dest[j];
      assert f.dest[..j + 1] == f.dest[..j] + [d];
      if d != moi {
        r := AjouterPorts(r, d, f.ports);
      }
      j := j + 1;
    }
    assert f.dest[..j] == f.dest;
  }

  method AjouterPorts(m: map<Adresse, seq<Port>>, d: Adresse, ports: seq<Port>) returns (r: map<Adresse, seq<Port>>)
    ensures forall x, p :: Contient(r, x, p) <==> Contient(m, x, p) || (x == d && p in ports)
  {
    r := m;
    var j := 0;
    while j < |ports|
      invariant 0 <= j <= |ports|
      invariant forall x, p :: Contient(r, x, p) <==> Contient(m, x, p) || (x == d && p in ports[..j])
    {
      var deja := if d in r then r[d] else [];
      assert ports[..j + 1] == ports[..j] + [ports[j]];
      if ports[j] !in deja {
        r := r[d := deja + [ports[j]]];
      }
      j := j + 1;
    }
    assert ports[..j] == ports;
  }

  /** "*" alone says as much as "*" and anything else. */
  method Resumer(m: map<Adresse, seq<Port>>) returns (r: map<Adresse, seq<Port>>)
    ensures r.Keys == m.Keys
    ensures forall d, ip | d in m :: UnAdmet(r[d], ip) <==> UnAdmet(m[d], ip)
  {
    r := m;
    var reste := m.Keys;
    while reste != {}
      invariant reste <= m.Keys == r.Keys
      invariant forall d <- reste :: r[d] == m[d]
      invariant forall d, ip | d in m && d !in reste :: UnAdmet(r[d], ip) <==> UnAdmet(m[d], ip)
      decreases reste
    {
      var d :| d in reste;
      reste := reste - {d};
      var tout := Port("*", 0, 0);
      if tout in m[d] {
        r := r[d := [tout]];
        assert tout in r[d];
      }
    }
  }

  // ----- fragments ---------------------------------------------------------------------------

  /** A fragment that is not the first has no ports. It passes under an "everything"
      rule, and also, if it is ICMP, under a ping rule: the documentation names the
      first case only. Nothing else lets it in. */
  lemma FragmentPasse(ports: seq<Port>, ip: Paquet4)
    requires !ip.ports && forall p <- ports :: PortJuste(p)
    ensures UnAdmet(ports, ip) <==>
              Port("*", 0, 0) in ports || (ip.proto == ICMP && Port("icmp", 0, 0) in ports)
  {
    if p :| p in ports && Admet(p, ip) {
      assert p == Port(p.proto, 0, 0);
    }
  }

  lemma FragmentIcmpSansTout()
    ensures exists ports: seq<Port>, ip: Paquet4 :: !ip.ports && Port("*", 0, 0) !in ports && UnAdmet(ports, ip)
  {
    var ports, ip := [Port("icmp", 0, 0)], Paquet4(ICMP, false, 0);
    assert Admet(ports[0], ip) && ports[0] in ports;
    assert !ip.ports && Port("*", 0, 0) !in ports && UnAdmet(ports, ip);
  }
}

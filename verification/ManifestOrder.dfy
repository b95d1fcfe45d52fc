/** The builder lists a release depth first, name by name; the installer insists on globally
    sorted paths.  When the two agree. */
module ManifestOrder {
  import opened Text

  /** A source directory, entries in name order. */
  datatype Node = File | Dir(entries: seq<Named>)
  datatype Named = Named(name: string, node: Node)

  predicate ProperName(name: string) { |name| > 0 && '/' !in name }

  /** Names are proper, and entries come sorted and distinct, in every directory. */
  predicate WellNamed(es: seq<Named>)
    decreases es
  {
    && (forall i | 0 <= i < |es| :: ProperName(es[i].name))
    && (forall i, j | 0 <= i < j < |es| :: Order(es[i].name, es[j].name) < 0)
    && (forall i | 0 <= i < |es| && es[i].node.Dir? :: WellNamed(es[i].node.entries))
  }

  /** Visit one entry: a file is listed, a directory is entered. */
  function ListOne(prefix: string, e: Named): seq<string>
    decreases e, 0
  {
    match e.node
    case File => [prefix + e.name]
    case Dir(entries) => ListAll(prefix + e.name + "/", entries)
  }

  function ListAll(prefix: string, es: seq<Named>): seq<string>
    decreases es
  {
    if es == [] then [] else ListOne(prefix, es[0]) + ListAll(prefix, es[1..])
  }

  /** What the installer accepts: no path twice, and all in byte order. */
  ghost predicate Accepted(paths: seq<string>) {
    forall i, j | 0 <= i < j < |paths| :: Order(paths[i], paths[j]) < 0
  }

  /** Some file lies at or below this node. */
  predicate Bears(n: Node)
    decreases n
  {
    match n
    case File => true
    case Dir(entries) => exists i | 0 <= i < |entries| :: Bears(entries[i].node)
  }

  /** A directory with files, and a file-bearing sibling whose name goes on, after the directory's
      name, with a character that sorts before the path separator. */
  predicate Clash(a: Named, b: Named) {
    a.node.Dir? && Bears(a.node) && Bears(b.node)
    && a.name < b.name && b.name[|a.name|] < '/'
  }

  predicate Clean(es: seq<Named>)
    decreases es
  {
    && (forall i, j | 0 <= i < j < |es| :: !Clash(es[i], es[j]))
    && (forall i | 0 <= i < |es| && es[i].node.Dir? :: Clean(es[i].node.entries))
  }

  // ---- Listings -----------------------------------------------------------------------

  lemma {:induction false} OneBears(prefix: string, e: Named)
    ensures ListOne(prefix, e) != [] <==> Bears(e.node)
    decreases e, 0
  {
    if e.node.Dir? { AllBears(prefix + e.name + "/", e.node.entries); }
  }

  lemma {:induction false} AllBears(prefix: string, es: seq<Named>)
    ensures ListAll(prefix, es) != [] <==> exists i | 0 <= i < |es| :: Bears(es[i].node)
    decreases es
  {
    if es != [] {
      OneBears(prefix, es[0]);
      AllBears(prefix, es[1..]);
      if exists i | 0 <= i < |es| :: Bears(es[i].node) {
        var i :| 0 <= i < |es| && Bears(es[i].node);
        if i > 0 { assert Bears(es[1..][i - 1].node); }
      }
      if ListAll(prefix, es[1..]) != [] {
        var i :| 0 <= i < |es[1..]| && Bears(es[1..][i].node);
        assert Bears(es[i + 1].node);
      }
    }
  }

  /** What follows the entry's own path: nothing for a file, a separator for anything inside. */
  function Stem(prefix: string, e: Named): string {
    prefix + e.name + if e.node.File? then "" else "/"
  }

  lemma {:induction false} OneStem(prefix: string, e: Named, p: string)
    requires p in ListOne(prefix, e)
    ensures Stem(prefix, e) <= p && (e.node.File? ==> p == Stem(prefix, e))
    decreases e, 0
  {
    if e.node.Dir? { AllStem(prefix + e.name + "/", e.node.entries, p); }
  }

  lemma {:induction false} AllStem(prefix: string, es: seq<Named>, p: string)
    requires p in ListAll(prefix, es)
    ensures prefix <= p
    decreases es
  {
    if p in ListOne(prefix, es[0]) {
      OneStem(prefix, es[0], p);
    } else {
      AllStem(prefix, es[1..], p);
    }
  }

  lemma {:induction false} ListedByOne(prefix: string, es: seq<Named>, p: string)
    ensures p in ListAll(prefix, es) <==> exists i :: 0 <= i < |es| && p in ListOne(prefix, es[i])
    decreases es
  {
    if es != [] {
      ListedByOne(prefix, es[1..], p);
      if exists i :: 0 <= i < |es| && p in ListOne(prefix, es[i]) {
        var i :| 0 <= i < |es| && p in ListOne(prefix, es[i]);
        if i > 0 { assert p in ListOne(prefix, es[1..][i - 1]); }
      }
      if exists i :: 0 <= i < |es[1..]| && p in ListOne(prefix, es[1..][i]) {
        var i :| 0 <= i < |es[1..]| && p in ListOne(prefix, es[1..][i]);
        assert p in ListOne(prefix, es[i + 1]);
      }
    }
  }

  // ---- Two siblings -------------------------------------------------------------------

  /** Texts whose beginnings differ before the first one ends keep that order. */
  lemma {:induction false} OrderBeforeEnd(a: string, b: string, u: string, v: string)
    requires Order(a, b) < 0 && !(a <= b)
    ensures Order(a + u, b + v) < 0
  {
    assert (a + u)[1..] == a[1..] + u && (b + v)[1..] == b[1..] + v;
    if a[0] == b[0] { OrderBeforeEnd(a[1..], b[1..], u, v); }
  }

  /** A path below an entry is the prefix, the name, and then nothing or a separator. */
  lemma PathTail(prefix: string, e: Named, p: string) returns (u: string)
    requires p in ListOne(prefix, e)
    ensures p == prefix + (e.name + u)
    ensures if e.node.File? then u == "" else |u| > 0 && u[0] == '/'
  {
    OneStem(prefix, e, p);
    u := p[|prefix + e.name|..];
    assert p == prefix + e.name + u;
  }

  /** Where the shorter name ends, the separator meets the longer name's next character. */
  lemma LongerNameOrder(a: string, w: string, u: string, v: string)
    requires |w| > 0 && w[0] != '/' && (u == "" || u[0] == '/')
    ensures if u != "" && w[0] < '/' then Order(a + u, (a + w) + v) > 0 else Order(a + u, (a + w) + v) < 0
  {
    assert (a + w) + v == a + (w + v);
    OrderPrefix(a, u, w + v);
    assert (w + v)[0] == w[0];
  }

  /** Names in order, with what follows them: the order can only turn where the shorter name ends. */
  lemma NameTailOrder(a: string, b: string, u: string, v: string)
    requires ProperName(a) && ProperName(b) && Order(a, b) < 0
    requires u == "" || u[0] == '/'
    ensures if u != "" && a < b && b[|a|] < '/' then Order(a + u, b + v) > 0 else Order(a + u, b + v) < 0
  {
    if a <= b {
      OrderZero(a, b);
      var w := b[|a|..];
      assert b == a + w;
      assert |w| > 0 && w[0] == b[|a|];
      assert b[|a|] in b;
      LongerNameOrder(a, w, u, v);
    } else {
      OrderBeforeEnd(a, b, u, v);
    }
  }

  /** Every path of an earlier sibling precedes every path of a later one, unless they clash. */
  lemma SiblingOrder(prefix: string, a: Named, b: Named, p: string, q: string)
    requires ProperName(a.name) && ProperName(b.name) && Order(a.name, b.name) < 0
    requires p in ListOne(prefix, a) && q in ListOne(prefix, b)
    ensures if a.node.Dir? && a.name < b.name && b.name[|a.name|] < '/' then Order(p, q) > 0 else Order(p, q) < 0
  {
    var u := PathTail(prefix, a, p);
    var v := PathTail(prefix, b, q);
    OrderPrefix(prefix, a.name + u, b.name + v);
    NameTailOrder(a.name, b.name, u, v);
  }

  ghost predicate Precede(ps: seq<string>, qs: seq<string>) {
    forall p, q :: p in ps && q in qs ==> Order(p, q) < 0
  }

  lemma SiblingsPrecede(prefix: string, a: Named, b: Named)
    requires ProperName(a.name) && ProperName(b.name) && Order(a.name, b.name) < 0
    ensures Precede(ListOne(prefix, a), ListOne(prefix, b)) <==> !Clash(a, b)
  {
    OneBears(prefix, a);
    OneBears(prefix, b);
    forall p, q | p in ListOne(prefix, a) && q in ListOne(prefix, b)
      ensures Order(p, q) < 0 <==> !Clash(a, b)
    {
      SiblingOrder(prefix, a, b, p, q);
    }
    if Clash(a, b) {
      assert ListOne(prefix, a)[0] in ListOne(prefix, a) && ListOne(prefix, b)[0] in ListOne(prefix, b);
    }
  }

  lemma AcceptedConcat(ps: seq<string>, qs: seq<string>)
    ensures Accepted(ps + qs) <==> Accepted(ps) && Accepted(qs) && Precede(ps, qs)
  {
    var all := ps + qs;
    if Accepted(all) {
      forall i, j | 0 <= i < j < |ps| ensures Order(ps[i], ps[j]) < 0 { assert all[i] == ps[i] && all[j] == ps[j]; }
      forall i, j | 0 <= i < j < |qs| ensures Order(qs[i], qs[j]) < 0 {
        assert all[|ps| + i] == qs[i] && all[|ps| + j] == qs[j];
      }
      forall p, q | p in ps && q in qs ensures Order(p, q) < 0 {
        var i :| 0 <= i < |ps| && ps[i] == p;
        var j :| 0 <= j < |qs| && qs[j] == q;
        assert all[i] == p && all[|ps| + j] == q;
      }
    }
  }

  // ---- The theorem --------------------------------------------------------------------

  lemma HeadPrecedes(prefix: string, es: seq<Named>)
    requires WellNamed(es) && es != []
    ensures Precede(ListOne(prefix, es[0]), ListAll(prefix, es[1..])) <==> forall j | 0 < j < |es| :: !Clash(es[0], es[j])
  {
    var (head, tail) := (es[0], es[1..]);
    forall j | 0 < j < |es|
      ensures Precede(ListOne(prefix, head), ListOne(prefix, es[j])) <==> !Clash(head, es[j])
    {
      SiblingsPrecede(prefix, head, es[j]);
    }
    if forall j | 0 < j < |es| :: !Clash(head, es[j]) {
      forall p, q | p in ListOne(prefix, head) && q in ListAll(prefix, tail) ensures Order(p, q) < 0 {
        ListedByOne(prefix, tail, q);
        var i :| 0 <= i < |tail| && q in ListOne(prefix, tail[i]);
        assert Precede(ListOne(prefix, head), ListOne(prefix, es[i + 1]));
      }
    }
    if Precede(ListOne(prefix, head), ListAll(prefix, tail)) {
      forall j | 0 < j < |es| ensures Precede(ListOne(prefix, head), ListOne(prefix, es[j])) {
        forall q | q in ListOne(prefix, es[j]) ensures q in ListAll(prefix, tail) {
          assert q in ListOne(prefix, tail[j - 1]);
          ListedByOne(prefix, tail, q);
        }
      }
    }
  }

  lemma CleanSplits(es: seq<Named>)
    requires es != []
    ensures Clean(es) <==>
      (forall j | 0 < j < |es| :: !Clash(es[0], es[j])) && (es[0].node.Dir? ==> Clean(es[0].node.entries)) && Clean(es[1..])
  {
    var tail := es[1..];
    if Clean(es) {
      forall i, j | 0 <= i < j < |tail| ensures !Clash(tail[i], tail[j]) { assert !Clash(es[i + 1], es[j + 1]); }
      forall i | 0 <= i < |tail| && tail[i].node.Dir? ensures Clean(tail[i].node.entries) { assert es[i + 1] == tail[i]; }
    }
    if (forall j | 0 < j < |es| :: !Clash(es[0], es[j])) && (es[0].node.Dir? ==> Clean(es[0].node.entries)) && Clean(tail) {
      forall i, j | 0 <= i < j < |es| ensures !Clash(es[i], es[j]) {
        if i > 0 { assert !Clash(tail[i - 1], tail[j - 1]); }
      }
      forall i | 0 <= i < |es| && es[i].node.Dir? ensures Clean(es[i].node.entries) {
        if i > 0 { assert tail[i - 1] == es[i]; }
      }
    }
  }

  lemma TailWellNamed(es: seq<Named>)
    requires WellNamed(es) && es != []
    ensures WellNamed(es[1..])
  {
  }

  /** The builder's listing passes the installer's sortedness check exactly when no directory
      anywhere clashes with a sibling. */
  lemma {:induction false} AcceptedExactlyWhenClean(prefix: string, es: seq<Named>)
    requires WellNamed(es)
    ensures Accepted(ListAll(prefix, es)) <==> Clean(es)
    decreases es
  {
    if es != [] {
      var head := es[0];
      if head.node.Dir? { AcceptedExactlyWhenClean(prefix + head.name + "/", head.node.entries); }
      TailWellNamed(es);
      AcceptedExactlyWhenClean(prefix, es[1..]);
      AcceptedConcat(ListOne(prefix, head), ListAll(prefix, es[1..]));
      HeadPrecedes(prefix, es);
      CleanSplits(es);
    }
  }

  // ---- The listing holds every file ---------------------------------------------------

  function Joined(path: seq<string>): string {
    if path == [] then "" else if |path| == 1 then path[0] else path[0] + "/" + Joined(path[1..])
  }

  /** Following the names leads through directories to a file. */
  ghost predicate FileAt(es: seq<Named>, path: seq<string>)
    decreases path
  {
    path != [] && exists i :: 0 <= i < |es| && es[i].name == path[0] && LeadsOn(es[i].node, path[1..])
  }

  ghost predicate LeadsOn(n: Node, rest: seq<string>)
    decreases rest
  {
    if rest == [] then n.File? else n.Dir? && exists i :: 0 <= i < |n.entries| && n.entries[i].name == rest[0] && LeadsOn(n.entries[i].node, rest[1..])
  }

  lemma LeadsOnIntoDirectory(n: Node, rest: seq<string>)
    requires rest != []
    ensures LeadsOn(n, rest) <==> n.Dir? && FileAt(n.entries, rest)
  {
  }

  ghost predicate NamesFile(prefix: string, es: seq<Named>, p: string, path: seq<string>) {
    FileAt(es, path) && p == prefix + Joined(path)
  }

  lemma {:induction false} ListedHasFile(prefix: string, es: seq<Named>, p: string) returns (path: seq<string>)
    requires p in ListAll(prefix, es)
    ensures NamesFile(prefix, es, p, path)
    decreases es
  {
    ListedByOne(prefix, es, p);
    var i :| 0 <= i < |es| && p in ListOne(prefix, es[i]);
    if es[i].node.File? {
      path := [es[i].name];
    } else {
      var inner := prefix + es[i].name + "/";
      var rest := ListedHasFile(inner, es[i].node.entries, p);
      LeadsOnIntoDirectory(es[i].node, rest);
      path := [es[i].name] + rest;
      assert path[1..] == rest && Joined(path) == es[i].name + "/" + Joined(rest);
      assert inner + Joined(rest) == prefix + (es[i].name + "/" + Joined(rest));
    }
  }

  lemma {:induction false} FileIsListed(prefix: string, es: seq<Named>, path: seq<string>)
    requires FileAt(es, path)
    ensures prefix + Joined(path) in ListAll(prefix, es)
    decreases es
  {
    var i :| 0 <= i < |es| && es[i].name == path[0] && LeadsOn(es[i].node, path[1..]);
    var p := prefix + Joined(path);
    if |path| > 1 {
      var inner := prefix + es[i].name + "/";
      LeadsOnIntoDirectory(es[i].node, path[1..]);
      FileIsListed(inner, es[i].node.entries, path[1..]);
      assert inner + Joined(path[1..]) == p;
    }
    assert p in ListOne(prefix, es[i]);
    ListedByOne(prefix, es, p);
  }

  /** The listing holds exactly the paths of the files of the tree. */
  lemma ListsExactlyTheFiles(prefix: string, es: seq<Named>, p: string)
    ensures p in ListAll(prefix, es) <==> exists path :: NamesFile(prefix, es, p, path)
  {
    if p in ListAll(prefix, es) { var path := ListedHasFile(prefix, es, p); }
    if exists path :: NamesFile(prefix, es, p, path) {
      var path :| NamesFile(prefix, es, p, path);
      FileIsListed(prefix, es, path);
    }
  }

  // ---- A bundle the installer refuses -------------------------------------------------

  function Package(name: string, file: string): Named { Named(name, Dir([Named(file, File)])) }

  function Shipped(libraries: seq<Named>): seq<Named> {
    [Named("_internal", Dir(libraries)), Named("endpoint-agent", File)]
  }

  lemma OrderExtends(a: string, w: string)
    requires w != ""
    ensures Order(a, a + w) < 0
  {
    OrderPrefix(a, "", w);
    assert a + "" == a;
  }

  lemma PackageWellNamed(name: string, file: string)
    requires ProperName(file)
    ensures WellNamed(Package(name, file).node.entries) && Bears(Package(name, file).node)
  {
    assert Bears(Package(name, file).node.entries[0].node);
  }

  lemma ShippedWellNamed(libraries: seq<Named>)
    requires WellNamed(libraries)
    ensures WellNamed(Shipped(libraries))
    ensures !Clean(libraries) ==> !Clean(Shipped(libraries))
  {
    assert Order("_internal", "endpoint-agent") < 0;
    assert Shipped(libraries)[0].node.entries == libraries;
  }

  /** Any package shipped beside its native libraries, such as `numpy` and `numpy.libs`, is listed
      in an order the installer refuses: `numpy/` is visited first, but its paths sort last. */
  lemma PackageBesideItsLibraries(name: string, file: string, library: string)
    requires ProperName(name) && ProperName(file) && ProperName(library)
    ensures var es := Shipped([Package(name, file), Package(name + ".libs", library)]);
      WellNamed(es) && !Accepted(ListAll("endpoint-agent/", es))
  {
    var (a, b) := (Package(name, file), Package(name + ".libs", library));
    PackageWellNamed(name, file);
    PackageWellNamed(name + ".libs", library);
    OrderExtends(name, ".libs");
    var libraries := [a, b];
    assert Clash(libraries[0], libraries[1]);
    ShippedWellNamed(libraries);
    AcceptedExactlyWhenClean("endpoint-agent/", Shipped(libraries));
  }
}

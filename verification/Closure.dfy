/** The installed PHP packages as the exact dependency closure of the profile: a worklist over signed package rows. */
module Closure {
  import opened Bytes

  type Name = Bytes

  /** The alternatives of one dependency; one that does not start with a package name reads as none. */
  type Relation = seq<Option<Name>>

  datatype Row = Row(package: Name, version: Bytes, architecture: Bytes, relations: seq<Relation>)

  datatype Status = InstallOk | ConfigFiles | OtherStatus

  /** An entry of the dpkg inventory, under the name dpkg lists it by. */
  datatype Entry = Entry(name: Name, version: Bytes, status: Status)

  datatype Reason = OutsideProfile | UncleanState | NoSingleRow | ProfileMissing | DependencyMissing | ExceedsClosure

  datatype Result<+T> = Ok(value: T) | Err(reason: Reason)

  /** What the qualification is about: which names are PHP packages, the application's own roots, the known aliases. */
  datatype Profile = Profile(architecture: Bytes, php: Name -> bool, direct: set<Name>, application: set<Name>, aliases: set<Name>)

  // ----- Selecting the installed PHP packages -----

  /** The name without a trailing `:architecture`. */
  function Bare(name: Name, architecture: Bytes): Name {
    var suffix := [58] + architecture;
    if |suffix| <= |name| && name[|name| - |suffix|..] == suffix then name[..|name| - |suffix|] else name
  }

  predicate StartsPhp(name: Name) {
    |name| >= 3 && name[..3] == [112, 104, 112]
  }

  predicate Supported(p: Profile, entry: Entry) {
    entry.status == ConfigFiles || !StartsPhp(entry.name) || p.php(Bare(entry.name, p.architecture)) || entry.name in p.aliases
  }

  /** The PHP entries by bare name; of two entries with one bare name the later is kept. */
  function Actual(p: Profile, installed: seq<Entry>): map<Name, Entry> {
    if installed == [] then map[] else
    var n := |installed| - 1;
    var bare := Bare(installed[n].name, p.architecture);
    var before := Actual(p, installed[..n]);
    if p.php(bare) then before[bare := installed[n]] else before
  }

  predicate Candidate(p: Profile, name: Name, entry: Entry, row: Row) {
    row.package == name && row.version == entry.version && (row.architecture == p.architecture || row.architecture == ALL)
  }

  const ALL: Bytes := [97, 108, 108]

  function Candidates(p: Profile, name: Name, entry: Entry, rows: seq<Row>): seq<Row> {
    if rows == [] then [] else
    var n := |rows| - 1;
    var before := Candidates(p, name, entry, rows[..n]);
    if Candidate(p, name, entry, rows[n]) then before + [rows[n]] else before
  }

  /** Each PHP entry is cleanly installed and is exactly one signed row. */
  predicate Matched(p: Profile, name: Name, entry: Entry, rows: seq<Row>) {
    entry.status == InstallOk && |Candidates(p, name, entry, rows)| == 1
  }

  predicate AllMatched(p: Profile, actual: map<Name, Entry>, rows: seq<Row>) {
    forall name :: name in actual ==> Matched(p, name, actual[name], rows)
  }

  predicate Selectable(p: Profile, installed: seq<Entry>, rows: seq<Row>) {
    && (forall i :: 0 <= i < |installed| ==> Supported(p, installed[i]))
    && AllMatched(p, Actual(p, installed), rows)
  }

  function Selected(p: Profile, installed: seq<Entry>, rows: seq<Row>): map<Name, Row>
    requires Selectable(p, installed, rows)
  {
    var actual := Actual(p, installed);
    map name | name in actual :: Candidates(p, name, actual[name], rows)[0]
  }

  // ----- The dependency graph -----

  datatype Graph = Graph(selected: map<Name, Row>, present: set<Name>, php: Name -> bool, roots: set<Name>)

  /** The first alternative that is a selected package. */
  function FirstSelected(g: Graph, relation: Relation): (r: Option<Name>)
    ensures r.Some? ==> r.value in g.selected && r in relation
  {
    if relation == [] then None
    else if relation[0].Some? && relation[0].value in g.selected then relation[0]
    else FirstSelected(g, relation[1..])
  }

  /** A PHP dependency none of whose alternatives is there. */
  predicate Missing(g: Graph, relation: Relation) {
    && (exists i :: 0 <= i < |relation| && relation[i].Some? && g.php(relation[i].value))
    && FirstSelected(g, relation).None?
    && forall i :: 0 <= i < |relation| && relation[i].Some? ==> relation[i].value !in g.present
  }

  predicate Edge(g: Graph, from: Name, to: Name) {
    from in g.selected && exists i :: 0 <= i < |g.selected[from].relations| && FirstSelected(g, g.selected[from].relations[i]) == Some(to)
  }

  predicate Broken(g: Graph, name: Name) {
    name in g.selected && exists i :: 0 <= i < |g.selected[name].relations| && Missing(g, g.selected[name].relations[i])
  }

  /** A set with the roots that no edge leaves. */
  ghost predicate Inductive(g: Graph, s: set<Name>) {
    g.roots <= s && forall from, to :: from in s && Edge(g, from, to) ==> to in s
  }

  /** A member of the least such set. */
  ghost predicate Needed(g: Graph, name: Name) {
    forall s :: Inductive(g, s) ==> name in s
  }

  // ----- The least set is what can be reached -----

  ghost predicate Path(g: Graph, path: seq<Name>) {
    path != [] && path[0] in g.roots && forall i :: 0 < i < |path| ==> Edge(g, path[i - 1], path[i])
  }

  ghost predicate Reachable(g: Graph, name: Name) {
    exists path :: Path(g, path) && path[|path| - 1] == name
  }

  lemma {:induction false} PathStays(g: Graph, path: seq<Name>, s: set<Name>)
    requires Path(g, path) && Inductive(g, s)
    ensures path[|path| - 1] in s
  {
    var n := |path| - 1;
    if n == 0 {
    } else {
      PathStays(g, path[..n], s);
      assert path[..n][n - 1] == path[n - 1];
      assert Edge(g, path[n - 1], path[n]);
    }
  }

  lemma EdgeReaches(g: Graph, from: Name, to: Name)
    requires Reachable(g, from) && Edge(g, from, to)
    ensures Reachable(g, to)
  {
    var path :| Path(g, path) && path[|path| - 1] == from;
    var longer := path + [to];
    assert Path(g, longer) && longer[|longer| - 1] == to;
  }

  /** The least closed set is the set of packages on a path of dependency edges from a root. */
  lemma NeededIffReachable(g: Graph, name: Name)
    requires g.roots <= g.selected.Keys
    ensures Needed(g, name) <==> Reachable(g, name)
  {
    if Reachable(g, name) {
      var path :| Path(g, path) && path[|path| - 1] == name;
      forall s | Inductive(g, s) ensures name in s { PathStays(g, path, s); }
    }
    var s := set n | n in g.selected && Reachable(g, n);
    forall n | n in g.roots ensures n in s {
      assert Path(g, [n]) && [n][|[n]| - 1] == n;
    }
    forall from, to | from in s && Edge(g, from, to) ensures to in s {
      EdgeReaches(g, from, to);
    }
    assert Inductive(g, s);
  }

  // ----- The worklist -----

  /** A package whose dependencies have been followed. */
  ghost predicate Followed(g: Graph, name: Name, reached: set<Name>) {
    !Broken(g, name) && forall to :: Edge(g, name, to) ==> to in reached
  }

  ghost predicate Sound(g: Graph, reached: set<Name>) {
    reached <= g.selected.Keys && forall name :: name in reached ==> Needed(g, name)
  }

  lemma EdgeNeeded(g: Graph, from: Name, to: Name)
    requires Needed(g, from) && Edge(g, from, to)
    ensures Needed(g, to)
  {
  }

  /** One popped package: each relation is checked, and its first selected alternative is queued if it is new. */
  method Follow(g: Graph, name: Name, reached: set<Name>) returns (ok: bool, wider: set<Name>, added: seq<Name>)
    requires name in reached && Sound(g, reached)
    ensures ok <==> !Broken(g, name)
    ensures Sound(g, wider)
    ensures forall n :: n in wider <==> n in reached || n in added
    ensures ok ==> Followed(g, name, wider)
    ensures added != [] ==> added[0] !in reached
  {
    wider, added := reached, [];
    var relations := g.selected[name].relations;
    for i := 0 to |relations|
      invariant Sound(g, wider)
      invariant forall n :: n in wider <==> n in reached || n in added
      invariant added != [] ==> added[0] !in reached
      invariant forall j :: 0 <= j < i ==> !Missing(g, relations[j])
      invariant forall j :: 0 <= j < i ==> FirstSelected(g, relations[j]).Some? ==> FirstSelected(g, relations[j]).value in wider
    {
      if Missing(g, relations[i]) {
        return false, wider, added;
      }
      var next := FirstSelected(g, relations[i]);
      if next.Some? && next.value !in wider {
        assert Edge(g, name, next.value);
        EdgeNeeded(g, name, next.value);
        wider, added := wider + {next.value}, added + [next.value];
      }
    }
    ok := true;
  }

  /** Every reached package is either waiting in the queue or followed. */
  ghost predicate Working(g: Graph, reached: set<Name>, queue: seq<Name>) {
    && Sound(g, reached) && g.roots <= reached
    && (forall n :: n in queue ==> n in reached)
    && (forall n :: n in reached && n !in queue ==> Followed(g, n, reached))
  }

  /** Following `name` keeps the worklist invariant. */
  lemma FollowKeeps(g: Graph, queue: seq<Name>, k: nat, reached: set<Name>, wider: set<Name>, added: seq<Name>)
    requires Working(g, reached, queue) && k < |queue| && Sound(g, wider) && Followed(g, queue[k], wider)
    requires forall n :: n in wider <==> n in reached || n in added
    ensures Working(g, wider, queue[..k] + queue[k + 1..] + added)
  {
  }

  /** Whatever package is popped next, the loop ends with the least closed set, or at a needed package that is broken. */
  method Explore(g: Graph, pick: seq<Name> -> nat, start: seq<Name>) returns (ok: bool, reached: set<Name>)
    requires g.roots <= g.selected.Keys && forall n :: n in start <==> n in g.roots
    ensures ok ==> Inductive(g, reached) && forall name :: name in reached <==> Needed(g, name)
    ensures ok <==> forall name :: Needed(g, name) ==> !Broken(g, name)
  {
    reached := g.roots;
    var queue := start;
    while queue != []
      invariant Working(g, reached, queue)
      decreases |g.selected.Keys - reached|, |queue|
    {
      var k := pick(queue) % |queue|;
      var wider, added;
      ok, wider, added := Follow(g, queue[k], reached);
      if !ok {
        assert Needed(g, queue[k]);
        return;
      }
      FollowKeeps(g, queue, k, reached, wider, added);
      if added != [] {
        assert added[0] in wider && added[0] in g.selected;
        Smaller(g.selected.Keys - wider, g.selected.Keys - reached);
      } else {
        assert wider == reached;
      }
      reached, queue := wider, queue[..k] + queue[k + 1..] + added;
    }
    assert Inductive(g, reached);
    ok := true;
  }

  lemma {:induction false} Smaller(a: set<Name>, b: set<Name>)
    requires a < b
    ensures |a| < |b|
  {
    assert |b - a| > 0;
    assert b == a + (b - a);
  }

  // ----- The whole function -----

  lemma {:induction false} CandidatesMatch(p: Profile, name: Name, entry: Entry, rows: seq<Row>)
    ensures forall i :: 0 <= i < |Candidates(p, name, entry, rows)| ==>
      Candidate(p, name, entry, Candidates(p, name, entry, rows)[i]) && Candidates(p, name, entry, rows)[i] in rows
  {
    if rows == [] {
    } else {
      CandidatesMatch(p, name, entry, rows[..|rows| - 1]);
    }
  }

  /** The PHP entries of the inventory, none of another kind being installed. */
  method PhpEntries(p: Profile, installed: seq<Entry>) returns (ok: bool, actual: map<Name, Entry>)
    ensures ok <==> forall i :: 0 <= i < |installed| ==> Supported(p, installed[i])
    ensures ok ==> actual == Actual(p, installed)
  {
    actual := map[];
    for i := 0 to |installed|
      invariant forall j :: 0 <= j < i ==> Supported(p, installed[j])
      invariant actual == Actual(p, installed[..i])
    {
      if !Supported(p, installed[i]) {
        return false, actual;
      }
      assert installed[..i + 1][..i] == installed[..i];
      var bare := Bare(installed[i].name, p.architecture);
      if p.php(bare) {
        actual := actual[bare := installed[i]];
      }
    }
    assert installed[..|installed|] == installed;
    ok := true;
  }

  /** The signed row of each entry. */
  method MatchRows(p: Profile, actual: map<Name, Entry>, rows: seq<Row>) returns (r: Result<map<Name, Row>>)
    ensures r.Ok? <==> AllMatched(p, actual, rows)
    ensures r.Ok? ==> r.value == map name | name in actual :: Candidates(p, name, actual[name], rows)[0]
  {
    var todo, selected: map<Name, Row> := actual.Keys, map[];
    while todo != {}
      invariant todo <= actual.Keys && selected.Keys == actual.Keys - todo
      invariant forall name :: name in selected ==>
        Matched(p, name, actual[name], rows) && selected[name] == Candidates(p, name, actual[name], rows)[0]
    {
      var name :| name in todo;
      var candidates := Candidates(p, name, actual[name], rows);
      assert Matched(p, name, actual[name], rows) <==> actual[name].status == InstallOk && |candidates| == 1;
      if actual[name].status != InstallOk {
        return Err(UncleanState);
      }
      if |candidates| != 1 {
        return Err(NoSingleRow);
      }
      todo, selected := todo - {name}, selected[name := candidates[0]];
    }
    assert selected.Keys == actual.Keys;
    return Ok(selected);
  }

  /** Selects the signed row of each installed PHP package. */
  method Select(p: Profile, installed: seq<Entry>, rows: seq<Row>) returns (r: Result<map<Name, Row>>)
    ensures r.Ok? <==> Selectable(p, installed, rows)
    ensures r.Ok? ==> r.value == Selected(p, installed, rows)
  {
    var ok, actual := PhpEntries(p, installed);
    if !ok {
      return Err(OutsideProfile);
    }
    r := MatchRows(p, actual, rows);
  }

  /** The members of a set, in some order. */
  method Listing(names: set<Name>) returns (list: seq<Name>)
    ensures multiset(list) == multiset(names)
  {
    list := [];
    var todo := names;
    while todo != {}
      invariant todo <= names && multiset(list) == multiset(names - todo)
    {
      var name :| name in todo;
      assert names - (todo - {name}) == (names - todo) + {name};
      list, todo := list + [name], todo - {name};
    }
    assert names - {} == names;
  }

  function GraphOf(p: Profile, installed: seq<Entry>, selected: map<Name, Row>): Graph {
    Graph(selected, set entry | entry in installed :: entry.name, p.php, p.direct + (selected.Keys * p.application))
  }

  /** The conditions under which the installed packages are accepted. */
  ghost predicate Accepts(p: Profile, installed: seq<Entry>, rows: seq<Row>) {
    && Selectable(p, installed, rows)
    && var selected := Selected(p, installed, rows);
       var g := GraphOf(p, installed, selected);
       && p.direct <= selected.Keys
       && (forall name :: Needed(g, name) ==> !Broken(g, name))
       && (forall name :: name in selected ==> Needed(g, name))
  }

  function Names(list: seq<Row>): seq<Name> {
    seq(|list|, i requires 0 <= i < |list| => list[i].package)
  }

  /**
   * The signed rows of the installed PHP packages are returned, in the order of their names, exactly when those
   * packages are the least closed set of the roots and lack no PHP dependency; the pop order does not matter.
   */
  method InstalledClosure(p: Profile, installed: seq<Entry>, rows: seq<Row>, pick: seq<Name> -> nat) returns (r: Result<seq<Row>>)
    ensures r.Ok? <==> Accepts(p, installed, rows)
    ensures r.Ok? ==> SortedStrings(Names(r.value)) && multiset(Names(r.value)) == multiset(Selected(p, installed, rows).Keys)
    ensures r.Ok? ==> forall i :: 0 <= i < |r.value| ==> r.value[i] in rows
  {
    var selection := Select(p, installed, rows);
    if selection.Err? {
      return Err(selection.reason);
    }
    var selected := selection.value;
    if !(p.direct <= selected.Keys) {
      return Err(ProfileMissing);
    }
    var g := GraphOf(p, installed, selected);
    var start := Listing(g.roots);
    assert forall n :: n in start <==> n in multiset(start);
    var ok, reached := Explore(g, pick, start);
    if !ok {
      return Err(DependencyMissing);
    }
    if reached != selected.Keys {
      NotAll(g, reached);
      return Err(ExceedsClosure);
    }
    var names := Listing(selected.Keys);
    names := SortStrings(names);
    var list := RowsInOrder(p, installed, rows, names);
    return Ok(list);
  }

  lemma NotAll(g: Graph, reached: set<Name>)
    requires Inductive(g, reached) && reached != g.selected.Keys && g.roots <= g.selected.Keys
    requires forall name :: name in reached <==> Needed(g, name)
    ensures exists name :: name in g.selected && !Needed(g, name)
  {
  }

  method RowsInOrder(p: Profile, installed: seq<Entry>, rows: seq<Row>, names: seq<Name>) returns (list: seq<Row>)
    requires Selectable(p, installed, rows) && multiset(names) == multiset(Selected(p, installed, rows).Keys)
    ensures Names(list) == names && forall i :: 0 <= i < |list| ==> list[i] in rows
  {
    var selected := Selected(p, installed, rows);
    list := [];
    for k := 0 to |names|
      invariant |list| == k && forall i :: 0 <= i < k ==> list[i] in rows && list[i].package == names[i]
    {
      assert names[k] in multiset(names);
      CandidatesMatch(p, names[k], Actual(p, installed)[names[k]], rows);
      list := list + [selected[names[k]]];
    }
  }
}

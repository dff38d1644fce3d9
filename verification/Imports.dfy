/** The import walk of tools/cxpr_model_codegen.c, over a file system given as a finite map. */
module Imports {
  import opened Common

  /** A readable file: its `use` names, or none when it does not parse, and its function definitions. */
  datatype File = File(uses: Option<seq<string>>, functions: string, source: string)

  /** The readable files and the optional import directory. */
  datatype Disk = Disk(files: map<string, File>, importDir: Option<string>)

  // ----- paths -----

  /** Position after the last slash, or zero. */
  function AfterSlash(path: string): (n: nat)
    ensures n <= |path| && (n > 0 ==> path[n - 1] == '/')
    ensures forall k | n <= k < |path| :: path[k] != '/'
  {
    if path == [] then 0
    else if path[|path| - 1] == '/' then |path|
    else AfterSlash(path[..|path| - 1])
  }

  function Dirname(path: string): string {
    var n := AfterSlash(path);
    if n == 0 then "." else if n == 1 then "/" else path[..n - 1]
  }

  function JoinPath(dir: string, name: string): string {
    var suffixed := |name| > 5 && name[|name| - 5..] == ".cxpr";
    dir + (if |dir| > 0 && dir[|dir| - 1] != '/' then "/" else "") + name + (if suffixed then "" else ".cxpr")
  }

  /** Next to the importer if it is there, else in the import directory if it is there. */
  function Resolve(disk: Disk, dir: string, name: string): string {
    var near := JoinPath(dir, name);
    if near in disk.files then near
    else if disk.importDir.Some? && JoinPath(disk.importDir.value, name) in disk.files
    then JoinPath(disk.importDir.value, name)
    else near
  }

  // ----- the import graph -----

  /** The paths a file imports, in order. */
  function Imported(disk: Disk, path: string, file: File): (qs: seq<string>)
    ensures file.uses.Some? ==> |qs| == |file.uses.value|
  {
    if file.uses.None? then []
    else
      var uses := file.uses.value;
      seq(|uses|, i requires 0 <= i < |uses| => Resolve(disk, Dirname(path), uses[i]))
  }

  predicate Good(disk: Disk, q: string) {
    q in disk.files && disk.files[q].uses.Some?
  }

  predicate Edge(disk: Disk, a: string, b: string) {
    a in disk.files && b in Imported(disk, a, disk.files[a])
  }

  ghost predicate Trail(disk: Disk, t: seq<string>) {
    |t| > 0 && forall k | 0 <= k < |t| - 1 :: Edge(disk, t[k], t[k + 1])
  }

  /** `a` is `b`, or imports it through some chain of files. */
  ghost predicate Reaches(disk: Disk, a: string, b: string) {
    exists t :: Trail(disk, t) && t[0] == a && t[|t| - 1] == b
  }

  /** Reached from the root by at least one import. */
  ghost predicate Reached(disk: Disk, start: seq<string>, q: string) {
    exists s :: s in start && Reaches(disk, s, q)
  }

  lemma ReachesSelf(disk: Disk, a: string)
    ensures Reaches(disk, a, a)
  {
    assert Trail(disk, [a]);
  }

  lemma ReachesOneMore(disk: Disk, a: string, b: string, c: string)
    requires Reaches(disk, a, b) && Edge(disk, b, c)
    ensures Reaches(disk, a, c)
  {
    var t :| Trail(disk, t) && t[0] == a && t[|t| - 1] == b;
    TrailOneMore(disk, t, c);
    assert (t + [c])[0] == a && (t + [c])[|t|] == c;
  }

  lemma TrailOneMore(disk: Disk, t: seq<string>, c: string)
    requires Trail(disk, t) && Edge(disk, t[|t| - 1], c)
    ensures Trail(disk, t + [c])
  {
    var longer := t + [c];
    forall k | 0 <= k < |longer| - 1 ensures Edge(disk, longer[k], longer[k + 1]) {
      assert longer[k] == t[k] && (k + 1 < |t| ==> longer[k + 1] == t[k + 1]);
    }
  }

  lemma ReachedOneMore(disk: Disk, start: seq<string>, b: string, c: string)
    requires Reached(disk, start, b) && Edge(disk, b, c)
    ensures Reached(disk, start, c)
  {
    var s :| s in start && Reaches(disk, s, b);
    ReachesOneMore(disk, s, b, c);
  }

  /** A set closed under imports holds everything its members reach. */
  lemma {:induction false} ClosedReach(disk: Disk, xs: seq<string>, t: seq<string>)
    requires Trail(disk, t) && t[0] in xs
    requires forall x, y | x in xs && Edge(disk, x, y) :: y in xs
    ensures t[|t| - 1] in xs
    decreases |t|
  {
    if |t| > 1 {
      var n := |t| - 1;
      assert t[..n][n - 1] == t[n - 1];
      ClosedReach(disk, xs, t[..n]);
      assert Edge(disk, t[n - 1], t[n - 1 + 1]);
    }
  }

  // ----- the walk -----

  /** What the emitted files look like in the output. */
  function Text(disk: Disk, order: seq<string>): string {
    if order == [] then ""
    else
      var q := order[|order| - 1];
      Text(disk, order[..|order| - 1]) + (if q in disk.files then disk.files[q].functions + "\n" else "")
  }

  ghost predicate Before(order: seq<string>, b: string, i: nat) {
    exists k :: 0 <= k < i && k < |order| && order[k] == b
  }

  /** What an emitted file imports was emitted earlier, unless it imports the emitted file in turn. */
  ghost predicate WellOrdered(disk: Disk, order: seq<string>) {
    forall i, b | 0 <= i < |order| && Edge(disk, order[i], b) :: Before(order, b, i) || Reaches(disk, b, order[i])
  }

  ghost predicate Within(xs: seq<string>, ys: seq<string>) {
    forall x | x in xs :: x in ys
  }

  lemma WithinChain(xs: seq<string>, ys: seq<string>, zs: seq<string>)
    requires Within(xs, ys) && Within(ys, zs)
    ensures Within(xs, zs)
  {
  }

  lemma WithinOneMore(qs: seq<string>, i: nat, visited: seq<string>, more: seq<string>)
    requires i < |qs| && Within(qs[..i], visited) && Within(visited, more) && qs[i] in more
    ensures Within(qs[..i + 1], more)
  {
    assert qs[..i + 1] == qs[..i] + [qs[i]];
  }

  /** The walk's bookkeeping: finished files, and the files being expanded. */
  ghost predicate Walking(disk: Disk, start: seq<string>, visited: seq<string>, order: seq<string>,
                          stack: seq<string>) {
    && Distinct(visited) && Distinct(order) && WellOrdered(disk, order)
    && (forall x :: x in visited <==> x in order || x in stack)
    && (forall x | x in stack :: x !in order)
    && (forall x | x in order :: Good(disk, x))
    && (forall x, y | x in order && Edge(disk, x, y) :: y in visited)
    && (forall x | x in visited :: Reached(disk, start, x))
  }

  /** Everything being expanded leads to `path`. */
  ghost predicate LeadsTo(disk: Disk, stack: seq<string>, path: string) {
    forall x | x in stack :: Reaches(disk, x, path)
  }

  lemma Visit(disk: Disk, start: seq<string>, visited: seq<string>, order: seq<string>, stack: seq<string>, q: string)
    requires Walking(disk, start, visited, order, stack) && q !in visited && Reached(disk, start, q)
    ensures Walking(disk, start, visited + [q], order, stack + [q])
  {
  }

  lemma EmitKeepsOrder(disk: Disk, order: seq<string>, q: string)
    requires WellOrdered(disk, order)
    requires forall b | Edge(disk, q, b) :: b in order || Reaches(disk, b, q)
    ensures WellOrdered(disk, order + [q])
  {
    var order' := order + [q];
    forall i, b | 0 <= i < |order'| && Edge(disk, order'[i], b)
      ensures Before(order', b, i) || Reaches(disk, b, order'[i])
    {
      if i < |order| {
        assert order'[i] == order[i];
        if Before(order, b, i) {
          var k :| 0 <= k < i && k < |order| && order[k] == b;
          assert order'[k] == b;
        }
      } else if b in order {
        var k :| 0 <= k < |order| && order[k] == b;
        assert order'[k] == b;
      }
    }
  }

  lemma Emit(disk: Disk, start: seq<string>, visited: seq<string>, order: seq<string>, stack: seq<string>, q: string)
    requires Walking(disk, start, visited, order, stack + [q]) && Good(disk, q) && q !in stack
    requires LeadsTo(disk, stack + [q], q)
    requires forall b | Edge(disk, q, b) :: b in visited
    ensures Walking(disk, start, visited, order + [q], stack)
  {
    assert q in stack + [q];
    EmitKeepsOrder(disk, order, q);
  }

  /** A file the walk cannot use. */
  ghost predicate Blocked(disk: Disk, start: seq<string>) {
    exists q :: Reached(disk, start, q) && !Good(disk, q)
  }

  ghost function Unvisited(disk: Disk, visited: seq<string>): set<string> {
    set x | x in disk.files && x !in visited
  }

  lemma VisitShrinks(disk: Disk, visited: seq<string>, more: seq<string>, q: string)
    requires q in disk.files && q !in visited && q in more && Within(visited, more)
    ensures |Unvisited(disk, more)| < |Unvisited(disk, visited)|
  {
    assert Unvisited(disk, more) <= Unvisited(disk, visited) - {q};
    CardinalityMonotone(Unvisited(disk, more), Unvisited(disk, visited) - {q});
  }

  lemma FewerUnvisited(disk: Disk, visited: seq<string>, more: seq<string>)
    requires Within(visited, more)
    ensures |Unvisited(disk, more)| <= |Unvisited(disk, visited)|
  {
    CardinalityMonotone(Unvisited(disk, more), Unvisited(disk, visited));
  }

  lemma TextGrows(disk: Disk, order: seq<string>, q: string)
    requires q in disk.files
    ensures Text(disk, order + [q]) == Text(disk, order) + disk.files[q].functions + "\n"
  {
    assert (order + [q])[..|order|] == order;
    assert Text(disk, order) + (disk.files[q].functions + "\n") == Text(disk, order) + disk.files[q].functions + "\n";
  }

  // ----- the walk as a function -----

  /** The files visited and emitted so far, and whether every file could be used. */
  datatype Progress = Progress(visited: seq<string>, order: seq<string>, ok: bool)

  /** Expand some files one after the other, depth first; the first that cannot be used ends the walk. */
  ghost function VisitAll(disk: Disk, qs: seq<string>, s: Progress): (r: Progress)
    ensures Within(s.visited, r.visited)
    decreases |Unvisited(disk, s.visited)|, 1, |qs|
  {
    if qs == [] || !s.ok then s
    else
      var next := VisitOne(disk, qs[0], s);
      FewerUnvisited(disk, s.visited, next.visited);
      VisitAll(disk, qs[1..], next)
  }

  /** A file is emitted after all that it imports, and only at its first visit. */
  ghost function VisitOne(disk: Disk, q: string, s: Progress): (r: Progress)
    ensures Within(s.visited, r.visited)
    decreases |Unvisited(disk, s.visited)|, 0, 0
  {
    if q in s.visited then s
    else
      var visited := s.visited + [q];
      if !Good(disk, q) then Progress(visited, s.order, false)
      else
        VisitShrinks(disk, s.visited, visited, q);
        var r := VisitAll(disk, Imported(disk, q, disk.files[q]), Progress(visited, s.order, true));
        if r.ok then r.(order := r.order + [q]) else r
  }

  ghost function Walked(disk: Disk, path: string, file: File): Progress {
    if file.uses.None? then Progress([], [], false)
    else VisitAll(disk, Imported(disk, path, file), Progress([], [], true))
  }

  class Walk {
    const disk: Disk
    var visited: seq<string>
    var out: string
    ghost var order: seq<string>

    constructor (disk: Disk)
      ensures this.disk == disk && visited == [] && out == "" && order == []
    {
      this.disk := disk;
      visited, out, order := [], "", [];
    }

    /** `collect_import_functions` */
    method Collect(path: string, file: File, ghost start: seq<string>, ghost stack: seq<string>) returns (ok: bool)
      requires Walking(disk, start, visited, order, stack) && LeadsTo(disk, stack, path)
      requires forall q | q in Imported(disk, path, file) :: Reached(disk, start, q)
      requires stack != [] ==> path in disk.files && file == disk.files[path]
      requires out == Text(disk, order)
      modifies this
      ensures Within(old(visited), visited)
      ensures ok ==> file.uses.Some? && Walking(disk, start, visited, order, stack) && out == Text(disk, order)
      ensures ok ==> Within(Imported(disk, path, file), visited)
      ensures !ok ==> file.uses.None? || Blocked(disk, start)
      ensures file.uses.None? ==> !ok && visited == old(visited) && order == old(order)
      ensures file.uses.Some? ==>
                Progress(visited, order, ok)
                == VisitAll(disk, Imported(disk, path, file), Progress(old(visited), old(order), true))
      decreases |Unvisited(disk, visited)|, 1
    {
      if file.uses.None? {
        return false;
      }
      var uses := file.uses.value;
      ghost var qs := Imported(disk, path, file);
      ghost var all := VisitAll(disk, qs, Progress(visited, order, true));
      assert qs[0..] == qs;
      for i := 0 to |uses|
        invariant all == VisitAll(disk, qs[i..], Progress(visited, order, true))
        invariant Within(old(visited), visited) && Within(qs[..i], visited)
        invariant Walking(disk, start, visited, order, stack) && out == Text(disk, order)
      {
        ghost var before := visited;
        FewerUnvisited(disk, old(visited), visited);
        assert qs[i] in qs && qs[i..][0] == qs[i] && qs[i..][1..] == qs[i + 1..];
        ok := CollectOne(Resolve(disk, Dirname(path), uses[i]), path, start, stack);
        if !ok {
          return;
        }
        WithinOneMore(qs, i, before, visited);
        WithinChain(old(visited), before, visited);
      }
      assert qs[..|uses|] == qs && qs[|uses|..] == [];
      ok := true;
    }

    /** One import: skip it if it was visited, else expand it and then append its functions. */
    method CollectOne(q: string, ghost path: string, ghost start: seq<string>,
                      ghost stack: seq<string>) returns (ok: bool)
      requires Walking(disk, start, visited, order, stack) && out == Text(disk, order)
      requires LeadsTo(disk, stack, path) && Reached(disk, start, q) && (stack != [] ==> Edge(disk, path, q))
      modifies this
      ensures Within(old(visited), visited)
      ensures ok ==> Walking(disk, start, visited, order, stack) && out == Text(disk, order) && q in visited
      ensures !ok ==> Blocked(disk, start)
      ensures Progress(visited, order, ok) == VisitOne(disk, q, Progress(old(visited), old(order), true))
      decreases |Unvisited(disk, visited)|, 0
    {
      if q in visited {
        return true;
      }
      Visit(disk, start, visited, order, stack, q);
      visited := visited + [q];
      if q !in disk.files {
        return false;
      }
      var file := disk.files[q];
      VisitShrinks(disk, old(visited), visited, q);
      NowLeads(disk, stack, path, q);
      forall b | b in Imported(disk, q, file) ensures Reached(disk, start, b) {
        ReachedOneMore(disk, start, q, b);
      }
      ok := Collect(q, file, start, stack + [q]);
      if !ok {
        return;
      }
      Emit(disk, start, visited, order, stack, q);
      TextGrows(disk, order, q);
      out := out + file.functions + "\n";
      order := order + [q];
    }
  }

  lemma NowLeads(disk: Disk, stack: seq<string>, path: string, q: string)
    requires LeadsTo(disk, stack, path) && (stack != [] ==> Edge(disk, path, q))
    ensures LeadsTo(disk, stack + [q], q)
  {
    ReachesSelf(disk, q);
    forall x | x in stack ensures Reaches(disk, x, q) {
      ReachesOneMore(disk, x, path, q);
    }
  }

  /** The files a successful walk emits, in order. */
  ghost predicate IsImportOrder(disk: Disk, start: seq<string>, order: seq<string>) {
    && Distinct(order)
    && (forall q :: q in order <==> Reached(disk, start, q))
    && (forall a, b | a in order && Edge(disk, a, b) && !Reaches(disk, b, a) ::
          exists i, k :: 0 <= k < i < |order| && order[k] == b && order[i] == a)
  }

  lemma FinishedWalk(disk: Disk, start: seq<string>, visited: seq<string>, order: seq<string>)
    requires Walking(disk, start, visited, order, []) && Within(start, visited)
    ensures IsImportOrder(disk, start, order) && !Blocked(disk, start)
  {
    forall q | Reached(disk, start, q) ensures q in order {
      var s :| s in start && Reaches(disk, s, q);
      var t :| Trail(disk, t) && t[0] == s && t[|t| - 1] == q;
      ClosedReach(disk, order, t);
    }
    forall a, b | a in order && Edge(disk, a, b) && !Reaches(disk, b, a)
      ensures exists i, k :: 0 <= k < i < |order| && order[k] == b && order[i] == a
    {
      var i :| 0 <= i < |order| && order[i] == a;
      assert Before(order, b, i);
    }
  }

  /** `build_source_with_imports` */
  method BuildSource(disk: Disk, path: string, file: File) returns (result: Option<string>, ghost order: seq<string>)
    ensures result.Some? <==>
              file.uses.Some? && forall q | Reached(disk, Imported(disk, path, file), q) :: Good(disk, q)
    ensures result.Some? ==> IsImportOrder(disk, Imported(disk, path, file), order)
    ensures result.Some? ==> result.value == Text(disk, order) + file.source
    ensures result.Some? <==> Walked(disk, path, file).ok
    ensures result.Some? ==> order == Walked(disk, path, file).order
  {
    var walk := new Walk(disk);
    ghost var start := Imported(disk, path, file);
    forall q | q in start ensures Reached(disk, start, q) {
      ReachesSelf(disk, q);
    }
    var ok := walk.Collect(path, file, start, []);
    order := walk.order;
    if !ok {
      return None, order;
    }
    FinishedWalk(disk, start, walk.visited, walk.order);
    result := Some(walk.out + file.source);
  }
}

/** Where the import walk looks for a file, and when the import directory matters. */
module ImportPaths {
  import opened Common
  import opened Imports

  // ----- paths -----

  ghost predicate NoSlash(s: string) { forall k | 0 <= k < |s| :: s[k] != '/' }

  /** A directory name that a slash can follow. */
  predicate IsDir(dir: string) { dir != "" && dir[|dir| - 1] != '/' }

  predicate Suffixed(name: string) { |name| > 5 && name[|name| - 5..] == ".cxpr" }

  lemma {:induction false} AfterLastSlash(front: string, base: string)
    requires NoSlash(base) && (front == "" || front[|front| - 1] == '/')
    ensures AfterSlash(front + base) == |front|
    decreases |base|
  {
    var path := front + base;
    if base == "" {
      assert path == front;
    } else {
      var less := base[..|base| - 1];
      assert path[..|path| - 1] == front + less && path[|path| - 1] == base[|base| - 1];
      AfterLastSlash(front, less);
    }
  }

  /** The directory of a path: what stands before the last slash, `/` for the root, `.` without a slash. */
  lemma DirnameOf(dir: string, base: string)
    requires NoSlash(base)
    ensures Dirname(base) == "."
    ensures Dirname("/" + base) == "/"
    ensures dir != "" ==> Dirname(dir + "/" + base) == dir
  {
    assert "" + base == base;
    AfterLastSlash("", base);
    AfterLastSlash("/", base);
    if dir != "" {
      AfterLastSlash(dir + "/", base);
      assert (dir + "/" + base)[..|dir|] == dir;
    }
  }

  /** A name is looked up below the directory, with the suffix added unless it is there. */
  lemma JoinedPath(dir: string, name: string)
    ensures IsDir(dir) ==> JoinPath(dir, name) == dir + "/" + name + (if Suffixed(name) then "" else ".cxpr")
    ensures !IsDir(dir) ==> JoinPath(dir, name) == dir + name + (if Suffixed(name) then "" else ".cxpr")
    ensures JoinPath(dir, name + ".cxpr") == JoinPath(dir, name) || Suffixed(name) || name == ""
  {
    if name != "" && !Suffixed(name) {
      var long, front := name + ".cxpr", dir + (if IsDir(dir) then "/" else "");
      assert long[|long| - 5..] == ".cxpr";
      assert front + long + "" == front + name + ".cxpr";
    }
  }

  /** A file found in a directory looks there for its own imports. */
  lemma DirectoryOfImport(dir: string, name: string)
    requires IsDir(dir) && NoSlash(name)
    ensures Dirname(JoinPath(dir, name)) == dir
  {
    var base := name + (if Suffixed(name) then "" else ".cxpr");
    JoinedPath(dir, name);
    assert JoinPath(dir, name) == dir + "/" + base;
    DirnameOf(dir, base);
  }

  // ----- beside the importer, or in the import directory -----

  /** Every use of a file exists beside it. */
  predicate Beside(disk: Disk, path: string, file: File) {
    file.uses.Some? ==>
      forall i | 0 <= i < |file.uses.value| :: JoinPath(Dirname(path), file.uses.value[i]) in disk.files
  }

  function NoDirectory(disk: Disk): Disk { disk.(importDir := None) }

  /** A use that exists beside its importer is that file, whatever the import directory holds. */
  lemma NearWins(disk: Disk, dir: string, name: string)
    requires JoinPath(dir, name) in disk.files
    ensures Resolve(disk, dir, name) == JoinPath(dir, name)
  {
  }

  /** A use that does not is readable if and only if the import directory has it, and then is that file. */
  lemma FarServes(disk: Disk, dir: string, name: string)
    requires JoinPath(dir, name) !in disk.files
    ensures Resolve(disk, dir, name) in disk.files
            <==> disk.importDir.Some? && JoinPath(disk.importDir.value, name) in disk.files
    ensures Resolve(disk, dir, name) in disk.files
            ==> disk.importDir.Some? && Resolve(disk, dir, name) == JoinPath(disk.importDir.value, name)
    ensures Resolve(disk, dir, name) !in disk.files ==> Resolve(disk, dir, name) == JoinPath(dir, name)
  {
  }

  lemma BesideImports(disk: Disk, path: string, file: File)
    requires Beside(disk, path, file)
    ensures Imported(disk, path, file) == Imported(NoDirectory(disk), path, file)
    ensures file.uses.Some? ==>
              forall i | 0 <= i < |file.uses.value| ::
                Imported(disk, path, file)[i] == JoinPath(Dirname(path), file.uses.value[i])
  {
    if file.uses.Some? {
      forall i | 0 <= i < |file.uses.value|
        ensures Imported(disk, path, file)[i] == Imported(NoDirectory(disk), path, file)[i]
        ensures Imported(disk, path, file)[i] == JoinPath(Dirname(path), file.uses.value[i])
      {
        NearWins(disk, Dirname(path), file.uses.value[i]);
        NearWins(NoDirectory(disk), Dirname(path), file.uses.value[i]);
      }
    }
  }

  ghost predicate AllBeside(disk: Disk, start: seq<string>) {
    forall q | Reached(disk, start, q) && q in disk.files :: Beside(disk, q, disk.files[q])
  }

  ghost predicate AllReached(disk: Disk, start: seq<string>, qs: seq<string>) {
    forall q | q in qs :: Reached(disk, start, q)
  }

  lemma ImportsReached(disk: Disk, start: seq<string>, q: string)
    requires Reached(disk, start, q) && q in disk.files
    ensures AllReached(disk, start, Imported(disk, q, disk.files[q]))
  {
    forall b | b in Imported(disk, q, disk.files[q]) ensures Reached(disk, start, b) {
      ReachedOneMore(disk, start, q, b);
    }
  }

  lemma {:induction false} SameVisits(disk: Disk, start: seq<string>, qs: seq<string>, s: Progress)
    requires AllBeside(disk, start) && AllReached(disk, start, qs)
    ensures VisitAll(disk, qs, s) == VisitAll(NoDirectory(disk), qs, s)
    decreases |Unvisited(disk, s.visited)|, 1, |qs|
  {
    if qs != [] && s.ok {
      var next := VisitOne(disk, qs[0], s);
      SameVisit(disk, start, qs[0], s);
      FewerUnvisited(disk, s.visited, next.visited);
      assert AllReached(disk, start, qs[1..]);
      SameVisits(disk, start, qs[1..], next);
    }
  }

  lemma {:induction false} SameVisit(disk: Disk, start: seq<string>, q: string, s: Progress)
    requires AllBeside(disk, start) && Reached(disk, start, q)
    ensures VisitOne(disk, q, s) == VisitOne(NoDirectory(disk), q, s)
    decreases |Unvisited(disk, s.visited)|, 0, 0
  {
    if q !in s.visited && Good(disk, q) {
      var file, visited := disk.files[q], s.visited + [q];
      BesideImports(disk, q, file);
      ImportsReached(disk, start, q);
      VisitShrinks(disk, s.visited, visited, q);
      SameVisits(disk, start, Imported(disk, q, file), Progress(visited, s.order, true));
    }
  }

  /**
   If every use of the root and of every file it reaches exists beside its importer, the import directory
   changes neither outcome nor order.
   */
  lemma BesideIgnoresDirectory(disk: Disk, path: string, file: File)
    requires Beside(disk, path, file) && AllBeside(disk, Imported(disk, path, file))
    ensures Walked(disk, path, file) == Walked(NoDirectory(disk), path, file)
  {
    var start := Imported(disk, path, file);
    BesideImports(disk, path, file);
    forall q | q in start ensures Reached(disk, start, q) {
      ReachesSelf(disk, q);
    }
    SameVisits(disk, start, start, Progress([], [], true));
  }

  // ----- an instance -----

  /** `use a` in `m/root.cxpr` means `m/a.cxpr`, even if the import directory `lib` has an `a.cxpr` too. */
  lemma OwnDirectoryFirst(disk: Disk, file: File)
    requires disk.importDir == Some("lib") && "m/a.cxpr" in disk.files && "lib/a.cxpr" in disk.files
    requires file.uses == Some(["a"]) && disk.files["m/a.cxpr"].uses == Some([])
    ensures Walked(disk, "m/root.cxpr", file) == Progress(["m/a.cxpr"], ["m/a.cxpr"], true)
  {
    DirnameOf("m", "root.cxpr");
    assert "m" + "/" + "root.cxpr" == "m/root.cxpr";
    JoinedPath("m", "a");
    assert "m" + "/" + "a" + ".cxpr" == "m/a.cxpr";
    var q := "m/a.cxpr";
    NearWins(disk, "m", "a");
    assert Imported(disk, "m/root.cxpr", file) == [q];
    var s := Progress([], [], true);
    assert [] + [q] == [q];
    assert Imported(disk, q, disk.files[q]) == [];
    assert VisitAll(disk, [], Progress([q], [], true)) == Progress([q], [], true);
    assert VisitOne(disk, q, s) == Progress([q], [q], true);
    assert [q][1..] == [] && VisitAll(disk, [], VisitOne(disk, q, s)) == VisitOne(disk, q, s);
  }
}
